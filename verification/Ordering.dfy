/** String order and stable sorting, as `Ord` and `sort_by` provide them. */
module Ordering {
  import opened Sums

  /** Byte order on UTF-8 strings, which is code point order. */
  predicate LexLe(s: string, t: string) {
    if s == [] then true
    else if t == [] then false
    else s[0] < t[0] || (s[0] == t[0] && LexLe(s[1..], t[1..]))
  }

  predicate LexLt(s: string, t: string) {
    LexLe(s, t) && s != t
  }

  lemma {:induction false} LexTotal(s: string, t: string)
    ensures LexLe(s, t) || LexLe(t, s)
    ensures LexLe(s, s)
  {
    if s != [] {
      LexTotal(s[1..], if t == [] then [] else t[1..]);
    }
  }

  lemma {:induction false} LexAntisymmetric(s: string, t: string)
    requires LexLe(s, t) && LexLe(t, s)
    ensures s == t
  {
    if s != [] && t != [] {
      LexAntisymmetric(s[1..], t[1..]);
      assert s == [s[0]] + s[1..] && t == [t[0]] + t[1..];
    }
  }

  lemma {:induction false} LexTransitive(s: string, t: string, u: string)
    requires LexLe(s, t) && LexLe(t, u)
    ensures LexLe(s, u)
  {
    if s != [] && s[0] == t[0] == u[0] {
      LexTransitive(s[1..], t[1..], u[1..]);
    }
  }

  /** `k` is the first place where two strings differ. */
  predicate DifferFirstAt(s: string, t: string, k: int) {
    0 <= k < |s| && k < |t| && s[..k] == t[..k] && s[k] != t[k]
  }

  ghost predicate SmallerAtFirstDifference(s: string, t: string) {
    exists k :: DifferFirstAt(s, t, k) && s[k] < t[k]
  }

  predicate ProperPrefix(s: string, t: string) {
    |s| < |t| && s == t[..|s|]
  }

  /** Main result: one string is before another exactly when it is a proper prefix of it, or has the
      smaller character at the first place where they differ. */
  lemma {:induction false} LexLtIs(s: string, t: string)
    ensures LexLt(s, t) <==> ProperPrefix(s, t) || SmallerAtFirstDifference(s, t)
    decreases |s|
  {
    if s != [] && t != [] {
      assert s == [s[0]] + s[1..] && t == [t[0]] + t[1..];
      if s[0] != t[0] {
        HeadsDiffer(s, t);
      } else {
        LexLtIs(s[1..], t[1..]);
        SameHeadDiffers(s, t);
        SameHeadPrefix(s, t);
      }
    }
  }

  lemma HeadsDiffer(s: string, t: string)
    requires s != [] && t != [] && s[0] != t[0]
    ensures !ProperPrefix(s, t) && (SmallerAtFirstDifference(s, t) <==> s[0] < t[0])
  {
    assert DifferFirstAt(s, t, 0);
    forall k | DifferFirstAt(s, t, k) ensures k == 0 {
      SamePrefixSameHead(s, t, k);
    }
    SamePrefixSameHead(s, t, |s|);
    assert s[..|s|] == s;
  }

  lemma SamePrefixSameHead(s: string, t: string, k: int)
    requires s != [] && t != []
    ensures 0 < k <= |s| && k <= |t| && s[..k] == t[..k] ==> s[0] == t[0]
  {
    if 0 < k <= |s| && k <= |t| {
      assert s[..k][0] == s[0] && t[..k][0] == t[0];
    }
  }

  lemma SameHeadPrefix(s: string, t: string)
    requires s != [] && t != [] && s[0] == t[0]
    ensures ProperPrefix(s, t) <==> ProperPrefix(s[1..], t[1..])
  {
    if |s| < |t| {
      assert t[..|s|] == [t[0]] + t[1..][..|s| - 1];
      assert s == [s[0]] + s[1..] && t[..|s|][1..] == t[1..][..|s| - 1];
    }
  }

  lemma SameHeadDiffers(s: string, t: string)
    requires s != [] && t != [] && s[0] == t[0]
    ensures SmallerAtFirstDifference(s, t) <==> SmallerAtFirstDifference(s[1..], t[1..])
  {
    if SmallerAtFirstDifference(s, t) {
      var k :| DifferFirstAt(s, t, k) && s[k] < t[k];
      assert s[..k][1..] == s[1..][..k - 1] && t[..k][1..] == t[1..][..k - 1];
      assert DifferFirstAt(s[1..], t[1..], k - 1);
    }
    if SmallerAtFirstDifference(s[1..], t[1..]) {
      var k :| DifferFirstAt(s[1..], t[1..], k) && s[1..][k] < t[1..][k];
      assert s[..k + 1] == [s[0]] + s[1..][..k] && t[..k + 1] == [t[0]] + t[1..][..k];
      assert DifferFirstAt(s, t, k + 1);
    }
  }

  ghost predicate TotalPreorder<T(!new)>(le: (T, T) -> bool) {
    && (forall x, y :: le(x, y) || le(y, x))
    && (forall x, y, z :: le(x, y) && le(y, z) ==> le(x, z))
  }

  ghost predicate SortedBy<T(!new)>(s: seq<T>, le: (T, T) -> bool) {
    forall i, j :: 0 <= i < j < |s| ==> le(s[i], s[j])
  }

  function Insert<T>(x: T, s: seq<T>, le: (T, T) -> bool): seq<T> {
    if s == [] || le(x, s[0]) then [x] + s else [s[0]] + Insert(x, s[1..], le)
  }

  /** Elements the order does not separate keep their order. */
  function Sort<T>(s: seq<T>, le: (T, T) -> bool): seq<T> {
    if s == [] then [] else Insert(s[0], Sort(s[1..], le), le)
  }

  lemma {:induction false} InsertSorted<T(!new)>(x: T, s: seq<T>, le: (T, T) -> bool)
    requires TotalPreorder(le) && SortedBy(s, le)
    ensures SortedBy(Insert(x, s, le), le)
    ensures multiset(Insert(x, s, le)) == multiset(s) + multiset{x}
  {
    if s == [] || le(x, s[0]) {
      var r := [x] + s;
      forall i, j | 0 <= i < j < |r| ensures le(r[i], r[j]) {
        if i == 0 && j > 1 {
          assert le(x, s[0]) && le(s[0], s[j - 1]);
        }
      }
    } else {
      var tail := Insert(x, s[1..], le);
      InsertSorted(x, s[1..], le);
      assert s == [s[0]] + s[1..];
      var r := [s[0]] + tail;
      forall i, j | 0 <= i < j < |r| ensures le(r[i], r[j]) {
        if i == 0 {
          assert tail[j - 1] in multiset(tail);
          assert tail[j - 1] == x || tail[j - 1] in multiset(s[1..]);
          if tail[j - 1] != x {
            var k :| 0 <= k < |s[1..]| && s[1..][k] == tail[j - 1];
            assert le(s[0], s[k + 1]);
          }
        }
      }
    }
  }

  lemma {:induction false} SortSorts<T(!new)>(s: seq<T>, le: (T, T) -> bool)
    requires TotalPreorder(le)
    ensures SortedBy(Sort(s, le), le)
    ensures multiset(Sort(s, le)) == multiset(s)
  {
    if s != [] {
      SortSorts(s[1..], le);
      InsertSorted(s[0], Sort(s[1..], le), le);
      assert s == [s[0]] + s[1..];
    }
  }

  /** The elements of `s` that tie with `x`, in order. */
  function Ties<T>(s: seq<T>, le: (T, T) -> bool, x: T): seq<T> {
    if s == [] then [] else IfTies(s[0], le, x) + Ties(s[1..], le, x)
  }

  function IfTies<T>(y: T, le: (T, T) -> bool, x: T): seq<T> {
    if le(y, x) && le(x, y) then [y] else []
  }

  lemma TiesCons<T>(y: T, s: seq<T>, le: (T, T) -> bool, x: T)
    ensures Ties([y] + s, le, x) == IfTies(y, le, x) + Ties(s, le, x)
  {
    assert ([y] + s)[0] == y && ([y] + s)[1..] == s;
  }

  lemma OneTies<T(!new)>(y: T, z: T, le: (T, T) -> bool, x: T, rest: seq<T>)
    requires TotalPreorder(le) && !le(y, z)
    ensures IfTies(z, le, x) + (IfTies(y, le, x) + rest) == IfTies(y, le, x) + (IfTies(z, le, x) + rest)
  {
    assert le(y, x) && le(x, z) ==> le(y, z);
  }

  lemma {:induction false} InsertedTies<T(!new)>(y: T, s: seq<T>, le: (T, T) -> bool, x: T)
    requires TotalPreorder(le)
    ensures Ties(Insert(y, s, le), le, x) == IfTies(y, le, x) + Ties(s, le, x)
    decreases s
  {
    if s == [] || le(y, s[0]) {
      TiesCons(y, s, le, x);
    } else {
      InsertedTies(y, s[1..], le, x);
      TiesCons(s[0], Insert(y, s[1..], le), le, x);
      OneTies(y, s[0], le, x, Ties(s[1..], le, x));
    }
  }

  /** The sort is stable: elements that tie keep the order they came in. */
  lemma {:induction false} SortIsStable<T(!new)>(s: seq<T>, le: (T, T) -> bool, x: T)
    requires TotalPreorder(le)
    ensures Ties(Sort(s, le), le, x) == Ties(s, le, x)
  {
    if s != [] {
      SortIsStable(s[1..], le, x);
      InsertedTies(s[0], Sort(s[1..], le), le, x);
    }
  }

  /** No two different elements of `s` tie. */
  ghost predicate Separates<T(!new)>(le: (T, T) -> bool, s: multiset<T>) {
    forall x, y :: x in s && y in s && le(x, y) && le(y, x) ==> x == y
  }

  lemma SameHead<T(!new)>(s: seq<T>, t: seq<T>, le: (T, T) -> bool)
    requires SortedBy(s, le) && SortedBy(t, le) && multiset(s) == multiset(t)
    requires Separates(le, multiset(s))
    requires s != []
    ensures t != [] && s[0] == t[0]
  {
    assert s[0] in multiset(t);
    assert t[0] in multiset(s);
    var i :| 0 <= i < |s| && s[i] == t[0];
    var j :| 0 <= j < |t| && t[j] == s[0];
    if i != 0 && j != 0 {
      assert le(s[0], s[i]) && le(t[0], t[j]);
    }
  }

  lemma SortedTail<T(!new)>(s: seq<T>, le: (T, T) -> bool)
    requires s != [] && SortedBy(s, le)
    ensures SortedBy(s[1..], le)
    ensures multiset(s[1..]) <= multiset(s)
  {
    assert s == [s[0]] + s[1..];
  }

  lemma SameTails<T>(s: seq<T>, t: seq<T>)
    requires s != [] && t != [] && s[0] == t[0] && multiset(s) == multiset(t)
    ensures multiset(s[1..]) == multiset(t[1..])
  {
    assert [] + [s[0]] + t[1..] == t && [] + t[1..] == t[1..];
    RemoveSame(s, [], s[0], t[1..]);
  }

  lemma SameWhole<T>(s: seq<T>, t: seq<T>)
    requires s != [] && t != [] && s[0] == t[0] && s[1..] == t[1..]
    ensures s == t
  {
    assert s == [s[0]] + s[1..];
    assert t == [t[0]] + t[1..];
  }

  /** Where the order separates all elements, the sorted arrangement is unique. */
  lemma {:induction false} SortedUnique<T(!new)>(s: seq<T>, t: seq<T>, le: (T, T) -> bool)
    requires SortedBy(s, le) && SortedBy(t, le) && multiset(s) == multiset(t)
    requires Separates(le, multiset(s))
    ensures s == t
  {
    if s == [] {
      assert |multiset(t)| == |t|;
    } else {
      SameHead(s, t, le);
      SortedTail(s, le);
      SortedTail(t, le);
      SameTails(s, t);
      SortedUnique(s[1..], t[1..], le);
      SameWhole(s, t);
    }
  }
}
