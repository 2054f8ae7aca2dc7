/** Finite sums over maps and sequences. */
module Sums {
  /** The sum of all values of a map. */
  ghost function Sum<K(!new)>(m: map<K, int>): int {
    if m == map[] then 0
    else
      var k :| k in m;
      m[k] + Sum(m - {k})
  }

  lemma {:induction false} SumRemove<K(!new)>(m: map<K, int>, k: K)
    requires k in m
    ensures Sum(m) == m[k] + Sum(m - {k})
    decreases |m|
  {
    var j :| j in m && Sum(m) == m[j] + Sum(m - {j});
    if j != k {
      SumRemove(m - {j}, k);
      SumRemove(m - {k}, j);
      assert m - {j} - {k} == m - {k} - {j};
    }
  }

  lemma SumUpdate<K(!new)>(m: map<K, int>, k: K, v: int)
    ensures Sum(m[k := v]) == Sum(m) - (if k in m then m[k] else 0) + v
  {
    SumRemove(m[k := v], k);
    assert m[k := v] - {k} == m - {k};
    if k in m {
      SumRemove(m, k);
    } else {
      assert m - {k} == m;
    }
  }

  lemma {:induction false} SumAtLeast<K(!new)>(m: map<K, int>, k: K)
    requires forall j :: j in m ==> m[j] >= 0
    ensures Sum(m) >= (if k in m then m[k] else 0) >= 0
    decreases |m|
  {
    if k in m {
      SumRemove(m, k);
      if m - {k} != map[] {
        var j :| j in m - {k};
        SumAtLeast(m - {k}, j);
      }
    } else if m != map[] {
      var j :| j in m && Sum(m) == m[j] + Sum(m - {j});
      SumAtLeast(m - {j}, k);
    }
  }

  /** A part of non-negative terms sums to no more than the whole. */
  lemma {:induction false} SumOfPart<K(!new)>(part: map<K, int>, m: map<K, int>)
    requires forall k :: k in part ==> k in m && m[k] == part[k]
    requires forall k :: k in m ==> m[k] >= 0
    ensures Sum(part) <= Sum(m)
    decreases |part|
  {
    if part == map[] {
      if m != map[] {
        var k :| k in m;
        SumAtLeast(m, k);
      }
    } else {
      var k :| k in part;
      SumRemove(part, k);
      SumRemove(m, k);
      SumOfPart(part - {k}, m - {k});
    }
  }

  function SeqSum<T>(s: seq<T>, f: T -> nat): nat {
    if s == [] then 0 else f(s[0]) + SeqSum(s[1..], f)
  }

  lemma {:induction false} SeqSumConcat<T>(s: seq<T>, t: seq<T>, f: T -> nat)
    ensures SeqSum(s + t, f) == SeqSum(s, f) + SeqSum(t, f)
  {
    if s == [] {
      assert s + t == t;
    } else {
      assert (s + t)[1..] == s[1..] + t;
      SeqSumConcat(s[1..], t, f);
    }
  }

  lemma RemoveSame<T>(s: seq<T>, before: seq<T>, x: T, after: seq<T>)
    requires s != [] && s[0] == x
    requires multiset(s) == multiset(before + [x] + after)
    ensures multiset(s[1..]) == multiset(before + after)
  {
    assert s == [x] + s[1..];
    assert multiset(s) - multiset{x} == multiset(s[1..]);
    assert multiset(before + [x] + after) == multiset(before + after) + multiset{x};
    assert multiset(before + [x] + after) - multiset{x} == multiset(before + after);
  }

  /** Only the multiset of terms matters. */
  lemma {:induction false} SeqSumPermutation<T>(s: seq<T>, t: seq<T>, f: T -> nat)
    requires multiset(s) == multiset(t)
    ensures SeqSum(s, f) == SeqSum(t, f)
  {
    if s == [] {
      assert |multiset(t)| == |t|;
    } else {
      assert s[0] in multiset(t);
      var j :| 0 <= j < |t| && t[j] == s[0];
      var before, after := t[..j], t[j + 1..];
      assert t == before + [s[0]] + after;
      RemoveSame(s, before, s[0], after);
      SeqSumPermutation(s[1..], before + after, f);
      SeqSumConcat(before, after, f);
      SeqSumConcat(before, [s[0]], f);
      SeqSumConcat(before + [s[0]], after, f);
    }
  }
}
