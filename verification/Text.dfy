/** String helpers the node takes from Rust's standard library. */
module Text {
  /** The Unicode `White_Space` property. */
  predicate IsWhitespace(c: char) {
    || '\U{9}' <= c <= '\U{D}'
    || c in {' ', '\U{85}', '\U{A0}', '\U{1680}', '\U{2028}', '\U{2029}', '\U{202F}', '\U{205F}', '\U{3000}'}
    || '\U{2000}' <= c <= '\U{200A}'
  }

  function TrimStart(s: string): string {
    if s != [] && IsWhitespace(s[0]) then TrimStart(s[1..]) else s
  }

  function TrimEnd(s: string): string {
    if s != [] && IsWhitespace(s[|s| - 1]) then TrimEnd(s[..|s| - 1]) else s
  }

  function Trim(s: string): string {
    TrimEnd(TrimStart(s))
  }

  /** Already the result of trimming. */
  predicate Trimmed(s: string) {
    s == [] || (!IsWhitespace(s[0]) && !IsWhitespace(s[|s| - 1]))
  }

  lemma {:induction false} TrimEndsTrimmed(s: string)
    ensures Trimmed(Trim(s))
    ensures Trim(s) == s <==> Trimmed(s)
  {
    TrimStartFirst(s);
    TrimEndLast(TrimStart(s));
  }

  /** The code points of `White_Space`. */
  lemma WhitespaceIs(c: char)
    ensures IsWhitespace(c) <==>
      var n := c as int;
      9 <= n <= 13 || 8192 <= n <= 8202 || n in {32, 133, 160, 5760, 8232, 8233, 8239, 8287, 12288}
  {
  }

  predicate AllWhitespace(s: string) {
    forall i :: 0 <= i < |s| ==> IsWhitespace(s[i])
  }

  lemma {:induction false} TrimStartCuts(s: string)
    ensures |TrimStart(s)| <= |s| && TrimStart(s) == s[|s| - |TrimStart(s)|..]
    ensures AllWhitespace(s[..|s| - |TrimStart(s)|])
  {
    if s != [] && IsWhitespace(s[0]) {
      TrimStartCuts(s[1..]);
      var t := TrimStart(s);
      assert s[|s| - |t|..] == s[1..][|s| - 1 - |t|..];
      forall i | 0 <= i < |s| - |t| ensures IsWhitespace(s[i]) {
        assert i > 0 ==> s[i] == s[1..][..|s| - 1 - |t|][i - 1];
      }
    }
  }

  lemma {:induction false} TrimEndCuts(s: string)
    ensures TrimEnd(s) <= s && AllWhitespace(s[|TrimEnd(s)|..])
  {
    if s != [] && IsWhitespace(s[|s| - 1]) {
      var front, t := s[..|s| - 1], TrimEnd(s);
      TrimEndCuts(front);
      forall i | |t| <= i < |s| ensures IsWhitespace(s[i]) {
        assert i < |s| - 1 ==> s[i] == front[|t|..][i - |t|];
      }
    }
  }

  /** Main result: trimming takes away white space at both ends, nothing else, and all of it. */
  lemma TrimIs(s: string) returns (before: string, after: string)
    ensures s == before + Trim(s) + after && AllWhitespace(before) && AllWhitespace(after)
    ensures Trim(s) != [] ==> !IsWhitespace(Trim(s)[0]) && !IsWhitespace(Trim(s)[|Trim(s)| - 1])
  {
    TrimStartCuts(s);
    TrimEndCuts(TrimStart(s));
    TrimEndsTrimmed(s);
    before, after := s[..|s| - |TrimStart(s)|], TrimStart(s)[|Trim(s)|..];
    assert TrimStart(s) == Trim(s) + after;
    assert s == before + TrimStart(s) == before + (Trim(s) + after);
  }

  lemma {:induction false} TrimStartFirst(s: string)
    ensures TrimStart(s) == [] || !IsWhitespace(TrimStart(s)[0])
    ensures |TrimStart(s)| <= |s|
    ensures s != [] && IsWhitespace(s[0]) ==> |TrimStart(s)| < |s|
  {
    if s != [] && IsWhitespace(s[0]) {
      TrimStartFirst(s[1..]);
    }
  }

  lemma {:induction false} TrimEndLast(s: string)
    ensures TrimEnd(s) <= s
    ensures TrimEnd(s) == [] || !IsWhitespace(TrimEnd(s)[|TrimEnd(s)| - 1])
    ensures s != [] && IsWhitespace(s[|s| - 1]) ==> |TrimEnd(s)| < |s|
  {
    if s != [] && IsWhitespace(s[|s| - 1]) {
      TrimEndLast(s[..|s| - 1]);
    }
  }

  function LowerChar(c: char): char {
    if 'A' <= c <= 'Z' then c + ('a' - 'A') else c
  }

  function AsciiLower(s: string): string {
    if s == [] then [] else [LowerChar(s[0])] + AsciiLower(s[1..])
  }

  function UpperChar(c: char): char {
    if 'a' <= c <= 'z' then c - ('a' - 'A') else c
  }

  function AsciiUpper(s: string): string {
    if s == [] then [] else [UpperChar(s[0])] + AsciiUpper(s[1..])
  }

  /** Folding moves the 26 letters by 32 code points and leaves every other character alone. */
  lemma {:induction false} FoldedAt(s: string, i: nat)
    requires i < |s|
    ensures |AsciiLower(s)| == |s| == |AsciiUpper(s)|
    ensures
      var c, low, up := s[i] as int, AsciiLower(s)[i] as int, AsciiUpper(s)[i] as int;
      && low == (if 65 <= c <= 90 then c + 32 else c)
      && up == (if 97 <= c <= 122 then c - 32 else c)
  {
    FoldedLength(s);
    if i > 0 {
      FoldedAt(s[1..], i - 1);
    }
  }

  lemma {:induction false} FoldedLength(s: string)
    ensures |AsciiLower(s)| == |s| == |AsciiUpper(s)|
  {
    if s != [] {
      FoldedLength(s[1..]);
    }
  }

  predicate IsDigit(c: char) {
    '0' <= c <= '9'
  }

  predicate IsUpperHex(c: char) {
    IsDigit(c) || 'A' <= c <= 'F'
  }

  /** `is_valid_anet_wallet` (src/transaction.rs:716-721). */
  predicate ValidWallet(a: string) {
    && |a| == 40
    && "ANET" <= a
    && forall i :: 4 <= i < 40 ==> IsUpperHex(a[i])
  }

  function Digit(d: nat): char
    requires d < 10
  {
    '0' + d as char
  }

  function Decimal(n: nat): string {
    if n < 10 then [Digit(n)] else Decimal(n / 10) + [Digit(n % 10)]
  }

  function SignedDecimal(n: int): string {
    if n < 0 then "-" + Decimal(-n) else Decimal(n)
  }

  function DigitValue(c: char): nat {
    if IsDigit(c) then (c - '0') as nat else 0
  }

  function ValueOf(ds: string): nat {
    if ds == [] then 0 else 10 * ValueOf(ds[..|ds| - 1]) + DigitValue(ds[|ds| - 1])
  }

  function SignedValueOf(s: string): int {
    if s != [] && s[0] == '-' then 0 - ValueOf(s[1..]) else ValueOf(s)
  }

  predicate AllDigits(s: string) {
    forall i :: 0 <= i < |s| ==> IsDigit(s[i])
  }

  lemma {:induction false} DecimalValue(n: nat)
    ensures Decimal(n) != [] && AllDigits(Decimal(n))
    ensures ValueOf(Decimal(n)) == n
  {
    if n < 10 {
      assert [Digit(n)][..0] == [];
    } else {
      DecimalValue(n / 10);
      var ds := Decimal(n);
      assert ds[..|ds| - 1] == Decimal(n / 10);
    }
  }

  /** A number is written without leading zeros, and only its first character may be a sign. */
  lemma {:induction false} DecimalHasNoLeadingZero(n: nat)
    ensures Decimal(n) != [] && (Decimal(n)[0] == '0' <==> n == 0)
    ensures n == 0 ==> Decimal(n) == "0"
    ensures SignedDecimal(n) == Decimal(n) && (n > 0 ==> SignedDecimal(0 - n) == "-" + Decimal(n))
  {
    if n >= 10 {
      DecimalHasNoLeadingZero(n / 10);
    }
  }

  lemma SignedDecimalValue(n: int)
    ensures SignedValueOf(SignedDecimal(n)) == n
  {
    DecimalValue(if n < 0 then -n else n);
    if n < 0 {
      assert SignedDecimal(n)[1..] == Decimal(-n);
    }
  }

  predicate Without(s: string, c: char) {
    forall i :: 0 <= i < |s| ==> s[i] != c
  }

  lemma SignedDecimalWithout(n: int, c: char)
    requires !IsDigit(c) && c != '-'
    ensures Without(SignedDecimal(n), c)
  {
    DecimalValue(if n < 0 then -n else n);
  }

  lemma {:induction false} UpperKeeps(s: string)
    requires forall i :: 0 <= i < |s| ==> !('a' <= s[i] <= 'z')
    ensures AsciiUpper(s) == s
  {
    if s != [] {
      UpperKeeps(s[1..]);
    }
  }

  lemma {:induction false} UpperKeepsShape(s: string)
    ensures AsciiUpper(AsciiUpper(s)) == AsciiUpper(s)
    ensures |AsciiUpper(s)| == |s|
    ensures forall i :: 0 <= i < |s| ==> AsciiUpper(s)[i] == UpperChar(s[i])
  {
    if s != [] {
      UpperKeepsShape(s[1..]);
      assert AsciiUpper(s)[1..] == AsciiUpper(s[1..]);
    }
  }

  lemma UpperStaysTrimmed(s: string)
    requires Trimmed(s)
    ensures Trimmed(AsciiUpper(s))
  {
    UpperKeepsShape(s);
    if s != [] {
      assert AsciiUpper(s)[0] == UpperChar(s[0]);
      assert AsciiUpper(s)[|s| - 1] == UpperChar(s[|s| - 1]);
    }
  }

  /** Normalising an address twice changes nothing more. */
  lemma NormalisedOnce(s: string)
    ensures AsciiUpper(Trim(AsciiUpper(Trim(s)))) == AsciiUpper(Trim(s))
  {
    TrimEndsTrimmed(s);
    UpperStaysTrimmed(Trim(s));
    TrimEndsTrimmed(AsciiUpper(Trim(s)));
    UpperKeepsShape(Trim(s));
  }

  /** A wallet is the prefix ANET and 36 upper-case hexadecimal digits. */
  lemma ValidWalletIs(a: string)
    ensures ValidWallet(a) <==>
            && |a| == 40 && a[..4] == "ANET"
            && forall i :: 4 <= i < 40 ==> 48 <= a[i] as int <= 57 || 65 <= a[i] as int <= 70
  {
  }

  /** A valid wallet is already trimmed and upper-case, and holds letters and digits only. */
  lemma WalletIsNormal(a: string)
    requires ValidWallet(a)
    ensures AsciiUpper(Trim(a)) == a
    ensures Without(a, '|')
  {
    forall i | 0 <= i < |a| ensures 'A' <= a[i] <= 'Z' || IsDigit(a[i]) {
      if i < 4 {
        assert a[i] == "ANET"[i];
      }
    }
    TrimEndsTrimmed(a);
    UpperKeeps(a);
  }
}
