/** Showing ANTS as ANET and reading them back (src/rpc.rs:6925-6955,
    src/explorer_assets/explorer.js:23-43). */
module Amounts {
  import opened Wrappers
  import opened Text

  const ANTS_PER_ANET: nat := 100_000_000
  const MAX_SAFE_INTEGER: nat := 9_007_199_254_740_991

  // --- fixed-width fractions ----------------------------------------------------

  function Power10(k: nat): nat {
    if k == 0 then 1 else 10 * Power10(k - 1)
  }

  /** The last `k` decimal digits, leading zeros included. */
  function Padded(f: nat, k: nat): string {
    if k == 0 then "" else Padded(f / 10, k - 1) + [Digit(f % 10)]
  }

  function Zeros(k: nat): (s: string)
    ensures |s| == k
  {
    if k == 0 then "" else Zeros(k - 1) + ['0']
  }

  function DropZeros(s: string): string {
    if s != [] && s[|s| - 1] == '0' then DropZeros(s[..|s| - 1]) else s
  }

  lemma {:induction false} PaddedValue(f: nat, k: nat)
    requires f < Power10(k)
    ensures |Padded(f, k)| == k && AllDigits(Padded(f, k)) && ValueOf(Padded(f, k)) == f
  {
    if k > 0 {
      PaddedValue(f / 10, k - 1);
      var s := Padded(f, k);
      assert s[..|s| - 1] == Padded(f / 10, k - 1);
    }
  }

  lemma {:induction false} ZerosAreZeros(k: nat)
    ensures |Zeros(k)| == k && forall i :: 0 <= i < k ==> Zeros(k)[i] == '0'
  {
    if k > 0 {
      ZerosAreZeros(k - 1);
    }
  }

  lemma {:induction false} DroppedZerosReturn(s: string)
    ensures DropZeros(s) <= s
    ensures forall i :: |DropZeros(s)| <= i < |s| ==> s[i] == '0'
    ensures AllDigits(s) ==> AllDigits(DropZeros(s))
  {
    if s != [] && s[|s| - 1] == '0' {
      DroppedZerosReturn(s[..|s| - 1]);
    }
  }

  /** Eight zeros appended, then cut to eight digits: the dropped zeros are back. */
  lemma RefilledFraction(s: string)
    requires |s| == 8
    ensures |DropZeros(s)| <= 8 && (DropZeros(s) + Zeros(8))[..8] == s
  {
    DroppedZerosReturn(s);
    ZerosAreZeros(8);
  }

  lemma {:induction false} NonZeroSurvives(s: string)
    requires AllDigits(s) && ValueOf(s) != 0
    ensures DropZeros(s) != []
  {
    if s != [] && s[|s| - 1] == '0' {
      NonZeroSurvives(s[..|s| - 1]);
    }
  }

  // --- printing and parsing ---------------------------------------------------------

  /** `formatAnetInput`; `format_anet_display` prints the same with grouped digits. */
  function FormatAnet(ants: nat): string {
    var fraction := DropZeros(Padded(ants % ANTS_PER_ANET, 8));
    if fraction == "" then Decimal(ants / ANTS_PER_ANET) else Decimal(ants / ANTS_PER_ANET) + "." + fraction
  }

  /** The index of the first full stop, or the length. */
  function FirstDot(s: string): (i: nat)
    ensures i <= |s|
  {
    if s == [] || s[0] == '.' then 0 else 1 + FirstDot(s[1..])
  }

  function WholePart(s: string): string {
    s[..FirstDot(s)]
  }

  function FractionPart(s: string): string {
    if FirstDot(s) == |s| then "" else s[FirstDot(s) + 1..]
  }

  /** `parseAnetToAnts`; None is any of its errors. */
  function ParseAnet(value: string): Option<nat> {
    var s := Trim(value);
    var whole, fraction := WholePart(s), FractionPart(s);
    if whole == "" || !AllDigits(whole) || !AllDigits(fraction) || |fraction| > 8 then None
    else
      var ants := ValueOf(whole) * ANTS_PER_ANET + ValueOf((fraction + Zeros(8))[..8]);
      if ants > MAX_SAFE_INTEGER then None else Some(ants)
  }

  lemma {:induction false} FirstDotAt(whole: string, rest: string)
    requires AllDigits(whole) && (rest == "" || rest[0] == '.')
    ensures FirstDot(whole + rest) == |whole|
  {
    if whole == [] {
      assert whole + rest == rest;
    } else {
      assert (whole + rest)[1..] == whole[1..] + rest;
      FirstDotAt(whole[1..], rest);
    }
  }

  lemma DigitsAreNotSpace(c: char)
    requires IsDigit(c)
    ensures !IsWhitespace(c)
  {
  }

  lemma FormattedParts(ants: nat)
    ensures
      var s := FormatAnet(ants);
      && Trimmed(s) && WholePart(s) == Decimal(ants / ANTS_PER_ANET)
      && FractionPart(s) == DropZeros(Padded(ants % ANTS_PER_ANET, 8))
  {
    var whole, fraction := Decimal(ants / ANTS_PER_ANET), DropZeros(Padded(ants % ANTS_PER_ANET, 8));
    var rest := if fraction == "" then "" else "." + fraction;
    var s := FormatAnet(ants);
    assert s == whole + rest;
    DecimalValue(ants / ANTS_PER_ANET);
    FractionDigits(ants);
    FirstDotAt(whole, rest);
    DigitsAreNotSpace(s[0]);
    DigitsAreNotSpace(s[|s| - 1]);
    if fraction != "" {
      assert s[|whole| + 1..] == fraction;
    }
  }

  lemma EightDigits(f: nat)
    requires f < ANTS_PER_ANET
    ensures f < Power10(8)
  {
    assert Power10(8) == 10 * Power10(7) == 100 * Power10(6) == 1000 * Power10(5) == 10000 * Power10(4);
    assert Power10(4) == 10 * Power10(3) == 100 * Power10(2) == 10000;
  }

  lemma FractionDigits(ants: nat)
    ensures var padded := Padded(ants % ANTS_PER_ANET, 8);
      && |padded| == 8 && ValueOf(padded) == ants % ANTS_PER_ANET
      && AllDigits(DropZeros(padded)) && |DropZeros(padded)| <= 8
  {
    EightDigits(ants % ANTS_PER_ANET);
    PaddedValue(ants % ANTS_PER_ANET, 8);
    DroppedZerosReturn(Padded(ants % ANTS_PER_ANET, 8));
  }

  /** Main result: what the form prints it reads back, for every amount a browser can hold
      exactly, and it refuses every larger one. */
  lemma ParseAfterFormat(ants: nat)
    ensures ParseAnet(FormatAnet(ants)) == if ants <= MAX_SAFE_INTEGER then Some(ants) else None
  {
    var s := FormatAnet(ants);
    FormattedParts(ants);
    TrimEndsTrimmed(s);
    DecimalValue(ants / ANTS_PER_ANET);
    FractionDigits(ants);
    RefilledFraction(Padded(ants % ANTS_PER_ANET, 8));
    ZerosAreZeros(8);
  }

  /** Zeros on the right multiply by ten. */
  lemma {:induction false} ZerosScale(s: string, k: nat)
    ensures ValueOf(s + Zeros(k)) == ValueOf(s) * Power10(k)
  {
    if k == 0 {
      assert s + Zeros(k) == s;
    } else {
      var t := s + Zeros(k);
      Joined(s, Zeros(k - 1), "0");
      assert t == s + Zeros(k - 1) + "0";
      Front(s + Zeros(k - 1), "0");
      ZerosScale(s, k - 1);
      TimesTen(ValueOf(s), Power10(k - 1));
    }
  }

  lemma TimesTen(v: nat, p: nat)
    ensures 10 * (v * p) == v * (10 * p)
  {
  }

  lemma ZerosPrefix(n: nat, k: nat)
    requires k <= n
    ensures Zeros(n)[..k] == Zeros(k)
  {
    ZerosAreZeros(n);
    ZerosAreZeros(k);
  }

  lemma Front(a: string, b: string)
    ensures (a + b)[..|a|] == a && (a + b)[|a|..] == b
  {
  }

  lemma Joined(a: string, b: string, c: string)
    ensures a + b + c == a + (b + c)
  {
  }

  lemma SplitAt(s: string, i: nat)
    requires i <= |s|
    ensures s == s[..i] + s[i..]
  {
  }

  lemma CutZeros(f: string)
    requires |f| <= 8
    ensures (f + Zeros(8))[..8] == f + Zeros(8 - |f|)
  {
    var k := 8 - |f|;
    var tail := Zeros(8)[k..];
    ZerosPrefix(8, k);
    SplitAt(Zeros(8), k);
    Joined(f, Zeros(k), tail);
    Front(f + Zeros(k), tail);
  }

  /** Digits, or digits, a full stop and at most eight digits more. */
  predicate Shape(s: string, whole: string, fraction: string) {
    && whole != "" && AllDigits(whole) && AllDigits(fraction) && |fraction| <= 8
    && (s == whole + "." + fraction || (s == whole && fraction == ""))
  }

  lemma ShapeParts(s: string, whole: string, fraction: string)
    requires Shape(s, whole, fraction)
    ensures WholePart(s) == whole && FractionPart(s) == fraction
  {
    var rest := if s == whole then "" else "." + fraction;
    assert s == whole + rest;
    FirstDotAt(whole, rest);
    assert s[..|whole|] == whole;
    if s != whole {
      assert s[|whole| + 1..] == fraction;
    }
  }

  lemma {:induction false} FirstDotIs(s: string)
    ensures Without(s[..FirstDot(s)], '.') && (FirstDot(s) < |s| ==> s[FirstDot(s)] == '.')
  {
    if s != [] && s[0] != '.' {
      FirstDotIs(s[1..]);
      assert s[..FirstDot(s)] == [s[0]] + s[1..][..FirstDot(s[1..])];
    }
  }

  /** The digits after the full stop, the eighth counting one. */
  function Hundredmillionths(fraction: string): nat
    requires |fraction| <= 8
  {
    ValueOf(fraction) * Power10(8 - |fraction|)
  }

  lemma FractionIsRead(fraction: string)
    requires |fraction| <= 8
    ensures ValueOf((fraction + Zeros(8))[..8]) == Hundredmillionths(fraction)
  {
    CutZeros(fraction);
    ZerosScale(fraction, 8 - |fraction|);
  }

  /** Main result: a form value of that shape, white space around it aside, is read digit by digit in its place,
      unless it comes to more than 2^53 - 1. */
  lemma ParseAnetIs(value: string, whole: string, fraction: string)
    requires Shape(Trim(value), whole, fraction)
    ensures
      var ants := ValueOf(whole) * 100_000_000 + Hundredmillionths(fraction);
      ParseAnet(value) == if ants <= 9_007_199_254_740_991 then Some(ants) else None
  {
    ShapeParts(Trim(value), whole, fraction);
    FractionIsRead(fraction);
    PartsAreRead(value, whole, fraction, Hundredmillionths(fraction));
  }

  lemma PartsAreRead(value: string, whole: string, fraction: string, v: nat)
    requires whole != "" && AllDigits(whole) && AllDigits(fraction) && |fraction| <= 8
    requires WholePart(Trim(value)) == whole && FractionPart(Trim(value)) == fraction
    requires ValueOf((fraction + Zeros(8))[..8]) == v
    ensures
      var ants := ValueOf(whole) * 100_000_000 + v;
      ParseAnet(value) == if ants <= 9_007_199_254_740_991 then Some(ants) else None
  {
  }

  lemma JoinedAtDot(s: string)
    ensures FirstDot(s) < |s| ==> s == WholePart(s) + "." + FractionPart(s)
    ensures FirstDot(s) == |s| ==> s == WholePart(s) && FractionPart(s) == ""
  {
    var i := FirstDot(s);
    FirstDotIs(s);
    SplitAt(s, i);
    if i < |s| {
      SplitAt(s[i..], 1);
      assert s[i..][..1] == "." && s[i..][1..] == s[i + 1..];
      Joined(s[..i], ".", s[i + 1..]);
    }
  }

  /** Whatever else is typed is refused. */
  lemma OtherShapesAreRefused(value: string)
    requires ParseAnet(value).Some?
    ensures Shape(Trim(value), WholePart(Trim(value)), FractionPart(Trim(value)))
  {
    JoinedAtDot(Trim(value));
  }

  /** What the form shows has no zero at the end of its fraction, and no fraction without digits. */
  lemma FormatHasNoSpareZero(ants: nat)
    ensures
      var s := FormatAnet(ants);
      s != [] && s[|s| - 1] != '.' && (FirstDot(s) < |s| ==> s[|s| - 1] != '0')
  {
    FormattedParts(ants);
    FractionDigits(ants);
    DecimalValue(ants / ANTS_PER_ANET);
    LastDropped(Padded(ants % ANTS_PER_ANET, 8));
    FirstDotAt(Decimal(ants / ANTS_PER_ANET), "");
    assert Decimal(ants / ANTS_PER_ANET) + "" == Decimal(ants / ANTS_PER_ANET);
  }

  lemma {:induction false} LastDropped(s: string)
    ensures DropZeros(s) == [] || DropZeros(s)[|DropZeros(s)| - 1] != '0'
  {
    if s != [] && s[|s| - 1] == '0' {
      LastDropped(s[..|s| - 1]);
    }
  }

  // --- grouped digits ----------------------------------------------------------------

  function WithoutCommas(s: string): string {
    if s == [] then [] else (if s[0] == ',' then "" else [s[0]]) + WithoutCommas(s[1..])
  }

  function Reversed(s: string): (r: string)
    ensures |r| == |s|
  {
    if s == [] then [] else Reversed(s[1..]) + [s[0]]
  }

  lemma {:induction false} ReversedAt(s: string, k: nat)
    requires k < |s|
    ensures Reversed(s)[k] == s[|s| - 1 - k]
  {
    if k < |s| - 1 {
      ReversedAt(s[1..], k);
    }
  }

  lemma {:induction false} CommasConcat(s: string, t: string)
    ensures WithoutCommas(s + t) == WithoutCommas(s) + WithoutCommas(t)
  {
    if s == [] {
      assert s + t == t;
    } else {
      assert (s + t)[1..] == s[1..] + t;
      CommasConcat(s[1..], t);
    }
  }

  lemma OneChar(c: char)
    ensures WithoutCommas([c]) == if c == ',' then "" else [c]
  {
    assert [c][1..] == [];
  }

  lemma {:induction false} ReversedSnoc(s: string, c: char)
    ensures Reversed(s + [c]) == [c] + Reversed(s)
  {
    if s == [] {
      assert s + [c] == [c] && [c][1..] == [];
    } else {
      assert (s + [c])[1..] == s[1..] + [c];
      ReversedSnoc(s[1..], c);
    }
  }

  lemma {:induction false} CommasReversed(s: string)
    ensures WithoutCommas(Reversed(s)) == Reversed(WithoutCommas(s))
  {
    if s != [] {
      CommasReversed(s[1..]);
      CommasConcat(Reversed(s[1..]), [s[0]]);
      OneChar(s[0]);
      if s[0] == ',' {
        assert WithoutCommas(s) == WithoutCommas(s[1..]);
        assert WithoutCommas(Reversed(s)) == WithoutCommas(Reversed(s[1..]));
      } else {
        assert Reversed([s[0]] + WithoutCommas(s[1..])) == Reversed(WithoutCommas(s[1..])) + [s[0]] by {
          assert ([s[0]] + WithoutCommas(s[1..]))[1..] == WithoutCommas(s[1..]);
        }
      }
    }
  }

  lemma {:induction false} ReversedTwice(s: string)
    ensures Reversed(Reversed(s)) == s
  {
    if s != [] {
      ReversedTwice(s[1..]);
      ReversedSnoc(Reversed(s[1..]), s[0]);
      assert [s[0]] + s[1..] == s;
    }
  }

  /** Counted from the end, every fourth character and no other is a comma. */
  predicate Grouped(s: string) {
    forall i :: 0 <= i < |s| ==> (s[|s| - 1 - i] == ',' <==> i % 4 == 3)
  }

  /** `text` holds the first `n` digits with a comma before every fourth, seventh, and so on. */
  predicate Laid(text: string, digits: string, n: nat)
    requires n <= |digits|
  {
    && |text| == (if n == 0 then 0 else n + (n - 1) / 3)
    && CommasInPlace(text)
    && WithoutCommas(text) == digits[..n]
  }

  function Separator(n: nat): string {
    if n != 0 && n % 3 == 0 then "," else ""
  }

  lemma Thirds(q: int, r: int)
    requires 0 <= r < 3
    ensures (3 * q + r) / 3 == q && (3 * q + r) % 3 == r
  {
  }

  lemma Quarters(q: int, r: int)
    requires 0 <= r < 4
    ensures (4 * q + r) % 4 == r
  {
  }

  /** Where the next digit and, if due, its comma fall. */
  lemma NextPlaces(length: nat, n: nat)
    requires length == if n == 0 then 0 else n + (n - 1) / 3
    ensures Separator(n) == "," ==> length % 4 == 3
    ensures (length + |Separator(n)|) % 4 != 3
    ensures length + |Separator(n)| + 1 == n + 1 + n / 3
  {
    var q, r := n / 3, n % 3;
    if n > 0 && r == 0 {
      Thirds(q - 1, 2);
      assert n - 1 == 3 * (q - 1) + 2 && length == 4 * (q - 1) + 3;
      Quarters(q - 1, 3);
      Quarters(q, 0);
    } else if n > 0 {
      Thirds(q, r - 1);
      assert n - 1 == 3 * q + (r - 1) && length == 4 * q + r;
      Quarters(q, r);
    }
  }

  predicate CommasInPlace(text: string) {
    forall k :: 0 <= k < |text| ==> (text[k] == ',' <==> k % 4 == 3)
  }

  lemma CommasStayInPlace(text: string, c: char)
    requires CommasInPlace(text) && (c == ',' <==> |text| % 4 == 3)
    ensures CommasInPlace(text + [c])
  {
  }

  lemma OneDigitMore(digits: string, n: nat)
    requires n < |digits|
    ensures digits[..n] + "" + [digits[n]] == digits[..n + 1]
  {
  }

  lemma SeparatorVanishes(n: nat)
    ensures WithoutCommas(Separator(n)) == ""
  {
    OneChar(',');
  }

  lemma DigitsLaid(text: string, digits: string, n: nat)
    requires n < |digits| && IsDigit(digits[n]) && WithoutCommas(text) == digits[..n]
    ensures WithoutCommas(text + Separator(n) + [digits[n]]) == digits[..n + 1]
  {
    CommasConcat(text, Separator(n));
    CommasConcat(text + Separator(n), [digits[n]]);
    SeparatorVanishes(n);
    OneChar(digits[n]);
    OneDigitMore(digits, n);
  }

  lemma LaidOneMore(text: string, digits: string, n: nat)
    requires n < |digits| && AllDigits(digits) && Laid(text, digits, n)
    ensures Laid(text + Separator(n) + [digits[n]], digits, n + 1)
  {
    NextPlaces(|text|, n);
    DigitsLaid(text, digits, n);
    if Separator(n) == "," {
      CommasStayInPlace(text, ',');
    } else {
      assert text + Separator(n) == text;
    }
    CommasStayInPlace(text + Separator(n), digits[n]);
  }

  lemma DigitsReversed(s: string)
    requires AllDigits(s)
    ensures AllDigits(Reversed(s))
  {
    forall k | 0 <= k < |s| ensures IsDigit(Reversed(s)[k]) {
      ReversedAt(s, k);
    }
  }

  lemma GroupedReversed(text: string)
    requires CommasInPlace(text)
    ensures Grouped(Reversed(text))
  {
    var s := Reversed(text);
    forall i | 0 <= i < |s| ensures s[|s| - 1 - i] == ',' <==> i % 4 == 3 {
      ReversedAt(text, |s| - 1 - i);
    }
  }

  lemma ReadBackwards(text: string, digits: string)
    requires WithoutCommas(text) == Reversed(digits)
    ensures WithoutCommas(Reversed(text)) == digits
  {
    CommasReversed(text);
    ReversedTwice(digits);
  }

  /** `format_integer`. */
  method FormatInteger(value: nat) returns (s: string)
    ensures WithoutCommas(s) == Decimal(value) && Grouped(s)
  {
    var digits := Reversed(Decimal(value));
    DecimalValue(value);
    DigitsReversed(Decimal(value));
    var formatted := "";
    for i := 0 to |digits|
      invariant Laid(formatted, digits, i)
    {
      LaidOneMore(formatted, digits, i);
      if i != 0 && i % 3 == 0 {
        formatted := formatted + ",";
      } else {
        assert formatted + Separator(i) == formatted;
      }
      formatted := formatted + [digits[i]];
    }
    assert digits[..|digits|] == digits;
    ReadBackwards(formatted, Decimal(value));
    GroupedReversed(formatted);
    s := Reversed(formatted);
  }

  method PopZeros(padded: string) returns (text: string)
    ensures text == DropZeros(padded)
  {
    text := padded;
    while text != [] && text[|text| - 1] == '0'
      invariant DropZeros(text) == DropZeros(padded)
    {
      text := text[..|text| - 1];
    }
  }

  lemma {:induction false} DigitsStay(s: string)
    requires AllDigits(s)
    ensures WithoutCommas(s) == s
  {
    if s != [] {
      DigitsStay(s[1..]);
      assert s == [s[0]] + s[1..];
    }
  }

  lemma {:induction false} AllZeros(s: string)
    requires AllDigits(s) && ValueOf(s) == 0
    ensures DropZeros(s) == ""
  {
    if s != [] {
      assert ValueOf(s[..|s| - 1]) == 0 && DigitValue(s[|s| - 1]) == 0;
      AllZeros(s[..|s| - 1]);
    }
  }

  lemma FractionShownUnlessZero(ants: nat)
    ensures DropZeros(Padded(ants % ANTS_PER_ANET, 8)) == "" <==> ants % ANTS_PER_ANET == 0
  {
    EightDigits(ants % ANTS_PER_ANET);
    PaddedValue(ants % ANTS_PER_ANET, 8);
    if ants % ANTS_PER_ANET == 0 {
      AllZeros(Padded(ants % ANTS_PER_ANET, 8));
    } else {
      NonZeroSurvives(Padded(ants % ANTS_PER_ANET, 8));
    }
  }

  lemma JoinedWithoutCommas(whole: string, fraction: string)
    requires AllDigits(fraction)
    ensures WithoutCommas(whole + "." + fraction) == WithoutCommas(whole) + "." + fraction
  {
    CommasConcat(whole + ".", fraction);
    CommasConcat(whole, ".");
    OneChar('.');
    DigitsStay(fraction);
  }

  /** `format_anet_display`: with the commas removed, the form reads the amount back. */
  method FormatAnetDisplay(ants: nat) returns (s: string)
    ensures WithoutCommas(s) == FormatAnet(ants)
    ensures ants <= MAX_SAFE_INTEGER ==> ParseAnet(WithoutCommas(s)) == Some(ants)
  {
    ParseAfterFormat(ants);
    FractionDigits(ants);
    FractionShownUnlessZero(ants);
    var whole := FormatInteger(ants / ANTS_PER_ANET);
    var fraction := ants % ANTS_PER_ANET;
    if fraction == 0 {
      return whole;
    }
    var text := PopZeros(Padded(fraction, 8));
    JoinedWithoutCommas(whole, text);
    s := whole + "." + text;
  }
}
