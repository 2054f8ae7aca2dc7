/** The texts that get hashed and signed (src/transaction.rs:347-413).

    Fields are joined by '|', and the free-form ones may contain '|' themselves: the
    transaction type, and strings inside the payload. The texts still determine the
    fields. A '|' in canonical JSON sits inside a string literal, so the number of
    unescaped quotes after it is odd, and the payload can start in one place only. */
module Preimages {
  import opened Text
  import opened CanonicalJson

  datatype TxFields = TxFields(
    txType: string, from: string, to: string, amount: nat, fee: nat, nonce: nat,
    millis: int, chainId: string, payload: Json)

  datatype ActionFields = ActionFields(
    actionType: string, wallet: string, nonce: nat, millis: int, chainId: string, payload: Json)

  datatype ProofFields = ProofFields(
    miner: string, nonce: nat, millis: int, chainId: string, proofHash: string, difficulty: nat)

  function Bar(before: string, field: string): string {
    before + "|" + field
  }

  function NormalType(s: string): string {
    AsciiLower(Trim(s))
  }

  function NormalWallet(s: string): string {
    AsciiUpper(Trim(s))
  }

  function TxPreimage(f: TxFields): string {
    Bar(Bar(Bar(Bar(Bar(Bar(Bar(Bar(Bar("v1", NormalType(f.txType)), NormalWallet(f.from)), NormalWallet(f.to)),
                            SignedDecimal(f.amount)), SignedDecimal(f.fee)), SignedDecimal(f.nonce)),
                SignedDecimal(f.millis)), Trim(f.chainId)), Print(f.payload))
  }

  function ActionPreimage(f: ActionFields): string {
    Bar(Bar(Bar(Bar(Bar(Bar("action-v1", NormalType(f.actionType)), NormalWallet(f.wallet)),
                    SignedDecimal(f.nonce)), SignedDecimal(f.millis)), Trim(f.chainId)), Print(f.payload))
  }

  function ProofPreimage(f: ProofFields): string {
    Bar(Bar(Bar(Bar(Bar(Bar("proof-v1", NormalWallet(f.miner)), SignedDecimal(f.nonce)), SignedDecimal(f.millis)),
                Trim(f.chainId)), NormalType(f.proofHash)), SignedDecimal(f.difficulty))
  }

  // --- quote parity ----------------------------------------------------------

  /** Inside a string literal or not, and just after a backslash or not. */
  datatype Mode = Mode(quoted: bool, escaped: bool)

  const OUTSIDE := Mode(false, false)
  const INSIDE := Mode(true, false)

  function Advance(m: Mode, c: char): Mode {
    if m.escaped then m.(escaped := false)
    else if c == '\\' then m.(escaped := true)
    else if c == '"' then m.(quoted := !m.quoted)
    else m
  }

  function Scan(s: string, m: Mode): Mode
    decreases |s|
  {
    if s == [] then m else Scan(s[1..], Advance(m, s[0]))
  }

  /** Every '|' is met inside a string literal. */
  predicate BarsQuoted(s: string, m: Mode)
    decreases |s|
  {
    s == [] || ((s[0] == '|' ==> m.quoted) && BarsQuoted(s[1..], Advance(m, s[0])))
  }

  predicate Steady(s: string, m: Mode) {
    Scan(s, m) == m && BarsQuoted(s, m)
  }

  lemma {:induction false} ScanConcat(s: string, t: string, m: Mode)
    ensures Scan(s + t, m) == Scan(t, Scan(s, m))
    ensures BarsQuoted(s + t, m) <==> BarsQuoted(s, m) && BarsQuoted(t, Scan(s, m))
    decreases |s|
  {
    if s == [] {
      assert s + t == t;
    } else {
      assert (s + t)[1..] == s[1..] + t;
      ScanConcat(s[1..], t, Advance(m, s[0]));
    }
  }

  lemma SteadyConcat(s: string, t: string, m: Mode)
    requires Steady(s, m) && Steady(t, m)
    ensures Steady(s + t, m)
  {
    ScanConcat(s, t, m);
  }

  predicate Plain(s: string) {
    Without(s, '"') && Without(s, '\\') && Without(s, '|')
  }

  lemma {:induction false} PlainIsSteady(s: string, m: Mode)
    requires Plain(s) && !m.escaped
    ensures Steady(s, m)
    decreases |s|
  {
    if s != [] {
      PlainIsSteady(s[1..], m);
    }
  }

  function Flip(m: Mode): Mode {
    m.(quoted := !m.quoted)
  }

  /** Scanning never looks at where it started. */
  lemma {:induction false} ScanFlip(s: string, m: Mode)
    ensures Scan(s, Flip(m)) == Flip(Scan(s, m))
    decreases |s|
  {
    if s != [] {
      assert Advance(Flip(m), s[0]) == Flip(Advance(m, s[0]));
      ScanFlip(s[1..], Advance(m, s[0]));
    }
  }

  lemma {:induction false} BarLeavesInside(s: string, m: Mode, i: nat)
    requires BarsQuoted(s, m) && i < |s| && s[i] == '|'
    ensures Scan(s[..i + 1], m) == INSIDE
    decreases |s|
  {
    var p := s[..i + 1];
    if i == 0 {
      assert p[1..] == [];
    } else {
      assert p[1..] == s[1..][..i];
      BarLeavesInside(s[1..], Advance(m, s[0]), i - 1);
    }
  }

  lemma ScanTwo(c: char, d: char, m: Mode)
    ensures Scan([c, d], m) == Advance(Advance(m, c), d)
    ensures BarsQuoted([c, d], m) <==> (c == '|' ==> m.quoted) && (d == '|' ==> Advance(m, c).quoted)
  {
    assert [c] + [d] == [c, d];
    ScanConcat([c], [d], m);
    assert [c][1..] == [] && [d][1..] == [];
    assert Scan([c], m) == Scan([], Advance(m, c)) == Advance(m, c);
    assert Scan([d], Advance(m, c)) == Scan([], Advance(Advance(m, c), d));
  }

  lemma EscapeCharSteady(c: char)
    ensures Steady(EscapeChar(c), INSIDE)
  {
    var e := EscapeChar(c);
    if e == [c] {
      assert e[1..] == [];
    } else if |e| == 2 {
      ScanTwo(e[0], e[1], INSIDE);
      assert e == [e[0], e[1]];
    } else {
      var hex := [HexDigit(c as nat / 16), HexDigit(c as nat % 16)];
      assert e == ['\\', 'u'] + ("00" + hex);
      ScanTwo('\\', 'u', INSIDE);
      PlainIsSteady("00" + hex, INSIDE);
      SteadyConcat(['\\', 'u'], "00" + hex, INSIDE);
    }
  }

  lemma {:induction false} EscapeSteady(s: string)
    ensures Steady(Escape(s), INSIDE)
  {
    if s != [] {
      EscapeCharSteady(s[0]);
      EscapeSteady(s[1..]);
      SteadyConcat(EscapeChar(s[0]), Escape(s[1..]), INSIDE);
    }
  }

  lemma QuoteSteady(s: string)
    ensures Steady(Quote(s), OUTSIDE)
  {
    EscapeSteady(s);
    assert "\""[1..] == "";
    assert Scan("\"", OUTSIDE) == INSIDE && Scan("\"", INSIDE) == OUTSIDE;
    assert BarsQuoted("\"", OUTSIDE) && BarsQuoted("\"", INSIDE);
    ScanConcat("\"", Escape(s), OUTSIDE);
    ScanConcat("\"" + Escape(s), "\"", OUTSIDE);
  }

  lemma PlainLiteral(s: string)
    requires s in {"null", "true", "false", "[", "]", "{", "}", ",", ":", ""}
    ensures Steady(s, OUTSIDE)
  {
    PlainIsSteady(s, OUTSIDE);
  }

  lemma NumberPlain(n: int)
    ensures Plain(SignedDecimal(n))
  {
    SignedDecimalWithout(n, '"');
    SignedDecimalWithout(n, '\\');
    SignedDecimalWithout(n, '|');
  }

  lemma {:induction false} RenderSteady(v: Json)
    ensures Steady(Render(v), OUTSIDE)
    decreases v, 0
  {
    match v
    case Null => PlainLiteral("null");
    case Bool(b) => PlainLiteral(if b then "true" else "false");
    case Number(n) =>
      NumberPlain(n);
      PlainIsSteady(SignedDecimal(n), OUTSIDE);
    case String(s) => QuoteSteady(s);
    case Array(items) =>
      ItemsSteady(items);
      Enclose("[", RenderItems(items), "]");
    case Object(ms) =>
      MembersSteady(ms);
      Enclose("{", RenderMembers(ms), "}");
  }

  lemma Enclose(a: string, s: string, b: string)
    requires a in {"[", "{"} && b in {"]", "}"} && Steady(s, OUTSIDE)
    ensures Steady(a + s + b, OUTSIDE)
  {
    PlainLiteral(a);
    PlainLiteral(b);
    SteadyConcat(a, s, OUTSIDE);
    SteadyConcat(a + s, b, OUTSIDE);
  }

  lemma Separate(a: string, sep: string, b: string)
    requires sep in {",", ":"} && Steady(a, OUTSIDE) && Steady(b, OUTSIDE)
    ensures Steady(a + sep + b, OUTSIDE)
  {
    PlainLiteral(sep);
    SteadyConcat(a, sep, OUTSIDE);
    SteadyConcat(a + sep, b, OUTSIDE);
  }

  lemma {:induction false} ItemsSteady(items: seq<Json>)
    ensures Steady(RenderItems(items), OUTSIDE)
    decreases items, 1
  {
    if items == [] {
      PlainLiteral("");
    } else {
      RenderSteady(items[0]);
      if |items| > 1 {
        ItemsSteady(items[1..]);
        Separate(Render(items[0]), ",", RenderItems(items[1..]));
      }
    }
  }

  lemma {:induction false} MembersSteady(ms: seq<Member>)
    ensures Steady(RenderMembers(ms), OUTSIDE)
    decreases ms, 1
  {
    if ms == [] {
      PlainLiteral("");
    } else {
      QuoteSteady(ms[0].key);
      RenderSteady(ms[0].value);
      Separate(Quote(ms[0].key), ":", Render(ms[0].value));
      if |ms| > 1 {
        MembersSteady(ms[1..]);
        Separate(RenderMember(ms[0]), ",", RenderMembers(ms[1..]));
      }
    }
  }

  // --- taking the texts apart from the right ---------------------------------

  /** A steady last field cannot be a proper suffix of another one behind a bar. */
  lemma NoShorterPayload(a: string, p: string, b: string, q: string)
    requires Bar(a, p) == Bar(b, q) && Steady(p, OUTSIDE) && Steady(q, OUTSIDE)
    ensures |p| >= |q|
  {
    if |p| < |q| {
      var k := |q| - |p|;
      var whole := Bar(a, p);
      assert whole[|whole| - |p|..] == p && whole[|whole| - |q|..] == q;
      assert whole[|whole| - |p| - 1] == '|';
      assert q[k..] == p && q[k - 1] == '|';
      BarLeavesInside(q, OUTSIDE, k - 1);
      assert q == q[..k] + p;
      ScanConcat(q[..k], p, OUTSIDE);
      assert INSIDE == Flip(OUTSIDE);
      ScanFlip(p, OUTSIDE);
    }
  }

  lemma SplitLast(a: string, p: string, b: string, q: string)
    requires Bar(a, p) == Bar(b, q) && |p| == |q|
    ensures a == b && p == q
  {
    var whole := Bar(a, p);
    assert whole[|whole| - |p|..] == p && whole[|whole| - |q|..] == q;
    assert whole[..|a|] == a && whole[..|b|] == b;
  }

  lemma SplitPayload(a: string, p: Json, b: string, q: Json)
    requires Bar(a, Print(p)) == Bar(b, Print(q))
    ensures a == b && SameJson(p, q)
  {
    RenderSteady(Canon(p));
    RenderSteady(Canon(q));
    NoShorterPayload(a, Print(p), b, Print(q));
    NoShorterPayload(b, Print(q), a, Print(p));
    SplitLast(a, Print(p), b, Print(q));
    PrintIffSame(p, q);
  }

  lemma BarPosition(a: string, f: string, b: string, g: string)
    requires Bar(a, f) == Bar(b, g) && |f| < |g|
    ensures exists i :: 0 <= i < |g| && g[i] == '|'
  {
    var whole := Bar(a, f);
    assert whole[|a|] == '|';
    assert g[|a| - |b| - 1] == Bar(b, g)[|a|];
  }

  lemma NoShorterField(a: string, f: string, b: string, g: string)
    requires Bar(a, f) == Bar(b, g) && Without(g, '|')
    ensures |f| >= |g|
  {
    if |f| < |g| {
      BarPosition(a, f, b, g);
    }
  }

  lemma SplitField(a: string, f: string, b: string, g: string)
    requires Bar(a, f) == Bar(b, g) && Without(f, '|') && Without(g, '|')
    ensures a == b && f == g
  {
    NoShorterField(a, f, b, g);
    NoShorterField(b, g, a, f);
    SplitLast(a, f, b, g);
  }

  lemma SplitNumber(a: string, m: int, b: string, n: int)
    requires Bar(a, SignedDecimal(m)) == Bar(b, SignedDecimal(n))
    ensures a == b && m == n
  {
    SignedDecimalWithout(m, '|');
    SignedDecimalWithout(n, '|');
    SplitField(a, SignedDecimal(m), b, SignedDecimal(n));
    SignedDecimalValue(m);
    SignedDecimalValue(n);
  }

  lemma SplitWallet(a: string, x: string, b: string, y: string)
    requires ValidWallet(x) && ValidWallet(y) && Bar(a, NormalWallet(x)) == Bar(b, NormalWallet(y))
    ensures a == b && x == y
  {
    WalletIsNormal(x);
    WalletIsNormal(y);
    SplitField(a, x, b, y);
  }

  lemma SplitFirst(head: string, s: string, t: string)
    requires Bar(head, s) == Bar(head, t)
    ensures s == t
  {
    SplitLast(head, s, head, t);
  }

  /** The fields as the node normalises them. */
  ghost predicate SameTx(x: TxFields, y: TxFields) {
    && NormalType(x.txType) == NormalType(y.txType)
    && x.from == y.from && x.to == y.to
    && x.amount == y.amount && x.fee == y.fee && x.nonce == y.nonce && x.millis == y.millis
    && SameJson(x.payload, y.payload)
  }

  /** Main result: on one chain and between valid wallets, two transactions have the same
      signing preimage exactly when they agree in every normalised field, even when the
      type or the payload contains the separator. */
  lemma TxPreimageInjective(x: TxFields, y: TxFields)
    requires ValidWallet(x.from) && ValidWallet(x.to) && ValidWallet(y.from) && ValidWallet(y.to)
    requires Trim(x.chainId) == Trim(y.chainId)
    ensures TxPreimage(x) == TxPreimage(y) <==> SameTx(x, y)
  {
    PrintIffSame(x.payload, y.payload);
    if TxPreimage(x) == TxPreimage(y) {
      var xt, yt := Bar("v1", NormalType(x.txType)), Bar("v1", NormalType(y.txType));
      var xf, yf := Bar(xt, NormalWallet(x.from)), Bar(yt, NormalWallet(y.from));
      var xo, yo := Bar(xf, NormalWallet(x.to)), Bar(yf, NormalWallet(y.to));
      var xa, ya := Bar(xo, SignedDecimal(x.amount)), Bar(yo, SignedDecimal(y.amount));
      var xe, ye := Bar(xa, SignedDecimal(x.fee)), Bar(ya, SignedDecimal(y.fee));
      var xn, yn := Bar(xe, SignedDecimal(x.nonce)), Bar(ye, SignedDecimal(y.nonce));
      var xm, ym := Bar(xn, SignedDecimal(x.millis)), Bar(yn, SignedDecimal(y.millis));
      SplitPayload(Bar(xm, Trim(x.chainId)), x.payload, Bar(ym, Trim(y.chainId)), y.payload);
      SplitLast(xm, Trim(x.chainId), ym, Trim(y.chainId));
      SplitNumber(xn, x.millis, yn, y.millis);
      SplitNumber(xe, x.nonce, ye, y.nonce);
      SplitNumber(xa, x.fee, ya, y.fee);
      SplitNumber(xo, x.amount, yo, y.amount);
      SplitWallet(xf, x.to, yf, y.to);
      SplitWallet(xt, x.from, yt, y.from);
      SplitFirst("v1", NormalType(x.txType), NormalType(y.txType));
    }
  }

  ghost predicate SameAction(x: ActionFields, y: ActionFields) {
    && NormalType(x.actionType) == NormalType(y.actionType)
    && x.wallet == y.wallet && x.nonce == y.nonce && x.millis == y.millis
    && SameJson(x.payload, y.payload)
  }

  /** Main result: the same for action authorisations. */
  lemma ActionPreimageInjective(x: ActionFields, y: ActionFields)
    requires ValidWallet(x.wallet) && ValidWallet(y.wallet)
    requires Trim(x.chainId) == Trim(y.chainId)
    ensures ActionPreimage(x) == ActionPreimage(y) <==> SameAction(x, y)
  {
    PrintIffSame(x.payload, y.payload);
    if ActionPreimage(x) == ActionPreimage(y) {
      var xt, yt := Bar("action-v1", NormalType(x.actionType)), Bar("action-v1", NormalType(y.actionType));
      var xw, yw := Bar(xt, NormalWallet(x.wallet)), Bar(yt, NormalWallet(y.wallet));
      var xn, yn := Bar(xw, SignedDecimal(x.nonce)), Bar(yw, SignedDecimal(y.nonce));
      var xm, ym := Bar(xn, SignedDecimal(x.millis)), Bar(yn, SignedDecimal(y.millis));
      SplitPayload(Bar(xm, Trim(x.chainId)), x.payload, Bar(ym, Trim(y.chainId)), y.payload);
      SplitLast(xm, Trim(x.chainId), ym, Trim(y.chainId));
      SplitNumber(xn, x.millis, yn, y.millis);
      SplitNumber(xw, x.nonce, yw, y.nonce);
      SplitWallet(xt, x.wallet, yt, y.wallet);
      SplitFirst("action-v1", NormalType(x.actionType), NormalType(y.actionType));
    }
  }

  // --- reading from the left ---------------------------------------------------

  /** A field followed by the rest of a text. */
  function Then(field: string, rest: string): string {
    field + ("|" + rest)
  }

  lemma BarThen(before: string, field: string, rest: string)
    ensures Then(Bar(before, field), rest) == Then(before, Then(field, rest))
  {
    assert before + "|" + field + ("|" + rest) == before + ("|" + (field + ("|" + rest)));
  }

  lemma LongerFieldHoldsBar(f: string, rest: string, g: string, other: string)
    requires Then(f, rest) == Then(g, other) && |f| > |g|
    ensures f[|g|] == '|'
  {
    assert f[|g|] == Then(f, rest)[|g|];
  }

  lemma SplitLeft(f: string, rest: string, g: string, other: string)
    requires Then(f, rest) == Then(g, other) && Without(f, '|') && Without(g, '|')
    ensures f == g && rest == other
  {
    if |f| > |g| {
      LongerFieldHoldsBar(f, rest, g, other);
    } else if |g| > |f| {
      LongerFieldHoldsBar(g, other, f, rest);
    }
    assert Then(f, rest)[..|f|] == f && Then(g, other)[..|g|] == g;
    assert Then(f, rest)[|f| + 1..] == rest && Then(g, other)[|g| + 1..] == other;
  }

  /** A proof text without its difficulty, read from the left. */
  function FromLeft(f: ProofFields): string {
    Then("proof-v1", Then(NormalWallet(f.miner), Then(SignedDecimal(f.nonce), Then(SignedDecimal(f.millis),
         Then(Trim(f.chainId), NormalType(f.proofHash))))))
  }

  lemma ProofFromLeft(f: ProofFields)
    ensures ProofPreimage(f) == Bar(FromLeft(f), SignedDecimal(f.difficulty))
  {
    var w, n, m, c, h := NormalWallet(f.miner), SignedDecimal(f.nonce), SignedDecimal(f.millis), Trim(f.chainId),
      NormalType(f.proofHash);
    var xw := Bar("proof-v1", w);
    var xn := Bar(xw, n);
    var xm := Bar(xn, m);
    BarThen(xm, c, h);
    assert Bar(Bar(xm, c), h) == Then(Bar(xm, c), h);
    BarThen(xn, m, Then(c, h));
    BarThen(xw, n, Then(m, Then(c, h)));
    BarThen("proof-v1", w, Then(n, Then(m, Then(c, h))));
  }

  lemma SplitLeftNumber(m: int, rest: string, n: int, other: string)
    requires Then(SignedDecimal(m), rest) == Then(SignedDecimal(n), other)
    ensures m == n && rest == other
  {
    SignedDecimalWithout(m, '|');
    SignedDecimalWithout(n, '|');
    SplitLeft(SignedDecimal(m), rest, SignedDecimal(n), other);
    SignedDecimalValue(m);
    SignedDecimalValue(n);
  }

  lemma SplitDifficulty(x: ProofFields, y: ProofFields)
    requires ProofPreimage(x) == ProofPreimage(y)
    ensures x.difficulty == y.difficulty && FromLeft(x) == FromLeft(y)
  {
    ProofFromLeft(x);
    ProofFromLeft(y);
    SplitNumber(FromLeft(x), x.difficulty, FromLeft(y), y.difficulty);
  }

  lemma SameRest(head: string, s: string, t: string)
    requires Then(head, s) == Then(head, t)
    ensures s == t
  {
    assert Then(head, s) == Bar(head, s) && Then(head, t) == Bar(head, t);
    SplitFirst(head, s, t);
  }

  /** Main result: the same for mining proofs, whatever the proof hash holds: all fields before it
      split from the left, the difficulty from the right. */
  lemma ProofPreimageInjective(x: ProofFields, y: ProofFields)
    requires ValidWallet(x.miner) && ValidWallet(y.miner)
    requires Trim(x.chainId) == Trim(y.chainId)
    ensures ProofPreimage(x) == ProofPreimage(y) <==>
            && x.miner == y.miner && x.nonce == y.nonce && x.millis == y.millis
            && NormalType(x.proofHash) == NormalType(y.proofHash) && x.difficulty == y.difficulty
  {
    if ProofPreimage(x) == ProofPreimage(y) {
      var c, xh, yh := Trim(x.chainId), NormalType(x.proofHash), NormalType(y.proofHash);
      SplitDifficulty(x, y);
      ProofFieldsAgree(x, y, Then(c, xh), Then(c, yh));
      SameRest(c, xh, yh);
    }
  }

  lemma ProofFieldsAgree(x: ProofFields, y: ProofFields, rest: string, other: string)
    requires ValidWallet(x.miner) && ValidWallet(y.miner)
    requires
      Then("proof-v1", Then(NormalWallet(x.miner),
        Then(SignedDecimal(x.nonce), Then(SignedDecimal(x.millis), rest)))) ==
      Then("proof-v1", Then(NormalWallet(y.miner), Then(SignedDecimal(y.nonce), Then(SignedDecimal(y.millis), other))))
    ensures x.miner == y.miner && x.nonce == y.nonce && x.millis == y.millis && rest == other
  {
    var xm, ym := Then(SignedDecimal(x.millis), rest), Then(SignedDecimal(y.millis), other);
    var xn, yn := Then(SignedDecimal(x.nonce), xm), Then(SignedDecimal(y.nonce), ym);
    WalletIsNormal(x.miner);
    WalletIsNormal(y.miner);
    SplitLeft("proof-v1", Then(x.miner, xn), "proof-v1", Then(y.miner, yn));
    SplitLeft(x.miner, xn, y.miner, yn);
    SplitLeftNumber(x.nonce, xm, y.nonce, ym);
    SplitLeftNumber(x.millis, rest, y.millis, other);
  }

  lemma HeadOfTx(f: TxFields)
    ensures TxPreimage(f) != [] && TxPreimage(f)[0] == 'v'
  {
    var x := Bar(Bar(Bar("v1", NormalType(f.txType)), NormalWallet(f.from)), NormalWallet(f.to));
    var y := Bar(Bar(Bar(x, SignedDecimal(f.amount)), SignedDecimal(f.fee)), SignedDecimal(f.nonce));
    assert x[0] == 'v';
    assert y[0] == 'v';
  }

  lemma HeadOfAction(f: ActionFields)
    ensures ActionPreimage(f) != [] && ActionPreimage(f)[0] == 'a'
  {
    var x := Bar(Bar(Bar("action-v1", NormalType(f.actionType)), NormalWallet(f.wallet)), SignedDecimal(f.nonce));
    assert x[0] == 'a';
  }

  lemma HeadOfProof(f: ProofFields)
    ensures ProofPreimage(f) != [] && ProofPreimage(f)[0] == 'p'
  {
    var x := Bar(Bar(Bar("proof-v1", NormalWallet(f.miner)), SignedDecimal(f.nonce)), SignedDecimal(f.millis));
    assert x[0] == 'p';
  }

  /** Main result: a signature over one kind of text is never one over another kind. */
  lemma PreimagesNeverCoincide(t: TxFields, a: ActionFields, p: ProofFields)
    ensures TxPreimage(t) != ActionPreimage(a)
    ensures TxPreimage(t) != ProofPreimage(p)
    ensures ActionPreimage(a) != ProofPreimage(p)
  {
    HeadOfTx(t);
    HeadOfAction(a);
    HeadOfProof(p);
  }
}
