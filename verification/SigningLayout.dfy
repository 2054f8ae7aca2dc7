/** Reading signed texts back (src/transaction.rs:347-413), which fixes where each field stands. The reader
    knows the chain it is on and nothing else; types, proof hashes and payloads may contain the
    separator. */
module SigningLayout {
  import opened Text
  import opened CanonicalJson
  import opened Preimages

  // --- a reader ------------------------------------------------------------------

  /** The index of the last separator, or -1. */
  function LastBar(s: string): (i: int)
    ensures -1 <= i < |s|
  {
    if s == [] then -1 else if s[|s| - 1] == '|' then |s| - 1 else LastBar(s[..|s| - 1])
  }

  /** What stands before and after the last separator. */
  function CutLast(s: string): (string, string) {
    var i := LastBar(s);
    if i < 0 then ("", s) else (s[..i], s[i + 1..])
  }

  /** The index of the first separator, or the length. */
  function FirstBar(s: string): (i: nat)
    ensures i <= |s|
  {
    if s == [] || s[0] == '|' then 0 else 1 + FirstBar(s[1..])
  }

  function CutFirst(s: string): (string, string) {
    var i := FirstBar(s);
    if i == |s| then (s, "") else (s[..i], s[i + 1..])
  }

  /** What follows a separator and leaves every string literal it opens, with separators in literals
      only, is the payload. */
  predicate PayloadAfter(s: string, i: nat) {
    i < |s| && s[i] == '|' && Steady(s[i + 1..], OUTSIDE)
  }

  function FindPayload(s: string, i: nat): nat
    decreases |s| - i
  {
    if i >= |s| || PayloadAfter(s, i) then i else FindPayload(s, i + 1)
  }

  function CutPayload(s: string): (string, string) {
    var i := FindPayload(s, 0);
    if i >= |s| then (s, "") else (s[..i], s[i + 1..])
  }

  /** What stands before a known last field. */
  function DropField(s: string, field: string): string {
    if |s| <= |field| then "" else s[..|s| - |field| - 1]
  }

  datatype TxText = TxText(head: string, from: string, to: string, amount: string, fee: string, nonce: string,
    millis: string, payload: string)

  /** All fields but the type stand at known places from the right. */
  function ReadTx(s: string, chainId: string): TxText {
    var (all, payload) := CutPayload(s);
    var (s6, millis) := CutLast(DropField(all, chainId));
    var (s5, nonce) := CutLast(s6);
    var (s4, fee) := CutLast(s5);
    var (s3, amount) := CutLast(s4);
    var (s2, to) := CutLast(s3);
    var (head, from) := CutLast(s2);
    TxText(head, from, to, amount, fee, nonce, millis, payload)
  }

  datatype ActionText = ActionText(head: string, wallet: string, nonce: string, millis: string, payload: string)

  function ReadAction(s: string, chainId: string): ActionText {
    var (all, payload) := CutPayload(s);
    var (s3, millis) := CutLast(DropField(all, chainId));
    var (s2, nonce) := CutLast(s3);
    var (head, wallet) := CutLast(s2);
    ActionText(head, wallet, nonce, millis, payload)
  }

  datatype ProofText = ProofText(version: string, miner: string, nonce: string, millis: string, proofHash: string,
    difficulty: string)

  /** The proof hash is what is left between the chain and the difficulty. */
  function ReadProof(s: string, chainId: string): ProofText {
    var (all, difficulty) := CutLast(s);
    var (version, t1) := CutFirst(all);
    var (miner, t2) := CutFirst(t1);
    var (nonce, t3) := CutFirst(t2);
    var (millis, t4) := CutFirst(t3);
    ProofText(version, miner, nonce, millis, if |t4| <= |chainId| then "" else t4[|chainId| + 1..], difficulty)
  }

  // --- what it finds -----------------------------------------------------------------

  lemma {:induction false} LastBarAt(a: string, f: string)
    requires Without(f, '|')
    ensures LastBar(Bar(a, f)) == |a|
    decreases |f|
  {
    var s := Bar(a, f);
    if f != [] {
      assert s[..|s| - 1] == Bar(a, f[..|f| - 1]);
      LastBarAt(a, f[..|f| - 1]);
    }
  }

  lemma CutLastOf(a: string, f: string)
    requires Without(f, '|')
    ensures CutLast(Bar(a, f)) == (a, f)
  {
    LastBarAt(a, f);
    assert Bar(a, f)[..|a|] == a && Bar(a, f)[|a| + 1..] == f;
  }

  lemma CutLastNumber(a: string, n: int)
    ensures CutLast(Bar(a, SignedDecimal(n))) == (a, SignedDecimal(n))
  {
    SignedDecimalWithout(n, '|');
    CutLastOf(a, SignedDecimal(n));
  }

  lemma CutLastWallet(a: string, w: string)
    requires ValidWallet(w)
    ensures CutLast(Bar(a, NormalWallet(w))) == (a, w)
  {
    WalletIsNormal(w);
    CutLastOf(a, w);
  }

  lemma DropFieldOf(a: string, f: string)
    ensures DropField(Bar(a, f), f) == a
  {
    assert Bar(a, f)[..|a|] == a;
  }

  lemma {:induction false} FirstBarAt(f: string, rest: string)
    requires Without(f, '|')
    ensures FirstBar(Then(f, rest)) == |f|
    decreases |f|
  {
    if f != [] {
      assert Then(f, rest)[1..] == Then(f[1..], rest);
      FirstBarAt(f[1..], rest);
    }
  }

  lemma CutFirstOf(f: string, rest: string)
    requires Without(f, '|')
    ensures CutFirst(Then(f, rest)) == (f, rest)
  {
    FirstBarAt(f, rest);
    assert Then(f, rest)[..|f|] == f && Then(f, rest)[|f| + 1..] == rest;
  }

  lemma CutFirstNumber(n: int, rest: string)
    ensures CutFirst(Then(SignedDecimal(n), rest)) == (SignedDecimal(n), rest)
  {
    SignedDecimalWithout(n, '|');
    CutFirstOf(SignedDecimal(n), rest);
  }

  lemma CutFirstWallet(w: string, rest: string)
    requires ValidWallet(w)
    ensures CutFirst(Then(NormalWallet(w), rest)) == (w, rest)
  {
    WalletIsNormal(w);
    CutFirstOf(w, rest);
  }

  /** Only one separator is followed by a payload. */
  lemma OnePayload(a: string, p: string, i: nat)
    requires Steady(p, OUTSIDE) && PayloadAfter(Bar(a, p), i)
    ensures i == |a|
  {
    var s := Bar(a, p);
    var b, q := s[..i], s[i + 1..];
    assert s == Bar(b, q);
    NoShorterPayload(a, p, b, q);
    NoShorterPayload(b, q, a, p);
  }

  lemma {:induction false} FindsPayload(a: string, p: string, i: nat)
    requires Steady(p, OUTSIDE) && i <= |a|
    ensures FindPayload(Bar(a, p), i) == |a|
    decreases |a| - i
  {
    var s := Bar(a, p);
    assert s[|a| + 1..] == p && PayloadAfter(s, |a|);
    if PayloadAfter(s, i) {
      OnePayload(a, p, i);
    } else {
      FindsPayload(a, p, i + 1);
    }
  }

  lemma CutPayloadOf(a: string, v: Json)
    ensures CutPayload(Bar(a, Print(v))) == (a, Print(v))
  {
    RenderSteady(Canon(v));
    FindsPayload(a, Print(v), 0);
    assert Bar(a, Print(v))[..|a|] == a && Bar(a, Print(v))[|a| + 1..] == Print(v);
  }

  /** The fields of a transaction in their places. */
  function TxPlaces(f: TxFields): TxText {
    TxText("v1|" + AsciiLower(Trim(f.txType)), f.from, f.to, SignedDecimal(f.amount), SignedDecimal(f.fee),
      SignedDecimal(f.nonce), SignedDecimal(f.millis), Print(f.payload))
  }

  /** A text of nine fields, given as the front of each. */
  lemma NineFields(s: string, all: string, s7: string, s6: string, s5: string, s4: string, s3: string, s2: string,
                   f: TxText, chainId: string)
    requires CutPayload(s) == (all, f.payload) && DropField(all, chainId) == s7
    requires CutLast(s7) == (s6, f.millis) && CutLast(s6) == (s5, f.nonce) && CutLast(s5) == (s4, f.fee)
    requires CutLast(s4) == (s3, f.amount) && CutLast(s3) == (s2, f.to) && CutLast(s2) == (f.head, f.from)
    ensures ReadTx(s, chainId) == f
  {
  }

  /** The text up to the wallets, up to the time, and all of it. */
  function Parties(f: TxFields): string {
    Bar(Bar(Bar("v1", NormalType(f.txType)), NormalWallet(f.from)), NormalWallet(f.to))
  }

  function Numbers(front: string, f: TxFields): string {
    Bar(Bar(Bar(Bar(front, SignedDecimal(f.amount)), SignedDecimal(f.fee)), SignedDecimal(f.nonce)),
        SignedDecimal(f.millis))
  }

  lemma NumbersReadBack(front: string, f: TxFields) returns (s6: string, s5: string, s4: string)
    ensures CutLast(Numbers(front, f)) == (s6, SignedDecimal(f.millis))
    ensures CutLast(s6) == (s5, SignedDecimal(f.nonce))
    ensures CutLast(s5) == (s4, SignedDecimal(f.fee))
    ensures CutLast(s4) == (front, SignedDecimal(f.amount))
  {
    s4 := Bar(front, SignedDecimal(f.amount));
    s5 := Bar(s4, SignedDecimal(f.fee));
    s6 := Bar(s5, SignedDecimal(f.nonce));
    CutLastNumber(s6, f.millis);
    CutLastNumber(s5, f.nonce);
    CutLastNumber(s4, f.fee);
    CutLastNumber(front, f.amount);
  }

  lemma Heads(s: string)
    ensures Bar("v1", s) == "v1|" + s && Bar("action-v1", s) == "action-v1|" + s
  {
    assert "v1" + "|" == "v1|" && "action-v1" + "|" == "action-v1|";
  }

  lemma PartiesReadBack(f: TxFields) returns (s2: string, s1: string)
    requires ValidWallet(f.from) && ValidWallet(f.to)
    ensures CutLast(Parties(f)) == (s2, f.to) && CutLast(s2) == (s1, f.from) && s1 == Bar("v1", NormalType(f.txType))
  {
    s1 := Bar("v1", NormalType(f.txType));
    s2 := Bar(s1, NormalWallet(f.from));
    CutLastWallet(s2, f.to);
    CutLastWallet(s1, f.from);
  }

  lemma TxParts(f: TxFields)
    ensures TxPreimage(f) == Bar(Bar(Numbers(Parties(f), f), Trim(f.chainId)), Print(f.payload))
  {
  }

  /** Main result: between valid wallets, reading the text of a transaction on its own chain finds, in this
      order, "v1", the type, sender, recipient, amount, fee, nonce and time, and a payload that
      parses to the signed value. */
  lemma TxReadsBack(f: TxFields)
    requires ValidWallet(f.from) && ValidWallet(f.to)
    ensures ReadTx(TxPreimage(f), Trim(f.chainId)) == TxPlaces(f)
    ensures Parse(TxPlaces(f).payload).Some? && SameJson(f.payload, Parse(TxPlaces(f).payload).value)
  {
    var s7 := Numbers(Parties(f), f);
    var s6, s5, s4 := NumbersReadBack(Parties(f), f);
    var s2, _ := PartiesReadBack(f);
    Heads(NormalType(f.txType));
    TxParts(f);
    CutPayloadOf(Bar(s7, Trim(f.chainId)), f.payload);
    DropFieldOf(s7, Trim(f.chainId));
    NineFields(TxPreimage(f), Bar(s7, Trim(f.chainId)), s7, s6, s5, s4, Parties(f), s2, TxPlaces(f), Trim(f.chainId));
    ParseAfterPrint(f.payload);
  }

  lemma SixFields(s: string, all: string, s4: string, s3: string, s2: string, f: ActionText, chainId: string)
    requires CutPayload(s) == (all, f.payload) && DropField(all, chainId) == s4
    requires CutLast(s4) == (s3, f.millis) && CutLast(s3) == (s2, f.nonce) && CutLast(s2) == (f.head, f.wallet)
    ensures ReadAction(s, chainId) == f
  {
  }

  /** An action's text up to the time. */
  function ActionFront(f: ActionFields): string {
    Bar(Bar(Bar(Bar("action-v1", NormalType(f.actionType)), NormalWallet(f.wallet)), SignedDecimal(f.nonce)),
        SignedDecimal(f.millis))
  }

  lemma ActionParts(f: ActionFields)
    ensures ActionPreimage(f) == Bar(Bar(ActionFront(f), Trim(f.chainId)), Print(f.payload))
  {
  }

  lemma ActionFrontReadsBack(f: ActionFields) returns (s3: string, s2: string, s1: string)
    requires ValidWallet(f.wallet)
    ensures CutLast(ActionFront(f)) == (s3, SignedDecimal(f.millis)) && CutLast(s3) == (s2, SignedDecimal(f.nonce))
    ensures CutLast(s2) == (s1, f.wallet) && s1 == Bar("action-v1", NormalType(f.actionType))
  {
    s1 := Bar("action-v1", NormalType(f.actionType));
    s2 := Bar(s1, NormalWallet(f.wallet));
    s3 := Bar(s2, SignedDecimal(f.nonce));
    CutLastNumber(s3, f.millis);
    CutLastNumber(s2, f.nonce);
    CutLastWallet(s1, f.wallet);
  }

  function ActionPlaces(f: ActionFields): ActionText {
    ActionText("action-v1|" + AsciiLower(Trim(f.actionType)), f.wallet, SignedDecimal(f.nonce), SignedDecimal(f.millis),
      Print(f.payload))
  }

  /** Main result: the same for an action: "action-v1", its type, the wallet, nonce, time and payload. */
  lemma ActionReadsBack(f: ActionFields)
    requires ValidWallet(f.wallet)
    ensures ReadAction(ActionPreimage(f), Trim(f.chainId)) == ActionPlaces(f)
    ensures Parse(ActionPlaces(f).payload).Some? && SameJson(f.payload, Parse(ActionPlaces(f).payload).value)
  {
    var s4 := ActionFront(f);
    var s3, s2, _ := ActionFrontReadsBack(f);
    Heads(NormalType(f.actionType));
    ActionParts(f);
    CutPayloadOf(Bar(s4, Trim(f.chainId)), f.payload);
    DropFieldOf(s4, Trim(f.chainId));
    SixFields(ActionPreimage(f), Bar(s4, Trim(f.chainId)), s4, s3, s2, ActionPlaces(f), Trim(f.chainId));
    ParseAfterPrint(f.payload);
  }

  /** A text of seven fields, given as what follows each. */
  lemma SevenFields(s: string, all: string, t1: string, t2: string, t3: string, t4: string, f: ProofText,
                    chainId: string)
    requires CutLast(s) == (all, f.difficulty) && CutFirst(all) == (f.version, t1) && CutFirst(t1) == (f.miner, t2)
    requires CutFirst(t2) == (f.nonce, t3) && CutFirst(t3) == (f.millis, t4)
    requires |t4| > |chainId| && t4[|chainId| + 1..] == f.proofHash
    ensures ReadProof(s, chainId) == f
  {
  }

  /** The first four fields, from the left. */
  lemma ProofFront(f: ProofFields, rest: string) returns (t1: string, t2: string, t3: string)
    requires ValidWallet(f.miner)
    ensures t3 == Then(SignedDecimal(f.millis), rest) && t2 == Then(SignedDecimal(f.nonce), t3)
    ensures t1 == Then(NormalWallet(f.miner), t2)
    ensures CutFirst(Then("proof-v1", t1)) == ("proof-v1", t1) && CutFirst(t1) == (f.miner, t2)
    ensures CutFirst(t2) == (SignedDecimal(f.nonce), t3) && CutFirst(t3) == (SignedDecimal(f.millis), rest)
  {
    t3 := Then(SignedDecimal(f.millis), rest);
    t2 := Then(SignedDecimal(f.nonce), t3);
    t1 := Then(NormalWallet(f.miner), t2);
    CutFirstNumber(f.millis, rest);
    CutFirstNumber(f.nonce, t3);
    CutFirstWallet(f.miner, t2);
    CutFirstOf("proof-v1", t1);
  }

  /** Main result: and for a mining proof: "proof-v1", the miner, nonce, time, proof hash and difficulty. */
  lemma ProofReadsBack(f: ProofFields)
    requires ValidWallet(f.miner)
    ensures ReadProof(ProofPreimage(f), Trim(f.chainId)) ==
            ProofText("proof-v1", f.miner, SignedDecimal(f.nonce), SignedDecimal(f.millis),
              AsciiLower(Trim(f.proofHash)), SignedDecimal(f.difficulty))
  {
    var c, h := Trim(f.chainId), NormalType(f.proofHash);
    var t1, t2, t3 := ProofFront(f, Then(c, h));
    ProofFromLeft(f);
    CutLastNumber(FromLeft(f), f.difficulty);
    assert FromLeft(f) == Then("proof-v1", t1);
    assert Then(c, h)[|c| + 1..] == h;
    SevenFields(ProofPreimage(f), FromLeft(f), t1, t2, t3, Then(c, h), ProofText("proof-v1", f.miner,
      SignedDecimal(f.nonce), SignedDecimal(f.millis), h, SignedDecimal(f.difficulty)), c);
  }
}
