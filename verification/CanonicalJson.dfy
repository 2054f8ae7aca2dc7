/** Canonical JSON (src/transaction.rs:563-603): no spaces, object keys in byte order,
    strings escaped as serde_json does (RFC 8259 section 7). */
module CanonicalJson {
  import opened Wrappers
  import opened Ordering
  import opened Text

  datatype Json =
    | Null
    | Bool(b: bool)
    | Number(n: int)
    | String(s: string)
    | Array(items: seq<Json>)
    | Object(members: seq<Member>)

  /** Object members in whatever order the value lists them. */
  datatype Member = Member(key: string, value: Json)

  // --- printing -------------------------------------------------------------

  function HexDigit(d: nat): char
    requires d < 16
  {
    if d < 10 then '0' + d as char else 'a' + (d - 10) as char
  }

  function EscapeChar(c: char): string {
    if c == '"' then "\\\""
    else if c == '\\' then "\\\\"
    else if c == '\U{8}' then "\\b"
    else if c == '\U{C}' then "\\f"
    else if c == '\n' then "\\n"
    else if c == '\r' then "\\r"
    else if c == '\t' then "\\t"
    else if c < ' ' then "\\u00" + [HexDigit(c as nat / 16), HexDigit(c as nat % 16)]
    else [c]
  }

  function Escape(s: string): string {
    if s == [] then [] else EscapeChar(s[0]) + Escape(s[1..])
  }

  function Quote(s: string): string {
    "\"" + Escape(s) + "\""
  }

  /** Prints members and items in the order given. */
  function Render(v: Json): string {
    match v
    case Null => "null"
    case Bool(b) => if b then "true" else "false"
    case Number(n) => SignedDecimal(n)
    case String(s) => Quote(s)
    case Array(items) => "[" + RenderItems(items) + "]"
    case Object(ms) => "{" + RenderMembers(ms) + "}"
  }

  function RenderItems(items: seq<Json>): string {
    if items == [] then ""
    else if |items| == 1 then Render(items[0])
    else Render(items[0]) + "," + RenderItems(items[1..])
  }

  function RenderMember(m: Member): string {
    Quote(m.key) + ":" + Render(m.value)
  }

  function RenderMembers(ms: seq<Member>): string {
    if ms == [] then ""
    else if |ms| == 1 then RenderMember(ms[0])
    else RenderMember(ms[0]) + "," + RenderMembers(ms[1..])
  }

  /** `BTreeMap::insert`: keeps keys in order, and the last value of a key. */
  function InsertMember(m: Member, sorted: seq<Member>): seq<Member> {
    if sorted == [] then [m]
    else if m.key == sorted[0].key then [m] + sorted[1..]
    else if LexLe(m.key, sorted[0].key) then [m] + sorted
    else [sorted[0]] + InsertMember(m, sorted[1..])
  }

  function SortMembers(ms: seq<Member>): seq<Member> {
    if ms == [] then [] else InsertMember(ms[|ms| - 1], SortMembers(ms[..|ms| - 1]))
  }

  /** The value with every object's members sorted. */
  function Canon(v: Json): Json {
    match v
    case Array(items) => Array(CanonItems(items))
    case Object(ms) => Object(SortMembers(CanonMembers(ms)))
    case _ => v
  }

  function CanonItems(items: seq<Json>): seq<Json> {
    if items == [] then [] else [Canon(items[0])] + CanonItems(items[1..])
  }

  function CanonMembers(ms: seq<Member>): seq<Member> {
    if ms == [] then [] else [Member(ms[0].key, Canon(ms[0].value))] + CanonMembers(ms[1..])
  }

  /** `canonical_json_string`. */
  function Print(v: Json): string {
    Render(Canon(v))
  }

  // --- parsing --------------------------------------------------------------

  function HexValue(c: char): Option<nat> {
    if IsDigit(c) then Some((c - '0') as nat)
    else if 'a' <= c <= 'f' then Some((c - 'a') as nat + 10)
    else None
  }

  /** The character an escape stands for, and how long the escape is. */
  function ParseEscape(s: string): Option<(char, nat)> {
    if |s| < 2 || s[0] != '\\' then None
    else if s[1] in {'"', '\\'} then Some((s[1], 2))
    else if s[1] == 'b' then Some(('\U{8}', 2))
    else if s[1] == 'f' then Some(('\U{C}', 2))
    else if s[1] == 'n' then Some(('\n', 2))
    else if s[1] == 'r' then Some(('\r', 2))
    else if s[1] == 't' then Some(('\t', 2))
    else if s[1] == 'u' && |s| >= 6 && s[2] == '0' && s[3] == '0' && HexValue(s[4]).Some? && HexValue(s[5]).Some? then
      Some(((16 * HexValue(s[4]).value + HexValue(s[5]).value) as char, 6))
    else None
  }

  /** The rest of a string literal after its opening quote. */
  function ParseChars(s: string): (r: Option<(string, string)>)
    ensures r.Some? ==> |r.value.1| < |s|
  {
    if s == [] then None
    else if s[0] == '"' then Some(("", s[1..]))
    else if s[0] == '\\' then
      var e := ParseEscape(s);
      if e.None? then None
      else
        var tail := ParseChars(s[e.value.1..]);
        if tail.None? then None else Some(([e.value.0] + tail.value.0, tail.value.1))
    else
      var tail := ParseChars(s[1..]);
      if tail.None? then None else Some(([s[0]] + tail.value.0, tail.value.1))
  }

  /** The leading digits. */
  function DigitPrefix(s: string): (k: nat)
    ensures k <= |s|
  {
    if s == [] || !IsDigit(s[0]) then 0 else 1 + DigitPrefix(s[1..])
  }

  function ParseNumber(s: string): (r: Option<(int, string)>)
    ensures r.Some? ==> |r.value.1| < |s|
  {
    if s == [] then None
    else
      var start := if s[0] == '-' then 1 else 0;
      var k := DigitPrefix(s[start..]);
      if k == 0 then None else Some((SignedValueOf(s[..start + k]), s[start + k..]))
  }

  function ParseValue(s: string): (r: Option<(Json, string)>)
    ensures r.Some? ==> |r.value.1| < |s|
    decreases |s|, 0
  {
    if s == [] then None
    else if "null" <= s then Some((Null, s[4..]))
    else if "true" <= s then Some((Bool(true), s[4..]))
    else if "false" <= s then Some((Bool(false), s[5..]))
    else if s[0] == '"' then
      var t := ParseChars(s[1..]);
      if t.None? then None else Some((String(t.value.0), t.value.1))
    else if s[0] == '[' then
      if "[]" <= s then Some((Array([]), s[2..]))
      else
        var t := ParseItems(s[1..]);
        if t.None? then None else Some((Array(t.value.0), t.value.1))
    else if s[0] == '{' then
      if "{}" <= s then Some((Object([]), s[2..]))
      else
        var t := ParseMembers(s[1..]);
        if t.None? then None else Some((Object(t.value.0), t.value.1))
    else
      var t := ParseNumber(s);
      if t.None? then None else Some((Number(t.value.0), t.value.1))
  }

  /** At least one item, up to and including the closing bracket. */
  function ParseItems(s: string): (r: Option<(seq<Json>, string)>)
    ensures r.Some? ==> |r.value.1| < |s|
    decreases |s|, 1
  {
    var v := ParseValue(s);
    if v.None? || v.value.1 == [] then None
    else
      var rest := v.value.1;
      if rest[0] == ']' then Some(([v.value.0], rest[1..]))
      else if rest[0] != ',' then None
      else
        var t := ParseItems(rest[1..]);
        if t.None? then None else Some(([v.value.0] + t.value.0, t.value.1))
  }

  function ParseMember(s: string): (r: Option<(Member, string)>)
    ensures r.Some? ==> |r.value.1| < |s|
    decreases |s|, 1
  {
    if s == [] || s[0] != '"' then None
    else
      var k := ParseChars(s[1..]);
      if k.None? || k.value.1 == [] || k.value.1[0] != ':' then None
      else
        var v := ParseValue(k.value.1[1..]);
        if v.None? then None else Some((Member(k.value.0, v.value.0), v.value.1))
  }

  function ParseMembers(s: string): (r: Option<(seq<Member>, string)>)
    ensures r.Some? ==> |r.value.1| < |s|
    decreases |s|, 2
  {
    var m := ParseMember(s);
    if m.None? || m.value.1 == [] then None
    else
      var rest := m.value.1;
      if rest[0] == '}' then Some(([m.value.0], rest[1..]))
      else if rest[0] != ',' then None
      else
        var t := ParseMembers(rest[1..]);
        if t.None? then None else Some(([m.value.0] + t.value.0, t.value.1))
  }

  function Parse(s: string): Option<Json> {
    var r := ParseValue(s);
    if r.Some? && r.value.1 == [] then Some(r.value.0) else None
  }

  // --- parsing undoes printing ----------------------------------------------

  lemma Assoc3(a: string, b: string, c: string)
    ensures a + b + c == a + (b + c)
  {
  }

  lemma Assoc4(a: string, b: string, c: string, d: string)
    ensures a + b + c + d == a + (b + c + d)
  {
  }

  lemma Assoc5(a: string, b: string, c: string, d: string, e: string)
    ensures a + b + c + d + e == a + (b + (c + d + e))
  {
  }

  lemma HeadTail(c: char, t: string)
    ensures ([c] + t)[0] == c && ([c] + t)[1..] == t
  {
  }

  /** A number may not be followed by another digit. */
  predicate Delimited(rest: string) {
    rest == [] || !IsDigit(rest[0])
  }

  lemma HexRoundTrip(d: nat)
    requires d < 16
    ensures HexValue(HexDigit(d)) == Some(d)
  {
  }

  lemma EscapeRoundTrip(c: char, rest: string)
    ensures EscapeChar(c) != []
    ensures EscapeChar(c)[0] != '"'
    ensures EscapeChar(c)[0] == '\\' ==> ParseEscape(EscapeChar(c) + rest) == Some((c, |EscapeChar(c)|))
    ensures EscapeChar(c)[0] != '\\' ==> EscapeChar(c) == [c]
  {
    if c < ' ' {
      HexRoundTrip(c as nat / 16);
      HexRoundTrip(c as nat % 16);
    }
  }

  /** Which characters are escaped, and how: seven by a letter or themselves, the other control
      characters by four lower-case hexadecimal digits, everything else not at all. */
  lemma EscapeCharIs(c: char)
    ensures
      var n, e := c as int, EscapeChar(c);
      if n in {8, 9, 10, 12, 13, 34, 92} then
        |e| == 2 && e[0] == '\\' && e[1] == map[8 := 'b', 9 := 't', 10 := 'n', 12 := 'f', 13 := 'r', 34 := '"',
                                                92 := '\\'][n]
      else if n < 32 then
        && |e| == 6 && e[..4] == "\\u00" && e[4] == (if n < 16 then '0' else '1')
        && e[5] == "0123456789abcdef"[n % 16]
      else e == [c]
  {
  }

  lemma {:induction false} CharsRoundTrip(t: string, rest: string)
    ensures ParseChars(Escape(t) + "\"" + rest) == Some((t, rest))
  {
    if t == [] {
      assert Escape(t) + "\"" + rest == "\"" + rest;
      HeadTail('"', rest);
    } else {
      var tail := Escape(t[1..]) + "\"" + rest;
      Assoc4(EscapeChar(t[0]), Escape(t[1..]), "\"", rest);
      CharsRoundTrip(t[1..], rest);
      ParseOneChar(t[0], tail, t[1..], rest);
      assert t == [t[0]] + t[1..];
    }
  }

  lemma ParseOneChar(c: char, tail: string, t: string, rest: string)
    requires ParseChars(tail) == Some((t, rest))
    ensures ParseChars(EscapeChar(c) + tail) == Some(([c] + t, rest))
  {
    var e := EscapeChar(c);
    EscapeRoundTrip(c, tail);
    assert (e + tail)[0] == e[0] && (e + tail)[|e|..] == tail;
  }

  lemma {:induction false} DigitPrefixOf(ds: string, rest: string)
    requires AllDigits(ds) && Delimited(rest)
    ensures DigitPrefix(ds + rest) == |ds|
  {
    if ds == [] {
      assert ds + rest == rest;
    } else {
      assert (ds + rest)[1..] == ds[1..] + rest;
      DigitPrefixOf(ds[1..], rest);
    }
  }

  lemma SignSplit(n: int, rest: string)
    ensures
      var p, digits, start := SignedDecimal(n), Decimal(if n < 0 then -n else n), if n < 0 then 1 else 0;
      && |p| == start + |digits|
      && (p + rest)[start..] == digits + rest
      && (p + rest)[..|p|] == p && (p + rest)[|p|..] == rest
  {
    var p, digits := SignedDecimal(n), Decimal(if n < 0 then -n else n);
    if n < 0 {
      assert p == "-" + digits;
      assert p + rest == "-" + (digits + rest);
    }
  }

  lemma NumberRoundTrip(n: int, rest: string)
    requires Delimited(rest)
    ensures SignedDecimal(n) != [] && (SignedDecimal(n)[0] == '-' || IsDigit(SignedDecimal(n)[0]))
    ensures ParseNumber(SignedDecimal(n) + rest) == Some((n, rest))
  {
    var digits := Decimal(if n < 0 then -n else n);
    DecimalValue(if n < 0 then -n else n);
    SignedDecimalValue(n);
    DigitPrefixOf(digits, rest);
    SignSplit(n, rest);
    assert (SignedDecimal(n) + rest)[0] == SignedDecimal(n)[0];
  }

  lemma NullRoundTrip(rest: string)
    ensures ParseValue(Render(Null) + rest) == Some((Null, rest))
  {
    assert ("null" + rest)[4..] == rest;
  }

  lemma BoolRoundTrip(b: bool, rest: string)
    ensures ParseValue(Render(Bool(b)) + rest) == Some((Bool(b), rest))
  {
    var s := Render(Bool(b)) + rest;
    if b {
      assert s[0] == 't' && "true" <= s && s[4..] == rest;
    } else {
      assert s[0] == 'f' && "false" <= s && s[5..] == rest;
    }
  }

  lemma StringRoundTrip(t: string, rest: string)
    ensures ParseValue(Quote(t) + rest) == Some((String(t), rest))
  {
    var s := Quote(t) + rest;
    assert s[0] == '"' && s[1..] == Escape(t) + "\"" + rest;
    CharsRoundTrip(t, rest);
  }

  lemma {:induction false} ArrayRoundTrip(items: seq<Json>, rest: string)
    ensures ParseValue("[" + RenderItems(items) + "]" + rest) == Some((Array(items), rest))
    decreases items, 2
  {
    var s := "[" + RenderItems(items) + "]" + rest;
    assert s[0] == '[';
    if items == [] {
      assert s == "[]" + rest;
    } else {
      assert s[1..] == RenderItems(items) + "]" + rest;
      ItemsRoundTrip(items, rest);
      ItemsStart(items);
      assert s[1] != ']';
    }
  }

  lemma {:induction false} ObjectRoundTrip(ms: seq<Member>, rest: string)
    ensures ParseValue("{" + RenderMembers(ms) + "}" + rest) == Some((Object(ms), rest))
    decreases ms, 2
  {
    if ms == [] {
      assert "{" + RenderMembers(ms) + "}" + rest == "{}" + rest;
      EmptyObject(rest);
    } else {
      var body := RenderMembers(ms) + "}" + rest;
      Assoc4("{", RenderMembers(ms), "}", rest);
      MembersRoundTrip(ms, rest);
      assert RenderMembers(ms)[0] == '"';
      ParseObject(body, ms, rest);
    }
  }

  lemma EmptyObject(rest: string)
    ensures ParseValue("{}" + rest) == Some((Object([]), rest))
  {
    var s := "{}" + rest;
    assert s[0] == '{' && "{}" <= s && s[2..] == rest;
  }

  lemma ParseObject(body: string, ms: seq<Member>, rest: string)
    requires body != [] && body[0] == '"' && ParseMembers(body) == Some((ms, rest))
    ensures ParseValue("{" + body) == Some((Object(ms), rest))
  {
    HeadTail('{', body);
    assert ("{" + body)[1] == '"';
  }

  lemma {:induction false} ValueRoundTrip(v: Json, rest: string)
    requires Delimited(rest)
    ensures ParseValue(Render(v) + rest) == Some((v, rest))
    decreases v, 0
  {
    match v
    case Null => NullRoundTrip(rest);
    case Bool(b) => BoolRoundTrip(b, rest);
    case Number(n) => NumberRoundTrip(n, rest);
    case String(t) => StringRoundTrip(t, rest);
    case Array(items) => ArrayRoundTrip(items, rest);
    case Object(ms) => ObjectRoundTrip(ms, rest);
  }

  /** What a rendered value can begin with. */
  lemma ValueStart(v: Json)
    ensures Render(v) != [] && Render(v)[0] != ']'
  {
    if v.Number? {
      NumberRoundTrip(v.n, "");
    }
  }

  lemma ItemsStart(items: seq<Json>)
    requires items != []
    ensures RenderItems(items) != [] && RenderItems(items)[0] != ']'
  {
    ValueStart(items[0]);
  }

  /** The text after the first item. */
  function AfterItem(items: seq<Json>, rest: string): string
    requires items != []
  {
    if |items| == 1 then "]" + rest else "," + (RenderItems(items[1..]) + "]" + rest)
  }

  lemma ItemsText(items: seq<Json>, rest: string)
    requires items != []
    ensures RenderItems(items) + "]" + rest == Render(items[0]) + AfterItem(items, rest)
    ensures AfterItem(items, rest)[0] == if |items| == 1 then ']' else ','
    ensures AfterItem(items, rest)[1..] == if |items| == 1 then rest else RenderItems(items[1..]) + "]" + rest
  {
    if |items| == 1 {
      Assoc3(Render(items[0]), "]", rest);
      HeadTail(']', rest);
    } else {
      Assoc5(Render(items[0]), ",", RenderItems(items[1..]), "]", rest);
      HeadTail(',', RenderItems(items[1..]) + "]" + rest);
    }
  }

  lemma ParseFirstItem(s: string, v: Json, after: string)
    requires ParseValue(s) == Some((v, after)) && after != []
    ensures after[0] == ']' ==> ParseItems(s) == Some(([v], after[1..]))
    ensures after[0] == ',' && ParseItems(after[1..]).Some? ==>
              ParseItems(s) == Some(([v] + ParseItems(after[1..]).value.0, ParseItems(after[1..]).value.1))
  {
  }

  lemma JoinItems(s: string, items: seq<Json>, after: string, rest: string)
    requires items != [] && ParseValue(s) == Some((items[0], after)) && after != []
    requires after[0] == if |items| == 1 then ']' else ','
    requires if |items| == 1 then after[1..] == rest else ParseItems(after[1..]) == Some((items[1..], rest))
    ensures ParseItems(s) == Some((items, rest))
  {
    ParseFirstItem(s, items[0], after);
    assert items == [items[0]] + items[1..] && (|items| == 1 ==> items == [items[0]]);
  }

  lemma {:induction false} ItemsRoundTrip(items: seq<Json>, rest: string)
    requires items != []
    ensures ParseItems(RenderItems(items) + "]" + rest) == Some((items, rest))
    decreases items, 1
  {
    ItemsText(items, rest);
    ValueRoundTrip(items[0], AfterItem(items, rest));
    if |items| > 1 {
      ItemsRoundTrip(items[1..], rest);
    }
    JoinItems(RenderItems(items) + "]" + rest, items, AfterItem(items, rest), rest);
  }

  lemma {:induction false} MemberRoundTrip(m: Member, rest: string)
    requires Delimited(rest)
    ensures ParseMember(RenderMember(m) + rest) == Some((m, rest))
    decreases m, 1
  {
    var after := ":" + (Render(m.value) + rest);
    ValueRoundTrip(m.value, rest);
    CharsRoundTrip(m.key, after);
    MemberParts(m, rest, after);
    HeadTail('"', Escape(m.key) + "\"" + after);
  }

  lemma MemberParts(m: Member, rest: string, after: string)
    requires after == ":" + (Render(m.value) + rest)
    ensures RenderMember(m) + rest == "\"" + (Escape(m.key) + "\"" + after)
    ensures after[0] == ':' && after[1..] == Render(m.value) + rest
  {
    HeadTail(':', Render(m.value) + rest);
    var q, k, c, v := "\"", Escape(m.key), ":", Render(m.value);
    MemberAssoc(q, k, c, v, rest);
  }

  lemma MemberAssoc(q: string, k: string, c: string, v: string, rest: string)
    ensures (q + k + q) + c + v + rest == q + (k + q + (c + (v + rest)))
  {
  }

  /** The text after the first member. */
  function AfterMember(ms: seq<Member>, rest: string): string
    requires ms != []
  {
    if |ms| == 1 then "}" + rest else "," + (RenderMembers(ms[1..]) + "}" + rest)
  }

  lemma MembersText(ms: seq<Member>, rest: string)
    requires ms != []
    ensures RenderMembers(ms) + "}" + rest == RenderMember(ms[0]) + AfterMember(ms, rest)
    ensures AfterMember(ms, rest)[0] == if |ms| == 1 then '}' else ','
    ensures AfterMember(ms, rest)[1..] == if |ms| == 1 then rest else RenderMembers(ms[1..]) + "}" + rest
  {
    if |ms| == 1 {
      Assoc3(RenderMember(ms[0]), "}", rest);
      HeadTail('}', rest);
    } else {
      Assoc5(RenderMember(ms[0]), ",", RenderMembers(ms[1..]), "}", rest);
      HeadTail(',', RenderMembers(ms[1..]) + "}" + rest);
    }
  }

  lemma ParseFirstMember(s: string, m: Member, after: string)
    requires ParseMember(s) == Some((m, after)) && after != []
    ensures after[0] == '}' ==> ParseMembers(s) == Some(([m], after[1..]))
    ensures after[0] == ',' && ParseMembers(after[1..]).Some? ==>
              ParseMembers(s) == Some(([m] + ParseMembers(after[1..]).value.0, ParseMembers(after[1..]).value.1))
  {
  }

  lemma JoinMembers(s: string, ms: seq<Member>, after: string, rest: string)
    requires ms != [] && ParseMember(s) == Some((ms[0], after)) && after != []
    requires after[0] == if |ms| == 1 then '}' else ','
    requires if |ms| == 1 then after[1..] == rest else ParseMembers(after[1..]) == Some((ms[1..], rest))
    ensures ParseMembers(s) == Some((ms, rest))
  {
    ParseFirstMember(s, ms[0], after);
    assert ms == [ms[0]] + ms[1..] && (|ms| == 1 ==> ms == [ms[0]]);
  }

  lemma {:induction false} MembersRoundTrip(ms: seq<Member>, rest: string)
    requires ms != []
    ensures ParseMembers(RenderMembers(ms) + "}" + rest) == Some((ms, rest))
    decreases ms, 1
  {
    MembersText(ms, rest);
    MemberRoundTrip(ms[0], AfterMember(ms, rest));
    if |ms| > 1 {
      MembersRoundTrip(ms[1..], rest);
    }
    JoinMembers(RenderMembers(ms) + "}" + rest, ms, AfterMember(ms, rest), rest);
  }

  /** Main result: rendered text parses back to the value, for every value. */
  lemma ParseAfterRender(v: Json)
    ensures Parse(Render(v)) == Some(v)
  {
    ValueRoundTrip(v, "");
    assert Render(v) + "" == Render(v);
  }

  // --- the text does not depend on key order ---------------------------------

  /** The entry that counts when a key is listed more than once. */
  predicate LastOfKey(ms: seq<Member>, i: nat) {
    i < |ms| && forall j :: i < j < |ms| ==> ms[j].key != ms[i].key
  }

  predicate HasKey(ms: seq<Member>, k: string) {
    exists i :: 0 <= i < |ms| && ms[i].key == k
  }

  /** Equality of JSON values: objects are compared as finite maps. */
  ghost predicate SameJson(v: Json, w: Json)
    decreases v
  {
    match (v, w)
    case (Array(xs), Array(ys)) =>
      |xs| == |ys| && forall i :: 0 <= i < |xs| ==> SameJson(xs[i], ys[i])
    case (Object(ms), Object(ns)) =>
      && (forall i :: 0 <= i < |ms| ==> HasKey(ns, ms[i].key))
      && (forall j :: 0 <= j < |ns| ==> HasKey(ms, ns[j].key))
      && forall i, j :: 0 <= i < |ms| && 0 <= j < |ns| && ms[i].key == ns[j].key && LastOfKey(ms, i) && LastOfKey(ns, j)
                        ==> SameJson(ms[i].value, ns[j].value)
    case _ => v == w
  }

  predicate KeysRise(ms: seq<Member>) {
    forall i, j :: 0 <= i < j < |ms| ==> LexLt(ms[i].key, ms[j].key)
  }

  lemma {:induction false} InsertKeepsOrder(m: Member, sorted: seq<Member>)
    requires KeysRise(sorted)
    ensures KeysRise(InsertMember(m, sorted))
    ensures forall x :: x in InsertMember(m, sorted) <==> x == m || (x in sorted && x.key != m.key)
  {
    if sorted != [] {
      var head, tail := sorted[0], sorted[1..];
      assert sorted == [head] + tail;
      forall x | x in tail ensures LexLt(head.key, x.key) {
        var i :| 0 <= i < |tail| && tail[i] == x;
        assert sorted[i + 1] == x;
      }
      if m.key == head.key {
        forall x | x in tail ensures x.key != m.key {
        }
      } else if LexLe(m.key, head.key) {
        forall x | x in sorted ensures LexLt(m.key, x.key) {
          if x != head {
            LexTransitive(m.key, head.key, x.key);
            if m.key == x.key {
              LexAntisymmetric(m.key, head.key);
            }
          }
        }
      } else {
        LexTotal(m.key, head.key);
        InsertKeepsOrder(m, tail);
        var r := InsertMember(m, tail);
        forall i | 0 <= i < |r| ensures LexLt(head.key, r[i].key) {
          assert r[i] in r;
        }
      }
    }
  }

  ghost predicate Counts(ms: seq<Member>, x: Member) {
    exists i :: 0 <= i < |ms| && ms[i] == x && LastOfKey(ms, i)
  }

  lemma CountsAfter(ms: seq<Member>, x: Member)
    requires ms != []
    ensures var n := |ms| - 1;
      Counts(ms, x) <==> x == ms[n] || (Counts(ms[..n], x) && x.key != ms[n].key)
  {
    var n := |ms| - 1;
    var front, m := ms[..n], ms[n];
    assert LastOfKey(ms, n);
    if Counts(front, x) && x.key != m.key {
      var i :| 0 <= i < |front| && front[i] == x && LastOfKey(front, i);
      assert ms[i] == x && LastOfKey(ms, i);
    }
    if Counts(ms, x) && x != m {
      var i :| 0 <= i < |ms| && ms[i] == x && LastOfKey(ms, i);
      assert front[i] == x && LastOfKey(front, i);
    }
  }

  /** Sorting keeps exactly the entries that count, in key order. */
  lemma {:induction false} SortedMembers(ms: seq<Member>)
    ensures KeysRise(SortMembers(ms))
    ensures forall x :: x in SortMembers(ms) <==> Counts(ms, x)
  {
    if ms != [] {
      var n := |ms| - 1;
      SortedMembers(ms[..n]);
      InsertKeepsOrder(ms[n], SortMembers(ms[..n]));
      forall x ensures x in SortMembers(ms) <==> Counts(ms, x) {
        CountsAfter(ms, x);
      }
    }
  }

  lemma EmptyByMembers(xs: seq<Member>, ys: seq<Member>)
    requires forall m :: m in ys ==> m in xs
    ensures xs == [] ==> ys == []
  {
    if ys != [] {
      assert ys[0] in ys;
      assert xs != [];
    }
  }

  lemma {:induction false} RisingUnique(xs: seq<Member>, ys: seq<Member>)
    requires KeysRise(xs) && KeysRise(ys)
    requires forall m :: m in xs <==> m in ys
    ensures xs == ys
  {
    if xs == [] {
      EmptyByMembers(xs, ys);
    } else {
      assert xs[0] in ys;
      assert ys[0] in xs;
      FirstMembersAgree(xs, ys);
      var u, v := xs[1..], ys[1..];
      forall m ensures m in u <==> m in v {
        TailMembers(xs, m);
        TailMembers(ys, m);
      }
      RisingUnique(u, v);
      assert xs == [xs[0]] + u && ys == [ys[0]] + v;
    }
  }

  lemma TailMembers(xs: seq<Member>, m: Member)
    requires xs != [] && KeysRise(xs)
    ensures m in xs[1..] <==> m in xs && m != xs[0]
  {
    assert xs == [xs[0]] + xs[1..];
    if m in xs[1..] {
      var i :| 0 <= i < |xs[1..]| && xs[1..][i] == m;
      assert LexLt(xs[0].key, xs[i + 1].key);
    }
  }

  lemma FirstMembersAgree(xs: seq<Member>, ys: seq<Member>)
    requires KeysRise(xs) && KeysRise(ys) && xs != [] && ys != []
    requires xs[0] in ys && ys[0] in xs
    ensures xs[0] == ys[0]
  {
    var i :| 0 <= i < |ys| && ys[i] == xs[0];
    var j :| 0 <= j < |xs| && xs[j] == ys[0];
    if i != 0 && j != 0 {
      LexAntisymmetric(xs[0].key, ys[0].key);
    }
  }

  lemma {:induction false} CanonItemsAt(items: seq<Json>)
    ensures |CanonItems(items)| == |items|
    ensures forall i :: 0 <= i < |items| ==> CanonItems(items)[i] == Canon(items[i])
  {
    if items != [] {
      CanonItemsAt(items[1..]);
    }
  }

  lemma {:induction false} CanonMembersAt(ms: seq<Member>)
    ensures |CanonMembers(ms)| == |ms|
    ensures forall i :: 0 <= i < |ms| ==> CanonMembers(ms)[i] == Member(ms[i].key, Canon(ms[i].value))
  {
    if ms != [] {
      CanonMembersAt(ms[1..]);
    }
  }

  lemma {:induction false} LastExists(ms: seq<Member>, k: string)
    requires HasKey(ms, k)
    ensures exists i :: 0 <= i < |ms| && ms[i].key == k && LastOfKey(ms, i)
  {
    var n := |ms| - 1;
    if ms[n].key == k {
      assert LastOfKey(ms, n);
    } else {
      var i :| 0 <= i < |ms| && ms[i].key == k;
      assert ms[..n][i].key == k;
      LastExists(ms[..n], k);
      var j :| 0 <= j < n && ms[..n][j].key == k && LastOfKey(ms[..n], j);
      assert LastOfKey(ms, j) by {
        forall l | j < l < |ms| ensures ms[l].key != ms[j].key {
          if l < n {
            assert ms[..n][l].key != ms[..n][j].key;
          }
        }
      }
    }
  }

  ghost predicate CanonCounts(ms: seq<Member>, x: Member) {
    exists i :: 0 <= i < |ms| && x == Member(ms[i].key, Canon(ms[i].value)) && LastOfKey(ms, i)
  }

  /** The sorted members of an object, entry by entry. */
  lemma CanonEntries(ms: seq<Member>)
    ensures KeysRise(SortMembers(CanonMembers(ms)))
    ensures forall x :: x in SortMembers(CanonMembers(ms)) <==> CanonCounts(ms, x)
  {
    var cs := CanonMembers(ms);
    CanonMembersAt(ms);
    SortedMembers(cs);
    forall x ensures Counts(cs, x) <==> CanonCounts(ms, x) {
      if Counts(cs, x) {
        var i :| 0 <= i < |cs| && cs[i] == x && LastOfKey(cs, i);
        assert LastOfKey(ms, i) by {
          forall j | i < j < |ms| ensures ms[j].key != ms[i].key {
            assert cs[j].key != cs[i].key;
          }
        }
      }
      if CanonCounts(ms, x) {
        var i :| 0 <= i < |ms| && x == Member(ms[i].key, Canon(ms[i].value)) && LastOfKey(ms, i);
        assert cs[i] == x && LastOfKey(cs, i);
      }
    }
  }

  /** The counting entries of two objects agree, given that equal values print alike. */
  lemma {:induction false} SameGivesCanon(v: Json, w: Json)
    requires SameJson(v, w)
    ensures Canon(v) == Canon(w)
    decreases v
  {
    match (v, w)
    case (Array(xs), Array(ys)) =>
      forall i | 0 <= i < |xs| ensures Canon(xs[i]) == Canon(ys[i]) {
        SameGivesCanon(xs[i], ys[i]);
      }
      CanonItemsAt(xs);
      CanonItemsAt(ys);
      assert CanonItems(xs) == CanonItems(ys);
    case (Object(ms), Object(ns)) =>
      forall i, j | 0 <= i < |ms| && 0 <= j < |ns| && ms[i].key == ns[j].key && LastOfKey(ms, i) && LastOfKey(ns, j)
        ensures Canon(ms[i].value) == Canon(ns[j].value)
      {
        SameGivesCanon(ms[i].value, ns[j].value);
      }
      CanonEntries(ms);
      CanonEntries(ns);
      forall x ensures CanonCounts(ms, x) <==> CanonCounts(ns, x) {
        if CanonCounts(ms, x) {
          LastExists(ns, x.key);
        }
        if CanonCounts(ns, x) {
          LastExists(ms, x.key);
        }
      }
      RisingUnique(SortMembers(CanonMembers(ms)), SortMembers(CanonMembers(ns)));
    case _ =>
  }

  lemma RisingKeysDistinct(xs: seq<Member>, x: Member, y: Member)
    requires KeysRise(xs) && x in xs && y in xs && x.key == y.key
    ensures x == y
  {
    var i :| 0 <= i < |xs| && xs[i] == x;
    var j :| 0 <= j < |xs| && xs[j] == y;
    assert i == j;
  }

  lemma CanonKey(ms: seq<Member>, ns: seq<Member>, i: nat)
    requires SortMembers(CanonMembers(ms)) == SortMembers(CanonMembers(ns)) && i < |ms|
    ensures HasKey(ns, ms[i].key)
  {
    CanonEntries(ms);
    CanonEntries(ns);
    LastExists(ms, ms[i].key);
    var l :| 0 <= l < |ms| && ms[l].key == ms[i].key && LastOfKey(ms, l);
    var x := Member(ms[l].key, Canon(ms[l].value));
    assert CanonCounts(ms, x);
    assert CanonCounts(ns, x);
  }

  lemma CanonKeys(ms: seq<Member>, ns: seq<Member>)
    requires SortMembers(CanonMembers(ms)) == SortMembers(CanonMembers(ns))
    ensures forall i :: 0 <= i < |ms| ==> HasKey(ns, ms[i].key)
  {
    forall i | 0 <= i < |ms| ensures HasKey(ns, ms[i].key) {
      CanonKey(ms, ns, i);
    }
  }

  lemma {:induction false} CanonGivesSame(v: Json, w: Json)
    requires Canon(v) == Canon(w)
    ensures SameJson(v, w)
    decreases v
  {
    match (v, w)
    case (Array(xs), Array(ys)) =>
      CanonItemsAt(xs);
      CanonItemsAt(ys);
      forall i | 0 <= i < |xs| ensures SameJson(xs[i], ys[i]) {
        assert CanonItems(xs)[i] == CanonItems(ys)[i];
        CanonGivesSame(xs[i], ys[i]);
      }
    case (Object(ms), Object(ns)) =>
      CanonKeys(ms, ns);
      CanonKeys(ns, ms);
      forall i, j | 0 <= i < |ms| && 0 <= j < |ns| && ms[i].key == ns[j].key && LastOfKey(ms, i) && LastOfKey(ns, j)
        ensures SameJson(ms[i].value, ns[j].value)
      {
        EntriesAgree(ms, ns, i, j);
        CanonGivesSame(ms[i].value, ns[j].value);
      }
    case _ =>
  }

  lemma EntriesAgree(ms: seq<Member>, ns: seq<Member>, i: nat, j: nat)
    requires SortMembers(CanonMembers(ms)) == SortMembers(CanonMembers(ns))
    requires i < |ms| && j < |ns| && ms[i].key == ns[j].key && LastOfKey(ms, i) && LastOfKey(ns, j)
    ensures Canon(ms[i].value) == Canon(ns[j].value)
  {
    CanonEntries(ms);
    CanonEntries(ns);
    var x, y := Member(ms[i].key, Canon(ms[i].value)), Member(ns[j].key, Canon(ns[j].value));
    assert CanonCounts(ms, x) && CanonCounts(ns, y);
    RisingKeysDistinct(SortMembers(CanonMembers(ms)), x, y);
  }

  /** Main result: two values print to the same text exactly when they are equal as JSON,
      objects being compared as maps. So the text determines the value, and neither the
      order nor a superseded duplicate of a key shows. */
  lemma PrintIffSame(v: Json, w: Json)
    ensures Print(v) == Print(w) <==> SameJson(v, w)
  {
    if Print(v) == Print(w) {
      ParseAfterRender(Canon(v));
      ParseAfterRender(Canon(w));
      CanonGivesSame(v, w);
    }
    if SameJson(v, w) {
      SameGivesCanon(v, w);
    }
  }

  lemma CanonEntry(ms: seq<Member>, i: nat)
    requires i < |ms| && LastOfKey(ms, i)
    ensures Member(ms[i].key, Canon(ms[i].value)) in SortMembers(CanonMembers(ms))
  {
    CanonEntries(ms);
    assert CanonCounts(ms, Member(ms[i].key, Canon(ms[i].value)));
  }

  /** The sorted members have the keys of the object. */
  lemma CanonHasKeys(ms: seq<Member>)
    ensures var ns := SortMembers(CanonMembers(ms));
      && (forall i :: 0 <= i < |ms| ==> HasKey(ns, ms[i].key))
      && (forall j :: 0 <= j < |ns| ==> HasKey(ms, ns[j].key))
  {
    var ns := SortMembers(CanonMembers(ms));
    CanonEntries(ms);
    forall i | 0 <= i < |ms| ensures HasKey(ns, ms[i].key) {
      LastExists(ms, ms[i].key);
      var l :| 0 <= l < |ms| && ms[l].key == ms[i].key && LastOfKey(ms, l);
      CanonEntry(ms, l);
    }
    forall j | 0 <= j < |ns| ensures HasKey(ms, ns[j].key) {
      assert ns[j] in ns;
      assert CanonCounts(ms, ns[j]);
    }
  }

  /** Canonicalising changes no value. */
  lemma {:induction false} CanonIsSame(v: Json)
    ensures SameJson(v, Canon(v))
    decreases v
  {
    match v
    case Array(xs) =>
      CanonItemsAt(xs);
      forall i | 0 <= i < |xs| ensures SameJson(xs[i], Canon(xs[i])) {
        CanonIsSame(xs[i]);
      }
    case Object(ms) =>
      var ns := SortMembers(CanonMembers(ms));
      CanonHasKeys(ms);
      CanonEntries(ms);
      forall i, j | 0 <= i < |ms| && 0 <= j < |ns| && ms[i].key == ns[j].key && LastOfKey(ms, i) && LastOfKey(ns, j)
        ensures SameJson(ms[i].value, ns[j].value)
      {
        CanonEntry(ms, i);
        RisingKeysDistinct(ns, Member(ms[i].key, Canon(ms[i].value)), ns[j]);
        CanonIsSame(ms[i].value);
      }
    case _ =>
  }

  /** Main result: parsing the canonical text gives back the value that was printed. */
  lemma ParseAfterPrint(v: Json)
    ensures Parse(Print(v)).Some? && SameJson(v, Parse(Print(v)).value)
  {
    ParseAfterRender(Canon(v));
    CanonIsSame(v);
  }

  // --- the printing loops ----------------------------------------------------

  lemma {:induction false} InsertCommutesWithCanon(m: Member, sorted: seq<Member>)
    ensures CanonMembers(InsertMember(m, sorted)) == InsertMember(Member(m.key, Canon(m.value)), CanonMembers(sorted))
  {
    if sorted != [] {
      assert ([m] + sorted)[1..] == sorted;
      assert ([m] + sorted[1..])[1..] == sorted[1..];
      var deeper := [sorted[0]] + InsertMember(m, sorted[1..]);
      assert deeper[1..] == InsertMember(m, sorted[1..]);
      InsertCommutesWithCanon(m, sorted[1..]);
    }
  }

  lemma {:induction false} CanonMembersConcat(xs: seq<Member>, ys: seq<Member>)
    ensures CanonMembers(xs + ys) == CanonMembers(xs) + CanonMembers(ys)
  {
    if xs == [] {
      assert xs + ys == ys;
    } else {
      assert (xs + ys)[1..] == xs[1..] + ys;
      CanonMembersConcat(xs[1..], ys);
    }
  }

  lemma {:induction false} SortCommutesWithCanon(ms: seq<Member>)
    ensures CanonMembers(SortMembers(ms)) == SortMembers(CanonMembers(ms))
  {
    if ms != [] {
      var n := |ms| - 1;
      var m := Member(ms[n].key, Canon(ms[n].value));
      assert ms == ms[..n] + [ms[n]];
      CanonMembersConcat(ms[..n], [ms[n]]);
      assert CanonMembers([ms[n]]) == [m];
      var cs := CanonMembers(ms);
      assert cs[..|cs| - 1] == CanonMembers(ms[..n]) && cs[|cs| - 1] == m;
      SortCommutesWithCanon(ms[..n]);
      InsertCommutesWithCanon(ms[n], SortMembers(ms[..n]));
    }
  }

  lemma {:induction false} RenderItemsAppend(items: seq<Json>, v: Json)
    ensures RenderItems(items + [v]) == if items == [] then Render(v) else RenderItems(items) + "," + Render(v)
  {
    if items == [] {
      assert items + [v] == [v];
    } else {
      var all := items + [v];
      assert all[1..] == items[1..] + [v];
      RenderItemsAppend(items[1..], v);
      if |items| > 1 {
        Assoc5(Render(items[0]), ",", RenderItems(items[1..]), ",", Render(v));
      }
    }
  }

  lemma {:induction false} RenderMembersAppend(ms: seq<Member>, m: Member)
    ensures RenderMembers(ms + [m]) == if ms == [] then RenderMember(m) else RenderMembers(ms) + "," + RenderMember(m)
  {
    if ms == [] {
      assert ms + [m] == [m];
    } else {
      var all := ms + [m];
      assert all[1..] == ms[1..] + [m];
      RenderMembersAppend(ms[1..], m);
      if |ms| > 1 {
        Assoc5(RenderMember(ms[0]), ",", RenderMembers(ms[1..]), ",", RenderMember(m));
      }
    }
  }

  lemma ItemStep(cs: seq<Json>, i: nat, before: string)
    requires i < |cs| && before == "[" + RenderItems(cs[..i])
    ensures (if i > 0 then before + "," else before) + Render(cs[i]) == "[" + RenderItems(cs[..i + 1])
  {
    RenderItemsAppend(cs[..i], cs[i]);
    assert cs[..i] + [cs[i]] == cs[..i + 1];
    if i > 0 {
      Assoc4("[", RenderItems(cs[..i]), ",", Render(cs[i]));
    }
  }

  lemma MemberStep(cs: seq<Member>, i: nat, before: string)
    requires i < |cs| && before == "{" + RenderMembers(cs[..i])
    ensures (if i > 0 then before + "," else before) + RenderMember(cs[i]) == "{" + RenderMembers(cs[..i + 1])
  {
    RenderMembersAppend(cs[..i], cs[i]);
    assert cs[..i] + [cs[i]] == cs[..i + 1];
    if i > 0 {
      Assoc4("{", RenderMembers(cs[..i]), ",", RenderMember(cs[i]));
    }
  }

  /** `canonical_json_string`: recursive, appending to one string in loops. */
  method CanonicalJsonString(v: Json) returns (out: string)
    ensures out == Print(v)
    decreases v, 1
  {
    match v
    case Null => return "null";
    case Bool(b) => return if b then "true" else "false";
    case Number(n) => return SignedDecimal(n);
    case String(s) => return Quote(s);
    case Array(items) => out := ArrayString(items);
    case Object(ms) => out := ObjectString(ms);
  }

  method ArrayString(items: seq<Json>) returns (out: string)
    ensures out == "[" + RenderItems(CanonItems(items)) + "]"
    decreases items, 0
  {
    CanonItemsAt(items);
    ghost var cs := CanonItems(items);
    out := "[";
    for i := 0 to |items|
      invariant out == "[" + RenderItems(cs[..i])
    {
      ItemStep(cs, i, out);
      if i > 0 {
        out := out + ",";
      }
      var item := CanonicalJsonString(items[i]);
      out := out + item;
    }
    assert cs[..|items|] == cs;
    out := out + "]";
  }

  /** The members in key order, as inserting them into a `BTreeMap` leaves them. */
  method SortedByKey(ms: seq<Member>) returns (sorted: seq<Member>)
    ensures sorted == SortMembers(ms)
  {
    sorted := [];
    for i := 0 to |ms|
      invariant sorted == SortMembers(ms[..i])
    {
      assert ms[..i + 1][..i] == ms[..i];
      sorted := InsertMember(ms[i], sorted);
    }
    assert ms[..|ms|] == ms;
  }

  lemma SortedMemberSmaller(ms: seq<Member>, i: nat)
    requires i < |SortMembers(ms)|
    ensures SortMembers(ms)[i] in ms
  {
    SortedMembers(ms);
    assert SortMembers(ms)[i] in SortMembers(ms);
    assert Counts(ms, SortMembers(ms)[i]);
  }

  method ObjectString(ms: seq<Member>) returns (out: string)
    ensures out == "{" + RenderMembers(SortMembers(CanonMembers(ms))) + "}"
    decreases ms, 0
  {
    var sorted := SortedByKey(ms);
    SortCommutesWithCanon(ms);
    CanonMembersAt(sorted);
    ghost var cs := CanonMembers(sorted);
    out := "{";
    for i := 0 to |sorted|
      invariant out == "{" + RenderMembers(cs[..i])
    {
      MemberStep(cs, i, out);
      if i > 0 {
        out := out + ",";
      }
      SortedMemberSmaller(ms, i);
      var text := CanonicalJsonString(sorted[i].value);
      Assoc4(out, Quote(sorted[i].key), ":", text);
      out := out + Quote(sorted[i].key) + ":" + text;
    }
    assert cs[..|sorted|] == cs;
    out := out + "}";
  }
}
