/** The JSON texts a review lens answers with: {"findings": [...]} over flat objects, after the grammar of
    RFC 8259, sections 2 and 7; and what the span finder sees in any prefix of one. */
module Envelopes {
  import opened Text
  import opened Numerals
  import opened DiffParse
  import opened JsonSpans

  // ----- Values -----

  /** A character of a string, after RFC 8259, section 7: itself, a two-character escape, or a code unit
      in four hex digits. */
  datatype StrChar = Raw(c: char) | Esc(c: char) | Unit(hex: string) {
    predicate Valid() {
      match this
      case Raw(c) => ' ' <= c && c != '"' && c != '\\'
      case Esc(c) => c in "\"\\/bfnrt"
      case Unit(hex) => |hex| == 4 && AllHex(hex)
    }
    function Text(): string {
      match this
      case Raw(c) => [c]
      case Esc(c) => ['\\', c]
      case Unit(hex) => "\\u" + hex
    }
  }

  predicate AllHex(s: string) {
    forall i :: 0 <= i < |s| ==> IsDigit(s[i]) || 'a' <= s[i] <= 'f' || 'A' <= s[i] <= 'F'
  }

  datatype Scalar = Str(chars: seq<StrChar>) | Word(text: string)

  /** A decoded value. Member names are kept as they were spelt. */
  datatype Value = Leaf(scalar: Scalar) | List(items: seq<Value>) | Dict(fields: seq<Field>)

  datatype Field = Field(name: seq<StrChar>, value: Value)

  // ----- Spelling -----

  predicate IsBlank(c: char) {
    c == ' ' || c == '\t' || c == '\n' || c == '\r'
  }

  predicate Blanks(s: string) {
    forall i :: 0 <= i < |s| ==> IsBlank(s[i])
  }

  /** Nothing, or e or E, a sign or none, and digits. */
  predicate IsExponent(s: string) {
    s == "" || ((s[0] == 'e' || s[0] == 'E') && IsPower(s[1..]))
  }

  predicate IsPower(s: string) {
    s != "" && if s[0] == '+' || s[0] == '-' then s != [s[0]] && AllDigits(s[1..]) else AllDigits(s)
  }

  /** A fraction or none, and then an exponent or none. */
  predicate IsFraction(s: string) {
    if s != "" && s[0] == '.' then DigitRun(s[1..]) > 0 && IsExponent(s[1..][DigitRun(s[1..])..]) else IsExponent(s)
  }

  /** Digits without a leading zero, and what may follow them. */
  predicate IsUnsigned(s: string) {
    && DigitRun(s) > 0
    && (s[0] == '0' ==> DigitRun(s) == 1)
    && IsFraction(s[DigitRun(s)..])
  }

  /** A number after RFC 8259, section 6. */
  predicate IsNumber(s: string) {
    if s != "" && s[0] == '-' then IsUnsigned(s[1..]) else IsUnsigned(s)
  }

  predicate IsWord(s: string) {
    s == "true" || s == "false" || s == "null" || IsNumber(s)
  }

  predicate AllValid(chars: seq<StrChar>) {
    forall i :: 0 <= i < |chars| ==> chars[i].Valid()
  }

  function CharsText(chars: seq<StrChar>): string {
    if chars == [] then "" else chars[0].Text() + CharsText(chars[1..])
  }

  function Quote(chars: seq<StrChar>): string {
    "\"" + CharsText(chars) + "\""
  }

  function ScalarText(s: Scalar): string {
    match s
    case Str(chars) => Quote(chars)
    case Word(text) => text
  }

  predicate ValidScalar(s: Scalar) {
    match s
    case Str(chars) => AllValid(chars)
    case Word(text) => IsWord(text)
  }

  /** A member with the whitespace around each of its tokens. */
  datatype Member = Member(a: string, name: seq<StrChar>, b: string, c: string, value: Scalar, d: string) {
    predicate Valid() {
      Blanks(a) && AllValid(name) && Blanks(b) && Blanks(c) && ValidScalar(value) && Blanks(d)
    }
    function Text(): string { a + Quote(name) + (b + ":" + c) + ScalarText(value) + d }
  }

  function MembersText(members: seq<Member>): string {
    if members == [] then ""
    else if |members| == 1 then members[0].Text()
    else members[0].Text() + "," + MembersText(members[1..])
  }

  function FieldsOf(members: seq<Member>): seq<Field> {
    if members == [] then [] else [Field(members[0].name, Leaf(members[0].value))] + FieldsOf(members[1..])
  }

  /** An object whose values are all scalars. */
  datatype Flat = Flat(members: seq<Member>, pad: string) {
    predicate Valid() {
      Blanks(pad) && forall i :: 0 <= i < |members| ==> members[i].Valid()
    }
    function Inner(): string { if members == [] then pad else MembersText(members) }
    function Text(): string { "{" + Inner() + "}" }
    function Value(): Value { Dict(FieldsOf(members)) }
  }

  datatype Item = Item(before: string, finding: Flat, after: string) {
    predicate Valid() { Blanks(before) && finding.Valid() && Blanks(after) }
  }

  /** The items of an array; all but the first follow a comma. */
  function ItemsText(items: seq<Item>, first: bool): string {
    if items == [] then ""
    else Lead(items[0], first) + items[0].finding.Text() + (items[0].after + ItemsText(items[1..], false))
  }

  function Lead(item: Item, first: bool): string {
    (if first then "" else ",") + item.before
  }

  predicate ValidItems(items: seq<Item>) {
    forall i :: 0 <= i < |items| ==> items[i].Valid()
  }

  function FindingsOf(items: seq<Item>): seq<Flat> {
    if items == [] then [] else [items[0].finding] + FindingsOf(items[1..])
  }

  function ValuesOf(findings: seq<Flat>): seq<Value> {
    if findings == [] then [] else [findings[0].Value()] + ValuesOf(findings[1..])
  }

  /** The characters of a string, each for itself. */
  function Plainly(s: string): seq<StrChar> {
    if s == "" then [] else [Raw(s[0])] + Plainly(s[1..])
  }

  lemma {:induction false} PlainlyReads(s: string)
    requires forall i :: 0 <= i < |s| ==> Raw(s[i]).Valid()
    ensures CharsText(Plainly(s)) == s && AllValid(Plainly(s))
  {
    if s != "" {
      PlainlyReads(s[1..]);
      assert s == [s[0]] + s[1..];
    }
  }

  const KEY_CHARS: seq<StrChar> := Plainly("findings")

  /** {"findings": [ ... ]}, with any whitespace. */
  datatype Envelope = Envelope(a: string, b: string, c: string, items: seq<Item>, pad: string, d: string) {
    predicate Valid() {
      Blanks(a) && Blanks(b) && Blanks(c) && ValidItems(items) && Blanks(pad) && Blanks(d)
    }
    function Opening(): string { a + Quote(KEY_CHARS) + (b + ":" + c) }
    function Contents(): string { if items == [] then pad else ItemsText(items, true) }
    function ArrayText(): string { "[" + (Contents() + "]") }
    function Text(): string { "{" + (Opening() + (ArrayText() + (d + "}"))) }
    function Array(): Value { List(ValuesOf(FindingsOf(items))) }
    function Value(): Value { Dict([Field(KEY_CHARS, Array())]) }
    /** Where the array's contents start, and where its closing bracket ends. */
    function ArrayStart(): nat { 2 + |Opening()| }
    function ArrayEnd(): nat { ArrayStart() + |Contents()| + 1 }
  }

  // ----- What opens and closes in them -----

  /** No bracket outside strings. */
  predicate NoTurns(s: string, mode: Mode) {
    s == "" || (Turn(Brace, mode, s[0]) == 0 && Turn(Bracket, mode, s[0]) == 0 && NoTurns(s[1..], Next(mode, s[0])))
  }

  /** No bracket outside strings, and every string is closed. */
  predicate Quiet(s: string) {
    NoTurns(s, Plain) && ModeAfter(s, Plain) == Plain
  }

  lemma {:induction false} NoTurnsConcat(a: string, b: string, mode: Mode)
    ensures NoTurns(a + b, mode) <==> NoTurns(a, mode) && NoTurns(b, ModeAfter(a, mode))
    decreases |a|
  {
    if a == "" {
      assert a + b == b;
    } else {
      assert (a + b)[1..] == a[1..] + b;
      NoTurnsConcat(a[1..], b, Next(mode, a[0]));
    }
  }

  lemma {:induction false} QuietConcat(a: string, b: string)
    requires Quiet(a) && Quiet(b)
    ensures Quiet(a + b)
  {
    NoTurnsConcat(a, b, Plain);
    ModeConcat(a, b, Plain);
  }

  /** Characters that mean nothing to either walk. */
  predicate Inert(c: char) {
    c != '"' && c != '\\' && c != '{' && c != '}' && c != '[' && c != ']'
  }

  lemma {:induction false} InertIsQuiet(s: string)
    requires AllInert(s)
    ensures Quiet(s)
    decreases |s|
  {
    if s != "" {
      InertIsQuiet(s[1..]);
    }
  }

  predicate AllInert(s: string) {
    forall i :: 0 <= i < |s| ==> Inert(s[i])
  }

  lemma {:induction false} ExponentIsInert(s: string)
    requires IsExponent(s)
    ensures AllInert(s)
  {
    if s != "" {
      var power := s[1..];
      assert forall i :: 1 <= i < |s| ==> s[i] == power[i - 1];
      assert power[0] == '+' || power[0] == '-' ==> forall i :: 1 <= i < |power| ==> power[i] == power[1..][i - 1];
    }
  }

  lemma {:induction false} FractionIsInert(s: string)
    requires IsFraction(s)
    ensures AllInert(s)
  {
    if s != "" && s[0] == '.' {
      var after, run := s[1..], DigitRun(s[1..]);
      ExponentIsInert(after[run..]);
      assert s == ['.'] + after[..run] + after[run..];
    } else {
      ExponentIsInert(s);
    }
  }

  lemma {:induction false} UnsignedIsInert(s: string)
    requires IsUnsigned(s)
    ensures AllInert(s)
  {
    FractionIsInert(s[DigitRun(s)..]);
    assert s == s[..DigitRun(s)] + s[DigitRun(s)..];
  }

  /** No quote, bracket or backslash stands in a number, true, false or null. */
  lemma {:induction false} WordIsInert(s: string)
    requires IsWord(s)
    ensures AllInert(s)
  {
    if s == "true" || s == "false" || s == "null" {
    } else if s != "" && s[0] == '-' {
      UnsignedIsInert(s[1..]);
      assert s == ['-'] + s[1..];
    } else {
      UnsignedIsInert(s);
    }
  }

  /** Inside a string nothing opens, and its end is found. */
  lemma {:induction false} CharsQuoted(chars: seq<StrChar>, rest: string)
    requires AllValid(chars)
    ensures NoTurns(CharsText(chars) + rest, Quoted) <==> NoTurns(rest, Quoted)
    ensures ModeAfter(CharsText(chars) + rest, Quoted) == ModeAfter(rest, Quoted)
    decreases |chars|
  {
    if chars == [] {
      assert CharsText(chars) + rest == rest;
    } else {
      CharsQuoted(chars[1..], rest);
      Assoc(chars[0].Text(), CharsText(chars[1..]), rest);
      assert chars[0].Valid();
      hide NoTurns, ModeAfter, StrChar.Text, StrChar.Valid;
      CharQuoted(chars[0], CharsText(chars[1..]) + rest);
    }
  }

  lemma {:induction false} CharQuoted(c: StrChar, rest: string)
    requires c.Valid()
    ensures NoTurns(c.Text() + rest, Quoted) <==> NoTurns(rest, Quoted)
    ensures ModeAfter(c.Text() + rest, Quoted) == ModeAfter(rest, Quoted)
  {
    var s := c.Text() + rest;
    match c
    case Raw(_) => assert s[0] == c.c && s[1..] == rest;
    case Esc(_) =>
      assert s[0] == '\\' && s[1..] == [c.c] + rest;
      EscapedChar(c.c, rest);
    case Unit(hex) =>
      assert s[0] == '\\' && s[1..] == "u" + (hex + rest);
      EscapedChar('u', hex + rest);
      InertInside(hex, rest);
  }

  lemma {:induction false} InertInside(s: string, rest: string)
    requires AllInert(s)
    ensures NoTurns(s + rest, Quoted) <==> NoTurns(rest, Quoted)
    ensures ModeAfter(s + rest, Quoted) == ModeAfter(rest, Quoted)
    decreases |s|
  {
    if s == "" {
      assert s + rest == rest;
    } else {
      assert (s + rest)[0] == s[0] && (s + rest)[1..] == s[1..] + rest;
      InertInside(s[1..], rest);
    }
  }

  lemma {:induction false} EscapedChar(c: char, rest: string)
    ensures NoTurns([c] + rest, Escaped) <==> NoTurns(rest, Quoted)
    ensures ModeAfter([c] + rest, Escaped) == ModeAfter(rest, Quoted)
  {
    assert ([c] + rest)[1..] == rest;
  }

  lemma {:induction false} QuoteIsQuiet(chars: seq<StrChar>)
    requires AllValid(chars)
    ensures Quiet(Quote(chars))
  {
    CharsQuoted(chars, "\"");
    assert Quote(chars) == "\"" + (CharsText(chars) + "\"");
    assert Quote(chars)[1..] == CharsText(chars) + "\"";
    assert NoTurns("\"", Quoted) && ModeAfter("\"", Quoted) == Plain by {
      assert "\""[1..] == "";
    }
  }

  lemma {:induction false} BlanksAreQuiet(s: string)
    requires Blanks(s)
    ensures Quiet(s)
  {
    InertIsQuiet(s);
  }

  lemma {:induction false} ScalarIsQuiet(s: Scalar)
    requires ValidScalar(s)
    ensures Quiet(ScalarText(s))
  {
    match s
    case Str(chars) => QuoteIsQuiet(chars);
    case Word(text) =>
      WordIsInert(text);
      InertIsQuiet(text);
  }

  lemma {:induction false} ColonIsQuiet(b: string, c: string)
    requires Blanks(b) && Blanks(c)
    ensures Quiet(b + ":" + c)
  {
    InertIsQuiet(b + ":" + c);
  }

  lemma {:induction false} MemberIsQuiet(m: Member)
    requires m.Valid()
    ensures Quiet(m.Text())
  {
    hide Quiet, Quote, ScalarText;
    BlanksAreQuiet(m.a);
    QuoteIsQuiet(m.name);
    ColonIsQuiet(m.b, m.c);
    ScalarIsQuiet(m.value);
    BlanksAreQuiet(m.d);
    hide Blanks, ValidScalar, AllValid;
    QuietConcat(m.a, Quote(m.name));
    QuietConcat(m.a + Quote(m.name), m.b + ":" + m.c);
    QuietConcat(m.a + Quote(m.name) + (m.b + ":" + m.c), ScalarText(m.value));
    QuietConcat(m.a + Quote(m.name) + (m.b + ":" + m.c) + ScalarText(m.value), m.d);
  }

  lemma {:induction false} MembersAreQuiet(members: seq<Member>)
    requires forall i :: 0 <= i < |members| ==> members[i].Valid()
    ensures Quiet(MembersText(members))
    decreases |members|
  {
    hide Quiet, Member.Text, Member.Valid;
    if members == [] {
      InertIsQuiet("");
    } else {
      MemberIsQuiet(members[0]);
      if |members| > 1 {
        MembersAreQuiet(members[1..]);
        InertIsQuiet(",");
        QuietConcat(members[0].Text(), ",");
        QuietConcat(members[0].Text() + ",", MembersText(members[1..]));
      }
    }
  }

  lemma {:induction false} FlatIsQuietInside(f: Flat)
    requires f.Valid()
    ensures Quiet(f.Inner())
  {
    if f.members == [] {
      BlanksAreQuiet(f.pad);
    } else {
      MembersAreQuiet(f.members);
    }
  }

  // ----- Scanning past a piece -----

  lemma {:induction false} NoTurnsSpans(s: string, mode: Mode)
    requires NoTurns(s, mode)
    ensures Spans(s, mode) == []
    decreases |s|
  {
    if s != "" {
      NoTurnsSpans(s[1..], Next(mode, s[0]));
    }
  }

  lemma {:induction false} NoTurnsClose(s: string, mode: Mode, kind: Container, depth: nat)
    requires NoTurns(s, mode) && depth > 0
    ensures Close(s, mode, kind, depth).None?
    decreases |s|
  {
    if s != "" {
      NoTurnsClose(s[1..], Next(mode, s[0]), kind, depth);
    }
  }

  lemma {:induction false} NoTurnsDepth(s: string, mode: Mode)
    requires NoTurns(s, mode)
    ensures Depth(s, mode) == 0
    decreases |s|
  {
    if s != "" {
      NoTurnsDepth(s[1..], Next(mode, s[0]));
    }
  }

  lemma {:induction false} DepthConcat(a: string, b: string, mode: Mode)
    ensures Depth(a + b, mode) == Depth(a, mode) + Depth(b, ModeAfter(a, mode))
    decreases |a|
  {
    if a == "" {
      assert a + b == b;
    } else {
      assert (a + b)[1..] == a[1..] + b;
      DepthConcat(a[1..], b, Next(mode, a[0]));
    }
  }

  lemma {:induction false} SpansPast(a: string, rest: string, mode: Mode)
    requires NoTurns(a, mode)
    ensures Spans(a + rest, mode) == Spans(rest, ModeAfter(a, mode))
    decreases |a|
  {
    if a == "" {
      assert a + rest == rest;
    } else {
      assert (a + rest)[1..] == a[1..] + rest;
      SpansPast(a[1..], rest, Next(mode, a[0]));
    }
  }

  lemma {:induction false} ClosePast(a: string, rest: string, mode: Mode, kind: Container, depth: nat)
    requires NoTurns(a, mode) && depth > 0
    ensures Close(a + rest, mode, kind, depth) == Shift(Close(rest, ModeAfter(a, mode), kind, depth), |a|)
    decreases |a|
  {
    if a == "" {
      assert a + rest == rest;
      ShiftTwice(Close(rest, mode, kind, depth), 0, 0);
    } else {
      assert Turn(kind, mode, a[0]) == 0 && NoTurns(a[1..], Next(mode, a[0]));
      assert ModeAfter(a, mode) == ModeAfter(a[1..], Next(mode, a[0]));
      hide Close, Turn, NoTurns, ModeAfter, Next, Shift;
      assert (a + rest)[1..] == a[1..] + rest && (a + rest)[0] == a[0];
      CloseUnfolds(a + rest, mode, kind, depth);
      ClosePast(a[1..], rest, Next(mode, a[0]), kind, depth);
      ShiftTwice(Close(rest, ModeAfter(a, mode), kind, depth), |a| - 1, 1);
    }
  }

  lemma {:induction false} ShiftTwice(n: Option<nat>, i: nat, j: nat)
    ensures Shift(Shift(n, i), j) == Shift(n, i + j) && Shift(n, 0) == n
  {
  }

  lemma {:induction false} NoTurnsPrefix(s: string, n: nat, mode: Mode)
    requires NoTurns(s, mode) && n <= |s|
    ensures NoTurns(s[..n], mode)
  {
    assert s == s[..n] + s[n..];
    NoTurnsConcat(s[..n], s[n..], mode);
  }

  /** What a text contributes to the span finder and to the depth, and that it leaves no closer over for
      an opener before it. */
  ghost predicate Holds(s: string, spans: seq<string>, depth: int) {
    && Spans(s, Plain) == spans && Depth(s, Plain) == depth
    && (forall kind: Container, d: nat :: d > 0 ==> Close(s, Plain, kind, d).None?)
  }

  /** A text without brackets holds nothing. */
  lemma {:induction false} QuietHolds(s: string)
    requires NoTurns(s, Plain)
    ensures Holds(s, [], 0)
  {
    NoTurnsSpans(s, Plain);
    NoTurnsDepth(s, Plain);
    forall kind: Container, d: nat | d > 0 ensures Close(s, Plain, kind, d).None? {
      NoTurnsClose(s, Plain, kind, d);
    }
  }

  /** A quiet text before another adds nothing. */
  lemma {:induction false} QuietBefore(a: string, rest: string, spans: seq<string>, depth: int)
    requires Quiet(a) && Holds(rest, spans, depth)
    ensures Holds(a + rest, spans, depth)
  {
    hide Spans, Close, Depth, NoTurns, ModeAfter;
    SpansPast(a, rest, Plain);
    DepthConcat(a, rest, Plain);
    NoTurnsDepth(a, Plain);
    forall kind: Container, d: nat | d > 0 ensures Close(a + rest, Plain, kind, d).None? {
      ClosePast(a, rest, Plain, kind, d);
    }
  }

  /** An opener whose rest holds no closer for it opens no span, and goes one deeper. */
  lemma {:induction false} OpenBefore(kind: Container, rest: string, spans: seq<string>, depth: int)
    requires Holds(rest, spans, depth)
    ensures Holds([kind.Opener()] + rest, spans, depth + 1)
  {
    var s := [kind.Opener()] + rest;
    assert s[1..] == rest && s[0] == kind.Opener();
    assert Close(rest, Plain, kind, 1).None?;
    assert SpanAt(s) == [];
    assert Next(Plain, s[0]) == Plain;
    forall k: Container, d: nat | d > 0 ensures Close(s, Plain, k, d).None? {
      CloseUnfolds(s, Plain, k, d);
    }
  }

  /** A whole object: one span, the object, and no depth. */
  lemma {:induction false} ObjectBefore(inner: string, rest: string, spans: seq<string>, depth: int)
    requires Quiet(inner) && Holds(rest, spans, depth)
    ensures Holds("{" + inner + "}" + rest, ["{" + inner + "}"] + spans, depth)
  {
    hide Quiet, Spans, Depth;
    var whole := "{" + inner + "}" + rest;
    assert whole == "{" + (inner + ("}" + rest));
    ObjectSpan(inner, rest);
    ObjectDepth(inner, rest);
    forall k: Container, d: nat | d > 0 ensures Close(whole, Plain, k, d).None? {
      ObjectClose(inner, rest, k, d);
    }
  }

  lemma {:induction false} ObjectClose(inner: string, rest: string, kind: Container, depth: nat)
    requires Quiet(inner) && depth > 0
    ensures Close("{" + (inner + ("}" + rest)), Plain, kind, depth) == Shift(Close(rest, Plain, kind, depth), |inner| + 2)
  {
    hide NoTurns, Close, Shift;
    var last := "}" + rest;
    var body := inner + last;
    var inside := depth + Turn(kind, Plain, '{');
    assert inside + Turn(kind, Plain, '}') == depth;
    assert last[0] == '}' && last[1..] == rest && ("{" + body)[0] == '{' && ("{" + body)[1..] == body;
    assert ModeAfter(inner, Plain) == Plain && Next(Plain, '{') == Plain && Next(Plain, '}') == Plain;
    hide *;
    CloseUnfolds("{" + body, Plain, kind, depth);
    ClosePast(inner, last, Plain, kind, inside);
    CloseUnfolds(last, Plain, kind, inside);
    var n := Close(rest, Plain, kind, depth);
    ShiftTwice(n, 1, |inner|);
    ShiftTwice(n, 1 + |inner|, 1);
  }

  lemma {:induction false} ObjectSpan(inner: string, rest: string)
    requires Quiet(inner)
    ensures Spans("{" + (inner + ("}" + rest)), Plain) == ["{" + inner + "}"] + Spans(rest, Plain)
  {
    var last := "}" + rest;
    var body := inner + last;
    var whole := "{" + body;
    assert last[1..] == rest && whole[1..] == body && whole[0] == '{' && last[0] == '}';
    SpansPast(inner, last, Plain);
    assert Spans(last, Plain) == [] + Spans(rest, Plain) by {
      assert SpanAt(last) == [];
    }
    ClosePast(inner, last, Plain, Brace, 1);
    CloseUnfolds(last, Plain, Brace, 1);
    hide Close;
    assert whole[..|inner| + 2] == "{" + inner + "}";
    assert SpanAt(whole) == ["{" + inner + "}"];
  }

  lemma {:induction false} ObjectDepth(inner: string, rest: string)
    requires Quiet(inner)
    ensures Depth("{" + (inner + ("}" + rest)), Plain) == Depth(rest, Plain)
  {
    var last := "}" + rest;
    var body := inner + last;
    assert last[1..] == rest && ("{" + body)[1..] == body;
    DepthConcat(inner, last, Plain);
    NoTurnsDepth(inner, Plain);
  }

  /** An object cut short opens no span. */
  lemma {:induction false} ObjectCut(inner: string, n: nat)
    requires Quiet(inner) && 0 < n < |inner| + 2
    ensures Holds(("{" + inner + "}")[..n], [], 1)
  {
    var p := ("{" + inner + "}")[..n];
    assert p == [Brace.Opener()] + inner[..n - 1];
    NoTurnsPrefix(inner, n - 1, Plain);
    QuietHolds(inner[..n - 1]);
    OpenBefore(Brace, inner[..n - 1], [], 0);
  }

  // ----- Prefixes of the items -----

  /** The findings whose text ends within the first n characters of the items. */
  function Completed(items: seq<Item>, first: bool, n: int): seq<Flat> {
    if items == [] then []
    else
      var end := |Lead(items[0], first)| + |items[0].finding.Text()|;
      if n < end then [] else [items[0].finding] + Completed(items[1..], false, n - end - |items[0].after|)
  }

  function TextsOf(findings: seq<Flat>): seq<string> {
    if findings == [] then [] else [findings[0].Text()] + TextsOf(findings[1..])
  }

  lemma {:induction false} LeadIsQuiet(item: Item, first: bool)
    requires item.Valid()
    ensures Quiet(Lead(item, first)) && Quiet(item.after)
  {
    BlanksAreQuiet(item.after);
    InertIsQuiet(Lead(item, first));
  }

  /** A cut that falls in quiet text. */
  lemma {:induction false} QuietCut(a: string, n: nat)
    requires Quiet(a) && n <= |a|
    ensures Holds(a[..n], [], 0)
  {
    NoTurnsPrefix(a, n, Plain);
    QuietHolds(a[..n]);
  }

  /** Any prefix of the items holds the spans of the findings it completes, and no others. */
  lemma {:induction false} ItemsPrefix(items: seq<Item>, first: bool, n: nat) returns (depth: nat)
    requires ValidItems(items) && n <= |ItemsText(items, first)|
    ensures Holds(ItemsText(items, first)[..n], TextsOf(Completed(items, first, n)), depth)
    decreases |items|
  {
    hide Holds, Quiet, Flat.Text, Item.Valid, Lead;
    if items == [] {
      QuietHolds("");
      depth := 0;
      assert ItemsText(items, first)[..n] == "";
    } else {
      var item := items[0];
      var lead, text, below := Lead(item, first), item.finding.Text(), item.after + ItemsText(items[1..], false);
      LeadIsQuiet(item, first);
      if n <= |lead| {
        depth := 0;
        QuietCut(lead, n);
        assert ItemsText(items, first)[..n] == lead[..n];
        TextNotEmpty(item.finding);
      } else if n < |lead| + |text| {
        depth := 1;
        FindingCut(item, n - |lead|);
        QuietBefore(lead, text[..n - |lead|], [], 1);
        assert ItemsText(items, first)[..n] == lead + text[..n - |lead|];
      } else {
        depth := AfterFinding(items, first, n - |lead| - |text|);
        assert ItemsText(items, first)[..n] == lead + (text + below[..n - |lead| - |text|]);
        var done := Completed(items[1..], false, n - |lead| - |text| - |item.after|);
        FindingBefore(item, below[..n - |lead| - |text|], TextsOf(done), depth);
        QuietBefore(lead, text + below[..n - |lead| - |text|], [text] + TextsOf(done), depth);
        assert Completed(items, first, n) == [item.finding] + done;
      }
    }
  }

  lemma {:induction false} TextNotEmpty(f: Flat)
    ensures |f.Text()| >= 2
  {
  }

  lemma {:induction false} FindingCut(item: Item, n: nat)
    requires item.Valid() && 0 < n < |item.finding.Text()|
    ensures Holds(item.finding.Text()[..n], [], 1)
  {
    FlatIsQuietInside(item.finding);
    ObjectCut(item.finding.Inner(), n);
  }

  lemma {:induction false} FindingBefore(item: Item, rest: string, spans: seq<string>, depth: int)
    requires item.Valid() && Holds(rest, spans, depth)
    ensures Holds(item.finding.Text() + rest, [item.finding.Text()] + spans, depth)
  {
    FlatIsQuietInside(item.finding);
    ObjectBefore(item.finding.Inner(), rest, spans, depth);
  }

  /** What comes after a whole first finding. */
  lemma {:induction false} AfterFinding(items: seq<Item>, first: bool, n: nat) returns (depth: nat)
    requires items != [] && ValidItems(items) && n <= |items[0].after + ItemsText(items[1..], false)|
    ensures Holds((items[0].after + ItemsText(items[1..], false))[..n],
                  TextsOf(Completed(items[1..], false, n - |items[0].after|)), depth)
    decreases |items|, 0
  {
    hide Holds, Quiet, Flat.Text, Item.Valid, Lead;
    var after, below := items[0].after, ItemsText(items[1..], false);
    LeadIsQuiet(items[0], first);
    if n <= |after| {
      depth := 0;
      QuietCut(after, n);
      assert (after + below)[..n] == after[..n];
      NothingCompleted(items[1..], false, n - |after|);
    } else {
      depth := ItemsPrefix(items[1..], false, n - |after|);
      QuietBefore(after, below[..n - |after|], TextsOf(Completed(items[1..], false, n - |after|)), depth);
      assert (after + below)[..n] == after + below[..n - |after|];
    }
  }

  lemma {:induction false} NothingCompleted(items: seq<Item>, first: bool, n: int)
    requires n <= 0
    ensures Completed(items, first, n) == []
  {
    if items != [] {
      TextNotEmpty(items[0].finding);
    }
  }

  // ----- Prefixes of an envelope -----

  lemma {:induction false} OpeningIsQuiet(e: Envelope)
    requires e.Valid()
    ensures Quiet(e.Opening())
  {
    hide Quiet, Quote;
    BlanksAreQuiet(e.a);
    KeyIsValid();
    QuoteIsQuiet(KEY_CHARS);
    ColonIsQuiet(e.b, e.c);
    QuietConcat(e.a, Quote(KEY_CHARS));
    QuietConcat(e.a + Quote(KEY_CHARS), e.b + ":" + e.c);
  }

  lemma {:induction false} QuotedLetters(s: string)
    requires forall i :: 0 <= i < |s| ==> 'a' <= s[i] <= 'z'
    ensures AllValid(Plainly(s)) && Quote(Plainly(s)) == "\"" + s + "\""
  {
    PlainlyReads(s);
  }

  lemma {:induction false} KeyIsValid()
    ensures AllValid(KEY_CHARS) && Quote(KEY_CHARS) == "\"findings\""
  {
    assert KEY_CHARS == Plainly("findings");
    hide *;
    QuotedLetters("findings");
  }

  /** The parts of an envelope's text. */
  lemma {:induction false} EnvelopeParts(e: Envelope)
    ensures e.Text() == "{" + (e.Opening() + ("[" + (e.Contents() + ("]" + (e.d + "}")))))
    ensures |e.Text()| == e.ArrayEnd() + |e.d| + 1
  {
    hide Envelope.Opening, Envelope.Contents;
    ArrayThen(e.Contents(), e.d + "}");
  }

  lemma {:induction false} ArrayThen(contents: string, rest: string)
    ensures ("[" + (contents + "]")) + rest == "[" + (contents + ("]" + rest))
  {
    Assoc("[", contents + "]", rest);
    Assoc(contents, "]", rest);
  }

  /** The findings an envelope cut after n characters completes. */
  function CompletedIn(e: Envelope, n: nat): seq<Flat> {
    Completed(e.items, true, n - e.ArrayStart())
  }

  /** A cut before the array closes: the spans are the completed findings, and something is left open. */
  lemma {:induction false} OpenPrefix(e: Envelope, n: nat) returns (depth: nat)
    requires e.Valid() && 0 < n < e.ArrayEnd()
    ensures n <= |e.Text()| && Holds(e.Text()[..n], TextsOf(CompletedIn(e, n)), depth) && depth > 0
  {
    hide Holds, Quiet, Envelope.Text, Envelope.Opening, Envelope.Contents, Envelope.Valid, Completed, TextsOf;
    EnvelopeParts(e);
    if n <= 1 + |e.Opening()| {
      depth := 1;
      CutBeforeArray(e, n);
    } else {
      depth := CutInArray(e, n);
    }
  }

  lemma {:induction false} CutBeforeArray(e: Envelope, n: nat)
    requires e.Valid() && 0 < n <= 1 + |e.Opening()| && n <= |e.Text()|
    ensures Holds(e.Text()[..n], TextsOf(CompletedIn(e, n)), 1)
  {
    hide *;
    NothingBeforeArray(e, n);
    EnvelopeParts(e);
    OpeningIsQuiet(e);
    CutEarlyHolds(e.Opening(), "[" + (e.Contents() + ("]" + (e.d + "}"))), n);
  }

  lemma {:induction false} NothingBeforeArray(e: Envelope, n: nat)
    requires n <= 1 + |e.Opening()|
    ensures TextsOf(CompletedIn(e, n)) == []
  {
    NothingCompleted(e.items, true, n - e.ArrayStart());
  }

  lemma {:induction false} CutEarlyHolds(opening: string, rest: string, n: nat)
    requires Quiet(opening) && 0 < n <= 1 + |opening|
    ensures n <= |"{" + (opening + rest)| && Holds(("{" + (opening + rest))[..n], [], 1)
  {
    hide Holds, Quiet;
    CutOpening(opening, n - 1);
    CutEarly(opening, rest, n - 1);
  }

  lemma {:induction false} CutInArray(e: Envelope, n: nat) returns (depth: nat)
    requires e.Valid() && 1 + |e.Opening()| < n < e.ArrayEnd() && n <= |e.Text()|
    ensures Holds(e.Text()[..n], TextsOf(CompletedIn(e, n)), depth) && depth > 0
  {
    hide Holds, Quiet, Envelope.Text, Envelope.Opening, Envelope.Contents, Envelope.Valid, Completed, TextsOf;
    var inside: nat := n - e.ArrayStart();
    assert inside <= |e.Contents()| && n == 2 + |e.Opening()| + inside && CompletedIn(e, n) == Completed(e.items, true, inside);
    hide *;
    var inner := ContentsPrefix(e, inside);
    depth := inner + 2;
    EnvelopeParts(e);
    OpeningIsQuiet(e);
    CutInsideHolds(e.Opening(), e.Contents(), "]" + (e.d + "}"), inside, TextsOf(CompletedIn(e, n)), inner);
  }

  lemma {:induction false} CutInsideHolds(opening: string, contents: string, rest: string, n: nat, spans: seq<string>, depth: nat)
    requires Quiet(opening) && n <= |contents| && Holds(contents[..n], spans, depth)
    ensures Holds(("{" + (opening + ("[" + (contents + rest))))[..2 + |opening| + n], spans, depth + 2)
  {
    hide Holds, Quiet;
    OpenAround(opening, contents[..n], spans, depth);
    CutInside(opening, contents, rest, n);
  }

  lemma {:induction false} CutEarly(opening: string, rest: string, n: nat)
    requires n <= |opening|
    ensures ("{" + (opening + rest))[..1 + n] == "{" + opening[..n]
  {
    assert (opening + rest)[..n] == opening[..n];
  }

  lemma {:induction false} CutInside(opening: string, contents: string, rest: string, n: nat)
    requires n <= |contents|
    ensures ("{" + (opening + ("[" + (contents + rest))))[..2 + |opening| + n] == "{" + (opening + ("[" + contents[..n]))
  {
    assert (contents + rest)[..n] == contents[..n];
    assert ("[" + (contents + rest))[..1 + n] == "[" + contents[..n];
    assert (opening + ("[" + (contents + rest)))[..|opening| + 1 + n] == opening + ("[" + contents[..n]);
  }

  lemma {:induction false} CutOpening(opening: string, n: nat)
    requires Quiet(opening) && n <= |opening|
    ensures Holds("{" + opening[..n], [], 1)
  {
    hide Holds, Quiet;
    QuietCut(opening, n);
    OpenBefore(Brace, opening[..n], [], 0);
  }

  lemma {:induction false} OpenAround(opening: string, contents: string, spans: seq<string>, depth: int)
    requires Quiet(opening) && Holds(contents, spans, depth)
    ensures Holds("{" + (opening + ("[" + contents)), spans, depth + 2)
  {
    hide Holds, Quiet;
    OpenBefore(Bracket, contents, spans, depth);
    QuietBefore(opening, "[" + contents, spans, depth + 1);
    OpenBefore(Brace, opening + ("[" + contents), spans, depth + 1);
  }

  lemma {:induction false} ContentsPrefix(e: Envelope, n: nat) returns (depth: nat)
    requires e.Valid() && n <= |e.Contents()|
    ensures Holds(e.Contents()[..n], TextsOf(Completed(e.items, true, n)), depth)
  {
    hide Holds;
    if e.items == [] {
      depth := 0;
      BlanksAreQuiet(e.pad);
      QuietCut(e.pad, n);
    } else {
      depth := ItemsPrefix(e.items, true, n);
    }
  }

  predicate PassedBefore(s: string, rest: string, kind: Container, d: nat) {
    d > 0 ==> Close(s + rest, Plain, kind, d) == Shift(Close(rest, Plain, kind, d), |s|)
  }

  /** Every closer after the text is met at the depth it would be met without it. */
  ghost predicate Passed(s: string) {
    forall rest: string, kind: Container, d: nat :: PassedBefore(s, rest, kind, d)
  }

  /** A balanced text. */
  ghost predicate Balanced(s: string) {
    ModeAfter(s, Plain) == Plain && Depth(s, Plain) == 0 && Passed(s)
  }

  lemma {:induction false} QuietIsBalanced(s: string)
    requires Quiet(s)
    ensures Balanced(s)
  {
    NoTurnsDepth(s, Plain);
    hide Close, Shift;
    forall rest: string, kind: Container, d: nat ensures PassedBefore(s, rest, kind, d) {
      if d > 0 {
        ClosePast(s, rest, Plain, kind, d);
      }
    }
  }

  lemma {:induction false} BalancedConcat(a: string, b: string)
    requires Balanced(a) && Balanced(b)
    ensures Balanced(a + b)
  {
    ModeConcat(a, b, Plain);
    DepthConcat(a, b, Plain);
    hide ModeAfter, Depth, PassedBefore;
    forall rest: string, kind: Container, d: nat ensures PassedBefore(a + b, rest, kind, d) {
      assert PassedBefore(a, b + rest, kind, d) && PassedBefore(b, rest, kind, d);
      PassedBoth(a, b, rest, kind, d);
    }
  }

  lemma {:induction false} PassedBoth(a: string, b: string, rest: string, kind: Container, d: nat)
    requires PassedBefore(a, b + rest, kind, d) && PassedBefore(b, rest, kind, d)
    ensures PassedBefore(a + b, rest, kind, d)
  {
    hide Close, Shift;
    Assoc(a, b, rest);
    ShiftTwice(Close(rest, Plain, kind, d), |b|, |a|);
  }

  lemma {:induction false} ObjectIsBalanced(inner: string)
    requires Quiet(inner)
    ensures Balanced("{" + inner + "}")
  {
    var s := "{" + inner + "}";
    assert s + "" == s && "}" + "" == "}" && s == "{" + (inner + ("}" + ""));
    ObjectDepth(inner, "");
    ObjectMode(inner);
    hide Quiet, ModeAfter, Depth, Close, Shift;
    forall rest: string, kind: Container, d: nat ensures PassedBefore(s, rest, kind, d) {
      if d > 0 {
        assert s + rest == "{" + (inner + ("}" + rest));
        ObjectClose(inner, rest, kind, d);
      }
    }
  }

  lemma {:induction false} ObjectMode(inner: string)
    requires Quiet(inner)
    ensures ModeAfter("{" + (inner + ("}" + "")), Plain) == Plain
  {
    var last := "}" + "";
    assert last[1..] == "" && ("{" + (inner + last))[1..] == inner + last;
    ModeConcat(inner, last, Plain);
  }

  lemma {:induction false} ItemsAreBalanced(items: seq<Item>, first: bool)
    requires ValidItems(items)
    ensures Balanced(ItemsText(items, first))
    decreases |items|
  {
    hide Balanced, Quiet, Flat.Text, Item.Valid, Lead;
    if items == [] {
      InertIsQuiet("");
      QuietIsBalanced("");
    } else {
      var item := items[0];
      var rest := ItemsText(items[1..], false);
      LeadIsQuiet(item, first);
      FindingIsBalanced(item);
      ItemsAreBalanced(items[1..], false);
      QuietIsBalanced(item.after);
      QuietIsBalanced(Lead(item, first));
      BalancedConcat(item.after, rest);
      BalancedConcat(Lead(item, first), item.finding.Text());
      BalancedConcat(Lead(item, first) + item.finding.Text(), item.after + rest);
    }
  }

  lemma {:induction false} FindingIsBalanced(item: Item)
    requires item.Valid()
    ensures Balanced(item.finding.Text())
  {
    FlatIsQuietInside(item.finding);
    ObjectIsBalanced(item.finding.Inner());
  }

  lemma {:induction false} ContentsAreBalanced(e: Envelope)
    requires e.Valid()
    ensures Balanced(e.Contents())
  {
    if e.items == [] {
      BlanksAreQuiet(e.pad);
      QuietIsBalanced(e.pad);
    } else {
      ItemsAreBalanced(e.items, true);
    }
  }

  /** A cut after the array closes and before the envelope does: the first span is the array, and the
      envelope itself is left open. */
  lemma {:induction false} ClosedPrefix(e: Envelope, n: nat)
    requires e.Valid() && e.ArrayEnd() <= n < |e.Text()|
    ensures var spans := Spans(e.Text()[..n], Plain);
      spans != [] && spans[0] == e.ArrayText() && Unterminated(e.Text()[..n])
  {
    hide Quiet, Balanced, Holds, Envelope.Text, Envelope.Opening, Envelope.Contents, Envelope.ArrayText, Envelope.Valid, Spans, Depth;
    EnvelopeParts(e);
    OpeningIsQuiet(e);
    ContentsAreBalanced(e);
    AfterIsQuiet(e);
    QuietCut(e.d, n - e.ArrayEnd());
    ArrayTextIs(e);
    var rest := e.d[..n - e.ArrayEnd()];
    CutAfter(e.Opening(), e.Contents(), e.d, n - e.ArrayEnd());
    ArraySpan(e.Contents(), rest);
    ArrayPassed(e.Contents(), rest);
    EnvelopeOpen(e.Opening(), "[" + (e.Contents() + ("]" + rest)));
  }

  lemma {:induction false} AfterIsQuiet(e: Envelope)
    requires e.Valid()
    ensures Quiet(e.d)
  {
    BlanksAreQuiet(e.d);
  }

  lemma {:induction false} CutAfter(opening: string, contents: string, after: string, n: nat)
    requires n <= |after|
    ensures ("{" + (opening + ("[" + (contents + ("]" + (after + "}"))))))[..3 + |opening| + |contents| + n]
         == "{" + (opening + ("[" + (contents + ("]" + after[..n]))))
  {
    assert ("]" + (after + "}"))[..n + 1] == "]" + after[..n];
    var below := "]" + (after + "}");
    assert (contents + below)[..|contents| + n + 1] == contents + below[..n + 1];
    assert ("[" + (contents + below))[..|contents| + n + 2] == "[" + (contents + below[..n + 1]);
    assert (opening + ("[" + (contents + below)))[..|opening| + |contents| + n + 2] == opening + ("[" + (contents + below[..n + 1]));
  }

  lemma {:induction false} ArrayTextIs(e: Envelope)
    ensures e.ArrayText() == "[" + e.Contents() + "]"
  {
    hide Envelope.Contents;
    Assoc("[", e.Contents(), "]");
  }

  lemma {:induction false} ArraySpan(contents: string, rest: string)
    requires Balanced(contents)
    ensures var spans := Spans("[" + (contents + ("]" + rest)), Plain);
      spans != [] && spans[0] == "[" + contents + "]"
  {
    var last := "]" + rest;
    var whole := "[" + (contents + last);
    assert last[0] == ']' && whole[1..] == contents + last && whole[0] == '[';
    assert PassedBefore(contents, last, Bracket, 1);
    CloseUnfolds(last, Plain, Bracket, 1);
    hide Balanced, Close;
    assert whole[..|contents| + 2] == "[" + contents + "]";
    assert SpanAt(whole) == ["[" + contents + "]"];
  }

  /** Past the array nothing is closed. */
  lemma {:induction false} ArrayPassed(contents: string, rest: string)
    requires Balanced(contents) && Holds(rest, [], 0)
    ensures var whole := "[" + (contents + ("]" + rest));
      Close(whole, Plain, Brace, 1).None? && Depth(whole, Plain) == 0
  {
    var last := "]" + rest;
    var whole := "[" + (contents + last);
    assert last[0] == ']' && last[1..] == rest && whole[1..] == contents + last && whole[0] == '[';
    assert PassedBefore(contents, last, Brace, 1);
    assert Close(rest, Plain, Brace, 1).None?;
    DepthConcat(contents, last, Plain);
    CloseUnfolds(last, Plain, Brace, 1);
    CloseUnfolds(whole, Plain, Brace, 1);
  }

  lemma {:induction false} EnvelopeOpen(opening: string, text: string)
    requires Quiet(opening) && Close(text, Plain, Brace, 1).None? && Depth(text, Plain) == 0
    ensures Spans("{" + (opening + text), Plain) == Spans(text, Plain)
    ensures Depth("{" + (opening + text), Plain) == 1
  {
    var inner := opening + text;
    assert ("{" + inner)[0] == '{' && ("{" + inner)[1..] == inner;
    ClosePast(opening, text, Plain, Brace, 1);
    SpansPast(opening, text, Plain);
    DepthConcat(opening, text, Plain);
    NoTurnsDepth(opening, Plain);
    hide Close, NoTurns, ModeAfter;
    assert SpanAt("{" + inner) == [];
    assert [] + Spans(inner, Plain) == Spans(inner, Plain);
  }
}
