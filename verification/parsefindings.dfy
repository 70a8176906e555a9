/** engine/parse.py: the findings of a model's answer, and what is salvaged of one that was cut off. */
module ParseFindings {
  import opened Text
  import opened DiffParse
  import opened Snap
  import opened JsonSpans
  import opened Envelopes

  // ----- Reasoning blocks -----

  /** A letter as the tags are matched, in either case: the Kelvin sign is a k, and the dotted capital and
      the dotless small i are an i. */
  function Lower(c: char): char {
    if 'A' <= c <= 'Z' then c - 'A' + 'a'
    else if c == '\U{212a}' then 'k'
    else if c == '\U{130}' || c == '\U{131}' then 'i'
    else c
  }

  /** The text starts with the tag, in any case. */
  predicate StartsWithTag(s: string, tag: string) {
    |tag| <= |s| && forall i :: 0 <= i < |tag| ==> Lower(s[i]) == tag[i]
  }

  /** The length of the opening tag the text starts with. */
  function ThinkOpens(s: string): (n: Option<nat>)
    ensures n.Some? ==> 0 < n.value <= |s|
  {
    if StartsWithTag(s, "<think>") then Some(7)
    else if StartsWithTag(s, "<thinking>") then Some(10)
    else None
  }

  /** Where the first closing tag of the text ends. */
  function ThinkEnd(s: string): (n: Option<nat>)
    ensures n.Some? ==> n.value <= |s|
    decreases |s|
  {
    if StartsWithTag(s, "</think>") then Some(8)
    else if StartsWithTag(s, "</thinking>") then Some(11)
    else if s == "" then None
    else match ThinkEnd(s[1..])
      case None => None
      case Some(n) => Some(n + 1)
  }

  function StripThink(s: string): string
    decreases |s|
  {
    if s == "" then ""
    else if ThinkOpens(s).Some? && ThinkEnd(s[ThinkOpens(s).value..]).Some? then
      StripThink(s[ThinkOpens(s).value..][ThinkEnd(s[ThinkOpens(s).value..]).value..])
    else [s[0]] + StripThink(s[1..])
  }

  /** A reasoning block starts the text: an opening tag, and a closing tag somewhere after it. */
  predicate BlockStarts(s: string) {
    ThinkOpens(s).Some? && ThinkEnd(s[ThinkOpens(s).value..]).Some?
  }

  /** An opening tag stands somewhere in the text with a closing tag after it. */
  predicate HoldsBlock(s: string) {
    exists i :: 0 <= i < |s| && BlockStarts(s[i..])
  }

  lemma {:induction false} BlockLater(s: string)
    requires s != ""
    ensures HoldsBlock(s) <==> BlockStarts(s) || HoldsBlock(s[1..])
  {
    hide BlockStarts;
    assert s[0..] == s;
    if BlockStarts(s) {
      assert BlockStarts(s[0..]);
    }
    if HoldsBlock(s[1..]) {
      var i :| 0 <= i < |s[1..]| && BlockStarts(s[1..][i..]);
      assert s[1..][i..] == s[i + 1..];
      assert BlockStarts(s[i + 1..]);
    }
    if HoldsBlock(s) && !BlockStarts(s) {
      var i :| 0 <= i < |s| && BlockStarts(s[i..]);
      assert i > 0 && s[1..][i - 1..] == s[i..];
      assert BlockStarts(s[1..][i - 1..]);
    }
  }

  /** Stripping leaves a text alone exactly when it holds no block, and shortens it otherwise; a lone tag stays. */
  lemma {:induction false} StripsBlocksOnly(s: string)
    ensures StripThink(s) == s <==> !HoldsBlock(s)
    ensures |StripThink(s)| <= |s|
    ensures StripThink(s) != s ==> |StripThink(s)| < |s|
    decreases |s|
  {
    hide HoldsBlock, ThinkOpens, ThinkEnd;
    if s == "" {
      NoBlockInNothing();
    } else {
      BlockLater(s);
      if BlockStarts(s) {
        StripsBlocksOnly(s[ThinkOpens(s).value..][ThinkEnd(s[ThinkOpens(s).value..]).value..]);
      } else {
        StripsBlocksOnly(s[1..]);
        assert s == [s[0]] + s[1..];
      }
    }
  }

  lemma {:induction false} NoBlockInNothing()
    ensures !HoldsBlock("")
  {
  }

  lemma {:induction false} NoTagHere(s: string, tag: string)
    requires s != "" && s[0] != '<' && tag != "" && tag[0] == '<'
    ensures !StartsWithTag(s, tag)
  {
    assert Lower(s[0]) != '<';
  }

  lemma {:induction false} NothingStartsHere(s: string)
    requires s != "" && s[0] != '<'
    ensures ThinkOpens(s).None? && ThinkEnd(s) == Shift(ThinkEnd(s[1..]), 1)
  {
    NoTagHere(s, "<think>");
    NoTagHere(s, "<thinking>");
    NoTagHere(s, "</think>");
    NoTagHere(s, "</thinking>");
    hide StartsWithTag;
  }

  /** A closing tag is found past a text without the character tags start with. */
  lemma {:induction false} EndPast(m: string, rest: string)
    requires '<' !in m
    ensures ThinkEnd(m + ("</think>" + rest)) == Some(|m| + 8)
    decreases |m|
  {
    hide ThinkOpens;
    var s := m + ("</think>" + rest);
    if m == "" {
      assert s == "</think>" + rest;
      assert StartsWithTag(s, "</think>");
      hide StartsWithTag;
    } else {
      assert s[0] == m[0] && s[1..] == m[1..] + ("</think>" + rest);
      hide ThinkEnd;
      EndPast(m[1..], rest);
      NothingStartsHere(s);
    }
  }

  lemma {:induction false} NothingToStrip(s: string)
    requires '<' !in s
    ensures StripThink(s) == s
    decreases |s|
  {
    hide ThinkOpens, ThinkEnd;
    if s != "" {
      NothingStartsHere(s);
      NothingToStrip(s[1..]);
      assert s == [s[0]] + s[1..];
    }
  }

  lemma {:induction false} TagOpens(rest: string)
    ensures ThinkOpens("<think>" + rest) == Some(7)
  {
    assert StartsWithTag("<think>" + rest, "<think>");
    hide StartsWithTag;
  }

  /** A block is cut out wherever it stands, in a string or not. */
  lemma {:induction false} BlockIsCut(a: string, m: string, z: string)
    requires '<' !in a && '<' !in m && '<' !in z
    ensures StripThink(a + ("<think>" + (m + ("</think>" + z)))) == a + z
    decreases |a|
  {
    hide ThinkOpens, ThinkEnd;
    var rest := m + ("</think>" + z);
    var s := a + ("<think>" + rest);
    if a == "" {
      assert s == "<think>" + rest && s[7..] == rest;
      assert rest[|m| + 8..] == z;
      TagOpens(rest);
      EndPast(m, z);
      NothingToStrip(z);
    } else {
      assert s[0] == a[0] && s[1..] == a[1..] + ("<think>" + rest);
      NothingStartsHere(s);
      BlockIsCut(a[1..], m, z);
      assert a + z == [a[0]] + (a[1..] + z);
    }
  }

  // ----- Candidates -----

  /** json.loads, as far as findings are concerned. */
  type Decoder = string -> Option<Value>

  /** What is tried, and what has been seen since. */
  datatype Trial = Trial(values: seq<Value>, seen: set<string>)

  predicate CommaBeforeCloser(s: string) {
    s != "" && ((s[0] == ',' && ClosesNext(StripLeft(s[1..]))) || CommaBeforeCloser(s[1..]))
  }

  /** One candidate: as it is, and if it does not decode, without its trailing commas. */
  function Try(decode: Decoder, candidate: string, seen: set<string>): Trial {
    if candidate in seen then Trial([], seen)
    else
      match decode(candidate)
      case Some(v) => Trial([v], seen + {candidate})
      case None =>
        if !CommaBeforeCloser(candidate) then Trial([], seen + {candidate})
        else
          var repaired := StripTrailingCommas(candidate, Plain);
          if repaired == candidate || repaired in seen + {candidate} then Trial([], seen + {candidate})
          else
            match decode(repaired)
            case Some(v) => Trial([v], seen + {candidate, repaired})
            case None => Trial([], seen + {candidate, repaired})
  }

  function TryAll(decode: Decoder, candidates: seq<string>, seen: set<string>): seq<Value>
    decreases |candidates|
  {
    if candidates == [] then []
    else
      var t := Try(decode, candidates[0], seen);
      t.values + TryAll(decode, candidates[1..], t.seen)
  }

  function Candidates(raw: string): seq<string> {
    var text := Strip(StripThink(raw));
    if text == "" then [] else [text] + Spans(text, Plain)
  }

  /** iter_json_values */
  function JsonValues(decode: Decoder, raw: string): seq<Value> {
    TryAll(decode, Candidates(raw), {})
  }

  method IterJsonValues(decode: Decoder, raw: string) returns (values: seq<Value>)
    ensures values == JsonValues(decode, raw)
  {
    values := [];
    var text := Strip(StripThink(raw));
    if text == "" {
      return;
    }
    var first := Try(decode, text, {});
    var seen := first.seen;
    values := first.values;
    var spans := BalancedSpans(text);
    assert ([text] + spans)[1..] == spans && spans[0..] == spans;
    for i := 0 to |spans|
      invariant values + TryAll(decode, spans[i..], seen) == JsonValues(decode, raw)
    {
      assert spans[i..][1..] == spans[i + 1..];
      var t := Try(decode, spans[i], seen);
      Assoc(values, t.values, TryAll(decode, spans[i + 1..], t.seen));
      values, seen := values + t.values, t.seen;
    }
    assert values + [] == values;
  }

  // ----- Shapes -----

  /** The last field of the name, as a dictionary keeps it. */
  function Get(fields: seq<Field>, name: seq<StrChar>): Option<Value> {
    if fields == [] then None
    else if fields[|fields| - 1].name == name then Some(fields[|fields| - 1].value)
    else Get(fields[..|fields| - 1], name)
  }

  function AsFindingsList(data: Value): Option<seq<Value>> {
    match data
    case Leaf(_) => None
    case List(items) => if forall i :: 0 <= i < |items| ==> items[i].Dict? then Some(items) else None
    case Dict(fields) =>
      match Get(fields, KEY_CHARS)
      case Some(List(items)) => Some(items)
      case _ => Some([data])
  }

  predicate IsContainer(value: Value) {
    match value
    case Leaf(_) => false
    case List(_) => true
    case Dict(fields) => Get(fields, KEY_CHARS).Some? && Get(fields, KEY_CHARS).value.List?
  }

  // ----- Findings -----

  /** The strict schema, with the fields the engine owns dropped first. */
  type Validator<F> = Value -> Option<F>

  datatype Failure = Empty | Prose | MalformedJson | NotFindings | Schema | Truncated

  datatype Outcome<F> = Findings(findings: seq<F>) | Error(shape: Failure, recovered: seq<F>)

  /** The items that pass the schema. */
  function Accepted<F>(validate: Validator<F>, items: seq<Value>): seq<F> {
    if items == [] then []
    else (if validate(items[0]).Some? then [validate(items[0]).value] else []) + Accepted(validate, items[1..])
  }

  /** What the loop over the values comes to: an answer, or what it held back and whether any was rejected. */
  datatype Search<F> = Answer(findings: seq<F>) | NoAnswer(single: Option<seq<F>>, rejected: bool)

  function SearchFrom<F>(validate: Validator<F>, values: seq<Value>, single: Option<seq<F>>, rejected: bool): Search<F>
    decreases |values|
  {
    if values == [] then NoAnswer(single, rejected)
    else
      match AsFindingsList(values[0])
      case None => SearchFrom(validate, values[1..], single, rejected)
      case Some(items) =>
        var parsed := Accepted(validate, items);
        if |parsed| < |items| && parsed == [] then SearchFrom(validate, values[1..], single, true)
        else if IsContainer(values[0]) then Answer(parsed)
        else SearchFrom(validate, values[1..], if single.Some? then single else Some(parsed), rejected)
  }

  /** The findings a cut answer completed. */
  function Recovered<F>(validate: Validator<F>, values: seq<Value>): seq<F> {
    if values == [] then []
    else
      (if values[0].Dict? && !IsContainer(values[0]) && validate(values[0]).Some? then [validate(values[0]).value] else [])
      + Recovered(validate, values[1..])
  }

  predicate HasQuote(s: string) {
    '"' in s
  }

  function Quoted(spans: seq<string>): seq<string> {
    if spans == [] then [] else (if HasQuote(spans[0]) then [spans[0]] else []) + Quoted(spans[1..])
  }

  predicate SomeDecode(decode: Decoder, spans: seq<string>) {
    exists i :: 0 <= i < |spans| && decode(StripTrailingCommas(spans[i], Plain)).Some?
  }

  function Classify(decode: Decoder, raw: string): Failure {
    var text := Strip(StripThink(raw));
    if text == "" then Empty
    else if decode(text).Some? then NotFindings
    else
      var spans := Quoted(Spans(text, Plain));
      if spans == [] then Prose
      else if SomeDecode(decode, spans) then NotFindings
      else MalformedJson
  }

  function Parse<F>(decode: Decoder, validate: Validator<F>, raw: string): Outcome<F> {
    if Strip(raw) == "" then Error(Empty, [])
    else
      match SearchFrom(validate, JsonValues(decode, raw), None, false)
      case Answer(findings) => Findings(findings)
      case NoAnswer(single, rejected) =>
        if Unterminated(StripThink(raw)) then Error(Truncated, Recovered(validate, JsonValues(decode, raw)))
        else if single.Some? then Findings(single.value)
        else if rejected then Error(Schema, [])
        else Error(Classify(decode, raw), [])
  }

  lemma {:induction false} AcceptedNext<F>(validate: Validator<F>, items: seq<Value>, i: nat)
    requires i < |items|
    ensures Accepted(validate, items[i..])
         == (if validate(items[i]).Some? then [validate(items[i]).value] else []) + Accepted(validate, items[i + 1..])
  {
    assert items[i..][1..] == items[i + 1..];
  }

  method AcceptEach<F>(validate: Validator<F>, items: seq<Value>) returns (parsed: seq<F>)
    ensures parsed == Accepted(validate, items)
  {
    hide Accepted;
    parsed := [];
    assert items[0..] == items;
    for i := 0 to |items|
      invariant parsed + Accepted(validate, items[i..]) == Accepted(validate, items)
    {
      AcceptedNext(validate, items, i);
      if validate(items[i]).Some? {
        Assoc(parsed, [validate(items[i]).value], Accepted(validate, items[i + 1..]));
        parsed := parsed + [validate(items[i]).value];
      } else {
        assert [] + Accepted(validate, items[i + 1..]) == Accepted(validate, items[i + 1..]);
      }
    }
    assert items[|items|..] == [];
    AcceptedNone(validate);
    assert parsed + [] == parsed;
  }

  lemma {:induction false} AcceptedNone<F>(validate: Validator<F>)
    ensures Accepted(validate, []) == []
  {
  }

  method ParseAnswer<F>(decode: Decoder, validate: Validator<F>, raw: string) returns (outcome: Outcome<F>)
    ensures outcome == Parse(decode, validate, raw)
  {
    if Strip(raw) == "" {
      return Error(Empty, []);
    }
    var values := IterJsonValues(decode, raw);
    var single, rejected := None, false;
    assert values[0..] == values;
    for i := 0 to |values|
      invariant SearchFrom(validate, values[i..], single, rejected) == SearchFrom(validate, values, None, false)
    {
      assert values[i..][1..] == values[i + 1..];
      var list := AsFindingsList(values[i]);
      if list.Some? {
        var parsed := AcceptEach(validate, list.value);
        if |parsed| < |list.value| && parsed == [] {
          rejected := true;
        } else if IsContainer(values[i]) {
          return Findings(parsed);
        } else if single.None? {
          single := Some(parsed);
        }
      }
    }
    var open := IsUnterminated(StripThink(raw));
    if open {
      return Error(Truncated, Recovered(validate, values));
    }
    if single.Some? {
      return Findings(single.value);
    }
    outcome := Error(if rejected then Schema else Classify(decode, raw), []);
  }

  // ----- What is promised of an envelope -----

  /** What json.loads is relied on for: a text it accepts closes what it opens. */
  ghost predicate Refuses(decode: Decoder) {
    forall s :: decode(s).Some? ==> !Unterminated(s)
  }

  ghost predicate DecodesEach(decode: Decoder, findings: seq<Flat>) {
    forall i :: 0 <= i < |findings| ==> decode(findings[i].Text()) == Some(findings[i].Value())
  }

  /** And it reads the envelope, its array and its findings, which are JSON texts, as what they are. */
  ghost predicate Decodes(decode: Decoder, e: Envelope) {
    && Refuses(decode)
    && decode(e.Text()) == Some(e.Value())
    && decode(e.ArrayText()) == Some(e.Array())
    && DecodesEach(decode, FindingsOf(e.items))
  }

  /** Every finding passes the schema. */
  ghost predicate SchemaValid<F>(validate: Validator<F>, findings: seq<Flat>) {
    forall i :: 0 <= i < |findings| ==> validate(findings[i].Value()).Some?
  }

  /** The findings, one a text: a repeat of an earlier one, letter for letter, is left out. */
  function Distinct(findings: seq<Flat>, seen: set<string>): seq<Flat> {
    if findings == [] then []
    else if findings[0].Text() in seen then Distinct(findings[1..], seen)
    else [findings[0]] + Distinct(findings[1..], seen + {findings[0].Text()})
  }

  lemma {:induction false} AllAccepted<F>(validate: Validator<F>, findings: seq<Flat>)
    requires SchemaValid(validate, findings)
    ensures |Accepted(validate, ValuesOf(findings))| == |findings| == |ValuesOf(findings)|
  {
    if findings != [] {
      assert forall i :: 0 <= i < |findings[1..]| ==> findings[1..][i] == findings[i + 1];
      AllAccepted(validate, findings[1..]);
    }
  }

  lemma {:induction false} AllDicts(findings: seq<Flat>)
    ensures forall i :: 0 <= i < |ValuesOf(findings)| ==> ValuesOf(findings)[i].Dict?
  {
    if findings != [] {
      AllDicts(findings[1..]);
    }
  }

  // ----- Around the text -----

  lemma {:induction false} OnlySpace(w: string, mode: Mode)
    requires forall i :: 0 <= i < |w| ==> IsSpace(w[i])
    ensures NoTurns(w, mode)
    decreases |w|
  {
    if w != "" {
      OnlySpace(w[1..], Next(mode, w[0]));
    }
  }

  lemma {:induction false} SpaceNothing(a: string, w: string, mode: Mode, kind: Container, depth: nat)
    requires (forall m: Mode :: NoTurns(w, m)) && depth > 0
    ensures Close(a + w, mode, kind, depth) == Close(a, mode, kind, depth)
    decreases |a|
  {
    hide Close, NoTurns, Turn, Next;
    if a == "" {
      assert a + w == w;
      NoTurnsClose(w, mode, kind, depth);
      NothingCloses(mode, kind, depth);
    } else {
      assert (a + w)[0] == a[0] && (a + w)[1..] == a[1..] + w;
      CloseUnfolds(a + w, mode, kind, depth);
      CloseUnfolds(a, mode, kind, depth);
      if depth + Turn(kind, mode, a[0]) > 0 {
        SpaceNothing(a[1..], w, Next(mode, a[0]), kind, depth + Turn(kind, mode, a[0]));
      }
    }
  }

  lemma {:induction false} SpaceSpans(a: string, w: string, mode: Mode)
    requires forall m: Mode :: NoTurns(w, m)
    ensures Spans(a + w, mode) == Spans(a, mode) && Depth(a + w, mode) == Depth(a, mode)
    decreases |a|
  {
    hide NoTurns;
    if a == "" {
      assert a + w == w;
      NoTurnsSpans(w, mode);
      NoTurnsDepth(w, mode);
    } else {
      assert (a + w)[0] == a[0] && (a + w)[1..] == a[1..] + w;
      SpaceSpans(a[1..], w, Next(mode, a[0]));
      SpaceSpan(a, w);
    }
  }

  lemma {:induction false} SpaceSpan(a: string, w: string)
    requires a != "" && forall m: Mode :: NoTurns(w, m)
    ensures SpanAt(a + w) == SpanAt(a)
  {
    hide Close, NoTurns;
    assert (a + w)[0] == a[0] && (a + w)[1..] == a[1..] + w;
    if KindOf(a[0]).Some? {
      SpaceNothing(a[1..], w, Plain, KindOf(a[0]).value, 1);
      var n := Close(a[1..], Plain, KindOf(a[0]).value, 1);
      if n.Some? {
        assert (a + w)[..n.value + 1] == a[..n.value + 1];
      }
    }
  }

  lemma {:induction false} StripRightParts(s: string) returns (w: string)
    ensures s == StripRight(s) + w && forall i :: 0 <= i < |w| ==> IsSpace(w[i])
    decreases |s|
  {
    if s != "" && IsSpace(s[|s| - 1]) {
      var front := StripRightParts(s[..|s| - 1]);
      w := front + [s[|s| - 1]];
      assert s == s[..|s| - 1] + [s[|s| - 1]];
    } else {
      w := "";
    }
  }

  /** A text that opens with a brace is stripped only at its end, and the walks see the same in it. */
  lemma {:induction false} StrippedPrefix(p: string)
    requires p != "" && p[0] == '{'
    ensures Strip(p) != "" && Spans(Strip(p), Plain) == Spans(p, Plain) && Depth(Strip(p), Plain) == Depth(p, Plain)
  {
    assert StripLeft(p) == p;
    var w := StripRightParts(p);
    assert !IsSpace(p[0]) && p == StripRight(p) + w;
    assert StripRight(p) == "" ==> p == w;
    forall m: Mode ensures NoTurns(w, m) {
      OnlySpace(w, m);
    }
    SpaceSpans(StripRight(p), w, Plain);
  }

  lemma {:induction false} EnvelopeOpens(e: Envelope, n: nat)
    requires 0 < n <= |e.Text()| && !HoldsBlock(e.Text()[..n])
    ensures var p := e.Text()[..n]; p != "" && p[0] == '{' && StripThink(p) == p
  {
    hide Envelope.Opening, Envelope.ArrayText, HoldsBlock, StripThink;
    StripsBlocksOnly(e.Text()[..n]);
  }

  // ----- The cut text itself -----

  /** A cut text decodes to nothing, repaired or not, and what is seen of it is cut too. */
  lemma {:induction false} CutGivesNothing(decode: Decoder, text: string)
    requires Refuses(decode) && Unterminated(text)
    ensures Try(decode, text, {}).values == []
    ensures forall s :: s in Try(decode, text, {}).seen ==> Unterminated(s)
  {
    StrippedDepth(text, Plain);
    hide CommaBeforeCloser, StripTrailingCommas, Depth;
  }

  /** A whole object closes what it opens. */
  lemma {:induction false} FlatIsWhole(f: Flat)
    requires f.Valid()
    ensures !Unterminated(f.Text())
  {
    FlatIsQuietInside(f);
    ObjectDepth(f.Inner(), "");
    assert "{" + (f.Inner() + ("}" + "")) == f.Text();
  }

  predicate AllFlatValid(findings: seq<Flat>) {
    forall i :: 0 <= i < |findings| ==> findings[i].Valid()
  }

  /** Texts of findings give their values, each text once. */
  lemma {:induction false} TryFindings(decode: Decoder, findings: seq<Flat>, seen: set<string>)
    requires DecodesEach(decode, findings)
    ensures TryAll(decode, TextsOf(findings), seen) == ValuesOf(Distinct(findings, seen))
    decreases |findings|
  {
    hide Flat.Valid, Flat.Text, Flat.Value, Unterminated, CommaBeforeCloser;
    if findings != [] {
      var text := findings[0].Text();
      assert TextsOf(findings)[0] == text && TextsOf(findings)[1..] == TextsOf(findings[1..]);
      assert decode(text) == Some(findings[0].Value());
      assert forall i :: 0 <= i < |findings[1..]| ==> findings[1..][i] == findings[i + 1];
      TryFindings(decode, findings[1..], seen);
      TryFindings(decode, findings[1..], seen + {text});
    }
  }

  lemma {:induction false} SameDistinct(findings: seq<Flat>, a: set<string>, b: set<string>)
    requires forall i :: 0 <= i < |findings| ==> (findings[i].Text() in a <==> findings[i].Text() in b)
    ensures Distinct(findings, a) == Distinct(findings, b)
    decreases |findings|
  {
    hide Flat.Text;
    if findings != [] {
      var t := findings[0].Text();
      assert forall i :: 0 <= i < |findings[1..]| ==> findings[1..][i] == findings[i + 1];
      SameDistinct(findings[1..], a, b);
      SameDistinct(findings[1..], a + {t}, b + {t});
    }
  }

  lemma {:induction false} CompletedValid(items: seq<Item>, first: bool, n: int)
    requires ValidItems(items)
    ensures AllFlatValid(Completed(items, first, n))
    ensures |Completed(items, first, n)| <= |items|
    ensures forall i :: 0 <= i < |Completed(items, first, n)| ==> Completed(items, first, n)[i] == items[i].finding
    decreases |items|
  {
    hide Flat.Valid, Flat.Text, Lead;
    if items != [] {
      assert items[0].Valid();
      CompletedValid(items[1..], false, n - |Lead(items[0], first)| - |items[0].finding.Text()| - |items[0].after|);
    }
  }

  // ----- Values of findings -----

  lemma {:induction false} FieldsAreLeaves(members: seq<Member>, name: seq<StrChar>)
    ensures Get(FieldsOf(members), name).Some? ==> Get(FieldsOf(members), name).value.Leaf?
  {
    FieldsLeaves(members);
    LeavesOnly(FieldsOf(members), name);
  }

  lemma {:induction false} FieldsLeaves(members: seq<Member>)
    ensures forall i :: 0 <= i < |FieldsOf(members)| ==> FieldsOf(members)[i].value.Leaf?
  {
    if members != [] {
      FieldsLeaves(members[1..]);
    }
  }

  lemma {:induction false} LeavesOnly(fields: seq<Field>, name: seq<StrChar>)
    requires forall i :: 0 <= i < |fields| ==> fields[i].value.Leaf?
    ensures Get(fields, name).Some? ==> Get(fields, name).value.Leaf?
    decreases |fields|
  {
    if fields != [] {
      LeavesOnly(fields[..|fields| - 1], name);
    }
  }

  /** A flat object is one finding, and not a whole answer. */
  lemma {:induction false} FlatIsSingle(f: Flat)
    ensures AsFindingsList(f.Value()) == Some([f.Value()]) && !IsContainer(f.Value()) && f.Value().Dict?
  {
    FieldsAreLeaves(f.members, KEY_CHARS);
  }

  lemma {:induction false} AcceptedOne<F>(validate: Validator<F>, v: Value)
    requires validate(v).Some?
    ensures Accepted(validate, [v]) == [validate(v).value]
  {
    assert [v][1..] == [];
    assert Accepted(validate, []) == [];
  }

  /** Flat objects one after another: no answer, none rejected, and all of them recovered. */
  lemma {:induction false} FlatsHeldBack<F>(validate: Validator<F>, findings: seq<Flat>, single: Option<seq<F>>)
    requires SchemaValid(validate, findings)
    ensures var s := SearchFrom(validate, ValuesOf(findings), single, false); s.NoAnswer? && !s.rejected
    ensures Recovered(validate, ValuesOf(findings)) == Accepted(validate, ValuesOf(findings))
    decreases |findings|
  {
    hide Flat.Value, AsFindingsList, IsContainer;
    if findings != [] {
      var f := findings[0];
      FlatIsSingle(f);
      assert validate(f.Value()).Some?;
      assert forall i :: 0 <= i < |findings[1..]| ==> findings[1..][i] == findings[i + 1];
      assert ValuesOf(findings)[0] == f.Value() && ValuesOf(findings)[1..] == ValuesOf(findings[1..]);
      var parsed := Accepted(validate, [f.Value()]);
      AcceptedOne(validate, f.Value());
      FlatsHeldBack(validate, findings[1..], if single.Some? then single else Some(parsed));
    }
  }

  lemma {:induction false} DistinctPart(findings: seq<Flat>, seen: set<string>)
    ensures forall i :: 0 <= i < |Distinct(findings, seen)| ==> Distinct(findings, seen)[i] in findings
    decreases |findings|
  {
    hide Flat.Text;
    if findings != [] {
      DistinctPart(findings[1..], seen);
      DistinctPart(findings[1..], seen + {findings[0].Text()});
      assert forall f :: f in findings[1..] ==> f in findings;
    }
  }

  // ----- The promises -----

  /** A text that is an envelope once its blocks are cut out parses to all the envelope's findings. */
  lemma {:induction false} StrippedEnvelopeParses<F>(decode: Decoder, validate: Validator<F>, raw: string, e: Envelope)
    requires StripThink(raw) == e.Text() && Strip(raw) != "" && decode(e.Text()) == Some(e.Value())
    requires SchemaValid(validate, FindingsOf(e.items))
    ensures Parse(decode, validate, raw) == Findings(Accepted(validate, ValuesOf(FindingsOf(e.items))))
    ensures |Accepted(validate, ValuesOf(FindingsOf(e.items)))| == |e.items|
  {
    hide StripThink, SchemaValid, Envelope.Valid, Envelope.Opening, Envelope.ArrayText, Envelope.Array, HoldsBlock, Spans;
    EnvelopeIsStripped(e);
    FindingsCount(e.items);
    AllAccepted(validate, FindingsOf(e.items));
    var text := e.Text();
    assert Candidates(raw)[0] == text;
    hide Envelope.Text;
    assert Try(decode, text, {}).values == [e.Value()];
    var values := JsonValues(decode, raw);
    assert values[0] == e.Value();
    AnswerFirst(validate, values, e);
  }

  /** A whole envelope parses to all its findings. */
  lemma {:induction false} WholeEnvelopeParses<F>(decode: Decoder, validate: Validator<F>, e: Envelope)
    requires Decodes(decode, e) && e.Valid() && SchemaValid(validate, FindingsOf(e.items)) && !HoldsBlock(e.Text())
    ensures Parse(decode, validate, e.Text()) == Findings(Accepted(validate, ValuesOf(FindingsOf(e.items))))
    ensures |Accepted(validate, ValuesOf(FindingsOf(e.items)))| == |e.items|
  {
    assert decode(e.Text()) == Some(e.Value());
    hide *;
    StripsBlocksOnly(e.Text());
    EnvelopeIsStripped(e);
    StrippedEnvelopeParses(decode, validate, e.Text(), e);
  }

  lemma {:induction false} SpansAreShort(s: string, mode: Mode, x: string)
    requires x in Spans(s, mode)
    ensures |x| <= |s|
    decreases |s|
  {
    hide Close;
    if s != "" && x in Spans(s[1..], Next(mode, s[0])) {
      SpansAreShort(s[1..], Next(mode, s[0]), x);
    }
  }

  lemma {:induction false} StripRightShorter(s: string)
    ensures |StripRight(s)| <= |s|
  {
    if s != "" && IsSpace(s[|s| - 1]) {
      StripRightShorter(s[..|s| - 1]);
    }
  }

  /** An envelope is tried as it stands exactly when no opening tag in it is followed by a closing tag, its
      strings included. */
  lemma {:induction false} TriedAsItStands(e: Envelope)
    ensures e.Text() in Candidates(e.Text()) <==> !HoldsBlock(e.Text())
  {
    var text := e.Text();
    var shorter := StripThink(text);
    EnvelopeIsStripped(e);
    hide Envelope.Text, StripThink, HoldsBlock, Spans, StripLeft, StripRight;
    StripsBlocksOnly(text);
    StripLeftShorter(shorter);
    StripRightShorter(StripLeft(shorter));
    if HoldsBlock(text) && Strip(shorter) != "" {
      forall x | x in Spans(Strip(shorter), Plain) ensures |x| < |text| {
        SpansAreShort(Strip(shorter), Plain, x);
      }
    }
  }

  /** A finding of one member, a. */
  function OneMember(value: string): Item {
    Item("", Flat([Member("", [Raw('a')], "", "", Str(Plainly(value)), "")], ""), "")
  }

  lemma {:induction false} OneMemberText(value: string)
    requires forall i :: 0 <= i < |value| ==> Raw(value[i]).Valid()
    ensures OneMember(value).Valid() && OneMember(value).finding.Text() == "{\"a\":\"" + value + "\"}"
  {
    PlainlyReads(value);
    PlainlyReads("a");
    assert Plainly("a") == [Raw('a')] by {
      assert "a"[1..] == "";
    }
    var m := OneMember(value).finding.members[0];
    hide Plainly, CharsText;
    assert m.Text() == "\"a\"" + ":" + ("\"" + value + "\"");
    hide Member.Text;
    assert MembersText([m]) == m.Text();
  }

  function Listing(items: seq<Item>): Envelope {
    Envelope("", "", "", items, "", "")
  }

  lemma {:induction false} ListingText(items: seq<Item>)
    requires items != []
    ensures Listing(items).Text() == "{\"findings\":[" + ItemsText(items, true) + "]}"
  {
    KeyIsValid();
    hide Quote, KEY_CHARS, ItemsText;
    var e := Listing(items);
    assert e.Opening() == "\"findings\":";
    hide Envelope.Opening;
    assert e.ArrayText() == "[" + (ItemsText(items, true) + "]");
  }

  lemma {:induction false} OneItemText(value: string)
    ensures ItemsText([OneMember(value)], true) == OneMember(value).finding.Text()
  {
    hide Flat.Text;
  }

  lemma {:induction false} TwoItemsText(x: string, y: string)
    ensures ItemsText([OneMember(x), OneMember(y)], true) == OneMember(x).finding.Text() + ("," + OneMember(y).finding.Text())
  {
    hide Flat.Text;
    assert [OneMember(x), OneMember(y)][1..] == [OneMember(y)];
    assert ItemsText([], false) == "";
    assert ItemsText([OneMember(y)], false) == "," + OneMember(y).finding.Text();
    assert ItemsText([OneMember(x), OneMember(y)], true)
        == "" + OneMember(x).finding.Text() + ("" + ItemsText([OneMember(y)], false));
  }

  /** Two findings, an opening tag in a string of the first and a closing tag in one of the second. */
  function Tagged(): Envelope {
    Listing([OneMember("<think>"), OneMember("</think>")])
  }

  lemma {:induction false} TaggedIsCut()
    ensures Tagged().Valid() && Listing([OneMember("")]).Valid()
    ensures StripThink(Tagged().Text()) == Listing([OneMember("")]).Text()
  {
    hide Envelope.Text, StripThink, ItemsText, OneMember, Item.Valid;
    OneMemberText("<think>");
    OneMemberText("</think>");
    OneMemberText("");
    ListingText([OneMember("<think>"), OneMember("</think>")]);
    TwoItemsText("<think>", "</think>");
    ListingText([OneMember("")]);
    OneItemText("");
    var before, between, after := "{\"findings\":[{\"a\":\"", "\"},{\"a\":\"", "\"}]}";
    BlockIsCut(before, between, after);
    TaggedParts(before, between, after);
  }

  lemma {:induction false} TaggedParts(a: string, m: string, z: string)
    requires a == "{\"findings\":[{\"a\":\"" && m == "\"},{\"a\":\"" && z == "\"}]}"
    ensures "{\"findings\":[" + ("{\"a\":\"" + "<think>" + "\"}" + ("," + ("{\"a\":\"" + "</think>" + "\"}"))) + "]}"
         == a + ("<think>" + (m + ("</think>" + z)))
    ensures "{\"findings\":[" + ("{\"a\":\"" + "" + "\"}") + "]}" == a + z
  {
  }

  /** What stands between the tags is cut out, and two findings are read as one. */
  lemma {:induction false} TagsInStringsLoseAFinding<F>(decode: Decoder, validate: Validator<F>)
    requires Decodes(decode, Tagged()) && SchemaValid(validate, FindingsOf(Tagged().items))
    requires Decodes(decode, Listing([OneMember("")])) && SchemaValid(validate, FindingsOf([OneMember("")]))
    ensures Tagged().Valid() && |Tagged().items| == 2
    ensures var one := Accepted(validate, ValuesOf(FindingsOf([OneMember("")])));
      |one| == 1 && Parse(decode, validate, Tagged().Text()) == Findings(one)
  {
    var kept := Listing([OneMember("")]);
    assert decode(kept.Text()) == Some(kept.Value());
    assert |Tagged().items| == 2 && kept.items == [OneMember("")];
    hide *;
    TaggedIsCut();
    EnvelopeIsStripped(Tagged());
    StrippedEnvelopeParses(decode, validate, Tagged().Text(), kept);
  }

  lemma {:induction false} FindingsCount(items: seq<Item>)
    ensures |FindingsOf(items)| == |items|
    ensures forall i :: 0 <= i < |items| ==> FindingsOf(items)[i] == items[i].finding
  {
    if items != [] {
      FindingsCount(items[1..]);
    }
  }

  lemma {:induction false} AnswerFirst<F>(validate: Validator<F>, values: seq<Value>, e: Envelope)
    requires values != [] && values[0] == e.Value()
    requires |Accepted(validate, ValuesOf(FindingsOf(e.items)))| == |ValuesOf(FindingsOf(e.items))|
    ensures SearchFrom(validate, values, None, false) == Answer(Accepted(validate, ValuesOf(FindingsOf(e.items))))
  {
    hide KEY_CHARS;
    assert Get([Field(KEY_CHARS, e.Array())], KEY_CHARS) == Some(e.Array());
  }

  lemma {:induction false} EnvelopeIsStripped(e: Envelope)
    ensures Strip(e.Text()) == e.Text() && e.Text() != ""
  {
    hide Envelope.Opening, Envelope.ArrayText;
    var text := e.Text();
    assert text[0] == '{' && text[|text| - 1] == '}' by {
      EnvelopeEnds(e.Opening(), e.ArrayText(), e.d);
    }
    assert StripLeft(text) == text && StripRight(text) == text;
  }

  lemma {:induction false} EnvelopeEnds(a: string, b: string, d: string)
    ensures var text := "{" + (a + (b + (d + "}"))); text[0] == '{' && text[|text| - 1] == '}'
  {
    assert (d + "}")[|d|] == '}';
  }

  /** A cut before the array closes: what json.loads can still be given is the completed findings. */
  lemma {:induction false} CutValues(decode: Decoder, e: Envelope, n: nat)
    requires Decodes(decode, e) && e.Valid() && 0 < n < e.ArrayEnd() && n <= |e.Text()| && !HoldsBlock(e.Text()[..n])
    ensures var p := e.Text()[..n];
      && StripThink(p) == p && Strip(p) != "" && Unterminated(p)
      && JsonValues(decode, p) == ValuesOf(Distinct(CompletedIn(e, n), {}))
  {
    assert Refuses(decode) && DecodesEach(decode, FindingsOf(e.items));
    hide Refuses, DecodesEach, Decodes, Envelope.Valid, Envelope.Text, Envelope.Opening, Envelope.Contents, HoldsBlock, Spans, Depth, Try, StripThink, Strip,
      CompletedIn, TextsOf, Distinct;
    var p := e.Text()[..n];
    EnvelopeOpens(e, n);
    StrippedPrefix(p);
    var depth := OpenPrefix(e, n);
    var fs := CompletedIn(e, n);
    var text := Strip(p);
    assert Unterminated(p) && Unterminated(text) && Spans(text, Plain) == TextsOf(fs);
    CutGivesNothing(decode, text);
    CompletedInValid(e, n);
    hide Unterminated;
    var seen := Try(decode, text, {}).seen;
    assert ([text] + TextsOf(fs))[1..] == TextsOf(fs);
    assert JsonValues(decode, p) == [] + TryAll(decode, TextsOf(fs), seen);
    CompletedDecode(decode, e, n);
    TryFindings(decode, fs, seen);
    NoneSeen(fs, seen);
  }

  lemma {:induction false} CompletedDecode(decode: Decoder, e: Envelope, n: nat)
    requires e.Valid() && DecodesEach(decode, FindingsOf(e.items))
    ensures DecodesEach(decode, CompletedIn(e, n))
  {
    hide Flat.Text, Flat.Value, Completed, Envelope.ArrayStart, Item.Valid;
    CompletedValid(e.items, true, n - e.ArrayStart());
    FindingsCount(e.items);
    var fs := CompletedIn(e, n);
    forall i | 0 <= i < |fs| ensures decode(fs[i].Text()) == Some(fs[i].Value()) {
      assert fs[i] == FindingsOf(e.items)[i];
    }
  }

  lemma {:induction false} CompletedInValid(e: Envelope, n: nat)
    requires e.Valid()
    ensures AllFlatValid(CompletedIn(e, n))
  {
    hide Completed, AllFlatValid, Envelope.ArrayStart, Item.Valid, Blanks;
    CompletedValid(e.items, true, n - e.ArrayStart());
  }

  /** Texts that are cut are no finding's. */
  lemma {:induction false} NoneSeen(findings: seq<Flat>, seen: set<string>)
    requires AllFlatValid(findings) && forall s :: s in seen ==> Unterminated(s)
    ensures Distinct(findings, seen) == Distinct(findings, {})
  {
    hide Unterminated, Flat.Text, Flat.Valid, Distinct;
    forall i | 0 <= i < |findings| ensures findings[i].Text() !in seen {
      FlatIsWhole(findings[i]);
    }
    SameDistinct(findings, seen, {});
  }

  /** An envelope cut before its array closes is reported as cut off, with exactly the findings completed
      by then, in order, one a text; never a lone first finding as the whole answer. */
  lemma {:induction false} CutEnvelopeIsTruncated<F>(decode: Decoder, validate: Validator<F>, e: Envelope, n: nat)
    requires Decodes(decode, e) && e.Valid() && SchemaValid(validate, FindingsOf(e.items))
    requires 0 < n < e.ArrayEnd() && n <= |e.Text()| && !HoldsBlock(e.Text()[..n])
    ensures var kept := Distinct(CompletedIn(e, n), {});
      && |Accepted(validate, ValuesOf(kept))| == |kept|
      && Parse(decode, validate, e.Text()[..n]) == Error(Truncated, Accepted(validate, ValuesOf(kept)))
  {
    hide Decodes, Envelope.Valid, Envelope.Text, Envelope.Opening, Envelope.Contents, HoldsBlock, Distinct, CompletedIn, Unterminated,
      JsonValues, StripThink, Strip, SchemaValid, Accepted, Recovered, SearchFrom;
    CutValues(decode, e, n);
    var kept := Distinct(CompletedIn(e, n), {});
    KeptAreValid(validate, e, n);
    FlatsHeldBack(validate, kept, None);
    AllAccepted(validate, kept);
    NotBlank(e.Text()[..n]);
  }

  lemma {:induction false} KeptAreValid<F>(validate: Validator<F>, e: Envelope, n: nat)
    requires e.Valid() && SchemaValid(validate, FindingsOf(e.items))
    ensures SchemaValid(validate, Distinct(CompletedIn(e, n), {}))
  {
    hide Flat.Value, Distinct, Completed, Envelope.Opening;
    CompletedValid(e.items, true, n - e.ArrayStart());
    FindingsCount(e.items);
    DistinctPart(CompletedIn(e, n), {});
    var all, kept := CompletedIn(e, n), Distinct(CompletedIn(e, n), {});
    forall i | 0 <= i < |kept| ensures validate(kept[i].Value()).Some? {
      assert kept[i] in all;
      var j :| 0 <= j < |all| && all[j] == kept[i];
      assert FindingsOf(e.items)[j] == all[j];
    }
  }

  lemma {:induction false} NotBlank(p: string)
    requires StripThink(p) == p && Strip(p) != ""
    ensures Strip(StripThink(p)) != ""
  {
  }

  /** An envelope cut after its array has closed still parses to all its findings. */
  lemma {:induction false} ClosedArrayParses<F>(decode: Decoder, validate: Validator<F>, e: Envelope, n: nat)
    requires Decodes(decode, e) && e.Valid() && SchemaValid(validate, FindingsOf(e.items))
    requires e.ArrayEnd() <= n < |e.Text()| && !HoldsBlock(e.Text()[..n])
    ensures Parse(decode, validate, e.Text()[..n]) == Findings(Accepted(validate, ValuesOf(FindingsOf(e.items))))
  {
    assert decode(e.ArrayText()) == Some(e.Array());
    assert Refuses(decode);
    hide Refuses, Decodes, Envelope.Valid, Envelope.Text, Envelope.Opening, Envelope.Contents, Envelope.ArrayText, HoldsBlock, Spans, Depth, Try,
      StripThink, Strip, SchemaValid, Accepted, SearchFrom, TryAll, Envelope.Array, Candidates;
    var p := e.Text()[..n];
    EnvelopeOpens(e, n);
    StrippedPrefix(p);
    ClosedPrefix(e, n);
    var spans := Spans(p, Plain);
    assert Unterminated(Strip(p));
    CutGivesNothing(decode, Strip(p));
    ArrayIsWhole(e);
    FirstSpanFirst(decode, Strip(p), spans, e);
    CandidatesAre(p);
    FindingsCount(e.items);
    AllAccepted(validate, FindingsOf(e.items));
    ArrayAnswers(validate, JsonValues(decode, p), e);
  }

  lemma {:induction false} CandidatesAre(p: string)
    requires StripThink(p) == p && Strip(p) != "" && Spans(Strip(p), Plain) == Spans(p, Plain)
    ensures Candidates(p) == [Strip(p)] + Spans(p, Plain)
  {
  }

  lemma {:induction false} ArrayIsWhole(e: Envelope)
    requires e.Valid()
    ensures !Unterminated(e.ArrayText())
  {
    hide Envelope.Contents, Envelope.Valid, Holds, Balanced;
    ContentsAreBalanced(e);
    QuietHolds("");
    ArrayPassed(e.Contents(), "");
    assert e.ArrayText() == "[" + (e.Contents() + ("]" + ""));
  }

  /** When the cut text gives nothing, the first span is the first value. */
  lemma {:induction false} FirstSpanFirst(decode: Decoder, text: string, spans: seq<string>, e: Envelope)
    requires spans != [] && spans[0] == e.ArrayText() && decode(e.ArrayText()) == Some(e.Array())
    requires Try(decode, text, {}).values == [] && !Unterminated(e.ArrayText())
    requires forall s :: s in Try(decode, text, {}).seen ==> Unterminated(s)
    ensures var values := TryAll(decode, [text] + spans, {}); values != [] && values[0] == e.Array()
  {
    hide Unterminated, Envelope.ArrayText, Envelope.Array;
    var seen := Try(decode, text, {}).seen;
    assert ([text] + spans)[0] == text && ([text] + spans)[1..] == spans;
    assert spans[0] !in seen;
    assert Try(decode, spans[0], seen).values == [e.Array()];
    hide Try;
    assert TryAll(decode, [text] + spans, {}) == [] + TryAll(decode, spans, seen);
  }

  lemma {:induction false} ArrayAnswers<F>(validate: Validator<F>, values: seq<Value>, e: Envelope)
    requires values != [] && values[0] == e.Array()
    requires |Accepted(validate, ValuesOf(FindingsOf(e.items)))| == |ValuesOf(FindingsOf(e.items))|
    ensures SearchFrom(validate, values, None, false) == Answer(Accepted(validate, ValuesOf(FindingsOf(e.items))))
  {
    AllDicts(FindingsOf(e.items));
    hide Accepted, ValuesOf, FindingsOf;
  }
}
