/** engine/parse.py: answers that are not a bare envelope. Prose and fences around it, trailing commas in it,
    findings the schema refuses, and what is reported where there is none. */
module Answers {
  import opened Text
  import opened DiffParse
  import opened Snap
  import opened JsonSpans
  import opened Envelopes
  import opened ParseFindings

  // ----- Spans of closed prose -----

  /** Every opener outside strings has its closer in the text. */
  predicate AllClosed(s: string, mode: Mode) {
    s == "" ||
    (&& (mode.Plain? && KindOf(s[0]).Some? ==> Close(s[1..], Plain, KindOf(s[0]).value, 1).Some?)
     && AllClosed(s[1..], Next(mode, s[0])))
  }

  /** A closer that is found is found where it was when text is added. */
  lemma {:induction false} CloseStays(a: string, rest: string, mode: Mode, kind: Container, depth: nat)
    requires Close(a, mode, kind, depth).Some?
    ensures Close(a + rest, mode, kind, depth) == Close(a, mode, kind, depth)
    decreases |a|
  {
    if depth > 0 {
      hide Close, Turn, Next, Shift;
      if a == "" {
        NothingCloses(mode, kind, depth);
      } else {
        assert (a + rest)[0] == a[0] && (a + rest)[1..] == a[1..] + rest;
        CloseUnfolds(a + rest, mode, kind, depth);
        CloseUnfolds(a, mode, kind, depth);
        if depth + Turn(kind, mode, a[0]) > 0 {
          ShiftedSome(Close(a[1..], Next(mode, a[0]), kind, depth + Turn(kind, mode, a[0])));
          CloseStays(a[1..], rest, Next(mode, a[0]), kind, depth + Turn(kind, mode, a[0]));
        }
      }
    }
  }

  lemma {:induction false} ShiftedSome(n: Option<nat>)
    ensures Shift(n, 1).Some? <==> n.Some?
  {
  }

  lemma {:induction false} SpanStays(a: string, rest: string)
    requires a != "" && (KindOf(a[0]).Some? ==> Close(a[1..], Plain, KindOf(a[0]).value, 1).Some?)
    ensures SpanAt(a + rest) == SpanAt(a)
  {
    hide Close;
    assert (a + rest)[0] == a[0] && (a + rest)[1..] == a[1..] + rest;
    if KindOf(a[0]).Some? {
      CloseStays(a[1..], rest, Plain, KindOf(a[0]).value, 1);
      var n := Close(a[1..], Plain, KindOf(a[0]).value, 1).value;
      assert (a + rest)[..n + 1] == a[..n + 1];
    }
  }

  lemma {:induction false} ClosedSpans(a: string, rest: string, mode: Mode)
    requires AllClosed(a, mode)
    ensures Spans(a + rest, mode) == Spans(a, mode) + Spans(rest, ModeAfter(a, mode))
    decreases |a|
  {
    hide Close, SpanAt;
    if a == "" {
      assert a + rest == rest;
    } else {
      assert (a + rest)[0] == a[0] && (a + rest)[1..] == a[1..] + rest;
      ClosedSpans(a[1..], rest, Next(mode, a[0]));
      if mode.Plain? {
        SpanStays(a, rest);
        Assoc(SpanAt(a), Spans(a[1..], Next(mode, a[0])), Spans(rest, ModeAfter(a, mode)));
      } else {
        assert [] + Spans(a[1..], Next(mode, a[0])) == Spans(a[1..], Next(mode, a[0]));
      }
    }
  }

  // ----- Trailing commas and where a bracket closes -----

  lemma {:induction false} SpaceCloses(s: string, kind: Container, depth: nat)
    requires depth > 0
    ensures |StripLeft(s)| <= |s|
    ensures Close(s, Plain, kind, depth) == Shift(Close(StripLeft(s), Plain, kind, depth), |s| - |StripLeft(s)|)
    decreases |s|
  {
    StripLeftShorter(s);
    if s != "" && IsSpace(s[0]) {
      assert StripLeft(s) == StripLeft(s[1..]);
      assert Turn(kind, Plain, s[0]) == 0 && Next(Plain, s[0]) == Plain;
      hide *;
      SpaceCloses(s[1..], kind, depth);
      CloseUnfolds(s, Plain, kind, depth);
      ShiftTwice(Close(StripLeft(s), Plain, kind, depth), |s[1..]| - |StripLeft(s)|, 1);
    } else {
      ShiftTwice(Close(s, Plain, kind, depth), 0, 0);
    }
  }

  lemma {:induction false} KeepsSomething(s: string, mode: Mode)
    ensures s == "" <==> StripTrailingCommas(s, mode) == ""
    decreases |s|
  {
    if s != "" && mode.Plain? && s[0] == ',' && ClosesNext(StripLeft(s[1..])) {
      StripLeftShorter(s[1..]);
      KeepsSomething(StripLeft(s[1..]), Plain);
    }
  }

  /** The bracket closes at the very end of the text. */
  predicate EndsIt(s: string, mode: Mode, kind: Container, depth: nat) {
    Close(s, mode, kind, depth) == Some(|s|)
  }

  lemma {:induction false} EndsAfter(s: string, mode: Mode, kind: Container, depth: nat)
    requires s != "" && depth > 0
    ensures depth + Turn(kind, mode, s[0]) >= 0
    ensures EndsIt(s, mode, kind, depth) <==>
      if depth + Turn(kind, mode, s[0]) == 0 then s[1..] == "" else EndsIt(s[1..], Next(mode, s[0]), kind, depth + Turn(kind, mode, s[0]))
  {
    hide Close, Turn, Next;
    CloseUnfolds(s, mode, kind, depth);
  }

  lemma {:induction false} EndsAfterSpace(s: string, kind: Container, depth: nat)
    requires s != "" && depth > 0 && s[0] == ','
    ensures EndsIt(s, Plain, kind, depth) <==> EndsIt(StripLeft(s[1..]), Plain, kind, depth)
  {
    EndsAfter(s, Plain, kind, depth);
    hide Close;
    SpaceCloses(s[1..], kind, depth);
  }

  predicate Dropped(s: string, mode: Mode) {
    s != "" && mode.Plain? && s[0] == ',' && ClosesNext(StripLeft(s[1..]))
  }

  lemma {:induction false} RepairUnfolds(s: string, mode: Mode)
    requires s != ""
    ensures |StripLeft(s[1..])| < |s|
    ensures StripTrailingCommas(s, mode) ==
      if Dropped(s, mode) then StripTrailingCommas(StripLeft(s[1..]), Plain) else [s[0]] + StripTrailingCommas(s[1..], Next(mode, s[0]))
  {
    StripLeftShorter(s[1..]);
  }

  /** A bracket that closes at the very end closes there with the trailing commas and without them. */
  lemma {:induction false} ClosesAtEnd(s: string, mode: Mode, kind: Container, depth: nat)
    requires depth > 0
    ensures EndsIt(StripTrailingCommas(s, mode), mode, kind, depth) <==> EndsIt(s, mode, kind, depth)
    decreases |s|
  {
    hide EndsIt, Turn, Next, StripLeft, StripTrailingCommas, ClosesNext;
    KeepsSomething(s, mode);
    if s != "" {
      RepairUnfolds(s, mode);
      if Dropped(s, mode) {
        ClosesAtEnd(StripLeft(s[1..]), Plain, kind, depth);
        EndsAfterSpace(s, kind, depth);
      } else {
        var t := [s[0]] + StripTrailingCommas(s[1..], Next(mode, s[0]));
        assert t[0] == s[0] && t[1..] == StripTrailingCommas(s[1..], Next(mode, s[0]));
        KeepsSomething(s[1..], Next(mode, s[0]));
        EndsAfter(s, mode, kind, depth);
        EndsAfter(t, mode, kind, depth);
        if depth + Turn(kind, mode, s[0]) > 0 {
          ClosesAtEnd(s[1..], Next(mode, s[0]), kind, depth + Turn(kind, mode, s[0]));
        }
      }
    }
  }

  /** An envelope's first bracket closes at its end. */
  lemma {:induction false} EnvelopeCloses(e: Envelope)
    requires e.Valid()
    ensures e.Text()[0] == '{' && Close(e.Text()[1..], Plain, Brace, 1) == Some(|e.Text()| - 1)
  {
    hide Quiet, Balanced, Envelope.Text, Envelope.Opening, Envelope.Contents, Envelope.Valid, Close, Shift, PassedBefore;
    EnvelopeParts(e);
    OpeningIsQuiet(e);
    ContentsAreBalanced(e);
    AfterIsQuiet(e);
    QuietIsBalanced(e.Opening());
    QuietIsBalanced(e.d);
    BracketsBalanced(e.Contents());
    BalancedConcat(e.Opening(), "[" + e.Contents() + "]");
    BalancedConcat(e.Opening() + ("[" + e.Contents() + "]"), e.d);
    var inner := e.Opening() + ("[" + e.Contents() + "]") + e.d;
    InnerParts(e.Opening(), e.Contents(), e.d);
    BalancedCloses(inner);
    assert e.Text() == "{" + (inner + "}");
    assert e.Text()[1..] == inner + "}";
  }

  lemma {:induction false} InnerParts(opening: string, contents: string, d: string)
    ensures "{" + (opening + ("[" + (contents + ("]" + (d + "}"))))) == "{" + ((opening + ("[" + contents + "]") + d) + "}")
  {
    assert "[" + contents + "]" + (d + "}") == "[" + (contents + ("]" + (d + "}")));
  }

  lemma {:induction false} BalancedCloses(inner: string)
    requires Balanced(inner)
    ensures Close(inner + "}", Plain, Brace, 1) == Some(|inner| + 1)
  {
    assert PassedBefore(inner, "}", Brace, 1);
    CloseUnfolds("}", Plain, Brace, 1);
  }

  lemma {:induction false} BracketsBalanced(contents: string)
    requires Balanced(contents)
    ensures Balanced("[" + contents + "]")
  {
    var s := "[" + contents + "]";
    ModeAround(contents);
    forall rest: string, kind: Container, d: nat ensures PassedBefore(s, rest, kind, d) {
      if d > 0 {
        BracketsPassed(contents, rest, kind, d);
        assert s + rest == "[" + (contents + ("]" + rest));
      }
    }
  }

  lemma {:induction false} ModeAround(contents: string)
    requires ModeAfter(contents, Plain) == Plain && Depth(contents, Plain) == 0
    ensures var s := "[" + contents + "]"; ModeAfter(s, Plain) == Plain && Depth(s, Plain) == 0
  {
    var s := "[" + contents + "]";
    assert s == "[" + (contents + "]") && s[1..] == contents + "]" && s[0] == '[';
    ModeConcat(contents, "]", Plain);
    DepthConcat(contents, "]", Plain);
    assert "]"[1..] == "";
  }

  lemma {:induction false} BracketsPassed(contents: string, rest: string, kind: Container, depth: nat)
    requires Passed(contents) && depth > 0
    ensures Close("[" + (contents + ("]" + rest)), Plain, kind, depth) == Shift(Close(rest, Plain, kind, depth), |contents| + 2)
  {
    var last := "]" + rest;
    var body := contents + last;
    var inside := depth + Turn(kind, Plain, '[');
    assert inside + Turn(kind, Plain, ']') == depth && inside > 0;
    assert last[0] == ']' && last[1..] == rest && ("[" + body)[0] == '[' && ("[" + body)[1..] == body;
    assert Next(Plain, '[') == Plain && Next(Plain, ']') == Plain;
    assert Close(body, Plain, kind, inside) == Shift(Close(last, Plain, kind, inside), |contents|) by {
      assert PassedBefore(contents, last, kind, inside);
    }
    hide *;
    CloseUnfolds("[" + body, Plain, kind, depth);
    CloseUnfolds(last, Plain, kind, inside);
    var n := Close(rest, Plain, kind, depth);
    ShiftTwice(n, 1, |contents|);
    ShiftTwice(n, 1 + |contents|, 1);
  }

  // ----- What is tried before the envelope -----

  /** A text that gives no value, as it is or repaired, and whose repair is not the text to come. */
  predicate Hopeless(decode: Decoder, x: string, core: string) {
    decode(x).None? && decode(StripTrailingCommas(x, Plain)).None? && StripTrailingCommas(x, Plain) != core
  }

  lemma {:induction false} HopelessTry(decode: Decoder, x: string, core: string, seen: set<string>)
    requires Hopeless(decode, x, core) && x != core && core !in seen
    ensures Try(decode, x, seen).values == [] && core !in Try(decode, x, seen).seen
  {
    hide StripTrailingCommas, CommaBeforeCloser;
  }

  predicate AllHopeless(decode: Decoder, xs: seq<string>, core: string) {
    forall i :: 0 <= i < |xs| ==> Hopeless(decode, xs[i], core) && xs[i] != core
  }

  lemma {:induction false} TrailingIsSeen(s: string, mode: Mode)
    requires Trailing(s, mode)
    ensures CommaBeforeCloser(s)
    decreases |s|
  {
    hide StripLeft;
    if !(mode.Plain? && CommaThenCloser(s)) {
      TrailingIsSeen(s[1..], Next(mode, s[0]));
    }
  }

  /** A candidate that decodes gives its value; one that does not, but decodes without its trailing commas,
      gives that one. */
  lemma {:induction false} RepairedTry(decode: Decoder, core: string, value: Value, seen: set<string>)
    requires core !in seen && decode(StripTrailingCommas(core, Plain)) == Some(value)
    requires core == StripTrailingCommas(core, Plain) || decode(core).None?
    requires StripTrailingCommas(core, Plain) !in seen
    ensures Try(decode, core, seen).values == [value]
  {
    PassTakes(core, Plain);
    hide StripTrailingCommas, CommaBeforeCloser, Trailing;
    if core != StripTrailingCommas(core, Plain) {
      TrailingIsSeen(core, Plain);
    }
  }

  // ----- The answer -----

  /** Each finding passes or falls on its own: the ones the schema takes are the answer, if there are any or none
      was given. */
  lemma {:induction false} EnvelopeAnswers<F>(validate: Validator<F>, values: seq<Value>, e: Envelope)
    requires values != [] && values[0] == e.Value()
    requires e.items == [] || Accepted(validate, ValuesOf(FindingsOf(e.items))) != []
    ensures SearchFrom(validate, values, None, false) == Answer(Accepted(validate, ValuesOf(FindingsOf(e.items))))
  {
    hide KEY_CHARS;
    assert Get([Field(KEY_CHARS, e.Array())], KEY_CHARS) == Some(e.Array());
    FindingsCount(e.items);
    ValuesCount(FindingsOf(e.items));
  }

  lemma {:induction false} ValuesCount(findings: seq<Flat>)
    ensures |ValuesOf(findings)| == |findings|
  {
    if findings != [] {
      ValuesCount(findings[1..]);
    }
  }

  lemma {:induction false} SpaceHasNoTag(s: string)
    requires StripLeft(s) == ""
    ensures '<' !in s
  {
    if s != "" {
      SpaceHasNoTag(s[1..]);
      assert s == [s[0]] + s[1..];
    }
  }

  lemma {:induction false} RightKeepsFirst(s: string)
    requires s != "" && !IsSpace(s[0])
    ensures StripRight(s) != ""
    decreases |s|
  {
    if IsSpace(s[|s| - 1]) {
      RightKeepsFirst(s[..|s| - 1]);
    }
  }

  /** A text that says something once its blocks are cut out says something. */
  lemma {:induction false} NotBlankBefore(raw: string)
    requires Strip(StripThink(raw)) != ""
    ensures Strip(raw) != ""
  {
    hide StripThink;
    NoSpaceFirst(raw);
    if StripLeft(raw) == "" {
      SpaceHasNoTag(raw);
      NothingToStrip(raw);
    } else {
      RightKeepsFirst(StripLeft(raw));
    }
  }

  /** The text is prose, then the envelope with or without trailing commas, then anything. Nothing tried before
      the envelope gives a value. */
  ghost predicate Wrapped(decode: Decoder, text: string, a: string, core: string, z: string, e: Envelope) {
    && text == a + core + z && e.Valid()
    && StripTrailingCommas(core, Plain) == e.Text() && (core == e.Text() || decode(core).None?)
    && decode(e.Text()) == Some(e.Value())
    && AllClosed(a, Plain) && ModeAfter(a, Plain) == Plain
    && (text == core || (Hopeless(decode, text, core) && AllHopeless(decode, Spans(a, Plain), core)))
  }

  /** What comes first in a repaired text came first before, unless it is a closer. */
  lemma {:induction false} FirstOfRepair(s: string)
    requires s != ""
    ensures StripTrailingCommas(s, Plain) != ""
    ensures StripTrailingCommas(s, Plain)[0] == s[0] || ClosedBy(StripTrailingCommas(s, Plain)[0]).Some?
  {
    KeepsSomething(s, Plain);
    RepairUnfolds(s, Plain);
    if Dropped(s, Plain) {
      var closed := StripLeft(s[1..]);
      RepairUnfolds(closed, Plain);
      assert !Dropped(closed, Plain);
    }
  }

  lemma {:induction false} CoreCloses(core: string, text: string)
    requires StripTrailingCommas(core, Plain) == text && text != "" && text[0] == '{' && EndsIt(text[1..], Plain, Brace, 1)
    ensures core != "" && core[0] == '{' && EndsIt(core[1..], Plain, Brace, 1)
  {
    hide EndsIt, StripTrailingCommas;
    KeepsSomething(core, Plain);
    FirstOfRepair(core);
    RepairUnfolds(core, Plain);
    assert text[1..] == StripTrailingCommas(core[1..], Plain);
    ClosesAtEnd(core[1..], Plain, Brace, 1);
  }

  lemma {:induction false} CoreIsSpan(core: string, z: string, e: Envelope)
    requires e.Valid() && StripTrailingCommas(core, Plain) == e.Text()
    ensures core != "" && var spans := Spans(core + z, Plain); spans != [] && spans[0] == core
  {
    EnvelopeCloses(e);
    hide Envelope.Text, Envelope.Valid, Close, StripTrailingCommas;
    CoreCloses(core, e.Text());
    SpanStays(core, z);
    assert core[..|core|] == core;
    assert SpanAt(core) == [core];
    assert Spans(core + z, Plain) == SpanAt(core + z) + Spans((core + z)[1..], Next(Plain, (core + z)[0]));
  }

  lemma {:induction false} NotCore(decode: Decoder, xs: seq<string>, core: string, e: Envelope)
    requires AllHopeless(decode, xs, core) && StripTrailingCommas(core, Plain) == e.Text() && decode(e.Text()) == Some(e.Value())
    ensures AllHopeless(decode, xs, e.Text())
  {
    hide StripTrailingCommas, Envelope.Text, Envelope.Value;
  }

  lemma {:induction false} WrappedGives(decode: Decoder, text: string, a: string, core: string, z: string, e: Envelope)
    requires Wrapped(decode, text, a, core, z, e)
    ensures var values := TryAll(decode, [text] + Spans(text, Plain), {}); values != [] && values[0] == e.Value()
  {
    hide Envelope.Valid, Envelope.Text, Envelope.Value, StripTrailingCommas, Spans, AllClosed, ModeAfter, Try, Hopeless;
    var all := [text] + Spans(text, Plain);
    if text == core {
      assert all[0] == core;
      RepairedTry(decode, core, e.Value(), {});
    } else {
      CoreIsSpan(core, z, e);
      ClosedSpans(a, core + z, Plain);
      assert text == a + (core + z);
      var before, more := [text] + Spans(a, Plain), Spans(core + z, Plain);
      assert all == before + more;
      BothHopeless(decode, text, Spans(a, Plain), core);
      hide AllHopeless;
      var seen := SeenBefore(decode, before, more, core, e);
      RepairedTry(decode, core, e.Value(), seen);
    }
  }

  lemma {:induction false} BothHopeless(decode: Decoder, text: string, xs: seq<string>, core: string)
    requires Hopeless(decode, text, core) && text != core && AllHopeless(decode, xs, core)
    ensures AllHopeless(decode, [text] + xs, core)
  {
    hide Hopeless;
  }

  /** Neither the envelope's own text nor its repaired one has been seen by then. */
  lemma {:induction false} SeenBefore(decode: Decoder, before: seq<string>, more: seq<string>, core: string, e: Envelope)
      returns (seen: set<string>)
    requires AllHopeless(decode, before, core) && StripTrailingCommas(core, Plain) == e.Text() && decode(e.Text()) == Some(e.Value())
    ensures TryAll(decode, before + more, {}) == TryAll(decode, more, seen) && core !in seen && e.Text() !in seen
  {
    hide StripTrailingCommas, Envelope.Text, Envelope.Value, AllHopeless, TryAll;
    NotCore(decode, before, core, e);
    seen := HopelessBoth(decode, before, more, core, e.Text(), {});
  }

  lemma {:induction false} HopelessBoth(decode: Decoder, xs: seq<string>, more: seq<string>, core: string, other: string, seen: set<string>)
      returns (seen': set<string>)
    requires AllHopeless(decode, xs, core) && AllHopeless(decode, xs, other) && core !in seen && other !in seen
    ensures TryAll(decode, xs + more, seen) == TryAll(decode, more, seen') && core !in seen' && other !in seen'
    decreases |xs|
  {
    hide Hopeless, Try;
    if xs == [] {
      assert xs + more == more;
      seen' := seen;
    } else {
      assert (xs + more)[0] == xs[0] && (xs + more)[1..] == xs[1..] + more;
      HopelessTry(decode, xs[0], core, seen);
      HopelessTry(decode, xs[0], other, seen);
      var t := Try(decode, xs[0], seen);
      seen' := HopelessBoth(decode, xs[1..], more, core, other, t.seen);
      assert [] + TryAll(decode, xs[1..] + more, t.seen) == TryAll(decode, xs[1..] + more, t.seen);
    }
  }

  /** An envelope in prose or fences, with or without trailing commas, parses to the findings of it that the schema
      takes: those and no others, in order, unless it refuses every one. */
  lemma {:induction false} WrappedEnvelopeParses<F>(decode: Decoder, validate: Validator<F>, raw: string, a: string, core: string, z: string, e: Envelope)
    requires Wrapped(decode, Strip(StripThink(raw)), a, core, z, e)
    requires e.items == [] || Accepted(validate, ValuesOf(FindingsOf(e.items))) != []
    ensures Parse(decode, validate, raw) == Findings(Accepted(validate, ValuesOf(FindingsOf(e.items))))
  {
    WrappedGives(decode, Strip(StripThink(raw)), a, core, z, e);
    CoreIsSpan(core, z, e);
    NotBlankBefore(raw);
    var text := Strip(StripThink(raw));
    assert ParseFindings.Candidates(raw) == [text] + Spans(text, Plain);
    hide Wrapped, Strip, StripThink, Spans, Envelope.Value, Accepted, SearchFrom, TryAll;
    EnvelopeAnswers(validate, JsonValues(decode, raw), e);
  }

  /** In particular an answer that is an envelope but for trailing commas, with all its findings. */
  lemma {:induction false} TrailingCommasAreRepaired<F>(decode: Decoder, validate: Validator<F>, raw: string, e: Envelope)
    requires !HoldsBlock(raw) && Strip(raw) == raw && StripTrailingCommas(raw, Plain) == e.Text() && decode(raw).None?
    requires Decodes(decode, e) && e.Valid() && SchemaValid(validate, FindingsOf(e.items))
    ensures Parse(decode, validate, raw) == Findings(Accepted(validate, ValuesOf(FindingsOf(e.items))))
    ensures |Accepted(validate, ValuesOf(FindingsOf(e.items)))| == |e.items|
  {
    hide *;
    StripsBlocksOnly(raw);
    BareIsWrapped(decode, raw, e);
    FindingsCount(e.items);
    AllAccepted(validate, FindingsOf(e.items));
    AcceptedOfNone(validate, e);
    WrappedEnvelopeParses(decode, validate, raw, "", raw, "", e);
  }

  lemma {:induction false} BareIsWrapped(decode: Decoder, raw: string, e: Envelope)
    requires StripTrailingCommas(raw, Plain) == e.Text() && decode(raw).None? && Decodes(decode, e) && e.Valid()
    ensures Wrapped(decode, raw, "", raw, "", e)
  {
    assert raw == "" + raw + "" && AllClosed("", Plain) && ModeAfter("", Plain) == Plain;
    assert decode(e.Text()) == Some(e.Value());
    hide Envelope.Text, Envelope.Value, Envelope.Valid, StripTrailingCommas, Decodes, AllClosed, ModeAfter;
  }

  lemma {:induction false} AcceptedOfNone<F>(validate: Validator<F>, e: Envelope)
    requires |Accepted(validate, ValuesOf(FindingsOf(e.items)))| == |e.items|
    ensures e.items == [] || Accepted(validate, ValuesOf(FindingsOf(e.items))) != []
  {
  }

  // ----- Which value is the answer, and what is reported where there is none -----

  predicate Shaped(v: Value) {
    AsFindingsList(v).Some?
  }

  function Taken<F>(validate: Validator<F>, v: Value): seq<F> {
    if Shaped(v) then Accepted(validate, AsFindingsList(v).value) else []
  }

  /** It lists findings and the schema refuses every one. */
  predicate Refused<F>(validate: Validator<F>, v: Value) {
    Shaped(v) && AsFindingsList(v).value != [] && Taken(validate, v) == []
  }

  /** A whole answer: an envelope or a list, not refused. */
  predicate Whole<F>(validate: Validator<F>, v: Value) {
    Shaped(v) && IsContainer(v) && !Refused(validate, v)
  }

  /** An object that is one finding the schema takes: the answer, or the first of those an answer cut off holds. */
  predicate Lone<F>(validate: Validator<F>, v: Value) {
    Shaped(v) && !IsContainer(v) && !Refused(validate, v)
  }

  predicate NoneWhole<F>(validate: Validator<F>, values: seq<Value>) {
    forall i :: 0 <= i < |values| ==> !Whole(validate, values[i])
  }

  lemma {:induction false} AcceptedBound<F>(validate: Validator<F>, items: seq<Value>)
    ensures |Accepted(validate, items)| <= |items|
  {
    if items != [] {
      AcceptedBound(validate, items[1..]);
    }
  }

  lemma {:induction false} SearchStep<F>(validate: Validator<F>, values: seq<Value>, single: Option<seq<F>>, rejected: bool)
    requires values != []
    ensures SearchFrom(validate, values, single, rejected) ==
      var v := values[0];
      if Whole(validate, v) then Answer(Taken(validate, v))
      else SearchFrom(validate, values[1..], if Lone(validate, v) && single.None? then Some(Taken(validate, v)) else single,
                      rejected || Refused(validate, v))
  {
    var v := values[0];
    hide AsFindingsList, IsContainer, Accepted;
    if Shaped(v) {
      AcceptedBound(validate, AsFindingsList(v).value);
    }
  }

  /** The first whole answer wins over whatever stands before it. */
  lemma {:induction false} FirstWholeWins<F>(validate: Validator<F>, a: seq<Value>, v: Value, b: seq<Value>, single: Option<seq<F>>, rejected: bool)
    requires NoneWhole(validate, a) && Whole(validate, v)
    ensures SearchFrom(validate, a + [v] + b, single, rejected) == Answer(Taken(validate, v))
    decreases |a|
  {
    hide Whole, Lone, Refused, Taken, SearchFrom;
    var values := a + [v] + b;
    SearchStep(validate, values, single, rejected);
    if a != [] {
      assert values[0] == a[0] && values[1..] == a[1..] + [v] + b;
      assert !Whole(validate, a[0]);
      FirstWholeWins(validate, a[1..], v, b, if Lone(validate, a[0]) && single.None? then Some(Taken(validate, a[0])) else single,
                     rejected || Refused(validate, a[0]));
    }
  }

  /** The first object that is a finding. */
  function FirstLone<F>(validate: Validator<F>, values: seq<Value>): Option<seq<F>> {
    if values == [] then None
    else if Lone(validate, values[0]) then Some(Taken(validate, values[0]))
    else FirstLone(validate, values[1..])
  }

  predicate SomeRefused<F>(validate: Validator<F>, values: seq<Value>) {
    exists i :: 0 <= i < |values| && Refused(validate, values[i])
  }

  lemma {:induction false} NoWholeFound<F>(validate: Validator<F>, values: seq<Value>, single: Option<seq<F>>, rejected: bool)
    requires NoneWhole(validate, values)
    ensures SearchFrom(validate, values, single, rejected)
         == NoAnswer(if single.Some? then single else FirstLone(validate, values), rejected || SomeRefused(validate, values))
    decreases |values|
  {
    hide Whole, Lone, Refused, Taken;
    if values != [] {
      var v, rest := values[0], values[1..];
      assert !Whole(validate, v);
      assert forall i :: 1 <= i < |values| ==> values[i] == rest[i - 1];
      assert SomeRefused(validate, values) <==> Refused(validate, v) || SomeRefused(validate, rest);
      SearchStep(validate, values, single, rejected);
      hide SearchFrom;
      NoWholeFound(validate, rest, if Lone(validate, v) && single.None? then Some(Taken(validate, v)) else single,
                   rejected || Refused(validate, v));
    }
  }

  /** Where no value read is a whole answer: cut off comes before a lone finding, a lone finding before a refusal,
      and a refusal before what the text looks like. */
  lemma {:induction false} NoWholeOutcome<F>(decode: Decoder, validate: Validator<F>, raw: string)
    requires Strip(raw) != "" && NoneWhole(validate, JsonValues(decode, raw))
    ensures var values := JsonValues(decode, raw);
      Parse(decode, validate, raw) ==
        if Unterminated(StripThink(raw)) then Error(Truncated, Recovered(validate, values))
        else if FirstLone(validate, values).Some? then Findings(FirstLone(validate, values).value)
        else Error(if SomeRefused(validate, values) then Schema else Classify(decode, raw), [])
  {
    hide JsonValues, NoneWhole, SearchFrom, FirstLone, SomeRefused, Classify, Unterminated, Strip, StripThink, Recovered;
    NoWholeFound(validate, JsonValues(decode, raw), None, false);
  }

  lemma {:induction false} NothingTried(decode: Decoder, xs: seq<string>, seen: set<string>)
    requires forall i :: 0 <= i < |xs| ==> decode(xs[i]).None? && decode(StripTrailingCommas(xs[i], Plain)).None?
    ensures TryAll(decode, xs, seen) == []
    decreases |xs|
  {
    hide StripTrailingCommas, CommaBeforeCloser;
    if xs != [] {
      NothingTried(decode, xs[1..], Try(decode, xs[0], seen).seen);
    }
  }

  lemma {:induction false} QuotedAre(spans: seq<string>, x: string)
    ensures x in ParseFindings.Quoted(spans) <==> x in spans && '"' in x
  {
    if spans != [] {
      QuotedAre(spans[1..], x);
      assert x in spans <==> x == spans[0] || x in spans[1..];
    }
  }

  /** An answer nothing in which decodes, and which is not cut off, is empty, broken JSON where a bracketed part has
      a quote in it, and prose where none has. */
  lemma {:induction false} NothingReadOutcome<F>(decode: Decoder, validate: Validator<F>, raw: string)
    requires !Unterminated(StripThink(raw))
    requires var text := Strip(StripThink(raw));
      && decode(text).None? && decode(StripTrailingCommas(text, Plain)).None?
      && forall i :: 0 <= i < |Spans(text, Plain)| ==>
           decode(Spans(text, Plain)[i]).None? && decode(StripTrailingCommas(Spans(text, Plain)[i], Plain)).None?
    ensures var text := Strip(StripThink(raw));
      Parse(decode, validate, raw) == Error(if text == "" then Empty
                                            else if exists x :: x in Spans(text, Plain) && '"' in x then MalformedJson else Prose, [])
  {
    var text := Strip(StripThink(raw));
    var spans := Spans(text, Plain);
    hide Spans, StripTrailingCommas, Unterminated, StripThink;
    if Strip(raw) == "" {
      BlankBefore(raw);
    } else {
      hide Strip;
      forall x ensures x in ParseFindings.Quoted(spans) <==> x in spans && '"' in x {
        QuotedAre(spans, x);
      }
      NothingTried(decode, ParseFindings.Candidates(raw), {});
      assert JsonValues(decode, raw) == [];
      NoWholeOutcome(decode, validate, raw);
      if text != "" {
        NoneDecode(decode, ParseFindings.Quoted(spans));
        assert ParseFindings.Quoted(spans) != [] ==> ParseFindings.Quoted(spans)[0] in ParseFindings.Quoted(spans);
      }
    }
  }

  lemma {:induction false} BlankBefore(raw: string)
    requires Strip(raw) == ""
    ensures Strip(StripThink(raw)) == ""
  {
    if Strip(StripThink(raw)) != "" {
      NotBlankBefore(raw);
    }
  }

  lemma {:induction false} NoneDecode(decode: Decoder, xs: seq<string>)
    requires forall x :: x in xs ==> decode(StripTrailingCommas(x, Plain)).None?
    ensures !SomeDecode(decode, xs)
  {
    hide StripTrailingCommas;
  }

  /** A text that decodes but holds no findings at all, or one with a bracketed and quoted part that does, was never
      findings. */
  lemma {:induction false} NotFindingsOutcome<F>(decode: Decoder, validate: Validator<F>, raw: string)
    requires !Unterminated(StripThink(raw)) && Strip(StripThink(raw)) != ""
    requires forall i :: 0 <= i < |JsonValues(decode, raw)| ==> !Shaped(JsonValues(decode, raw)[i])
    requires var text := Strip(StripThink(raw));
      decode(text).Some? || exists x :: x in Spans(text, Plain) && '"' in x && decode(StripTrailingCommas(x, Plain)).Some?
    ensures Parse(decode, validate, raw) == Error(NotFindings, [])
  {
    var text := Strip(StripThink(raw));
    var spans := Spans(text, Plain);
    NotBlankBefore(raw);
    hide Spans, StripTrailingCommas, Unterminated, StripThink, Strip, JsonValues, Shaped;
    NoWholeOutcome(decode, validate, raw);
    NothingLone(validate, JsonValues(decode, raw));
    if decode(text).None? {
      var x :| x in spans && '"' in x && decode(StripTrailingCommas(x, Plain)).Some?;
      QuotedAre(spans, x);
      var i :| 0 <= i < |ParseFindings.Quoted(spans)| && ParseFindings.Quoted(spans)[i] == x;
      assert SomeDecode(decode, ParseFindings.Quoted(spans));
    }
  }

  lemma {:induction false} NothingLone<F>(validate: Validator<F>, values: seq<Value>)
    requires forall i :: 0 <= i < |values| ==> !Shaped(values[i])
    ensures NoneWhole(validate, values) && FirstLone(validate, values).None? && !SomeRefused(validate, values)
  {
    hide Shaped;
    if values != [] {
      assert forall i :: 0 <= i < |values[1..]| ==> values[1..][i] == values[i + 1];
      NothingLone(validate, values[1..]);
    }
  }

  /** A list is findings-shaped exactly when every item is an object; a stray list of words is passed over. */
  lemma {:induction false} StrayListIsPassedOver<F>(validate: Validator<F>, items: seq<Value>, values: seq<Value>)
    ensures Shaped(List(items)) <==> forall i :: 0 <= i < |items| ==> items[i].Dict?
    ensures !Shaped(List(items)) ==> SearchFrom(validate, [List(items)] + values, None, false) == SearchFrom(validate, values, None, false)
  {
    assert ([List(items)] + values)[1..] == values;
  }

  // ----- Blocks however their tags are written -----

  /** A letter as Unicode's case folding has it: the capital, and the three signs that fold to a k or an i. */
  predicate IsLetter(c: char, letter: char) {
    || c == letter
    || ('A' <= c <= 'Z' && c - 'A' + 'a' == letter)
    || (letter == 'k' && c == '\U{212a}')
    || (letter == 'i' && (c == '\U{130}' || c == '\U{131}'))
  }

  /** The letters of the word, each in any case. */
  predicate InAnyCase(s: string, word: string) {
    |s| == |word| && forall i :: 0 <= i < |s| ==> IsLetter(s[i], word[i])
  }

  predicate IsOpening(s: string) {
    InAnyCase(s, "<think>") || InAnyCase(s, "<thinking>")
  }

  predicate IsClosing(s: string) {
    InAnyCase(s, "</think>") || InAnyCase(s, "</thinking>")
  }

  lemma {:induction false} TagStarts(s: string, tag: string, rest: string)
    requires InAnyCase(s, tag) && forall i :: 0 <= i < |tag| ==> !('A' <= tag[i] <= 'Z') && Lower(tag[i]) == tag[i]
    ensures StartsWithTag(s + rest, tag)
  {
  }

  lemma {:induction false} PlainTags(tag: string)
    requires tag == "<think>" || tag == "<thinking>" || tag == "</think>" || tag == "</thinking>"
    ensures forall i :: 0 <= i < |tag| ==> !('A' <= tag[i] <= 'Z') && Lower(tag[i]) == tag[i]
  {
  }

  lemma {:induction false} OtherTag(s: string, tag: string, other: string, i: nat)
    requires StartsWithTag(s, tag) && i < |tag| && i < |other| && tag[i] != other[i]
    ensures !StartsWithTag(s, other)
  {
    assert Lower(s[i]) == tag[i];
  }

  lemma {:induction false} OpeningOpens(s: string, rest: string)
    requires IsOpening(s)
    ensures s != "" && ThinkOpens(s + rest) == Some(|s|)
  {
    PlainTags("<think>");
    PlainTags("<thinking>");
    hide StartsWithTag, Lower;
    if InAnyCase(s, "<think>") {
      TagStarts(s, "<think>", rest);
    } else {
      TagStarts(s, "<thinking>", rest);
      OtherTag(s + rest, "<thinking>", "<think>", 6);
    }
  }

  lemma {:induction false} ClosingEnds(s: string, rest: string)
    requires IsClosing(s)
    ensures ThinkEnd(s + rest) == Some(|s|)
  {
    PlainTags("</think>");
    PlainTags("</thinking>");
    hide StartsWithTag, Lower;
    if InAnyCase(s, "</think>") {
      TagStarts(s, "</think>", rest);
    } else {
      TagStarts(s, "</thinking>", rest);
      OtherTag(s + rest, "</thinking>", "</think>", 7);
    }
  }

  lemma {:induction false} ClosingPast(m: string, close: string, rest: string)
    requires '<' !in m && IsClosing(close)
    ensures ThinkEnd(m + (close + rest)) == Some(|m| + |close|)
    decreases |m|
  {
    hide ThinkOpens, ThinkEnd, IsClosing;
    var s := m + (close + rest);
    if m == "" {
      assert s == close + rest;
      ClosingEnds(close, rest);
    } else {
      assert s[0] == m[0] && s[1..] == m[1..] + (close + rest);
      ClosingPast(m[1..], close, rest);
      NothingStartsHere(s);
    }
  }

  /** A block goes with all it holds, whichever of the tags it has and in whatever case, and what stands around it
      stays. */
  lemma {:induction false} AnyBlockIsCut(a: string, open: string, m: string, close: string, z: string)
    requires IsOpening(open) && IsClosing(close) && '<' !in a && '<' !in m && '<' !in z
    ensures StripThink(a + (open + (m + (close + z)))) == a + z
    decreases |a|
  {
    hide ThinkOpens, ThinkEnd, IsOpening, IsClosing;
    var rest := m + (close + z);
    var s := a + (open + rest);
    OpeningOpens(open, rest);
    if a == "" {
      assert s == open + rest && s[|open|..] == rest;
      assert rest[|m| + |close|..] == z;
      ClosingPast(m, close, z);
      NothingToStrip(z);
    } else {
      assert s[0] == a[0] && s[1..] == a[1..] + (open + rest);
      NothingStartsHere(s);
      AnyBlockIsCut(a[1..], open, m, close, z);
      assert a + z == [a[0]] + (a[1..] + z);
    }
  }

  // ----- One finding alone -----

  /** Of members with one name the last counts. */
  lemma {:induction false} LastOfAName(fields: seq<Field>, name: seq<StrChar>, value: Value, more: seq<Field>)
    requires forall i :: 0 <= i < |more| ==> more[i].name != name
    ensures Get(fields + [Field(name, value)] + more, name) == Some(value)
    decreases |more|
  {
    var all := fields + [Field(name, value)] + more;
    if more != [] {
      assert all[..|all| - 1] == fields + [Field(name, value)] + more[..|more| - 1];
      LastOfAName(fields, name, value, more[..|more| - 1]);
    }
  }

  /** A bare object that is one finding is that finding. */
  lemma {:induction false} BareFindingParses<F>(decode: Decoder, validate: Validator<F>, f: Flat)
    requires f.Valid() && !HoldsBlock(f.Text()) && decode(f.Text()) == Some(f.Value()) && validate(f.Value()).Some?
    ensures Parse(decode, validate, f.Text()) == Findings([validate(f.Value()).value])
  {
    StripsBlocksOnly(f.Text());
    FlatEnds(f);
    FlatIsWhole(f);
    FlatReads(decode, f);
    FlatIsSingle(f);
    hide *;
    var text := f.Text();
    var v := f.Value();
    LoneValue(validate, v);
    LoneOutcome(decode, validate, text, v);
  }

  lemma {:induction false} LoneOutcome<F>(decode: Decoder, validate: Validator<F>, raw: string, v: Value)
    requires Strip(raw) != "" && !Unterminated(StripThink(raw))
    requires validate(v).Some? && JsonValues(decode, raw) == [v] && NoneWhole(validate, [v])
    requires FirstLone(validate, [v]) == Some([validate(v).value])
    ensures Parse(decode, validate, raw) == Findings([validate(v).value])
  {
    hide *;
    NoWholeOutcome(decode, validate, raw);
  }

  lemma {:induction false} FlatReads(decode: Decoder, f: Flat)
    requires f.Valid() && !HoldsBlock(f.Text()) && decode(f.Text()) == Some(f.Value())
    ensures f.Text() != "" && JsonValues(decode, f.Text()) == [f.Value()]
  {
    FlatCandidates(f);
    hide *;
    hide Flat.Valid;
    TriedOnce(decode, f.Text(), f.Value());
    OneTrialEach(decode, f.Text());
  }

  lemma {:induction false} OneTrialEach(decode: Decoder, raw: string)
    ensures JsonValues(decode, raw) == TryAll(decode, ParseFindings.Candidates(raw), {})
  {
    hide TryAll, ParseFindings.Candidates;
  }

  /** A text tried again is seen. */
  lemma {:induction false} TriedOnce(decode: Decoder, text: string, v: Value)
    requires decode(text) == Some(v)
    ensures TryAll(decode, [text, text], {}) == [v]
  {
    hide StripTrailingCommas, CommaBeforeCloser;
    var t := Try(decode, text, {});
    assert [text, text][1..] == [text] && [text][1..] == [];
    assert t == Trial([v], {} + {text}) && Try(decode, text, t.seen) == Trial([], t.seen);
    assert TryAll(decode, [], t.seen) == [];
    assert TryAll(decode, [text], t.seen) == [] + TryAll(decode, [], t.seen);
  }

  lemma {:induction false} FlatCandidates(f: Flat)
    requires f.Valid() && !HoldsBlock(f.Text())
    ensures f.Text() != "" && ParseFindings.Candidates(f.Text()) == [f.Text(), f.Text()]
  {
    StripsBlocksOnly(f.Text());
    FlatEnds(f);
    FlatSpans(f);
    hide Flat.Text, Spans, StripThink, HoldsBlock, Strip, Flat.Valid;
  }

  lemma {:induction false} LoneValue<F>(validate: Validator<F>, v: Value)
    requires AsFindingsList(v) == Some([v]) && !IsContainer(v) && validate(v).Some?
    ensures NoneWhole(validate, [v]) && FirstLone(validate, [v]) == Some([validate(v).value])
  {
    AcceptedOne(validate, v);
    hide AsFindingsList, IsContainer, Accepted;
  }

  lemma {:induction false} FlatEnds(f: Flat)
    ensures f.Text() != "" && Strip(f.Text()) == f.Text()
  {
    hide Flat.Inner;
    var text := f.Text();
    assert text[0] == '{' && text[|text| - 1] == '}';
    assert StripLeft(text) == text;
  }

  lemma {:induction false} FlatSpans(f: Flat)
    requires f.Valid()
    ensures Spans(f.Text(), Plain) == [f.Text()]
  {
    FlatIsQuietInside(f);
    hide Flat.Inner, Quiet, Spans;
    ObjectSpan(f.Inner(), "");
    assert "{" + (f.Inner() + ("}" + "")) == f.Text() && "{" + f.Inner() + "}" == f.Text();
    NoSpans();
  }

  lemma {:induction false} NoSpans()
    ensures Spans("", Plain) == []
  {
  }

  // ----- What is recovered -----

  /** The last member called "findings" is a list. */
  ghost predicate ListsFindings(fields: seq<Field>) {
    exists a, items, b :: fields == a + [Field(KEY_CHARS, List(items))] + b && NoneNamed(b, KEY_CHARS)
  }

  predicate NoneNamed(fields: seq<Field>, name: seq<StrChar>) {
    forall i :: 0 <= i < |fields| ==> fields[i].name != name
  }

  lemma {:induction false} GetSplits(fields: seq<Field>, name: seq<StrChar>) returns (a: seq<Field>, b: seq<Field>)
    requires Get(fields, name).Some?
    ensures fields == a + [Field(name, Get(fields, name).value)] + b && NoneNamed(b, name)
    decreases |fields|
  {
    var front, last := fields[..|fields| - 1], fields[|fields| - 1];
    assert fields == front + [last];
    if last.name == name {
      a, b := front, [];
    } else {
      a, b := GetSplits(front, name);
      b := b + [last];
    }
  }

  lemma {:induction false} ContainerLists(fields: seq<Field>)
    ensures IsContainer(Dict(fields)) <==> ListsFindings(fields)
  {
    if IsContainer(Dict(fields)) {
      var a, b := GetSplits(fields, KEY_CHARS);
      assert fields == a + [Field(KEY_CHARS, List(Get(fields, KEY_CHARS).value.items))] + b;
    }
    if ListsFindings(fields) {
      var a, items, b :| fields == a + [Field(KEY_CHARS, List(items))] + b && NoneNamed(b, KEY_CHARS);
      LastOfAName(a, KEY_CHARS, List(items), b);
    }
  }

  ghost predicate Salvages<F>(validate: Validator<F>, v: Value, f: F) {
    v.Dict? && !ListsFindings(v.fields) && validate(v) == Some(f)
  }

  /** Of an answer that was cut off exactly those findings are recovered that are read as an object of their own and that
      the schema takes; an object with a list of findings is none. */
  lemma {:induction false} RecoveredExactly<F>(validate: Validator<F>, values: seq<Value>, f: F)
    ensures f in Recovered(validate, values) <==> exists v :: v in values && Salvages(validate, v, f)
    decreases |values|
  {
    if values != [] {
      var v, rest := values[0], values[1..];
      assert values == [v] + rest;
      if v.Dict? {
        ContainerLists(v.fields);
      }
      hide IsContainer, ListsFindings;
      RecoveredExactly(validate, rest, f);
      assert (exists w :: w in values && Salvages(validate, w, f))
        <==> Salvages(validate, v, f) || exists w :: w in rest && Salvages(validate, w, f);
    }
  }
}
