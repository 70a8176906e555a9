/** engine/parse.py: the quote and escape automaton, and the balanced spans found in one walk. */
module JsonSpans {
  import opened Text
  import opened DiffParse
  import opened Snap

  // ----- Outside strings -----

  /** in_string and escaped. */
  datatype Mode = Plain | Quoted | Escaped

  function Next(mode: Mode, c: char): Mode {
    match mode
    case Plain => if c == '"' then Quoted else Plain
    case Quoted => if c == '\\' then Escaped else if c == '"' then Plain else Quoted
    case Escaped => Quoted
  }

  /** The character is yielded: it is neither inside a string nor the quote that opens one. */
  predicate Shows(mode: Mode, c: char) {
    mode.Plain? && c != '"'
  }

  /** The mode after a text. */
  function ModeAfter(s: string, mode: Mode): Mode {
    if s == "" then mode else ModeAfter(s[1..], Next(mode, s[0]))
  }

  lemma {:induction false} ModeConcat(a: string, b: string, mode: Mode)
    ensures ModeAfter(a + b, mode) == ModeAfter(b, ModeAfter(a, mode))
    decreases |a|
  {
    if a == "" {
      assert a + b == b;
    } else {
      assert (a + b)[1..] == a[1..] + b;
      ModeConcat(a[1..], b, Next(mode, a[0]));
    }
  }

  /** Each character outside a string literal, with its place. */
  function Outside(text: string, i: nat, mode: Mode): seq<(nat, char)>
    requires i <= |text|
    decreases |text| - i
  {
    if i == |text| then []
    else (if Shows(mode, text[i]) then [(i, text[i])] else []) + Outside(text, i + 1, Next(mode, text[i]))
  }

  method OutsideStrings(text: string, start: nat) returns (shown: seq<(nat, char)>)
    requires start <= |text|
    ensures shown == Outside(text, start, Plain)
  {
    var inString, escaped := false, false;
    shown := [];
    for i := start to |text|
      invariant !(escaped && !inString)
      invariant shown + Outside(text, i, if escaped then Escaped else if inString then Quoted else Plain)
             == Outside(text, start, Plain)
    {
      var ch := text[i];
      if inString {
        if escaped {
          escaped := false;
        } else if ch == '\\' {
          escaped := true;
        } else if ch == '"' {
          inString := false;
        }
      } else if ch == '"' {
        inString := true;
      } else {
        Assoc(shown, [(i, ch)], Outside(text, i + 1, Plain));
        shown := shown + [(i, ch)];
      }
    }
  }

  // ----- The naive scan -----

  datatype Container = Brace | Bracket {
    function Opener(): char { if Brace? then '{' else '[' }
    function Closer(): char { if Brace? then '}' else ']' }
  }

  function Turn(kind: Container, mode: Mode, c: char): int {
    if !mode.Plain? then 0 else if c == kind.Opener() then 1 else if c == kind.Closer() then -1 else 0
  }

  /** How many characters it takes this kind's own count to come down from depth to zero; None if it
      never does. */
  function Close(s: string, mode: Mode, kind: Container, depth: nat): (n: Option<nat>)
    ensures n.Some? ==> n.value <= |s|
    decreases |s|
  {
    if depth == 0 then Some(0)
    else if s == "" then None
    else
      match Close(s[1..], Next(mode, s[0]), kind, depth + Turn(kind, mode, s[0]))
      case None => None
      case Some(n) => Some(n + 1)
  }

  function KindOf(c: char): Option<Container> {
    if c == '{' then Some(Brace) else if c == '[' then Some(Bracket) else None
  }

  function ClosedBy(c: char): Option<Container> {
    if c == '}' then Some(Brace) else if c == ']' then Some(Bracket) else None
  }

  /** The span an opener starts, found by scanning on from it. */
  function SpanAt(s: string): seq<string>
    requires s != ""
  {
    match KindOf(s[0])
    case None => []
    case Some(kind) =>
      match Close(s[1..], Plain, kind, 1)
      case None => []
      case Some(n) => [s[..n + 1]]
  }

  /** The spans of all openers outside strings, in opening order: a scan for each. */
  function Spans(s: string, mode: Mode): seq<string>
    decreases |s|
  {
    if s == "" then []
    else (if mode.Plain? then SpanAt(s) else []) + Spans(s[1..], Next(mode, s[0]))
  }

  // ----- One walk with two stacks -----

  /** The openers met and not closed, by kind, innermost last; and where each closed one ends. */
  datatype Walk = Walk(starts: seq<nat>, braces: seq<nat>, brackets: seq<nat>, ends: map<nat, nat>) {
    function Stack(kind: Container): seq<nat> { if kind.Brace? then braces else brackets }
  }

  function Push(w: Walk, kind: Container, i: nat): Walk {
    match kind
    case Brace => w.(starts := w.starts + [i], braces := w.braces + [i])
    case Bracket => w.(starts := w.starts + [i], brackets := w.brackets + [i])
  }

  function Pop(w: Walk, kind: Container, end: nat): Walk {
    var stack := w.Stack(kind);
    if stack == [] then w
    else
      var ends := w.ends[stack[|stack| - 1] := end];
      match kind
      case Brace => w.(braces := stack[..|stack| - 1], ends := ends)
      case Bracket => w.(brackets := stack[..|stack| - 1], ends := ends)
  }

  function StepWalk(w: Walk, i: nat, c: char): Walk {
    if KindOf(c).Some? then Push(w, KindOf(c).value, i)
    else if ClosedBy(c).Some? then Pop(w, ClosedBy(c).value, i + 1)
    else w
  }

  function WalkStep(w: Walk, i: nat, mode: Mode, c: char): Walk {
    if Shows(mode, c) then StepWalk(w, i, c) else w
  }

  /** The walk of the rest of the text. */
  function WalkFrom(text: string, i: nat, mode: Mode, w: Walk): Walk
    requires i <= |text|
    decreases |text| - i
  {
    if i == |text| then w
    else WalkFrom(text, i + 1, Next(mode, text[i]), WalkStep(w, i, mode, text[i]))
  }

  /** What is read off at the end: the spans of the starts that have an end. */
  function Collect(text: string, starts: seq<nat>, ends: map<nat, nat>): seq<string> {
    if starts == [] then []
    else
      (if starts[0] in ends && starts[0] <= ends[starts[0]] <= |text| then [text[starts[0]..ends[starts[0]]]] else [])
      + Collect(text, starts[1..], ends)
  }

  predicate Rising(stack: seq<nat>, i: nat) {
    && (forall a, b :: 0 <= a < b < |stack| ==> stack[a] < stack[b])
    && (forall a :: 0 <= a < |stack| ==> stack[a] < i)
  }

  /** Everything on the stacks came before, is there once, and has no end yet. */
  ghost predicate Tidy(w: Walk, i: nat) {
    && Rising(w.braces, i) && Rising(w.brackets, i)
    && (forall x :: x in w.braces ==> x !in w.brackets && x !in w.ends)
    && (forall x :: x in w.brackets ==> x !in w.ends)
    && (forall x :: x in w.ends ==> x < i)
  }

  lemma {:induction false} PushTidy(w: Walk, kind: Container, i: nat)
    requires Tidy(w, i)
    ensures Tidy(Push(w, kind, i), i + 1)
  {
  }

  lemma {:induction false} PopTidy(w: Walk, kind: Container, i: nat)
    requires Tidy(w, i)
    ensures Tidy(Pop(w, kind, i + 1), i + 1)
  {
    var stack := w.Stack(kind);
    if stack != [] {
      var top := stack[|stack| - 1];
      assert top in stack && top !in stack[..|stack| - 1];
    }
  }

  lemma {:induction false} StepTidy(w: Walk, i: nat, c: char)
    requires Tidy(w, i)
    ensures Tidy(StepWalk(w, i, c), i + 1)
  {
    hide Tidy;
    if KindOf(c).Some? {
      PushTidy(w, KindOf(c).value, i);
    } else if ClosedBy(c).Some? {
      PopTidy(w, ClosedBy(c).value, i);
    } else {
      TidyLater(w, i);
    }
  }

  lemma {:induction false} TidyLater(w: Walk, i: nat)
    requires Tidy(w, i)
    ensures Tidy(w, i + 1)
  {
  }

  function End(w: Walk, p: nat): Option<nat> {
    if p in w.ends then Some(w.ends[p]) else None
  }

  predicate OnStack(w: Walk, p: nat) {
    p in w.braces || p in w.brackets
  }

  /** A place that is on no stack is never given an end. */
  lemma {:induction false} OffStackStays(text: string, i: nat, mode: Mode, w: Walk, p: nat)
    requires i <= |text| && Tidy(w, i) && p < i && !OnStack(w, p)
    ensures End(WalkFrom(text, i, mode, w), p) == End(w, p)
    decreases |text| - i
  {
    if i < |text| {
      var w' := WalkStep(w, i, mode, text[i]);
      StepTidy(w, i, text[i]);
      TidyLater(w, i);
      StepOffStack(w, i, text[i], p);
      hide Tidy, StepWalk;
      OffStackStays(text, i + 1, Next(mode, text[i]), w', p);
    }
  }

  lemma {:induction false} StepOffStack(w: Walk, i: nat, c: char, p: nat)
    requires p < i && !OnStack(w, p)
    ensures !OnStack(StepWalk(w, i, c), p) && End(StepWalk(w, i, c), p) == End(w, p)
  {
  }

  function Shift(n: Option<nat>, i: nat): Option<nat> {
    match n
    case None => None
    case Some(k) => Some(i + k)
  }

  /** One character: an opener on a stack stays there, nearer or further from the top by its kind's turn,
      until the closer that brings its own count to zero gives it its end. */
  lemma {:induction false} StepStack(w: Walk, i: nat, c: char, kind: Container, e: nat)
    requires Tidy(w, i) && e < |w.Stack(kind)|
    ensures var w', p, depth := StepWalk(w, i, c), w.Stack(kind)[e], |w.Stack(kind)| - e;
      var depth' := depth + Turn(kind, Plain, c);
      if depth' == 0 then !OnStack(w', p) && End(w', p) == Some(i + 1)
      else e < |w'.Stack(kind)| && w'.Stack(kind)[e] == p && |w'.Stack(kind)| - e == depth'
  {
    var stack := w.Stack(kind);
    assert stack[e] in stack;
  }

  lemma {:induction false} StackStep(w: Walk, i: nat, mode: Mode, c: char, kind: Container, e: nat)
    requires Tidy(w, i) && e < |w.Stack(kind)|
    ensures var w', p := WalkStep(w, i, mode, c), w.Stack(kind)[e];
      var depth' := |w.Stack(kind)| - e + Turn(kind, mode, c);
      && p < i && Tidy(w', i + 1)
      && (if depth' == 0 then !OnStack(w', p) && End(w', p) == Some(i + 1)
          else e < |w'.Stack(kind)| && w'.Stack(kind)[e] == p && |w'.Stack(kind)| - e == depth')
  {
    hide Tidy, StepWalk, OnStack, Turn, End, Walk.Stack;
    StepTidy(w, i, c);
    TidyLater(w, i);
    StepStack(w, i, c, kind, e);
    StackBelow(w, i, kind, e);
    QuietTurn(mode, c, kind);
  }

  /** An opener on a stack ends where the naive scan from it ends, its depth being how far it is from the top. */
  lemma {:induction false} StackEnds(text: string, i: nat, mode: Mode, w: Walk, kind: Container, e: nat)
    requires i <= |text| && Tidy(w, i) && e < |w.Stack(kind)|
    ensures End(WalkFrom(text, i, mode, w), w.Stack(kind)[e]) == Shift(Close(text[i..], mode, kind, |w.Stack(kind)| - e), i)
    decreases |text| - i
  {
    hide Tidy, WalkStep, OnStack, Close, Turn, End, Walk.Stack;
    var p, depth := w.Stack(kind)[e], |w.Stack(kind)| - e;
    if i == |text| {
      NoEndYet(w, i, kind, e);
      NothingCloses(mode, kind, depth);
    } else {
      var c := text[i];
      var w' := WalkStep(w, i, mode, c);
      StackStep(w, i, mode, c, kind, e);
      NextClose(text, i, mode, kind, depth);
      if depth + Turn(kind, mode, c) == 0 {
        OffStackStays(text, i + 1, Next(mode, c), w', p);
      } else {
        StackEnds(text, i + 1, Next(mode, c), w', kind, e);
      }
    }
  }

  lemma {:induction false} NoEndYet(w: Walk, i: nat, kind: Container, e: nat)
    requires Tidy(w, i) && e < |w.Stack(kind)|
    ensures End(w, w.Stack(kind)[e]).None?
  {
    assert w.Stack(kind)[e] in w.Stack(kind);
  }

  lemma {:induction false} NothingCloses(mode: Mode, kind: Container, depth: nat)
    requires depth > 0
    ensures Close("", mode, kind, depth).None?
  {
  }

  lemma {:induction false} CloseUnfolds(s: string, mode: Mode, kind: Container, depth: nat)
    requires s != "" && depth > 0
    ensures depth + Turn(kind, mode, s[0]) >= 0
    ensures Close(s, mode, kind, depth) == Shift(Close(s[1..], Next(mode, s[0]), kind, depth + Turn(kind, mode, s[0])), 1)
    ensures depth + Turn(kind, mode, s[0]) == 0 ==> Close(s, mode, kind, depth) == Some(1)
  {
  }

  lemma {:induction false} NextClose(text: string, i: nat, mode: Mode, kind: Container, depth: nat)
    requires i < |text| && depth > 0
    ensures depth + Turn(kind, mode, text[i]) >= 0
    ensures Shift(Close(text[i..], mode, kind, depth), i)
         == if depth + Turn(kind, mode, text[i]) == 0 then Some(i + 1)
            else Shift(Close(text[i + 1..], Next(mode, text[i]), kind, depth + Turn(kind, mode, text[i])), i + 1)
  {
    hide Close, Turn;
    CloseUnfolds(text[i..], mode, kind, depth);
    assert text[i..][0] == text[i] && text[i..][1..] == text[i + 1..];
  }

  /** A character that is not shown turns nothing; one that is turns as it would in plain text. */
  lemma {:induction false} QuietTurn(mode: Mode, c: char, kind: Container)
    ensures if Shows(mode, c) then Turn(kind, mode, c) == Turn(kind, Plain, c) else Turn(kind, mode, c) == 0
  {
  }

  lemma {:induction false} StackBelow(w: Walk, i: nat, kind: Container, e: nat)
    requires Tidy(w, i) && e < |w.Stack(kind)|
    ensures w.Stack(kind)[e] < i
  {
  }

  /** The openers outside strings, in order. */
  function Openers(text: string, i: nat, mode: Mode): seq<nat>
    requires i <= |text|
    decreases |text| - i
  {
    if i == |text| then []
    else (if mode.Plain? && KindOf(text[i]).Some? then [i] else []) + Openers(text, i + 1, Next(mode, text[i]))
  }

  lemma {:induction false} WalkStarts(text: string, i: nat, mode: Mode, w: Walk)
    requires i <= |text|
    ensures WalkFrom(text, i, mode, w).starts == w.starts + Openers(text, i, mode)
    decreases |text| - i
  {
    if i < |text| {
      var w' := WalkStep(w, i, mode, text[i]);
      WalkStarts(text, i + 1, Next(mode, text[i]), w');
    }
  }

  lemma {:induction false} CollectConcat(text: string, a: seq<nat>, b: seq<nat>, ends: map<nat, nat>)
    ensures Collect(text, a + b, ends) == Collect(text, a, ends) + Collect(text, b, ends)
    decreases |a|
  {
    if a == [] {
      assert a + b == b;
    } else {
      assert (a + b)[1..] == a[1..] + b;
      CollectConcat(text, a[1..], b, ends);
    }
  }

  /** The ends the one walk finds are the naive ones, for every opener still to come. */
  lemma {:induction false} WalkFindsSpans(text: string, i: nat, mode: Mode, w: Walk)
    requires i <= |text| && Tidy(w, i)
    ensures Collect(text, Openers(text, i, mode), WalkFrom(text, i, mode, w).ends) == Spans(text[i..], mode)
    decreases |text| - i
  {
    if i < |text| {
      var c := text[i];
      assert text[i..][0] == c && text[i..][1..] == text[i + 1..];
      StepTidy(w, i, c);
      TidyLater(w, i);
      var w' := WalkStep(w, i, mode, c);
      WalkFindsSpans(text, i + 1, Next(mode, c), w');
      if mode.Plain? && KindOf(c).Some? {
        OpenerFound(text, i, w);
        CollectConcat(text, [i], Openers(text, i + 1, Next(mode, c)), WalkFrom(text, i, mode, w).ends);
      } else {
        assert [] + Openers(text, i + 1, Next(mode, c)) == Openers(text, i + 1, Next(mode, c));
        assert mode.Plain? ==> SpanAt(text[i..]) == [];
        assert [] + Spans(text[i + 1..], Next(mode, c)) == Spans(text[i + 1..], Next(mode, c));
      }
    }
  }

  /** The span of the opener at i. */
  lemma {:induction false} OpenerFound(text: string, i: nat, w: Walk)
    requires i < |text| && Tidy(w, i) && KindOf(text[i]).Some?
    ensures Collect(text, [i], WalkFrom(text, i, Plain, w).ends) == SpanAt(text[i..])
  {
    hide Tidy, Close, Turn;
    var kind := KindOf(text[i]).value;
    var w' := Push(w, kind, i);
    PushTidy(w, kind, i);
    PushedOnTop(text, i, w);
    StackEnds(text, i + 1, Plain, w', kind, |w.Stack(kind)|);
    CollectOne(text, i, WalkFrom(text, i, Plain, w));
    hide WalkFrom, Walk.Stack, Push, StepWalk, Collect, End;
    assert text[i..][1..] == text[i + 1..] && text[i..][0] == text[i];
    var n := Close(text[i + 1..], Plain, kind, 1);
    if n.Some? {
      assert text[i..i + 1 + n.value] == text[i..][..n.value + 1];
    }
  }

  lemma {:induction false} CollectOne(text: string, i: nat, w: Walk)
    ensures Collect(text, [i], w.ends)
         == if End(w, i).Some? && i <= End(w, i).value <= |text| then [text[i..End(w, i).value]] else []
  {
    assert [i][1..] == [];
  }

  lemma {:induction false} PushedOnTop(text: string, i: nat, w: Walk)
    requires i < |text| && KindOf(text[i]).Some?
    ensures var kind := KindOf(text[i]).value;
      var w' := Push(w, kind, i);
      && |w'.Stack(kind)| == |w.Stack(kind)| + 1 && w'.Stack(kind)[|w.Stack(kind)|] == i
      && WalkFrom(text, i, Plain, w) == WalkFrom(text, i + 1, Plain, w')
  {
  }

  /** Every balanced span, from one walk with a stack for each kind of bracket. */
  method BalancedSpans(text: string) returns (spans: seq<string>)
    ensures spans == Spans(text, Plain)
  {
    var starts: seq<nat>, braces: seq<nat>, brackets: seq<nat>, ends: map<nat, nat> := [], [], [], map[];
    var mode := Plain;
    ghost var whole := WalkFrom(text, 0, Plain, Walk([], [], [], map[]));
    for i := 0 to |text|
      invariant WalkFrom(text, i, mode, Walk(starts, braces, brackets, ends)) == whole
    {
      var ch := text[i];
      if Shows(mode, ch) {
        if ch == '{' {
          starts, braces := starts + [i], braces + [i];
        } else if ch == '[' {
          starts, brackets := starts + [i], brackets + [i];
        } else if ch == '}' && braces != [] {
          ends := ends[braces[|braces| - 1] := i + 1];
          braces := braces[..|braces| - 1];
        } else if ch == ']' && brackets != [] {
          ends := ends[brackets[|brackets| - 1] := i + 1];
          brackets := brackets[..|brackets| - 1];
        }
      }
      mode := Next(mode, ch);
    }
    spans := Collect(text, starts, ends);
    WalkStarts(text, 0, Plain, Walk([], [], [], map[]));
    WalkFindsSpans(text, 0, Plain, Walk([], [], [], map[]));
    assert text[0..] == text && [] + Openers(text, 0, Plain) == Openers(text, 0, Plain);
  }

  // ----- Unterminated -----

  /** How far all openers outrun all closers. */
  function Depth(s: string, mode: Mode): int {
    if s == "" then 0
    else Turn(Brace, mode, s[0]) + Turn(Bracket, mode, s[0]) + Depth(s[1..], Next(mode, s[0]))
  }

  predicate Unterminated(s: string) {
    Depth(s, Plain) > 0
  }

  method IsUnterminated(text: string) returns (open: bool)
    ensures open == Unterminated(text)
  {
    var depth, mode := 0, Plain;
    assert text[0..] == text;
    for i := 0 to |text|
      invariant depth + Depth(text[i..], mode) == Depth(text, Plain)
    {
      var ch := text[i];
      assert text[i..][0] == ch && text[i..][1..] == text[i + 1..];
      if Shows(mode, ch) {
        if ch == '{' || ch == '[' {
          depth := depth + 1;
        } else if ch == '}' || ch == ']' {
          depth := depth - 1;
        }
      }
      mode := Next(mode, ch);
    }
    open := depth > 0;
  }

  // ----- Trailing commas -----

  predicate ClosesNext(s: string) {
    s != "" && ClosedBy(s[0]).Some?
  }

  /** Commas outside strings that only whitespace parts from a closer are removed, with that whitespace. */
  function StripTrailingCommas(s: string, mode: Mode): string
    decreases |s|
  {
    StripLeftShorter(s);
    if s == "" then ""
    else if mode.Plain? && s[0] == ',' && ClosesNext(StripLeft(s[1..])) then
      StripLeftShorter(s[1..]);
      StripTrailingCommas(StripLeft(s[1..]), Plain)
    else [s[0]] + StripTrailingCommas(s[1..], Next(mode, s[0]))
  }

  lemma {:induction false} SpaceTurnsNothing(s: string)
    ensures Depth(StripLeft(s), Plain) == Depth(s, Plain)
    decreases |s|
  {
    if s != "" && IsSpace(s[0]) {
      SpaceTurnsNothing(s[1..]);
    }
  }

  /** Removing them opens and closes nothing. */
  lemma {:induction false} StrippedDepth(s: string, mode: Mode)
    ensures Depth(StripTrailingCommas(s, mode), mode) == Depth(s, mode)
    decreases |s|
  {
    if s != "" {
      if mode.Plain? && s[0] == ',' && ClosesNext(StripLeft(s[1..])) {
        StripLeftShorter(s[1..]);
        StrippedDepth(StripLeft(s[1..]), Plain);
        SpaceTurnsNothing(s[1..]);
      } else {
        StrippedDepth(s[1..], Next(mode, s[0]));
      }
    }
  }

  /** A comma outside strings that only whitespace parts from a closer. */
  predicate Trailing(s: string, mode: Mode) {
    s != "" && ((mode.Plain? && CommaThenCloser(s)) || Trailing(s[1..], Next(mode, s[0])))
  }

  predicate CommaThenCloser(s: string) {
    s != "" && s[0] == ',' && ClosesNext(StripLeft(s[1..]))
  }

  /** A comma outside strings that only whitespace parts from a second one, and that only whitespace
      parts from a closer. */
  predicate TwoTrailing(s: string, mode: Mode) {
    s != "" && ((mode.Plain? && s[0] == ',' && CommaThenCloser(StripLeft(s[1..]))) || TwoTrailing(s[1..], Next(mode, s[0])))
  }

  lemma {:induction false} SpaceIsNeither(s: string)
    ensures TwoTrailing(StripLeft(s), Plain) == TwoTrailing(s, Plain)
    decreases |s|
  {
    hide CommaThenCloser;
    if s != "" && IsSpace(s[0]) {
      SpaceIsNeither(s[1..]);
    }
  }

  lemma {:induction false} NoSpaceFirst(s: string)
    ensures StripLeft(s) != "" ==> !IsSpace(StripLeft(s)[0])
  {
    if s != "" && IsSpace(s[0]) {
      NoSpaceFirst(s[1..]);
    }
  }

  /** Leading whitespace stays in front of what is stripped. */
  lemma {:induction false} SpaceStays(s: string)
    ensures StripLeft(StripTrailingCommas(s, Plain)) == StripLeft(StripTrailingCommas(StripLeft(s), Plain))
    decreases |s|
  {
    if s != "" && IsSpace(s[0]) {
      SpaceStays(s[1..]);
      assert StripTrailingCommas(s, Plain) == [s[0]] + StripTrailingCommas(s[1..], Plain);
    }
  }

  /** A closer comes first after the pass where one came first, or a trailing comma did. */
  lemma {:induction false} CloserAfter(s: string)
    requires !ClosesNext(StripLeft(s))
    ensures ClosesNext(StripLeft(StripTrailingCommas(s, Plain))) <==> CommaThenCloser(StripLeft(s))
  {
    SpaceStays(s);
    NoSpaceFirst(s);
    var r := StripLeft(s);
    if CommaThenCloser(r) {
      var closed := StripLeft(r[1..]);
      StripLeftShorter(r[1..]);
      assert StripTrailingCommas(r, Plain) == StripTrailingCommas(closed, Plain);
      assert StripTrailingCommas(closed, Plain)[0] == closed[0];
    } else if r != "" {
      assert StripTrailingCommas(r, Plain)[0] == r[0];
    }
  }

  /** After one pass a trailing comma is left exactly where two stood in a row. */
  lemma {:induction false} LeftAfterPass(s: string, mode: Mode)
    ensures Trailing(StripTrailingCommas(s, mode), mode) <==> TwoTrailing(s, mode)
    decreases |s|
  {
    if s != "" {
      if mode.Plain? && CommaThenCloser(s) {
        var closed := StripLeft(s[1..]);
        StripLeftShorter(s[1..]);
        LeftAfterPass(closed, Plain);
        SpaceIsNeither(s[1..]);
        hide Trailing;
        assert StripTrailingCommas(s, mode) == StripTrailingCommas(closed, Plain);
        assert !CommaThenCloser(closed);
      } else {
        var rest := StripTrailingCommas(s[1..], Next(mode, s[0]));
        LeftAfterPass(s[1..], Next(mode, s[0]));
        assert StripTrailingCommas(s, mode) == [s[0]] + rest;
        assert ([s[0]] + rest)[1..] == rest;
        if mode.Plain? && s[0] == ',' {
          CloserAfter(s[1..]);
        }
      }
    }
  }

  /** A pass shortens a text with a trailing comma and leaves any other alone. */
  lemma {:induction false} PassTakes(s: string, mode: Mode)
    ensures |StripTrailingCommas(s, mode)| <= |s|
    ensures if Trailing(s, mode) then |StripTrailingCommas(s, mode)| < |s| else StripTrailingCommas(s, mode) == s
    decreases |s|
  {
    if s != "" {
      if mode.Plain? && CommaThenCloser(s) {
        StripLeftShorter(s[1..]);
        PassTakes(StripLeft(s[1..]), Plain);
      } else {
        PassTakes(s[1..], Next(mode, s[0]));
        assert s == [s[0]] + s[1..];
      }
    }
  }

  /** One pass is enough exactly when no two trailing commas stood in a row: then no trailing comma is left,
      and a second pass changes nothing. */
  lemma {:induction false} OnePassIsEnough(s: string)
    ensures var once := StripTrailingCommas(s, Plain);
      && (!Trailing(once, Plain) <==> !TwoTrailing(s, Plain))
      && (StripTrailingCommas(once, Plain) == once <==> !TwoTrailing(s, Plain))
  {
    hide *;
    LeftAfterPass(s, Plain);
    PassTakes(StripTrailingCommas(s, Plain), Plain);
  }
}
