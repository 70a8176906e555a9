/** engine/compress.py, expand_hunks: how far each hunk is padded, and which hunks become one. */
module ExpandWindows {
  import opened Text
  import opened DiffParse
  import opened Geometry
  import opened Expand
  import opened ExpandProofs

  // ----- What is asked for, said without the code's own arithmetic -----

  /** The definition holds the line, and starts at most forty lines above it. */
  predicate Encloses(span: Span, line: int) {
    span.0 <= line <= span.1 && line - span.0 <= 40
  }

  /** How far above the line the innermost definition that encloses it starts; 0 when none does. */
  predicate Reach(spans: seq<Span>, line: int, reach: nat) {
    if forall i :: 0 <= i < |spans| ==> !Encloses(spans[i], line) then reach == 0
    else
      && (exists i :: 0 <= i < |spans| && Encloses(spans[i], line) && line - spans[i].0 == reach)
      && (forall i :: 0 <= i < |spans| && Encloses(spans[i], line) ==> reach <= line - spans[i].0)
  }

  lemma {:induction false} ReachIs(spans: seq<Span>, line: int) returns (reach: nat)
    requires Spans(spans)
    ensures Reach(spans, line, reach)
    ensures Enclosing(spans, line) == Some(line - reach) || (reach == 0 && Enclosing(spans, line).None?)
  {
    EnclosingIsInnermost(spans, line);
    assert forall i :: 0 <= i < |spans| ==> (Contains(spans[i], line) <==> Encloses(spans[i], line));
    match Enclosing(spans, line)
    case None => reach := 0;
    case Some(start) =>
      var i :| 0 <= i < |spans| && spans[i].0 == start && Contains(spans[i], line);
      reach := line - start;
  }

  lemma {:induction false} ReachIsOne(spans: seq<Span>, line: int, a: nat, b: nat)
    requires Reach(spans, line, a) && Reach(spans, line, b)
    ensures a == b
  {
  }

  /** The lines of padding a hunk asks for above it: n, or as many as reach the definition around it, but
      never past the first line of either file. */
  function Asked(h: Hunk, n: nat, reach: nat): (pad: int) {
    Min(Max(Min(n, h.FirstNew() - 1), reach), h.FirstOld() - 1)
  }

  /** The last line of the padding below a hunk: after lines on, or where the head text ends. */
  function PadEnd(h: Hunk, length: nat, after: nat): int {
    Min(length, h.EndNew() - 1 + after)
  }

  /** Two neighbours are printed as one: the padding of the second reaches down to that of the first or the
      line after it, and the head text has every line between them. */
  ghost predicate Touch(prev: Hunk, next: Hunk, length: nat, n: nat, after: nat, spans: seq<Span>) {
    && (exists reach: nat :: Reach(spans, next.FirstNew(), reach)
          && next.FirstNew() - Asked(next, n, reach) <= PadEnd(prev, length, after) + 1)
    && next.FirstNew() - 1 <= length
  }

  function JoinRuns(runs: seq<seq<Hunk>>): seq<Hunk> {
    if runs == [] then [] else runs[0] + JoinRuns(runs[1..])
  }

  /** Within a run each hunk touches the next, and the last of a run does not touch the first of the next. */
  ghost predicate MaximalRuns(runs: seq<seq<Hunk>>, length: nat, n: nat, after: nat, spans: seq<Span>) {
    && (forall i :: 0 <= i < |runs| ==> runs[i] != [])
    && (forall i, k :: 0 <= i < |runs| && 0 < k < |runs[i]| ==> Touch(runs[i][k - 1], runs[i][k], length, n, after, spans))
    && (forall i :: 0 < i < |runs| ==> !Touch(Last(runs[i - 1]), runs[i][0], length, n, after, spans))
  }

  /** The pad above a run starts where its first hunk asks, but below the pad of the run before it; of that, as
      many lines are printed as the head text has. */
  function PrintedAbove(h: Hunk, above: Option<Hunk>, length: nat, n: nat, after: nat, reach: nat): int {
    var asked := h.FirstNew() - Asked(h, n, reach);
    var top := if above.Some? then Max(asked, PadEnd(above.value, length, after) + 1) else asked;
    Max(0, Min(h.FirstNew(), length + 1) - top)
  }

  /** The printed hunk covers its run, the pad above it and the pad below it, on both sides. */
  ghost predicate Window(r: Hunk, run: seq<Hunk>, above: Option<Hunk>, length: nat, n: nat, after: nat, spans: seq<Span>)
    requires run != []
  {
    exists reach: nat :: Reach(spans, run[0].FirstNew(), reach) &&
      var lead, trail := PrintedAbove(run[0], above, length, n, after, reach), Max(0, PadEnd(Last(run), length, after) - (Last(run).EndNew() - 1));
      && r.header.section == run[0].header.section
      && r.header.newStart == run[0].FirstNew() - lead && r.header.oldStart == run[0].FirstOld() - lead
      && r.header.newStart + r.header.newLen == Last(run).EndNew() + trail
      && r.header.oldStart + r.header.oldLen == Last(run).EndOld() + trail
  }

  /** The last hunk of the run before. */
  function AboveRun(runs: seq<seq<Hunk>>, i: nat): Option<Hunk>
    requires i <= |runs|
  {
    if i == 0 || runs[i - 1] == [] then None else Some(Last(runs[i - 1]))
  }

  ghost predicate WindowAt(rs: seq<Hunk>, runs: seq<seq<Hunk>>, i: nat, length: nat, n: nat, after: nat, spans: seq<Span>)
    requires i < |rs| == |runs|
  {
    runs[i] != [] && Window(rs[i], runs[i], AboveRun(runs, i), length, n, after, spans)
  }

  ghost predicate Windows(rs: seq<Hunk>, runs: seq<seq<Hunk>>, length: nat, n: nat, after: nat, spans: seq<Span>) {
    |rs| == |runs| && forall i :: 0 <= i < |rs| ==> WindowAt(rs, runs, i, length, n, after, spans)
  }

  // ----- The code's arithmetic comes to that -----

  lemma {:induction false} LeadIsAsked(h: Hunk, n: nat, spans: seq<Span>, reach: nat)
    requires Spans(spans) && Sound(h) && Reach(spans, h.FirstNew(), reach)
    ensures LeadStart(h, n, spans) == h.FirstNew() - Asked(h, n, reach)
  {
    SoundStarts(h);
    var r := ReachIs(spans, h.FirstNew());
    ReachIsOne(spans, h.FirstNew(), r, reach);
    hide Enclosing, Reach, Sound;
  }

  predicate Meets(prev: Hunk, next: Hunk, length: nat, n: nat, after: nat, spans: seq<Span>) {
    LeadStart(next, n, spans) <= TrailEnd(prev, length, after) + 1 && next.FirstNew() - 1 <= length
  }

  lemma {:induction false} MeetsIsTouch(prev: Hunk, next: Hunk, length: nat, n: nat, after: nat, spans: seq<Span>)
    requires Spans(spans) && Sound(next)
    ensures Meets(prev, next, length, n, after, spans) <==> Touch(prev, next, length, n, after, spans)
  {
    var reach := ReachIs(spans, next.FirstNew());
    LeadIsAsked(next, n, spans, reach);
    hide LeadStart, Reach, Sound, Asked;
    if Touch(prev, next, length, n, after, spans) {
      var r: nat :| Reach(spans, next.FirstNew(), r) && next.FirstNew() - Asked(next, n, r) <= PadEnd(prev, length, after) + 1;
      ReachIsOne(spans, next.FirstNew(), r, reach);
    }
  }

  // ----- Grouping -----

  function LeadOf(h: Hunk, above: Option<Hunk>, length: nat, n: nat, after: nat, spans: seq<Span>): int {
    if above.None? then LeadStart(h, n, spans) else Max(LeadStart(h, n, spans), TrailEnd(above.value, length, after) + 1)
  }

  /** The hunk that a group appended to these would have above it. */
  function LastOf(groups: seq<Group>): Option<Hunk>
    requires NonEmptyGroups(groups)
  {
    if groups == [] then None else Some(Last(Last(groups).hunks))
  }

  predicate RunMeets(hs: seq<Hunk>, length: nat, n: nat, after: nat, spans: seq<Span>) {
    forall k :: 0 < k < |hs| ==> Meets(hs[k - 1], hs[k], length, n, after, spans)
  }

  /** The last group goes on from those before it. */
  predicate GoesOn(front: seq<Group>, g: Group, length: nat, n: nat, after: nat, spans: seq<Span>)
    requires NonEmptyGroups(front)
  {
    && g.hunks != [] && RunMeets(g.hunks, length, n, after, spans)
    && (front != [] ==> !Meets(LastOf(front).value, g.hunks[0], length, n, after, spans))
    && g.leadStart == LeadOf(g.hunks[0], LastOf(front), length, n, after, spans)
  }

  predicate Formed(groups: seq<Group>, length: nat, n: nat, after: nat, spans: seq<Span>) {
    && NonEmptyGroups(groups)
    && forall i :: 0 <= i < |groups| ==> FormedAt(groups, i, length, n, after, spans)
  }

  predicate FormedAt(groups: seq<Group>, i: nat, length: nat, n: nat, after: nat, spans: seq<Span>)
    requires NonEmptyGroups(groups) && i < |groups|
  {
    GoesOn(groups[..i], groups[i], length, n, after, spans)
  }

  lemma {:induction false} FormedSnoc(front: seq<Group>, g: Group, length: nat, n: nat, after: nat, spans: seq<Span>)
    requires Formed(front, length, n, after, spans) && GoesOn(front, g, length, n, after, spans)
    ensures Formed(front + [g], length, n, after, spans)
  {
    hide GoesOn;
    var groups := front + [g];
    assert NonEmptyGroups(groups) by { GoesOnNonEmpty(front, g, length, n, after, spans); }
    forall i | 0 <= i < |groups| ensures FormedAt(groups, i, length, n, after, spans) {
      if i < |front| {
        assert groups[..i] == front[..i] && FormedAt(front, i, length, n, after, spans);
      } else {
        assert groups[..i] == front;
      }
    }
  }

  lemma {:induction false} GoesOnNonEmpty(front: seq<Group>, g: Group, length: nat, n: nat, after: nat, spans: seq<Span>)
    requires NonEmptyGroups(front) && GoesOn(front, g, length, n, after, spans)
    ensures g.hunks != []
  {
  }

  lemma {:induction false} FormedFront(groups: seq<Group>, length: nat, n: nat, after: nat, spans: seq<Span>)
    requires groups != [] && Formed(groups, length, n, after, spans)
    ensures Formed(groups[..|groups| - 1], length, n, after, spans)
    ensures GoesOn(groups[..|groups| - 1], Last(groups), length, n, after, spans)
  {
    hide GoesOn;
    var front := groups[..|groups| - 1];
    assert FormedAt(groups, |groups| - 1, length, n, after, spans);
    forall i | 0 <= i < |front| ensures FormedAt(front, i, length, n, after, spans) {
      assert front[..i] == groups[..i] && FormedAt(groups, i, length, n, after, spans);
    }
  }

  lemma {:induction false} JoinedGoesOn(front: seq<Group>, g: Group, h: Hunk, length: nat, n: nat, after: nat, spans: seq<Span>)
    requires NonEmptyGroups(front) && GoesOn(front, g, length, n, after, spans) && Meets(Last(g.hunks), h, length, n, after, spans)
    ensures GoesOn(front, Group(g.hunks + [h], g.leadStart), length, n, after, spans)
  {
    hide Meets, LeadOf;
    var joined := g.hunks + [h];
    forall k | 0 < k < |joined| ensures Meets(joined[k - 1], joined[k], length, n, after, spans) {
      if k < |g.hunks| {
        assert Meets(g.hunks[k - 1], g.hunks[k], length, n, after, spans);
      }
    }
  }

  lemma {:induction false} OpenedGoesOn(groups: seq<Group>, h: Hunk, length: nat, n: nat, after: nat, spans: seq<Span>)
    requires NonEmptyGroups(groups) && (groups != [] ==> !Meets(LastOf(groups).value, h, length, n, after, spans))
    ensures GoesOn(groups, Group([h], LeadOf(h, LastOf(groups), length, n, after, spans)), length, n, after, spans)
  {
  }

  lemma {:induction false} AddHunkIs(groups: seq<Group>, h: Hunk, length: nat, n: nat, after: nat, spans: seq<Span>)
    requires NonEmptyGroups(groups)
    ensures AddHunk(groups, h, length, n, after, spans) ==
      if groups != [] && Meets(LastOf(groups).value, h, length, n, after, spans)
      then groups[..|groups| - 1] + [Group(Last(groups).hunks + [h], Last(groups).leadStart)]
      else groups + [Group([h], LeadOf(h, LastOf(groups), length, n, after, spans))]
  {
    hide LeadStart, TrailEnd;
    assert groups == [] ==> groups + [Group([h], LeadStart(h, n, spans))] == [Group([h], LeadStart(h, n, spans))];
  }

  lemma {:induction false} AddHunkForms(groups: seq<Group>, h: Hunk, length: nat, n: nat, after: nat, spans: seq<Span>)
    requires Formed(groups, length, n, after, spans)
    ensures NonEmptyGroups(groups) && Formed(AddHunk(groups, h, length, n, after, spans), length, n, after, spans)
  {
    FormedIsNonEmpty(groups, length, n, after, spans);
    AddHunkIs(groups, h, length, n, after, spans);
    hide *;
    if groups != [] {
      FormedFront(groups, length, n, after, spans);
      var front, g := groups[..|groups| - 1], Last(groups);
      FormedIsNonEmpty(front, length, n, after, spans);
      GoesOnNonEmpty(front, g, length, n, after, spans);
      LastOfIs(groups);
      if Meets(Last(g.hunks), h, length, n, after, spans) {
        JoinedGoesOn(front, g, h, length, n, after, spans);
        FormedSnoc(front, Group(g.hunks + [h], g.leadStart), length, n, after, spans);
      } else {
        OpenedGoesOn(groups, h, length, n, after, spans);
        FormedSnoc(groups, Group([h], LeadOf(h, LastOf(groups), length, n, after, spans)), length, n, after, spans);
      }
    } else {
      OpenedGoesOn(groups, h, length, n, after, spans);
      FormedSnoc(groups, Group([h], LeadOf(h, LastOf(groups), length, n, after, spans)), length, n, after, spans);
    }
  }

  lemma {:induction false} LastOfIs(groups: seq<Group>)
    requires NonEmptyGroups(groups) && groups != []
    ensures Last(groups).hunks != [] && LastOf(groups) == Some(Last(Last(groups).hunks))
  {
  }

  lemma {:induction false} GroupingForms(groups: seq<Group>, hs: seq<Hunk>, length: nat, n: nat, after: nat, spans: seq<Span>)
    requires Formed(groups, length, n, after, spans)
    ensures NonEmptyGroups(groups) && Formed(GroupFrom(groups, hs, length, n, after, spans), length, n, after, spans)
    decreases |hs|
  {
    FormedIsNonEmpty(groups, length, n, after, spans);
    hide Formed, AddHunk, NonEmptyGroups;
    if hs != [] {
      AddHunkForms(groups, hs[0], length, n, after, spans);
      GroupingForms(AddHunk(groups, hs[0], length, n, after, spans), hs[1..], length, n, after, spans);
    }
  }

  lemma {:induction false} FormedIsNonEmpty(groups: seq<Group>, length: nat, n: nat, after: nat, spans: seq<Span>)
    requires Formed(groups, length, n, after, spans)
    ensures NonEmptyGroups(groups)
  {
  }

  /** What stands above group i. */
  function AboveAt(groups: seq<Group>, i: nat): Option<Hunk>
    requires NonEmptyGroups(groups) && i <= |groups|
  {
    LastOf(groups[..i])
  }

  lemma {:induction false} FormedParts(groups: seq<Group>, i: nat, length: nat, n: nat, after: nat, spans: seq<Span>)
    requires Formed(groups, length, n, after, spans) && i < |groups|
    ensures groups[i].hunks != [] && RunMeets(groups[i].hunks, length, n, after, spans)
    ensures i > 0 ==> groups[i - 1].hunks != [] && !Meets(Last(groups[i - 1].hunks), groups[i].hunks[0], length, n, after, spans)
    ensures groups[i].leadStart == LeadOf(groups[i].hunks[0], AboveAt(groups, i), length, n, after, spans)
    ensures AboveAt(groups, i) == if i == 0 then None else Some(Last(groups[i - 1].hunks))
  {
    hide Meets, LeadOf, RunMeets;
    assert FormedAt(groups, i, length, n, after, spans);
    if i > 0 {
      assert Last(groups[..i]) == groups[i - 1];
    }
  }

  function RunsOf(groups: seq<Group>): (runs: seq<seq<Hunk>>)
    ensures |runs| == |groups| && forall i :: 0 <= i < |runs| ==> runs[i] == groups[i].hunks
  {
    if groups == [] then [] else [groups[0].hunks] + RunsOf(groups[1..])
  }

  lemma {:induction false} RunsAreFlat(groups: seq<Group>)
    ensures JoinRuns(RunsOf(groups)) == Flat(groups)
  {
    if groups != [] {
      RunsAreFlat(groups[1..]);
      assert RunsOf(groups)[1..] == RunsOf(groups[1..]);
    }
  }

  lemma {:induction false} SoundIn(groups: seq<Group>, i: nat, k: nat)
    requires i < |groups| && k < |groups[i].hunks| && AllSound(Flat(groups))
    ensures Sound(groups[i].hunks[k])
    decreases i
  {
    hide Sound;
    var first := groups[0].hunks;
    assert forall j :: 0 <= j < |first| ==> Flat(groups)[j] == first[j];
    if i > 0 {
      assert forall j :: 0 <= j < |Flat(groups[1..])| ==> Flat(groups)[|first| + j] == Flat(groups[1..])[j];
      SoundIn(groups[1..], i - 1, k);
    }
  }

  lemma {:induction false} FormedRuns(groups: seq<Group>, length: nat, n: nat, after: nat, spans: seq<Span>)
    requires Spans(spans) && Formed(groups, length, n, after, spans) && AllSound(Flat(groups))
    ensures MaximalRuns(RunsOf(groups), length, n, after, spans)
  {
    hide Meets, Touch, Sound, AllSound, Flat, Formed, LeadOf, AboveAt;
    var runs := RunsOf(groups);
    forall i | 0 <= i < |runs| ensures runs[i] != [] {
      FormedParts(groups, i, length, n, after, spans);
    }
    forall i, k | 0 <= i < |runs| && 0 < k < |runs[i]| ensures Touch(runs[i][k - 1], runs[i][k], length, n, after, spans) {
      FormedParts(groups, i, length, n, after, spans);
      SoundIn(groups, i, k);
      MeetsIsTouch(runs[i][k - 1], runs[i][k], length, n, after, spans);
    }
    forall i | 0 < i < |runs| ensures !Touch(Last(runs[i - 1]), runs[i][0], length, n, after, spans) {
      FormedParts(groups, i, length, n, after, spans);
      SoundIn(groups, i, 0);
      MeetsIsTouch(Last(runs[i - 1]), runs[i][0], length, n, after, spans);
    }
  }

  lemma {:induction false} LeadingIs(g: Group, above: Option<Hunk>, content: seq<string>, n: nat, after: nat, spans: seq<Span>, reach: nat)
    requires Spans(spans) && ReadyGroup(g, |content|) && g.leadStart == LeadOf(g.hunks[0], above, |content|, n, after, spans)
    requires Reach(spans, g.hunks[0].FirstNew(), reach)
    ensures |Leading(g, content)| == PrintedAbove(g.hunks[0], above, |content|, n, after, reach)
  {
    var h := g.hunks[0];
    assert Sound(h);
    LeadIsAsked(h, n, spans, reach);
    LeadingLength(g, content);
    hide Leading, LeadStart, Reach, Asked, Sound, Chained, ReadyGroup;
  }

  lemma {:induction false} TrailingIs(g: Group, content: seq<string>, after: nat)
    requires ReadyGroup(g, |content|)
    ensures |Trailing(g, content, after)| == Max(0, PadEnd(Last(g.hunks), |content|, after) - (Last(g.hunks).EndNew() - 1))
  {
    TrailingLength(g, content, after);
    hide Trailing, ReadyGroup;
  }

  lemma {:induction false} RenderedSection(g: Group, content: seq<string>, after: nat)
    requires LeadInside(g)
    ensures RenderGroup(g, content, after).header.section == g.hunks[0].header.section
  {
  }

  lemma {:induction false} RenderedWindow(g: Group, above: Option<Hunk>, content: seq<string>, n: nat, after: nat, spans: seq<Span>)
    requires Spans(spans) && ReadyGroup(g, |content|) && g.leadStart == LeadOf(g.hunks[0], above, |content|, n, after, spans)
    ensures Window(RenderGroup(g, content, after), g.hunks, above, |content|, n, after, spans)
  {
    assert LeadInside(g);
    var reach := ReachIs(spans, g.hunks[0].FirstNew());
    LeadingIs(g, above, content, n, after, spans, reach);
    TrailingIs(g, content, after);
    RenderKeepsChanges("", g, content, after);
    RenderedSection(g, content, after);
    hide Leading, Trailing, RenderGroup, LeadStart, Reach, Asked, Sound, Chained, ReadyGroup, PrintedAbove, PadEnd, LeadOf;
  }

  lemma {:induction false} RenderedAtIs(groups: seq<Group>, i: nat, content: seq<string>, after: nat)
    requires ReadyGroups(groups, |content|, after) && i < |groups|
    ensures LeadsInside(groups) && ReadyGroup(groups[i], |content|)
    ensures RenderGroups(groups, content, after)[i] == RenderGroup(groups[i], content, after)
    decreases i
  {
    hide ReadyGroup, RenderGroup, Grouped, LeadInside;
    ReadyBelow(groups, |content|, after);
    if i > 0 {
      RenderedAtIs(groups[1..], i - 1, content, after);
    }
  }

  lemma {:induction false} HunksInWindows(hs: seq<Hunk>, content: seq<string>, n: nat, after: nat, spans: seq<Span>) returns (runs: seq<seq<Hunk>>)
    requires Spans(spans) && Chained(hs)
    ensures JoinRuns(runs) == hs && MaximalRuns(runs, |content|, n, after, spans)
    ensures Windows(ExpandedHunks(hs, content, n, after, spans), runs, |content|, n, after, spans)
  {
    hide Formed, MaximalRuns, Window, ReadyGroups, Chained, AllSound, Flat, GroupFrom, LeadOf, AboveAt, RunMeets, RenderGroups, Meets;
    var groups := GroupFrom([], hs, |content|, n, after, spans);
    runs := RunsOf(groups);
    GroupsReady(hs, |content|, n, after, spans);
    GroupsLeadInside([], hs, |content|, n, after, spans);
    NothingFormed(|content|, n, after, spans);
    GroupingForms([], hs, |content|, n, after, spans);
    ChainedIsSound(hs);
    FormedRuns(groups, |content|, n, after, spans);
    RunsAreFlat(groups);
    var rs := RenderGroups(groups, content, after);
    assert rs == ExpandedHunks(hs, content, n, after, spans);
    forall i | 0 <= i < |rs| ensures WindowAt(rs, runs, i, |content|, n, after, spans) {
      FormedParts(groups, i, |content|, n, after, spans);
      RenderedAtIs(groups, i, content, after);
      RenderedWindow(groups[i], AboveRun(runs, i), content, n, after, spans);
    }
  }

  lemma {:induction false} NothingFormed(length: nat, n: nat, after: nat, spans: seq<Span>)
    ensures Formed([], length, n, after, spans)
  {
  }

  /** There is text to pad with and a pad to fill. */
  predicate Pads(pad: Padding) {
    pad.n > 0 && pad.head.Some? && pad.head.value != ""
  }

  /** What an expanded patch shows, for any head text: its hunks are the maximal runs of hunks whose padding
      touches over lines the head text has, each printed as the run, the padding its first hunk asks for above it
      clear of the run before, and the padding below it. With no text or no budget the patch stays as it is. */
  lemma {:induction false} ExpandedShowsWindows(patch: string, pad: Padding) returns (runs: seq<seq<Hunk>>)
    requires pad.Valid() && WellFormedPatch(Lines(patch))
    ensures !Pads(pad) ==> ExpandPatch(patch, pad) == patch
    ensures Pads(pad) ==>
      var length, after := |Lines(pad.head.value)|, Max(0, pad.after);
      && JoinRuns(runs) == ParseHunks(Lines(patch)).hunks && MaximalRuns(runs, length, pad.n, after, pad.spans)
      && Windows(ParseHunks(Lines(ExpandPatch(patch, pad))).hunks, runs, length, pad.n, after, pad.spans)
  {
    runs := [];
    hide WellFormedPatch, Chained, ExpandedHunks, MaximalRuns, Windows, AllHunkLines;
    var hs := ParseHunks(Lines(patch)).hunks;
    WellFormedParts(Lines(patch));
    if Pads(pad) {
      if hs == [] {
        NoRuns(|pad.Content()|, pad.n, Max(0, pad.after), pad.spans);
      } else {
        ExpandedTextParses(patch, pad);
        runs := HunksInWindows(hs, pad.Content(), pad.n, Max(0, pad.after), pad.spans);
      }
    }
  }

  lemma {:induction false} NoRuns(length: nat, n: nat, after: nat, spans: seq<Span>)
    ensures JoinRuns([]) == [] && MaximalRuns([], length, n, after, spans) && Windows([], [], length, n, after, spans)
  {
  }

  /** In particular the first hunk, when the head text reaches it, is printed with all the padding it asks for. */
  lemma {:induction false} FirstHunkPadded(patch: string, pad: Padding, reach: nat)
    requires pad.Valid() && WellFormedPatch(Lines(patch)) && Pads(pad) && ParseHunks(Lines(patch)).hunks != []
    requires var h := ParseHunks(Lines(patch)).hunks[0];
      h.FirstNew() - 1 <= |Lines(pad.head.value)| && Reach(pad.spans, h.FirstNew(), reach)
    ensures var h, rs := ParseHunks(Lines(patch)).hunks[0], ParseHunks(Lines(ExpandPatch(patch, pad))).hunks;
      rs != [] && rs[0].header.newStart == h.FirstNew() - Asked(h, pad.n, reach) && rs[0].header.oldStart == h.FirstOld() - Asked(h, pad.n, reach)
  {
    hide Reach, Spans, MaximalRuns, Windows, WellFormedPatch, ExpandPatch, ParseHunks, Lines, Asked;
    var runs := ExpandedShowsWindows(patch, pad);
    var hs, rs := ParseHunks(Lines(patch)).hunks, ParseHunks(Lines(ExpandPatch(patch, pad))).hunks;
    WellFormedParts(Lines(patch));
    FirstRun(hs, runs, |Lines(pad.head.value)|, pad.n, Max(0, pad.after), pad.spans);
    FirstWindow(rs, runs, |Lines(pad.head.value)|, pad.n, Max(0, pad.after), pad.spans, reach);
  }

  lemma {:induction false} FirstRun(hs: seq<Hunk>, runs: seq<seq<Hunk>>, length: nat, n: nat, after: nat, spans: seq<Span>)
    requires Chained(hs) && hs != [] && JoinRuns(runs) == hs && MaximalRuns(runs, length, n, after, spans)
    ensures runs != [] && runs[0] != [] && runs[0][0] == hs[0] && 1 <= hs[0].FirstNew() && 1 <= hs[0].FirstOld()
  {
    hide Touch;
    assert Sound(hs[0]);
    SoundStarts(hs[0]);
  }

  lemma {:induction false} FirstWindow(rs: seq<Hunk>, runs: seq<seq<Hunk>>, length: nat, n: nat, after: nat, spans: seq<Span>, reach: nat)
    requires runs != [] && runs[0] != [] && Windows(rs, runs, length, n, after, spans)
    requires var h := runs[0][0]; 1 <= h.FirstNew() <= length + 1 && 1 <= h.FirstOld() && Reach(spans, h.FirstNew(), reach)
    ensures var h := runs[0][0];
      rs != [] && rs[0].header.newStart == h.FirstNew() - Asked(h, n, reach) && rs[0].header.oldStart == h.FirstOld() - Asked(h, n, reach)
  {
    var h := runs[0][0];
    assert WindowAt(rs, runs, 0, length, n, after, spans);
    hide Reach;
    var r: nat :| Reach(spans, h.FirstNew(), r) &&
      rs[0].header.newStart == h.FirstNew() - PrintedAbove(h, None, length, n, after, r)
      && rs[0].header.oldStart == h.FirstOld() - PrintedAbove(h, None, length, n, after, r);
    ReachIsOne(spans, h.FirstNew(), r, reach);
  }
}
