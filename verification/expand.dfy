/** engine/compress.py, expand_hunks: padding each hunk with head text and merging the hunks
    whose padded windows touch. */
module Expand {
  import opened Text
  import opened DiffParse
  import opened Geometry

  const MAX_CONTEXT_LINES := 20
  const MAX_BOUNDARY_REACH := 2 * MAX_CONTEXT_LINES

  // ----- Where the leading pad may reach back to -----

  type Span = (int, int)

  /** Definition spans as the boundary scanner reports them: 1-based, sorted by start. */
  predicate Spans(spans: seq<Span>) {
    && (forall i :: 0 <= i < |spans| ==> 1 <= spans[i].0)
    && (forall i, j :: 0 <= i < j < |spans| ==> spans[i].0 <= spans[j].0)
  }

  /** bisect_right on the starts of sorted spans: how many start at or before x. */
  function BisectRight(spans: seq<Span>, x: int): (k: nat)
    ensures k <= |spans|
    ensures forall i :: 0 <= i < k ==> spans[i].0 <= x
    ensures k < |spans| ==> x < spans[k].0
  {
    if spans == [] || x < spans[0].0 then 0 else 1 + BisectRight(spans[1..], x)
  }

  function EnclosingAmong(spans: seq<Span>, newStart: int, k: nat): Option<int>
    requires k <= |spans|
  {
    if k == 0 then None
    else
      var (start, end) := spans[k - 1];
      if newStart - start > MAX_BOUNDARY_REACH then None
      else if end >= newStart then Some(start)
      else EnclosingAmong(spans, newStart, k - 1)
  }

  /** _enclosing_boundary */
  function Enclosing(spans: seq<Span>, newStart: int): Option<int> {
    EnclosingAmong(spans, newStart, BisectRight(spans, newStart))
  }

  method EnclosingBoundary(spans: seq<Span>, newStart: int) returns (r: Option<int>)
    ensures r == Enclosing(spans, newStart)
  {
    var idx: int := BisectRight(spans, newStart) - 1;
    while idx >= 0
      invariant -1 <= idx < |spans|
      invariant Enclosing(spans, newStart) == EnclosingAmong(spans, newStart, idx + 1)
    {
      var (start, end) := spans[idx];
      if newStart - start > MAX_BOUNDARY_REACH {
        return None;
      }
      if end >= newStart {
        return Some(start);
      }
      idx := idx - 1;
    }
    return None;
  }

  predicate Contains(span: Span, line: int) {
    span.0 <= line <= span.1 && line - span.0 <= MAX_BOUNDARY_REACH
  }

  lemma {:induction false} EnclosingAmongIsInnermost(spans: seq<Span>, newStart: int, k: nat)
    requires Spans(spans) && k <= |spans| && forall i :: 0 <= i < k ==> spans[i].0 <= newStart
    ensures match EnclosingAmong(spans, newStart, k)
      case Some(start) => exists i :: 0 <= i < k && spans[i].0 == start && Contains(spans[i], newStart)
                            && forall j :: 0 <= j < k && Contains(spans[j], newStart) ==> spans[j].0 <= start
      case None => forall j :: 0 <= j < k ==> !Contains(spans[j], newStart)
  {
    if k > 0 {
      EnclosingAmongIsInnermost(spans, newStart, k - 1);
      if Contains(spans[k - 1], newStart) {
        assert EnclosingAmong(spans, newStart, k) == Some(spans[k - 1].0);
      }
    }
  }

  /** The boundary is the start of the innermost definition containing the line and within reach;
      None exactly when no such definition exists. */
  lemma {:induction false} EnclosingIsInnermost(spans: seq<Span>, newStart: int)
    requires Spans(spans)
    ensures match Enclosing(spans, newStart)
      case Some(start) => exists i :: 0 <= i < |spans| && spans[i].0 == start && Contains(spans[i], newStart)
                            && forall j :: 0 <= j < |spans| && Contains(spans[j], newStart) ==> spans[j].0 <= start
      case None => forall j :: 0 <= j < |spans| ==> !Contains(spans[j], newStart)
  {
    EnclosingAmongIsInnermost(spans, newStart, BisectRight(spans, newStart));
  }

  /** _lead_start: the fixed pad, widened to an enclosing definition, clamped so that the old
      start stays at 1 or more. */
  function LeadStart(hunk: Hunk, n: int, spans: seq<Span>): int {
    var fixed := Max(1, hunk.FirstNew() - n);
    var enclosing := if spans == [] then None else Enclosing(spans, hunk.FirstNew());
    var widened := if enclosing.Some? && enclosing.value < fixed then enclosing.value else fixed;
    Max(widened, hunk.FirstNew() - (hunk.FirstOld() - 1))
  }

  // ----- Grouping -----

  datatype Group = Group(hunks: seq<Hunk>, leadStart: int)

  function LastNew(h: Hunk): int {
    h.EndNew() - 1
  }

  function TrailEnd(last: Hunk, length: nat, after: nat): int {
    Min(length, LastNew(last) + after)
  }

  predicate NonEmptyGroups(groups: seq<Group>) {
    forall i :: 0 <= i < |groups| ==> groups[i].hunks != []
  }

  /** What the group list becomes when the next hunk is taken in. */
  function AddHunk(groups: seq<Group>, hunk: Hunk, length: nat, n: int, after: nat, spans: seq<Span>): (result: seq<Group>)
    requires NonEmptyGroups(groups)
    ensures NonEmptyGroups(result)
  {
    var lead := LeadStart(hunk, n, spans);
    if groups == [] then [Group([hunk], lead)]
    else
      var g := groups[|groups| - 1];
      var trailEnd := TrailEnd(g.hunks[|g.hunks| - 1], length, after);
      var reaches := lead <= trailEnd + 1;
      if reaches && hunk.FirstNew() - 1 <= length then
        groups[..|groups| - 1] + [Group(g.hunks + [hunk], g.leadStart)]
      else
        groups + [Group([hunk], if reaches then Max(lead, trailEnd + 1) else lead)]
  }

  function GroupFrom(groups: seq<Group>, hunks: seq<Hunk>, length: nat, n: int, after: nat, spans: seq<Span>): seq<Group>
    requires NonEmptyGroups(groups)
    decreases |hunks|
  {
    if hunks == [] then groups
    else GroupFrom(AddHunk(groups, hunks[0], length, n, after, spans), hunks[1..], length, n, after, spans)
  }

  /** _group_hunks: a list whose last group grows in place. */
  method GroupHunks(hunks: seq<Hunk>, length: nat, n: int, after: nat, spans: seq<Span>) returns (groups: seq<Group>)
    ensures groups == GroupFrom([], hunks, length, n, after, spans)
  {
    hide LeadStart, TrailEnd;
    groups := [];
    for i := 0 to |hunks|
      invariant NonEmptyGroups(groups)
      invariant GroupFrom([], hunks, length, n, after, spans) == GroupFrom(groups, hunks[i..], length, n, after, spans)
    {
      var hunk := hunks[i];
      ghost var before := groups;
      var lead := LeadStart(hunk, n, spans);
      var joined := false;
      if groups != [] {
        var g := groups[|groups| - 1];
        var previous := g.hunks[|g.hunks| - 1];
        var trailEnd := TrailEnd(previous, length, after);
        var reaches := lead <= trailEnd + 1;
        var fillable := hunk.FirstNew() - 1 <= length;
        joined := reaches && fillable;
        if joined {
          groups := groups[..|groups| - 1] + [Group(g.hunks + [hunk], g.leadStart)];
        } else if reaches {
          lead := Max(lead, trailEnd + 1);
        }
      }
      if !joined {
        groups := groups + [Group([hunk], lead)];
      }
      assert groups == AddHunk(before, hunk, length, n, after, spans);
      assert hunks[i..][1..] == hunks[i + 1..];
    }
  }

  // ----- Rendering -----

  /** Head text as unchanged lines of a hunk. */
  function ContextLines(texts: seq<string>): (lines: seq<string>)
    ensures |lines| == |texts| && forall i :: 0 <= i < |lines| ==> lines[i] == [' '] + texts[i]
  {
    if texts == [] then [] else [[' '] + texts[0]] + ContextLines(texts[1..])
  }

  /** The head text between two hunks of one group. */
  function Gap(previous: Hunk, next: Hunk, content: seq<string>): seq<string> {
    Slice(content, LastNew(previous), next.FirstNew() - 1)
  }

  /** The bodies of a group's hunks with the gaps between them filled in. */
  function MergedBody(hunks: seq<Hunk>, content: seq<string>): seq<string> {
    if hunks == [] then []
    else if |hunks| == 1 then hunks[0].body
    else hunks[0].body + (ContextLines(Gap(hunks[0], hunks[1], content)) + MergedBody(hunks[1..], content))
  }

  function Leading(g: Group, content: seq<string>): seq<string>
    requires g.hunks != []
  {
    var leadEnd := Min(g.hunks[0].FirstNew(), |content| + 1);
    Slice(content, Min(g.leadStart, leadEnd) - 1, leadEnd - 1)
  }

  function Trailing(g: Group, content: seq<string>, after: nat): seq<string>
    requires g.hunks != []
  {
    var last := g.hunks[|g.hunks| - 1];
    Slice(content, LastNew(last), Min(|content|, LastNew(last) + after))
  }

  function RenderedBody(g: Group, content: seq<string>, after: nat): seq<string>
    requires g.hunks != []
  {
    ContextLines(Leading(g, content)) + MergedBody(g.hunks, content) + ContextLines(Trailing(g, content, after))
  }

  /** sum(1 for line in lines if line[:1] in {" ", marker, ""}) */
  function Occupying(lines: seq<string>, marker: char): nat {
    if lines == [] then 0
    else (if lines[0] == "" || lines[0][0] == ' ' || lines[0][0] == marker then 1 else 0) + Occupying(lines[1..], marker)
  }

  /** The pad stays inside both files: what _lead_start's two clamps are for. */
  predicate LeadInside(g: Group) {
    && g.hunks != []
    && 1 <= g.leadStart
    && g.hunks[0].FirstNew() - (g.hunks[0].FirstOld() - 1) <= g.leadStart
  }

  lemma {:induction false} LeadingFits(g: Group, content: seq<string>)
    requires LeadInside(g)
    ensures |Leading(g, content)| <= g.hunks[0].FirstNew()
    ensures |Leading(g, content)| <= g.hunks[0].FirstOld()
    ensures 1 <= g.hunks[0].FirstNew() ==> |Leading(g, content)| < g.hunks[0].FirstNew()
    ensures 1 <= g.hunks[0].FirstOld() ==> |Leading(g, content)| < g.hunks[0].FirstOld()
  {
  }

  /** _render_group */
  function RenderGroup(g: Group, content: seq<string>, after: nat): Hunk
    requires LeadInside(g)
  {
    LeadingFits(g, content);
    var lines := RenderedBody(g, content, after);
    var pad := |Leading(g, content)|;
    var first := g.hunks[0];
    Hunk(HunkHeader(first.FirstOld() - pad, Occupying(lines, '-'),
                    first.FirstNew() - pad, Occupying(lines, '+'), first.header.section),
         lines)
  }

  predicate LeadsInside(groups: seq<Group>) {
    forall i :: 0 <= i < |groups| ==> LeadInside(groups[i])
  }

  function RenderGroups(groups: seq<Group>, content: seq<string>, after: nat): (hs: seq<Hunk>)
    requires LeadsInside(groups)
    ensures |hs| == |groups|
  {
    if groups == [] then [] else [RenderGroup(groups[0], content, after)] + RenderGroups(groups[1..], content, after)
  }

  lemma {:induction false} LeadStartInside(hunk: Hunk, n: int, spans: seq<Span>)
    requires Spans(spans)
    ensures LeadInside(Group([hunk], LeadStart(hunk, n, spans)))
  {
    EnclosingIsInnermost(spans, hunk.FirstNew());
  }

  lemma {:induction false} GroupsLeadInside(groups: seq<Group>, hunks: seq<Hunk>, length: nat, n: int, after: nat, spans: seq<Span>)
    requires Spans(spans) && NonEmptyGroups(groups) && LeadsInside(groups)
    ensures LeadsInside(GroupFrom(groups, hunks, length, n, after, spans))
    decreases |hunks|
  {
    if hunks != [] {
      LeadStartInside(hunks[0], n, spans);
      GroupsLeadInside(AddHunk(groups, hunks[0], length, n, after, spans), hunks[1..], length, n, after, spans);
    }
  }

  /** The hunks of an expanded patch. */
  function ExpandedHunks(hunks: seq<Hunk>, content: seq<string>, n: int, after: nat, spans: seq<Span>): seq<Hunk>
    requires Spans(spans)
  {
    GroupsLeadInside([], hunks, |content|, n, after, spans);
    RenderGroups(GroupFrom([], hunks, |content|, n, after, spans), content, after)
  }

  /** The settings one call is made with; head is None when the host served no text. */
  datatype Padding = Padding(head: Option<string>, n: int, after: int, spans: seq<Span>) {
    predicate Valid() {
      Spans(spans)
    }

    predicate Off() {
      n <= 0 || head.None? || head.value == ""
    }

    function Content(): seq<string>
      requires !Off()
    {
      Lines(head.value)
    }
  }

  /** expand_hunks */
  function ExpandPatch(patch: string, pad: Padding): string
    requires pad.Valid()
  {
    var parsed := ParseHunks(Lines(patch));
    if pad.Off() || parsed.hunks == [] then patch
    else
      var hunks := ExpandedHunks(parsed.hunks, pad.Content(), pad.n, Max(0, pad.after), pad.spans);
      Unlines(parsed.preamble + AllHunkLines(hunks), true)
  }

  /** The body of a merged hunk: each hunk's lines, after the head text that parts it from the one before. */
  method MergeBodies(hunks: seq<Hunk>, content: seq<string>) returns (body: seq<string>)
    ensures body == MergedBody(hunks, content)
  {
    hide Gap, ContextLines, MergedBody, FromGap;
    body := [];
    WholeFromGap(hunks, content);
    for index := 0 to |hunks|
      invariant MergedBody(hunks, content) == body + FromGap(hunks, content, index)
    {
      var gap := if index > 0 then ContextLines(Gap(hunks[index - 1], hunks[index], content)) else [];
      GapNext(hunks, content, index);
      Assoc(body, gap + hunks[index].body, FromGap(hunks, content, index + 1));
      body := body + (gap + hunks[index].body);
    }
    assert body + [] == body;
  }

  lemma {:induction false} WholeFromGap(hunks: seq<Hunk>, content: seq<string>)
    ensures MergedBody(hunks, content) == [] + FromGap(hunks, content, 0) && FromGap(hunks, content, |hunks|) == []
  {
    assert hunks[0..] == hunks;
  }

  lemma {:induction false} GapNext(hunks: seq<Hunk>, content: seq<string>, i: nat)
    requires i < |hunks|
    ensures FromGap(hunks, content, i)
         == (if i > 0 then ContextLines(Gap(hunks[i - 1], hunks[i], content)) else []) + hunks[i].body + FromGap(hunks, content, i + 1)
  {
    hide Gap, ContextLines;
    assert hunks[i..][0] == hunks[i] && hunks[i..][1..] == hunks[i + 1..];
    if i + 1 < |hunks| {
      assert hunks[i..][1] == hunks[i + 1];
    }
  }

  /** What is still to come of a merged body at its hunk i. */
  function FromGap(hunks: seq<Hunk>, content: seq<string>, i: nat): seq<string>
    requires i <= |hunks|
  {
    if i == |hunks| then []
    else (if i > 0 then ContextLines(Gap(hunks[i - 1], hunks[i], content)) else []) + MergedBody(hunks[i..], content)
  }

  /** The whole of expand_hunks: nothing to pad with or no hunk to pad gives the patch back. */
  method ExpandHunks(patch: string, pad: Padding) returns (expanded: string)
    requires pad.Valid()
    ensures expanded == ExpandPatch(patch, pad)
  {
    if pad.Off() {
      return patch;
    }
    hide ParseHunks, Lines, RenderGroup, HunkLines, GroupFrom, LeadsInside;
    var preamble, hunks := ParsePatch(patch);
    assert ParseHunks(Lines(patch)).hunks == hunks && ParseHunks(Lines(patch)).preamble == preamble;
    if hunks == [] {
      return patch;
    }
    var content, after := pad.Content(), Max(0, pad.after);
    var groups := GroupHunks(hunks, |content|, pad.n, after, pad.spans);
    GroupsLeadInside([], hunks, |content|, pad.n, after, pad.spans);
    ghost var rendered := RenderGroups(groups, content, after);
    var out := preamble;
    assert groups[0..] == groups && rendered[0..] == rendered;
    for i := 0 to |groups|
      invariant LeadsInside(groups) && preamble + AllHunkLines(rendered) == out + AllHunkLines(rendered[i..])
    {
      RenderedAt(groups, content, after, i);
      assert rendered[i..][0] == rendered[i] && rendered[i..][1..] == rendered[i + 1..];
      var lines := HunkLines(RenderGroup(groups[i], content, after));
      Assoc(out, lines, AllHunkLines(rendered[i + 1..]));
      out := out + lines;
    }
    assert out + [] == out;
    expanded := Unlines(out, true);
  }

  lemma {:induction false} RenderedAt(groups: seq<Group>, content: seq<string>, after: nat, i: nat)
    requires LeadsInside(groups) && i < |groups|
    ensures LeadInside(groups[i]) && RenderGroups(groups, content, after)[i] == RenderGroup(groups[i], content, after)
    decreases i
  {
    hide RenderGroup, LeadInside;
    if i > 0 {
      RenderedAt(groups[1..], content, after, i - 1);
    }
  }
}
