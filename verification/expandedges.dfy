/** When an expanded patch keeps its meaning, said before it is expanded: unless the old file is empty. */
module ExpandEdges {
  import opened Text
  import opened DiffParse
  import opened Geometry
  import opened Expand
  import opened ExpandProofs
  import opened Application
  import opened ExpandMeaning

  /** trailing_context_lines: a quarter of the leading pad, at least one line once there is any. */
  function TrailingContextLines(before: int): (after: nat)
    ensures after == 0 <==> before <= 0
    ensures before > 0 ==> after == 1 || 4 * after <= before
    ensures before > 0 ==> before < 4 * (after + 1)
  {
    if before <= 0 then 0 else Max(1, before / 4)
  }

  /** Each group's pad starts where its first hunk asks, and a line at least parts it from the pad before. */
  ghost predicate Spaced(groups: seq<Group>, length: nat, n: nat, after: nat, spans: seq<Span>) {
    && NonEmptyGroups(groups)
    && (forall i :: 0 <= i < |groups| ==> groups[i].leadStart == LeadStart(groups[i].hunks[0], n, spans))
    && (forall i :: 0 < i < |groups| ==> TrailEnd(Last(groups[i - 1].hunks), length, after) + 1 < groups[i].leadStart)
  }

  lemma {:induction false} AddHunkSpaced(groups: seq<Group>, hunk: Hunk, length: nat, n: nat, after: nat, spans: seq<Span>)
    requires Spaced(groups, length, n, after, spans) && hunk.FirstNew() - 1 <= length
    ensures Spaced(AddHunk(groups, hunk, length, n, after, spans), length, n, after, spans)
  {
    hide LeadStart, TrailEnd;
    var result := AddHunk(groups, hunk, length, n, after, spans);
    forall i | 0 <= i < |result| ensures result[i].leadStart == LeadStart(result[i].hunks[0], n, spans) {
      if i < |groups| {
        assert groups[i].leadStart == LeadStart(groups[i].hunks[0], n, spans);
      }
    }
  }

  predicate AllInside(hs: seq<Hunk>, length: nat) {
    forall i :: 0 <= i < |hs| ==> hs[i].FirstNew() - 1 <= length
  }

  lemma {:induction false} GroupingSpaces(groups: seq<Group>, hunks: seq<Hunk>, length: nat, n: nat, after: nat, spans: seq<Span>)
    requires Spaced(groups, length, n, after, spans) && AllInside(hunks, length)
    ensures Spaced(GroupFrom(groups, hunks, length, n, after, spans), length, n, after, spans)
    decreases |hunks|
  {
    assert NonEmptyGroups(groups);
    hide Spaced, AddHunk, NonEmptyGroups;
    if hunks != [] {
      AddHunkSpaced(groups, hunks[0], length, n, after, spans);
      GroupingSpaces(AddHunk(groups, hunks[0], length, n, after, spans), hunks[1..], length, n, after, spans);
    }
  }

  /** Hunks that turn one file into another start inside it. */
  lemma {:induction false} TurnsInside(hs: seq<Hunk>, before: seq<string>, head: seq<string>, o: nat, n: nat)
    requires Turns(hs, before, head, o, n)
    ensures AllInside(hs, |head|)
    decreases |hs|
  {
    hide BodyFits;
    if hs != [] {
      var o', n' := hs[0].FirstOld() - 1, hs[0].FirstNew() - 1;
      TurnsInside(hs[1..], before, head, o' + OldCount(hs[0].body), n' + NewCount(hs[0].body));
      assert forall i :: 0 < i < |hs| ==> hs[i] == hs[1..][i - 1];
    }
  }

  /** The pad before a hunk is empty only at the first line of either file. */
  lemma {:induction false} NoLead(hunk: Hunk, n: nat, spans: seq<Span>)
    requires n >= 1 && hunk.FirstNew() >= 2 && hunk.FirstOld() >= 2
    ensures LeadStart(hunk, n, spans) < hunk.FirstNew()
  {
    hide Enclosing;
  }

  /** The start of the patch, or past a group whose pad the next one clears. */
  predicate Clear(groups: seq<Group>, length: nat, after: nat, o: nat, n: nat) {
    (o == 0 && n == 0) || (groups != [] ==> Min(length, n + after) + 1 < groups[0].leadStart)
  }

  /** What a rendered group's ranges are, in terms of its hunks and pads. */
  lemma {:induction false} RenderedLengths(groups: seq<Group>, before: seq<string>, head: seq<string>, after: nat, o: nat, n: nat, t: nat)
    requires groups != [] && ReadyGroups(groups, |head|, after)
    requires Turns(Flat(groups), before, head, o, n) && Ahead(groups, before, head, o, n, t)
    ensures var g := groups[0];
      var r, first, last := RenderGroup(g, head, after), g.hunks[0], Last(g.hunks);
      && o <= first.FirstOld() - 1 <= |before| && n <= first.FirstNew() - 1 <= |head|
      && first.FirstOld() - 1 - o == first.FirstNew() - 1 - n
      && first.FirstOld() <= last.EndOld() && first.FirstNew() <= last.EndNew() <= |head| + 1 && last.EndOld() <= |before| + 1
      && r.header.oldLen == last.EndOld() - first.FirstOld() + (first.FirstNew() - g.leadStart) + |Trailing(g, head, after)|
      && r.header.newLen == last.EndNew() - first.FirstNew() + (first.FirstNew() - g.leadStart) + |Trailing(g, head, after)|
      && g.leadStart <= first.FirstNew()
  {
    hide Leading, Trailing, MergedBody, RenderedBody, RenderGroup, Turns, ReadyGroup, ReadyGroups, Agree, Sound, Flat, Ahead,
      TrailEnd, Follows, BodyFits;
    var g := groups[0];
    ReadyBelow(groups, |head|, after);
    InsideReady(groups, |head|, after);
    OpensInside(groups, before, head, o, n, after);
    LeadTexts(g, head);
    RenderKeepsChanges("", g, head, after);
    GroupEnds(g, |head|);
  }

  lemma {:induction false} OpensInside(groups: seq<Group>, before: seq<string>, head: seq<string>, o: nat, n: nat, after: nat)
    requires groups != [] && ReadyGroups(groups, |head|, after) && Turns(Flat(groups), before, head, o, n)
    ensures var first, last := groups[0].hunks[0], Last(groups[0].hunks);
      && o <= first.FirstOld() - 1 <= |before| && n <= first.FirstNew() - 1 <= |head|
      && first.FirstOld() - 1 - o == first.FirstNew() - 1 - n
      && last.EndOld() <= |before| + 1 && last.EndNew() <= |head| + 1
  {
    hide BodyFits, MergedBody, Agree, Sound, Follows;
    ReadyBelow(groups, |head|, after);
    assert Flat(groups)[0] == groups[0].hunks[0];
    TurnsOpens(Flat(groups), before, head, o, n);
    MergeFits(groups[0].hunks, Flat(groups[1..]), before, head, o, n);
  }

  lemma {:induction false} GroupEnds(g: Group, length: nat)
    requires ReadyGroup(g, length)
    ensures g.leadStart <= g.hunks[0].FirstNew()
    ensures g.hunks[0].FirstOld() <= Last(g.hunks).EndOld() && g.hunks[0].FirstNew() <= Last(g.hunks).EndNew()
  {
    hide Sound, Follows;
    ChainedEnds(g.hunks);
  }

  lemma {:induction false} TrailLength(g: Group, head: seq<string>, after: nat)
    requires ReadyGroup(g, |head|) && Last(g.hunks).EndNew() - 1 <= |head| && after >= 1
    ensures |Trailing(g, head, after)| == 0 <==> Last(g.hunks).EndNew() == |head| + 1
  {
    hide Sound, Follows;
    TrailTexts(g, head, after);
  }

  /** With a trailing pad of a line or more, a rendered group has an empty side only when it is the first
      and the old file is empty. */
  lemma {:induction false} EmptySideOnlyAtEmptyFile(groups: seq<Group>, before: seq<string>, head: seq<string>, after: nat,
                                                    k: nat, spans: seq<Span>, o: nat, n: nat, t: nat)
    requires groups != [] && ReadyGroups(groups, |head|, after) && Spaced(groups, |head|, k, after, spans)
    requires Turns(Flat(groups), before, head, o, n) && Ahead(groups, before, head, o, n, t) && Clear(groups, |head|, after, o, n)
    requires after >= 1 && k >= 1 && head != [] && before != []
    ensures LeadInside(groups[0])
    ensures var r := RenderGroup(groups[0], head, after); r.header.oldLen > 0 && r.header.newLen > 0
  {
    var g := groups[0];
    var first, last := g.hunks[0], Last(g.hunks);
    assert g.leadStart == LeadStart(first, k, spans);
    ReadyBelow(groups, |head|, after);
    InsideReady(groups, |head|, after);
    RenderedLengths(groups, before, head, after, o, n, t);
    TrailLength(g, head, after);
    if first.FirstOld() >= 2 && first.FirstNew() >= 2 {
      NoLead(first, k, spans);
    } else {
      LastAtEnd(groups, before, head, after, k, spans, o, n, t);
    }
  }

  /** A group at the first line whose trailing pad is empty ends both files. */
  lemma {:induction false} LastAtEnd(groups: seq<Group>, before: seq<string>, head: seq<string>, after: nat,
                                     k: nat, spans: seq<Span>, o: nat, n: nat, t: nat)
    requires groups != [] && ReadyGroups(groups, |head|, after) && Spaced(groups, |head|, k, after, spans)
    requires Turns(Flat(groups), before, head, o, n) && Ahead(groups, before, head, o, n, t)
    ensures Last(groups[0].hunks).EndNew() == |head| + 1 ==> Last(groups[0].hunks).EndOld() == |before| + 1
  {
    hide Sound, Follows, BodyFits, Agree, MergedBody, LeadStart, ReadyGroups, Ahead;
    var last := Last(groups[0].hunks);
    if last.EndNew() == |head| + 1 {
      NextCursors(groups, before, head, after, o, n, t);
      if |groups| > 1 {
        NextLeadStart(groups, |head|, after, k, spans);
        ReadyBelow(groups, |head|, after);
        OpensInside(groups[1..], before, head, last.EndOld() - 1, last.EndNew() - 1, after);
        ReadyBelow(groups[1..], |head|, after);
        GroupEnds(groups[1], |head|);
      }
    }
  }

  lemma {:induction false} NextLeadStart(groups: seq<Group>, length: nat, after: nat, k: nat, spans: seq<Span>)
    requires Spaced(groups, length, k, after, spans) && |groups| > 1
    ensures TrailEnd(Last(groups[0].hunks), length, after) + 1 < groups[1].leadStart
    ensures Spaced(groups[1..], length, k, after, spans)
  {
    hide TrailEnd, LeadStart;
    assert forall i :: 0 <= i < |groups[1..]| ==> groups[1..][i] == groups[i + 1];
  }

  lemma {:induction false} ClearBelow(groups: seq<Group>, length: nat, after: nat, k: nat, spans: seq<Span>)
    requires groups != [] && Spaced(groups, length, k, after, spans)
    ensures Last(groups[0].hunks).EndOld() >= 1 && Last(groups[0].hunks).EndNew() >= 1 ==>
      Clear(groups[1..], length, after, Last(groups[0].hunks).EndOld() - 1, Last(groups[0].hunks).EndNew() - 1)
    ensures Spaced(groups[1..], length, k, after, spans)
  {
    if |groups| > 1 {
      NextLeadStart(groups, length, after, k, spans);
    } else {
      assert groups[1..] == [];
    }
  }

  lemma {:induction false} SidesStay(groups: seq<Group>, before: seq<string>, head: seq<string>, after: nat,
                                     k: nat, spans: seq<Span>, o: nat, n: nat, t: nat)
    requires ReadyGroups(groups, |head|, after) && Spaced(groups, |head|, k, after, spans)
    requires Turns(Flat(groups), before, head, o, n) && Ahead(groups, before, head, o, n, t) && Clear(groups, |head|, after, o, n)
    requires after >= 1 && k >= 1 && head != [] && before != []
    ensures LeadsInside(groups) && NoEmptySide(RenderGroups(groups, head, after))
    decreases |groups|
  {
    hide *;
    InsideReady(groups, |head|, after);
    if groups == [] {
      RenderedNone(groups, head, after);
    } else {
      EmptySideOnlyAtEmptyFile(groups, before, head, after, k, spans, o, n, t);
      NextCursors(groups, before, head, after, o, n, t);
      ReadyBelow(groups, |head|, after);
      ClearBelow(groups, |head|, after, k, spans);
      SidesStay(groups[1..], before, head, after, k, spans, Last(groups[0].hunks).EndOld() - 1, Last(groups[0].hunks).EndNew() - 1,
                |Trailing(groups[0], head, after)|);
      RenderGroupsFirst(groups, head, after);
      NoEmptySideSplit(RenderGroups(groups, head, after));
    }
  }

  /** An empty old file leaves the first group without an old side. */
  lemma {:induction false} EmptyFileEmptySide(groups: seq<Group>, head: seq<string>, after: nat)
    requires groups != [] && ReadyGroups(groups, |head|, after)
    requires Turns(Flat(groups), [], head, 0, 0) && Ahead(groups, [], head, 0, 0, 0)
    ensures LeadsInside(groups) && !NoEmptySide(RenderGroups(groups, head, after))
  {
    hide *;
    InsideReady(groups, |head|, after);
    RenderedLengths(groups, [], head, after, 0, 0, 0);
    NextCursors(groups, [], head, after, 0, 0, 0);
    RenderGroupsFirst(groups, head, after);
    NoEmptySideSplit(RenderGroups(groups, head, after));
    NoRoom(groups, head, after);
  }

  lemma {:induction false} NoRoom(groups: seq<Group>, head: seq<string>, after: nat)
    requires groups != [] && ReadyGroups(groups, |head|, after) && Turns(Flat(groups), [], head, 0, 0)
    requires Last(groups[0].hunks).EndOld() >= 1 && Last(groups[0].hunks).EndNew() >= 1
    requires Ahead(groups[1..], [], head, Last(groups[0].hunks).EndOld() - 1, Last(groups[0].hunks).EndNew() - 1,
                   |Trailing(groups[0], head, after)|)
    ensures |Trailing(groups[0], head, after)| == 0 && groups[0].leadStart == groups[0].hunks[0].FirstNew()
    ensures groups[0].hunks[0].FirstOld() == 1 && Last(groups[0].hunks).EndOld() == 1
  {
    hide Sound, Follows, BodyFits, MergedBody, Trailing;
    assert 1 <= groups[0].leadStart;
    OpensInside(groups, [], head, 0, 0, after);
    ReadyBelow(groups, |head|, after);
    GroupEnds(groups[0], |head|);
  }

  lemma {:induction false} NoneEmptyGroups(length: nat, n: nat, after: nat, spans: seq<Span>)
    ensures Spaced([], length, n, after, spans)
  {
  }

  lemma {:induction false} AheadAtStart(groups: seq<Group>, before: seq<string>, head: seq<string>, after: nat)
    requires ReadyGroups(groups, |head|, after)
    ensures Ahead(groups, before, head, 0, 0, 0)
  {
    hide Sound, Follows;
    ReadyStarts(groups, |head|, after);
  }

  lemma {:induction false} GroupsNotEmpty(hs: seq<Hunk>, groups: seq<Group>)
    requires Flat(groups) == hs && hs != []
    ensures groups != []
  {
  }

  /** A patch that turns an old file into the head text it is expanded with, with a trailing pad of a line
      or more as every leading pad brings one, still does once expanded if and only if the old file is not
      empty. */
  lemma {:induction false} ExpandKeepsMeaningUnlessAdded(patch: string, pad: Padding, before: seq<string>)
    requires pad.Valid() && !pad.Off() && WellFormedPatch(Lines(patch)) && ParseHunks(Lines(patch)).hunks != []
    requires Apply(ParseHunks(Lines(patch)).hunks, before) == Some(pad.Content())
    requires pad.after >= 1
    ensures Apply(ParseHunks(Lines(ExpandPatch(patch, pad))).hunks, before) == Some(pad.Content()) <==> before != []
  {
    hide WellFormedPatch, Chained, Apply, NoEmptySide, AllHunkLines, ParseHunks, RenderGroups, GroupFrom, ReadyGroups, Turns, Ahead, Spaced,
      LeadsInside, Lines;
    var hs, head := ParseHunks(Lines(patch)).hunks, pad.Content();
    var groups := GroupFrom([], hs, |head|, pad.n, pad.after, pad.spans);
    LinesNotEmpty(pad.head.value);
    ChainedHunks(Lines(patch));
    ApplyMeansTurns(hs, before, head);
    TurnsInside(hs, before, head, 0, 0);
    NoneEmptyGroups(|head|, pad.n, pad.after, pad.spans);
    GroupingSpaces([], hs, |head|, pad.n, pad.after, pad.spans);
    GroupsReady(hs, |head|, pad.n, pad.after, pad.spans);
    GroupsNotEmpty(hs, groups);
    AheadAtStart(groups, before, head, pad.after);
    ExpandedTextParses(patch, pad);
    ExpandKeepsMeaning(patch, pad, before);
    if before == [] {
      EmptyFileEmptySide(groups, head, pad.after);
    } else {
      SidesStay(groups, before, head, pad.after, pad.n, pad.spans, 0, 0, 0);
    }
  }

  lemma {:induction false} ChainedHunks(lines: seq<string>)
    requires WellFormedPatch(lines)
    ensures Chained(ParseHunks(lines).hunks)
  {
    hide Chained;
    WellFormedParts(lines);
  }

  lemma {:induction false} LinesNotEmpty(text: string)
    ensures Lines(text) != []
  {
  }
}
