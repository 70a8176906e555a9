/** When the head text is the new file, an expanded patch still turns the old file into it. */
module ExpandMeaning {
  import opened Text
  import opened DiffParse
  import opened Geometry
  import opened Expand
  import opened ExpandProofs
  import opened Application
  import ChangeIndex

  // ----- Bodies -----

  lemma {:induction false} FitsConcat(a: seq<string>, b: seq<string>, before: seq<string>, head: seq<string>, o: nat, n: nat)
    ensures BodyFits(a + b, before, head, o, n)
       <==> BodyFits(a, before, head, o, n) && BodyFits(b, before, head, o + OldCount(a), n + NewCount(a))
    decreases |a|
  {
    if a == [] {
      assert a + b == b;
      if BodyFits(b, before, head, o, n) {
        FitsBounds(b, before, head, o, n);
      }
    } else {
      assert (a + b)[1..] == a[1..] + b;
      FitsConcat(a[1..], b, before, head, o + OldWidth(a[0]), n + NewWidth(a[0]));
    }
  }

  /** Head lines printed as context fit wherever the two files agree. */
  lemma {:induction false} ContextFits(texts: seq<string>, before: seq<string>, head: seq<string>, o: nat, n: nat)
    requires Agree(before, head, o, n, |texts|) && texts == head[n..n + |texts|]
    ensures BodyFits(ContextLines(texts), before, head, o, n)
    ensures OldCount(ContextLines(texts)) == |texts| == NewCount(ContextLines(texts))
    decreases |texts|
  {
    var lines := ContextLines(texts);
    if texts != [] {
      assert lines[0] == [' '] + texts[0] && Unmarked(lines[0]) == texts[0];
      assert lines[1..] == ContextLines(texts[1..]);
      assert texts[0] == head[n] && before[o] == head[o - o + n];
      AgreePart(before, head, o, n, |texts|, 1, |texts| - 1);
      ContextFits(texts[1..], before, head, o + 1, n + 1);
    }
  }

  /** Where the files agree over a stretch they agree over any part of it. */
  lemma {:induction false} AgreePart(before: seq<string>, head: seq<string>, o: nat, n: nat, k: nat, skip: nat, len: nat)
    requires Agree(before, head, o, n, k) && skip + len <= k
    ensures Agree(before, head, o + skip, n + skip, len)
  {
  }

  // ----- Merging -----

  /** Past its first hunk a patch goes on turning the files from where that hunk ends. */
  lemma {:induction false} TurnsPast(h: Hunk, below: seq<Hunk>, before: seq<string>, head: seq<string>, o: nat, n: nat)
    requires Sound(h) && Turns([h] + below, before, head, o, n)
    ensures 1 <= h.FirstOld() && 1 <= h.FirstNew() && 1 <= h.EndOld() && 1 <= h.EndNew()
    ensures BodyFits(h.body, before, head, h.FirstOld() - 1, h.FirstNew() - 1)
    ensures Turns(below, before, head, h.EndOld() - 1, h.EndNew() - 1)
    ensures h.EndOld() - 1 <= |before| && h.EndNew() - 1 <= |head|
  {
    hide BodyFits, Agree, OldCount, NewCount, Sound;
    SoundStarts(h);
    assert ([h] + below)[0] == h && ([h] + below)[1..] == below;
    FitsBounds(h.body, before, head, h.FirstOld() - 1, h.FirstNew() - 1);
  }

  /** A merged group's body fits from its first line, and the rest of the patch from its end. */
  lemma {:induction false} MergeFits(hs: seq<Hunk>, rest: seq<Hunk>, before: seq<string>, head: seq<string>, o: nat, n: nat)
    requires hs != [] && Chained(hs) && Turns(hs + rest, before, head, o, n)
    ensures hs[0].FirstOld() >= 1 && hs[0].FirstNew() >= 1 && Last(hs).EndOld() >= 1 && Last(hs).EndNew() >= 1
    ensures Fillable(hs, |head|)
    ensures BodyFits(MergedBody(hs, head), before, head, hs[0].FirstOld() - 1, hs[0].FirstNew() - 1)
    ensures Turns(rest, before, head, Last(hs).EndOld() - 1, Last(hs).EndNew() - 1)
    ensures Last(hs).EndOld() - 1 <= |before| && Last(hs).EndNew() - 1 <= |head|
    decreases |hs|
  {
    hide *;
    var h, below := hs[0], hs[1..];
    ChainedFirst(hs);
    assert hs == [h] + below && hs + rest == [h] + (below + rest);
    TurnsPast(h, below + rest, before, head, o, n);
    if below == [] {
      assert below + rest == rest;
      MergedAlone(h, head);
      assert hs == [h];
    } else {
      MergeFits(below, rest, before, head, h.EndOld() - 1, h.EndNew() - 1);
      TurnsOpens(below + rest, before, head, h.EndOld() - 1, h.EndNew() - 1);
      assert (below + rest)[0] == below[0];
      MergeStep(h, below, before, head);
      LastBelow(h, below);
    }
  }

  lemma {:induction false} ChainedFirst(hs: seq<Hunk>)
    requires hs != [] && Chained(hs)
    ensures Sound(hs[0]) && Chained(hs[1..]) && (|hs| > 1 ==> Follows(hs[0], hs[1]))
  {
    hide Sound, Follows;
  }

  lemma {:induction false} MergedAlone(h: Hunk, head: seq<string>)
    ensures MergedBody([h], head) == h.body && Fillable([h], |head|) && Last([h]) == h
  {
  }

  lemma {:induction false} LastBelow(h: Hunk, below: seq<Hunk>)
    requires below != []
    ensures Last([h] + below) == Last(below)
  {
  }

  /** A hunk, the gap below it filled from the head, and a merged body that fits from the next hunk on. */
  lemma {:induction false} MergeStep(h: Hunk, below: seq<Hunk>, before: seq<string>, head: seq<string>)
    requires below != [] && Sound(h) && Follows(h, below[0]) && Fillable(below, |head|)
    requires BodyFits(h.body, before, head, h.FirstOld() - 1, h.FirstNew() - 1)
    requires h.EndNew() <= below[0].FirstNew() && below[0].FirstNew() - 1 <= |head|
    requires Agree(before, head, h.EndOld() - 1, h.EndNew() - 1, below[0].FirstOld() - h.EndOld())
    requires BodyFits(MergedBody(below, head), before, head, below[0].FirstOld() - 1, below[0].FirstNew() - 1)
    ensures Fillable([h] + below, |head|)
    ensures BodyFits(MergedBody([h] + below, head), before, head, h.FirstOld() - 1, h.FirstNew() - 1)
  {
    hide BodyFits, ContextLines, OldCount, NewCount, Agree, Gap, Sound, Follows;
    var o', n' := h.EndOld() - 1, h.EndNew() - 1;
    var gap := Gap(h, below[0], head);
    SoundStarts(h);
    GapLength(h, below[0], head);
    ContextFits(gap, before, head, o', n');
    FitsConcat(ContextLines(gap), MergedBody(below, head), before, head, o', n');
    FitsConcat(h.body, ContextLines(gap) + MergedBody(below, head), before, head, h.FirstOld() - 1, h.FirstNew() - 1);
    assert ([h] + below)[1..] == below;
  }

  // ----- Rendering -----

  predicate NoEmptySide(hs: seq<Hunk>) {
    forall i :: 0 <= i < |hs| ==> hs[i].header.oldLen > 0 && hs[i].header.newLen > 0
  }

  /** The cursors of a patch rendered so far: t lines of trailing pad beyond the plain ones, all
      of them lines on which the files agree, and the next group's pad still ahead. */
  predicate Ahead(groups: seq<Group>, before: seq<string>, head: seq<string>, o: nat, n: nat, t: nat) {
    && Agree(before, head, o, n, t)
    && NonEmptyGroups(groups)
    && (groups != [] ==> n + t + 1 <= groups[0].leadStart)
  }

  /** Where one rendered group opens and closes, given that the plain hunks still turn one file
      into the other from (o, n). */
  lemma {:induction false} RenderCursors(groups: seq<Group>, before: seq<string>, head: seq<string>, after: nat, o: nat, n: nat, t: nat)
    requires groups != [] && ReadyGroups(groups, |head|, after)
    requires Turns(Flat(groups), before, head, o, n) && Ahead(groups, before, head, o, n, t)
    ensures var g, lead, trail := groups[0], |Leading(groups[0], head)|, |Trailing(groups[0], head, after)|;
      var o', n' := g.hunks[0].FirstOld() - 1 - lead, g.hunks[0].FirstNew() - 1 - lead;
      var o2, n2 := Last(g.hunks).EndOld() - 1, Last(g.hunks).EndNew() - 1;
      && o + t <= o' && o' - (o + t) == n' - (n + t) && Agree(before, head, o + t, n + t, o' - (o + t))
      && Agree(before, head, o', n', lead) && Leading(g, head) == head[n'..n' + lead]
      && BodyFits(MergedBody(g.hunks, head), before, head, o' + lead, n' + lead)
      && Turns(Flat(groups[1..]), before, head, o2, n2)
      && Ahead(groups[1..], before, head, o2, n2, trail)
      && Trailing(g, head, after) == head[n2..n2 + trail]
  {
    hide BodyFits, ContextLines, OldCount, NewCount, IsBodyLine, Sound, Follows, Leading, Trailing, Turns, Agree, MergedBody;
    var g, below := groups[0], groups[1..];
    var lead := Leading(g, head);
    var o1, n1 := g.hunks[0].FirstOld() - 1, g.hunks[0].FirstNew() - 1;
    ReadyBelow(groups, |head|, after);
    TurnsOpens(Flat(groups), before, head, o, n);
    MergeFits(g.hunks, Flat(below), before, head, o, n);
    LeadTexts(g, head);
    AgreePart(before, head, o, n, o1 - o, o1 - o - |lead|, |lead|);
    AgreePart(before, head, o, n, o1 - o, t, o1 - o - t - |lead|);
    TrailTexts(g, head, after);
    TrailAgrees(groups, before, head, after);
  }

  lemma {:induction false} RenderFits(g: Group, before: seq<string>, head: seq<string>, after: nat, o: nat, n: nat)
    requires ReadyGroup(g, |head|)
    requires o == g.hunks[0].FirstOld() - 1 - |Leading(g, head)| && n == g.hunks[0].FirstNew() - 1 - |Leading(g, head)|
    requires Agree(before, head, o, n, |Leading(g, head)|) && Leading(g, head) == head[n..n + |Leading(g, head)|]
    requires BodyFits(MergedBody(g.hunks, head), before, head, o + |Leading(g, head)|, n + |Leading(g, head)|)
    requires var o2, n2, trail := Last(g.hunks).EndOld() - 1, Last(g.hunks).EndNew() - 1, Trailing(g, head, after);
      o2 >= 0 && n2 >= 0 && Agree(before, head, o2, n2, |trail|) && trail == head[n2..n2 + |trail|]
    ensures BodyFits(RenderedBody(g, head, after), before, head, o, n)
  {
    hide BodyFits, ContextLines, OldCount, NewCount, IsBodyLine, Sound, Follows, Leading, Trailing, Agree, MergedBody;
    var lead, trail := Leading(g, head), Trailing(g, head, after);
    var merged := MergedBody(g.hunks, head);
    MergeKeepsChanges("", g.hunks, head);
    ContextFits(lead, before, head, o, n);
    ContextFits(trail, before, head, Last(g.hunks).EndOld() - 1, Last(g.hunks).EndNew() - 1);
    FitsConcat(ContextLines(lead), merged, before, head, o, n);
    BodyConcat("", 0, 0, ContextLines(lead), merged);
    FitsConcat(ContextLines(lead) + merged, ContextLines(trail), before, head, o, n);
  }

  lemma {:induction false} TurnsOpens(hs: seq<Hunk>, before: seq<string>, head: seq<string>, o: nat, n: nat)
    requires hs != [] && Turns(hs, before, head, o, n)
    ensures o <= hs[0].FirstOld() - 1 <= |before| && n <= hs[0].FirstNew() - 1 <= |head|
    ensures hs[0].FirstOld() - 1 - o == hs[0].FirstNew() - 1 - n
    ensures Agree(before, head, o, n, hs[0].FirstOld() - 1 - o)
  {
  }

  lemma {:induction false} LeadTexts(g: Group, head: seq<string>)
    requires ReadyGroup(g, |head|) && g.hunks[0].FirstNew() - 1 <= |head|
    ensures var n1 := g.hunks[0].FirstNew() - 1;
      |Leading(g, head)| == n1 + 1 - g.leadStart && Leading(g, head) == head[n1 - |Leading(g, head)|..n1]
  {
    SoundStarts(g.hunks[0]);
  }

  lemma {:induction false} TrailTexts(g: Group, head: seq<string>, after: nat)
    requires ReadyGroup(g, |head|) && Last(g.hunks).EndNew() - 1 <= |head|
    ensures var n2 := Last(g.hunks).EndNew() - 1;
      && n2 + |Trailing(g, head, after)| == TrailEnd(Last(g.hunks), |head|, after)
      && Trailing(g, head, after) == head[n2..n2 + |Trailing(g, head, after)|]
  {
    SoundStarts(Last(g.hunks));
  }

  lemma {:induction false} TrailAgrees(groups: seq<Group>, before: seq<string>, head: seq<string>, after: nat)
    requires groups != [] && ReadyGroups(groups, |head|, after)
    requires var h := Last(groups[0].hunks);
      && 1 <= h.EndOld() && 1 <= h.EndNew() && h.EndNew() - 1 <= |head|
      && Turns(Flat(groups[1..]), before, head, h.EndOld() - 1, h.EndNew() - 1)
    ensures Ahead(groups[1..], before, head, Last(groups[0].hunks).EndOld() - 1, Last(groups[0].hunks).EndNew() - 1,
                  |Trailing(groups[0], head, after)|)
  {
    hide Sound, Follows, BodyFits, Trailing, Agree;
    var g, below := groups[0], groups[1..];
    var o2, n2 := Last(g.hunks).EndOld() - 1, Last(g.hunks).EndNew() - 1;
    ReadyBelow(groups, |head|, after);
    TrailTexts(g, head, after);
    var t := |Trailing(g, head, after)|;
    if below == [] {
      AgreePart(before, head, o2, n2, |before| - o2, 0, t);
    } else {
      ReadyBelow(below, |head|, after);
      TurnsOpens(Flat(below), before, head, o2, n2);
      assert Flat(below)[0] == below[0].hunks[0];
      AgreePart(before, head, o2, n2, below[0].hunks[0].FirstOld() - 1 - o2, 0, t);
    }
  }

  /** The first rendered group fits the files where its header starts, up to where its padding ends. */
  lemma {:induction false} FirstRenderedFits(groups: seq<Group>, before: seq<string>, head: seq<string>, after: nat, o: nat, n: nat, t: nat)
    requires groups != [] && ReadyGroups(groups, |head|, after)
    requires Turns(Flat(groups), before, head, o, n) && Ahead(groups, before, head, o, n, t)
    ensures var r, h, trail := RenderGroup(groups[0], head, after), Last(groups[0].hunks), |Trailing(groups[0], head, after)|;
      && Sound(r) && r.header.oldStart >= 1 && r.header.newStart >= 1
      && o + t <= r.header.oldStart - 1 && r.header.oldStart - 1 - (o + t) == r.header.newStart - 1 - (n + t)
      && Agree(before, head, o + t, n + t, r.header.oldStart - 1 - (o + t))
      && BodyFits(r.body, before, head, r.header.oldStart - 1, r.header.newStart - 1)
      && r.header.oldStart + r.header.oldLen == h.EndOld() + trail
      && r.header.newStart + r.header.newLen == h.EndNew() + trail
  {
    hide *;
    var g := groups[0];
    ReadyBelow(groups, |head|, after);
    InsideReady(groups, |head|, after);
    RenderKeepsChanges("", g, head, after);
    RenderCursors(groups, before, head, after, o, n, t);
    NextCursors(groups, before, head, after, o, n, t);
    TrailInside(groups[1..], before, head, Last(g.hunks).EndOld() - 1, Last(g.hunks).EndNew() - 1, |Trailing(g, head, after)|);
    var r := RenderGroup(g, head, after);
    RenderFits(g, before, head, after, r.header.oldStart - 1, r.header.newStart - 1);
    RenderedBodyIs(g, head, after);
  }

  /** The first rendered group fits if neither side is empty, and then the rest decides. */
  lemma {:induction false} FirstRenderedTurns(groups: seq<Group>, rest: seq<Hunk>, before: seq<string>, head: seq<string>, after: nat, o: nat, n: nat, t: nat)
    requires groups != [] && ReadyGroups(groups, |head|, after)
    requires Turns(Flat(groups), before, head, o, n) && Ahead(groups, before, head, o, n, t)
    ensures var r, h, trail := RenderGroup(groups[0], head, after), Last(groups[0].hunks), |Trailing(groups[0], head, after)|;
      Turns([r] + rest, before, head, o + t, n + t)
      <==> r.header.oldLen > 0 && r.header.newLen > 0
           && Turns(rest, before, head, h.EndOld() - 1 + trail, h.EndNew() - 1 + trail)
  {
    hide *;
    InsideReady(groups, |head|, after);
    FirstRenderedFits(groups, before, head, after, o, n, t);
    FirstTurns(RenderGroup(groups[0], head, after), rest, before, head, o + t, n + t);
  }

  /** Rendered groups turn the old file into the head exactly when none of them is left with an
      empty side: for those the printed start is not the one an empty range is read with. */
  lemma {:induction false} RenderedTurn(groups: seq<Group>, before: seq<string>, head: seq<string>, after: nat, o: nat, n: nat, t: nat)
    requires ReadyGroups(groups, |head|, after)
    requires Turns(Flat(groups), before, head, o, n) && Ahead(groups, before, head, o, n, t)
    ensures Turns(RenderGroups(groups, head, after), before, head, o + t, n + t)
       <==> NoEmptySide(RenderGroups(groups, head, after))
    decreases |groups|
  {
    hide Leading, Trailing, RenderGroup, Turns, ReadyGroups, NoEmptySide, Flat, Ahead, RenderGroups, LeadsInside, Grouped, LeadInside;
    if groups == [] {
      RenderedNothing(groups, before, head, after, o, n, t);
    } else {
      ReadyBelow(groups, |head|, after);
      InsideReady(groups, |head|, after);
      InsideReady(groups[1..], |head|, after);
      var h, trail := Last(groups[0].hunks), |Trailing(groups[0], head, after)|;
      NextCursors(groups, before, head, after, o, n, t);
      RenderedTurn(groups[1..], before, head, after, h.EndOld() - 1, h.EndNew() - 1, trail);
      RenderedTurnStep(groups, before, head, after, o, n, t);
    }
  }

  lemma {:induction false} RenderedTurnStep(groups: seq<Group>, before: seq<string>, head: seq<string>, after: nat, o: nat, n: nat, t: nat)
    requires groups != [] && ReadyGroups(groups, |head|, after)
    requires Turns(Flat(groups), before, head, o, n) && Ahead(groups, before, head, o, n, t)
    requires var h, trail := Last(groups[0].hunks), |Trailing(groups[0], head, after)|;
      && h.EndOld() >= 1 && h.EndNew() >= 1
      && LeadsInside(groups[1..])
      && (Turns(RenderGroups(groups[1..], head, after), before, head, h.EndOld() - 1 + trail, h.EndNew() - 1 + trail)
          <==> NoEmptySide(RenderGroups(groups[1..], head, after)))
    ensures Turns(RenderGroups(groups, head, after), before, head, o + t, n + t)
       <==> NoEmptySide(RenderGroups(groups, head, after))
  {
    InsideReady(groups, |head|, after);
    hide Leading, Trailing, RenderGroup, Turns, ReadyGroups, NoEmptySide, Flat, Ahead, RenderGroups, LeadsInside;
    FirstRenderedTurns(groups, RenderGroups(groups[1..], head, after), before, head, after, o, n, t);
    RenderGroupsFirst(groups, head, after);
    NoEmptySideSplit(RenderGroups(groups, head, after));
  }

  lemma {:induction false} NextCursors(groups: seq<Group>, before: seq<string>, head: seq<string>, after: nat, o: nat, n: nat, t: nat)
    requires groups != [] && ReadyGroups(groups, |head|, after)
    requires Turns(Flat(groups), before, head, o, n) && Ahead(groups, before, head, o, n, t)
    ensures Last(groups[0].hunks).EndOld() >= 1 && Last(groups[0].hunks).EndNew() >= 1
    ensures Turns(Flat(groups[1..]), before, head, Last(groups[0].hunks).EndOld() - 1, Last(groups[0].hunks).EndNew() - 1)
    ensures Ahead(groups[1..], before, head, Last(groups[0].hunks).EndOld() - 1, Last(groups[0].hunks).EndNew() - 1,
                  |Trailing(groups[0], head, after)|)
  {
    hide Leading, Trailing, Turns, ReadyGroups, Flat, Ahead, BodyFits, MergedBody, Agree;
    RenderCursors(groups, before, head, after, o, n, t);
  }

  lemma {:induction false} InsideReady(groups: seq<Group>, length: nat, after: nat)
    requires ReadyGroups(groups, length, after)
    ensures LeadsInside(groups)
    ensures groups != [] ==> LeadInside(groups[0]) && groups[0].hunks != []
  {
  }

  lemma {:induction false} RenderGroupsFirst(groups: seq<Group>, head: seq<string>, after: nat)
    requires LeadsInside(groups) && groups != []
    ensures RenderGroups(groups, head, after) == [RenderGroup(groups[0], head, after)] + RenderGroups(groups[1..], head, after)
    ensures RenderGroups(groups, head, after)[1..] == RenderGroups(groups[1..], head, after)
  {
  }

  lemma {:induction false} RenderedNothing(groups: seq<Group>, before: seq<string>, head: seq<string>, after: nat, o: nat, n: nat, t: nat)
    requires groups == []
    requires Turns(Flat(groups), before, head, o, n) && Ahead(groups, before, head, o, n, t)
    ensures Turns(RenderGroups(groups, head, after), before, head, o + t, n + t)
    ensures NoEmptySide(RenderGroups(groups, head, after))
  {
    TurnsEnd(before, head, o, n, t);
  }

  lemma {:induction false} TrailInside(groups: seq<Group>, before: seq<string>, head: seq<string>, o: nat, n: nat, t: nat)
    requires Ahead(groups, before, head, o, n, t)
    ensures Agree(before, head, o, n, t)
  {
  }

  lemma {:induction false} NoEmptySideSplit(rs: seq<Hunk>)
    requires rs != []
    ensures NoEmptySide(rs) <==> rs[0].header.oldLen > 0 && rs[0].header.newLen > 0 && NoEmptySide(rs[1..])
  {
    assert forall i :: 0 < i < |rs| ==> rs[i] == rs[1..][i - 1];
  }

  lemma {:induction false} RenderedBodyIs(g: Group, head: seq<string>, after: nat)
    requires LeadInside(g)
    ensures RenderGroup(g, head, after).body == RenderedBody(g, head, after)
  {
  }

  lemma {:induction false} TurnsEnd(before: seq<string>, head: seq<string>, o: nat, n: nat, t: nat)
    requires Turns([], before, head, o, n) && o + t <= |before|
    ensures Turns([], before, head, o + t, n + t)
  {
    AgreePart(before, head, o, n, |before| - o, t, |before| - o - t);
  }

  /** Whether a list of hunks turns the files depends, for a first hunk that fits where its
      header starts, on its sides being non-empty and on the rest. */
  lemma {:induction false} FirstTurns(r: Hunk, rest: seq<Hunk>, before: seq<string>, head: seq<string>, o: nat, n: nat)
    requires Sound(r) && r.header.oldStart >= 1 && r.header.newStart >= 1
    requires var o', n' := r.header.oldStart - 1, r.header.newStart - 1;
      && o <= o' && o' - o == n' - n && Agree(before, head, o, n, o' - o)
      && BodyFits(r.body, before, head, o', n')
    ensures Turns([r] + rest, before, head, o, n)
       <==> r.header.oldLen > 0 && r.header.newLen > 0
            && Turns(rest, before, head, r.header.oldStart - 1 + r.header.oldLen, r.header.newStart - 1 + r.header.newLen)
  {
    hide BodyFits, OldCount, NewCount, IsBodyLine, Agree;
    assert ([r] + rest)[0] == r && ([r] + rest)[1..] == rest;
  }

  // ----- The patch -----

  lemma {:induction false} ExpandedHunksTurn(hs: seq<Hunk>, before: seq<string>, head: seq<string>, n: nat, after: nat, spans: seq<Span>)
    requires Spans(spans) && Chained(hs) && Apply(hs, before) == Some(head)
    ensures Apply(ExpandedHunks(hs, head, n, after, spans), before) == Some(head)
       <==> NoEmptySide(ExpandedHunks(hs, head, n, after, spans))
  {
    hide Chained, ReadyGroups, GroupFrom, RenderGroups, Turns, Apply, NoEmptySide;
    var groups := GroupFrom([], hs, |head|, n, after, spans);
    GroupsReady(hs, |head|, n, after, spans);
    GroupsLeadInside([], hs, |head|, n, after, spans);
    ApplyMeansTurns(hs, before, head);
    ApplyMeansTurns(RenderGroups(groups, head, after), before, head);
    ReadyStarts(groups, |head|, after);
    RenderedTurn(groups, before, head, after, 0, 0, 0);
  }

  /** If a patch turns an old file into the head text it is expanded with, then the expanded patch
      does too, if and only if no hunk it prints has an empty side. */
  lemma {:induction false} ExpandKeepsMeaning(patch: string, pad: Padding, before: seq<string>)
    requires pad.Valid() && !pad.Off() && WellFormedPatch(Lines(patch))
    requires Apply(ParseHunks(Lines(patch)).hunks, before) == Some(pad.Content())
    ensures var rs := ParseHunks(Lines(ExpandPatch(patch, pad))).hunks;
      Apply(rs, before) == Some(pad.Content()) <==> NoEmptySide(rs)
  {
    hide WellFormedPatch, Chained, Apply, NoEmptySide, ExpandedHunks, AllHunkLines;
    var hs := ParseHunks(Lines(patch)).hunks;
    WellFormedParts(Lines(patch));
    if hs == [] {
      assert NoEmptySide([]) by { EmptyHasNoEmptySide(); }
    } else {
      ExpandedTextParses(patch, pad);
      ExpandedHunksTurn(hs, before, pad.Content(), pad.n, Max(0, pad.after), pad.spans);
    }
  }

  lemma {:induction false} EmptyHasNoEmptySide()
    ensures NoEmptySide([])
  {
  }

  lemma {:induction false} ReadyStarts(groups: seq<Group>, length: nat, after: nat)
    requires ReadyGroups(groups, length, after)
    ensures NonEmptyGroups(groups) && (groups != [] ==> 1 <= groups[0].leadStart)
  {
    if groups != [] {
      assert LeadInside(groups[0]);
    }
  }

  /** A patch that shows both sides in every hunk, as git's does away from an added or deleted
      file's edge, always keeps its meaning. */
  lemma {:induction false} BothSidesStay(groups: seq<Group>, content: seq<string>, after: nat)
    requires ReadyGroups(groups, |content|, after) && NoEmptySide(Flat(groups))
    ensures LeadsInside(groups) && NoEmptySide(RenderGroups(groups, content, after))
    decreases |groups|
  {
    InsideReady(groups, |content|, after);
    hide ReadyGroups, LeadsInside, RenderGroup, RenderGroups, Trailing, Leading, Sound, Follows, Grouped, LeadInside;
    if groups == [] {
      RenderedNone(groups, content, after);
    } else {
      var g := groups[0];
      ReadyBelow(groups, |content|, after);
      NoEmptySideParts(g.hunks, Flat(groups[1..]));
      BothSidesStay(groups[1..], content, after);
      hide NoEmptySide, Flat, Chained;
      FirstHasBothSides(groups, content, after);
      RenderGroupsFirst(groups, content, after);
      NoEmptySideSplit(RenderGroups(groups, content, after));
    }
  }

  lemma {:induction false} NoEmptySideParts(a: seq<Hunk>, b: seq<Hunk>)
    requires NoEmptySide(a + b)
    ensures NoEmptySide(a) && NoEmptySide(b)
  {
    assert forall i :: 0 <= i < |a| ==> a[i] == (a + b)[i];
    assert forall i :: 0 <= i < |b| ==> b[i] == (a + b)[|a| + i];
  }

  /** A group that shows both sides in its first hunk shows both when rendered. */
  lemma {:induction false} FirstHasBothSides(groups: seq<Group>, content: seq<string>, after: nat)
    requires groups != [] && ReadyGroups(groups, |content|, after) && NoEmptySide(groups[0].hunks) && LeadInside(groups[0])
    ensures var r := RenderGroup(groups[0], content, after); r.header.oldLen > 0 && r.header.newLen > 0
  {
    var g := groups[0];
    assert g.hunks != [];
    hide ReadyGroups, RenderGroup, Trailing, Leading, Sound, Follows, LeadInside;
    ReadyBelow(groups, |content|, after);
    RenderKeepsChanges("", g, content, after);
    assert Chained(g.hunks);
    EndsBeyondFirst(g.hunks);
  }

  lemma {:induction false} RenderedNone(groups: seq<Group>, content: seq<string>, after: nat)
    requires groups == []
    ensures NoEmptySide(RenderGroups(groups, content, after))
  {
  }

  lemma {:induction false} EndsBeyondFirst(hs: seq<Hunk>)
    requires hs != [] && Chained(hs)
    ensures hs[0].EndOld() <= Last(hs).EndOld() && hs[0].EndNew() <= Last(hs).EndNew()
  {
    if |hs| > 1 {
      assert hs == [hs[0]] + hs[1..];
      ChainedParts([hs[0]], hs[1..]);
      ChainedEnds(hs[1..]);
    }
  }

  /** With both sides shown in every hunk, expansion keeps the meaning outright. */
  lemma {:induction false} ExpandKeepsMeaningOfEdits(hs: seq<Hunk>, before: seq<string>, head: seq<string>, n: nat, after: nat, spans: seq<Span>)
    requires Spans(spans) && Chained(hs) && NoEmptySide(hs) && Apply(hs, before) == Some(head)
    ensures Apply(ExpandedHunks(hs, head, n, after, spans), before) == Some(head)
  {
    hide ReadyGroups, GroupFrom, RenderGroups, Apply, Chained, NoEmptySide;
    GroupsReady(hs, |head|, n, after, spans);
    GroupsLeadInside([], hs, |head|, n, after, spans);
    BothSidesStay(GroupFrom([], hs, |head|, n, after, spans), head, after);
    ExpandedHunksTurn(hs, before, head, n, after, spans);
  }

  /** The case the condition shuts out: an added file is printed as starting on old line 1, one
      past the line an empty range is read as following, and no longer applies. */
  lemma {:induction false} AddedFileLosesItsStart()
    ensures var hs, rs := [AddedFile(0)], ExpandedHunks([AddedFile(0)], ["x"], 3, 1, []);
      && Chained(hs) && Apply(hs, []) == Some(["x"])
      && rs == [AddedFile(1)] && Apply(rs, []) == None
  {
    AddedFileApplies();
    var h := AddedFile(0);
    var g := Group([h], 1);
    assert LeadStart(h, 3, []) == 1;
    assert GroupFrom([], [h], 1, 3, 1, []) == [g] by {
      assert AddHunk([], h, 1, 3, 1, []) == [g] && [h][1..] == [];
    }
    assert RenderedBody(g, ["x"], 1) == ["+x"];
    assert Occupying(["+x"], '-') == 0 && Occupying(["+x"], '+') == 1;
  }

  function AddedFile(oldStart: nat): Hunk {
    Hunk(HunkHeader(oldStart, 0, 1, 1, ""), ["+x"])
  }

  lemma {:induction false} AddedFileApplies()
    ensures Chained([AddedFile(0)]) && Apply([AddedFile(0)], []) == Some(["x"])
    ensures Apply([AddedFile(1)], []) == None
  {
    assert OldCount(["+x"]) == 0 && NewCount(["+x"]) == 1;
    assert Sound(AddedFile(0));
    assert ["+x"][1..] == [] && "+x"[1..] == "x";
    assert ["x"] + [] == ["x"];
    assert ApplyBody(["+x"], [], 0) == Prepend(["x"], Some([])) == Some(["x"]);
    var none: seq<string> := [];
    assert none[0..0] + ["x"] + [] == ["x"] && none[0..] == [];
    assert [AddedFile(0)][1..] == [];
  }

  // ----- Where the walk puts each line -----

  predicate Agrees(e: Entry, before: seq<string>, head: seq<string>) {
    && (!e.kind.Deleted? ==> 1 <= e.newLine <= |head| && head[e.newLine - 1] == e.text)
    && (!e.kind.Added? ==> 1 <= e.oldLine <= |before| && before[e.oldLine - 1] == e.text)
  }

  lemma {:induction false} FittingBodyAgrees(path: string, body: seq<string>, before: seq<string>, head: seq<string>,
                                             o: nat, n: nat, o': nat, n': nat, e: Entry)
    requires BodyFits(body, before, head, o, n) && e in BodyEntries(path, o', n', body)
    requires o' == o + 1 || OldCount(body) == 0
    requires n' == n + 1 || NewCount(body) == 0
    ensures Agrees(e, before, head)
    decreases |body|
  {
    var w, v := OldWidth(body[0]), NewWidth(body[0]);
    if e !in LineEntries(path, o', n', body[0]) {
      FittingBodyAgrees(path, body[1..], before, head, o + w, n + v, o' + w, n' + v, e);
    }
  }

  /** Every line a patch keeps or adds is the new file's line at the number the walk gives it, and
      every line it keeps or deletes is the old file's. */
  lemma {:induction false} WalkNumbersAreTrue(path: string, hs: seq<Hunk>, before: seq<string>, head: seq<string>, o: nat, n: nat, e: Entry)
    requires Turns(hs, before, head, o, n) && Chained(hs) && e in HunksEntries(path, hs)
    ensures Agrees(e, before, head)
    decreases |hs|
  {
    hide BodyFits, BodyEntries, Agrees, OldCount, NewCount, Follows;
    var h := hs[0];
    assert hs == [h] + hs[1..];
    ChainedParts([h], hs[1..]);
    SoundStarts(h);
    if e in HunkEntries(path, h) {
      FittingBodyAgrees(path, h.body, before, head, h.FirstOld() - 1, h.FirstNew() - 1, h.header.oldStart, h.header.newStart, e);
    } else {
      WalkNumbersAreTrue(path, hs[1..], before, head, h.FirstOld() - 1 + OldCount(h.body), h.FirstNew() - 1 + NewCount(h.body), e);
    }
  }

  lemma {:induction false} RenderedNumbersAreTrue(path: string, groups: seq<Group>, before: seq<string>, head: seq<string>, after: nat,
                                                  o: nat, n: nat, t: nat, e: Entry)
    requires ReadyGroups(groups, |head|, after) && LeadsInside(groups)
    requires Turns(Flat(groups), before, head, o, n) && Ahead(groups, before, head, o, n, t)
    requires e in HunksEntries(path, RenderGroups(groups, head, after))
    ensures Agrees(e, before, head)
    decreases |groups|
  {
    hide *;
    EntriesNeedHunks(path, RenderGroups(groups, head, after), e);
    FirstRenderedFits(groups, before, head, after, o, n, t);
    NextCursors(groups, before, head, after, o, n, t);
    ReadyBelow(groups, |head|, after);
    InsideReady(groups, |head|, after);
    InsideReady(groups[1..], |head|, after);
    RenderGroupsFirst(groups, head, after);
    var rs := RenderGroups(groups, head, after);
    FirstEntries(path, rs);
    var r := rs[0];
    if e in HunkEntries(path, r) {
      HunkAgrees(path, r, before, head, e);
    } else {
      var h := Last(groups[0].hunks);
      RenderedNumbersAreTrue(path, groups[1..], before, head, after, h.EndOld() - 1, h.EndNew() - 1, |Trailing(groups[0], head, after)|, e);
    }
  }

  lemma {:induction false} EntriesNeedHunks(path: string, hs: seq<Hunk>, e: Entry)
    requires e in HunksEntries(path, hs)
    ensures hs != []
  {
  }

  lemma {:induction false} FirstEntries(path: string, hs: seq<Hunk>)
    requires hs != []
    ensures HunksEntries(path, hs) == HunkEntries(path, hs[0]) + HunksEntries(path, hs[1..])
  {
  }

  lemma {:induction false} HunkAgrees(path: string, h: Hunk, before: seq<string>, head: seq<string>, e: Entry)
    requires h.header.oldStart >= 1 && h.header.newStart >= 1
    requires BodyFits(h.body, before, head, h.header.oldStart - 1, h.header.newStart - 1) && e in HunkEntries(path, h)
    ensures Agrees(e, before, head)
  {
    FittingBodyAgrees(path, h.body, before, head, h.header.oldStart - 1, h.header.newStart - 1, h.header.oldStart, h.header.newStart, e);
  }

  lemma {:induction false} ExpandedHunksNumbered(path: string, hs: seq<Hunk>, before: seq<string>, head: seq<string>, n: nat, after: nat,
                                                 spans: seq<Span>, e: Entry)
    requires Spans(spans) && Chained(hs) && Apply(hs, before) == Some(head)
    requires e in HunksEntries(path, ExpandedHunks(hs, head, n, after, spans))
    ensures Agrees(e, before, head)
  {
    hide Chained, ReadyGroups, GroupFrom, RenderGroups, Turns, Apply, HunksEntries, Agrees;
    var groups := GroupFrom([], hs, |head|, n, after, spans);
    GroupsReady(hs, |head|, n, after, spans);
    GroupsLeadInside([], hs, |head|, n, after, spans);
    ApplyMeansTurns(hs, before, head);
    ReadyStarts(groups, |head|, after);
    RenderedNumbersAreTrue(path, groups, before, head, after, 0, 0, 0, e);
  }

  /** If a patch turns an old file into the head text it is expanded with, every line the expanded patch
      keeps or adds, padding included, is the new file's line at the number the walk gives it, and every
      line it keeps or deletes is the old file's; whether or not a side is empty. */
  lemma {:induction false} ExpandedNumbersAreTrue(patch: string, pad: Padding, before: seq<string>, head: seq<string>, e: Entry)
    requires pad.Valid() && WellFormedPatch(Lines(patch)) && (!pad.Off() ==> pad.Content() == head)
    requires Apply(ParseHunks(Lines(patch)).hunks, before) == Some(head)
    requires e in Entries(ExpandPatch(patch, pad))
    ensures Agrees(e, before, head)
  {
    var hs, path := ParseHunks(Lines(patch)).hunks, PathOf(Lines(patch)).GetOr("");
    hide WellFormedPatch, Chained, Apply, ExpandedHunks, AllHunkLines, HunksEntries, Agrees, Walk, PathOf, Walkable, Turns;
    WellFormedParts(Lines(patch));
    WellFormedIsWalkable(Lines(patch));
    SectionWalk(Lines(patch), START);
    if pad.Off() || hs == [] {
      ApplyMeansTurns(hs, before, head);
      WalkNumbersAreTrue(path, hs, before, head, 0, 0, e);
    } else {
      ExpandedTextParses(patch, pad);
      ExpandedWalkable(patch, pad);
      SectionWalk(Lines(ExpandPatch(patch, pad)), START);
      ExpandedHunksNumbered(path, hs, before, head, pad.n, Max(0, pad.after), pad.spans, e);
    }
  }
}
