/** What hunk expansion keeps, for any head text: every changed line, and headers that stay
    true, in order and apart. */
module ExpandProofs {
  import opened Text
  import opened DiffParse
  import opened Geometry
  import opened ChangeIndex
  import opened Expand

  // ----- What grouping guarantees -----

  function Last<T>(s: seq<T>): T
    requires s != []
  {
    s[|s| - 1]
  }

  function Flat(groups: seq<Group>): seq<Hunk> {
    if groups == [] then [] else groups[0].hunks + Flat(groups[1..])
  }

  /** Within a group the head text reaches every gap. */
  predicate Fillable(hunks: seq<Hunk>, length: nat) {
    forall i :: 0 < i < |hunks| ==> hunks[i].FirstNew() - 1 <= length
  }

  /** Each group's pad starts below the trailing pad of the one before. */
  predicate Apart(groups: seq<Group>, length: nat, after: nat)
    requires NonEmptyGroups(groups)
  {
    forall i :: 0 < i < |groups| ==> TrailEnd(Last(groups[i - 1].hunks), length, after) < groups[i].leadStart
  }

  predicate Grouped(groups: seq<Group>, length: nat, after: nat) {
    && NonEmptyGroups(groups)
    && (forall i :: 0 <= i < |groups| ==> groups[i].leadStart <= groups[i].hunks[0].FirstNew())
    && (forall i :: 0 <= i < |groups| ==> Fillable(groups[i].hunks, length))
    && Apart(groups, length, after)
  }

  lemma {:induction false} FlatConcat(a: seq<Group>, b: seq<Group>)
    ensures Flat(a + b) == Flat(a) + Flat(b)
  {
    if a == [] {
      assert a + b == b;
    } else {
      assert (a + b)[1..] == a[1..] + b;
      FlatConcat(a[1..], b);
    }
  }

  lemma {:induction false} LeadStartBefore(hunk: Hunk, n: nat, spans: seq<Span>)
    requires Sound(hunk)
    ensures LeadStart(hunk, n, spans) <= hunk.FirstNew()
  {
    hide Enclosing;
  }

  predicate GroupFits(groups: seq<Group>, g: Group, length: nat, after: nat)
    requires NonEmptyGroups(groups)
  {
    && g.hunks != [] && g.leadStart <= g.hunks[0].FirstNew() && Fillable(g.hunks, length)
    && (groups != [] ==> TrailEnd(Last(Last(groups).hunks), length, after) < g.leadStart)
  }

  lemma {:induction false} GroupedAppend(groups: seq<Group>, g: Group, length: nat, after: nat)
    requires Grouped(groups, length, after) && GroupFits(groups, g, length, after)
    ensures Grouped(groups + [g], length, after) && Flat(groups + [g]) == Flat(groups) + g.hunks
  {
    hide TrailEnd, Fillable;
    FlatConcat(groups, [g]);
    assert Flat([g]) == g.hunks + [] == g.hunks;
  }

  lemma {:induction false} GroupedFront(groups: seq<Group>, length: nat, after: nat)
    requires Grouped(groups, length, after) && groups != []
    ensures var front := groups[..|groups| - 1];
      && Grouped(front, length, after) && GroupFits(front, Last(groups), length, after)
      && Flat(groups) == Flat(front) + Last(groups).hunks
  {
    hide TrailEnd, Fillable;
    var front, g := groups[..|groups| - 1], Last(groups);
    assert groups == front + [g];
    FlatConcat(front, [g]);
    assert Flat([g]) == g.hunks + [] == g.hunks;
  }

  lemma {:induction false} AddHunkKeeps(groups: seq<Group>, hunk: Hunk, length: nat, n: nat, after: nat, spans: seq<Span>)
    requires Grouped(groups, length, after) && Sound(hunk)
    ensures var groups' := AddHunk(groups, hunk, length, n, after, spans);
            Grouped(groups', length, after) && Flat(groups') == Flat(groups) + [hunk]
  {
    LeadStartBefore(hunk, n, spans);
    assert groups != [] ==> TrailEnd(Last(Last(groups).hunks), length, after) <= length;
    hide LeadStart, TrailEnd, Sound, Grouped, NonEmptyGroups;
    var lead := LeadStart(hunk, n, spans);
    if groups == [] {
      GroupedAppend([], Group([hunk], lead), length, after);
      assert [] + [Group([hunk], lead)] == [Group([hunk], lead)];
    } else {
      GroupedFront(groups, length, after);
      var front, g := groups[..|groups| - 1], Last(groups);
      var trailEnd := TrailEnd(Last(g.hunks), length, after);
      if lead <= trailEnd + 1 && hunk.FirstNew() - 1 <= length {
        GroupedAppend(front, Group(g.hunks + [hunk], g.leadStart), length, after);
        Assoc(Flat(front), g.hunks, [hunk]);
      } else {
        GroupedAppend(groups, Group([hunk], if lead <= trailEnd + 1 then Max(lead, trailEnd + 1) else lead), length, after);
      }
    }
  }

  lemma {:induction false} GroupingKeeps(groups: seq<Group>, hunks: seq<Hunk>, length: nat, n: nat, after: nat, spans: seq<Span>)
    requires Grouped(groups, length, after) && forall i :: 0 <= i < |hunks| ==> Sound(hunks[i])
    ensures var result := GroupFrom(groups, hunks, length, n, after, spans);
            Grouped(result, length, after) && Flat(result) == Flat(groups) + hunks
    decreases |hunks|
  {
    assert NonEmptyGroups(groups);
    hide AddHunk, Grouped, NonEmptyGroups, Sound, Flat;
    if hunks != [] {
      AddHunkKeeps(groups, hunks[0], length, n, after, spans);
      Assoc(Flat(groups), [hunks[0]], hunks[1..]);
      GroupingKeeps(AddHunk(groups, hunks[0], length, n, after, spans), hunks[1..], length, n, after, spans);
      assert hunks == [hunks[0]] + hunks[1..];
    }
  }

  // ----- Chains of hunks -----

  lemma {:induction false} SoundStarts(h: Hunk)
    requires Sound(h)
    ensures 1 <= h.FirstOld() && 1 <= h.FirstNew()
    ensures h.header.oldLen == OldCount(h.body) && h.header.newLen == NewCount(h.body)
  {
  }

  lemma {:induction false} ChainedParts(a: seq<Hunk>, b: seq<Hunk>)
    requires Chained(a + b)
    ensures Chained(a) && Chained(b)
    ensures a != [] && b != [] ==> Follows(Last(a), b[0])
  {
    hide Sound, Follows;
    var ab := a + b;
    forall i | 0 <= i < |a| ensures Sound(a[i]) { assert ab[i] == a[i]; }
    forall i | 0 < i < |a| ensures Follows(a[i - 1], a[i]) { assert ab[i] == a[i] && ab[i - 1] == a[i - 1]; }
    forall i | 0 <= i < |b| ensures Sound(b[i]) { assert ab[|a| + i] == b[i]; }
    forall i | 0 < i < |b| ensures Follows(b[i - 1], b[i]) {
      assert ab[|a| + i] == b[i] && ab[|a| + i - 1] == b[i - 1];
    }
    if a != [] && b != [] {
      assert ab[|a|] == b[0] && ab[|a| - 1] == Last(a);
    }
  }

  /** Along a chain the two sides advance together, so the distance from the first line of the
      first hunk to the end of the last is what the merged hunk will count. */
  lemma {:induction false} ChainedEnds(hs: seq<Hunk>)
    requires Chained(hs) && hs != []
    ensures hs[0].FirstOld() <= Last(hs).EndOld() && hs[0].FirstNew() <= Last(hs).EndNew()
    decreases |hs|
  {
    if |hs| > 1 {
      assert hs == [hs[0]] + hs[1..];
      ChainedParts([hs[0]], hs[1..]);
      ChainedEnds(hs[1..]);
    }
  }

  // ----- Context lines change nothing -----

  lemma {:induction false} ContextIsNeutral(path: string, o: nat, n: nat, texts: seq<string>)
    ensures AllBody(ContextLines(texts))
    ensures OldCount(ContextLines(texts)) == |texts| == NewCount(ContextLines(texts))
    ensures Changes(BodyEntries(path, o, n, ContextLines(texts))) == []
    decreases |texts|
  {
    var lines := ContextLines(texts);
    if texts != [] {
      assert lines[0] == [' '] + texts[0];
      assert lines[1..] == ContextLines(texts[1..]);
      ContextIsNeutral(path, o + 1, n + 1, texts[1..]);
      assert LineEntries(path, o, n, lines[0]) == [Entry(path, Context, o, n, texts[0])];
    }
  }

  lemma {:induction false} LineShift(path: string, o: nat, n: nat, o': nat, n': nat, line: string)
    requires o == o' || OldWidth(line) == 0
    requires n == n' || NewWidth(line) == 0
    ensures Changes(LineEntries(path, o, n, line)) == Changes(LineEntries(path, o', n', line))
  {
  }

  /** A side no line of the body occupies gives no changed line its number. */
  lemma {:induction false} ChangesShift(path: string, o: nat, n: nat, o': nat, n': nat, body: seq<string>)
    requires o == o' || OldCount(body) == 0
    requires n == n' || NewCount(body) == 0
    ensures Changes(BodyEntries(path, o, n, body)) == Changes(BodyEntries(path, o', n', body))
    decreases |body|
  {
    hide LineEntries, OldWidth, NewWidth, Changes;
    if body != [] {
      var w, v := OldWidth(body[0]), NewWidth(body[0]);
      ChangesShift(path, o + w, n + v, o' + w, n' + v, body[1..]);
      ChangesConcat(LineEntries(path, o, n, body[0]), BodyEntries(path, o + w, n + v, body[1..]));
      ChangesConcat(LineEntries(path, o', n', body[0]), BodyEntries(path, o' + w, n' + v, body[1..]));
      LineShift(path, o, n, o', n', body[0]);
    }
  }

  lemma {:induction false} HunkChanges(path: string, h: Hunk)
    requires Sound(h)
    ensures Changes(HunkEntries(path, h)) == Changes(BodyEntries(path, h.FirstOld(), h.FirstNew(), h.body))
  {
    ChangesShift(path, h.header.oldStart, h.header.newStart, h.FirstOld(), h.FirstNew(), h.body);
  }

  lemma {:induction false} BodyChanges(path: string, o: nat, n: nat, a: seq<string>, b: seq<string>)
    ensures OldCount(a + b) == OldCount(a) + OldCount(b)
    ensures NewCount(a + b) == NewCount(a) + NewCount(b)
    ensures Changes(BodyEntries(path, o, n, a + b))
         == Changes(BodyEntries(path, o, n, a)) + Changes(BodyEntries(path, o + OldCount(a), n + NewCount(a), b))
  {
    BodyConcat(path, o, n, a, b);
    ChangesConcat(BodyEntries(path, o, n, a), BodyEntries(path, o + OldCount(a), n + NewCount(a), b));
  }

  // ----- Merging -----

  lemma {:induction false} GapLength(h: Hunk, next: Hunk, content: seq<string>)
    requires Sound(h) && Follows(h, next) && next.FirstNew() - 1 <= |content|
    ensures Gap(h, next, content) == content[h.EndNew() - 1..next.FirstNew() - 1]
    ensures |Gap(h, next, content)| == next.FirstNew() - h.EndNew() == next.FirstOld() - h.EndOld()
  {
    SoundStarts(h);
  }

  lemma {:induction false} MergeKeepsChanges(path: string, hs: seq<Hunk>, content: seq<string>)
    requires hs != [] && Chained(hs) && Fillable(hs, |content|)
    ensures var body := MergedBody(hs, content);
      && AllBody(body)
      && OldCount(body) == Last(hs).EndOld() - hs[0].FirstOld()
      && NewCount(body) == Last(hs).EndNew() - hs[0].FirstNew()
      && Changes(BodyEntries(path, hs[0].FirstOld(), hs[0].FirstNew(), body)) == Changes(HunksEntries(path, hs))
    decreases |hs|
  {
    hide Changes, BodyEntries, IsBodyLine, OldCount, NewCount, Gap, Follows, ContextLines;
    var h, next := hs[0], hs[1..];
    assert hs == [h] + next;
    ChainedParts([h], next);
    HunkChanges(path, h);
    if next == [] {
      assert HunksEntries(path, hs) == HunkEntries(path, h) + [] == HunkEntries(path, h);
    } else {
      var below := MergedBody(next, content);
      var gap := Gap(h, next[0], content);
      var o, n := h.EndOld(), h.EndNew();
      assert Fillable(next, |content|);
      MergeKeepsChanges(path, next, content);
      GapLength(h, next[0], content);
      ContextIsNeutral(path, o, n, gap);
      BodyChanges(path, o, n, ContextLines(gap), below);
      BodyChanges(path, h.FirstOld(), h.FirstNew(), h.body, ContextLines(gap) + below);
      AllBodyConcat(ContextLines(gap), below);
      AllBodyConcat(h.body, ContextLines(gap) + below);
      ChangesConcat(HunkEntries(path, h), HunksEntries(path, next));
      assert [] + Changes(HunksEntries(path, next)) == Changes(HunksEntries(path, next));
    }
  }

  lemma {:induction false} AllBodyConcat(a: seq<string>, b: seq<string>)
    requires AllBody(a) && AllBody(b)
    ensures AllBody(a + b)
  {
  }

  // ----- One rendered group -----

  lemma {:induction false} OccupyingCounts(lines: seq<string>)
    requires AllBody(lines)
    ensures Occupying(lines, '-') == OldCount(lines) && Occupying(lines, '+') == NewCount(lines)
  {
    if lines != [] {
      assert IsBodyLine(lines[0]);
      OccupyingCounts(lines[1..]);
    }
  }

  predicate ReadyGroup(g: Group, length: nat) {
    && LeadInside(g) && g.leadStart <= g.hunks[0].FirstNew()
    && Chained(g.hunks) && Fillable(g.hunks, length)
  }

  /** One group printed as one hunk: same changed lines, true lengths, and the two ends of its
      ranges are the ends of the group moved out by the pads. */
  lemma {:induction false} RenderKeepsChanges(path: string, g: Group, content: seq<string>, after: nat)
    requires ReadyGroup(g, |content|)
    ensures var r := RenderGroup(g, content, after);
      && Sound(r)
      && r.header.oldStart == g.hunks[0].FirstOld() - |Leading(g, content)| >= 1
      && r.header.newStart == g.hunks[0].FirstNew() - |Leading(g, content)| >= 1
      && r.header.oldStart + r.header.oldLen == Last(g.hunks).EndOld() + |Trailing(g, content, after)|
      && r.header.newStart + r.header.newLen == Last(g.hunks).EndNew() + |Trailing(g, content, after)|
      && Changes(HunkEntries(path, r)) == Changes(HunksEntries(path, g.hunks))
  {
    hide Changes, BodyEntries, IsBodyLine, OldCount, NewCount, Leading, Trailing, Sound, MergedBody, ContextLines, Occupying;
    var r := RenderGroup(g, content, after);
    var lead, trail := ContextLines(Leading(g, content)), ContextLines(Trailing(g, content, after));
    var merged := MergedBody(g.hunks, content);
    var o, n := r.header.oldStart, r.header.newStart;
    RenderedStarts(g, content);
    assert r.body == (lead + merged) + trail;
    MergeKeepsChanges(path, g.hunks, content);
    ContextIsNeutral(path, o, n, Leading(g, content));
    BodyChanges(path, o, n, lead, merged);
    BodyChanges(path, o, n, lead + merged, trail);
    ContextIsNeutral(path, Last(g.hunks).EndOld(), Last(g.hunks).EndNew(), Trailing(g, content, after));
    AllBodyConcat(lead, merged);
    AllBodyConcat(lead + merged, trail);
    OccupyingCounts(r.body);
    MergedNotEmpty(g.hunks);
    RenderedSound(r);
    assert Changes(HunkEntries(path, r)) == ([] + Changes(HunksEntries(path, g.hunks))) + [];
  }

  lemma {:induction false} RenderedSound(r: Hunk)
    requires AllBody(r.body) && r.header.oldLen == OldCount(r.body) && r.header.newLen == NewCount(r.body)
    requires r.header.oldStart >= 1 && r.header.newStart >= 1 && r.header.oldLen + r.header.newLen > 0
    ensures Sound(r)
  {
  }

  lemma {:induction false} RenderedStarts(g: Group, content: seq<string>)
    requires LeadInside(g) && Chained(g.hunks)
    ensures g.hunks[0].FirstOld() - |Leading(g, content)| >= 1
    ensures g.hunks[0].FirstNew() - |Leading(g, content)| >= 1
  {
    LeadingFits(g, content);
    SoundStarts(g.hunks[0]);
  }

  lemma {:induction false} MergedNotEmpty(hs: seq<Hunk>)
    requires hs != [] && Chained(hs)
    ensures Last(hs).EndOld() - hs[0].FirstOld() + Last(hs).EndNew() - hs[0].FirstNew() > 0
  {
    assert hs == [hs[0]] + hs[1..];
    ChainedParts([hs[0]], hs[1..]);
    if |hs| > 1 {
      ChainedEnds(hs[1..]);
    }
  }

  // ----- All groups of a patch -----

  predicate ReadyGroups(groups: seq<Group>, length: nat, after: nat) {
    && LeadsInside(groups)
    && Grouped(groups, length, after)
    && Chained(Flat(groups))
  }

  lemma {:induction false} ReadyBelow(groups: seq<Group>, length: nat, after: nat)
    requires ReadyGroups(groups, length, after) && groups != []
    ensures ReadyGroup(groups[0], length) && ReadyGroups(groups[1..], length, after)
    ensures |groups| > 1 ==> Follows(Last(groups[0].hunks), groups[1].hunks[0])
    ensures |groups| > 1 ==> TrailEnd(Last(groups[0].hunks), length, after) < groups[1].leadStart
  {
    hide Follows, Sound, TrailEnd;
    var below := groups[1..];
    ChainedParts(groups[0].hunks, Flat(below));
    assert forall i :: 0 <= i < |below| ==> below[i] == groups[i + 1];
    if below != [] {
      assert Flat(below) == below[0].hunks + Flat(below[1..]);
      assert Flat(below)[0] == below[0].hunks[0];
    }
  }

  /** What a printed header leaves to be true of the next: its ranges start at or after this one's end. */
  predicate Below(r: Hunk, next: Hunk) {
    && r.header.oldStart + r.header.oldLen <= next.header.oldStart
    && r.header.newStart + r.header.newLen <= next.header.newStart
  }

  predicate Descending(rs: seq<Hunk>) {
    && (forall i :: 0 <= i < |rs| ==> Sound(rs[i]) && rs[i].header.oldStart >= 1 && rs[i].header.newStart >= 1)
    && (forall i :: 0 < i < |rs| ==> Below(rs[i - 1], rs[i]))
  }

  /** The trailing pad of a group ends where the group's own lines or its pad do. */
  lemma {:induction false} TrailingLength(g: Group, content: seq<string>, after: nat)
    requires ReadyGroup(g, |content|)
    ensures var t := TrailEnd(Last(g.hunks), |content|, after) - LastNew(Last(g.hunks));
            |Trailing(g, content, after)| == if t > 0 then t else 0
  {
    SoundStarts(Last(g.hunks));
  }

  /** The leading pad of a group starts at its lead start, or is empty. */
  lemma {:induction false} LeadingLength(g: Group, content: seq<string>)
    requires ReadyGroup(g, |content|)
    ensures var k := Min(g.hunks[0].FirstNew(), |content| + 1) - g.leadStart;
            |Leading(g, content)| == if k > 0 then k else 0
  {
    SoundStarts(g.hunks[0]);
  }

  lemma {:induction false} NeighboursApart(g: Group, next: Group, content: seq<string>, after: nat)
    requires ReadyGroup(g, |content|) && ReadyGroup(next, |content|)
    requires Follows(Last(g.hunks), next.hunks[0])
    requires TrailEnd(Last(g.hunks), |content|, after) < next.leadStart
    ensures Last(g.hunks).EndNew() + |Trailing(g, content, after)| <= next.hunks[0].FirstNew() - |Leading(next, content)|
    ensures Last(g.hunks).EndOld() + |Trailing(g, content, after)| <= next.hunks[0].FirstOld() - |Leading(next, content)|
  {
    hide Chained, Fillable, Trailing, Leading;
    TrailingLength(g, content, after);
    LeadingLength(next, content);
  }

  lemma {:induction false} RenderedKeepChanges(path: string, groups: seq<Group>, content: seq<string>, after: nat)
    requires ReadyGroups(groups, |content|, after)
    ensures var rs := RenderGroups(groups, content, after);
      && Descending(rs)
      && Changes(HunksEntries(path, rs)) == Changes(HunksEntries(path, Flat(groups)))
    decreases |groups|
  {
    hide Changes, HunkEntries, Sound, Below, RenderGroup, ReadyGroup, Leading, Trailing;
    if groups != [] {
      var g, below := groups[0], groups[1..];
      var rs := RenderGroups(groups, content, after);
      ReadyBelow(groups, |content|, after);
      RenderKeepsChanges(path, g, content, after);
      RenderedKeepChanges(path, below, content, after);
      assert rs == [rs[0]] + RenderGroups(below, content, after);
      if below != [] {
        ReadyBelow(below, |content|, after);
        RenderedNeighbours(path, g, below[0], content, after);
      }
      ChangesConcat(HunkEntries(path, rs[0]), HunksEntries(path, rs[1..]));
      HunksConcat(path, g.hunks, Flat(below));
      ChangesConcat(HunksEntries(path, g.hunks), HunksEntries(path, Flat(below)));
    }
  }

  lemma {:induction false} RenderedNeighbours(path: string, g: Group, next: Group, content: seq<string>, after: nat)
    requires ReadyGroup(g, |content|) && ReadyGroup(next, |content|)
    requires Follows(Last(g.hunks), next.hunks[0])
    requires TrailEnd(Last(g.hunks), |content|, after) < next.leadStart
    ensures Below(RenderGroup(g, content, after), RenderGroup(next, content, after))
  {
    hide RenderGroup, Leading, Trailing, Follows, TrailEnd, Sound;
    RenderKeepsChanges(path, g, content, after);
    RenderKeepsChanges(path, next, content, after);
    NeighboursApart(g, next, content, after);
  }

  lemma {:induction false} GroupsReady(hunks: seq<Hunk>, length: nat, n: nat, after: nat, spans: seq<Span>)
    requires Spans(spans) && Chained(hunks)
    ensures var groups := GroupFrom([], hunks, length, n, after, spans);
            ReadyGroups(groups, length, after) && Flat(groups) == hunks
  {
    GroupsLeadInside([], hunks, length, n, after, spans);
    GroupingKeeps([], hunks, length, n, after, spans);
    assert [] + hunks == hunks;
  }

  /** The hunks of an expanded patch: same changed lines, whatever the head text holds. */
  lemma {:induction false} ExpandedHunksKeepChanges(path: string, hunks: seq<Hunk>, content: seq<string>, n: nat, after: nat, spans: seq<Span>)
    requires Spans(spans) && Chained(hunks)
    ensures var rs := ExpandedHunks(hunks, content, n, after, spans);
      && Descending(rs)
      && (hunks != [] ==> rs != [])
      && Changes(HunksEntries(path, rs)) == Changes(HunksEntries(path, hunks))
  {
    hide Descending, ReadyGroups, GroupFrom;
    GroupsReady(hunks, |content|, n, after, spans);
    assert LeadsInside(GroupFrom([], hunks, |content|, n, after, spans)) by { GroupsLeadInside([], hunks, |content|, n, after, spans); }
    RenderedKeepChanges(path, GroupFrom([], hunks, |content|, n, after, spans), content, after);
  }

  // ----- The text -----

  lemma {:induction false} MergedSingle(hs: seq<Hunk>, content: seq<string>)
    requires SingleHunks(hs) && AllSingle(content)
    ensures AllSingle(MergedBody(hs, content))
    decreases |hs|
  {
    hide Gap;
    if |hs| > 1 {
      GapSingle(hs[0], hs[1], content);
      MergedSingle(hs[1..], content);
    }
  }

  lemma {:induction false} GapSingle(h: Hunk, next: Hunk, content: seq<string>)
    requires AllSingle(content)
    ensures AllSingle(ContextLines(Gap(h, next, content)))
  {
    SliceSingle(content, LastNew(h), next.FirstNew() - 1);
  }

  lemma {:induction false} SliceSingle(content: seq<string>, lo: int, hi: int)
    requires AllSingle(content)
    ensures AllSingle(ContextLines(Slice(content, lo, hi)))
  {
    var texts := Slice(content, lo, hi);
    forall i | 0 <= i < |texts| ensures NoNewline(ContextLines(texts)[i]) {
      assert texts[i] in content;
    }
  }

  lemma {:induction false} RenderedSingle(groups: seq<Group>, content: seq<string>, after: nat)
    requires LeadsInside(groups) && SingleHunks(Flat(groups)) && AllSingle(content)
    ensures SingleHunks(RenderGroups(groups, content, after))
    decreases |groups|
  {
    hide Slice, ContextLines, MergedBody, Occupying;
    if groups != [] {
      var g := groups[0];
      var last := Last(g.hunks);
      assert forall i :: 0 <= i < |g.hunks| ==> Flat(groups)[i] == g.hunks[i];
      assert forall i :: 0 <= i < |Flat(groups[1..])| ==> Flat(groups)[|g.hunks| + i] == Flat(groups[1..])[i];
      var leadEnd := Min(g.hunks[0].FirstNew(), |content| + 1);
      SliceSingle(content, Min(g.leadStart, leadEnd) - 1, leadEnd - 1);
      MergedSingle(g.hunks, content);
      SliceSingle(content, LastNew(last), Min(|content|, LastNew(last) + after));
      assert SingleHunk(RenderGroup(g, content, after));
      RenderedSingle(groups[1..], content, after);
    }
  }

  /** Reading the text expand_hunks returns gives back its preamble and its rendered hunks. */
  lemma {:induction false} ExpandedTextParses(patch: string, pad: Padding)
    requires pad.Valid() && !pad.Off() && Chained(ParseHunks(Lines(patch)).hunks) && ParseHunks(Lines(patch)).hunks != []
    ensures var p := ParseHunks(Lines(patch));
      var rs := ExpandedHunks(p.hunks, pad.Content(), pad.n, Max(0, pad.after), pad.spans);
      && Lines(ExpandPatch(patch, pad)) == p.preamble + AllHunkLines(rs)
      && ParseHunks(Lines(ExpandPatch(patch, pad))) == Parsed(p.preamble, rs)
  {
    hide Chained, ReadyGroups, GroupFrom, RenderGroups, Descending, ParseHunkHeader;
    var p := ParseHunks(Lines(patch));
    var content, after := pad.Content(), Max(0, pad.after);
    var groups := GroupFrom([], p.hunks, |content|, pad.n, after, pad.spans);
    var rs := ExpandedHunks(p.hunks, content, pad.n, after, pad.spans);
    ParsedSingle(Lines(patch));
    GroupsReady(p.hunks, |content|, pad.n, after, pad.spans);
    GroupsLeadInside([], p.hunks, |content|, pad.n, after, pad.spans);
    RenderedSingle(groups, content, after);
    PrintedSingle(rs);
    ExpandedHunksKeepChanges("", p.hunks, content, pad.n, after, pad.spans);
    DescendingBodies(rs);
    PreambleHasNoHunkHeader(Lines(patch));
    ParsePrinted(p.preamble, rs);
    LinesOfUnlines(p.preamble + AllHunkLines(rs), true);
  }

  lemma {:induction false} DescendingBodies(rs: seq<Hunk>)
    requires Descending(rs)
    ensures AllBodies(rs)
  {
  }

  /** For any head text, expansion leaves every changed line where it was; the headers it prints
      count their own bodies, start at 1 or more on both sides, and descend without overlap. */
  lemma {:induction false} ExpandKeepsChanges(patch: string, pad: Padding)
    requires pad.Valid() && WellFormedPatch(Lines(patch))
    ensures Changes(Entries(ExpandPatch(patch, pad))) == Changes(Entries(patch))
    ensures Index(Changes(Entries(ExpandPatch(patch, pad)))) == Index(Changes(Entries(patch)))
    ensures ExpandPatch(patch, pad) != patch ==> Descending(ParseHunks(Lines(ExpandPatch(patch, pad))).hunks)
  {
    hide WellFormedPatch, Chained, Walkable, Descending, PathOf, Walk, START;
    var lines := Lines(patch);
    var p := ParseHunks(lines);
    if !(pad.Off() || p.hunks == []) {
      var rs := ExpandedHunks(p.hunks, pad.Content(), pad.n, Max(0, pad.after), pad.spans);
      WellFormedParts(lines);
      var path := PathOf(lines).GetOr("");
      ExpandedHunksKeepChanges(path, p.hunks, pad.Content(), pad.n, Max(0, pad.after), pad.spans);
      ExpandedTextParses(patch, pad);
      WellFormedIsWalkable(lines);
      SectionWalk(lines, START);
      ExpandedWalkable(patch, pad);
      SectionWalk(Lines(ExpandPatch(patch, pad)), START);
    }
  }

  lemma {:induction false} ExpandedWalkable(patch: string, pad: Padding)
    requires pad.Valid() && WellFormedPatch(Lines(patch))
    ensures Walkable(Lines(ExpandPatch(patch, pad)))
    ensures PathOf(Lines(ExpandPatch(patch, pad))) == PathOf(Lines(patch))
  {
    hide ParseHunkHeader, IsFileHeader, Chained, Step, Descending;
    var lines := Lines(patch);
    var p := ParseHunks(lines);
    WellFormedIsWalkable(lines);
    if !(pad.Off() || p.hunks == []) {
      WellFormedParts(lines);
      ExpandedTextParses(patch, pad);
      ExpandedHunksKeepChanges("", p.hunks, pad.Content(), pad.n, Max(0, pad.after), pad.spans);
      DescendingBodies(ParseHunks(Lines(ExpandPatch(patch, pad))).hunks);
    }
  }
}
