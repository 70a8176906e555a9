/** Cutting a patch, at its hunks or inside one, moves no line: the pieces walked in order are the
    patch walked, entry for entry. */
module SliceProofs {
  import opened Text
  import opened DiffParse
  import opened Geometry
  import opened Sections
  import opened HunkLookup
  import opened Slicing

  // ----- Marks and hunk headers -----

  lemma {:induction false} NextMarkIs(lines: seq<string>, k: nat, r: nat)
    requires k <= r <= |lines| && (r == |lines| || IsMark(lines[r]))
    requires forall i :: k <= i < r ==> !IsMark(lines[i])
    ensures NextMark(lines, k) == r
  {
    hide IsMark;
  }

  lemma {:induction false} BodyHasNoMark(body: seq<string>)
    requires AllBody(body)
    ensures NoHunkMark(body)
  {
    forall i | 0 <= i < |body| ensures !StartsWith(body[i], "@@") {
      BodyLineIsNoHeader(body[i]);
    }
  }

  /** From a hunk header on, the next mark is where the next hunk opens. */
  lemma {:induction false} MarksAreHunks(lines: seq<string>, a: nat)
    requires a < |lines|
    requires ParseHunks(lines[a..]).preamble == [] && AllBodies(ParseHunks(lines[a..]).hunks)
    ensures var hs, b := ParseHunks(lines[a..]).hunks, NextMark(lines, a + 1);
      && IsHunkHeader(lines[a]) && a < b
      && hs != [] && hs[0] == Hunk(ParseHunkHeader(lines[a]).value, lines[a + 1..b])
      && ParseHunks(lines[b..]) == Parsed([], hs[1..])
      && (b == |lines| <==> hs[1..] == [])
  {
    hide ParseHunkHeader, IsBodyLine, StartsWith;
    var hs := ParseHunks(lines[a..]).hunks;
    var below := lines[a + 1..];
    assert lines[a..][0] == lines[a] && lines[a..][1..] == below;
    ParseSplit(below);
    var body := ParseHunks(below).preamble;
    var b := a + 1 + |body|;
    assert hs[0].body == body;
    BodyHasNoMark(body);
    assert lines[a + 1..b] == body;
    assert below[|body|..] == lines[b..];
    forall i | a + 1 <= i < b ensures !IsMark(lines[i]) {
      assert lines[i] == body[i - (a + 1)];
    }
    if b < |lines| {
      HunkHeaderMark(lines[b]);
    }
    NextMarkIs(lines, a + 1, b);
  }

  lemma {:induction false} FirstMarkIsFirstHunk(lines: seq<string>)
    requires SoundPatch(lines)
    ensures NextMark(lines, 0) == |ParseHunks(lines).preamble|
  {
    hide ParseHunkHeader, IsFileHeader, AllSound, StartsWith;
    var p := ParseHunks(lines);
    ParseSplit(lines);
    if p.hunks != [] {
      HunkHeaderMark(lines[|p.preamble|]);
    }
    NextMarkIs(lines, 0, |p.preamble|);
  }

  // ----- At hunk boundaries -----

  /** A piece that can be walked on its own: the patch's preamble above one of its hunks. */
  lemma {:induction false} UnitWalk(lines: seq<string>, ended: bool, a: nat, b: nat)
    requires AllSingle(lines) && SoundPatch(lines) && (ended || |lines| == 1 || lines[|lines| - 1] != "")
    requires var first := |ParseHunks(lines).preamble|;
      first <= a < b <= |lines| && IsHunkHeader(lines[a]) && AllBody(lines[a + 1..b])
    ensures var first, h := |ParseHunks(lines).preamble|, Hunk(ParseHunkHeader(lines[a]).value, lines[a + 1..b]);
      var unit := Unit(lines, ended, first, a, b);
      && Lines(unit) == lines[..first] + lines[a..b]
      && ParseHunks(Lines(unit)) == Parsed(ParseHunks(lines).preamble, [h])
      && Entries(unit) == HunkEntries(PathOf(lines).GetOr(""), h)
  {
    hide ParseHunkHeader, IsFileHeader, Chained, SoundPatch, Walk, PathOf, ParseHunks, Lines, HunkEntries, IsBodyLine;
    var pre := ParseHunks(lines).preamble;
    UnitLines(lines, ended, a, b);
    OneHunkWalk(lines, lines[a], lines[a + 1..b]);
    OneHunkPreamble(lines, lines[a], lines[a + 1..b]);
  }

  lemma {:induction false} PreambleStands(lines: seq<string>)
    ensures var pre := ParseHunks(lines).preamble;
      |pre| <= |lines| && lines[..|pre|] == pre && (|pre| < |lines| ==> ParseHunks(lines).hunks != [])
  {
    hide ParseHunkHeader;
    ParseSplit(lines);
  }

  lemma {:induction false} UnitLines(lines: seq<string>, ended: bool, a: nat, b: nat)
    requires lines != [] && AllSingle(lines) && (ended || |lines| == 1 || lines[|lines| - 1] != "")
    requires |ParseHunks(lines).preamble| <= a < b <= |lines|
    ensures var pre := ParseHunks(lines).preamble;
      && lines[..|pre|] + lines[a..b] == pre + [lines[a]] + lines[a + 1..b]
      && Lines(Unit(lines, ended, |pre|, a, b)) == pre + [lines[a]] + lines[a + 1..b]
      && ParseHunks(lines).hunks != []
  {
    hide ParseHunks, Lines, NoNewline, Unlines;
    var pre := ParseHunks(lines).preamble;
    PreambleStands(lines);
    var one := lines[..|pre|] + lines[a..b];
    assert one == pre + [lines[a]] + lines[a + 1..b];
    assert one[|one| - 1] == lines[b - 1];
    SomeSingle(lines, one, |pre|, a);
    LinesOfUnlines(one, ended || b < |lines|);
  }

  lemma {:induction false} SomeSingle(lines: seq<string>, some: seq<string>, first: nat, a: nat)
    requires AllSingle(lines) && first <= a <= |lines| && first <= |some| <= first + (|lines| - a)
    requires some == lines[..first] + lines[a..a + (|some| - first)]
    ensures AllSingle(some)
  {
    hide NoNewline;
    forall i | 0 <= i < |some| ensures NoNewline(some[i]) {
      assert some[i] == lines[if i < first then i else a + (i - first)];
    }
  }

  lemma {:induction false} OneHunkPreamble(lines: seq<string>, header: string, body: seq<string>)
    requires IsHunkHeader(header) && AllBody(body)
    ensures ParseHunks(ParseHunks(lines).preamble + [header] + body).preamble == ParseHunks(lines).preamble
  {
    hide ParseHunkHeader;
    var pre := ParseHunks(lines).preamble;
    PreambleHasNoHunkHeader(lines);
    BodyHasNoHunkHeader(body);
    assert [header] + body + [] == [header] + body;
    ParseHunk(header, body, []);
    ParseAppend(pre, [header] + body);
    assert pre + [] == pre && pre + [header] + body == pre + ([header] + body);
  }

  predicate Ended(lines: seq<string>, ended: bool) {
    lines != [] && AllSingle(lines) && (ended || |lines| == 1 || lines[|lines| - 1] != "")
  }

  /** What every unit is: one of the patch's hunks, well formed on its own. */
  predicate IsUnitOf(unit: string, lines: seq<string>) {
    var p := ParseHunks(Lines(unit));
    && p.preamble == ParseHunks(lines).preamble && |p.hunks| == 1
    && WellFormedPatch(Lines(unit)) && PathOf(Lines(unit)) == PathOf(lines)
  }

  lemma {:induction false} UnitsWalk(lines: seq<string>, ended: bool, a: nat)
    requires Ended(lines, ended) && SoundPatch(lines) && |ParseHunks(lines).preamble| <= a <= |lines|
    requires ParseHunks(lines).hunks != []
    requires ParseHunks(lines[a..]).preamble == [] && AllSound(ParseHunks(lines[a..]).hunks)
    ensures var units, first := UnitsFrom(lines, ended, |ParseHunks(lines).preamble|, a), |ParseHunks(lines).preamble|;
      && WalkPatches(units) == HunksEntries(PathOf(lines).GetOr(""), ParseHunks(lines[a..]).hunks)
      && forall i :: 0 <= i < |units| ==> IsUnitOf(units[i], lines)
    decreases |lines| - a
  {
    hide ParseHunkHeader, IsMark, IsFileHeader, SoundPatch, PathOf, Unit, IsUnitOf, Sound, Follows, HunkEntries, Entries;
    if a < |lines| {
      var first, b := |ParseHunks(lines).preamble|, NextMark(lines, a + 1);
      var hs := ParseHunks(lines[a..]).hunks;
      SoundBodies(hs);
      MarksAreHunks(lines, a);
      SoundRest(hs);
      UnitWalk(lines, ended, a, b);
      UnitIsWellFormed(lines, Unit(lines, ended, first, a, b), hs[0]);
      UnitsWalk(lines, ended, b);
    }
  }

  lemma {:induction false} SoundBodies(hs: seq<Hunk>)
    requires AllSound(hs)
    ensures AllBodies(hs)
  {
    forall i | 0 <= i < |hs| ensures AllBody(hs[i].body) {
      assert Sound(hs[i]);
    }
  }

  lemma {:induction false} SoundRest(hs: seq<Hunk>)
    requires AllSound(hs) && hs != []
    ensures AllSound(hs[1..]) && Sound(hs[0])
  {
    hide Sound;
  }

  lemma {:induction false} UnitIsWellFormed(lines: seq<string>, unit: string, h: Hunk)
    requires SoundPatch(lines) && Sound(h) && ParseHunks(lines).hunks != []
    requires ParseHunks(Lines(unit)) == Parsed(ParseHunks(lines).preamble, [h])
    ensures IsUnitOf(unit, lines)
  {
    hide ParseHunkHeader, IsFileHeader, Sound, Follows, Step;
    SoundParts(lines);
    ParseSplit(Lines(unit));
    assert Chained([h]);
  }

  /** Split at its hunks, a patch is walked unit by unit to the same entries, and each unit is
      well formed on its own, with one hunk and the same path. */
  lemma {:induction false} SplitPatchWalks(patch: string)
    requires SoundPatch(Lines(patch))
    ensures WalkPatches(SplitPatch(patch)) == Entries(patch)
    ensures ParseHunks(Lines(patch)).hunks != [] ==> forall i :: 0 <= i < |SplitPatch(patch)| ==> IsUnitOf(SplitPatch(patch)[i], Lines(patch))
    ensures ParseHunks(Lines(patch)).hunks == [] ==> SplitPatch(patch) == [patch]
  {
    hide ParseHunkHeader, IsMark, IsFileHeader, SoundPatch, PathOf, IsUnitOf, AllSound, Lines, UnitsFrom;
    var lines, ended := Lines(patch), EndsWithNewline(patch);
    FirstMarkIsFirstHunk(lines);
    ParseSplit(lines);
    SoundParts(lines);
    SoundIsWalkable(lines);
    SectionWalk(lines, START);
    if ParseHunks(lines).hunks != [] {
      LastLineEnds(patch);
      UnitsWalk(lines, ended, |ParseHunks(lines).preamble|);
    } else {
      assert WalkPatches([patch]) == Entries(patch) + WalkPatches([patch][1..]);
    }
  }

  lemma {:induction false} LastLineEnds(text: string)
    ensures Ended(Lines(text), EndsWithNewline(text))
  {
    if !EndsWithNewline(text) {
      JoinSplit(text);
      JoinEndsWithNewline(Lines(text));
    }
  }

  // ----- Inside a hunk -----

  /** The slice of a body, placed where its lines stood, is walked as they were. */
  lemma {:induction false} SliceEntries(path: string, c: Cuttable, a: nat, b: nat)
    requires a <= b <= |c.body|
    ensures BodyEntries(path, c.hunk.oldStart + OldCount(c.body[..a]), c.hunk.newStart + NewCount(c.body[..a]), c.body[a..])
         == HunkEntries(path, SliceHunk(c, a, b))
          + BodyEntries(path, c.hunk.oldStart + OldCount(c.body[..b]), c.hunk.newStart + NewCount(c.body[..b]), c.body[b..])
  {
    hide BodyEntries, OldCount, NewCount;
    assert c.body[a..] == c.body[a..b] + c.body[b..];
    assert c.body[..b] == c.body[..a] + c.body[a..b];
    BodyConcat(path, c.hunk.oldStart, c.hunk.newStart, c.body[..a], c.body[a..b]);
    BodyConcat(path, c.hunk.oldStart + OldCount(c.body[..a]), c.hunk.newStart + NewCount(c.body[..a]), c.body[a..b], c.body[b..]);
  }

  /** A unit with one hunk opens as its preamble, its header and its body. */
  lemma {:induction false} OpenUnit(unit: string)
    requires WellFormedPatch(Lines(unit)) && |ParseHunks(Lines(unit)).hunks| == 1
    ensures var p := ParseHunks(Lines(unit));
      Open(unit) == Some(Cuttable(p.preamble, p.hunks[0].header, p.hunks[0].body, EndsWithNewline(unit)))
    ensures Sound(ParseHunks(Lines(unit)).hunks[0])
  {
    hide ParseHunkHeader, IsMark, IsFileHeader, Lines, Follows;
    var lines := Lines(unit);
    var p := ParseHunks(lines);
    WellFormedIsSound(lines);
    FirstMarkIsFirstHunk(lines);
    ParseSplit(lines);
    WellFormedParts(lines);
    var at := |p.preamble|;
    assert Sound(p.hunks[0]) && p.hunks[0].body != [];
    SoundBodies(p.hunks);
    MarksAreHunks(lines, at);
    assert lines[at + 1..] == p.hunks[0].body by {
      assert NextMark(lines, at + 1) == |lines|;
      assert lines[at + 1..] == lines[at + 1..|lines|];
    }
  }

  lemma {:induction false} SliceWalk(unit: string, c: Cuttable, a: nat, b: nat)
    requires WellFormedPatch(Lines(unit)) && |ParseHunks(Lines(unit)).hunks| == 1 && Open(unit) == Some(c)
    requires a < b <= |c.body|
    ensures ParseHunks(Lines(RenderSlice(c, a, b))) == Parsed(ParseHunks(Lines(unit)).preamble, [SliceHunk(c, a, b)])
    ensures Entries(RenderSlice(c, a, b)) == HunkEntries(PathOf(Lines(unit)).GetOr(""), SliceHunk(c, a, b))
  {
    hide ParseHunkHeader, PrintHunkHeader, IsMark, IsFileHeader, Chained, PathOf, OldCount, NewCount, IsBodyLine, WellFormedPatch, Walk, Lines, Open;
    var lines, h := Lines(unit), SliceHunk(c, a, b);
    OpenUnit(unit);
    var body := c.body[a..b];
    assert AllBody(c.body) && AllBody(body);
    SliceSingleLines(unit, c, a, b);
    LinesOfUnlines(c.header + HunkLines(h), c.ended || b < |c.body|);
    PrintedHeaderParses(h.header);
    assert c.header + HunkLines(h) == c.header + [PrintHunkHeader(h.header)] + body;
    WellFormedIsSound(lines);
    OneHunkWalk(lines, PrintHunkHeader(h.header), body);
    OneHunkPreamble(lines, PrintHunkHeader(h.header), body);
  }

  lemma {:induction false} SliceSingleLines(unit: string, c: Cuttable, a: nat, b: nat)
    requires WellFormedPatch(Lines(unit)) && |ParseHunks(Lines(unit)).hunks| == 1 && Open(unit) == Some(c)
    requires a < b <= |c.body|
    ensures var lines := c.header + HunkLines(SliceHunk(c, a, b));
      && AllSingle(lines)
      && (c.ended || b < |c.body| || lines[|lines| - 1] != "")
  {
    hide ParseHunkHeader, PrintHunkHeader, IsMark, IsFileHeader, Chained, OldCount, NewCount, IsBodyLine, WellFormedPatch, Lines, Open;
    var lines, h := Lines(unit), SliceHunk(c, a, b);
    OpenUnit(unit);
    ParsedSingle(lines);
    assert SingleHunk(ParseHunks(lines).hunks[0]);
    PrintedHeaderSingle(h.header);
    var printed := c.header + HunkLines(h);
    assert printed[|printed| - 1] == c.body[b - 1];
    if !c.ended && b == |c.body| {
      LastLineEnds(unit);
      UnitLastLine(lines, c);
    }
  }

  lemma {:induction false} UnitLastLine(lines: seq<string>, c: Cuttable)
    requires ParseHunks(lines) == Parsed(c.header, [Hunk(c.hunk, c.body)]) && c.body != []
    ensures |lines| >= 2 && lines[|lines| - 1] == c.body[|c.body| - 1]
  {
    hide ParseHunks, ParseHunkHeader;
    OneHunkLines(lines);
    var rest := lines[|c.header| + 1..];
    assert rest[|c.body| - 1] == lines[|lines| - 1];
  }

  /** A patch with one hunk: what is above its header line, that line, and its body. */
  lemma {:induction false} OneHunkLines(lines: seq<string>)
    requires |ParseHunks(lines).hunks| == 1
    ensures var p := ParseHunks(lines);
      |p.preamble| < |lines| && lines[|p.preamble| + 1..] == p.hunks[0].body
  {
    hide ParseHunkHeader;
    ParseSplit(lines);
    var pre := ParseHunks(lines).preamble;
    var rest := lines[|pre|..];
    assert rest[1..] == lines[|pre| + 1..];
    ParseSplit(rest[1..]);
  }

  lemma {:induction false} SlicesWalk(unit: string, c: Cuttable, count: Counter, max: nat, start: nat)
    requires WellFormedPatch(Lines(unit)) && |ParseHunks(Lines(unit)).hunks| == 1 && Open(unit) == Some(c)
    requires start <= |c.body|
    ensures WalkPatches(SlicesFrom(c, count, max, start))
         == BodyEntries(PathOf(Lines(unit)).GetOr(""), c.hunk.oldStart + OldCount(c.body[..start]),
                        c.hunk.newStart + NewCount(c.body[..start]), c.body[start..])
    decreases |c.body| - start
  {
    hide WellFormedPatch, Open, RenderSlice, SliceEnd, HunkEntries, Entries, OldCount, NewCount, PathOf, ParseHunks, Lines;
    if start < |c.body| {
      var end := SliceEnd(c, count, max, start);
      SliceWalk(unit, c, start, end);
      SliceEntries(PathOf(Lines(unit)).GetOr(""), c, start, end);
      SlicesWalk(unit, c, count, max, end);
    }
  }

  /** The bodies of the pieces, one after another. */
  function Bodies(pieces: seq<string>): seq<string> {
    if pieces == [] then []
    else
      var hs := ParseHunks(Lines(pieces[0])).hunks;
      (if |hs| == 1 then hs[0].body else []) + Bodies(pieces[1..])
  }

  lemma {:induction false} SlicesBodies(unit: string, c: Cuttable, count: Counter, max: nat, start: nat)
    requires WellFormedPatch(Lines(unit)) && |ParseHunks(Lines(unit)).hunks| == 1 && Open(unit) == Some(c)
    requires start <= |c.body|
    ensures Bodies(SlicesFrom(c, count, max, start)) == c.body[start..]
    ensures forall i :: 0 <= i < |SlicesFrom(c, count, max, start)| ==> FitsOrIsOneLine(SlicesFrom(c, count, max, start)[i], count, max)
    decreases |c.body| - start
  {
    hide WellFormedPatch, Open, RenderSlice, SliceEnd, PathOf, OldCount, NewCount, ParseHunks, Lines, Entries;
    if start < |c.body| {
      var end := SliceEnd(c, count, max, start);
      SliceWalk(unit, c, start, end);
      SlicesBodies(unit, c, count, max, end);
      assert c.body[start..] == c.body[start..end] + c.body[end..];
    }
  }

  predicate FitsOrIsOneLine(piece: string, count: Counter, max: nat) {
    var hs := ParseHunks(Lines(piece)).hunks;
    count(piece) <= max || (|hs| == 1 && |hs[0].body| == 1)
  }

  /** Cutting inside a hunk: the slices walked in order are the unit walked, entry for entry; their
      bodies concatenate to its body; and each fits the budget, has one body line, or is the unit. */
  lemma {:induction false} SplitHunkWalks(unit: string, count: Counter, max: nat)
    requires WellFormedPatch(Lines(unit)) && |ParseHunks(Lines(unit)).hunks| == 1
    ensures var pieces := SplitHunk(unit, count, max);
      && WalkPatches(pieces) == Entries(unit)
      && Bodies(pieces) == ParseHunks(Lines(unit)).hunks[0].body
      && forall i :: 0 <= i < |pieces| ==> FitsOrIsOneLine(pieces[i], count, max) || pieces[i] == unit
  {
    hide ParseHunkHeader, IsFileHeader, WellFormedPatch, PathOf, Chained, Lines, ParseHunks, Walk, Open, SlicesFrom, FitsOrIsOneLine;
    OpenUnit(unit);
    var c := Open(unit).value;
    SlicesWalk(unit, c, count, max, 0);
    SlicesBodies(unit, c, count, max, 0);
    WellFormedIsWalkable(Lines(unit));
    SectionWalk(Lines(unit), START);
    OneOfEach(unit, c);
    assert c.body[..0] == [] && c.body[0..] == c.body;
  }

  lemma {:induction false} OneOfEach(unit: string, c: Cuttable)
    requires |ParseHunks(Lines(unit)).hunks| == 1
    ensures WalkPatches([unit]) == Entries(unit)
    ensures Bodies([unit]) == ParseHunks(Lines(unit)).hunks[0].body
    ensures HunksEntries(PathOf(Lines(unit)).GetOr(""), ParseHunks(Lines(unit)).hunks)
         == HunkEntries(PathOf(Lines(unit)).GetOr(""), ParseHunks(Lines(unit)).hunks[0])
  {
    hide ParseHunks, Lines, Walk, PathOf, BodyEntries;
    assert [unit][1..] == [];
    var hs := ParseHunks(Lines(unit)).hunks;
    assert hs[1..] == [];
  }
}
