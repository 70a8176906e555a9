/** engine/compress.py: how big what is sent can be. Oversized hunks really are cut, and cut no smaller than
    the budget asks. */
module Sizes {
  import opened Text
  import opened DiffParse
  import opened Geometry
  import opened Sections
  import opened Slicing
  import opened SliceProofs
  import opened Batching

  /** A unit printed again from what is read of it. */
  function Canonical(unit: string): string
    requires |ParseHunks(Lines(unit)).hunks| == 1
  {
    var p := ParseHunks(Lines(unit));
    Unlines(p.preamble + HunkLines(p.hunks[0]), EndsWithNewline(unit))
  }

  /** The piece fits the budget, or nothing in it can be cut: it has no hunk, or one hunk of one line, or one
      that fits once its header is printed with both lengths. */
  predicate WellSized(piece: string, count: Counter, max: nat) {
    var hs := ParseHunks(Lines(piece)).hunks;
    count(piece) <= max || hs == [] || (|hs| == 1 && (|hs[0].body| <= 1 || count(Canonical(piece)) <= max))
  }

  lemma {:induction false} WholeSliceIsCanonical(unit: string, c: Cuttable)
    requires WellFormedPatch(Lines(unit)) && |ParseHunks(Lines(unit)).hunks| == 1 && Open(unit) == Some(c)
    ensures c.body != [] && RenderSlice(c, 0, |c.body|) == Canonical(unit) && c.body == ParseHunks(Lines(unit)).hunks[0].body
  {
    hide WellFormedPatch, ParseHunks, Lines, Open, PrintHunkHeader;
    OpenUnit(unit);
    var h := ParseHunks(Lines(unit)).hunks[0];
    assert h.header.oldLen == OldCount(h.body) && h.header.newLen == NewCount(h.body) && h.body != [];
    assert c.body[..0] == [] && c.body[0..|c.body|] == c.body;
    assert SliceHunk(c, 0, |c.body|) == h;
  }

  lemma {:induction false} SplitHunkSized(unit: string, count: Counter, max: nat)
    requires WellFormedPatch(Lines(unit)) && |ParseHunks(Lines(unit)).hunks| == 1
    ensures forall i :: 0 <= i < |SplitHunk(unit, count, max)| ==> WellSized(SplitHunk(unit, count, max)[i], count, max)
  {
    hide WellFormedPatch, ParseHunks, Lines, Open, RenderSlice, SliceEnd, Canonical;
    OpenUnit(unit);
    var c := Open(unit).value;
    WholeSliceIsCanonical(unit, c);
    SlicesBodies(unit, c, count, max, 0);
    var slices := SlicesFrom(c, count, max, 0);
    if |slices| <= 1 {
      var end := SliceEnd(c, count, max, 0);
      assert SlicesFrom(c, count, max, end) == [] && end == |c.body| by { SomeSlices(c, count, max, end); }
    }
  }

  lemma {:induction false} SomeSlices(c: Cuttable, count: Counter, max: nat, start: nat)
    requires start <= |c.body|
    ensures start < |c.body| ==> |SlicesFrom(c, count, max, start)| > 0
  {
  }

  predicate AllSized(pieces: seq<string>, count: Counter, max: nat) {
    forall i :: 0 <= i < |pieces| ==> WellSized(pieces[i], count, max)
  }

  lemma {:induction false} PiecesSized(hunks: seq<string>, count: Counter, max: nat)
    requires forall i :: 0 <= i < |hunks| ==> WellFormedPatch(Lines(hunks[i])) && |ParseHunks(Lines(hunks[i])).hunks| == 1
    ensures AllSized(Pieces(hunks, count, max), count, max)
    decreases |hunks|
  {
    hide WellFormedPatch, Lines, ParseHunks, SplitHunk, Canonical;
    if hunks != [] {
      PiecesSized(hunks[1..], count, max);
      SplitHunkSized(hunks[0], count, max);
    }
  }

  lemma {:induction false} UnitsOfSized(patch: string, count: Counter, max: nat)
    requires SoundPatch(Lines(patch))
    ensures AllSized(UnitsOf(patch, count, max), count, max)
    ensures count(patch) < max ==> UnitsOf(patch, count, max) == [patch]
  {
    hide SoundPatch, Lines, ParseHunks, SplitPatch, WellFormedPatch, PathOf, Canonical, Open;
    if count(patch) >= max {
      SplitPatchWalks(patch);
      if ParseHunks(Lines(patch)).hunks == [] {
        NoHunkNothingToOpen(patch);
        assert [patch][1..] == [];
        assert Pieces([patch], count, max) == [patch] + Pieces([], count, max) == [patch];
      } else {
        PiecesSized(SplitPatch(patch), count, max);
      }
    }
  }

  predicate FilesSized(files: seq<File>, count: Counter, max: nat) {
    forall i :: 0 <= i < |files| ==> WellSized(files[i].1, count, max)
  }

  lemma {:induction false} LabelSized(path: string, patches: seq<string>, count: Counter, max: nat)
    requires AllSized(patches, count, max)
    ensures FilesSized(Label(path, patches), count, max)
  {
    hide WellSized;
    if patches != [] {
      LabelSized(path, patches[1..], count, max);
    }
  }

  lemma {:induction false} UnitsSized(files: seq<File>, count: Counter, max: nat)
    requires SoundFiles(files)
    ensures FilesSized(Units(files, count, max), count, max)
    ensures forall i :: 0 <= i < |files| && count(files[i].1) < max ==> files[i] in Units(files, count, max)
    decreases |files|
  {
    hide WellSized, SoundPatch, Lines, UnitsOf;
    if files != [] {
      var (path, patch) := files[0];
      UnitsOfSized(patch, count, max);
      LabelSized(path, UnitsOf(patch, count, max), count, max);
      UnitsSized(files[1..], count, max);
      var first, rest := Label(path, UnitsOf(patch, count, max)), Units(files[1..], count, max);
      if count(patch) < max {
        assert Label(path, [patch]) == [(path, patch)] + Label(path, [patch][1..]);
        assert files[0] in first;
      }
      forall i | 0 <= i < |files| && count(files[i].1) < max ensures files[i] in first + rest {
        if i > 0 {
          assert files[i] == files[1..][i - 1];
        }
      }
    }
  }

  /** With recursive batching every patch in a batch fits the budget or cannot be cut further, and a file
      under the budget is sent whole. */
  lemma {:induction false} SentFits(files: seq<File>, count: Counter, max: nat, file: File)
    requires SoundFiles(files)
    ensures var sent := Flatten(Batches(files, count, max, true));
      && (file in sent ==> WellSized(file.1, count, max))
      && (file in files && count(file.1) < max ==> file in sent)
  {
    hide WellSized, SoundPatch, Lines, Units, Batches;
    BatchesArePacked(files, count, max, true);
    UnitsSized(files, count, max);
  }

  // ----- No smaller than need be -----

  /** The tokens of lines a to b, counted one by one. */
  function Estimate(c: Cuttable, count: Counter, a: nat, b: nat): nat
    requires a <= b <= |c.body|
  {
    if a == b then 0 else Estimate(c, count, a, b - 1) + count(BodyLine(c, b - 1))
  }

  lemma {:induction false} GrowIsGreedy(c: Cuttable, count: Counter, max: nat, start: nat, end: nat)
    requires start < end <= |c.body|
    ensures var r := Grow(c, count, max, end, Estimate(c, count, start, end));
      r < |c.body| ==> Estimate(c, count, start, r + 1) > max
    decreases |c.body| - end
  {
    if end < |c.body| && Estimate(c, count, start, end + 1) <= max {
      GrowIsGreedy(c, count, max, start, end + 1);
    }
  }

  /** A cut at r for want of room: the slice from start to e was measured over the budget, and one line more than
      r is over the budget's share of it. */
  predicate Outgrown(c: Cuttable, count: Counter, max: nat, start: nat, r: nat, e: nat) {
    && start < r < e <= |c.body|
    && count(RenderSlice(c, start, e)) > max
    && (r - start + 1) * count(RenderSlice(c, start, e)) > (e - start) * max
  }

  lemma {:induction false} ScaledIsMost(k: nat, max: nat, actual: nat)
    requires actual > 0
    ensures (Scaled(k, max, actual) + 1) * actual > k * max
  {
    assert k * max == (k * max / actual) * actual + k * max % actual;
  }

  lemma {:induction false} ShrinkIsLeast(c: Cuttable, count: Counter, max: nat, start: nat, end: nat)
    requires start < end <= |c.body|
    ensures var r := Shrink(c, count, max, start, end);
      r == end || exists e :: Outgrown(c, count, max, start, r, e)
    decreases end
  {
    hide RenderSlice;
    var actual := count(RenderSlice(c, start, end));
    if end > start + 1 && actual > max {
      var next := Max(start + 1, start + Scaled(end - start, max, actual));
      ScaledIsMost(end - start, max, actual);
      MoreIsMore(Scaled(end - start, max, actual) + 1, next - start + 1, actual);
      assert Outgrown(c, count, max, start, next, end);
      hide Scaled, Outgrown;
      ShrinkIsLeast(c, count, max, start, next);
    }
  }

  lemma {:induction false} MoreIsMore(a: nat, b: nat, x: nat)
    requires a <= b
    ensures a * x <= b * x
  {
  }

  /** The slice from start to r ends before the body does only where one line more would overrun the budget line by
      line, or where a longer slice was measured over the budget and it is cut to its share. */
  ghost predicate Greedy(c: Cuttable, count: Counter, max: nat, start: nat, r: nat) {
    && start < r <= |c.body|
    && (r < |c.body| ==> Estimate(c, count, start, r + 1) > max || exists e :: Outgrown(c, count, max, start, r, e))
  }

  lemma {:induction false} SliceIsGreedy(c: Cuttable, count: Counter, max: nat, start: nat)
    requires start < |c.body|
    ensures Greedy(c, count, max, start, SliceEnd(c, count, max, start))
  {
    hide Outgrown, BodyLine;
    assert Estimate(c, count, start, start + 1) == Estimate(c, count, start, start) + count(BodyLine(c, start));
    GrowIsGreedy(c, count, max, start, start + 1);
    ShrinkIsLeast(c, count, max, start, Grow(c, count, max, start + 1, count(BodyLine(c, start))));
  }

  /** The pieces are slices of the body from start to its end, one after another, none of them cut short. */
  ghost predicate CutFrom(c: Cuttable, count: Counter, max: nat, pieces: seq<string>, start: nat)
    decreases |pieces|
  {
    if pieces == [] then start == |c.body|
    else exists end :: Greedy(c, count, max, start, end) && pieces[0] == RenderSlice(c, start, end) && CutFrom(c, count, max, pieces[1..], end)
  }

  lemma {:induction false} SlicesCut(c: Cuttable, count: Counter, max: nat, start: nat)
    requires start <= |c.body|
    ensures CutFrom(c, count, max, SlicesFrom(c, count, max, start), start)
    decreases |c.body| - start
  {
    hide RenderSlice, SliceEnd, Greedy;
    if start < |c.body| {
      var end := SliceEnd(c, count, max, start);
      SliceIsGreedy(c, count, max, start);
      SlicesCut(c, count, max, end);
      assert SlicesFrom(c, count, max, start)[1..] == SlicesFrom(c, count, max, end);
    }
  }

  /** An oversized hunk is cut into slices as long as the budget lets them be, one after another from its first
      body line to its last; a single slice is the unit itself. */
  lemma {:induction false} SlicesAreGreedy(unit: string, count: Counter, max: nat) returns (slices: seq<string>)
    requires Open(unit).Some?
    ensures CutFrom(Open(unit).value, count, max, slices, 0)
    ensures SplitHunk(unit, count, max) == if |slices| > 1 then slices else [unit]
  {
    hide Open, CutFrom, SlicesFrom;
    slices := SlicesFrom(Open(unit).value, count, max, 0);
    SlicesCut(Open(unit).value, count, max, 0);
  }

  /** A line is counted as it stands in the text, with the newline that ends it if one does. */
  lemma {:induction false} CountedAsItStands(c: Cuttable, i: nat)
    requires i < |c.body|
    ensures BodyLine(c, i) == c.body[i] + if c.ended || i + 1 < |c.body| then "\n" else ""
  {
    assert c.body[i..i + 1] == [c.body[i]];
  }
}
