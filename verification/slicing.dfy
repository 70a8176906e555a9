/** engine/compress.py, split_patch_into_hunks and split_hunk_by_budget: cutting a patch at its
    hunks, and an oversized hunk inside, each piece a diff that can be walked on its own. */
module Slicing {
  import opened Text
  import opened DiffParse
  import opened Geometry
  import opened ChangeIndex

  /** The tokenizer: any count at all. */
  type Counter = string -> nat

  /** Lines a to b of a text, each with the newline that ended it. */
  function KeepLines(lines: seq<string>, ended: bool, a: nat, b: nat): string
    requires a <= b <= |lines|
  {
    if a == b then "" else Unlines(lines[a..b], ended || b < |lines|)
  }

  // ----- At hunk boundaries -----

  predicate IsMark(line: string) {
    StartsWith(line, "@@")
  }

  /** The first index at or after k that opens a hunk; |lines| when there is none. */
  function NextMark(lines: seq<string>, k: nat): (r: nat)
    requires k <= |lines|
    ensures k <= r <= |lines|
    ensures r < |lines| ==> IsMark(lines[r])
    ensures forall i :: k <= i < r ==> !IsMark(lines[i])
    decreases |lines| - k
  {
    if k == |lines| || IsMark(lines[k]) then k else NextMark(lines, k + 1)
  }

  /** header + current, as text: the header's lines and those of one hunk from a to b. */
  function Unit(lines: seq<string>, ended: bool, first: nat, a: nat, b: nat): string
    requires first <= a < b <= |lines|
  {
    Unlines(lines[..first] + lines[a..b], ended || b < |lines|)
  }

  function UnitsFrom(lines: seq<string>, ended: bool, first: nat, a: nat): seq<string>
    requires first <= a <= |lines|
    decreases |lines| - a
  {
    if a == |lines| then []
    else
      var b := NextMark(lines, a + 1);
      [Unit(lines, ended, first, a, b)] + UnitsFrom(lines, ended, first, b)
  }

  lemma {:induction false} NextUnit(lines: seq<string>, ended: bool, first: nat, a: nat, b: nat)
    requires first <= a < b <= |lines| && NextMark(lines, a + 1) == b
    ensures UnitsFrom(lines, ended, first, a) == [Unit(lines, ended, first, a, b)] + UnitsFrom(lines, ended, first, b)
  {
    hide Unit, NextMark;
  }

  /** split_patch_into_hunks */
  function SplitPatch(patch: string): seq<string> {
    var lines := Lines(patch);
    var first := NextMark(lines, 0);
    if first == |lines| then [patch] else UnitsFrom(lines, EndsWithNewline(patch), first, first)
  }

  /** The source's loop: a current hunk that is closed when the next mark comes. */
  method SplitPatchIntoHunks(patch: string) returns (units: seq<string>)
    ensures units == SplitPatch(patch)
  {
    hide IsMark, Lines, Unit, EndsWithNewline, UnitsFrom;
    var lines, ended := Lines(patch), EndsWithNewline(patch);
    var first := NextMark(lines, 0);
    if first == |lines| {
      return [patch];
    }
    units := [];
    var start := first;
    ghost var all := UnitsFrom(lines, ended, first, first);
    for i := first + 1 to |lines|
      invariant first <= start < i
      invariant all == units + UnitsFrom(lines, ended, first, start)
      invariant NextMark(lines, start + 1) == NextMark(lines, i)
    {
      if IsMark(lines[i]) {
        NextUnit(lines, ended, first, start, i);
        Assoc(units, [Unit(lines, ended, first, start, i)], UnitsFrom(lines, ended, first, i));
        units := units + [Unit(lines, ended, first, start, i)];
        start := i;
      }
    }
    NextUnit(lines, ended, first, start, |lines|);
    Assoc(units, [Unit(lines, ended, first, start, |lines|)], UnitsFrom(lines, ended, first, |lines|));
    units := units + [Unit(lines, ended, first, start, |lines|)];
    NoUnits(lines, ended, first);
    assert units + [] == units;
  }

  lemma {:induction false} NoUnits(lines: seq<string>, ended: bool, first: nat)
    requires first <= |lines|
    ensures UnitsFrom(lines, ended, first, |lines|) == []
  {
  }

  // ----- Inside a hunk -----

  /** A unit as split_hunk_by_budget reads it. */
  datatype Cuttable = Cuttable(header: seq<string>, hunk: HunkHeader, body: seq<string>, ended: bool)

  /** None when there is nothing to cut: no hunk line, one that does not parse, or no body. */
  function Open(unit: string): Option<Cuttable> {
    var lines := Lines(unit);
    var at := NextMark(lines, 0);
    if at == |lines| then None
    else match ParseHunkHeader(lines[at])
      case None => None
      case Some(h) => if at + 1 == |lines| then None else Some(Cuttable(lines[..at], h, lines[at + 1..], EndsWithNewline(unit)))
  }

  /** The body lines from a to b under a header that places them where they stood. */
  function SliceHunk(c: Cuttable, a: nat, b: nat): Hunk
    requires a <= b <= |c.body|
  {
    Hunk(HunkHeader(c.hunk.oldStart + OldCount(c.body[..a]), OldCount(c.body[a..b]),
                    c.hunk.newStart + NewCount(c.body[..a]), NewCount(c.body[a..b]), c.hunk.section),
         c.body[a..b])
  }

  /** render(start, end) */
  function RenderSlice(c: Cuttable, a: nat, b: nat): string
    requires a < b <= |c.body|
  {
    Unlines(c.header + HunkLines(SliceHunk(c, a, b)), c.ended || b < |c.body|)
  }

  /** One body line with its newline, as it is counted. */
  function BodyLine(c: Cuttable, i: nat): string
    requires i < |c.body|
  {
    KeepLines(c.body, c.ended, i, i + 1)
  }

  /** The greedy end on the per-line estimate. */
  function Grow(c: Cuttable, count: Counter, max: nat, end: nat, used: nat): (r: nat)
    requires end <= |c.body|
    ensures end <= r <= |c.body|
    decreases |c.body| - end
  {
    if end < |c.body| && used + count(BodyLine(c, end)) <= max
    then Grow(c, count, max, end + 1, used + count(BodyLine(c, end)))
    else end
  }

  /** k scaled down by max over a measure above it. */
  function Scaled(k: nat, max: nat, actual: nat): (q: nat)
    requires actual > 0
    ensures k > 0 && max < actual ==> q < k
  {
    var q := k * max / actual;
    assert k > 0 && max < actual ==> q * actual <= k * max < k * actual;
    q
  }

  /** Shrinking proportionally until the rendered slice really fits, or is one line. */
  function Shrink(c: Cuttable, count: Counter, max: nat, start: nat, end: nat): (r: nat)
    requires start < end <= |c.body|
    ensures start < r <= end
    ensures r == start + 1 || count(RenderSlice(c, start, r)) <= max
    decreases end
  {
    if end == start + 1 then end
    else
      var actual := count(RenderSlice(c, start, end));
      if actual <= max then end
      else
        Shrink(c, count, max, start, Max(start + 1, start + Scaled(end - start, max, actual)))
  }

  function SliceEnd(c: Cuttable, count: Counter, max: nat, start: nat): (r: nat)
    requires start < |c.body|
    ensures start < r <= |c.body|
    ensures r == start + 1 || count(RenderSlice(c, start, r)) <= max
  {
    Shrink(c, count, max, start, Grow(c, count, max, start + 1, count(BodyLine(c, start))))
  }

  function SlicesFrom(c: Cuttable, count: Counter, max: nat, start: nat): seq<string>
    requires start <= |c.body|
    decreases |c.body| - start
  {
    if start == |c.body| then []
    else
      var end := SliceEnd(c, count, max, start);
      [RenderSlice(c, start, end)] + SlicesFrom(c, count, max, end)
  }

  /** split_hunk_by_budget */
  function SplitHunk(unit: string, count: Counter, max: nat): seq<string> {
    match Open(unit)
    case None => [unit]
    case Some(c) =>
      var slices := SlicesFrom(c, count, max, 0);
      if |slices| > 1 then slices else [unit]
  }

  /** The source's loops: grow on the estimate, shrink on the measure, cut, go on. */
  method SplitHunkByBudget(unit: string, count: Counter, max: nat) returns (slices: seq<string>)
    ensures slices == SplitHunk(unit, count, max)
  {
    hide Open, RenderSlice, BodyLine;
    var reading := Open(unit);
    if reading.None? {
      return [unit];
    }
    var c := reading.value;
    slices := [];
    var start := 0;
    while start < |c.body|
      invariant 0 <= start <= |c.body|
      invariant SlicesFrom(c, count, max, 0) == slices + SlicesFrom(c, count, max, start)
    {
      var end := FindSliceEnd(c, count, max, start);
      Assoc(slices, [RenderSlice(c, start, end)], SlicesFrom(c, count, max, end));
      slices := slices + [RenderSlice(c, start, end)];
      start := end;
    }
    if |slices| <= 1 {
      slices := [unit];
    }
  }

  /** One slice: grow on the estimate, then shrink on the measure. */
  method FindSliceEnd(c: Cuttable, count: Counter, max: nat, start: nat) returns (end: nat)
    requires start < |c.body|
    ensures end == SliceEnd(c, count, max, start)
  {
    hide RenderSlice, BodyLine;
    end := start + 1;
    var used: nat := count(BodyLine(c, start));
    while end < |c.body| && used + count(BodyLine(c, end)) <= max
      invariant start < end <= |c.body|
      invariant Grow(c, count, max, start + 1, count(BodyLine(c, start))) == Grow(c, count, max, end, used)
    {
      used := used + count(BodyLine(c, end));
      end := end + 1;
    }
    while end > start + 1
      invariant start < end <= |c.body|
      invariant SliceEnd(c, count, max, start) == Shrink(c, count, max, start, end)
    {
      var actual := count(RenderSlice(c, start, end));
      if actual <= max {
        break;
      }
      end := Max(start + 1, start + Scaled(end - start, max, actual));
    }
  }

  // ----- Lines within a budget -----

  /** What a run of lines is charged: each its own tokens, and one for the newline that rejoins it. */
  function Charge(lines: seq<string>, count: Counter): nat {
    if lines == [] then 0 else Charge(lines[..|lines| - 1], count) + count(lines[|lines| - 1]) + 1
  }

  /** The longest prefix whose charge stays within the budget: one line more would not. */
  method TakeLines(lines: seq<string>, budget: int, count: Counter) returns (kept: seq<string>)
    ensures kept <= lines && (kept != [] ==> Charge(kept, count) <= budget)
    ensures |kept| < |lines| ==> Charge(lines[..|kept| + 1], count) > budget
  {
    kept := [];
    var used := 0;
    for i := 0 to |lines|
      invariant kept == lines[..i] && used == Charge(kept, count) && (kept != [] ==> used <= budget)
    {
      assert lines[..i + 1][..i] == lines[..i];
      used := used + count(lines[i]) + 1;
      if used > budget {
        return;
      }
      kept := kept + [lines[i]];
      assert kept == lines[..i + 1];
    }
  }
}
