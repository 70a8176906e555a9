/** engine/compress.py, batch_files: packing patches, walked into pieces where they are too big,
    into batches that fit a token budget. */
module Batching {
  import opened Text
  import opened DiffParse
  import opened Geometry
  import opened Sections
  import opened Slicing
  import opened SliceProofs

  type File = (string, string)
  type Batch = seq<File>

  // ----- The recursive walk -----

  function Label(path: string, patches: seq<string>): seq<File> {
    if patches == [] then [] else [(path, patches[0])] + Label(path, patches[1..])
  }

  /** The hunks of an oversized patch, those still too big cut inside. */
  function Pieces(hunks: seq<string>, count: Counter, max: nat): seq<string> {
    if hunks == [] then []
    else (if count(hunks[0]) >= max then SplitHunk(hunks[0], count, max) else [hunks[0]]) + Pieces(hunks[1..], count, max)
  }

  function UnitsOf(patch: string, count: Counter, max: nat): seq<string> {
    if count(patch) < max then [patch] else Pieces(SplitPatch(patch), count, max)
  }

  function Units(files: seq<File>, count: Counter, max: nat): seq<File> {
    if files == [] then []
    else Label(files[0].0, UnitsOf(files[0].1, count, max)) + Units(files[1..], count, max)
  }

  // ----- Packing -----

  function Total(batch: Batch, count: Counter): nat {
    if batch == [] then 0 else count(batch[0].1) + Total(batch[1..], count)
  }

  datatype Packing = Packing(batches: seq<Batch>, current: Batch, tokens: nat)

  function Pack(p: Packing, file: File, count: Counter, max: nat): Packing {
    var cost := count(file.1);
    if cost >= max then
      Packing((if p.current == [] then p.batches else p.batches + [p.current]) + [[file]], [],
              if p.current == [] then p.tokens else 0)
    else if p.tokens + cost > max && p.current != [] then
      Packing(p.batches + [p.current], [file], cost)
    else Packing(p.batches, p.current + [file], p.tokens + cost)
  }

  function PackAll(p: Packing, files: seq<File>, count: Counter, max: nat): Packing
    decreases |files|
  {
    if files == [] then p else PackAll(Pack(p, files[0], count, max), files[1..], count, max)
  }

  function Close(p: Packing): seq<Batch> {
    if p.current == [] then p.batches else p.batches + [p.current]
  }

  const EMPTY := Packing([], [], 0)

  /** batch_files */
  function Batches(files: seq<File>, count: Counter, max: nat, recursive: bool): seq<Batch> {
    Close(PackAll(EMPTY, if recursive then Units(files, count, max) else files, count, max))
  }

  method BatchFiles(files: seq<File>, count: Counter, max: nat, recursive: bool) returns (batches: seq<Batch>)
    ensures batches == Batches(files, count, max, recursive)
  {
    hide Units, Pack;
    var todo := files;
    if recursive {
      todo := WalkFiles(files, count, max);
    }
    batches := [];
    var current: Batch := [];
    var tokens: nat := 0;
    for i := 0 to |todo|
      invariant current == [] ==> tokens == 0
      invariant PackAll(EMPTY, todo, count, max) == PackAll(Packing(batches, current, tokens), todo[i..], count, max)
    {
      assert todo[i..][1..] == todo[i + 1..];
      ghost var before := Packing(batches, current, tokens);
      var cost := count(todo[i].1);
      if cost >= max {
        if current != [] {
          batches := batches + [current];
          current := [];
          tokens := 0;
        }
        batches := batches + [[todo[i]]];
      } else {
        if tokens + cost > max && current != [] {
          batches := batches + [current];
          current := [];
          tokens := 0;
        }
        current := current + [todo[i]];
        tokens := tokens + cost;
      }
      PackIs(before, todo[i], Packing(batches, current, tokens), count, max);
    }
    if current != [] {
      batches := batches + [current];
    }
  }

  lemma {:induction false} PackIs(before: Packing, file: File, p: Packing, count: Counter, max: nat)
    requires before.current == [] ==> before.tokens == 0
    requires var cost, closed := count(file.1), if before.current == [] then before.batches else before.batches + [before.current];
      p == if cost >= max then Packing(closed + [[file]], [], 0)
           else if before.tokens + cost > max && before.current != [] then Packing(closed, [file], cost)
           else Packing(before.batches, before.current + [file], before.tokens + cost)
    ensures p == Pack(before, file, count, max)
  {
  }

  /** The recursive walk: files that fit stay whole, the others become pieces. */
  method WalkFiles(files: seq<File>, count: Counter, max: nat) returns (units: seq<File>)
    ensures units == Units(files, count, max)
  {
    hide SplitPatch, SplitHunk;
    units := [];
    for i := 0 to |files|
      invariant Units(files, count, max) == units + Units(files[i..], count, max)
    {
      assert files[i..][1..] == files[i + 1..];
      var (path, patch) := files[i];
      Assoc(units, Label(path, UnitsOf(patch, count, max)), Units(files[i + 1..], count, max));
      if count(patch) < max {
        assert Label(path, [patch]) == [(path, patch)];
        units := units + [(path, patch)];
      } else {
        var pieces := WalkHunks(patch, count, max);
        units := units + Label(path, pieces);
      }
    }
    assert units + Units(files[|files|..], count, max) == units;
  }

  method WalkHunks(patch: string, count: Counter, max: nat) returns (pieces: seq<string>)
    ensures pieces == Pieces(SplitPatch(patch), count, max)
  {
    hide SplitPatch, SplitHunk;
    var hunks := SplitPatchIntoHunks(patch);
    pieces := [];
    for i := 0 to |hunks|
      invariant Pieces(hunks, count, max) == pieces + Pieces(hunks[i..], count, max)
    {
      assert hunks[i..][1..] == hunks[i + 1..];
      var cut := [hunks[i]];
      if count(hunks[i]) >= max {
        cut := SplitHunkByBudget(hunks[i], count, max);
      }
      Assoc(pieces, cut, Pieces(hunks[i + 1..], count, max));
      pieces := pieces + cut;
    }
    assert pieces + Pieces(hunks[|hunks|..], count, max) == pieces;
  }

  // ----- Nothing is lost, doubled, moved or renumbered -----

  /** Every in-hunk line of the files, under the path each was given as, in order. */
  function Tagged(files: seq<File>): seq<(string, Entry)> {
    if files == [] then [] else Tag(files[0].0, Entries(files[0].1)) + Tagged(files[1..])
  }

  function Tag(path: string, es: seq<Entry>): seq<(string, Entry)> {
    if es == [] then [] else [(path, es[0])] + Tag(path, es[1..])
  }

  lemma {:induction false} TagConcat(path: string, a: seq<Entry>, b: seq<Entry>)
    ensures Tag(path, a + b) == Tag(path, a) + Tag(path, b)
  {
    if a == [] {
      assert a + b == b;
    } else {
      assert (a + b)[1..] == a[1..] + b;
      TagConcat(path, a[1..], b);
    }
  }

  lemma {:induction false} TaggedConcat(a: seq<File>, b: seq<File>)
    ensures Tagged(a + b) == Tagged(a) + Tagged(b)
  {
    hide Entries;
    if a == [] {
      assert a + b == b;
    } else {
      assert (a + b)[1..] == a[1..] + b;
      TaggedConcat(a[1..], b);
      Assoc(Tag(a[0].0, Entries(a[0].1)), Tagged(a[1..]), Tagged(b));
    }
  }

  lemma {:induction false} TaggedLabel(path: string, patches: seq<string>)
    ensures Tagged(Label(path, patches)) == Tag(path, WalkPatches(patches))
    decreases |patches|
  {
    hide Entries;
    if patches != [] {
      TaggedLabel(path, patches[1..]);
      TagConcat(path, Entries(patches[0]), WalkPatches(patches[1..]));
    }
  }

  lemma {:induction false} WalkPatchesConcat(a: seq<string>, b: seq<string>)
    ensures WalkPatches(a + b) == WalkPatches(a) + WalkPatches(b)
    decreases |a|
  {
    hide Entries;
    if a == [] {
      assert a + b == b;
    } else {
      assert (a + b)[1..] == a[1..] + b;
      WalkPatchesConcat(a[1..], b);
      Assoc(Entries(a[0]), WalkPatches(a[1..]), WalkPatches(b));
    }
  }

  /** A piece that split_hunk_by_budget does not move: one good hunk, or no hunk at all. */
  predicate Splittable(unit: string) {
    || (WellFormedPatch(Lines(unit)) && |ParseHunks(Lines(unit)).hunks| == 1)
    || Open(unit).None?
  }

  lemma {:induction false} PiecesWalk(hunks: seq<string>, count: Counter, max: nat)
    requires forall i :: 0 <= i < |hunks| ==> Splittable(hunks[i])
    ensures WalkPatches(Pieces(hunks, count, max)) == WalkPatches(hunks)
    decreases |hunks|
  {
    hide Entries, WellFormedPatch, Lines, ParseHunks, Open;
    if hunks != [] {
      var cut := if count(hunks[0]) >= max then SplitHunk(hunks[0], count, max) else [hunks[0]];
      PiecesWalk(hunks[1..], count, max);
      WalkPatchesConcat(cut, Pieces(hunks[1..], count, max));
      assert [hunks[0]][1..] == [];
      assert WalkPatches([hunks[0]]) == Entries(hunks[0]);
      if Open(hunks[0]).Some? {
        SplitHunkWalks(hunks[0], count, max);
      }
    }
  }

  lemma {:induction false} UnitsOfWalk(patch: string, count: Counter, max: nat)
    requires SoundPatch(Lines(patch))
    ensures WalkPatches(UnitsOf(patch, count, max)) == Entries(patch)
  {
    hide Entries, SoundPatch, Lines, SplitPatch, Open, PathOf, ParseHunks;
    assert [patch][1..] == [];
    assert WalkPatches([patch]) == Entries(patch);
    SplitPatchWalks(patch);
    if ParseHunks(Lines(patch)).hunks == [] {
      assert Open(patch).None? by { NoHunkNothingToOpen(patch); }
    }
    PiecesWalk(SplitPatch(patch), count, max);
  }

  lemma {:induction false} NoHunkNothingToOpen(patch: string)
    requires SoundPatch(Lines(patch)) && ParseHunks(Lines(patch)).hunks == []
    ensures Open(patch).None?
  {
    hide ParseHunkHeader, SoundPatch, Lines;
    FirstMarkIsFirstHunk(Lines(patch));
    ParseSplit(Lines(patch));
  }

  predicate SoundFiles(files: seq<File>) {
    forall i :: 0 <= i < |files| ==> SoundPatch(Lines(files[i].1))
  }

  lemma {:induction false} UnitsWalkFiles(files: seq<File>, count: Counter, max: nat)
    requires SoundFiles(files)
    ensures Tagged(Units(files, count, max)) == Tagged(files)
    decreases |files|
  {
    hide Entries, SoundPatch, Lines, UnitsOf;
    if files != [] {
      var (path, patch) := files[0];
      UnitsOfWalk(patch, count, max);
      TaggedLabel(path, UnitsOf(patch, count, max));
      TaggedConcat(Label(path, UnitsOf(patch, count, max)), Units(files[1..], count, max));
      UnitsWalkFiles(files[1..], count, max);
    }
  }

  function Flatten(batches: seq<Batch>): seq<File> {
    if batches == [] then [] else batches[0] + Flatten(batches[1..])
  }

  lemma {:induction false} FlattenSnoc(batches: seq<Batch>, last: Batch)
    ensures Flatten(batches + [last]) == Flatten(batches) + last
  {
    if batches == [] {
      assert [last][1..] == [];
    } else {
      assert (batches + [last])[1..] == batches[1..] + [last];
      FlattenSnoc(batches[1..], last);
      Assoc(batches[0], Flatten(batches[1..]), last);
    }
  }

  /** What packing has done with the files so far: they are all there, in order; every closed batch is
      non-empty and within budget or a single unit; and neighbours together reach the budget. */
  predicate Packed(p: Packing, files: seq<File>, count: Counter, max: nat) {
    && Flatten(p.batches) + p.current == files
    && p.tokens == Total(p.current, count) <= max
    && Fitting(p.batches, count, max) && Full(p.batches, count, max)
    && (p.batches != [] ==> Total(p.batches[|p.batches| - 1], count) + p.tokens >= max)
  }

  predicate Fitting(batches: seq<Batch>, count: Counter, max: nat) {
    forall i :: 0 <= i < |batches| ==> batches[i] != [] && (Total(batches[i], count) <= max || |batches[i]| == 1)
  }

  predicate Full(batches: seq<Batch>, count: Counter, max: nat) {
    forall i :: 0 < i < |batches| ==> Total(batches[i - 1], count) + Total(batches[i], count) >= max
  }

  lemma {:induction false} TotalConcat(a: Batch, b: Batch, count: Counter)
    ensures Total(a + b, count) == Total(a, count) + Total(b, count)
  {
    if a == [] {
      assert a + b == b;
    } else {
      assert (a + b)[1..] == a[1..] + b;
      TotalConcat(a[1..], b, count);
    }
  }

  lemma {:induction false} AppendBatch(batches: seq<Batch>, batch: Batch, count: Counter, max: nat)
    requires Fitting(batches, count, max) && Full(batches, count, max)
    requires batch != [] && (Total(batch, count) <= max || |batch| == 1)
    requires batches != [] ==> Total(batches[|batches| - 1], count) + Total(batch, count) >= max
    ensures Fitting(batches + [batch], count, max) && Full(batches + [batch], count, max)
    ensures Flatten(batches + [batch]) == Flatten(batches) + batch
  {
    hide Total;
    FlattenSnoc(batches, batch);
  }

  /** What Close would return keeps the packing's promises. */
  lemma {:induction false} CloseKeeps(p: Packing, files: seq<File>, count: Counter, max: nat)
    requires Packed(p, files, count, max)
    ensures Fitting(Close(p), count, max) && Full(Close(p), count, max) && Flatten(Close(p)) == files
    ensures p.current == [] && p.batches != [] ==> Total(p.batches[|p.batches| - 1], count) >= max
  {
    hide Total;
    if p.current != [] {
      AppendBatch(p.batches, p.current, count, max);
    } else {
      assert Flatten(p.batches) + [] == Flatten(p.batches);
      NoTokens(p.current, count);
    }
  }

  lemma {:induction false} NoTokens(batch: Batch, count: Counter)
    requires batch == []
    ensures Total(batch, count) == 0
  {
  }

  lemma {:induction false} PackKeeps(p: Packing, files: seq<File>, file: File, count: Counter, max: nat)
    requires Packed(p, files, count, max)
    ensures Packed(Pack(p, file, count, max), files + [file], count, max)
  {
    var cost := count(file.1);
    assert Total([file], count) == cost by { assert [file][1..] == []; }
    assert Total([], count) == 0;
    TotalConcat(p.current, [file], count);
    hide Total, Flatten;
    CloseKeeps(p, files, count, max);
    if cost >= max {
      AppendBatch(Close(p), [file], count, max);
      assert files + [file] + [] == files + [file];
    } else if !(p.tokens + cost > max && p.current != []) {
      Assoc(Flatten(p.batches), p.current, [file]);
    }
  }

  lemma {:induction false} PackAllKeeps(p: Packing, done: seq<File>, files: seq<File>, count: Counter, max: nat)
    requires Packed(p, done, count, max)
    ensures Packed(PackAll(p, files, count, max), done + files, count, max)
    decreases |files|
  {
    hide Packed, Pack;
    if files == [] {
      assert done + files == done;
    } else {
      PackKeeps(p, done, files[0], count, max);
      PackAllKeeps(Pack(p, files[0], count, max), done + [files[0]], files[1..], count, max);
      assert done + [files[0]] + files[1..] == done + files;
    }
  }

  /** batch_files keeps its units, in order; every batch is non-empty and within the budget or one
      unit; any two neighbours together reach the budget. */
  lemma {:induction false} BatchesArePacked(files: seq<File>, count: Counter, max: nat, recursive: bool)
    ensures var batches := Batches(files, count, max, recursive);
      && Flatten(batches) == (if recursive then Units(files, count, max) else files)
      && Fitting(batches, count, max) && Full(batches, count, max)
  {
    hide Units;
    var todo := if recursive then Units(files, count, max) else files;
    PackAllKeeps(EMPTY, [], todo, count, max);
    assert [] + todo == todo;
    CloseKeeps(PackAll(EMPTY, todo, count, max), todo, count, max);
  }

  /** With recursive batching on, the batches hold exactly the lines of the files: same paths, same
      order, same numbers, entry for entry. */
  lemma {:induction false} BatchingMovesNothing(files: seq<File>, count: Counter, max: nat)
    requires SoundFiles(files)
    ensures Tagged(Flatten(Batches(files, count, max, true))) == Tagged(files)
  {
    hide Batches, Units, SoundPatch, Lines, Entries;
    BatchesArePacked(files, count, max, true);
    UnitsWalkFiles(files, count, max);
  }

  // ----- How many batches -----

  lemma {:induction false} PairsReach(batches: seq<Batch>, count: Counter, max: nat)
    requires Full(batches, count, max)
    ensures |batches| / 2 * max <= Total(Flatten(batches), count)
    decreases |batches|
  {
    if |batches| >= 2 {
      var rest := batches[2..];
      forall i | 0 < i < |rest| ensures Total(rest[i - 1], count) + Total(rest[i], count) >= max {
        assert rest[i] == batches[i + 2] && rest[i - 1] == batches[i + 1];
      }
      PairsReach(rest, count, max);
      assert batches[1..][1..] == rest;
      assert Flatten(batches) == batches[0] + (batches[1] + Flatten(rest));
      TotalConcat(batches[0], batches[1] + Flatten(rest), count);
      TotalConcat(batches[1], Flatten(rest), count);
      assert |batches| / 2 == |rest| / 2 + 1;
      assert (|rest| / 2 + 1) * max == |rest| / 2 * max + max;
    }
  }

  /** At most twice as many batches as a perfect packing would need, plus one. */
  lemma {:induction false} BatchCountBound(files: seq<File>, count: Counter, max: nat, recursive: bool)
    requires max > 0
    ensures var batches := Batches(files, count, max, recursive);
      |batches| <= 2 * (Total(Flatten(batches), count) / max) + 1
  {
    hide Batches;
    BatchesArePacked(files, count, max, recursive);
    var batches := Batches(files, count, max, recursive);
    PairsReach(batches, count, max);
    AtMost(|batches| / 2, max, Total(Flatten(batches), count));
  }

  lemma {:induction false} AtMost(k: nat, max: nat, total: nat)
    requires max > 0 && k * max <= total
    ensures k <= total / max
  {
    var q := total / max;
    assert total < (q + 1) * max;
    assert q < k ==> (q + 1) * max <= k * max;
  }
}
