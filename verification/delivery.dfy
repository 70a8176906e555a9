/** engine/stages.py: a diff is split by file, each patch is padded, and the padded patches are packed into
    the batches a model is sent. */
module Delivery {
  import opened Text
  import opened DiffParse
  import opened Geometry
  import opened ChangeIndex
  import opened Expand
  import opened ExpandProofs
  import opened Sections
  import opened Rejoin
  import opened HunkLookup
  import opened Slicing
  import opened Batching
  import opened Placement

  /** The padded files, under the paths they were split off as. */
  function ExpandFiles(files: seq<File>, pads: seq<Padding>): (expanded: seq<File>)
    requires |pads| == |files| && AllValid(pads)
    ensures |expanded| == |files|
  {
    if files == [] then [] else [(files[0].0, ExpandPatch(files[0].1, pads[0]))] + ExpandFiles(files[1..], pads[1..])
  }

  predicate WellFormedFiles(files: seq<File>) {
    forall i :: 0 <= i < |files| ==> WellFormedPatch(Lines(files[i].1))
  }

  /** An expanded patch need not be well formed, a hunk left with an empty side being printed one line past
      the one an empty range names; but each of its hunks is sound. */
  lemma {:induction false} ExpandedIsSound(patch: string, pad: Padding)
    requires pad.Valid() && WellFormedPatch(Lines(patch))
    ensures SoundPatch(Lines(ExpandPatch(patch, pad))) && PathOf(Lines(ExpandPatch(patch, pad))) == PathOf(Lines(patch))
  {
    hide ParseHunkHeader, IsFileHeader, Chained, Step, Descending, NoFileHeaderBelow, NoHunkMark, AllSound, Sound, ParseHunks, PathOf, Lines,
      ExpandedHunks;
    var lines := Lines(patch);
    var p := ParseHunks(lines);
    ExpandedWalkable(patch, pad);
    if !(pad.Off() || p.hunks == []) {
      WellFormedParts(lines);
      ExpandedTextParses(patch, pad);
      ExpandedHunksKeepChanges("", p.hunks, pad.Content(), pad.n, Max(0, pad.after), pad.spans);
      DescendingSound(ExpandedHunks(p.hunks, pad.Content(), pad.n, Max(0, pad.after), pad.spans));
    }
  }

  lemma {:induction false} DescendingSound(rs: seq<Hunk>)
    requires Descending(rs)
    ensures AllSound(rs)
  {
    hide Sound, Below;
  }

  lemma {:induction false} ExpandedFiles(files: seq<File>, pads: seq<Padding>)
    requires |pads| == |files| && AllValid(pads) && WellFormedFiles(files)
    ensures SoundFiles(ExpandFiles(files, pads))
    ensures ChangesOfAll(Patches(ExpandFiles(files, pads))) == ChangesOfAll(Patches(files))
    decreases |files|
  {
    hide WellFormedPatch, SoundPatch, Lines, ExpandPatch, Changes, Entries, Padding.Valid;
    if files != [] {
      ExpandKeepsChanges(files[0].1, pads[0]);
      ExpandedIsSound(files[0].1, pads[0]);
      ExpandedFiles(files[1..], pads[1..]);
      var expanded := ExpandFiles(files, pads);
      assert expanded[1..] == ExpandFiles(files[1..], pads[1..]);
      assert forall i :: 0 < i < |expanded| ==> expanded[i] == expanded[1..][i - 1];
    }
  }

  /** The entries without the paths they are sent under. */
  function Untag(tagged: seq<(string, Entry)>): seq<Entry> {
    if tagged == [] then [] else [tagged[0].1] + Untag(tagged[1..])
  }

  lemma {:induction false} UntagConcat(a: seq<(string, Entry)>, b: seq<(string, Entry)>)
    ensures Untag(a + b) == Untag(a) + Untag(b)
  {
    if a == [] {
      assert a + b == b;
    } else {
      assert (a + b)[1..] == a[1..] + b;
      UntagConcat(a[1..], b);
    }
  }

  lemma {:induction false} UntagTag(path: string, es: seq<Entry>)
    ensures Untag(Tag(path, es)) == es
    decreases |es|
  {
    if es != [] {
      UntagTag(path, es[1..]);
    }
  }

  lemma {:induction false} UntagAll(files: seq<File>)
    ensures Untag(Tagged(files)) == WalkPatches(Patches(files))
  {
    hide Entries;
    if files != [] {
      UntagAll(files[1..]);
      UntagTag(files[0].0, Entries(files[0].1));
      UntagConcat(Tag(files[0].0, Entries(files[0].1)), Tagged(files[1..]));
    }
  }

  /** Whatever the budget and the padding, the batches hold the changed lines of the files they were made
      from: none lost, doubled, moved or renumbered. */
  lemma {:induction false} BatchesHoldChanges(files: seq<File>, pads: seq<Padding>, count: Counter, max: nat, recursive: bool)
    requires |pads| == |files| && AllValid(pads) && WellFormedFiles(files)
    ensures ChangesOfAll(Patches(Flatten(Batches(ExpandFiles(files, pads), count, max, recursive)))) == ChangesOfAll(Patches(files))
  {
    hide Batches, Units, WellFormedFiles, SoundFiles, Tagged, WalkPatches, ChangesOfAll, Patches, AllValid;
    var expanded := ExpandFiles(files, pads);
    ExpandedFiles(files, pads);
    var sent := Flatten(Batches(expanded, count, max, recursive));
    if recursive {
      BatchingMovesNothing(expanded, count, max);
    } else {
      BatchesArePacked(expanded, count, max, false);
    }
    UntagAll(sent);
    UntagAll(expanded);
    WalkedChanges(Patches(sent));
    WalkedChanges(Patches(expanded));
  }

  lemma {:induction false} FilesOfPatches(files: seq<File>)
    requires WellFormedPatches(Patches(files))
    ensures WellFormedFiles(files)
  {
    hide WellFormedPatch, Lines;
    PatchesAt(files);
  }

  lemma {:induction false} PatchesAt(files: seq<File>)
    ensures |Patches(files)| == |files| && forall i :: 0 <= i < |files| ==> Patches(files)[i] == files[i].1
  {
    if files != [] {
      PatchesAt(files[1..]);
    }
  }

  /** From the diff to the model: split by file, padded from any text and packed to any budget, the diff
      is sent with exactly its changed lines, in order, at their own paths, sides and numbers. */
  lemma {:induction false} SentIsTheDiff(diff: string, changed: seq<string>, pads: seq<Padding>, count: Counter, max: nat, recursive: bool)
    requires WellFormedDiff(diff) && |pads| == |SplitByFile(diff, changed)| && AllValid(pads)
    ensures var sent := Flatten(Batches(ExpandFiles(SplitByFile(diff, changed), pads), count, max, recursive));
      ChangesOfAll(Patches(sent)) == Changes(Entries(diff))
  {
    hide WellFormedDiff, SplitByFile, Batches, ExpandFiles, WellFormedFiles, WellFormedPatches, AllValid, ChangesOfAll, Patches, Changes, Entries;
    SplitIsWellFormed(diff, changed);
    FilesOfPatches(SplitByFile(diff, changed));
    BatchesHoldChanges(SplitByFile(diff, changed), pads, count, max, recursive);
  }

  // ----- The path a piece is sent under -----

  /** The walk of a patch binds it to the path it was split off as. */
  predicate OwnPath(file: File) {
    ParseHunks(Lines(file.1)).hunks != [] ==> PathOf(Lines(file.1)) == Some(file.0)
  }

  predicate OwnPaths(files: seq<File>) {
    forall i :: 0 <= i < |files| ==> OwnPath(files[i])
  }

  lemma {:induction false} NamedOwn(sections: seq<seq<string>>, texts: seq<string>, changed: seq<string>, i: nat)
    requires GoodSections(sections) && |texts| == |sections| && forall k :: 0 <= k < |texts| ==> Lines(texts[k]) == sections[k]
    ensures OwnPaths(Name(sections, texts, changed, i))
    decreases |sections|
  {
    hide GoodSections, WellFormedPatch, HeaderNamed, FoundPath, SectionPath, ParseHunks, PathOf, Lines;
    if sections != [] {
      GoodBelow(sections);
      NamedPath(sections[0], NameAt(changed, i));
      if ParseHunks(sections[0]).hunks != [] {
        ReadersAgree(sections[0]);
      }
      NamedOwn(sections[1..], texts[1..], changed, i + 1);
    }
  }

  lemma {:induction false} SplitOwns(diff: string, changed: seq<string>)
    requires WellFormedDiff(diff)
    ensures OwnPaths(SplitByFile(diff, changed))
  {
    hide WellFormedDiff, GoodSections, OwnPath, Printable, AllSections, IsFileHeader, Name;
    var sections := Cut(Lines(diff)).sections;
    DiffParts(diff);
    TextsAreSections(sections, EndsWithNewline(diff));
    NamedOwn(sections, SectionTexts(sections, EndsWithNewline(diff)), changed, 0);
  }

  lemma {:induction false} BodyPaths(path: string, o: nat, n: nat, body: seq<string>, e: Entry)
    requires e in BodyEntries(path, o, n, body)
    ensures e.path == path
    decreases |body|
  {
    if e !in LineEntries(path, o, n, body[0]) {
      BodyPaths(path, o + OldWidth(body[0]), n + NewWidth(body[0]), body[1..], e);
    }
  }

  lemma {:induction false} HunksPaths(path: string, hs: seq<Hunk>, e: Entry)
    requires e in HunksEntries(path, hs)
    ensures hs != [] && e.path == path
    decreases |hs|
  {
    if e in HunkEntries(path, hs[0]) {
      BodyPaths(path, hs[0].header.oldStart, hs[0].header.newStart, hs[0].body, e);
    } else {
      HunksPaths(path, hs[1..], e);
    }
  }

  lemma {:induction false} ExpandedOwnsPath(file: File, pad: Padding, e: Entry)
    requires pad.Valid() && WellFormedPatch(Lines(file.1)) && OwnPath(file) && e in Entries(ExpandPatch(file.1, pad))
    ensures e.path == file.0
  {
    hide WellFormedPatch, SoundPatch, PathOf, Walk, HunksEntries, Walkable, ParseHunks, Lines;
    ExpandedIsSound(file.1, pad);
    var lines := Lines(ExpandPatch(file.1, pad));
    SoundIsWalkable(lines);
    SectionWalk(lines, START);
    HunksPaths(PathOf(lines).GetOr(""), ParseHunks(lines).hunks, e);
  }

  lemma {:induction false} TagPaths(path: string, es: seq<Entry>, x: (string, Entry))
    requires x in Tag(path, es)
    ensures x.0 == path && x.1 in es
    decreases |es|
  {
    if x != (path, es[0]) {
      TagPaths(path, es[1..], x);
    }
  }

  lemma {:induction false} ExpandedOwnPaths(files: seq<File>, pads: seq<Padding>, x: (string, Entry))
    requires |pads| == |files| && AllValid(pads) && WellFormedFiles(files) && OwnPaths(files)
    requires x in Tagged(ExpandFiles(files, pads))
    ensures x.1.path == x.0
    decreases |files|
  {
    hide WellFormedPatch, OwnPath, Entries, ExpandPatch, Padding.Valid, Lines;
    var expanded := ExpandFiles(files, pads);
    if x in Tag(expanded[0].0, Entries(expanded[0].1)) {
      TagPaths(expanded[0].0, Entries(expanded[0].1), x);
      ExpandedOwnsPath(files[0], pads[0], x.1);
    } else {
      assert expanded[1..] == ExpandFiles(files[1..], pads[1..]);
      ExpandedOwnPaths(files[1..], pads[1..], x);
    }
  }

  /** And every line a batch holds is sent under the path its own headers bind it to. */
  lemma {:induction false} SentUnderItsPath(diff: string, changed: seq<string>, pads: seq<Padding>, count: Counter, max: nat, recursive: bool,
                                            x: (string, Entry))
    requires WellFormedDiff(diff) && |pads| == |SplitByFile(diff, changed)| && AllValid(pads)
    requires x in Tagged(Flatten(Batches(ExpandFiles(SplitByFile(diff, changed), pads), count, max, recursive)))
    ensures x.1.path == x.0
  {
    hide WellFormedDiff, SplitByFile, Batches, ExpandFiles, WellFormedFiles, WellFormedPatches, AllValid, Patches, Tagged, SoundFiles, OwnPaths;
    var files := SplitByFile(diff, changed);
    SplitIsWellFormed(diff, changed);
    FilesOfPatches(files);
    SplitOwns(diff, changed);
    ExpandedFiles(files, pads);
    if recursive {
      BatchingMovesNothing(ExpandFiles(files, pads), count, max);
    } else {
      BatchesArePacked(ExpandFiles(files, pads), count, max, false);
    }
    ExpandedOwnPaths(files, pads, x);
  }
}
