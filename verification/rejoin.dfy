/** engine/engine.py line 478: patches joined by a newline into the diff findings are snapped on. */
module Rejoin {
  import opened Text
  import opened DiffParse
  import opened Geometry
  import opened ChangeIndex
  import opened Sections

  lemma {:induction false} SplitConcat(a: string, b: string)
    ensures Split(a + [NEWLINE] + b) == Split(a) + Split(b)
  {
    if a == "" {
      assert (a + [NEWLINE] + b)[1..] == b;
    } else {
      var text, tail := a + [NEWLINE] + b, Split(a[1..]);
      SplitConcat(a[1..], b);
      assert text[0] == a[0] && text[1..] == a[1..] + [NEWLINE] + b;
      if a[0] == NEWLINE {
        Assoc([""], tail, Split(b));
      } else {
        assert (tail + Split(b))[0] == tail[0] && (tail + Split(b))[1..] == tail[1..] + Split(b);
        Assoc([[a[0]] + tail[0]], tail[1..], Split(b));
      }
    }
  }

  lemma {:induction false} LinesOfJoined(patch: string, rest: string)
    requires rest != ""
    ensures Lines(patch + [NEWLINE] + rest) == Lines(patch) + (if EndsWithNewline(patch) then [""] else []) + Lines(rest)
  {
    var text := patch + [NEWLINE] + rest;
    assert text[|text| - 1] == rest[|rest| - 1];
    assert RemoveSuffix(text) == patch + [NEWLINE] + RemoveSuffix(rest);
    SplitConcat(patch, RemoveSuffix(rest));
    if EndsWithNewline(patch) {
      assert patch == RemoveSuffix(patch) + [NEWLINE] + "";
      SplitConcat(RemoveSuffix(patch), "");
      assert Split(patch) == Lines(patch) + [""];
    } else {
      assert Split(patch) + Split(RemoveSuffix(rest)) == Lines(patch) + [] + Lines(rest);
    }
  }

  /** The empty line a newline-ended patch leaves before the next one is context at most. */
  lemma {:induction false} BlankChangesNothing(c: Cursor)
    ensures Changes(Walk([""], c)) == []
  {
    assert Walk([""], c) == Emit(c, "") + Walk([], Step(c, "")) == Emit(c, "");
  }

  predicate OpenWithHeader(patches: seq<string>) {
    forall i :: 0 <= i < |patches| ==> IsFileHeader(Lines(patches[i])[0])
  }

  /** The changed lines of patches, one after another. */
  function ChangesOfAll(patches: seq<string>): seq<Change> {
    if patches == [] then [] else Changes(Entries(patches[0])) + ChangesOfAll(patches[1..])
  }

  lemma {:induction false} HeaderIsText(patch: string)
    requires IsFileHeader(Lines(patch)[0])
    ensures patch != ""
  {
    assert Split("") == [""];
  }

  lemma {:induction false} JoinNotEmpty(patches: seq<string>)
    requires patches != [] && OpenWithHeader(patches)
    ensures Join(patches) != "" && Lines(Join(patches))[0] == Lines(patches[0])[0]
    decreases |patches|
  {
    hide IsFileHeader;
    HeaderIsText(patches[0]);
    if |patches| > 1 {
      JoinNotEmpty(patches[1..]);
      LinesOfJoined(patches[0], Join(patches[1..]));
    }
  }

  /** Joining patches with a newline keeps every changed line, although a patch that ends in a
      newline of its own leaves a blank line that reads as context. */
  lemma {:induction false} JoinKeepsChanges(patches: seq<string>)
    requires patches != [] && OpenWithHeader(patches)
    ensures Changes(Entries(Join(patches))) == ChangesOfAll(patches)
    decreases |patches|
  {
    hide IsFileHeader, Emit, Step, Lines, Changes;
    if |patches| == 1 {
      assert patches[1..] == [];
      assert Changes(Entries(patches[0])) + [] == Changes(Entries(patches[0]));
    } else {
      var first, rest := patches[0], Join(patches[1..]);
      JoinNotEmpty(patches[1..]);
      LinesOfJoined(first, rest);
      JoinKeepsChanges(patches[1..]);
      var blank := if EndsWithNewline(first) then [""] else [];
      var c := After(Lines(first), START);
      WalkConcat(Lines(first) + blank, Lines(rest), START);
      WalkConcat(Lines(first), blank, START);
      SectionRestarts(Lines(rest), After(Lines(first) + blank, START));
      ChangesConcat(Walk(Lines(first), START) + Walk(blank, c), Entries(rest));
      ChangesConcat(Walk(Lines(first), START), Walk(blank, c));
      BlankChangesNothing(c);
      NothingChanges();
      assert Changes(Walk(Lines(first), START)) + [] == Changes(Walk(Lines(first), START));
    }
  }

  lemma {:induction false} NothingChanges()
    ensures Changes([]) == []
  {
  }

  lemma {:induction false} WalkedChanges(patches: seq<string>)
    ensures Changes(WalkPatches(patches)) == ChangesOfAll(patches)
    decreases |patches|
  {
    hide Entries;
    if patches != [] {
      ChangesConcat(Entries(patches[0]), WalkPatches(patches[1..]));
      WalkedChanges(patches[1..]);
    }
  }

  lemma {:induction false} SplitOpensWithHeaders(sections: seq<seq<string>>, ended: bool)
    requires AllSections(sections) && Printable(sections, ended)
    ensures OpenWithHeader(SectionTexts(sections, ended))
    decreases |sections|
  {
    hide IsFileHeader;
    if sections != [] {
      SectionTextLines(sections[0], ended || |sections| > 1);
      SplitOpensWithHeaders(sections[1..], ended);
    }
  }

  /** Splitting a diff by file and joining the patches again with a newline keeps its index. */
  lemma {:induction false} RejoinKeepsChanges(diff: string, changed: seq<string>)
    requires IsFileHeader(Lines(diff)[0])
    ensures Changes(Entries(Join(Patches(SplitByFile(diff, changed))))) == Changes(Entries(diff))
  {
    hide IsFileHeader, Changes, Entries, SectionPath;
    var sections := Cut(Lines(diff)).sections;
    CutIsExact(Lines(diff));
    assert Cut(Lines(diff)).head == [] && sections != [];
    CutPrintable(diff);
    SplitOpensWithHeaders(sections, EndsWithNewline(diff));
    PatchesOfNamed(sections, SectionTexts(sections, EndsWithNewline(diff)), changed, 0);
    var patches := Patches(SplitByFile(diff, changed));
    JoinKeepsChanges(patches);
    WalkIsCompositional(diff, changed);
    WalkedChanges(patches);
  }
}
