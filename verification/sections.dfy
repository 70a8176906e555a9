/** core/diffparse.py, split_by_file and hunk_for_line: a diff of many files. */
module Sections {
  import opened Text
  import opened DiffParse
  import opened Geometry
  import opened ChangeIndex

  /** Lines before the first file header, then each header with the lines below it. */
  datatype Sectioned = Sectioned(head: seq<string>, sections: seq<seq<string>>)

  function Cut(lines: seq<string>): Sectioned {
    if lines == [] then Sectioned([], [])
    else
      var below := Cut(lines[1..]);
      if IsFileHeader(lines[0]) then Sectioned([], [[lines[0]] + below.head] + below.sections)
      else Sectioned([lines[0]] + below.head, below.sections)
  }

  function Glue(sections: seq<seq<string>>): seq<string> {
    if sections == [] then [] else sections[0] + Glue(sections[1..])
  }

  predicate NoFileHeader(lines: seq<string>) {
    forall i :: 0 <= i < |lines| ==> !IsFileHeader(lines[i])
  }

  predicate IsSection(lines: seq<string>) {
    lines != [] && IsFileHeader(lines[0]) && NoFileHeader(lines[1..])
  }

  predicate AllSections(sections: seq<seq<string>>) {
    forall i :: 0 <= i < |sections| ==> IsSection(sections[i])
  }

  /** Cutting loses nothing and cuts exactly at the file headers. */
  lemma {:induction false} CutIsExact(lines: seq<string>)
    ensures var c := Cut(lines);
      lines == c.head + Glue(c.sections) && NoFileHeader(c.head) && AllSections(c.sections)
  {
    hide IsFileHeader;
    if lines != [] {
      CutIsExact(lines[1..]);
      var below := Cut(lines[1..]);
      assert lines == [lines[0]] + lines[1..];
      Assoc([lines[0]], below.head, Glue(below.sections));
    }
  }

  // ----- Texts of the sections -----

  /** The first value f gives on a line, as a multi-line search finds it. */
  function FirstMatch(lines: seq<string>, f: string -> Option<string>): Option<string> {
    if lines == [] then None else if f(lines[0]).Some? then f(lines[0]) else FirstMatch(lines[1..], f)
  }

  /** The path split_by_file names a section by. */
  function SectionPath(lines: seq<string>, default: string): string {
    if FirstMatch(lines, NewPath).Some? then FirstMatch(lines, NewPath).value
    else if FirstMatch(lines, RenameTo).Some? then FirstMatch(lines, RenameTo).value
    else if FirstMatch(lines, OldPath).Some? then FirstMatch(lines, OldPath).value
    else FirstMatch(lines, FallbackPath).GetOr(default)
  }

  function NameAt(names: seq<string>, i: nat): string {
    if i < |names| then names[i] else "unknown"
  }

  /** Section i of a diff as the text between its header and the next; only the last may lack
      a final newline. */
  function SectionTexts(sections: seq<seq<string>>, ended: bool): (texts: seq<string>)
    ensures |texts| == |sections|
  {
    if sections == [] then []
    else [Unlines(sections[0], ended || |sections| > 1)] + SectionTexts(sections[1..], ended)
  }

  function Name(sections: seq<seq<string>>, texts: seq<string>, changed: seq<string>, i: nat): seq<(string, string)>
    requires |texts| == |sections|
    decreases |sections|
  {
    if sections == [] then []
    else [(SectionPath(sections[0], NameAt(changed, i)), texts[0])] + Name(sections[1..], texts[1..], changed, i + 1)
  }

  /** split_by_file */
  function SplitByFile(diff: string, changed: seq<string>): seq<(string, string)> {
    var sections := Cut(Lines(diff)).sections;
    if sections == [] then [(NameAt(changed, 0), diff)]
    else Name(sections, SectionTexts(sections, EndsWithNewline(diff)), changed, 0)
  }

  function Patches(split: seq<(string, string)>): seq<string> {
    if split == [] then [] else [split[0].1] + Patches(split[1..])
  }

  lemma {:induction false} PatchesOfNamed(sections: seq<seq<string>>, texts: seq<string>, changed: seq<string>, i: nat)
    requires |texts| == |sections|
    ensures Patches(Name(sections, texts, changed, i)) == texts
    decreases |sections|
  {
    if sections != [] {
      PatchesOfNamed(sections[1..], texts[1..], changed, i + 1);
    }
  }

  lemma {:induction false} TextsConcat(sections: seq<seq<string>>, ended: bool)
    requires sections != [] && forall i :: 0 <= i < |sections| ==> sections[i] != []
    ensures Glue(sections) != [] && Concat(SectionTexts(sections, ended)) == Unlines(Glue(sections), ended)
    decreases |sections|
  {
    if |sections| == 1 {
      assert Glue(sections) == sections[0];
      assert SectionTexts(sections[1..], ended) == [];
    } else {
      TextsConcat(sections[1..], ended);
      JoinAppend(sections[0], Glue(sections[1..]));
    }
  }

  lemma {:induction false} GlueSingle(sections: seq<seq<string>>)
    requires AllSingle(Glue(sections))
    ensures forall i :: 0 <= i < |sections| ==> AllSingle(sections[i])
    decreases |sections|
  {
    if sections != [] {
      var first, rest := sections[0], sections[1..];
      assert forall i :: 0 <= i < |first| ==> Glue(sections)[i] == first[i];
      assert forall i :: 0 <= i < |Glue(rest)| ==> Glue(sections)[|first| + i] == Glue(rest)[i];
      GlueSingle(rest);
      assert forall i :: 0 < i < |sections| ==> sections[i] == rest[i - 1];
    }
  }

  /** The patches of a diff that opens with a file header concatenate back to it. */
  lemma {:induction false} SplitConcatenatesBack(diff: string, changed: seq<string>)
    requires IsFileHeader(Lines(diff)[0])
    ensures Concat(Patches(SplitByFile(diff, changed))) == diff
  {
    hide IsFileHeader, SectionPath;
    var lines := Lines(diff);
    var sections := Cut(lines).sections;
    CutIsExact(lines);
    assert Cut(lines).head == [] && sections != [];
    PatchesOfNamed(sections, SectionTexts(sections, EndsWithNewline(diff)), changed, 0);
    TextsConcat(sections, EndsWithNewline(diff));
    assert [] + Glue(sections) == Glue(sections);
    LinesOfText(diff);
  }

  // ----- Walking the sections -----

  function WalkSections(sections: seq<seq<string>>): seq<Entry> {
    if sections == [] then [] else Walk(sections[0], START) + WalkSections(sections[1..])
  }

  /** Two cursors a file header cannot tell apart. */
  predicate SameStart(c: Cursor, d: Cursor) {
    c == d || (c.file == d.file && !c.inHunk && !d.inHunk)
  }

  lemma {:induction false} SameStartStep(c: Cursor, d: Cursor, line: string)
    requires SameStart(c, d)
    ensures Emit(c, line) == Emit(d, line) && SameStart(Step(c, line), Step(d, line))
  {
    hide IsFileHeader, ParseHunkHeader, OldPath, NewPath, FallbackPath;
  }

  lemma {:induction false} SameStartWalk(lines: seq<string>, c: Cursor, d: Cursor)
    requires SameStart(c, d)
    ensures Walk(lines, c) == Walk(lines, d)
    decreases |lines|
  {
    hide Emit, Step, SameStart;
    if lines != [] {
      SameStartStep(c, d, lines[0]);
      SameStartWalk(lines[1..], Step(c, lines[0]), Step(d, lines[0]));
    }
  }

  /** A section's walk does not depend on what came before it. */
  lemma {:induction false} SectionRestarts(lines: seq<string>, c: Cursor)
    requires lines != [] && IsFileHeader(lines[0])
    ensures Walk(lines, c) == Walk(lines, START)
  {
    hide IsFileHeader, FallbackPath;
    SameStartWalk(lines[1..], Step(c, lines[0]), Step(START, lines[0]));
  }

  lemma {:induction false} GluedWalk(sections: seq<seq<string>>, c: Cursor)
    requires AllSections(sections)
    ensures Walk(Glue(sections), c) == WalkSections(sections)
    decreases |sections|
  {
    hide Emit, Step, IsFileHeader;
    if sections != [] {
      WalkConcat(sections[0], Glue(sections[1..]), c);
      SectionRestarts(sections[0], c);
      GluedWalk(sections[1..], After(sections[0], c));
    }
  }

  function WalkPatches(patches: seq<string>): seq<Entry> {
    if patches == [] then [] else Entries(patches[0]) + WalkPatches(patches[1..])
  }

  lemma {:induction false} SectionTextLines(section: seq<string>, ended: bool)
    requires section != [] && AllSingle(section)
    requires ended || |section| == 1 || section[|section| - 1] != ""
    ensures Lines(Unlines(section, ended)) == section
  {
    LinesOfUnlines(section, ended);
  }

  /** What the last section of a text that lacks a final newline ends with. */
  predicate Printable(sections: seq<seq<string>>, ended: bool) {
    forall i :: 0 <= i < |sections| ==>
      && sections[i] != [] && AllSingle(sections[i])
      && (ended || i < |sections| - 1 || |sections[i]| == 1 || sections[i][|sections[i]| - 1] != "")
  }

  lemma {:induction false} TextsWalk(sections: seq<seq<string>>, ended: bool)
    requires Printable(sections, ended)
    ensures WalkPatches(SectionTexts(sections, ended)) == WalkSections(sections)
    decreases |sections|
  {
    if sections != [] {
      SectionTextLines(sections[0], ended || |sections| > 1);
      TextsWalk(sections[1..], ended);
    }
  }

  lemma {:induction false} GlueLast(sections: seq<seq<string>>)
    requires sections != [] && forall i :: 0 <= i < |sections| ==> sections[i] != []
    ensures Glue(sections) != []
    ensures Glue(sections)[|Glue(sections)| - 1] == sections[|sections| - 1][|sections[|sections| - 1]| - 1]
    decreases |sections|
  {
    if |sections| > 1 {
      GlueLast(sections[1..]);
    } else {
      assert Glue(sections) == sections[0] + [];
    }
  }

  /** A diff that opens with a file header is its sections and nothing else. */
  lemma {:induction false} CutOfDiff(lines: seq<string>)
    requires lines != [] && IsFileHeader(lines[0])
    ensures Cut(lines).head == [] && lines == Glue(Cut(lines).sections) && Cut(lines).sections != []
    ensures AllSections(Cut(lines).sections)
  {
    hide IsFileHeader;
    CutIsExact(lines);
    assert [] + Glue(Cut(lines).sections) == Glue(Cut(lines).sections);
  }

  lemma {:induction false} CutPrintable(diff: string)
    requires IsFileHeader(Lines(diff)[0])
    ensures Printable(Cut(Lines(diff)).sections, EndsWithNewline(diff))
  {
    hide IsFileHeader, Cut, EndsWithNewline, Printable, AllSections, Glue, NoNewline;
    CutOfDiff(Lines(diff));
    LastLineNotEmpty(diff);
    hide Lines;
    GluePrintable(Cut(Lines(diff)).sections, EndsWithNewline(diff));
  }

  lemma {:induction false} GluePrintable(sections: seq<seq<string>>, ended: bool)
    requires sections != [] && AllSections(sections) && AllSingle(Glue(sections))
    requires ended || |Glue(sections)| < 2 || Glue(sections)[|Glue(sections)| - 1] != ""
    ensures Printable(sections, ended)
  {
    hide IsFileHeader;
    assert forall i :: 0 <= i < |sections| ==> sections[i] != [];
    hide AllSections, AllSingle;
    GlueSingle(sections);
    GlueLast(sections);
    GlueLongerThan(sections);
    hide Glue;
  }

  lemma {:induction false} LastLineNotEmpty(diff: string)
    ensures !EndsWithNewline(diff) && |Lines(diff)| >= 2 ==> Lines(diff)[|Lines(diff)| - 1] != ""
  {
    if !EndsWithNewline(diff) {
      JoinSplit(diff);
      JoinEndsWithNewline(Lines(diff));
    }
  }

  lemma {:induction false} GlueLongerThan(sections: seq<seq<string>>)
    requires sections != []
    ensures |Glue(sections)| >= |sections[|sections| - 1]|
    decreases |sections|
  {
    if |sections| > 1 {
      GlueLongerThan(sections[1..]);
    }
  }

  /** Walking a diff is walking its patches one after another. */
  lemma {:induction false} WalkIsCompositional(diff: string, changed: seq<string>)
    requires IsFileHeader(Lines(diff)[0])
    ensures Entries(diff) == WalkPatches(Patches(SplitByFile(diff, changed)))
  {
    hide IsFileHeader, SectionPath, Emit, Step;
    var lines := Lines(diff);
    var sections := Cut(lines).sections;
    CutOfDiff(lines);
    GluedWalk(sections, START);
    CutPrintable(diff);
    TextsWalk(sections, EndsWithNewline(diff));
    PatchesOfNamed(sections, SectionTexts(sections, EndsWithNewline(diff)), changed, 0);
  }

  /** split_by_file's loop over the headers it found: what each patch is called, in the order of the
      places a name is looked for. */
  method SplitDiff(diff: string, changed: seq<string>) returns (result: seq<(string, string)>)
    ensures result == SplitByFile(diff, changed)
  {
    hide Cut, Lines, SectionTexts, FirstMatch;
    var sections := Cut(Lines(diff)).sections;
    if sections == [] {
      return [(if changed != [] then changed[0] else "unknown", diff)];
    }
    var texts := SectionTexts(sections, EndsWithNewline(diff));
    result := [];
    assert sections[0..] == sections && texts[0..] == texts;
    for i := 0 to |sections|
      invariant result + Name(sections[i..], texts[i..], changed, i) == SplitByFile(diff, changed)
    {
      var patch := sections[i];
      var path := FirstMatch(patch, NewPath);
      if path.None? { path := FirstMatch(patch, RenameTo); }
      if path.None? { path := FirstMatch(patch, OldPath); }
      if path.None? { path := FirstMatch(patch, FallbackPath); }
      if path.None? { path := Some(if i < |changed| then changed[i] else "unknown"); }
      NamedNext(sections, texts, changed, i);
      Assoc(result, [(path.value, texts[i])], Name(sections[i + 1..], texts[i + 1..], changed, i + 1));
      result := result + [(path.value, texts[i])];
    }
    assert result + [] == result;
  }

  lemma {:induction false} NamedNext(sections: seq<seq<string>>, texts: seq<string>, changed: seq<string>, i: nat)
    requires |texts| == |sections| && i < |sections|
    ensures Name(sections[i..], texts[i..], changed, i)
         == [(SectionPath(sections[i], NameAt(changed, i)), texts[i])] + Name(sections[i + 1..], texts[i + 1..], changed, i + 1)
  {
    hide SectionPath;
    assert sections[i..][1..] == sections[i + 1..] && texts[i..][1..] == texts[i + 1..];
  }
}
