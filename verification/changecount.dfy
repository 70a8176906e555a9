/** core/diffparse.py, changed_line_count: how big a change is, against the index of its lines. */
module ChangeCount {
  import opened Text
  import opened DiffParse
  import opened Geometry
  import opened ChangeIndex
  import opened Sections
  import opened HunkLookup

  predicate IsChanged(line: string) {
    line != "" && (line[0] == '+' || line[0] == '-')
  }

  function Count(lines: seq<string>, inHunk: bool): nat {
    if lines == [] then 0
    else if IsHunkHeader(lines[0]) then Count(lines[1..], true)
    else if IsFileHeader(lines[0]) then Count(lines[1..], false)
    else (if inHunk && IsChanged(lines[0]) then 1 else 0) + Count(lines[1..], inHunk)
  }

  method ChangedLineCount(diff: string) returns (count: nat)
    ensures count == Count(Lines(diff), false)
  {
    hide IsHunkHeader, IsFileHeader, Lines;
    count := 0;
    var inHunk := false;
    var lines := Lines(diff);
    for i := 0 to |lines|
      invariant Count(lines, false) == count + Count(lines[i..], inHunk)
    {
      assert lines[i..][1..] == lines[i + 1..];
      if IsHunkHeader(lines[i]) {
        inHunk := true;
      } else if IsFileHeader(lines[i]) {
        inHunk := false;
      } else if inHunk && IsChanged(lines[i]) {
        count := count + 1;
      }
    }
  }

  lemma {:induction false} EmitKinds(c: Cursor, line: string)
    ensures |Changes(Emit(c, line))|
         == if c.inHunk && c.file.Some? && !IsHunkHeader(line) && !IsFileHeader(line) && IsChanged(line) then 1 else 0
  {
    hide ParseHunkHeader, IsFileHeader;
    if Emit(c, line) != [] {
      var e := Emit(c, line)[0];
      assert Emit(c, line) == [e] && [e][1..] == [];
      assert Changes([e]) == ChangesOf(e) + [] == ChangesOf(e);
    }
  }

  lemma {:induction false} StepKinds(c: Cursor, line: string)
    ensures IsFileHeader(line) ==> !Step(c, line).inHunk
    ensures !IsFileHeader(line) && c.file.Some? ==> Step(c, line).file.Some?
    ensures c.file.Some? && IsHunkHeader(line) ==> Step(c, line).inHunk
    ensures !IsHunkHeader(line) && !IsFileHeader(line) ==> Step(c, line).inHunk == c.inHunk
    ensures !IsHunkHeader(line) && Step(c, line).inHunk ==> c.inHunk
  {
    hide ParseHunkHeader, IsFileHeader, OldPath, NewPath, FallbackPath;
    if IsHunkHeader(line) {
      HunkHeaderHasNoPath(line);
      HunkHeaderIsNoOldPath(line);
      HunkIsNoFile(line);
    }
  }

  lemma {:induction false} HunkHeaderIsNoOldPath(line: string)
    requires IsHunkHeader(line)
    ensures OldPath(line).None?
  {
    hide ParseHunkHeader;
    HunkHeaderMark(line);
    NotPrefix(line, "--- a/");
  }

  /** The count is never below the size of the index, whatever the text. */
  lemma {:induction false} CountAtLeastIndex(lines: seq<string>, c: Cursor, inHunk: bool)
    requires c.inHunk ==> inHunk
    ensures |Changes(Walk(lines, c))| <= Count(lines, inHunk)
    decreases |lines|
  {
    hide Emit, Step, IsHunkHeader, IsFileHeader, IsChanged;
    if lines != [] {
      StepKinds(c, lines[0]);
      EmitKinds(c, lines[0]);
      ChangesConcat(Emit(c, lines[0]), Walk(lines[1..], Step(c, lines[0])));
      var inHunk' := if IsHunkHeader(lines[0]) then true else if IsFileHeader(lines[0]) then false else inHunk;
      HunkIsNoFile(lines[0]);
      CountAtLeastIndex(lines[1..], Step(c, lines[0]), inHunk');
    }
  }

  lemma {:induction false} HunkIsNoFile(line: string)
    ensures !(IsHunkHeader(line) && IsFileHeader(line))
  {
    hide ParseHunkHeader;
    if IsFileHeader(line) {
      FileHeaderIsNoHunk(line);
    }
  }

  /** Every hunk opens with a path bound. */
  predicate HunksNamed(lines: seq<string>, c: Cursor) {
    lines == [] || ((IsHunkHeader(lines[0]) ==> c.file.Some?) && HunksNamed(lines[1..], Step(c, lines[0])))
  }

  lemma {:induction false} NamedCount(lines: seq<string>, c: Cursor)
    requires HunksNamed(lines, c) && (c.inHunk ==> c.file.Some?)
    ensures |Changes(Walk(lines, c))| == Count(lines, c.inHunk)
    decreases |lines|
  {
    hide Emit, Step, IsHunkHeader, IsFileHeader, IsChanged;
    if lines != [] {
      StepKinds(c, lines[0]);
      EmitKinds(c, lines[0]);
      HunkIsNoFile(lines[0]);
      ChangesConcat(Emit(c, lines[0]), Walk(lines[1..], Step(c, lines[0])));
      NamedCount(lines[1..], Step(c, lines[0]));
    }
  }

  lemma {:induction false} NamedConcat(a: seq<string>, b: seq<string>, c: Cursor)
    ensures HunksNamed(a + b, c) <==> HunksNamed(a, c) && HunksNamed(b, After(a, c))
    decreases |a|
  {
    hide Step, IsHunkHeader;
    if a == [] {
      assert a + b == b;
    } else {
      assert (a + b)[1..] == a[1..] + b;
      NamedConcat(a[1..], b, Step(c, a[0]));
    }
  }

  lemma {:induction false} NamedOnceBound(lines: seq<string>, c: Cursor)
    requires c.file.Some? && NoFileHeader(lines)
    ensures HunksNamed(lines, c)
    decreases |lines|
  {
    hide Step, IsHunkHeader, IsFileHeader, Emit, IsChanged;
    if lines != [] {
      StepKinds(c, lines[0]);
      EmitKinds(c, lines[0]);
      NamedOnceBound(lines[1..], Step(c, lines[0]));
    }
  }

  lemma {:induction false} NamedPreamble(lines: seq<string>, c: Cursor)
    requires NoHunkHeader(lines)
    ensures HunksNamed(lines, c)
    decreases |lines|
  {
    hide Step, IsHunkHeader;
    if lines != [] {
      NamedPreamble(lines[1..], Step(c, lines[0]));
    }
  }

  lemma {:induction false} SectionNamed(lines: seq<string>, c: Cursor)
    requires Walkable(lines) && IsSection(lines)
    ensures HunksNamed(lines, c)
  {
    hide ParseHunkHeader, IsFileHeader, Step, PathOf;
    var p := ParseHunks(lines);
    ParseSplit(lines);
    PreambleHasNoHunkHeader(lines);
    var rest := lines[|p.preamble|..];
    assert lines == p.preamble + rest;
    NamedConcat(p.preamble, rest, c);
    NamedPreamble(p.preamble, c);
    SectionPreamble(lines, c);
    if p.hunks != [] {
      assert NoFileHeader(rest) by {
        FileHeaderIsNoHunk(lines[0]);
        assert forall i :: 0 <= i < |rest| ==> rest[i] == lines[1..][|p.preamble| - 1 + i];
      }
      NamedOnceBound(rest, After(p.preamble, c));
    }
  }

  lemma {:induction false} SectionsNamed(sections: seq<seq<string>>, c: Cursor)
    requires AllSections(sections) && forall i :: 0 <= i < |sections| ==> Walkable(sections[i])
    ensures HunksNamed(Glue(sections), c)
    decreases |sections|
  {
    hide Walkable, IsSection, HunksNamed, Step;
    if sections == [] {
      NothingNamed(c);
    } else {
      SectionNamed(sections[0], c);
      SectionsNamed(sections[1..], After(sections[0], c));
      NamedConcat(sections[0], Glue(sections[1..]), c);
    }
  }

  lemma {:induction false} NothingNamed(c: Cursor)
    ensures HunksNamed([], c)
  {
  }

  /** On a well-formed diff the count is the number of indexed lines. */
  lemma {:induction false} CountIsIndexSize(diff: string)
    requires WellFormedDiff(diff)
    ensures Count(Lines(diff), false) == |Changes(Entries(diff))|
  {
    hide WellFormedDiff, Walk, Count, Changes, HunksNamed, AllSections, WellFormedPatch, HeaderNamed, FoundPath, Printable;
    var sections := Cut(Lines(diff)).sections;
    DiffParts(diff);
    forall i | 0 <= i < |sections| ensures Walkable(sections[i]) {
      WellFormedIsWalkable(sections[i]);
    }
    SectionsNamed(sections, START);
    NamedCount(Lines(diff), START);
  }
}
