/** core/diffparse.py, hunk_for_line: finding the hunk of a line from the header ranges alone. */
module HunkLookup {
  import opened Text
  import opened DiffParse
  import opened Geometry
  import opened ChangeIndex
  import opened Sections

  // ----- The hunks of a patch with their verbatim lines -----

  datatype RawParsed = RawParsed(preamble: seq<string>, raws: seq<seq<string>>)

  function CutHunks(lines: seq<string>): RawParsed {
    if lines == [] then RawParsed([], [])
    else
      var below := CutHunks(lines[1..]);
      if IsHunkHeader(lines[0]) then RawParsed([], [[lines[0]] + below.preamble] + below.raws)
      else RawParsed([lines[0]] + below.preamble, below.raws)
  }

  predicate IsRaw(raw: seq<string>) {
    raw != [] && IsHunkHeader(raw[0])
  }

  predicate AllRaw(raws: seq<seq<string>>) {
    forall i :: 0 <= i < |raws| ==> IsRaw(raws[i])
  }

  function HunkOf(raw: seq<string>): Hunk
    requires IsRaw(raw)
  {
    Hunk(ParseHunkHeader(raw[0]).value, raw[1..])
  }

  function HunksOf(raws: seq<seq<string>>): seq<Hunk>
    requires AllRaw(raws)
  {
    if raws == [] then [] else [HunkOf(raws[0])] + HunksOf(raws[1..])
  }

  lemma {:induction false} CutHunksParses(lines: seq<string>)
    ensures AllRaw(CutHunks(lines).raws)
    ensures ParseHunks(lines) == Parsed(CutHunks(lines).preamble, HunksOf(CutHunks(lines).raws))
  {
    hide ParseHunkHeader;
    if lines != [] {
      CutHunksParses(lines[1..]);
    }
  }

  // ----- The lookup -----

  /** lo <= line <= hi with the bounds the header gives for that side. */
  predicate Covers(h: HunkHeader, line: nat, side: Side) {
    match side
    case Left => h.oldStart <= line <= h.oldStart + h.oldLen - 1
    case Right => h.newStart <= line <= h.newStart + h.newLen - 1
  }

  function FirstCovering(raws: seq<seq<string>>, line: nat, side: Side): (raw: Option<seq<string>>)
    requires AllRaw(raws)
    ensures raw.Some? ==> IsRaw(raw.value)
  {
    if raws == [] then None
    else if Covers(HunkOf(raws[0]).header, line, side) then Some(raws[0])
    else FirstCovering(raws[1..], line, side)
  }

  /** What one patch answers: its header lines and the covering hunk, as text. */
  function LookupIn(lines: seq<string>, line: nat, side: Side): Option<string> {
    var c := CutHunks(lines);
    CutHunksParses(lines);
    match FirstCovering(c.raws, line, side)
    case None => None
    case Some(raw) => Some(Join(c.preamble + raw))
  }

  function LookupAmong(split: seq<(string, string)>, path: string, line: nat, side: Side): Option<string> {
    if split == [] then None
    else if split[0].0 != path then LookupAmong(split[1..], path, line, side)
    else LookupIn(Lines(split[0].1), line, side)
  }

  /** hunk_for_line */
  function Lookup(diff: string, path: string, line: nat, side: Side): Option<string> {
    LookupAmong(SplitByFile(diff, [path]), path, line, side)
  }

  method CutPatch(lines: seq<string>) returns (preamble: seq<string>, raws: seq<seq<string>>)
    ensures CutHunks(lines) == RawParsed(preamble, raws)
  {
    hide IsHunkHeader;
    preamble, raws := [], [];
    var i := |lines|;
    while i > 0
      invariant 0 <= i <= |lines|
      invariant CutHunks(lines[i..]) == RawParsed(preamble, raws)
    {
      i := i - 1;
      assert lines[i..][1..] == lines[i + 1..];
      if IsHunkHeader(lines[i]) {
        preamble, raws := [], [[lines[i]] + preamble] + raws;
      } else {
        preamble := [lines[i]] + preamble;
      }
    }
    assert lines[0..] == lines;
  }

  method HunkForLine(diff: string, path: string, line: nat, side: Side) returns (r: Option<string>)
    ensures r == Lookup(diff, path, line, side)
  {
    hide IsHunkHeader, SplitByFile, Lines;
    var split := SplitByFile(diff, [path]);
    for i := 0 to |split|
      invariant Lookup(diff, path, line, side) == LookupAmong(split[i..], path, line, side)
    {
      assert split[i..][1..] == split[i + 1..];
      if split[i].0 != path {
        continue;
      }
      var lines := Lines(split[i].1);
      var preamble, raws := CutPatch(lines);
      CutHunksParses(lines);
      for k := 0 to |raws|
        invariant FirstCovering(raws, line, side) == FirstCovering(raws[k..], line, side)
      {
        assert raws[k..][1..] == raws[k + 1..];
        if Covers(HunkOf(raws[k]).header, line, side) {
          return Some(Join(preamble + raws[k]));
        }
      }
      return None;
    }
    return None;
  }

  // ----- Ranges against walking -----

  lemma {:induction false} BodyAnchors(path: string, o: nat, n: nat, body: seq<string>, a: Anchor)
    ensures a in Commentable(BodyEntries(path, o, n, body))
       <==> a.0 == path && match a.2 case Left => o <= a.1 < o + OldCount(body) case Right => n <= a.1 < n + NewCount(body)
    decreases |body|
  {
    if body != [] {
      var o', n' := o + OldWidth(body[0]), n + NewWidth(body[0]);
      CommentableConcat(LineEntries(path, o, n, body[0]), BodyEntries(path, o', n', body[1..]));
      BodyAnchors(path, o', n', body[1..], a);
      LineAnchors(path, o, n, body[0], a);
    }
  }

  lemma {:induction false} LineAnchors(path: string, o: nat, n: nat, line: string, a: Anchor)
    ensures a in Commentable(LineEntries(path, o, n, line))
       <==> a.0 == path && match a.2 case Left => o <= a.1 < o + OldWidth(line) case Right => n <= a.1 < n + NewWidth(line)
  {
    var es := LineEntries(path, o, n, line);
    if es != [] {
      assert Commentable(es) == AnchorsOf(es[0]) + Commentable(es[1..]) == AnchorsOf(es[0]);
    }
  }

  /** On a sound hunk the header's range is exactly the lines its walk anchors. */
  lemma {:induction false} RangeIsWalk(path: string, h: Hunk, a: Anchor)
    requires Sound(h)
    ensures a in Commentable(HunkEntries(path, h)) <==> a.0 == path && Covers(h.header, a.1, a.2)
  {
    BodyAnchors(path, h.header.oldStart, h.header.newStart, h.body, a);
  }

  lemma {:induction false} RangesAreWalks(path: string, raws: seq<seq<string>>, a: Anchor)
    requires AllRaw(raws) && Chained(HunksOf(raws))
    ensures a in Commentable(HunksEntries(path, HunksOf(raws)))
       <==> a.0 == path && FirstCovering(raws, a.1, a.2).Some?
    decreases |raws|
  {
    hide Sound, IsHunkHeader, HunkEntries, Follows, Covers;
    if raws != [] {
      var hs := HunksOf(raws);
      assert hs[0] == HunkOf(raws[0]) && hs[1..] == HunksOf(raws[1..]);
      assert Chained(hs[1..]);
      CommentableConcat(HunkEntries(path, hs[0]), HunksEntries(path, hs[1..]));
      RangeIsWalk(path, hs[0], a);
      RangesAreWalks(path, raws[1..], a);
    }
  }

  // ----- The two readers of a path -----

  /** The path split_by_file finds in a section, if any. */
  function FoundPath(lines: seq<string>): Option<string> {
    if FirstMatch(lines, NewPath).Some? then FirstMatch(lines, NewPath)
    else if FirstMatch(lines, RenameTo).Some? then FirstMatch(lines, RenameTo)
    else if FirstMatch(lines, OldPath).Some? then FirstMatch(lines, OldPath)
    else FirstMatch(lines, FallbackPath)
  }

  function LastPath(lines: seq<string>): Option<string> {
    if lines == [] then None
    else if LastPath(lines[1..]).Some? then LastPath(lines[1..])
    else if OldPath(lines[0]).Some? then OldPath(lines[0])
    else NewPath(lines[0])
  }

  /** At most one old and one new path line, the old one first. */
  predicate PathLinesOrdered(lines: seq<string>) {
    && (forall i, j :: 0 <= i < j < |lines| && NewPath(lines[i]).Some? ==> NewPath(lines[j]).None? && OldPath(lines[j]).None?)
    && (forall i, j :: 0 <= i < j < |lines| && OldPath(lines[i]).Some? ==> OldPath(lines[j]).None?)
  }

  predicate OnlyDeletes(hs: seq<Hunk>) {
    forall i :: 0 <= i < |hs| ==> hs[i].header.newLen == 0
  }

  /** The path lines git writes: a new path, or for a deleted file an old path alone. */
  predicate HeaderNamed(lines: seq<string>) {
    var p := ParseHunks(lines);
    && FoundPath(lines).Some?
    && PathLinesOrdered(p.preamble)
    && (p.hunks == [] || FirstMatch(p.preamble, NewPath).Some?
        || (FirstMatch(p.preamble, OldPath).Some? && FirstMatch(p.preamble, RenameTo).None? && OnlyDeletes(p.hunks)))
  }

  lemma {:induction false} FirstMatchConcat(a: seq<string>, b: seq<string>, f: string -> Option<string>)
    ensures FirstMatch(a + b, f) == if FirstMatch(a, f).Some? then FirstMatch(a, f) else FirstMatch(b, f)
  {
    if a == [] {
      assert a + b == b;
    } else {
      assert (a + b)[1..] == a[1..] + b;
      FirstMatchConcat(a[1..], b, f);
    }
  }

  lemma {:induction false} FirstMatchNone(lines: seq<string>, f: string -> Option<string>)
    requires forall i :: 0 <= i < |lines| ==> f(lines[i]).None?
    ensures FirstMatch(lines, f).None?
  {
    if lines != [] {
      FirstMatchNone(lines[1..], f);
    }
  }

  lemma {:induction false} FirstMatchIsOne(lines: seq<string>, f: string -> Option<string>) returns (i: nat)
    requires FirstMatch(lines, f).Some?
    ensures i < |lines| && f(lines[i]) == FirstMatch(lines, f)
  {
    if f(lines[0]).Some? {
      i := 0;
    } else {
      var k := FirstMatchIsOne(lines[1..], f);
      i := k + 1;
    }
  }

  lemma {:induction false} LastPathNone(lines: seq<string>)
    requires forall i :: 0 <= i < |lines| ==> OldPath(lines[i]).None? && NewPath(lines[i]).None?
    ensures LastPath(lines).None?
  {
    hide OldPath, NewPath;
    if lines != [] {
      LastPathNone(lines[1..]);
    }
  }

  lemma {:induction false} OldIsNotNew(line: string)
    ensures OldPath(line).None? || NewPath(line).None?
  {
    assert StartsWith(line, "--- a/") ==> line[0] == '-';
  }

  /** With the path lines in order, the last one read is the new path when there is one, else the old. */
  lemma {:induction false} OrderedLastPath(lines: seq<string>)
    requires PathLinesOrdered(lines)
    ensures FirstMatch(lines, NewPath).Some? ==> LastPath(lines) == FirstMatch(lines, NewPath)
    ensures FirstMatch(lines, NewPath).None? ==> LastPath(lines) == FirstMatch(lines, OldPath)
  {
    hide OldPath, NewPath;
    if lines != [] {
      var rest := lines[1..];
      assert forall i :: 0 <= i < |rest| ==> rest[i] == lines[i + 1];
      OrderedLastPath(rest);
      OldIsNotNew(lines[0]);
      if NewPath(lines[0]).Some? {
        LastPathNone(rest);
      } else if OldPath(lines[0]).Some? {
        FirstMatchNone(rest, OldPath);
      }
    }
  }

  lemma {:induction false} AfterPathLines(lines: seq<string>, c: Cursor)
    requires NoHunkHeader(lines) && NoFileHeader(lines) && !c.inHunk
    ensures After(lines, c).file == if LastPath(lines).Some? then LastPath(lines) else c.file
    decreases |lines|
  {
    hide IsFileHeader, ParseHunkHeader, OldPath, NewPath;
    if lines != [] {
      AfterPathLines(lines[1..], Step(c, lines[0]));
    }
  }

  lemma {:induction false} BodyHasNoPathLine(line: string)
    requires IsBodyLine(line)
    ensures RenameTo(line).None?
    ensures NewWidth(line) == 0 ==> NewPath(line).None?
    ensures NewPath(line).Some? ==> NewWidth(line) == 1
  {
    NotPrefix(line, "rename to ");
    if line == "" || line[0] != '+' {
      NotPrefix(line, "+++ b/");
    }
  }

  lemma {:induction false} HunkHeaderHasNoPath(line: string)
    requires IsHunkHeader(line)
    ensures NewPath(line).None? && RenameTo(line).None?
  {
    hide ParseHunkHeader;
    HunkHeaderMark(line);
    NotPrefix(line, "rename to ");
    NotPrefix(line, "+++ b/");
  }

  lemma {:induction false} NothingNewInBody(body: seq<string>)
    requires AllBody(body)
    ensures FirstMatch(body, RenameTo).None?
    ensures NewCount(body) == 0 ==> FirstMatch(body, NewPath).None?
  {
    hide RenameTo, NewPath, IsBodyLine, NewWidth;
    if body != [] {
      BodyHasNoPathLine(body[0]);
      NothingNewInBody(body[1..]);
    }
  }

  /** Below the preamble no line renames, and if nothing is added none names a new path. */
  lemma {:induction false} NothingNewInHunks(lines: seq<string>)
    requires AllBody(ParseHunks(lines).preamble) && Chained(ParseHunks(lines).hunks)
    requires NewCount(ParseHunks(lines).preamble) == 0 && OnlyDeletes(ParseHunks(lines).hunks)
    ensures FirstMatch(lines, RenameTo).None? && FirstMatch(lines, NewPath).None?
    decreases |lines|
  {
    hide RenameTo, NewPath, IsBodyLine, NewWidth, ParseHunkHeader, Follows;
    if lines != [] {
      var p, below := ParseHunks(lines), ParseHunks(lines[1..]);
      if IsHunkHeader(lines[0]) {
        HunkHeaderHasNoPath(lines[0]);
        assert p.hunks[0].body == below.preamble && p.hunks[1..] == below.hunks;
        assert Sound(p.hunks[0]) && p.hunks[0].header.newLen == 0;
        assert forall i :: 0 <= i < |below.hunks| ==> below.hunks[i] == p.hunks[i + 1];
        NothingNewInHunks(lines[1..]);
      } else {
        assert p.preamble[0] == lines[0] && p.preamble[1..] == below.preamble;
        AllBodyBelow(p.preamble);
        BodyHasNoPathLine(lines[0]);
        NothingNewInHunks(lines[1..]);
      }
    }
  }

  /** The walk and split_by_file bind a section with hunks to the same path. */
  lemma {:induction false} ReadersAgree(lines: seq<string>)
    requires WellFormedPatch(lines) && HeaderNamed(lines) && ParseHunks(lines).hunks != []
    ensures PathOf(lines) == FoundPath(lines)
  {
    hide ParseHunkHeader, IsFileHeader, RenameTo, NewPath, OldPath, FallbackPath, Chained;
    var p := ParseHunks(lines);
    FileHeaderIsNoHunk(lines[0]);
    ParseSplit(lines);
    PreambleHasNoHunkHeader(lines);
    var rest := lines[|p.preamble|..];
    assert lines == p.preamble + rest;
    FirstMatchConcat(p.preamble, rest, NewPath);
    FirstMatchConcat(p.preamble, rest, RenameTo);
    FirstMatchConcat(p.preamble, rest, OldPath);
    OrderedLastPath(p.preamble);
    HeaderLineNamesNoSide(lines[0]);
    AfterPathLines(p.preamble[1..], Step(START, lines[0]));
    assert LastPath(p.preamble) == LastPath(p.preamble[1..]);
    if FirstMatch(p.preamble, NewPath).None? {
      NothingNewInHunks(rest);
    }
  }

  lemma {:induction false} HeaderLineNamesNoSide(line: string)
    requires IsFileHeader(line)
    ensures OldPath(line).None? && NewPath(line).None?
    ensures !Step(START, line).inHunk
  {
    assert line[0] == "diff --git "[0];
    NotPrefix(line, "+++ b/");
    NotPrefix(line, "--- a/");
  }

  // ----- Diffs of many files -----

  /** A diff as a host serves it: one section per path, each well formed and named. */
  predicate WellFormedDiff(diff: string) {
    var c := Cut(Lines(diff));
    && c.head == [] && c.sections != []
    && (forall i :: 0 <= i < |c.sections| ==> WellFormedPatch(c.sections[i]) && HeaderNamed(c.sections[i]))
    && (forall i, j :: 0 <= i < j < |c.sections| ==> FoundPath(c.sections[i]) != FoundPath(c.sections[j]))
  }

  predicate GoodSections(sections: seq<seq<string>>) {
    && (forall i :: 0 <= i < |sections| ==> WellFormedPatch(sections[i]) && HeaderNamed(sections[i]))
    && (forall i, j :: 0 <= i < j < |sections| ==> FoundPath(sections[i]) != FoundPath(sections[j]))
  }

  lemma {:induction false} GoodBelow(sections: seq<seq<string>>)
    requires GoodSections(sections) && sections != []
    ensures GoodSections(sections[1..]) && WellFormedPatch(sections[0]) && HeaderNamed(sections[0])
    ensures forall j :: 0 <= j < |sections[1..]| ==> FoundPath(sections[1..][j]) != FoundPath(sections[0])
  {
    hide WellFormedPatch, HeaderNamed, FoundPath;
  }

  lemma {:induction false} NamedPath(lines: seq<string>, default: string)
    requires HeaderNamed(lines)
    ensures FoundPath(lines) == Some(SectionPath(lines, default))
  {
    hide NewPath, OldPath, RenameTo, FallbackPath, ParseHunks;
  }

  /** What a section anchors: the lines of its hunks, under the path split_by_file gives it. */
  lemma {:induction false} SectionAnchors(lines: seq<string>, a: Anchor)
    requires WellFormedPatch(lines) && HeaderNamed(lines)
    ensures AllRaw(CutHunks(lines).raws)
    ensures a in Commentable(Walk(lines, START))
       <==> FoundPath(lines) == Some(a.0) && FirstCovering(CutHunks(lines).raws, a.1, a.2).Some?
  {
    hide WellFormedPatch, HeaderNamed, FoundPath, PathOf, Walk, Chained, CutHunks, Walkable;
    CutHunksParses(lines);
    WellFormedIsWalkable(lines);
    WellFormedParts(lines);
    SectionWalk(lines, START);
    RangesAreWalks(PathOf(lines).GetOr(""), CutHunks(lines).raws, a);
    if ParseHunks(lines).hunks != [] {
      ReadersAgree(lines);
      NamedPath(lines, "");
    }
  }

  lemma {:induction false} SectionsAnchor(sections: seq<seq<string>>, texts: seq<string>, path: string, i: nat, a: Anchor)
    requires GoodSections(sections) && |texts| == |sections|
    requires forall k :: 0 <= k < |texts| ==> Lines(texts[k]) == sections[k]
    requires a.0 == path
    ensures a in Commentable(WalkSections(sections))
       <==> LookupAmong(Name(sections, texts, [path], i), path, a.1, a.2).Some?
    decreases |sections|
  {
    hide GoodSections, WellFormedPatch, HeaderNamed, FoundPath, Walk, SectionPath, CutHunks, FirstCovering;
    if sections != [] {
      var default := NameAt([path], i);
      GoodBelow(sections);
      CommentableConcat(Walk(sections[0], START), WalkSections(sections[1..]));
      SectionAnchors(sections[0], a);
      NamedPath(sections[0], default);
      if SectionPath(sections[0], default) == path {
        ElsewhereAnchorsNone(sections[1..], a);
      } else {
        SectionsAnchor(sections[1..], texts[1..], path, i + 1, a);
      }
      NameFirst(sections, texts, path, i);
    }
  }

  lemma {:induction false} NameFirst(sections: seq<seq<string>>, texts: seq<string>, path: string, i: nat)
    requires sections != [] && |texts| == |sections|
    ensures var named := Name(sections, texts, [path], i);
      && named[0] == (SectionPath(sections[0], NameAt([path], i)), texts[0])
      && named[1..] == Name(sections[1..], texts[1..], [path], i + 1)
  {
    hide SectionPath;
  }

  lemma {:induction false} ElsewhereAnchorsNone(sections: seq<seq<string>>, a: Anchor)
    requires GoodSections(sections) && forall j :: 0 <= j < |sections| ==> FoundPath(sections[j]) != Some(a.0)
    ensures a !in Commentable(WalkSections(sections))
    decreases |sections|
  {
    hide GoodSections, WellFormedPatch, HeaderNamed, FoundPath, Walk, CutHunks, FirstCovering;
    if sections != [] {
      GoodBelow(sections);
      CommentableConcat(Walk(sections[0], START), WalkSections(sections[1..]));
      SectionAnchors(sections[0], a);
      ElsewhereAnchorsNone(sections[1..], a);
    }
  }

  lemma {:induction false} TextsAreSections(sections: seq<seq<string>>, ended: bool)
    requires Printable(sections, ended)
    ensures forall k :: 0 <= k < |sections| ==> Lines(SectionTexts(sections, ended)[k]) == sections[k]
    decreases |sections|
  {
    hide Lines;
    if sections != [] {
      SectionTextLines(sections[0], ended || |sections| > 1);
      TextsAreSections(sections[1..], ended);
    }
  }

  lemma {:induction false} DiffParts(diff: string)
    requires WellFormedDiff(diff)
    ensures var lines, sections := Lines(diff), Cut(Lines(diff)).sections;
      && IsFileHeader(lines[0]) && sections != [] && lines == Glue(sections)
      && GoodSections(sections) && AllSections(sections) && Printable(sections, EndsWithNewline(diff))
  {
    hide WellFormedPatch, HeaderNamed, FoundPath, IsFileHeader;
    CutIsExact(Lines(diff));
    assert IsSection(Cut(Lines(diff)).sections[0]);
    CutPrintable(diff);
  }

  /** Looking a line up by the header ranges finds a hunk exactly when walking the diff can
      anchor a comment on that line. */
  lemma {:induction false} LookupIffCommentable(diff: string, path: string, line: nat, side: Side)
    requires WellFormedDiff(diff)
    ensures Lookup(diff, path, line, side).Some? <==> (path, line, side) in Commentable(Entries(diff))
  {
    hide WellFormedDiff, GoodSections, Walk, Printable, AllSections, Commentable, LookupAmong, Name, IsFileHeader;
    var sections := Cut(Lines(diff)).sections;
    var texts := SectionTexts(sections, EndsWithNewline(diff));
    DiffParts(diff);
    GluedWalk(sections, START);
    TextsAreSections(sections, EndsWithNewline(diff));
    SectionsAnchor(sections, texts, path, 0, (path, line, side));
  }

  // ----- Walking the hunk that was found -----

  /** The line is the last one of the hunk's range on that side. */
  predicate LastOfRange(h: HunkHeader, line: nat, side: Side) {
    match side
    case Left => line == h.oldStart + h.oldLen - 1
    case Right => line == h.newStart + h.newLen - 1
  }

  /** The first hunk of the section that covers the line ends in an empty line, and the line ends its range. */
  predicate BlankEnds(lines: seq<string>, line: nat, side: Side) {
    CutHunksParses(lines);
    match FirstCovering(CutHunks(lines).raws, line, side)
    case None => false
    case Some(raw) => raw[|raw| - 1] == "" && LastOfRange(HunkOf(raw).header, line, side)
  }

  /** That is so in the path's own section of the diff. */
  predicate BlankEndsIn(diff: string, path: string, line: nat, side: Side) {
    var sections := Cut(Lines(diff)).sections;
    exists i :: 0 <= i < |sections| && FoundPath(sections[i]) == Some(path) && BlankEnds(sections[i], line, side)
  }

  /** The text is one hunk covering the line, and its walk yields the line unless it is the one to lose. */
  predicate HoldsUnless(text: string, path: string, line: nat, side: Side, lost: bool) {
    var hs := ParseHunks(Lines(text)).hunks;
    && |hs| == 1 && Covers(hs[0].header, line, side)
    && ((path, line, side) in Commentable(Entries(text)) <==> !lost)
  }

  lemma {:induction false} FirstCoveringCovers(raws: seq<seq<string>>, line: nat, side: Side)
    requires AllRaw(raws) && Chained(HunksOf(raws)) && FirstCovering(raws, line, side).Some?
    ensures var raw := FirstCovering(raws, line, side).value;
      raw in raws && IsRaw(raw) && Sound(HunkOf(raw)) && Covers(HunkOf(raw).header, line, side)
    decreases |raws|
  {
    hide Sound, IsHunkHeader, Follows, Covers;
    var hs := HunksOf(raws);
    assert hs[0] == HunkOf(raws[0]) && hs[1..] == HunksOf(raws[1..]);
    assert Chained(hs[1..]);
    if !Covers(hs[0].header, line, side) {
      FirstCoveringCovers(raws[1..], line, side);
    }
  }

  lemma {:induction false} DropBlank(body: seq<string>)
    requires body != [] && body[|body| - 1] == ""
    ensures OldCount(body[..|body| - 1]) == OldCount(body) - 1
    ensures NewCount(body[..|body| - 1]) == NewCount(body) - 1
  {
    var front := body[..|body| - 1];
    assert body == front + [""];
    BodyConcat("", 0, 0, front, [""]);
    assert OldCount([""]) == 1 && NewCount([""]) == 1;
  }

  /** The lines of header and hunk, joined with no final newline: a blank last line is lost. */
  lemma {:induction false} FoundLines(preamble: seq<string>, raw: seq<string>)
    requires preamble != [] && AllSingle(preamble + raw) && |raw| >= 2
    ensures Lines(Join(preamble + raw))
         == preamble + [raw[0]] + if raw[|raw| - 1] == "" then raw[1..][..|raw| - 2] else raw[1..]
  {
    var lines := preamble + raw;
    assert lines[|lines| - 1] == raw[|raw| - 1];
    LinesOfUnlines(lines, false);
    assert Unlines(lines, false) == Join(lines);
    assert lines == preamble + [raw[0]] + raw[1..];
    assert lines[..|lines| - 1] == preamble + [raw[0]] + raw[1..][..|raw| - 2];
  }

  /** A patch cut down to one of its hunks is walked as that hunk, under the same path. */
  lemma {:induction false} OneHunkWalk(lines: seq<string>, header: string, body: seq<string>)
    requires SoundPatch(lines) && ParseHunks(lines).hunks != [] && IsHunkHeader(header) && AllBody(body)
    ensures var one := ParseHunks(lines).preamble + [header] + body;
      && ParseHunks(one).hunks == [Hunk(ParseHunkHeader(header).value, body)]
      && Walk(one, START) == HunkEntries(PathOf(lines).GetOr(""), Hunk(ParseHunkHeader(header).value, body))
  {
    hide ParseHunkHeader, IsFileHeader, Step, Emit, Chained;
    var pre := ParseHunks(lines).preamble;
    var one := pre + [header] + body;
    SoundParts(lines);
    PreambleHasNoHunkHeader(lines);
    BodyHasNoHunkHeader(body);
    assert [header] + body + [] == [header] + body;
    ParseHunk(header, body, []);
    ParseAppend(pre, [header] + body);
    assert pre + [] == pre && one == pre + ([header] + body);
    assert Walkable(one);
    SectionWalk(one, START);
    var h := Hunk(ParseHunkHeader(header).value, body);
    assert ParseHunks(one).hunks == [h];
    assert HunksEntries(PathOf(lines).GetOr(""), [h]) == HunkEntries(PathOf(lines).GetOr(""), h) + [];
  }

  /** Walking the text a patch answers with yields the line on that side, unless the hunk ends in
      a blank context line and the line asked for is that one: the text is joined without a final
      newline, so the blank line is not read back. */
  lemma {:induction false} FoundHunkHolds(lines: seq<string>, line: nat, side: Side)
    requires AllSingle(lines) && WellFormedPatch(lines) && LookupIn(lines, line, side).Some?
    ensures HoldsUnless(LookupIn(lines, line, side).value, PathOf(lines).GetOr(""), line, side, BlankEnds(lines, line, side))
  {
    hide ParseHunkHeader, IsFileHeader, Chained, WellFormedPatch, Commentable, Walk, PathOf, IsBodyLine;
    var c := CutHunks(lines);
    CutHunksParses(lines);
    WellFormedParts(lines);
    WellFormedIsSound(lines);
    FirstCoveringCovers(c.raws, line, side);
    var raw := FirstCovering(c.raws, line, side).value;
    var h, path := HunkOf(raw), PathOf(lines).GetOr("");
    assert h.body != [];
    RawSingle(lines, raw);
    FoundLines(c.preamble, raw);
    var body := if raw[|raw| - 1] == "" then h.body[..|h.body| - 1] else h.body;
    if raw[|raw| - 1] == "" {
      DropBlank(h.body);
    }
    assert AllBody(body);
    OneHunkWalk(lines, raw[0], body);
    BodyAnchors(path, h.header.oldStart, h.header.newStart, body, (path, line, side));
  }

  lemma {:induction false} RawSingle(lines: seq<string>, raw: seq<string>)
    requires AllSingle(lines) && raw in CutHunks(lines).raws
    ensures AllSingle(CutHunks(lines).preamble + raw)
  {
    hide IsHunkHeader;
    PartsSingle(lines);
  }

  lemma {:induction false} PartsSingle(lines: seq<string>)
    requires AllSingle(lines)
    ensures AllSingle(CutHunks(lines).preamble)
    ensures forall raw :: raw in CutHunks(lines).raws ==> AllSingle(raw)
  {
    hide IsHunkHeader;
    if lines != [] {
      PartsSingle(lines[1..]);
    }
  }

  lemma {:induction false} LookupAmongSections(sections: seq<seq<string>>, texts: seq<string>, path: string, i: nat, line: nat, side: Side)
      returns (k: nat)
    requires GoodSections(sections) && |texts| == |sections|
    requires forall k :: 0 <= k < |texts| ==> Lines(texts[k]) == sections[k]
    requires LookupAmong(Name(sections, texts, [path], i), path, line, side).Some?
    ensures k < |sections| && FoundPath(sections[k]) == Some(path)
    ensures LookupAmong(Name(sections, texts, [path], i), path, line, side) == LookupIn(sections[k], line, side)
    decreases |sections|
  {
    hide GoodSections, WellFormedPatch, HeaderNamed, FoundPath, SectionPath, LookupIn;
    GoodBelow(sections);
    NamedPath(sections[0], NameAt([path], i));
    NameFirst(sections, texts, path, i);
    if SectionPath(sections[0], NameAt([path], i)) == path {
      k := 0;
    } else {
      var below := LookupAmongSections(sections[1..], texts[1..], path, i + 1, line, side);
      k := below + 1;
    }
  }

  lemma {:induction false} OneSectionOfPath(sections: seq<seq<string>>, path: string, k: nat, i: nat)
    requires GoodSections(sections) && k < |sections| && i < |sections|
    requires FoundPath(sections[k]) == Some(path) == FoundPath(sections[i])
    ensures k == i
  {
    hide WellFormedPatch, HeaderNamed, FoundPath;
  }

  /** The hunk looked up for a line holds that line when walked, except for a blank context line that ends
      the hunk: that one, and only that one, is not read back. */
  lemma {:induction false} LookedUpHunkHolds(diff: string, path: string, line: nat, side: Side)
    requires WellFormedDiff(diff) && Lookup(diff, path, line, side).Some?
    ensures HoldsUnless(Lookup(diff, path, line, side).value, path, line, side, BlankEndsIn(diff, path, line, side))
  {
    hide WellFormedDiff, Walk, Printable, AllSections, LookupAmong, Name, IsFileHeader, LookupIn, HoldsUnless,
      WellFormedPatch, HeaderNamed, FoundPath, GoodSections, BlankEnds, Lines, Cut;
    var sections := Cut(Lines(diff)).sections;
    DiffParts(diff);
    TextsAreSections(sections, EndsWithNewline(diff));
    GlueSingle(sections);
    var k := LookupAmongSections(sections, SectionTexts(sections, EndsWithNewline(diff)), path, 0, line, side);
    assert WellFormedPatch(sections[k]) && HeaderNamed(sections[k]) by { GoodAt(sections, k); }
    FoundHunkHolds(sections[k], line, side);
    LookupNeedsHunks(sections[k], line, side);
    ReadersAgree(sections[k]);
    if BlankEndsIn(diff, path, line, side) {
      var i :| 0 <= i < |sections| && FoundPath(sections[i]) == Some(path) && BlankEnds(sections[i], line, side);
      OneSectionOfPath(sections, path, k, i);
    }
  }

  lemma {:induction false} GoodAt(sections: seq<seq<string>>, k: nat)
    requires GoodSections(sections) && k < |sections|
    ensures WellFormedPatch(sections[k]) && HeaderNamed(sections[k])
  {
    hide WellFormedPatch, HeaderNamed, FoundPath;
  }

  lemma {:induction false} LookupNeedsHunks(lines: seq<string>, line: nat, side: Side)
    requires LookupIn(lines, line, side).Some?
    ensures ParseHunks(lines).hunks != []
  {
    hide ParseHunks, IsHunkHeader;
    CutHunksParses(lines);
  }

  // ----- A diff that loses a line -----

  /** The header lines of file f. */
  function NamedF(): seq<string> {
    ["diff --git a/f b/f", "--- a/f", "+++ b/f"]
  }

  /** One line added above a blank one, and the blank line shown as git shows it. */
  function AddedAboveBlank(): Hunk {
    Hunk(HunkHeader(1, 1, 1, 2, ""), ["+x", ""])
  }

  function LosingLines(): seq<string> {
    NamedF() + HunkLines(AddedAboveBlank())
  }

  function LosingDiff(): string {
    Unlines(LosingLines(), true)
  }

  lemma {:induction false} NamedFReads()
    ensures var l := NamedF();
      && IsFileHeader(l[0]) && !IsFileHeader(l[1]) && !IsFileHeader(l[2])
      && NewPath(l[0]).None? && NewPath(l[1]).None? && NewPath(l[2]) == Some("f")
      && OldPath(l[0]).None? && OldPath(l[1]) == Some("f") && OldPath(l[2]).None?
      && NoHunkMark(l) && AllSingle(l)
  {
    var l := NamedF();
    NotPrefix(l[1], "diff --git ");
    NotPrefix(l[2], "diff --git ");
    NotPrefix(l[0], "+++ b/");
    NotPrefix(l[1], "+++ b/");
    NotPrefix(l[0], "--- a/");
    NotPrefix(l[2], "--- a/");
    assert StartsWith(l[2], "+++ b/") && l[2][6..] == "f" && FirstTab("f", 1) == 1 && "f"[..1] == "f";
    assert StartsWith(l[1], "--- a/") && l[1][6..] == "f";
    assert forall i :: 0 <= i < 3 ==> !StartsWith(l[i], "@@") by {
      NotPrefix(l[0], "@@");
      NotPrefix(l[1], "@@");
      NotPrefix(l[2], "@@");
    }
  }

  lemma {:induction false} AddedAboveBlankIsSound()
    ensures Sound(AddedAboveBlank()) && SingleHunk(AddedAboveBlank())
  {
    assert ["+x", ""][1..] == [""] && [""][1..] == [];
  }

  lemma {:induction false} LosingParts()
    ensures ParseHunks(LosingLines()) == Parsed(NamedF(), [AddedAboveBlank()])
    ensures AllSingle(LosingLines()) && Lines(LosingDiff()) == LosingLines()
    ensures NoFileHeader(LosingLines()[1..])
  {
    hide ParseHunkHeader, PrintHunkHeader, IsFileHeader, Sound, NewPath, OldPath;
    var h := AddedAboveBlank();
    NamedFReads();
    AddedAboveBlankIsSound();
    NoMarkNoHeader(NamedF());
    OneHunkLines(h);
    assert AllBodies([h]) by { SoundBody(h); }
    ParsePrinted(NamedF(), [h]);
    PrintedSingle([h]);
    assert AllSingle(LosingLines()) by { SingleBoth(NamedF(), HunkLines(h)); }
    LinesOfUnlines(LosingLines(), true);
    PrintedHeaderParses(h.header);
    HeaderOpensNoFile(PrintHunkHeader(h.header));
    SoundBody(h);
    BodyOpensNoFile(h.body);
    assert LosingLines()[1..] == NamedF()[1..] + HunkLines(h);
  }

  lemma {:induction false} SingleBoth(a: seq<string>, b: seq<string>)
    requires AllSingle(a) && AllSingle(b)
    ensures AllSingle(a + b)
  {
    hide NoNewline;
  }

  lemma {:induction false} OneHunkLines(h: Hunk)
    ensures AllHunkLines([h]) == HunkLines(h)
  {
    hide PrintHunkHeader;
    assert [h][1..] == [] && AllHunkLines([]) == [];
  }

  lemma {:induction false} NoMarkNoHeader(lines: seq<string>)
    requires NoHunkMark(lines)
    ensures NoHunkHeader(lines)
  {
    hide ParseHunkHeader;
    forall i | 0 <= i < |lines| ensures !IsHunkHeader(lines[i]) {
      if IsHunkHeader(lines[i]) {
        HunkHeaderMark(lines[i]);
      }
    }
  }

  lemma {:induction false} SoundBody(h: Hunk)
    requires Sound(h)
    ensures AllBody(h.body)
  {
  }

  lemma {:induction false} HeaderOpensNoFile(line: string)
    requires IsHunkHeader(line)
    ensures !IsFileHeader(line)
  {
    hide ParseHunkHeader;
    HunkHeaderMark(line);
    NotPrefix(line, "diff --git ");
  }

  lemma {:induction false} BodyOpensNoFile(body: seq<string>)
    requires AllBody(body)
    ensures NoFileHeader(body)
  {
    forall i | 0 <= i < |body| ensures !IsFileHeader(body[i]) {
      BodyLineIsNoHeader(body[i]);
    }
  }

  lemma {:induction false} CutOne(lines: seq<string>)
    requires lines != [] && IsFileHeader(lines[0]) && NoFileHeader(lines[1..])
    ensures Cut(lines) == Sectioned([], [lines])
  {
    CutNone(lines[1..]);
    assert [lines[0]] + lines[1..] == lines;
  }

  lemma {:induction false} CutNone(lines: seq<string>)
    requires NoFileHeader(lines)
    ensures Cut(lines) == Sectioned(lines, [])
  {
    hide IsFileHeader;
    if lines != [] {
      CutNone(lines[1..]);
    }
  }

  lemma {:induction false} LosingIsWellFormed()
    ensures WellFormedDiff(LosingDiff()) && Cut(Lines(LosingDiff())).sections == [LosingLines()]
    ensures FoundPath(LosingLines()) == Some("f") == PathOf(LosingLines())
  {
    hide ParseHunkHeader, PrintHunkHeader, IsFileHeader, NewPath, OldPath, RenameTo, FallbackPath, Sound, ParseHunks, Lines, HunkLines;
    var lines, l := LosingLines(), NamedF();
    LosingParts();
    NamedFReads();
    AddedAboveBlankIsSound();
    assert lines[0] == l[0];
    CutOne(lines);
    FirstMatchConcat(l, HunkLines(AddedAboveBlank()), NewPath);
    NewOfNamedF();
    assert Chained([AddedAboveBlank()]);
    assert PathLinesOrdered(l);
    assert WellFormedPatch(lines) by {
      NamedFPath();
    }
    assert HeaderNamed(lines);
    ReadersAgree(lines);
  }

  lemma {:induction false} NewOfNamedF()
    ensures FirstMatch(NamedF(), NewPath) == Some("f")
  {
    NamedFReads();
    hide NewPath, OldPath, IsFileHeader;
    assert NamedF()[1..] == ["--- a/f", "+++ b/f"] && NamedF()[1..][1..] == ["+++ b/f"];
  }

  lemma {:induction false} NamedFPath()
    ensures After(NamedF(), START).file.Some?
  {
    NamedFReads();
    NoMarkNoHeader(NamedF());
    var l := NamedF();
    hide NewPath, OldPath, IsFileHeader, ParseHunkHeader, FallbackPath;
    AfterPathLines(l[1..], Step(START, l[0]));
    assert l[1..][1..] == ["+++ b/f"] && l[1..][1..][1..] == [];
    assert LastPath(["+++ b/f"]) == Some("f");
    assert LastPath(l[1..]).Some?;
  }

  lemma {:induction false} LosingRaw()
    ensures AllRaw(CutHunks(LosingLines()).raws)
    ensures var raw := FirstCovering(CutHunks(LosingLines()).raws, 2, Right);
      raw.Some? && HunkOf(raw.value) == AddedAboveBlank() && raw.value[|raw.value| - 1] == ""
  {
    CutHunksParses(LosingLines());
    LosingParts();
    assert Covers(AddedAboveBlank().header, 2, Right);
    hide *;
    OneRaw(CutHunks(LosingLines()).raws, AddedAboveBlank());
    BlankLast(CutHunks(LosingLines()).raws[0]);
  }

  lemma {:induction false} OneRaw(raws: seq<seq<string>>, h: Hunk)
    requires AllRaw(raws) && HunksOf(raws) == [h] && Covers(h.header, 2, Right)
    ensures raws != [] && IsRaw(raws[0]) && HunkOf(raws[0]) == h && FirstCovering(raws, 2, Right) == Some(raws[0])
  {
    hide ParseHunkHeader, Covers;
    assert raws != [] && HunksOf(raws)[0] == HunkOf(raws[0]);
  }

  lemma {:induction false} BlankLast(raw: seq<string>)
    requires IsRaw(raw) && HunkOf(raw) == AddedAboveBlank()
    ensures raw[|raw| - 1] == ""
  {
    hide ParseHunkHeader;
    assert raw[1..] == ["+x", ""];
    assert raw[|raw| - 1] == raw[1..][|raw| - 2];
  }

  /** The blank line can be commented on, and the hunk looked up for it does not hold it. */
  lemma {:induction false} BlankEndIsLost()
    ensures WellFormedDiff(LosingDiff()) && ("f", 2, Right) in Commentable(Entries(LosingDiff()))
    ensures Lookup(LosingDiff(), "f", 2, Right).Some?
    ensures ("f", 2, Right) !in Commentable(Entries(Lookup(LosingDiff(), "f", 2, Right).value))
  {
    LosingRaw();
    assert BlankEnds(LosingLines(), 2, Right);
    hide *;
    LosingIsWellFormed();
    LosingParts();
    assert BlankEndsIn(LosingDiff(), "f", 2, Right) by { BlankSection(LosingDiff(), LosingLines(), "f", 2, Right); }
    assert ("f", 2, Right) in Commentable(Entries(LosingDiff())) by { OneSectionAnchors(LosingDiff(), LosingLines(), 2, Right); }
    LookupIffCommentable(LosingDiff(), "f", 2, Right);
    LookedUpHunkHolds(LosingDiff(), "f", 2, Right);
    HeldUnlessLost(Lookup(LosingDiff(), "f", 2, Right).value, "f", 2, Right);
  }

  lemma {:induction false} BlankSection(diff: string, lines: seq<string>, path: string, line: nat, side: Side)
    requires Cut(Lines(diff)).sections == [lines] && FoundPath(lines) == Some(path) && BlankEnds(lines, line, side)
    ensures BlankEndsIn(diff, path, line, side)
  {
    hide BlankEnds, FoundPath, Lines, Cut;
    assert Cut(Lines(diff)).sections[0] == lines;
  }

  lemma {:induction false} OneSectionAnchors(diff: string, lines: seq<string>, line: nat, side: Side)
    requires WellFormedDiff(diff) && Cut(Lines(diff)).sections == [lines] && Lines(diff) == lines && BlankEnds(lines, line, side)
    ensures FoundPath(lines).Some? && (FoundPath(lines).value, line, side) in Commentable(Entries(diff))
  {
    hide WellFormedPatch, HeaderNamed, FoundPath, Commentable, Walk, Lines, Cut;
    assert WellFormedPatch(lines) && HeaderNamed(lines) by {
      assert Cut(Lines(diff)).sections[0] == lines;
    }
    hide WellFormedDiff;
    NamedPath(lines, "");
    SectionAnchors(lines, (FoundPath(lines).value, line, side));
  }

  lemma {:induction false} HeldUnlessLost(text: string, path: string, line: nat, side: Side)
    requires HoldsUnless(text, path, line, side, true)
    ensures (path, line, side) !in Commentable(Entries(text))
  {
  }
}
