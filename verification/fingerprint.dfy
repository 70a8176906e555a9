/** core/diff.py, diff_fingerprint: what a rebase leaves alone. */
module Fingerprint {
  import opened Text
  import opened DiffParse
  import opened Geometry
  import opened Sections
  import opened Rejoin
  import opened HunkLookup

  predicate IsIndexLine(line: string) {
    StartsWith(line, "index ")
  }

  /** A hunk header without its ranges; any other line as it is. */
  function Normal(line: string): string {
    match ParseHunkHeader(line)
    case Some(h) => "@@" + h.section
    case None => line
  }

  /** The lines that are hashed. */
  function Kept(lines: seq<string>): seq<string> {
    if lines == [] then []
    else (if IsIndexLine(lines[0]) then [] else [Normal(lines[0])]) + Kept(lines[1..])
  }

  /** The text that is hashed. */
  function Hashed(diff: string): string {
    Join(Kept(Split(diff)))
  }

  /** diff_fingerprint, for any hash. */
  function DiffFingerprint(diff: string, hash: string -> string): string {
    hash(Hashed(diff))
  }

  // ----- What a reader sees: everything but the numbers -----

  datatype Shape = Shape(path: string, kind: Kind, text: string)

  function Shapes(es: seq<Entry>): seq<Shape> {
    if es == [] then [] else [Shape(es[0].path, es[0].kind, es[0].text)] + Shapes(es[1..])
  }

  lemma {:induction false} ShapesConcat(a: seq<Entry>, b: seq<Entry>)
    ensures Shapes(a + b) == Shapes(a) + Shapes(b)
  {
    if a == [] {
      assert a + b == b;
    } else {
      assert (a + b)[1..] == a[1..] + b;
      ShapesConcat(a[1..], b);
    }
  }

  // ----- The walk, read off the hashed lines alone -----

  datatype Reader = Reader(file: Option<string>, inHunk: bool)

  function ReaderStep(r: Reader, line: string): Reader {
    if IsFileHeader(line) then Reader(FallbackPath(line), false)
    else if !r.inHunk && OldPath(line).Some? then r.(file := OldPath(line))
    else if !r.inHunk && NewPath(line).Some? then r.(file := NewPath(line))
    else if r.file.Some? && StartsWith(line, "@@") then r.(inHunk := true)
    else r
  }

  function ReaderEmit(r: Reader, line: string): seq<Shape> {
    if IsFileHeader(line) || !r.inHunk || r.file.None? || StartsWith(line, "@@") || StartsWith(line, "\\") then []
    else [Shape(r.file.value, LineKind(line), Unmarked(line))]
  }

  function Read(lines: seq<string>, r: Reader): seq<Shape> {
    if lines == [] then [] else ReaderEmit(r, lines[0]) + Read(lines[1..], ReaderStep(r, lines[0]))
  }

  function ReadAfter(lines: seq<string>, r: Reader): Reader {
    if lines == [] then r else ReadAfter(lines[1..], ReaderStep(r, lines[0]))
  }

  lemma {:induction false} ReadConcat(a: seq<string>, b: seq<string>, r: Reader)
    ensures Read(a + b, r) == Read(a, r) + Read(b, ReadAfter(a, r))
    ensures ReadAfter(a + b, r) == ReadAfter(b, ReadAfter(a, r))
    decreases |a|
  {
    hide ReaderStep, ReaderEmit;
    if a == [] {
      assert a + b == b;
    } else {
      assert (a + b)[1..] == a[1..] + b;
      ReadConcat(a[1..], b, ReaderStep(r, a[0]));
      Assoc(ReaderEmit(r, a[0]), Read(a[1..], ReaderStep(r, a[0])), Read(b, ReadAfter(a, r)));
    }
  }

  /** Lines that hide nothing from the hash: a mark is a hunk header, and inside a hunk no line
      could be taken for an index line. */
  predicate Tidy(lines: seq<string>, c: Cursor) {
    lines == []
    || (TidyLine(lines[0], c.inHunk) && Tidy(lines[1..], Step(c, lines[0])))
  }

  predicate TidyLine(line: string, inHunk: bool) {
    && (StartsWith(line, "@@") ==> IsHunkHeader(line))
    && (inHunk ==> !IsIndexLine(line))
  }

  function ReaderOf(c: Cursor): Reader {
    Reader(c.file, c.inHunk)
  }

  lemma {:induction false} IndexLineIsNothing(c: Cursor, line: string)
    requires IsIndexLine(line) && !c.inHunk
    ensures Emit(c, line) == [] && ReaderOf(Step(c, line)) == ReaderOf(c)
  {
    assert line[0] == "index "[0];
    NotPrefix(line, "diff --git ");
    NotPrefix(line, "--- a/");
    NotPrefix(line, "+++ b/");
    NotPrefix(line, "@@ -");
  }

  lemma {:induction false} HunkLineReads(c: Cursor, line: string)
    requires IsHunkHeader(line)
    ensures Emit(c, line) == [] && ReaderEmit(ReaderOf(c), Normal(line)) == []
    ensures ReaderOf(Step(c, line)) == ReaderStep(ReaderOf(c), Normal(line))
  {
    HunkHeaderMark(line);
    var normal := Normal(line);
    assert normal[..2] == "@@" && normal[0] == '@';
    hide ParseHunkHeader;
    NotPrefix(line, "diff --git ");
    NotPrefix(line, "--- a/");
    NotPrefix(line, "+++ b/");
    NotPrefix(normal, "diff --git ");
    NotPrefix(normal, "--- a/");
    NotPrefix(normal, "+++ b/");
  }

  lemma {:induction false} OtherLineReads(c: Cursor, line: string)
    requires !IsHunkHeader(line) && !StartsWith(line, "@@")
    ensures Shapes(Emit(c, line)) == ReaderEmit(ReaderOf(c), Normal(line))
    ensures ReaderOf(Step(c, line)) == ReaderStep(ReaderOf(c), Normal(line))
  {
    hide IsFileHeader, OldPath, NewPath, FallbackPath;
    if Emit(c, line) != [] {
      var e := Emit(c, line)[0];
      assert Emit(c, line) == [e] && [e][1..] == [];
      assert Shapes([e]) == [Shape(e.path, e.kind, e.text)] + [];
    }
  }

  /** The walk of tidy lines, numbers aside, can be read off what is hashed of them. */
  lemma {:induction false} HashedIsWalked(lines: seq<string>, c: Cursor)
    requires Tidy(lines, c)
    ensures Shapes(Walk(lines, c)) == Read(Kept(lines), ReaderOf(c))
    ensures ReaderOf(After(lines, c)) == ReadAfter(Kept(lines), ReaderOf(c))
    decreases |lines|
  {
    hide Emit, Step, ReaderEmit, ReaderStep, IsHunkHeader, IsIndexLine, Normal, StartsWith;
    if lines != [] {
      var line, c' := lines[0], Step(c, lines[0]);
      HashedIsWalked(lines[1..], c');
      ShapesConcat(Emit(c, line), Walk(lines[1..], c'));
      if IsIndexLine(line) {
        IndexLineIsNothing(c, line);
        assert [] + Kept(lines[1..]) == Kept(lines[1..]);
      } else {
        if IsHunkHeader(line) {
          HunkLineReads(c, line);
        } else {
          OtherLineReads(c, line);
        }
        assert ([Normal(line)] + Kept(lines[1..]))[1..] == Kept(lines[1..]);
      }
    }
  }

  // ----- Well-formed diffs are tidy -----

  lemma {:induction false} TidyConcat(a: seq<string>, b: seq<string>, c: Cursor)
    ensures Tidy(a + b, c) <==> Tidy(a, c) && Tidy(b, After(a, c))
    decreases |a|
  {
    hide Step, TidyLine;
    if a == [] {
      assert a + b == b;
    } else {
      assert (a + b)[1..] == a[1..] + b;
      TidyConcat(a[1..], b, Step(c, a[0]));
    }
  }

  lemma {:induction false} BodyLineIsTidy(line: string, inHunk: bool)
    requires IsBodyLine(line) || IsHunkHeader(line)
    ensures TidyLine(line, inHunk)
  {
    if IsHunkHeader(line) {
      HunkHeaderMark(line);
    } else {
      BodyLineIsNoHeader(line);
    }
    NotPrefix(line, "index ");
  }

  lemma {:induction false} HunksAreTidy(lines: seq<string>, c: Cursor)
    requires AllBody(ParseHunks(lines).preamble) && AllBodies(ParseHunks(lines).hunks)
    ensures Tidy(lines, c)
    decreases |lines|
  {
    hide ParseHunkHeader, Step, TidyLine, IsBodyLine;
    if lines != [] {
      var p, below := ParseHunks(lines), ParseHunks(lines[1..]);
      if IsHunkHeader(lines[0]) {
        assert p.hunks[0].body == below.preamble && p.hunks[1..] == below.hunks;
        AllBodiesBelow(p.hunks);
      } else {
        assert p.preamble[0] == lines[0] && p.preamble[1..] == below.preamble;
        AllBodyBelow(p.preamble);
      }
      BodyLineIsTidy(lines[0], c.inHunk);
      HunksAreTidy(lines[1..], Step(c, lines[0]));
    }
  }

  lemma {:induction false} PreambleIsTidy(lines: seq<string>, c: Cursor)
    requires NoHunkHeader(lines) && NoHunkMark(lines) && !c.inHunk
    ensures Tidy(lines, c)
    decreases |lines|
  {
    hide StartsWith, IsFileHeader, ParseHunkHeader, OldPath, NewPath, FallbackPath;
    if lines != [] {
      PreambleIsTidy(lines[1..], Step(c, lines[0]));
    }
  }

  lemma {:induction false} SectionIsTidy(lines: seq<string>, c: Cursor)
    requires WellFormedPatch(lines)
    ensures Tidy(lines, c)
  {
    hide ParseHunkHeader, IsFileHeader, Step, PathOf, Chained, IsBodyLine, TidyLine;
    var p := ParseHunks(lines);
    ParseSplit(lines);
    PreambleHasNoHunkHeader(lines);
    WellFormedParts(lines);
    WellFormedIsWalkable(lines);
    var rest := lines[|p.preamble|..];
    assert lines == p.preamble + rest;
    TidyConcat(p.preamble, rest, c);
    HeaderIsTidy(lines[0], c);
    assert p.preamble[1..] == lines[1..|p.preamble|];
    PreambleIsTidy(p.preamble[1..], Step(c, lines[0]));
    HunksAreTidy(rest, After(p.preamble, c));
  }

  lemma {:induction false} HeaderIsTidy(line: string, c: Cursor)
    requires IsFileHeader(line)
    ensures TidyLine(line, c.inHunk) && !Step(c, line).inHunk
  {
    FileHeaderIsNoHunk(line);
    NotPrefix(line, "index ");
  }

  lemma {:induction false} SectionsAreTidy(sections: seq<seq<string>>, c: Cursor)
    requires forall i :: 0 <= i < |sections| ==> WellFormedPatch(sections[i])
    ensures Tidy(Glue(sections), c)
    decreases |sections|
  {
    hide WellFormedPatch, Tidy, Step;
    if sections == [] {
      NothingIsTidy(c);
    } else {
      SectionIsTidy(sections[0], c);
      SectionsAreTidy(sections[1..], After(sections[0], c));
      TidyConcat(sections[0], Glue(sections[1..]), c);
    }
  }

  lemma {:induction false} NothingIsTidy(c: Cursor)
    ensures Tidy([], c)
  {
  }

  // ----- The final newline -----

  /** The hashed lines without the empty one a final newline leaves. */
  function Trimmed(kept: seq<string>): seq<string> {
    if kept != [] && kept[|kept| - 1] == "" then kept[..|kept| - 1] else kept
  }

  lemma {:induction false} KeptConcat(a: seq<string>, b: seq<string>)
    ensures Kept(a + b) == Kept(a) + Kept(b)
  {
    hide Normal, IsIndexLine;
    if a == [] {
      assert a + b == b;
    } else {
      assert (a + b)[1..] == a[1..] + b;
      KeptConcat(a[1..], b);
    }
  }

  lemma {:induction false} BlankReads(r: Reader)
    ensures ReaderStep(r, "") == r && (!r.inHunk ==> ReaderEmit(r, "") == [])
    ensures Normal("") == "" && !IsIndexLine("") && !IsHunkHeader("")
  {
    NotPrefix("", "@@ -");
    NotPrefix("", "@@");
  }

  /** A kept line is empty only if the line was. */
  lemma {:induction false} NormalNotEmpty(line: string)
    requires line != ""
    ensures Normal(line) != ""
  {
  }

  /** Where the last kept line is empty but the last line was not, the lines ended outside a hunk. */
  lemma {:induction false} DroppedLast(lines: seq<string>, c: Cursor)
    requires Tidy(lines, c) && lines != [] && lines[|lines| - 1] != ""
    requires Kept(lines) != [] && Kept(lines)[|Kept(lines)| - 1] == ""
    ensures !After(lines, c).inHunk
  {
    hide Emit, Step, IsHunkHeader, IsIndexLine, Normal, StartsWith, Tidy, Kept, After, TidyLine;
    var front, last := lines[..|lines| - 1], lines[|lines| - 1];
    assert lines == front + [last];
    TidyConcat(front, [last], c);
    KeptConcat(front, [last]);
    WalkConcat(front, [last], c);
    OneLine(After(front, c), last);
    NormalNotEmpty(last);
    OneLineDropped(Kept(front), last);
    IndexLineIsNothing(After(front, c), last);
  }

  lemma {:induction false} OneLine(c: Cursor, line: string)
    ensures Tidy([line], c) ==> (c.inHunk ==> !IsIndexLine(line))
    ensures After([line], c) == Step(c, line)
  {
    hide Step, IsIndexLine, IsHunkHeader, StartsWith;
    assert [line][1..] == [];
  }

  lemma {:induction false} OneLineDropped(front: seq<string>, last: string)
    requires Normal(last) != ""
    requires front + Kept([last]) != [] && (front + Kept([last]))[|front + Kept([last])| - 1] == ""
    ensures IsIndexLine(last)
  {
    hide IsIndexLine, Normal;
    assert [last][1..] == [];
  }

  /** The walk of a diff, numbers aside, as a function of the lines that are hashed. */
  lemma {:induction false} WalkFromHashed(diff: string)
    requires Tidy(Lines(diff), START)
    ensures Shapes(Entries(diff)) == Read(Trimmed(Kept(Split(diff))), Reader(None, false))
  {
    hide Shapes, Read, Tidy, Kept, Walk, Lines, Split;
    HashedIsWalked(Lines(diff), START);
    if EndsWithNewline(diff) {
      EndedTrims(diff);
    } else {
      UnendedReads(diff);
    }
  }

  lemma {:induction false} EndedTrims(diff: string)
    requires EndsWithNewline(diff)
    ensures Trimmed(Kept(Split(diff))) == Kept(Lines(diff))
  {
    hide Kept;
    SplitConcat(RemoveSuffix(diff), "");
    assert diff == RemoveSuffix(diff) + [NEWLINE] + "";
    assert Split("") == [""];
    KeptConcat(Lines(diff), [""]);
    KeptBlank();
  }

  lemma {:induction false} UnendedReads(diff: string)
    requires !EndsWithNewline(diff) && Tidy(Lines(diff), START)
    requires Shapes(Entries(diff)) == Read(Kept(Lines(diff)), Reader(None, false))
    requires ReaderOf(After(Lines(diff), START)) == ReadAfter(Kept(Lines(diff)), Reader(None, false))
    ensures Shapes(Entries(diff)) == Read(Trimmed(Kept(Split(diff))), Reader(None, false))
  {
    hide Shapes, Read, ReadAfter, Tidy, Kept, Walk, After, Lines, Split;
    var lines := Lines(diff);
    var kept := Kept(lines);
    assert lines == Split(diff) by { SameLines(diff); }
    if Trimmed(kept) != kept {
      LastLineEndsOrOne(diff);
      if lines[|lines| - 1] == "" {
        OnlyBlank(diff);
      } else {
        DroppedLast(lines, START);
        TrimmedReads(kept, Reader(None, false));
      }
    }
  }

  lemma {:induction false} SameLines(diff: string)
    requires !EndsWithNewline(diff)
    ensures Lines(diff) == Split(diff)
  {
  }

  lemma {:induction false} KeptBlank()
    ensures Kept([""]) == [""]
  {
    BlankReads(Reader(None, false));
    assert [""][1..] == [];
  }

  lemma {:induction false} LastLineEndsOrOne(text: string)
    requires !EndsWithNewline(text)
    ensures Lines(text)[|Lines(text)| - 1] == "" ==> Lines(text) == [""]
  {
    JoinSplit(text);
    JoinEndsWithNewline(Lines(text));
  }

  lemma {:induction false} OnlyBlank(diff: string)
    requires Lines(diff) == [""]
    ensures Shapes(Entries(diff)) == Read(Trimmed(Kept([""])), Reader(None, false))
  {
    KeptBlank();
    assert Walk([""], START) == Emit(START, "") + Walk([], Step(START, "")) == [];
  }

  lemma {:induction false} TrimmedReads(kept: seq<string>, r: Reader)
    requires kept != [] && kept[|kept| - 1] == "" && !ReadAfter(kept, r).inHunk
    ensures Read(Trimmed(kept), r) == Read(kept, r)
  {
    var front := kept[..|kept| - 1];
    assert kept == front + [""];
    ReadConcat(front, [""], r);
    BlankReads(ReadAfter(front, r));
    assert [""][1..] == [];
    assert ReadAfter([""], ReadAfter(front, r)) == ReadAfter(front, r);
    assert Read([""], ReadAfter(front, r)) == [];
  }

  // ----- The kernel of the fingerprint -----

  lemma {:induction false} KeptSingle(lines: seq<string>)
    requires AllSingle(lines)
    ensures AllSingle(Kept(lines))
  {
    hide ParseHunkHeader, IsIndexLine;
    if lines != [] {
      KeptSingle(lines[1..]);
      if IsHunkHeader(lines[0]) {
        SectionSuffix(lines[0]);
      }
    }
  }

  lemma {:induction false} HeaderIsKept(lines: seq<string>)
    requires lines != [] && IsFileHeader(lines[0])
    ensures Kept(lines) != []
  {
    FileHeaderIsNoHunk(lines[0]);
    NotPrefix(lines[0], "index ");
  }

  lemma {:induction false} WellFormedIsTidy(diff: string)
    requires WellFormedDiff(diff)
    ensures Tidy(Lines(diff), START) && Kept(Split(diff)) != []
  {
    hide WellFormedDiff, WellFormedPatch, HeaderNamed, FoundPath, IsFileHeader, Tidy, Kept, Printable, AllSections;
    var sections := Cut(Lines(diff)).sections;
    DiffParts(diff);
    SectionsAreTidy(sections, START);
    if EndsWithNewline(diff) {
      SplitConcat(RemoveSuffix(diff), "");
      assert diff == RemoveSuffix(diff) + [NEWLINE] + "";
      assert Split(diff)[0] == Lines(diff)[0];
    }
    HeaderIsKept(Split(diff));
  }

  /** Two well-formed diffs that hash the same text show a reader the same: the same paths, the same
      kinds of line and the same texts, in the same order. Only line numbers and blob ids can differ. */
  lemma {:induction false} SameTextSameReading(a: string, b: string)
    requires WellFormedDiff(a) && WellFormedDiff(b) && Hashed(a) == Hashed(b)
    ensures Shapes(Entries(a)) == Shapes(Entries(b))
  {
    hide WellFormedDiff, Tidy, Kept, Read, Walk;
    WellFormedIsTidy(a);
    WellFormedIsTidy(b);
    KeptSingle(Split(a));
    KeptSingle(Split(b));
    SplitJoin(Kept(Split(a)));
    SplitJoin(Kept(Split(b)));
    WalkFromHashed(a);
    WalkFromHashed(b);
  }

  predicate Collide(hash: string -> string, s: string, t: string) {
    s != t && hash(s) == hash(t)
  }

  /** Two well-formed diffs with one fingerprint show a reader the same, unless the hash collides on the
      two texts it was given. */
  lemma {:induction false} SameHashSameReading(a: string, b: string, hash: string -> string)
    requires WellFormedDiff(a) && WellFormedDiff(b) && DiffFingerprint(a, hash) == DiffFingerprint(b, hash)
    ensures Shapes(Entries(a)) == Shapes(Entries(b)) || Collide(hash, Hashed(a), Hashed(b))
  {
    hide WellFormedDiff, Hashed, Entries, Shapes;
    if Hashed(a) == Hashed(b) {
      SameTextSameReading(a, b);
    }
  }
}
