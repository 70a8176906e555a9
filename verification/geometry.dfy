/** The geometry of a patch: its hunks as parsed values, what each body line occupies on the
    two sides, and what it means for the numbers in the headers to be right. */
module Geometry {
  import opened Text
  import opened Numerals
  import opened DiffParse

  // ----- Body lines and the sides they occupy -----

  /** Git's markers, an empty line being git's rendering of an empty context line. */
  predicate IsBodyLine(line: string) {
    line == "" || line[0] == ' ' || line[0] == '+' || line[0] == '-' || line[0] == '\\'
  }

  predicate AllBody(body: seq<string>) {
    forall i :: 0 <= i < |body| ==> IsBodyLine(body[i])
  }

  function OldWidth(line: string): nat {
    if line != "" && (line[0] == '+' || line[0] == '\\') then 0 else 1
  }

  function NewWidth(line: string): nat {
    if line != "" && (line[0] == '-' || line[0] == '\\') then 0 else 1
  }

  function OldCount(body: seq<string>): nat {
    if body == [] then 0 else OldWidth(body[0]) + OldCount(body[1..])
  }

  function NewCount(body: seq<string>): nat {
    if body == [] then 0 else NewWidth(body[0]) + NewCount(body[1..])
  }

  function LineEntries(path: string, o: nat, n: nat, line: string): seq<Entry> {
    if line != "" && line[0] == '\\' then []
    else if line != "" && line[0] == '-' then [Entry(path, Deleted, o, n, line[1..])]
    else if line != "" && line[0] == '+' then [Entry(path, Added, o, n, line[1..])]
    else [Entry(path, Context, o, n, Unmarked(line))]
  }

  /** The entries of a hunk body whose first line stands at (o, n). */
  function BodyEntries(path: string, o: nat, n: nat, body: seq<string>): seq<Entry>
    decreases |body|
  {
    if body == [] then []
    else LineEntries(path, o, n, body[0])
         + BodyEntries(path, o + OldWidth(body[0]), n + NewWidth(body[0]), body[1..])
  }

  lemma {:induction false} BodyConcat(path: string, o: nat, n: nat, a: seq<string>, b: seq<string>)
    ensures OldCount(a + b) == OldCount(a) + OldCount(b)
    ensures NewCount(a + b) == NewCount(a) + NewCount(b)
    ensures BodyEntries(path, o, n, a + b)
         == BodyEntries(path, o, n, a) + BodyEntries(path, o + OldCount(a), n + NewCount(a), b)
    decreases |a|
  {
    hide LineEntries, OldWidth, NewWidth;
    if a == [] {
      assert a + b == b;
    } else {
      assert (a + b)[1..] == a[1..] + b;
      var o', n' := o + OldWidth(a[0]), n + NewWidth(a[0]);
      BodyConcat(path, o', n', a[1..], b);
      Assoc(LineEntries(path, o, n, a[0]), BodyEntries(path, o', n', a[1..]),
            BodyEntries(path, o + OldCount(a), n + NewCount(a), b));
    }
  }

  lemma {:induction false} BodyLineIsNoHeader(line: string)
    requires IsBodyLine(line)
    ensures !IsFileHeader(line) && !IsHunkHeader(line) && !StartsWith(line, "@@")
  {
  }

  lemma {:induction false} BodyLineStep(path: string, o: nat, n: nat, line: string)
    requires IsBodyLine(line)
    ensures Emit(Cursor(Some(path), o, n, true), line) == LineEntries(path, o, n, line)
    ensures Step(Cursor(Some(path), o, n, true), line)
         == Cursor(Some(path), o + OldWidth(line), n + NewWidth(line), true)
  {
    BodyLineIsNoHeader(line);
  }

  /** Inside a hunk the walk yields exactly the body's entries. */
  lemma {:induction false} WalkBody(path: string, o: nat, n: nat, body: seq<string>)
    requires AllBody(body)
    ensures Walk(body, Cursor(Some(path), o, n, true)) == BodyEntries(path, o, n, body)
    ensures After(body, Cursor(Some(path), o, n, true))
         == Cursor(Some(path), o + OldCount(body), n + NewCount(body), true)
    decreases |body|
  {
    hide Emit, Step;
    if body != [] {
      BodyLineStep(path, o, n, body[0]);
      WalkBody(path, o + OldWidth(body[0]), n + NewWidth(body[0]), body[1..]);
    }
  }

  // ----- Hunks -----

  datatype Hunk = Hunk(header: HunkHeader, body: seq<string>) {
    /** An empty range names the line before it, so its first line is one further. */
    function FirstOld(): nat {
      header.oldStart + if header.oldLen == 0 then 1 else 0
    }

    function FirstNew(): nat {
      header.newStart + if header.newLen == 0 then 1 else 0
    }

    /** One past the last line of the hunk. */
    function EndOld(): nat {
      FirstOld() + header.oldLen
    }

    function EndNew(): nat {
      FirstNew() + header.newLen
    }
  }

  datatype Parsed = Parsed(preamble: seq<string>, hunks: seq<Hunk>)

  /** _parse_hunks: lines before the first hunk header, then each header with the lines below it. */
  function ParseHunks(lines: seq<string>): Parsed {
    if lines == [] then Parsed([], [])
    else
      var below := ParseHunks(lines[1..]);
      match ParseHunkHeader(lines[0])
      case Some(h) => Parsed([], [Hunk(h, below.preamble)] + below.hunks)
      case None => Parsed([lines[0]] + below.preamble, below.hunks)
  }

  /** One more line at the end: a new hunk, a line of the last one, or of the preamble. */
  function Extend(p: Parsed, line: string): Parsed {
    match ParseHunkHeader(line)
    case Some(h) => Parsed(p.preamble, p.hunks + [Hunk(h, [])])
    case None =>
      if p.hunks == [] then Parsed(p.preamble + [line], [])
      else
        var last := p.hunks[|p.hunks| - 1];
        Parsed(p.preamble, p.hunks[..|p.hunks| - 1] + [last.(body := last.body + [line])])
  }

  lemma {:induction false} ParseSnoc(lines: seq<string>, line: string)
    ensures ParseHunks(lines + [line]) == Extend(ParseHunks(lines), line)
    decreases |lines|
  {
    hide ParseHunkHeader;
    if lines == [] {
      assert [] + [line] == [line] && [line][1..] == [];
    } else {
      assert (lines + [line])[0] == lines[0] && (lines + [line])[1..] == lines[1..] + [line];
      ParseSnoc(lines[1..], line);
      ExtendBelow(ParseHunks(lines[1..]), lines[0], line);
    }
  }

  /** The first line decides where the preamble below it goes, and nothing about the last line. */
  lemma {:induction false} ExtendBelow(below: Parsed, first: string, line: string)
    ensures AddFirst(first, Extend(below, line)) == Extend(AddFirst(first, below), line)
  {
    hide ParseHunkHeader;
    if below.hunks == [] {
      assert [first] + (below.preamble + [line]) == ([first] + below.preamble) + [line];
    } else if ParseHunkHeader(first).Some? {
      var one := [Hunk(ParseHunkHeader(first).value, below.preamble)];
      assert (one + below.hunks)[..|below.hunks|] == one + below.hunks[..|below.hunks| - 1];
    }
  }

  function AddFirst(first: string, below: Parsed): Parsed {
    match ParseHunkHeader(first)
    case Some(h) => Parsed([], [Hunk(h, below.preamble)] + below.hunks)
    case None => Parsed([first] + below.preamble, below.hunks)
  }

  /** _parse_hunks: lines go to the preamble until a hunk opens, then to the last hunk. */
  method ParsePatch(patch: string) returns (preamble: seq<string>, hunks: seq<Hunk>)
    ensures Parsed(preamble, hunks) == ParseHunks(Lines(patch))
  {
    hide ParseHunkHeader, ParseHunks;
    var lines := Lines(patch);
    preamble, hunks := [], [];
    NothingParsed();
    for i := 0 to |lines|
      invariant Parsed(preamble, hunks) == ParseHunks(lines[..i])
    {
      ParseSnoc(lines[..i], lines[i]);
      assert lines[..i + 1] == lines[..i] + [lines[i]];
      var header := ParseHunkHeader(lines[i]);
      if header.Some? {
        hunks := hunks + [Hunk(header.value, [])];
      } else if hunks != [] {
        var last := hunks[|hunks| - 1];
        hunks := hunks[..|hunks| - 1] + [last.(body := last.body + [lines[i]])];
      } else {
        preamble := preamble + [lines[i]];
      }
    }
    assert lines[..|lines|] == lines;
  }

  lemma {:induction false} NothingParsed()
    ensures ParseHunks([]) == Parsed([], [])
  {
  }

  predicate NoHunkHeader(lines: seq<string>) {
    forall i :: 0 <= i < |lines| ==> !IsHunkHeader(lines[i])
  }

  lemma {:induction false} ParseAppend(a: seq<string>, b: seq<string>)
    requires NoHunkHeader(a)
    ensures ParseHunks(a + b) == Parsed(a + ParseHunks(b).preamble, ParseHunks(b).hunks)
  {
    hide ParseHunkHeader;
    if a == [] {
      assert a + b == b;
    } else {
      assert (a + b)[1..] == a[1..] + b;
      ParseAppend(a[1..], b);
    }
  }

  lemma {:induction false} ParseHunk(line: string, body: seq<string>, below: seq<string>)
    requires IsHunkHeader(line) && NoHunkHeader(body) && ParseHunks(below).preamble == []
    ensures ParseHunks([line] + body + below)
         == Parsed([], [Hunk(ParseHunkHeader(line).value, body)] + ParseHunks(below).hunks)
  {
    hide ParseHunkHeader;
    var lines := [line] + body + below;
    assert lines[0] == line && lines[1..] == body + below;
    ParseAppend(body, below);
    assert body + ParseHunks(below).preamble == body;
  }

  lemma {:induction false} PreambleHasNoHunkHeader(lines: seq<string>)
    ensures NoHunkHeader(ParseHunks(lines).preamble)
    ensures forall h :: h in ParseHunks(lines).hunks ==> NoHunkHeader(h.body)
  {
    hide ParseHunkHeader;
    if lines != [] {
      PreambleHasNoHunkHeader(lines[1..]);
    }
  }

  /** A hunk printed with a canonical header. */
  function HunkLines(h: Hunk): seq<string> {
    [PrintHunkHeader(h.header)] + h.body
  }

  function AllHunkLines(hs: seq<Hunk>): seq<string> {
    if hs == [] then [] else HunkLines(hs[0]) + AllHunkLines(hs[1..])
  }

  predicate AllBodies(hs: seq<Hunk>) {
    forall i :: 0 <= i < |hs| ==> AllBody(hs[i].body)
  }

  lemma {:induction false} BodyHasNoHunkHeader(body: seq<string>)
    requires AllBody(body)
    ensures NoHunkHeader(body)
  {
    forall i | 0 <= i < |body| ensures !IsHunkHeader(body[i]) {
      BodyLineIsNoHeader(body[i]);
    }
  }

  /** Printing hunks below a preamble and parsing them gives them back. */
  lemma {:induction false} ParsePrinted(preamble: seq<string>, hs: seq<Hunk>)
    requires NoHunkHeader(preamble) && AllBodies(hs)
    ensures ParseHunks(preamble + AllHunkLines(hs)) == Parsed(preamble, hs)
    decreases |hs|
  {
    hide ParseHunkHeader, PrintHunkHeader;
    if hs == [] {
      ParseAppend(preamble, []);
    } else {
      var line, body, below := PrintHunkHeader(hs[0].header), hs[0].body, AllHunkLines(hs[1..]);
      ParsePrinted([], hs[1..]);
      assert [] + below == below;
      PrintedHeaderParses(hs[0].header);
      BodyHasNoHunkHeader(body);
      ParseHunk(line, body, below);
      assert AllHunkLines(hs) == [line] + body + below;
      ParseAppend(preamble, AllHunkLines(hs));
    }
  }

  function HunkEntries(path: string, h: Hunk): seq<Entry> {
    BodyEntries(path, h.header.oldStart, h.header.newStart, h.body)
  }

  function HunksEntries(path: string, hs: seq<Hunk>): seq<Entry> {
    if hs == [] then [] else HunkEntries(path, hs[0]) + HunksEntries(path, hs[1..])
  }

  lemma {:induction false} HunksConcat(path: string, a: seq<Hunk>, b: seq<Hunk>)
    ensures HunksEntries(path, a + b) == HunksEntries(path, a) + HunksEntries(path, b)
  {
    if a == [] {
      assert a + b == b;
    } else {
      assert (a + b)[1..] == a[1..] + b;
      HunksConcat(path, a[1..], b);
    }
  }

  // ----- Well-formed patches -----

  /** Header lengths equal body counts, a range that is not empty starts at 1 or more, and
      a hunk covers at least one line. */
  predicate Sound(h: Hunk) {
    && AllBody(h.body)
    && h.header.oldLen == OldCount(h.body)
    && h.header.newLen == NewCount(h.body)
    && (h.header.oldLen > 0 ==> h.header.oldStart >= 1)
    && (h.header.newLen > 0 ==> h.header.newStart >= 1)
    && h.header.oldLen + h.header.newLen > 0
  }

  /** The later hunk lies below the earlier one, with as many unchanged lines between on both sides. */
  predicate Follows(h: Hunk, next: Hunk) {
    && h.EndNew() <= next.FirstNew()
    && next.FirstNew() - h.EndNew() == next.FirstOld() - h.EndOld()
  }

  predicate Chained(hs: seq<Hunk>) {
    && (forall i :: 0 <= i < |hs| ==> Sound(hs[i]))
    && (forall i :: 0 < i < |hs| ==> Follows(hs[i - 1], hs[i]))
  }

  predicate NoFileHeaderBelow(lines: seq<string>) {
    forall i :: 0 < i < |lines| ==> !IsFileHeader(lines[i])
  }

  predicate NoHunkMark(lines: seq<string>) {
    forall i :: 0 <= i < |lines| ==> !StartsWith(lines[i], "@@")
  }

  /** The path the walk has bound when the first hunk opens. */
  function PathOf(lines: seq<string>): Option<string> {
    After(ParseHunks(lines).preamble, START).file
  }

  predicate AllSound(hs: seq<Hunk>) {
    forall i :: 0 <= i < |hs| ==> Sound(hs[i])
  }

  lemma {:induction false} ChainedIsSound(hs: seq<Hunk>)
    requires Chained(hs)
    ensures AllSound(hs)
  {
    hide Sound, Follows;
  }

  /** One file's section of a diff, from its "diff --git" line on, each hunk's header true of its body. */
  predicate SoundPatch(lines: seq<string>) {
    && lines != [] && IsFileHeader(lines[0])
    && var p := ParseHunks(lines);
       && NoFileHeaderBelow(p.preamble) && NoHunkMark(p.preamble)
       && AllSound(p.hunks)
       && (p.hunks != [] ==> PathOf(lines).Some?)
  }

  /** And each hunk follows the one before it, as in a diff of two files. */
  predicate WellFormedPatch(lines: seq<string>) {
    SoundPatch(lines) && Chained(ParseHunks(lines).hunks)
  }

  lemma {:induction false} FileHeaderIsNoHunk(line: string)
    requires IsFileHeader(line)
    ensures !IsHunkHeader(line) && !StartsWith(line, "@@") && line[0] == 'd'
  {
    assert line[0] == "diff --git "[0];
  }

  lemma {:induction false} PreambleAfter(lines: seq<string>, c: Cursor)
    requires NoHunkHeader(lines) && !c.inHunk
    ensures Walk(lines, c) == [] && !After(lines, c).inHunk
    ensures After(lines, c).oldLine == c.oldLine && After(lines, c).newLine == c.newLine
    ensures forall c': Cursor :: !c'.inHunk && c'.file == c.file ==> After(lines, c').file == After(lines, c).file
  {
    hide ParseHunkHeader, IsFileHeader, OldPath, NewPath, FallbackPath;
    if lines != [] {
      PreambleAfter(lines[1..], Step(c, lines[0]));
      forall c': Cursor | !c'.inHunk && c'.file == c.file
        ensures After(lines, c').file == After(lines, c).file
      {
        assert Step(c', lines[0]).file == Step(c, lines[0]).file;
      }
    }
  }

  /** Whatever precedes it, a line of body entries then hunks is walked from the headers alone. */
  lemma {:induction false} WalkHunks(path: string, o: nat, n: nat, lines: seq<string>)
    requires AllBody(ParseHunks(lines).preamble) && AllBodies(ParseHunks(lines).hunks)
    ensures Walk(lines, Cursor(Some(path), o, n, true))
         == BodyEntries(path, o, n, ParseHunks(lines).preamble) + HunksEntries(path, ParseHunks(lines).hunks)
    ensures var end := After(lines, Cursor(Some(path), o, n, true)); end.inHunk && end.file == Some(path)
    decreases |lines|
  {
    hide ParseHunkHeader, Emit, Step, LineEntries, OldWidth, NewWidth, IsBodyLine;
    if lines != [] {
      var p, below := ParseHunks(lines), ParseHunks(lines[1..]);
      if IsHunkHeader(lines[0]) {
        var h := ParseHunkHeader(lines[0]).value;
        assert p.hunks[0] == Hunk(h, below.preamble) && p.hunks[1..] == below.hunks;
        AllBodiesBelow(p.hunks);
        HunkHeaderStep(Cursor(Some(path), o, n, true), lines[0]);
        WalkHunks(path, h.oldStart, h.newStart, lines[1..]);
      } else {
        var o', n' := o + OldWidth(lines[0]), n + NewWidth(lines[0]);
        assert p.preamble[0] == lines[0] && p.preamble[1..] == below.preamble;
        AllBodyBelow(p.preamble);
        BodyLineStep(path, o, n, lines[0]);
        WalkHunks(path, o', n', lines[1..]);
        Assoc(LineEntries(path, o, n, lines[0]), BodyEntries(path, o', n', below.preamble),
              HunksEntries(path, below.hunks));
      }
    }
  }

  lemma {:induction false} AllBodyBelow(body: seq<string>)
    requires AllBody(body) && body != []
    ensures AllBody(body[1..])
  {
  }

  lemma {:induction false} AllBodiesBelow(hs: seq<Hunk>)
    requires AllBodies(hs) && hs != []
    ensures AllBody(hs[0].body) && AllBodies(hs[1..])
  {
  }

  lemma {:induction false} HunkHeaderMark(line: string)
    requires IsHunkHeader(line)
    ensures line != "" && line[0] == '@' && StartsWith(line, "@@")
  {
    hide ScanRange;
    assert line[0] == "@@ -"[0] && line[1] == "@@ -"[1];
  }

  lemma {:induction false} HunkHeaderStep(c: Cursor, line: string)
    requires IsHunkHeader(line) && c.file.Some?
    ensures Emit(c, line) == []
    ensures var h := ParseHunkHeader(line).value; Step(c, line) == Cursor(c.file, h.oldStart, h.newStart, true)
  {
    hide ParseHunkHeader;
    HunkHeaderMark(line);
  }

  // ----- Walking one file's section -----

  lemma {:induction false} ParseSplit(lines: seq<string>)
    ensures var p := ParseHunks(lines);
      && |p.preamble| <= |lines| && p.preamble == lines[..|p.preamble|]
      && ParseHunks(lines[|p.preamble|..]) == Parsed([], p.hunks)
      && (lines[|p.preamble|..] == [] <==> p.hunks == [])
      && (p.hunks != [] ==> IsHunkHeader(lines[|p.preamble|]))
  {
    hide ParseHunkHeader;
    if lines != [] && !IsHunkHeader(lines[0]) {
      ParseSplit(lines[1..]);
      var k := |ParseHunks(lines[1..]).preamble|;
      assert lines[1..][k..] == lines[k + 1..];
      assert lines[..k + 1] == [lines[0]] + lines[1..][..k];
    } else {
      assert lines[0..] == lines;
    }
  }

  /** What the walk needs of a section: less than well-formedness, so that a rewritten one has it too. */
  predicate Walkable(lines: seq<string>) {
    && lines != [] && IsFileHeader(lines[0])
    && var p := ParseHunks(lines);
       NoFileHeaderBelow(p.preamble) && AllBodies(p.hunks) && (p.hunks != [] ==> PathOf(lines).Some?)
  }

  lemma {:induction false} SoundIsWalkable(lines: seq<string>)
    requires SoundPatch(lines)
    ensures Walkable(lines)
  {
    var hs := ParseHunks(lines).hunks;
    forall i | 0 <= i < |hs| ensures AllBody(hs[i].body) {
      assert Sound(hs[i]);
    }
  }

  lemma {:induction false} WellFormedIsSound(lines: seq<string>)
    requires WellFormedPatch(lines)
    ensures SoundPatch(lines)
  {
  }

  lemma {:induction false} WellFormedIsWalkable(lines: seq<string>)
    requires WellFormedPatch(lines)
    ensures Walkable(lines)
  {
    hide SoundPatch;
    SoundIsWalkable(lines);
  }

  lemma {:induction false} SoundParts(lines: seq<string>)
    requires SoundPatch(lines)
    ensures AllSound(ParseHunks(lines).hunks)
    ensures ParseHunks(lines).preamble != [] && ParseHunks(lines).preamble[0] == lines[0]
  {
    hide ParseHunkHeader, IsFileHeader;
    FileHeaderIsNoHunk(lines[0]);
  }

  lemma {:induction false} WellFormedParts(lines: seq<string>)
    requires WellFormedPatch(lines)
    ensures Chained(ParseHunks(lines).hunks)
    ensures ParseHunks(lines).preamble != [] && ParseHunks(lines).preamble[0] == lines[0]
  {
    hide ParseHunkHeader, IsFileHeader;
    FileHeaderIsNoHunk(lines[0]);
  }

  /** The hunk a section's walk is bound to does not depend on what was walked before it. */
  lemma {:induction false} SectionPreamble(lines: seq<string>, c: Cursor)
    requires Walkable(lines)
    ensures var preamble := ParseHunks(lines).preamble;
      Walk(preamble, c) == [] && !After(preamble, c).inHunk && After(preamble, c).file == PathOf(lines)
  {
    hide ParseHunkHeader, IsFileHeader, OldPath, NewPath, FallbackPath;
    FileHeaderIsNoHunk(lines[0]);
    ParseSplit(lines);
    PreambleHasNoHunkHeader(lines);
    var preamble := ParseHunks(lines).preamble;
    assert preamble[0] == lines[0];
    var first, started := Step(c, lines[0]), Step(START, lines[0]);
    PreambleAfter(preamble[1..], started);
    PreambleAfter(preamble[1..], first);
    assert first.file == started.file && !first.inHunk;
  }

  /** A section is walked as its hunks, from any cursor. */
  lemma {:induction false} SectionWalk(lines: seq<string>, c: Cursor)
    requires Walkable(lines)
    ensures Walk(lines, c) == HunksEntries(PathOf(lines).GetOr(""), ParseHunks(lines).hunks)
  {
    hide ParseHunkHeader, Emit, Step, IsFileHeader, Walkable, PathOf, BodyEntries, IsBodyLine;
    var p := ParseHunks(lines);
    ParseSplit(lines);
    var rest := lines[|p.preamble|..];
    assert lines == p.preamble + rest;
    SectionPreamble(lines, c);
    WalkConcat(p.preamble, rest, c);
    assert [] + Walk(rest, After(p.preamble, c)) == Walk(rest, After(p.preamble, c));
    if p.hunks != [] {
      assert Walkable(lines) && AllBodies(p.hunks) && PathOf(lines).Some? by { WalkableParts(lines); }
      HunksWalk(PathOf(lines).value, rest, After(p.preamble, c));
    }
  }

  lemma {:induction false} WalkableParts(lines: seq<string>)
    requires Walkable(lines)
    ensures AllBodies(ParseHunks(lines).hunks)
    ensures ParseHunks(lines).hunks != [] ==> PathOf(lines).Some?
  {
  }

  lemma {:induction false} HunksWalk(path: string, lines: seq<string>, c: Cursor)
    requires ParseHunks(lines).preamble == [] && AllBodies(ParseHunks(lines).hunks) && lines != []
    requires c.file == Some(path)
    ensures Walk(lines, c) == HunksEntries(path, ParseHunks(lines).hunks)
    ensures var end := After(lines, c); end.inHunk && end.file == Some(path)
  {
    hide ParseHunkHeader, Emit, Step, BodyEntries, IsBodyLine;
    var hs := ParseHunks(lines).hunks;
    var h := ParseHunkHeader(lines[0]).value;
    HunkHeaderStep(c, lines[0]);
    AllBodiesBelow(hs);
    assert hs[0].body == ParseHunks(lines[1..]).preamble && hs[1..] == ParseHunks(lines[1..]).hunks;
    WalkHunks(path, h.oldStart, h.newStart, lines[1..]);
  }

  // ----- Lines stay lines: nothing printed carries a newline -----

  predicate SingleHunk(h: Hunk) {
    NoNewline(h.header.section) && AllSingle(h.body)
  }

  predicate SingleHunks(hs: seq<Hunk>) {
    forall i :: 0 <= i < |hs| ==> SingleHunk(hs[i])
  }

  lemma {:induction false} ScanRangeSuffix(s: string)
    ensures ScanRange(s).Some? ==> forall c :: c in ScanRange(s).value.rest ==> c in s
  {
  }

  lemma {:induction false} SectionSuffix(line: string)
    requires IsHunkHeader(line) && NoNewline(line)
    ensures NoNewline(ParseHunkHeader(line).value.section)
  {
    hide ScanRange;
    var rest := ScanRange(line[4..]).value.rest;
    var rest' := ScanRange(rest[2..]).value.rest;
    ScanRangeSuffix(line[4..]);
    ScanRangeSuffix(rest[2..]);
    assert forall c :: c in rest' ==> c in rest[2..];
    assert forall c :: c in rest[2..] ==> c in rest;
    assert forall c :: c in rest ==> c in line[4..];
    assert forall c :: c in line[4..] ==> c in line;
    assert forall c :: c in rest'[3..] ==> c in rest';
    assert ParseHunkHeader(line).value.section == rest'[3..];
  }

  lemma {:induction false} ParsedSingle(lines: seq<string>)
    requires AllSingle(lines)
    ensures AllSingle(ParseHunks(lines).preamble) && SingleHunks(ParseHunks(lines).hunks)
  {
    hide ParseHunkHeader;
    if lines != [] {
      ParsedSingle(lines[1..]);
      if IsHunkHeader(lines[0]) {
        SectionSuffix(lines[0]);
      }
    }
  }

  lemma {:induction false} DecimalSingle(n: nat)
    ensures NoNewline(Decimal(n))
  {
    assert forall i :: 0 <= i < |Decimal(n)| ==> IsDigit(Decimal(n)[i]);
  }

  lemma {:induction false} PrintedHeaderSingle(h: HunkHeader)
    requires NoNewline(h.section)
    ensures NoNewline(PrintHunkHeader(h))
  {
    DecimalSingle(h.oldStart);
    DecimalSingle(h.oldLen);
    DecimalSingle(h.newStart);
    DecimalSingle(h.newLen);
  }

  lemma {:induction false} PrintedSingle(hs: seq<Hunk>)
    requires SingleHunks(hs)
    ensures AllSingle(AllHunkLines(hs))
  {
    hide PrintHunkHeader;
    if hs != [] {
      PrintedHeaderSingle(hs[0].header);
      PrintedSingle(hs[1..]);
    }
  }
}
