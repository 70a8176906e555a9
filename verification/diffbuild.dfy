/** core/diffbuild.py: printing a change between two texts as a git patch, which the parser reads
    back as that change. */
module DiffBuild {
  import opened Text
  import opened Numerals
  import opened DiffParse
  import opened Geometry
  import opened ExpandProofs
  import opened Application
  import opened ExpandMeaning
  import opened Sections
  import opened HunkLookup

  /** _lines: the lines a host numbers; none for an empty text. */
  function FileLines(text: string): (lines: seq<string>)
    ensures AllSingle(lines)
  {
    if text == "" then [] else Lines(text)
  }

  // ----- The header -----

  const NULL := "/dev/null"

  /** _header: the "diff --git" line and the metadata git emits for the change. */
  function Header(oldPath: Option<string>, newPath: Option<string>, oldMode: Option<string>, newMode: Option<string>): seq<string>
    requires oldPath.Some? || newPath.Some?
  {
    var older := oldPath.GetOr(newPath.GetOr(""));
    var newer := newPath.GetOr(oldPath.GetOr(""));
    ["diff --git a/" + older + " b/" + newer] + Metadata(oldPath, newPath, oldMode, newMode)
  }

  /** A mode the host named; an empty one counts as none. */
  predicate HasMode(mode: Option<string>) {
    mode.Some? && mode.value != ""
  }

  function ModeOf(mode: Option<string>): string {
    if HasMode(mode) then mode.value else "100644"
  }

  function Metadata(oldPath: Option<string>, newPath: Option<string>, oldMode: Option<string>, newMode: Option<string>): seq<string> {
    if oldPath.None? then ["new file mode " + ModeOf(newMode)]
    else if newPath.None? then ["deleted file mode " + ModeOf(oldMode)]
    else
      (if HasMode(oldMode) && HasMode(newMode) && oldMode != newMode then ["old mode " + oldMode.value, "new mode " + newMode.value] else [])
      + (if oldPath != newPath then ["rename from " + oldPath.value, "rename to " + newPath.value] else [])
  }

  method BuildHeader(oldPath: Option<string>, newPath: Option<string>, oldMode: Option<string>, newMode: Option<string>)
      returns (lines: seq<string>)
    requires oldPath.Some? || newPath.Some?
    ensures lines == Header(oldPath, newPath, oldMode, newMode)
    ensures SafePaths(oldPath, newPath) && SafeMode(oldMode) && SafeMode(newMode) ==>
      (FoundPath(lines) == Named(oldPath, newPath)
       <==> Renames(oldPath, newPath) || !HoldsSide(Named(oldPath, newPath).value))
  {
    hide FoundPath, HoldsSide;
    if SafePaths(oldPath, newPath) && SafeMode(oldMode) && SafeMode(newMode) {
      HeaderAloneIsNamed(oldPath, newPath, oldMode, newMode);
    }
    var older := if oldPath.Some? then oldPath.value else newPath.value;
    var newer := if newPath.Some? then newPath.value else oldPath.value;
    lines := ["diff --git a/" + older + " b/" + newer];
    if oldPath.None? {
      lines := lines + ["new file mode " + ModeOf(newMode)];
    } else if newPath.None? {
      lines := lines + ["deleted file mode " + ModeOf(oldMode)];
    } else {
      if HasMode(oldMode) && HasMode(newMode) && oldMode != newMode {
        lines := lines + ["old mode " + oldMode.value, "new mode " + newMode.value];
      }
      if oldPath != newPath {
        lines := lines + ["rename from " + oldPath.value, "rename to " + newPath.value];
      }
    }
  }

  function OldLabel(oldPath: Option<string>): string {
    "--- " + if oldPath.Some? then "a/" + oldPath.value else NULL
  }

  function NewLabel(newPath: Option<string>): string {
    "+++ " + if newPath.Some? then "b/" + newPath.value else NULL
  }

  /** Everything above the hunks. */
  function Above(oldPath: Option<string>, newPath: Option<string>, oldMode: Option<string>, newMode: Option<string>): seq<string>
    requires oldPath.Some? || newPath.Some?
  {
    Header(oldPath, newPath, oldMode, newMode) + [OldLabel(oldPath), NewLabel(newPath)]
  }

  // ----- An alignment of two texts -----

  datatype Edit = Keep(line: string) | Delete(line: string) | Insert(line: string)

  /** Opcodes grouped with context: what is shown in a hunk, and equal lines skipped between. */
  datatype Segment = Skip(lines: seq<string>) | Block(edits: seq<Edit>)

  function OldEdits(edits: seq<Edit>): seq<string> {
    if edits == [] then [] else (if edits[0].Insert? then [] else [edits[0].line]) + OldEdits(edits[1..])
  }

  function NewEdits(edits: seq<Edit>): seq<string> {
    if edits == [] then [] else (if edits[0].Delete? then [] else [edits[0].line]) + NewEdits(edits[1..])
  }

  function OldOf(segments: seq<Segment>): seq<string> {
    if segments == [] then []
    else (match segments[0] case Skip(lines) => lines case Block(edits) => OldEdits(edits)) + OldOf(segments[1..])
  }

  function NewOf(segments: seq<Segment>): seq<string> {
    if segments == [] then []
    else (match segments[0] case Skip(lines) => lines case Block(edits) => NewEdits(edits)) + NewOf(segments[1..])
  }

  /** Any alignment of the two line lists, however it was found and grouped. */
  predicate Aligns(segments: seq<Segment>, before: seq<string>, head: seq<string>) {
    && OldOf(segments) == before && NewOf(segments) == head
    && forall i :: 0 <= i < |segments| && segments[i].Block? ==> segments[i].edits != []
  }

  // ----- Printing -----

  /** difflib's range: the length is omitted when it is 1, and an empty range names the line before. */
  function Range(before: nat, length: nat): string {
    SpellRange(RangeStart(before, length), length, true)
  }

  function RangeStart(before: nat, length: nat): nat {
    if length == 0 then before else before + 1
  }

  function BlockHeader(o: nat, oldLen: nat, n: nat, newLen: nat): string {
    "@@ -" + Range(o, oldLen) + " +" + Range(n, newLen) + " @@"
  }

  function PrintEdit(edit: Edit): string {
    [if edit.Keep? then ' ' else if edit.Delete? then '-' else '+'] + edit.line
  }

  function PrintEdits(edits: seq<Edit>): (lines: seq<string>)
    ensures |lines| == |edits|
  {
    if edits == [] then [] else [PrintEdit(edits[0])] + PrintEdits(edits[1..])
  }

  /** The unified diff of the segments, o old and n new lines in. */
  function PrintSegments(segments: seq<Segment>, o: nat, n: nat): seq<string>
    decreases |segments|
  {
    if segments == [] then []
    else match segments[0]
      case Skip(lines) => PrintSegments(segments[1..], o + |lines|, n + |lines|)
      case Block(edits) =>
        var oldLen, newLen := |OldEdits(edits)|, |NewEdits(edits)|;
        [BlockHeader(o, oldLen, n, newLen)] + PrintEdits(edits) + PrintSegments(segments[1..], o + oldLen, n + newLen)
  }

  /** file_patch, for the alignment difflib would choose. */
  function FilePatch(oldPath: Option<string>, newPath: Option<string>, segments: seq<Segment>): string
    requires oldPath.Some? || newPath.Some?
  {
    var header := Header(oldPath, newPath, None, None);
    var hunks := PrintSegments(segments, 0, 0);
    if hunks == [] then
      Unlines(if oldPath.Some? && newPath.Some? && oldPath != newPath then header[..1] + ["similarity index 100%"] + header[1..] else header, true)
    else Unlines(Above(oldPath, newPath, None, None) + hunks, true)
  }

  /** patch_from_hunks */
  function PatchFromHunks(oldPath: Option<string>, newPath: Option<string>, oldMode: Option<string>, newMode: Option<string>, hunks: string): string
    requires oldPath.Some? || newPath.Some?
  {
    if hunks == "" then Unlines(Header(oldPath, newPath, oldMode, newMode), true)
    else Unlines(Above(oldPath, newPath, oldMode, newMode), true) + hunks + if EndsWithNewline(hunks) then "" else "\n"
  }

  // ----- The hunks that are printed -----

  function BlockHunk(edits: seq<Edit>, o: nat, n: nat): Hunk {
    var oldLen, newLen := |OldEdits(edits)|, |NewEdits(edits)|;
    Hunk(HunkHeader(RangeStart(o, oldLen), oldLen, RangeStart(n, newLen), newLen, ""), PrintEdits(edits))
  }

  function HunksOfSegments(segments: seq<Segment>, o: nat, n: nat): seq<Hunk>
    decreases |segments|
  {
    if segments == [] then []
    else match segments[0]
      case Skip(lines) => HunksOfSegments(segments[1..], o + |lines|, n + |lines|)
      case Block(edits) =>
        [BlockHunk(edits, o, n)] + HunksOfSegments(segments[1..], o + |OldEdits(edits)|, n + |NewEdits(edits)|)
  }

  /** A printed header reads back with the omitted length and the empty range's start resolved. */
  lemma {:induction false} BlockHeaderParses(o: nat, oldLen: nat, n: nat, newLen: nat)
    ensures ParseHunkHeader(BlockHeader(o, oldLen, n, newLen))
         == Some(HunkHeader(RangeStart(o, oldLen), oldLen, RangeStart(n, newLen), newLen, ""))
  {
    var h := HunkHeader(RangeStart(o, oldLen), oldLen, RangeStart(n, newLen), newLen, "");
    hide SpellRange, RangeStart;
    HunkHeaderRoundTrip(h, true, true);
    assert BlockHeader(o, oldLen, n, newLen) == SpellHeader(h, true, true);
  }

  lemma {:induction false} EditsCount(edits: seq<Edit>)
    ensures AllBody(PrintEdits(edits))
    ensures OldCount(PrintEdits(edits)) == |OldEdits(edits)| && NewCount(PrintEdits(edits)) == |NewEdits(edits)|
    ensures edits != [] ==> |OldEdits(edits)| + |NewEdits(edits)| > 0
  {
    if edits != [] {
      var lines := PrintEdits(edits);
      EditCounts(edits[0]);
      hide PrintEdit, OldWidth, NewWidth, IsBodyLine;
      EditsCount(edits[1..]);
      assert lines[0] == PrintEdit(edits[0]) && lines[1..] == PrintEdits(edits[1..]);
      AllBodyFirst(lines);
    }
  }

  lemma {:induction false} EditCounts(edit: Edit)
    ensures IsBodyLine(PrintEdit(edit))
    ensures OldWidth(PrintEdit(edit)) == (if edit.Insert? then 0 else 1)
    ensures NewWidth(PrintEdit(edit)) == (if edit.Delete? then 0 else 1)
  {
  }

  lemma {:induction false} AllBodyFirst(lines: seq<string>)
    requires lines != []
    ensures AllBody(lines) <==> IsBodyLine(lines[0]) && AllBody(lines[1..])
  {
    hide IsBodyLine;
    assert forall i :: 0 < i < |lines| ==> lines[i] == lines[1..][i - 1];
  }

  /** The lines stand in the file from index o on. */
  predicate Stands(lines: seq<string>, file: seq<string>, o: nat) {
    o <= |file| && lines <= file[o..]
  }

  lemma {:induction false} StandsPart(lines: seq<string>, file: seq<string>, o: nat, k: nat)
    requires Stands(lines, file, o) && k <= |lines|
    ensures o + |lines| <= |file| && file[o..o + |lines|] == lines
    ensures Stands(lines[k..], file, o + k)
    ensures lines != [] ==> file[o] == lines[0]
  {
    assert file[o..o + |lines|] == file[o..][..|lines|];
    assert file[o + k..] == file[o..][k..];
    if lines != [] {
      assert file[o..][0] == lines[0];
    }
  }

  lemma {:induction false} EditsFit(edits: seq<Edit>, before: seq<string>, head: seq<string>, o: nat, n: nat)
    requires Stands(OldEdits(edits), before, o) && Stands(NewEdits(edits), head, n)
    ensures BodyFits(PrintEdits(edits), before, head, o, n)
    decreases |edits|
  {
    if edits == [] {
      assert o <= |before| && n <= |head|;
    } else {
      hide Stands, Unmarked;
      var e, rest := edits[0], edits[1..];
      var w, v := if e.Insert? then 0 else 1, if e.Delete? then 0 else 1;
      assert PrintEdits(edits)[1..] == PrintEdits(rest);
      assert OldEdits(edits)[w..] == OldEdits(rest) && NewEdits(edits)[v..] == NewEdits(rest);
      StandsPart(OldEdits(edits), before, o, w);
      StandsPart(NewEdits(edits), head, n, v);
      EditsFit(rest, before, head, o + w, n + v);
    }
  }

  lemma {:induction false} SegmentsParse(segments: seq<Segment>, o: nat, n: nat)
    ensures ParseHunks(PrintSegments(segments, o, n)) == Parsed([], HunksOfSegments(segments, o, n))
    ensures AllBodies(HunksOfSegments(segments, o, n))
    decreases |segments|
  {
    hide ParseHunkHeader, BlockHeader, IsBodyLine, ParseHunks, PrintEdits, OldEdits, NewEdits, AllBody, BlockHunk, AllBodies;
    if segments != [] {
      match segments[0]
      case Skip(lines) => SegmentsParse(segments[1..], o + |lines|, n + |lines|);
      case Block(edits) =>
        var oldLen, newLen := |OldEdits(edits)|, |NewEdits(edits)|;
        SegmentsParse(segments[1..], o + oldLen, n + newLen);
        BlockParses(edits, o, n, PrintSegments(segments[1..], o + oldLen, n + newLen));
        AllBodiesCons(BlockHunk(edits, o, n), HunksOfSegments(segments[1..], o + oldLen, n + newLen));
    } else {
      NothingParses();
    }
  }

  lemma {:induction false} NothingParses()
    ensures ParseHunks([]) == Parsed([], []) && AllBodies([])
  {
  }

  lemma {:induction false} AllBodiesCons(h: Hunk, below: seq<Hunk>)
    requires AllBody(h.body) && AllBodies(below)
    ensures AllBodies([h] + below)
  {
    hide AllBody;
  }

  lemma {:induction false} BlockParses(edits: seq<Edit>, o: nat, n: nat, below: seq<string>)
    requires ParseHunks(below).preamble == []
    ensures ParseHunks([BlockHeader(o, |OldEdits(edits)|, n, |NewEdits(edits)|)] + PrintEdits(edits) + below)
         == Parsed([], [BlockHunk(edits, o, n)] + ParseHunks(below).hunks)
    ensures AllBody(BlockHunk(edits, o, n).body)
  {
    hide ParseHunkHeader, BlockHeader, IsBodyLine, PrintEdits, OldEdits, NewEdits, ParseHunks;
    BlockHeaderParses(o, |OldEdits(edits)|, n, |NewEdits(edits)|);
    EditsCount(edits);
    BodyHasNoHunkHeader(PrintEdits(edits));
    ParseHunk(BlockHeader(o, |OldEdits(edits)|, n, |NewEdits(edits)|), PrintEdits(edits), below);
  }

  lemma {:induction false} SegmentsSound(segments: seq<Segment>, o: nat, n: nat)
    requires forall i :: 0 <= i < |segments| && segments[i].Block? ==> segments[i].edits != []
    ensures AllSound(HunksOfSegments(segments, o, n))
    decreases |segments|
  {
    hide OldCount, NewCount, IsBodyLine;
    if segments != [] {
      match segments[0]
      case Skip(lines) => SegmentsSound(segments[1..], o + |lines|, n + |lines|);
      case Block(edits) =>
        EditsCount(edits);
        SegmentsSound(segments[1..], o + |OldEdits(edits)|, n + |NewEdits(edits)|);
    }
  }

  lemma {:induction false} AgreeSkipped(hs: seq<Hunk>, before: seq<string>, head: seq<string>, o: nat, n: nat, k: nat)
    requires Agree(before, head, o, n, k) && Turns(hs, before, head, o + k, n + k)
    ensures Turns(hs, before, head, o, n)
  {
    hide BodyFits;
  }

  /** An alignment's lines are those of its first segment and then those of the rest. */
  lemma {:induction false} FirstStands(first: seq<string>, rest: seq<string>, file: seq<string>, o: nat)
    requires o <= |file| && first + rest == file[o..]
    ensures Stands(first, file, o) && o + |first| <= |file| && file[o + |first|..] == rest
  {
    assert file[o + |first|..] == file[o..][|first|..];
  }

  /** The hunks of an alignment turn the one text's lines into the other's. */
  lemma {:induction false} SegmentsTurn(segments: seq<Segment>, before: seq<string>, head: seq<string>, o: nat, n: nat)
    requires o <= |before| && n <= |head| && OldOf(segments) == before[o..] && NewOf(segments) == head[n..]
    ensures Turns(HunksOfSegments(segments, o, n), before, head, o, n)
    decreases |segments|
  {
    hide Turns, BlockHunk, Agree, Stands, OldEdits, NewEdits, PrintEdits, BodyFits;
    if segments == [] {
      EndTurns(before, head, o, n);
    } else {
      var rest := segments[1..];
      match segments[0]
      case Skip(lines) =>
        var k := |lines|;
        FirstStands(lines, OldOf(rest), before, o);
        FirstStands(lines, NewOf(rest), head, n);
        SegmentsTurn(rest, before, head, o + k, n + k);
        StandsPart(lines, before, o, 0);
        StandsPart(lines, head, n, 0);
        AgreeIsSlice(before, head, o, n, k);
        AgreeSkipped(HunksOfSegments(rest, o + k, n + k), before, head, o, n, k);
      case Block(edits) =>
        FirstStands(OldEdits(edits), OldOf(rest), before, o);
        FirstStands(NewEdits(edits), NewOf(rest), head, n);
        EditsFit(edits, before, head, o, n);
        SegmentsTurn(rest, before, head, o + |OldEdits(edits)|, n + |NewEdits(edits)|);
        BlockTurns(edits, HunksOfSegments(rest, o + |OldEdits(edits)|, n + |NewEdits(edits)|), before, head, o, n);
    }
  }

  lemma {:induction false} EndTurns(before: seq<string>, head: seq<string>, o: nat, n: nat)
    requires o == |before| && n == |head|
    ensures Turns([], before, head, o, n)
  {
  }

  lemma {:induction false} BlockTurns(edits: seq<Edit>, below: seq<Hunk>, before: seq<string>, head: seq<string>, o: nat, n: nat)
    requires BodyFits(PrintEdits(edits), before, head, o, n)
    requires Turns(below, before, head, o + |OldEdits(edits)|, n + |NewEdits(edits)|)
    ensures Turns([BlockHunk(edits, o, n)] + below, before, head, o, n)
  {
    hide BodyFits, PrintEdits, OldEdits, NewEdits, Turns, AllBody, OldCount, NewCount;
    EditsCount(edits);
    FitsBoundsAt(PrintEdits(edits), before, head, o, n);
    TurnsAt(BlockHunk(edits, o, n), below, before, head, o, n);
  }

  /** A hunk that starts just where the files stand. */
  lemma {:induction false} TurnsAt(h: Hunk, below: seq<Hunk>, before: seq<string>, head: seq<string>, o: nat, n: nat)
    requires h.FirstOld() == o + 1 && h.FirstNew() == n + 1 && o <= |before| && n <= |head|
    requires BodyFits(h.body, before, head, o, n)
    requires Turns(below, before, head, o + OldCount(h.body), n + NewCount(h.body))
    ensures Turns([h] + below, before, head, o, n)
  {
    hide BodyFits, OldCount, NewCount;
    assert ([h] + below)[1..] == below;
  }

  lemma {:induction false} FitsBoundsAt(body: seq<string>, before: seq<string>, head: seq<string>, o: nat, n: nat)
    requires BodyFits(body, before, head, o, n)
    ensures o <= |before| && n <= |head|
  {
    FitsBounds(body, before, head, o, n);
  }

  /** Hunks that turn one file into another, each with true lengths, are in order and apart. */
  lemma {:induction false} TurnsChains(hs: seq<Hunk>, before: seq<string>, head: seq<string>, o: nat, n: nat)
    requires Turns(hs, before, head, o, n) && AllSound(hs)
    ensures Chained(hs)
    decreases |hs|
  {
    hide BodyFits, Agree;
    if |hs| > 1 {
      var h, rest := hs[0], hs[1..];
      SoundStarts(h);
      SoundStarts(rest[0]);
      TurnsChains(rest, before, head, h.FirstOld() - 1 + OldCount(h.body), h.FirstNew() - 1 + NewCount(h.body));
      assert Follows(h, rest[0]);
      forall i | 0 < i < |hs| ensures Follows(hs[i - 1], hs[i]) {
        if i > 1 {
          assert hs[i] == rest[i - 1] && hs[i - 1] == rest[i - 2];
        }
      }
    }
  }

  // ----- The lines above the hunks -----

  /** No control character, as has_unsafe_path_chars has the callers make sure. */
  predicate SafePath(path: string) {
    path != "" && forall i :: 0 <= i < |path| ==> ' ' <= path[i] && path[i] != '\U{7f}'
  }

  predicate SafePaths(oldPath: Option<string>, newPath: Option<string>) {
    && (oldPath.Some? || newPath.Some?)
    && (oldPath.Some? ==> SafePath(oldPath.value))
    && (newPath.Some? ==> SafePath(newPath.value))
  }

  predicate SafeMode(mode: Option<string>) {
    mode.Some? ==> NoNewline(mode.value)
  }

  /** A line that opens nothing: neither a section nor a hunk, and it names no side's path. */
  predicate Inert(line: string) {
    && NoNewline(line) && !IsFileHeader(line) && !IsMarked(line)
    && OldPath(line).None? && NewPath(line).None?
  }

  predicate IsMarked(line: string) {
    StartsWith(line, "@@")
  }

  lemma {:induction false} InertByStart(line: string)
    requires NoNewline(line) && line != "" && line[0] != '-' && line[0] != '+' && line[0] != '@'
    requires line[0] != 'd' || (|line| > 1 && line[1] != 'i')
    ensures Inert(line)
  {
    NotPrefix(line, "--- a/");
    NotPrefix(line, "+++ b/");
    NotPrefix(line, "@@");
    assert "diff --git "[0] == 'd' && "diff --git "[1] == 'i';
  }

  lemma {:induction false} SafeSingle(path: string)
    requires SafePath(path)
    ensures NoNewline(path) && '\t' !in path
  {
  }

  lemma {:induction false} NoTabToFind(path: string, from: nat)
    requires '\t' !in path && from <= |path|
    ensures FirstTab(path, from) == |path|
    decreases |path| - from
  {
    if from < |path| {
      assert path[from] in path;
      NoTabToFind(path, from + 1);
    }
  }

  lemma {:induction false} MetadataInert(oldPath: Option<string>, newPath: Option<string>, oldMode: Option<string>, newMode: Option<string>)
    requires SafePaths(oldPath, newPath) && SafeMode(oldMode) && SafeMode(newMode)
    ensures forall i :: 0 <= i < |Metadata(oldPath, newPath, oldMode, newMode)| ==> Inert(Metadata(oldPath, newPath, oldMode, newMode)[i])
  {
    hide Inert, SafePath;
    if oldPath.Some? { SafeSingle(oldPath.value); }
    if newPath.Some? { SafeSingle(newPath.value); }
    if oldPath.None? {
      InertByStart("new file mode " + ModeOf(newMode));
    } else if newPath.None? {
      InertByStart("deleted file mode " + ModeOf(oldMode));
    } else {
      if oldMode.Some? && newMode.Some? {
        InertByStart("old mode " + oldMode.value);
        InertByStart("new mode " + newMode.value);
      }
      InertByStart("rename from " + oldPath.value);
      InertByStart("rename to " + newPath.value);
    }
  }

  lemma {:induction false} LabelsRead(oldPath: Option<string>, newPath: Option<string>)
    requires SafePaths(oldPath, newPath)
    ensures OldPath(OldLabel(oldPath)) == oldPath && NewPath(OldLabel(oldPath)).None?
    ensures NewPath(NewLabel(newPath)) == newPath && OldPath(NewLabel(newPath)).None?
  {
    OldLabelReads(oldPath);
    NewLabelReads(newPath);
  }

  lemma {:induction false} OldLabelReads(path: Option<string>)
    requires path.Some? ==> SafePath(path.value)
    ensures OldPath(OldLabel(path)) == path && NewPath(OldLabel(path)).None?
  {
    hide FirstTab, SafePath;
    var line := OldLabel(path);
    assert line[0] == '-';
    NotPrefix(line, "+++ b/");
    if path.Some? {
      SafeSingle(path.value);
      assert path.value != "" by { SafeNotEmpty(path.value); }
      assert line == "--- a/" + path.value && line[6..] == path.value && line[..6] == "--- a/";
      NoTabToFind(path.value, 1);
      assert path.value[..|path.value|] == path.value;
    } else {
      assert line[4] == '/' && "--- a/"[4] == 'a';
    }
  }

  lemma {:induction false} NewLabelReads(path: Option<string>)
    requires path.Some? ==> SafePath(path.value)
    ensures NewPath(NewLabel(path)) == path && OldPath(NewLabel(path)).None?
  {
    hide FirstTab, SafePath;
    var line := NewLabel(path);
    assert line[0] == '+';
    NotPrefix(line, "--- a/");
    if path.Some? {
      SafeSingle(path.value);
      assert path.value != "" by { SafeNotEmpty(path.value); }
      assert line == "+++ b/" + path.value && line[6..] == path.value && line[..6] == "+++ b/";
      NoTabToFind(path.value, 1);
      assert path.value[..|path.value|] == path.value;
    } else {
      assert line[4] == '/' && "+++ b/"[4] == 'b';
    }
  }

  lemma {:induction false} SafeNotEmpty(path: string)
    requires SafePath(path)
    ensures path != ""
  {
  }

  /** Everything above the hunks, as the walk and split_by_file need it. */
  predicate GoodAbove(lines: seq<string>, oldPath: Option<string>, newPath: Option<string>) {
    && |lines| >= 3 && AllSingle(lines)
    && IsFileHeader(lines[0]) && OldPath(lines[0]).None? && NewPath(lines[0]).None?
    && (forall i :: 0 < i < |lines| - 2 ==> Inert(lines[i]))
    && lines[|lines| - 2] == OldLabel(oldPath) && lines[|lines| - 1] == NewLabel(newPath)
  }

  lemma {:induction false} LabelsSingle(oldPath: Option<string>, newPath: Option<string>)
    requires SafePaths(oldPath, newPath)
    ensures NoNewline(OldLabel(oldPath)) && NoNewline(NewLabel(newPath))
    ensures !IsFileHeader(OldLabel(oldPath)) && !IsFileHeader(NewLabel(newPath))
    ensures !IsMarked(OldLabel(oldPath)) && !IsMarked(NewLabel(newPath))
  {
    hide SafePath;
    if oldPath.Some? { SafeSingle(oldPath.value); }
    if newPath.Some? { SafeSingle(newPath.value); }
    var older, newer := OldLabel(oldPath), NewLabel(newPath);
    assert older[0] == '-' && newer[0] == '+';
    NotPrefix(older, "diff --git ");
    NotPrefix(newer, "diff --git ");
    NotPrefix(older, "@@");
    NotPrefix(newer, "@@");
  }

  lemma {:induction false} AboveIsGood(oldPath: Option<string>, newPath: Option<string>, oldMode: Option<string>, newMode: Option<string>)
    requires SafePaths(oldPath, newPath) && SafeMode(oldMode) && SafeMode(newMode)
    ensures GoodAbove(Above(oldPath, newPath, oldMode, newMode), oldPath, newPath)
  {
    var older, newer := oldPath.GetOr(newPath.GetOr("")), newPath.GetOr(oldPath.GetOr(""));
    var first := "diff --git a/" + older + " b/" + newer;
    hide Inert, SafePath, OldPath, NewPath, IsFileHeader, OldLabel, NewLabel, Metadata, IsMarked;
    var meta := Metadata(oldPath, newPath, oldMode, newMode);
    SafeSingle(older);
    SafeSingle(newer);
    SafeNotEmpty(older);
    FirstLineOpens(older, newer);
    HeaderLineNamesNoSide(first);
    MetadataInert(oldPath, newPath, oldMode, newMode);
    InertSingle(meta);
    LabelsSingle(oldPath, newPath);
    assert NoNewline(first);
    AssembledAbove(first, meta, OldLabel(oldPath), NewLabel(newPath));
  }

  lemma {:induction false} AssembledAbove(first: string, meta: seq<string>, older: string, newer: string)
    requires NoNewline(first) && NoNewline(older) && NoNewline(newer) && forall i :: 0 <= i < |meta| ==> Inert(meta[i]) && NoNewline(meta[i])
    ensures var lines := ([first] + meta) + [older, newer];
      && |lines| == |meta| + 3 && lines[0] == first && lines[|lines| - 2] == older && lines[|lines| - 1] == newer
      && AllSingle(lines) && forall i :: 0 < i < |lines| - 2 ==> Inert(lines[i])
  {
    hide Inert;
  }

  lemma {:induction false} InertSingle(lines: seq<string>)
    requires forall i :: 0 <= i < |lines| ==> Inert(lines[i])
    ensures forall i :: 0 <= i < |lines| ==> NoNewline(lines[i])
  {
  }

  lemma {:induction false} FirstLineOpens(older: string, newer: string)
    requires older != ""
    ensures IsFileHeader("diff --git a/" + older + " b/" + newer)
  {
    var line := "diff --git a/" + older + " b/" + newer;
    assert line[..11] == "diff --git ";
  }

  /** The path a patch is posted under: the new one, or the old one of a deleted file. */
  function Named(oldPath: Option<string>, newPath: Option<string>): Option<string> {
    if newPath.Some? then newPath else oldPath
  }

  predicate NoRename(lines: seq<string>) {
    forall i :: 0 <= i < |lines| ==> RenameTo(lines[i]).None?
  }

  lemma {:induction false} DeletedRenamesNothing(oldPath: Option<string>, oldMode: Option<string>, newMode: Option<string>)
    requires oldPath.Some?
    ensures NoRename(Above(oldPath, None, oldMode, newMode))
  {
    var lines := Above(oldPath, None, oldMode, newMode);
    assert |lines| == 4;
    assert lines[0][0] == 'd' && lines[1][0] == 'd' && lines[2][0] == '-' && lines[3][0] == '+';
    NotPrefix(lines[0], "rename to ");
    NotPrefix(lines[1], "rename to ");
    NotPrefix(lines[2], "rename to ");
    NotPrefix(lines[3], "rename to ");
  }

  lemma {:induction false} NoMarkNoHunkHeader(line: string)
    requires !IsMarked(line)
    ensures !IsHunkHeader(line)
  {
    if IsHunkHeader(line) {
      HunkHeaderMark(line);
    }
  }

  /** Line by line: no hunk, one file header, and the two labels are the only path lines. */
  lemma {:induction false} GoodAboveLine(lines: seq<string>, oldPath: Option<string>, newPath: Option<string>, i: nat)
    requires GoodAbove(lines, oldPath, newPath) && SafePaths(oldPath, newPath) && i < |lines|
    ensures !StartsWith(lines[i], "@@") && !IsHunkHeader(lines[i]) && (i > 0 ==> !IsFileHeader(lines[i]))
    ensures OldPath(lines[i]) == if i == |lines| - 2 then oldPath else None
    ensures NewPath(lines[i]) == if i == |lines| - 1 then newPath else None
  {
    hide OldPath, NewPath, IsFileHeader, ParseHunkHeader, OldLabel, NewLabel, SafePath, StartsWith, NoNewline;
    LabelsRead(oldPath, newPath);
    LabelsSingle(oldPath, newPath);
    FileHeaderIsNoHunk(lines[0]);
    NoMarkNoHunkHeader(lines[i]);
  }

  /** The two labels, and they alone, name a side's path. */
  predicate LabelsLast(lines: seq<string>, oldPath: Option<string>, newPath: Option<string>) {
    && |lines| >= 3
    && (forall i :: 0 <= i < |lines| ==> OldPath(lines[i]) == if i == |lines| - 2 then oldPath else None)
    && (forall i :: 0 <= i < |lines| ==> NewPath(lines[i]) == if i == |lines| - 1 then newPath else None)
  }

  lemma {:induction false} LabelsMatch(lines: seq<string>, oldPath: Option<string>, newPath: Option<string>)
    requires LabelsLast(lines, oldPath, newPath)
    ensures FirstMatch(lines, NewPath) == newPath && FirstMatch(lines, OldPath) == oldPath && PathLinesOrdered(lines)
  {
    hide OldPath, NewPath;
    var k := |lines| - 2;
    assert lines == lines[..k] + [lines[k], lines[k + 1]];
    FirstMatchConcat(lines[..k], [lines[k], lines[k + 1]], NewPath);
    FirstMatchConcat(lines[..k], [lines[k], lines[k + 1]], OldPath);
    FirstMatchNone(lines[..k], NewPath);
    FirstMatchNone(lines[..k], OldPath);
    LastTwo(lines[k], lines[k + 1]);
  }

  lemma {:induction false} LabelsBind(lines: seq<string>, oldPath: Option<string>, newPath: Option<string>)
    requires LabelsLast(lines, oldPath, newPath) && NoHunkHeader(lines) && NoFileHeaderBelow(lines)
    requires IsFileHeader(lines[0]) && (oldPath.Some? || newPath.Some?)
    ensures After(lines, START).file == Named(oldPath, newPath)
  {
    LabelsMatch(lines, oldPath, newPath);
    HeaderStarts(lines[0]);
    OrderedLastPath(lines);
    hide OldPath, NewPath, IsFileHeader, ParseHunkHeader, Step, PathLinesOrdered, FirstMatch;
    LastPathBelow(lines);
    AfterPathLines(lines[1..], Step(START, lines[0]));
  }

  lemma {:induction false} GoodAboveLines(lines: seq<string>, oldPath: Option<string>, newPath: Option<string>)
    requires GoodAbove(lines, oldPath, newPath) && SafePaths(oldPath, newPath)
    ensures NoHunkHeader(lines) && NoHunkMark(lines) && NoFileHeaderBelow(lines) && PathLinesOrdered(lines)
    ensures FirstMatch(lines, NewPath) == newPath && FirstMatch(lines, OldPath) == oldPath
    ensures After(lines, START).file == Named(oldPath, newPath)
  {
    assert |lines| >= 3 && IsFileHeader(lines[0]);
    hide OldPath, NewPath, IsFileHeader, ParseHunkHeader, StartsWith, GoodAbove, SafePath, PathLinesOrdered, FirstMatch, After;
    forall i | 0 <= i < |lines|
      ensures !StartsWith(lines[i], "@@") && !IsHunkHeader(lines[i]) && (i > 0 ==> !IsFileHeader(lines[i]))
      ensures OldPath(lines[i]) == if i == |lines| - 2 then oldPath else None
      ensures NewPath(lines[i]) == if i == |lines| - 1 then newPath else None
    {
      GoodAboveLine(lines, oldPath, newPath, i);
    }
    LabelsMatch(lines, oldPath, newPath);
    LabelsBind(lines, oldPath, newPath);
  }

  lemma {:induction false} LastPathBelow(lines: seq<string>)
    requires |lines| >= 2 && OldPath(lines[0]).None? && NewPath(lines[0]).None?
    ensures LastPath(lines) == LastPath(lines[1..])
  {
    hide OldPath, NewPath;
  }

  lemma {:induction false} HeaderStarts(line: string)
    requires IsFileHeader(line)
    ensures !Step(START, line).inHunk
  {
  }

  lemma {:induction false} LastTwo(older: string, newer: string)
    requires OldPath(newer).None? && NewPath(older).None?
    ensures FirstMatch([older, newer], NewPath) == NewPath(newer)
    ensures FirstMatch([older, newer], OldPath) == OldPath(older)
  {
    assert [older, newer][1..] == [newer] && [newer][1..] == [];
    hide OldPath, NewPath;
    assert FirstMatch([newer], NewPath) == NewPath(newer);
    assert FirstMatch([newer], OldPath) == None;
  }

  /** Hunks below a good header make a well-formed patch, bound to the same path by both readers. */
  lemma {:induction false} AboveHunks(above: seq<string>, below: seq<string>, hs: seq<Hunk>, oldPath: Option<string>, newPath: Option<string>)
    requires GoodAbove(above, oldPath, newPath) && SafePaths(oldPath, newPath)
    requires ParseHunks(below) == Parsed([], hs) && hs != [] && Chained(hs)
    requires newPath.None? ==> OnlyDeletes(hs) && NoRename(above)
    ensures ParseHunks(above + below) == Parsed(above, hs)
    ensures WellFormedPatch(above + below) && HeaderNamed(above + below)
    ensures PathOf(above + below) == FoundPath(above + below) == Named(oldPath, newPath)
  {
    hide OldPath, NewPath, RenameTo, FallbackPath, IsFileHeader, ParseHunkHeader, OldLabel, NewLabel, Inert, SafePath, Chained, Step, StartsWith;
    GoodAboveLines(above, oldPath, newPath);
    ParseAppend(above, below);
    var lines := above + below;
    assert above + [] == above;
    assert lines[0] == above[0];
    FirstMatchConcat(above, below, NewPath);
    FirstMatchConcat(above, below, RenameTo);
    FirstMatchConcat(above, below, OldPath);
    if newPath.None? {
      FirstMatchNone(above, RenameTo);
      NothingNewInHunks(below);
    }
    assert FoundPath(lines).Some?;
    ChainedIsSound(hs);
    assert WellFormedPatch(lines);
    ReadersAgree(lines);
  }

  // ----- A header with nothing below it -----

  /** " b/" and something after it, at i. */
  predicate SideAt(s: string, i: nat) {
    i <= |s| && StartsWith(s[i..], " b/") && |s| > i + 3
  }

  predicate HoldsSide(s: string) {
    exists i :: 0 <= i < |s| && SideAt(s, i)
  }

  /** The last side before k is the one that is read. */
  lemma {:induction false} LastSide(s: string, k: nat, j: nat)
    requires 1 <= j <= k <= |s| && SideAt(s, j) && forall i :: j < i <= k ==> !SideAt(s, i)
    ensures AfterLastB(s, k) == Some(s[j + 3..])
    decreases k
  {
    if k > j {
      assert !SideAt(s, k);
      LastSide(s, k - 1, j);
    }
  }

  /** A side further on leaves less to read. */
  lemma {:induction false} LaterSide(s: string, k: nat, i: nat)
    requires 1 <= i <= k <= |s| && SideAt(s, i)
    ensures AfterLastB(s, k).Some? && |AfterLastB(s, k).value| <= |s| - i - 3
    decreases k
  {
    if k > i && !SideAt(s, k) {
      LaterSide(s, k - 1, i);
    }
  }

  /** The "diff --git" line names its second path, unless that path looks like a side itself. */
  lemma {:induction false} FallbackReads(older: string, newer: string)
    requires older != "" && newer != ""
    ensures FallbackPath("diff --git a/" + older + " b/" + newer) == Some(newer) <==> !HoldsSide(newer)
  {
    var line := "diff --git a/" + older + " b/" + newer;
    var s := older + (" b/" + newer);
    assert line == "diff --git a/" + s && line[13..] == s && line[..13] == "diff --git a/";
    var at := |older| + 3;
    assert s[at..] == newer && s[|older|..] == " b/" + newer && s[|older|..][..3] == " b/";
    assert SideAt(s, |older|);
    SidesAfter(older, newer);
    hide AfterLastB, SideAt;
    if HoldsSide(newer) {
      var i :| 0 <= i < |newer| && SideAt(newer, i);
      LaterSide(s, |s|, at + i);
    } else {
      LastSide(s, |s|, |older|);
    }
  }

  lemma {:induction false} SidesAfter(older: string, newer: string)
    ensures var s, at := older + (" b/" + newer), |older| + 3;
      && (forall i :: 0 <= i < |newer| ==> (SideAt(newer, i) <==> SideAt(s, at + i)))
      && (forall i :: |older| < i <= |s| && SideAt(s, i) ==> i >= at && SideAt(newer, i - at))
  {
    var s, at := older + (" b/" + newer), |older| + 3;
    assert s[|older| + 1] == 'b' && s[|older| + 2] == '/';
    forall i | 0 <= i <= |newer| ensures s[at + i..] == newer[i..] {
    }
    forall i | |older| < i <= |s| && SideAt(s, i) ensures i >= at && SideAt(newer, i - at) {
      assert s[i..][0] == s[i] == ' ';
      if i >= at {
        assert s[at + (i - at)..] == newer[i - at..];
      }
    }
  }

  lemma {:induction false} RenameIsRead(path: string)
    requires path != ""
    ensures RenameTo("rename to " + path) == Some(path)
  {
    assert ("rename to " + path)[..10] == "rename to " && ("rename to " + path)[10..] == path;
  }

  lemma {:induction false} NoRenameByStart(line: string)
    requires line != "" && line[0] != 'r'
    ensures RenameTo(line).None?
  {
    NotPrefix(line, "rename to ");
  }

  lemma {:induction false} RenameFromIsNone(path: string)
    ensures RenameTo("rename from " + path).None?
  {
    assert ("rename from " + path)[7] == 'f' && "rename to "[7] == 't';
  }

  predicate Renames(oldPath: Option<string>, newPath: Option<string>) {
    oldPath.Some? && newPath.Some? && oldPath != newPath
  }

  lemma {:induction false} MetadataRenames(oldPath: Option<string>, newPath: Option<string>, oldMode: Option<string>, newMode: Option<string>)
    requires oldPath.Some? || newPath.Some?
    requires newPath.Some? ==> newPath.value != ""
    ensures FirstMatch(Metadata(oldPath, newPath, oldMode, newMode), RenameTo) == if Renames(oldPath, newPath) then newPath else None
  {
    hide RenameTo;
    var meta := Metadata(oldPath, newPath, oldMode, newMode);
    if Renames(oldPath, newPath) {
      var pair := ["rename from " + oldPath.value, "rename to " + newPath.value];
      var modes := meta[..|meta| - 2];
      assert meta == modes + pair;
      forall i | 0 <= i < |modes| ensures RenameTo(modes[i]).None? {
        NoRenameByStart(modes[i]);
      }
      FirstMatchNone(modes, RenameTo);
      FirstMatchConcat(modes, pair, RenameTo);
      RenameFromIsNone(oldPath.value);
      RenameIsRead(newPath.value);
      assert pair[1..] == ["rename to " + newPath.value];
    } else {
      forall i | 0 <= i < |meta| ensures RenameTo(meta[i]).None? {
        NoRenameByStart(meta[i]);
      }
      FirstMatchNone(meta, RenameTo);
    }
  }

  /** A header with no hunks below it, as a rename or a change of mode is printed, is split off under the
      change's path exactly when it is a rename, or no " b/" in the path can pass for a side of it. */
  lemma {:induction false} HeaderAloneIsNamed(oldPath: Option<string>, newPath: Option<string>, oldMode: Option<string>, newMode: Option<string>)
    requires SafePaths(oldPath, newPath) && SafeMode(oldMode) && SafeMode(newMode)
    ensures FoundPath(Header(oldPath, newPath, oldMode, newMode)) == Named(oldPath, newPath)
       <==> Renames(oldPath, newPath) || !HoldsSide(Named(oldPath, newPath).value)
  {
    hide SafePath, OldPath, NewPath, RenameTo, FallbackPath, Inert, Metadata, IsFileHeader, HoldsSide, FirstMatch;
    var older, newer := oldPath.GetOr(newPath.GetOr("")), newPath.GetOr(oldPath.GetOr(""));
    var first, meta := "diff --git a/" + older + " b/" + newer, Metadata(oldPath, newPath, oldMode, newMode);
    SafeNotEmpty(older);
    SafeNotEmpty(newer);
    FirstLineOpens(older, newer);
    HeaderLineNamesNoSide(first);
    MetadataInert(oldPath, newPath, oldMode, newMode);
    MetadataRenames(oldPath, newPath, oldMode, newMode);
    assert first[0] == 'd';
    NoRenameByStart(first);
    FallbackReads(older, newer);
    forall i | 0 <= i < |meta| ensures FallbackPath(meta[i]).None? {
      InertNamesNothing(meta[i]);
    }
    HeaderMatches(first, meta);
  }

  lemma {:induction false} InertNamesNothing(line: string)
    requires Inert(line)
    ensures FallbackPath(line).None?
  {
  }

  lemma {:induction false} HeaderMatches(first: string, meta: seq<string>)
    requires OldPath(first).None? && NewPath(first).None? && RenameTo(first).None? && forall i :: 0 <= i < |meta| ==> Inert(meta[i])
    requires forall i :: 0 <= i < |meta| ==> FallbackPath(meta[i]).None?
    ensures FoundPath([first] + meta) == if FirstMatch(meta, RenameTo).Some? then FirstMatch(meta, RenameTo) else FallbackPath(first)
  {
    hide OldPath, NewPath, RenameTo, FallbackPath;
    var lines := [first] + meta;
    assert lines[1..] == meta;
    assert forall i :: 0 <= i < |meta| ==> OldPath(meta[i]).None? && NewPath(meta[i]).None?;
    FirstMatchNone(meta, OldPath);
    FirstMatchNone(meta, NewPath);
    FirstMatchNone(meta, FallbackPath);
  }

  // ----- The round trip -----

  lemma {:induction false} EditsSingle(edits: seq<Edit>)
    requires AllSingle(OldEdits(edits)) && AllSingle(NewEdits(edits))
    ensures AllSingle(PrintEdits(edits))
  {
    if edits != [] {
      var e, rest := edits[0], edits[1..];
      assert e.Insert? ==> OldEdits(rest) == OldEdits(edits);
      assert !e.Insert? ==> OldEdits(rest) == OldEdits(edits)[1..] && OldEdits(edits)[0] == e.line;
      assert e.Delete? ==> NewEdits(rest) == NewEdits(edits);
      assert !e.Delete? ==> NewEdits(rest) == NewEdits(edits)[1..] && NewEdits(edits)[0] == e.line;
      EditsSingle(rest);
    }
  }

  lemma {:induction false} BlockHeaderSingle(o: nat, oldLen: nat, n: nat, newLen: nat)
    ensures NoNewline(BlockHeader(o, oldLen, n, newLen))
  {
    hide Decimal;
    RangeSingle(o, oldLen);
    RangeSingle(n, newLen);
  }

  lemma {:induction false} RangeSingle(before: nat, length: nat)
    ensures NoNewline(Range(before, length))
  {
    DecimalSingle(before);
    DecimalSingle(before + 1);
    DecimalSingle(length);
  }

  lemma {:induction false} ConcatParts(a: seq<string>, b: seq<string>)
    requires AllSingle(a + b)
    ensures AllSingle(a) && AllSingle(b)
  {
    forall i | 0 <= i < |a| ensures NoNewline(a[i]) { assert (a + b)[i] == a[i]; }
    forall i | 0 <= i < |b| ensures NoNewline(b[i]) { assert (a + b)[|a| + i] == b[i]; }
  }

  lemma {:induction false} SegmentsSingle(segments: seq<Segment>, o: nat, n: nat)
    requires AllSingle(OldOf(segments)) && AllSingle(NewOf(segments))
    ensures AllSingle(PrintSegments(segments, o, n))
    decreases |segments|
  {
    hide BlockHeader;
    if segments != [] {
      match segments[0]
      case Skip(lines) =>
        ConcatParts(lines, OldOf(segments[1..]));
        ConcatParts(lines, NewOf(segments[1..]));
        SegmentsSingle(segments[1..], o + |lines|, n + |lines|);
      case Block(edits) =>
        ConcatParts(OldEdits(edits), OldOf(segments[1..]));
        ConcatParts(NewEdits(edits), NewOf(segments[1..]));
        EditsSingle(edits);
        BlockHeaderSingle(o, |OldEdits(edits)|, n, |NewEdits(edits)|);
        SegmentsSingle(segments[1..], o + |OldEdits(edits)|, n + |NewEdits(edits)|);
    }
  }

  /** Nothing new is shown of a file that has no new lines. */
  lemma {:induction false} NothingNewNothingAdded(segments: seq<Segment>, o: nat, n: nat)
    requires NewOf(segments) == []
    ensures OnlyDeletes(HunksOfSegments(segments, o, n))
    decreases |segments|
  {
    if segments != [] {
      match segments[0]
      case Skip(lines) => NothingNewNothingAdded(segments[1..], o + |lines|, n + |lines|);
      case Block(edits) =>
        assert NewEdits(edits) == [];
        NothingNewNothingAdded(segments[1..], o + |OldEdits(edits)|, n + |NewEdits(edits)|);
    }
  }

  lemma {:induction false} NoHunksNoLines(segments: seq<Segment>, o: nat, n: nat)
    ensures PrintSegments(segments, o, n) == [] <==> HunksOfSegments(segments, o, n) == []
    decreases |segments|
  {
    if segments != [] && segments[0].Skip? {
      NoHunksNoLines(segments[1..], o + |segments[0].lines|, n + |segments[0].lines|);
    }
  }

  /** The hunks printed for any alignment of two line lists apply to the first and give the second. */
  lemma {:induction false} AlignmentApplies(segments: seq<Segment>, before: seq<string>, head: seq<string>)
    requires Aligns(segments, before, head)
    ensures var hs := HunksOfSegments(segments, 0, 0); Chained(hs) && Apply(hs, before) == Some(head)
  {
    assert before[0..] == before && head[0..] == head;
    SegmentsTurn(segments, before, head, 0, 0);
    SegmentsSound(segments, 0, 0);
    TurnsChains(HunksOfSegments(segments, 0, 0), before, head, 0, 0);
    ApplyMeansTurns(HunksOfSegments(segments, 0, 0), before, head);
  }

  lemma {:induction false} HeaderOnlyParses(oldPath: Option<string>, newPath: Option<string>)
    requires SafePaths(oldPath, newPath)
    ensures var header := Header(oldPath, newPath, None, None);
      && AllSingle(header) && header != []
      && NoHunkHeader(header) && NoHunkHeader(header[..1] + ["similarity index 100%"] + header[1..])
      && AllSingle(header[..1] + ["similarity index 100%"] + header[1..])
  {
    var header := Header(oldPath, newPath, None, None);
    var above := Above(oldPath, newPath, None, None);
    assert above == header + [OldLabel(oldPath), NewLabel(newPath)] && header != [];
    hide Header, Above, OldLabel, NewLabel, IsHunkHeader, SafePaths, GoodAbove, After;
    AboveIsGood(oldPath, newPath, None, None);
    GoodAboveLines(above, oldPath, newPath);
    GoodAboveSingle(above, oldPath, newPath);
    ConcatParts(header, [OldLabel(oldPath), NewLabel(newPath)]);
    forall i | 0 <= i < |header| ensures !IsHunkHeader(header[i]) { assert above[i] == header[i]; }
    SimilarityOpensNothing();
    InsertedLine(header, "similarity index 100%");
  }

  lemma {:induction false} SimilarityOpensNothing()
    ensures NoNewline("similarity index 100%") && !IsHunkHeader("similarity index 100%")
  {
    NotPrefix("similarity index 100%", "@@");
    NoMarkNoHunkHeader("similarity index 100%");
  }

  lemma {:induction false} InsertedLine(lines: seq<string>, line: string)
    requires AllSingle(lines) && NoHunkHeader(lines) && NoNewline(line) && !IsHunkHeader(line) && lines != []
    ensures AllSingle(lines[..1] + [line] + lines[1..]) && NoHunkHeader(lines[..1] + [line] + lines[1..])
  {
    hide IsHunkHeader;
  }

  lemma {:induction false} GoodAboveSingle(lines: seq<string>, oldPath: Option<string>, newPath: Option<string>)
    requires GoodAbove(lines, oldPath, newPath)
    ensures AllSingle(lines)
  {
  }

  /** A patch printed from two texts, whatever alignment difflib chose and whatever the lines look
      like, is read back as a patch that turns the one text's lines into the other's; when it has
      hunks it is well formed and both readers bind it to the change's path. */
  lemma {:induction false} FilePatchRoundTrip(oldPath: Option<string>, newPath: Option<string>, oldText: string, newText: string, segments: seq<Segment>)
    requires SafePaths(oldPath, newPath) && (newPath.None? ==> newText == "")
    requires Aligns(segments, FileLines(oldText), FileLines(newText))
    ensures var lines := Lines(FilePatch(oldPath, newPath, segments));
      && Apply(ParseHunks(lines).hunks, FileLines(oldText)) == Some(FileLines(newText))
      && (ParseHunks(lines).hunks != [] ==>
            WellFormedPatch(lines) && HeaderNamed(lines) && PathOf(lines) == FoundPath(lines) == Named(oldPath, newPath))
  {
    assert oldPath.Some? || newPath.Some?;
    hide Apply, Chained, OldOf, NewOf, Above, Header, SafePaths, GoodAbove, WellFormedPatch, HeaderNamed, PathOf, FoundPath,
      HunksOfSegments, PrintSegments, OnlyDeletes, IsHunkHeader, ParseHunks;
    var below, hs := PrintSegments(segments, 0, 0), HunksOfSegments(segments, 0, 0);
    AlignmentApplies(segments, FileLines(oldText), FileLines(newText));
    SegmentsParse(segments, 0, 0);
    NoHunksNoLines(segments, 0, 0);
    if below == [] {
      HeaderOnlyParses(oldPath, newPath);
      var header := Header(oldPath, newPath, None, None);
      var named := header[..1] + ["similarity index 100%"] + header[1..];
      HeaderAlone(header);
      HeaderAlone(named);
    } else {
      var above := Above(oldPath, newPath, None, None);
      AboveIsGood(oldPath, newPath, None, None);
      GoodAboveSingle(above, oldPath, newPath);
      SegmentsSingle(segments, 0, 0);
      LinesOfUnlines(above + below, true);
      if newPath.None? {
        NothingNewNothingAdded(segments, 0, 0);
        DeletedHasOld(oldPath, newPath);
        DeletedRenamesNothing(oldPath, None, None);
      }
      AboveHunks(above, below, hs, oldPath, newPath);
    }
  }

  lemma {:induction false} DeletedHasOld(oldPath: Option<string>, newPath: Option<string>)
    requires SafePaths(oldPath, newPath) && newPath.None?
    ensures oldPath.Some?
  {
  }

  lemma {:induction false} HeaderAlone(header: seq<string>)
    requires header != [] && AllSingle(header) && NoHunkHeader(header)
    ensures Lines(Unlines(header, true)) == header && ParseHunks(header).hunks == []
  {
    LinesOfUnlines(header, true);
    ParseAppend(header, []);
    assert header + [] == header;
  }

  /** Hunks a host served readymade keep their lines, and get the change's path. */
  lemma {:induction false} ReadymadeHunksWalk(oldPath: Option<string>, newPath: Option<string>, oldMode: Option<string>, newMode: Option<string>, hunks: string)
    requires SafePaths(oldPath, newPath) && SafeMode(oldMode) && SafeMode(newMode)
    requires var p := ParseHunks(Lines(hunks)); p.preamble == [] && p.hunks != [] && Chained(p.hunks)
    requires newPath.None? ==> OnlyDeletes(ParseHunks(Lines(hunks)).hunks)
    ensures var patch := PatchFromHunks(oldPath, newPath, oldMode, newMode, hunks);
      && WellFormedPatch(Lines(patch)) && HeaderNamed(Lines(patch))
      && Entries(patch) == HunksEntries(Named(oldPath, newPath).GetOr(""), ParseHunks(Lines(hunks)).hunks)
  {
    assert oldPath.Some? || newPath.Some?;
    hide Chained, Above, SafePaths, GoodAbove, WellFormedPatch, HeaderNamed, PathOf, FoundPath, OnlyDeletes, IsHunkHeader, Walk, Walkable, ParseHunks;
    var above, below := Above(oldPath, newPath, oldMode, newMode), Lines(hunks);
    ReadymadeLines(oldPath, newPath, oldMode, newMode, hunks);
    AboveIsGood(oldPath, newPath, oldMode, newMode);
    if newPath.None? {
      DeletedHasOld(oldPath, newPath);
      DeletedRenamesNothing(oldPath, oldMode, newMode);
    }
    AboveHunks(above, below, ParseHunks(below).hunks, oldPath, newPath);
    WellFormedIsWalkable(above + below);
    SectionWalk(above + below, START);
  }

  lemma {:induction false} ReadymadeLines(oldPath: Option<string>, newPath: Option<string>, oldMode: Option<string>, newMode: Option<string>, hunks: string)
    requires SafePaths(oldPath, newPath) && SafeMode(oldMode) && SafeMode(newMode) && ParseHunks(Lines(hunks)).hunks != []
    ensures Lines(PatchFromHunks(oldPath, newPath, oldMode, newMode, hunks)) == Above(oldPath, newPath, oldMode, newMode) + Lines(hunks)
  {
    assert oldPath.Some? || newPath.Some?;
    hide Above, SafePaths, GoodAbove, ParseHunks, Lines;
    EmptyTextHasNoHunk();
    var above, below := Above(oldPath, newPath, oldMode, newMode), Lines(hunks);
    AboveIsGood(oldPath, newPath, oldMode, newMode);
    GoodAboveSingle(above, oldPath, newPath);
    AboveNotEmpty(above, oldPath, newPath);
    TextBelow(above, hunks);
    LinesOfUnlines(above + below, true);
  }

  lemma {:induction false} TextBelow(above: seq<string>, text: string)
    requires above != []
    ensures Unlines(above, true) + text + (if EndsWithNewline(text) then "" else "\n") == Unlines(above + Lines(text), true)
  {
    LinesOfText(text);
    JoinAppend(above, Lines(text));
    hide Lines, EndsWithNewline, Join;
    var a, b := Join(above), Join(Lines(text));
    if EndsWithNewline(text) {
      assert (a + [NEWLINE]) + (b + [NEWLINE]) + "" == (a + [NEWLINE] + b) + [NEWLINE];
    } else {
      assert text == b + "" == b;
    }
  }

  lemma {:induction false} EmptyTextHasNoHunk()
    ensures ParseHunks(Lines("")).hunks == []
  {
    assert Lines("") == [""];
    NotPrefix("", "@@ -");
    assert ParseHunkHeader("").None?;
    assert [""][1..] == [];
  }

  lemma {:induction false} AboveNotEmpty(lines: seq<string>, oldPath: Option<string>, newPath: Option<string>)
    requires GoodAbove(lines, oldPath, newPath)
    ensures lines != []
  {
  }
}
