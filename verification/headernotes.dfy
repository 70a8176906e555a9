/** core/diffbuild.py: what the lines above a printed patch's hunks tell of the change. */
module HeaderNotes {
  import opened Text
  import opened DiffParse
  import opened Geometry
  import opened Sections
  import opened HunkLookup
  import opened DiffBuild

  /** What a line below the "diff --git" line can tell. */
  datatype Note =
    | Created(mode: string)
    | Removed(mode: string)
    | ModeWas(mode: string)
    | ModeIs(mode: string)
    | MovedFrom(path: string)
    | MovedTo(path: string)
    | Unchanged

  function Spell(note: Note): string {
    match note
    case Created(mode) => "new file mode " + mode
    case Removed(mode) => "deleted file mode " + mode
    case ModeWas(mode) => "old mode " + mode
    case ModeIs(mode) => "new mode " + mode
    case MovedFrom(path) => "rename from " + path
    case MovedTo(path) => "rename to " + path
    case Unchanged => "similarity index 100%"
  }

  /** A change as a host names it; alone, when no hunk was printed for it. */
  datatype Changed = Changed(oldPath: Option<string>, newPath: Option<string>, oldMode: Option<string>, newMode: Option<string>) {
    predicate Named() {
      oldPath.Some? || newPath.Some?
    }

    /** Both sides have a mode, and not the same one. */
    predicate Switches() {
      oldPath.Some? && newPath.Some? && oldMode != newMode && oldMode.Some? && newMode.Some? && oldMode.value != "" && newMode.value != ""
    }

    predicate Moves() {
      oldPath.Some? && newPath.Some? && oldPath != newPath
    }
  }

  /** The mode of a file that is on one side only: the one named, else that of a plain file. */
  predicate IsMode(mode: Option<string>, m: string) {
    (mode == Some(m) && m != "") || ((mode.None? || mode == Some("")) && m == "100644")
  }

  predicate Holds(note: Note, c: Changed) {
    match note
    case Created(mode) => c.oldPath.None? && IsMode(c.newMode, mode)
    case Removed(mode) => c.oldPath.Some? && c.newPath.None? && IsMode(c.oldMode, mode)
    case ModeWas(mode) => c.Switches() && c.oldMode == Some(mode)
    case ModeIs(mode) => c.Switches() && c.newMode == Some(mode)
    case MovedFrom(path) => c.Moves() && c.oldPath == Some(path)
    case MovedTo(path) => c.Moves() && c.newPath == Some(path)
    case Unchanged => false
  }

  function HeaderOf(c: Changed): seq<string>
    requires c.Named()
  {
    Header(c.oldPath, c.newPath, c.oldMode, c.newMode)
  }

  // ----- Spelling -----

  /** Where one spelling starts with an opening, another that does not spells something else. */
  lemma {:induction false} OpensApart(x: Note, y: Note)
    requires Opening(x) != Opening(y)
    ensures Spell(x) != Spell(y)
  {
    var a, b := Opening(x), Opening(y);
    assert Spell(x)[..|a|] == a && Spell(y)[..|b|] == b;
    assert Spell(x)[0] == a[0] && Spell(y)[0] == b[0];
    assert Spell(x)[4] == a[4] && Spell(y)[4] == b[4];
    assert Spell(x)[7] == a[7] && Spell(y)[7] == b[7];
  }

  function Opening(note: Note): (s: string)
    ensures |s| >= 8
  {
    match note
    case Created(_) => "new file mode "
    case Removed(_) => "deleted file mode "
    case ModeWas(_) => "old mode "
    case ModeIs(_) => "new mode "
    case MovedFrom(_) => "rename from "
    case MovedTo(_) => "rename to "
    case Unchanged => "similarity index 100%"
  }

  function Rest(note: Note): string {
    match note
    case Created(mode) => mode
    case Removed(mode) => mode
    case ModeWas(mode) => mode
    case ModeIs(mode) => mode
    case MovedFrom(path) => path
    case MovedTo(path) => path
    case Unchanged => ""
  }

  /** No two notes are spelt alike. */
  lemma {:induction false} SpeltApart(x: Note, y: Note)
    requires Spell(x) == Spell(y)
    ensures x == y
  {
    if Opening(x) != Opening(y) {
      OpensApart(x, y);
    } else {
      assert Spell(x) == Opening(x) + Rest(x) && Spell(y) == Opening(y) + Rest(y);
      assert Spell(x)[|Opening(x)|..] == Rest(x) && Spell(y)[|Opening(y)|..] == Rest(y);
    }
  }

  /** The notes of the metadata, in order. */
  function Notes(c: Changed): seq<Note>
    requires c.Named()
  {
    if c.oldPath.None? then [Created(ModeOf(c.newMode))]
    else if c.newPath.None? then [Removed(ModeOf(c.oldMode))]
    else
      (if c.Switches() then [ModeWas(c.oldMode.value), ModeIs(c.newMode.value)] else [])
      + (if c.Moves() then [MovedFrom(c.oldPath.value), MovedTo(c.newPath.value)] else [])
  }

  lemma {:induction false} MetadataSpelt(c: Changed)
    requires c.Named()
    ensures var meta := Metadata(c.oldPath, c.newPath, c.oldMode, c.newMode);
      |meta| == |Notes(c)| && forall i :: 0 <= i < |meta| ==> meta[i] == Spell(Notes(c)[i])
  {
  }

  lemma {:induction false} NotesHold(c: Changed, note: Note)
    requires c.Named()
    ensures note in Notes(c) <==> Holds(note, c)
  {
  }

  /** The header tells exactly what holds of the change: its first line opens the section, and every other is a note,
      one for each that holds. */
  lemma {:induction false} HeaderTells(c: Changed, note: Note)
    requires c.Named()
    ensures Spell(note) in HeaderOf(c) <==> Holds(note, c)
    ensures forall i :: 1 <= i < |HeaderOf(c)| ==> exists n :: HeaderOf(c)[i] == Spell(n)
  {
    MetadataSpelt(c);
    NotesHold(c, note);
    FirstIsNoNote(c, note);
    hide Spell, Notes, Metadata, Holds;
    var lines, notes := HeaderOf(c), Notes(c);
    assert forall i :: 1 <= i < |lines| ==> lines[i] == Spell(notes[i - 1]);
    if Spell(note) in lines {
      var i :| 0 <= i < |lines| && lines[i] == Spell(note);
      SpeltApart(notes[i - 1], note);
    }
    if note in notes {
      var i :| 0 <= i < |notes| && notes[i] == note;
      assert lines[i + 1] == Spell(note);
    }
  }

  lemma {:induction false} FirstIsNoNote(c: Changed, note: Note)
    requires c.Named()
    ensures HeaderOf(c)[0] != Spell(note)
  {
    assert HeaderOf(c)[0][..5] == "diff ";
    assert HeaderOf(c)[0][0] == 'd' && HeaderOf(c)[0][1] == 'i' && HeaderOf(c)[0][2] == 'f';
    assert Spell(note)[0] == Opening(note)[0] && Spell(note)[1] == Opening(note)[1] && Spell(note)[2] == Opening(note)[2];
  }

  // ----- In the text of a patch -----

  /** The labels are no notes. */
  lemma {:induction false} LabelsAreNoNotes(c: Changed, note: Note)
    requires c.Named()
    ensures Spell(note) in Above(c.oldPath, c.newPath, c.oldMode, c.newMode) <==> Spell(note) in HeaderOf(c)
  {
    var labels := [OldLabel(c.oldPath), NewLabel(c.newPath)];
    assert Above(c.oldPath, c.newPath, c.oldMode, c.newMode) == HeaderOf(c) + labels;
    assert labels[0][0] == '-' && labels[1][0] == '+' && Spell(note)[0] == Opening(note)[0];
    hide Spell, Header, OldLabel, NewLabel;
  }

  /** Hunks a host served readymade stand below lines that tell what holds of the change; without hunks the patch is
      the header alone. */
  lemma {:induction false} ReadymadeTells(c: Changed, hunks: string, note: Note)
    requires SafePaths(c.oldPath, c.newPath) && SafeMode(c.oldMode) && SafeMode(c.newMode)
    requires hunks != "" ==> ParseHunks(Lines(hunks)).preamble == [] && ParseHunks(Lines(hunks)).hunks != []
    ensures var patch := PatchFromHunks(c.oldPath, c.newPath, c.oldMode, c.newMode, hunks);
      && (Spell(note) in ParseHunks(Lines(patch)).preamble <==> Holds(note, c))
      && (hunks == "" ==> Lines(patch) == HeaderOf(c))
  {
    var above := Above(c.oldPath, c.newPath, c.oldMode, c.newMode);
    HeaderTells(c, note);
    LabelsAreNoNotes(c, note);
    AboveIsGood(c.oldPath, c.newPath, c.oldMode, c.newMode);
    hide Spell, Holds, GoodAbove, SafePaths, SafeMode, ParseHunks, IsHunkHeader;
    GoodAboveLines(above, c.oldPath, c.newPath);
    if hunks == "" {
      GoodAboveSingle(above, c.oldPath, c.newPath);
      assert above == HeaderOf(c) + [OldLabel(c.oldPath), NewLabel(c.newPath)];
      hide Header, Above, OldLabel, NewLabel;
      FirstPart(HeaderOf(c), [OldLabel(c.oldPath), NewLabel(c.newPath)]);
      HeaderParses(HeaderOf(c));
    } else {
      hide Header, Above, PatchFromHunks, Lines;
      ReadymadeLines(c.oldPath, c.newPath, c.oldMode, c.newMode, hunks);
      ParseAppend(above, Lines(hunks));
      assert above + [] == above;
    }
  }

  lemma {:induction false} FirstPart(a: seq<string>, b: seq<string>)
    requires AllSingle(a + b) && NoHunkHeader(a + b)
    ensures AllSingle(a) && NoHunkHeader(a)
  {
    hide IsHunkHeader;
    ConcatParts(a, b);
    forall i | 0 <= i < |a| ensures !IsHunkHeader(a[i]) { assert (a + b)[i] == a[i]; }
  }

  lemma {:induction false} HeaderParses(header: seq<string>)
    requires header != [] && AllSingle(header) && NoHunkHeader(header)
    ensures Lines(Unlines(header, true)) == header && ParseHunks(header) == Parsed(header, [])
  {
    LinesOfUnlines(header, true);
    ParseAppend(header, []);
    assert header + [] == header;
  }

  /** A line that names nothing may be put in anywhere. */
  lemma {:induction false} PutIn(a: seq<string>, line: string, b: seq<string>, f: string -> Option<string>)
    requires f(line).None?
    ensures FirstMatch(a + [line] + b, f) == FirstMatch(a + b, f)
  {
    FirstMatchConcat(a, b, f);
    FirstMatchConcat(a + [line], b, f);
    FirstMatchConcat(a, [line], f);
    assert [line][1..] == [];
  }

  const SAME: string := "similarity index 100%"

  lemma {:induction false} SameNamesNothing()
    ensures OldPath(SAME).None? && NewPath(SAME).None? && RenameTo(SAME).None? && FallbackPath(SAME).None?
  {
    assert SAME[0] == 's';
  }

  lemma {:induction false} StillFound(header: seq<string>)
    requires header != []
    ensures FoundPath(header[..1] + [SAME] + header[1..]) == FoundPath(header)
  {
    SameNamesNothing();
    hide OldPath, NewPath, RenameTo, FallbackPath;
    assert header[..1] + header[1..] == header;
    PutIn(header[..1], SAME, header[1..], NewPath);
    PutIn(header[..1], SAME, header[1..], RenameTo);
    PutIn(header[..1], SAME, header[1..], OldPath);
    PutIn(header[..1], SAME, header[1..], FallbackPath);
  }

  /** The lines of a patch with no hunk. */
  lemma {:induction false} HunklessLines(oldPath: Option<string>, newPath: Option<string>, segments: seq<Segment>)
    requires SafePaths(oldPath, newPath) && PrintSegments(segments, 0, 0) == []
    ensures var header := HeaderOf(Changed(oldPath, newPath, None, None));
      ParseHunks(Lines(FilePatch(oldPath, newPath, segments)))
      == Parsed(if Renames(oldPath, newPath) then header[..1] + [SAME] + header[1..] else header, [])
  {
    var header := HeaderOf(Changed(oldPath, newPath, None, None));
    HeaderOnlyParses(oldPath, newPath);
    hide Header, SafePaths, IsHunkHeader, ParseHunks, Lines;
    HeaderParses(header);
    HeaderParses(header[..1] + [SAME] + header[1..]);
  }

  /** The lines above the hunks of a patch that has some. */
  lemma {:induction false} PreambleIsAbove(oldPath: Option<string>, newPath: Option<string>, segments: seq<Segment>)
    requires SafePaths(oldPath, newPath) && AllSingle(OldOf(segments)) && AllSingle(NewOf(segments))
    requires PrintSegments(segments, 0, 0) != []
    ensures ParseHunks(Lines(FilePatch(oldPath, newPath, segments)))
         == Parsed(Above(oldPath, newPath, None, None), HunksOfSegments(segments, 0, 0))
  {
    var above, below := Above(oldPath, newPath, None, None), PrintSegments(segments, 0, 0);
    AboveIsGood(oldPath, newPath, None, None);
    SegmentsSingle(segments, 0, 0);
    SegmentsParse(segments, 0, 0);
    hide Above, PrintSegments, HunksOfSegments, OldOf, NewOf, GoodAbove, SafePaths, IsHunkHeader, ParseHunks, After;
    GoodAboveSingle(above, oldPath, newPath);
    GoodAboveLines(above, oldPath, newPath);
    LinesOfUnlines(above + below, true);
    ParseAppend(above, below);
    assert above + [] == above;
  }

  /** A patch printed from two texts tells what holds of the change too, and of a rename with no hunk that nothing else
      changed; with no hunk at all it is split off under its path exactly when the header alone would be. */
  lemma {:induction false} FilePatchTells(oldPath: Option<string>, newPath: Option<string>, segments: seq<Segment>, note: Note)
    requires SafePaths(oldPath, newPath) && AllSingle(OldOf(segments)) && AllSingle(NewOf(segments))
    ensures var c, p := Changed(oldPath, newPath, None, None), ParseHunks(Lines(FilePatch(oldPath, newPath, segments)));
      && (Spell(note) in p.preamble <==> Holds(note, c) || (note == Unchanged && c.Moves() && p.hunks == []))
      && (p.hunks == [] ==> (FoundPath(p.preamble) == Named(oldPath, newPath) <==> Renames(oldPath, newPath) || !HoldsSide(Named(oldPath, newPath).value)))
  {
    var c := Changed(oldPath, newPath, None, None);
    var header := HeaderOf(c);
    HeaderTells(c, note);
    LabelsAreNoNotes(c, note);
    NoHunksNoLines(segments, 0, 0);
    hide Spell, Header, Above, SafePaths, PrintSegments, HunksOfSegments, ParseHunks, Lines, FilePatch, FoundPath, HoldsSide, OldOf, NewOf;
    if PrintSegments(segments, 0, 0) == [] {
      HunklessLines(oldPath, newPath, segments);
      HeaderAloneIsNamed(oldPath, newPath, None, None);
      StillFound(header);
      SameIsSpelt(header, note);
    } else {
      PreambleIsAbove(oldPath, newPath, segments);
    }
  }

  lemma {:induction false} SameIsSpelt(header: seq<string>, note: Note)
    requires header != []
    ensures Spell(note) in header[..1] + [SAME] + header[1..] <==> Spell(note) in header || note == Unchanged
  {
    assert Spell(Unchanged) == SAME;
    if Spell(note) == SAME {
      SpeltApart(note, Unchanged);
    }
    hide Spell;
    assert header == header[..1] + header[1..];
  }
}
