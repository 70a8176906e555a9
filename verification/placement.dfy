/** End to end: a diff is split by file, each patch is padded, the patches are joined again, and
    findings are snapped on the result; comments are posted on the original diff. */
module Placement {
  import opened Text
  import opened DiffParse
  import opened Geometry
  import opened ChangeIndex
  import opened Expand
  import opened ExpandProofs
  import opened Sections
  import opened Rejoin
  import opened HunkLookup
  import opened Findings
  import opened Snap
  import Posting

  predicate AllValid(pads: seq<Padding>) {
    forall i :: 0 <= i < |pads| ==> pads[i].Valid()
  }

  /** The patches that reach review, each with its own padding. */
  function ExpandAll(patches: seq<string>, pads: seq<Padding>): (expanded: seq<string>)
    requires |pads| == |patches| && AllValid(pads)
    ensures |expanded| == |patches|
  {
    if patches == [] then [] else [ExpandPatch(patches[0], pads[0])] + ExpandAll(patches[1..], pads[1..])
  }

  /** The diff findings are snapped on. */
  function ReviewedDiff(patches: seq<string>, pads: seq<Padding>): string
    requires |pads| == |patches| && AllValid(pads)
  {
    Join(ExpandAll(patches, pads))
  }

  predicate WellFormedPatches(patches: seq<string>) {
    forall i :: 0 <= i < |patches| ==> WellFormedPatch(Lines(patches[i]))
  }

  lemma {:induction false} ExpandAllKeepsChanges(patches: seq<string>, pads: seq<Padding>)
    requires |pads| == |patches| && AllValid(pads) && WellFormedPatches(patches)
    ensures OpenWithHeader(ExpandAll(patches, pads))
    ensures ChangesOfAll(ExpandAll(patches, pads)) == ChangesOfAll(patches)
    decreases |patches|
  {
    hide WellFormedPatch, Lines, ExpandPatch, Changes, Entries, Padding.Valid;
    if patches != [] {
      ExpandKeepsChanges(patches[0], pads[0]);
      ExpandedWalkable(patches[0], pads[0]);
      WalkableOpens(Lines(ExpandPatch(patches[0], pads[0])));
      ExpandAllKeepsChanges(patches[1..], pads[1..]);
    }
  }

  lemma {:induction false} WalkableOpens(lines: seq<string>)
    requires Walkable(lines)
    ensures lines != [] && IsFileHeader(lines[0])
  {
  }

  /** The reviewed diff indexes the changed lines of the patches it was made from, in order. */
  lemma {:induction false} ReviewedKeepsChanges(patches: seq<string>, pads: seq<Padding>)
    requires |pads| == |patches| && AllValid(pads) && WellFormedPatches(patches)
    ensures Changes(Entries(ReviewedDiff(patches, pads))) == ChangesOfAll(patches)
  {
    hide WellFormedPatch, ExpandPatch, IsFileHeader, Padding.Valid;
    if patches == [] {
      assert Lines("") == [""];
      BlankChangesNothing(START);
    } else {
      ExpandAllKeepsChanges(patches, pads);
      JoinKeepsChanges(ExpandAll(patches, pads));
    }
  }

  /** What split_by_file yields on a well-formed diff. */
  lemma {:induction false} SplitIsWellFormed(diff: string, changed: seq<string>)
    requires WellFormedDiff(diff)
    ensures WellFormedPatches(Patches(SplitByFile(diff, changed)))
    ensures ChangesOfAll(Patches(SplitByFile(diff, changed))) == Changes(Entries(diff))
  {
    hide WellFormedDiff, WellFormedPatch, HeaderNamed, FoundPath, IsFileHeader, SectionPath, Printable, Changes, Entries;
    var sections := Cut(Lines(diff)).sections;
    DiffParts(diff);
    PatchesOfNamed(sections, SectionTexts(sections, EndsWithNewline(diff)), changed, 0);
    TextsAreSections(sections, EndsWithNewline(diff));
    WalkIsCompositional(diff, changed);
    WalkedChanges(Patches(SplitByFile(diff, changed)));
  }

  /** Reviewing every patch of a diff, padded from any text, keeps the index of the diff. */
  lemma {:induction false} ReviewKeepsIndex(diff: string, changed: seq<string>, pads: seq<Padding>)
    requires WellFormedDiff(diff) && AllValid(pads) && |pads| == |Patches(SplitByFile(diff, changed))|
    ensures Index(Changes(Entries(ReviewedDiff(Patches(SplitByFile(diff, changed)), pads)))) == Index(Changes(Entries(diff)))
  {
    hide WellFormedDiff, SplitByFile, Patches, ReviewedDiff, Entries, Changes, Index;
    SplitIsWellFormed(diff, changed);
    ReviewedKeepsChanges(Patches(SplitByFile(diff, changed)), pads);
  }

  /** A selection of patches: filters and caps drop some before review. */
  predicate Drawn(patches: seq<string>, from: seq<string>) {
    forall i :: 0 <= i < |patches| ==> patches[i] in from
  }

  lemma {:induction false} ChangesOfOne(patches: seq<string>, patch: string, c: Change)
    requires patch in patches && c in Changes(Entries(patch))
    ensures c in ChangesOfAll(patches)
    decreases |patches|
  {
    if patches[0] != patch {
      ChangesOfOne(patches[1..], patch, c);
    }
  }

  lemma {:induction false} DrawnChanges(patches: seq<string>, from: seq<string>, c: Change)
    requires Drawn(patches, from) && c in ChangesOfAll(patches)
    ensures c in ChangesOfAll(from)
    decreases |patches|
  {
    if c in Changes(Entries(patches[0])) {
      ChangesOfOne(from, patches[0], c);
    } else {
      DrawnChanges(patches[1..], from, c);
    }
  }

  lemma {:induction false} DrawnWellFormed(patches: seq<string>, from: seq<string>)
    requires Drawn(patches, from) && WellFormedPatches(from)
    ensures WellFormedPatches(patches)
  {
    hide WellFormedPatch, Lines;
    forall i | 0 <= i < |patches| ensures WellFormedPatch(Lines(patches[i])) {
      assert patches[i] in from;
    }
  }

  /** Every finding that quotes a line, was anchored and stays anchored after snapping on the padded
      and joined diff, stands on a line a comment can be posted on in the original diff. */
  lemma {:induction false} SnappedIsCommentable(diff: string, changed: seq<string>, patches: seq<string>, pads: seq<Padding>, f: Finding)
    requires WellFormedDiff(diff) && |pads| == |patches| && AllValid(pads)
    requires Drawn(patches, Patches(SplitByFile(diff, changed)))
    requires !Blank(f.anchor) && f.anchored
    ensures var f' := SnapOne(f, Prepare(Index(Changes(Entries(ReviewedDiff(patches, pads))))));
      f'.anchored ==> (f'.path, f'.line, f'.side) in Commentable(Entries(diff))
  {
    hide WellFormedDiff, SplitByFile, Patches, ReviewedDiff, Entries, Changes, Index, Prepare, SnapOne, WellFormedPatch;
    var cs := Changes(Entries(ReviewedDiff(patches, pads)));
    var f' := SnapOne(f, Prepare(Index(cs)));
    SplitIsWellFormed(diff, changed);
    DrawnWellFormed(patches, Patches(SplitByFile(diff, changed)));
    ReviewedKeepsChanges(patches, pads);
    SnapIsSound(f, cs);
    if f'.anchored {
      var level :| Chosen(level, f, cs, f'.line);
      var text :| Change(f.path, f.side, f'.line, text) in cs;
      DrawnChanges(patches, Patches(SplitByFile(diff, changed)), Change(f.path, f.side, f'.line, text));
      ChangesAreCommentable(Entries(diff), Change(f.path, f.side, f'.line, text));
    }
  }

  /** So no finding that quotes a line and stays anchored is demoted for its line: if it is not broad and
      the host can place it, it goes inline. */
  lemma {:induction false} SnappedGoesInline<T>(diff: string, changed: seq<string>, patches: seq<string>, pads: seq<Padding>, f: Finding,
                                                place: Finding -> Option<T>)
    requires WellFormedDiff(diff) && |pads| == |patches| && AllValid(pads)
    requires Drawn(patches, Patches(SplitByFile(diff, changed)))
    requires !Blank(f.anchor) && f.anchored
    ensures var f' := SnapOne(f, Prepare(Index(Changes(Entries(ReviewedDiff(patches, pads))))));
      f'.anchored && !f'.broad && place(f').Some? ==>
        Posting.Destined(f', Commentable(Entries(diff)), place) == Posting.Inline(place(f').value)
  {
    hide *;
    SnappedIsCommentable(diff, changed, patches, pads, f);
    GoesInline(SnapOne(f, Prepare(Index(Changes(Entries(ReviewedDiff(patches, pads)))))), Commentable(Entries(diff)), place);
  }

  lemma {:induction false} GoesInline<T>(f: Finding, commentable: set<Anchor>, place: Finding -> Option<T>)
    requires f.anchored ==> (f.path, f.line, f.side) in commentable
    ensures f.anchored && !f.broad && place(f).Some? ==> Posting.Destined(f, commentable, place) == Posting.Inline(place(f).value)
  {
  }
}
