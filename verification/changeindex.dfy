/** What the walk is indexed into: the changed lines a finding is re-anchored on, and the
    lines a comment may be posted on. */
module ChangeIndex {
  import opened Text
  import opened DiffParse
  import opened Geometry

  datatype Side = Left | Right

  datatype Change = Change(path: string, side: Side, line: nat, text: string)

  function ChangesOf(e: Entry): seq<Change> {
    match e.kind
    case Deleted => [Change(e.path, Left, e.oldLine, e.text)]
    case Added => [Change(e.path, Right, e.newLine, e.text)]
    case Context => []
  }

  /** The changed lines of a walk, in order. */
  function Changes(es: seq<Entry>): seq<Change> {
    if es == [] then [] else ChangesOf(es[0]) + Changes(es[1..])
  }

  lemma {:induction false} ChangesConcat(a: seq<Entry>, b: seq<Entry>)
    ensures Changes(a + b) == Changes(a) + Changes(b)
  {
    hide ChangesOf;
    if a == [] {
      assert a + b == b;
    } else {
      assert (a + b)[1..] == a[1..] + b;
      ChangesConcat(a[1..], b);
      Assoc(ChangesOf(a[0]), Changes(a[1..]), Changes(b));
    }
  }

  /** The (line, text) pairs of one path and side, in order. */
  function LinesAt(cs: seq<Change>, path: string, side: Side): seq<(nat, string)> {
    if cs == [] then []
    else
      var front := LinesAt(cs[..|cs| - 1], path, side);
      var c := cs[|cs| - 1];
      if c.path == path && c.side == side then front + [(c.line, c.text)] else front
  }

  type LineIndex = map<(string, Side), seq<(nat, string)>>

  function Index(cs: seq<Change>): LineIndex {
    map k | k in (set c | c in cs :: (c.path, c.side)) :: LinesAt(cs, k.0, k.1)
  }

  lemma {:induction false} LinesAtAreChanges(cs: seq<Change>, path: string, side: Side)
    ensures forall p :: p in LinesAt(cs, path, side) <==> Change(path, side, p.0, p.1) in cs
  {
    if cs != [] {
      var front, c := cs[..|cs| - 1], cs[|cs| - 1];
      LinesAtAreChanges(front, path, side);
      assert cs == front + [c];
    }
  }

  lemma {:induction false} LinesAtHasKey(cs: seq<Change>, path: string, side: Side)
    requires LinesAt(cs, path, side) != []
    ensures (path, side) in Index(cs)
  {
    LinesAtAreChanges(cs, path, side);
    var p := LinesAt(cs, path, side)[0];
    assert p in LinesAt(cs, path, side);
    var c := Change(path, side, p.0, p.1);
    assert c in cs && (c.path, c.side) == (path, side);
  }

  function Append(index: LineIndex, c: Change): LineIndex {
    var key := (c.path, c.side);
    index[key := (if key in index then index[key] else []) + [(c.line, c.text)]]
  }

  lemma {:induction false} IndexSnoc(cs: seq<Change>, c: Change)
    ensures Index(cs + [c]) == Append(Index(cs), c)
  {
    var cs' := cs + [c];
    var key := (c.path, c.side);
    assert cs'[..|cs|] == cs;
    if LinesAt(cs, c.path, c.side) != [] {
      LinesAtHasKey(cs, c.path, c.side);
    }
    forall k
      ensures k in Index(cs') <==> k in Append(Index(cs), c)
      ensures k in Index(cs') ==> Index(cs')[k] == Append(Index(cs), c)[k]
    {
      if k in Index(cs') {
        var d :| d in cs' && (d.path, d.side) == k;
      }
      if k in Index(cs) {
        var d :| d in cs && (d.path, d.side) == k;
        assert d in cs';
      }
      assert c in cs';
    }
  }

  /** changed_line_index: one dictionary filled along the walk. */
  method ChangedLineIndex(diff: string) returns (index: LineIndex)
    ensures index == Index(Changes(Entries(diff)))
  {
    var entries := WalkDiff(diff);
    index := map[];
    ghost var seen: seq<Change> := [];
    for i := 0 to |entries|
      invariant index == Index(seen)
      invariant Changes(entries) == seen + Changes(entries[i..])
    {
      var e := entries[i];
      assert entries[i..][1..] == entries[i + 1..];
      Assoc(seen, ChangesOf(e), Changes(entries[i + 1..]));
      if e.kind.Deleted? {
        IndexSnoc(seen, Change(e.path, Left, e.oldLine, e.text));
        index := Append(index, Change(e.path, Left, e.oldLine, e.text));
      } else if e.kind.Added? {
        IndexSnoc(seen, Change(e.path, Right, e.newLine, e.text));
        index := Append(index, Change(e.path, Right, e.newLine, e.text));
      } else {
        assert seen + ChangesOf(e) == seen;
      }
      seen := seen + ChangesOf(e);
    }
    assert seen + Changes(entries[|entries|..]) == seen;
  }

  // ----- Commentable lines (core/diff.py) -----

  type Anchor = (string, nat, Side)

  function AnchorsOf(e: Entry): set<Anchor> {
    (if e.kind.Added? then {} else {(e.path, e.oldLine, Left)})
    + (if e.kind.Deleted? then {} else {(e.path, e.newLine, Right)})
  }

  /** build_commentable_lines */
  function Commentable(es: seq<Entry>): set<Anchor> {
    if es == [] then {} else AnchorsOf(es[0]) + Commentable(es[1..])
  }

  lemma {:induction false} CommentableConcat(a: seq<Entry>, b: seq<Entry>)
    ensures Commentable(a + b) == Commentable(a) + Commentable(b)
  {
    if a == [] {
      assert a + b == b;
    } else {
      assert (a + b)[1..] == a[1..] + b;
      CommentableConcat(a[1..], b);
    }
  }

  lemma {:induction false} ChangesAreCommentable(es: seq<Entry>, c: Change)
    requires c in Changes(es)
    ensures (c.path, c.line, c.side) in Commentable(es)
  {
    if c !in ChangesOf(es[0]) {
      ChangesAreCommentable(es[1..], c);
    }
  }

  method BuildCommentableLines(diff: string) returns (commentable: set<Anchor>)
    ensures commentable == Commentable(Entries(diff))
  {
    var entries := WalkDiff(diff);
    commentable := {};
    for i := 0 to |entries|
      invariant Commentable(entries) == commentable + Commentable(entries[i..])
    {
      var e := entries[i];
      assert entries[i..][1..] == entries[i + 1..];
      if !e.kind.Added? {
        commentable := commentable + {(e.path, e.oldLine, Left)};
      }
      if !e.kind.Deleted? {
        commentable := commentable + {(e.path, e.newLine, Right)};
      }
    }
  }
}
