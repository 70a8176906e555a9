/** engine/conflicts.py: which of two lenses' opposing advice is posted. */
module Conflicts {
  import opened DiffParse
  import opened Findings

  /** How close two findings sit to be about the same code. */
  const NEAR_LINES: nat := 3

  /** The lenses in the order of the precedence ladder, highest first; any other has no rank. */
  function Rank(category: Option<string>): Option<nat> {
    match category
    case None => None
    case Some(c) =>
      if c == "correctness" then Some(0)
      else if c == "security" then Some(1)
      else if c == "performance" then Some(2)
      else if c == "tests" then Some(3)
      else if c == "complexity" then Some(4)
      else if c == "ponytail" then Some(5)
      else None
  }

  /** The pairs whose findings on the same code are opposite advice. */
  predicate Opposed(a: Option<string>, b: Option<string>) {
    {a, b} == {Some("ponytail"), Some("correctness")} || {a, b} == {Some("ponytail"), Some("security")}
  }

  predicate OutrankedBy(loser: Finding, winner: Finding) {
    && loser.path == winner.path && loser.side == winner.side
    && -(NEAR_LINES as int) <= loser.line as int - winner.line as int <= NEAR_LINES
    && Opposed(loser.category, winner.category)
    && Rank(winner.category).Some? && Rank(loser.category).Some?
    && Rank(winner.category).value < Rank(loser.category).value
  }

  /** The findings of fs that none of all outranks, in order. */
  function Unopposed(fs: seq<Finding>, all: seq<Finding>): (kept: seq<Finding>)
    ensures forall f :: f in kept <==> f in fs && !exists w :: w in all && OutrankedBy(f, w)
    ensures |kept| <= |fs|
  {
    if fs == [] then []
    else
      (if exists w :: w in all && OutrankedBy(fs[0], w) then [] else [fs[0]]) + Unopposed(fs[1..], all)
  }

  function Resolve(fs: seq<Finding>): seq<Finding> {
    Unopposed(fs, fs)
  }

  lemma {:induction false} UnopposedSnoc(fs: seq<Finding>, f: Finding, all: seq<Finding>)
    ensures Unopposed(fs + [f], all)
         == Unopposed(fs, all) + (if exists w :: w in all && OutrankedBy(f, w) then [] else [f])
  {
    hide OutrankedBy;
    if fs == [] {
      assert [] + [f] == [f];
    } else {
      assert (fs + [f])[0] == fs[0] && (fs + [f])[1..] == fs[1..] + [f];
      UnopposedSnoc(fs[1..], f, all);
    }
  }

  /** Drop each finding an opposed finding of higher precedence sits beside, keeping the order. */
  method ResolveConflicts(findings: seq<Finding>) returns (kept: seq<Finding>)
    ensures kept == Resolve(findings)
  {
    kept := [];
    for i := 0 to |findings|
      invariant kept == Unopposed(findings[..i], findings)
    {
      UnopposedSnoc(findings[..i], findings[i], findings);
      assert findings[..i + 1] == findings[..i] + [findings[i]];
      var j: nat := 0;
      while j < |findings| && !OutrankedBy(findings[i], findings[j])
        invariant j <= |findings| && forall w :: w in findings[..j] ==> !OutrankedBy(findings[i], w)
        decreases |findings| - j
      {
        j := j + 1;
      }
      if j == |findings| {
        assert findings[..j] == findings;
        kept := kept + [findings[i]];
      }
    }
    assert findings[..|findings|] == findings;
  }

  /** Only the lens that cuts code yields, and only to one that fixes it: no winner is itself outranked. */
  lemma {:induction false} OnlyCutsYield(loser: Finding, winner: Finding)
    requires OutrankedBy(loser, winner)
    ensures loser.category == Some("ponytail")
    ensures winner.category == Some("correctness") || winner.category == Some("security")
    ensures forall other :: !OutrankedBy(winner, other)
  {
    TwoOf(loser.category, winner.category, Some("ponytail"), Some("correctness"));
    TwoOf(loser.category, winner.category, Some("ponytail"), Some("security"));
    forall other: Finding ensures !OutrankedBy(winner, other) {
      TwoOf(winner.category, other.category, Some("ponytail"), Some("correctness"));
      TwoOf(winner.category, other.category, Some("ponytail"), Some("security"));
    }
  }

  lemma {:induction false} TwoOf<T>(a: T, b: T, c: T, d: T)
    requires c != d
    ensures {a, b} == {c, d} <==> (a == c && b == d) || (a == d && b == c)
  {
    if {a, b} == {c, d} {
      assert a in {c, d} && b in {c, d} && c in {a, b} && d in {a, b};
    }
  }

  /** Whatever arbitration drops, a finding of higher precedence that sits beside it and opposes it survives. */
  lemma {:induction false} DroppedForSurvivor(fs: seq<Finding>, dropped: Finding) returns (winner: Finding)
    requires dropped in fs && dropped !in Resolve(fs)
    ensures winner in Resolve(fs) && OutrankedBy(dropped, winner)
  {
    winner :| winner in fs && OutrankedBy(dropped, winner);
    OnlyCutsYield(dropped, winner);
  }

  lemma {:induction false} NothingDropped(fs: seq<Finding>, all: seq<Finding>)
    requires forall f, w :: f in fs && w in all ==> !OutrankedBy(f, w)
    ensures Unopposed(fs, all) == fs
  {
    hide OutrankedBy;
    if fs != [] {
      assert fs[0] in fs;
      assert !exists w :: w in all && OutrankedBy(fs[0], w);
      NothingDropped(fs[1..], all);
    }
  }

  /** A second arbitration is the identity, and stays so for whatever part of the first one's findings
      it is given. */
  lemma {:induction false} ArbitratedOnce(fs: seq<Finding>, part: seq<Finding>)
    requires forall f :: f in part ==> f in Resolve(fs)
    ensures Resolve(part) == part
  {
    hide OutrankedBy;
    forall f, w | f in part && w in part ensures !OutrankedBy(f, w) {
      assert w in Resolve(fs) && f in Resolve(fs);
    }
    NothingDropped(part, part);
  }

  /** Advice to cut code, at most three lines from what the correctness or the security lens found on the same side
      of the same file. */
  predicate CutBesideFix(f: Finding, w: Finding) {
    && f.category == Some("ponytail") && (w.category == Some("correctness") || w.category == Some("security"))
    && f.path == w.path && f.side == w.side && f.line <= w.line + 3 && w.line <= f.line + 3
  }

  /** Exactly what is dropped. */
  lemma {:induction false} DroppedExactly(fs: seq<Finding>, f: Finding)
    requires f in fs
    ensures f !in Resolve(fs) <==> exists w :: w in fs && CutBesideFix(f, w)
  {
    forall w | w in fs ensures OutrankedBy(f, w) <==> CutBesideFix(f, w) {
      TwoOf(f.category, w.category, Some("ponytail"), Some("correctness"));
      TwoOf(f.category, w.category, Some("ponytail"), Some("security"));
    }
  }
}
