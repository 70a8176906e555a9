/** engine/engine.py, _dedupe: one finding a code location, chosen after opposing advice is settled. */
module Merge {
  import opened Text
  import opened DiffParse
  import opened ChangeIndex
  import opened Findings
  import opened Conflicts

  /** Where a finding is merged: a scanner's finding by its title too. */
  datatype Key = Key(path: string, line: nat, side: Side, scanTitle: Option<string>)

  predicate IsScan(f: Finding) {
    f.category.Some? && StartsWith(f.category.value, "scan:")
  }

  function KeyOf(f: Finding): Key {
    Key(f.path, f.line, f.side, if IsScan(f) then Some(f.title) else None)
  }

  /** Strictly better at the same key: anchored first, then severity, then the longer body. */
  predicate Better(a: Finding, b: Finding) {
    if a.anchored != b.anchored then a.anchored
    else if a.severity.Rank() != b.severity.Rank() then a.severity.Rank() > b.severity.Rank()
    else |a.body| > |b.body|
  }

  /** The keys of the findings, each at its first occurrence. */
  function Keys(fs: seq<Finding>): (keys: seq<Key>)
    ensures forall k :: k in keys <==> exists f :: f in fs && KeyOf(f) == k
    ensures forall i, j :: 0 <= i < j < |keys| ==> keys[i] != keys[j]
  {
    if fs == [] then []
    else
      var rest, last := fs[..|fs| - 1], fs[|fs| - 1];
      assert forall f :: f in fs <==> f in rest || f == last;
      if KeyOf(last) in Keys(rest) then Keys(rest) else Keys(rest) + [KeyOf(last)]
  }

  /** No finding at the key of this one is better. */
  ghost predicate NoneBetter(fs: seq<Finding>, f: Finding) {
    forall j :: 0 <= j < |fs| && KeyOf(fs[j]) == KeyOf(f) ==> !Better(fs[j], f)
  }

  /** Every finding at the key of this one is worse. */
  ghost predicate AllWorse(fs: seq<Finding>, f: Finding) {
    forall j :: 0 <= j < |fs| && KeyOf(fs[j]) == KeyOf(f) ==> Better(f, fs[j])
  }

  /** fs[i] is the first of the best findings at its key. */
  ghost predicate FirstBest(fs: seq<Finding>, i: nat)
    requires i < |fs|
  {
    NoneBetter(fs, fs[i]) && AllWorse(fs[..i], fs[i])
  }

  /** The winner at a key. */
  ghost predicate Wins(fs: seq<Finding>, winner: Finding) {
    exists i: nat :: i < |fs| && fs[i] == winner && FirstBest(fs, i)
  }

  ghost predicate AllWin(fs: seq<Finding>, best: map<Key, Finding>) {
    && (forall k :: k in best <==> k in Keys(fs))
    && (forall k :: k in best ==> KeyOf(best[k]) == k && Wins(fs, best[k]))
  }

  /** The merge of a list of findings: one winner a key, in the order the keys first occur. */
  ghost predicate IsMerge(fs: seq<Finding>, merged: seq<Finding>) {
    && |merged| == |Keys(fs)|
    && (forall i :: 0 <= i < |merged| ==> KeyOf(merged[i]) == Keys(fs)[i] && Wins(fs, merged[i]))
  }

  lemma {:induction false} FirstBestUnique(fs: seq<Finding>, i: nat, j: nat)
    requires i < |fs| && j < |fs| && FirstBest(fs, i) && FirstBest(fs, j) && KeyOf(fs[i]) == KeyOf(fs[j])
    ensures i == j
  {
    hide Better, KeyOf;
    assert forall m, n :: 0 <= m < n < |fs| ==> fs[..n][m] == fs[m];
  }

  /** Nothing else is a merge of the same findings. */
  lemma {:induction false} MergeUnique(fs: seq<Finding>, a: seq<Finding>, b: seq<Finding>)
    requires IsMerge(fs, a) && IsMerge(fs, b)
    ensures a == b
  {
    hide Better, KeyOf, FirstBest, Keys;
    forall k | 0 <= k < |a| ensures a[k] == b[k] {
      var i: nat :| i < |fs| && fs[i] == a[k] && FirstBest(fs, i);
      var j: nat :| j < |fs| && fs[j] == b[k] && FirstBest(fs, j);
      FirstBestUnique(fs, i, j);
    }
  }

  /** Better than the winner is better than all. */
  lemma {:induction false} BetterThanAll(fs: seq<Finding>, w: Finding, f: Finding)
    requires NoneBetter(fs, w) && KeyOf(w) == KeyOf(f) && Better(f, w)
    ensures AllWorse(fs, f)
  {
    hide KeyOf;
  }

  /** The first at a key is better than every one before it, there being none. */
  lemma {:induction false} FirstAtKey(fs: seq<Finding>, f: Finding)
    requires KeyOf(f) !in Keys(fs)
    ensures AllWorse(fs, f)
  {
    hide Better;
    assert forall j :: 0 <= j < |fs| ==> fs[j] in fs;
  }

  /** A finding better than all at its key becomes the winner of its key. */
  lemma {:induction false} NewWinner(fs: seq<Finding>, f: Finding)
    requires AllWorse(fs, f)
    ensures Wins(fs + [f], f)
  {
    hide KeyOf;
    assert (fs + [f])[|fs|] == f && (fs + [f])[..|fs|] == fs;
    assert NoneBetter(fs + [f], f);
    assert FirstBest(fs + [f], |fs|);
  }

  /** A winner stays one unless the new finding takes its key. */
  lemma {:induction false} OldWinner(fs: seq<Finding>, f: Finding, w: Finding)
    requires Wins(fs, w) && (KeyOf(f) == KeyOf(w) ==> !Better(f, w))
    ensures Wins(fs + [f], w)
  {
    hide Better, KeyOf;
    var i: nat :| i < |fs| && fs[i] == w && FirstBest(fs, i);
    assert (fs + [f])[..i] == fs[..i];
    assert NoneBetter(fs + [f], w);
    assert (fs + [f])[i] == w && FirstBest(fs + [f], i);
  }

  /** One step of the loop keeps every winner. */
  lemma {:induction false} StepKeeps(fs: seq<Finding>, f: Finding, best: map<Key, Finding>)
    requires AllWin(fs, best)
    ensures AllWin(fs + [f], if KeyOf(f) !in best || Better(f, best[KeyOf(f)]) then best[KeyOf(f) := f] else best)
  {
    hide Better, KeyOf, Wins;
    var best' := if KeyOf(f) !in best || Better(f, best[KeyOf(f)]) then best[KeyOf(f) := f] else best;
    KeysSnoc(fs, f);
    hide Keys;
    forall k | k in best' ensures KeyOf(best'[k]) == k && Wins(fs + [f], best'[k]) {
      if k == KeyOf(f) && k !in best {
        FirstAtKey(fs, f);
        NewWinner(fs, f);
      } else if k == KeyOf(f) && Better(f, best[k]) {
        WinnerIsBest(fs, best[k]);
        BetterThanAll(fs, best[k], f);
        NewWinner(fs, f);
      } else {
        OldWinner(fs, f, best[k]);
      }
    }
  }

  lemma {:induction false} WinnerIsBest(fs: seq<Finding>, w: Finding)
    requires Wins(fs, w)
    ensures w in fs && NoneBetter(fs, w)
  {
  }

  lemma {:induction false} KeysSnoc(fs: seq<Finding>, f: Finding)
    ensures Keys(fs + [f]) == if KeyOf(f) in Keys(fs) then Keys(fs) else Keys(fs) + [KeyOf(f)]
  {
    assert (fs + [f])[..|fs|] == fs;
  }

  /** Collapse findings at the same location to a single one. The dictionary keeps its keys in the order
      they were first set; overwriting a value does not move its key. */
  method Dedupe(findings: seq<Finding>) returns (merged: seq<Finding>)
    ensures IsMerge(findings, merged)
  {
    hide Better, KeyOf, Keys, AllWin, IsMerge;
    var order: seq<Key>, best: map<Key, Finding> := [], map[];
    NothingYet();
    for n := 0 to |findings|
      invariant order == Keys(findings[..n]) && AllWin(findings[..n], best)
    {
      var finding := findings[n];
      var key := KeyOf(finding);
      assert findings[..n + 1] == findings[..n] + [finding];
      KeysSnoc(findings[..n], finding);
      StepKeeps(findings[..n], finding, best);
      BestKeys(findings[..n], best);
      if key !in best {
        order, best := order + [key], best[key := finding];
      } else if Supersedes(finding, best[key]) {
        best := best[key := finding];
      }
    }
    assert findings[..|findings|] == findings;
    BestKeys(findings, best);
    merged := Values(order, best);
    AllWinIsMerge(findings, best, merged);
  }

  /** The values of the dictionary, in key order. */
  function Values(order: seq<Key>, best: map<Key, Finding>): (values: seq<Finding>)
    requires forall k :: k in order ==> k in best
    ensures |values| == |order| && forall i :: 0 <= i < |order| ==> values[i] == best[order[i]]
  {
    if order == [] then [] else [best[order[0]]] + Values(order[1..], best)
  }

  lemma {:induction false} NothingYet()
    ensures Keys([]) == [] && AllWin([], map[])
  {
  }

  lemma {:induction false} AllWinIsMerge(fs: seq<Finding>, best: map<Key, Finding>, merged: seq<Finding>)
    requires AllWin(fs, best) && |merged| == |Keys(fs)|
    requires forall i :: 0 <= i < |merged| ==> Keys(fs)[i] in best && merged[i] == best[Keys(fs)[i]]
    ensures IsMerge(fs, merged)
  {
    hide Keys, Wins, KeyOf;
  }

  lemma {:induction false} BestKeys(fs: seq<Finding>, best: map<Key, Finding>)
    requires AllWin(fs, best)
    ensures forall k :: k in best <==> k in Keys(fs)
  {
  }

  /** The branches of the loop at an occupied key. */
  predicate Supersedes(finding: Finding, existing: Finding)
    ensures Supersedes(finding, existing) == Better(finding, existing)
  {
    if finding.anchored != existing.anchored then finding.anchored
    else if finding.severity.Rank() > existing.severity.Rank() then true
    else finding.severity.Rank() == existing.severity.Rank() && |finding.body| > |existing.body|
  }

  // ----- After arbitration -----

  /** A merge takes its findings from the list, and leaves each location of the list one of its own. */
  lemma {:induction false} MergeCovers(fs: seq<Finding>, merged: seq<Finding>, f: Finding) returns (winner: Finding)
    requires IsMerge(fs, merged) && f in fs
    ensures winner in merged && KeyOf(winner) == KeyOf(f) && !Better(f, winner)
  {
    hide Better, Wins, KeyOf;
    assert KeyOf(f) in Keys(fs);
    hide Keys;
    var i :| 0 <= i < |Keys(fs)| && Keys(fs)[i] == KeyOf(f);
    winner := merged[i];
    WinnerIsBest(fs, winner);
    var j :| 0 <= j < |fs| && fs[j] == f;
  }

  lemma {:induction false} MergeIsPart(fs: seq<Finding>, merged: seq<Finding>)
    requires IsMerge(fs, merged)
    ensures forall f :: f in merged ==> f in fs
    ensures forall i, j :: 0 <= i < j < |merged| ==> KeyOf(merged[i]) != KeyOf(merged[j])
  {
    hide Better, Wins, KeyOf;
    forall f | f in merged ensures f in fs {
      var i :| 0 <= i < |merged| && merged[i] == f;
      WinnerIsBest(fs, f);
    }
  }

  /** What reaches the author of advice that was settled and then merged. */
  lemma {:induction false} MergeAfterArbitration(fs: seq<Finding>, merged: seq<Finding>)
    requires IsMerge(Resolve(fs), merged)
    // Every finding that survives arbitration is there, or one at its location that is no worse.
    ensures forall f :: f in Resolve(fs) ==> exists w :: w in merged && KeyOf(w) == KeyOf(f) && !Better(f, w)
    // What arbitration dropped it dropped for advice of higher precedence beside it, whose location is there.
    ensures forall f :: f in fs && f !in Resolve(fs) ==>
      exists w, m :: w in Resolve(fs) && OutrankedBy(f, w) && m in merged && KeyOf(m) == KeyOf(w)
    // Advice to cut never takes a location where something was to be fixed.
    ensures forall m, f :: m in merged && f in fs && m.category == Some("ponytail") && KeyOf(f) == KeyOf(m) ==>
      f.category != Some("correctness") && f.category != Some("security")
    // Arbitrating again changes nothing.
    ensures Resolve(merged) == merged
  {
    hide OutrankedBy, Better, KeyOf, Keys, Wins, IsMerge;
    forall f | f in Resolve(fs) ensures exists w :: w in merged && KeyOf(w) == KeyOf(f) && !Better(f, w) {
      var w := MergeCovers(Resolve(fs), merged, f);
    }
    forall f | f in fs && f !in Resolve(fs)
      ensures exists w, m :: w in Resolve(fs) && OutrankedBy(f, w) && m in merged && KeyOf(m) == KeyOf(w)
    {
      var w := DroppedForSurvivor(fs, f);
      var m := MergeCovers(Resolve(fs), merged, w);
    }
    MergeIsPart(Resolve(fs), merged);
    forall m, f | m in merged && f in fs && m.category == Some("ponytail") && KeyOf(f) == KeyOf(m)
      ensures f.category != Some("correctness") && f.category != Some("security")
    {
      FixOutranksCut(m, f);
    }
    ArbitratedOnce(fs, merged);
  }

  lemma {:induction false} FixOutranksCut(cut: Finding, fix: Finding)
    requires cut.category == Some("ponytail") && KeyOf(cut) == KeyOf(fix)
    ensures fix.category == Some("correctness") || fix.category == Some("security") ==> OutrankedBy(cut, fix)
  {
  }

  /** Merging first would have lost the fix: the two findings share a line, and the cut is the more severe. */
  lemma {:induction false} MergingFirstLosesTheFix() returns (cut: Finding, fix: Finding)
    ensures cut.category == Some("ponytail") && fix.category == Some("security")
    ensures Resolve([fix, cut]) == [fix]
    ensures IsMerge([fix, cut], [cut]) && Resolve([cut]) == [cut]
  {
    cut := Finding("a", 1, Right, High, "", "", None, None, true, false, Some("ponytail"));
    fix := Finding("a", 1, Right, Low, "", "", None, None, true, false, Some("security"));
    NotPrefix("ponytail", "scan:");
    assert "security"[1] != "scan:"[1];
    FixOutranksCut(cut, fix);
    OnlyCutsYield(cut, fix);
    assert !OutrankedBy(cut, cut);
    assert KeyOf(cut) == KeyOf(fix) && Better(cut, fix) && !Better(fix, cut) && !Better(cut, cut);
    hide OutrankedBy, KeyOf, Better;
    var both := [fix, cut];
    assert fix in both && cut in both;
    assert both[1..] == [cut];
    assert Unopposed([cut], both) == [] && Unopposed(both, both) == [fix];
    assert both[..1] == [fix] && both[..0] == [] && [fix][..0] == [];
    assert Keys([fix]) == [KeyOf(fix)] && Keys(both) == [KeyOf(fix)];
    assert both[1] == cut && FirstBest(both, 1);
    assert Wins(both, cut);
  }

  // ----- What ends as one finding -----

  predicate Scanned(f: Finding) {
    f.category.Some? && "scan:" <= f.category.value
  }

  /** Two findings of lenses at one place, or two scanner hits there with one title. */
  predicate SameSite(f: Finding, g: Finding) {
    && f.path == g.path && f.line == g.line && f.side == g.side
    && (Scanned(f) <==> Scanned(g)) && (Scanned(f) ==> f.title == g.title)
  }

  lemma {:induction false} SiteIsKey(f: Finding, g: Finding)
    ensures SameSite(f, g) <==> KeyOf(f) == KeyOf(g)
  {
  }

  /** g is no better than f: anchored if g is, and then no less severe, and then no shorter. */
  predicate NoWorse(f: Finding, g: Finding) {
    && (g.anchored ==> f.anchored)
    && (f.anchored == g.anchored ==> f.severity.Rank() >= g.severity.Rank())
    && (f.anchored == g.anchored && f.severity == g.severity ==> |f.body| >= |g.body|)
  }

  lemma {:induction false} NoWorseIs(f: Finding, g: Finding)
    ensures NoWorse(f, g) <==> !Better(g, f)
    ensures NoWorse(f, g) && NoWorse(g, f) <==> !Better(f, g) && !Better(g, f)
  {
    RankIsOne(f.severity, g.severity);
  }

  lemma {:induction false} RankIsOne(a: Severity, b: Severity)
    ensures a.Rank() == b.Rank() <==> a == b
  {
  }

  /** Of all findings at one site one is kept: the first of those no other there is better than; and a scanner's
      hit never ends as another hit's or as a lens's finding. */
  lemma {:induction false} OneOfASite(fs: seq<Finding>, merged: seq<Finding>, f: Finding) returns (i: nat)
    requires IsMerge(fs, merged) && f in fs
    ensures i < |fs| && fs[i] in merged && SameSite(fs[i], f)
    ensures forall j :: 0 <= j < |fs| && SameSite(fs[j], f) ==> NoWorse(fs[i], fs[j]) && (j < i ==> !NoWorse(fs[j], fs[i]))
    ensures forall m :: m in merged && SameSite(m, f) ==> m == fs[i]
  {
    hide Better, KeyOf, SameSite, NoWorse, Keys;
    var w := MergeCovers(fs, merged, f);
    var k :| 0 <= k < |merged| && merged[k] == w;
    i :| i < |fs| && fs[i] == w && FirstBest(fs, i);
    SiteIsKey(w, f);
    forall j | 0 <= j < |fs| && SameSite(fs[j], f) ensures NoWorse(fs[i], fs[j]) && (j < i ==> !NoWorse(fs[j], fs[i])) {
      SiteIsKey(fs[j], f);
      NoWorseIs(fs[i], fs[j]);
      NoWorseIs(fs[j], fs[i]);
      if j < i {
        assert fs[..i][j] == fs[j];
      }
    }
    forall m | m in merged && SameSite(m, f) ensures m == fs[i] {
      SiteIsKey(m, f);
      var n :| 0 <= n < |merged| && merged[n] == m;
      KeysDiffer(fs, k, n);
    }
  }

  lemma {:induction false} KeysDiffer(fs: seq<Finding>, i: nat, j: nat)
    requires i < |Keys(fs)| && j < |Keys(fs)| && Keys(fs)[i] == Keys(fs)[j]
    ensures i == j
  {
    hide KeyOf;
  }
}
