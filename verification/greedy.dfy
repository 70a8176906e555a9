/** engine/compress.py, batch_files: packing is greedy, and nothing else is. */
module Greedy {
  import opened Text
  import opened Slicing
  import opened Batching

  /** A unit that fills the budget by itself. */
  predicate Fills(file: File, count: Counter, max: nat) {
    count(file.1) >= max
  }

  /** One batch: a unit that fills the budget stands alone, and any others fit it together. */
  predicate FitsTogether(batch: Batch, count: Counter, max: nat) {
    batch != [] && (|batch| == 1 || (Total(batch, count) <= max && forall i :: 0 <= i < |batch| ==> !Fills(batch[i], count, max)))
  }

  /** A batch closed before the next: one of the two is a unit that fills the budget, or the next one's first unit
      would have gone over it. */
  predicate NoRoom(batch: Batch, next: Batch, count: Counter, max: nat)
    requires batch != [] && next != []
  {
    Fills(batch[0], count, max) || Fills(next[0], count, max) || Total(batch, count) + count(next[0].1) > max
  }

  predicate AllFit(batches: seq<Batch>, count: Counter, max: nat) {
    forall i :: 0 <= i < |batches| ==> FitsTogether(batches[i], count, max)
  }

  predicate IsGreedy(batches: seq<Batch>, count: Counter, max: nat) {
    AllFit(batches, count, max) && forall i :: 0 < i < |batches| ==> NoRoom(batches[i - 1], batches[i], count, max)
  }

  predicate GreedySoFar(p: Packing, count: Counter, max: nat) {
    && IsGreedy(Close(p), count, max)
    && p.tokens == Total(p.current, count) <= max
    && (forall i :: 0 <= i < |p.current| ==> !Fills(p.current[i], count, max))
    && (p.current == [] && p.batches != [] ==> p.batches[|p.batches| - 1] != [] && Fills(p.batches[|p.batches| - 1][0], count, max))
  }

  lemma {:induction false} OneMore(batches: seq<Batch>, batch: Batch, count: Counter, max: nat)
    requires IsGreedy(batches, count, max) && FitsTogether(batch, count, max)
    requires batches != [] ==> batches[|batches| - 1] != [] && NoRoom(batches[|batches| - 1], batch, count, max)
    ensures IsGreedy(batches + [batch], count, max)
  {
    hide FitsTogether, NoRoom, Total;
    assert forall i :: 0 <= i < |batches| ==> FitsTogether(batches[i], count, max);
    assert FitsTogether(batch, count, max);
    var all := batches + [batch];
    forall i | 0 <= i < |all| ensures FitsTogether(all[i], count, max) {
      assert i < |batches| ==> all[i] == batches[i];
    }
    NoneEmpty(all, count, max);
    NoneEmpty(batches, count, max);
    forall i | 0 < i < |all| ensures NoRoom(all[i - 1], all[i], count, max) {
      assert i < |batches| ==> NoRoom(batches[i - 1], batches[i], count, max);
    }
  }

  lemma {:induction false} NoneEmpty(batches: seq<Batch>, count: Counter, max: nat)
    requires AllFit(batches, count, max)
    ensures forall i :: 0 <= i < |batches| ==> batches[i] != []
  {
    hide Total;
  }

  lemma {:induction false} PackKeepsGreedy(p: Packing, file: File, count: Counter, max: nat)
    requires GreedySoFar(p, count, max)
    ensures GreedySoFar(Pack(p, file, count, max), count, max)
  {
    var cost := count(file.1);
    OneUnit(file, count);
    if cost >= max {
      AfterLast(p, [file], count, max);
      OneMore(Close(p), [file], count, max);
    } else if p.tokens + cost > max && p.current != [] {
      OneMore(Close(p), [file], count, max);
    } else {
      WithOneMore(p, file, count, max);
    }
  }

  lemma {:induction false} OneUnit(file: File, count: Counter)
    ensures Total([file], count) == count(file.1) && Total([], count) == 0
  {
    assert [file][1..] == [];
  }

  /** A unit that fills the budget may follow anything. */
  lemma {:induction false} AfterLast(p: Packing, next: Batch, count: Counter, max: nat)
    requires GreedySoFar(p, count, max) && next != [] && Fills(next[0], count, max)
    ensures Close(p) != [] ==> Close(p)[|Close(p)| - 1] != [] && NoRoom(Close(p)[|Close(p)| - 1], next, count, max)
  {
    hide Total;
  }

  /** A unit that still fits goes with the others. */
  lemma {:induction false} WithOneMore(p: Packing, file: File, count: Counter, max: nat)
    requires GreedySoFar(p, count, max) && count(file.1) < max
    requires p.tokens + count(file.1) <= max || p.current == []
    ensures GreedySoFar(Packing(p.batches, p.current + [file], p.tokens + count(file.1)), count, max)
  {
    var q := Packing(p.batches, p.current + [file], p.tokens + count(file.1));
    OneUnit(file, count);
    TotalConcat(p.current, [file], count);
    hide Total;
    Closed(p, count, max);
    OneMore(p.batches, q.current, count, max);
  }

  /** The batches closed so far are greedy, and the last has no room for what comes next. */
  lemma {:induction false} Closed(p: Packing, count: Counter, max: nat)
    requires GreedySoFar(p, count, max)
    ensures IsGreedy(p.batches, count, max)
    ensures p.batches != [] ==> p.batches[|p.batches| - 1] != []
    ensures p.batches != [] && p.current != [] ==> NoRoom(p.batches[|p.batches| - 1], p.current, count, max)
  {
    hide Total;
    var all, n := Close(p), |p.batches|;
    NoneEmpty(all, count, max);
    assert forall i :: 0 <= i < n ==> all[i] == p.batches[i];
    forall i | 0 <= i < n ensures FitsTogether(p.batches[i], count, max) {
      assert FitsTogether(all[i], count, max);
    }
    forall i | 0 < i < n ensures NoRoom(p.batches[i - 1], p.batches[i], count, max) {
      assert NoRoom(all[i - 1], all[i], count, max);
    }
    if n > 0 && p.current != [] {
      assert NoRoom(all[n - 1], all[n], count, max);
    }
  }

  lemma {:induction false} PackAllGreedy(p: Packing, files: seq<File>, count: Counter, max: nat)
    requires GreedySoFar(p, count, max)
    ensures GreedySoFar(PackAll(p, files, count, max), count, max)
    decreases |files|
  {
    hide GreedySoFar, Pack;
    if files != [] {
      PackKeepsGreedy(p, files[0], count, max);
      PackAllGreedy(Pack(p, files[0], count, max), files[1..], count, max);
    }
  }

  /** Two greedy packings of the same units start with the same batch. */
  lemma {:induction false} SameFirst(a: seq<Batch>, b: seq<Batch>, count: Counter, max: nat)
    requires IsGreedy(a, count, max) && IsGreedy(b, count, max) && Flatten(a) == Flatten(b) && a != [] && b != []
    ensures |a[0]| >= |b[0]|
  {
    hide Total;
    NoneEmpty(a, count, max);
    NoneEmpty(b, count, max);
    if |a[0]| < |b[0]| {
      var rest := Flatten(a[1..]);
      assert Flatten(a) == a[0] + rest && Flatten(b) == b[0] + Flatten(b[1..]);
      assert rest != [] by {
        assert |Flatten(a)| >= |b[0]|;
      }
      assert a[1..] != [] && rest == a[1] + Flatten(a[1..][1..]);
      var n := |a[0]|;
      assert b[0][n] == Flatten(b)[n] == Flatten(a)[n] == a[1][0];
      assert b[0][0] == Flatten(b)[0] == Flatten(a)[0] == a[0][0];
      assert FitsTogether(b[0], count, max) && NoRoom(a[0], a[1], count, max);
      assert b[0][..n] == Flatten(b)[..n] == Flatten(a)[..n] == a[0];
      assert b[0] == a[0] + ([b[0][n]] + b[0][n + 1..]);
      TotalConcat(a[0], [b[0][n]] + b[0][n + 1..], count);
      TotalConcat([b[0][n]], b[0][n + 1..], count);
      OneUnit(b[0][n], count);
    }
  }

  /** There is one greedy packing of a list of units. */
  lemma {:induction false} GreedyUnique(a: seq<Batch>, b: seq<Batch>, count: Counter, max: nat)
    requires IsGreedy(a, count, max) && IsGreedy(b, count, max) && Flatten(a) == Flatten(b)
    ensures a == b
  {
    NoneEmpty(a, count, max);
    NoneEmpty(b, count, max);
    if a != [] && b != [] {
      SameFirst(a, b, count, max);
      SameFirst(b, a, count, max);
      hide Total, FitsTogether, NoRoom;
      var n := |a[0]|;
      assert a[0] == Flatten(a)[..n] == Flatten(b)[..n] == b[0];
      assert Flatten(a[1..]) == Flatten(a)[n..] == Flatten(b)[n..] == Flatten(b[1..]);
      Rest(a, count, max);
      Rest(b, count, max);
      GreedyUnique(a[1..], b[1..], count, max);
      assert a == [a[0]] + a[1..] && b == [b[0]] + b[1..];
    }
  }

  lemma {:induction false} Rest(batches: seq<Batch>, count: Counter, max: nat)
    requires IsGreedy(batches, count, max) && batches != []
    ensures IsGreedy(batches[1..], count, max)
  {
    hide Total, FitsTogether, NoRoom;
    var rest := batches[1..];
    assert forall i :: 0 <= i < |rest| ==> rest[i] == batches[i + 1];
    forall i | 0 <= i < |rest| ensures FitsTogether(rest[i], count, max) {
      assert FitsTogether(batches[i + 1], count, max);
    }
    NoneEmpty(rest, count, max);
    forall i | 0 < i < |rest| ensures NoRoom(rest[i - 1], rest[i], count, max) {
      assert NoRoom(batches[i], batches[i + 1], count, max);
    }
  }

  /** The batches are exactly the greedy packing of their units: the only list of batches that holds the units in
      order, with a unit that fills the budget alone in its batch, the others within the budget together, and no batch
      closed while the next unit still fitted. */
  lemma {:induction false} BatchesAreGreedy(files: seq<File>, count: Counter, max: nat, recursive: bool, batches: seq<Batch>)
    requires Flatten(batches) == if recursive then Units(files, count, max) else files
    ensures batches == Batches(files, count, max, recursive) <==> IsGreedy(batches, count, max)
  {
    hide Units, GreedySoFar, IsGreedy;
    var todo := if recursive then Units(files, count, max) else files;
    EmptyIsGreedy(count, max);
    PackAllGreedy(EMPTY, todo, count, max);
    var p := PackAll(EMPTY, todo, count, max);
    assert IsGreedy(Close(p), count, max) by {
      GreedyCloses(p, count, max);
    }
    BatchesArePacked(files, count, max, recursive);
    if IsGreedy(batches, count, max) {
      GreedyUnique(batches, Close(p), count, max);
    }
  }

  lemma {:induction false} EmptyIsGreedy(count: Counter, max: nat)
    ensures GreedySoFar(EMPTY, count, max)
  {
  }

  lemma {:induction false} GreedyCloses(p: Packing, count: Counter, max: nat)
    requires GreedySoFar(p, count, max)
    ensures IsGreedy(Close(p), count, max)
  {
  }
}
