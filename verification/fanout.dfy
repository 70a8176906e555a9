/** engine/engine.py, _fan_out: every (batch, lens) call through one pool, a warm batch's first call
    alone until it has finished. */
module FanOut {
  /** One batch of calls; a warm one submits its first call alone. */
  datatype Batch = Batch(warm: bool, size: nat)

  datatype Event = Submitted(call: nat) | Finished(call: nat)

  /** The four dictionaries of the loop, and what the pool has seen. A future is named by the moment
      it was submitted. */
  datatype State<R> = State(
    results: map<nat, R>,
    pending: map<nat, nat>,
    primers: map<nat, nat>,
    deferred: map<nat, seq<nat>>,
    log: seq<Event>)

  // ----- The calls -----

  function Total(batches: seq<Batch>): nat {
    if batches == [] then 0 else batches[0].size + Total(batches[1..])
  }

  /** A warm batch has a first call. */
  predicate Usable(batches: seq<Batch>) {
    forall i :: 0 <= i < |batches| && batches[i].warm ==> batches[i].size >= 1
  }

  /** The call that must have finished before this one may start: the first of its warm batch. */
  function PrimerOf(batches: seq<Batch>, call: nat, offset: nat): Option
  {
    if batches == [] then NoPrimer
    else if call < batches[0].size then
      if batches[0].warm && call > 0 then Primer(offset) else NoPrimer
    else PrimerOf(batches[1..], call - batches[0].size, offset + batches[0].size)
  }

  datatype Option = NoPrimer | Primer(call: nat)

  function Range(lo: nat, hi: nat): (r: seq<nat>)
    requires lo <= hi
    ensures |r| == hi - lo && forall i :: 0 <= i < |r| ==> r[i] == lo + i
    decreases hi - lo
  {
    if lo == hi then [] else [lo] + Range(lo + 1, hi)
  }

  // ----- Steps -----

  function Submit<R>(s: State<R>, call: nat): State<R> {
    s.(pending := s.pending[|s.log| := call], log := s.log + [Submitted(call)])
  }

  function SubmitAll<R>(s: State<R>, calls: seq<nat>): State<R>
    decreases |calls|
  {
    if calls == [] then s else SubmitAll(Submit(s, calls[0]), calls[1..])
  }

  /** The calls after the first of a warm batch wait for the future that runs the first. */
  function HoldBack<R>(s: State<R>, future: nat, index: nat, first: nat, size: nat): State<R>
    requires size >= 1
  {
    s.(primers := s.primers[future := index], deferred := s.deferred[index := Range(first + 1, first + size)])
  }

  /** One batch of the first loop: a warm one submits its first call alone, any other all its calls. */
  function TakeBatch<R>(s: State<R>, b: Batch, index: nat, first: nat): State<R>
    requires b.warm ==> b.size >= 1
  {
    if b.warm then HoldBack(Submit(s, first), |s.log|, index, first, b.size)
    else SubmitAll(s, Range(first, first + b.size))
  }

  /** The first loop: what is submitted up front, and what is held back. */
  function StartFrom<R>(s: State<R>, batches: seq<Batch>, index: nat, first: nat): State<R>
    requires Usable(batches)
    decreases |batches|
  {
    if batches == [] then s
    else
      var b := batches[0];
      StartFrom(TakeBatch(s, b, index, first), batches[1..], index + 1, first + b.size)
  }

  function Start<R>(batches: seq<Batch>): State<R>
    requires Usable(batches)
  {
    StartFrom(State(map[], map[], map[], map[], []), batches, 0, 0)
  }

  function Finish<R>(s: State<R>, future: nat, outcome: nat -> R): State<R>
    requires future in s.pending
  {
    var call := s.pending[future];
    s.(results := s.results[call := outcome(call)], pending := s.pending - {future}, log := s.log + [Finished(call)])
  }

  /** One completed future: its result is kept and, if it was a primer, its batch released. */
  function Complete<R>(s: State<R>, future: nat, outcome: nat -> R): State<R>
    requires future in s.pending
  {
    var s' := Finish(s, future, outcome);
    if future in s.primers then
      var index := s.primers[future];
      var calls := if index in s.deferred then s.deferred[index] else [];
      SubmitAll(s'.(primers := s.primers - {future}, deferred := s.deferred - {index}), calls)
    else s'
  }

  // ----- What holds after every step -----

  predicate Has(log: seq<Event>, e: Event) {
    exists i :: 0 <= i < |log| && log[i] == e
  }

  /** A call may start: it has no primer, or its primer has finished. */
  predicate Cleared(batches: seq<Batch>, log: seq<Event>, call: nat) {
    match PrimerOf(batches, call, 0)
    case NoPrimer => true
    case Primer(p) => Has(log, Finished(p))
  }

  /** No call starts before its primer has finished. */
  predicate Safe(batches: seq<Batch>, log: seq<Event>) {
    forall i :: 0 <= i < |log| && log[i].Submitted? ==> Cleared(batches, log[..i], log[i].call)
  }

  /** Where a call is: held back by a step under way, waiting behind its batch's primer, in flight as
      a future, or done as one. */
  datatype Place = InHand | Held(index: nat, k: nat) | InFlight(future: nat) | Done(future: nat)

  type Places = map<nat, Place>

  ghost predicate PlacesCalls(batches: seq<Batch>, at: Places) {
    forall call: nat :: call in at <==> call < Total(batches)
  }

  ghost predicate PlacedResults<R>(s: State<R>, at: Places, outcome: nat -> R) {
    && (forall c :: c in s.results <==> c in at && at[c].Done?)
    && (forall c :: c in s.results ==> s.results[c] == outcome(c))
  }

  ghost predicate PlacedPending<R>(s: State<R>, at: Places) {
    && (forall f :: f in s.pending ==> s.pending[f] in at && at[s.pending[f]] == InFlight(f))
    && (forall c :: c in at && at[c].InFlight? ==> at[c].future in s.pending && s.pending[at[c].future] == c)
  }

  ghost predicate PlacedHeld<R>(s: State<R>, at: Places) {
    && (forall i, k :: i in s.deferred && 0 <= k < |s.deferred[i]| ==>
          s.deferred[i][k] in at && at[s.deferred[i][k]] == Held(i, k))
    && (forall c :: c in at && at[c].Held? ==>
          at[c].index in s.deferred && at[c].k < |s.deferred[at[c].index]| && s.deferred[at[c].index][at[c].k] == c)
  }

  /** The dictionaries hold exactly the calls that are where they say. */
  ghost predicate Placed<R>(s: State<R>, at: Places, outcome: nat -> R) {
    PlacedResults(s, at, outcome) && PlacedPending(s, at) && PlacedHeld(s, at)
  }

  ghost predicate LoggedStarts(log: seq<Event>, at: Places) {
    forall i :: 0 <= i < |log| && log[i].Submitted? ==>
      log[i].call in at && (at[log[i].call] == InFlight(i) || at[log[i].call] == Done(i))
  }

  ghost predicate LoggedPlaces(log: seq<Event>, at: Places) {
    forall c :: c in at && (at[c].InFlight? || at[c].Done?) ==>
      at[c].future < |log| && log[at[c].future] == Submitted(c)
  }

  ghost predicate LoggedEnds(log: seq<Event>, at: Places) {
    forall c :: c in at && at[c].Done? ==> Has(log, Finished(c))
  }

  /** The log names each future once, under the call it runs, and each finished call. */
  ghost predicate Logged(batches: seq<Batch>, log: seq<Event>, at: Places) {
    Safe(batches, log) && LoggedStarts(log, at) && LoggedPlaces(log, at) && LoggedEnds(log, at)
  }

  /** Every batch held back has its primer in flight, and its calls wait for that primer. */
  ghost predicate Primed<R>(batches: seq<Batch>, s: State<R>) {
    && (forall f :: f in s.primers ==> f in s.pending && s.primers[f] in s.deferred)
    && (forall f, g :: f in s.primers && g in s.primers && s.primers[f] == s.primers[g] ==> f == g)
    && (forall i :: i in s.deferred ==> exists f :: f in s.primers && s.primers[f] == i)
    && (forall f, k :: f in s.primers && 0 <= k < |s.deferred[s.primers[f]]| ==>
          PrimerOf(batches, s.deferred[s.primers[f]][k], 0) == Primer(s.pending[f]))
  }

  ghost predicate Inv<R>(batches: seq<Batch>, s: State<R>, at: Places, outcome: nat -> R) {
    PlacesCalls(batches, at) && Placed(s, at, outcome) && Logged(batches, s.log, at) && Primed(batches, s)
  }

  // ----- One submission -----

  lemma {:induction false} HasMore(log: seq<Event>, more: Event, e: Event)
    requires Has(log, e)
    ensures Has(log + [more], e)
  {
    var i :| 0 <= i < |log| && log[i] == e;
    assert (log + [more])[i] == e;
  }

  lemma {:induction false} SafeMore(batches: seq<Batch>, log: seq<Event>, e: Event)
    requires Safe(batches, log) && (e.Submitted? ==> Cleared(batches, log, e.call))
    ensures Safe(batches, log + [e])
  {
    hide Cleared;
    forall i | 0 <= i < |log + [e]| && (log + [e])[i].Submitted?
      ensures Cleared(batches, (log + [e])[..i], (log + [e])[i].call)
    {
      assert (log + [e])[..i] == log[..i];
      if i == |log| {
        assert log[..i] == log;
      }
    }
  }

  lemma {:induction false} SubmitKeeps<R>(batches: seq<Batch>, s: State<R>, at: Places, outcome: nat -> R, call: nat)
    requires Inv(batches, s, at, outcome) && call in at && at[call] == InHand && Cleared(batches, s.log, call)
    ensures Inv(batches, Submit(s, call), at[call := InFlight(|s.log|)], outcome)
  {
    FreshFuture(batches, s, at, outcome);
    SubmitPlaces(batches, s, at, outcome, call);
    SubmitLogs(batches, s, at, outcome, call);
    SubmitPrimes(batches, s, call);
    hide Placed, Logged, Primed;
    assert forall c :: c in at[call := InFlight(|s.log|)] <==> c in at;
  }

  lemma {:induction false} SubmitPrimes<R>(batches: seq<Batch>, s: State<R>, call: nat)
    requires Primed(batches, s) && forall f :: f in s.pending ==> f < |s.log|
    ensures Primed(batches, Submit(s, call))
  {
  }

  /** No future in use is numbered past the log. */
  lemma {:induction false} FreshFuture<R>(batches: seq<Batch>, s: State<R>, at: Places, outcome: nat -> R)
    requires Inv(batches, s, at, outcome)
    ensures forall f :: f in s.pending ==> f < |s.log|
  {
    forall f | f in s.pending ensures f < |s.log| {
      var c := s.pending[f];
      assert at[c] == InFlight(f);
    }
  }

  lemma {:induction false} SubmitPlaces<R>(batches: seq<Batch>, s: State<R>, at: Places, outcome: nat -> R, call: nat)
    requires Inv(batches, s, at, outcome) && call in at && at[call] == InHand
    requires forall f :: f in s.pending ==> f < |s.log|
    ensures Placed(Submit(s, call), at[call := InFlight(|s.log|)], outcome)
  {
    hide Logged, Primed, PlacesCalls;
    var s', at' := Submit(s, call), at[call := InFlight(|s.log|)];
    assert PlacedResults(s', at', outcome) by {
      hide PlacedPending, PlacedHeld;
    }
    assert PlacedPending(s', at') by {
      hide PlacedResults, PlacedHeld;
    }
    hide PlacedResults, PlacedPending;
  }

  lemma {:induction false} SubmitLogs<R>(batches: seq<Batch>, s: State<R>, at: Places, outcome: nat -> R, call: nat)
    requires Inv(batches, s, at, outcome) && call in at && at[call] == InHand && Cleared(batches, s.log, call)
    ensures Logged(batches, Submit(s, call).log, at[call := InFlight(|s.log|)])
  {
    hide Placed, Primed, Cleared, Safe;
    var s', at' := Submit(s, call), at[call := InFlight(|s.log|)];
    SafeMore(batches, s.log, Submitted(call));
    forall c | c in at' && at'[c].Done? ensures Has(s'.log, Finished(c)) {
      HasMore(s.log, Submitted(call), Finished(c));
    }
  }

  // ----- Many submissions -----

  predicate Distinct(calls: seq<nat>) {
    forall i, j :: 0 <= i < j < |calls| ==> calls[i] != calls[j]
  }

  lemma {:induction false} ClearedMore(batches: seq<Batch>, log: seq<Event>, e: Event, call: nat)
    requires Cleared(batches, log, call)
    ensures Cleared(batches, log + [e], call)
  {
    var p := PrimerOf(batches, call, 0);
    if p.Primer? {
      HasMore(log, e, Finished(p.call));
    }
  }

  /** Submitting calls in hand, each cleared to start, puts them all in flight and moves no other. */
  lemma {:induction false} SubmitAllKeeps<R>(batches: seq<Batch>, s: State<R>, at: Places, outcome: nat -> R, calls: seq<nat>)
      returns (at': Places)
    requires Inv(batches, s, at, outcome) && Distinct(calls)
    requires forall i :: 0 <= i < |calls| ==> calls[i] in at && at[calls[i]] == InHand && Cleared(batches, s.log, calls[i])
    ensures Inv(batches, SubmitAll(s, calls), at', outcome) && at'.Keys == at.Keys
    ensures forall c :: c in at ==> if c in calls then at'[c].InFlight? else at'[c] == at[c]
    ensures SubmitAll(s, calls).deferred == s.deferred && SubmitAll(s, calls).primers == s.primers
    ensures SubmitAll(s, calls).results == s.results && s.log <= SubmitAll(s, calls).log
    decreases |calls|
  {
    hide Inv, Cleared;
    if calls == [] {
      at' := at;
    } else {
      var call, rest := calls[0], calls[1..];
      SubmitKeeps(batches, s, at, outcome, call);
      forall i | 0 <= i < |rest| ensures Cleared(batches, Submit(s, call).log, rest[i]) {
        assert rest[i] == calls[i + 1];
        ClearedMore(batches, s.log, Submitted(call), rest[i]);
      }
      at' := SubmitAllKeeps(batches, Submit(s, call), at[call := InFlight(|s.log|)], outcome, rest);
      assert forall c :: c in calls <==> c == call || c in rest;
    }
  }

  // ----- The first loop -----

  function Offset(batches: seq<Batch>, k: nat): nat
    requires k <= |batches|
  {
    if k == 0 then 0 else batches[0].size + Offset(batches[1..], k - 1)
  }

  lemma {:induction false} OffsetNext(batches: seq<Batch>, k: nat)
    requires k < |batches|
    ensures Offset(batches, k + 1) == Offset(batches, k) + batches[k].size <= Total(batches)
    decreases k
  {
    if k > 0 {
      OffsetNext(batches[1..], k - 1);
    }
  }

  lemma {:induction false} OffsetEnd(batches: seq<Batch>)
    ensures Offset(batches, |batches|) == Total(batches)
  {
    if batches != [] {
      OffsetEnd(batches[1..]);
    }
  }

  /** The calls of batch k, and what each waits for. */
  lemma {:induction false} PrimerAt(batches: seq<Batch>, k: nat, j: nat, offset: nat)
    requires k < |batches| && j < batches[k].size
    ensures PrimerOf(batches, Offset(batches, k) + j, offset)
         == if batches[k].warm && j > 0 then Primer(offset + Offset(batches, k)) else NoPrimer
    decreases k
  {
    if k > 0 {
      PrimerAt(batches[1..], k - 1, j, offset + batches[0].size);
    }
  }

  /** Calls from first on are in hand, and no other. */
  predicate InHandFrom(at: Places, first: nat) {
    forall c :: c in at ==> (at[c] == InHand <==> first <= c)
  }

  predicate HeldBelow<R>(s: State<R>, k: nat) {
    (forall i :: i in s.deferred ==> i < k)
  }

  /** Holding back the calls after a primer that has just been submitted. */
  lemma {:induction false} HoldKeeps<R>(batches: seq<Batch>, s: State<R>, at: Places, outcome: nat -> R, k: nat, future: nat) returns (at': Places)
    requires k < |batches| && batches[k].warm && batches[k].size >= 1
    requires Inv(batches, s, at, outcome) && InHandFrom(at, Offset(batches, k) + 1) && HeldBelow(s, k)
    requires future in s.pending && s.pending[future] == Offset(batches, k) && future !in s.primers
    ensures Inv(batches, HoldBack(s, future, k, Offset(batches, k), batches[k].size), at', outcome)
    ensures InHandFrom(at', Offset(batches, k) + batches[k].size)
  {
    hide Placed, Logged, Primed, PlacesCalls, InHandFrom, HeldBelow, HoldBack, Offset;
    var first, size := Offset(batches, k), batches[k].size;
    var s' := HoldBack(s, future, k, first, size);
    OffsetNext(batches, k);
    at' := HoldAll(at, k, first, size);
    HoldPlaces(batches, s, at, outcome, first, size, k, future);
    HoldLogs(batches, s, at, first, size, k, future);
    HoldPrimes(batches, s, k, future);
    SameCalls(batches, at, at');
  }

  lemma {:induction false} SameCalls(batches: seq<Batch>, at: Places, at': Places)
    requires PlacesCalls(batches, at) && at'.Keys == at.Keys
    ensures PlacesCalls(batches, at')
  {
    assert forall c: nat :: c in at' <==> c in at'.Keys;
  }

  /** The places once the calls after first are held back. */
  function HoldAll(at: Places, k: nat, first: nat, size: nat): Places {
    map c | c in at :: if first < c < first + size then Held(k, c - first - 1) else at[c]
  }

  lemma {:induction false} HoldPlaces<R>(batches: seq<Batch>, s: State<R>, at: Places, outcome: nat -> R, first: nat, size: nat, k: nat, future: nat)
    requires size >= 1 && PlacesCalls(batches, at) && Placed(s, at, outcome) && InHandFrom(at, first + 1) && HeldBelow(s, k)
    requires first + size <= Total(batches)
    ensures Placed(HoldBack(s, future, k, first, size), HoldAll(at, k, first, size), outcome)
    ensures InHandFrom(HoldAll(at, k, first, size), first + size)
  {
    HoldPlacesFree(batches, s, at, outcome, first, size, k, future);
    HoldPlacesHeld(batches, s, at, first, size, k, future);
    hide PlacedResults, PlacedPending, PlacedHeld, HoldBack, InHandFrom;
  }

  lemma {:induction false} HoldPlacesFree<R>(batches: seq<Batch>, s: State<R>, at: Places, outcome: nat -> R, first: nat, size: nat, k: nat, future: nat)
    requires size >= 1 && PlacedResults(s, at, outcome) && PlacedPending(s, at) && InHandFrom(at, first + 1)
    ensures var s', at' := HoldBack(s, future, k, first, size), HoldAll(at, k, first, size);
      PlacedResults(s', at', outcome) && PlacedPending(s', at') && InHandFrom(at', first + size)
  {
    hide Range;
  }

  lemma {:induction false} HoldPlacesHeld<R>(batches: seq<Batch>, s: State<R>, at: Places, first: nat, size: nat, k: nat, future: nat)
    requires size >= 1 && PlacesCalls(batches, at) && PlacedHeld(s, at) && InHandFrom(at, first + 1) && HeldBelow(s, k)
    requires first + size <= Total(batches)
    ensures PlacedHeld(HoldBack(s, future, k, first, size), HoldAll(at, k, first, size))
  {
    var s', at' := HoldBack(s, future, k, first, size), HoldAll(at, k, first, size);
    forall i, j | i in s'.deferred && 0 <= j < |s'.deferred[i]|
      ensures s'.deferred[i][j] in at' && at'[s'.deferred[i][j]] == Held(i, j)
    {
      if i == k {
        assert s'.deferred[i][j] == first + 1 + j;
      } else {
        assert s'.deferred[i] == s.deferred[i] && at[s.deferred[i][j]] == Held(i, j);
      }
    }
    forall c | c in at' && at'[c].Held?
      ensures at'[c].index in s'.deferred && at'[c].k < |s'.deferred[at'[c].index]| && s'.deferred[at'[c].index][at'[c].k] == c
    {
      if !(first < c < first + size) {
        assert at[c].index in s.deferred && at[c].index != k;
      }
    }
  }

  lemma {:induction false} HoldLogs<R>(batches: seq<Batch>, s: State<R>, at: Places, first: nat, size: nat, k: nat, future: nat)
    requires size >= 1 && Logged(batches, s.log, at) && InHandFrom(at, first + 1)
    ensures Logged(batches, HoldBack(s, future, k, first, size).log, HoldAll(at, k, first, size))
  {
    hide Safe, Has, Range;
  }

  /** The calls held back are the ones that wait for the first call of the batch. */
  lemma {:induction false} HeldWaitFor(batches: seq<Batch>, k: nat, j: nat)
    requires k < |batches| && batches[k].warm && j + 1 < batches[k].size
    ensures var first := Offset(batches, k);
      PrimerOf(batches, Range(first + 1, first + batches[k].size)[j], 0) == Primer(first)
  {
    PrimerAt(batches, k, j + 1, 0);
  }

  lemma {:induction false} HoldPrimes<R>(batches: seq<Batch>, s: State<R>, k: nat, future: nat)
    requires k < |batches| && batches[k].warm && batches[k].size >= 1
    requires Primed(batches, s) && HeldBelow(s, k) && future in s.pending && s.pending[future] == Offset(batches, k) && future !in s.primers
    ensures Primed(batches, HoldBack(s, future, k, Offset(batches, k), batches[k].size))
  {
    hide PrimerOf, Offset, Range;
    var s' := HoldBack(s, future, k, Offset(batches, k), batches[k].size);
    forall i | i in s'.deferred ensures exists f :: f in s'.primers && s'.primers[f] == i {
      if i == k {
        assert s'.primers[future] == k;
      } else {
        var f :| f in s.primers && s.primers[f] == i;
        assert f in s'.primers && s'.primers[f] == i;
      }
    }
    forall f, j | f in s'.primers && 0 <= j < |s'.deferred[s'.primers[f]]|
      ensures PrimerOf(batches, s'.deferred[s'.primers[f]][j], 0) == Primer(s'.pending[f])
    {
      if f == future {
        HeldWaitFor(batches, k, j);
      } else {
        assert s'.primers[f] == s.primers[f] && s'.primers[f] != k;
      }
    }
  }

  lemma {:induction false} RangeDistinct(lo: nat, hi: nat)
    requires lo <= hi
    ensures Distinct(Range(lo, hi)) && forall c :: c in Range(lo, hi) <==> lo <= c < hi
  {
    forall c | lo <= c < hi ensures c in Range(lo, hi) {
      assert Range(lo, hi)[c - lo] == c;
    }
  }

  lemma {:induction false} StartKeeps<R>(batches: seq<Batch>, s: State<R>, at: Places, outcome: nat -> R, k: nat) returns (at': Places)
    requires Usable(batches) && k <= |batches|
    requires Inv(batches, s, at, outcome) && InHandFrom(at, Offset(batches, k)) && HeldBelow(s, k)
    ensures Inv(batches, StartFrom(s, batches[k..], k, Offset(batches, k)), at', outcome) && InHandFrom(at', Total(batches))
    decreases |batches| - k
  {
    hide Inv, InHandFrom, HeldBelow, TakeBatch;
    if k == |batches| {
      OffsetEnd(batches);
      at' := at;
    } else {
      var b, first := batches[k], Offset(batches, k);
      OffsetNext(batches, k);
      assert batches[k..][1..] == batches[k + 1..];
      var at1 := NextBatch(batches, s, at, outcome, k);
      at' := StartKeeps(batches, TakeBatch(s, b, k, first), at1, outcome, k + 1);
    }
  }

  /** What the loop does with one batch. */
  lemma {:induction false} NextBatch<R>(batches: seq<Batch>, s: State<R>, at: Places, outcome: nat -> R, k: nat) returns (at': Places)
    requires Usable(batches) && k < |batches|
    requires Inv(batches, s, at, outcome) && InHandFrom(at, Offset(batches, k)) && HeldBelow(s, k)
    ensures var first, b := Offset(batches, k), batches[k];
      var s' := TakeBatch(s, b, k, first);
      Inv(batches, s', at', outcome) && InHandFrom(at', first + b.size) && HeldBelow(s', k + 1)
  {
    hide Inv, InHandFrom, Range, SubmitAll, Offset;
    if batches[k].warm {
      at' := NextWarmBatch(batches, s, at, outcome, k);
    } else {
      at' := NextColdBatch(batches, s, at, outcome, k);
    }
  }

  lemma {:induction false} NextWarmBatch<R>(batches: seq<Batch>, s: State<R>, at: Places, outcome: nat -> R, k: nat) returns (at': Places)
    requires Usable(batches) && k < |batches| && batches[k].warm
    requires Inv(batches, s, at, outcome) && InHandFrom(at, Offset(batches, k)) && HeldBelow(s, k)
    ensures var first, size := Offset(batches, k), batches[k].size;
      var s' := HoldBack(Submit(s, first), |s.log|, k, first, size);
      Inv(batches, s', at', outcome) && InHandFrom(at', first + size)
  {
    hide Inv, HoldBack, Offset, InHandFrom, Cleared;
    var first := Offset(batches, k);
    FirstIsReady(batches, s, at, outcome, k);
    NoFreshPrimer(batches, s, at, outcome);
    hide Usable;
    FirstTaken(at, first, |s.log|);
    SubmitKeeps(batches, s, at, outcome, first);
    at' := HoldKeeps(batches, Submit(s, first), at[first := InFlight(|s.log|)], outcome, k, |s.log|);
  }

  /** The first call of a warm batch is in hand and waits for nothing. */
  lemma {:induction false} FirstIsReady<R>(batches: seq<Batch>, s: State<R>, at: Places, outcome: nat -> R, k: nat)
    requires k < |batches| && batches[k].size >= 1
    requires Inv(batches, s, at, outcome) && InHandFrom(at, Offset(batches, k))
    ensures Offset(batches, k) in at && at[Offset(batches, k)] == InHand && Cleared(batches, s.log, Offset(batches, k))
  {
    hide Inv;
    OffsetNext(batches, k);
    CallsInHand(batches, s, at, outcome);
    PrimerAt(batches, k, 0, 0);
  }

  lemma {:induction false} FirstTaken(at: Places, first: nat, future: nat)
    requires InHandFrom(at, first) && first in at
    ensures InHandFrom(at[first := InFlight(future)], first + 1)
  {
  }

  lemma {:induction false} NextColdBatch<R>(batches: seq<Batch>, s: State<R>, at: Places, outcome: nat -> R, k: nat) returns (at': Places)
    requires k < |batches| && !batches[k].warm
    requires Inv(batches, s, at, outcome) && InHandFrom(at, Offset(batches, k))
    ensures var first, size := Offset(batches, k), batches[k].size;
      var s' := SubmitAll(s, Range(first, first + size));
      Inv(batches, s', at', outcome) && InHandFrom(at', first + size) && s'.deferred == s.deferred
  {
    hide Inv, SubmitAll, Offset;
    var first: nat := Offset(batches, k);
    var calls: seq<nat> := Range(first, first + batches[k].size);
    ColdCallsCleared(batches, s, k);
    OffsetNext(batches, k);
    CallsInHand(batches, s, at, outcome);
    RangeDistinct(first, first + batches[k].size);
    hide Cleared, Range;
    forall i | 0 <= i < |calls| ensures calls[i] in at && at[calls[i]] == InHand && Cleared(batches, s.log, calls[i]) {
      assert calls[i] in calls;
    }
    at' := SubmitAllKeeps(batches, s, at, outcome, calls);
  }

  lemma {:induction false} ColdCallsCleared<R>(batches: seq<Batch>, s: State<R>, k: nat)
    requires k < |batches| && !batches[k].warm
    ensures var first := Offset(batches, k);
      var calls := Range(first, first + batches[k].size);
      forall i :: 0 <= i < |calls| ==> Cleared(batches, s.log, calls[i])
  {
    var first := Offset(batches, k);
    var calls := Range(first, first + batches[k].size);
    forall i | 0 <= i < |calls| ensures Cleared(batches, s.log, calls[i]) {
      PrimerAt(batches, k, i, 0);
    }
  }

  lemma {:induction false} CallsInHand<R>(batches: seq<Batch>, s: State<R>, at: Places, outcome: nat -> R)
    requires Inv(batches, s, at, outcome)
    ensures forall c: nat :: c in at <==> c < Total(batches)
  {
    hide Placed, Logged, Primed;
  }

  lemma {:induction false} NoFreshPrimer<R>(batches: seq<Batch>, s: State<R>, at: Places, outcome: nat -> R)
    requires Inv(batches, s, at, outcome)
    ensures |s.log| !in s.primers
  {
    FreshFuture(batches, s, at, outcome);
    hide Placed, Logged;
  }

  /** After the first loop nothing is in hand: every call is in flight or waits behind its primer. */
  lemma {:induction false} StartIsGood<R>(batches: seq<Batch>, outcome: nat -> R) returns (at: Places)
    requires Usable(batches)
    ensures Inv(batches, Start<R>(batches), at, outcome) && InHandFrom(at, Total(batches))
  {
    var none: State<R> := State(map[], map[], map[], map[], []);
    RangeDistinct(0, Total(batches));
    var all: Places := map c | c in Range(0, Total(batches)) :: InHand;
    assert Inv(batches, none, all, outcome);
    assert batches[0..] == batches;
    at := StartKeeps(batches, none, all, outcome, 0);
  }

  // ----- One completion -----

  /** The places once a future is done: its call is done, and the calls that waited for it are in hand. */
  function DoneAt<R>(s: State<R>, at: Places, future: nat): Places
    requires future in s.pending
  {
    map c | c in at ::
      if c == s.pending[future] then Done(future)
      else if future in s.primers && at[c].Held? && at[c].index == s.primers[future] then InHand
      else at[c]
  }

  /** A completed future before the batch it was holding back is submitted. */
  function Release<R>(s: State<R>, future: nat, outcome: nat -> R): State<R>
    requires future in s.pending
  {
    var s' := Finish(s, future, outcome);
    if future in s.primers then s'.(primers := s.primers - {future}, deferred := s.deferred - {s.primers[future]}) else s'
  }

  /** The calls that waited for a future. */
  function Released<R>(s: State<R>, future: nat): seq<nat> {
    if future in s.primers && s.primers[future] in s.deferred then s.deferred[s.primers[future]] else []
  }

  ghost predicate NothingInHand(at: Places) {
    forall c :: c in at ==> at[c] != InHand
  }

  lemma {:induction false} ReleasePlaces<R>(batches: seq<Batch>, s: State<R>, at: Places, outcome: nat -> R, future: nat)
    requires Inv(batches, s, at, outcome) && future in s.pending
    ensures var s', at' := Release(s, future, outcome), DoneAt(s, at, future);
      PlacedResults(s', at', outcome) && PlacedPending(s', at')
  {
    hide Logged, PlacesCalls, Primed, PlacedHeld;
    assert s.pending[future] in at && at[s.pending[future]] == InFlight(future);
  }

  lemma {:induction false} ReleaseHeld<R>(batches: seq<Batch>, s: State<R>, at: Places, outcome: nat -> R, future: nat)
    requires Inv(batches, s, at, outcome) && future in s.pending
    ensures PlacedHeld(Release(s, future, outcome), DoneAt(s, at, future))
  {
    hide Logged, PlacesCalls, Primed;
    var call := s.pending[future];
    assert call in at && at[call] == InFlight(future);
    var s', at' := Release(s, future, outcome), DoneAt(s, at, future);
    forall i, k | i in s'.deferred && 0 <= k < |s'.deferred[i]|
      ensures s'.deferred[i][k] in at' && at'[s'.deferred[i][k]] == Held(i, k)
    {
      assert at[s.deferred[i][k]] == Held(i, k);
    }
  }

  lemma {:induction false} ReleaseStarts<R>(s: State<R>, at: Places, future: nat)
    requires LoggedStarts(s.log, at) && future in s.pending
    requires s.pending[future] in at && at[s.pending[future]] == InFlight(future)
    ensures LoggedStarts(s.log + [Finished(s.pending[future])], DoneAt(s, at, future))
  {
    var log', at' := s.log + [Finished(s.pending[future])], DoneAt(s, at, future);
    forall i | 0 <= i < |log'| && log'[i].Submitted?
      ensures log'[i].call in at' && (at'[log'[i].call] == InFlight(i) || at'[log'[i].call] == Done(i))
    {
      assert log'[i] == s.log[i];
    }
  }

  lemma {:induction false} ReleaseEnds<R>(s: State<R>, at: Places, future: nat)
    requires LoggedPlaces(s.log, at) && LoggedEnds(s.log, at) && future in s.pending
    requires s.pending[future] in at && at[s.pending[future]] == InFlight(future)
    ensures var log', at' := s.log + [Finished(s.pending[future])], DoneAt(s, at, future);
      LoggedPlaces(log', at') && LoggedEnds(log', at')
  {
    hide Has;
    var call := s.pending[future];
    var log', at' := s.log + [Finished(call)], DoneAt(s, at, future);
    forall c | c in at' && at'[c].Done? ensures Has(log', Finished(c)) {
      if c == call {
        HasLast(s.log, Finished(call));
      } else {
        HasMore(s.log, Finished(call), Finished(c));
      }
    }
  }

  lemma {:induction false} ReleaseLogs<R>(batches: seq<Batch>, s: State<R>, at: Places, outcome: nat -> R, future: nat)
    requires Inv(batches, s, at, outcome) && future in s.pending
    ensures Logged(batches, Release(s, future, outcome).log, DoneAt(s, at, future))
  {
    var call := s.pending[future];
    assert call in at && at[call] == InFlight(future);
    hide Placed, PlacesCalls, Primed, Cleared, Safe, LoggedStarts, LoggedPlaces, LoggedEnds, DoneAt;
    SafeMore(batches, s.log, Finished(call));
    ReleaseStarts(s, at, future);
    ReleaseEnds(s, at, future);
  }

  lemma {:induction false} HasLast(log: seq<Event>, e: Event)
    ensures Has(log + [e], e)
  {
    assert (log + [e])[|log|] == e;
  }

  lemma {:induction false} ReleasePrimes<R>(batches: seq<Batch>, s: State<R>, at: Places, outcome: nat -> R, future: nat)
    requires Primed(batches, s) && future in s.pending
    ensures Primed(batches, Release(s, future, outcome))
  {
    hide PrimerOf;
    var s' := Release(s, future, outcome);
    forall i | i in s'.deferred ensures exists f :: f in s'.primers && s'.primers[f] == i {
      var f :| f in s.primers && s.primers[f] == i;
      assert f in s'.primers && s'.primers[f] == i;
    }
  }

  lemma {:induction false} ReleaseKeeps<R>(batches: seq<Batch>, s: State<R>, at: Places, outcome: nat -> R, future: nat)
    requires Inv(batches, s, at, outcome) && future in s.pending
    ensures Inv(batches, Release(s, future, outcome), DoneAt(s, at, future), outcome)
  {
    hide Logged, Primed, PlacedResults, PlacedPending, PlacedHeld, PlacesCalls, Release, DoneAt;
    ReleasePlaces(batches, s, at, outcome, future);
    ReleaseHeld(batches, s, at, outcome, future);
    ReleaseLogs(batches, s, at, outcome, future);
    ReleasePrimes(batches, s, at, outcome, future);
    ReleaseCalls(batches, s, at, future);
  }

  lemma {:induction false} ReleaseCalls<R>(batches: seq<Batch>, s: State<R>, at: Places, future: nat)
    requires PlacesCalls(batches, at) && future in s.pending
    ensures PlacesCalls(batches, DoneAt(s, at, future))
  {
    SameCalls(batches, at, DoneAt(s, at, future));
  }

  /** The calls a primer held back are in hand once it is done, each once, and cleared to start. */
  lemma {:induction false} ReleasedReady<R>(batches: seq<Batch>, s: State<R>, at: Places, outcome: nat -> R, future: nat)
    requires Inv(batches, s, at, outcome) && future in s.pending && NothingInHand(at)
    ensures var calls, at' := Released(s, future), DoneAt(s, at, future);
      && Distinct(calls)
      && (forall i :: 0 <= i < |calls| ==> calls[i] in at' && at'[calls[i]] == InHand)
      && (forall c :: c in at' && at'[c] == InHand ==> c in calls)
  {
    hide Logged, PlacesCalls;
    var calls, at' := Released(s, future), DoneAt(s, at, future);
    assert at[s.pending[future]] == InFlight(future);
    forall i | 0 <= i < |calls| ensures calls[i] in at && at[calls[i]] == Held(s.primers[future], i) {
    }
  }

  lemma {:induction false} ReleasedCleared<R>(batches: seq<Batch>, s: State<R>, future: nat, outcome: nat -> R)
    requires Primed(batches, s) && future in s.pending
    ensures var calls := Released(s, future);
      forall i :: 0 <= i < |calls| ==> Cleared(batches, Release(s, future, outcome).log, calls[i])
  {
    var calls, log := Released(s, future), Release(s, future, outcome).log;
    assert log[|s.log|] == Finished(s.pending[future]);
    hide PrimerOf;
    forall i | 0 <= i < |calls| ensures Cleared(batches, log, calls[i]) {
      assert PrimerOf(batches, calls[i], 0) == Primer(s.pending[future]);
    }
  }

  lemma {:induction false} CompleteIsRelease<R>(batches: seq<Batch>, s: State<R>, future: nat, outcome: nat -> R)
    requires Primed(batches, s) && future in s.pending
    ensures Complete(s, future, outcome) == SubmitAll(Release(s, future, outcome), Released(s, future))
  {
  }

  /** A completion keeps the invariant, leaves nothing in hand, and adds exactly one result. */
  lemma {:induction false} CompleteKeeps<R>(batches: seq<Batch>, s: State<R>, at: Places, outcome: nat -> R, future: nat) returns (at': Places)
    requires Inv(batches, s, at, outcome) && NothingInHand(at) && future in s.pending
    ensures var s' := Complete(s, future, outcome);
      && Inv(batches, s', at', outcome) && NothingInHand(at')
      && s.pending[future] !in s.results
      && s'.results == s.results[s.pending[future] := outcome(s.pending[future])]
      && s.log < s'.log
  {
    hide Placed, Logged, Primed, PlacesCalls, DoneAt, Cleared, Released, SubmitAll, Distinct, Complete;
    ResultIsNew(batches, s, at, outcome, future);
    CompleteIsRelease(batches, s, future, outcome);
    at' := SubmitReleased(batches, s, at, outcome, future);
  }

  lemma {:induction false} SubmitReleased<R>(batches: seq<Batch>, s: State<R>, at: Places, outcome: nat -> R, future: nat) returns (at': Places)
    requires Inv(batches, s, at, outcome) && NothingInHand(at) && future in s.pending
    ensures var s1 := Release(s, future, outcome);
      var s' := SubmitAll(s1, Released(s, future));
      Inv(batches, s', at', outcome) && NothingInHand(at') && s'.results == s1.results && s1.log <= s'.log
  {
    hide Placed, Logged, Primed, PlacesCalls, DoneAt, Cleared, Released, SubmitAll, Distinct;
    ReleaseKeeps(batches, s, at, outcome, future);
    ReleasedReady(batches, s, at, outcome, future);
    ReleasedCleared(batches, s, future, outcome);
    hide Inv, Release, NothingInHand;
    at' := SubmitAllKeeps(batches, Release(s, future, outcome), DoneAt(s, at, future), outcome, Released(s, future));
    NoneLeft(DoneAt(s, at, future), at', Released(s, future));
  }

  lemma {:induction false} NoneLeft(at: Places, at': Places, calls: seq<nat>)
    requires forall c :: c in at && at[c] == InHand ==> c in calls
    requires at'.Keys == at.Keys && forall c :: c in at ==> if c in calls then at'[c].InFlight? else at'[c] == at[c]
    ensures NothingInHand(at')
  {
    assert forall c :: c in at' <==> c in at'.Keys;
  }

  lemma {:induction false} ResultIsNew<R>(batches: seq<Batch>, s: State<R>, at: Places, outcome: nat -> R, future: nat)
    requires Inv(batches, s, at, outcome) && future in s.pending
    ensures s.pending[future] !in s.results
  {
    assert at[s.pending[future]] == InFlight(future);
  }

  // ----- The end -----

  /** Each call was submitted at one moment only. */
  ghost predicate OnceEach(batches: seq<Batch>, log: seq<Event>) {
    && (forall c: nat :: c < Total(batches) <==> Has(log, Submitted(c)))
    && (forall i, j :: 0 <= i < |log| && 0 <= j < |log| && log[i].Submitted? && log[i] == log[j] ==> i == j)
  }

  /** When nothing is in flight, nothing waits either: no batch is stranded, and every call is done. */
  lemma {:induction false} EndsComplete<R>(batches: seq<Batch>, s: State<R>, at: Places, outcome: nat -> R)
    requires Inv(batches, s, at, outcome) && NothingInHand(at) && s.pending == map[]
    ensures s.primers == map[] && s.deferred == map[]
    ensures forall c: nat :: c in s.results <==> c < Total(batches)
    ensures forall c :: c in s.results ==> s.results[c] == outcome(c)
    ensures Safe(batches, s.log) && OnceEach(batches, s.log)
  {
    assert s.primers.Keys == {};
    assert s.deferred.Keys == {};
    forall c: nat ensures c < Total(batches) <==> Has(s.log, Submitted(c)) {
      if c < Total(batches) {
        assert c in at && at[c].Done?;
        assert s.log[at[c].future] == Submitted(c);
      }
    }
  }

  /** One outcome a call, in call order. */
  function Outcomes<R>(n: nat, outcome: nat -> R): (r: seq<R>)
    ensures |r| == n && forall c :: 0 <= c < n ==> r[c] == outcome(c)
  {
    if n == 0 then [] else Outcomes(n - 1, outcome) + [outcome(n - 1)]
  }

  /** The results under their keys in ascending order. */
  function InOrder<R>(results: map<nat, R>, lo: nat, hi: nat): seq<R>
    requires lo <= hi
    decreases hi - lo
  {
    if lo == hi then [] else (if lo in results then [results[lo]] else []) + InOrder(results, lo + 1, hi)
  }

  lemma {:induction false} InOrderAt<R>(results: map<nat, R>, lo: nat, hi: nat)
    requires lo <= hi && forall c :: lo <= c < hi ==> c in results
    ensures |InOrder(results, lo, hi)| == hi - lo
    ensures forall k :: 0 <= k < hi - lo ==> InOrder(results, lo, hi)[k] == results[lo + k]
    decreases hi - lo
  {
    if lo < hi {
      InOrderAt(results, lo + 1, hi);
      var rest := InOrder(results, lo + 1, hi);
      assert InOrder(results, lo, hi) == [results[lo]] + rest;
      hide InOrder;
      forall k | 0 <= k < hi - lo ensures ([results[lo]] + rest)[k] == results[lo + k] {
        if k > 0 {
          assert rest[k - 1] == results[lo + 1 + (k - 1)];
        }
      }
    }
  }

  /** At most one result a call. */
  lemma {:induction false} FewKeys(keys: set<nat>, n: nat)
    requires forall c :: c in keys ==> c < n
    ensures |keys| <= n
  {
    if n > 0 {
      FewKeys(keys - {n - 1}, n - 1);
    }
  }

  lemma {:induction false} ResultsAreCalls<R>(batches: seq<Batch>, s: State<R>, at: Places, outcome: nat -> R)
    requires Inv(batches, s, at, outcome)
    ensures forall c :: c in s.results ==> c < Total(batches)
    ensures |s.results| <= Total(batches)
  {
    hide Logged, Primed;
    FewKeys(s.results.Keys, Total(batches));
  }

  lemma {:induction false} StartNothingInHand<R>(batches: seq<Batch>, outcome: nat -> R) returns (at: Places)
    requires Usable(batches)
    ensures Inv(batches, Start<R>(batches), at, outcome) && NothingInHand(at) && Start<R>(batches).results == map[]
  {
    at := StartIsGood(batches, outcome);
    CallsInHand(batches, Start<R>(batches), at, outcome);
    StartHasNoResults<R>(State(map[], map[], map[], map[], []), batches, 0, 0);
    hide Inv;
  }

  lemma {:induction false} SubmitAllNoResults<R>(s: State<R>, calls: seq<nat>)
    ensures SubmitAll(s, calls).results == s.results
    decreases |calls|
  {
    if calls != [] {
      SubmitAllNoResults(Submit(s, calls[0]), calls[1..]);
    }
  }

  lemma {:induction false} StartHasNoResults<R>(s: State<R>, batches: seq<Batch>, index: nat, first: nat)
    requires Usable(batches)
    ensures StartFrom(s, batches, index, first).results == s.results
    decreases |batches|
  {
    if batches != [] {
      var b := batches[0];
      if !b.warm {
        SubmitAllNoResults(s, Range(first, first + b.size));
      }
      StartHasNoResults(TakeBatch(s, b, index, first), batches[1..], index + 1, first + b.size);
    }
  }

  // ----- Runs -----

  /** The state after futures complete in the order given; any of those in flight may be next. */
  function RunFrom<R>(s: State<R>, order: seq<nat>, outcome: nat -> R): (end: Result<State<R>>)
    decreases |order|
  {
    if order == [] then Ok(s)
    else if order[0] in s.pending then RunFrom(Complete(s, order[0], outcome), order[1..], outcome)
    else NotInFlight
  }

  datatype Result<T> = Ok(value: T) | NotInFlight

  /** What every run comes to, whatever order its futures complete in: one that can go no further has
      done every call, in as many completions as there are calls, each started once and none before
      its primer had finished; and its results are the outcomes in call order. */
  lemma {:induction false} EveryRun<R>(batches: seq<Batch>, order: seq<nat>, outcome: nat -> R)
    requires Usable(batches) && RunFrom(Start(batches), order, outcome).Ok?
    ensures |order| <= Total(batches)
    ensures var end := RunFrom(Start(batches), order, outcome).value;
      && Safe(batches, end.log)
      && (end.pending == map[] <==> |order| == Total(batches))
      && (end.pending == map[] ==>
            && end.deferred == map[] && end.primers == map[] && OnceEach(batches, end.log)
            && InOrder(end.results, 0, Total(batches)) == Outcomes(Total(batches), outcome))
  {
    hide Inv, NothingInHand, OnceEach, Safe, Start, InOrder;
    var at := StartNothingInHand(batches, outcome);
    var at' := RunKeeps(batches, Start(batches), at, order, outcome);
    var end := RunFrom(Start(batches), order, outcome).value;
    InvIsSafe(batches, end, at', outcome);
    ResultsAreCalls(batches, end, at', outcome);
    if end.pending == map[] {
      EndsWithAll(batches, end, at', outcome);
    } else {
      StillToCome(batches, end, at', outcome);
    }
  }

  lemma {:induction false} InvIsSafe<R>(batches: seq<Batch>, s: State<R>, at: Places, outcome: nat -> R)
    requires Inv(batches, s, at, outcome)
    ensures Safe(batches, s.log)
  {
  }

  lemma {:induction false} EndsWithAll<R>(batches: seq<Batch>, s: State<R>, at: Places, outcome: nat -> R)
    requires Inv(batches, s, at, outcome) && NothingInHand(at) && s.pending == map[]
    ensures s.primers == map[] && s.deferred == map[] && OnceEach(batches, s.log) && |s.results| == Total(batches)
    ensures InOrder(s.results, 0, Total(batches)) == Outcomes(Total(batches), outcome)
  {
    hide Inv, NothingInHand, OnceEach, Safe;
    EndsComplete(batches, s, at, outcome);
    InOrderAt(s.results, 0, Total(batches));
    AllKeys(s.results.Keys, Total(batches));
    var got, wanted := InOrder(s.results, 0, Total(batches)), Outcomes(Total(batches), outcome);
    forall c: nat | c < Total(batches) ensures got[c] == wanted[c] {
      assert got[c] == s.results[0 + c];
    }
    assert got == wanted;
  }

  /** A call in flight has no result yet, so fewer results than calls. */
  lemma {:induction false} StillToCome<R>(batches: seq<Batch>, s: State<R>, at: Places, outcome: nat -> R)
    requires Inv(batches, s, at, outcome) && s.pending != map[]
    ensures |s.results| < Total(batches)
  {
    var f :| f in s.pending;
    InFlightIsCall(batches, s, at, outcome, f);
    hide Inv;
    ResultsAreCalls(batches, s, at, outcome);
    ResultIsNew(batches, s, at, outcome, f);
    OneMore(s.results.Keys, s.pending[f], Total(batches));
  }

  lemma {:induction false} InFlightIsCall<R>(batches: seq<Batch>, s: State<R>, at: Places, outcome: nat -> R, f: nat)
    requires Inv(batches, s, at, outcome) && f in s.pending
    ensures s.pending[f] < Total(batches)
  {
    hide Logged, Primed;
  }

  lemma {:induction false} OneMore(keys: set<nat>, c: nat, n: nat)
    requires c !in keys && c < n && forall k :: k in keys ==> k < n
    ensures |keys| < n
  {
    FewKeys(keys + {c}, n);
  }

  lemma {:induction false} AllKeys(keys: set<nat>, n: nat)
    requires forall c: nat :: c in keys <==> c < n
    ensures |keys| == n
  {
    if n > 0 {
      AllKeys(keys - {n - 1}, n - 1);
    } else {
      assert keys == {};
    }
  }

  lemma {:induction false} RunKeeps<R>(batches: seq<Batch>, s: State<R>, at: Places, order: seq<nat>, outcome: nat -> R) returns (at': Places)
    requires Inv(batches, s, at, outcome) && NothingInHand(at) && RunFrom(s, order, outcome).Ok?
    ensures var end := RunFrom(s, order, outcome).value;
      Inv(batches, end, at', outcome) && NothingInHand(at') && |end.results| == |s.results| + |order|
    decreases |order|
  {
    hide Inv, NothingInHand, Complete;
    if order == [] {
      at' := at;
    } else {
      var f := order[0];
      var at1 := CompleteKeeps(batches, s, at, outcome, f);
      assert |s.results[s.pending[f] := outcome(s.pending[f])]| == |s.results| + 1;
      at' := RunKeeps(batches, Complete(s, f, outcome), at1, order[1..], outcome);
    }
  }

  // ----- No call waits longer than it must -----

  /** What the log says has finished has a result. */
  predicate EndsHaveResults<R>(s: State<R>) {
    forall i :: 0 <= i < |s.log| && s.log[i].Finished? ==> s.log[i].call in s.results
  }

  lemma {:induction false} SubmitAllEnds<R>(s: State<R>, calls: seq<nat>)
    requires EndsHaveResults(s)
    ensures EndsHaveResults(SubmitAll(s, calls)) && SubmitAll(s, calls).results == s.results
    decreases |calls|
  {
    if calls != [] {
      SubmitAllEnds(Submit(s, calls[0]), calls[1..]);
    }
  }

  lemma {:induction false} StartEnds<R>(s: State<R>, batches: seq<Batch>, index: nat, first: nat)
    requires Usable(batches) && EndsHaveResults(s)
    ensures EndsHaveResults(StartFrom(s, batches, index, first))
    decreases |batches|
  {
    if batches != [] {
      var b := batches[0];
      if !b.warm {
        SubmitAllEnds(s, Range(first, first + b.size));
      }
      StartEnds(TakeBatch(s, b, index, first), batches[1..], index + 1, first + b.size);
    }
  }

  lemma {:induction false} CompleteEnds<R>(s: State<R>, future: nat, outcome: nat -> R)
    requires EndsHaveResults(s) && future in s.pending
    ensures EndsHaveResults(Complete(s, future, outcome))
  {
    var s' := Finish(s, future, outcome);
    assert EndsHaveResults(s');
    if future in s.primers {
      var index := s.primers[future];
      SubmitAllEnds(s'.(primers := s.primers - {future}, deferred := s.deferred - {index}), if index in s.deferred then s.deferred[index] else []);
    }
  }

  lemma {:induction false} RunEnds<R>(s: State<R>, order: seq<nat>, outcome: nat -> R)
    requires EndsHaveResults(s) && RunFrom(s, order, outcome).Ok?
    ensures EndsHaveResults(RunFrom(s, order, outcome).value)
    decreases |order|
  {
    hide EndsHaveResults, Complete;
    if order != [] {
      CompleteEnds(s, order[0], outcome);
      RunEnds(Complete(s, order[0], outcome), order[1..], outcome);
    }
  }

  /** A call that is held back waits for a primer that is in flight. */
  lemma {:induction false} HeldBehindPrimer<R>(batches: seq<Batch>, s: State<R>, at: Places, outcome: nat -> R, c: nat)
    requires Inv(batches, s, at, outcome) && c in at && at[c].Held?
    ensures PrimerOf(batches, c, 0).Primer? && PrimerOf(batches, c, 0).call !in s.results
  {
    var index, k := at[c].index, at[c].k;
    assert s.deferred[index][k] == c;
    var f :| f in s.primers && s.primers[f] == index;
    assert PrimerOf(batches, s.deferred[s.primers[f]][k], 0) == Primer(s.pending[f]);
    assert at[s.pending[f]] == InFlight(f);
  }

  lemma {:induction false} NotLoggedIsHeld<R>(batches: seq<Batch>, s: State<R>, at: Places, outcome: nat -> R, c: nat)
    requires Inv(batches, s, at, outcome) && NothingInHand(at) && c < Total(batches) && !Has(s.log, Submitted(c))
    ensures c in at && at[c].Held?
  {
    assert c in at;
    hide Inv, Has;
    if at[c].InFlight? || at[c].Done? {
      StartedIsLogged(batches, s, at, outcome, c);
    }
  }

  lemma {:induction false} StartedIsLogged<R>(batches: seq<Batch>, s: State<R>, at: Places, outcome: nat -> R, c: nat)
    requires Inv(batches, s, at, outcome) && c in at && (at[c].InFlight? || at[c].Done?)
    ensures Has(s.log, Submitted(c))
  {
    assert s.log[at[c].future] == Submitted(c);
  }

  lemma {:induction false} SafePart(batches: seq<Batch>, log: seq<Event>, c: nat)
    requires Safe(batches, log) && Has(log, Submitted(c))
    ensures Cleared(batches, log, c)
  {
    var i :| 0 <= i < |log| && log[i] == Submitted(c);
    assert Cleared(batches, log[..i], c);
    var p := PrimerOf(batches, c, 0);
    if p.Primer? {
      var j :| 0 <= j < i && log[..i][j] == Finished(p.call);
      assert log[j] == Finished(p.call);
    }
  }

  /** At every moment of every run, whatever order futures complete in, the calls submitted are exactly those that
      need wait for nothing or whose primer has finished. */
  lemma {:induction false} SubmittedOnceCleared<R>(batches: seq<Batch>, order: seq<nat>, outcome: nat -> R, c: nat)
    requires Usable(batches) && RunFrom(Start(batches), order, outcome).Ok? && c < Total(batches)
    ensures var s := RunFrom(Start(batches), order, outcome).value;
      Has(s.log, Submitted(c)) <==> Cleared(batches, s.log, c)
  {
    var at := StartNothingInHand(batches, outcome);
    var at' := RunKeeps(batches, Start(batches), at, order, outcome);
    var s := RunFrom(Start(batches), order, outcome).value;
    StartEnds<R>(State(map[], map[], map[], map[], []), batches, 0, 0);
    RunEnds(Start(batches), order, outcome);
    hide RunFrom, Start;
    if Has(s.log, Submitted(c)) {
      SafePart(batches, s.log, c);
    } else {
      NotLoggedIsHeld(batches, s, at', outcome, c);
      HeldBehindPrimer(batches, s, at', outcome, c);
    }
  }

  // ----- The loops -----

  /** Submit calls one at a time. */
  method SubmitEach<R>(s: State<R>, calls: seq<nat>) returns (pending: map<nat, nat>, log: seq<Event>)
    ensures SubmitAll(s, calls) == s.(pending := pending, log := log)
  {
    pending, log := s.pending, s.log;
    assert s == s.(pending := pending, log := log);
    for k := 0 to |calls|
      invariant SubmitAll(s, calls) == SubmitAll(s.(pending := pending, log := log), calls[k..])
    {
      pending, log := pending[|log| := calls[k]], log + [Submitted(calls[k])];
      assert calls[k..][1..] == calls[k + 1..];
    }
  }

  /** Keep one completed future's result and release the batch it was holding back, if any. */
  method CompleteOne<R>(s: State<R>, future: nat, outcome: nat -> R) returns (s': State<R>)
    requires future in s.pending
    ensures s' == Complete(s, future, outcome)
  {
    hide SubmitAll;
    var call := s.pending[future];
    var results, pending, log := s.results[call := outcome(call)], s.pending - {future}, s.log + [Finished(call)];
    s' := State(results, pending, s.primers, s.deferred, log);
    if future in s.primers {
      var index := s.primers[future];
      var calls := if index in s.deferred then s.deferred[index] else [];
      s' := s'.(primers := s.primers - {future}, deferred := s.deferred - {index});
      pending, log := SubmitEach(s', calls);
      s' := s'.(pending := pending, log := log);
    }
  }

  lemma {:induction false} SubmitAllPending<R>(s: State<R>, calls: seq<nat>)
    ensures s.pending.Keys <= SubmitAll(s, calls).pending.Keys
    decreases |calls|
  {
    if calls != [] {
      SubmitAllPending(Submit(s, calls[0]), calls[1..]);
    }
  }

  /** Completing one future leaves every other one in flight. */
  lemma {:induction false} OthersStay<R>(batches: seq<Batch>, s: State<R>, at: Places, future: nat, outcome: nat -> R)
    requires Inv(batches, s, at, outcome) && future in s.pending
    ensures s.pending.Keys - {future} <= Complete(s, future, outcome).pending.Keys
  {
    hide Placed, Logged, PlacesCalls;
    CompleteIsRelease(batches, s, future, outcome);
    SubmitAllPending(Release(s, future, outcome), Released(s, future));
  }

  /** The first loop. */
  method StartAll<R>(batches: seq<Batch>) returns (s: State<R>)
    requires Usable(batches)
    ensures s == Start<R>(batches)
  {
    s := State(map[], map[], map[], map[], []);
    var index: nat := 0;
    assert batches[0..] == batches;
    for i := 0 to |batches|
      invariant Start(batches) == StartFrom(s, batches[i..], i, index)
    {
      hide SubmitAll;
      var b := batches[i];
      assert batches[i..][1..] == batches[i + 1..];
      if b.warm {
        s := s.(primers := s.primers[|s.log| := i], deferred := s.deferred[i := Range(index + 1, index + b.size)],
                pending := s.pending[|s.log| := index], log := s.log + [Submitted(index)]);
      } else {
        var pending, log := SubmitEach(s, Range(index, index + b.size));
        s := s.(pending := pending, log := log);
      }
      index := index + b.size;
    }
  }

  /** The whole fan-out. Which futures are done at each wait is any non-empty choice of those in flight. */
  method FanOut<R>(batches: seq<Batch>, outcome: nat -> R) returns (outcomes: seq<R>, log: seq<Event>)
    requires Usable(batches)
    ensures outcomes == Outcomes(Total(batches), outcome)
    ensures Safe(batches, log) && OnceEach(batches, log)
  {
    hide Inv, NothingInHand, Complete, Start, InOrder, Safe, OnceEach, Usable;
    var s := StartAll<R>(batches);
    ghost var at := StartNothingInHand(batches, outcome);
    while s.pending != map[]
      invariant Inv(batches, s, at, outcome) && NothingInHand(at)
      decreases Total(batches) - |s.results|
    {
      var done :| done <= s.pending.Keys && done != {};
      ghost var finished := |s.results| + |done|;
      while done != {}
        invariant Inv(batches, s, at, outcome) && NothingInHand(at)
        invariant done <= s.pending.Keys && |s.results| + |done| == finished
        decreases |done|
      {
        var future :| future in done;
        OthersStay(batches, s, at, future, outcome);
        var next := CompleteOne(s, future, outcome);
        at := CompleteKeeps(batches, s, at, outcome, future);
        s, done := next, done - {future};
      }
      ResultsAreCalls(batches, s, at, outcome);
    }
    EndsWithAll(batches, s, at, outcome);
    InvIsSafe(batches, s, at, outcome);
    outcomes, log := InOrder(s.results, 0, Total(batches)), s.log;
  }
}
