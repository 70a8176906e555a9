/** core/comment.py, unposted: when the order of the posted comments matters to first fit. */
module Matching {
  import opened DiffParse
  import opened Posting

  predicate Share(comment: set<string>, keys: set<string>) {
    comment * keys != {}
  }

  ghost predicate Rising(takers: seq<nat>, k: nat) {
    && (forall i, j :: 0 <= i < j < |takers| ==> takers[i] < takers[j])
    && (forall i :: 0 <= i < |takers| ==> takers[i] < k)
  }

  ghost predicate Places(s: seq<nat>, n: nat) {
    && (forall i, j :: 0 <= i < j < |s| ==> s[i] != s[j])
    && (forall i :: 0 <= i < |s| ==> s[i] < n)
  }

  /** Findings before the kth can take, one each, comments they share an id with, so that none is left
      that the kth shares an id with. */
  ghost predicate Starves(keys: seq<set<string>>, comments: seq<set<string>>, k: nat, takers: seq<nat>, theirs: seq<nat>) {
    && k < |keys| && |takers| == |theirs| && Rising(takers, k) && Places(theirs, |comments|)
    && (forall i :: 0 <= i < |theirs| ==> Share(comments[theirs[i]], keys[takers[i]]))
    && (forall j :: 0 <= j < |comments| && Share(comments[j], keys[k]) ==> j in theirs)
  }

  // ----- An order that starves a finding -----

  /** From the nth finding on: what starves the kth stands first, in the order of those who take it. */
  ghost predicate Queued(keys: seq<set<string>>, n: nat, k: nat, takers: seq<nat>, posted: seq<set<string>>) {
    && n <= k < |keys| && |takers| <= |posted| && Rising(takers, k) && (takers != [] ==> n <= takers[0])
    && (forall i :: 0 <= i < |takers| ==> Share(posted[i], keys[takers[i]]))
    && (forall i :: |takers| <= i < |posted| ==> !Share(posted[i], keys[k]))
  }

  lemma {:induction false} WithoutPlaces<T>(s: seq<T>, at: nat)
    requires at < |s|
    ensures |Without(s, at)| == |s| - 1
    ensures forall i :: 0 <= i < |s| - 1 ==> Without(s, at)[i] == s[if i < at then i else i + 1]
  {
  }

  lemma {:induction false} RisingWithout(takers: seq<nat>, k: nat, at: nat)
    requires Rising(takers, k) && at < |takers|
    ensures Rising(Without(takers, at), k)
  {
    WithoutPlaces(takers, at);
    var rest := Without(takers, at);
    hide Without;
    forall i, j | 0 <= i < j < |rest| ensures rest[i] < rest[j] {
      assert rest[i] == takers[if i < at then i else i + 1] && rest[j] == takers[if j < at then j else j + 1];
    }
    forall i | 0 <= i < |rest| ensures rest[i] < k {
      assert rest[i] == takers[if i < at then i else i + 1];
    }
  }

  lemma {:induction false} TakenFromQueue(keys: seq<set<string>>, n: nat, k: nat, takers: seq<nat>, posted: seq<set<string>>, at: nat)
    requires Queued(keys, n, k, takers, posted) && at < |takers| && (takers[0] == n ==> at == 0)
    ensures Queued(keys, n + 1, k, Without(takers, at), Without(posted, at))
  {
    WithoutPlaces(takers, at);
    WithoutPlaces(posted, at);
    RisingFirst(takers, k);
    RisingWithout(takers, k, at);
    RisingFirst(Without(takers, at), k);
    hide Share, Rising, Without;
    var rest, left := Without(takers, at), Without(posted, at);
    forall i | 0 <= i < |rest| ensures Share(left[i], keys[rest[i]]) {
      var j := if i < at then i else i + 1;
      assert rest[i] == takers[j] && left[i] == posted[j] && Share(posted[j], keys[takers[j]]);
    }
    forall i | |rest| <= i < |left| ensures !Share(left[i], keys[k]) {
      assert left[i] == posted[i + 1];
    }
  }

  lemma {:induction false} TakenFromRest(keys: seq<set<string>>, n: nat, k: nat, takers: seq<nat>, posted: seq<set<string>>, at: nat)
    requires Queued(keys, n, k, takers, posted) && |takers| <= at < |posted| && Share(posted[at], keys[n])
    requires takers != [] ==> takers[0] != n
    ensures Queued(keys, n + 1, k, takers, Without(posted, at))
  {
    WithoutPlaces(posted, at);
    RisingFirst(takers, k);
    hide Share, Rising, Without;
    var left := Without(posted, at);
    forall i | 0 <= i < |takers| ensures Share(left[i], keys[takers[i]]) {
      assert left[i] == posted[i];
    }
    forall i | |takers| <= i < |left| ensures !Share(left[i], keys[k]) {
      assert left[i] == posted[if i < at then i else i + 1];
    }
  }

  /** The nth finding takes the first comment it shares an id with: its own if it has one in the queue. */
  lemma {:induction false} QueueRest(keys: seq<set<string>>, n: nat, k: nat, takers: seq<nat>, posted: seq<set<string>>, at: nat)
    requires Queued(keys, n, k, takers, posted) && n < |keys| && at < |posted| && Share(posted[at], keys[n])
    requires takers != [] && takers[0] == n ==> at == 0
    ensures Queued(keys, n + 1, k, if at < |takers| then Without(takers, at) else takers, Without(posted, at))
  {
    hide *;
    if at < |takers| {
      TakenFromQueue(keys, n, k, takers, posted, at);
    } else {
      TakenFromRest(keys, n, k, takers, posted, at);
    }
  }

  lemma {:induction false} RisingFirst(takers: seq<nat>, k: nat)
    requires Rising(takers, k)
    ensures takers != [] ==> takers[0] < k
    ensures |takers| > 1 ==> takers[0] < takers[1]
    ensures forall i :: 0 <= i < |takers| ==> takers[i] < k
  {
  }

  lemma {:induction false} QueueStarves<T>(h: Hashes, candidates: seq<Candidate<T>>, n: nat, k: nat, takers: seq<nat>, posted: seq<set<string>>)
    requires Queued(KeysOf(h, candidates), n, k, takers, posted)
    ensures Unposted(h, candidates[n..], posted) != []
    decreases k - n
  {
    var keys := KeysOf(h, candidates);
    assert candidates[n..][0] == candidates[n] && candidates[n..][1..] == candidates[n + 1..];
    FirstSharingIs(posted, keys[n]);
    var at := FirstSharing(posted, keys[n]);
    hide CurrentKeys, KeysOf, FirstSharing;
    if at.Some? {
      assert Share(posted[at.value], keys[n]);
      if takers != [] && takers[0] == n {
        assert Share(posted[0], keys[n]);
      }
      QueueRest(keys, n, k, takers, posted, at.value);
      hide Queued, Unposted;
      QueueStarves(h, candidates, n + 1, k, if at.value < |takers| then Without(takers, at.value) else takers, Without(posted, at.value));
      TakenNext(h, candidates[n..], posted);
    }
  }

  lemma {:induction false} TakenNext<T>(h: Hashes, candidates: seq<Candidate<T>>, posted: seq<set<string>>)
    requires candidates != [] && FirstSharing(posted, CurrentKeys(h, candidates[0].finding)).Some?
    ensures Unposted(h, candidates, posted)
         == Unposted(h, candidates[1..], Without(posted, FirstSharing(posted, CurrentKeys(h, candidates[0].finding)).value))
  {
  }

  function Pick<T>(comments: seq<T>, at: seq<nat>): (r: seq<T>)
    requires forall i :: 0 <= i < |at| ==> at[i] < |comments|
    ensures |r| == |at| && forall i :: 0 <= i < |at| ==> r[i] == comments[at[i]]
  {
    if at == [] then [] else [comments[at[0]]] + Pick(comments, at[1..])
  }

  /** Those of the first n comments that are not picked. */
  function Others<T>(comments: seq<T>, at: seq<nat>, n: nat): seq<T>
    requires n <= |comments|
  {
    if n == 0 then [] else Others(comments, at, n - 1) + if n - 1 in at then [] else [comments[n - 1]]
  }

  lemma {:induction false} OthersAre<T>(comments: seq<T>, at: seq<nat>, n: nat, x: T)
    requires n <= |comments| && x in Others(comments, at, n)
    ensures exists j :: 0 <= j < n && j !in at && comments[j] == x
  {
    if x in Others(comments, at, n - 1) {
      OthersAre(comments, at, n - 1, x);
    }
  }

  lemma {:induction false} SameOthers<T>(comments: seq<T>, a: seq<nat>, b: seq<nat>, n: nat)
    requires n <= |comments| && forall j :: 0 <= j < n ==> (j in a <==> j in b)
    ensures Others(comments, a, n) == Others(comments, b, n)
  {
    if n > 0 {
      SameOthers(comments, a, b, n - 1);
    }
  }

  lemma {:induction false} PickWithout<T>(comments: seq<T>, at: seq<nat>, p: nat, rest: seq<nat>)
    requires p < |at| && (forall i :: 0 <= i < |at| ==> at[i] < |comments|)
    requires rest == Without(at, p) && forall i :: 0 <= i < |rest| ==> rest[i] < |comments|
    ensures multiset(Pick(comments, at)) == multiset(Pick(comments, rest)) + multiset{comments[at[p]]}
  {
    var all := Pick(comments, at);
    assert all == all[..p] + [all[p]] + all[p + 1..];
    assert Pick(comments, rest) == all[..p] + all[p + 1..];
  }

  /** With the last place taken out of them, the rest are places before it, and the same ones. */
  lemma {:induction false} LastPlaceOut(at: seq<nat>, n: nat, p: nat)
    requires n > 0 && Places(at, n) && p < |at| && at[p] == n - 1
    ensures Places(Without(at, p), n - 1)
    ensures forall j :: 0 <= j < n - 1 ==> (j in at <==> j in Without(at, p))
  {
    WithoutPlaces(at, p);
    var rest := Without(at, p);
    hide Without;
    forall i | 0 <= i < |rest| ensures rest[i] < n - 1 {
      var q := if i < p then i else i + 1;
      assert rest[i] == at[q] && at[q] != at[p];
    }
    forall j | 0 <= j < n - 1 && j in at ensures j in rest {
      var q :| 0 <= q < |at| && at[q] == j;
      assert rest[if q < p then q else q - 1] == j;
    }
  }

  /** What is picked and the others are all the comments. */
  lemma {:induction false} PickedAndOthers<T>(comments: seq<T>, at: seq<nat>, n: nat)
    requires n <= |comments| && Places(at, n)
    ensures forall i :: 0 <= i < |at| ==> at[i] < n
    ensures multiset(Pick(comments, at)) + multiset(Others(comments, at, n)) == multiset(comments[..n])
    decreases n
  {
    hide *;
    InPlace(at, n);
    if n == 0 {
      NothingPicked(comments, at);
    } else if n - 1 in at {
      var p :| 0 <= p < |at| && at[p] == n - 1;
      var rest := Without(at, p);
      LastPlaceOut(at, n, p);
      PickedAndOthers(comments, rest, n - 1);
      PickedLast(comments, at, n, p, rest);
    } else {
      LastIsFree(at, n);
      PickedAndOthers(comments, at, n - 1);
      OthersNext(comments, at, n);
      TakeNext(comments, n);
      AddedRight(multiset(Pick(comments, at)), multiset(Others(comments, at, n - 1)), comments[n - 1]);
    }
  }

  lemma {:induction false} NothingPicked<T>(comments: seq<T>, at: seq<nat>)
    requires Places(at, 0)
    ensures Pick(comments, at) == [] && Others(comments, at, 0) == [] && comments[..0] == []
  {
    hide Places;
    if at != [] {
      RestPlace(at, 0, 0);
    }
  }

  lemma {:induction false} PickedLast<T>(comments: seq<T>, at: seq<nat>, n: nat, p: nat, rest: seq<nat>)
    requires 0 < n <= |comments| && p < |at| && at[p] == n - 1 && (forall i :: 0 <= i < |at| ==> at[i] < |comments|)
    requires rest == Without(at, p) && forall i :: 0 <= i < |rest| ==> rest[i] < |comments|
    requires forall j :: 0 <= j < n - 1 ==> (j in at <==> j in rest)
    requires multiset(Pick(comments, rest)) + multiset(Others(comments, rest, n - 1)) == multiset(comments[..n - 1])
    ensures multiset(Pick(comments, at)) + multiset(Others(comments, at, n)) == multiset(comments[..n])
  {
    hide *;
    PickWithout(comments, at, p, rest);
    SameOthers(comments, at, rest, n - 1);
    OthersNext(comments, at, n);
    TakeNext(comments, n);
    AddedLeft(multiset(Pick(comments, rest)), multiset(Others(comments, at, n - 1)), comments[n - 1]);
  }

  lemma {:induction false} AddedLeft<T>(a: multiset<T>, b: multiset<T>, x: T)
    ensures (a + multiset{x}) + b == (a + b) + multiset{x}
  {
  }

  lemma {:induction false} AddedRight<T>(a: multiset<T>, b: multiset<T>, x: T)
    ensures a + (b + multiset{x}) == (a + b) + multiset{x}
  {
  }

  lemma {:induction false} InPlace(at: seq<nat>, n: nat)
    requires Places(at, n)
    ensures forall i :: 0 <= i < |at| ==> at[i] < n
  {
  }

  lemma {:induction false} LastIsFree(at: seq<nat>, n: nat)
    requires n > 0 && Places(at, n) && n - 1 !in at
    ensures Places(at, n - 1)
  {
    forall i | 0 <= i < |at| ensures at[i] < n - 1 {
      assert at[i] in at;
    }
  }

  lemma {:induction false} OthersNext<T>(comments: seq<T>, at: seq<nat>, n: nat)
    requires 0 < n <= |comments|
    ensures multiset(Others(comments, at, n))
         == if n - 1 in at then multiset(Others(comments, at, n - 1)) else multiset(Others(comments, at, n - 1)) + multiset{comments[n - 1]}
  {
  }

  lemma {:induction false} TakeNext<T>(comments: seq<T>, n: nat)
    requires 0 < n <= |comments|
    ensures multiset(comments[..n]) == multiset(comments[..n - 1]) + multiset{comments[n - 1]}
  {
    assert comments[..n] == comments[..n - 1] + [comments[n - 1]];
  }

  lemma {:induction false} StarvingOrder<T>(h: Hashes, candidates: seq<Candidate<T>>, comments: seq<set<string>>, k: nat, takers: seq<nat>, theirs: seq<nat>)
      returns (posted: seq<set<string>>)
    requires Starves(KeysOf(h, candidates), comments, k, takers, theirs)
    ensures multiset(posted) == multiset(comments) && Unposted(h, candidates, posted) != []
  {
    assert Places(theirs, |comments|);
    hide *;
    InPlace(theirs, |comments|);
    posted := Pick(comments, theirs) + Others(comments, theirs, |comments|);
    PickedAndOthers(comments, theirs, |comments|);
    assert comments[..|comments|] == comments;
    assert multiset(posted) == multiset(Pick(comments, theirs)) + multiset(Others(comments, theirs, |comments|));
    StarvingQueue(KeysOf(h, candidates), comments, k, takers, theirs);
    QueueStarves(h, candidates, 0, k, takers, posted);
    assert candidates[0..] == candidates;
  }

  lemma {:induction false} StarvingQueue(keys: seq<set<string>>, comments: seq<set<string>>, k: nat, takers: seq<nat>, theirs: seq<nat>)
    requires Starves(keys, comments, k, takers, theirs)
    ensures forall i :: 0 <= i < |theirs| ==> theirs[i] < |comments|
    ensures Queued(keys, 0, k, takers, Pick(comments, theirs) + Others(comments, theirs, |comments|))
  {
    hide Share, Rising;
    var others := Others(comments, theirs, |comments|);
    var posted := Pick(comments, theirs) + others;
    forall i | |takers| <= i < |posted| ensures !Share(posted[i], keys[k]) {
      assert posted[i] in others;
      OthersAre(comments, theirs, |comments|, posted[i]);
    }
  }

  // ----- A finding that is starved -----

  lemma {:induction false} MultisetWithout<T>(s: seq<T>, j: nat)
    requires j < |s|
    ensures multiset(s) == multiset(Without(s, j)) + multiset{s[j]}
  {
    assert s == s[..j] + [s[j]] + s[j + 1..];
  }

  lemma {:induction false} FirstOut<T>(s: seq<T>)
    requires s != []
    ensures multiset(s) == multiset(s[1..]) + multiset{s[0]}
  {
    assert s == [s[0]] + s[1..];
  }

  lemma {:induction false} Cancel<T>(a: multiset<T>, b: multiset<T>, x: T)
    requires a + multiset{x} == b + multiset{x}
    ensures a == b
  {
    assert a == (a + multiset{x}) - multiset{x};
    assert b == (b + multiset{x}) - multiset{x};
  }

  /** The same comments in another order: where each stands. */
  lemma {:induction false} Reordered<T>(a: seq<T>, b: seq<T>) returns (at: seq<nat>)
    requires multiset(a) == multiset(b)
    ensures |at| == |a| && Places(at, |b|) && forall i :: 0 <= i < |a| ==> a[i] == b[at[i]]
    ensures forall j :: 0 <= j < |b| ==> j in at
    decreases |a|
  {
    hide Without, Places;
    if a == [] {
      assert |multiset(b)| == 0;
      at := [];
      NoPlaces();
    } else {
      assert a[0] in multiset(b);
      var j :| 0 <= j < |b| && b[j] == a[0];
      MultisetWithout(b, j);
      FirstOut(a);
      Cancel(multiset(a[1..]), multiset(Without(b, j)), a[0]);
      var rest := Reordered(a[1..], Without(b, j));
      WithoutPlaces(b, j);
      SpreadAll(rest, j, |b|);
      at := [j] + Spread(rest, j);
      forall i | 0 <= i < |a| ensures at[i] < |b| && a[i] == b[at[i]] {
        if i > 0 {
          RestPlace(rest, |b| - 1, i - 1);
          assert a[i] == a[1..][i - 1] == Without(b, j)[rest[i - 1]];
        }
      }
    }
  }

  lemma {:induction false} NoPlaces()
    ensures Places([], 0)
  {
  }

  lemma {:induction false} RestPlace(at: seq<nat>, n: nat, i: nat)
    requires Places(at, n) && i < |at|
    ensures at[i] < n
  {
  }

  lemma {:induction false} SpreadAll(rest: seq<nat>, j: nat, n: nat)
    requires j < n && Places(rest, n - 1) && forall m :: 0 <= m < n - 1 ==> m in rest
    ensures Places([j] + Spread(rest, j), n) && forall m :: 0 <= m < n ==> m in [j] + Spread(rest, j)
  {
    var at := [j] + Spread(rest, j);
    hide Places, Spread;
    forall m | 0 <= m < n ensures m in at {
      if m == j {
        assert at[0] == j;
      } else {
        SpreadReaches(rest, j, m);
      }
    }
    SpreadPlaces(rest, j, n);
  }

  lemma {:induction false} SpreadReaches(rest: seq<nat>, j: nat, m: nat)
    requires m != j && (if m < j then m else m - 1) in rest
    ensures m in Spread(rest, j)
  {
    var k: nat := if m < j then m else m - 1;
    var q :| 0 <= q < |rest| && rest[q] == k;
    assert Spread(rest, j)[q] == m;
  }

  lemma {:induction false} SpreadPlaces(rest: seq<nat>, j: nat, n: nat)
    requires j < n && Places(rest, n - 1)
    ensures Places([j] + Spread(rest, j), n)
  {
    var spread := Spread(rest, j);
    forall p, q | 0 <= p < q < |spread| ensures spread[p] != spread[q] {
      assert rest[p] != rest[q];
    }
    assert forall q :: 0 <= q < |spread| ==> spread[q] != j && spread[q] < n;
    hide Spread;
    PlacesWith(j, spread, n);
  }

  lemma {:induction false} PlacesWith(j: nat, s: seq<nat>, n: nat)
    requires j < n && (forall p, q :: 0 <= p < q < |s| ==> s[p] != s[q]) && forall q :: 0 <= q < |s| ==> s[q] != j && s[q] < n
    ensures Places([j] + s, n)
  {
  }

  /** Places in a list with one taken out, as places in the list. */
  function Spread(at: seq<nat>, j: nat): (r: seq<nat>)
    ensures |r| == |at| && forall i :: 0 <= i < |at| ==> r[i] == if at[i] < j then at[i] else at[i] + 1
  {
    if at == [] then [] else [if at[0] < j then at[0] else at[0] + 1] + Spread(at[1..], j)
  }

  /** Who of the first k takes something, and the place of what he takes. */
  lemma {:induction false} Gathered(taker: seq<Option<nat>>, at: seq<nat>, k: nat) returns (takers: seq<nat>, theirs: seq<nat>)
    requires k <= |taker| && forall m :: 0 <= m < k && taker[m].Some? ==> taker[m].value < |at|
    ensures |takers| == |theirs| && Rising(takers, k)
    ensures forall i :: 0 <= i < |takers| ==> taker[takers[i]].Some? && theirs[i] == at[taker[takers[i]].value]
    ensures forall m :: 0 <= m < k && taker[m].Some? ==> at[taker[m].value] in theirs
  {
    if k == 0 {
      takers, theirs := [], [];
    } else {
      takers, theirs := Gathered(taker, at, k - 1);
      if taker[k - 1].Some? {
        takers, theirs := takers + [k - 1], theirs + [at[taker[k - 1].value]];
      }
    }
  }

  lemma {:induction false} SomeFresh<T>(candidates: seq<Candidate<T>>, taker: seq<Option<nat>>)
    requires |taker| == |candidates|
    ensures Fresh(candidates, taker) != [] <==> exists k :: 0 <= k < |taker| && taker[k].None?
    decreases |candidates|
  {
    if candidates != [] {
      SomeFresh(candidates[1..], taker[1..]);
      assert forall k :: 1 <= k < |taker| ==> taker[k] == taker[1..][k - 1];
    }
  }

  lemma {:induction false} StarvedFinding<T>(h: Hashes, candidates: seq<Candidate<T>>, comments: seq<set<string>>, posted: seq<set<string>>)
      returns (k: nat, takers: seq<nat>, theirs: seq<nat>)
    requires multiset(posted) == multiset(comments) && Unposted(h, candidates, posted) != []
    ensures Starves(KeysOf(h, candidates), comments, k, takers, theirs)
  {
    hide Unposted, CurrentKeys, Fresh;
    var taker := AbsorbedOneForOne(h, candidates, posted);
    SomeFresh(candidates, taker);
    k :| 0 <= k < |taker| && taker[k].None?;
    var at := Reordered(posted, comments);
    takers, theirs := Gathered(taker, at, k);
    var keys := KeysOf(h, candidates);
    hide KeysOf;
    forall j | 0 <= j < |comments| && Share(comments[j], keys[k]) ensures j in theirs {
      assert j in at;
      var p :| 0 <= p < |at| && at[p] == j;
      assert posted[p] * keys[k] != {};
      assert Taken(taker, k, p);
    }
    forall i | 0 <= i < |theirs| ensures Share(comments[theirs[i]], keys[takers[i]]) && theirs[i] < |comments| {
      assert posted[taker[takers[i]].value] == comments[theirs[i]];
    }
    forall i, j | 0 <= i < j < |theirs| ensures theirs[i] != theirs[j] {
      assert taker[takers[i]] != taker[takers[j]];
    }
  }

  /** The comments can be found in any order, and a run still posts nothing, exactly when no finding can
      be starved by those before it. */
  lemma {:induction false} AnyOrderExactly<T>(h: Hashes, candidates: seq<Candidate<T>>, comments: seq<set<string>>)
    ensures (forall posted :: multiset(posted) == multiset(comments) ==> Unposted(h, candidates, posted) == [])
       <==> (forall k, takers, theirs :: !Starves(KeysOf(h, candidates), comments, k, takers, theirs))
  {
    hide Unposted, KeysOf, Starves;
    if k, takers, theirs :| Starves(KeysOf(h, candidates), comments, k, takers, theirs) {
      var posted := StarvingOrder(h, candidates, comments, k, takers, theirs);
      assert Unposted(h, candidates, posted) != [];
    }
    if posted :| multiset(posted) == multiset(comments) && Unposted(h, candidates, posted) != [] {
      var k, takers, theirs := StarvedFinding(h, candidates, comments, posted);
      assert Starves(KeysOf(h, candidates), comments, k, takers, theirs);
    }
  }

  // ----- Sharing in classes -----

  predicate Alike(keys: seq<set<string>>, comments: seq<set<string>>, i: nat, j: nat, m: nat, n: nat)
    requires i < |keys| && j < |keys| && m < |comments| && n < |comments|
  {
    Share(comments[m], keys[i]) && Share(comments[m], keys[j]) && Share(comments[n], keys[j]) ==> Share(comments[n], keys[i])
  }

  /** Two findings that share an id with one comment share ids with the same comments. */
  ghost predicate InClasses(keys: seq<set<string>>, comments: seq<set<string>>) {
    forall i: nat, j: nat, m: nat, n: nat :: i < |keys| && j < |keys| && m < |comments| && n < |comments| ==>
      Alike(keys, comments, i, j, m, n)
  }

  /** A comment for each finding, no two the same. */
  ghost predicate Given(keys: seq<set<string>>, comments: seq<set<string>>, gift: seq<nat>) {
    && |gift| == |keys| && Places(gift, |comments|)
    && forall i :: 0 <= i < |gift| ==> Share(comments[gift[i]], keys[i])
  }

  lemma {:induction false} GiftsOf<T>(h: Hashes, candidates: seq<Candidate<T>>, comments: seq<set<string>>, posted: seq<set<string>>)
      returns (gift: seq<nat>)
    requires multiset(posted) == multiset(comments) && Unposted(h, candidates, posted) == []
    ensures Given(KeysOf(h, candidates), comments, gift)
  {
    hide Unposted, CurrentKeys, Fresh;
    var taker := AbsorbedOneForOne(h, candidates, posted);
    SomeFresh(candidates, taker);
    var at := Reordered(posted, comments);
    gift := Picked(taker, at);
    var keys := KeysOf(h, candidates);
    hide KeysOf;
    forall i | 0 <= i < |gift| ensures Share(comments[gift[i]], keys[i]) && gift[i] < |comments| {
      assert taker[i].Some? && posted[taker[i].value] * keys[i] != {};
      assert posted[taker[i].value] == comments[gift[i]];
    }
    forall i, j | 0 <= i < j < |gift| ensures gift[i] != gift[j] {
      assert taker[i] != taker[j] && taker[i].Some?;
    }
  }

  function Picked(taker: seq<Option<nat>>, at: seq<nat>): (r: seq<nat>)
    requires forall i :: 0 <= i < |taker| ==> taker[i].Some? && taker[i].value < |at|
    ensures |r| == |taker| && forall i :: 0 <= i < |r| ==> r[i] == at[taker[i].value]
  {
    if taker == [] then [] else [at[taker[0].value]] + Picked(taker[1..], at)
  }

  /** Distinct places into a set are no more than it has. */
  lemma {:induction false} NoMore(from: set<nat>, f: seq<nat>, into: set<nat>)
    requires forall i :: i in from ==> i < |f| && f[i] in into
    requires forall i, j :: i in from && j in from && i != j ==> f[i] != f[j]
    ensures |from| <= |into|
    decreases |from|
  {
    if from != {} {
      var i :| i in from;
      NoMore(from - {i}, f, into - {f[i]});
    }
  }

  /** Places that reach all of a set are no fewer than it has. */
  lemma {:induction false} NoFewer(from: set<nat>, f: seq<nat>, into: set<nat>)
    requires forall i :: i in from ==> i < |f|
    requires forall x :: x in into ==> exists i :: i in from && f[i] == x
    ensures |into| <= |from|
    decreases |into|
  {
    if into != {} {
      var x :| x in into;
      var i :| i in from && f[i] == x;
      forall y | y in into - {x} ensures exists j :: j in from - {i} && f[j] == y {
        var j :| j in from && f[j] == y;
      }
      NoFewer(from - {i}, f, into - {x});
    }
  }

  /** Who takes a comment the kth shares an id with has been given one too, and is not the kth. */
  lemma {:induction false} TakersArePeers(keys: seq<set<string>>, comments: seq<set<string>>, gift: seq<nat>, k: nat, takers: seq<nat>,
      theirs: seq<nat>, i: nat)
    requires InClasses(keys, comments) && Given(keys, comments, gift) && Starves(keys, comments, k, takers, theirs)
    requires i < |theirs| && Share(comments[theirs[i]], keys[k])
    ensures takers[i] < |keys| && takers[i] != k && Share(comments[gift[takers[i]]], keys[k])
  {
    hide Share;
    var m := takers[i];
    RisingIn(takers, k, i);
    assert Share(comments[theirs[i]], keys[m]) && Share(comments[gift[m]], keys[m]);
    assert Alike(keys, comments, k, m, theirs[i], gift[m]);
  }

  lemma {:induction false} Parts(keys: seq<set<string>>, comments: seq<set<string>>, gift: seq<nat>, k: nat, takers: seq<nat>, theirs: seq<nat>)
    requires Given(keys, comments, gift) && Starves(keys, comments, k, takers, theirs)
    ensures |gift| == |keys| && (forall i, j :: 0 <= i < j < |gift| ==> gift[i] != gift[j])
    ensures |takers| == |theirs| && (forall i, j :: 0 <= i < j < |takers| ==> takers[i] != takers[j])
    ensures forall i :: 0 <= i < |theirs| ==> theirs[i] < |comments|
    ensures k < |keys| && gift[k] < |comments| && Share(comments[gift[k]], keys[k])
    ensures forall j :: 0 <= j < |comments| && Share(comments[j], keys[k]) ==> j in theirs
    ensures forall i :: 0 <= i < |gift| ==> gift[i] < |comments|
  {
    hide Share;
  }

  /** Where there is a comment for each finding and sharing goes in classes, no finding can be starved: its
      class has as many comments as findings, and it is one of them. */
  lemma {:induction false} ClassesFeed(keys: seq<set<string>>, comments: seq<set<string>>, gift: seq<nat>, k: nat, takers: seq<nat>, theirs: seq<nat>)
    requires InClasses(keys, comments) && Given(keys, comments, gift)
    ensures !Starves(keys, comments, k, takers, theirs)
  {
    hide Share, InClasses, Given, Starves;
    if Starves(keys, comments, k, takers, theirs) {
      Parts(keys, comments, gift, k, takers, theirs);
      var its := set j | 0 <= j < |comments| && Share(comments[j], keys[k]);
      var peers := set i | 0 <= i < |keys| && gift[i] in its;
      var taking := set i | 0 <= i < |theirs| && theirs[i] in its;
      forall i | i in taking ensures takers[i] in peers - {k} {
        TakersArePeers(keys, comments, gift, k, takers, theirs, i);
      }
      FewerThanPeers(its, peers, taking, takers, theirs, k);
      NoMore(peers, gift, its);
    }
  }

  lemma {:induction false} FewerThanPeers(its: set<nat>, peers: set<nat>, taking: set<nat>, takers: seq<nat>, theirs: seq<nat>, k: nat)
    requires |takers| == |theirs| && k in peers
    requires forall x :: x in its ==> x in theirs
    requires forall i :: i in taking <==> 0 <= i < |theirs| && theirs[i] in its
    requires forall i :: i in taking ==> takers[i] in peers - {k}
    requires forall i, j :: 0 <= i < j < |takers| ==> takers[i] != takers[j]
    ensures |its| < |peers|
  {
    Reaching(its, taking, theirs);
    NoFewer(taking, theirs, its);
    OneLess(peers, k);
    NoMore(taking, takers, peers - {k});
  }

  lemma {:induction false} OneLess(s: set<nat>, x: nat)
    requires x in s
    ensures |s - {x}| == |s| - 1
  {
  }

  lemma {:induction false} RisingIn(takers: seq<nat>, k: nat, i: nat)
    requires Rising(takers, k) && i < |takers|
    ensures takers[i] < k
  {
  }

  lemma {:induction false} Reaching(its: set<nat>, taking: set<nat>, theirs: seq<nat>)
    requires forall x :: x in its ==> x in theirs
    requires forall i :: i in taking <==> 0 <= i < |theirs| && theirs[i] in its
    ensures forall x :: x in its ==> exists i :: i in taking && theirs[i] == x
  {
    forall x | x in its ensures exists i :: i in taking && theirs[i] == x {
      assert x in theirs;
      var i :| 0 <= i < |theirs| && theirs[i] == x;
      assert i in taking;
    }
  }

  /** Where sharing goes in classes the order of the comments is nothing: a second run posts nothing, in
      whatever order it finds what was there and what the first run posted. */
  lemma {:induction false} OrderIsNothingInClasses<T>(h: Hashes, candidates: seq<Candidate<T>>, posted: seq<set<string>>, found: seq<set<string>>)
    requires multiset(found) == multiset(posted + KeysOf(h, Unposted(h, candidates, posted)))
    requires InClasses(KeysOf(h, candidates), found)
    ensures Unposted(h, candidates, found) == []
  {
    hide Unposted, KeysOf, Starves, InClasses, Given;
    RerunAddsNothing(h, candidates, posted);
    var gift := GiftsOf(h, candidates, found, posted + KeysOf(h, Unposted(h, candidates, posted)));
    if Unposted(h, candidates, found) != [] {
      var k, takers, theirs := StarvedFinding(h, candidates, found, found);
      ClassesFeed(KeysOf(h, candidates), found, gift, k, takers, theirs);
    }
  }
}
