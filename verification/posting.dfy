/** core/comment.py: which findings go inline, and which of those are not posted yet. */
module Posting {
  import opened Text
  import opened DiffParse
  import opened ChangeIndex
  import opened Findings
  import opened StampedIds

  /** The two hashes a finding is recognised by. */
  datatype Hashes = Hashes(fingerprint: Finding -> string, identity: Finding -> string)

  /** Both hashes are spelt as the markers spell an id. */
  ghost predicate Hex(h: Hashes) {
    forall f :: IsId(h.fingerprint(f)) && IsId(h.identity(f))
  }

  /** The ids of one finding of this run. */
  function CurrentKeys(h: Hashes, f: Finding): set<string> {
    {h.fingerprint(f), h.identity(f)}
  }

  /** A finding with what its host needs to place it. */
  datatype Candidate<T> = Candidate(item: T, finding: Finding)

  // ----- partition_findings -----

  /** Where a finding goes: into the diff with its position, into the body of the review, or apart. */
  datatype Destination<T> = Inline(item: T) | Demoted | Broad

  function Destined<T>(f: Finding, commentable: set<Anchor>, place: Finding -> Option<T>): Destination<T> {
    if f.broad then Broad
    else if !f.anchored || (f.path, f.line, f.side) !in commentable then Demoted
    else if place(f).None? then Demoted
    else Inline(place(f).value)
  }

  /** The three lists a partition makes, each in the order of the findings. */
  datatype Partition<T> = Partition(placeable: seq<Candidate<T>>, demoted: seq<Finding>, broad: seq<Finding>)

  function PartitionOf<T>(findings: seq<Finding>, commentable: set<Anchor>, place: Finding -> Option<T>): Partition<T> {
    if findings == [] then Partition([], [], [])
    else
      var f, p := findings[|findings| - 1], PartitionOf(findings[..|findings| - 1], commentable, place);
      match Destined(f, commentable, place)
      case Inline(item) => p.(placeable := p.placeable + [Candidate(item, f)])
      case Demoted => p.(demoted := p.demoted + [f])
      case Broad => p.(broad := p.broad + [f])
  }

  method PartitionFindings<T>(findings: seq<Finding>, commentable: set<Anchor>, place: Finding -> Option<T>)
      returns (placeable: seq<Candidate<T>>, demoted: seq<Finding>, broad: seq<Finding>)
    ensures Partition(placeable, demoted, broad) == PartitionOf(findings, commentable, place)
  {
    placeable, demoted, broad := [], [], [];
    for i := 0 to |findings|
      invariant Partition(placeable, demoted, broad) == PartitionOf(findings[..i], commentable, place)
    {
      var f := findings[i];
      assert findings[..i + 1][..i] == findings[..i];
      if f.broad {
        broad := broad + [f];
      } else if !f.anchored || (f.path, f.line, f.side) !in commentable {
        demoted := demoted + [f];
      } else {
        var payload := place(f);
        if payload.None? {
          demoted := demoted + [f];
        } else {
          placeable := placeable + [Candidate(payload.value, f)];
        }
      }
    }
    assert findings[..|findings|] == findings;
  }

  function Placed<T>(placeable: seq<Candidate<T>>): seq<Finding> {
    if placeable == [] then [] else Placed(placeable[..|placeable| - 1]) + [placeable[|placeable| - 1].finding]
  }

  /** No finding is lost or doubled. */
  lemma {:induction false} PartitionLosesNothing<T>(findings: seq<Finding>, commentable: set<Anchor>, place: Finding -> Option<T>)
    ensures var p := PartitionOf(findings, commentable, place);
      multiset(findings) == multiset(Placed(p.placeable)) + multiset(p.demoted) + multiset(p.broad)
    decreases |findings|
  {
    if findings != [] {
      var front, f := findings[..|findings| - 1], findings[|findings| - 1];
      assert findings == front + [f];
      PartitionLosesNothing(front, commentable, place);
      var p := PartitionOf(front, commentable, place);
      var d := Destined(f, commentable, place);
      hide Destined;
      if d.Inline? {
        var more := p.placeable + [Candidate(d.item, f)];
        assert more[..|more| - 1] == p.placeable;
      }
    }
  }

  /** What goes inline is exactly what is anchored on a commentable line, not broad, and placed by the host,
      with the place the host gave it. */
  lemma {:induction false} PartitionIsExact<T>(findings: seq<Finding>, commentable: set<Anchor>, place: Finding -> Option<T>, c: Candidate<T>)
    ensures var f := c.finding;
      c in PartitionOf(findings, commentable, place).placeable
      <==> f in findings && !f.broad && f.anchored && (f.path, f.line, f.side) in commentable && place(f) == Some(c.item)
    decreases |findings|
  {
    if findings != [] {
      var front, f := findings[..|findings| - 1], findings[|findings| - 1];
      assert findings == front + [f];
      PartitionIsExact(front, commentable, place, c);
    }
  }

  // ----- unposted -----

  /** The first posted comment that shares an id. */
  function FirstSharing(posted: seq<set<string>>, keys: set<string>): (at: Option<nat>)
    ensures at.Some? ==> at.value < |posted|
  {
    if posted == [] then None
    else if posted[0] * keys != {} then Some(0)
    else
      match FirstSharing(posted[1..], keys)
      case None => None
      case Some(j) => Some(j + 1)
  }

  /** What is found shares an id; nothing before it does. */
  lemma {:induction false} FirstSharingIs(posted: seq<set<string>>, keys: set<string>)
    ensures FirstSharing(posted, keys).Some? ==> posted[FirstSharing(posted, keys).value] * keys != {}
    ensures forall j :: 0 <= j < |posted| && (FirstSharing(posted, keys).None? || j < FirstSharing(posted, keys).value) ==>
      posted[j] * keys == {}
  {
    if posted != [] && posted[0] * keys == {} {
      FirstSharingIs(posted[1..], keys);
      assert forall j :: 1 <= j < |posted| ==> posted[j] == posted[1..][j - 1];
    }
  }

  function Without<T>(s: seq<T>, i: nat): seq<T>
    requires i < |s|
  {
    s[..i] + s[i + 1..]
  }

  function Unposted<T>(h: Hashes, candidates: seq<Candidate<T>>, unmatched: seq<set<string>>): seq<Candidate<T>>
    decreases |candidates|
  {
    if candidates == [] then []
    else
      match FirstSharing(unmatched, CurrentKeys(h, candidates[0].finding))
      case None => [candidates[0]] + Unposted(h, candidates[1..], unmatched)
      case Some(i) => Unposted(h, candidates[1..], Without(unmatched, i))
  }

  /** The candidates not already among the posted comments, each of which stands for one at most. */
  method FindUnposted<T>(h: Hashes, candidates: seq<Candidate<T>>, posted: seq<set<string>>) returns (toPost: seq<Candidate<T>>)
    ensures toPost == Unposted(h, candidates, posted)
  {
    var unmatched := posted;
    toPost := [];
    assert candidates[0..] == candidates;
    for n := 0 to |candidates|
      invariant toPost + Unposted(h, candidates[n..], unmatched) == Unposted(h, candidates, posted)
    {
      assert candidates[n..][1..] == candidates[n + 1..];
      var keys := CurrentKeys(h, candidates[n].finding);
      var already := FirstSharing(unmatched, keys);
      if already.None? {
        Assoc(toPost, [candidates[n]], Unposted(h, candidates[n + 1..], unmatched));
        toPost := toPost + [candidates[n]];
      } else {
        unmatched := Without(unmatched, already.value);
      }
    }
    assert toPost + [] == toPost;
  }

  function KeysOf<T>(h: Hashes, candidates: seq<Candidate<T>>): (keys: seq<set<string>>)
    ensures |keys| == |candidates|
    ensures forall i :: 0 <= i < |keys| ==> keys[i] == CurrentKeys(h, candidates[i].finding)
  {
    if candidates == [] then [] else [CurrentKeys(h, candidates[0].finding)] + KeysOf(h, candidates[1..])
  }

  /** Comments further down the list change nothing for a candidate that one further up stands for. */
  lemma {:induction false} FirstSharingPrefix(posted: seq<set<string>>, more: seq<set<string>>, keys: set<string>)
    ensures FirstSharing(posted + more, keys) ==
      if FirstSharing(posted, keys).Some? then FirstSharing(posted, keys)
      else if FirstSharing(more, keys).Some? then Some(|posted| + FirstSharing(more, keys).value) else None
    decreases |posted|
  {
    if posted == [] {
      assert posted + more == more;
    } else {
      assert (posted + more)[1..] == posted[1..] + more;
      FirstSharingPrefix(posted[1..], more, keys);
    }
  }

  /** A second run over the same candidates, with what the first posted appended to the list, posts nothing. */
  lemma {:induction false} RerunAddsNothing<T>(h: Hashes, candidates: seq<Candidate<T>>, posted: seq<set<string>>)
    ensures Unposted(h, candidates, posted + KeysOf(h, Unposted(h, candidates, posted))) == []
    decreases |candidates|
  {
    if candidates != [] {
      var keys := CurrentKeys(h, candidates[0].finding);
      var toPost := Unposted(h, candidates, posted);
      FirstSharingPrefix(posted, KeysOf(h, toPost), keys);
      match FirstSharing(posted, keys) {
        case None =>
          var rest := Unposted(h, candidates[1..], posted);
          assert toPost == [candidates[0]] + rest && toPost[1..] == rest;
          OwnKeysFound(h, candidates[0], rest);
          RerunAddsNothing(h, candidates[1..], posted);
          hide FirstSharing, CurrentKeys, KeysOf;
          WithoutNext(posted, keys, KeysOf(h, rest));
        case Some(i) =>
          RerunAddsNothing(h, candidates[1..], Without(posted, i));
          hide FirstSharing, CurrentKeys, KeysOf;
          WithoutPrefix(posted, i, KeysOf(h, toPost));
      }
    }
  }

  lemma {:induction false} OwnKeysFound<T>(h: Hashes, c: Candidate<T>, rest: seq<Candidate<T>>)
    ensures KeysOf(h, [c] + rest) == [CurrentKeys(h, c.finding)] + KeysOf(h, rest)
    ensures FirstSharing(KeysOf(h, [c] + rest), CurrentKeys(h, c.finding)) == Some(0)
  {
    assert ([c] + rest)[1..] == rest;
    assert h.fingerprint(c.finding) in CurrentKeys(h, c.finding) * CurrentKeys(h, c.finding);
  }

  lemma {:induction false} WithoutNext<T>(a: seq<T>, x: T, b: seq<T>)
    ensures Without(a + ([x] + b), |a|) == a + b
  {
  }

  lemma {:induction false} WithoutPrefix<T>(a: seq<T>, i: nat, b: seq<T>)
    requires i < |a|
    ensures Without(a + b, i) == Without(a, i) + b
  {
  }

  // ----- What is absorbed -----

  function Fresh<T>(candidates: seq<Candidate<T>>, taker: seq<Option<nat>>): seq<Candidate<T>>
    requires |taker| == |candidates|
  {
    if candidates == [] then []
    else (if taker[0].None? then [candidates[0]] else []) + Fresh(candidates[1..], taker[1..])
  }

  /** A candidate that is absorbed shares an id with its comment, and no other has the same comment. */
  ghost predicate SharesId<T>(h: Hashes, candidates: seq<Candidate<T>>, posted: seq<set<string>>, taker: seq<Option<nat>>)
    requires |taker| == |candidates|
  {
    forall i :: 0 <= i < |taker| && taker[i].Some? ==>
      taker[i].value < |posted| && posted[taker[i].value] * CurrentKeys(h, candidates[i].finding) != {}
  }

  ghost predicate EachOnce(taker: seq<Option<nat>>) {
    forall i, j :: 0 <= i < j < |taker| && taker[i].Some? ==> taker[i] != taker[j]
  }

  /** One of the first n candidates has taken comment j. */
  predicate Taken(taker: seq<Option<nat>>, n: nat, j: nat) {
    exists m :: 0 <= m < n && m < |taker| && taker[m] == Some(j)
  }

  ghost predicate OneForOne<T>(h: Hashes, candidates: seq<Candidate<T>>, posted: seq<set<string>>, taker: seq<Option<nat>>) {
    && |taker| == |candidates|
    && SharesId(h, candidates, posted, taker) && EachOnce(taker)
  }

  /** A candidate that is not absorbed shares no id with any comment an earlier one has not taken. */
  ghost predicate NoneSpare<T>(h: Hashes, candidates: seq<Candidate<T>>, posted: seq<set<string>>, taker: seq<Option<nat>>) {
    && |taker| == |candidates|
    && (forall i, j :: 0 <= i < |taker| && taker[i].None? && 0 <= j < |posted| && posted[j] * CurrentKeys(h, candidates[i].finding) != {} ==>
          Taken(taker, i, j))
  }

  function Shift(at: Option<nat>, i: nat): Option<nat> {
    match at
    case None => None
    case Some(j) => Some(if j < i then j else j + 1)
  }

  function Shifted(taker: seq<Option<nat>>, i: nat): (shifted: seq<Option<nat>>)
    ensures |shifted| == |taker| && forall k :: 0 <= k < |taker| ==> shifted[k] == Shift(taker[k], i)
  {
    if taker == [] then [] else [Shift(taker[0], i)] + Shifted(taker[1..], i)
  }

  /** What is absorbed is matched one for one, the rest keep their order, and nothing is left over that
      could have absorbed one of them. */
  lemma {:induction false} AbsorbedOneForOne<T>(h: Hashes, candidates: seq<Candidate<T>>, posted: seq<set<string>>)
      returns (taker: seq<Option<nat>>)
    ensures OneForOne(h, candidates, posted, taker) && NoneSpare(h, candidates, posted, taker)
    ensures Unposted(h, candidates, posted) == Fresh(candidates, taker)
    decreases |candidates|
  {
    if candidates == [] {
      taker := [];
    } else {
      hide OneForOne, NoneSpare, Fresh, CurrentKeys;
      var keys := CurrentKeys(h, candidates[0].finding);
      match FirstSharing(posted, keys) {
        case None =>
          var rest := AbsorbedOneForOne(h, candidates[1..], posted);
          taker := [None] + rest;
          FreshFirst(h, candidates, posted, rest);
          FreshCons(candidates, None, rest);
        case Some(i) =>
          var rest := AbsorbedOneForOne(h, candidates[1..], Without(posted, i));
          taker := [Some(i)] + Shifted(rest, i);
          TakenOneForOne(h, candidates, posted, rest, i);
          TakenNoneSpare(h, candidates, posted, rest, i);
          FreshCons(candidates, Some(i), Shifted(rest, i));
          ShiftedFresh(candidates[1..], rest, i);
      }
    }
  }

  lemma {:induction false} FreshCons<T>(candidates: seq<Candidate<T>>, first: Option<nat>, rest: seq<Option<nat>>)
    requires |candidates| == |rest| + 1
    ensures Fresh(candidates, [first] + rest) == (if first.None? then [candidates[0]] else []) + Fresh(candidates[1..], rest)
  {
    assert ([first] + rest)[1..] == rest;
  }

  lemma {:induction false} FreshFirst<T>(h: Hashes, candidates: seq<Candidate<T>>, posted: seq<set<string>>, rest: seq<Option<nat>>)
    requires candidates != [] && FirstSharing(posted, CurrentKeys(h, candidates[0].finding)).None?
    requires OneForOne(h, candidates[1..], posted, rest) && NoneSpare(h, candidates[1..], posted, rest)
    ensures OneForOne(h, candidates, posted, [None] + rest) && NoneSpare(h, candidates, posted, [None] + rest)
  {
    FirstSharingIs(posted, CurrentKeys(h, candidates[0].finding));
    hide CurrentKeys, FirstSharing;
    var taker := [None] + rest;
    assert taker[1..] == rest;
    forall i, j | 0 <= i < |taker| && taker[i].None? && 0 <= j < |posted| && posted[j] * CurrentKeys(h, candidates[i].finding) != {}
      ensures Taken(taker, i, j)
    {
      assert i > 0;
      assert candidates[1..][i - 1] == candidates[i] && Taken(rest, i - 1, j);
      var m :| 0 <= m < i - 1 && m < |rest| && rest[m] == Some(j);
      assert taker[m + 1] == Some(j);
    }
  }

  /** Where a comment stands once another is taken out of the list, and back. */
  lemma {:induction false} WithoutAt<T>(s: seq<T>, i: nat, j: nat)
    requires i < |s| && j < |s| && j != i
    ensures |Without(s, i)| == |s| - 1 && Without(s, i)[if j < i then j else j - 1] == s[j]
  {
  }

  lemma {:induction false} TakenOneForOne<T>(h: Hashes, candidates: seq<Candidate<T>>, posted: seq<set<string>>, rest: seq<Option<nat>>, i: nat)
    requires candidates != [] && FirstSharing(posted, CurrentKeys(h, candidates[0].finding)) == Some(i)
    requires OneForOne(h, candidates[1..], Without(posted, i), rest)
    ensures OneForOne(h, candidates, posted, [Some(i)] + Shifted(rest, i))
  {
    FirstSharingIs(posted, CurrentKeys(h, candidates[0].finding));
    hide CurrentKeys, FirstSharing, Without;
    TakenShares(h, candidates, posted, rest, i);
    hide SharesId;
    TakenOnce(rest, i);
  }

  lemma {:induction false} TakenShares<T>(h: Hashes, candidates: seq<Candidate<T>>, posted: seq<set<string>>, rest: seq<Option<nat>>, i: nat)
    requires |candidates| == |rest| + 1 && i < |posted| && SharesId(h, candidates[1..], Without(posted, i), rest)
    requires posted[i] * CurrentKeys(h, candidates[0].finding) != {}
    ensures SharesId(h, candidates, posted, [Some(i)] + Shifted(rest, i))
  {
    hide CurrentKeys;
    var taker := [Some(i)] + Shifted(rest, i);
    forall k | 0 <= k < |taker| && taker[k].Some?
      ensures taker[k].value < |posted| && posted[taker[k].value] * CurrentKeys(h, candidates[k].finding) != {}
    {
      if k > 0 {
        assert taker[k] == Shift(rest[k - 1], i) && candidates[k] == candidates[1..][k - 1];
        WithoutAt(posted, i, taker[k].value);
      }
    }
  }

  lemma {:induction false} TakenOnce(rest: seq<Option<nat>>, i: nat)
    requires EachOnce(rest)
    ensures EachOnce([Some(i)] + Shifted(rest, i))
  {
    var taker := [Some(i)] + Shifted(rest, i);
    hide Shifted;
    forall k, m | 0 <= k < m < |taker| && taker[k].Some? ensures taker[k] != taker[m] {
      ShiftedAt(rest, i, m - 1);
      if k > 0 {
        ShiftedAt(rest, i, k - 1);
        assert rest[k - 1] != rest[m - 1];
      }
    }
  }

  lemma {:induction false} ShiftedAt(rest: seq<Option<nat>>, i: nat, k: nat)
    requires k < |rest|
    ensures ([Some(i)] + Shifted(rest, i))[k + 1] == Shift(rest[k], i)
  {
  }

  lemma {:induction false} TakenNoneSpare<T>(h: Hashes, candidates: seq<Candidate<T>>, posted: seq<set<string>>, rest: seq<Option<nat>>, i: nat)
    requires candidates != [] && i < |posted|
    requires NoneSpare(h, candidates[1..], Without(posted, i), rest)
    ensures NoneSpare(h, candidates, posted, [Some(i)] + Shifted(rest, i))
  {
    hide CurrentKeys, Without, Shifted;
    var taker := [Some(i)] + Shifted(rest, i);
    forall k, j | 0 <= k < |taker| && taker[k].None? && 0 <= j < |posted| && posted[j] * CurrentKeys(h, candidates[k].finding) != {}
      ensures Taken(taker, k, j)
    {
      assert taker[0] == Some(i) && k > 0;
      ShiftedAt(rest, i, k - 1);
      if j != i {
        var j': nat := if j < i then j else j - 1;
        WithoutAt(posted, i, j);
        assert candidates[1..][k - 1] == candidates[k];
        assert Without(posted, i)[j'] * CurrentKeys(h, candidates[1..][k - 1].finding) != {};
        assert Taken(rest, k - 1, j');
        var m :| 0 <= m < k - 1 && m < |rest| && rest[m] == Some(j');
        ShiftedAt(rest, i, m);
        assert taker[m + 1] == Some(j);
      }
    }
  }

  lemma {:induction false} ShiftedFresh<T>(candidates: seq<Candidate<T>>, taker: seq<Option<nat>>, i: nat)
    requires |taker| == |candidates|
    ensures Fresh(candidates, Shifted(taker, i)) == Fresh(candidates, taker)
  {
    if candidates != [] {
      ShiftedFresh(candidates[1..], taker[1..], i);
    }
  }

  // ----- Through the comments -----

  /** One id set for each comment of ours on the page. */
  function PostedKeys(bodies: seq<string>): (keys: seq<set<string>>)
    ensures |keys| == |bodies| && forall i :: 0 <= i < |bodies| ==> keys[i] == FindingKeys(bodies[i])
  {
    if bodies == [] then [] else [FindingKeys(bodies[0])] + PostedKeys(bodies[1..])
  }

  /** The comments a run posts: one for each finding, as it is rendered. */
  ghost predicate Rendered<T>(h: Hashes, toPost: seq<Candidate<T>>, bodies: seq<string>) {
    && |bodies| == |toPost|
    && (forall i :: 0 <= i < |toPost| ==> RenderedAs(h, toPost[i].finding, bodies[i]))
  }

  ghost predicate RenderedAs(h: Hashes, f: Finding, body: string) {
    exists severity, badge :: body == RenderInlineBody(f, severity, badge, h.fingerprint(f), h.identity(f))
  }

  /** A run that reads its own comments back from the page posts nothing the last one posted. */
  lemma {:induction false} RerunThroughComments<T>(h: Hashes, candidates: seq<Candidate<T>>, bodies: seq<string>, more: seq<string>)
    requires Hex(h) && Rendered(h, Unposted(h, candidates, PostedKeys(bodies)), more)
    ensures Unposted(h, candidates, PostedKeys(bodies + more)) == []
  {
    hide FindingKeys, Unposted, Hex, RenderedAs, CurrentKeys;
    var toPost := Unposted(h, candidates, PostedKeys(bodies));
    forall i | 0 <= i < |more| ensures FindingKeys(more[i]) == KeysOf(h, toPost)[i] {
      CommentKeys(h, toPost[i].finding, more[i]);
    }
    PostedConcat(bodies, more);
    SameKeys(PostedKeys(more), KeysOf(h, toPost));
    RerunAddsNothing(h, candidates, PostedKeys(bodies));
  }

  lemma {:induction false} SameKeys(a: seq<set<string>>, b: seq<set<string>>)
    requires |a| == |b| && forall i :: 0 <= i < |a| ==> a[i] == b[i]
    ensures a == b
  {
  }

  lemma {:induction false} PostedConcat(a: seq<string>, b: seq<string>)
    ensures PostedKeys(a + b) == PostedKeys(a) + PostedKeys(b)
    decreases |a|
  {
    hide FindingKeys;
    if a == [] {
      assert a + b == b;
    } else {
      assert (a + b)[1..] == a[1..] + b;
      PostedConcat(a[1..], b);
    }
  }

  lemma {:induction false} CommentKeys(h: Hashes, f: Finding, body: string)
    requires Hex(h) && RenderedAs(h, f, body)
    ensures FindingKeys(body) == CurrentKeys(h, f)
  {
    hide FindingKeys, RenderInlineBody, IsId;
    var severity, badge :| body == RenderInlineBody(f, severity, badge, h.fingerprint(f), h.identity(f));
    RenderedKeysReadBack(f, severity, badge, h.fingerprint(f), h.identity(f));
  }

  /** With nothing posted yet, everything is. */
  lemma {:induction false} AllNew<T>(h: Hashes, candidates: seq<Candidate<T>>)
    ensures Unposted(h, candidates, []) == candidates
    decreases |candidates|
  {
    if candidates != [] {
      AllNew(h, candidates[1..]);
    }
  }

  /** The order of the list matters. Of any three findings where the second shares an id with each of the
      others and they share none, a run with nothing posted posts all three; a second run that finds the
      same three comments in another order posts the third again. */
  lemma {:induction false} OrderMatters<T>(h: Hashes, a: Candidate<T>, b: Candidate<T>, c: Candidate<T>)
    requires CurrentKeys(h, a.finding) * CurrentKeys(h, b.finding) != {}
    requires CurrentKeys(h, b.finding) * CurrentKeys(h, c.finding) != {}
    requires CurrentKeys(h, a.finding) * CurrentKeys(h, c.finding) == {}
    ensures var first, second := KeysOf(h, [a, b, c]), KeysOf(h, [b, c, a]);
      && Unposted(h, [a, b, c], []) == [a, b, c]
      && multiset(first) == multiset(second)
      && Unposted(h, [a, b, c], first) == []
      && Unposted(h, [a, b, c], second) == [c]
  {
    var all := [a, b, c];
    var ka, kb, kc := CurrentKeys(h, a.finding), CurrentKeys(h, b.finding), CurrentKeys(h, c.finding);
    hide CurrentKeys, Unposted, KeysOf;
    SecondOrder(h, a, b, c);
    AllNew(h, all);
    RerunAddsNothing(h, all, []);
    assert [] + KeysOf(h, all) == KeysOf(h, all);
    ThreeKeys(h, a, b, c);
    ThreeKeys(h, b, c, a);
  }

  lemma {:induction false} ThreeKeys<T>(h: Hashes, a: Candidate<T>, b: Candidate<T>, c: Candidate<T>)
    ensures KeysOf(h, [a, b, c]) == [CurrentKeys(h, a.finding), CurrentKeys(h, b.finding), CurrentKeys(h, c.finding)]
  {
  }

  lemma {:induction false} SecondOrder<T>(h: Hashes, a: Candidate<T>, b: Candidate<T>, c: Candidate<T>)
    requires CurrentKeys(h, a.finding) * CurrentKeys(h, b.finding) != {}
    requires CurrentKeys(h, b.finding) * CurrentKeys(h, c.finding) != {}
    requires CurrentKeys(h, a.finding) * CurrentKeys(h, c.finding) == {}
    ensures Unposted(h, [a, b, c], [CurrentKeys(h, b.finding), CurrentKeys(h, c.finding), CurrentKeys(h, a.finding)]) == [c]
  {
    var ka, kb, kc := CurrentKeys(h, a.finding), CurrentKeys(h, b.finding), CurrentKeys(h, c.finding);
    hide CurrentKeys;
    assert FirstSharing([kb, kc, ka], ka) == Some(0) && Without([kb, kc, ka], 0) == [kc, ka];
    assert FirstSharing([kc, ka], kb) == Some(0) && Without([kc, ka], 0) == [ka];
    assert FirstSharing([ka], kc) == None;
    hide FirstSharing, Without;
    assert [a, b, c][1..] == [b, c] && [b, c][1..] == [c];
    assert Unposted(h, [c], [ka]) == [c] + Unposted(h, [c][1..], [ka]) == [c];
    assert Unposted(h, [b, c], [kc, ka]) == Unposted(h, [c], [ka]);
  }
}
