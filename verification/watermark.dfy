/** review.py and github/rest_gateway.py: which heads count as reviewed, over every history of pushes, runs
    and interruptions. Runs may overlap; any of them may stop between two writes to the host. */
module Watermark {
  import opened DiffParse

  type Sha = nat
  type Change = nat
  type Fingerprint = nat

  /** What the heads hold: the changes of each one's whole diff, and that diff's fingerprint. */
  datatype World = World(changes: Sha -> set<Change>, fingerprint: Sha -> Fingerprint)

  // ----- The host -----

  /** The markers a completed run leaves in its summary. */
  datatype Stamp = Stamp(sha: Sha, fingerprint: Fingerprint)

  datatype Review = Review(commit: Sha, stamp: Option<Stamp>)

  /** Our reviews, oldest first, and the overview comment with the head it was completed for. */
  datatype Host = Host(head: Sha, reviews: seq<Review>, overview: Option<Sha>)

  /** The review a summary goes to, and what is read of it. */
  datatype Found = Found(index: nat, commit: Sha)

  function Latest(host: Host): Option<Found> {
    if host.reviews == [] then None
    else Some(Found(|host.reviews| - 1, host.reviews[|host.reviews| - 1].commit))
  }

  /** last_reviewed_sha; None too when the lookup fails. */
  function LastReviewed(host: Host, fails: bool): Option<Stamp> {
    if fails || host.reviews == [] then None else host.reviews[|host.reviews| - 1].stamp
  }

  function LastCompleted(host: Host, overviewRequired: bool, fails: bool): Option<Sha> {
    if !overviewRequired then
      match LastReviewed(host, fails)
      case None => None
      case Some(stamp) => Some(stamp.sha)
    else if fails || host.reviews == [] then None
    else host.overview
  }

  // ----- Scoping a run (_incremental_context) -----

  /** What the host answers while a run reads it: any lookup may fail, and the compare may have no answer. */
  datatype Answers = Answers(completedFails: bool, reviewedFails: bool, fingerprintFails: bool, compared: Option<Increment>)

  datatype Increment = Increment(blank: bool, changes: set<Change>)

  datatype Scope = Full | Since(last: Sha, increment: set<Change>) | Nothing(last: Sha)

  function ScopeOf(world: World, host: Host, incremental: bool, overviewRequired: bool, a: Answers): Scope {
    if !incremental then Full
    else
      match LastCompleted(host, overviewRequired, a.completedFails)
      case None => Full
      case Some(last) =>
        if last == host.head then Nothing(last)
        else if UnchangedSince(world, host, last, a) then Nothing(last)
        else
          match a.compared
          case None => Full
          case Some(increment) => if increment.blank then Full else Since(last, increment.changes)
  }

  /** The stamped fingerprint is compared only when it belongs to the completed head. */
  predicate UnchangedSince(world: World, host: Host, last: Sha, a: Answers) {
    var reviewed := LastReviewed(host, a.reviewedFails);
    && reviewed.Some? && reviewed.value.sha == last
    && !a.fingerprintFails && reviewed.value.fingerprint == world.fingerprint(host.head)
  }

  /** The compare is answered only for a head linearly ahead, and then with all that came since. */
  predicate Comparable(world: World, host: Host, overviewRequired: bool, a: Answers) {
    var last := LastCompleted(host, overviewRequired, a.completedFails);
    a.compared.Some? && last.Some? ==>
      world.changes(host.head) <= world.changes(last.value) + a.compared.value.changes
  }

  // ----- The writes of a run -----

  datatype Write =
    | Other
    | Put(index: nat, stamp: Option<Stamp>)
    | Post(commit: Option<Sha>, stamp: Option<Stamp>)
    | Comment
    | Overview(sha: Sha)

  function Comments(n: nat): seq<Write> {
    if n == 0 then [] else [Comment] + Comments(n - 1)
  }

  /** How the host takes the review: how many comments are new, whether one is rejected, and whether the
      review that carries them all is refused. */
  datatype Reception = Reception(comments: nat, rejected: bool, refused: bool)

  /** post_review: the summary of a review at the same commit is replaced and the new comments follow one by
      one; otherwise one new review carries them all, unless the host refuses it. */
  predicate Updates(existing: Option<Found>, completed: Option<Stamp>) {
    existing.Some? && !(completed.Some? && existing.value.commit != completed.value.sha)
  }

  function PostReview(existing: Option<Found>, completed: Option<Stamp>, r: Reception): (writes: seq<Write>)
    ensures writes != []
  {
    var commit := if completed.Some? then Some(completed.value.sha) else None;
    if Updates(existing, completed) then
      var put := Put(existing.value.index, completed);
      [put] + Comments(r.comments) + (if r.rejected then [put] else [])
    else if r.refused && r.comments > 0 then Comments(r.comments) + [Post(commit, completed)]
    else [Post(commit, completed)]
  }

  /** The host writes of run_review in order: notices, labels and the check first, then the review, then a
      required overview. */
  function Plan(stamp: Stamp, complete: bool, overviewRequired: bool, others: nat, existing: Option<Found>, r: Reception): seq<Write> {
    Others(others) + PostReview(existing, if complete then Some(stamp) else None, r)
    + (if overviewRequired && complete then [Overview(stamp.sha)] else [])
  }

  function Others(n: nat): seq<Write> {
    if n == 0 then [] else [Other] + Others(n - 1)
  }

  function Effect(host: Host, w: Write): Host {
    match w
    case Other => host
    case Comment => host
    case Put(index, stamp) =>
      if index < |host.reviews| then host.(reviews := host.reviews[index := host.reviews[index].(stamp := stamp)]) else host
    case Post(commit, stamp) =>
      host.(reviews := host.reviews + [Review(if commit.Some? then commit.value else host.head, stamp)])
    case Overview(sha) => host.(overview := Some(sha))
  }

  // ----- Histories -----

  /** A run under way: the head and diff it was scoped to, the review it found, and the writes still to come. */
  datatype Run = Run(head: Sha, diff: set<Change>, overviewRequired: bool, existing: Option<Found>, complete: bool, plan: seq<Write>)

  /** A run that reported there was nothing to review. */
  datatype Verdict = Verdict(head: Sha, last: Sha, overviewRequired: bool)

  /** The host, the runs under way, and three things nobody stores: the changes handed to engine.review by
      runs whose head was then stamped complete, the heads whose review was posted to its end, and every
      verdict. */
  datatype State = State(host: Host, runs: seq<Run>, given: set<Change>, posted: set<Sha>, verdicts: seq<Verdict>)

  datatype Step =
    | Push(head: Sha)
    | Begin(incremental: bool, overviewRequired: bool, answers: Answers)
    | Reviewed(run: nat, looksAgain: bool, complete: bool, others: nat, reception: Reception)
    | Next(run: nat)
    | Stop(run: nat)

  predicate Stamps(w: Write) {
    (w.Put? || w.Post?) && w.stamp.Some?
  }

  /** Nothing of the review itself is left to write. */
  predicate ReviewWritten(plan: seq<Write>) {
    plan == [] || plan[0].Overview?
  }

  function Take(world: World, s: State, step: Step): State {
    match step
    case Push(head) => s.(host := s.host.(head := head))
    case Begin(incremental, overviewRequired, answers) =>
      (match ScopeOf(world, s.host, incremental, overviewRequired, answers)
       case Nothing(last) => s.(verdicts := s.verdicts + [Verdict(s.host.head, last, overviewRequired)])
       case Full => Started(s, world.changes(s.host.head), overviewRequired)
       case Since(_, increment) => Started(s, increment, overviewRequired))
    case Reviewed(i, looksAgain, complete, others, r) =>
      if i >= |s.runs| || s.runs[i].plan != [] then s
      else
        var run := s.runs[i];
        var existing := if looksAgain then Latest(s.host) else run.existing;
        var plan := Plan(Stamp(run.head, world.fingerprint(run.head)), complete, run.overviewRequired, others, existing, r);
        s.(runs := s.runs[i := run.(existing := existing, complete := complete, plan := plan)])
    case Next(i) =>
      if i >= |s.runs| || s.runs[i].plan == [] then s else Written(s, i)
    case Stop(i) =>
      if i >= |s.runs| then s else s.(runs := s.runs[..i] + s.runs[i + 1..])
  }

  function Started(s: State, diff: set<Change>, overviewRequired: bool): State {
    s.(runs := s.runs + [Run(s.host.head, diff, overviewRequired, Latest(s.host), false, [])])
  }

  /** A run performs its next write. */
  function Written(s: State, i: nat): State
    requires i < |s.runs| && s.runs[i].plan != []
  {
    var run := s.runs[i];
    var w, rest := run.plan[0], run.plan[1..];
    s.(host := Effect(s.host, w),
       runs := s.runs[i := run.(plan := rest)],
       given := if Stamps(w) then s.given + run.diff else s.given,
       posted := if run.complete && ReviewWritten(rest) then s.posted + {run.head} else s.posted)
  }

  /** Every compare is answered as it is promised to be. */
  predicate Fair(world: World, s: State, step: Step) {
    step.Begin? ==> Comparable(world, s.host, step.overviewRequired, step.answers)
  }

  function History(world: World, s: State, steps: seq<Step>): State
    decreases |steps|
  {
    if steps == [] then s else History(world, Take(world, s, steps[0]), steps[1..])
  }

  predicate FairHistory(world: World, s: State, steps: seq<Step>)
    decreases |steps|
  {
    steps == [] || (Fair(world, s, steps[0]) && FairHistory(world, Take(world, s, steps[0]), steps[1..]))
  }

  function Opened(head: Sha): State {
    State(Host(head, [], None), [], {}, {}, [])
  }

  // ----- What every history keeps -----

  /** Every change of the head was handed to engine.review by a run that completed. */
  predicate Covered(world: World, s: State, sha: Sha) {
    world.changes(sha) <= s.given
  }

  predicate GoodStamp(world: World, s: State, stamp: Stamp) {
    Covered(world, s, stamp.sha) && stamp.fingerprint == world.fingerprint(stamp.sha)
  }

  predicate GoodHost(world: World, s: State) {
    && (forall i :: 0 <= i < |s.host.reviews| && s.host.reviews[i].stamp.Some? ==> GoodStamp(world, s, s.host.reviews[i].stamp.value))
    && (s.host.overview.Some? ==> Covered(world, s, s.host.overview.value) && s.host.overview.value in s.posted)
  }

  predicate GoodVerdict(world: World, s: State, v: Verdict) {
    && Covered(world, s, v.last)
    && (v.head == v.last || world.fingerprint(v.head) == world.fingerprint(v.last))
    && (v.overviewRequired ==> v.last in s.posted)
  }

  /** The writes still to come of a run at this head: they stamp this head and no other, only if the run is
      complete, and an overview is the last of them. */
  predicate GoodPlan(world: World, run: Run, plan: seq<Write>) {
    && (forall k :: 0 <= k < |plan| && Stamps(plan[k]) ==>
          run.complete && plan[k].stamp.value == Stamp(run.head, world.fingerprint(run.head)))
    && (forall k :: 0 <= k < |plan| && plan[k].Overview? ==> run.complete && plan[k].sha == run.head && k == |plan| - 1)
  }

  predicate GoodRun(world: World, s: State, run: Run) {
    && world.changes(run.head) <= run.diff + s.given
    && GoodPlan(world, run, run.plan)
    && (run.plan != [] && run.plan[0].Overview? ==> run.head in s.posted && Covered(world, s, run.head))
    && StampFirst(world, s, run)
  }

  /** An overview that is still to come follows a stamp that is, unless the head is covered by now. */
  predicate StampFirst(world: World, s: State, run: Run) {
    run.plan != [] && run.plan[|run.plan| - 1].Overview? && !Covered(world, s, run.head) ==>
      exists k :: 0 <= k < |run.plan| && Stamps(run.plan[k])
  }

  predicate Inv(world: World, s: State) {
    && GoodHost(world, s)
    && (forall i :: 0 <= i < |s.runs| ==> GoodRun(world, s, s.runs[i]))
    && (forall i :: 0 <= i < |s.verdicts| ==> GoodVerdict(world, s, s.verdicts[i]))
  }

  // ----- One write -----

  /** What holds of a state holds when more has been given and posted. */
  lemma {:induction false} MoreRun(world: World, s: State, t: State, run: Run)
    requires GoodRun(world, s, run) && s.given <= t.given && s.posted <= t.posted
    ensures GoodRun(world, t, run)
  {
  }

  lemma {:induction false} MoreVerdict(world: World, s: State, t: State, v: Verdict)
    requires GoodVerdict(world, s, v) && s.given <= t.given && s.posted <= t.posted
    ensures GoodVerdict(world, t, v)
  {
  }

  /** A write of a good run leaves a good host. */
  lemma {:induction false} WriteKeepsHost(world: World, s: State, i: nat)
    requires GoodHost(world, s) && i < |s.runs| && s.runs[i].plan != [] && GoodRun(world, s, s.runs[i])
    ensures GoodHost(world, Written(s, i))
  {
    var run := s.runs[i];
    var w := run.plan[0];
    var t := Written(s, i);
    if Stamps(w) {
      assert w.stamp.value == Stamp(run.head, world.fingerprint(run.head));
      assert GoodStamp(world, t, w.stamp.value);
    }
    forall k | 0 <= k < |t.host.reviews| && t.host.reviews[k].stamp.Some? ensures GoodStamp(world, t, t.host.reviews[k].stamp.value) {
      if k < |s.host.reviews| && t.host.reviews[k] == s.host.reviews[k] {
        assert GoodStamp(world, s, s.host.reviews[k].stamp.value);
      }
    }
  }

  lemma {:induction false} WriteKeepsRun(world: World, s: State, i: nat)
    requires i < |s.runs| && s.runs[i].plan != [] && GoodRun(world, s, s.runs[i])
    ensures GoodRun(world, Written(s, i), Written(s, i).runs[i])
  {
    var run := s.runs[i];
    var plan, rest := run.plan, run.plan[1..];
    var t := Written(s, i);
    assert forall k :: 0 <= k < |rest| ==> rest[k] == plan[k + 1];
    if rest != [] && rest[|rest| - 1].Overview? && !Covered(world, t, run.head) {
      assert plan[|plan| - 1].Overview?;
      var k :| 0 <= k < |plan| && Stamps(plan[k]);
      assert k > 0;
      assert Stamps(rest[k - 1]);
    }
    if rest != [] && rest[0].Overview? {
      assert plan[1].Overview? && |plan| == 2;
      if !Covered(world, s, run.head) {
        var k :| 0 <= k < |plan| && Stamps(plan[k]);
        assert k == 0;
      }
    }
  }

  lemma {:induction false} WriteKeeps(world: World, s: State, i: nat)
    requires Inv(world, s) && i < |s.runs| && s.runs[i].plan != []
    ensures Inv(world, Written(s, i))
  {
    hide GoodHost, GoodRun, GoodVerdict;
    var t := Written(s, i);
    WriteKeepsHost(world, s, i);
    WriteKeepsRun(world, s, i);
    forall j | 0 <= j < |t.runs| ensures GoodRun(world, t, t.runs[j]) {
      if j != i {
        MoreRun(world, s, t, s.runs[j]);
      }
    }
    forall j | 0 <= j < |t.verdicts| ensures GoodVerdict(world, t, t.verdicts[j]) {
      MoreVerdict(world, s, t, s.verdicts[j]);
    }
  }

  // ----- A plan -----

  lemma {:induction false} OnlyComments(n: nat, k: nat)
    requires k < |Comments(n)|
    ensures Comments(n)[k] == Comment
  {
    if k > 0 {
      OnlyComments(n - 1, k - 1);
    }
  }

  lemma {:induction false} CommentCount(n: nat)
    ensures |Comments(n)| == n
  {
    if n > 0 {
      CommentCount(n - 1);
    }
  }

  lemma {:induction false} OnlyOthers(n: nat, k: nat)
    requires k < |Others(n)|
    ensures Others(n)[k] == Other
  {
    if k > 0 {
      OnlyOthers(n - 1, k - 1);
    }
  }

  /** Posting the review stamps the head if the run completed it, stamps nothing else, and writes no overview. */
  lemma {:induction false} PostReviewWrites(existing: Option<Found>, completed: Option<Stamp>, r: Reception)
    ensures var writes := PostReview(existing, completed, r);
      && (forall k :: 0 <= k < |writes| ==> !writes[k].Overview?)
      && (forall k :: 0 <= k < |writes| && Stamps(writes[k]) ==> writes[k].stamp == completed)
      && (completed.Some? <==> exists k :: 0 <= k < |writes| && Stamps(writes[k]))
  {
    var writes := PostReview(existing, completed, r);
    var cs := Comments(r.comments);
    forall k | 0 <= k < |cs| ensures cs[k] == Comment {
      OnlyComments(r.comments, k);
    }
    if Updates(existing, completed) {
      assert writes[0] == Put(existing.value.index, completed);
    } else if r.refused && r.comments > 0 {
      assert writes[|writes| - 1].Post?;
    } else {
      assert writes[0].Post?;
    }
  }

  lemma {:induction false} PlanIsGood(world: World, s: State, run: Run, others: nat, r: Reception)
    requires run.plan == Plan(Stamp(run.head, world.fingerprint(run.head)), run.complete, run.overviewRequired, others, run.existing, r)
    ensures GoodPlan(world, run, run.plan) && StampFirst(world, s, run)
    ensures run.plan != [] && !run.plan[0].Overview?
  {
    var stamp := Stamp(run.head, world.fingerprint(run.head));
    var completed := if run.complete then Some(stamp) else None;
    PostReviewWrites(run.existing, completed, r);
    forall k | 0 <= k < |Others(others)| ensures Others(others)[k] == Other {
      OnlyOthers(others, k);
    }
    hide PostReview, Others;
    PlanOf(world, s, run, Others(others), PostReview(run.existing, completed, r));
  }

  lemma {:induction false} PlanOf(world: World, s: State, run: Run, before: seq<Write>, post: seq<Write>)
    requires forall k :: 0 <= k < |before| ==> before[k] == Other
    requires forall k :: 0 <= k < |post| ==> !post[k].Overview?
    requires forall k :: 0 <= k < |post| && Stamps(post[k]) ==>
      run.complete && post[k].stamp == Some(Stamp(run.head, world.fingerprint(run.head)))
    requires post != [] && (run.complete ==> exists k :: 0 <= k < |post| && Stamps(post[k]))
    requires run.plan == before + post + (if run.overviewRequired && run.complete then [Overview(run.head)] else [])
    ensures GoodPlan(world, run, run.plan) && StampFirst(world, s, run)
    ensures run.plan != [] && !run.plan[0].Overview?
  {
    var tail := if run.overviewRequired && run.complete then [Overview(run.head)] else [];
    forall k | 0 <= k < |run.plan|
      ensures run.plan[k] == if k < |before| then before[k] else if k < |before| + |post| then post[k - |before|] else tail[k - |before| - |post|]
    {
    }
    hide Covered;
    if run.complete {
      var k :| 0 <= k < |post| && Stamps(post[k]);
      assert Stamps(run.plan[|before| + k]);
    }
  }

  // ----- Every step -----

  /** A run is scoped to what is not covered yet, and there is nothing to review only where nothing is. */
  lemma {:induction false} ScopeIsSound(world: World, s: State, incremental: bool, overviewRequired: bool, a: Answers)
    requires GoodHost(world, s) && Comparable(world, s.host, overviewRequired, a)
    ensures match ScopeOf(world, s.host, incremental, overviewRequired, a)
      case Full => true
      case Since(last, increment) => Covered(world, s, last) && world.changes(s.host.head) <= increment + s.given
      case Nothing(last) => GoodVerdict(world, s, Verdict(s.host.head, last, overviewRequired))
  {
  }

  lemma {:induction false} BeginKeeps(world: World, s: State, step: Step)
    requires Inv(world, s) && Fair(world, s, step) && step.Begin?
    ensures Inv(world, Take(world, s, step))
  {
    ScopeIsSound(world, s, step.incremental, step.overviewRequired, step.answers);
    var t := Take(world, s, step);
    forall i | 0 <= i < |t.runs| ensures GoodRun(world, t, t.runs[i]) {
      if i < |s.runs| {
        MoreRun(world, s, t, s.runs[i]);
      }
    }
  }

  lemma {:induction false} ReviewedKeeps(world: World, s: State, step: Step)
    requires Inv(world, s) && step.Reviewed?
    ensures Inv(world, Take(world, s, step))
  {
    var t := Take(world, s, step);
    var i := step.run;
    if i < |s.runs| && s.runs[i].plan == [] {
      hide Plan;
      PlanIsGood(world, t, t.runs[i], step.others, step.reception);
      assert world.changes(s.runs[i].head) <= s.runs[i].diff + s.given;
      hide GoodHost, GoodVerdict, GoodPlan, StampFirst;
      assert GoodRun(world, t, t.runs[i]);
      forall j | 0 <= j < |t.runs| ensures GoodRun(world, t, t.runs[j]) {
        if j != i {
          MoreRun(world, s, t, s.runs[j]);
        }
      }
      SameHost(world, s, t);
    }
  }

  lemma {:induction false} SameHost(world: World, s: State, t: State)
    requires Inv(world, s) && t == s.(runs := t.runs)
    ensures GoodHost(world, t) && forall i :: 0 <= i < |t.verdicts| ==> GoodVerdict(world, t, t.verdicts[i])
  {
  }

  lemma {:induction false} StepKeeps(world: World, s: State, step: Step)
    requires Inv(world, s) && Fair(world, s, step)
    ensures Inv(world, Take(world, s, step))
  {
    var t := Take(world, s, step);
    match step
    case Push(_) => PushKeeps(world, s, step);
    case Begin(_, _, _) => BeginKeeps(world, s, step);
    case Reviewed(_, _, _, _, _) => ReviewedKeeps(world, s, step);
    case Next(i) =>
      if i < |s.runs| && s.runs[i].plan != [] {
        WriteKeeps(world, s, i);
      }
    case Stop(i) => StopKeeps(world, s, step);
  }

  lemma {:induction false} PushKeeps(world: World, s: State, step: Step)
    requires Inv(world, s) && step.Push?
    ensures Inv(world, Take(world, s, step))
  {
    var t := Take(world, s, step);
    forall j | 0 <= j < |t.runs| ensures GoodRun(world, t, t.runs[j]) {
      MoreRun(world, s, t, s.runs[j]);
    }
  }

  lemma {:induction false} StopKeeps(world: World, s: State, step: Step)
    requires Inv(world, s) && step.Stop?
    ensures Inv(world, Take(world, s, step))
  {
    var t := Take(world, s, step);
    forall j | 0 <= j < |t.runs| ensures GoodRun(world, t, t.runs[j]) {
      var k := if j < step.run then j else j + 1;
      if step.run < |s.runs| {
        assert t.runs[j] == s.runs[k];
        MoreRun(world, s, t, s.runs[k]);
      } else {
        MoreRun(world, s, t, s.runs[j]);
      }
    }
    SameHost(world, s, t);
  }

  lemma {:induction false} HistoryKeeps(world: World, s: State, steps: seq<Step>)
    requires Inv(world, s) && FairHistory(world, s, steps)
    ensures Inv(world, History(world, s, steps))
    decreases |steps|
  {
    hide Inv, Take;
    if steps != [] {
      StepKeeps(world, s, steps[0]);
      HistoryKeeps(world, Take(world, s, steps[0]), steps[1..]);
    }
  }

  /** Over every history, a run reports nothing to review only about a head whose every change was handed to
      engine.review by runs that completed, or whose whole diff fingerprints as such a head's does; and when
      an overview is required, that head's review had been posted to its end and its overview too. */
  lemma {:induction false} NothingToReviewIsTrue(world: World, head: Sha, steps: seq<Step>, i: nat)
    requires FairHistory(world, Opened(head), steps)
    requires i < |History(world, Opened(head), steps).verdicts|
    ensures var s := History(world, Opened(head), steps);
      var v := s.verdicts[i];
      && (world.changes(v.head) <= s.given
          || (world.changes(v.last) <= s.given && world.fingerprint(v.head) == world.fingerprint(v.last)))
      && (v.overviewRequired ==> v.last in s.posted)
  {
    HistoryKeeps(world, Opened(head), steps);
  }

  // ----- Within one run -----

  predicate SomeStamp(writes: seq<Write>) {
    exists k :: 0 <= k < |writes| && Stamps(writes[k])
  }

  /** A head is stamped complete while part of its review is still to be written exactly when the run
      replaces the summary of a review at the same commit, and stops after that first write: among the
      comments that follow it, or before the second summary that carries what the host refused as a comment. */
  lemma {:induction false} StampedBeforeTheRest(existing: Option<Found>, stamp: Stamp, r: Reception, n: nat)
    requires n <= |PostReview(existing, Some(stamp), r)|
    ensures var writes := PostReview(existing, Some(stamp), r);
      && (SomeStamp(writes[..n]) && n < |writes| <==> Updates(existing, Some(stamp)) && 1 <= n < |writes|)
      && |writes| == 1 + (if Updates(existing, Some(stamp)) then r.comments + (if r.rejected then 1 else 0)
                          else if r.refused then r.comments else 0)
  {
    var writes := PostReview(existing, Some(stamp), r);
    CommentCount(r.comments);
    hide PostReview, Updates;
    if Updates(existing, Some(stamp)) {
      UpdateWrites(existing, stamp, r);
      assert n >= 1 ==> writes[..n][0] == writes[0];
    } else {
      FreshWrites(existing, stamp, r);
      if SomeStamp(writes[..n]) {
        var k :| 0 <= k < n && Stamps(writes[..n][k]);
        assert Stamps(writes[k]) && k == |writes| - 1;
      }
    }
  }

  lemma {:induction false} UpdateWrites(existing: Option<Found>, stamp: Stamp, r: Reception)
    requires Updates(existing, Some(stamp))
    ensures var writes, put := PostReview(existing, Some(stamp), r), Put(existing.value.index, Some(stamp));
      && writes == [put] + Comments(r.comments) + (if r.rejected then [put] else [])
      && Stamps(writes[0])
  {
  }

  lemma {:induction false} FreshWrites(existing: Option<Found>, stamp: Stamp, r: Reception)
    requires !Updates(existing, Some(stamp))
    ensures var writes := PostReview(existing, Some(stamp), r);
      && (forall k :: 0 <= k < |writes| - 1 ==> writes[k] == Comment)
      && Stamps(writes[|writes| - 1]) && writes[|writes| - 1].Post?
      && |writes| == 1 + if r.refused then r.comments else 0
  {
    CommentCount(r.comments);
    forall k | 0 <= k < |Comments(r.comments)| ensures Comments(r.comments)[k] == Comment {
      OnlyComments(r.comments, k);
    }
  }

  /** So a head can be reported complete whose review was never posted to its end: a partial run posts a
      review, a complete one at the same commit replaces its summary and is stopped before its comment. */
  lemma {:induction false} CompleteButNotPosted(world: World, head: Sha)
    ensures var steps := StoppedEarly();
      && FairHistory(world, Opened(head), steps)
      && History(world, Opened(head), steps).verdicts == [Verdict(head, head, false)]
      && head !in History(world, Opened(head), steps).posted
  {
    var steps := StoppedEarly();
    PartialRunPosts(world, head);
    CompleteRunStops(world, head);
    FoldSeven(world, Opened(head), steps);
    NoCompares(world, Opened(head), steps);
  }

  /** After the partial run: its review is there, without a stamp. */
  function AfterPartial(world: World, head: Sha): State {
    State(Host(head, [Review(head, None)], None), [Run(head, world.changes(head), false, None, false, [])], {}, {}, [])
  }

  lemma {:induction false} PartialRunPosts(world: World, head: Sha)
    ensures var steps := StoppedEarly();
      Take(world, Take(world, Take(world, Opened(head), steps[0]), steps[1]), steps[2]) == AfterPartial(world, head)
  {
    var steps := StoppedEarly();
    var s1 := Take(world, Opened(head), steps[0]);
    assert s1.runs == [Run(head, world.changes(head), false, None, false, [])];
    assert Others(0) == [];
    var s2 := Take(world, s1, steps[1]);
    assert s2.runs[0].plan == [Post(None, None)];
    var s3 := Take(world, s2, steps[2]);
    assert s3.host.reviews == [Review(head, None)] && s3.runs == AfterPartial(world, head).runs;
  }

  lemma {:induction false} CompleteRunStops(world: World, head: Sha)
    ensures var steps := StoppedEarly();
      var end := Take(world, Take(world, Take(world, Take(world, AfterPartial(world, head), steps[3]), steps[4]), steps[5]), steps[6]);
      end.verdicts == [Verdict(head, head, false)] && end.posted == {}
  {
    var steps := StoppedEarly();
    var s3 := AfterPartial(world, head);
    var s4 := Take(world, s3, steps[3]);
    assert s4.runs[1] == Run(head, world.changes(head), false, Some(Found(0, head)), false, []);
    var s5 := Take(world, s4, steps[4]);
    var stamp := Stamp(head, world.fingerprint(head));
    assert Others(0) == [] && Comments(1) == [Comment] + Comments(0) == [Comment];
    assert s5.runs[1].plan == [Put(0, Some(stamp)), Comment];
    var s6 := Take(world, s5, steps[5]);
    assert s6.host.reviews == [Review(head, Some(stamp))] && s6.posted == {};
  }

  lemma {:induction false} NoCompares(world: World, s: State, steps: seq<Step>)
    requires forall i :: 0 <= i < |steps| && steps[i].Begin? ==> steps[i].answers.compared.None?
    ensures FairHistory(world, s, steps)
    decreases |steps|
  {
    hide Take;
    if steps != [] {
      NoCompares(world, Take(world, s, steps[0]), steps[1..]);
    }
  }

  function StoppedEarly(): seq<Step> {
    var plain := Answers(false, false, false, None);
    [Begin(true, false, plain), Reviewed(0, false, false, 0, Reception(0, false, false)), Next(0),
     Begin(true, false, plain), Reviewed(1, false, true, 0, Reception(1, false, false)), Next(1),
     Begin(true, false, plain)]
  }

  lemma {:induction false} FoldSeven(world: World, s: State, steps: seq<Step>)
    requires |steps| == 7
    ensures History(world, s, steps) ==
      Take(world, Take(world, Take(world, Take(world, Take(world, Take(world, Take(world, s,
        steps[0]), steps[1]), steps[2]), steps[3]), steps[4]), steps[5]), steps[6])
  {
    hide Take;
    var t1 := Take(world, s, steps[0]);
    var t2 := Take(world, t1, steps[1]);
    var t3 := Take(world, t2, steps[2]);
    var t4 := Take(world, t3, steps[3]);
    var t5 := Take(world, t4, steps[4]);
    var t6 := Take(world, t5, steps[5]);
    HistoryFrom(world, s, steps, 0);
    HistoryFrom(world, t1, steps, 1);
    HistoryFrom(world, t2, steps, 2);
    HistoryFrom(world, t3, steps, 3);
    HistoryFrom(world, t4, steps, 4);
    HistoryFrom(world, t5, steps, 5);
    HistoryFrom(world, t6, steps, 6);
    assert steps[0..] == steps && steps[7..] == [];
  }

  lemma {:induction false} HistoryFrom(world: World, s: State, steps: seq<Step>, i: nat)
    requires i < |steps|
    ensures History(world, s, steps[i..]) == History(world, Take(world, s, steps[i]), steps[i + 1..])
  {
    hide Take;
    assert steps[i..][0] == steps[i] && steps[i..][1..] == steps[i + 1..];
  }

  // ----- A completed run is recognised -----

  function ApplyAll(host: Host, writes: seq<Write>): Host
    decreases |writes|
  {
    if writes == [] then host else ApplyAll(Effect(host, writes[0]), writes[1..])
  }

  lemma {:induction false} ApplyConcat(host: Host, a: seq<Write>, b: seq<Write>)
    ensures ApplyAll(host, a + b) == ApplyAll(ApplyAll(host, a), b)
    decreases |a|
  {
    hide Effect;
    if a == [] {
      assert a + b == b;
    } else {
      assert (a + b)[1..] == a[1..] + b;
      ApplyConcat(Effect(host, a[0]), a[1..], b);
    }
  }

  lemma {:induction false} QuietWrites(host: Host, writes: seq<Write>)
    requires forall k :: 0 <= k < |writes| ==> writes[k] == Comment || writes[k] == Other
    ensures ApplyAll(host, writes) == host
    decreases |writes|
  {
    if writes != [] {
      QuietWrites(host, writes[1..]);
    }
  }

  /** The review of a complete run leaves its stamp on the latest summary. */
  lemma {:induction false} ReviewStamps(host: Host, stamp: Stamp, r: Reception)
    ensures var host' := ApplyAll(host, PostReview(Latest(host), Some(stamp), r));
      && LastReviewed(host', false) == Some(stamp) && host'.head == host.head && host'.overview == host.overview
  {
    var cs := Comments(r.comments);
    forall k | 0 <= k < |cs| ensures cs[k] == Comment {
      OnlyComments(r.comments, k);
    }
    var commit := Some(stamp.sha);
    if Updates(Latest(host), Some(stamp)) {
      var put := Put(|host.reviews| - 1, Some(stamp));
      var host1 := Effect(host, put);
      QuietWrites(host1, cs);
      assert ApplyAll(host, [put]) == host1 && [put][1..] == [];
      ApplyConcat(host, [put], cs);
      if r.rejected {
        ApplyConcat(host, [put] + cs, [put]);
        assert ApplyAll(host1, [put]) == Effect(host1, put);
      } else {
        assert [put] + cs + [] == [put] + cs;
      }
    } else {
      var post := Post(commit, Some(stamp));
      assert [post][1..] == [] && ApplyAll(host, [post]) == Effect(host, post);
      QuietWrites(host, cs);
      ApplyConcat(host, cs, [post]);
    }
  }

  /** What a complete run leaves when all its writes are made. */
  lemma {:induction false} CompletedLeaves(host: Host, stamp: Stamp, overviewRequired: bool, others: nat, r: Reception)
    ensures var host' := ApplyAll(host, Plan(stamp, true, overviewRequired, others, Latest(host), r));
      && LastReviewed(host', false) == Some(stamp) && host'.head == host.head
      && (overviewRequired ==> host'.overview == Some(stamp.sha))
  {
    var before, post := Others(others), PostReview(Latest(host), Some(stamp), r);
    forall k | 0 <= k < |before| ensures before[k] == Other {
      OnlyOthers(others, k);
    }
    QuietWrites(host, before);
    ReviewStamps(host, stamp, r);
    hide PostReview, Others;
    ApplyConcat(host, before, post);
    if overviewRequired {
      ApplyConcat(host, before + post, [Overview(stamp.sha)]);
      assert [Overview(stamp.sha)][1..] == [];
    } else {
      assert before + post + [] == before + post;
    }
  }

  /** After a complete run has made all its writes, a run at the same head that can read them has nothing
      to review, unless it requires an overview that was not. */
  lemma {:induction false} CompletedIsRecognised(world: World, host: Host, overviewRequired: bool, others: nat, r: Reception,
                                                 again: bool, answers: Answers)
    requires !answers.completedFails && (again ==> overviewRequired)
    ensures var stamp := Stamp(host.head, world.fingerprint(host.head));
      ScopeOf(world, ApplyAll(host, Plan(stamp, true, overviewRequired, others, Latest(host), r)), true, again, answers)
        == Nothing(host.head)
  {
    hide Plan, ApplyAll;
    CompletedLeaves(host, Stamp(host.head, world.fingerprint(host.head)), overviewRequired, others, r);
  }

  // ----- What the next run is given -----

  function Nexts(run: nat, k: nat): seq<Step> {
    if k == 0 then [] else [Next(run)] + Nexts(run, k - 1)
  }

  /** A run makes all its writes and nothing else happens. */
  lemma {:induction false} WritesOut(world: World, s: State, i: nat)
    requires i < |s.runs|
    ensures var t := History(world, s, Nexts(i, |s.runs[i].plan|));
      && t.host == ApplyAll(s.host, s.runs[i].plan) && t.verdicts == s.verdicts
      && t.runs == s.runs[i := s.runs[i].(plan := [])]
    decreases |s.runs[i].plan|
  {
    hide Effect;
    if s.runs[i].plan == [] {
      assert s.runs[i := s.runs[i].(plan := [])] == s.runs;
    } else {
      var t := Take(world, s, Next(i));
      var steps := Nexts(i, |s.runs[i].plan|);
      assert steps[0] == Next(i) && steps[1..] == Nexts(i, |t.runs[i].plan|);
      WritesOut(world, t, i);
    }
  }

  lemma {:induction false} HistoryConcat(world: World, s: State, a: seq<Step>, b: seq<Step>)
    ensures History(world, s, a + b) == History(world, History(world, s, a), b)
    decreases |a|
  {
    hide Take;
    if a == [] {
      assert a + b == b;
    } else {
      assert (a + b)[1..] == a[1..] + b;
      HistoryConcat(world, Take(world, s, a[0]), a[1..], b);
    }
  }

  /** All the writes of run i, a push of a head, and a run that begins there. */
  function ThenPushed(s: State, i: nat, head: Sha, overviewRequired: bool, answers: Answers): seq<Step>
    requires i < |s.runs|
  {
    Nexts(i, |s.runs[i].plan|) + [Push(head), Begin(true, overviewRequired, answers)]
  }

  lemma {:induction false} ThenPushedIs(world: World, s: State, i: nat, head: Sha, overviewRequired: bool, answers: Answers)
    requires i < |s.runs|
    ensures var host := ApplyAll(s.host, s.runs[i].plan).(head := head);
      exists t: State :: t.host == host && t.verdicts == s.verdicts && t.runs == s.runs[i := s.runs[i].(plan := [])]
        && History(world, s, ThenPushed(s, i, head, overviewRequired, answers)) == Take(world, t, Begin(true, overviewRequired, answers))
  {
    WritesOut(world, s, i);
    var nexts, last := Nexts(i, |s.runs[i].plan|), [Push(head), Begin(true, overviewRequired, answers)];
    HistoryConcat(world, s, nexts, last);
    var t0 := History(world, s, nexts);
    var t := Take(world, t0, Push(head));
    assert t.host == ApplyAll(s.host, s.runs[i].plan).(head := head) && t.runs == t0.runs;
    assert last[0] == Push(head) && last[1..] == [Begin(true, overviewRequired, answers)] && last[1..][1..] == [];
    hide Take;
    assert History(world, t0, last) == History(world, t, last[1..]);
    assert History(world, t, last[1..]) == History(world, Take(world, t, last[1..][0]), []);
  }

  /** The plan of a complete run that found the latest review. */
  predicate Completing(world: World, s: State, i: nat, others: nat, r: Reception) {
    && i < |s.runs|
    && var run := s.runs[i];
       run.plan == Plan(Stamp(run.head, world.fingerprint(run.head)), true, run.overviewRequired, others, Latest(s.host), r)
  }

  lemma {:induction false} ScopeAfter(world: World, s: State, i: nat, others: nat, r: Reception, head: Sha, overviewRequired: bool, answers: Answers)
    requires Completing(world, s, i, others, r) && (overviewRequired ==> s.runs[i].overviewRequired) && !answers.completedFails
    ensures var host, a := ApplyAll(s.host, s.runs[i].plan).(head := head), s.runs[i].head;
      ScopeOf(world, host, true, overviewRequired, answers) ==
        if head == a then Nothing(a)
        else if !answers.reviewedFails && !answers.fingerprintFails && world.fingerprint(head) == world.fingerprint(a) then Nothing(a)
        else if answers.compared.Some? && !answers.compared.value.blank then Since(a, answers.compared.value.changes)
        else Full
  {
    hide Plan, ApplyAll;
    var run := s.runs[i];
    CompletedLeaves(s.host, Stamp(run.head, world.fingerprint(run.head)), run.overviewRequired, others, r);
  }

  /** After a complete run at one head has made all its writes and another head is pushed, an incremental run that
      can read the host is given exactly the increment the compare answers with; the whole diff only where the
      compare has no usable answer; and nothing, with a verdict against the completed head, where the whole diff
      still fingerprints as it did or the head is the same. */
  lemma {:induction false} IncrementIsReviewed(world: World, s: State, i: nat, others: nat, r: Reception, head: Sha, overviewRequired: bool,
                                               answers: Answers)
    requires Completing(world, s, i, others, r) && (overviewRequired ==> s.runs[i].overviewRequired)
    requires !answers.completedFails && !answers.reviewedFails && !answers.fingerprintFails
    ensures var t, a := History(world, s, ThenPushed(s, i, head, overviewRequired, answers)), s.runs[i].head;
      var runs := s.runs[i := s.runs[i].(plan := [])];
      if head == a || world.fingerprint(head) == world.fingerprint(a) then
        t.runs == runs && t.verdicts == s.verdicts + [Verdict(head, a, overviewRequired)]
      else
        && t.verdicts == s.verdicts && |t.runs| == |runs| + 1 && t.runs[..|runs|] == runs
        && t.runs[|runs|].head == head && t.runs[|runs|].plan == []
        && t.runs[|runs|].diff == if answers.compared.Some? && !answers.compared.value.blank then answers.compared.value.changes else world.changes(head)
  {
    ThenPushedIs(world, s, i, head, overviewRequired, answers);
    ScopeAfter(world, s, i, others, r, head, overviewRequired, answers);
    hide ScopeOf, ThenPushed, History, Completing, ApplyAll;
  }

  /** A run is given the whole diff exactly where it is not incremental, no completed head can be read, or a head
      has been pushed since that does not fingerprint as the completed one and the compare has no usable answer. */
  lemma {:induction false} FullExactly(world: World, host: Host, incremental: bool, overviewRequired: bool, a: Answers)
    ensures var last := LastCompleted(host, overviewRequired, a.completedFails);
      ScopeOf(world, host, incremental, overviewRequired, a).Full?
      <==> !incremental || last.None?
           || (last.value != host.head && !UnchangedSince(world, host, last.value, a) && (a.compared.None? || a.compared.value.blank))
  {
  }

  /** What a complete run leaves of the earlier summaries: one at the same commit takes the stamp, and a new commit gets
      a review of its own, the earlier ones staying as they were. */
  lemma {:induction false} EarlierReviewsStay(host: Host, stamp: Stamp, r: Reception)
    ensures var reviews := ApplyAll(host, PostReview(Latest(host), Some(stamp), r)).reviews;
      if host.reviews != [] && host.reviews[|host.reviews| - 1].commit == stamp.sha
      then reviews == host.reviews[|host.reviews| - 1 := Review(stamp.sha, Some(stamp))]
      else reviews == host.reviews + [Review(stamp.sha, Some(stamp))]
  {
    var cs := Comments(r.comments);
    forall k | 0 <= k < |cs| ensures cs[k] == Comment {
      OnlyComments(r.comments, k);
    }
    if Updates(Latest(host), Some(stamp)) {
      var put := Put(|host.reviews| - 1, Some(stamp));
      var host1 := Effect(host, put);
      QuietWrites(host1, cs);
      assert ApplyAll(host, [put]) == host1 && [put][1..] == [];
      ApplyConcat(host, [put], cs);
      if r.rejected {
        ApplyConcat(host, [put] + cs, [put]);
        assert ApplyAll(host1, [put]) == Effect(host1, put);
      } else {
        assert [put] + cs + [] == [put] + cs;
      }
    } else {
      var post := Post(Some(stamp.sha), Some(stamp));
      assert [post][1..] == [] && ApplyAll(host, [post]) == Effect(host, post);
      QuietWrites(host, cs);
      ApplyConcat(host, cs, [post]);
    }
  }
}
