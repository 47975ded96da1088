/** Intake's cardinality guard and the scheduler's lane filter over one task board: how many bundles
    a lane can hold, and how often an issue can be held, over every run of board steps. */
module Cardinality {
  import opened Ids
  import opened LaneGuard
  import opened ClusterState
  import opened Packing
  import Sittings

  predicate Holding(s: Status) {
    s.Pending? || s.Ready? || s.Running? || s.Assigned? || s.CancelRequested?
  }

  /** A bundle keeps its issues from being bundled again while it is open, once it has delivered
      them, and when it was cancelled because they are carried elsewhere. */
  predicate Keeps(t: Task) {
    Holding(t.status) || t.status.Completed? || (t.status.Cancelled? && t.kept)
  }

  /** What is counted: a lane's bundles, urgent (band 0) or backlog, or the keepers of one issue. */
  datatype Query = OnLane(lane: LaneKey, urgent: bool) | OnIssue(issue: string)

  predicate Match(t: Task, q: Query) {
    match q
    case OnLane(lane, urgent) => t.lane == lane != NoLane && t.issues != [] && Holding(t.status) && (t.priority == 0) == urgent
    case OnIssue(x) => x in t.issues && Keeps(t)
  }

  function Count(b: seq<Task>, q: Query): nat {
    if b == [] then 0 else Count(b[..|b| - 1], q) + if Match(b[|b| - 1], q) then 1 else 0
  }

  function Cap(q: Query): nat {
    if q.OnLane? && q.urgent then 2 else 1
  }

  ghost predicate WithinCaps(b: seq<Task>) {
    forall q :: Count(b, q) <= Cap(q)
  }

  /** At most one backlog and two urgent bundles hold a lane, at most one task is dispatched on it,
      and an issue is kept at most once. */
  ghost predicate Inv(b: seq<Task>) {
    DistinctIds(b) && LaneSerial(b) && WithinCaps(b)
  }

  // ----------------------------------------------------------------- counting

  lemma {:induction false} CountsOne(b: seq<Task>, q: Query)
    ensures Count(b, q) >= 1 <==> exists i :: 0 <= i < |b| && Match(b[i], q)
  {
    hide Match;
    if b != [] {
      var n := |b| - 1;
      CountsOne(b[..n], q);
      if i :| 0 <= i < n && Match(b[..n][i], q) {
        assert Match(b[i], q);
      }
      if i :| 0 <= i < n && Match(b[i], q) {
        assert Match(b[..n][i], q);
      }
    }
  }

  lemma {:induction false} CountsTwo(b: seq<Task>, q: Query)
    ensures Count(b, q) >= 2 <==> exists i, j :: 0 <= i < j < |b| && Match(b[i], q) && Match(b[j], q)
  {
    hide Match;
    if b != [] {
      var n := |b| - 1;
      var front := b[..n];
      CountsTwo(front, q);
      CountsOne(front, q);
      if i, j :| 0 <= i < j < n && Match(front[i], q) && Match(front[j], q) {
        assert Match(b[i], q) && Match(b[j], q);
      }
      if i, j :| 0 <= i < j < |b| && Match(b[i], q) && Match(b[j], q) {
        assert Match(front[i], q) && (j < n ==> Match(front[j], q));
      }
    }
  }

  /** Three rows in a row's order. */
  ghost predicate ThreeMatch(b: seq<Task>, q: Query, i: int, j: int, k: int) {
    0 <= i < j < k < |b| && Match(b[i], q) && Match(b[j], q) && Match(b[k], q)
  }

  lemma {:induction false} CountsThree(b: seq<Task>, q: Query)
    ensures Count(b, q) >= 3 <==> exists i, j, k :: ThreeMatch(b, q, i, j, k)
  {
    hide Match;
    if b != [] {
      var n := |b| - 1;
      var front := b[..n];
      CountsThree(front, q);
      CountsTwo(front, q);
      if i, j, k :| ThreeMatch(front, q, i, j, k) {
        assert ThreeMatch(b, q, i, j, k);
      }
      if Match(b[n], q) && Count(front, q) >= 2 {
        var i, j :| 0 <= i < j < n && Match(front[i], q) && Match(front[j], q);
        assert ThreeMatch(b, q, i, j, n);
      }
      if i, j, k :| ThreeMatch(b, q, i, j, k) {
        assert Match(front[i], q) && Match(front[j], q);
        assert k < n ==> ThreeMatch(front, q, i, j, k);
      }
    }
  }

  /** An open bundle of a lane: pending, ready, assigned, running, or being cancelled. */
  ghost predicate OpenBundle(t: Task, lane: LaneKey) {
    && t.lane == lane && t.issues != []
    && (t.status.Pending? || t.status.Ready? || t.status.Assigned? || t.status.Running? || t.status.CancelRequested?)
  }

  /** The caps, row by row: a lane has no two open backlog bundles and no three urgent ones, and no issue
      is in two bundles that are open, delivered, or cancelled with their issues kept. */
  lemma {:induction false} CapsMean(b: seq<Task>)
    requires WithinCaps(b)
    ensures forall i, j :: 0 <= i < j < |b| && b[i].lane == b[j].lane != NoLane && b[i].priority != 0 && b[j].priority != 0 ==>
              !OpenBundle(b[i], b[i].lane) || !OpenBundle(b[j], b[i].lane)
    ensures forall i, j, k :: 0 <= i < j < k < |b| && b[i].lane == b[j].lane == b[k].lane != NoLane
                              && b[i].priority == b[j].priority == b[k].priority == 0 ==>
              !OpenBundle(b[i], b[i].lane) || !OpenBundle(b[j], b[i].lane) || !OpenBundle(b[k], b[i].lane)
    ensures forall i, j, x :: 0 <= i < j < |b| && x in b[i].issues && x in b[j].issues
                              && (OpenBundle(b[i], b[i].lane) || b[i].status.Completed? || (b[i].status.Cancelled? && b[i].kept)) ==>
              !OpenBundle(b[j], b[j].lane) && !b[j].status.Completed? && !(b[j].status.Cancelled? && b[j].kept)
  {
    forall i, j | 0 <= i < j < |b| && b[i].lane == b[j].lane != NoLane && b[i].priority != 0 && b[j].priority != 0
      ensures !OpenBundle(b[i], b[i].lane) || !OpenBundle(b[j], b[i].lane)
    {
      var q := OnLane(b[i].lane, false);
      assert Count(b, q) <= Cap(q);
      CountsTwo(b, q);
    }
    forall i, j, k | 0 <= i < j < k < |b| && b[i].lane == b[j].lane == b[k].lane != NoLane
                     && b[i].priority == b[j].priority == b[k].priority == 0
      ensures !OpenBundle(b[i], b[i].lane) || !OpenBundle(b[j], b[i].lane) || !OpenBundle(b[k], b[i].lane)
    {
      var q := OnLane(b[i].lane, true);
      assert Count(b, q) <= Cap(q);
      CountsThree(b, q);
      assert !ThreeMatch(b, q, i, j, k);
    }
    forall i, j, x | 0 <= i < j < |b| && x in b[i].issues && x in b[j].issues && Keeps(b[i]) ensures !Keeps(b[j]) {
      var q := OnIssue(x);
      assert Count(b, q) <= Cap(q);
      CountsTwo(b, q);
    }
  }

  lemma {:induction false} CountUpdate(b: seq<Task>, k: nat, t: Task, q: Query)
    requires k < |b|
    ensures Count(b[k := t], q) + (if Match(b[k], q) then 1 else 0) == Count(b, q) + if Match(t, q) then 1 else 0
  {
    hide Match;
    var n := |b| - 1;
    if k < n {
      CountUpdate(b[..n], k, t, q);
      assert b[k := t][..n] == b[..n][k := t];
    } else {
      assert b[k := t][..n] == b[..n];
    }
  }

  lemma {:induction false} CountSame(a: seq<Task>, b: seq<Task>, q: Query)
    requires |a| == |b| && forall i :: 0 <= i < |a| ==> Match(a[i], q) == Match(b[i], q)
    ensures Count(a, q) == Count(b, q)
  {
    if a != [] {
      CountSame(a[..|a| - 1], b[..|b| - 1], q);
    }
  }

  lemma {:induction false} CountSnoc(b: seq<Task>, t: Task, q: Query)
    ensures Count(b + [t], q) == Count(b, q) + if Match(t, q) then 1 else 0
  {
    assert (b + [t])[..|b|] == b;
  }

  // ------------------------------------------------------------------ the view

  datatype Entry = Entry(id: TaskId, band: int)

  /** The lane's bundles as intake sees them: dispatched ones, or those still queued. */
  function Entries(b: seq<Task>, lane: LaneKey, active: bool): seq<Entry> {
    if b == [] then []
    else
      var t := b[|b| - 1];
      Entries(b[..|b| - 1], lane, active)
      + if Match(t, OnLane(lane, t.priority == 0)) && IsActive(t) == active then [Entry(t.id, t.priority)] else []
  }

  datatype LaneView = LaneView(queued: map<LaneKey, seq<Entry>>, active: map<LaneKey, seq<Entry>>)

  function At(m: map<LaneKey, seq<Entry>>, lane: LaneKey): seq<Entry> {
    if lane in m then m[lane] else []
  }

  ghost predicate Shows(view: LaneView, b: seq<Task>, lane: LaneKey) {
    At(view.queued, lane) == Entries(b, lane, false) && At(view.active, lane) == Entries(b, lane, true)
  }

  /** Somebody keeps the issue from being bundled again. */
  predicate Held(b: seq<Task>, x: string) {
    Count(b, OnIssue(x)) > 0
  }

  predicate LegacyRow(t: Task, n: nat) {
    t.issues == [] && Holding(t.status) && t.legacy == Some(n)
  }

  /** An open per-issue task is working on this issue number, in whatever project. */
  predicate LegacyOpen(b: seq<Task>, n: nat) {
    exists i :: 0 <= i < |b| && LegacyRow(b[i], n)
  }

  ghost predicate SeenSoFar(b: seq<Task>, view: LaneView, held: set<string>, legacy: set<nat>) {
    && (forall lane :: Shows(view, b, lane))
    && (forall x :: x in held <==> Held(b, x))
    && (forall n :: n in legacy <==> LegacyOpen(b, n))
  }

  /** What one row adds to the view. */
  function ViewWith(view: LaneView, t: Task): LaneView {
    if t.issues == [] || !Holding(t.status) || t.lane == NoLane then view
    else if IsActive(t) then view.(active := view.active[t.lane := At(view.active, t.lane) + [Entry(t.id, t.priority)]])
    else view.(queued := view.queued[t.lane := At(view.queued, t.lane) + [Entry(t.id, t.priority)]])
  }

  lemma {:induction false} ShowsMore(view: LaneView, b: seq<Task>, t: Task, lane: LaneKey)
    requires Shows(view, b, lane)
    ensures Shows(ViewWith(view, t), b + [t], lane)
  {
    hide IsActive, Holding;
    assert (b + [t])[..|b|] == b;
  }

  lemma {:induction false} LegacyMore(b: seq<Task>, t: Task, n: nat)
    ensures LegacyOpen(b + [t], n) <==> LegacyOpen(b, n) || LegacyRow(t, n)
  {
    if LegacyOpen(b, n) {
      var i :| 0 <= i < |b| && LegacyRow(b[i], n);
      assert LegacyRow((b + [t])[i], n);
    }
    if LegacyRow(t, n) {
      assert LegacyRow((b + [t])[|b|], n);
    }
  }

  /** One pass over the board: the lane view, the issues spoken for, the issue numbers of open
      per-issue tasks. */
  method GroupingView(b: seq<Task>) returns (view: LaneView, held: set<string>, legacy: set<nat>)
    ensures SeenSoFar(b, view, held, legacy)
  {
    view, held, legacy := LaneView(map[], map[]), {}, {};
    for n := 0 to |b|
      invariant SeenSoFar(b[..n], view, held, legacy)
    {
      var t := b[n];
      assert b[..n + 1] == b[..n] + [t];
      ghost var held0, legacy0, view0 := held, legacy, view;
      if t.issues == [] {
        if Holding(t.status) && t.legacy.Some? {
          legacy := legacy + {t.legacy.value};
        }
      } else if t.status.Completed? || (t.status.Cancelled? && t.kept) {
        held := held + set x | x in t.issues;
      } else if Holding(t.status) {
        held := held + set x | x in t.issues;
        if t.lane != NoLane {
          var entry := Entry(t.id, t.priority);
          if IsActive(t) {
            view := view.(active := view.active[t.lane := At(view.active, t.lane) + [entry]]);
          } else {
            view := view.(queued := view.queued[t.lane := At(view.queued, t.lane) + [entry]]);
          }
        }
      }
      SeenMore(b[..n], t, view0, held0, legacy0, view, held, legacy);
    }
    assert b[..|b|] == b;
  }

  lemma {:induction false} SeenMore(b: seq<Task>, t: Task, view: LaneView, held: set<string>, legacy: set<nat>,
                                    view': LaneView, held': set<string>, legacy': set<nat>)
    requires SeenSoFar(b, view, held, legacy) && view' == ViewWith(view, t)
    requires held' == if Keeps(t) then held + set x | x in t.issues else held
    requires legacy' == if t.issues == [] && Holding(t.status) && t.legacy.Some? then legacy + {t.legacy.value} else legacy
    ensures SeenSoFar(b + [t], view', held', legacy')
  {
    var b' := b + [t];
    forall lane ensures Shows(view', b', lane) {
      ShowsMore(view, b, t, lane);
    }
    forall x ensures x in held' <==> Held(b', x) {
      CountSnoc(b, t, OnIssue(x));
    }
    forall n ensures n in legacy' <==> LegacyOpen(b', n) {
      LegacyMore(b, t, n);
    }
  }

  ghost predicate AnyUrgent(es: seq<Entry>) {
    exists i :: 0 <= i < |es| && es[i].band == 0
  }

  /** The view counts the lane's bundles; with none urgent queued, every urgent one is dispatched. */
  lemma {:induction false} ViewCounts(b: seq<Task>, lane: LaneKey)
    ensures |Entries(b, lane, false)| + |Entries(b, lane, true)| == Count(b, OnLane(lane, true)) + Count(b, OnLane(lane, false))
    ensures !AnyUrgent(Entries(b, lane, false)) ==> Count(b, OnLane(lane, true)) <= |Entries(b, lane, true)|
  {
    if b != [] {
      var n := |b| - 1;
      var front, all := Entries(b[..n], lane, false), Entries(b, lane, false);
      ViewCounts(b[..n], lane);
      if AnyUrgent(front) {
        var i :| 0 <= i < |front| && front[i].band == 0;
        assert all[i].band == 0;
      } else if |all| > |front| {
        assert all[|front|].band == b[n].priority;
      }
    }
  }

  ghost predicate ActiveIn(b: seq<Task>, lane: LaneKey, i: int)
    requires 0 <= i < |b|
  {
    b[i].lane == lane && IsActive(b[i])
  }

  lemma {:induction false} NoActiveEntries(b: seq<Task>, lane: LaneKey)
    requires forall i :: 0 <= i < |b| ==> !ActiveIn(b, lane, i)
    ensures Entries(b, lane, true) == []
  {
    if b != [] {
      var n := |b| - 1;
      forall i | 0 <= i < n ensures !ActiveIn(b[..n], lane, i) {
        assert !ActiveIn(b, lane, i);
      }
      NoActiveEntries(b[..n], lane);
      assert !ActiveIn(b, lane, n);
    }
  }

  lemma {:induction false} OneActiveEntry(b: seq<Task>, lane: LaneKey)
    requires LaneSerial(b)
    ensures |Entries(b, lane, true)| <= 1
  {
    if b != [] {
      var n := |b| - 1;
      OneActiveEntry(b[..n], lane);
      if lane != NoLane && ActiveIn(b, lane, n) {
        NoActiveEntries(b[..n], lane);
      }
    }
  }

  // ----------------------------------------------------------------- the guard

  datatype Policy = Policy(packing: Config, window: nat)

  function OldestAge(xs: seq<Issue>, now: int): Option<nat> {
    if xs == [] then None
    else
      var rest := OldestAge(xs[1..], now);
      match xs[0].created
      case None => rest
      case Some(c) =>
        var age := if now > c then now - c else 0;
        if rest.Some? && rest.value > age then rest else Some(age)
  }

  /** Hold a batch back while its lane is still accumulating. */
  predicate ShouldAccumulate(size: nat, band: nat, age: Option<nat>, policy: Policy) {
    policy.window > 0 && band != 0 && size < policy.packing.maxBundleSize && age.Some? && age.value < policy.window
  }

  datatype Plan = Plan(lane: LaneKey, band: nat, issues: seq<string>)

  function IssueIds(xs: seq<Issue>): seq<string> {
    seq(|xs|, i requires 0 <= i < |xs| => xs[i].id)
  }

  /** The bundle to create for a lane, if any. */
  function PlanFor(lane: LaneKey, xs: seq<Issue>, policy: Policy, queued: seq<Entry>, active: seq<Entry>, now: int)
    : Option<Plan>
  {
    if xs == [] then None
    else if |queued| + |active| > 0 && (TopBand(xs) > 0 || exists i :: 0 <= i < |queued| && queued[i].band == 0) then None
    else if ShouldAccumulate(|xs|, TopBand(xs), OldestAge(xs, now), policy) then None
    else
      var batch := Batch(xs, policy.packing);
      if batch == [] then None else Some(Plan(lane, TopBand(xs), IssueIds(batch)))
  }

  method BundlePlanForRepo(lane: LaneKey, xs: seq<Issue>, policy: Policy, view: LaneView, now: int)
    returns (plan: Option<Plan>)
    requires ValidConfig(policy.packing)
    ensures plan == PlanFor(lane, xs, policy, At(view.queued, lane), At(view.active, lane), now)
  {
    if xs == [] {
      return None;
    }
    var band := FindTopBand(xs);
    var queued, active := At(view.queued, lane), At(view.active, lane);
    if |queued| + |active| > 0 {
      if band > 0 || exists i :: 0 <= i < |queued| && queued[i].band == 0 {
        return None;
      }
    }
    if ShouldAccumulate(|xs|, band, OldestAge(xs, now), policy) {
      return None;
    }
    var batch, reason := PackRepoCandidates(xs, policy.packing);
    if batch == [] {
      return None;
    }
    return Some(Plan(lane, band, IssueIds(batch)));
  }

  function PlanOn(b: seq<Task>, lane: LaneKey, xs: seq<Issue>, policy: Policy, now: int): Option<Plan> {
    PlanFor(lane, xs, policy, Entries(b, lane, false), Entries(b, lane, true), now)
  }

  /** The plan is for this lane and band and lists the ids of the batch, in its order. */
  ghost predicate Carries(p: Plan, lane: LaneKey, band: nat, batch: seq<Issue>) {
    p.lane == lane && p.band == band && |p.issues| == |batch| && forall i :: 0 <= i < |batch| ==> p.issues[i] == batch[i].id
  }

  /** A plan is made only where the lane has room for its band. */
  lemma {:induction false} PlanHasRoom(b: seq<Task>, lane: LaneKey, xs: seq<Issue>, policy: Policy, now: int)
    requires LaneSerial(b) && PlanOn(b, lane, xs, policy, now).Some?
    ensures var q := OnLane(lane, PlanOn(b, lane, xs, policy, now).value.band == 0); Count(b, q) < Cap(q)
  {
    ViewCounts(b, lane);
    OneActiveEntry(b, lane);
  }

  /** An urgent batch is never stranded: it is planned unless an urgent bundle is queued already. */
  lemma {:induction false} UrgentNeverStranded(b: seq<Task>, lane: LaneKey, xs: seq<Issue>, policy: Policy, now: int)
    requires Sittings.Serves(policy.packing) && xs != [] && TopBand(xs) == 0
    ensures PlanOn(b, lane, xs, policy, now).Some? <==> !AnyUrgent(Entries(b, lane, false))
    ensures PlanOn(b, lane, xs, policy, now).Some? ==>
            Carries(PlanOn(b, lane, xs, policy, now).value, lane, 0, Batch(xs, policy.packing))
  {
    Sittings.BatchFacts(xs, policy.packing);
    hide Batch, Entries, Members, AreasOf, TopBand;
  }

  ghost predicate Dated(xs: seq<Issue>, i: int) {
    0 <= i < |xs| && xs[i].created.Some?
  }

  lemma {:induction false} OldestAgeIs(xs: seq<Issue>, now: int)
    ensures OldestAge(xs, now).Some? <==> exists i :: Dated(xs, i)
    ensures OldestAge(xs, now).Some? ==>
              && (forall i :: Dated(xs, i) ==> now - xs[i].created.value <= OldestAge(xs, now).value)
              && (OldestAge(xs, now).value > 0 ==> exists i :: Dated(xs, i) && now - xs[i].created.value == OldestAge(xs, now).value)
  {
    if xs != [] {
      var rest := xs[1..];
      OldestAgeIs(rest, now);
      forall i | Dated(xs, i) ensures i == 0 || Dated(rest, i - 1) {
      }
      forall i | Dated(rest, i) ensures Dated(xs, i + 1) {
      }
      if xs[0].created.Some? {
        assert Dated(xs, 0);
      }
    }
  }

  /** Every candidate that has a date is younger than the window, and there is one. */
  ghost predicate AllYoung(xs: seq<Issue>, window: nat, now: int) {
    (exists i :: Dated(xs, i)) && forall i :: Dated(xs, i) ==> now - xs[i].created.value < window
  }

  /** When backlog is held and when it is released: a bundle is planned unless the lane holds one, or
      a window is set, the batch is not full, and all dated candidates are younger than the window.
      The bundle is of the most urgent band and holds exactly the packer's batch. */
  lemma {:induction false} BacklogIsHeldExactly(b: seq<Task>, lane: LaneKey, xs: seq<Issue>, policy: Policy, now: int)
    requires Sittings.Serves(policy.packing) && xs != [] && TopBand(xs) > 0
    ensures PlanOn(b, lane, xs, policy, now).None? <==>
            || Count(b, OnLane(lane, true)) + Count(b, OnLane(lane, false)) > 0
            || (policy.window > 0 && |xs| < policy.packing.maxBundleSize && AllYoung(xs, policy.window, now))
    ensures PlanOn(b, lane, xs, policy, now).Some? ==>
            Carries(PlanOn(b, lane, xs, policy, now).value, lane, TopBand(xs), Batch(xs, policy.packing))
  {
    Sittings.BatchFacts(xs, policy.packing);
    ViewCounts(b, lane);
    OldestAgeIs(xs, now);
    hide Batch, Entries, Members, AreasOf, TopBand, OldestAge;
  }

  // ------------------------------------------------------------------ a cycle

  /** One repository's candidates in an intake cycle, and the id a new bundle would get. */
  datatype Request = Request(lane: LaneKey, candidates: seq<Issue>, id: TaskId)

  /** Candidates nobody holds and no open per-issue task is working on. */
  function Waiting(b: seq<Task>, xs: seq<Issue>): seq<Issue> {
    if xs == [] then [] else (if Held(b, xs[0].id) || LegacyOpen(b, xs[0].iid) then [] else [xs[0]]) + Waiting(b, xs[1..])
  }

  /** A candidate is up for bundling exactly when no bundle that is open, delivered, or cancelled with its
      issues kept has it, and no open per-issue task carries its number. */
  lemma {:induction false} WaitingExactly(b: seq<Task>, xs: seq<Issue>, x: Issue)
    ensures x in Waiting(b, xs) <==>
            && x in xs
            && (forall i :: 0 <= i < |b| && x.id in b[i].issues ==> !Keeps(b[i]))
            && (forall i :: 0 <= i < |b| && b[i].issues == [] && b[i].legacy == Some(x.iid) ==> !Holding(b[i].status))
  {
    hide Keeps, Holding;
    if xs != [] {
      WaitingExactly(b, xs[1..], x);
      assert xs == [xs[0]] + xs[1..];
      CountsOne(b, OnIssue(x.id));
      assert LegacyOpen(b, x.iid) <==> exists i :: 0 <= i < |b| && LegacyRow(b[i], x.iid);
    }
  }

  function Planned(b: seq<Task>, r: Request, policy: Policy, now: int): Option<Plan> {
    PlanOn(b, r.lane, Waiting(b, r.candidates), policy, now)
  }

  function BundleTask(p: Plan, id: TaskId, needs: seq<string>, now: int): Task {
    Task(id, p.lane, Ready, p.band, now, needs, None, p.issues, false, None)
  }

  ghost predicate Unused(b: seq<Task>, id: TaskId) {
    forall i :: 0 <= i < |b| ==> b[i].id != id
  }

  lemma {:induction false} SnocKeepsRows(b: seq<Task>, t: Task)
    requires Unused(b, t.id) && DistinctIds(b) && LaneSerial(b) && !IsActive(t)
    ensures DistinctIds(b + [t]) && LaneSerial(b + [t])
  {
  }

  ghost predicate PlanMatches(p: Plan, q: Query) {
    match q
    case OnLane(lane, urgent) => p.lane == lane != NoLane && p.issues != [] && (p.band == 0) == urgent
    case OnIssue(x) => x in p.issues
  }

  /** Every repository is planned against the board `b` as the cycle found it; then the plans are written. */
  function Written(b: seq<Task>, rs: seq<Request>, policy: Policy, needs: seq<string>, now: int): seq<Task> {
    if rs == [] then b
    else
      var n := |rs| - 1;
      var before := Written(b, rs[..n], policy, needs, now);
      match Planned(b, rs[n], policy, now)
      case None => before
      case Some(p) => before + [BundleTask(p, rs[n].id, needs, now)]
  }

  /** What a cycle writes: the board as it was, and for each repository with a plan one ready row that
      nobody has, with the plan's lane, band and issues. */
  lemma {:induction false} CycleWrites(b: seq<Task>, rs: seq<Request>, policy: Policy, needs: seq<string>, now: int)
    ensures b <= Written(b, rs, policy, needs, now)
    ensures forall k :: 0 <= k < |rs| && Planned(b, rs[k], policy, now).Some? ==>
              var p := Planned(b, rs[k], policy, now).value;
              Task(rs[k].id, p.lane, Ready, p.band, now, needs, None, p.issues, false, None) in Written(b, rs, policy, needs, now)
    ensures forall t :: t in Written(b, rs, policy, needs, now)[|b|..] ==>
              exists k :: 0 <= k < |rs| && Planned(b, rs[k], policy, now).Some? && t.id == rs[k].id
  {
    hide Planned;
    if rs != [] {
      var n := |rs| - 1;
      var before, after := Written(b, rs[..n], policy, needs, now), Written(b, rs, policy, needs, now);
      CycleWrites(b, rs[..n], policy, needs, now);
      assert forall k :: 0 <= k < n ==> rs[..n][k] == rs[k];
      forall k | 0 <= k < |rs| && Planned(b, rs[k], policy, now).Some?
        ensures var p := Planned(b, rs[k], policy, now).value; BundleTask(p, rs[k].id, needs, now) in after
      {
        if k < n {
          assert BundleTask(Planned(b, rs[..n][k], policy, now).value, rs[k].id, needs, now) in before;
        }
      }
      forall t | t in after[|b|..] ensures exists k :: 0 <= k < |rs| && Planned(b, rs[k], policy, now).Some? && t.id == rs[k].id {
        if t in before[|b|..] {
          var k :| 0 <= k < n && Planned(b, rs[..n][k], policy, now).Some? && t.id == rs[..n][k].id;
          assert rs[k] == rs[..n][k];
        } else if Planned(b, rs[n], policy, now).Some? {
          assert after[|b|..] == before[|b|..] + [after[|before|]];
        }
      }
    }
  }

  /** Whether a request's plan adds to a count. */
  ghost predicate Adds(b: seq<Task>, r: Request, policy: Policy, now: int, q: Query) {
    Planned(b, r, policy, now).Some? && PlanMatches(Planned(b, r, policy, now).value, q)
  }

  /** How many of the cycle's plans add to a count. */
  ghost function Added(b: seq<Task>, rs: seq<Request>, policy: Policy, now: int, q: Query): nat {
    if rs == [] then 0
    else Added(b, rs[..|rs| - 1], policy, now, q) + if Adds(b, rs[|rs| - 1], policy, now, q) then 1 else 0
  }

  ghost predicate FreshIds(b: seq<Task>, rs: seq<Request>) {
    && (forall i, j :: 0 <= i < j < |rs| ==> rs[i].id != rs[j].id)
    && (forall i, k :: 0 <= i < |rs| && 0 <= k < |b| ==> rs[i].id != b[k].id)
  }

  ghost predicate FreshId(b: seq<Task>, rs: seq<Request>, id: TaskId) {
    Unused(b, id) && forall k :: 0 <= k < |rs| ==> rs[k].id != id
  }

  lemma {:induction false} WrittenUnused(b: seq<Task>, rs: seq<Request>, policy: Policy, needs: seq<string>, now: int, id: TaskId)
    requires FreshId(b, rs, id)
    ensures Unused(Written(b, rs, policy, needs, now), id)
  {
    hide Planned;
    if rs != [] {
      var n := |rs| - 1;
      WrittenUnused(b, rs[..n], policy, needs, now, id);
    }
  }

  lemma {:induction false} WrittenRows(b: seq<Task>, rs: seq<Request>, policy: Policy, needs: seq<string>, now: int)
    requires FreshIds(b, rs) && Inv(b)
    ensures DistinctIds(Written(b, rs, policy, needs, now)) && LaneSerial(Written(b, rs, policy, needs, now))
  {
    hide Planned, LaneSerial, DistinctIds, WithinCaps;
    if rs != [] {
      var n := |rs| - 1;
      WrittenRows(b, rs[..n], policy, needs, now);
      WrittenUnused(b, rs[..n], policy, needs, now, rs[n].id);
      if Planned(b, rs[n], policy, now).Some? {
        SnocKeepsRows(Written(b, rs[..n], policy, needs, now), BundleTask(Planned(b, rs[n], policy, now).value, rs[n].id, needs, now));
      }
    }
  }

  /** A cycle raises each count by exactly the plans that match it. */
  lemma {:induction false} WrittenCounts(b: seq<Task>, rs: seq<Request>, policy: Policy, needs: seq<string>, now: int, q: Query)
    ensures Count(Written(b, rs, policy, needs, now), q) == Count(b, q) + Added(b, rs, policy, now, q)
  {
    hide Planned, Count;
    if rs != [] {
      var n := |rs| - 1;
      WrittenCounts(b, rs[..n], policy, needs, now, q);
      if Planned(b, rs[n], policy, now).Some? {
        var p := Planned(b, rs[n], policy, now).value;
        CountSnoc(Written(b, rs[..n], policy, needs, now), BundleTask(p, rs[n].id, needs, now), q);
      }
    }
  }

  lemma {:induction false} WaitingMembers(b: seq<Task>, xs: seq<Issue>)
    ensures forall x :: x in Waiting(b, xs) <==> x in xs && !Held(b, x.id) && !LegacyOpen(b, x.iid)
  {
    hide Held, LegacyOpen;
    if xs != [] {
      WaitingMembers(b, xs[1..]);
      assert xs == [xs[0]] + xs[1..];
    }
  }

  /** A planned issue is one of the request's candidates and nobody holds it. */
  lemma {:induction false} PlannedIssue(b: seq<Task>, r: Request, policy: Policy, now: int, x: string)
    requires ValidConfig(policy.packing) && Planned(b, r, policy, now).Some? && x in Planned(b, r, policy, now).value.issues
    ensures !Held(b, x) && exists y :: y in r.candidates && y.id == x
  {
    var xs := Waiting(b, r.candidates);
    var batch := Batch(xs, policy.packing);
    var i :| 0 <= i < |batch| && batch[i].id == x;
    Sittings.BatchFacts(xs, policy.packing);
    MembersCount(xs, TopBand(xs));
    WaitingMembers(b, r.candidates);
    assert batch[i] in multiset(batch);
    assert batch[i] in multiset(Members(xs, TopBand(xs)));
    assert batch[i] in xs;
  }

  lemma {:induction false} AddsHasRoom(b: seq<Task>, r: Request, policy: Policy, now: int, q: Query)
    requires ValidConfig(policy.packing) && Inv(b) && Adds(b, r, policy, now, q)
    ensures Count(b, q) < Cap(q)
    ensures q.OnLane? ==> r.lane == q.lane
    ensures q.OnIssue? ==> exists y :: y in r.candidates && y.id == q.issue
  {
    if q.OnLane? {
      PlanHasRoom(b, r.lane, Waiting(b, r.candidates), policy, now);
    } else {
      PlannedIssue(b, r, policy, now, q.issue);
    }
  }

  /** No two plans of the cycle are for one lane's backlog or hold one issue, and the urgent plans for
      a lane are no more than it has room for. */
  ghost predicate PlansFit(b: seq<Task>, rs: seq<Request>, policy: Policy, now: int) {
    && (forall q :: Cap(q) == 1 ==> Pairless(b, rs, policy, now, q))
    && (forall lane :: Added(b, rs, policy, now, OnLane(lane, true)) <= 2 - Count(b, OnLane(lane, true)))
  }

  ghost predicate Pairless(b: seq<Task>, rs: seq<Request>, policy: Policy, now: int, q: Query) {
    forall i, j :: 0 <= i < j < |rs| && Adds(b, rs[i], policy, now, q) ==> !Adds(b, rs[j], policy, now, q)
  }

  /** At most one plan adds to a count exactly when no two do. */
  lemma {:induction false} AddedPairs(b: seq<Task>, rs: seq<Request>, policy: Policy, now: int, q: Query)
    ensures Added(b, rs, policy, now, q) <= 1 <==> Pairless(b, rs, policy, now, q)
    ensures Added(b, rs, policy, now, q) > 0 <==> exists k :: 0 <= k < |rs| && Adds(b, rs[k], policy, now, q)
  {
    hide Adds;
    if rs != [] {
      var n := |rs| - 1;
      AddedPairs(b, rs[..n], policy, now, q);
      if Added(b, rs[..n], policy, now, q) > 0 {
        var k :| 0 <= k < n && Adds(b, rs[..n][k], policy, now, q);
        assert rs[k] == rs[..n][k];
      }
      if !Pairless(b, rs[..n], policy, now, q) {
        var i, j :| 0 <= i < j < n && Adds(b, rs[..n][i], policy, now, q) && Adds(b, rs[..n][j], policy, now, q);
        assert rs[i] == rs[..n][i] && rs[j] == rs[..n][j];
      }
      if Pairless(b, rs[..n], policy, now, q) && Added(b, rs[..n], policy, now, q) == 0 {
        forall i | 0 <= i < n ensures !Adds(b, rs[i], policy, now, q) {
          assert rs[i] == rs[..n][i];
        }
      }
      if Added(b, rs, policy, now, q) <= 1 {
        forall i, j | 0 <= i < j < |rs| && Adds(b, rs[i], policy, now, q) ensures !Adds(b, rs[j], policy, now, q) {
          assert rs[i] == rs[..n][i];
          if j < n {
            assert rs[j] == rs[..n][j];
          }
        }
      }
    }
  }

  /** One count, before and after a cycle. */
  lemma {:induction false} CountFits(b: seq<Task>, rs: seq<Request>, policy: Policy, needs: seq<string>, now: int, q: Query)
    requires ValidConfig(policy.packing) && Inv(b)
    ensures Count(Written(b, rs, policy, needs, now), q) <= Cap(q)
            <==> if Cap(q) == 1 then Pairless(b, rs, policy, now, q) else Added(b, rs, policy, now, q) <= 2 - Count(b, q)
  {
    hide Pairless, Adds, Written;
    WrittenCounts(b, rs, policy, needs, now, q);
    AddedPairs(b, rs, policy, now, q);
    assert Count(b, q) <= Cap(q);
    if Added(b, rs, policy, now, q) > 0 {
      var k :| 0 <= k < |rs| && Adds(b, rs[k], policy, now, q);
      AddsHasRoom(b, rs[k], policy, now, q);
    }
  }

  /** A cycle keeps every cap exactly when its plans fit. */
  lemma {:induction false} CycleKeepsInv(b: seq<Task>, rs: seq<Request>, policy: Policy, needs: seq<string>, now: int)
    requires ValidConfig(policy.packing) && Inv(b) && FreshIds(b, rs)
    ensures Inv(Written(b, rs, policy, needs, now)) <==> PlansFit(b, rs, policy, now)
  {
    var b' := Written(b, rs, policy, needs, now);
    WrittenRows(b, rs, policy, needs, now);
    hide Adds, Written, Count, Added, DistinctIds, LaneSerial, FreshIds;
    forall q ensures Count(b', q) <= Cap(q)
                     <==> if Cap(q) == 1 then Pairless(b, rs, policy, now, q) else Added(b, rs, policy, now, q) <= 2 - Count(b, q)
    {
      CountFits(b, rs, policy, needs, now, q);
    }
    if WithinCaps(b') {
      forall lane ensures Added(b, rs, policy, now, OnLane(lane, true)) <= 2 - Count(b, OnLane(lane, true)) {
        assert Count(b', OnLane(lane, true)) <= Cap(OnLane(lane, true));
      }
      forall q | Cap(q) == 1 ensures Pairless(b, rs, policy, now, q) {
        assert Count(b', q) <= Cap(q);
      }
    } else {
      var q :| Count(b', q) > Cap(q);
      if Cap(q) != 1 {
        assert q == OnLane(q.lane, true);
      }
    }
  }

  /** No two repositories of the cycle share a lane, and none share an issue. */
  ghost predicate Apart(rs: seq<Request>) {
    forall i, j :: 0 <= i < j < |rs| ==> ApartPair(rs[i], rs[j])
  }

  ghost predicate ApartPair(r: Request, s: Request) {
    r.lane != s.lane && forall x, y :: x in r.candidates && y in s.candidates ==> x.id != y.id
  }

  lemma {:induction false} ApartIsPairless(b: seq<Task>, rs: seq<Request>, policy: Policy, now: int, q: Query)
    requires ValidConfig(policy.packing) && Inv(b) && Apart(rs)
    ensures Pairless(b, rs, policy, now, q)
  {
    hide Adds, Inv;
    forall i, j | 0 <= i < j < |rs| && Adds(b, rs[i], policy, now, q) ensures !Adds(b, rs[j], policy, now, q) {
      assert ApartPair(rs[i], rs[j]);
      AddsHasRoom(b, rs[i], policy, now, q);
      if Adds(b, rs[j], policy, now, q) {
        AddsHasRoom(b, rs[j], policy, now, q);
        assert false;
      }
    }
  }

  /** Repositories on different lanes always fit. */
  lemma {:induction false} ApartFits(b: seq<Task>, rs: seq<Request>, policy: Policy, now: int)
    requires ValidConfig(policy.packing) && Inv(b) && Apart(rs)
    ensures PlansFit(b, rs, policy, now)
  {
    hide Adds;
    forall q ensures Pairless(b, rs, policy, now, q) {
      ApartIsPairless(b, rs, policy, now, q);
    }
    forall lane ensures Added(b, rs, policy, now, OnLane(lane, true)) <= 2 - Count(b, OnLane(lane, true)) {
      var q := OnLane(lane, true);
      AddedPairs(b, rs, policy, now, q);
      assert Count(b, q) <= Cap(q);
      if Added(b, rs, policy, now, q) > 0 {
        var k :| 0 <= k < |rs| && Adds(b, rs[k], policy, now, q);
        AddsHasRoom(b, rs[k], policy, now, q);
      }
    }
  }

  // ---------------------------------------------------------------- lane keys

  datatype Naming = Naming(branches: map<string, string>, branch: string)

  function StripSlashes(s: string): string {
    if s != [] && s[|s| - 1] == '/' then StripSlashes(s[..|s| - 1]) else s
  }

  function LastSegment(s: string): string {
    if '/' in s then LastSegment(s[1..]) else s
  }

  /** The last segment of a project path names the repository. */
  function LaneRepo(path: string): string {
    var repo := LastSegment(StripSlashes(path));
    if repo == "" then "unknown-repo" else repo
  }

  function LaneBranchFor(path: string, naming: Naming): string {
    if LaneRepo(path) in naming.branches then naming.branches[LaneRepo(path)]
    else if path in naming.branches then naming.branches[path]
    else naming.branch
  }

  function LaneKeyFor(path: string, naming: Naming): LaneKey {
    Lane(LaneRepo(path) + "#" + LaneBranchFor(path, naming))
  }

  /** Slashes at the end of a path do not matter for its lane's repository. */
  lemma {:induction false} EndSlashIgnored(path: string)
    ensures LaneRepo(path + "/") == LaneRepo(path)
    ensures '/' !in LaneRepo(path) && LaneRepo(path) != ""
  {
    assert (path + "/")[..|path|] == path;
    LastSegmentHasNone(StripSlashes(path));
  }

  lemma {:induction false} LastSegmentHasNone(s: string)
    ensures '/' !in LastSegment(s)
  {
    if '/' in s {
      LastSegmentHasNone(s[1..]);
    }
  }

  lemma {:induction false} LastSegmentOf(group: string, repo: string)
    requires '/' !in repo
    ensures LastSegment(group + "/" + repo) == repo
  {
    var path := group + "/" + repo;
    assert path[|group|] == '/';
    if group == "" {
      assert path[1..] == repo;
    } else {
      assert path[1..] == group[1..] + "/" + repo;
      LastSegmentOf(group[1..], repo);
    }
  }

  /** Two paths with one last segment have one lane key exactly when they map to one branch. */
  lemma {:induction false} SameRepoSameLane(g: string, h: string, repo: string, naming: Naming)
    requires repo != "" && '/' !in repo
    ensures var p, r := g + "/" + repo, h + "/" + repo;
            LaneRepo(p) == LaneRepo(r) == repo
            && (LaneKeyFor(p, naming) == LaneKeyFor(r, naming) <==> LaneBranchFor(p, naming) == LaneBranchFor(r, naming))
  {
    var p, r := g + "/" + repo, h + "/" + repo;
    assert p[|p| - 1] == repo[|repo| - 1] && r[|r| - 1] == repo[|repo| - 1];
    assert repo[|repo| - 1] in repo;
    LastSegmentOf(g, repo);
    LastSegmentOf(h, repo);
    var x, y := LaneBranchFor(p, naming), LaneBranchFor(r, naming);
    if repo + "#" + x == repo + "#" + y {
      assert x == (repo + "#" + x)[|repo| + 1..] == (repo + "#" + y)[|repo| + 1..] == y;
    }
  }

  /** Two projects of different groups whose paths end alike: one cycle gives their one lane two
      backlog bundles. */
  lemma {:induction false} SharedLaneOverfills(g: string, h: string, repo: string, naming: Naming, x: Issue, y: Issue,
                                               policy: Policy, needs: seq<string>, now: int)
    requires g != h && repo != "" && '/' !in repo && LaneBranchFor(g + "/" + repo, naming) == LaneBranchFor(h + "/" + repo, naming)
    requires Sittings.Serves(policy.packing) && policy.window == 0 && x.band > 0 && y.band > 0
    ensures var rs := [Request(LaneKeyFor(g + "/" + repo, naming), [x], TaskId("a")),
                       Request(LaneKeyFor(h + "/" + repo, naming), [y], TaskId("b"))];
            g + "/" + repo != h + "/" + repo && Inv([]) && FreshIds([], rs) && !Inv(Written([], rs, policy, needs, now))
  {
    var p, r := g + "/" + repo, h + "/" + repo;
    SameRepoSameLane(g, h, repo, naming);
    hide LaneKeyFor, LaneBranchFor;
    assert p[..|p| - |repo| - 1] == g && r[..|r| - |repo| - 1] == h;
    var rs := [Request(LaneKeyFor(p, naming), [x], TaskId("a")), Request(LaneKeyFor(r, naming), [y], TaskId("b"))];
    LaneIsNamed(p, naming);
    SingleIsPlanned([], rs[0], x, policy, now);
    SingleIsPlanned([], rs[1], y, policy, now);
    CycleKeepsInv([], rs, policy, needs, now);
    hide Adds;
    assert !Pairless([], rs, policy, now, OnLane(rs[0].lane, false));
  }

  lemma {:induction false} LaneIsNamed(path: string, naming: Naming)
    ensures LaneKeyFor(path, naming) != NoLane
  {
  }

  lemma {:induction false} SingleIsPlanned(b: seq<Task>, r: Request, x: Issue, policy: Policy, now: int)
    requires Sittings.Serves(policy.packing) && policy.window == 0 && x.band > 0
    requires b == [] && r.lane != NoLane && r.candidates == [x]
    ensures Adds(b, r, policy, now, OnLane(r.lane, false))
  {
    assert Waiting(b, [x]) == [x] + Waiting(b, [x][1..]);
    Sittings.BatchFacts([x], policy.packing);
  }

  // -------------------------------------------------------------------- runs

  /** The status changes the store admits for one task: a terminal one only has a cancel acknowledged. */
  predicate CanMove(from: Status, to: Status) {
    !Terminal(from) || (from.CancelRequested? && to.Cancelled?)
  }

  datatype Step =
    | Cycle(requests: seq<Request>, policy: Policy, needs: seq<string>, now: int)
    | Tick(leased: set<TaskId>, after: seq<Task>)
    | Move(row: nat, status: Status, node: Option<string>, keep: bool)
    | Create(created: Task)

  /** A row after a status change; a cancel records whether the issues stay with it. */
  function Moved(t: Task, status: Status, node: Option<string>, keep: bool): Task {
    t.(status := status, assignedTo := node, kept := if status.Cancelled? || status.CancelRequested? then keep else t.kept)
  }

  function Apply(b: seq<Task>, s: Step): seq<Task> {
    match s
    case Cycle(rs, policy, needs, now) => Written(b, rs, policy, needs, now)
    case Tick(_, after) => after
    case Move(k, status, node, keep) => if k < |b| then b[k := Moved(b[k], status, node, keep)] else b
    case Create(t) => b + [t]
  }

  /** A row becomes active by a claim or a reassignment, outside the schedule tick. */
  ghost predicate Activates(b: seq<Task>, k: nat, status: Status)
    requires k < |b|
  {
    ActiveStatus(status) && !IsActive(b[k])
  }

  /** Room for a parked bundle to come back: if it is open again its lane is below the cap of its
      band, and if it keeps its issues nobody else does. */
  ghost predicate RoomFor(b: seq<Task>, t: Task) {
    && (Holding(t.status) && t.issues != [] && t.lane != NoLane ==>
          var q := OnLane(t.lane, t.priority == 0); Count(b, q) < Cap(q))
    && (Keeps(t) ==> forall x :: x in t.issues ==> !Held(b, x))
  }

  /** What a status change must respect and the store does not check: no second dispatch on a lane,
      and room for what was parked. */
  ghost predicate MoveFits(b: seq<Task>, k: nat, status: Status, node: Option<string>, keep: bool)
    requires k < |b|
  {
    && (Activates(b, k, status) ==> !LaneActive(b, b[k].lane))
    && (b[k].status.Blocked? ==> RoomFor(b, Moved(b[k], status, node, keep)))
  }

  ghost predicate Enabled(b: seq<Task>, s: Step) {
    match s
    case Cycle(rs, policy, needs, now) => ValidConfig(policy.packing) && FreshIds(b, rs) && PlansFit(b, rs, policy, now)
    case Tick(leased, after) => Ticked(b, after, leased)
    case Move(k, status, node, keep) => k < |b| && CanMove(b[k].status, status) && MoveFits(b, k, status, node, keep)
    case Create(t) => Unused(b, t.id) && !IsActive(t) && t.issues == []
  }

  lemma {:induction false} TickKeepsInv(b: seq<Task>, leased: set<TaskId>, after: seq<Task>)
    requires Inv(b) && Ticked(b, after, leased)
    ensures Inv(after)
  {
    TickKeepsLaneSerial(b, after, leased);
    forall q ensures Count(after, q) <= Cap(q) {
      assert Count(b, q) <= Cap(q);
      forall i | 0 <= i < |after| ensures Match(b[i], q) == Match(after[i], q) {
        assert TaskTicked(b, leased, b[i], after[i]);
      }
      CountSame(b, after, q);
    }
  }

  /** A claim keeps one dispatch per lane exactly when the lane is idle. */
  lemma {:induction false} ClaimKeepsSerial(b: seq<Task>, k: nat, t: Task)
    requires LaneSerial(b) && k < |b| && !IsActive(b[k]) && IsActive(t) && t.lane == b[k].lane
    ensures LaneSerial(b[k := t]) <==> !LaneActive(b, b[k].lane)
  {
    var after := b[k := t];
    if LaneActive(b, b[k].lane) {
      var i :| 0 <= i < |b| && b[i].lane == b[k].lane && IsActive(b[i]);
      assert i != k && IsActive(after[i]) && IsActive(after[k]) && after[i].lane == after[k].lane;
    } else {
      forall i, j | 0 <= i < j < |after| && IsActive(after[i]) && IsActive(after[j]) && after[i].lane != NoLane
        ensures after[i].lane != after[j].lane
      {
        if i == k {
          assert after[j] == b[j];
        } else if j == k {
          assert after[i] == b[i];
        } else {
          assert after[i] == b[i] && after[j] == b[j];
        }
      }
    }
  }

  lemma {:induction false} QuietMoveKeepsSerial(b: seq<Task>, k: nat, t: Task)
    requires LaneSerial(b) && k < |b| && (IsActive(t) ==> IsActive(b[k])) && t.lane == b[k].lane
    ensures LaneSerial(b[k := t])
  {
    var after := b[k := t];
    forall i, j | 0 <= i < j < |after| && IsActive(after[i]) && IsActive(after[j]) && after[i].lane != NoLane
      ensures after[i].lane != after[j].lane
    {
      assert IsActive(b[i]) && IsActive(b[j]) && after[i].lane == b[i].lane && after[j].lane == b[j].lane;
    }
  }

  lemma {:induction false} MoveKeepsIds(b: seq<Task>, k: nat, t: Task)
    requires DistinctIds(b) && k < |b| && t.id == b[k].id
    ensures DistinctIds(b[k := t])
  {
    var after := b[k := t];
    forall i, j | 0 <= i < j < |after| ensures after[i].id != after[j].id {
      assert b[i].id != b[j].id && after[i].id == b[i].id && after[j].id == b[j].id;
    }
  }

  /** A row that is not parked comes to match nothing it did not match before. */
  lemma {:induction false} MatchesNoMore(t: Task, status: Status, node: Option<string>, keep: bool, q: Query)
    requires CanMove(t.status, status) && !t.status.Blocked?
    ensures Match(Moved(t, status, node, keep), q) ==> Match(t, q)
  {
  }

  lemma {:induction false} QuietMoveKeepsCaps(b: seq<Task>, k: nat, t: Task)
    requires WithinCaps(b) && k < |b| && forall q :: Match(t, q) ==> Match(b[k], q)
    ensures WithinCaps(b[k := t])
  {
    forall q ensures Count(b[k := t], q) <= Cap(q) {
      assert Count(b, q) <= Cap(q) && (Match(t, q) ==> Match(b[k], q));
      CountUpdate(b, k, t, q);
    }
  }

  /** A parked bundle's return keeps every cap exactly when there is room for it. */
  lemma {:induction false} ReturnKeepsCaps(b: seq<Task>, k: nat, t: Task)
    requires WithinCaps(b) && k < |b| && b[k].status.Blocked?
    ensures WithinCaps(b[k := t]) <==> RoomFor(b, t)
  {
    hide Count;
    var after := b[k := t];
    if RoomFor(b, t) {
      forall q ensures Count(after, q) <= Cap(q) {
        CountUpdate(b, k, t, q);
        assert Count(b, q) <= Cap(q);
        if Match(t, q) {
          assert q.OnLane? ==> q == OnLane(t.lane, t.priority == 0);
          assert q.OnIssue? ==> !Held(b, q.issue);
        }
      }
    } else if Keeps(t) && exists x :: x in t.issues && Held(b, x) {
      var x :| x in t.issues && Held(b, x);
      CountUpdate(b, k, t, OnIssue(x));
    } else {
      CountUpdate(b, k, t, OnLane(t.lane, t.priority == 0));
    }
  }

  /** A status change the store admits keeps the invariant exactly when it fits. */
  lemma {:induction false} MoveKeepsInv(b: seq<Task>, k: nat, status: Status, node: Option<string>, keep: bool)
    requires Inv(b) && k < |b| && CanMove(b[k].status, status)
    ensures Inv(Apply(b, Move(k, status, node, keep))) <==> MoveFits(b, k, status, node, keep)
  {
    hide WithinCaps, LaneSerial, DistinctIds, LaneActive, Match, RoomFor;
    var t := Moved(b[k], status, node, keep);
    MoveKeepsIds(b, k, t);
    if Activates(b, k, status) {
      ClaimKeepsSerial(b, k, t);
    } else {
      QuietMoveKeepsSerial(b, k, t);
    }
    if b[k].status.Blocked? {
      ReturnKeepsCaps(b, k, t);
    } else {
      forall q ensures Match(t, q) ==> Match(b[k], q) {
        MatchesNoMore(b[k], status, node, keep, q);
      }
      QuietMoveKeepsCaps(b, k, t);
    }
  }

  lemma {:induction false} CreateKeepsInv(b: seq<Task>, t: Task)
    requires Inv(b) && Enabled(b, Create(t))
    ensures Inv(b + [t])
  {
    SnocKeepsRows(b, t);
    forall q ensures Count(b + [t], q) <= Cap(q) {
      assert Count(b, q) <= Cap(q);
      CountSnoc(b, t, q);
    }
  }

  lemma {:induction false} StepKeepsInv(b: seq<Task>, s: Step)
    requires Inv(b) && Enabled(b, s)
    ensures Inv(Apply(b, s))
  {
    match s
    case Cycle(rs, policy, needs, now) => CycleKeepsInv(b, rs, policy, needs, now);
    case Tick(leased, after) => TickKeepsInv(b, leased, after);
    case Move(k, status, node, keep) => MoveKeepsInv(b, k, status, node, keep);
    case Create(t) => CreateKeepsInv(b, t);
  }

  ghost predicate RunEnabled(b: seq<Task>, run: seq<Step>)
    decreases |run|
  {
    run == [] || (Enabled(b, run[0]) && RunEnabled(Apply(b, run[0]), run[1..]))
  }

  function After(b: seq<Task>, run: seq<Step>): seq<Task>
    decreases |run|
  {
    if run == [] then b else After(Apply(b, run[0]), run[1..])
  }

  /** Over every run of enabled steps from a board within its caps. */
  lemma {:induction false} RunKeepsInv(b: seq<Task>, run: seq<Step>)
    requires Inv(b) && RunEnabled(b, run)
    ensures Inv(After(b, run))
    decreases |run|
  {
    if run != [] {
      StepKeepsInv(b, run[0]);
      RunKeepsInv(Apply(b, run[0]), run[1..]);
    }
  }

  /** When a lane goes idle, a waiting urgent task is what goes next, and no backlog task can. */
  lemma {:induction false} UrgentGoesNext(b: seq<Task>, lane: LaneKey, t: Task)
    requires Inv(b) && lane != NoLane && !LaneActive(b, lane)
    requires t in b && WaitsOn(t, lane) && t.priority == 0
    ensures exists u :: u in b && WaitsOn(u, lane) && u.priority <= 0 && !HeldBack(b, u)
    ensures forall u :: u in b && WaitsOn(u, lane) && u.priority > 0 ==> HeldBack(b, u)
  {
    NextIsMinimal(b, lane);
    var u := NextOn(b, lane).value;
    assert u.lane == lane && !HeldBack(b, u);
  }

  // --------------------------------------------------- where the store does not check

  /** Two ready bundles of one lane, claimed one after the other: both run. */
  lemma {:induction false} ClaimsCanDouble(backlog: Task, urgent: Task, node: Option<string>)
    requires backlog.lane == urgent.lane != NoLane && backlog.id != urgent.id
    requires backlog.status.Ready? && urgent.status.Ready? && backlog.priority == 1 && urgent.priority == 0
    requires backlog.issues == ["repo#1"] && urgent.issues == ["repo#2"]
    ensures var b := [backlog, urgent];
            var once := Apply(b, Move(0, Running, node, false));
            Inv(b) && Inv(once) && CanMove(once[1].status, Running) && !Inv(Apply(once, Move(1, Running, node, false)))
  {
    var b := [backlog, urgent];
    forall q ensures Count(b, q) <= Cap(q) {
      assert b == [backlog] + [urgent] && [backlog] == [] + [backlog];
      CountSnoc([backlog], urgent, q);
      CountSnoc([], backlog, q);
    }
    MoveKeepsInv(b, 0, Running, node, false);
    var once := Apply(b, Move(0, Running, node, false));
    assert forall i :: 0 <= i < |b| ==> !IsActive(b[i]);
    assert once[0].lane == once[1].lane && IsActive(once[0]) && LaneActive(once, once[1].lane);
    MoveKeepsInv(once, 1, Running, node, false);
  }

  lemma {:induction false} ParkedPlans(b: seq<Task>, parked: Task, r: Request, x: Issue, policy: Policy)
    requires Sittings.Serves(policy.packing) && policy.window == 0 && x.band > 0 && r.candidates == [x]
    requires b == [parked] && parked.status.Blocked? && r.lane != NoLane
    ensures (forall q :: Count(b, q) == 0) && Adds(b, r, policy, 1, OnLane(r.lane, false))
  {
    forall q ensures Count(b, q) == 0 {
      assert b == [] + [parked];
      CountSnoc([], parked, q);
    }
    assert !LegacyOpen(b, x.iid);
    assert Waiting(b, [x]) == [x] + Waiting(b, [x][1..]);
    Sittings.BatchFacts([x], policy.packing);
    assert b[..0] == [];
    assert Entries(b, r.lane, false) == Entries(b[..0], r.lane, false) == [];
    assert Entries(b, r.lane, true) == Entries(b[..0], r.lane, true) == [];
  }

  lemma {:induction false} ParkedGrows(b: seq<Task>, parked: Task, r: Request, x: Issue, policy: Policy)
    requires Sittings.Serves(policy.packing) && policy.window == 0 && x.band > 0 && r.candidates == [x]
    requires b == [parked] && parked.status.Blocked? && r.lane != NoLane && r.id != parked.id
    ensures Inv(b) && Enabled(b, Cycle([r], policy, [], 1))
    ensures var grown := Written(b, [r], policy, [], 1);
            Inv(grown) && grown != [] && grown[0] == parked && Count(grown, OnLane(r.lane, false)) == 1
  {
    var q := OnLane(r.lane, false);
    ParkedPlans(b, parked, r, x, policy);
    hide Count, PlanFor, Waiting, Batch, Entries;
    ApartFits(b, [r], policy, 1);
    CycleKeepsInv(b, [r], policy, [], 1);
    WrittenCounts(b, [r], policy, [], 1, q);
    assert [r][..0] == [];
    assert Added(b, [r], policy, 1, q) == Added(b, [], policy, 1, q) + 1;
    assert Written(b, [r][..0], policy, [], 1) == b;
  }

  /** A lane whose backlog bundle is parked on a ballot: intake plans another, and the answer then
      puts two on the lane. */
  lemma {:induction false} AnswerCanOverfill(policy: Policy, x: Issue, parked: Task, r: Request)
    requires Sittings.Serves(policy.packing) && policy.window == 0 && x.band > 0 && r.candidates == [x]
    requires parked.status.Blocked? && parked.priority > 0 && parked.issues != [] && r.lane == parked.lane != NoLane && r.id != parked.id
    ensures var grown := Written([parked], [r], policy, [], 1);
            Inv([parked]) && Enabled([parked], Cycle([r], policy, [], 1)) && !Inv(Apply(grown, Move(0, Ready, None, false)))
  {
    ParkedGrows([parked], parked, r, x, policy);
    hide Count, Written, Match;
    MoveKeepsInv(Written([parked], [r], policy, [], 1), 0, Ready, None, false);
  }
}
