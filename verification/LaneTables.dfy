/** The executor's tables as one value, and how they implement the lane protocol.

    The per-lane queues, the released heads and the tasks drained for the running cycle (`hand`)
    together are the protocol's FIFO. */
module LaneTables {
  import opened Ids
  import opened LaneProtocol
  import opened Reap
  import Rearming

  /** What trying to start a worker comes to. */
  datatype Launch = PlacedElsewhere | CannotLaunch | Launches

  // ------------------------------------------------------ lists of held tasks

  /** The tasks of one lane, in order. */
  ghost function OnLane(xs: seq<Task>, lane: LaneKey): seq<Task> {
    if xs == [] then []
    else if xs[0].lane == lane then [xs[0]] + OnLane(xs[1..], lane)
    else OnLane(xs[1..], lane)
  }

  lemma {:induction false} OnLaneConcat(xs: seq<Task>, ys: seq<Task>, lane: LaneKey)
    ensures OnLane(xs + ys, lane) == OnLane(xs, lane) + OnLane(ys, lane)
  {
    if xs == [] {
      assert xs + ys == ys;
    } else {
      assert (xs + ys)[1..] == xs[1..] + ys;
      OnLaneConcat(xs[1..], ys, lane);
    }
  }

  lemma {:induction false} OnLaneUniform(xs: seq<Task>, home: LaneKey, lane: LaneKey)
    requires forall i :: 0 <= i < |xs| ==> xs[i].lane == home
    ensures OnLane(xs, lane) == if lane == home then xs else []
  {
    if xs != [] {
      OnLaneUniform(xs[1..], home, lane);
    }
  }

  /** The executor's tables, as one value. */
  datatype Tables = Tables(
    active: map<TaskId, Spawn>,
    queue: map<LaneKey, seq<Task>>,
    released: map<LaneKey, seq<Task>>,
    meta: map<TaskId, Backoff>,
    sent: seq<Message>,
    reports: seq<Key>)

  /** One lane's protocol FIFO is its drained, then released, then queued tasks. */
  ghost predicate LaneCoupled(t: Tables, s: State, hand: seq<Task>, lane: LaneKey) {
    Fifo(s.waiting, lane) == OnLane(hand, lane) + Fifo(t.released, lane) + Fifo(t.queue, lane)
  }

  /** The tables implement the protocol state, with `hand` drained and not yet dispatched. */
  ghost predicate Implements(t: Tables, s: State, hand: seq<Task>) {
    && s.active == t.active && s.meta == t.meta
    && t.sent == Sent(s.history) && t.reports == Reported(s.history)
    && forall lane :: LaneCoupled(t, s, hand, lane)
  }

  function LaneTasks(t: Tables, lane: LaneKey): seq<Task> {
    Fifo(t.released, lane) + Fifo(t.queue, lane)
  }

  /** Between dispatches a lane's FIFO is what its two tables hold. */
  lemma {:induction false} WaitingIsListed(t: Tables, s: State, lane: LaneKey)
    requires Implements(t, s, [])
    ensures Fifo(s.waiting, lane) == LaneTasks(t, lane)
  {
    assert LaneCoupled(t, s, [], lane);
    assert OnLane([], lane) == [];
  }

  lemma {:induction false} PartsAreHome(a: seq<Task>, b: seq<Task>, c: seq<Task>, lane: LaneKey, home: map<TaskId, LaneKey>)
    requires var all := a + b + c; forall i :: 0 <= i < |all| ==> OwnLane(all[i], lane, home)
    ensures forall i :: 0 <= i < |b| ==> OwnLane(b[i], lane, home)
    ensures forall i :: 0 <= i < |c| ==> OwnLane(c[i], lane, home)
  {
    hide OwnLane;
    var all := a + b + c;
    forall i | 0 <= i < |b| ensures OwnLane(b[i], lane, home) {
      assert all[|a| + i] == b[i];
    }
    forall i | 0 <= i < |c| ensures OwnLane(c[i], lane, home) {
      assert all[|a| + |b| + i] == c[i];
    }
  }

  lemma {:induction false} AppendToThird(a: seq<Task>, b: seq<Task>, c: seq<Task>, x: Task)
    ensures a + b + (c + [x]) == a + b + c + [x]
  {
  }

  lemma {:induction false} WaitsAtHome(s: State, lane: LaneKey, i: nat)
    requires Inv(s) && i < |Fifo(s.waiting, lane)|
    ensures OwnLane(Fifo(s.waiting, lane)[i], lane, s.home)
  {
  }

  lemma {:induction false} QueuedTasksAreHome(t: Tables, s: State, hand: seq<Task>, lane: LaneKey)
    requires Inv(s) && Implements(t, s, hand)
    ensures forall i :: 0 <= i < |Fifo(t.queue, lane)| ==> OwnLane(Fifo(t.queue, lane)[i], lane, s.home)
    ensures forall i :: 0 <= i < |Fifo(t.released, lane)| ==> OwnLane(Fifo(t.released, lane)[i], lane, s.home)
  {
    assert LaneCoupled(t, s, hand, lane);
    hide Inv, Implements, OnLane, Fifo, OwnLane;
    forall i | 0 <= i < |Fifo(s.waiting, lane)| ensures OwnLane(Fifo(s.waiting, lane)[i], lane, s.home) {
      WaitsAtHome(s, lane, i);
    }
    PartsAreHome(OnLane(hand, lane), Fifo(t.released, lane), Fifo(t.queue, lane), lane, s.home);
  }

  /** A task in hand is queued nowhere. */
  lemma {:induction false} InHandIsNotQueued(t: Tables, s: State, hand: seq<Task>, x: Task)
    requires Inv(s) && Implements(t, s, hand) && x.id in s.inHand
    ensures forall i :: 0 <= i < |Fifo(t.queue, x.lane)| ==> Fifo(t.queue, x.lane)[i].id != x.id
  {
    QueuedTasksAreHome(t, s, hand, x.lane);
  }

  lemma {:induction false} SameSpawnsAndBackoffs(t: Tables, s: State, hand: seq<Task>)
    requires Implements(t, s, hand)
    ensures s.active == t.active && s.meta == t.meta
    ensures t.sent == Sent(s.history) && t.reports == Reported(s.history)
  {
  }

  lemma {:induction false} EnqueueImplements(t: Tables, s: State, hand: seq<Task>, x: Task, now: real)
    requires Implements(t, s, hand) && x.id in s.inHand
    ensures var attempts := s.inHand[x.id];
            Implements(t.(queue := t.queue[x.lane := Fifo(t.queue, x.lane) + [x]],
                          meta := t.meta[x.id := Backoff(attempts, now + Delay(attempts))]),
                       AfterEnqueue(s, x, now), hand)
  {
    var attempts := s.inHand[x.id];
    var t' := t.(queue := t.queue[x.lane := Fifo(t.queue, x.lane) + [x]],
                 meta := t.meta[x.id := Backoff(attempts, now + Delay(attempts))]);
    var s' := AfterEnqueue(s, x, now);
    assert MessagesFor(s'.history.event) == [] && ReportsFor(s'.history.event) == [];
    hide OnLane;
    forall lane ensures LaneCoupled(t', s', hand, lane) {
      assert LaneCoupled(t, s, hand, lane);
      AppendToThird(OnLane(hand, lane), Fifo(t.released, lane), Fifo(t.queue, lane), x);
    }
  }

  lemma {:induction false} StartImplements(t: Tables, s: State, hand: seq<Task>, x: Task)
    requires Implements(t, s, hand) && x.id in s.inHand
    ensures Implements(t.(active := t.active[x.id := Spawn(x, s.inHand[x.id])]), AfterStart(s, x), hand)
  {
    var t', s' := t.(active := t.active[x.id := Spawn(x, s.inHand[x.id])]), AfterStart(s, x);
    assert MessagesFor(s'.history.event) == [] && ReportsFor(s'.history.event) == [];
    forall lane ensures LaneCoupled(t', s', hand, lane) {
      assert LaneCoupled(t, s, hand, lane);
    }
  }

  /** The tables once main has been told what the event calls for. */
  ghost function Telling(t: Tables, e: Event): Tables {
    t.(sent := t.sent + MessagesFor(e), reports := t.reports + ReportsFor(e))
  }

  lemma {:induction false} DropImplements(t: Tables, s: State, hand: seq<Task>, x: Task, why: DropReason)
    requires Implements(t, s, hand)
    ensures Implements(Telling(t, Dropped(x.id, why)), AfterDrop(s, x, why), hand)
  {
    var t', s' := Telling(t, Dropped(x.id, why)), AfterDrop(s, x, why);
    forall lane ensures LaneCoupled(t', s', hand, lane) {
      assert LaneCoupled(t, s, hand, lane);
    }
  }

  lemma {:induction false} EndImplements(t: Tables, s: State, hand: seq<Task>, id: TaskId, e: Event)
    requires Implements(t, s, hand)
    ensures Implements(Telling(t.(active := t.active - {id}, meta := t.meta - {id}), e), AfterEnd(s, id, e), hand)
  {
    var t' := Telling(t.(active := t.active - {id}, meta := t.meta - {id}), e);
    forall lane ensures LaneCoupled(t', AfterEnd(s, id, e), hand, lane) {
      assert LaneCoupled(t, s, hand, lane);
    }
  }

  lemma {:induction false} RefuseImplements(t: Tables, s: State, hand: seq<Task>, id: TaskId)
    requires Implements(t, s, hand) && id in s.active
    ensures Implements(t.(active := t.active - {id}, meta := t.meta - {id}), AfterRefuse(s, id), hand)
  {
    var t', s' := t.(active := t.active - {id}, meta := t.meta - {id}), AfterRefuse(s, id);
    assert MessagesFor(s'.history.event) == [] && ReportsFor(s'.history.event) == [];
    forall lane ensures LaneCoupled(t', s', hand, lane) {
      assert LaneCoupled(t, s, hand, lane);
    }
  }

  lemma {:induction false} DequeueLaneCoupled(t: Tables, s: State, hand: seq<Task>, lane: LaneKey)
    requires hand != [] && LaneCoupled(t, s, hand, lane) && Fifo(s.waiting, hand[0].lane) != []
    ensures LaneCoupled(t, AfterDequeue(s, hand[0].lane), hand[1..], lane)
  {
    if lane == hand[0].lane {
      DropFirst(hand[0], OnLane(hand[1..], lane), Fifo(t.released, lane), Fifo(t.queue, lane));
    }
  }

  lemma {:induction false} DropFirst(x: Task, a: seq<Task>, b: seq<Task>, c: seq<Task>)
    ensures ([x] + a + b + c)[1..] == a + b + c
  {
  }

  /** The first drained task is the head of its lane's FIFO. */
  lemma {:induction false} DequeueImplements(t: Tables, s: State, hand: seq<Task>)
    requires Implements(t, s, hand) && hand != []
    ensures Fifo(s.waiting, hand[0].lane) != [] && Fifo(s.waiting, hand[0].lane)[0] == hand[0]
    ensures Implements(t, AfterDequeue(s, hand[0].lane), hand[1..])
  {
    assert LaneCoupled(t, s, hand, hand[0].lane);
    var s' := AfterDequeue(s, hand[0].lane);
    assert MessagesFor(s'.history.event) == [] && ReportsFor(s'.history.event) == [];
    forall lane ensures LaneCoupled(t, s', hand[1..], lane) {
      assert LaneCoupled(t, s, hand, lane);
      DequeueLaneCoupled(t, s, hand, lane);
    }
  }

  /** Taking the first drained task into hand keeps everything and carries its attempt count. */
  lemma {:induction false} TakingKeepsInv(t: Tables, s: State, hand: seq<Task>)
    requires Inv(s) && s.inHand == map[] && Implements(t, s, hand) && hand != []
    ensures Fifo(s.waiting, hand[0].lane) != [] && Fifo(s.waiting, hand[0].lane)[0] == hand[0]
    ensures var s' := AfterDequeue(s, hand[0].lane);
            && Inv(s') && Implements(t, s', hand[1..])
            && s'.history == After(s.history, Dequeued(hand[0])) && s'.active == s.active
            && s'.inHand == map[hand[0].id := CarriedAttempts(t.meta, hand[0].id)]
            && |Fifo(s'.waiting, hand[0].lane)| < LANE_QUEUE_LIMIT
  {
    DequeueImplements(t, s, hand);
    assert |Fifo(s.waiting, hand[0].lane)| <= LANE_QUEUE_LIMIT;
    StepKeepsInv(s, Dequeue(hand[0].lane));
    assert OwnLane(Fifo(s.waiting, hand[0].lane)[0], hand[0].lane, s.home);
  }

  /** Taking an untracked task into hand. */
  lemma {:induction false} PickKeepsInv(t: Tables, s: State, x: Task, attempts: nat)
    requires Inv(s) && s.inHand == map[] && Implements(t, s, []) && !Tracked(s, x.id) && attempts <= MAX_RETRIES
    ensures var s' := s.(inHand := map[x.id := attempts]); Inv(s') && Implements(t, s', [])
  {
    var s' := s.(inHand := map[x.id := attempts]);
    StepKeepsInv(s, Pick(x, attempts));
    assert s.inHand[x.id := attempts] == s'.inHand;
    forall lane ensures LaneCoupled(t, s', [], lane) {
      assert LaneCoupled(t, s, [], lane);
    }
  }

  lemma {:induction false} CarriedIsBounded(s: State, id: TaskId)
    requires Inv(s)
    ensures CarriedAttempts(s.meta, id) <= MAX_RETRIES
  {
  }

  function IdsIn(q: map<LaneKey, seq<Task>>): set<TaskId> {
    set lane, i | lane in q && 0 <= i < |q[lane]| :: q[lane][i].id
  }

  lemma {:induction false} ListedAt(q: map<LaneKey, seq<Task>>, lane: LaneKey, i: nat)
    requires i < |Fifo(q, lane)|
    ensures Fifo(q, lane)[i].id in IdsIn(q)
  {
  }

  lemma {:induction false} HomePosition(s: State, id: TaskId) returns (i: nat)
    requires Inv(s) && id in s.home
    ensures i < |Fifo(s.waiting, s.home[id])| && Fifo(s.waiting, s.home[id])[i].id == id
  {
    i :| 0 <= i < |Fifo(s.waiting, s.home[id])| && Fifo(s.waiting, s.home[id])[i].id == id;
  }

  lemma {:induction false} HomeIsListed(t: Tables, s: State, id: TaskId)
    requires Inv(s) && Implements(t, s, []) && id in s.home
    ensures id in IdsIn(t.queue) || id in IdsIn(t.released)
  {
    hide Implements, Inv, IdsIn, Fifo;
    var lane := s.home[id];
    var i := HomePosition(s, id);
    WaitingIsListed(t, s, lane);
    var n := |Fifo(t.released, lane)|;
    if i < n {
      ListedAt(t.released, lane, i);
    } else {
      ListedAt(t.queue, lane, i - n);
    }
  }

  /** An id in none of the tables is not tracked. */
  lemma {:induction false} AbsentIsUntracked(t: Tables, s: State, id: TaskId)
    requires Inv(s) && s.inHand == map[] && Implements(t, s, [])
    requires id !in t.active && id !in IdsIn(t.queue) && id !in IdsIn(t.released)
    ensures !Tracked(s, id)
  {
    if id in s.home {
      HomeIsListed(t, s, id);
      assert false;
    }
  }

  lemma {:induction false} DispatchTracksOnly(s: State, t: Task, launch: Launch, now: real, id: TaskId)
    requires t.id in s.inHand && id != t.id && !Tracked(s, id)
    ensures !Tracked(AfterDispatch(s, t, launch, now), id)
  {
  }

  /** Sweeping keeps the protocol state. */
  lemma {:induction false} SweepImplements(t: Tables, t': Tables, s: State, now: real)
    requires Implements(t, s, [])
    requires t' == t.(released := t'.released, queue := t'.queue)
    requires forall lane :: Swept(t, t', now, lane)
    ensures Implements(t', s, [])
  {
    assert forall lane :: OnLane([], lane) == [];
    hide Swept, OnLane, Fifo;
    forall lane ensures LaneCoupled(t', s, [], lane) {
      assert LaneCoupled(t, s, [], lane) && Swept(t, t', now, lane);
      SweepKeepsLane(t, t', now, lane);
    }
  }

  /** A sweep moves the boundary between a lane's released and queued tasks, nothing else. */
  lemma {:induction false} SweepKeepsLane(t: Tables, t': Tables, now: real, lane: LaneKey)
    requires Swept(t, t', now, lane)
    ensures LaneTasks(t', lane) == LaneTasks(t, lane)
  {
  }

  lemma {:induction false} DrainImplements(t: Tables, s: State, drained: seq<Task>)
    requires Implements(t, s, [])
    requires forall lane :: OnLane(drained, lane) == Fifo(t.released, lane)
    ensures Implements(t.(released := map[]), s, drained)
  {
    forall lane ensures LaneCoupled(t.(released := map[]), s, drained, lane) {
      assert LaneCoupled(t, s, [], lane);
    }
  }

  /** Putting one more task in front, from the last to the first. */
  lemma {:induction false} PutBackOne(q: map<LaneKey, seq<Task>>, q0: map<LaneKey, seq<Task>>, leftover: seq<Task>, j: nat, lane: LaneKey)
    requires j < |leftover| && Fifo(q, lane) == OnLane(leftover[j + 1..], lane) + Fifo(q0, lane)
    ensures Fifo(q[leftover[j].lane := [leftover[j]] + Fifo(q, leftover[j].lane)], lane)
            == OnLane(leftover[j..], lane) + Fifo(q0, lane)
  {
    assert leftover[j..][1..] == leftover[j + 1..];
  }

  lemma {:induction false} PutBackImplements(t: Tables, s: State, hand: seq<Task>, queue: map<LaneKey, seq<Task>>)
    requires Implements(t, s, hand) && t.released == map[]
    requires forall lane :: Fifo(queue, lane) == OnLane(hand, lane) + Fifo(t.queue, lane)
    ensures Implements(t.(queue := queue), s, [])
  {
    forall lane ensures LaneCoupled(t.(queue := queue), s, [], lane) {
      assert LaneCoupled(t, s, hand, lane);
      assert Fifo(t.released, lane) == [];
      assert OnLane(hand, lane) + [] == OnLane(hand, lane);
    }
  }

  predicate LaneBusy(active: map<TaskId, Spawn>, lane: LaneKey) {
    exists id :: id in active && active[id].task.lane == lane
  }

  // --------------------------------------------------------- one sweep, per lane

  predicate Due(q: seq<Task>, meta: map<TaskId, Backoff>, now: real) {
    q != [] && (q[0].id in meta ==> meta[q[0].id].notBefore <= now)
  }

  /** A sweep moves the head of every idle lane whose backoff has passed, and nothing else. */
  ghost predicate Swept(t: Tables, t': Tables, now: real, lane: LaneKey) {
    var q := Fifo(t.queue, lane);
    if !LaneBusy(t.active, lane) && Due(q, t.meta, now)
    then Fifo(t'.released, lane) == Fifo(t.released, lane) + [q[0]] && Fifo(t'.queue, lane) == q[1..]
    else Fifo(t'.released, lane) == Fifo(t.released, lane) && Fifo(t'.queue, lane) == q
  }

  /** One lane while a sweep is under way; `todo` are the lanes it has not reached. */
  ghost predicate SweepAt(t: Tables, t': Tables, todo: set<LaneKey>, now: real, lane: LaneKey) {
    if lane in todo then Fifo(t'.queue, lane) == Fifo(t.queue, lane) && Fifo(t'.released, lane) == Fifo(t.released, lane)
    else Swept(t, t', now, lane)
  }

  /** Sweeping one lane leaves the others as they are. */
  ghost predicate SweptOnly(t: Tables, t': Tables, now: real, lane: LaneKey) {
    && t' == t.(queue := t'.queue, released := t'.released) && Swept(t, t', now, lane)
    && forall l :: l != lane ==> Fifo(t'.queue, l) == Fifo(t.queue, l) && Fifo(t'.released, l) == Fifo(t.released, l)
  }

  lemma {:induction false} SweepBegins(t: Tables, now: real)
    ensures forall lane :: SweepAt(t, t, t.queue.Keys, now, lane)
  {
  }

  lemma {:induction false} SweepStep(t0: Tables, t: Tables, t': Tables, todo: set<LaneKey>, now: real, lane: LaneKey)
    requires t == t0.(queue := t.queue, released := t.released) && lane in todo
    requires (forall l :: SweepAt(t0, t, todo, now, l)) && SweptOnly(t, t', now, lane)
    ensures forall l :: SweepAt(t0, t', todo - {lane}, now, l)
  {
    forall l ensures SweepAt(t0, t', todo - {lane}, now, l) {
      assert SweepAt(t0, t, todo, now, l);
    }
  }

  /** What dispatching the task in hand comes to. */
  ghost function AfterDispatch(s: State, t: Task, launch: Launch, now: real): State
    requires t.id in s.inHand
  {
    if t.lane != NoLane && launch.PlacedElsewhere? then AfterDrop(s, t, Misplaced)
    else if t.lane != NoLane && LaneBusy(s.active, t.lane) then AfterEnqueue(s, t, now)
    else if launch.CannotLaunch? then AfterDrop(s, t, LaunchFailed)
    else AfterStart(s, t)
  }

  /** The steps that resolving one finished spawn comes to. */
  ghost function ResolveSpawn(s: State, queue: map<LaneKey, seq<Task>>, id: TaskId,
                              o: Outcome, f: Facts, retryLimit: nat, now: real): State
    requires id in s.active && s.active[id].task.id == id
  {
    var spawn := s.active[id];
    if o == LaneBusyRefused && spawn.task.lane != NoLane && spawn.refusals < MAX_RETRIES
       && |Fifo(queue, spawn.task.lane)| < LANE_QUEUE_LIMIT
    then AfterEnqueue(AfterRefuse(s, id), spawn.task, now)
    else AfterEnd(s, id, Resolved(id, ExitFor(o, f, spawn.task.deliveries, retryLimit)))
  }

  /** Resolving a spawn keeps the invariant and removes exactly that spawn. */
  lemma {:induction false} ResolvingKeepsInv(s: State, queue: map<LaneKey, seq<Task>>, id: TaskId,
                            o: Outcome, f: Facts, retryLimit: nat, now: real)
    requires Inv(s) && id in s.active && s.inHand == map[]
    requires Fifo(s.waiting, s.active[id].task.lane) == Fifo(queue, s.active[id].task.lane)
    ensures s.active[id].task.id == id
    ensures var s' := ResolveSpawn(s, queue, id, o, f, retryLimit, now);
            Inv(s') && s'.inHand == map[] && s'.active == s.active - {id}
  {
    var s' := ResolveSpawn(s, queue, id, o, f, retryLimit, now);
    if s'.history.event.Enqueued? {
      StepKeepsInv(s, Refuse(id));
      StepKeepsInv(AfterRefuse(s, id), Enqueue(s.active[id].task, now));
    } else {
      StepKeepsInv(s, Resolve(id, s'.history.event.exit));
    }
  }

  /** No task but this one was started since. */
  ghost predicate StartsOnly(h: History, base: History, only: TaskId) {
    forall id :: id != only ==> Starts(h, id) == Starts(base, id)
  }

  /** Every task started since is one of these. */
  ghost predicate StartedAmong(h: History, base: History, ts: seq<Task>) {
    forall id :: Starts(h, id) != Starts(base, id) ==> HasId(ts, id)
  }

  lemma {:induction false} StartedAmongMore(h: History, mid: History, base: History, ts: seq<Task>, t: Task)
    requires StartedAmong(mid, base, ts) && StartsOnly(h, mid, t.id)
    ensures StartedAmong(h, base, ts + [t])
  {
    forall id | Starts(h, id) != Starts(base, id) ensures HasId(ts + [t], id) {
      if id == t.id {
        assert (ts + [t])[|ts|].id == id;
      } else {
        assert HasId(ts, id);
        var i :| 0 <= i < |ts| && ts[i].id == id;
        assert (ts + [t])[i].id == id;
      }
    }
  }

  lemma {:induction false} StartedNone(h: History)
    ensures StartedAmong(h, h, [])
  {
  }

  lemma {:induction false} StartedAmongLonger(h: History, base: History, ts: seq<Task>, n: nat)
    requires n < |ts| && StartedAmong(h, base, ts[..n])
    ensures StartedAmong(h, base, ts[..n + 1])
  {
  }

  lemma {:induction false} StartedAmongSame(h: History, mid: History, base: History, ts: seq<Task>)
    requires StartedAmong(mid, base, ts) && forall id :: Starts(h, id) == Starts(mid, id)
    ensures StartedAmong(h, base, ts)
  {
  }

  /** A dispatch adds one event, about its own task only. */
  lemma {:induction false} DispatchOnward(s: State, t: Task, launch: Launch, now: real)
    requires t.id in s.inHand
    ensures var s' := AfterDispatch(s, t, launch, now);
            && NoEnds(s'.history, s.history)
            && (Tracked(s', t.id) || DroppedSince(s'.history, s.history, t.id))
            && (JustTaken(s.history, t) || t.lane == NoLane || !LaneBusy(s.active, t.lane) ==>
                  Tries(s'.history) == Tries(s.history) + 1)
            && StartsOnly(s'.history, s.history, t.id)
  {
    var h := AfterDispatch(s, t, launch, now).history;
    assert h.After? && h.past == s.history && NoEnds(h.past, s.history);
    assert Length(h) == Length(s.history) + 1;
  }

  lemma {:induction false} DispatchKeepsTracked(s: State, t: Task, launch: Launch, now: real)
    requires t.id in s.inHand
    ensures var s' := AfterDispatch(s, t, launch, now); forall id :: Tracked(s, id) && id != t.id ==> Tracked(s', id)
  {
  }

  lemma {:induction false} ResolvingStartsNone(s: State, queue: map<LaneKey, seq<Task>>, id: TaskId,
                         o: Outcome, f: Facts, retryLimit: nat, now: real)
    requires id in s.active && s.active[id].task.id == id
    ensures NoStarts(ResolveSpawn(s, queue, id, o, f, retryLimit, now).history, s.history)
  {
  }

  lemma {:induction false} SpawnsAreExclusive(s: State)
    requires Inv(s)
    ensures LaneExclusive(s.active)
  {
  }

  /** Ending one spawn: its newest end is that event, and the others keep theirs. */
  lemma {:induction false} EndIsNewest(s: State, id: TaskId, e: Event)
    requires Ends(e, id)
    ensures var h := AfterEnd(s, id, e).history; LastEnd(h, id) == Some(e) && OthersEndAsBefore(s.history, h, id)
  {
  }

  /** No spawn but this one came to an end. */
  ghost predicate OthersEndAsBefore(h: History, h': History, id: TaskId) {
    forall x :: x != id ==> LastEnd(h', x) == LastEnd(h, x)
  }

  /** The queues behind the other spawns are as they were. */
  ghost predicate OthersWaitAsBefore(s: State, s': State, id: TaskId) {
    forall x :: x in s.active && x != id ==> Fifo(s'.waiting, s.active[x].task.lane) == Fifo(s.waiting, s.active[x].task.lane)
  }

  lemma {:induction false} RefusalIsNewest(s: State, id: TaskId, now: real)
    requires id in s.active && s.active[id].task.id == id && LaneExclusive(s.active) && s.active[id].task.lane != NoLane
    ensures var spawn := s.active[id];
            var s' := AfterEnqueue(AfterRefuse(s, id), spawn.task, now);
            && LastEnd(s'.history, id) == Some(Refused(id, spawn.task.lane, spawn.refusals + 1))
            && OthersEndAsBefore(s.history, s'.history, id) && OthersWaitAsBefore(s, s', id)
  {
  }

  /** Resolving what the reap judged ends that spawn with the event its facts call for, and neither
      ends another spawn nor touches the queue behind one. */
  lemma {:induction false} ResolvingEndsRight(s: State, queue: map<LaneKey, seq<Task>>, id: TaskId, f: Facts, limit: nat, now: real)
    requires id in s.active && s.active[id].task.id == id && Judge(f, s.active[id].task.lane).Some? && LaneExclusive(s.active)
    ensures var spawn := s.active[id];
            var s' := ResolveSpawn(s, queue, id, Judge(f, spawn.task.lane).value, f, limit, now);
            && LastEnd(s'.history, id).Some?
            && RightEnd(f, spawn, |Fifo(queue, spawn.task.lane)| < LANE_QUEUE_LIMIT, limit, id, LastEnd(s'.history, id).value)
            && OthersEndAsBefore(s.history, s'.history, id) && OthersWaitAsBefore(s, s', id)
  {
    hide AfterEnqueue, AfterRefuse, OthersEndAsBefore, LastEnd, LaneExclusive, RightEnd, Judge, ExitFor;
    var spawn := s.active[id];
    JudgedEndIsRight(f, spawn, |Fifo(queue, spawn.task.lane)| < LANE_QUEUE_LIMIT, limit, id);
    if spawn.task.lane != NoLane {
      RefusalIsNewest(s, id, now);
    }
    EndIsNewest(s, id, Resolved(id, ExitFor(Judge(f, spawn.task.lane).value, f, spawn.task.deliveries, limit)));
  }

  // ------------------------------------------------------------- what a reap leaves alone

  /** A reap only takes spawns away: nothing comes to be held, and where no spawn ran neither the lane's
      queue nor the backoffs change. */
  ghost predicate ReapFrame(s: State, s': State) {
    && (forall id :: id in s'.active ==> id in s.active && s'.active[id] == s.active[id])
    && (forall id :: Tracked(s', id) ==> Tracked(s, id))
    && (forall lane :: !LaneBusy(s.active, lane) ==> Fifo(s'.waiting, lane) == Fifo(s.waiting, lane))
    && (forall id :: id !in s.active ==> SameBackoff(s.meta, s'.meta, id))
  }

  ghost predicate SameBackoff(m: map<TaskId, Backoff>, m': map<TaskId, Backoff>, id: TaskId) {
    (id in m' <==> id in m) && (id in m' ==> m'[id] == m[id])
  }

  lemma {:induction false} ReapFrameStarts(s: State)
    ensures ReapFrame(s, s)
  {
  }

  lemma {:induction false} ReapFrameTransitive(s: State, s': State, s'': State)
    requires ReapFrame(s, s') && ReapFrame(s', s'')
    ensures ReapFrame(s, s'')
  {
    hide Tracked, Fifo;
    forall lane | !LaneBusy(s.active, lane) ensures Fifo(s''.waiting, lane) == Fifo(s.waiting, lane) {
      assert !LaneBusy(s'.active, lane);
    }
    forall id | id !in s.active ensures SameBackoff(s.meta, s''.meta, id) {
      assert SameBackoff(s.meta, s'.meta, id) && SameBackoff(s'.meta, s''.meta, id);
    }
  }

  lemma {:induction false} EndFrame(s: State, id: TaskId, e: Event)
    requires id in s.active
    ensures ReapFrame(s, AfterEnd(s, id, e))
  {
  }

  lemma {:induction false} RefusalFrame(s: State, id: TaskId, now: real)
    requires id in s.active && s.active[id].task.id == id
    ensures ReapFrame(s, AfterEnqueue(AfterRefuse(s, id), s.active[id].task, now))
  {
    var s' := AfterEnqueue(AfterRefuse(s, id), s.active[id].task, now);
    forall lane | !LaneBusy(s.active, lane) ensures Fifo(s'.waiting, lane) == Fifo(s.waiting, lane) {
      assert s.active[id].task.lane != lane;
    }
  }

  lemma {:induction false} ResolvingFrame(s: State, queue: map<LaneKey, seq<Task>>, id: TaskId, o: Outcome, f: Facts, limit: nat, now: real)
    requires id in s.active && s.active[id].task.id == id
    ensures ReapFrame(s, ResolveSpawn(s, queue, id, o, f, limit, now))
  {
    hide ReapFrame, AfterEnd, AfterRefuse, AfterEnqueue;
    RefusedInHand(s, id);
    RefusalFrame(s, id, now);
    EndFrame(s, id, Resolved(id, ExitFor(o, f, s.active[id].task.deliveries, limit)));
  }

  // ------------------------------------------------ what the tables always satisfy

  /** Each task id is in at most one of the active, queued and released tables, and there once. */
  ghost predicate TrackedOnce(t: Tables) {
    && (forall lane :: DistinctIds(LaneTasks(t, lane)))
    && (forall l, m, i, j :: l != m && 0 <= i < |LaneTasks(t, l)| && 0 <= j < |LaneTasks(t, m)| ==>
          LaneTasks(t, l)[i].id != LaneTasks(t, m)[j].id)
    && (forall l, i :: 0 <= i < |LaneTasks(t, l)| ==> LaneTasks(t, l)[i].id !in t.active)
  }

  lemma {:induction false} LedgerOf(t: Tables, s: State, id: TaskId, lane: LaneKey)
    requires Inv(s) && Implements(t, s, [])
    ensures Starts(s.history, id) == Outcomes(s.history, id) + if id in t.active then 1 else 0
    ensures Enqueues(s.history, lane) == Dequeues(s.history, lane) + LaneTasks(t, lane)
  {
    hide HeldOnce, LaneExclusive, RetriesBounded, LaneTasks;
    WaitingIsListed(t, s, lane);
    FifoLawOf(s, lane);
  }

  lemma {:induction false} UntakenIs(h: History, lane: LaneKey, rest: seq<Task>)
    requires Enqueues(h, lane) == Dequeues(h, lane) + rest
    ensures Untaken(h, lane) == rest
  {
    hide Enqueues, Dequeues;
    DropPrefix(Dequeues(h, lane), rest);
  }

  lemma {:induction false} DropPrefix(a: seq<Task>, b: seq<Task>)
    ensures (a + b)[|a|..] == b
  {
  }

  /** Between polls a lane's account says: what reached it was served, or waits in its tables. */
  lemma {:induction false} LaneAccount(t: Tables, s: State, lane: LaneKey)
    requires Inv(s) && Implements(t, s, []) && Settled(s.history) && Accounted(s.history, lane)
    ensures Arrivals(s.history, lane) == TasksOf(Served(s.history, lane)) + LaneTasks(t, lane)
  {
    hide Inv, Implements, LaneTasks, Arrivals, Served, TasksOf, Enqueues, Dequeues, Untaken;
    LedgerOf(t, s, TaskId(""), lane);
    UntakenIs(s.history, lane, LaneTasks(t, lane));
    assert Taken(s.history, lane) == [];
  }

  lemma {:induction false} TablesTrackOnce(t: Tables, s: State)
    requires Inv(s) && Implements(t, s, [])
    ensures LaneExclusive(t.active) && TrackedOnce(t)
  {
    hide LaneTasks;
    forall lane ensures LaneTasks(t, lane) == Fifo(s.waiting, lane) && DistinctIds(LaneTasks(t, lane)) {
      WaitingIsListed(t, s, lane);
    }
    forall l, i | 0 <= i < |LaneTasks(t, l)| ensures OwnLane(LaneTasks(t, l)[i], l, s.home) {
      assert LaneTasks(t, l) == Fifo(s.waiting, l);
    }
  }

  // ------------------------------------------------------------ serving order

  /** No delivery waiting on the lane has a backoff still to run. */
  ghost predicate LaneCalm(s: State, lane: LaneKey, at: real) {
    forall i :: 0 <= i < |Fifo(s.waiting, lane)| ==> Free(s.meta, Fifo(s.waiting, lane)[i].id, at)
  }

  ghost predicate Free(meta: map<TaskId, Backoff>, id: TaskId, at: real) {
    id in meta ==> meta[id].notBefore <= at
  }

  ghost predicate Settled(h: History) {
    h.After? ==> !h.event.Dequeued? && !h.event.Refused?
  }

  /** What was just taken or refused is settled by the next event. */
  ghost predicate Follows(h: History, e: Event) {
    && (h.After? && h.event.Dequeued? ==> Settles(e, h.event.task))
    && (h.After? && h.event.Refused? ==> e.Enqueued? && e.task.id == h.event.id && e.attempts == h.event.attempts)
    && (e.Enqueued? ==> QueueJustified(h, e.task, e.attempts))
  }

  /** A lane that never had a refusal has nothing backing off and nothing overtaken. */
  ghost predicate LaneOrderly(at: real, s: State, lane: LaneKey) {
    NoRefusalsOn(s.history, lane) ==> LaneCalm(s, lane, at) && NeverOvertaken(s.history, lane)
  }

  /** With one slot no task is ever put back behind its lane; with a steady clock every lane without
      refusals is served in order, whatever happens on the others. */
  ghost predicate Orderly(slots: int, steady: bool, at: real, s: State) {
    && Traceable(s.history) && Justified(s.history)
    && (slots <= 1 ==> NeverBounced(s.history))
    && (slots <= 1 && steady ==> forall lane :: LaneOrderly(at, s, lane))
  }

  lemma {:induction false} FifoLawOf(s: State, lane: LaneKey)
    requires Inv(s)
    ensures Enqueues(s.history, lane) == Dequeues(s.history, lane) + Fifo(s.waiting, lane)
  {
  }

  /** One event keeps one lane's order. */
  lemma {:induction false} EventKeepsLane(at: real, s: State, s': State, e: Event, lane: LaneKey)
    requires LaneOrderly(at, s, lane) && s'.history == After(s.history, e)
    requires NoRefusalsOn(s'.history, lane) && LaneCalm(s, lane, at) ==> LaneCalm(s', lane, at)
    requires e.Started? && e.task.lane == lane && !JustTaken(s.history, e.task) && NoRefusalsOn(s.history, lane)
             ==> Enqueues(s.history, lane) == Dequeues(s.history, lane)
    ensures LaneOrderly(at, s', lane)
  {
    hide LaneCalm, Enqueues, Dequeues;
  }

  lemma {:induction false} EventKeepsOrderly(slots: int, steady: bool, at: real, s: State, s': State, e: Event)
    requires Orderly(slots, steady, at, s) && s'.history == After(s.history, e)
    requires e.Dequeued? ==> HeadOf(s.history, e.task)
    requires Follows(s.history, e)
    requires slots <= 1 && e.Enqueued? ==> !JustTaken(s.history, e.task)
    requires slots <= 1 && steady ==>
               forall lane :: NoRefusalsOn(s'.history, lane) && LaneCalm(s, lane, at) ==> LaneCalm(s', lane, at)
    requires slots <= 1 && steady && e.Started? && !JustTaken(s.history, e.task) && NoRefusalsOn(s.history, e.task.lane)
             ==> Enqueues(s.history, e.task.lane) == Dequeues(s.history, e.task.lane)
    ensures Orderly(slots, steady, at, s')
  {
    hide LaneOrderly, LaneCalm, Enqueues, Dequeues, NoRefusalsOn;
    if slots <= 1 && steady {
      forall lane ensures LaneOrderly(at, s', lane) {
        EventKeepsLane(at, s, s', e, lane);
      }
    }
  }

  /** Where neither the queues nor the backoffs of waiting deliveries change, calm stays. */
  lemma {:induction false} CalmUntouched(s: State, s': State, at: real)
    requires s'.waiting == s.waiting && s'.meta.Keys <= s.meta.Keys && forall id :: id in s'.meta ==> s'.meta[id] == s.meta[id]
    ensures forall lane :: LaneCalm(s, lane, at) ==> LaneCalm(s', lane, at)
  {
  }

  /** A delivery that joins a queue without a backoff leaves every lane calm; one with a backoff all
      lanes but its own. */
  lemma {:induction false} EnqueueCalm(s: State, t: Task, at: real, lane: LaneKey)
    requires Inv(s) && t.id in s.inHand && LaneCalm(s, lane, at) && (s.inHand[t.id] == 0 || t.lane != lane)
    ensures LaneCalm(AfterEnqueue(s, t, at), lane, at)
  {
    hide Inv;
    var s' := AfterEnqueue(s, t, at);
    forall i | 0 <= i < |Fifo(s'.waiting, lane)| ensures Free(s'.meta, Fifo(s'.waiting, lane)[i].id, at) {
      if i < |Fifo(s.waiting, lane)| {
        WaitingIsNotInHand(s, lane, i);
        assert Free(s.meta, Fifo(s.waiting, lane)[i].id, at);
      }
    }
  }

  lemma {:induction false} WaitingIsNotInHand(s: State, lane: LaneKey, i: nat)
    requires Inv(s) && i < |Fifo(s.waiting, lane)|
    ensures var id := Fifo(s.waiting, lane)[i].id; id !in s.inHand && id !in s.active
  {
    assert OwnLane(Fifo(s.waiting, lane)[i], lane, s.home);
  }

  /** Dispatching keeps the serving order: a task off the FIFO, or one nobody waits before. */
  lemma {:induction false} DispatchKeepsOrderly(slots: int, steady: bool, at: real, s: State, t: Task, launch: Launch)
    requires Orderly(slots, steady, at, s) && Inv(s) && t.id in s.inHand
    requires JustTaken(s.history, t) || (Settled(s.history) && (t.lane == NoLane || !LaneBusy(s.active, t.lane)))
    requires slots <= 1 ==> s.active == map[]
    requires slots <= 1 && steady && NoRefusalsOn(s.history, t.lane) ==>
               JustTaken(s.history, t) || Fifo(s.waiting, t.lane) == []
    ensures var s' := AfterDispatch(s, t, launch, at);
            Orderly(slots, steady, at, s') && Settled(s'.history) && |s'.active| <= |s.active| + 1
  {
    hide Inv, Orderly, NoRefusalsOn, Enqueues, Dequeues, LaneCalm, Follows, AfterDispatch, LaneBusy, HeadOf;
    FifoLawOf(s, t.lane);
    DispatchFollows(s, t, launch, at);
    DispatchShape(s, t, launch, at);
    var s' := AfterDispatch(s, t, launch, at);
    if slots <= 1 {
      CalmUntouched(s, s', at);
    }
    EventKeepsOrderly(slots, steady, at, s, s', s'.history.event);
  }

  lemma {:induction false} DispatchShape(s: State, t: Task, launch: Launch, at: real)
    requires t.id in s.inHand
    ensures var s' := AfterDispatch(s, t, launch, at);
            && s'.history.After? && s'.history.past == s.history && |s'.active| <= |s.active| + 1
            && (s'.history.event.Started? || s'.history.event.Enqueued? || s'.history.event.Dropped?)
            && (s'.history.event.Started? || s'.history.event.Enqueued? ==> s'.history.event.task == t)
            && (s.active == map[] ==> !s'.history.event.Enqueued? && s'.waiting == s.waiting && s'.meta == s.meta)
  {
    hide Delay;
  }

  lemma {:induction false} DispatchFollows(s: State, t: Task, launch: Launch, at: real)
    requires Inv(s) && t.id in s.inHand
    requires JustTaken(s.history, t) || (Settled(s.history) && (t.lane == NoLane || !LaneBusy(s.active, t.lane)))
    ensures Follows(s.history, AfterDispatch(s, t, launch, at).history.event)
  {
    HandIsBounded(s, t.id);
    hide Inv;
  }

  lemma {:induction false} HandIsBounded(s: State, id: TaskId)
    requires Inv(s) && id in s.inHand
    ensures s.inHand[id] <= MAX_RETRIES
  {
    assert Attempts(s, id) <= MAX_RETRIES;
  }

  lemma {:induction false} TakingKeepsOrderly(slots: int, steady: bool, at: real, s: State, t: Task)
    requires Orderly(slots, steady, at, s) && Settled(s.history) && Inv(s)
    requires Fifo(s.waiting, t.lane) != [] && Fifo(s.waiting, t.lane)[0] == t
    ensures Orderly(slots, steady, at, AfterDequeue(s, t.lane)) && JustTaken(AfterDequeue(s, t.lane).history, t)
  {
    hide Inv, Orderly, NoRefusalsOn;
    var s' := AfterDequeue(s, t.lane);
    FifoLawOf(s, t.lane);
    forall lane ensures LaneCalm(s, lane, at) ==> LaneCalm(s', lane, at) {
      DequeueCalm(s, t.lane, at, lane);
    }
    EventKeepsOrderly(slots, steady, at, s, s', Dequeued(t));
  }

  lemma {:induction false} DequeueCalm(s: State, from: LaneKey, at: real, lane: LaneKey)
    requires Fifo(s.waiting, from) != []
    ensures LaneCalm(s, lane, at) ==> LaneCalm(AfterDequeue(s, from), lane, at)
  {
    var s' := AfterDequeue(s, from);
    if LaneCalm(s, lane, at) {
      forall i | 0 <= i < |Fifo(s'.waiting, lane)| ensures Free(s'.meta, Fifo(s'.waiting, lane)[i].id, at) {
        var k := if lane == from then i + 1 else i;
        assert Fifo(s'.waiting, lane)[i] == Fifo(s.waiting, lane)[k] && Free(s.meta, Fifo(s.waiting, lane)[k].id, at);
      }
    }
  }

  lemma {:induction false} DispatchEmptiesHand(s: State, t: Task, launch: Launch, now: real)
    requires t.id in s.inHand && s.inHand == map[t.id := s.inHand[t.id]]
    ensures AfterDispatch(s, t, launch, now).inHand == map[]
  {
  }

  lemma {:induction false} EnqueueEmptiesHand(s: State, t: Task, now: real)
    requires s.inHand == map[]
    ensures var s' := AfterEnqueue(s.(inHand := map[t.id := 0]), t, now);
            && s'.inHand == map[] && NoEnds(s'.history, s.history) && Tracked(s', t.id)
            && (Settled(s.history) ==> Tries(s'.history) == Tries(s.history))
            && (forall id :: Starts(s'.history, id) == Starts(s.history, id))
            && (forall id :: Tracked(s, id) ==> Tracked(s', id))
            && forall id :: id != t.id && !Tracked(s, id) ==> !Tracked(s', id)
  {
  }

  /** So does queueing a task that did not come off the FIFO. */
  lemma {:induction false} QueueingKeepsOrderly(slots: int, steady: bool, at: real, s: State, t: Task)
    requires Orderly(slots, steady, at, s) && Settled(s.history) && Inv(s)
    requires t.id in s.inHand && s.inHand[t.id] == 0
    ensures Orderly(slots, steady, at, AfterEnqueue(s, t, at)) && Settled(AfterEnqueue(s, t, at).history)
  {
    hide Inv, Orderly, LaneCalm;
    var s' := AfterEnqueue(s, t, at);
    forall lane ensures LaneCalm(s, lane, at) ==> LaneCalm(s', lane, at) {
      if LaneCalm(s, lane, at) {
        EnqueueCalm(s, t, at, lane);
      }
    }
    EventKeepsOrderly(slots, steady, at, s, s', Enqueued(t, 0));
  }

  lemma {:induction false} EndingKeepsOrderly(slots: int, steady: bool, at: real, s: State, id: TaskId, e: Event)
    requires Orderly(slots, steady, at, s) && Settled(s.history) && (e.Resolved? || e.Cancelled?)
    ensures var s' := AfterEnd(s, id, e); Orderly(slots, steady, at, s') && Settled(s'.history)
  {
    hide Orderly, LaneCalm;
    CalmUntouched(s, AfterEnd(s, id, e), at);
    EventKeepsOrderly(slots, steady, at, s, AfterEnd(s, id, e), e);
  }

  lemma {:induction false} RefusingKeepsOrderly(slots: int, steady: bool, at: real, s: State, id: TaskId)
    requires Orderly(slots, steady, at, s) && Settled(s.history) && Inv(s)
    requires id in s.active && s.active[id].task.id == id && s.active[id].refusals < MAX_RETRIES
    ensures var s' := AfterEnqueue(AfterRefuse(s, id), s.active[id].task, at);
            Orderly(slots, steady, at, s') && Settled(s'.history)
  {
    hide Inv, Orderly, LaneCalm;
    var mid := AfterRefuse(s, id);
    var t := s.active[id].task;
    var s' := AfterEnqueue(mid, t, at);
    StepKeepsInv(s, Refuse(id));
    CalmUntouched(s, mid, at);
    EventKeepsOrderly(slots, steady, at, s, mid, mid.history.event);
    forall lane ensures NoRefusalsOn(s'.history, lane) && LaneCalm(mid, lane, at) ==> LaneCalm(s', lane, at) {
      if NoRefusalsOn(s'.history, lane) && LaneCalm(mid, lane, at) {
        assert NoRefusalsOn(mid.history, lane) && t.lane != lane;
        EnqueueCalm(mid, t, at, lane);
      }
    }
    EventKeepsOrderly(slots, steady, at, mid, s', s'.history.event);
  }

  lemma {:induction false} ResolvingKeepsOrderly(slots: int, steady: bool, at: real, s: State,
                                queue: map<LaneKey, seq<Task>>, id: TaskId, o: Outcome, f: Facts, limit: nat)
    requires Orderly(slots, steady, at, s) && Settled(s.history) && Inv(s)
    requires id in s.active && s.active[id].task.id == id
    ensures var s' := ResolveSpawn(s, queue, id, o, f, limit, at);
            Orderly(slots, steady, at, s') && Settled(s'.history)
  {
    hide Inv, Orderly;
    var s' := ResolveSpawn(s, queue, id, o, f, limit, at);
    if s'.history.event.Enqueued? {
      RefusingKeepsOrderly(slots, steady, at, s, id);
    } else {
      EndingKeepsOrderly(slots, steady, at, s, id, s'.history.event);
    }
  }

  /** What is in hand does not matter for the order. */
  lemma {:induction false} PickingKeepsOrderly(slots: int, steady: bool, at: real, s: State, hand: map<TaskId, nat>)
    requires Orderly(slots, steady, at, s)
    ensures Orderly(slots, steady, at, s.(inHand := hand))
  {
    if slots <= 1 && steady {
      forall lane ensures LaneOrderly(at, s.(inHand := hand), lane) {
        assert LaneOrderly(at, s, lane);
      }
    }
  }

  /** A later reading of a clock that has never run backwards. */
  lemma {:induction false} ClockKeepsOrderly(slots: int, steady: bool, at: real, s: State, now: real)
    requires Orderly(slots, steady, at, s)
    ensures Orderly(slots, steady && at <= now, now, s)
  {
    if slots <= 1 && steady && at <= now {
      forall lane ensures LaneOrderly(now, s, lane) {
        assert LaneOrderly(at, s, lane);
      }
    }
  }

  /** After a sweep of idle lanes with nothing backing off, a lane still queueing has released. */
  lemma {:induction false} SweptClean(t: Tables, t': Tables, now: real, lane: LaneKey)
    requires Swept(t, t', now, lane) && t.active == map[]
    requires Fifo(t.queue, lane) != [] ==> Free(t.meta, Fifo(t.queue, lane)[0].id, now)
    ensures Fifo(t'.released, lane) == [] ==> Fifo(t'.queue, lane) == []
  {
  }

  /** In a calm lane the head of the queue is free to go. */
  lemma {:induction false} CalmHead(t: Tables, s: State, lane: LaneKey, at: real)
    requires Implements(t, s, []) && LaneCalm(s, lane, at) && Fifo(t.queue, lane) != []
    ensures Free(t.meta, Fifo(t.queue, lane)[0].id, at)
  {
    WaitingIsListed(t, s, lane);
    var n := |Fifo(t.released, lane)|;
    assert Fifo(s.waiting, lane)[n] == Fifo(t.queue, lane)[0];
    assert Free(s.meta, Fifo(s.waiting, lane)[n].id, at);
  }

  // --------------------------------------------------------------- room in the queues

  /** Only lanes without a delivery in flight have released heads. */
  ghost predicate ReleasedIdle(t: Tables) {
    forall lane :: Fifo(t.released, lane) != [] ==> !LaneBusy(t.active, lane)
  }

  lemma {:induction false} SweepKeepsIdle(t: Tables, t': Tables, now: real)
    requires ReleasedIdle(t) && t' == t.(queue := t'.queue, released := t'.released) && forall lane :: Swept(t, t', now, lane)
    ensures ReleasedIdle(t')
  {
    forall lane | Fifo(t'.released, lane) != [] ensures !LaneBusy(t'.active, lane) {
      assert Swept(t, t', now, lane);
    }
  }

  lemma {:induction false} FewerSpawnsKeepIdle(t: Tables, t': Tables)
    requires ReleasedIdle(t) && t'.released == t.released
    requires forall id :: id in t'.active ==> id in t.active && t'.active[id] == t.active[id]
    ensures ReleasedIdle(t')
  {
    forall lane | Fifo(t'.released, lane) != [] ensures !LaneBusy(t'.active, lane) {
      assert !LaneBusy(t.active, lane);
    }
  }

  /** With nothing released a lane's FIFO is its queue. */
  lemma {:induction false} QueueIsFifo(t: Tables, s: State, lane: LaneKey)
    requires Implements(t, s, []) && Fifo(t.released, lane) == []
    ensures Fifo(s.waiting, lane) == Fifo(t.queue, lane)
  {
    WaitingIsListed(t, s, lane);
  }

  /** The queue is never longer than the lane's FIFO. */
  lemma {:induction false} QueueFits(t: Tables, s: State, hand: seq<Task>, lane: LaneKey)
    requires Implements(t, s, hand)
    ensures |Fifo(t.queue, lane)| <= |Fifo(s.waiting, lane)|
  {
    assert LaneCoupled(t, s, hand, lane);
  }

  lemma {:induction false} NothingWaits(t: Tables, s: State, lane: LaneKey)
    requires Implements(t, s, []) && Fifo(t.released, lane) == [] && Fifo(t.queue, lane) == []
    ensures Fifo(s.waiting, lane) == []
  {
    assert LaneCoupled(t, s, [], lane);
  }

  // ------------------------------------------------------------ lanes that may go on

  /** The lane has nothing in flight, and its first delivery is released or its backoff has passed. */
  ghost predicate ReadyLane(t: Tables, now: real, lane: LaneKey) {
    && (forall id :: id in t.active ==> t.active[id].task.lane != lane)
    && (|| Fifo(t.released, lane) != []
        || (Fifo(t.queue, lane) != [] && var id := Fifo(t.queue, lane)[0].id; id in t.meta ==> t.meta[id].notBefore <= now))
  }

  /** After a reap and a sweep the first delivery of every such lane is the first released one. */
  lemma {:induction false} ReadyIsReleased(t: Tables, s: State, t': Tables, s': State, t'': Tables, now: real, lane: LaneKey)
    requires Inv(s) && Implements(t, s, []) && Implements(t', s', []) && ReapFrame(s, s') && t'.released == t.released
    requires Swept(t', t'', now, lane) && ReadyLane(t, now, lane)
    ensures LaneTasks(t, lane) != [] && Fifo(t''.released, lane) != [] && Fifo(t''.released, lane)[0] == LaneTasks(t, lane)[0]
  {
    hide Inv, Implements, Tracked;
    SameSpawnsAndBackoffs(t, s, []);
    SameSpawnsAndBackoffs(t', s', []);
    WaitingIsListed(t, s, lane);
    WaitingIsListed(t', s', lane);
    assert !LaneBusy(s.active, lane) && !LaneBusy(s'.active, lane);
    SameTail(Fifo(t.released, lane), Fifo(t.queue, lane), Fifo(t'.queue, lane));
    if Fifo(t.queue, lane) != [] {
      var n := |Fifo(t.released, lane)|;
      assert Fifo(s.waiting, lane)[n] == Fifo(t.queue, lane)[0];
      WaitingIsNotInHand(s, lane, n);
      assert SameBackoff(s.meta, s'.meta, Fifo(t.queue, lane)[0].id);
    }
  }

  lemma {:induction false} SameTail(a: seq<Task>, b: seq<Task>, c: seq<Task>)
    requires a + b == a + c
    ensures b == c
  {
    assert b == (a + b)[|a|..] && c == (a + c)[|a|..];
  }

  /** What was drained and is not left over has been taken off the lanes, in order; nothing came to be held. */
  ghost predicate ServedOff(s: State, s': State, ready: seq<Task>, leftover: seq<Task>) {
    && (forall id :: Tracked(s', id) ==> Tracked(s, id))
    && (forall lane :: ServedOffLane(s.history, s'.history, ready, leftover, lane))
  }

  ghost predicate ServedOffLane(h: History, h': History, ready: seq<Task>, leftover: seq<Task>, lane: LaneKey) {
    Dequeues(h', lane) + OnLane(leftover, lane) == Dequeues(h, lane) + OnLane(ready, lane)
  }

  lemma {:induction false} ServedOffStarts(s: State, ready: seq<Task>)
    ensures ServedOff(s, s, ready, ready)
  {
  }

  lemma {:induction false} ServedOffTransitive(s: State, s': State, s'': State, a: seq<Task>, b: seq<Task>, c: seq<Task>)
    requires ServedOff(s, s', a, b) && ServedOff(s', s'', b, c)
    ensures ServedOff(s, s'', a, c)
  {
    hide Tracked, Dequeues, OnLane;
    forall lane ensures ServedOffLane(s.history, s''.history, a, c, lane) {
      assert ServedOffLane(s.history, s'.history, a, b, lane) && ServedOffLane(s'.history, s''.history, b, c, lane);
    }
  }

  /** Taking the first drained delivery in hand and dispatching it serves its lane that delivery. */
  lemma {:induction false} DispatchServes(t: Tables, s: State, hand: seq<Task>, launch: Launch, now: real)
    requires Inv(s) && s.inHand == map[] && Implements(t, s, hand) && hand != []
    requires Fifo(s.waiting, hand[0].lane) != [] && hand[0].id in AfterDequeue(s, hand[0].lane).inHand
    ensures ServedOff(s, AfterDispatch(AfterDequeue(s, hand[0].lane), hand[0], launch, now), hand, hand[1..])
  {
    hide Inv, Implements, Tracked, AfterDispatch, AfterDequeue;
    TakingKeepsInv(t, s, hand);
    var mid := AfterDequeue(s, hand[0].lane);
    var s' := AfterDispatch(mid, hand[0], launch, now);
    DispatchServesNone(mid, hand[0], launch, now);
    forall id | Tracked(s', id) ensures Tracked(s, id) {
      TrackedAfter(s, Dequeue(hand[0].lane), id);
      if !Tracked(mid, id) {
        InHandIsTracked(mid, hand[0].id);
        DispatchTracksOnly(mid, hand[0], launch, now, id);
        assert false;
      }
    }
    forall lane ensures ServedOffLane(s.history, s'.history, hand, hand[1..], lane) {
      assert Dequeues(s'.history, lane) == Dequeues(mid.history, lane);
      assert Dequeues(mid.history, lane) == Dequeues(s.history, lane) + if hand[0].lane == lane then [hand[0]] else [];
      Shift(Dequeues(s.history, lane), hand[0], OnLane(hand[1..], lane));
    }
  }

  /** All that taking the first drained delivery and dispatching it keeps and adds. */
  lemma {:induction false} TakeAndDispatch(slots: int, steady: bool, at: real, t: Tables, s: State, hand: seq<Task>, launch: Launch)
    requires Inv(s) && s.inHand == map[] && Implements(t, s, hand) && hand != []
    requires Orderly(slots, steady, at, s) && Settled(s.history) && (slots <= 1 ==> s.active == map[])
    ensures Fifo(s.waiting, hand[0].lane) != []
    ensures var mid := AfterDequeue(s, hand[0].lane);
            && Inv(mid) && Implements(t, mid, hand[1..]) && mid.active == s.active
            && mid.inHand == map[hand[0].id := CarriedAttempts(t.meta, hand[0].id)]
            && |Fifo(mid.waiting, hand[0].lane)| < LANE_QUEUE_LIMIT
            && var s' := AfterDispatch(mid, hand[0], launch, at);
               && s'.inHand == map[] && Orderly(slots, steady, at, s') && Settled(s'.history) && |s'.active| <= |s.active| + 1
               && NoEnds(s'.history, s.history) && Tries(s'.history) == Tries(s.history) + 1
               && ServedOff(s, s', hand, hand[1..])
  {
    hide Inv, Implements, Orderly, AfterDispatch, AfterDequeue, JustTaken, ServedOff, NoEnds, Fifo;
    TakingKeepsInv(t, s, hand);
    TakingKeepsOrderly(slots, steady, at, s, hand[0]);
    var mid := AfterDequeue(s, hand[0].lane);
    var s' := AfterDispatch(mid, hand[0], launch, at);
    DispatchServes(t, s, hand, launch, at);
    DispatchKeepsOrderly(slots, steady, at, mid, hand[0], launch);
    DispatchEmptiesHand(mid, hand[0], launch, at);
    DispatchOnward(mid, hand[0], launch, at);
    TakingEndsNone(s.history, hand[0]);
    NoEndsTransitive(s'.history, mid.history, s.history);
  }

  lemma {:induction false} TakingEndsNone(h: History, t: Task)
    ensures NoEnds(After(h, Dequeued(t)), h) && Tries(After(h, Dequeued(t))) == Tries(h)
  {
    assert NoEnds(h, h);
  }

  lemma {:induction false} Shift(a: seq<Task>, x: Task, b: seq<Task>)
    ensures a + [x] + b == a + ([x] + b) && a + [] + b == a + b
  {
  }

  lemma {:induction false} InHandIsTracked(s: State, id: TaskId)
    requires id in s.inHand
    ensures Tracked(s, id)
  {
  }

  lemma {:induction false} DispatchServesNone(s: State, t: Task, launch: Launch, now: real)
    requires t.id in s.inHand
    ensures forall lane :: Dequeues(AfterDispatch(s, t, launch, now).history, lane) == Dequeues(s.history, lane)
  {
    hide Delay;
  }

  /** The lane's first delivery at `h` has been served by `h'`. */
  ghost predicate HeadServed(t: Tables, h: History, h': History, lane: LaneKey) {
    LaneTasks(t, lane) != [] && Dequeues(h, lane) + [LaneTasks(t, lane)[0]] <= Dequeues(h', lane)
  }

  /** What was released when claiming began has been served, with slots to spare. */
  ghost predicate ReleasedServed(released: map<LaneKey, seq<Task>>, h: History, h': History) {
    forall lane :: Dequeues(h, lane) + Fifo(released, lane) <= Dequeues(h', lane)
  }

  lemma {:induction false} ServedOffAll(s: State, s': State, ready: seq<Task>, released: map<LaneKey, seq<Task>>)
    requires ServedOff(s, s', ready, []) && forall lane :: OnLane(ready, lane) == Fifo(released, lane)
    ensures ReleasedServed(released, s.history, s'.history)
  {
    hide Tracked, Dequeues, Fifo;
    forall lane ensures Dequeues(s.history, lane) + Fifo(released, lane) <= Dequeues(s'.history, lane) {
      assert ServedOffLane(s.history, s'.history, ready, [], lane);
      assert OnLane([], lane) == [];
    }
  }

  lemma {:induction false} ReleasedServedLater(released: map<LaneKey, seq<Task>>, h: History, mid: History, h': History)
    requires ReleasedServed(released, h, mid) && Grows(h', mid)
    ensures ReleasedServed(released, h, h')
  {
    hide Dequeues, Fifo, Grows;
    forall lane ensures Dequeues(h, lane) + Fifo(released, lane) <= Dequeues(h', lane) {
      DequeuesGrow(h', mid, lane);
    }
  }

  /** The heads of the lanes that were ready have been served. */
  lemma {:induction false} ReadyIsServed(t: Tables, released: map<LaneKey, seq<Task>>, h: History, mid: History, h': History, lane: LaneKey)
    requires NoStarts(mid, h) && ReleasedServed(released, mid, h')
    requires LaneTasks(t, lane) != [] && Fifo(released, lane) != [] && Fifo(released, lane)[0] == LaneTasks(t, lane)[0]
    ensures HeadServed(t, h, h', lane)
  {
    hide Dequeues, Fifo, NoStarts, LaneTasks;
    NoStartsServesNone(mid, h, lane);
    assert Dequeues(mid, lane) + Fifo(released, lane) <= Dequeues(h', lane);
    assert [Fifo(released, lane)[0]] <= Fifo(released, lane);
  }

  // ------------------------------------------------------------- nobody passed over

  /** A claim only adds: to the history, to what is tracked, to the queues. */
  ghost predicate Onward(s: State, q: map<LaneKey, seq<Task>>, s': State, q': map<LaneKey, seq<Task>>) {
    && NoEnds(s'.history, s.history)
    && (forall id :: Tracked(s, id) ==> Tracked(s', id))
    && QueuesGrow(q, q')
  }

  ghost predicate QueuesGrow(q: map<LaneKey, seq<Task>>, q': map<LaneKey, seq<Task>>) {
    forall lane :: |Fifo(q, lane)| <= |Fifo(q', lane)|
  }

  /** What claiming can come to for a task: it is held, it was let go, or its lane's queue is full. */
  ghost predicate Considered(s: State, q: map<LaneKey, seq<Task>>, base: History, t: Task) {
    || Tracked(s, t.id)
    || DroppedSince(s.history, base, t.id)
    || (t.lane != NoLane && |Fifo(q, t.lane)| >= LANE_QUEUE_LIMIT)
  }

  lemma {:induction false} ConsideredStays(base: History, s: State, q: map<LaneKey, seq<Task>>,
                                           s': State, q': map<LaneKey, seq<Task>>, t: Task)
    requires NoEnds(s.history, base) && Onward(s, q, s', q') && Considered(s, q, base, t)
    ensures Considered(s', q', base, t)
  {
    NoEndsCounts(s.history, base, t.id);
    NoEndsCounts(s'.history, s.history, t.id);
    if DroppedSince(s.history, base, t.id) {
      DroppedStays(s'.history, s.history, base, t.id);
    } else {
      assert |Fifo(q, t.lane)| <= |Fifo(q', t.lane)|;
    }
  }

  /** What the tables list is tracked. */
  lemma {:induction false} ListedIsTracked(t: Tables, s: State, id: TaskId)
    requires Inv(s) && Implements(t, s, []) && (id in t.active || id in IdsIn(t.queue) || id in IdsIn(t.released))
    ensures Tracked(s, id)
  {
    hide Inv, Implements, Fifo;
    SameSpawnsAndBackoffs(t, s, []);
    if id in IdsIn(t.queue) {
      ListedUnder(t.queue, s, t, id);
    } else if id in IdsIn(t.released) {
      ListedUnder(t.released, s, t, id);
    }
  }

  lemma {:induction false} ListedUnder(q: map<LaneKey, seq<Task>>, s: State, t: Tables, id: TaskId)
    requires Inv(s) && Implements(t, s, []) && id in IdsIn(q) && (q == t.queue || q == t.released)
    ensures id in s.home
  {
    hide Inv, Implements;
    var lane, i :| lane in q && 0 <= i < |q[lane]| && q[lane][i].id == id;
    QueuedTasksAreHome(t, s, [], lane);
    assert Fifo(q, lane)[i].id == id;
  }

  lemma {:induction false} OnwardStarts(s: State, q: map<LaneKey, seq<Task>>)
    ensures Onward(s, q, s, q)
  {
  }

  lemma {:induction false} OnwardTransitive(s: State, q: map<LaneKey, seq<Task>>, s': State, q': map<LaneKey, seq<Task>>,
                                            s'': State, q'': map<LaneKey, seq<Task>>)
    requires Onward(s, q, s', q') && Onward(s', q', s'', q'')
    ensures Onward(s, q, s'', q'')
  {
    NoEndsTransitive(s''.history, s'.history, s.history);
    forall lane ensures |Fifo(q, lane)| <= |Fifo(q'', lane)| {
      assert |Fifo(q, lane)| <= |Fifo(q', lane)| <= |Fifo(q'', lane)|;
    }
  }

  lemma {:induction false} OnwardKeepsOutcomes(s: State, q: map<LaneKey, seq<Task>>, s': State, q': map<LaneKey, seq<Task>>)
    requires Onward(s, q, s', q')
    ensures NoEnds(s'.history, s.history)
  {
  }

  /** Claiming one more task keeps every earlier one considered. */
  lemma {:induction false} ConsideredAll(base: History, s0: State, q0: map<LaneKey, seq<Task>>, s: State, q: map<LaneKey, seq<Task>>,
                                         s': State, q': map<LaneKey, seq<Task>>, earlier: seq<Task>, t: Task)
    requires s0.history == base && Onward(s0, q0, s, q) && Onward(s, q, s', q')
    requires Considered(s', q', s.history, t)
    ensures Onward(s0, q0, s', q') && Considered(s', q', base, t)
    ensures forall k :: 0 <= k < |earlier| && Considered(s, q, base, earlier[k]) ==> Considered(s', q', base, earlier[k])
  {
    OnwardTransitive(s0, q0, s, q, s', q');
    ConsideredEarlier(s', q', s.history, base, t);
    forall k | 0 <= k < |earlier| && Considered(s, q, base, earlier[k]) ensures Considered(s', q', base, earlier[k]) {
      ConsideredStays(base, s, q, s', q', earlier[k]);
    }
  }

  lemma {:induction false} ConsideredEarlier(s: State, q: map<LaneKey, seq<Task>>, mid: History, base: History, t: Task)
    requires NoEnds(s.history, mid) && NoEnds(mid, base) && Considered(s, q, mid, t)
    ensures Considered(s, q, base, t)
  {
    NoEndsCounts(s.history, mid, t.id);
    NoEndsCounts(mid, base, t.id);
    if DroppedSince(s.history, mid, t.id) {
      DroppedEarlier(s.history, mid, base, t.id);
    }
  }

  lemma {:induction false} ConsideredSincePoll(s: State, q: map<LaneKey, seq<Task>>, mid: History, base: History, t: Task)
    requires NoEnds(s.history, mid) && NoStarts(mid, base) && Considered(s, q, mid, t)
    ensures Considered(s, q, base, t)
  {
    NoEndsCounts(s.history, mid, t.id);
    NoStartsCounts(mid, base, t.id);
    if DroppedSince(s.history, mid, t.id) {
      DroppedEarlier(s.history, mid, base, t.id);
    }
  }

  lemma {:induction false} TrackedIsConsidered(s: State, q: map<LaneKey, seq<Task>>, s': State, q': map<LaneKey, seq<Task>>, base: History, t: Task)
    requires Onward(s, q, s', q') && Tracked(s, t.id)
    ensures Considered(s', q', base, t)
  {
  }

  lemma {:induction false} CalmWhenOrderly(slots: int, steady: bool, at: real, s: State, lane: LaneKey)
    requires Orderly(slots, steady, at, s) && slots <= 1 && steady && NoRefusalsOn(s.history, lane)
    ensures LaneCalm(s, lane, at)
  {
    assert LaneOrderly(at, s, lane);
  }

  // -------------------------------------------------------- one claim, as one fact

  /** Queueing a board task: it waits, or its lane's queue is full; nothing starts. */
  ghost predicate Queued(s: State, q: map<LaneKey, seq<Task>>, s': State, q': map<LaneKey, seq<Task>>, t: Task) {
    && Onward(s, q, s', q') && Considered(s', q', s.history, t)
    && Tries(s'.history) == Tries(s.history)
    && (forall id :: Starts(s'.history, id) == Starts(s.history, id))
    && (forall id :: id != t.id && !Tracked(s, id) ==> !Tracked(s', id))
    && (forall lane :: !(t.lane == lane) ==> Fifo(s'.waiting, lane) == Fifo(s.waiting, lane))
    && s'.active == s.active
    && (forall lane :: NoRefusalsOn(s.history, lane) <==> NoRefusalsOn(s'.history, lane))
  }

  /** Dispatching a board task: one try, about that task only. */
  ghost predicate Dispatched(s: State, q: map<LaneKey, seq<Task>>, s': State, q': map<LaneKey, seq<Task>>, t: Task) {
    && Onward(s, q, s', q') && Considered(s', q', s.history, t)
    && Tries(s'.history) == Tries(s.history) + 1
    && StartsOnly(s'.history, s.history, t.id)
    && (forall id :: id != t.id && !Tracked(s, id) ==> !Tracked(s', id))
  }

  lemma {:induction false} EnqueueQueues(s: State, q: map<LaneKey, seq<Task>>, q': map<LaneKey, seq<Task>>, t: Task, now: real)
    requires s.inHand == map[] && Settled(s.history) && QueuesGrow(q, q')
    ensures var s' := AfterEnqueue(s.(inHand := map[t.id := 0]), t, now); Queued(s, q, s', q', t) && s'.inHand == map[]
  {
    hide QueuesGrow;
    EnqueueEmptiesHand(s, t, now);
  }

  lemma {:induction false} FullQueueStays(s: State, q: map<LaneKey, seq<Task>>, t: Task)
    requires t.lane != NoLane && |Fifo(q, t.lane)| >= LANE_QUEUE_LIMIT
    ensures Queued(s, q, s, q, t)
  {
    OnwardStarts(s, q);
  }

  lemma {:induction false} PickedIsDispatched(s: State, picked: State, q: map<LaneKey, seq<Task>>, q': map<LaneKey, seq<Task>>,
                                              t: Task, launch: Launch, now: real)
    requires s.inHand == map[] && t.id in picked.inHand && picked == s.(inHand := map[t.id := picked.inHand[t.id]])
    requires !Tracked(s, t.id) && QueuesGrow(q, q') && (t.lane == NoLane || !LaneBusy(s.active, t.lane))
    ensures Dispatched(s, q, AfterDispatch(picked, t, launch, now), q', t)
  {
    hide AfterDispatch, QueuesGrow;
    DispatchOnward(picked, t, launch, now);
    DispatchKeepsTracked(picked, t, launch, now);
    var s' := AfterDispatch(picked, t, launch, now);
    forall id | id != t.id && !Tracked(s, id) ensures !Tracked(s', id) {
      DispatchTracksOnly(picked, t, launch, now, id);
    }
  }

  /** Where claiming stands after the first `j` candidates, `cut` of them while budget lasted. */
  ghost predicate ClaimedSoFar(s0: State, q0: map<LaneKey, seq<Task>>, s: State, q: map<LaneKey, seq<Task>>,
                               sorted: seq<Task>, j: int, cut: nat, left: nat, slots: nat)
  {
    && 0 <= j <= |sorted| && cut <= j && (left > 0 ==> cut == j)
    && Onward(s0, q0, s, q) && Tries(s.history) + left == Tries(s0.history) + slots
    && (forall k :: j <= k < |sorted| ==> !Tracked(s, sorted[k].id))
    && (forall k :: 0 <= k < cut ==> Considered(s, q, s0.history, sorted[k]))
    && StartedAmong(s.history, s0.history, sorted[..cut])
    && HoldsOnly(s0, s, sorted)
  }

  /** Whatever came to be held is one of these. */
  ghost predicate HoldsOnly(s: State, s': State, ts: seq<Task>) {
    forall id :: Tracked(s', id) && !Tracked(s, id) ==> HasId(ts, id)
  }

  lemma {:induction false} HoldsOneMore(s0: State, s: State, s': State, ts: seq<Task>, j: nat)
    requires HoldsOnly(s0, s, ts) && j < |ts| && forall id :: id != ts[j].id && !Tracked(s, id) ==> !Tracked(s', id)
    ensures HoldsOnly(s0, s', ts)
  {
    hide Tracked;
    forall id | Tracked(s', id) && !Tracked(s0, id) ensures HasId(ts, id) {
      if Tracked(s, id) {
        assert HasId(ts, id);
      } else {
        assert ts[j].id == id;
      }
    }
  }

  lemma {:induction false} ClaimBegins(s: State, q: map<LaneKey, seq<Task>>, sorted: seq<Task>, slots: nat)
    requires forall k :: 0 <= k < |sorted| ==> !Tracked(s, sorted[k].id)
    ensures ClaimedSoFar(s, q, s, q, sorted, 0, 0, slots, slots)
  {
    OnwardStarts(s, q);
    StartedNone(s.history);
  }

  lemma {:induction false} NextIsUntracked(s0: State, q0: map<LaneKey, seq<Task>>, s: State, q: map<LaneKey, seq<Task>>,
                                           sorted: seq<Task>, j: nat, cut: nat, left: nat, slots: nat)
    requires ClaimedSoFar(s0, q0, s, q, sorted, j, cut, left, slots) && j < |sorted|
    ensures !Tracked(s, sorted[j].id) && (left > 0 ==> cut == j)
  {
  }

  lemma {:induction false} ClaimSkips(s0: State, q0: map<LaneKey, seq<Task>>, s: State, q: map<LaneKey, seq<Task>>,
                                      sorted: seq<Task>, j: nat, cut: nat, slots: nat)
    requires ClaimedSoFar(s0, q0, s, q, sorted, j, cut, 0, slots) && j < |sorted|
    ensures ClaimedSoFar(s0, q0, s, q, sorted, j + 1, cut, 0, slots)
  {
    hide Considered, Onward, Tracked, StartedAmong, HoldsOnly;
  }

  lemma {:induction false} ClaimQueues(s0: State, q0: map<LaneKey, seq<Task>>, s: State, q: map<LaneKey, seq<Task>>,
                                       s': State, q': map<LaneKey, seq<Task>>, sorted: seq<Task>, j: nat, cut: nat, left: nat, slots: nat)
    requires ClaimedSoFar(s0, q0, s, q, sorted, j, cut, left, slots) && j < |sorted| && DistinctIds(sorted)
    requires Queued(s, q, s', q', sorted[j])
    ensures ClaimedSoFar(s0, q0, s', q', sorted, j + 1, if cut == j then j + 1 else cut, left, slots)
  {
    hide Considered, Onward, Tracked, StartedAmong, HoldsOnly;
    HoldsOneMore(s0, s, s', sorted, j);
    StartedAmongSame(s'.history, s.history, s0.history, sorted[..cut]);
    ConsideredAll(s0.history, s0, q0, s, q, s', q', sorted[..cut], sorted[j]);
    if cut == j {
      StartedAmongLonger(s'.history, s0.history, sorted, cut);
    }
  }

  lemma {:induction false} ClaimDispatches(s0: State, q0: map<LaneKey, seq<Task>>, s: State, q: map<LaneKey, seq<Task>>,
                                           s': State, q': map<LaneKey, seq<Task>>, sorted: seq<Task>, j: nat, left: nat, slots: nat)
    requires left > 0 && ClaimedSoFar(s0, q0, s, q, sorted, j, j, left, slots) && j < |sorted| && DistinctIds(sorted)
    requires Dispatched(s, q, s', q', sorted[j])
    ensures ClaimedSoFar(s0, q0, s', q', sorted, j + 1, j + 1, left - 1, slots)
  {
    hide Considered, Onward, Tracked, StartedAmong, HoldsOnly;
    HoldsOneMore(s0, s, s', sorted, j);
    ConsideredAll(s0.history, s0, q0, s, q, s', q', sorted[..j], sorted[j]);
    StartedAmongMore(s'.history, s.history, s0.history, sorted[..j], sorted[j]);
    assert sorted[..j + 1] == sorted[..j] + [sorted[j]];
  }

  /** Taking an untracked board task in hand and queueing it, as far as the values go. */
  lemma {:induction false} CandidateQueues(slots: int, steady: bool, now: real, t: Tables, s: State, x: Task)
    requires Inv(s) && Implements(t, s, []) && s.inHand == map[] && t.released == map[]
    requires Orderly(slots, steady, now, s) && Settled(s.history) && !Tracked(s, x.id) && x.lane != NoLane
    ensures var picked := s.(inHand := map[x.id := 0]);
            && Inv(picked) && Implements(t, picked, [])
            && (|Fifo(t.queue, x.lane)| < LANE_QUEUE_LIMIT ==>
                  var s' := AfterEnqueue(picked, x, now); Inv(s') && Orderly(slots, steady, now, s') && Settled(s'.history))
  {
    hide Inv, Implements, Orderly, Tracked, AfterEnqueue;
    QueueIsFifo(t, s, x.lane);
    PickKeepsInv(t, s, x, 0);
    PickingKeepsOrderly(slots, steady, now, s, map[x.id := 0]);
    var picked := s.(inHand := map[x.id := 0]);
    QueueingKeepsOrderly(slots, steady, now, picked, x);
    if |Fifo(t.queue, x.lane)| < LANE_QUEUE_LIMIT {
      StepKeepsInv(picked, Enqueue(x, now));
    }
  }

  // ------------------------------------------------------------ draining, per lane

  /** One lane while the released table is being drained. */
  ghost predicate DrainAt(all: map<LaneKey, seq<Task>>, released: map<LaneKey, seq<Task>>, drained: seq<Task>, lane: LaneKey) {
    && (lane in released ==> lane in all && released[lane] == all[lane])
    && OnLane(drained, lane) == if lane in released then [] else Fifo(all, lane)
  }

  lemma {:induction false} DrainBegins(released: map<LaneKey, seq<Task>>)
    ensures forall lane :: DrainAt(released, released, [], lane)
  {
  }

  lemma {:induction false} DrainStep(all: map<LaneKey, seq<Task>>, released: map<LaneKey, seq<Task>>, drained: seq<Task>,
                                     lane: LaneKey, home: map<TaskId, LaneKey>)
    requires lane in released && forall l :: DrainAt(all, released, drained, l)
    requires forall i :: 0 <= i < |Fifo(all, lane)| ==> OwnLane(Fifo(all, lane)[i], lane, home)
    ensures forall l :: DrainAt(all, released - {lane}, drained + released[lane], l)
  {
    assert DrainAt(all, released, drained, lane);
    var heads := released[lane];
    forall i | 0 <= i < |heads| ensures heads[i].lane == lane {
      assert OwnLane(Fifo(all, lane)[i], lane, home);
    }
    forall l ensures DrainAt(all, released - {lane}, drained + heads, l) {
      assert DrainAt(all, released, drained, l);
      OnLaneConcat(drained, heads, l);
      OnLaneUniform(heads, lane, l);
    }
  }

  /** The queue behind a delivery in flight is the whole FIFO of its lane. */
  lemma {:induction false} QueueOfActive(t: Tables, s: State, id: TaskId)
    requires Implements(t, s, []) && ReleasedIdle(t) && id in t.active
    ensures Fifo(s.waiting, t.active[id].task.lane) == Fifo(t.queue, t.active[id].task.lane)
  {
    var lane := t.active[id].task.lane;
    assert LaneBusy(t.active, lane);
    QueueIsFifo(t, s, lane);
  }

  lemma {:induction false} QueuesOfActive(t: Tables, s: State)
    requires Implements(t, s, []) && ReleasedIdle(t)
    ensures forall id :: id in t.active ==> Fifo(s.waiting, t.active[id].task.lane) == Fifo(t.queue, t.active[id].task.lane)
  {
    hide Implements, ReleasedIdle, Fifo;
    forall id | id in t.active ensures Fifo(s.waiting, t.active[id].task.lane) == Fifo(t.queue, t.active[id].task.lane) {
      QueueOfActive(t, s, id);
    }
  }

  lemma {:induction false} RefusedInHand(s: State, id: TaskId)
    requires id in s.active
    ensures id in AfterRefuse(s, id).inHand && AfterRefuse(s, id).inHand[id] == s.active[id].refusals + 1
  {
  }

  lemma {:induction false} RefusedWaits(s: State, id: TaskId)
    requires id in s.active
    ensures AfterRefuse(s, id).waiting == s.waiting
  {
  }

  lemma {:induction false} RequeuedSpawns(s: State, id: TaskId, t: Task, now: real)
    requires id in s.active && t.id in AfterRefuse(s, id).inHand
    ensures AfterEnqueue(AfterRefuse(s, id), t, now).active == s.active - {id}
  {
  }

  lemma {:induction false} LaneHasRoom(t: Tables, s: State, lane: LaneKey)
    requires Inv(s) && Implements(t, s, [])
    ensures |LaneTasks(t, lane)| <= LANE_QUEUE_LIMIT
  {
    WaitingIsListed(t, s, lane);
    assert |Fifo(s.waiting, lane)| <= LANE_QUEUE_LIMIT;
  }

  // ----------------------------------------------------- where promises are missed

  /** Two drained heads of one idle lane: the first starts, the second is put back behind it and its
      backoff is armed a second time. */
  lemma {:induction false} TwoHeadsRearm(t: Tables, s: State, hand: seq<Task>, now: real)
    requires Inv(s) && s.inHand == map[] && Implements(t, s, hand) && |hand| >= 2
    requires hand[0].lane == hand[1].lane != NoLane && !LaneBusy(s.active, hand[0].lane)
    requires CarriedAttempts(t.meta, hand[1].id) > 0
    ensures Fifo(s.waiting, hand[0].lane) != [] && hand[0].id in AfterDequeue(s, hand[0].lane).inHand
    ensures var one := AfterDispatch(AfterDequeue(s, hand[0].lane), hand[0], Launches, now);
            && Fifo(one.waiting, hand[1].lane) != [] && hand[1].id in AfterDequeue(one, hand[1].lane).inHand
            && var two := AfterDispatch(AfterDequeue(one, hand[1].lane), hand[1], Launches, now);
               && Armed(two.history, hand[1].id)
                  == Armed(s.history, hand[1].id) + Delay(CarriedAttempts(t.meta, hand[1].id)) > Armed(s.history, hand[1].id)
               && RefusalDelay(two.history, hand[1].id) == RefusalDelay(s.history, hand[1].id)
               && PutBacks(two.history, hand[1].id) == PutBacks(s.history, hand[1].id) + 1
  {
    hide Inv, Implements;
    SameSpawnsAndBackoffs(t, s, hand);
    TakingKeepsInv(t, s, hand);
    var taken := AfterDequeue(s, hand[0].lane);
    var one := AfterStart(taken, hand[0]);
    StartImplements(t, taken, hand[1..], hand[0]);
    StepKeepsInv(taken, Start(hand[0]));
    var t' := t.(active := t.active[hand[0].id := Spawn(hand[0], taken.inHand[hand[0].id])]);
    TakingKeepsInv(t', one, hand[1..]);
    assert hand[0].id in one.active && one.active[hand[0].id].task.lane == hand[1].lane;
    assert LaneBusy(one.active, hand[1].lane);
    HeadsDiffer(t, s, hand);
    LongestDelayOf(CarriedAttempts(t.meta, hand[1].id));
    hide Armed, RefusalDelay, PutBacks, Delay;
    ServedThenPutBack(s.history, hand[0], taken.inHand[hand[0].id], hand[1], CarriedAttempts(t.meta, hand[1].id));
  }

  lemma {:induction false} LongestDelayOf(attempts: nat)
    requires attempts > 0
    ensures Delay(attempts) > 0.0
  {
  }

  /** Two drained deliveries of one lane are two deliveries. */
  lemma {:induction false} HeadsDiffer(t: Tables, s: State, hand: seq<Task>)
    requires Inv(s) && Implements(t, s, hand) && |hand| >= 2 && hand[0].lane == hand[1].lane
    ensures hand[0].id != hand[1].id
  {
    var lane := hand[0].lane;
    assert LaneCoupled(t, s, hand, lane);
    hide Implements;
    assert OnLane(hand, lane) == [hand[0]] + OnLane(hand[1..], lane);
    assert OnLane(hand[1..], lane) == [hand[1]] + OnLane(hand[1..][1..], lane);
    assert Fifo(s.waiting, lane)[0] == hand[0] && Fifo(s.waiting, lane)[1] == hand[1];
    assert DistinctIds(Fifo(s.waiting, lane));
  }

  /** A delivery that is let go after refusals leaves its count behind. */
  lemma {:induction false} LetGoKeepsCount(s: State, lane: LaneKey, why: DropReason)
    requires Inv(s) && s.inHand == map[] && Fifo(s.waiting, lane) != []
    ensures var t := Fifo(s.waiting, lane)[0];
            var s' := AfterDrop(AfterDequeue(s, lane), t, why);
            !Tracked(s', t.id) && CarriedAttempts(s'.meta, t.id) == Attempts(s, t.id) && RefusalChain(s'.history, t.id) == 0
  {
    HeadIsHome(s, lane);
  }

  /** A delivery picked off the board starts at zero exactly when a spawn of it has ended since it was
      last queued with refusals behind it. */
  lemma {:induction false} PickStartsAtZero(s: State, id: TaskId)
    requires Inv(s) && !Tracked(s, id)
    ensures CarriedAttempts(s.meta, id) == 0 <==> LastCount(s.history, id) == 0
    ensures CarriedAttempts(s.meta, id) == 0 <==> id !in s.meta || s.meta[id].attempts == 0
  {
    assert CarriedAttempts(s.meta, id) == LastCount(s.history, id);
  }

  /** Behind a full queue a refused delivery is failed with retries to spare; otherwise it is failed
      only when they are spent. */
  lemma {:induction false} RefusalIsFailed(s: State, queue: map<LaneKey, seq<Task>>, id: TaskId, f: Facts, limit: nat, now: real)
    requires Inv(s) && id in s.active && s.active[id].task.lane != NoLane
    ensures s.active[id].task.id == id
    ensures var spawn := s.active[id];
            ResolveSpawn(s, queue, id, LaneBusyRefused, f, limit, now).history == After(s.history, Resolved(id, Failed))
            <==> spawn.refusals >= MAX_RETRIES || |Fifo(queue, spawn.task.lane)| >= LANE_QUEUE_LIMIT
  {
  }

  /** A lane can be so crowded that the very first refusal of its delivery in flight fails it. */
  lemma {:induction false} CrowdedRefusalFails(b: Task, others: seq<Task>, queue: map<LaneKey, seq<Task>>, f: Facts, limit: nat, now: real)
    returns (s: State, steps: seq<Step>)
    requires Rearming.Siblings(b, others) && |others| == LANE_QUEUE_LIMIT
    ensures Rearming.Reaches(Initial, steps, s) && Inv(s) && b.id in s.active && s.active[b.id] == Spawn(b, 0)
    ensures Fifo(queue, b.lane) == Fifo(s.waiting, b.lane) ==>
              ResolveSpawn(s, queue, b.id, LaneBusyRefused, f, limit, now).history == After(s.history, Resolved(b.id, Failed))
    ensures RefusalChain(s.history, b.id) == 0
  {
    s, steps := Rearming.QueueCanBeFull(b, others);
    RefusalIsFailed(s, queue, b.id, f, limit, now);
  }
}
