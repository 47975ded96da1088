/** The executor's lane discipline as a protocol over values.

    A task the executor holds is in exactly one place: `active` (a spawn runs),
    `waiting` (its lane's FIFO) or `inHand` (being dispatched right now).  Every
    step appends to a history, and the invariant `Inv` ties the places to that
    history.  The class in Executor.dfy refines this protocol: its lane queues,
    its released heads and its drained list together are one `waiting` FIFO. */
module LaneProtocol {
  import opened Ids

  datatype Task = Task(id: TaskId, lane: LaneKey, priority: int, deliveries: nat)

  datatype Spawn = Spawn(task: Task, refusals: nat)

  datatype Backoff = Backoff(attempts: nat, notBefore: real)

  /** How a finished spawn leaves the executor for good. */
  datatype Exit = Completed | Failed | Requeued(retry: bool) | Parked

  /** Why a task in hand was let go without a spawn. */
  datatype DropReason = LaunchFailed | Misplaced

  datatype Event =
    | Enqueued(task: Task, attempts: nat)
    | Dequeued(task: Task)
    | Started(task: Task, attempts: nat)
    | Dropped(id: TaskId, reason: DropReason)
    | Refused(id: TaskId, lane: LaneKey, attempts: nat)
    | Resolved(id: TaskId, exit: Exit)
    | Cancelled(id: TaskId)

  datatype History = Empty | After(past: History, event: Event)

  datatype State = State(
    active: map<TaskId, Spawn>,
    waiting: map<LaneKey, seq<Task>>,
    home: map<TaskId, LaneKey>,
    inHand: map<TaskId, nat>,
    meta: map<TaskId, Backoff>,
    history: History)

  const MAX_RETRIES: nat := 5
  const LANE_QUEUE_LIMIT: nat := 64

  // ---------------------------------------------------------------- backoff

  function Pow2(n: nat): (p: real)
    ensures p >= 1.0
  {
    if n == 0 then 1.0 else 2.0 * Pow2(n - 1)
  }

  /** Wait before a delivery that was refused `attempts` times may be retried. */
  function Delay(attempts: nat): (d: real)
    ensures d >= 0.0
  {
    if attempts == 0 then 0.0 else 2.0 * Pow2(attempts - 1)
  }

  /** No wait before the first refusal, two seconds after it, then twice the last wait each time. */
  lemma {:induction false} DelayDoubles(attempts: nat)
    ensures Delay(0) == 0.0 && Delay(1) == 2.0
    ensures attempts >= 1 ==> Delay(attempts + 1) == 2.0 * Delay(attempts)
  {
    assert attempts >= 1 ==> Pow2(attempts) == 2.0 * Pow2(attempts - 1);
  }

  /** Total wait a delivery has been given once it was refused `attempts` times. */
  function DelayBudget(attempts: nat): (d: real)
    ensures d >= 0.0
  {
    if attempts == 0 then 0.0 else DelayBudget(attempts - 1) + Delay(attempts)
  }

  lemma {:induction false} DelayBudgetMonotone(m: nat, n: nat)
    requires m <= n
    ensures DelayBudget(m) <= DelayBudget(n)
    decreases n - m
  {
    if m < n {
      DelayBudgetMonotone(m + 1, n);
    }
  }

  /** Five refusals grant 62 seconds of backoff. */
  lemma {:induction false} DelayBudgetOfAllRetries()
    ensures DelayBudget(MAX_RETRIES) == 62.0
  {
  }

  // ------------------------------------------------------- reading a history

  /** Tasks appended to a lane's FIFO, in order. */
  ghost function Enqueues(h: History, lane: LaneKey): seq<Task> {
    match h
    case Empty => []
    case After(past, e) =>
      if e.Enqueued? && e.task.lane == lane then Enqueues(past, lane) + [e.task] else Enqueues(past, lane)
  }

  /** Tasks taken from the front of a lane's FIFO, in order. */
  ghost function Dequeues(h: History, lane: LaneKey): seq<Task> {
    match h
    case Empty => []
    case After(past, e) =>
      if e.Dequeued? && e.task.lane == lane then Dequeues(past, lane) + [e.task] else Dequeues(past, lane)
  }

  ghost function Starts(h: History, id: TaskId): nat {
    match h
    case Empty => 0
    case After(past, e) => Starts(past, id) + if e.Started? && e.task.id == id then 1 else 0
  }

  /** An event that ends a spawn of the task: each is one outcome. */
  ghost predicate Ends(e: Event, id: TaskId) {
    (e.Refused? || e.Resolved? || e.Cancelled?) && e.id == id
  }

  ghost function Outcomes(h: History, id: TaskId): nat {
    match h
    case Empty => 0
    case After(past, e) => Outcomes(past, id) + if Ends(e, id) then 1 else 0
  }

  /** The newest event that ended a spawn of the task. */
  ghost function LastEnd(h: History, id: TaskId): Option<Event> {
    match h
    case Empty => None
    case After(past, e) => if Ends(e, id) then Some(e) else LastEnd(past, id)
  }

  /** Busy refusals of a task since it last left the executor. */
  ghost function RefusalChain(h: History, id: TaskId): nat {
    match h
    case Empty => 0
    case After(past, e) =>
      if Leaves(e, id) then 0
      else RefusalChain(past, id) + if e.Refused? && e.id == id then 1 else 0
  }

  /** Backoff granted by those refusals. */
  ghost function RefusalDelay(h: History, id: TaskId): real {
    match h
    case Empty => 0.0
    case After(past, e) =>
      if Leaves(e, id) then 0.0
      else RefusalDelay(past, id) + if e.Refused? && e.id == id then Delay(e.attempts) else 0.0
  }

  /** An event after which the executor no longer holds the task. */
  ghost predicate Leaves(e: Event, id: TaskId) {
    (e.Dropped? || e.Resolved? || e.Cancelled?) && e.id == id
  }

  // --------------------------------------------------------------- the steps

  function Fifo(w: map<LaneKey, seq<Task>>, lane: LaneKey): seq<Task> {
    if lane in w then w[lane] else []
  }

  ghost predicate HasId(q: seq<Task>, id: TaskId) {
    exists i :: 0 <= i < |q| && q[i].id == id
  }

  ghost predicate Tracked(s: State, id: TaskId) {
    id in s.active || id in s.home || id in s.inHand
  }

  ghost predicate LaneIdle(s: State, lane: LaneKey) {
    lane == NoLane || forall id :: id in s.active ==> s.active[id].task.lane != lane
  }

  /** Refusals a held task has already spent, wherever it is held. */
  ghost function Attempts(s: State, id: TaskId): nat {
    if id in s.active then s.active[id].refusals
    else if id in s.home then (if id in s.meta then s.meta[id].attempts else 0)
    else if id in s.inHand then s.inHand[id]
    else 0
  }

  datatype Step =
    | Pick(task: Task, attempts: nat)
    | Dequeue(lane: LaneKey)
    | Enqueue(task: Task, now: real)
    | Start(task: Task)
    | Drop(task: Task, why: DropReason)
    | Refuse(id: TaskId)
    | Resolve(id: TaskId, exit: Exit)
    | Cancel(id: TaskId)

  ghost predicate Enabled(s: State, step: Step) {
    match step
    case Pick(t, attempts) => !Tracked(s, t.id) && attempts <= MAX_RETRIES
    case Dequeue(lane) => Fifo(s.waiting, lane) != []
    case Enqueue(t, _) => t.id in s.inHand && t.lane != NoLane && |Fifo(s.waiting, t.lane)| < LANE_QUEUE_LIMIT
    case Start(t) => t.id in s.inHand && LaneIdle(s, t.lane)
    case Drop(t, _) => t.id in s.inHand
    case Refuse(id) => id in s.active && s.active[id].refusals < MAX_RETRIES
    case Resolve(id, _) => id in s.active
    case Cancel(id) => id in s.active
  }

  ghost function AfterDequeue(s: State, lane: LaneKey): State
    requires Fifo(s.waiting, lane) != []
  {
    var t := Fifo(s.waiting, lane)[0];
    s.(waiting := s.waiting[lane := Fifo(s.waiting, lane)[1..]],
       home := s.home - {t.id},
       inHand := s.inHand[t.id := Attempts(s, t.id)],
       history := After(s.history, Dequeued(t)))
  }

  ghost function AfterEnqueue(s: State, t: Task, now: real): State
    requires t.id in s.inHand
  {
    var attempts := s.inHand[t.id];
    s.(waiting := s.waiting[t.lane := Fifo(s.waiting, t.lane) + [t]],
       home := s.home[t.id := t.lane],
       inHand := s.inHand - {t.id},
       meta := s.meta[t.id := Backoff(attempts, now + Delay(attempts))],
       history := After(s.history, Enqueued(t, attempts)))
  }

  ghost function AfterStart(s: State, t: Task): State
    requires t.id in s.inHand
  {
    s.(active := s.active[t.id := Spawn(t, s.inHand[t.id])],
       inHand := s.inHand - {t.id},
       history := After(s.history, Started(t, s.inHand[t.id])))
  }

  ghost function AfterDrop(s: State, t: Task, why: DropReason): State {
    s.(inHand := s.inHand - {t.id}, history := After(s.history, Dropped(t.id, why)))
  }

  ghost function AfterRefuse(s: State, id: TaskId): State
    requires id in s.active
  {
    var attempts := s.active[id].refusals + 1;
    s.(active := s.active - {id},
       meta := s.meta - {id},
       inHand := s.inHand[id := attempts],
       history := After(s.history, Refused(id, s.active[id].task.lane, attempts)))
  }

  /** A spawn's backoff metadata is forgotten when it ends; a dropped task's is not. */
  ghost function AfterEnd(s: State, id: TaskId, e: Event): State {
    s.(active := s.active - {id}, meta := s.meta - {id}, history := After(s.history, e))
  }

  ghost function Apply(s: State, step: Step): State
    requires Enabled(s, step)
  {
    match step
    case Pick(t, attempts) => s.(inHand := s.inHand[t.id := attempts])
    case Dequeue(lane) => AfterDequeue(s, lane)
    case Enqueue(t, now) => AfterEnqueue(s, t, now)
    case Start(t) => AfterStart(s, t)
    case Drop(t, why) => AfterDrop(s, t, why)
    case Refuse(id) => AfterRefuse(s, id)
    case Resolve(id, exit) => AfterEnd(s, id, Resolved(id, exit))
    case Cancel(id) => AfterEnd(s, id, Cancelled(id))
  }

  // ----------------------------------------------------------- the invariant

  /** No two spawns share a lane. */
  ghost predicate LaneExclusive(active: map<TaskId, Spawn>) {
    forall a, b :: a in active && b in active && a != b && active[a].task.lane != NoLane
                   ==> active[a].task.lane != active[b].task.lane
  }

  ghost predicate PlacesDisjoint(s: State) {
    && s.active.Keys !! s.home.Keys !! s.inHand.Keys
    && (forall id :: id in s.active ==> s.active[id].task.id == id)
  }

  ghost predicate WaitsOnOwnLane(w: map<LaneKey, seq<Task>>, home: map<TaskId, LaneKey>) {
    forall lane, i :: 0 <= i < |Fifo(w, lane)| ==> OwnLane(Fifo(w, lane)[i], lane, home)
  }

  ghost predicate OwnLane(t: Task, lane: LaneKey, home: map<TaskId, LaneKey>) {
    t.lane == lane != NoLane && t.id in home && home[t.id] == lane
  }

  ghost predicate DistinctIds(q: seq<Task>) {
    forall i, j :: 0 <= i < j < |q| ==> q[i].id != q[j].id
  }

  ghost predicate HomesOccupied(w: map<LaneKey, seq<Task>>, home: map<TaskId, LaneKey>) {
    forall id :: id in home ==> HasId(Fifo(w, home[id]), id)
  }

  /** Every id is held in at most one place, under its own lane. */
  ghost predicate HeldOnce(s: State) {
    && PlacesDisjoint(s)
    && WaitsOnOwnLane(s.waiting, s.home)
    && (forall lane :: DistinctIds(Fifo(s.waiting, lane)))
    && HomesOccupied(s.waiting, s.home)
    && s.home.Keys <= s.meta.Keys
  }

  /** Each lane's FIFO holds exactly what was appended and not yet taken, in that order. */
  ghost predicate FifoLaw(s: State) {
    forall lane :: Enqueues(s.history, lane) == Dequeues(s.history, lane) + Fifo(s.waiting, lane)
  }

  /** Every started spawn is still active or has had exactly one outcome. */
  ghost predicate Conserved(s: State) {
    forall id :: Starts(s.history, id) == Outcomes(s.history, id) + if id in s.active then 1 else 0
  }

  /** The carried attempt count covers every refusal and never passes the limit. */
  ghost predicate RetriesBounded(s: State) {
    forall id ::
      && RefusalChain(s.history, id) <= Attempts(s, id) <= MAX_RETRIES
      && RefusalDelay(s.history, id) <= DelayBudget(Attempts(s, id))
      && (id in s.meta ==> s.meta[id].attempts <= MAX_RETRIES)
  }

  /** No lane holds back more deliveries than its queue may. */
  ghost predicate Roomy(s: State) {
    forall lane :: |Fifo(s.waiting, lane)| <= LANE_QUEUE_LIMIT
  }

  function CarriedAttempts(meta: map<TaskId, Backoff>, id: TaskId): nat {
    if id in meta then meta[id].attempts else 0
  }

  /** The attempt count of the task's last queueing, unless a spawn of it has ended since. */
  ghost function LastCount(h: History, id: TaskId): nat {
    match h
    case Empty => 0
    case After(past, e) =>
      if e.Enqueued? && e.task.id == id then e.attempts
      else if Ends(e, id) then 0
      else LastCount(past, id)
  }

  /** The backoff table remembers exactly that count, also for tasks that were let go. */
  ghost predicate MetaLaw(s: State) {
    forall id :: CarriedAttempts(s.meta, id) == LastCount(s.history, id)
  }

  ghost predicate Inv(s: State) {
    && LaneExclusive(s.active)
    && HeldOnce(s)
    && Roomy(s)
    && MetaLaw(s)
    && FifoLaw(s)
    && Conserved(s)
    && RetriesBounded(s)
  }

  ghost const Initial: State := State(map[], map[], map[], map[], map[], Empty)

  lemma {:induction false} InitialInv()
    ensures Inv(Initial)
  {
  }

  lemma {:induction false} StepKeepsExclusive(s: State, step: Step)
    requires LaneExclusive(s.active) && Enabled(s, step)
    ensures LaneExclusive(Apply(s, step).active)
  {
  }

  lemma {:induction false} PopKeepsHomes(w: map<LaneKey, seq<Task>>, home: map<TaskId, LaneKey>, lane: LaneKey)
    requires WaitsOnOwnLane(w, home) && HomesOccupied(w, home)
    requires Fifo(w, lane) != [] && DistinctIds(Fifo(w, lane))
    ensures var w', home' := w[lane := Fifo(w, lane)[1..]], home - {Fifo(w, lane)[0].id};
            WaitsOnOwnLane(w', home') && HomesOccupied(w', home')
  {
    var q := Fifo(w, lane);
    var w', home' := w[lane := q[1..]], home - {q[0].id};
    forall l, i | 0 <= i < |Fifo(w', l)|
      ensures OwnLane(Fifo(w', l)[i], l, home')
    {
      var k := if l == lane then i + 1 else i;
      assert Fifo(w', l)[i] == Fifo(w, l)[k] && OwnLane(Fifo(w, l)[k], l, home);
      assert OwnLane(q[0], lane, home);
    }
    forall id | id in home' ensures HasId(Fifo(w', home'[id]), id) {
      var i :| 0 <= i < |Fifo(w, home[id])| && Fifo(w, home[id])[i].id == id;
      if home[id] == lane {
        assert q[1..][i - 1].id == id;
      }
    }
  }

  lemma {:induction false} PushKeepsHomes(w: map<LaneKey, seq<Task>>, home: map<TaskId, LaneKey>, t: Task)
    requires WaitsOnOwnLane(w, home) && HomesOccupied(w, home)
    requires t.lane != NoLane && t.id !in home && DistinctIds(Fifo(w, t.lane))
    ensures var q := Fifo(w, t.lane) + [t];
            var w', home' := w[t.lane := q], home[t.id := t.lane];
            WaitsOnOwnLane(w', home') && HomesOccupied(w', home') && DistinctIds(q)
  {
    var q := Fifo(w, t.lane) + [t];
    var w', home' := w[t.lane := q], home[t.id := t.lane];
    forall l, i | 0 <= i < |Fifo(w', l)|
      ensures OwnLane(Fifo(w', l)[i], l, home')
    {
      if i < |Fifo(w, l)| {
        assert Fifo(w', l)[i] == Fifo(w, l)[i] && OwnLane(Fifo(w, l)[i], l, home);
      }
    }
    forall id | id in home' ensures HasId(Fifo(w', home'[id]), id) {
      if id == t.id {
        assert q[|q| - 1].id == id;
      } else {
        var i :| 0 <= i < |Fifo(w, home[id])| && Fifo(w, home[id])[i].id == id;
        assert Fifo(w', home'[id])[i].id == id;
      }
    }
    forall i, j | 0 <= i < j < |q| ensures q[i].id != q[j].id {
      assert q[i] == Fifo(w, t.lane)[i] && OwnLane(q[i], t.lane, home);
      if j < |q| - 1 {
        assert q[j] == Fifo(w, t.lane)[j];
      }
    }
  }

  lemma {:induction false} DequeueKeepsHeldOnce(s: State, lane: LaneKey)
    requires HeldOnce(s) && Enabled(s, Dequeue(lane))
    ensures HeldOnce(Apply(s, Dequeue(lane)))
  {
    HeadIsHome(s, lane);
    hide WaitsOnOwnLane, HomesOccupied, Attempts;
    var s' := Apply(s, Dequeue(lane));
    PopKeepsHomes(s.waiting, s.home, lane);
    forall l ensures DistinctIds(Fifo(s'.waiting, l)) {
      assert DistinctIds(Fifo(s.waiting, l));
    }
  }

  lemma {:induction false} EnqueueKeepsHeldOnce(s: State, t: Task, now: real)
    requires HeldOnce(s) && Enabled(s, Enqueue(t, now))
    ensures HeldOnce(Apply(s, Enqueue(t, now)))
  {
    var s' := Apply(s, Enqueue(t, now));
    PushKeepsHomes(s.waiting, s.home, t);
    forall l ensures DistinctIds(Fifo(s'.waiting, l)) {
      assert DistinctIds(Fifo(s.waiting, l));
    }
  }

  lemma {:induction false} StepKeepsHeldOnce(s: State, step: Step)
    requires HeldOnce(s) && Enabled(s, step)
    ensures HeldOnce(Apply(s, step))
  {
    match step
    case Dequeue(lane) => DequeueKeepsHeldOnce(s, lane);
    case Enqueue(t, now) => EnqueueKeepsHeldOnce(s, t, now);
    case _ =>
      var s' := Apply(s, step);
      assert s'.waiting == s.waiting && s'.home == s.home;
  }

  lemma {:induction false} DequeueKeepsFifoLaw(s: State, lane: LaneKey)
    requires WaitsOnOwnLane(s.waiting, s.home) && FifoLaw(s) && Enabled(s, Dequeue(lane))
    ensures FifoLaw(Apply(s, Dequeue(lane)))
  {
  }

  lemma {:induction false} EnqueueKeepsFifoLaw(s: State, t: Task, now: real)
    requires FifoLaw(s) && Enabled(s, Enqueue(t, now))
    ensures FifoLaw(Apply(s, Enqueue(t, now)))
  {
  }

  lemma {:induction false} StepKeepsFifoLaw(s: State, step: Step)
    requires WaitsOnOwnLane(s.waiting, s.home) && FifoLaw(s) && Enabled(s, step)
    ensures FifoLaw(Apply(s, step))
  {
    match step
    case Dequeue(lane) => DequeueKeepsFifoLaw(s, lane);
    case Enqueue(t, now) => EnqueueKeepsFifoLaw(s, t, now);
    case _ =>
      var s' := Apply(s, step);
      assert s'.waiting == s.waiting;
      forall l ensures Enqueues(s'.history, l) == Dequeues(s'.history, l) + Fifo(s'.waiting, l) {
        assert Enqueues(s.history, l) == Dequeues(s.history, l) + Fifo(s.waiting, l);
      }
  }

  lemma {:induction false} TaskConserved(s: State, step: Step, id: TaskId)
    requires PlacesDisjoint(s) && Enabled(s, step)
    requires Starts(s.history, id) == Outcomes(s.history, id) + if id in s.active then 1 else 0
    ensures var s' := Apply(s, step);
            Starts(s'.history, id) == Outcomes(s'.history, id) + if id in s'.active then 1 else 0
  {
  }

  lemma {:induction false} StepConserves(s: State, step: Step)
    requires PlacesDisjoint(s) && Conserved(s) && Enabled(s, step)
    ensures Conserved(Apply(s, step))
  {
    forall id
      ensures var s' := Apply(s, step);
              Starts(s'.history, id) == Outcomes(s'.history, id) + if id in s'.active then 1 else 0
    {
      TaskConserved(s, step, id);
    }
  }

  /** The attempt count survives queueing, release and respawn, grows by one per refusal and is
      only forgotten when the task leaves the executor. */
  lemma {:induction false} AttemptsCarried(s: State, step: Step, id: TaskId)
    requires HeldOnce(s) && Enabled(s, step)
    ensures Attempts(Apply(s, step), id) ==
            match step
            case Pick(t, attempts) => if t.id == id then attempts else Attempts(s, id)
            case Refuse(x) => if x == id then Attempts(s, id) + 1 else Attempts(s, id)
            case Drop(t, _) => if t.id == id then 0 else Attempts(s, id)
            case Resolve(x, _) => if x == id then 0 else Attempts(s, id)
            case Cancel(x) => if x == id then 0 else Attempts(s, id)
            case _ => Attempts(s, id)
  {
    hide HeldOnce;
    PlacesOf(s);
    if step.Dequeue? {
      HeadIsHome(s, step.lane);
    }
  }

  lemma {:induction false} PlacesOf(s: State)
    requires HeldOnce(s)
    ensures PlacesDisjoint(s)
  {
  }

  lemma {:induction false} HeadIsHome(s: State, lane: LaneKey)
    requires HeldOnce(s) && Fifo(s.waiting, lane) != []
    ensures var id := Fifo(s.waiting, lane)[0].id; id in s.home && id in s.meta && id !in s.active
  {
    assert OwnLane(Fifo(s.waiting, lane)[0], lane, s.home);
  }

  lemma {:induction false} AttemptsBefore(s: State, step: Step)
    requires Enabled(s, step)
    ensures step.Refuse? ==> Attempts(s, step.id) == s.active[step.id].refusals < MAX_RETRIES
    ensures step.Pick? ==> Attempts(s, step.task.id) == 0
  {
  }

  lemma {:induction false} TaskRetriesBounded(s: State, step: Step, id: TaskId)
    requires HeldOnce(s) && RetriesBounded(s) && Enabled(s, step)
    ensures var s' := Apply(s, step);
            && RefusalChain(s'.history, id) <= Attempts(s', id) <= MAX_RETRIES
            && RefusalDelay(s'.history, id) <= DelayBudget(Attempts(s', id))
  {
    hide HeldOnce, Attempts;
    assert RefusalChain(s.history, id) <= Attempts(s, id);
    AttemptsBefore(s, step);
    AttemptsCarried(s, step, id);
    if step.Pick? && step.task.id == id {
      DelayBudgetMonotone(0, step.attempts);
    }
  }

  lemma {:induction false} StepKeepsRetriesBounded(s: State, step: Step)
    requires HeldOnce(s) && RetriesBounded(s) && Enabled(s, step)
    ensures RetriesBounded(Apply(s, step))
  {
    var s' := Apply(s, step);
    forall id
      ensures RefusalChain(s'.history, id) <= Attempts(s', id) <= MAX_RETRIES
      ensures RefusalDelay(s'.history, id) <= DelayBudget(Attempts(s', id))
      ensures id in s'.meta ==> s'.meta[id].attempts <= MAX_RETRIES
    {
      TaskRetriesBounded(s, step, id);
      if step.Enqueue? {
        assert Attempts(s, step.task.id) == s.inHand[step.task.id];
      }
    }
  }

  lemma {:induction false} StepKeepsRoom(s: State, step: Step)
    requires Roomy(s) && Enabled(s, step)
    ensures Roomy(Apply(s, step))
  {
    forall lane ensures |Fifo(Apply(s, step).waiting, lane)| <= LANE_QUEUE_LIMIT {
      assert |Fifo(s.waiting, lane)| <= LANE_QUEUE_LIMIT;
    }
  }

  lemma {:induction false} StepKeepsMetaLaw(s: State, step: Step)
    requires MetaLaw(s) && Enabled(s, step)
    ensures MetaLaw(Apply(s, step))
  {
    forall id ensures CarriedAttempts(Apply(s, step).meta, id) == LastCount(Apply(s, step).history, id) {
      assert CarriedAttempts(s.meta, id) == LastCount(s.history, id);
    }
  }

  /** Every enabled step keeps the whole invariant. */
  lemma {:induction false} StepKeepsInv(s: State, step: Step)
    requires Inv(s) && Enabled(s, step)
    ensures Inv(Apply(s, step))
  {
    StepKeepsExclusive(s, step);
    StepKeepsHeldOnce(s, step);
    StepKeepsRoom(s, step);
    StepKeepsMetaLaw(s, step);
    StepKeepsFifoLaw(s, step);
    StepConserves(s, step);
    StepKeepsRetriesBounded(s, step);
  }

  /** What a step does to the deliveries held: a pick adds one, leaving takes one away. */
  lemma {:induction false} TrackedAfter(s: State, step: Step, id: TaskId)
    requires Inv(s) && Enabled(s, step)
    ensures Tracked(Apply(s, step), id) <==>
            match step
            case Pick(t, _) => Tracked(s, id) || id == t.id
            case Drop(t, _) => Tracked(s, id) && id != t.id
            case Resolve(x, _) => Tracked(s, id) && id != x
            case Cancel(x) => Tracked(s, id) && id != x
            case _ => Tracked(s, id)
  {
    PlacesOf(s);
    if step.Dequeue? {
      HeadIsHome(s, step.lane);
    }
    hide Inv;
  }

  /** Safety over whole runs: whatever enabled steps are taken, in whatever order. */
  ghost predicate Run(states: seq<State>, steps: seq<Step>) {
    && |states| == |steps| + 1
    && forall i :: 0 <= i < |steps| ==> Enabled(states[i], steps[i]) && states[i + 1] == Apply(states[i], steps[i])
  }

  lemma {:induction false} RunKeepsInv(states: seq<State>, steps: seq<Step>, n: nat)
    requires Run(states, steps) && Inv(states[0]) && n <= |steps|
    ensures Inv(states[n])
  {
    if n > 0 {
      RunKeepsInv(states, steps, n - 1);
      StepKeepsInv(states[n - 1], steps[n - 1]);
    }
  }

  /** What every reachable state gives a reader: the k-th task taken from a lane's FIFO is the k-th
      that joined it, a chain of refusals is at most five long, and they grant at most 62 seconds. */
  lemma {:induction false} InvGuarantees(s: State, lane: LaneKey, id: TaskId)
    requires Inv(s)
    ensures Dequeues(s.history, lane) <= Enqueues(s.history, lane)
    ensures RefusalChain(s.history, id) <= MAX_RETRIES
    ensures RefusalDelay(s.history, id) <= 62.0
    ensures RefusalChain(s.history, id) == MAX_RETRIES && id in s.active ==> !Enabled(s, Refuse(id))
  {
    assert Enqueues(s.history, lane) == Dequeues(s.history, lane) + Fifo(s.waiting, lane);
    assert RefusalChain(s.history, id) <= Attempts(s, id);
    DelayBudgetOfAllRetries();
    DelayBudgetMonotone(Attempts(s, id), MAX_RETRIES);
  }

  // ------------------------------------------------------ stretches of a history

  /** `h` is `base` with more events: nothing that happened is ever forgotten. */
  ghost predicate Grows(h: History, base: History) {
    h == base || (h.After? && Grows(h.past, base))
  }

  /** `h` is `base` with more events, none of which dispatches a task. */
  ghost predicate NoStarts(h: History, base: History) {
    h == base || (
      && h.After? && !h.event.Started? && !h.event.Dropped? && !h.event.Dequeued?
      && (h.event.Enqueued? ==> !JustTaken(h.past, h.event.task))
      && NoStarts(h.past, base))
  }

  /** `h` is `base` with more events, none of which ends a spawn. */
  ghost predicate NoEnds(h: History, base: History) {
    h == base || (h.After? && !h.event.Refused? && !h.event.Resolved? && !h.event.Cancelled? && NoEnds(h.past, base))
  }

  lemma {:induction false} GrowsTransitive(h: History, mid: History, base: History)
    requires Grows(h, mid) && Grows(mid, base)
    ensures Grows(h, base)
  {
    if h != mid {
      GrowsTransitive(h.past, mid, base);
    }
  }

  lemma {:induction false} NoStartsTransitive(h: History, mid: History, base: History)
    requires NoStarts(h, mid) && NoStarts(mid, base)
    ensures NoStarts(h, base)
  {
    if h != mid {
      NoStartsTransitive(h.past, mid, base);
    }
  }

  lemma {:induction false} NoEndsTransitive(h: History, mid: History, base: History)
    requires NoEnds(h, mid) && NoEnds(mid, base)
    ensures NoEnds(h, base)
  {
    if h != mid {
      NoEndsTransitive(h.past, mid, base);
    }
  }

  lemma {:induction false} NoStartsCounts(h: History, base: History, id: TaskId)
    requires NoStarts(h, base)
    ensures Grows(h, base) && Starts(h, id) == Starts(base, id) && Tries(h) == Tries(base)
  {
    if h != base {
      NoStartsCounts(h.past, base, id);
    }
  }

  lemma {:induction false} NoEndsCounts(h: History, base: History, id: TaskId)
    requires NoEnds(h, base)
    ensures Grows(h, base) && Outcomes(h, id) == Outcomes(base, id) && Starts(h, id) >= Starts(base, id)
    ensures LastEnd(h, id) == LastEnd(base, id)
  {
    if h != base {
      NoEndsCounts(h.past, base, id);
    }
  }

  /** Between two states, first ends only and then starts only: the spawns that went have one more
      outcome each, nobody else has, and those left are still there. */
  lemma {:induction false} OneOutcomeEach(before: State, mid: State, after: State, id: TaskId)
    requires Inv(before) && Inv(mid) && Inv(after) && mid.active.Keys <= before.active.Keys
    requires NoStarts(mid.history, before.history) && NoEnds(after.history, mid.history)
    ensures Outcomes(after.history, id)
            == Outcomes(before.history, id) + if id in before.active && id !in mid.active then 1 else 0
    ensures id in mid.active ==> id in after.active
  {
    hide HeldOnce, LaneExclusive, FifoLaw, RetriesBounded;
    NoStartsCounts(mid.history, before.history, id);
    NoEndsCounts(after.history, mid.history, id);
    assert Starts(before.history, id) == Outcomes(before.history, id) + if id in before.active then 1 else 0;
    assert Starts(mid.history, id) == Outcomes(mid.history, id) + if id in mid.active then 1 else 0;
    assert Starts(after.history, id) == Outcomes(after.history, id) + if id in after.active then 1 else 0;
  }

  /** The task was let go after `base`. */
  ghost predicate DroppedSince(h: History, base: History, id: TaskId) {
    h != base && h.After? && ((h.event.Dropped? && h.event.id == id) || DroppedSince(h.past, base, id))
  }

  lemma {:induction false} DroppedStays(h: History, mid: History, base: History, id: TaskId)
    requires Grows(h, mid) && Grows(mid, base) && DroppedSince(mid, base, id)
    ensures DroppedSince(h, base, id)
  {
    if h != mid {
      DroppedStays(h.past, mid, base, id);
      GrowsTransitive(h.past, mid, base);
      GrowsIsLonger(h.past, base);
    }
  }

  lemma {:induction false} DroppedEarlier(h: History, mid: History, base: History, id: TaskId)
    requires Grows(h, mid) && Grows(mid, base) && DroppedSince(h, mid, id)
    ensures DroppedSince(h, base, id)
  {
    GrowsTransitive(h.past, mid, base);
    GrowsIsLonger(h.past, base);
    if !(h.event.Dropped? && h.event.id == id) {
      DroppedEarlier(h.past, mid, base, id);
    }
  }

  /** Later on a lane has been served at least what it had been served. */
  lemma {:induction false} DequeuesGrow(h: History, base: History, lane: LaneKey)
    requires Grows(h, base)
    ensures Dequeues(base, lane) <= Dequeues(h, lane)
  {
    if h != base {
      DequeuesGrow(h.past, base, lane);
    }
  }

  lemma {:induction false} NoStartsServesNone(h: History, base: History, lane: LaneKey)
    requires NoStarts(h, base)
    ensures Dequeues(h, lane) == Dequeues(base, lane)
  {
    if h != base {
      NoStartsServesNone(h.past, base, lane);
    }
  }

  ghost function Length(h: History): nat {
    if h.Empty? then 0 else Length(h.past) + 1
  }

  lemma {:induction false} GrowsIsLonger(h: History, base: History)
    requires Grows(h, base)
    ensures Length(h) >= Length(base)
  {
    if h != base {
      GrowsIsLonger(h.past, base);
    }
  }

  /** Dispatches tried: each ends in a start, a drop, or going back behind the lane. */
  ghost function Tries(h: History): nat {
    match h
    case Empty => 0
    case After(past, e) =>
      Tries(past) + if e.Started? || e.Dropped? || (e.Enqueued? && JustTaken(past, e.task)) then 1 else 0
  }

  // ------------------------------------------------ order, and what is reported

  ghost predicate NoRefusalsOn(h: History, lane: LaneKey) {
    h.Empty? || (NoRefusalsOn(h.past, lane) && !(h.event.Refused? && h.event.lane == lane))
  }

  ghost predicate JustTaken(h: History, t: Task) {
    h.After? && h.event == Dequeued(t)
  }

  /** No task taken from a FIFO was put back behind the others. */
  ghost predicate NeverBounced(h: History) {
    h.Empty? || (NeverBounced(h.past) && (h.event.Enqueued? ==> !JustTaken(h.past, h.event.task)))
  }

  /** No task was started past others waiting on this lane. */
  ghost predicate NeverOvertaken(h: History, lane: LaneKey) {
    h.Empty? || (
      && NeverOvertaken(h.past, lane)
      && (h.event.Started? && h.event.task.lane == lane && !JustTaken(h.past, h.event.task) ==>
            Enqueues(h.past, lane) == Dequeues(h.past, lane)))
  }

  /** The first task appended to its lane's FIFO that was not yet taken. */
  ghost predicate HeadOf(h: History, t: Task) {
    var taken, queued := Dequeues(h, t.lane), Enqueues(h, t.lane);
    taken <= queued && |taken| < |queued| && queued[|taken|] == t
  }

  /** The event that settles what became of a task just taken. */
  ghost predicate Settles(e: Event, t: Task) {
    || (e.Started? && e.task == t)
    || (e.Enqueued? && e.task == t)
    || (e.Dropped? && e.id == t.id)
  }

  /** Tasks are taken from the front only, and what became of one is settled at once. */
  ghost predicate Traceable(h: History) {
    h.Empty? || (
      && Traceable(h.past)
      && (h.event.Dequeued? ==> HeadOf(h.past, h.event.task))
      && (h.past.After? && h.past.event.Dequeued? ==> Settles(h.event, h.past.event.task)))
  }

  /** Tasks reaching a lane, in order: appended to its FIFO, or started without waiting. */
  ghost function Arrivals(h: History, lane: LaneKey): seq<Task> {
    match h
    case Empty => []
    case After(past, e) =>
      if (e.Enqueued? || (e.Started? && !JustTaken(past, e.task))) && e.task.lane == lane
      then Arrivals(past, lane) + [e.task] else Arrivals(past, lane)
  }

  /** Tasks started on a lane, in order. */
  ghost function LaneStarts(h: History, lane: LaneKey): seq<Task> {
    match h
    case Empty => []
    case After(past, e) =>
      if e.Started? && e.task.lane == lane then LaneStarts(past, lane) + [e.task] else LaneStarts(past, lane)
  }

  /** How a lane was done with a task: started, or let go right after being taken. */
  datatype Service = Service(task: Task, started: bool)

  ghost function Served(h: History, lane: LaneKey): seq<Service> {
    match h
    case Empty => []
    case After(past, e) =>
      if e.Started? && e.task.lane == lane then Served(past, lane) + [Service(e.task, true)]
      else if e.Dropped? && Taken(past, lane) != [] then Served(past, lane) + [Service(Taken(past, lane)[0], false)]
      else Served(past, lane)
  }

  ghost function TasksOf(ss: seq<Service>): seq<Task> {
    if ss == [] then [] else TasksOf(ss[..|ss| - 1]) + [ss[|ss| - 1].task]
  }

  ghost function StartedOf(ss: seq<Service>): seq<Task> {
    if ss == [] then []
    else StartedOf(ss[..|ss| - 1]) + if ss[|ss| - 1].started then [ss[|ss| - 1].task] else []
  }

  lemma {:induction false} ServiceSnoc(ss: seq<Service>, x: Service)
    ensures TasksOf(ss + [x]) == TasksOf(ss) + [x.task]
    ensures StartedOf(ss + [x]) == StartedOf(ss) + if x.started then [x.task] else []
  {
    assert (ss + [x])[..|ss|] == ss;
  }

  /** The starts on a lane are what it served, less what was let go. */
  lemma {:induction false} StartsAreServed(h: History, lane: LaneKey)
    ensures LaneStarts(h, lane) == StartedOf(Served(h, lane))
  {
    if h.After? {
      StartsAreServed(h.past, lane);
      var before, now := Served(h.past, lane), Served(h, lane);
      if now != before {
        ServiceSnoc(before, now[|before|]);
      }
    }
  }

  /** A task of the lane that has been taken and not yet settled. */
  ghost function Taken(h: History, lane: LaneKey): seq<Task> {
    if h.After? && h.event.Dequeued? && h.event.task.lane == lane then [h.event.task] else []
  }

  ghost function Untaken(h: History, lane: LaneKey): seq<Task> {
    var taken, queued := Dequeues(h, lane), Enqueues(h, lane);
    if |taken| <= |queued| then queued[|taken|..] else []
  }

  lemma {:induction false} TakenAreQueued(h: History, lane: LaneKey)
    requires Traceable(h)
    ensures Dequeues(h, lane) <= Enqueues(h, lane)
  {
    if h.After? {
      TakenAreQueued(h.past, lane);
    }
  }

  /** The account of a lane: what reached it was served, has just been taken, or waits. */
  ghost predicate Accounted(h: History, lane: LaneKey) {
    Arrivals(h, lane) == TasksOf(Served(h, lane)) + Taken(h, lane) + Untaken(h, lane)
  }

  lemma {:induction false} UntakenStep(past: History, e: Event, lane: LaneKey)
    requires Dequeues(past, lane) <= Enqueues(past, lane)
    requires e.Dequeued? && e.task.lane == lane ==> HeadOf(past, e.task)
    ensures var now := Untaken(After(past, e), lane);
            if e.Dequeued? && e.task.lane == lane then Untaken(past, lane) == [e.task] + now
            else if e.Enqueued? && e.task.lane == lane then now == Untaken(past, lane) + [e.task]
            else now == Untaken(past, lane)
  {
  }

  lemma {:induction false} AccountStep(past: History, e: Event, lane: LaneKey)
    requires Accounted(past, lane) && Dequeues(past, lane) <= Enqueues(past, lane)
    requires e.Dequeued? ==> HeadOf(past, e.task)
    requires past.After? && past.event.Dequeued? ==> e.Dropped? || (e.Started? && e.task == past.event.task)
    requires e.Started? && e.task.lane == lane && !JustTaken(past, e.task) ==> Untaken(past, lane) == []
    ensures Accounted(After(past, e), lane)
  {
    UntakenStep(past, e, lane);
    hide Untaken, Dequeues, Enqueues, HeadOf, TasksOf;
    var served := Served(past, lane);
    var l, u, u' := TasksOf(served), Untaken(past, lane), Untaken(After(past, e), lane);
    if e.Dropped? && Taken(past, lane) != [] {
      var x := Taken(past, lane)[0];
      ServiceSnoc(served, Service(x, false));
      Rebalance(l, x, u);
    } else if e.Started? && e.task.lane == lane {
      ServiceSnoc(served, Service(e.task, true));
      Rebalance(l, e.task, u);
    } else if e.Dequeued? || e.Enqueued? {
      Rebalance(l, e.task, u);
      Rebalance(l, e.task, u');
    }
  }

  lemma {:induction false} Rebalance(l: seq<Task>, x: Task, u: seq<Task>)
    ensures l + [] + ([x] + u) == l + [x] + u
    ensures l + [] + u + [x] == l + [] + (u + [x])
    ensures l + [x] + u == l + [x] + [] + u
    ensures l + [] + [] + [x] == l + [x] + [] + []
  {
  }

  /** Where nothing taken is put back and nothing overtakes, a lane serves its tasks exactly in the
      order in which they reached it. */
  lemma {:induction false} ServiceFollowsArrivals(h: History, lane: LaneKey)
    requires Traceable(h) && NeverBounced(h) && NeverOvertaken(h, lane)
    ensures Accounted(h, lane)
  {
    hide Accounted, HeadOf, Dequeues, Enqueues;
    if h.Empty? {
      NothingYet(lane);
    } else {
      ServiceFollowsArrivals(h.past, lane);
      TakenAreQueued(h.past, lane);
      AccountStep(h.past, h.event, lane);
    }
  }

  lemma {:induction false} NothingYet(lane: LaneKey)
    ensures Accounted(Empty, lane)
  {
  }

  // ------------------------------------------------------------- backoff armed

  /** The backoff that queueing has armed for a task since it last left the executor. */
  ghost function Armed(h: History, id: TaskId): real {
    match h
    case Empty => 0.0
    case After(past, e) =>
      if Leaves(e, id) then 0.0
      else Armed(past, id) + if e.Enqueued? && e.task.id == id then Delay(e.attempts) else 0.0
  }

  /** A delivery that has refusals behind it was taken off its queue and put back. */
  ghost predicate PutBack(h: History, id: TaskId) {
    h.After? && h.event.Enqueued? && h.event.task.id == id && h.event.attempts > 0 && JustTaken(h.past, h.event.task)
  }

  ghost function PutBacks(h: History, id: TaskId): nat {
    match h
    case Empty => 0
    case After(past, e) => if Leaves(e, id) then 0 else PutBacks(past, id) + if PutBack(h, id) then 1 else 0
  }

  /** The part of the armed backoff that putting back armed again. */
  ghost function Rearmed(h: History, id: TaskId): real {
    match h
    case Empty => 0.0
    case After(past, e) => if Leaves(e, id) then 0.0 else Rearmed(past, id) + if PutBack(h, id) then Delay(e.attempts) else 0.0
  }

  ghost predicate JustRefused(h: History, id: TaskId, attempts: nat) {
    h.After? && h.event.Refused? && h.event.id == id && h.event.attempts == attempts
  }

  /** A delivery is queued with refusals behind it only right after one of them or right after it was
      taken, and a refusal that is not an outcome is queued at once. */
  ghost predicate Justified(h: History) {
    h.Empty? || (
      && Justified(h.past)
      && (h.event.Enqueued? ==> QueueJustified(h.past, h.event.task, h.event.attempts))
      && (h.past.After? && h.past.event.Refused? ==>
            h.event.Enqueued? && h.event.task.id == h.past.event.id && h.event.attempts == h.past.event.attempts))
  }

  ghost predicate QueueJustified(past: History, t: Task, attempts: nat) {
    attempts <= MAX_RETRIES && (attempts > 0 ==> JustRefused(past, t.id, attempts) || JustTaken(past, t))
  }

  /** What a refusal is about to arm. */
  ghost function ToArm(h: History, id: TaskId): real {
    if h.After? && h.event.Refused? && h.event.id == id then Delay(h.event.attempts) else 0.0
  }

  /** The armed backoff is what the refusals granted and what putting back armed again. */
  lemma {:induction false} ArmedIs(h: History, id: TaskId)
    requires Justified(h)
    ensures Armed(h, id) + ToArm(h, id) == RefusalDelay(h, id) + Rearmed(h, id)
  {
    if h.After? {
      ArmedIs(h.past, id);
    }
  }

  lemma {:induction false} LongestDelay(attempts: nat)
    requires attempts <= MAX_RETRIES
    ensures Delay(attempts) <= 32.0 && (attempts > 0 ==> Delay(attempts) >= 2.0)
  {
    assert Pow2(1) == 2.0 && Pow2(2) == 4.0;
    assert Pow2(3) == 8.0 && Pow2(4) == 16.0;
  }

  lemma {:induction false} RearmedPerPutBack(h: History, id: TaskId)
    requires Justified(h)
    ensures 2.0 * PutBacks(h, id) as real <= Rearmed(h, id) <= 32.0 * PutBacks(h, id) as real
  {
    if h.After? {
      RearmedPerPutBack(h.past, id);
      if PutBack(h, id) {
        LongestDelay(h.event.attempts);
      }
    }
  }

  lemma {:induction false} NeverBouncedNeverPutBack(h: History, id: TaskId)
    requires NeverBounced(h)
    ensures PutBacks(h, id) == 0
  {
    if h.After? {
      NeverBouncedNeverPutBack(h.past, id);
    }
  }

  /** One delivery starts and the next, just taken as well, is put back. */
  lemma {:induction false} ServedThenPutBack(h: History, a: Task, attempts: nat, b: Task, k: nat)
    requires k > 0 && a.id != b.id
    ensures var h' := After(After(After(After(h, Dequeued(a)), Started(a, attempts)), Dequeued(b)), Enqueued(b, k));
            && Armed(h', b.id) == Armed(h, b.id) + Delay(k) && RefusalDelay(h', b.id) == RefusalDelay(h, b.id)
            && PutBacks(h', b.id) == PutBacks(h, b.id) + 1
  {
    var h1 := After(h, Dequeued(a));
    var h2 := After(h1, Started(a, attempts));
    var h3 := After(h2, Dequeued(b));
    assert Armed(h1, b.id) == Armed(h, b.id) && RefusalDelay(h1, b.id) == RefusalDelay(h, b.id) && PutBacks(h1, b.id) == PutBacks(h, b.id);
    assert Armed(h2, b.id) == Armed(h1, b.id) && RefusalDelay(h2, b.id) == RefusalDelay(h1, b.id) && PutBacks(h2, b.id) == PutBacks(h1, b.id);
    assert Armed(h3, b.id) == Armed(h2, b.id) && RefusalDelay(h3, b.id) == RefusalDelay(h2, b.id) && PutBacks(h3, b.id) == PutBacks(h2, b.id);
  }

  /** The backoff a delivery is held to: at most 62 seconds and 32 more for each time it was put back
      with refusals behind it.  It is what the refusals granted exactly when it never was. */
  lemma {:induction false} BackoffArmed(s: State, id: TaskId)
    requires Inv(s) && Justified(s.history)
    ensures Armed(s.history, id) <= 62.0 + 32.0 * PutBacks(s.history, id) as real
    ensures NeverBounced(s.history) ==> Armed(s.history, id) <= 62.0
    ensures ToArm(s.history, id) == 0.0 ==> (Armed(s.history, id) == RefusalDelay(s.history, id) <==> PutBacks(s.history, id) == 0)
  {
    hide Inv;
    ArmedIs(s.history, id);
    RearmedPerPutBack(s.history, id);
    InvGuarantees(s, NoLane, id);
    if NeverBounced(s.history) {
      NeverBouncedNeverPutBack(s.history, id);
    }
  }

  // ------------------------------------------------------- what main is told

  /** A request posted once. */
  datatype Message =
    | RequeueRequest(id: TaskId, retry: bool)
    | BlockRequest(id: TaskId)
    | ReleaseRequest(id: TaskId)

  function MessagesFor(e: Event): seq<Message> {
    match e
    case Resolved(id, exit) =>
      (match exit
       case Requeued(retry) => [RequeueRequest(id, retry)]
       case Parked => [BlockRequest(id)]
       case _ => [])
    case Dropped(id, reason) => if reason == Misplaced then [ReleaseRequest(id)] else []
    case _ => []
  }

  /** The requests a history calls for, in order. */
  ghost function Sent(h: History): seq<Message> {
    if h.Empty? then [] else Sent(h.past) + MessagesFor(h.event)
  }

  /** A terminal report: posted, and retried until it gets through. */
  datatype Verb = Complete | Fail

  datatype Key = Key(verb: Verb, id: TaskId)

  function ReportsFor(e: Event): seq<Key> {
    match e
    case Resolved(id, exit) =>
      (match exit
       case Completed => [Key(Complete, id)]
       case Failed => [Key(Fail, id)]
       case _ => [])
    case Dropped(id, reason) => if reason == LaunchFailed then [Key(Fail, id)] else []
    case _ => []
  }

  /** The terminal reports a history calls for, in order. */
  ghost function Reported(h: History): seq<Key> {
    if h.Empty? then [] else Reported(h.past) + ReportsFor(h.event)
  }

  /** How often an event happened. */
  ghost function Times(h: History, e: Event): nat {
    if h.Empty? then 0 else Times(h.past, e) + if h.event == e then 1 else 0
  }

  lemma {:induction false} AtMostOne<T>(xs: seq<T>, x: T)
    requires |xs| <= 1
    ensures multiset(xs)[x] == if xs == [x] then 1 else 0
  {
    if xs != [] {
      assert xs == [xs[0]];
    }
  }

  lemma {:induction false} EventReports(e: Event, id: TaskId)
    ensures multiset(ReportsFor(e))[Key(Complete, id)] == if e == Resolved(id, Completed) then 1 else 0
    ensures multiset(ReportsFor(e))[Key(Fail, id)] == if e == Resolved(id, Failed) || e == Dropped(id, LaunchFailed) then 1 else 0
  {
    AtMostOne(ReportsFor(e), Key(Complete, id));
    AtMostOne(ReportsFor(e), Key(Fail, id));
  }

  lemma {:induction false} EventRequests(e: Event, id: TaskId, retry: bool)
    ensures multiset(MessagesFor(e))[RequeueRequest(id, retry)] == if e == Resolved(id, Requeued(retry)) then 1 else 0
    ensures multiset(MessagesFor(e))[BlockRequest(id)] == if e == Resolved(id, Parked) then 1 else 0
    ensures multiset(MessagesFor(e))[ReleaseRequest(id)] == if e == Dropped(id, Misplaced) then 1 else 0
  {
    AtMostOne(MessagesFor(e), RequeueRequest(id, retry));
    AtMostOne(MessagesFor(e), BlockRequest(id));
    AtMostOne(MessagesFor(e), ReleaseRequest(id));
  }

  /** Main is told of each outcome once, by the report or request that it calls for, and of nothing else. */
  lemma {:induction false} MainIsTold(h: History, id: TaskId)
    ensures multiset(Reported(h))[Key(Complete, id)] == Times(h, Resolved(id, Completed))
    ensures multiset(Reported(h))[Key(Fail, id)] == Times(h, Resolved(id, Failed)) + Times(h, Dropped(id, LaunchFailed))
    ensures forall retry :: multiset(Sent(h))[RequeueRequest(id, retry)] == Times(h, Resolved(id, Requeued(retry)))
    ensures multiset(Sent(h))[BlockRequest(id)] == Times(h, Resolved(id, Parked))
    ensures multiset(Sent(h))[ReleaseRequest(id)] == Times(h, Dropped(id, Misplaced))
  {
    hide ReportsFor, MessagesFor;
    if h.After? {
      MainIsTold(h.past, id);
      EventReports(h.event, id);
      EventRequests(h.event, id, true);
      EventRequests(h.event, id, false);
      assert multiset(Reported(h)) == multiset(Reported(h.past)) + multiset(ReportsFor(h.event));
      assert multiset(Sent(h)) == multiset(Sent(h.past)) + multiset(MessagesFor(h.event));
    }
  }
}
