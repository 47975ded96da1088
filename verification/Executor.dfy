/** The agent executor in native hermes mode: a class over the source's own tables.

    `abs` is the protocol state that the tables implement; every method says which protocol steps
    it takes.  The board, process exits, posts and the clock are inputs of each poll cycle. */
module Executor {
  import opened Ids
  import opened LaneProtocol
  import opened LaneTables
  import opened Reap
  import Reports
  import NodeIds
  import Order
  import opened Basics

  datatype Row = Row(task: Task, running: bool, assignedTo: string)

  /** One poll cycle's inputs.  The board lists each task once: ids are the store's key. */
  datatype Cycle = Cycle(
    now: real,
    reportClock: real,
    cancelled: set<TaskId>,
    facts: TaskId -> Facts,
    delivered: set<Key>,
    diskBlocked: bool,
    board: Option<seq<Row>>)

  ghost predicate DistinctRows(rows: seq<Row>) {
    forall i, j :: 0 <= i < j < |rows| ==> rows[i].task.id != rows[j].task.id
  }

  /** The spawns a reap leaves running. */
  ghost function StillRunning(active: map<TaskId, Spawn>, c: Cycle): map<TaskId, Spawn> {
    map id | id in active && id !in c.cancelled && c.facts(id).rc.None? && !c.facts(id).overtime :: active[id]
  }

  /** The newest end of the task's spawn is the one its cancellation or its facts call for. */
  ghost predicate EndedRight(active: map<TaskId, Spawn>, queue: map<LaneKey, seq<Task>>, c: Cycle, retryLimit: nat, id: TaskId, h: History) {
    id in active && LastEnd(h, id).Some? &&
    if id in c.cancelled then LastEnd(h, id).value == Cancelled(id)
    else RightEnd(c.facts(id), active[id], |Fifo(queue, active[id].task.lane)| < 64, retryLimit, id, LastEnd(h, id).value)
  }

  /** Every spawn that a reap took away was ended rightly. */
  ghost predicate AllEndedRight(active: map<TaskId, Spawn>, queue: map<LaneKey, seq<Task>>, c: Cycle, retryLimit: nat, h: History) {
    forall id :: id in active && id !in StillRunning(active, c) ==> EndedRight(active, queue, c, retryLimit, id, h)
  }

  /** What the reap judges is what has finished. */
  lemma {:induction false} JudgedAreFinished(active: map<TaskId, Spawn>, kept: map<TaskId, Spawn>, c: Cycle, judged: set<TaskId>)
    requires kept == map id | id in active && id !in c.cancelled :: active[id]
    requires judged == set id | id in kept && Judge(c.facts(id), kept[id].task.lane).Some?
    ensures kept - judged == StillRunning(active, c)
    ensures forall id :: id in active && id !in StillRunning(active, c) ==> id in c.cancelled || id in judged
  {
    hide Judge;
    forall id | id in kept ensures id in judged <==> c.facts(id).rc.Some? || c.facts(id).overtime {
      JudgementIsSound(c.facts(id), kept[id].task.lane, 0, 0);
    }
  }

  /** While `judged` are still to be reaped: they and the queues behind them are untouched, and
      whoever else has finished or was cancelled was ended rightly. */
  ghost predicate ReapSoFar(t: Tables, active: map<TaskId, Spawn>, waiting: map<LaneKey, seq<Task>>, h: History, c: Cycle, retryLimit: nat, judged: set<TaskId>) {
    && (forall id :: id in judged ==>
          && id in t.active && id in active && active[id] == t.active[id]
          && Fifo(waiting, active[id].task.lane) == Fifo(t.queue, active[id].task.lane))
    && (forall id :: id in t.active && id !in StillRunning(t.active, c) && id !in judged ==>
          EndedRight(t.active, t.queue, c, retryLimit, id, h))
  }

  lemma {:induction false} ReapBegins(t: Tables, active: map<TaskId, Spawn>, s: State, s': State, c: Cycle, retryLimit: nat, judged: set<TaskId>)
    requires active == map id | id in t.active && id !in c.cancelled :: t.active[id]
    requires judged <= active.Keys && s'.waiting == s.waiting
    requires forall id :: id in t.active && id !in StillRunning(t.active, c) ==> id in c.cancelled || id in judged
    requires forall id :: id in t.active ==> Fifo(s.waiting, t.active[id].task.lane) == Fifo(t.queue, t.active[id].task.lane)
    requires forall id :: id in t.active && id in c.cancelled ==> LastEnd(s'.history, id) == Some(Cancelled(id))
    ensures ReapSoFar(t, active, s'.waiting, s'.history, c, retryLimit, judged)
  {
    hide StillRunning, LastEnd, Fifo, RightEnd;
  }

  lemma {:induction false} ReapEnds(t: Tables, active: map<TaskId, Spawn>, s: State, c: Cycle, retryLimit: nat)
    requires ReapSoFar(t, active, s.waiting, s.history, c, retryLimit, {})
    ensures AllEndedRight(t.active, t.queue, c, retryLimit, s.history)
  {
    hide StillRunning, EndedRight;
  }

  lemma {:induction false} ReapStep(t: Tables, s: State, queue: map<LaneKey, seq<Task>>, s': State, c: Cycle, retryLimit: nat, judged: set<TaskId>, id: TaskId)
    requires ReapSoFar(t, s.active, s.waiting, s.history, c, retryLimit, judged) && id in judged && s'.active == s.active - {id}
    requires Fifo(s.waiting, s.active[id].task.lane) == Fifo(queue, s.active[id].task.lane)
    requires EndedRight(s.active, queue, c, retryLimit, id, s'.history)
    requires OthersEndAsBefore(s.history, s'.history, id) && OthersWaitAsBefore(s, s', id)
    ensures ReapSoFar(t, s'.active, s'.waiting, s'.history, c, retryLimit, judged - {id})
  {
    hide RightEnd, LastEnd, Fifo, StillRunning;
    assert EndedRight(t.active, t.queue, c, retryLimit, id, s'.history);
    forall x | x in t.active && x !in StillRunning(t.active, c) && x !in judged
      ensures EndedRight(t.active, t.queue, c, retryLimit, x, s'.history)
    {
      assert EndedRight(t.active, t.queue, c, retryLimit, x, s.history);
    }
  }

  lemma {:induction false} EndedRightStays(active: map<TaskId, Spawn>, queue: map<LaneKey, seq<Task>>, c: Cycle, retryLimit: nat, h: History, h': History)
    requires AllEndedRight(active, queue, c, retryLimit, h) && NoEnds(h', h)
    ensures AllEndedRight(active, queue, c, retryLimit, h')
  {
    forall id | id in active && id !in StillRunning(active, c) ensures EndedRight(active, queue, c, retryLimit, id, h') {
      assert EndedRight(active, queue, c, retryLimit, id, h);
      NoEndsCounts(h', h, id);
    }
  }

  lemma {:induction false} ReapedAreFewer(active: map<TaskId, Spawn>, c: Cycle)
    ensures StillRunning(active, c).Keys <= active.Keys && |StillRunning(active, c)| <= |active|
  {
    SubsetSize(StillRunning(active, c).Keys, active.Keys);
  }

  predicate Eligible(r: Row, taken: set<TaskId>, me: string) {
    r.running && NodeIds.IsAssignedToMe(r.assignedTo, me) && r.task.id !in taken
  }

  predicate PriorityLe(a: Task, b: Task) {
    a.priority <= b.priority
  }

  lemma {:induction false} InsertKeepsDistinct(x: Task, xs: seq<Task>)
    requires DistinctIds(xs) && forall i :: 0 <= i < |xs| ==> xs[i].id != x.id
    ensures DistinctIds(Order.Insert(x, xs, PriorityLe))
  {
    if xs != [] && !PriorityLe(x, xs[0]) {
      var rest := Order.Insert(x, xs[1..], PriorityLe);
      InsertKeepsDistinct(x, xs[1..]);
      Order.InsertAddsOnly(x, xs[1..], PriorityLe);
      forall j | 0 <= j < |rest| ensures rest[j].id != xs[0].id {
        if rest[j] != x {
          var k :| 0 <= k < |xs[1..]| && xs[1..][k] == rest[j];
          assert rest[j] == xs[k + 1];
        }
      }
    }
  }

  lemma {:induction false} SortKeepsDistinct(xs: seq<Task>)
    requires DistinctIds(xs)
    ensures DistinctIds(Order.Sort(xs, PriorityLe))
    ensures forall t :: t in Order.Sort(xs, PriorityLe) <==> t in xs
  {
    Order.SortKeepsElements(xs, PriorityLe);
    Order.SameElements(Order.Sort(xs, PriorityLe), xs);
    if xs != [] {
      var rest := Order.Sort(xs[1..], PriorityLe);
      SortKeepsDistinct(xs[1..]);
      forall j | 0 <= j < |rest| ensures rest[j].id != xs[0].id {
        assert rest[j] in xs[1..];
        var k :| 0 <= k < |xs[1..]| && xs[1..][k] == rest[j];
        assert rest[j] == xs[k + 1];
      }
      InsertKeepsDistinct(xs[0], rest);
    }
  }

  /** The tasks come in the order of the board's listing. */
  ghost predicate InListing(rows: seq<Row>, ts: seq<Task>) {
    forall a, b, i, j :: 0 <= a < b < |ts| && 0 <= i < |rows| && 0 <= j < |rows| && ts[a] == rows[i].task && ts[b] == rows[j].task ==> i < j
  }

  lemma {:induction false} ListNext(rows: seq<Row>, ts: seq<Task>, n: nat)
    requires InListing(rows, ts) && DistinctRows(rows) && n < |rows|
    requires forall t :: t in ts ==> exists i :: 0 <= i < n && rows[i].task == t
    ensures InListing(rows, ts + [rows[n].task])
  {
    var more := ts + [rows[n].task];
    forall a, b, i, j | 0 <= a < b < |more| && 0 <= i < |rows| && 0 <= j < |rows| && more[a] == rows[i].task && more[b] == rows[j].task
      ensures i < j
    {
      assert ts[a] in ts;
      if b < |ts| {
        assert more[b] == ts[b];
      } else {
        var k :| 0 <= k < n && rows[k].task == ts[a];
        assert k == i && j == n;
      }
    }
  }

  /** Of the candidates in serving order, those claimed are more urgent than those that wait, or as
      urgent and listed before. */
  lemma {:induction false} EarlierIsMoreUrgent(rows: seq<Row>, candidates: seq<Task>, cut: nat, k: nat, i: nat, j: nat)
    requires i < |rows| && j < |rows| && DistinctIds(candidates) && InListing(rows, candidates)
    requires var sorted := Order.Sort(candidates, PriorityLe); cut <= k < |sorted| && sorted[k] == rows[i].task && rows[j].task in sorted[..cut]
    ensures rows[j].task.priority < rows[i].task.priority || (rows[j].task.priority == rows[i].task.priority && j < i)
  {
    Order.SortSorts(candidates, PriorityLe);
    Order.SortKeepsElements(candidates, PriorityLe);
    var sorted := Order.Sort(candidates, PriorityLe);
    Order.SameElements(sorted, candidates);
    var p :| 0 <= p < cut && sorted[..cut][p] == rows[j].task;
    assert PriorityLe(sorted[p], sorted[k]) && sorted[p] in candidates && sorted[k] in candidates;
    if PriorityLe(sorted[k], sorted[p]) {
      var a :| 0 <= a < |candidates| && candidates[a] == sorted[p];
      var b :| 0 <= b < |candidates| && candidates[b] == sorted[k];
      Order.SortIsStable(candidates, PriorityLe, p, k, a, b);
    }
  }

  /** The posts once an event's terminal report, if it has one, has been submitted. */
  ghost function WithReport(h: Reports.Posts, e: Event, body: string, ok: bool, at: real): Reports.Posts {
    if ReportsFor(e) == [] then h else Reports.Then(h, Reports.Submitted(ReportsFor(e)[0], body, ok, at))
  }

  lemma {:induction false} ReportSubmits(h: Reports.Posts, e: Event, body: string, ok: bool, at: real)
    ensures var h' := WithReport(h, e, body, ok, at);
            Reports.Submits(h', h, at) && Reports.Submissions(h') == Reports.Submissions(h) + ReportsFor(e)
  {
    assert Reports.Submits(h, h, at);
  }

  // ------------------------------------------------- completions main has not taken

  /** The task has completed here and main has not taken the report yet. */
  ghost predicate Unreported(h: Reports.Posts, id: TaskId) {
    Reports.StatusOf(h, Key(Complete, id)).Owed?
  }

  /** Nothing is held here that has completed and is not reported yet. */
  ghost predicate NoneUnreported(s: State, h: Reports.Posts) {
    forall id :: Tracked(s, id) ==> !Unreported(h, id)
  }

  /** No completion came to be owed. */
  ghost predicate NoMoreUnreported(h: Reports.Posts, h': Reports.Posts) {
    forall id :: Unreported(h', id) ==> Unreported(h, id)
  }

  lemma {:induction false} ReportOwes(h: Reports.Posts, e: Event, body: string, ok: bool, at: real, id: TaskId)
    requires Unreported(WithReport(h, e, body, ok, at), id) && !Unreported(h, id)
    ensures e == Resolved(id, Completed)
  {
  }

  lemma {:induction false} OtherReportsOweNone(h: Reports.Posts, e: Event, body: string, ok: bool, at: real)
    requires !e.Resolved?
    ensures NoMoreUnreported(h, WithReport(h, e, body, ok, at))
  {
    forall id | Unreported(WithReport(h, e, body, ok, at), id) ensures Unreported(h, id) {
    }
  }

  /** A step that picks nothing keeps that, if the only completion that comes to be owed is its own. */
  lemma {:induction false} StepKeepsReported(s: State, step: Step, h: Reports.Posts, h': Reports.Posts)
    requires Inv(s) && Enabled(s, step) && NoneUnreported(s, h) && !step.Pick?
    requires forall id :: Unreported(h', id) && !Unreported(h, id) ==> step.Resolve? && step.id == id
    ensures NoneUnreported(Apply(s, step), h')
  {
    hide Inv, Enabled, Apply, Tracked, Unreported;
    forall id | Tracked(Apply(s, step), id) ensures !Unreported(h', id) {
      TrackedAfter(s, step, id);
    }
  }

  lemma {:induction false} PickKeepsReported(s: State, hand: map<TaskId, nat>, id: TaskId, h: Reports.Posts)
    requires NoneUnreported(s, h) && s.inHand == map[] && hand.Keys == {id} && !Unreported(h, id)
    ensures NoneUnreported(s.(inHand := hand), h)
  {
    hide Unreported;
  }

  lemma {:induction false} DrainKeepsReported(s: State, h: Reports.Posts, pending: map<Key, Reports.Entry>, h': Reports.Posts, now: real, delivered: set<Key>)
    requires NoneUnreported(s, h)
    requires forall key :: Reports.StatusOf(h', key) == Reports.AfterDrain(h, pending, key, now, delivered)
    ensures NoneUnreported(s, h')
  {
    forall id | Tracked(s, id) ensures !Unreported(h', id) {
      assert !Unreported(h, id);
      assert Reports.StatusOf(h', Key(Complete, id)) == Reports.AfterDrain(h, pending, Key(Complete, id), now, delivered);
    }
  }

  /** A completion whose post fails leaves the task in no table: a board that still lists it as running
      here makes it a candidate again. */
  lemma {:induction false} CompletedCanRunAgain(s: State, id: TaskId, h: Reports.Posts, body: string, at: real, row: Row, me: string, taken: set<TaskId>)
    requires Inv(s) && s.inHand == map[] && id in s.active && row.task.id == id
    requires row.running && NodeIds.IsAssignedToMe(row.assignedTo, me)
    ensures var e := Resolved(id, Completed);
            var s', h' := AfterEnd(s, id, e), WithReport(h, e, body, false, at);
            && !Tracked(s', id) && Unreported(h', id)
            && ((forall x :: x in taken <==> Tracked(s', x)) ==> Eligible(row, taken, me))
  {
    TrackedAfter(s, Resolve(id, Completed), id);
  }

  class AgentExecutor {
    const nodeId: string
    const maxConcurrent: int
    const retryLimit: nat
    const outbox: Reports.Outbox

    var active: map<TaskId, Spawn>
    var queue: map<LaneKey, seq<Task>>
    var released: map<LaneKey, seq<Task>>
    var meta: map<TaskId, Backoff>
    var persisted: set<TaskId>
    var sent: seq<Message>    // requests posted to main, in order

    ghost var abs: State
    ghost var steady: bool    // the clock never ran backwards
    ghost var lastPoll: real
    ghost var clean: bool     // no board ever offered a task whose completion was still owed

    constructor (nodeId: string, maxConcurrent: int, retryLimit: nat)
      ensures Valid() && fresh(outbox) && steady && clean
      ensures this.nodeId == nodeId && this.maxConcurrent == maxConcurrent && this.retryLimit == retryLimit
      ensures active == map[] && abs == Initial && outbox.posts == Reports.NoPosts
    {
      this.nodeId, this.maxConcurrent, this.retryLimit := nodeId, maxConcurrent, retryLimit;
      outbox := new Reports.Outbox();
      active, queue, released, meta, persisted, sent := map[], map[], map[], map[], {}, [];
      abs, steady, lastPoll, clean := Initial, true, 0.0, true;
      new;
      InitialInv();
      assert forall lane :: LaneCoupled(Current(), abs, [], lane);
      assert forall lane :: LaneOrderly(lastPoll, abs, lane);
    }

    ghost function Current(): Tables
      reads this, outbox
    {
      Tables(active, queue, released, meta, sent, Reports.Submissions(outbox.posts))
    }

    /** Consistent tables, with `hand` drained and not yet dispatched: what is posted is what the
        history calls for. */
    ghost predicate Holding(hand: seq<Task>)
      reads this, outbox
    {
      && outbox.Valid()
      && Inv(abs)
      && Implements(Current(), abs, hand) && persisted == active.Keys
      && (clean ==> NoneUnreported(abs, outbox.posts))
    }

    ghost predicate InOrder()
      reads this
    {
      Orderly(maxConcurrent, steady, lastPoll, abs) && Settled(abs.history)
    }

    /** What holds between poll cycles: lane exclusion, single tracking, FIFO, conservation, bounded
        retries and bounded queues through `Inv`, plus capacity and serving order. */
    ghost predicate Valid()
      reads this, outbox
    {
      && Holding([]) && abs.inHand == map[]
      && (|active| == 0 || |active| <= maxConcurrent)
      && InOrder() && ReleasedIdle(Current())
    }

    /** Append a task to its lane's FIFO unless the FIFO is full. */
    method QueueForLane(task: Task, attempts: nat, now: real, ghost hand: seq<Task>) returns (ok: bool)
      requires Inv(abs) && Implements(Current(), abs, hand)
      requires task.lane != NoLane && task.id in abs.inHand && abs.inHand[task.id] == attempts
      modifies this`queue, this`meta, this`abs
      ensures ok <==> |Fifo(old(queue), task.lane)| < LANE_QUEUE_LIMIT
      ensures Implements(Current(), abs, hand)
      ensures abs == if ok then AfterEnqueue(old(abs), task, now) else old(abs)
      ensures !ok ==> Current() == old(Current())
      ensures QueuesGrow(old(queue), queue)
    {
      hide Inv, Implements, NoneUnreported;
      var q := Fifo(queue, task.lane);
      if |q| >= LANE_QUEUE_LIMIT {
        return false;
      }
      if exists i :: 0 <= i < |q| && q[i].id == task.id {
        // A task in hand waits nowhere, so the re-scan guard never fires.
        InHandIsNotQueued(Current(), abs, hand, task);
        assert false;
      }
      EnqueueImplements(Current(), abs, hand, task, now);
      queue := queue[task.lane := q + [task]];
      meta := meta[task.id := Backoff(attempts, now + Delay(attempts))];
      abs := AfterEnqueue(abs, task, now);
      return true;
    }

    method ReportCompletion(id: TaskId, body: string, posted: bool, clock: real)
      requires outbox.Valid()
      modifies outbox
      ensures outbox.Valid()
      ensures outbox.posts == Reports.Then(old(outbox.posts), Reports.Submitted(Key(Complete, id), body, posted, clock))
    {
      outbox.QueueReport(Complete, id, body, posted, clock);
    }

    method ReportFailure(id: TaskId, reason: string, posted: bool, clock: real)
      requires outbox.Valid()
      modifies outbox
      ensures outbox.Valid()
      ensures outbox.posts == Reports.Then(old(outbox.posts), Reports.Submitted(Key(Fail, id), reason, posted, clock))
    {
      outbox.QueueReport(Fail, id, reason, posted, clock);
    }

    /** Let the task in hand go, telling the main node what the reason calls for. */
    method LetGo(task: Task, why: DropReason, posted: bool, clock: real, ghost hand: seq<Task>)
      requires Holding(hand) && task.id in abs.inHand
      modifies this`sent, this`abs, outbox
      ensures Holding(hand)
      ensures abs == AfterDrop(old(abs), task, why)
      ensures sent == old(sent) + MessagesFor(Dropped(task.id, why))
      ensures outbox.posts == WithReport(old(outbox.posts), Dropped(task.id, why), "executor_error", posted, clock)
    {
      hide Inv, Implements, NoneUnreported;
      DropImplements(Current(), abs, hand, task, why);
      StepKeepsInv(abs, Drop(task, why));
      ReportSubmits(outbox.posts, Dropped(task.id, why), "executor_error", posted, clock);
      OtherReportsOweNone(outbox.posts, Dropped(task.id, why), "executor_error", posted, clock);
      if clean {
        StepKeepsReported(abs, Drop(task, why), outbox.posts,
                          WithReport(outbox.posts, Dropped(task.id, why), "executor_error", posted, clock));
      }
      match why {
        case Misplaced =>
          sent := sent + [ReleaseRequest(task.id)];
        case LaunchFailed =>
          ReportFailure(task.id, "executor_error", posted, clock);
          assert sent + [] == sent;
      }
      abs := AfterDrop(abs, task, why);
      assert Current() == Telling(old(Current()), Dropped(task.id, why));
    }

    method StartWorker(task: Task, ghost hand: seq<Task>)
      requires Holding(hand) && LaneIdle(abs, task.lane)
      requires task.id in abs.inHand && abs.inHand[task.id] == CarriedAttempts(meta, task.id)
      modifies this`active, this`persisted, this`abs
      ensures Holding(hand)
      ensures abs == AfterStart(old(abs), task)
    {
      hide Inv, Implements, NoneUnreported;
      StartImplements(Current(), abs, hand, task);
      StepKeepsInv(abs, Start(task));
      if clean {
        StepKeepsReported(abs, Start(task), outbox.posts, outbox.posts);
      }
      active := active[task.id := Spawn(task, CarriedAttempts(meta, task.id))];
      persisted := persisted + {task.id};
      abs := AfterStart(abs, task);
    }

    /** Queue a task behind the delivery in flight on its lane; there is always room for it. */
    method WaitBehind(task: Task, now: real, ghost hand: seq<Task>)
      requires Holding(hand) && task.lane != NoLane && |Fifo(abs.waiting, task.lane)| < LANE_QUEUE_LIMIT
      requires task.id in abs.inHand && abs.inHand[task.id] == CarriedAttempts(meta, task.id)
      modifies this`queue, this`meta, this`abs
      ensures Holding(hand) && QueuesGrow(old(queue), queue)
      ensures abs == AfterEnqueue(old(abs), task, now)
    {
      hide Inv, Implements, NoneUnreported;
      QueueFits(Current(), abs, hand, task.lane);
      StepKeepsInv(abs, Enqueue(task, now));
      if clean {
        StepKeepsReported(abs, Enqueue(task, now), outbox.posts, outbox.posts);
      }
      var ok := QueueForLane(task, CarriedAttempts(meta, task.id), now, hand);
    }

    /** Dispatch the task in hand: release a misplaced lane, queue behind a busy one, or start. */
    method SpawnWorker(task: Task, launch: Launch, posted: bool, now: real, clock: real, ghost hand: seq<Task>)
      requires Holding(hand) && abs.inHand == map[task.id := CarriedAttempts(meta, task.id)]
      requires task.lane != NoLane && LaneBusy(active, task.lane) ==> |Fifo(abs.waiting, task.lane)| < LANE_QUEUE_LIMIT
      modifies this`active, this`queue, this`meta, this`persisted, this`sent, this`abs, outbox
      ensures Holding(hand) && QueuesGrow(old(queue), queue)
      ensures abs == AfterDispatch(old(abs), task, launch, now)
      ensures Reports.Submits(outbox.posts, old(outbox.posts), clock) && NoMoreUnreported(old(outbox.posts), outbox.posts)
    {
      hide Inv, Implements, NoneUnreported, AfterEnqueue, AfterStart, AfterDrop;
      SameSpawnsAndBackoffs(Current(), abs, hand);
      assert Reports.Submits(outbox.posts, outbox.posts, clock);
      if task.lane != NoLane && launch == PlacedElsewhere {
        ReportSubmits(outbox.posts, Dropped(task.id, Misplaced), "executor_error", posted, clock);
        OtherReportsOweNone(outbox.posts, Dropped(task.id, Misplaced), "executor_error", posted, clock);
        LetGo(task, Misplaced, posted, clock, hand);
      } else if task.lane != NoLane && LaneBusy(active, task.lane) {
        WaitBehind(task, now, hand);
      } else if launch == CannotLaunch {
        ReportSubmits(outbox.posts, Dropped(task.id, LaunchFailed), "executor_error", posted, clock);
        OtherReportsOweNone(outbox.posts, Dropped(task.id, LaunchFailed), "executor_error", posted, clock);
        LetGo(task, LaunchFailed, posted, clock, hand);
      } else {
        StartWorker(task, hand);
      }
    }

    // ----------------------------------------------------------------- reaping

    /** A busy refusal goes back to the tail of its lane with one more attempt spent, if it may. */
    method RequeueBusyRefusal(spawn: Spawn, now: real) returns (requeued: bool)
      requires spawn.task.lane != NoLane
      requires spawn.refusals < MAX_RETRIES ==>
                 && Inv(abs) && Implements(Current(), abs, [])
                 && spawn.task.id in abs.inHand && abs.inHand[spawn.task.id] == spawn.refusals + 1
      modifies this`queue, this`meta, this`persisted, this`abs
      ensures requeued <==> spawn.refusals < MAX_RETRIES && |Fifo(old(queue), spawn.task.lane)| < LANE_QUEUE_LIMIT
      ensures requeued ==> Implements(Current(), abs, []) && abs == AfterEnqueue(old(abs), spawn.task, now)
                           && persisted == old(persisted) - {spawn.task.id}
      ensures !requeued ==> Current() == old(Current()) && persisted == old(persisted) && abs == old(abs)
    {
      hide Inv, Implements, NoneUnreported;
      var attempts := spawn.refusals + 1;
      if attempts > MAX_RETRIES {
        return false;
      }
      requeued := QueueForLane(spawn.task, attempts, now, []);
      if requeued {
        persisted := persisted - {spawn.task.id};
      }
    }

    /** Report a spawn that has left the table for good: one request, or one terminal report. */
    method ReportOutcome(id: TaskId, o: Outcome, f: Facts, deliveries: nat, clock: real)
      requires outbox.Valid()
      modifies this`sent, outbox
      ensures outbox.Valid()
      ensures var e := Resolved(id, ExitFor(o, f, deliveries, retryLimit));
              sent == old(sent) + MessagesFor(e)
              && outbox.posts == WithReport(old(outbox.posts), e, f.body, f.posted, clock)
    {
      assert sent + [] == sent;
      match o {
        case Done => ReportCompletion(id, f.body, f.posted, clock);
        case TranscriptPromoted => ReportCompletion(id, f.body, f.posted, clock);
        case Blocked =>
          if f.ballotAtReport {
            sent := sent + [BlockRequest(id)];
          } else {
            ReportCompletion(id, f.body, f.posted, clock);
          }
        case NonDeliverable =>
          var willExceed := deliveries >= retryLimit;
          sent := sent + [RequeueRequest(id, !willExceed)];
        case _ => ReportFailure(id, f.body, f.posted, clock);
      }
    }

    /** Take a spawn out of the tables for good and report it. */
    method EndSpawn(id: TaskId, spawn: Spawn, o: Outcome, f: Facts, clock: real, ghost before: State)
      requires outbox.Valid() && Inv(before) && before.active.Keys == persisted && id in before.active
      requires Implements(Current().(active := before.active, meta := before.meta), before, [])
      requires active == before.active - {id} && meta == before.meta - {id} && spawn == before.active[id]
      requires clean ==> NoneUnreported(before, outbox.posts)
      modifies this`persisted, this`sent, this`abs, outbox
      ensures Holding([]) && abs == AfterEnd(before, id, Resolved(id, ExitFor(o, f, spawn.task.deliveries, retryLimit)))
      ensures Reports.Submits(outbox.posts, old(outbox.posts), clock)
    {
      hide Inv, Implements, NoneUnreported;
      ghost var e := Resolved(id, ExitFor(o, f, spawn.task.deliveries, retryLimit));
      ghost var t := Current().(active := before.active, meta := before.meta);
      EndImplements(t, before, [], id, e);
      StepKeepsInv(before, Resolve(id, e.exit));
      ReportSubmits(outbox.posts, e, f.body, f.posted, clock);
      if clean {
        EndKeepsReported(before, id, e.exit, outbox.posts, f.body, f.posted, clock);
      }
      persisted := persisted - {id};
      ReportOutcome(id, o, f, spawn.task.deliveries, clock);
      abs := AfterEnd(before, id, e);
      assert Current() == Telling(t.(active := t.active - {id}, meta := t.meta - {id}), e);
    }

    /** Put a refused spawn that has just left the table back on its lane, if it may go there. */
    method TryRequeue(id: TaskId, spawn: Spawn, now: real, ghost before: State) returns (requeued: bool)
      requires outbox.Valid() && Inv(before) && abs == before && before.active.Keys == persisted && id in before.active
      requires Implements(Current().(active := before.active, meta := before.meta), before, [])
      requires active == before.active - {id} && meta == before.meta - {id} && spawn == before.active[id] && spawn.task.id == id
      requires spawn.task.lane != NoLane && Fifo(before.waiting, spawn.task.lane) == Fifo(queue, spawn.task.lane)
      requires clean ==> NoneUnreported(before, outbox.posts)
      modifies this`queue, this`meta, this`persisted, this`abs
      ensures requeued <==> spawn.refusals < MAX_RETRIES && |Fifo(old(queue), spawn.task.lane)| < LANE_QUEUE_LIMIT
      ensures requeued ==> Holding([]) && abs == AfterEnqueue(AfterRefuse(before, id), spawn.task, now)
      ensures !requeued ==> Current() == old(Current()) && persisted == old(persisted) && abs == before
    {
      hide Inv, Implements, NoneUnreported, AfterEnqueue, AfterRefuse;
      if spawn.refusals < MAX_RETRIES {
        RefuseImplements(Current().(active := before.active, meta := before.meta), before, [], id);
        StepKeepsInv(before, Refuse(id));
        RefusedInHand(before, id);
        RefusedWaits(before, id);
        if |Fifo(queue, spawn.task.lane)| < LANE_QUEUE_LIMIT {
          StepKeepsInv(AfterRefuse(before, id), Enqueue(spawn.task, now));
        }
        if clean {
          RefusalKeepsReported(before, id, queue, now, outbox.posts);
        }
        abs := AfterRefuse(before, id);
        assert Current() == Current().(active := before.active - {id}, meta := before.meta - {id});
      }
      requeued := RequeueBusyRefusal(spawn, now);
      if requeued {
        RequeuedSpawns(before, id, spawn.task, now);
        SameSpawnsAndBackoffs(Current(), abs, []);
      } else {
        abs := before;
      }
    }

    /** Take one judged spawn out of the table: back to its lane, or out with one report. */
    method ResolveOne(id: TaskId, o: Outcome, f: Facts, now: real, clock: real)
      requires Holding([]) && abs.inHand == map[] && id in active && ReleasedIdle(Current())
      requires o == LaneBusyRefused ==> active[id].task.lane != NoLane
      modifies this`active, this`queue, this`meta, this`persisted, this`sent, this`abs, outbox
      ensures Holding([]) && abs.inHand == map[] && active == old(active) - {id}
      ensures id in old(abs).active && old(abs).active[id].task.id == id
      ensures abs == ResolveSpawn(old(abs), old(queue), id, o, f, retryLimit, now)
      ensures Reports.Submits(outbox.posts, old(outbox.posts), clock)
    {
      hide Inv, Implements, NoneUnreported, AfterEnqueue, AfterEnd, AfterRefuse, ReleasedIdle;
      SameSpawnsAndBackoffs(Current(), abs, []);
      QueueOfActive(Current(), abs, id);
      ResolvingKeepsInv(abs, queue, id, o, f, retryLimit, now);
      NoneSubmitted(outbox.posts, clock);
      var spawn := active[id];
      ghost var before := abs;
      active := active - {id};
      meta := meta - {id};
      if o == LaneBusyRefused {
        var requeued := TryRequeue(id, spawn, now, before);
        if requeued {
          return;
        }
      }
      EndSpawn(id, spawn, o, f, clock, before);
    }

    /** Drop the spawn of a task that the main node says is cancelled. */
    method CancelOne(id: TaskId)
      requires Holding([]) && abs.inHand == map[] && id in active
      modifies this`active, this`meta, this`persisted, this`abs
      ensures Holding([]) && abs.inHand == map[] && active == old(active) - {id}
      ensures abs == AfterEnd(old(abs), id, Cancelled(id))
    {
      hide Inv, Implements, NoneUnreported;
      SameSpawnsAndBackoffs(Current(), abs, []);
      StepKeepsInv(abs, Cancel(id));
      EndImplements(Current(), abs, [], id, Cancelled(id));
      if clean {
        StepKeepsReported(abs, Cancel(id), outbox.posts, outbox.posts);
      }
      active := active - {id};
      persisted := persisted - {id};
      meta := meta - {id};
      abs := AfterEnd(abs, id, Cancelled(id));
      assert Current() == Telling(old(Current()).(active := active, meta := meta), Cancelled(id));
    }

    /** Cancelled tasks lose their spawn before anything is judged. */
    method SweepCancelledSpawns(c: Cycle)
      requires Holding([]) && abs.inHand == map[] && InOrder()
      modifies this`active, this`meta, this`persisted, this`abs
      ensures Holding([]) && abs.inHand == map[] && InOrder()
      ensures active == map id | id in old(active) && id !in c.cancelled :: old(active)[id]
      ensures NoStarts(abs.history, old(abs).history) && abs.waiting == old(abs).waiting
      ensures forall id :: id in old(active) && id in c.cancelled ==> LastEnd(abs.history, id) == Some(Cancelled(id))
      ensures ReapFrame(old(abs), abs)
    {
      hide Inv, Implements, NoneUnreported, Orderly, Settled, CancelledSoFar;
      var todo := set id | id in active && id in c.cancelled;
      SameSpawnsAndBackoffs(Current(), abs, []);
      CancelBegins(abs, c.cancelled);
      while todo != {}
        invariant CancelledSoFar(old(abs), abs, c.cancelled, todo)
        invariant Holding([]) && abs.inHand == map[] && InOrder() && abs.active == active
        invariant todo <= active.Keys && todo <= c.cancelled
        decreases todo
      {
        var id :| id in todo;
        EndingKeepsOrderly(maxConcurrent, steady, lastPoll, abs, id, Cancelled(id));
        CancelStep(old(abs), abs, c.cancelled, todo, id);
        CancelOne(id);
        SameSpawnsAndBackoffs(Current(), abs, []);
        todo := todo - {id};
      }
      CancelEnds(old(abs), abs, c.cancelled);
    }

    /** Judge and resolve one spawn, if it is finished. */
    method ReapOne(id: TaskId, c: Cycle)
      requires Holding([]) && abs.inHand == map[] && InOrder() && ReleasedIdle(Current()) && lastPoll == c.now
      requires id in active && id !in c.cancelled && Judge(c.facts(id), active[id].task.lane).Some?
      modifies this`active, this`queue, this`meta, this`persisted, this`sent, this`abs, outbox
      ensures Holding([]) && abs.inHand == map[] && InOrder() && ReleasedIdle(Current())
      ensures active == old(active) - {id}
      ensures NoStarts(abs.history, old(abs).history) && Reports.Submits(outbox.posts, old(outbox.posts), c.reportClock)
      ensures EndedRight(old(active), old(queue), c, retryLimit, id, abs.history)
      ensures OthersEndAsBefore(old(abs).history, abs.history, id)
      ensures old(abs).active == old(active) && abs.active == active && OthersWaitAsBefore(old(abs), abs, id)
      ensures ReapFrame(old(abs), abs)
    {
      hide Inv, Implements, NoneUnreported, Orderly, Settled, Judge, ResolveSpawn, ReleasedIdle, RightEnd, LastEnd, Fifo, OthersEndAsBefore, OthersWaitAsBefore, ReapFrame;
      var outcome := Judge(c.facts(id), active[id].task.lane).value;
      ghost var s, q, t := abs, queue, Current();
      JudgementIsSound(c.facts(id), active[id].task.lane, 0, 0);
      ResolveOne(id, outcome, c.facts(id), c.now, c.reportClock);
      SameSpawnsAndBackoffs(t, s, []);
      SpawnsAreExclusive(s);
      ResolvingEndsRight(s, q, id, c.facts(id), retryLimit, c.now);
      ResolvingFrame(s, q, id, outcome, c.facts(id), retryLimit, c.now);
      ResolvingKeepsOrderly(maxConcurrent, steady, lastPoll, s, q, id, outcome, c.facts(id), retryLimit);
      ResolvingStartsNone(s, q, id, outcome, c.facts(id), retryLimit, c.now);
      FewerSpawnsKeepIdle(t, Current());
      SameSpawnsAndBackoffs(Current(), abs, []);
    }

    /** Resolve the judged spawns one after the other. */
    method ReapEach(ids: set<TaskId>, c: Cycle, ghost t: Tables)
      requires Holding([]) && abs.inHand == map[] && InOrder() && ReleasedIdle(Current()) && lastPoll == c.now
      requires forall id :: id in ids ==> id in active && id !in c.cancelled && Judge(c.facts(id), active[id].task.lane).Some?
      requires ReapSoFar(t, active, abs.waiting, abs.history, c, retryLimit, ids)
      modifies this`active, this`queue, this`meta, this`persisted, this`sent, this`abs, outbox
      ensures Holding([]) && abs.inHand == map[] && InOrder() && ReleasedIdle(Current())
      ensures active == old(active) - ids && ReapSoFar(t, active, abs.waiting, abs.history, c, retryLimit, {})
      ensures ReapFrame(old(abs), abs)
      ensures NoStarts(abs.history, old(abs).history) && Reports.Submits(outbox.posts, old(outbox.posts), c.reportClock)
    {
      hide Inv, Implements, NoneUnreported, Orderly, Settled, Judge, ReleasedIdle, NoStarts, Reports.Submits, Fifo, EndedRight, ReapSoFar, OthersEndAsBefore, OthersWaitAsBefore, ReapFrame;
      var judged := ids;
      ReapFrameStarts(abs);
      NoneSubmitted(outbox.posts, c.reportClock);
      NoneEnded(abs.history);
      while judged != {}
        invariant NoStarts(abs.history, old(abs).history)
        invariant Reports.Submits(outbox.posts, old(outbox.posts), c.reportClock)
        invariant Holding([]) && abs.inHand == map[] && InOrder() && ReleasedIdle(Current())
        invariant judged <= ids && active == old(active) - (ids - judged) && ReapFrame(old(abs), abs)
        invariant ReapSoFar(t, active, abs.waiting, abs.history, c, retryLimit, judged)
        decreases judged
      {
        var id :| id in judged;
        ghost var s, q, p := abs, queue, outbox.posts;
        QueueOfActive(Current(), abs, id);
        ReapOne(id, c);
        ReapStep(t, s, q, abs, c, retryLimit, judged, id);
        ReapFrameTransitive(old(abs), s, abs);
        NoStartsTransitive(abs.history, s.history, old(abs).history);
        Reports.SubmitsTransitive(outbox.posts, p, old(outbox.posts), c.reportClock);
        judged := judged - {id};
      }
    }

    /** Every cancelled or judged spawn leaves the table by the end its facts call for, every other
        spawn stays as it was. */
    method ReapFinishedSpawns(c: Cycle)
      requires Holding([]) && abs.inHand == map[] && InOrder() && ReleasedIdle(Current()) && lastPoll == c.now
      modifies this`active, this`queue, this`meta, this`persisted, this`sent, this`abs, outbox
      ensures Holding([]) && abs.inHand == map[] && InOrder() && ReleasedIdle(Current())
      ensures active == StillRunning(old(active), c)
      ensures AllEndedRight(old(active), old(queue), c, retryLimit, abs.history) && ReapFrame(old(abs), abs)
      ensures NoStarts(abs.history, old(abs).history) && Reports.Submits(outbox.posts, old(outbox.posts), c.reportClock)
    {
      hide Inv, Implements, NoneUnreported, Orderly, Settled, Judge, ReleasedIdle, NoStarts, Reports.Submits, Fifo, StillRunning, EndedRight, ReapSoFar, ReapFrame;
      ghost var t, s := Current(), abs;
      SweepCancelledSpawns(c);
      FewerSpawnsKeepIdle(t, Current());
      var judged := set id | id in active && Judge(c.facts(id), active[id].task.lane).Some?;
      JudgedAreFinished(t.active, active, c, judged);
      QueuesOfActive(t, s);
      ReapBegins(t, active, s, abs, c, retryLimit, judged);
      ghost var mid := abs;
      ReapEach(judged, c, t);
      NoStartsTransitive(abs.history, mid.history, s.history);
      ReapFrameTransitive(s, mid, abs);
      ReapEnds(t, active, abs, c, retryLimit);
    }

    // ------------------------------------------------------ queues and released

    /** Release one lane's head if the lane is idle and the head's backoff has passed. */
    method SweepLane(lane: LaneKey, now: real)
      requires lane in queue
      modifies this`queue, this`released
      ensures SweptOnly(old(Current()), Current(), now, lane)
      ensures queue.Keys <= old(queue).Keys && old(queue).Keys - {lane} <= queue.Keys
    {
      if !LaneBusy(active, lane) {
        var q := queue[lane];
        if q == [] {
          queue := queue - {lane};
        } else if Due(q, meta, now) {
          released := released[lane := Fifo(released, lane) + [q[0]]];
          queue := if |q| == 1 then queue - {lane} else queue[lane := q[1..]];
        }
      }
    }

    /** Release the head of every idle lane whose backoff has passed, one head per lane. */
    method SweepLaneQueues(now: real)
      requires Holding([]) && ReleasedIdle(Current())
      modifies this`queue, this`released
      ensures Holding([]) && ReleasedIdle(Current())
      ensures forall lane :: Swept(old(Current()), Current(), now, lane)
    {
      hide Inv, Implements, NoneUnreported, Swept, SweptOnly, ReleasedIdle;
      ghost var t0 := Current();
      var todo := queue.Keys;
      SweepBegins(t0, now);
      while todo != {}
        invariant todo <= queue.Keys && Current() == t0.(queue := queue, released := released)
        invariant forall lane :: SweepAt(t0, Current(), todo, now, lane)
        decreases todo
      {
        var lane :| lane in todo;
        ghost var t := Current();
        SweepLane(lane, now);
        SweepStep(t0, t, Current(), todo, now, lane);
        todo := todo - {lane};
      }
      forall lane ensures Swept(t0, Current(), now, lane) {
        assert SweepAt(t0, Current(), todo, now, lane);
      }
      SweepImplements(t0, Current(), abs, now);
      SweepKeepsIdle(t0, Current(), now);
    }

    /** Take every released task, keeping each lane's order. */
    method DrainReleasedLanes() returns (drained: seq<Task>)
      requires Holding([])
      modifies this`released
      ensures Holding(drained) && released == map[]
      ensures forall lane :: OnLane(drained, lane) == Fifo(old(released), lane)
    {
      hide Inv, Implements, NoneUnreported, OnLane, OwnLane;
      ghost var t0 := Current();
      drained := [];
      DrainBegins(released);
      while released != map[]
        invariant Current() == t0.(released := released)
        invariant forall lane :: DrainAt(t0.released, released, drained, lane)
        decreases released.Keys
      {
        var lane :| lane in released;
        ghost var before, held := released, drained;
        drained := drained + released[lane];
        released := released - {lane};
        QueuedTasksAreHome(t0, abs, [], lane);
        DrainStep(t0.released, before, held, lane, abs.home);
      }
      forall lane ensures OnLane(drained, lane) == Fifo(t0.released, lane) {
        assert DrainAt(t0.released, released, drained, lane);
      }
      DrainImplements(t0, abs, drained);
    }

    // ---------------------------------------------------------------- claiming

    /** Dispatch drained tasks in order while the budget lasts; the rest is left over. */
    method DispatchDrained(ready: seq<Task>, slots: nat, now: real, clock: real) returns (budget: nat, leftover: seq<Task>)
      requires Holding(ready) && abs.inHand == map[] && InOrder() && lastPoll == now
      requires maxConcurrent <= 1 ==> active == map[] && slots <= 1
      modifies this`active, this`queue, this`meta, this`persisted, this`sent, this`abs, outbox
      ensures Holding(leftover) && abs.inHand == map[] && InOrder()
      ensures |active| + budget <= |old(active)| + slots
      ensures budget > 0 ==> leftover == []
      ensures budget + |ready| == slots + |leftover|
      ensures Tries(abs.history) + budget == Tries(old(abs).history) + slots
      ensures ready == [] ==> Current() == old(Current()) && abs == old(abs)
      ensures NoEnds(abs.history, old(abs).history) && Reports.Submits(outbox.posts, old(outbox.posts), clock)
      ensures ServedOff(old(abs), abs, ready, leftover)
    {
      hide Inv, Implements, NoneUnreported, Orderly, Settled, NoEnds, Reports.Submits, Tries, ServedOff;
      budget, leftover := slots, ready;
      ServedOffStarts(abs, ready);
      NoneSubmitted(outbox.posts, clock);
      NoneEnded(abs.history);
      while leftover != [] && budget > 0
        invariant NoEnds(abs.history, old(abs).history) && Reports.Submits(outbox.posts, old(outbox.posts), clock)
        invariant Holding(leftover) && abs.inHand == map[] && InOrder()
        invariant |active| + budget <= |old(active)| + slots && budget + |ready| == slots + |leftover|
        invariant ServedOff(old(abs), abs, ready, leftover)
        invariant Tries(abs.history) + budget == Tries(old(abs).history) + slots
        invariant maxConcurrent <= 1 && budget > 0 ==> active == map[] && budget <= 1
        invariant |leftover| == |ready| ==> Current() == old(Current()) && abs == old(abs)
        decreases |leftover|
      {
        var launch: Launch := *;
        var posted: bool := *;
        ghost var s, p := abs, outbox.posts;
        TakeAndSpawn(leftover, launch, posted, now, clock);
        NoEndsTransitive(abs.history, s.history, old(abs).history);
        ServedOffTransitive(old(abs), s, abs, ready, leftover, leftover[1..]);
        Reports.SubmitsTransitive(outbox.posts, p, old(outbox.posts), clock);
        leftover := leftover[1..];
        budget := budget - 1;
      }
    }

    method TakeAndSpawn(hand: seq<Task>, launch: Launch, posted: bool, now: real, clock: real)
      requires hand != [] && Holding(hand) && abs.inHand == map[] && InOrder() && lastPoll == now
      requires maxConcurrent <= 1 ==> active == map[]
      modifies this`active, this`queue, this`meta, this`persisted, this`sent, this`abs, outbox
      ensures Holding(hand[1..]) && abs.inHand == map[] && InOrder()
      ensures |active| <= |old(active)| + 1
      ensures NoEnds(abs.history, old(abs).history) && Tries(abs.history) == Tries(old(abs).history) + 1
      ensures Reports.Submits(outbox.posts, old(outbox.posts), clock) && ServedOff(old(abs), abs, hand, hand[1..])
    {
      hide Inv, Implements, NoneUnreported, Orderly, Settled, AfterDispatch, AfterDequeue, Reports.Submits, NoMoreUnreported, ServedOff, NoEnds, Tries, Fifo;
      var task := hand[0];
      SameSpawnsAndBackoffs(Current(), abs, hand);
      TakeAndDispatch(maxConcurrent, steady, now, Current(), abs, hand, launch);
      if clean {
        StepKeepsReported(abs, Dequeue(task.lane), outbox.posts, outbox.posts);
      }
      abs := AfterDequeue(abs, task.lane);
      SpawnWorker(task, launch, posted, now, clock, hand[1..]);
      SameSpawnsAndBackoffs(Current(), abs, hand[1..]);
    }

    /** Put tasks that found no slot back in front of their lanes, last first. */
    method PutBack(leftover: seq<Task>)
      requires Holding(leftover) && released == map[]
      modifies this`queue
      ensures Holding([])
    {
      hide Inv, Implements, NoneUnreported;
      ghost var t0 := Current();
      var j := |leftover|;
      assert forall lane :: OnLane([], lane) == [];
      while j > 0
        invariant 0 <= j <= |leftover|
        invariant forall lane :: Fifo(queue, lane) == OnLane(leftover[j..], lane) + Fifo(t0.queue, lane)
      {
        j := j - 1;
        var task := leftover[j];
        ghost var q := queue;
        queue := queue[task.lane := [task] + Fifo(queue, task.lane)];
        forall lane ensures Fifo(queue, lane) == OnLane(leftover[j..], lane) + Fifo(t0.queue, lane) {
          PutBackOne(q, t0.queue, leftover, j, lane);
        }
      }
      assert leftover[0..] == leftover;
      PutBackImplements(t0, abs, leftover, queue);
    }

    /** The running tasks assigned to this node that nothing here tracks yet. */
    method Candidates(rows: seq<Row>, taken: set<TaskId>) returns (cs: seq<Task>)
      requires DistinctRows(rows)
      ensures DistinctIds(cs) && InListing(rows, cs)
      ensures forall t :: t in cs <==> exists i :: 0 <= i < |rows| && rows[i].task == t && Eligible(rows[i], taken, nodeId)
    {
      cs := [];
      for n := 0 to |rows|
        invariant DistinctIds(cs) && InListing(rows, cs)
        invariant forall t :: t in cs <==> exists i :: 0 <= i < n && rows[i].task == t && Eligible(rows[i], taken, nodeId)
      {
        if Eligible(rows[n], taken, nodeId) {
          forall k | 0 <= k < |cs| ensures cs[k].id != rows[n].task.id {
            assert cs[k] in cs;
          }
          ListNext(rows, cs, n);
          cs := cs + [rows[n].task];
        }
      }
    }

    /** A board task whose lane is busy joins the lane's FIFO, if there is room. */
    method QueueCandidate(task: Task, now: real)
      requires Holding([]) && abs.inHand == map[] && InOrder() && lastPoll == now && released == map[]
      requires !Tracked(abs, task.id) && task.lane != NoLane && (clean ==> !Unreported(outbox.posts, task.id))
      modifies this`queue, this`meta, this`abs
      ensures Holding([]) && abs.inHand == map[] && InOrder()
      ensures Queued(old(abs), old(queue), abs, queue, task)
    {
      hide Inv, Implements, NoneUnreported, Orderly, AfterEnqueue, Tracked, Settled, Queued;
      ghost var before, q := abs, queue;
      CandidateQueues(maxConcurrent, steady, now, Current(), abs, task);
      abs := abs.(inHand := map[task.id := 0]);
      if clean {
        PickKeepsReported(before, abs.inHand, task.id, outbox.posts);
      }
      QueueIsFifo(Current(), abs, task.lane);
      if clean && |Fifo(queue, task.lane)| < LANE_QUEUE_LIMIT {
        StepKeepsReported(abs, Enqueue(task, now), outbox.posts, outbox.posts);
      }
      var ok := QueueForLane(task, 0, now, []);
      if ok {
        EnqueueQueues(before, q, queue, task, now);
      } else {
        abs := before;
        FullQueueStays(abs, queue, task);
      }
    }

    /** A board task whose lane is idle is dispatched. */
    method DispatchCandidate(task: Task, launch: Launch, posted: bool, now: real, clock: real)
      requires Holding([]) && abs.inHand == map[] && InOrder() && lastPoll == now && !Tracked(abs, task.id)
      requires task.lane == NoLane || !LaneBusy(active, task.lane)
      requires clean ==> !Unreported(outbox.posts, task.id)
      requires maxConcurrent <= 1 ==>
                 active == map[] && (steady && NoRefusalsOn(abs.history, task.lane) ==> Fifo(abs.waiting, task.lane) == [])
      modifies this`active, this`queue, this`meta, this`persisted, this`sent, this`abs, outbox
      ensures Holding([]) && abs.inHand == map[] && InOrder()
      ensures |active| <= |old(active)| + 1
      ensures Dispatched(old(abs), old(queue), abs, queue, task)
      ensures Reports.Submits(outbox.posts, old(outbox.posts), clock) && NoMoreUnreported(old(outbox.posts), outbox.posts)
    {
      hide Inv, Implements, NoneUnreported, Orderly, Settled, AfterDispatch, Tracked, Dispatched, Reports.Submits;
      SameSpawnsAndBackoffs(Current(), abs, []);
      ghost var before, attempts := abs, CarriedAttempts(meta, task.id);
      CarriedIsBounded(abs, task.id);
      PickKeepsInv(Current(), abs, task, attempts);
      PickingKeepsOrderly(maxConcurrent, steady, lastPoll, abs, map[task.id := attempts]);
      abs := abs.(inHand := map[task.id := attempts]);
      if clean {
        PickKeepsReported(before, abs.inHand, task.id, outbox.posts);
      }
      ghost var s, q := abs, queue;
      DispatchKeepsOrderly(maxConcurrent, steady, lastPoll, s, task, launch);
      DispatchEmptiesHand(s, task, launch, now);
      SpawnWorker(task, launch, posted, now, clock, []);
      PickedIsDispatched(before, s, q, queue, task, launch, now);
      SameSpawnsAndBackoffs(Current(), abs, []);
    }

    /** A row that this node should be running. */
    predicate Mine(r: Row) {
      r.running && NodeIds.IsAssignedToMe(r.assignedTo, nodeId)
    }

    /** No row of this node that nothing here holds has a completion that is still owed. */
    ghost predicate OffersNoneUnreported(rows: seq<Row>)
      reads this, outbox
    {
      forall i :: 0 <= i < |rows| && Mine(rows[i]) && !Tracked(abs, rows[i].task.id) ==> !Unreported(outbox.posts, rows[i].task.id)
    }

    /** With one slot, a board task is started only when no calm lane waits. */
    ghost predicate OneSlotReady(slots: nat)
      reads this`active, this`steady, this`abs
    {
      maxConcurrent <= 1 && slots > 0 ==>
        active == map[] && slots == 1
        && (steady ==> forall lane :: NoRefusalsOn(abs.history, lane) ==> Fifo(abs.waiting, lane) == [])
    }

    /** Claim the given tasks one after the other while budget lasts: the first `cut` of them. */
    method ClaimInOrder(sorted: seq<Task>, slots: nat, now: real, clock: real) returns (left: nat, ghost cut: nat)
      requires Holding([]) && abs.inHand == map[] && InOrder() && lastPoll == now && released == map[]
      requires DistinctIds(sorted) && forall k :: 0 <= k < |sorted| ==> !Tracked(abs, sorted[k].id)
      requires clean ==> forall k :: 0 <= k < |sorted| ==> !Unreported(outbox.posts, sorted[k].id)
      requires OneSlotReady(slots)
      modifies this`active, this`queue, this`meta, this`persisted, this`sent, this`abs, outbox
      ensures Holding([]) && abs.inHand == map[] && InOrder()
      ensures |active| + left <= |old(active)| + slots
      ensures ClaimedSoFar(old(abs), old(queue), abs, queue, sorted, |sorted|, cut, left, slots)
      ensures Reports.Submits(outbox.posts, old(outbox.posts), clock)
    {
      hide Inv, Implements, NoneUnreported, Orderly, Settled, ClaimedSoFar, Queued, Dispatched, Reports.Submits, NoRefusalsOn;
      left, cut := slots, 0;
      ghost var s0, q0 := abs, queue;
      NoneSubmitted(outbox.posts, clock);
      ClaimBegins(abs, queue, sorted, slots);
      for j := 0 to |sorted|
        invariant ClaimedSoFar(s0, q0, abs, queue, sorted, j, cut, left, slots)
        invariant Holding([]) && abs.inHand == map[] && InOrder() && OneSlotReady(left)
        invariant |active| + left <= |old(active)| + slots
        invariant Reports.Submits(outbox.posts, old(outbox.posts), clock)
        invariant clean ==> forall k :: 0 <= k < |sorted| ==> !Unreported(outbox.posts, sorted[k].id)
      {
        var task := sorted[j];
        NextIsUntracked(s0, q0, abs, queue, sorted, j, cut, left, slots);
        ghost var s, q, p := abs, queue, outbox.posts;
        if task.lane != NoLane && LaneBusy(active, task.lane) {
          QueueCandidate(task, now);
          ClaimQueues(s0, q0, s, q, abs, queue, sorted, j, cut, left, slots);
          cut := if cut == j then j + 1 else cut;
        } else if left > 0 {
          var launch: Launch := *;
          var posted: bool := *;
          DispatchCandidate(task, launch, posted, now, clock);
          Reports.SubmitsTransitive(outbox.posts, p, old(outbox.posts), clock);
          ClaimDispatches(s0, q0, s, q, abs, queue, sorted, j, left, slots);
          left, cut := left - 1, j + 1;
        } else {
          ClaimSkips(s0, q0, abs, queue, sorted, j, cut, slots);
        }
      }
    }

    /** Claim board tasks in priority order: queue behind busy lanes, dispatch while budget lasts.
        With budget left over, no task of this node was passed over; none was passed over for a
        less urgent one, nor for one as urgent and listed later. */
    method ClaimFromBoard(rows: seq<Row>, slots: nat, now: real, clock: real) returns (left: nat)
      requires Holding([]) && abs.inHand == map[] && InOrder() && lastPoll == now && DistinctRows(rows) && released == map[]
      requires OneSlotReady(slots) && (clean ==> OffersNoneUnreported(rows))
      modifies this`active, this`queue, this`meta, this`persisted, this`sent, this`abs, outbox
      ensures Holding([]) && abs.inHand == map[] && InOrder()
      ensures |active| + left <= |old(active)| + slots
      ensures NoEnds(abs.history, old(abs).history) && Reports.Submits(outbox.posts, old(outbox.posts), clock)
      ensures Tries(abs.history) + left == Tries(old(abs).history) + slots
      ensures forall id :: Tracked(abs, id) && !Tracked(old(abs), id) ==> Offers(rows, id)
      ensures left > 0 ==>
                forall i :: 0 <= i < |rows| && Mine(rows[i]) ==> Considered(abs, queue, old(abs).history, rows[i].task)
      ensures forall i :: 0 <= i < |rows| && Mine(rows[i]) && !Considered(abs, queue, old(abs).history, rows[i].task) ==>
                PassedForUrgent(rows, abs.history, old(abs).history, i)
    {
      hide Inv, Implements, NoneUnreported, Orderly, Considered, Onward, Tracked, Reports.Submits, NoEnds, Tries, OneSlotReady, InListing, Offers, HoldsOnly, PassedForUrgent, NodeIds.IsAssignedToMe, ClaimedSoFar;
      var taken := active.Keys + IdsIn(queue) + IdsIn(released) + persisted;
      var candidates := Candidates(rows, taken);
      SortKeepsDistinct(candidates);
      var sorted := Order.Sort(candidates, PriorityLe);
      ghost var base, s0, q0 := abs.history, abs, queue;
      forall k | 0 <= k < |sorted| ensures !Tracked(abs, sorted[k].id) {
        assert sorted[k] in candidates;
        AbsentIsUntracked(Current(), abs, sorted[k].id);
      }
      if clean {
        forall k | 0 <= k < |sorted| ensures !Unreported(outbox.posts, sorted[k].id) {
          assert sorted[k] in candidates;
        }
      }
      forall id | id in taken ensures Tracked(s0, id) {
        ListedIsTracked(Current(), abs, id);
      }
      ghost var cut;
      left, cut := ClaimInOrder(sorted, slots, now, clock);
      ClaimedOnwards(s0, q0, abs, queue, sorted, cut, left, slots);
      HeldAreOffered(rows, taken, candidates, s0, abs, sorted);
      forall i | 0 <= i < |rows| && Mine(rows[i]) && !Considered(abs, queue, base, rows[i].task)
        ensures left == 0 && PassedForUrgent(rows, abs.history, base, i)
      {
        PassedOverRightly(rows, taken, candidates, s0, q0, abs, queue, cut, left, slots, i);
      }
    }

    /** What was started instead of row `i` is more urgent, or as urgent and listed before. */
    ghost predicate PassedForUrgent(rows: seq<Row>, h: History, base: History, i: nat)
      requires i < |rows|
    {
      forall j :: 0 <= j < |rows| && Starts(h, rows[j].task.id) != Starts(base, rows[j].task.id) ==>
        rows[j].task.priority < rows[i].task.priority || (rows[j].task.priority == rows[i].task.priority && j < i)
    }

    /** Only a task behind the cut can have been passed over. */
    lemma {:induction false} PassedOverRightly(rows: seq<Row>, taken: set<TaskId>, candidates: seq<Task>, s0: State, q0: map<LaneKey, seq<Task>>,
                                               s: State, q: map<LaneKey, seq<Task>>, cut: nat, left: nat, slots: nat, i: nat)
      requires DistinctRows(rows) && DistinctIds(candidates) && InListing(rows, candidates) && i < |rows| && Mine(rows[i])
      requires forall t :: t in candidates <==> exists i :: 0 <= i < |rows| && rows[i].task == t && Eligible(rows[i], taken, nodeId)
      requires forall id :: id in taken ==> Tracked(s0, id)
      requires var sorted := Order.Sort(candidates, PriorityLe); ClaimedSoFar(s0, q0, s, q, sorted, |sorted|, cut, left, slots)
      requires !Considered(s, q, s0.history, rows[i].task)
      ensures left == 0 && PassedForUrgent(rows, s.history, s0.history, i)
    {
      hide Considered, Onward, Tracked, NodeIds.IsAssignedToMe, InListing, Starts, HoldsOnly, StartedAmong;
      var sorted := Order.Sort(candidates, PriorityLe);
      SortKeepsDistinct(candidates);
      if rows[i].task.id in taken {
        TrackedIsConsidered(s0, q0, s, q, s0.history, rows[i].task);
        assert false;
      } else {
        assert rows[i].task in sorted;
        var k :| 0 <= k < |sorted| && sorted[k] == rows[i].task;
        forall j | 0 <= j < |rows| && Starts(s.history, rows[j].task.id) != Starts(s0.history, rows[j].task.id)
          ensures rows[j].task.priority < rows[i].task.priority || (rows[j].task.priority == rows[i].task.priority && j < i)
        {
          StartedBefore(rows, taken, candidates, s.history, s0.history, sorted[..cut], j);
          EarlierIsMoreUrgent(rows, candidates, cut, k, i, j);
        }
      }
    }

    lemma {:induction false} ClaimedOnwards(s0: State, q0: map<LaneKey, seq<Task>>, s: State, q: map<LaneKey, seq<Task>>,
                                            sorted: seq<Task>, cut: nat, left: nat, slots: nat)
      requires ClaimedSoFar(s0, q0, s, q, sorted, |sorted|, cut, left, slots)
      ensures NoEnds(s.history, s0.history) && Tries(s.history) + left == Tries(s0.history) + slots && HoldsOnly(s0, s, sorted)
    {
    }

    /** The board lists the task as running on this node. */
    ghost predicate Offers(rows: seq<Row>, id: TaskId) {
      exists i :: 0 <= i < |rows| && rows[i].task.id == id && rows[i].running
                  && (rows[i].assignedTo == nodeId || rows[i].assignedTo == "node_" + nodeId)
    }

    lemma {:induction false} HeldAreOffered(rows: seq<Row>, taken: set<TaskId>, candidates: seq<Task>, s: State, s': State, sorted: seq<Task>)
      requires forall t :: t in candidates <==> exists i :: 0 <= i < |rows| && rows[i].task == t && Eligible(rows[i], taken, nodeId)
      requires (forall t :: t in sorted ==> t in candidates) && HoldsOnly(s, s', sorted)
      ensures forall id :: Tracked(s', id) && !Tracked(s, id) ==> Offers(rows, id)
    {
      hide Tracked, NodeIds.IsAssignedToMe;
      forall id | Tracked(s', id) && !Tracked(s, id) ensures Offers(rows, id) {
        assert HasId(sorted, id);
        var k :| 0 <= k < |sorted| && sorted[k].id == id;
        assert sorted[k] in candidates;
        var i :| 0 <= i < |rows| && rows[i].task == sorted[k] && Eligible(rows[i], taken, nodeId);
        NodeIds.AssignedExactly(rows[i].assignedTo, nodeId);
      }
    }

    /** A row's task that was started is one of the candidates claimed. */
    lemma {:induction false} StartedBefore(rows: seq<Row>, taken: set<TaskId>, candidates: seq<Task>, h: History, base: History,
                                           claimed: seq<Task>, j: nat)
      requires DistinctRows(rows) && j < |rows| && StartedAmong(h, base, claimed)
      requires forall k :: 0 <= k < |claimed| ==> claimed[k] in candidates
      requires forall t :: t in candidates <==> exists i :: 0 <= i < |rows| && rows[i].task == t && Eligible(rows[i], taken, nodeId)
      requires Starts(h, rows[j].task.id) != Starts(base, rows[j].task.id)
      ensures rows[j].task in claimed
    {
    }

    /** No row of this node was passed over. */
    ghost predicate NonePassedOver(c: Cycle, base: History)
      reads this
    {
      c.board.Some? ==>
        forall i :: 0 <= i < |c.board.value| && Mine(c.board.value[i]) ==> Considered(abs, queue, base, c.board.value[i].task)
    }

    /** A row of this node has a completion that is still owed. */
    ghost predicate OffersUnreported(rows: seq<Row>)
      reads this, outbox
    {
      exists i :: 0 <= i < |rows| && Mine(rows[i]) && Unreported(outbox.posts, rows[i].task.id)
    }

    /** Dispatch what was released, and put back in front what finds no slot. */
    method ClaimDrained(c: Cycle, slots: nat) returns (budget: nat)
      requires Holding([]) && abs.inHand == map[] && InOrder() && lastPoll == c.now
      requires maxConcurrent <= 1 ==> active == map[] && slots == 1
      requires maxConcurrent <= 1 && steady ==>
                 forall lane :: NoRefusalsOn(abs.history, lane) && Fifo(released, lane) == [] ==> Fifo(queue, lane) == []
      modifies this`active, this`queue, this`released, this`meta, this`persisted, this`sent, this`abs, outbox
      ensures Holding([]) && abs.inHand == map[] && InOrder() && released == map[] && OneSlotReady(budget)
      ensures |active| + budget <= |old(active)| + slots
      ensures NoEnds(abs.history, old(abs).history) && Reports.Submits(outbox.posts, old(outbox.posts), c.reportClock)
      ensures Tries(abs.history) + budget == Tries(old(abs).history) + slots
      ensures forall id :: Tracked(abs, id) ==> Tracked(old(abs), id)
      ensures budget > 0 ==> ReleasedServed(old(released), old(abs).history, abs.history)
    {
      hide Inv, Implements, NoneUnreported, Orderly, Settled, NoEnds, Reports.Submits, Tries, NoRefusalsOn, ReleasedServed, ServedOffLane, Tracked;
      var ready := DrainReleasedLanes();
      var leftover;
      budget, leftover := DispatchDrained(ready, slots, c.now, c.reportClock);
      if leftover != [] {
        PutBack(leftover);
      } else {
        ServedOffAll(old(abs), abs, ready, old(released));
      }
      if budget > 0 && maxConcurrent <= 1 && steady {
        forall lane | NoRefusalsOn(abs.history, lane) ensures Fifo(abs.waiting, lane) == [] {
          assert OnLane(ready, lane) == [];
          NothingWaits(Current(), abs, lane);
        }
      }
    }

    /** Drained heads first, then the board, within the cycle's free slots. */
    method ClaimAndSpawn(c: Cycle, slots: nat) returns (left: nat)
      requires Holding([]) && abs.inHand == map[] && InOrder() && lastPoll == c.now && ReleasedIdle(Current())
      requires c.board.Some? ==> DistinctRows(c.board.value)
      requires maxConcurrent <= 1 ==> active == map[] && slots == 1
      requires maxConcurrent <= 1 && steady ==>
                 forall lane :: NoRefusalsOn(abs.history, lane) && Fifo(released, lane) == [] ==> Fifo(queue, lane) == []
      modifies this`active, this`queue, this`released, this`meta, this`persisted, this`sent, this`abs, this`clean, outbox
      ensures Holding([]) && abs.inHand == map[] && InOrder() && ReleasedIdle(Current())
      ensures |active| <= |old(active)| + slots
      ensures NoEnds(abs.history, old(abs).history) && Reports.Submits(outbox.posts, old(outbox.posts), c.reportClock)
      ensures if c.diskBlocked then abs == old(abs) && Current() == old(Current())
              else released == map[] && Tries(abs.history) + left == Tries(old(abs).history) + slots
      ensures !c.diskBlocked && left > 0 ==>
                NonePassedOver(c, old(abs).history) && ReleasedServed(old(released), old(abs).history, abs.history)
      ensures NewlyHeldAreOffered(c, old(abs), abs)
      ensures clean ==> old(clean)
      ensures old(clean) && !clean ==> c.board.Some? && OffersUnreported(c.board.value)
    {
      hide Inv, Implements, NoneUnreported, Orderly, Settled, Considered, NoEnds, Reports.Submits, Tries, NoRefusalsOn, OneSlotReady;
      hide Unreported, Tracked, ReleasedServed, Offers;
      NoneSubmitted(outbox.posts, c.reportClock);
      NoneEnded(abs.history);
      if c.diskBlocked {
        return slots;
      }
      left := ClaimDrained(c, slots);
      if left == 0 || c.board.None? {
        return;
      }
      ghost var h, p := abs.history, outbox.posts;
      left := ClaimOffered(c, left);
      NoEndsTransitive(abs.history, h, old(abs).history);
      Reports.SubmitsTransitive(outbox.posts, p, old(outbox.posts), c.reportClock);
      if left > 0 {
        PassedOverEarlier(c, h, old(abs).history);
        NoEndsCounts(abs.history, h, TaskId(""));
        ReleasedServedLater(old(released), old(abs).history, h, abs.history);
      }
    }

    /** Whatever this cycle came to hold the board offered. */
    ghost predicate NewlyHeldAreOffered(c: Cycle, s: State, s': State) {
      forall id :: Tracked(s', id) && !Tracked(s, id) ==> c.board.Some? && Offers(c.board.value, id)
    }

    /** Claim from the board, noting whether it offers a task whose completion is still owed. */
    method ClaimOffered(c: Cycle, slots: nat) returns (left: nat)
      requires Holding([]) && abs.inHand == map[] && InOrder() && lastPoll == c.now && released == map[] && OneSlotReady(slots)
      requires c.board.Some? && DistinctRows(c.board.value)
      modifies this`active, this`queue, this`meta, this`persisted, this`sent, this`abs, this`clean, outbox
      ensures Holding([]) && abs.inHand == map[] && InOrder()
      ensures |active| + left <= |old(active)| + slots
      ensures NoEnds(abs.history, old(abs).history) && Reports.Submits(outbox.posts, old(outbox.posts), c.reportClock)
      ensures Tries(abs.history) + left == Tries(old(abs).history) + slots
      ensures forall id :: Tracked(abs, id) && !Tracked(old(abs), id) ==> Offers(c.board.value, id)
      ensures left > 0 ==> NonePassedOver(c, old(abs).history)
      ensures clean <==> old(clean) && old(OffersNoneUnreported(c.board.value))
      ensures old(clean) && !clean ==> OffersUnreported(c.board.value)
    {
      hide Inv, Implements, NoneUnreported, Orderly, Settled, Considered, NoEnds, Reports.Submits, Tries, OneSlotReady, Unreported, Tracked;
      ghost var p := outbox.posts;
      clean := clean && OffersNoneUnreported(c.board.value);
      left := ClaimFromBoard(c.board.value, slots, c.now, c.reportClock);
      StillOwed(p, outbox.posts, c.reportClock);
    }

    lemma {:induction false} PassedOverEarlier(c: Cycle, mid: History, base: History)
      requires NonePassedOver(c, mid) && NoEnds(abs.history, mid) && NoEnds(mid, base)
      ensures NonePassedOver(c, base)
    {
      hide Considered;
      if c.board.Some? {
        forall i | 0 <= i < |c.board.value| && Mine(c.board.value[i]) ensures Considered(abs, queue, base, c.board.value[i].task) {
          ConsideredEarlier(abs, queue, mid, base, c.board.value[i].task);
        }
      }
    }

    lemma {:induction false} PassedOverSincePoll(c: Cycle, mid: History, base: History)
      requires NonePassedOver(c, mid) && NoEnds(abs.history, mid) && NoStarts(mid, base)
      ensures NonePassedOver(c, base)
    {
      hide Considered;
      if c.board.Some? {
        forall i | 0 <= i < |c.board.value| && Mine(c.board.value[i]) ensures Considered(abs, queue, base, c.board.value[i].task) {
          ConsideredSincePoll(abs, queue, mid, base, c.board.value[i].task);
        }
      }
    }

    lemma {:induction false} SpawnsAgree()
      requires Holding([])
      ensures abs.active == active && Inv(abs)
    {
      hide Inv, Implements, NoneUnreported;
      SameSpawnsAndBackoffs(Current(), abs, []);
    }

    /** The first half of a cycle: reap, retry due reports, release queue heads. */
    method ReapAndRelease(c: Cycle) returns (ghost reaped: Reports.Posts)
      requires Valid()
      modifies this, outbox
      ensures Holding([]) && abs.inHand == map[] && InOrder() && ReleasedIdle(Current())
      ensures steady == (old(steady) && old(lastPoll) <= c.now) && lastPoll == c.now && clean == old(clean)
      ensures active == StillRunning(old(active), c) && NoStarts(abs.history, old(abs).history)
      ensures AllEndedRight(old(active), old(queue), c, retryLimit, abs.history) && ReapFrame(old(abs), abs)
      ensures forall lane :: ReadyLane(old(Current()), c.now, lane) ==> HeadReleased(old(Current()), released, lane)
      ensures Reports.Submits(reaped, old(outbox.posts), c.reportClock) && Reports.Extends(outbox.posts, reaped)
      ensures forall key :: Reports.RetriesSince(outbox.posts, reaped, key) == if Reports.DueAt(reaped, key, c.reportClock) then 1 else 0
      ensures maxConcurrent <= 1 && steady && active == map[] ==>
                forall lane :: NoRefusalsOn(abs.history, lane) && Fifo(released, lane) == [] ==> Fifo(queue, lane) == []
    {
      hide Inv, Implements, NoneUnreported, Settled, Swept, Orderly, ReleasedIdle, LaneCalm, NoRefusalsOn, StillRunning, AllEndedRight, ReapFrame, ReadyLane, HeadReleased;
      hide NoStarts, Reports.Submits, Reports.Extends, Reports.RetriesSince, Reports.DueAt, Fifo;
      ghost var t0, s0 := Current(), abs;
      ClockKeepsOrderly(maxConcurrent, steady, lastPoll, abs, c.now);
      steady, lastPoll := steady && lastPoll <= c.now, c.now;
      ReapFinishedSpawns(c);
      reaped := outbox.posts;
      RetryReports(c);
      ReleaseHeads(c, t0, s0);
    }

    /** Retry the reports that are due; the tables stay as they are. */
    method RetryReports(c: Cycle)
      requires Holding([])
      modifies outbox
      ensures Holding([]) && Current() == old(Current()) && Reports.Extends(outbox.posts, old(outbox.posts))
      ensures forall key :: Reports.RetriesSince(outbox.posts, old(outbox.posts), key)
                            == if Reports.DueAt(old(outbox.posts), key, c.reportClock) then 1 else 0
    {
      hide Inv, Implements, NoneUnreported, Reports.RetriesSince, Reports.DueAt, Reports.Extends;
      ghost var pending, posts := outbox.pending, outbox.posts;
      outbox.DrainPendingReports(c.reportClock, c.delivered);
      if clean {
        DrainKeepsReported(abs, posts, pending, outbox.posts, c.reportClock, c.delivered);
      }
    }

    /** Release what may go, as far as the lanes that were ready and the order of a single slot need it. */
    method ReleaseHeads(c: Cycle, ghost t0: Tables, ghost s0: State)
      requires Holding([]) && abs.inHand == map[] && InOrder() && ReleasedIdle(Current()) && lastPoll == c.now
      requires Inv(s0) && Implements(t0, s0, []) && ReapFrame(s0, abs) && released == t0.released
      modifies this`queue, this`released
      ensures Holding([]) && ReleasedIdle(Current())
      ensures forall lane :: ReadyLane(t0, c.now, lane) ==> HeadReleased(t0, released, lane)
      ensures maxConcurrent <= 1 && steady && active == map[] ==>
                forall lane :: NoRefusalsOn(abs.history, lane) && Fifo(released, lane) == [] ==> Fifo(queue, lane) == []
    {
      hide Inv, Implements, NoneUnreported, Settled, Swept, Orderly, ReleasedIdle, LaneCalm, NoRefusalsOn, ReapFrame, ReadyLane, HeadReleased;
      ghost var t := Current();
      SweepLaneQueues(c.now);
      forall lane | ReadyLane(t0, c.now, lane) ensures HeadReleased(t0, released, lane) {
        HeadIsReleased(t0, s0, t, abs, Current(), c.now, lane);
      }
      if maxConcurrent <= 1 && steady && active == map[] {
        forall lane | NoRefusalsOn(abs.history, lane) && Fifo(released, lane) == [] ensures Fifo(queue, lane) == [] {
          CalmWhenOrderly(maxConcurrent, steady, c.now, abs, lane);
          if Fifo(t.queue, lane) != [] {
            CalmHead(t, abs, lane, c.now);
          }
          SweptClean(t, Current(), c.now, lane);
        }
      }
    }

    /** One poll cycle, whatever the environment does in it.  Every spawn it judged or cancelled has
        one more outcome, the one its facts call for, and nobody else has; the others are still there;
        each report due is retried exactly once; whatever it came to hold the board lists as running
        here; each free slot was tried, or no task of this node was passed over and every lane that
        could go on did; below the disk floor, or with no slot free, nothing is dispatched. */
    method PollOnce(c: Cycle)
      requires Valid() && (c.board.Some? ==> DistinctRows(c.board.value))
      modifies this, outbox
      ensures Valid()
      ensures steady == (old(steady) && old(lastPoll) <= c.now) && lastPoll == c.now
      ensures Grows(abs.history, old(abs).history)
      ensures clean ==> old(clean)
      ensures old(clean) && !clean ==> c.board.Some? && OffersUnreported(c.board.value)
      ensures forall id :: OutcomesAfter(old(active), c, old(abs).history, abs.history, id)
      ensures AllEndedRight(old(active), old(queue), c, retryLimit, abs.history)
      ensures forall id :: id in StillRunning(old(active), c) ==> id in active
      ensures Reports.AllRetriedIfDue(outbox.posts, old(outbox.posts), c.reportClock)
      ensures !c.diskBlocked && |StillRunning(old(active), c)| < maxConcurrent ==> released == map[]
      ensures !c.diskBlocked
              && Tries(abs.history) - Tries(old(abs).history) < maxConcurrent - |StillRunning(old(active), c)| ==>
                NonePassedOver(c, old(abs).history) && ReadyServed(old(Current()), c.now, old(abs).history, abs.history)
      ensures NewlyHeldAreOffered(c, old(abs), abs)
      ensures c.diskBlocked || |StillRunning(old(active), c)| >= maxConcurrent ==>
                active == StillRunning(old(active), c) && Tries(abs.history) == Tries(old(abs).history)
    {
      hide Inv, Implements, NoneUnreported, Settled, Orderly, Considered, StillRunning, ReleasedIdle, NoStarts, NoEnds, Grows, Tries, AllEndedRight;
      hide ReadyServed, ReleasedServed, ReadyLane, HeadReleased, Offers, ReapFrame, Tracked, Holding, InOrder;
      hide Reports.Submits, Reports.Extends, Reports.RetriesSince, Reports.DueAt, Reports.AllRetriedIfDue, NoRefusalsOn;
      ghost var before := abs;
      SpawnsAgree();
      ghost var reaped := ReapAndRelease(c);
      ReapedAreFewer(old(active), c);
      SpawnsAgree();
      ReapHoldsNoMore(before, abs);
      ghost var mid, drained, free := abs, outbox.posts, released;
      NoneSubmitted(drained, c.reportClock);
      NoneEnded(mid.history);
      var slots := maxConcurrent - |active|;
      if slots > 0 {
        var left := ClaimAndSpawn(c, slots);
        if !c.diskBlocked && left > 0 {
          ReadyAreServed(old(Current()), c.now, free, before.history, mid.history, abs.history);
          PassedOverSincePoll(c, mid.history, before.history);
        }
      }
      SpawnsAgree();
      CycleCounts(before, mid, abs, old(active), c);
      EndedRightStays(old(active), old(queue), c, retryLimit, mid.history, abs.history);
      Reports.CycleRetriesAll(old(outbox.posts), reaped, drained, outbox.posts, c.reportClock);
    }

    /** Any number of poll cycles. */
    method PollMany(cycles: seq<Cycle>)
      requires Valid()
      requires forall i :: 0 <= i < |cycles| && cycles[i].board.Some? ==> DistinctRows(cycles[i].board.value)
      modifies this, outbox
      ensures Valid() && Grows(abs.history, old(abs).history)
    {
      hide Inv, Implements, NoneUnreported, Orderly, ReleasedIdle, Settled;
      for i := 0 to |cycles|
        invariant Valid() && Grows(abs.history, old(abs).history)
      {
        ghost var before := abs.history;
        PollOnce(cycles[i]);
        GrowsTransitive(abs.history, before, old(abs).history);
      }
    }

    /** What `Valid` means for the tables: at every point between polls no two spawns share a lane,
        each id is tracked once, neither slots nor lane queues are exceeded, every start has at most
        one outcome, and what was posted is what the history calls for. */
    lemma {:induction false} TablesAreSound(id: TaskId, lane: LaneKey)
      requires Valid()
      ensures LaneExclusive(active) && TrackedOnce(Current()) && persisted == active.Keys
      ensures |active| == 0 || |active| <= maxConcurrent
      ensures |LaneTasks(Current(), lane)| <= LANE_QUEUE_LIMIT
      ensures Starts(abs.history, id) == Outcomes(abs.history, id) + if id in active then 1 else 0
      ensures Enqueues(abs.history, lane) == Dequeues(abs.history, lane) + LaneTasks(Current(), lane)
      ensures sent == Sent(abs.history) && Reports.Submissions(outbox.posts) == Reported(abs.history)
    {
      hide Inv, Implements, NoneUnreported, TrackedOnce, Orderly, ReleasedIdle;
      SameSpawnsAndBackoffs(Current(), abs, []);
      TablesTrackOnce(Current(), abs);
      LedgerOf(Current(), abs, id, lane);
      LaneHasRoom(Current(), abs, lane);
    }

    /** Over every run, the n-th completion or failure the history calls for was submitted as the
        n-th report, and that report got through, was replaced by a newer one for the same verb and
        task, was given up at its hundredth failed post, or is in the retry queue as it was. */
    lemma {:induction false} EveryOutcomeIsReported(n: nat) returns (base: Reports.Posts)
      requires Valid() && n < |Reported(abs.history)|
      ensures Reports.Fate(outbox.posts, base)
      ensures |Reports.Submissions(base)| == n + 1 && base.post.key == Reported(abs.history)[n]
      ensures Reports.StatusOf(outbox.posts, base.post.key).Owed? ==>
                base.post.key in outbox.pending
                && Reports.EntryMatches(outbox.pending[base.post.key], Reports.StatusOf(outbox.posts, base.post.key))
    {
      hide Inv, Implements, NoneUnreported, Orderly, ReleasedIdle, Reports.Fate;
      SameSpawnsAndBackoffs(Current(), abs, []);
      base := Reports.SubmissionAt(outbox.posts, n);
      Reports.EveryReportHasAFate(outbox.posts, base);
    }

    /** The backoff armed for a delivery: with one slot at most 62 seconds, with more 32 further seconds
        for each time it was put back with refusals behind it, and what its refusals granted exactly
        when it never was. */
    lemma {:induction false} BackoffIsBounded(id: TaskId)
      requires Valid()
      ensures Armed(abs.history, id) <= 62.0 + 32.0 * PutBacks(abs.history, id) as real
      ensures maxConcurrent <= 1 ==> Armed(abs.history, id) <= 62.0
      ensures Armed(abs.history, id) == RefusalDelay(abs.history, id) <==> PutBacks(abs.history, id) == 0
    {
      hide Inv, Implements, ReleasedIdle, Armed, RefusalDelay, PutBacks, NoneUnreported;
      BackoffArmed(abs, id);
    }

    /** As long as no board has offered a task whose completion was still owed, nothing that has
        completed here and is not reported yet runs or waits here again. */
    lemma {:induction false} NothingRunsTwice(id: TaskId)
      requires Valid() && clean && Unreported(outbox.posts, id)
      ensures id !in active && id !in IdsIn(queue) && id !in IdsIn(released)
    {
      hide Inv, Implements, ReleasedIdle, Orderly;
      if id in active || id in IdsIn(queue) || id in IdsIn(released) {
        ListedIsTracked(Current(), abs, id);
        assert false;
      }
    }

    /** With one slot no task that was taken off a queue is ever put back behind it.  With a steady
        clock, a lane on which nothing was refused has served its tasks exactly in the order in which
        they reached it, whatever happened elsewhere, and the rest waits in that order; its starts
        are what it served less what was let go. */
    lemma {:induction false} OneSlotServesInOrder(lane: LaneKey)
      requires Valid() && maxConcurrent == 1
      ensures NeverBounced(abs.history)
      ensures steady && NoRefusalsOn(abs.history, lane) ==>
                Arrivals(abs.history, lane) == TasksOf(Served(abs.history, lane)) + LaneTasks(Current(), lane)
      ensures LaneStarts(abs.history, lane) == StartedOf(Served(abs.history, lane))
    {
      hide Inv, Implements, NoneUnreported, LaneTasks, Traceable, NeverBounced, NeverOvertaken, ReleasedIdle, NoRefusalsOn, LaneCalm;
      hide Arrivals, Served, TasksOf;
      StartsAreServed(abs.history, lane);
      if steady && NoRefusalsOn(abs.history, lane) {
        assert LaneOrderly(lastPoll, abs, lane);
        ServiceFollowsArrivals(abs.history, lane);
        LaneAccount(Current(), abs, lane);
      }
    }
  }

  lemma {:induction false} ReapHoldsNoMore(s: State, s': State)
    requires ReapFrame(s, s')
    ensures forall id :: Tracked(s', id) ==> Tracked(s, id)
  {
  }

  /** The lane's first delivery is the first of its released ones. */
  ghost predicate HeadReleased(t: Tables, released: map<LaneKey, seq<Task>>, lane: LaneKey) {
    LaneTasks(t, lane) != [] && Fifo(released, lane) != [] && Fifo(released, lane)[0] == LaneTasks(t, lane)[0]
  }

  lemma {:induction false} HeadIsReleased(t: Tables, s: State, t': Tables, s': State, t'': Tables, now: real, lane: LaneKey)
    requires Inv(s) && Implements(t, s, []) && Implements(t', s', []) && ReapFrame(s, s') && t'.released == t.released
    requires Swept(t', t'', now, lane) && ReadyLane(t, now, lane)
    ensures HeadReleased(t, t''.released, lane)
  {
    hide Inv, Implements, ReapFrame, Swept, ReadyLane, Fifo, LaneTasks;
    ReadyIsReleased(t, s, t', s', t'', now, lane);
  }

  /** Every lane that was ready has been served its first delivery. */
  ghost predicate ReadyServed(t: Tables, now: real, h: History, h': History) {
    forall lane :: ReadyLane(t, now, lane) ==> HeadServed(t, h, h', lane)
  }

  lemma {:induction false} ReadyAreServed(t: Tables, now: real, released: map<LaneKey, seq<Task>>, h: History, mid: History, h': History)
    requires NoStarts(mid, h) && ReleasedServed(released, mid, h')
    requires forall lane :: ReadyLane(t, now, lane) ==> HeadReleased(t, released, lane)
    ensures ReadyServed(t, now, h, h')
  {
    hide NoStarts, ReleasedServed, ReadyLane, HeadServed, LaneTasks, Fifo;
    forall lane | ReadyLane(t, now, lane) ensures HeadServed(t, h, h', lane) {
      ReadyIsServed(t, released, h, mid, h', lane);
    }
  }

  /** What a cycle adds to the outcomes of a task. */
  ghost predicate OutcomesAfter(active: map<TaskId, Spawn>, c: Cycle, before: History, after: History, id: TaskId) {
    Outcomes(after, id) == Outcomes(before, id) + if id in active && id !in StillRunning(active, c) then 1 else 0
  }

  lemma {:induction false} CycleCounts(before: State, mid: State, after: State, active: map<TaskId, Spawn>, c: Cycle)
    requires Inv(before) && Inv(mid) && Inv(after) && before.active == active && mid.active == StillRunning(active, c)
    requires NoStarts(mid.history, before.history) && NoEnds(after.history, mid.history)
    ensures Grows(after.history, before.history) && Tries(mid.history) == Tries(before.history)
    ensures forall id :: OutcomesAfter(active, c, before.history, after.history, id)
    ensures forall id :: id in StillRunning(active, c) ==> id in after.active
  {
    hide Inv, StillRunning;
    ReapedAreFewer(active, c);
    NoStartsCounts(mid.history, before.history, TaskId(""));
    NoEndsCounts(after.history, mid.history, TaskId(""));
    GrowsTransitive(after.history, mid.history, before.history);
    forall id ensures OutcomesAfter(active, c, before.history, after.history, id) && (id in mid.active ==> id in after.active) {
      OneOutcomeEach(before, mid, after, id);
    }
  }

  lemma {:induction false} EndKeepsReported(s: State, id: TaskId, exit: Exit, h: Reports.Posts, body: string, ok: bool, at: real)
    requires Inv(s) && id in s.active && NoneUnreported(s, h)
    ensures NoneUnreported(AfterEnd(s, id, Resolved(id, exit)), WithReport(h, Resolved(id, exit), body, ok, at))
  {
    hide Inv, NoneUnreported, Unreported;
    var h' := WithReport(h, Resolved(id, exit), body, ok, at);
    forall x | Unreported(h', x) && !Unreported(h, x) ensures x == id {
      ReportOwes(h, Resolved(id, exit), body, ok, at, x);
    }
    StepKeepsReported(s, Resolve(id, exit), h, h');
  }

  lemma {:induction false} RefusalKeepsReported(s: State, id: TaskId, queue: map<LaneKey, seq<Task>>, now: real, h: Reports.Posts)
    requires Inv(s) && id in s.active && s.active[id].task.id == id && s.active[id].refusals < MAX_RETRIES && NoneUnreported(s, h)
    requires var t := s.active[id].task; t.lane != NoLane && Fifo(s.waiting, t.lane) == Fifo(queue, t.lane)
    ensures |Fifo(queue, s.active[id].task.lane)| < LANE_QUEUE_LIMIT ==>
              NoneUnreported(AfterEnqueue(AfterRefuse(s, id), s.active[id].task, now), h)
  {
    hide Inv, NoneUnreported;
    if |Fifo(queue, s.active[id].task.lane)| < LANE_QUEUE_LIMIT {
      StepKeepsInv(s, Refuse(id));
      StepKeepsReported(s, Refuse(id), h, h);
      StepKeepsReported(AfterRefuse(s, id), Enqueue(s.active[id].task, now), h, h);
    }
  }

  /** What is owed stays owed while only new reports are submitted. */
  lemma {:induction false} StillOwed(h: Reports.Posts, h': Reports.Posts, at: real)
    requires Reports.Submits(h', h, at)
    ensures forall id :: Unreported(h, id) ==> Unreported(h', id)
  {
    forall id | Unreported(h, id) ensures Unreported(h', id) {
      Reports.SubmitsStatus(h', h, Key(Complete, id), at);
    }
  }

  lemma {:induction false} NoneSubmitted(h: Reports.Posts, at: real)
    ensures Reports.Submits(h, h, at)
  {
  }

  /** While `todo` are still to be cancelled: whoever else of the cancelled ran has been. */
  ghost predicate CancelledSoFar(s0: State, s: State, cancelled: set<TaskId>, todo: set<TaskId>) {
    && s.active == (map id | id in s0.active && (id !in cancelled || id in todo) :: s0.active[id])
    && NoStarts(s.history, s0.history) && s.waiting == s0.waiting && ReapFrame(s0, s)
    && (forall id :: id in s0.active && id in cancelled && id !in todo ==> LastEnd(s.history, id) == Some(Cancelled(id)))
  }

  lemma {:induction false} CancelBegins(s: State, cancelled: set<TaskId>)
    ensures CancelledSoFar(s, s, cancelled, set id | id in s.active && id in cancelled)
  {
    NoneEnded(s.history);
    ReapFrameStarts(s);
  }

  lemma {:induction false} CancelStep(s0: State, s: State, cancelled: set<TaskId>, todo: set<TaskId>, id: TaskId)
    requires CancelledSoFar(s0, s, cancelled, todo) && id in todo && todo <= s.active.Keys && todo <= cancelled
    ensures CancelledSoFar(s0, AfterEnd(s, id, Cancelled(id)), cancelled, todo - {id})
  {
    var s' := AfterEnd(s, id, Cancelled(id));
    assert NoStarts(s'.history.past, s.history);
    NoStartsTransitive(s'.history, s.history, s0.history);
    EndIsNewest(s, id, Cancelled(id));
    EndFrame(s, id, Cancelled(id));
    ReapFrameTransitive(s0, s, s');
    hide LastEnd, ReapFrame, NoStarts;
  }

  lemma {:induction false} CancelEnds(s0: State, s: State, cancelled: set<TaskId>)
    requires CancelledSoFar(s0, s, cancelled, {})
    ensures s.active == map id | id in s0.active && id !in cancelled :: s0.active[id]
    ensures NoStarts(s.history, s0.history) && s.waiting == s0.waiting && ReapFrame(s0, s)
    ensures forall id :: id in s0.active && id in cancelled ==> LastEnd(s.history, id) == Some(Cancelled(id))
  {
    hide LastEnd, ReapFrame, NoStarts;
  }

  lemma {:induction false} NoneEnded(h: History)
    ensures NoEnds(h, h) && NoStarts(h, h)
  {
  }
}
