/** The main node's schedule tick over its task table, and what any run of board steps keeps. */
module ClusterState {
  import opened Ids
  import opened LaneGuard
  import opened Scheduler
  import NodeIds
  import Order

  // ------------------------------------------------------------ the task table

  /** Tasks that occupy a slot of a node. */
  ghost function ActiveOn(tasks: seq<Task>, node: string): nat {
    if tasks == [] then 0
    else ActiveOn(tasks[..|tasks| - 1], node)
         + if IsActive(tasks[|tasks| - 1]) && tasks[|tasks| - 1].assignedTo == Some(node) then 1 else 0
  }

  /** Hand a task to a node. */
  function Assign(tasks: seq<Task>, id: TaskId, node: string): (r: seq<Task>)
    ensures |r| == |tasks|
    ensures forall i :: 0 <= i < |tasks| ==>
              r[i] == if tasks[i].id == id then tasks[i].(status := Running, assignedTo := Some(node)) else tasks[i]
  {
    seq(|tasks|, i requires 0 <= i < |tasks| =>
          if tasks[i].id == id then tasks[i].(status := Running, assignedTo := Some(node)) else tasks[i])
  }

  lemma {:induction false} ActiveOnUpdate(tasks: seq<Task>, k: nat, t: Task, node: string)
    requires k < |tasks| && !IsActive(tasks[k])
    ensures ActiveOn(tasks[k := t], node) == ActiveOn(tasks, node) + if IsActive(t) && t.assignedTo == Some(node) then 1 else 0
  {
    hide IsActive;
    var n := |tasks| - 1;
    if k == n {
      assert tasks[k := t][..n] == tasks[..n];
    } else {
      ActiveOnUpdate(tasks[..n], k, t, node);
      assert tasks[k := t][..n] == tasks[..n][k := t];
    }
  }

  /** Assigning a ready task loads its node by one and no other node. */
  lemma {:induction false} AssignLoads(tasks: seq<Task>, k: nat, node: string, other: string)
    requires DistinctIds(tasks) && k < |tasks| && tasks[k].status.Ready?
    ensures ActiveOn(Assign(tasks, tasks[k].id, node), other)
            == ActiveOn(tasks, other) + if other == node then 1 else 0
  {
    hide ActiveOn;
    var t := tasks[k].(status := Running, assignedTo := Some(node));
    assert Assign(tasks, tasks[k].id, node) == tasks[k := t];
    ActiveOnUpdate(tasks, k, t, other);
  }

  /** At most one active task on every lane. */
  ghost predicate LaneSerial(tasks: seq<Task>) {
    forall i, j :: 0 <= i < j < |tasks| && IsActive(tasks[i]) && IsActive(tasks[j]) && tasks[i].lane != NoLane
                   ==> tasks[i].lane != tasks[j].lane
  }

  /** The table after a tick: ready tasks that nothing held back may have been assigned. */
  ghost predicate TaskTicked(before: seq<Task>, leased: set<TaskId>, t: Task, t': Task) {
    t' == t || (
      && t.status.Ready? && !HeldBack(before, t) && t.id !in leased
      && t'.assignedTo.Some? && t' == t.(status := Running, assignedTo := t'.assignedTo))
  }

  ghost predicate Ticked(before: seq<Task>, after: seq<Task>, leased: set<TaskId>) {
    |after| == |before| && forall i :: 0 <= i < |before| ==> TaskTicked(before, leased, before[i], after[i])
  }

  /** A tick never puts two active tasks on one lane. */
  lemma {:induction false} TickKeepsLaneSerial(before: seq<Task>, after: seq<Task>, leased: set<TaskId>)
    requires DistinctIds(before) && LaneSerial(before) && Ticked(before, after, leased)
    ensures LaneSerial(after) && DistinctIds(after)
  {
  }

  // -------------------------------------------------------------- placing tasks

  function PinOf(pins: map<LaneKey, string>, lane: LaneKey): string {
    if lane != NoLane && lane in pins then pins[lane] else ""
  }

  /** A task that changed was ready and free to go, and went to a node that may run it: its lane's
      own node if the lane is placed. */
  ghost predicate Placed(before: seq<Task>, leased: set<TaskId>, online: seq<Node>, pins: map<LaneKey, string>,
                         t: Task, t': Task)
  {
    t' == t || (
      && TaskTicked(before, leased, t, t')
      && exists k :: 0 <= k < |online| && t'.assignedTo == Some(online[k].id)
                     && !online[k].drained && (forall c :: c in t.needs ==> c in online[k].capabilities)
                     && (t.lane != NoLane && t.lane in pins && pins[t.lane] != "" ==> NodeIds.SameNode(online[k].id, pins[t.lane])))
  }

  ghost predicate FreeToGo(before: seq<Task>, leased: set<TaskId>, t: Task) {
    t.status.Ready? && !HeldBack(before, t) && t.id !in leased
  }

  ghost predicate HasRoom(tasks: seq<Task>, t: Task, n: Node) {
    && !n.drained && (forall c :: c in t.needs ==> c in n.capabilities)
    && (n.maxConcurrent <= 0 || ActiveOn(tasks, n.id) < n.maxConcurrent)
  }

  /** Nowhere to go: no capable node has room, or the lane's own node has none. */
  ghost predicate Stuck(tasks: seq<Task>, online: seq<Node>, pins: map<LaneKey, string>, t: Task) {
    var pin := PinOf(pins, t.lane);
    forall k :: 0 <= k < |online| && (pin != "" ==> FirstNamed(online, pin, k)) ==> !HasRoom(tasks, t, online[k])
  }

  /** One row during a tick; `todo` are the rows not yet considered. */
  ghost predicate RowAt(before: seq<Task>, now: seq<Task>, leased: set<TaskId>, online: seq<Node>,
                        pins: map<LaneKey, string>, todo: set<TaskId>, i: int)
    requires |now| == |before| && 0 <= i < |before|
  {
    && Placed(before, leased, online, pins, before[i], now[i])
    && (before[i].id in todo ==> now[i] == before[i])
    && (before[i].id !in todo && FreeToGo(before, leased, now[i]) ==> Stuck(now, online, pins, now[i]))
  }

  ghost predicate WithinCeiling(before: seq<Task>, now: seq<Task>, n: Node) {
    n.maxConcurrent > 0 ==> ActiveOn(now, n.id) <= n.maxConcurrent || ActiveOn(now, n.id) <= ActiveOn(before, n.id)
  }

  lemma {:induction false} StuckStays(now: seq<Task>, k: nat, node: string, online: seq<Node>, pins: map<LaneKey, string>, t: Task)
    requires DistinctIds(now) && k < |now| && now[k].status.Ready? && Stuck(now, online, pins, t)
    ensures Stuck(Assign(now, now[k].id, node), online, pins, t)
  {
    forall n | 0 <= n < |online| && HasRoom(Assign(now, now[k].id, node), t, online[n])
      ensures HasRoom(now, t, online[n])
    {
      AssignLoads(now, k, node, online[n].id);
    }
  }

  /** Assigning the row under consideration keeps every row's account. */
  lemma {:induction false} AssignKeepsRows(before: seq<Task>, now: seq<Task>, leased: set<TaskId>, online: seq<Node>,
                          pins: map<LaneKey, string>, todo: set<TaskId>, k: nat, n: nat)
    requires DistinctIds(before) && |now| == |before| && k < |now| && n < |online|
    requires forall i :: 0 <= i < |before| ==> RowAt(before, now, leased, online, pins, todo, i)
    requires now[k].id in todo && FreeToGo(before, leased, now[k]) && CanRun(now[k].needs, online[n])
    requires PinOf(pins, now[k].lane) != "" ==> NodeIds.SameNode(online[n].id, PinOf(pins, now[k].lane))
    ensures var after := Assign(now, now[k].id, online[n].id);
            forall i :: 0 <= i < |before| ==> RowAt(before, after, leased, online, pins, todo - {now[k].id}, i)
  {
    var after := Assign(now, now[k].id, online[n].id);
    var todo' := todo - {now[k].id};
    RowsKeepIds(before, now, leased, online, pins, todo);
    assert now[k] == before[k] by {
      assert RowAt(before, now, leased, online, pins, todo, k);
    }
    forall i | 0 <= i < |before| ensures RowAt(before, after, leased, online, pins, todo', i) {
      assert RowAt(before, now, leased, online, pins, todo, i);
      if i != k && before[i].id !in todo' && FreeToGo(before, leased, now[i]) {
        StuckStays(now, k, online[n].id, online, pins, now[i]);
      }
    }
  }

  lemma {:induction false} RowsKeepIds(before: seq<Task>, now: seq<Task>, leased: set<TaskId>, online: seq<Node>,
                      pins: map<LaneKey, string>, todo: set<TaskId>)
    requires DistinctIds(before) && |now| == |before|
    requires forall i :: 0 <= i < |before| ==> RowAt(before, now, leased, online, pins, todo, i)
    ensures DistinctIds(now) && forall i :: 0 <= i < |now| ==> now[i].id == before[i].id
  {
    forall i | 0 <= i < |now| ensures now[i].id == before[i].id {
      assert RowAt(before, now, leased, online, pins, todo, i);
    }
  }

  /** Passing over a row that has nowhere to go. */
  lemma {:induction false} PassKeepsRows(before: seq<Task>, now: seq<Task>, leased: set<TaskId>, online: seq<Node>,
                        pins: map<LaneKey, string>, todo: set<TaskId>, k: nat)
    requires DistinctIds(before) && |now| == |before| && k < |now|
    requires forall i :: 0 <= i < |before| ==> RowAt(before, now, leased, online, pins, todo, i)
    requires Stuck(now, online, pins, now[k])
    ensures forall i :: 0 <= i < |before| ==> RowAt(before, now, leased, online, pins, todo - {now[k].id}, i)
  {
    RowsKeepIds(before, now, leased, online, pins, todo);
    forall i | 0 <= i < |before| ensures RowAt(before, now, leased, online, pins, todo - {now[k].id}, i) {
      assert RowAt(before, now, leased, online, pins, todo, i);
    }
  }

  lemma {:induction false} CeilingKept(before: seq<Task>, now: seq<Task>, k: nat, chosen: Node, n: Node)
    requires DistinctIds(now) && k < |now| && now[k].status.Ready? && WithinCeiling(before, now, n)
    requires n.id == chosen.id ==> n == chosen && !AtCapacity(n, ActiveOn(now, n.id))
    ensures WithinCeiling(before, Assign(now, now[k].id, chosen.id), n)
  {
    AssignLoads(now, k, chosen.id, n.id);
  }

  // ------------------------------------------------------------------- one tick

  /** Serving order of a tick: band first, newest first inside a band. */
  predicate NewestLe(a: Task, b: Task) {
    a.priority < b.priority || (a.priority == b.priority && a.created >= b.created)
  }

  /** A node the task may be given: able to run it and, if the lane is placed, the lane's own. */
  ghost predicate CouldTake(online: seq<Node>, pins: map<LaneKey, string>, t: Task, n: int) {
    && 0 <= n < |online| && CanRun(t.needs, online[n])
    && (PinOf(pins, t.lane) != "" ==> FirstNamed(online, PinOf(pins, t.lane), n))
  }

  /** If row `i` is left ready and row `j` was given a node that `i` could have taken, then `j` is more
      urgent, or as urgent and not older. */
  ghost predicate NotPassedOver(before: seq<Task>, now: seq<Task>, leased: set<TaskId>, online: seq<Node>,
                                pins: map<LaneKey, string>, i: int, j: int, n: int)
    requires |now| == |before|
  {
    && 0 <= i < |now| && 0 <= j < |now| && FreeToGo(before, leased, now[i])
    && now[j] != before[j] && CouldTake(online, pins, now[i], n) && now[j].assignedTo == Some(online[n].id)
    ==> now[j].priority < now[i].priority || (now[j].priority == now[i].priority && now[j].created >= now[i].created)
  }

  /** Nobody was passed over. */
  ghost predicate Fair(before: seq<Task>, now: seq<Task>, leased: set<TaskId>, online: seq<Node>, pins: map<LaneKey, string>)
    requires |now| == |before|
  {
    forall i, j, n :: NotPassedOver(before, now, leased, online, pins, i, j, n)
  }

  /** A row that is still ready is as it was, and stuck if it was considered. */
  lemma {:induction false} ReadyRow(before: seq<Task>, now: seq<Task>, leased: set<TaskId>, online: seq<Node>,
                                    pins: map<LaneKey, string>, todo: set<TaskId>, i: nat)
    requires |now| == |before| && i < |now| && RowAt(before, now, leased, online, pins, todo, i) && now[i].status.Ready?
    ensures now[i] == before[i]
    ensures before[i].id !in todo && FreeToGo(before, leased, now[i]) ==> Stuck(now, online, pins, now[i])
  {
  }

  lemma {:induction false} StuckIsFull(now: seq<Task>, online: seq<Node>, pins: map<LaneKey, string>, t: Task, n: nat)
    requires Stuck(now, online, pins, t) && CouldTake(online, pins, t, n)
    ensures AtCapacity(online[n], ActiveOn(now, online[n].id))
  {
  }

  /** Placing the first of the rows still to be considered passes nobody over: whoever was considered
      before and is still ready could not have had that node, for it would be full. */
  lemma {:induction false} PlacingIsFair(before: seq<Task>, now: seq<Task>, leased: set<TaskId>, online: seq<Node>,
                                         pins: map<LaneKey, string>, todo: set<TaskId>, k: nat, m: nat)
    requires DistinctIds(before) && |now| == |before| && k < |now| && m < |online| && DistinctNodes(online)
    requires forall i :: 0 <= i < |before| ==> RowAt(before, now, leased, online, pins, todo, i)
    requires Fair(before, now, leased, online, pins) && now[k].status.Ready?
    requires forall i :: 0 <= i < |before| && before[i].id in todo ==> NewestLe(now[k], before[i])
    requires !AtCapacity(online[m], ActiveOn(now, online[m].id))
    ensures Fair(before, Assign(now, now[k].id, online[m].id), leased, online, pins)
  {
    hide RowAt, Stuck, HeldBack, AtCapacity, FirstNamed, PinOf;
    RowsKeepIds(before, now, leased, online, pins, todo);
    var after := Assign(now, now[k].id, online[m].id);
    forall i, j, n ensures NotPassedOver(before, after, leased, online, pins, i, j, n) {
      assert NotPassedOver(before, now, leased, online, pins, i, j, n);
      if 0 <= i < |after| && FreeToGo(before, leased, after[i]) && CouldTake(online, pins, after[i], n) {
        assert i != k && after[i] == now[i];
        ReadyRow(before, now, leased, online, pins, todo, i);
        if before[i].id !in todo && n == m {
          StuckIsFull(now, online, pins, now[i], n);
          assert false;
        }
      }
    }
  }

  lemma {:induction false} NothingPlacedYet(before: seq<Task>, leased: set<TaskId>, online: seq<Node>, pins: map<LaneKey, string>)
    ensures Fair(before, before, leased, online, pins)
  {
  }

  /** The tasks come in serving order: the next one is first among those still to come. */
  lemma {:induction false} NextIsFirst(before: seq<Task>, free: seq<Task>, j: nat)
    requires var ready := Order.Sort(free, NewestLe); j < |ready| && DistinctIds(before) && forall t :: t in ready ==> t in before
    ensures var ready := Order.Sort(free, NewestLe);
            forall i :: 0 <= i < |before| && before[i].id in IdsOf(ready[j..]) ==> NewestLe(ready[j], before[i])
  {
    var ready := Order.Sort(free, NewestLe);
    Order.SortSorts(free, NewestLe);
    forall i | 0 <= i < |before| && before[i].id in IdsOf(ready[j..]) ensures NewestLe(ready[j], before[i]) {
      var t :| t in ready[j..] && t.id == before[i].id;
      var m :| 0 <= m < |ready[j..]| && ready[j..][m] == t;
      assert ready[j + m] == t && t in before;
    }
  }

  ghost predicate InTopBand(tasks: seq<Task>, lane: LaneKey, t: Task)
    requires NextOn(tasks, lane).Some?
  {
    t in tasks && WaitsOn(t, lane) && t.priority == NextOn(tasks, lane).value.priority
  }

  /** A lane's next task is also first in the tick's own order exactly when the lane's waiting tasks
      of its most urgent band all have one age: otherwise the filter lets the oldest through. */
  lemma {:induction false} NextIsNewest(tasks: seq<Task>, lane: LaneKey)
    requires NextOn(tasks, lane).Some?
    ensures (forall t :: t in tasks && WaitsOn(t, lane) ==> NewestLe(NextOn(tasks, lane).value, t))
            <==> (forall t, u :: InTopBand(tasks, lane, t) && InTopBand(tasks, lane, u) ==> t.created == u.created)
  {
    NextIsMinimal(tasks, lane);
    var next := NextOn(tasks, lane).value;
    hide NextOn;
    if forall t :: t in tasks && WaitsOn(t, lane) ==> NewestLe(next, t) {
      forall t | InTopBand(tasks, lane, t) ensures t.created == next.created {
        assert NewestLe(next, t) && BandLe(next, t);
      }
    } else {
      var t :| t in tasks && WaitsOn(t, lane) && !NewestLe(next, t);
      assert BandLe(next, t) && InTopBand(tasks, lane, t) && InTopBand(tasks, lane, next);
    }
  }

  /** Of two ready siblings of one band the older goes and the newer is held back. */
  lemma {:induction false} OlderSiblingFirst(older: Task, young: Task)
    requires WaitsOn(older, older.lane) && WaitsOn(young, older.lane)
    requires older.priority == young.priority && older.created < young.created
    ensures !HeldBack([older, young], older) && HeldBack([older, young], young) && NewestLe(young, older) && !NewestLe(older, young)
  {
    var tasks := [older, young];
    NextIsMinimal(tasks, older.lane);
    hide NextOn;
    assert older in tasks && young in tasks;
    assert NextOn(tasks, older.lane).Some? && BandLe(NextOn(tasks, older.lane).value, older);
    assert forall i :: 0 <= i < |tasks| ==> !IsActive(tasks[i]);
  }

  function Unheld(tasks: seq<Task>, blocked: set<TaskId>, leased: set<TaskId>): seq<Task> {
    if tasks == [] then []
    else
      var t := tasks[0];
      (if t.status.Ready? && t.id !in leased && t.id !in blocked then [t] else []) + Unheld(tasks[1..], blocked, leased)
  }

  lemma {:induction false} UnheldMembers(tasks: seq<Task>, blocked: set<TaskId>, leased: set<TaskId>)
    ensures forall t :: t in Unheld(tasks, blocked, leased)
                        <==> t in tasks && t.status.Ready? && t.id !in leased && t.id !in blocked
    ensures DistinctIds(tasks) ==> DistinctIds(Unheld(tasks, blocked, leased))
  {
    if tasks != [] {
      var rest := Unheld(tasks[1..], blocked, leased);
      UnheldMembers(tasks[1..], blocked, leased);
      assert tasks == [tasks[0]] + tasks[1..];
      if DistinctIds(tasks) {
        forall k | 0 <= k < |rest| ensures rest[k].id != tasks[0].id {
          assert rest[k] in tasks[1..];
          var m :| 0 <= m < |tasks[1..]| && tasks[1..][m] == rest[k];
          assert tasks[m + 1] == rest[k];
        }
      }
    }
  }

  /** Row `i` is served before row `j`: more urgent, or as urgent and newer, or of one age and listed first. */
  ghost predicate ServedBefore(tasks: seq<Task>, i: int, j: int)
    requires 0 <= i < |tasks| && 0 <= j < |tasks|
  {
    || tasks[i].priority < tasks[j].priority
    || (&& tasks[i].priority == tasks[j].priority
        && (tasks[i].created > tasks[j].created || (tasks[i].created == tasks[j].created && i < j)))
  }

  /** The tasks free to go, in the order of serving. */
  ghost predicate InServingOrder(tasks: seq<Task>, leased: set<TaskId>, ready: seq<Task>) {
    && (forall t :: t in ready <==> t in tasks && FreeToGo(tasks, leased, t))
    && (forall a, b, i, j ::
          0 <= a < b < |ready| && 0 <= i < |tasks| && 0 <= j < |tasks| && ready[a] == tasks[i] && ready[b] == tasks[j] ==>
            ServedBefore(tasks, i, j))
  }

  lemma {:induction false} InTail(tasks: seq<Task>, x: Task, i: nat)
    requires DistinctIds(tasks) && i < |tasks| && tasks[i] == x && x in tasks[1..]
    ensures i > 0 && tasks[1..][i - 1] == x && DistinctIds(tasks[1..])
  {
    var m :| 0 <= m < |tasks[1..]| && tasks[1..][m] == x;
    assert tasks[m + 1] == x;
  }

  lemma {:induction false} UnheldListed(tasks: seq<Task>, blocked: set<TaskId>, leased: set<TaskId>, a: nat, b: nat, i: nat, j: nat)
    requires DistinctIds(tasks) && a < b < |Unheld(tasks, blocked, leased)| && i < |tasks| && j < |tasks|
    requires Unheld(tasks, blocked, leased)[a] == tasks[i] && Unheld(tasks, blocked, leased)[b] == tasks[j]
    ensures i < j
  {
    hide DistinctIds, Unheld;
    var rest := Unheld(tasks[1..], blocked, leased);
    UnheldMembers(tasks[1..], blocked, leased);
    var d := UnheldShift(tasks, blocked, leased, b);
    assert rest[b - d] in rest;
    InTail(tasks, tasks[j], j);
    var _ := UnheldShift(tasks, blocked, leased, a);
    if d <= a {
      assert rest[a - d] in rest;
      InTail(tasks, tasks[i], i);
      UnheldListed(tasks[1..], blocked, leased, a - d, b - d, i - 1, j - 1);
    } else if i > 0 {
      HeadOnce(tasks, i);
    }
  }

  /** Behind its first row the table's free tasks are those of the rest, moved by one or not. */
  lemma {:induction false} UnheldShift(tasks: seq<Task>, blocked: set<TaskId>, leased: set<TaskId>, b: nat) returns (d: nat)
    requires tasks != [] && b < |Unheld(tasks, blocked, leased)|
    ensures d == |Unheld(tasks, blocked, leased)| - |Unheld(tasks[1..], blocked, leased)| <= 1
    ensures if b < d then Unheld(tasks, blocked, leased)[b] == tasks[0]
            else b - d < |Unheld(tasks[1..], blocked, leased)| && Unheld(tasks, blocked, leased)[b] == Unheld(tasks[1..], blocked, leased)[b - d]
  {
    d := |Unheld(tasks, blocked, leased)| - |Unheld(tasks[1..], blocked, leased)|;
  }

  lemma {:induction false} HeadOnce(tasks: seq<Task>, i: nat)
    requires DistinctIds(tasks) && 0 < i < |tasks|
    ensures tasks[0] != tasks[i]
  {
  }

  /** The tasks a tick considers: exactly those free to go, each once. */
  lemma {:induction false} ConsideredTasks(tasks: seq<Task>, blocked: set<TaskId>, leased: set<TaskId>)
    requires DistinctIds(tasks)
    requires forall t :: t in tasks ==> (t.id in blocked <==> HeldBack(tasks, t))
    ensures var ready := Order.Sort(Unheld(tasks, blocked, leased), NewestLe);
            && DistinctIds(ready) && (forall t :: t in ready <==> t in tasks && FreeToGo(tasks, leased, t))
            && Order.SortedBy(ready, NewestLe)
  {
    var free := Unheld(tasks, blocked, leased);
    UnheldMembers(tasks, blocked, leased);
    Order.SortSorts(free, NewestLe);
    Order.SortKeepsNoDuplicates(free, NewestLe);
    Order.SortKeepsElements(free, NewestLe);
    Order.SameElements(Order.Sort(free, NewestLe), free);
    var ready := Order.Sort(free, NewestLe);
    forall i, j | 0 <= i < j < |ready| ensures ready[i].id != ready[j].id {
      assert ready[i] in tasks && ready[j] in tasks && ready[i] != ready[j];
    }
  }

  lemma {:induction false} PairInOrder(tasks: seq<Task>, free: seq<Task>, a: nat, b: nat, p: nat, q: nat, i: nat, j: nat)
    requires Order.NoDuplicates(free) && p < |free| && q < |free| && i < |tasks| && j < |tasks|
    requires var ready := Order.Sort(free, NewestLe); a < b < |ready| && ready[a] == free[p] == tasks[i] && ready[b] == free[q] == tasks[j]
    requires p < q ==> i < j
    ensures ServedBefore(tasks, i, j)
  {
    hide Order.NoDuplicates, Order.Sort;
    Order.SortSorts(free, NewestLe);
    assert NewestLe(tasks[i], tasks[j]);
    if NewestLe(tasks[j], tasks[i]) {
      Order.SortIsStable(free, NewestLe, a, b, p, q);
    }
  }

  /** ... and in the order of serving. */
  lemma {:induction false} ConsideredInOrder(tasks: seq<Task>, blocked: set<TaskId>, leased: set<TaskId>)
    requires DistinctIds(tasks)
    requires forall t :: t in tasks ==> (t.id in blocked <==> HeldBack(tasks, t))
    ensures InServingOrder(tasks, leased, Order.Sort(Unheld(tasks, blocked, leased), NewestLe))
  {
    hide FreeToGo, HeldBack, Order.Sort, Unheld, NewestLe, ServedBefore;
    var free := Unheld(tasks, blocked, leased);
    var ready := Order.Sort(free, NewestLe);
    ConsideredTasks(tasks, blocked, leased);
    UnheldMembers(tasks, blocked, leased);
    Order.SortKeepsElements(free, NewestLe);
    Order.SameElements(ready, free);
    forall a, b, i, j | 0 <= a < b < |ready| && 0 <= i < |tasks| && 0 <= j < |tasks| && ready[a] == tasks[i] && ready[b] == tasks[j]
      ensures ServedBefore(tasks, i, j)
    {
      assert ready[a] in ready && ready[b] in ready;
      var p :| 0 <= p < |free| && free[p] == ready[a];
      var q :| 0 <= q < |free| && free[q] == ready[b];
      if p < q {
        UnheldListed(tasks, blocked, leased, p, q, i, j);
      }
      PairInOrder(tasks, free, a, b, p, q, i, j);
    }
  }

  ghost predicate CountsMatch(counts: map<string, nat>, tasks: seq<Task>) {
    forall node :: Load(counts, node) == ActiveOn(tasks, node)
  }

  method CountActive(tasks: seq<Task>) returns (counts: map<string, nat>)
    ensures CountsMatch(counts, tasks)
  {
    counts := map[];
    for n := 0 to |tasks|
      invariant CountsMatch(counts, tasks[..n])
    {
      assert tasks[..n + 1][..n] == tasks[..n];
      var t := tasks[n];
      if IsActive(t) && t.assignedTo.Some? {
        counts := counts[t.assignedTo.value := Load(counts, t.assignedTo.value) + 1];
      }
    }
    assert tasks[..|tasks|] == tasks;
  }

  /** Placing one task keeps every row's account, every ceiling and the counts. */
  lemma {:induction false} PlacingKeeps(before: seq<Task>, now: seq<Task>, leased: set<TaskId>, online: seq<Node>,
                                        pins: map<LaneKey, string>, todo: set<TaskId>, counts: map<string, nat>, k: nat, n: nat)
    requires DistinctIds(before) && |now| == |before| && k < |now| && n < |online| && DistinctNodes(online)
    requires forall i :: 0 <= i < |before| ==> RowAt(before, now, leased, online, pins, todo, i)
    requires forall i :: 0 <= i < |online| ==> WithinCeiling(before, now, online[i])
    requires now[k].id in todo && FreeToGo(before, leased, now[k]) && Candidate(now[k].needs, online[n], counts)
    requires PinOf(pins, now[k].lane) != "" ==> NodeIds.SameNode(online[n].id, PinOf(pins, now[k].lane))
    requires CountsMatch(counts, now)
    ensures var after := Assign(now, now[k].id, online[n].id);
            && (forall i :: 0 <= i < |before| ==> RowAt(before, after, leased, online, pins, todo - {now[k].id}, i))
            && (forall i :: 0 <= i < |online| ==> WithinCeiling(before, after, online[i]))
            && CountsMatch(counts[online[n].id := Load(counts, online[n].id) + 1], after)
  {
    hide RowAt, WithinCeiling, HeldBack, NodeIds.SameNode, Assign;
    RowsKeepIds(before, now, leased, online, pins, todo);
    AssignKeepsRows(before, now, leased, online, pins, todo, k, n);
    var after, chosen := Assign(now, now[k].id, online[n].id), online[n];
    forall i | 0 <= i < |online| ensures WithinCeiling(before, after, online[i]) {
      CeilingKept(before, now, k, chosen, online[i]);
    }
    forall x ensures Load(counts[chosen.id := Load(counts, chosen.id) + 1], x) == ActiveOn(after, x) {
      AssignLoads(now, k, chosen.id, x);
    }
  }

  lemma {:induction false} NowhereToGo(now: seq<Task>, online: seq<Node>, pins: map<LaneKey, string>, t: Task, counts: map<string, nat>)
    requires CountsMatch(counts, now)
    requires PinOf(pins, t.lane) == "" ==> forall i :: 0 <= i < |online| ==> !Candidate(t.needs, online[i], counts)
    requires PinOf(pins, t.lane) != "" ==> forall i :: FirstNamed(online, PinOf(pins, t.lane), i) ==> !Candidate(t.needs, online[i], counts)
    ensures Stuck(now, online, pins, t)
  {
    hide FirstNamed;
    forall i | 0 <= i < |online| && !Candidate(t.needs, online[i], counts) ensures !HasRoom(now, t, online[i]) {
      assert Load(counts, online[i].id) == ActiveOn(now, online[i].id);
    }
  }

  /** The node a task is to be given: its lane's own, or else the one with the fewest active tasks of
      those that have room, of those the least recently picked, of those the first listed. */
  ghost predicate BestNode(tasks: seq<Task>, c: Cursor, online: seq<Node>, pins: map<LaneKey, string>, t: Task, n: int) {
    && CouldTake(online, pins, t, n) && HasRoom(tasks, t, online[n])
    && (PinOf(pins, t.lane) == "" ==>
          forall m :: 0 <= m < |online| && HasRoom(tasks, t, online[m]) ==>
            || ActiveOn(tasks, online[n].id) < ActiveOn(tasks, online[m].id)
            || (&& ActiveOn(tasks, online[n].id) == ActiveOn(tasks, online[m].id)
                && (LastPicked(c, online[n].id) < LastPicked(c, online[m].id)
                    || (LastPicked(c, online[n].id) == LastPicked(c, online[m].id) && n <= m))))
  }

  /** The table and the planner's memory during a tick. */
  datatype Tick = Tick(tasks: seq<Task>, cursor: Cursor)

  /** Considering one task: it goes to the best node, which is remembered, or nothing changes. */
  ghost predicate Considers(s: Tick, s': Tick, online: seq<Node>, pins: map<LaneKey, string>, t: Task) {
    || (s' == s && Stuck(s.tasks, online, pins, t))
    || exists n :: BestNode(s.tasks, s.cursor, online, pins, t, n)
                   && s' == Tick(Assign(s.tasks, t.id, online[n].id), Mark(s.cursor, online[n].id))
  }

  /** A tick considers these tasks one after the other. */
  ghost predicate TickRun(run: seq<Tick>, ready: seq<Task>, online: seq<Node>, pins: map<LaneKey, string>) {
    |run| == |ready| + 1 && forall j :: 0 <= j < |ready| ==> Considers(run[j], run[j + 1], online, pins, ready[j])
  }

  lemma {:induction false} ChoiceIsBest(tasks: seq<Task>, c: Cursor, online: seq<Node>, counts: map<string, nat>, pins: map<LaneKey, string>, t: Task, node: Node)
    returns (n: nat)
    requires CountsMatch(counts, tasks)
    requires var pin := PinOf(pins, t.lane);
             && (pin == "" ==> exists i :: IsChoice(c, t.needs, online, counts, i) && node == online[i])
             && (pin != "" ==> exists i :: FirstNamed(online, pin, i) && node == online[i] && Candidate(t.needs, online[i], counts))
    ensures n < |online| && online[n] == node && Candidate(t.needs, node, counts) && BestNode(tasks, c, online, pins, t, n)
    ensures PinOf(pins, t.lane) != "" ==> NodeIds.SameNode(node.id, PinOf(pins, t.lane))
  {
    hide ActiveOn, NodeIds.SameNode;
    var pin := PinOf(pins, t.lane);
    assert forall i :: 0 <= i < |online| ==> Load(counts, online[i].id) == ActiveOn(tasks, online[i].id);
    if pin == "" {
      n :| IsChoice(c, t.needs, online, counts, n) && node == online[n];
      forall m | 0 <= m < |online| && HasRoom(tasks, t, online[m])
        ensures Candidate(t.needs, online[m], counts)
      {
      }
    } else {
      n :| FirstNamed(online, pin, n) && node == online[n] && Candidate(t.needs, online[n], counts);
    }
  }

  class Store {
    var tasks: seq<Task>
    const planner: AffinityScheduler

    constructor (tasks: seq<Task>)
      ensures this.tasks == tasks && fresh(planner)
    {
      this.tasks := tasks;
      planner := new AffinityScheduler();
    }

    /** Consider one ready task: place it, or leave it where it is. */
    method PlaceOne(ghost before: seq<Task>, leased: set<TaskId>, online: seq<Node>, pins: map<LaneKey, string>,
                    ghost todo: set<TaskId>, t: Task, counts: map<string, nat>) returns (counts': map<string, nat>)
      requires DistinctIds(before) && |tasks| == |before| && DistinctNodes(online)
      requires forall i :: 0 <= i < |before| ==> RowAt(before, tasks, leased, online, pins, todo, i)
      requires forall i :: 0 <= i < |online| ==> WithinCeiling(before, tasks, online[i])
      requires t in before && t.id in todo && FreeToGo(before, leased, t) && CountsMatch(counts, tasks)
      requires Fair(before, tasks, leased, online, pins)
      requires forall i :: 0 <= i < |before| && before[i].id in todo ==> NewestLe(t, before[i])
      modifies this`tasks, planner
      ensures |tasks| == |before| && CountsMatch(counts', tasks)
      ensures Fair(before, tasks, leased, online, pins)
      ensures Considers(Tick(old(tasks), old(planner.State())), Tick(tasks, planner.State()), online, pins, t)
      ensures forall i :: 0 <= i < |before| ==> RowAt(before, tasks, leased, online, pins, todo - {t.id}, i)
      ensures forall i :: 0 <= i < |online| ==> WithinCeiling(before, tasks, online[i])
    {
      hide RowAt, WithinCeiling, HeldBack, Assign, CountsMatch, Stuck, FreeToGo, Candidate, IsChoice, FirstNamed, PinOf, Fair, NewestLe, BestNode, Mark;
      ghost var k :| 0 <= k < |before| && before[k] == t;
      RowUntouched(before, tasks, leased, online, pins, todo, k);
      RowsKeepIds(before, tasks, leased, online, pins, todo);
      var node, pinned := planner.ChoosePinned(t.needs, online, counts, PinOf(pins, t.lane));
      if node.None? {
        NowhereToGo(tasks, online, pins, t, counts);
        PassKeepsRows(before, tasks, leased, online, pins, todo, k);
        return counts;
      }
      ghost var n := ChoiceIsBest(tasks, planner.State(), online, counts, pins, t, node.value);
      PlacingKeeps(before, tasks, leased, online, pins, todo, counts, k, n);
      CandidateHasRoom(tasks, t.needs, online[n], counts);
      ReadyToGo(before, leased, t);
      PlacingIsFair(before, tasks, leased, online, pins, todo, k, n);
      tasks := Assign(tasks, t.id, node.value.id);
      counts' := counts[node.value.id := Load(counts, node.value.id) + 1];
      planner.MarkPicked(node.value.id);
    }

    /** One schedule tick.  Only tasks free to go move, each to a node that may run it; no ceiling is
        crossed; whatever stays ready without being held back has nowhere to go, and lost no node it
        could have taken to a less urgent task or to an older one of its band. */
    method SchedulePending(online: seq<Node>, leased: set<TaskId>, pins: map<LaneKey, string>)
      returns (ghost considered: seq<Task>, ghost run: seq<Tick>)
      requires DistinctIds(tasks) && DistinctNodes(online)
      modifies this`tasks, planner
      ensures |tasks| == |old(tasks)| && Ticked(old(tasks), tasks, leased)
      ensures forall i :: 0 <= i < |tasks| ==> Placed(old(tasks), leased, online, pins, old(tasks)[i], tasks[i])
      ensures forall i :: 0 <= i < |online| ==> WithinCeiling(old(tasks), tasks, online[i])
      ensures forall i :: 0 <= i < |tasks| && FreeToGo(old(tasks), leased, tasks[i]) ==>
                Stuck(tasks, online, pins, tasks[i])
      ensures forall i, j, n :: NotPassedOver(old(tasks), tasks, leased, online, pins, i, j, n)
      ensures online != [] ==> InServingOrder(old(tasks), leased, considered)
      ensures TickRun(run, considered, online, pins)
      ensures run[0] == Tick(old(tasks), old(planner.State())) && run[|considered|] == Tick(tasks, planner.State())
    {
      NothingPlacedYet(tasks, leased, online, pins);
      considered, run := [], [Tick(tasks, planner.State())];
      if online == [] {
        return;
      }
      hide FreeToGo, HeldBack, RowAt, WithinCeiling, Ticked, Placed, Stuck, Unheld, CountsMatch, NotPassedOver, Considers, InServingOrder;
      ghost var before := tasks;
      var blocked := LaneBlockedReadyIds(tasks);
      var counts := CountActive(tasks);
      ConsideredTasks(tasks, blocked, leased);
      ConsideredInOrder(tasks, blocked, leased);
      var ready := Order.Sort(Unheld(tasks, blocked, leased), NewestLe);
      ghost var todo := IdsOf(ready);
      TickBegins(before, leased, online, pins, ready);
      assert ready[0..] == ready;
      for j := 0 to |ready|
        invariant |tasks| == |before| && CountsMatch(counts, tasks)
        invariant forall i :: 0 <= i < |before| ==> RowAt(before, tasks, leased, online, pins, todo, i)
        invariant forall i :: 0 <= i < |online| ==> WithinCeiling(before, tasks, online[i])
        invariant |run| == j + 1 && run[0] == Tick(before, old(planner.State())) && run[j] == Tick(tasks, planner.State())
        invariant forall i :: 0 <= i < j ==> Considers(run[i], run[i + 1], online, pins, ready[i])
        invariant todo == IdsOf(ready[j..]) && Fair(before, tasks, leased, online, pins)
      {
        var t := ready[j];
        NextIsFirst(before, Unheld(before, blocked, leased), j);
        IdsOfTail(ready, j);
        counts := PlaceOne(before, leased, online, pins, todo, t, counts);
        todo := todo - {t.id};
        run := run + [Tick(tasks, planner.State())];
      }
      considered := ready;
      TickDone(before, tasks, leased, online, pins, todo);
    }
  }

  lemma {:induction false} CandidateHasRoom(now: seq<Task>, needs: seq<string>, n: Node, counts: map<string, nat>)
    requires CountsMatch(counts, now) && Candidate(needs, n, counts)
    ensures !AtCapacity(n, ActiveOn(now, n.id))
  {
    assert Load(counts, n.id) == ActiveOn(now, n.id);
  }

  lemma {:induction false} ReadyToGo(before: seq<Task>, leased: set<TaskId>, t: Task)
    requires FreeToGo(before, leased, t)
    ensures t.status.Ready?
  {
  }

  lemma {:induction false} IdsOfTail(xs: seq<Task>, j: nat)
    requires DistinctIds(xs) && j < |xs|
    ensures xs[j].id in IdsOf(xs[j..]) && IdsOf(xs[j..]) - {xs[j].id} == IdsOf(xs[j + 1..])
  {
  }

  lemma {:induction false} TickBegins(before: seq<Task>, leased: set<TaskId>, online: seq<Node>, pins: map<LaneKey, string>, ready: seq<Task>)
    requires forall t :: t in ready <==> t in before && FreeToGo(before, leased, t)
    ensures forall i :: 0 <= i < |before| ==> RowAt(before, before, leased, online, pins, IdsOf(ready), i)
  {
  }

  lemma {:induction false} TickDone(before: seq<Task>, now: seq<Task>, leased: set<TaskId>, online: seq<Node>,
                   pins: map<LaneKey, string>, todo: set<TaskId>)
    requires |now| == |before| && todo == {}
    requires forall i :: 0 <= i < |before| ==> RowAt(before, now, leased, online, pins, todo, i)
    ensures Ticked(before, now, leased)
    ensures forall i :: 0 <= i < |now| ==> Placed(before, leased, online, pins, before[i], now[i])
    ensures forall i :: 0 <= i < |now| && FreeToGo(before, leased, now[i]) ==> Stuck(now, online, pins, now[i])
  {
    forall i | 0 <= i < |before|
      ensures TaskTicked(before, leased, before[i], now[i]) && Placed(before, leased, online, pins, before[i], now[i])
      ensures FreeToGo(before, leased, now[i]) ==> Stuck(now, online, pins, now[i])
    {
      assert RowAt(before, now, leased, online, pins, todo, i);
    }
  }

  lemma {:induction false} RowUntouched(before: seq<Task>, now: seq<Task>, leased: set<TaskId>, online: seq<Node>,
                       pins: map<LaneKey, string>, todo: set<TaskId>, k: nat)
    requires |now| == |before| && k < |before| && before[k].id in todo
    requires RowAt(before, now, leased, online, pins, todo, k)
    ensures now[k] == before[k]
  {
  }
}
