/** The main node's lane serialization filter. */
module LaneGuard {
  import opened Ids
  import Order

  datatype Status =
    | Pending | Ready | Assigned | Running | Completed | Failed | Blocked | CancelRequested | Cancelled

  /** `issues` are a bundle's members, `kept` says that a cancel does not release them, `legacy` is
      the issue number in the title of a per-issue task. */
  datatype Task = Task(
    id: TaskId, lane: LaneKey, status: Status, priority: int, created: int,
    needs: seq<string>, assignedTo: Option<string>, issues: seq<string>, kept: bool, legacy: Option<nat>)

  predicate Terminal(s: Status) {
    s.Completed? || s.Failed? || s.Cancelled? || s.CancelRequested?
  }

  predicate ActiveStatus(s: Status) {
    s.Running? || s.Assigned?
  }

  predicate IsActive(t: Task) {
    ActiveStatus(t.status)
  }

  predicate WaitsOn(t: Task, lane: LaneKey) {
    t.status.Ready? && t.lane == lane != NoLane
  }

  ghost predicate DistinctIds(tasks: seq<Task>) {
    forall i, j :: 0 <= i < j < |tasks| ==> tasks[i].id != tasks[j].id
  }

  ghost predicate LaneActive(tasks: seq<Task>, lane: LaneKey) {
    lane != NoLane && exists i :: 0 <= i < |tasks| && tasks[i].lane == lane && IsActive(tasks[i])
  }

  /** Band first, then age: the oldest of the most urgent band. */
  predicate BandLe(a: Task, b: Task) {
    a.priority < b.priority || (a.priority == b.priority && a.created <= b.created)
  }

  lemma {:induction false} BandOrders(xs: seq<Task>)
    ensures Order.Orders(BandLe, xs)
  {
  }

  /** The ready tasks of a lane, in listing order. */
  function ReadyOn(tasks: seq<Task>, lane: LaneKey): seq<Task> {
    if tasks == [] then []
    else if WaitsOn(tasks[|tasks| - 1], lane) then ReadyOn(tasks[..|tasks| - 1], lane) + [tasks[|tasks| - 1]]
    else ReadyOn(tasks[..|tasks| - 1], lane)
  }

  lemma {:induction false} ReadyOnMembers(tasks: seq<Task>, lane: LaneKey)
    ensures forall t :: t in ReadyOn(tasks, lane) <==> t in tasks && WaitsOn(t, lane)
  {
    if tasks != [] {
      var n := |tasks| - 1;
      ReadyOnMembers(tasks[..n], lane);
      assert tasks == tasks[..n] + [tasks[n]];
    }
  }

  /** The lane's next task: the head of its ready tasks in band order. */
  function NextOn(tasks: seq<Task>, lane: LaneKey): Option<Task> {
    var sorted := Order.Sort(ReadyOn(tasks, lane), BandLe);
    if sorted == [] then None else Some(sorted[0])
  }

  /** A waiting task is held back when its lane is active or it is not the lane's next. */
  ghost predicate HeldBack(tasks: seq<Task>, t: Task) {
    t.status.Ready? && t.lane != NoLane && (LaneActive(tasks, t.lane) || NextOn(tasks, t.lane) != Some(t))
  }

  /** An idle lane with ready tasks has a next task: the first listed of its minimal ones. */
  lemma {:induction false} NextIsMinimal(tasks: seq<Task>, lane: LaneKey)
    ensures NextOn(tasks, lane).None? <==> forall t :: t in tasks ==> !WaitsOn(t, lane)
    ensures NextOn(tasks, lane).Some? ==>
              && NextOn(tasks, lane).value in tasks && WaitsOn(NextOn(tasks, lane).value, lane)
              && forall t :: t in tasks && WaitsOn(t, lane) ==> BandLe(NextOn(tasks, lane).value, t)
  {
    var waiting := ReadyOn(tasks, lane);
    ReadyOnMembers(tasks, lane);
    BandOrders(waiting);
    Order.SortKeepsElements(waiting, BandLe);
    if waiting != [] {
      var i := Order.SortHead(waiting, BandLe);
      forall t | t in tasks && WaitsOn(t, lane) ensures BandLe(NextOn(tasks, lane).value, t) {
        assert t in waiting;
      }
      assert waiting[0] in tasks && WaitsOn(waiting[0], lane);
    } else {
      assert forall t :: t !in waiting;
    }
  }

  /** Where a waiting task is listed: whoever waits and is listed before it comes before it here too. */
  lemma {:induction false} ListedAt(tasks: seq<Task>, lane: LaneKey, k: nat) returns (i: nat)
    requires k < |ReadyOn(tasks, lane)|
    ensures i < |tasks| && tasks[i] == ReadyOn(tasks, lane)[k]
    ensures forall j :: 0 <= j < i && WaitsOn(tasks[j], lane) ==> tasks[j] in ReadyOn(tasks, lane)[..k]
  {
    var n := |tasks| - 1;
    var front := ReadyOn(tasks[..n], lane);
    if k < |front| {
      i := ListedAt(tasks[..n], lane, k);
      assert front[..k] == ReadyOn(tasks, lane)[..k];
      forall j | 0 <= j < i && WaitsOn(tasks[j], lane) ensures tasks[j] in ReadyOn(tasks, lane)[..k] {
        assert tasks[..n][j] == tasks[j];
      }
    } else {
      i := n;
      ReadyOnMembers(tasks[..n], lane);
      assert ReadyOn(tasks, lane)[..k] == front;
      forall j | 0 <= j < i && WaitsOn(tasks[j], lane) ensures tasks[j] in front {
        assert tasks[..n][j] == tasks[j];
      }
    }
  }

  /** Row `j` goes before row `i`: more urgent, or as urgent and older, or of one age and listed first. */
  ghost predicate GoesBefore(tasks: seq<Task>, j: int, i: int)
    requires 0 <= i < |tasks| && 0 <= j < |tasks|
  {
    var a, b := tasks[j], tasks[i];
    || a.priority < b.priority
    || (a.priority == b.priority && (a.created < b.created || (a.created == b.created && j < i)))
  }

  /** The lane's next task is the row that goes before all other waiting rows of the lane. */
  lemma {:induction false} NextGoesBefore(tasks: seq<Task>, lane: LaneKey) returns (i: nat)
    requires NextOn(tasks, lane).Some?
    ensures i < |tasks| && NextOn(tasks, lane) == Some(tasks[i]) && WaitsOn(tasks[i], lane)
    ensures forall j :: 0 <= j < |tasks| && j != i && WaitsOn(tasks[j], lane) ==> GoesBefore(tasks, i, j)
  {
    var waiting := ReadyOn(tasks, lane);
    BandOrders(waiting);
    ReadyOnMembers(tasks, lane);
    Order.SortKeepsElements(waiting, BandLe);
    var k := Order.SortHead(waiting, BandLe);
    i := ListedAt(tasks, lane, k);
    assert waiting[k] in waiting;
    forall j | 0 <= j < |tasks| && j != i && WaitsOn(tasks[j], lane) ensures GoesBefore(tasks, i, j) {
      assert tasks[j] in tasks && tasks[j] in waiting;
      assert BandLe(tasks[i], tasks[j]);
      if j < i {
        var m :| 0 <= m < k && waiting[..k][m] == tasks[j];
        assert !BandLe(waiting[m], waiting[k]);
      }
    }
  }

  /** A ready task of a lane is held back exactly when a task of the lane is running or assigned, or
      another ready task of the lane goes before it. */
  lemma {:induction false} HeldBackExactly(tasks: seq<Task>, i: nat)
    requires DistinctIds(tasks) && i < |tasks|
    ensures HeldBack(tasks, tasks[i]) <==>
            && tasks[i].status.Ready? && tasks[i].lane != NoLane
            && exists j :: 0 <= j < |tasks| && tasks[j].lane == tasks[i].lane
                           && (tasks[j].status.Running? || tasks[j].status.Assigned?
                               || (tasks[j].status.Ready? && j != i && GoesBefore(tasks, j, i)))
  {
    var lane := tasks[i].lane;
    NextIsMinimal(tasks, lane);
    hide NextOn;
    if WaitsOn(tasks[i], lane) {
      assert tasks[i] in tasks;
      var next := NextGoesBefore(tasks, lane);
      if i != next {
        assert tasks[next].status.Ready? && GoesBefore(tasks, next, i);
      }
    }
  }

  /** Ids of the ready tasks that must wait this tick. */
  method LaneBlockedReadyIds(tasks: seq<Task>) returns (blocked: set<TaskId>)
    requires DistinctIds(tasks)
    ensures forall t :: t in tasks ==> (t.id in blocked <==> HeldBack(tasks, t))
  {
    var activeLanes: set<LaneKey> := {};
    var byLane: map<LaneKey, seq<Task>> := map[];
    for n := 0 to |tasks|
      invariant forall lane :: lane in activeLanes <==> LaneActive(tasks[..n], lane)
      invariant forall lane :: (lane in byLane <==> ReadyOn(tasks[..n], lane) != [])
                               && (lane in byLane ==> byLane[lane] == ReadyOn(tasks[..n], lane))
    {
      var t := tasks[n];
      assert tasks[..n + 1][..n] == tasks[..n] && tasks[..n + 1][n] == t;
      LaneActiveSnoc(tasks, n);
      if t.lane != NoLane && IsActive(t) {
        activeLanes := activeLanes + {t.lane};
      }
      if WaitsOn(t, t.lane) {
        byLane := byLane[t.lane := (if t.lane in byLane then byLane[t.lane] else []) + [t]];
      }
    }
    assert tasks[..|tasks|] == tasks;
    blocked := BlockLanes(tasks, activeLanes, byLane);
  }

  function IdsOf(xs: seq<Task>): set<TaskId> {
    set i | 0 <= i < |xs| :: xs[i].id
  }

  lemma {:induction false} ReadyOnDistinct(tasks: seq<Task>, lane: LaneKey)
    requires DistinctIds(tasks)
    ensures Order.NoDuplicates(ReadyOn(tasks, lane))
  {
    if tasks != [] {
      var n := |tasks| - 1;
      ReadyOnDistinct(tasks[..n], lane);
      ReadyOnMembers(tasks[..n], lane);
      var front := ReadyOn(tasks[..n], lane);
      forall k | 0 <= k < |front| ensures front[k] != tasks[n] {
        assert front[k] in tasks[..n];
      }
    }
  }

  /** Everything on the lane but its next task. */
  lemma {:induction false} RestOfLane(tasks: seq<Task>, lane: LaneKey, t: Task)
    requires DistinctIds(tasks) && t in tasks && ReadyOn(tasks, lane) != []
    ensures var sorted := Order.Sort(ReadyOn(tasks, lane), BandLe);
            sorted != [] && (t.id in IdsOf(sorted[1..]) <==> WaitsOn(t, lane) && NextOn(tasks, lane) != Some(t))
  {
    var waiting := ReadyOn(tasks, lane);
    var sorted := Order.Sort(waiting, BandLe);
    ReadyOnMembers(tasks, lane);
    ReadyOnDistinct(tasks, lane);
    Order.SortKeepsNoDuplicates(waiting, BandLe);
    Order.SortKeepsElements(waiting, BandLe);
    Order.SameElements(sorted, waiting);
    if WaitsOn(t, lane) && t != sorted[0] {
      assert t in sorted;
      var k :| 0 <= k < |sorted| && sorted[k] == t;
      assert sorted[1..][k - 1].id == t.id;
    }
    if t.id in IdsOf(sorted[1..]) {
      var k :| 0 <= k < |sorted[1..]| && sorted[1..][k].id == t.id;
      assert sorted[k + 1] in sorted;
      assert sorted[k + 1] == t;
    }
  }

  ghost predicate BlockedSoFar(tasks: seq<Task>, blocked: set<TaskId>, todo: set<LaneKey>, t: Task) {
    t.id in blocked <==> HeldBack(tasks, t) && t.lane !in todo
  }

  /** Block a busy lane's tasks and every other lane's tasks behind its next one. */
  method BlockLanes(tasks: seq<Task>, activeLanes: set<LaneKey>, byLane: map<LaneKey, seq<Task>>)
    returns (blocked: set<TaskId>)
    requires DistinctIds(tasks)
    requires forall lane :: lane in activeLanes <==> LaneActive(tasks, lane)
    requires forall lane :: (lane in byLane <==> ReadyOn(tasks, lane) != [])
                            && (lane in byLane ==> byLane[lane] == ReadyOn(tasks, lane))
    ensures forall t :: t in tasks ==> BlockedSoFar(tasks, blocked, {}, t)
  {
    blocked := {};
    var todo := byLane.Keys;
    forall t | t in tasks ensures BlockedSoFar(tasks, blocked, todo, t) {
      if HeldBack(tasks, t) {
        ReadyOnMembers(tasks, t.lane);
        assert t in ReadyOn(tasks, t.lane);
      }
    }
    hide HeldBack, DistinctIds, BlockedSoFar, ReadyOn, LaneActive, IdsOf;
    while todo != {}
      invariant todo <= byLane.Keys
      invariant forall t :: t in tasks ==> BlockedSoFar(tasks, blocked, todo, t)
      decreases todo
    {
      var lane :| lane in todo;
      var entries := byLane[lane];
      var sorted := Order.Sort(entries, BandLe);
      BlockLane(tasks, blocked, todo, lane);
      todo := todo - {lane};
      blocked := blocked + if lane in activeLanes then IdsOf(entries) else IdsOf(sorted[1..]);
    }
  }

  /** Blocking one lane accounts for its tasks. */
  lemma {:induction false} BlockLane(tasks: seq<Task>, blocked: set<TaskId>, todo: set<LaneKey>, lane: LaneKey)
    requires DistinctIds(tasks) && ReadyOn(tasks, lane) != [] && lane in todo
    requires forall t :: t in tasks ==> BlockedSoFar(tasks, blocked, todo, t)
    ensures var sorted := Order.Sort(ReadyOn(tasks, lane), BandLe);
            && sorted != []
            && var more := blocked + if LaneActive(tasks, lane) then IdsOf(ReadyOn(tasks, lane)) else IdsOf(sorted[1..]);
               forall t :: t in tasks ==> BlockedSoFar(tasks, more, todo - {lane}, t)
  {
    var sorted := Order.Sort(ReadyOn(tasks, lane), BandLe);
    Order.SortKeepsElements(ReadyOn(tasks, lane), BandLe);
    hide DistinctIds, ReadyOn, IdsOf, NextOn, LaneActive;
    var more := blocked + if LaneActive(tasks, lane) then IdsOf(ReadyOn(tasks, lane)) else IdsOf(sorted[1..]);
    forall t | t in tasks ensures BlockedSoFar(tasks, more, todo - {lane}, t) {
      assert BlockedSoFar(tasks, blocked, todo, t);
      RestOfLane(tasks, lane, t);
      EntryIds(tasks, lane, t);
    }
  }

  lemma {:induction false} EntryIds(tasks: seq<Task>, lane: LaneKey, t: Task)
    requires DistinctIds(tasks) && t in tasks
    ensures t.id in IdsOf(ReadyOn(tasks, lane)) <==> WaitsOn(t, lane)
  {
    var waiting := ReadyOn(tasks, lane);
    ReadyOnMembers(tasks, lane);
    if t.id in IdsOf(waiting) {
      var k :| 0 <= k < |waiting| && waiting[k].id == t.id;
      assert waiting[k] in tasks;
    }
    if WaitsOn(t, lane) {
      assert t in waiting;
    }
  }

  lemma {:induction false} LaneActiveSnoc(tasks: seq<Task>, n: nat)
    requires n < |tasks|
    ensures forall lane :: LaneActive(tasks[..n + 1], lane)
              <==> LaneActive(tasks[..n], lane) || (lane != NoLane && tasks[n].lane == lane && IsActive(tasks[n]))
  {
    forall lane
      ensures LaneActive(tasks[..n + 1], lane)
              <==> LaneActive(tasks[..n], lane) || (lane != NoLane && tasks[n].lane == lane && IsActive(tasks[n]))
    {
      assert tasks[..n + 1] == tasks[..n] + [tasks[n]];
      if LaneActive(tasks[..n], lane) {
        var i :| 0 <= i < n && tasks[..n][i].lane == lane && IsActive(tasks[..n][i]);
        assert tasks[..n + 1][i] == tasks[..n][i];
      }
      if lane != NoLane && tasks[n].lane == lane && IsActive(tasks[n]) {
        assert tasks[..n + 1][n] == tasks[n];
      }
      if LaneActive(tasks[..n + 1], lane) {
        var i :| 0 <= i < n + 1 && tasks[..n + 1][i].lane == lane && IsActive(tasks[..n + 1][i]);
        if i < n {
          assert tasks[..n][i] == tasks[..n + 1][i];
        }
      }
    }
  }
}
