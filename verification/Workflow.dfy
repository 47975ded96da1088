/** Dependency resolution on the task board: what completing or failing a task does to the tasks
    that depend on it. */
module Workflow {
  import opened Ids
  import opened LaneGuard

  datatype Row = Row(status: Status, dependsOn: seq<TaskId>, attempts: nat)

  type Rows = map<TaskId, Row>

  const MAX_DEPTH: nat := 10
  const RETRY_LIMIT: nat := 3

  /** A terminal task keeps its status, except that a requested cancel may be acknowledged. */
  function WithStatus(r: Row, s: Status): Row {
    if Terminal(r.status) && !(r.status.CancelRequested? && s.Cancelled?) then r else r.(status := s)
  }

  predicate AnyFailed(rows: Rows, r: Row) {
    exists d :: d in r.dependsOn && d in rows && rows[d].status.Failed?
  }

  predicate AllDone(rows: Rows, r: Row) {
    forall d :: d in r.dependsOn ==> d in rows && rows[d].status.Completed?
  }

  /** A pending task once its dependencies are looked at. */
  function Resolved(rows: Rows, r: Row): Row {
    if !r.status.Pending? then r
    else if AnyFailed(rows, r) then r.(status := Blocked)
    else if AllDone(rows, r) then r.(status := Ready)
    else r
  }

  predicate Promotes(rows: Rows, r: Row) {
    r.status.Pending? && AllDone(rows, r)
  }

  /** Tasks that the completion of `c` makes ready. */
  predicate Promoted(rows: Rows, c: TaskId, x: TaskId) {
    x in rows && c in rows[x].dependsOn && Promotes(rows, rows[x])
  }

  predicate FollowsPromoted(rows: Rows, c: TaskId, r: Row) {
    exists p :: p in r.dependsOn && Promoted(rows, c, p)
  }

  /** One task after resolution has propagated from `c`, stated outright. */
  function Settled(rows: Rows, c: TaskId, depth: nat, r: Row): Row {
    if depth >= MAX_DEPTH || !r.status.Pending? then r
    else if c in r.dependsOn then Resolved(rows, r)
    else if depth + 1 < MAX_DEPTH && AnyFailed(rows, r) && FollowsPromoted(rows, c, r) then r.(status := Blocked)
    else r
  }

  /** The board after resolution has propagated from `c`. */
  function Settle(rows: Rows, c: TaskId, depth: nat): Rows {
    map x | x in rows :: Settled(rows, c, depth, rows[x])
  }

  /** Pending tasks may have become ready or blocked; nothing else differs. */
  ghost predicate Softened(rows: Rows, rows': Rows) {
    rows.Keys == rows'.Keys && forall x :: x in rows ==> RowSoftened(rows[x], rows'[x])
  }

  ghost predicate RowSoftened(r: Row, r': Row) {
    r' == r || (r.status.Pending? && (r' == r.(status := Ready) || r' == r.(status := Blocked)))
  }

  /** Resolution reads only which tasks completed or failed, and those do not move. */
  lemma {:induction false} SameJudgement(rows: Rows, rows': Rows, r: Row)
    requires Softened(rows, rows')
    ensures AnyFailed(rows, r) == AnyFailed(rows', r) && AllDone(rows, r) == AllDone(rows', r)
  {
  }

  /** After the first pass: the dependents of `c` in `done` have been resolved. */
  ghost predicate FirstPassed(rows: Rows, rows': Rows, c: TaskId, done: set<TaskId>) {
    && rows.Keys == rows'.Keys
    && forall x :: x in rows ==>
         rows'[x] == if x in done && rows[x].status.Pending? && c in rows[x].dependsOn then Resolved(rows, rows[x]) else rows[x]
  }

  lemma {:induction false} FirstPassSoftens(rows: Rows, rows': Rows, c: TaskId, done: set<TaskId>)
    requires FirstPassed(rows, rows', c, done)
    ensures Softened(rows, rows')
  {
  }

  lemma {:induction false} FirstPassStep(rows: Rows, rows': Rows, c: TaskId, done: set<TaskId>, x: TaskId)
    requires FirstPassed(rows, rows', c, done) && x in rows && x !in done
    ensures rows'[x] == rows[x]
    ensures !(rows[x].status.Pending? && c in rows[x].dependsOn) ==> FirstPassed(rows, rows', c, done + {x})
    ensures rows[x].status.Pending? && c in rows[x].dependsOn ==>
              FirstPassed(rows, rows'[x := Resolved(rows', rows'[x])], c, done + {x})
    ensures rows[x].status.Pending? ==> Promotes(rows', rows'[x]) == Promotes(rows, rows[x])
  {
  }

  /** After part of the cascade: followers of the promoted tasks in `seen` have been looked at. */
  ghost predicate Cascaded(rows: Rows, rows': Rows, depth: nat, seen: seq<TaskId>) {
    && rows.Keys == rows'.Keys
    && forall x :: x in rows ==> rows'[x] == CascadedRow(rows, depth, seen, rows[x])
  }

  ghost function CascadedRow(rows: Rows, depth: nat, seen: seq<TaskId>, r: Row): Row {
    if depth + 1 < MAX_DEPTH && r.status.Pending? && AnyFailed(rows, r) && (exists p :: p in seen && p in r.dependsOn)
    then r.(status := Blocked) else r
  }

  lemma {:induction false} CascadeSoftens(rows: Rows, rows': Rows, depth: nat, seen: seq<TaskId>)
    requires Cascaded(rows, rows', depth, seen)
    ensures Softened(rows, rows')
  {
  }

  /** Propagating from a task that is not completed promotes nobody. */
  lemma {:induction false} NothingPromoted(rows: Rows, p: TaskId)
    requires p in rows && !rows[p].status.Completed?
    ensures forall x :: !Promoted(rows, p, x)
  {
  }

  /** One inner call of the cascade. */
  lemma {:induction false} CascadeStep(rows: Rows, rows': Rows, depth: nat, seen: seq<TaskId>, p: TaskId)
    requires Cascaded(rows, rows', depth, seen) && p in rows && rows[p].status.Ready?
    ensures Cascaded(rows, Settle(rows', p, depth + 1), depth, seen + [p])
    ensures forall x :: !Promoted(rows', p, x)
  {
    CascadeSoftens(rows, rows', depth, seen);
    assert RowSoftened(rows[p], rows'[p]);
    NothingPromoted(rows', p);
    var after := Settle(rows', p, depth + 1);
    forall x | x in rows ensures after[x] == CascadedRow(rows, depth, seen + [p], rows[x]) {
      assert rows'[x] == CascadedRow(rows, depth, seen, rows[x]);
      SameJudgement(rows, rows', rows[x]);
      assert after[x] == Settled(rows', p, depth + 1, rows'[x]);
      if p in rows[x].dependsOn {
        assert p in seen + [p];
      }
    }
  }

  /** Both passes together. */
  lemma {:induction false} PassesSettle(rows: Rows, mid: Rows, after: Rows, c: TaskId, depth: nat, promoted: seq<TaskId>)
    requires depth < MAX_DEPTH && FirstPassed(rows, mid, c, rows.Keys) && Cascaded(mid, after, depth, promoted)
    requires forall x :: x in promoted <==> Promoted(rows, c, x)
    ensures after == Settle(rows, c, depth)
  {
    FirstPassSoftens(rows, mid, c, rows.Keys);
    forall x | x in rows ensures after[x] == Settled(rows, c, depth, rows[x]) {
      assert mid[x] == if rows[x].status.Pending? && c in rows[x].dependsOn then Resolved(rows, rows[x]) else rows[x];
      assert after[x] == CascadedRow(mid, depth, promoted, mid[x]);
      SameJudgement(rows, mid, rows[x]);
    }
  }

  class Resolver {
    var rows: Rows
    const order: seq<TaskId>

    /** The listing names every task once. */
    ghost predicate Valid()
      reads this
    {
      && (forall x :: x in rows <==> x in order)
      && (forall i, j :: 0 <= i < j < |order| ==> order[i] != order[j])
    }

    constructor (rows: Rows, order: seq<TaskId>)
      requires forall x :: x in rows <==> x in order
      requires forall i, j :: 0 <= i < j < |order| ==> order[i] != order[j]
      ensures Valid() && this.rows == rows && this.order == order
    {
      this.rows, this.order := rows, order;
    }

    method SetTaskStatus(x: TaskId, s: Status) returns (ok: bool)
      modifies this`rows
      ensures x !in old(rows) ==> !ok && rows == old(rows)
      ensures x in old(rows) ==> rows == old(rows)[x := WithStatus(old(rows)[x], s)]
      ensures x in old(rows) ==> (ok <==> !Terminal(old(rows)[x].status) || (old(rows)[x].status.CancelRequested? && s.Cancelled?))
    {
      if x !in rows {
        return false;
      }
      if Terminal(rows[x].status) {
        if rows[x].status.CancelRequested? && s.Cancelled? {
        } else {
          assert rows[x := rows[x]] == rows;
          return false;
        }
      }
      rows := rows[x := rows[x].(status := s)];
      return true;
    }

    /** Look at one task's dependencies, one after the other. */
    method ResolveDependencies(x: TaskId) returns (promoted: bool)
      modifies this`rows
      ensures x !in old(rows) ==> rows == old(rows) && !promoted
      ensures x in old(rows) ==> rows == old(rows)[x := Resolved(old(rows), old(rows)[x])]
      ensures x in old(rows) ==> (promoted <==> Promotes(old(rows), old(rows)[x]))
    {
      if x !in rows || !rows[x].status.Pending? {
        assert x in rows ==> rows[x := rows[x]] == rows;
        return false;
      }
      var r := rows[x];
      if r.dependsOn == [] {
        var _ := SetTaskStatus(x, Ready);
        return true;
      }
      var allDone, anyFailed := true, false;
      var i := 0;
      while i < |r.dependsOn| && !anyFailed
        invariant 0 <= i <= |r.dependsOn|
        invariant !anyFailed ==> forall k :: 0 <= k < i ==> r.dependsOn[k] in rows ==> !rows[r.dependsOn[k]].status.Failed?
        invariant anyFailed ==> AnyFailed(rows, r)
        invariant !anyFailed ==> (allDone <==> forall k :: 0 <= k < i ==> r.dependsOn[k] in rows && rows[r.dependsOn[k]].status.Completed?)
      {
        var d := r.dependsOn[i];
        if d !in rows {
          allDone := false;
        } else if rows[d].status.Failed? {
          anyFailed := true;
        } else if !rows[d].status.Completed? {
          allDone := false;
        }
        i := i + 1;
      }
      assert !anyFailed ==> !AnyFailed(rows, r);
      if anyFailed {
        var _ := SetTaskStatus(x, Blocked);
        return false;
      }
      if allDone {
        var _ := SetTaskStatus(x, Ready);
        return true;
      }
      assert rows[x := rows[x]] == rows;
      return false;
    }

    /** First pass: resolve the pending dependents of `c`. */
    method FirstPass(c: TaskId) returns (promoted: seq<TaskId>)
      requires Valid()
      modifies this`rows
      ensures Valid() && FirstPassed(old(rows), rows, c, rows.Keys)
      ensures forall x :: x in promoted <==> Promoted(old(rows), c, x)
      ensures forall i, j :: 0 <= i < j < |promoted| ==> promoted[i] != promoted[j]
    {
      hide FirstPassed, Promotes, Resolved;
      ghost var before := rows;
      ghost var done: set<TaskId> := {};
      promoted := [];
      FirstPassStarts(before, c);
      for k := 0 to |order|
        invariant Valid() && FirstPassed(before, rows, c, done) && rows.Keys == before.Keys
        invariant done == set i | 0 <= i < k :: order[i]
        invariant forall x :: x in promoted <==> x in done && Promoted(before, c, x)
        invariant forall i, j :: 0 <= i < j < |promoted| ==> promoted[i] != promoted[j]
      {
        var x := order[k];
        FirstPassStep(before, rows, c, done, x);
        done := done + {x};
        if rows[x].status.Pending? && c in rows[x].dependsOn {
          var ok := ResolveDependencies(x);
          if ok {
            promoted := promoted + [x];
          }
        } else {
          NotPromoted(before, c, x);
        }
      }
      assert done == rows.Keys;
    }

    /** Second pass: the blocked dependents of `c`.  Resolution leaves them as they are. */
    method SecondPass(c: TaskId) returns (promoted: seq<TaskId>)
      requires Valid()
      modifies this`rows
      ensures Valid() && rows == old(rows) && promoted == []
    {
      promoted := [];
      for k := 0 to |order|
        invariant Valid() && rows == old(rows) && promoted == []
      {
        var x := order[k];
        if rows[x].status.Blocked? && c in rows[x].dependsOn {
          var ok := ResolveDependencies(x);
          if ok {
            promoted := promoted + [x];
          }
        }
      }
    }

    /** Resolve the dependents of `c`, then follow what was promoted through the growing list. */
    method Propagate(c: TaskId, depth: nat) returns (transitioned: seq<TaskId>)
      requires Valid()
      modifies this`rows
      ensures Valid() && rows == Settle(old(rows), c, depth)
      ensures forall x :: x in transitioned <==> depth < MAX_DEPTH && Promoted(old(rows), c, x)
      ensures transitioned != [] ==> Promoted(old(rows), c, transitioned[0])
      ensures forall i, j :: 0 <= i < j < |transitioned| ==> transitioned[i] != transitioned[j]
      decreases MAX_DEPTH - depth, 1
    {
      ghost var before := rows;
      if depth >= MAX_DEPTH {
        assert rows == Settle(rows, c, depth);
        return [];
      }
      hide Cascaded, FirstPassed, Settle, Promoted;
      var first := FirstPass(c);
      ghost var mid := rows;
      var second := SecondPass(c);
      PromotedAreReady(before, mid, c, first);
      assert first + second == first;
      transitioned := Cascade(first + second, depth);
      PassesSettle(before, mid, rows, c, depth, first);
    }

    /** Propagate from every entry of the list, appending what that promotes; nothing ever is. */
    method Cascade(promoted: seq<TaskId>, depth: nat) returns (transitioned: seq<TaskId>)
      requires Valid() && depth < MAX_DEPTH
      requires forall i :: 0 <= i < |promoted| ==> promoted[i] in rows && rows[promoted[i]].status.Ready?
      modifies this`rows
      ensures Valid() && Cascaded(old(rows), rows, depth, promoted) && transitioned == promoted
      decreases MAX_DEPTH - depth, 0
    {
      hide Cascaded, Settle, Promoted;
      ghost var mid := rows;
      transitioned := promoted;
      CascadeStarts(mid, depth);
      var i := 0;
      while i < |transitioned|
        invariant 0 <= i <= |transitioned| && transitioned == promoted
        invariant Valid() && Cascaded(mid, rows, depth, promoted[..i])
        decreases |promoted| - i
      {
        ghost var now := rows;
        var inner := Propagate(transitioned[i], depth + 1);
        CascadeStep(mid, now, depth, promoted[..i], promoted[i]);
        assert promoted[..i + 1] == promoted[..i] + [promoted[i]];
        transitioned := transitioned + inner;
        i := i + 1;
      }
      assert promoted[..i] == promoted;
    }

    method OnDependencyComplete(c: TaskId) returns (transitioned: seq<TaskId>)
      requires Valid()
      modifies this`rows
      ensures Valid() && rows == Settle(old(rows), c, 0)
      ensures forall x :: x in transitioned <==> Promoted(old(rows), c, x)
    {
      transitioned := Propagate(c, 0);
    }

    method OnDependencyFailed(f: TaskId) returns (blocked: seq<TaskId>)
      requires Valid()
      modifies this`rows
      ensures Valid() && rows == BlockDirect(old(rows), f)
      ensures forall x :: x in blocked <==> x in old(rows) && old(rows)[x].status.Pending? && f in old(rows)[x].dependsOn
    {
      hide BlockedIn, BlockedBy;
      ghost var before := rows;
      ghost var done: set<TaskId> := {};
      blocked := [];
      BlockBegins(before, f);
      for k := 0 to |order|
        invariant Valid() && rows.Keys == before.Keys && done == set i | 0 <= i < k :: order[i]
        invariant BlockedIn(before, rows, f, done, blocked)
      {
        var x := order[k];
        assert x !in done;
        BlockStep(before, rows, f, done, blocked, x);
        done := done + {x};
        if rows[x].status.Pending? && f in rows[x].dependsOn {
          var _ := SetTaskStatus(x, Blocked);
          blocked := blocked + [x];
        }
      }
      BlockEnds(before, rows, f, done, blocked);
    }

    /** Complete a task, unless its review is vetoed: then it is tried again, or failed at the limit. */
    method CompleteTask(x: TaskId, veto: bool) returns (ok: bool)
      requires Valid()
      modifies this`rows
      ensures Valid() && (ok <==> x in old(rows) && !veto)
      ensures rows == AfterComplete(old(rows), x, veto)
    {
      if x !in rows {
        return false;
      }
      if veto {
        if !Terminal(rows[x].status) && rows[x].attempts < RETRY_LIMIT {
          rows := rows[x := rows[x].(status := Ready, attempts := rows[x].attempts + 1)];
          return false;
        }
        var _ := SetTaskStatus(x, Failed);
        return false;
      }
      var _ := SetTaskStatus(x, Completed);
      var _ := OnDependencyComplete(x);
      return true;
    }

    method FailTask(x: TaskId) returns (ok: bool)
      requires Valid()
      modifies this`rows
      ensures Valid() && (ok <==> x in old(rows))
      ensures rows == AfterFail(old(rows), x)
    {
      if x !in rows {
        return false;
      }
      var _ := SetTaskStatus(x, Failed);
      var _ := OnDependencyFailed(x);
      return true;
    }
  }

  lemma {:induction false} FirstPassStarts(rows: Rows, c: TaskId)
    ensures FirstPassed(rows, rows, c, {})
  {
  }

  lemma {:induction false} CascadeStarts(rows: Rows, depth: nat)
    ensures Cascaded(rows, rows, depth, [])
  {
  }

  lemma {:induction false} NotPromoted(rows: Rows, c: TaskId, x: TaskId)
    requires x in rows && !(rows[x].status.Pending? && c in rows[x].dependsOn)
    ensures !Promoted(rows, c, x)
  {
  }

  lemma {:induction false} PromotedAreReady(rows: Rows, mid: Rows, c: TaskId, promoted: seq<TaskId>)
    requires FirstPassed(rows, mid, c, rows.Keys) && forall x :: x in promoted <==> Promoted(rows, c, x)
    ensures forall i :: 0 <= i < |promoted| ==> promoted[i] in mid && mid[promoted[i]].status.Ready?
  {
    forall i | 0 <= i < |promoted| ensures promoted[i] in mid && mid[promoted[i]].status.Ready? {
      assert promoted[i] in promoted;
      assert Promoted(rows, c, promoted[i]);
    }
  }

  function BlockedBy(f: TaskId, r: Row): Row {
    if r.status.Pending? && f in r.dependsOn then r.(status := Blocked) else r
  }

  function BlockDirect(rows: Rows, f: TaskId): Rows {
    map x | x in rows :: BlockedBy(f, rows[x])
  }

  /** While the pending dependents of `f` are being blocked: those in `done` have been looked at. */
  ghost predicate BlockedIn(before: Rows, rows: Rows, f: TaskId, done: set<TaskId>, blocked: seq<TaskId>) {
    && rows.Keys == before.Keys
    && (forall x :: x in rows ==> rows[x] == if x in done then BlockedBy(f, before[x]) else before[x])
    && (forall x :: x in blocked <==> x in done && x in before && before[x].status.Pending? && f in before[x].dependsOn)
  }

  lemma {:induction false} BlockBegins(rows: Rows, f: TaskId)
    ensures BlockedIn(rows, rows, f, {}, [])
  {
  }

  lemma {:induction false} BlockStep(before: Rows, rows: Rows, f: TaskId, done: set<TaskId>, blocked: seq<TaskId>, x: TaskId)
    requires BlockedIn(before, rows, f, done, blocked) && x in rows && x !in done
    ensures if rows[x].status.Pending? && f in rows[x].dependsOn
            then BlockedIn(before, rows[x := WithStatus(rows[x], Blocked)], f, done + {x}, blocked + [x])
            else BlockedIn(before, rows, f, done + {x}, blocked)
  {
  }

  lemma {:induction false} BlockEnds(before: Rows, rows: Rows, f: TaskId, done: set<TaskId>, blocked: seq<TaskId>)
    requires BlockedIn(before, rows, f, done, blocked) && forall x :: x in rows ==> x in done
    ensures rows == BlockDirect(before, f)
    ensures forall x :: x in blocked <==> x in before && before[x].status.Pending? && f in before[x].dependsOn
  {
  }

  function AfterComplete(rows: Rows, x: TaskId, veto: bool): Rows {
    if x !in rows then rows
    else if !veto then Settle(rows[x := WithStatus(rows[x], Completed)], x, 0)
    else if !Terminal(rows[x].status) && rows[x].attempts < RETRY_LIMIT
    then rows[x := rows[x].(status := Ready, attempts := rows[x].attempts + 1)]
    else rows[x := WithStatus(rows[x], Failed)]
  }

  function AfterFail(rows: Rows, x: TaskId): Rows {
    if x !in rows then rows else BlockDirect(rows[x := WithStatus(rows[x], Failed)], x)
  }

  // ------------------------------------------------------- what resolution achieves

  /** Completing a task promotes exactly the pending dependents whose dependencies are all completed;
      the only other effect is to block pending tasks that have a failed dependency. */
  lemma {:induction false} CompletionPromotesExactly(rows: Rows, c: TaskId, x: TaskId)
    requires c in rows && x in rows && x != c && !Terminal(rows[c].status)
    ensures var done := rows[c := rows[c].(status := Completed)];
            var after := AfterComplete(rows, c, false);
            && after.Keys == rows.Keys && after[c] == done[c]
            && (rows[x].status.Pending? && after[x].status.Ready? <==>
                  rows[x].status.Pending? && c in rows[x].dependsOn && AllDone(done, rows[x]))
            && (after[x].status == rows[x].status || after[x].status.Ready? || (after[x].status.Blocked? && AnyFailed(done, rows[x])))
            && (rows[x].status.Pending? || after[x] == rows[x])
  {
  }

  /** The cascade promotes nothing further: resolution is settled after one call. */
  lemma {:induction false} SettleIsIdempotent(rows: Rows, c: TaskId, depth: nat)
    ensures Settle(Settle(rows, c, depth), c, depth) == Settle(rows, c, depth)
  {
  }

  // -------------------------------------------------------------------- runs

  datatype Op =
    | Complete(id: TaskId, veto: bool)
    | Fail(id: TaskId)
    | Move(id: TaskId, status: Status)
    | Depend(id: TaskId, dependsOn: seq<TaskId>)
    | Create(id: TaskId, dependsOn: seq<TaskId>)
    | Trigger

  /** The store's sweep over pending tasks. */
  function Triggered(rows: Rows): Rows {
    map x | x in rows :: if Promotes(rows, rows[x]) then rows[x].(status := Ready) else rows[x]
  }

  function Perform(rows: Rows, op: Op): Rows {
    match op
    case Complete(x, veto) => AfterComplete(rows, x, veto)
    case Fail(x) => AfterFail(rows, x)
    case Move(x, s) => if x in rows then rows[x := WithStatus(rows[x], s)] else rows
    case Depend(x, deps) => if x in rows then rows[x := rows[x].(dependsOn := deps)] else rows
    case Create(x, deps) => if x in rows then rows else Triggered(rows[x := Row(Pending, deps, 0)])
    case Trigger => Triggered(rows)
  }

  /** No pending task has all its dependencies completed. */
  ghost predicate NoneForgotten(rows: Rows) {
    forall x :: x in rows ==> !Promotes(rows, rows[x])
  }

  /** All dependencies of a pending task but `c` are completed. */
  ghost predicate WaitsOnlyFor(rows: Rows, r: Row, c: TaskId) {
    && r.status.Pending? && c in r.dependsOn
    && forall d :: d in r.dependsOn && d != c ==> d in rows && rows[d].status.Completed?
  }

  /** Status and dependency changes that nobody follows up leave no task behind: a task is not put
      back to pending with its dependencies done, none is completed that another only waits for, and
      a pending one is not left with completed dependencies only. */
  ghost predicate LeavesNoneBehind(rows: Rows, op: Op) {
    match op
    case Move(x, s) =>
      x in rows && !Terminal(rows[x].status) ==>
        && (s.Pending? ==> !AllDone(rows, rows[x]))
        && (s.Completed? ==> forall y :: y in rows && y != x ==> !WaitsOnlyFor(rows, rows[y], x))
    case Depend(x, deps) => x in rows && rows[x].status.Pending? ==> !AllDone(rows, rows[x].(dependsOn := deps))
    case _ => true
  }

  lemma {:induction false} CompleteForgetsNone(rows: Rows, c: TaskId)
    requires NoneForgotten(rows) && c in rows
    ensures NoneForgotten(AfterComplete(rows, c, false))
  {
  }

  /** A change that completes nothing and makes nothing pending forgets nobody. */
  lemma {:induction false} QuietStep(rows: Rows, after: Rows)
    requires NoneForgotten(rows) && rows.Keys == after.Keys
    requires forall x :: x in rows ==> QuietRow(rows[x], after[x])
    ensures NoneForgotten(after)
  {
  }

  ghost predicate QuietRow(r: Row, r': Row) {
    && r'.dependsOn == r.dependsOn
    && (r'.status.Completed? ==> r.status.Completed?)
    && (r'.status.Pending? ==> r.status.Pending?)
  }

  /** Whatever the board was, after a sweep nobody is forgotten. */
  lemma {:induction false} TriggerForgetsNone(rows: Rows)
    ensures NoneForgotten(Triggered(rows))
  {
    var after := Triggered(rows);
    forall x | x in after ensures !Promotes(after, after[x]) {
      assert after[x] == if Promotes(rows, rows[x]) then rows[x].(status := Ready) else rows[x];
      forall d | d in rows ensures after[d].status.Completed? == rows[d].status.Completed? {
      }
    }
  }

  /** Putting a task back to pending forgets nobody exactly when its dependencies are not all done. */
  lemma {:induction false} ReturnForgetsNone(rows: Rows, x: TaskId)
    requires NoneForgotten(rows) && x in rows && !Terminal(rows[x].status)
    ensures NoneForgotten(Perform(rows, Move(x, Pending))) <==> !AllDone(rows, rows[x])
  {
    var after := Perform(rows, Move(x, Pending));
    forall r: Row ensures AllDone(after, r) == AllDone(rows, r) {
    }
    if !AllDone(rows, rows[x]) {
      forall y | y in after ensures !Promotes(after, after[y]) {
        assert !Promotes(rows, rows[y]);
      }
    } else {
      assert Promotes(after, after[x]);
    }
  }

  /** Completing a task without propagating forgets nobody exactly when no other only waits for it. */
  lemma {:induction false} BareCompletionForgetsNone(rows: Rows, x: TaskId)
    requires NoneForgotten(rows) && x in rows && !Terminal(rows[x].status)
    ensures NoneForgotten(Perform(rows, Move(x, Completed))) <==>
              forall y :: y in rows && y != x ==> !WaitsOnlyFor(rows, rows[y], x)
  {
    var after := Perform(rows, Move(x, Completed));
    forall y | y in rows && y != x ensures Promotes(after, after[y]) <==> WaitsOnlyFor(rows, rows[y], x) {
      assert !Promotes(rows, rows[y]);
    }
  }

  lemma {:induction false} DependForgetsNone(rows: Rows, x: TaskId, deps: seq<TaskId>)
    requires NoneForgotten(rows) && x in rows
    ensures var r := rows[x].(dependsOn := deps);
            NoneForgotten(Perform(rows, Depend(x, deps))) <==> !(rows[x].status.Pending? && AllDone(rows, r))
  {
    var after := Perform(rows, Depend(x, deps));
    forall r: Row ensures AllDone(after, r) == AllDone(rows, r) {
    }
    forall y | y in rows && y != x ensures !Promotes(after, after[y]) {
      assert !Promotes(rows, rows[y]);
    }
    if NoneForgotten(after) {
      assert !Promotes(after, after[x]);
    }
  }

  /** Exactly: each operation keeps the promise if and only if it leaves no task behind. */
  lemma {:induction false} OpForgetsNone(rows: Rows, op: Op)
    requires NoneForgotten(rows)
    ensures NoneForgotten(Perform(rows, op)) <==> LeavesNoneBehind(rows, op)
  {
    match op
    case Complete(x, veto) =>
      if x in rows && !veto {
        CompleteForgetsNone(rows, x);
      } else if x in rows {
        QuietStep(rows, AfterComplete(rows, x, veto));
      }
    case Fail(x) => if x in rows { QuietStep(rows, AfterFail(rows, x)); }
    case Move(x, s) => if x in rows { MoveForgetsNone(rows, x, s); }
    case Depend(x, deps) => if x in rows { DependForgetsNone(rows, x, deps); }
    case Create(x, deps) => if x !in rows { TriggerForgetsNone(rows[x := Row(Pending, deps, 0)]); }
    case Trigger => TriggerForgetsNone(rows);
  }

  lemma {:induction false} MoveForgetsNone(rows: Rows, x: TaskId, s: Status)
    requires NoneForgotten(rows) && x in rows
    ensures NoneForgotten(Perform(rows, Move(x, s))) <==> LeavesNoneBehind(rows, Move(x, s))
  {
    if Terminal(rows[x].status) || (!s.Pending? && !s.Completed?) {
      QuietStep(rows, Perform(rows, Move(x, s)));
    } else if s.Pending? {
      ReturnForgetsNone(rows, x);
    } else {
      BareCompletionForgetsNone(rows, x);
    }
  }

  function RunOps(rows: Rows, ops: seq<Op>): Rows
    decreases |ops|
  {
    if ops == [] then rows else RunOps(Perform(rows, ops[0]), ops[1..])
  }

  ghost predicate RunLeavesNoneBehind(rows: Rows, ops: seq<Op>)
    decreases |ops|
  {
    ops == [] || (LeavesNoneBehind(rows, ops[0]) && RunLeavesNoneBehind(Perform(rows, ops[0]), ops[1..]))
  }

  /** Over every run of completions, failures, creations, sweeps and such changes, a task whose
      dependencies are all completed is never left pending; and a sweep at the end makes up for any. */
  lemma {:induction false} RunForgetsNone(rows: Rows, ops: seq<Op>)
    ensures NoneForgotten(rows) && RunLeavesNoneBehind(rows, ops) ==> NoneForgotten(RunOps(rows, ops))
    ensures NoneForgotten(Perform(RunOps(rows, ops), Trigger))
    decreases |ops|
  {
    TriggerForgetsNone(RunOps(rows, ops));
    if ops != [] {
      if NoneForgotten(rows) {
        OpForgetsNone(rows, ops[0]);
      }
      RunForgetsNone(Perform(rows, ops[0]), ops[1..]);
    }
  }

  // -------------------------------------------------------- attempts, and what is final

  /** What one operation may do to one row: nothing final changes, and the attempts grow only by a veto
      that puts the task back, one at a time and never past the limit. */
  lemma {:induction false} OpKeepsRow(rows: Rows, op: Op, x: TaskId)
    requires x in rows
    ensures var r := rows[x];
            && x in Perform(rows, op)
            && var r' := Perform(rows, op)[x];
               && (r.status.Completed? || r.status.Failed? || r.status.Cancelled? ==> r'.status == r.status)
               && (r.status.CancelRequested? ==> r'.status.CancelRequested? || r'.status.Cancelled?)
               && (if op == Complete(x, true) && r.attempts < 3
                      && !(r.status.Completed? || r.status.Failed? || r.status.Cancelled? || r.status.CancelRequested?)
                   then r'.attempts == r.attempts + 1 && r'.status.Ready?
                   else r'.attempts == r.attempts)
  {
    if op.Create? && op.id !in rows {
      assert x in rows[op.id := Row(Pending, op.dependsOn, 0)];
    }
  }

  /** Over every run what is completed, failed or cancelled stays so, a requested cancel is at most
      acknowledged, and attempts are never taken back nor given beyond three. */
  lemma {:induction false} RunKeepsFinal(rows: Rows, ops: seq<Op>, x: TaskId)
    requires x in rows
    ensures var r := rows[x];
            && x in RunOps(rows, ops)
            && var r' := RunOps(rows, ops)[x];
               && (r.status.Completed? || r.status.Failed? || r.status.Cancelled? ==> r'.status == r.status)
               && (r.status.CancelRequested? ==> r'.status.CancelRequested? || r'.status.Cancelled?)
               && r.attempts <= r'.attempts && (r.attempts <= 3 ==> r'.attempts <= 3)
    decreases |ops|
  {
    hide Perform;
    if ops != [] {
      OpKeepsRow(rows, ops[0], x);
      RunKeepsFinal(Perform(rows, ops[0]), ops[1..], x);
    }
  }

  /** A task vetoed again and again is tried once more for each attempt it has left, and then failed. */
  lemma {:induction false} VetoesSpendAttempts(rows: Rows, ops: seq<Op>, x: TaskId)
    requires x in rows && !Terminal(rows[x].status) && rows[x].attempts <= 3 && ops != []
    requires forall i :: 0 <= i < |ops| ==> ops[i] == Complete(x, true)
    ensures x in RunOps(rows, ops)
    ensures var r' := RunOps(rows, ops)[x];
            if |ops| <= 3 - rows[x].attempts then r'.status.Ready? && r'.attempts == rows[x].attempts + |ops|
            else r'.status.Failed? && r'.attempts == 3
    decreases |ops|
  {
    var after := Perform(rows, ops[0]);
    assert RunOps(after, []) == after;
    if rows[x].attempts == 3 {
      RunKeepsFinal(after, ops[1..], x);
      FailedKeepsAttempts(after, ops[1..], x);
    } else if |ops| > 1 {
      VetoesSpendAttempts(after, ops[1..], x);
    }
  }

  lemma {:induction false} FailedKeepsAttempts(rows: Rows, ops: seq<Op>, x: TaskId)
    requires x in rows && rows[x].status.Failed?
    ensures x in RunOps(rows, ops) && RunOps(rows, ops)[x].attempts == rows[x].attempts
    decreases |ops|
  {
    hide Perform;
    if ops != [] {
      OpKeepsRow(rows, ops[0], x);
      FailedKeepsAttempts(Perform(rows, ops[0]), ops[1..], x);
    }
  }

  /** A task parked on a ballot whose dependencies are done is forgotten when it is unblocked. */
  lemma {:induction false} UnblockCanForget(d: TaskId, x: TaskId)
    requires d != x
    ensures var rows := map[d := Row(Completed, [], 0), x := Row(Blocked, [d], 0)];
            NoneForgotten(rows) && !NoneForgotten(Perform(rows, Move(x, Pending)))
  {
    var rows := map[d := Row(Completed, [], 0), x := Row(Blocked, [d], 0)];
    ReturnForgetsNone(rows, x);
  }

  // ------------------------------------------------------------------- failures

  /** A pending task reached from `f` by a chain of dependencies. */
  ghost predicate Chain(rows: Rows, f: TaskId, path: seq<TaskId>) {
    && path != [] && (forall i :: 0 <= i < |path| ==> path[i] in rows)
    && f in rows[path[0]].dependsOn
    && forall i :: 0 < i < |path| ==> path[i - 1] in rows[path[i]].dependsOn
  }

  ghost predicate Downstream(rows: Rows, f: TaskId, x: TaskId) {
    exists path :: Chain(rows, f, path) && path[|path| - 1] == x
  }

  /** A failure reaches everything downstream that was pending exactly when all of it depends on
      the failed task directly. */
  lemma {:induction false} FailureReachesDownstream(rows: Rows, f: TaskId)
    requires f in rows
    ensures (forall x :: x in rows && x != f && rows[x].status.Pending? && Downstream(rows, f, x) ==>
               AfterFail(rows, f)[x].status.Blocked?)
            <==> (forall x :: x in rows && x != f && rows[x].status.Pending? && Downstream(rows, f, x) ==>
                    f in rows[x].dependsOn)
  {
  }

  /** Behind a blocked task the next one waits on. */
  lemma {:induction false} FailureStopsAtFirst(a: TaskId, b: TaskId, c: TaskId)
    requires a != b && b != c && a != c
    ensures var rows := map[a := Row(Running, [], 0), b := Row(Pending, [a], 0), c := Row(Pending, [b], 0)];
            Downstream(rows, a, c) && AfterFail(rows, a)[b].status.Blocked? && AfterFail(rows, a)[c].status.Pending?
  {
    var rows := map[a := Row(Running, [], 0), b := Row(Pending, [a], 0), c := Row(Pending, [b], 0)];
    assert Chain(rows, a, [b, c]);
  }

  /** No pending task depends on a failed one. */
  ghost predicate FailuresSeen(rows: Rows) {
    forall x :: x in rows && rows[x].status.Pending? ==> !AnyFailed(rows, rows[x])
  }

  /** Failing a task keeps that; a vetoed completion keeps it exactly when it changes nothing, the task
      is tried again, or nobody else is waiting for it. */
  lemma {:induction false} FailuresStaySeen(rows: Rows, x: TaskId)
    requires FailuresSeen(rows) && x in rows
    ensures FailuresSeen(AfterFail(rows, x))
    ensures FailuresSeen(AfterComplete(rows, x, true)) <==>
              || Terminal(rows[x].status) || rows[x].attempts < RETRY_LIMIT
              || forall y :: y in rows && y != x && rows[y].status.Pending? ==> x !in rows[y].dependsOn
  {
    var failed := AfterFail(rows, x);
    forall y | y in failed && failed[y].status.Pending? ensures !AnyFailed(failed, failed[y]) {
      assert !AnyFailed(rows, rows[y]);
    }
    var vetoed := AfterComplete(rows, x, true);
    if Terminal(rows[x].status) || rows[x].attempts < RETRY_LIMIT
       || forall y :: y in rows && y != x && rows[y].status.Pending? ==> x !in rows[y].dependsOn
    {
      forall y | y in vetoed && vetoed[y].status.Pending? ensures !AnyFailed(vetoed, vetoed[y]) {
        assert !AnyFailed(rows, rows[y]);
      }
    } else {
      var y :| y in rows && y != x && rows[y].status.Pending? && x in rows[y].dependsOn;
      assert AnyFailed(vetoed, vetoed[y]);
    }
  }

  /** A review vetoed at the cap with somebody waiting for it. */
  lemma {:induction false} VetoCanHideFailure(x: TaskId, y: TaskId)
    requires x != y
    ensures var rows := map[x := Row(Running, [], RETRY_LIMIT), y := Row(Pending, [x], 0)];
            FailuresSeen(rows) && !FailuresSeen(AfterComplete(rows, x, true))
  {
    var rows := map[x := Row(Running, [], RETRY_LIMIT), y := Row(Pending, [x], 0)];
    assert FailuresSeen(rows);
    FailuresStaySeen(rows, x);
    assert rows[y].dependsOn == [x] && x in rows[y].dependsOn;
  }

  /** Everything a failure newly blocks has a failed dependency. */
  ghost predicate BlocksRightly(rows: Rows, x: TaskId) {
    var after := AfterFail(rows, x);
    forall y :: y in rows && rows[y].status.Pending? && y in after && after[y].status.Blocked? ==> AnyFailed(after, rows[y])
  }

  /** ... exactly when the task could still fail, had failed, or its waiting dependents had a failed
      dependency already: failing one that is otherwise terminal changes no status but blocks them. */
  lemma {:induction false} FailureBlocksRightly(rows: Rows, x: TaskId)
    requires x in rows
    ensures BlocksRightly(rows, x) <==>
              || !Terminal(rows[x].status) || rows[x].status.Failed?
              || forall y :: y in rows && rows[y].status.Pending? && x in rows[y].dependsOn ==> AnyFailed(rows, rows[y])
  {
    var after := AfterFail(rows, x);
    forall r: Row, d | d in r.dependsOn && d in rows && (d != x || Terminal(rows[x].status))
      ensures rows[d].status.Failed? ==> after[d].status.Failed?
    {
    }
    if Terminal(rows[x].status) {
      forall r: Row ensures AnyFailed(after, r) == AnyFailed(rows, r) {
        if AnyFailed(after, r) {
          var d :| d in r.dependsOn && d in after && after[d].status.Failed?;
          assert d in rows && rows[d].status.Failed?;
        }
        if AnyFailed(rows, r) {
          var d :| d in r.dependsOn && d in rows && rows[d].status.Failed?;
          assert d in after && after[d].status.Failed?;
        }
      }
    } else {
      assert after[x].status.Failed?;
    }
  }

  /** Failing a completed task blocks what was waiting for it. */
  lemma {:induction false} FailedCompletionBlocks(x: TaskId, y: TaskId)
    requires x != y
    ensures var rows := map[x := Row(Completed, [], 0), y := Row(Pending, [x], 0)];
            AfterFail(rows, x)[x].status.Completed? && AfterFail(rows, x)[y].status.Blocked? && !BlocksRightly(rows, x)
  {
    var rows := map[x := Row(Completed, [], 0), y := Row(Pending, [x], 0)];
    assert x in rows[y].dependsOn;
    FailureBlocksRightly(rows, x);
  }
}
