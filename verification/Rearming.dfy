/** Runs of the lane protocol that show where its bounds end: backoff that is armed again and again,
    and a lane queue filled to the brim. */
module Rearming {
  import opened Ids
  import opened LaneProtocol

  ghost predicate Reaches(s: State, steps: seq<Step>, s': State)
    decreases |steps|
  {
    if steps == [] then s == s' else Enabled(s, steps[0]) && Reaches(Apply(s, steps[0]), steps[1..], s')
  }

  lemma {:induction false} ReachesOn(s: State, steps: seq<Step>, mid: State, more: seq<Step>, s': State)
    requires Reaches(s, steps, mid) && Reaches(mid, more, s')
    ensures Reaches(s, steps + more, s')
    decreases |steps|
  {
    if steps == [] {
      assert steps + more == more;
    } else {
      assert (steps + more)[1..] == steps[1..] + more;
      ReachesOn(Apply(s, steps[0]), steps[1..], mid, more, s');
    }
  }

  lemma {:induction false} TwoSteps(s: State, a: Step, b: Step)
    requires Enabled(s, a) && Enabled(Apply(s, a), b)
    ensures Reaches(s, [a, b], Apply(Apply(s, a), b))
  {
    assert [a, b][1..] == [b] && [b][1..] == [];
  }

  /** What a step leaves alone about one delivery. */
  ghost predicate SameAccount(s: State, s': State, id: TaskId) {
    && Attempts(s', id) == Attempts(s, id) && Armed(s'.history, id) == Armed(s.history, id)
    && RefusalDelay(s'.history, id) == RefusalDelay(s.history, id)
  }

  /** The step queues, refuses, picks or ends this delivery. */
  ghost predicate Concerns(step: Step, id: TaskId) {
    match step
    case Dequeue(_) => false
    case Start(_) => false
    case Pick(t, _) => t.id == id
    case Enqueue(t, _) => t.id == id
    case Drop(t, _) => t.id == id
    case Refuse(x) => x == id
    case Resolve(x, _) => x == id
    case Cancel(x) => x == id
  }

  lemma {:induction false} StepSparesHistory(s: State, step: Step, id: TaskId)
    requires Enabled(s, step) && !Concerns(step, id)
    ensures var h := Apply(s, step).history; Armed(h, id) == Armed(s.history, id) && RefusalDelay(h, id) == RefusalDelay(s.history, id)
  {
    hide Delay, Attempts, Tracked, LaneIdle;
  }

  lemma {:induction false} StepSparesOthers(s: State, step: Step, id: TaskId)
    requires Inv(s) && Enabled(s, step) && !Concerns(step, id)
    ensures SameAccount(s, Apply(s, step), id)
  {
    assert HeldOnce(s);
    hide Attempts, Inv, HeldOnce, Armed, RefusalDelay, Apply, Enabled;
    AttemptsCarried(s, step, id);
    StepSparesHistory(s, step, id);
  }

  /** Nothing in hand, and these are the deliveries held. */
  ghost predicate Quiet(s: State, held: set<TaskId>) {
    Inv(s) && s.inHand == map[] && forall id :: Tracked(s, id) <==> id in held
  }

  /** Two steps, seen as one. */
  lemma {:induction false} Both(s: State, a: Step, b: Step, held: set<TaskId>, held': set<TaskId>)
    requires Quiet(s, held) && Enabled(s, a) && Enabled(Apply(s, a), b)
    requires Apply(Apply(s, a), b).inHand == map[]
    requires (a.Pick? && b.Enqueue? && held' == held + {a.task.id}) || (a.Pick? && b.Start? && held' == held + {a.task.id})
             || (!a.Pick? && !a.Drop? && !a.Resolve? && !a.Cancel? && (b.Enqueue? || b.Start?) && held' == held)
    ensures Reaches(s, [a, b], Apply(Apply(s, a), b)) && Quiet(Apply(Apply(s, a), b), held')
  {
    hide Inv, Tracked, Enabled, Apply, Reaches;
    var mid := Apply(s, a);
    StepKeepsInv(s, a);
    StepKeepsInv(mid, b);
    TwoSteps(s, a, b);
    forall id ensures Tracked(Apply(mid, b), id) <==> id in held' {
      TrackedAfter(s, a, id);
      TrackedAfter(mid, b, id);
    }
  }

  /** A delivery arrives while its lane is busy. */
  lemma {:induction false} Arrives(s: State, held: set<TaskId>, t: Task, other: TaskId) returns (s': State, steps: seq<Step>)
    requires Quiet(s, held) && t.id !in held && t.lane != NoLane && |Fifo(s.waiting, t.lane)| < LANE_QUEUE_LIMIT && other != t.id
    ensures Reaches(s, steps, s') && Quiet(s', held + {t.id}) && s'.active == s.active
    ensures Fifo(s'.waiting, t.lane) == Fifo(s.waiting, t.lane) + [t]
    ensures SameAccount(s, s', other)
  {
    hide Inv, SameAccount, Reaches;
    var a, b := Pick(t, 0), Enqueue(t, 0.0);
    var mid := Apply(s, a);
    s', steps := Apply(mid, b), [a, b];
    assert s'.inHand == map[];
    Both(s, a, b, held, held + {t.id});
    StepKeepsInv(s, a);
    StepSparesOthers(s, a, other);
    StepSparesOthers(mid, b, other);
    SameOn(s, mid, s', other);
  }

  lemma {:induction false} SameOn(s: State, mid: State, s': State, id: TaskId)
    requires SameAccount(s, mid, id) && SameAccount(mid, s', id)
    ensures SameAccount(s, s', id)
  {
    hide Attempts, Armed, RefusalDelay;
  }

  /** What taking the head of a queue does to the state. */
  lemma {:induction false} Taking(s: State, lane: LaneKey)
    requires Inv(s) && s.inHand == map[] && Fifo(s.waiting, lane) != []
    ensures var t, mid := Fifo(s.waiting, lane)[0], Apply(s, Dequeue(lane));
            && t.lane == lane != NoLane && mid.inHand == map[t.id := Attempts(s, t.id)] && mid.active == s.active
            && t.id !in s.active && Fifo(mid.waiting, lane) == Fifo(s.waiting, lane)[1..] && mid.meta == s.meta
            && |Fifo(mid.waiting, lane)| < LANE_QUEUE_LIMIT && mid.history == After(s.history, Dequeued(t))
  {
    HeadIsHome(s, lane);
    assert OwnLane(Fifo(s.waiting, lane)[0], lane, s.home) && |Fifo(s.waiting, lane)| <= LANE_QUEUE_LIMIT;
  }

  /** The head of an idle lane's queue starts. */
  lemma {:induction false} HeadStarts(s: State, held: set<TaskId>, lane: LaneKey, other: TaskId) returns (s': State, steps: seq<Step>)
    requires Quiet(s, held) && Fifo(s.waiting, lane) != [] && s.active == map[]
    ensures Reaches(s, steps, s') && Quiet(s', held)
    ensures var t := Fifo(s.waiting, lane)[0];
            t.id in s'.active && s'.active == map[t.id := s'.active[t.id]] && s'.active[t.id].task == t
    ensures Fifo(s'.waiting, lane) == Fifo(s.waiting, lane)[1..]
    ensures SameAccount(s, s', other)
  {
    var t := Fifo(s.waiting, lane)[0];
    var a, b := Dequeue(lane), Start(t);
    var mid := Apply(s, a);
    Taking(s, lane);
    s', steps := Apply(mid, b), [a, b];
    assert Enabled(mid, b) && s'.inHand == map[];
    hide Inv, SameAccount, Reaches, Tracked;
    Both(s, a, b, held, held);
    StepKeepsInv(s, a);
    StepSparesOthers(s, a, other);
    StepSparesOthers(mid, b, other);
    SameOn(s, mid, s', other);
  }

  /** The head of a busy lane's queue, drained together with the one that started, is put back. */
  lemma {:induction false} IsPutBack(s: State, held: set<TaskId>, lane: LaneKey) returns (s': State, steps: seq<Step>)
    requires Quiet(s, held) && Fifo(s.waiting, lane) != []
    ensures Reaches(s, steps, s') && Quiet(s', held) && s'.active == s.active
    ensures var t := Fifo(s.waiting, lane)[0];
            && Fifo(s'.waiting, lane) == Fifo(s.waiting, lane)[1..] + [t]
            && Attempts(s', t.id) == Attempts(s, t.id) && RefusalDelay(s'.history, t.id) == RefusalDelay(s.history, t.id)
            && Armed(s'.history, t.id) == Armed(s.history, t.id) + Delay(Attempts(s, t.id))
  {
    var t := Fifo(s.waiting, lane)[0];
    var a, b := Dequeue(lane), Enqueue(t, 0.0);
    var mid := Apply(s, a);
    Taking(s, lane);
    s', steps := Apply(mid, b), [a, b];
    assert Enabled(mid, b) && s'.inHand == map[];
    hide Inv, Reaches, Tracked;
    Both(s, a, b, held, held);
    StepKeepsInv(s, a);
    StepSparesOthers(s, a, t.id);
    QueuedAccount(mid, t);
  }

  lemma {:induction false} QueuedAccount(s: State, t: Task)
    requires Inv(s) && Enabled(s, Enqueue(t, 0.0))
    ensures var s' := Apply(s, Enqueue(t, 0.0));
            && Attempts(s', t.id) == Attempts(s, t.id) && RefusalDelay(s'.history, t.id) == RefusalDelay(s.history, t.id)
            && Armed(s'.history, t.id) == Armed(s.history, t.id) + Delay(Attempts(s, t.id))
  {
    PlacesOf(s);
    AttemptsCarried(s, Enqueue(t, 0.0), t.id);
    assert Attempts(s, t.id) == s.inHand[t.id];
  }

  /** A spawn completes. */
  lemma {:induction false} Completes(s: State, held: set<TaskId>, id: TaskId, other: TaskId) returns (s': State, steps: seq<Step>)
    requires Quiet(s, held) && id in s.active && s.active == map[id := s.active[id]] && other != id
    ensures Reaches(s, steps, s') && Quiet(s', held - {id}) && s'.active == map[] && s'.waiting == s.waiting
    ensures SameAccount(s, s', other)
  {
    hide Inv, Tracked, SameAccount;
    var a := Resolve(id, Completed);
    s', steps := Apply(s, a), [a];
    StepKeepsInv(s, a);
    StepSparesOthers(s, a, other);
    assert [a][1..] == [];
    assert s'.active == map[];
    forall x ensures Tracked(s', x) <==> x in held - {id} {
      TrackedAfter(s, a, x);
    }
  }

  /** An idle lane on which a refused delivery waits between two others. */
  ghost predicate Between(s: State, lane: LaneKey, z: Task, b: Task, w: Task) {
    && Quiet(s, {z.id, b.id, w.id}) && s.active == map[] && Fifo(s.waiting, lane) == [z, b, w]
    && z.lane == lane && b.lane == lane && w.lane == lane && lane != NoLane
    && z.id != b.id && z.id != w.id && b.id != w.id
  }

  /** One round: the delivery ahead starts, the refused one is put back behind the others, another
      arrives, and the first completes.  Everything is as before, but its backoff was armed again. */
  lemma {:induction false} Round(s: State, lane: LaneKey, z: Task, b: Task, w: Task, v: Task) returns (s': State, steps: seq<Step>)
    requires Between(s, lane, z, b, w) && v.lane == lane && v.id !in {z.id, b.id, w.id}
    ensures Reaches(s, steps, s') && Between(s', lane, w, b, v)
    ensures Attempts(s', b.id) == Attempts(s, b.id) && RefusalDelay(s'.history, b.id) == RefusalDelay(s.history, b.id)
    ensures Armed(s'.history, b.id) == Armed(s.history, b.id) + Delay(Attempts(s, b.id))
  {
    hide Quiet, Attempts, Armed, RefusalDelay, Reaches, Fifo;
    var held := {z.id, b.id, w.id};
    var s1, a1 := HeadStarts(s, held, lane, b.id);
    var s2, a2 := IsPutBack(s1, held, lane);
    var s3, a3 := Arrives(s2, held, v, b.id);
    var s4, a4 := Completes(s3, held + {v.id}, z.id, b.id);
    Chain4(s, a1, s1, a2, s2, a3, s3, a4, s4);
    s', steps := s4, a1 + a2 + a3 + a4;
    assert held + {v.id} - {z.id} == {w.id, b.id, v.id};
    SameFifo(s3, s4, lane);
  }

  lemma {:induction false} Chain4(s: State, a: seq<Step>, s1: State, b: seq<Step>, s2: State, c: seq<Step>, s3: State, d: seq<Step>, s4: State)
    requires Reaches(s, a, s1) && Reaches(s1, b, s2) && Reaches(s2, c, s3) && Reaches(s3, d, s4)
    ensures Reaches(s, a + b + c + d, s4)
  {
    hide Reaches;
    ReachesOn(s, a, s1, b, s2);
    ReachesOn(s, a + b, s2, c, s3);
    ReachesOn(s, a + b + c, s3, d, s4);
  }

  lemma {:induction false} SameFifo(s: State, s': State, lane: LaneKey)
    requires s'.waiting == s.waiting
    ensures Fifo(s'.waiting, lane) == Fifo(s.waiting, lane)
  {
  }

  /** Rounds can be repeated at will. */
  lemma {:induction false} Rounds(s: State, lane: LaneKey, z: Task, b: Task, w: Task, v: Task, n: nat) returns (s': State, steps: seq<Step>)
    requires Between(s, lane, z, b, w) && v.lane == lane && v.id !in {z.id, b.id, w.id}
    ensures Reaches(s, steps, s') && RefusalDelay(s'.history, b.id) == RefusalDelay(s.history, b.id)
    ensures Armed(s'.history, b.id) == Armed(s.history, b.id) + n as real * Delay(Attempts(s, b.id))
    decreases n
  {
    hide Between, Attempts, Armed, RefusalDelay, Delay;
    if n == 0 {
      s', steps := s, [];
    } else {
      hide Reaches;
      var mid, first := Round(s, lane, z, b, w, v);
      DistinctThree(s, lane, z, b, w);
      var more: seq<Step>;
      s', more := Rounds(mid, lane, w, b, v, z, n - 1);
      ReachesOn(s, first, mid, more, s');
      steps := first + more;
      OneMore(n, Delay(Attempts(s, b.id)));
    }
  }

  lemma {:induction false} OneMore(n: nat, d: real)
    requires n > 0
    ensures d + (n - 1) as real * d == n as real * d
  {
  }

  lemma {:induction false} DistinctThree(s: State, lane: LaneKey, z: Task, b: Task, w: Task)
    requires Between(s, lane, z, b, w)
    ensures z.id != b.id && z.id != w.id && b.id != w.id && z.lane == lane
  {
  }

  /** A delivery is refused once, behind two others. */
  lemma {:induction false} RefusedBehind(b: Task, y: Task, z: Task) returns (s: State, steps: seq<Step>)
    requires b.lane == y.lane == z.lane != NoLane && b.id != y.id && b.id != z.id && y.id != z.id
    ensures Reaches(Initial, steps, s) && Quiet(s, {b.id, y.id, z.id}) && s.active == map[] && Fifo(s.waiting, b.lane) == [y, z, b]
    ensures Attempts(s, b.id) == 1 && RefusalDelay(s.history, b.id) == Delay(1)
  {
    hide Reaches, Quiet, Attempts, RefusalDelay, Armed, Fifo, Delay;
    var s1, a1 := Begins(b);
    var s2, a2 := Arrives(s1, {b.id}, y, b.id);
    var s3, a3 := Arrives(s2, {b.id} + {y.id}, z, b.id);
    var s4, a4 := IsRefused(s3, {b.id} + {y.id} + {z.id}, b.id);
    Chain4(Initial, a1, s1, a2, s2, a3, s3, a4, s4);
    s, steps := s4, a1 + a2 + a3 + a4;
    assert {b.id} + {y.id} + {z.id} == {b.id, y.id, z.id};
    assert [] + [y] + [z] + [b] == [y, z, b];
  }

  /** ... and a third arrives behind it while the first of them runs. */
  lemma {:induction false} RefusedBetween(b: Task, y: Task, z: Task, w: Task) returns (s: State, steps: seq<Step>)
    requires b.lane == y.lane == z.lane == w.lane != NoLane
    requires b.id != y.id && b.id != z.id && y.id != z.id && w.id !in {b.id, y.id, z.id}
    ensures Reaches(Initial, steps, s) && Between(s, b.lane, z, b, w)
    ensures Attempts(s, b.id) == 1 && RefusalDelay(s.history, b.id) == Delay(1)
  {
    hide Reaches, Quiet, Attempts, RefusalDelay, Armed, Fifo, Delay;
    var held := {b.id, y.id, z.id};
    var s4, a4 := RefusedBehind(b, y, z);
    var s5, a5 := HeadStarts(s4, held, b.lane, b.id);
    var s6, a6 := Arrives(s5, held, w, b.id);
    var s7, a7 := Completes(s6, held + {w.id}, y.id, b.id);
    Chain4(Initial, a4, s4, a5, s5, a6, s6, a7, s7);
    s, steps := s7, a4 + a5 + a6 + a7;
    assert held + {w.id} - {y.id} == {z.id, b.id, w.id};
    SameFifo(s6, s7, b.lane);
    assert [y, z, b][1..] + [w] == [z, b, w];
  }

  /** The first delivery of a lane starts at once. */
  lemma {:induction false} Begins(b: Task) returns (s: State, steps: seq<Step>)
    requires b.lane != NoLane
    ensures Reaches(Initial, steps, s) && Quiet(s, {b.id}) && s.active == map[b.id := Spawn(b, 0)] && Fifo(s.waiting, b.lane) == []
    ensures Attempts(s, b.id) == 0 && RefusalDelay(s.history, b.id) == 0.0
  {
    InitialInv();
    hide Inv, Reaches;
    var x, y := Pick(b, 0), Start(b);
    s, steps := Apply(Apply(Initial, x), y), [x, y];
    assert s.inHand == map[];
    Both(Initial, x, y, {}, {b.id});
  }

  /** A spawn is refused and goes behind what waits on its lane. */
  lemma {:induction false} IsRefused(s: State, held: set<TaskId>, id: TaskId) returns (s': State, steps: seq<Step>)
    requires Quiet(s, held) && id in s.active && s.active == map[id := s.active[id]] && s.active[id].task.id == id
    requires var t := s.active[id].task; t.lane != NoLane && |Fifo(s.waiting, t.lane)| < LANE_QUEUE_LIMIT
    requires s.active[id].refusals < MAX_RETRIES
    ensures Reaches(s, steps, s') && Quiet(s', held) && s'.active == map[]
    ensures var t := s.active[id].task; Fifo(s'.waiting, t.lane) == Fifo(s.waiting, t.lane) + [t]
    ensures Attempts(s', id) == Attempts(s, id) + 1
    ensures RefusalDelay(s'.history, id) == RefusalDelay(s.history, id) + Delay(Attempts(s, id) + 1)
  {
    hide Inv, Reaches, Tracked;
    var t := s.active[id].task;
    var a, b := Refuse(id), Enqueue(t, 0.0);
    var mid := Apply(s, a);
    s', steps := Apply(mid, b), [a, b];
    assert s'.inHand == map[] && s'.active == map[];
    Both(s, a, b, held, held);
    StepKeepsInv(s, a);
    RefusedAccount(s, id);
    QueuedAccount(mid, t);
  }

  lemma {:induction false} RefusedAccount(s: State, id: TaskId)
    requires Inv(s) && Enabled(s, Refuse(id))
    ensures var s' := Apply(s, Refuse(id));
            && Attempts(s', id) == Attempts(s, id) + 1
            && RefusalDelay(s'.history, id) == RefusalDelay(s.history, id) + Delay(Attempts(s, id) + 1)
  {
    AttemptsCarried(s, Refuse(id), id);
    AttemptsBefore(s, Refuse(id));
  }

  /** There is no bound on the backoff armed for one delivery, although its one refusal granted two
      seconds: with two slots it can be put back as often as others queue behind it. */
  lemma {:induction false} BackoffIsUnbounded(b: Task, y: Task, z: Task, w: Task, n: nat) returns (s: State, steps: seq<Step>)
    requires b.lane == y.lane == z.lane == w.lane != NoLane
    requires b.id != y.id && b.id != z.id && y.id != z.id && w.id !in {b.id, y.id, z.id}
    ensures Reaches(Initial, steps, s)
    ensures RefusalDelay(s.history, b.id) == 2.0 && Armed(s.history, b.id) >= n as real
  {
    hide Between, Reaches, Attempts, Armed, RefusalDelay, Delay;
    FirstDelay();
    var mid, first := RefusedBetween(b, y, z, w);
    var more: seq<Step>;
    s, more := Rounds(mid, b.lane, z, b, w, y, n);
    ReachesOn(Initial, first, mid, more, s);
    steps := first + more;
    ArmedIsNatural(mid.history, b.id);
    Enough(Armed(mid.history, b.id), n, Delay(1));
  }

  lemma {:induction false} FirstDelay()
    ensures Delay(1) == 2.0
  {
    assert Pow2(0) == 1.0;
  }

  lemma {:induction false} Enough(a: real, n: nat, d: real)
    requires a >= 0.0 && d == 2.0
    ensures a + n as real * d >= n as real
  {
  }

  lemma {:induction false} ArmedIsNatural(h: History, id: TaskId)
    ensures Armed(h, id) >= 0.0
  {
    if h.After? {
      ArmedIsNatural(h.past, id);
    }
  }

  // ------------------------------------------------------------------ a full queue

  /** A delivery in flight on a lane, and others to come on it. */
  ghost predicate Siblings(b: Task, others: seq<Task>) {
    && b.lane != NoLane
    && (forall i :: 0 <= i < |others| ==> others[i].lane == b.lane && others[i].id != b.id)
    && forall i, j :: 0 <= i < j < |others| ==> others[i].id != others[j].id
  }

  ghost function IdsUpTo(b: Task, others: seq<Task>, n: nat): set<TaskId>
    requires n <= |others|
  {
    if n == 0 then {b.id} else IdsUpTo(b, others, n - 1) + {others[n - 1].id}
  }

  lemma {:induction false} NotYetHeld(b: Task, others: seq<Task>, n: nat, k: nat)
    requires Siblings(b, others) && n <= k < |others|
    ensures others[k].id !in IdsUpTo(b, others, n)
  {
    if n > 0 {
      NotYetHeld(b, others, n - 1, k);
    }
  }

  /** The first `n` of them queue up behind it. */
  lemma {:induction false} Crowd(b: Task, others: seq<Task>, n: nat) returns (s: State, steps: seq<Step>)
    requires Siblings(b, others) && n <= |others| && n <= LANE_QUEUE_LIMIT
    ensures Reaches(Initial, steps, s) && Quiet(s, IdsUpTo(b, others, n)) && |Fifo(s.waiting, b.lane)| == n
    ensures s.active == map[b.id := Spawn(b, 0)]
  {
    hide Reaches, Quiet, Fifo;
    if n == 0 {
      s, steps := Begins(b);
    } else {
      var before, first := Crowd(b, others, n - 1);
      NotYetHeld(b, others, n - 1, n - 1);
      var more: seq<Step>;
      s, more := Arrives(before, IdsUpTo(b, others, n - 1), others[n - 1], b.id);
      ReachesOn(Initial, first, before, more, s);
      steps := first + more;
    }
  }

  /** Sixty-four deliveries behind one in flight: its first refusal finds the queue full. */
  lemma {:induction false} QueueCanBeFull(b: Task, others: seq<Task>) returns (s: State, steps: seq<Step>)
    requires Siblings(b, others) && |others| == LANE_QUEUE_LIMIT
    ensures Reaches(Initial, steps, s) && Inv(s) && s.inHand == map[]
    ensures s.active == map[b.id := Spawn(b, 0)] && |Fifo(s.waiting, b.lane)| == LANE_QUEUE_LIMIT
    ensures RefusalChain(s.history, b.id) == 0
  {
    s, steps := Crowd(b, others, LANE_QUEUE_LIMIT);
    assert RefusalChain(s.history, b.id) <= Attempts(s, b.id);
  }
}
