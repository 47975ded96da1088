/** The duplicate-join gate of the main node, the worker connectors that drive it, and who can hold a
    node id over whole runs. */
module JoinGate {
  import opened Ids

  datatype NodeRow = NodeRow(token: string, lastBeat: int, capabilities: seq<string>, maxConcurrent: int)

  datatype JoinResult =
    | Accepted
    | DuplicateInstance(holder: string, challenger: string, age: int)
    | InvalidId

  /** A join is refused while another instance holds the id with a young heartbeat. */
  predicate Refused(row: Option<NodeRow>, token: string, now: int, offlineAfter: int) {
    && row.Some? && token != "" && row.value.token != "" && token != row.value.token
    && now - row.value.lastBeat < offlineAfter
  }

  /** The row after an accepted join. */
  function Admitted(row: Option<NodeRow>, token: string, caps: seq<string>, maxConcurrent: int, now: int): NodeRow {
    match row
    case None => NodeRow(token, now, caps, Ceiling(maxConcurrent))
    case Some(r) =>
      NodeRow(
        if token != "" then token else r.token,
        now,
        if caps != [] then caps else r.capabilities,
        if maxConcurrent != 0 then Ceiling(maxConcurrent) else r.maxConcurrent)
  }

  /** What is stored of a declared capacity; zero means unlimited. */
  function Ceiling(maxConcurrent: int): int {
    if maxConcurrent > 0 then maxConcurrent else 0
  }

  /** What one join declares. */
  datatype Declared = Declared(token: string, caps: seq<string>, maxConcurrent: int, now: int)

  ghost function JoinAll(js: seq<Declared>): Option<NodeRow> {
    if js == [] then None
    else
      var j := js[|js| - 1];
      Some(Admitted(JoinAll(js[..|js| - 1]), j.token, j.caps, j.maxConcurrent, j.now))
  }

  /** After any number of accepted joins a node has the heartbeat of the last one, and the token, the
      capabilities and the capacity of the last that named one; a negative capacity counts as none. */
  lemma {:induction false} JoinsRemember(js: seq<Declared>, k: nat)
    requires k < |js|
    ensures JoinAll(js).Some? && JoinAll(js).value.lastBeat == js[|js| - 1].now
    ensures js[k].token != "" && (forall i :: k < i < |js| ==> js[i].token == "") ==> JoinAll(js).value.token == js[k].token
    ensures js[k].caps != [] && (forall i :: k < i < |js| ==> js[i].caps == []) ==> JoinAll(js).value.capabilities == js[k].caps
    ensures js[k].maxConcurrent != 0 && (forall i :: k < i < |js| ==> js[i].maxConcurrent == 0) ==>
              JoinAll(js).value.maxConcurrent == if js[k].maxConcurrent < 0 then 0 else js[k].maxConcurrent
  {
    var n := |js| - 1;
    if k < n {
      JoinsRemember(js[..n], k);
    }
  }

  /** What no join has named is empty. */
  lemma {:induction false} JoinsInventNothing(js: seq<Declared>)
    requires js != []
    ensures (forall i :: 0 <= i < |js| ==> js[i].token == "") ==> JoinAll(js).value.token == ""
    ensures (forall i :: 0 <= i < |js| ==> js[i].caps == []) ==> JoinAll(js).value.capabilities == []
    ensures (forall i :: 0 <= i < |js| ==> js[i].maxConcurrent == 0) ==> JoinAll(js).value.maxConcurrent == 0
  {
    var n := |js| - 1;
    if n > 0 {
      JoinsInventNothing(js[..n]);
    }
  }

  /** Joining again with the same declaration at the same time changes nothing. */
  lemma {:induction false} RejoinIsIdempotent(row: Option<NodeRow>, token: string, caps: seq<string>, maxConcurrent: int, now: int)
    ensures var once := Admitted(row, token, caps, maxConcurrent, now);
            Admitted(Some(once), token, caps, maxConcurrent, now) == once
  {
  }

  function At(nodes: map<string, NodeRow>, id: string): Option<NodeRow> {
    if id in nodes then Some(nodes[id]) else None
  }

  class NodeManager {
    var nodes: map<string, NodeRow>
    const offlineAfter: int

    constructor (offlineAfter: int)
      ensures nodes == map[] && this.offlineAfter == offlineAfter
    {
      nodes := map[];
      this.offlineAfter := offlineAfter;
    }

    /** Register or re-register an instance under a node id. */
    method Join(id: string, caps: seq<string>, maxConcurrent: int, token: string, now: int) returns (r: JoinResult)
      modifies this`nodes
      ensures r.InvalidId? <==> id == ""
      ensures r.DuplicateInstance? <==> id != "" && Refused(At(old(nodes), id), token, now, offlineAfter)
      ensures r.DuplicateInstance? ==>
                r == DuplicateInstance(old(nodes)[id].token, token, now - old(nodes)[id].lastBeat)
      ensures nodes == if r.Accepted? then old(nodes)[id := Admitted(At(old(nodes), id), token, caps, maxConcurrent, now)]
                       else old(nodes)
    {
      if id == "" {
        return InvalidId;
      }
      if id in nodes {
        var prev := nodes[id].token;
        if token != "" && prev != "" && token != prev {
          var age := now - nodes[id].lastBeat;
          if age < offlineAfter {
            return DuplicateInstance(prev, token, age);
          }
        }
        var _ := SendHeartbeat(id, now);
        assert nodes == old(nodes)[id := nodes[id]];
        if caps != [] {
          nodes := nodes[id := nodes[id].(capabilities := caps)];
        }
        assert nodes == old(nodes)[id := nodes[id]];
        if maxConcurrent != 0 {
          nodes := nodes[id := nodes[id].(maxConcurrent := Ceiling(maxConcurrent))];
        }
        assert nodes == old(nodes)[id := nodes[id]];
        if token != "" {
          nodes := nodes[id := nodes[id].(token := token)];
        }
        return Accepted;
      }
      nodes := nodes[id := NodeRow(token, now, caps, Ceiling(maxConcurrent))];
      return Accepted;
    }

    /** A beat names the node, not the instance that sends it. */
    method SendHeartbeat(id: string, now: int) returns (known: bool)
      modifies this`nodes
      ensures known <==> id in old(nodes)
      ensures nodes == if known then old(nodes)[id := old(nodes)[id].(lastBeat := now)] else old(nodes)
    {
      if id !in nodes {
        return false;
      }
      nodes := nodes[id := nodes[id].(lastBeat := now)];
      return true;
    }
  }

  // --------------------------------------------------------------- one connector

  /** What becomes of a request: it never arrives, its answer never arrives, or both do. */
  datatype Delivery = Lost | Unanswered | Answered

  /** The node's row and whether the connector thinks itself registered. */
  datatype Standing = Standing(row: Option<NodeRow>, registered: bool)

  function AfterJoin(s: Standing, token: string, caps: seq<string>, maxConcurrent: int, now: int, offlineAfter: int, net: Delivery)
    : Standing
  {
    if s.registered || net.Lost? || Refused(s.row, token, now, offlineAfter) then s
    else Standing(Some(Admitted(s.row, token, caps, maxConcurrent, now)), net.Answered?)
  }

  function AfterBeat(s: Standing, now: int, net: Delivery): Standing {
    if !s.registered || net.Lost? then s
    else
      match s.row
      case None => Standing(None, !net.Answered?)
      case Some(r) => Standing(Some(r.(lastBeat := now)), true)
  }

  class WorkerConnector {
    const id: string
    const token: string
    const capabilities: seq<string>
    const maxConcurrent: int
    var registered: bool

    constructor (id: string, token: string, capabilities: seq<string>, maxConcurrent: int)
      requires id != ""
      ensures this.id == id && this.token == token && this.capabilities == capabilities
      ensures this.maxConcurrent == maxConcurrent && !registered
    {
      this.id, this.token, this.capabilities, this.maxConcurrent := id, token, capabilities, maxConcurrent;
      registered := false;
    }

    /** One turn of the loop: join if not registered, then beat if registered. */
    method Cycle(main: NodeManager, now: int, joinNet: Delivery, beatNet: Delivery)
      requires id != ""
      modifies this`registered, main`nodes
      ensures Standing(At(main.nodes, id), registered)
              == AfterBeat(AfterJoin(Standing(At(old(main.nodes), id), old(registered)), token, capabilities, maxConcurrent,
                                     now, main.offlineAfter, joinNet), now, beatNet)
      ensures forall other :: other != id ==> At(main.nodes, other) == At(old(main.nodes), other)
    {
      if !registered && !joinNet.Lost? {
        var r := main.Join(id, capabilities, maxConcurrent, token, now);
        if joinNet.Answered? && r.Accepted? {
          registered := true;
        }
      }
      if registered && !beatNet.Lost? {
        var known := main.SendHeartbeat(id, now);
        if beatNet.Answered? && !known {
          registered := false;
        }
      }
    }
  }

  // ------------------------------------------------------------------ whole runs

  datatype Conn = Conn(token: string, registered: bool)

  /** Everyone who uses one node id: the main's row and the connectors. */
  datatype World = World(row: Option<NodeRow>, conns: seq<Conn>)

  datatype Step =
    | Cycle(who: nat, now: int, caps: seq<string>, maxConcurrent: int, joinNet: Delivery, beatNet: Delivery)
    | Start(token: string)
    | Stop(who: nat)

  function Next(w: World, s: Step, offlineAfter: int): World {
    match s
    case Cycle(i, now, caps, maxConcurrent, joinNet, beatNet) =>
      if i >= |w.conns| then w
      else
        var c := w.conns[i];
        var after := AfterBeat(AfterJoin(Standing(w.row, c.registered), c.token, caps, maxConcurrent, now, offlineAfter, joinNet), now, beatNet);
        World(after.row, w.conns[i := c.(registered := after.registered)])
    case Start(token) => w.(conns := w.conns + [Conn(token, false)])
    case Stop(i) => if i >= |w.conns| then w else w.(conns := w.conns[i := w.conns[i].(registered := false)])
  }

  function After(w: World, steps: seq<Step>, offlineAfter: int): World
    decreases |steps|
  {
    if steps == [] then w else After(Next(w, steps[0], offlineAfter), steps[1..], offlineAfter)
  }

  /** Every registered instance that has a token has the holder's token. */
  ghost predicate Exclusive(w: World) {
    forall i :: 0 <= i < |w.conns| && w.conns[i].registered && w.conns[i].token != "" ==>
      w.row.Some? && w.row.value.token == w.conns[i].token
  }

  ghost predicate Holds(w: World, token: string) {
    w.row.Some? && w.row.value.token == token
  }

  /** The holder's connector gets a beat through, or a join that counts as one. */
  ghost predicate HolderBeats(w: World, s: Step, holder: string) {
    && s.Cycle? && s.who < |w.conns| && w.conns[s.who].token == holder
    && if w.conns[s.who].registered then !s.beatNet.Lost? else !s.joinNet.Lost?
  }

  /** From `clock` on time does not run backwards, the holder's beats, the latest at `last`, are less
      than `offlineAfter` apart, and at the end the latest is still younger than that. */
  ghost predicate BeatsRegularly(w: World, steps: seq<Step>, holder: string, last: int, clock: int, offlineAfter: int)
    decreases |steps|
  {
    if steps == [] then clock - last < offlineAfter
    else
      var s, next := steps[0], Next(w, steps[0], offlineAfter);
      if !s.Cycle? then BeatsRegularly(next, steps[1..], holder, last, clock, offlineAfter)
      else
        && clock <= s.now
        && (HolderBeats(w, s, holder) ==> s.now - last < offlineAfter)
        && BeatsRegularly(next, steps[1..], holder, if HolderBeats(w, s, holder) then s.now else last, s.now, offlineAfter)
  }

  /** Between two of the holder's beats nobody finds an old one. */
  lemma {:induction false} BeatIsYoung(w: World, steps: seq<Step>, holder: string, last: int, clock: int, offlineAfter: int)
    requires BeatsRegularly(w, steps, holder, last, clock, offlineAfter)
    ensures clock - last < offlineAfter
    decreases |steps|
  {
    if steps != [] {
      var s, next := steps[0], Next(w, steps[0], offlineAfter);
      if !s.Cycle? {
        BeatIsYoung(next, steps[1..], holder, last, clock, offlineAfter);
      } else if !HolderBeats(w, s, holder) {
        BeatIsYoung(next, steps[1..], holder, last, s.now, offlineAfter);
      }
    }
  }

  /** A step that finds a young beat leaves the id with its holder and refreshes it, if at all, to now. */
  lemma {:induction false} HolderKeepsNodeStep(w: World, s: Step, holder: string, offlineAfter: int)
    requires holder != "" && Holds(w, holder) && Exclusive(w)
    requires s.Cycle? ==> s.now - w.row.value.lastBeat < offlineAfter
    ensures var w' := Next(w, s, offlineAfter);
            && Holds(w', holder) && Exclusive(w')
            && (w'.row.value.lastBeat == w.row.value.lastBeat || (s.Cycle? && w'.row.value.lastBeat == s.now))
            && (HolderBeats(w, s, holder) ==> w'.row.value.lastBeat == s.now)
  {
  }

  /** While the holder's beats are less than `offlineAfter` apart, no other instance ever takes the
      node id, however many try: the holder's token stays, and only instances with that token, or
      with none, are registered. */
  lemma {:induction false} HolderKeepsNode(w: World, steps: seq<Step>, holder: string, last: int, clock: int, offlineAfter: int, k: nat)
    requires holder != "" && Holds(w, holder) && Exclusive(w) && last <= w.row.value.lastBeat && last <= clock
    requires BeatsRegularly(w, steps, holder, last, clock, offlineAfter) && k <= |steps|
    ensures Holds(After(w, steps[..k], offlineAfter), holder) && Exclusive(After(w, steps[..k], offlineAfter))
    decreases k
  {
    hide Exclusive, Holds, HolderBeats, Next;
    if k > 0 {
      var s, next, rest := steps[0], Next(w, steps[0], offlineAfter), steps[1..];
      assert steps[..k][1..] == rest[..k - 1];
      if !s.Cycle? {
        KeepsUntimed(w, s, holder, offlineAfter);
        HolderKeepsNode(next, rest, holder, last, clock, offlineAfter, k - 1);
      } else {
        var last' := if HolderBeats(w, s, holder) then s.now else last;
        if !HolderBeats(w, s, holder) {
          BeatIsYoung(next, rest, holder, last, s.now, offlineAfter);
        }
        KeepsTimed(w, s, holder, last, offlineAfter);
        HolderKeepsNode(next, rest, holder, last', s.now, offlineAfter, k - 1);
      }
    }
  }

  lemma {:induction false} KeepsUntimed(w: World, s: Step, holder: string, offlineAfter: int)
    requires holder != "" && Holds(w, holder) && Exclusive(w) && !s.Cycle?
    ensures var w' := Next(w, s, offlineAfter); Holds(w', holder) && Exclusive(w') && w'.row.value.lastBeat == w.row.value.lastBeat
  {
    HolderKeepsNodeStep(w, s, holder, offlineAfter);
  }

  lemma {:induction false} KeepsTimed(w: World, s: Step, holder: string, last: int, offlineAfter: int)
    requires holder != "" && Holds(w, holder) && Exclusive(w) && s.Cycle?
    requires last <= w.row.value.lastBeat && last <= s.now && s.now - last < offlineAfter
    ensures var w' := Next(w, s, offlineAfter);
            Holds(w', holder) && Exclusive(w') && (if HolderBeats(w, s, holder) then s.now else last) <= w'.row.value.lastBeat
  {
    HolderKeepsNodeStep(w, s, holder, offlineAfter);
  }

  /** A refused instance leaves no trace: it neither refreshes the heartbeat nor registers. */
  lemma {:induction false} RefusedLeavesNoTrace(w: World, s: Step, offlineAfter: int)
    requires s.Cycle? && s.who < |w.conns| && !w.conns[s.who].registered
    requires Refused(w.row, w.conns[s.who].token, s.now, offlineAfter)
    ensures Next(w, s, offlineAfter) == w
  {
  }

  // -------------------------------------------------------------------- takeover

  /** Another instance tries to join, and its request arrives. */
  ghost predicate Challenges(w: World, s: Step, holder: string) {
    s.Cycle? && s.who < |w.conns| && w.conns[s.who].token != "" && w.conns[s.who].token != holder && !s.joinNet.Lost?
  }

  /** Nothing arrives at the main node: lost messages, and instances starting or stopping. */
  ghost predicate Silent(w: World, s: Step) {
    s.Cycle? && s.who < |w.conns| ==> if w.conns[s.who].registered then s.beatNet.Lost? else s.joinNet.Lost?
  }

  /** The holder's last beat is `offlineAfter` old when the step happens. */
  ghost predicate Overdue(w: World, s: Step, offlineAfter: int) {
    s.Cycle? && w.row.Some? && s.now - w.row.value.lastBeat >= offlineAfter
  }

  /** The step's instance now holds the node id, with a beat as of the step. */
  ghost predicate TakenBy(w: World, s: Step, w': World) {
    s.Cycle? && s.who < |w.conns| && Holds(w', w.conns[s.who].token) && w'.row.value.lastBeat == s.now
  }

  /** A challenge before the deadline changes nothing; one at or after it takes the node id. */
  lemma {:induction false} TakeoverStep(w: World, s: Step, holder: string, offlineAfter: int)
    requires holder != "" && Holds(w, holder) && Exclusive(w) && Challenges(w, s, holder)
    ensures if Overdue(w, s, offlineAfter) then TakenBy(w, s, Next(w, s, offlineAfter)) else Next(w, s, offlineAfter) == w
  {
  }

  lemma {:induction false} SilentStep(w: World, s: Step, holder: string, offlineAfter: int)
    requires holder != "" && Holds(w, holder) && Exclusive(w) && Silent(w, s)
    ensures var w' := Next(w, s, offlineAfter); w'.row == w.row && Exclusive(w')
  {
  }

  /** The holder is gone and successors keep trying: from `prev` on the attempts that arrive are at
      most `interval` apart, everything else is lost, and one of them comes after the deadline. */
  ghost predicate KeepTrying(w: World, steps: seq<Step>, holder: string, offlineAfter: int, prev: int, interval: int)
    decreases |steps|
  {
    && steps != []
    && if Challenges(w, steps[0], holder) then
         && steps[0].now - prev <= interval
         && (Overdue(w, steps[0], offlineAfter)
             || KeepTrying(Next(w, steps[0], offlineAfter), steps[1..], holder, offlineAfter, steps[0].now, interval))
       else
         && Silent(w, steps[0])
         && KeepTrying(Next(w, steps[0], offlineAfter), steps[1..], holder, offlineAfter, prev, interval)
  }

  /** A retrying successor takes over less than one interval after the holder's last beat has become
      `offlineAfter` old, and until then nothing that happens touches the holder's row. */
  lemma {:induction false} SuccessorTakesOver(w: World, steps: seq<Step>, holder: string, offlineAfter: int, prev: int, interval: int)
    returns (k: nat)
    requires holder != "" && Holds(w, holder) && Exclusive(w) && prev < w.row.value.lastBeat + offlineAfter
    requires KeepTrying(w, steps, holder, offlineAfter, prev, interval)
    ensures k < |steps| && After(w, steps[..k], offlineAfter).row == w.row
    ensures var at := After(w, steps[..k], offlineAfter);
            && Challenges(at, steps[k], holder) && TakenBy(at, steps[k], After(w, steps[..k + 1], offlineAfter))
            && steps[k].now < w.row.value.lastBeat + offlineAfter + interval
    decreases |steps|
  {
    var s, next, rest := steps[0], Next(w, steps[0], offlineAfter), steps[1..];
    if Challenges(w, s, holder) {
      TakeoverStep(w, s, holder, offlineAfter);
    } else {
      SilentStep(w, s, holder, offlineAfter);
    }
    hide Exclusive, TakenBy, Next, Silent, Challenges;
    if Challenges(w, s, holder) && Overdue(w, s, offlineAfter) {
      k := 0;
      assert steps[..1][1..] == [] && steps[..0] == [];
    } else {
      var prev' := if Challenges(w, s, holder) then s.now else prev;
      var j := SuccessorTakesOver(next, rest, holder, offlineAfter, prev', interval);
      k := j + 1;
      assert steps[..k][1..] == rest[..j] && steps[..k + 1][1..] == rest[..j + 1];
    }
  }

  // ------------------------------------------------------ where exclusion can fail

  /** A takeover leaves one registered instance exactly when no other one still thinks itself
      registered: beats carry no token, so the main cannot tell. */
  lemma {:induction false} TakeoverIsExclusive(w: World, s: Step, offlineAfter: int)
    requires s.Cycle? && s.who < |w.conns| && !w.conns[s.who].registered && w.conns[s.who].token != ""
    requires !s.joinNet.Lost? && !Refused(w.row, w.conns[s.who].token, s.now, offlineAfter)
    ensures Exclusive(Next(w, s, offlineAfter)) <==>
              forall i :: 0 <= i < |w.conns| && w.conns[i].registered && w.conns[i].token != "" ==>
                w.conns[i].token == w.conns[s.who].token
  {
    var w' := Next(w, s, offlineAfter);
    assert w'.row.Some? && w'.row.value.token == w.conns[s.who].token;
    assert forall i :: 0 <= i < |w.conns| && i != s.who ==> w'.conns[i] == w.conns[i];
    if Exclusive(w') {
      forall i | 0 <= i < |w.conns| && w.conns[i].registered && w.conns[i].token != ""
        ensures w.conns[i].token == w.conns[s.who].token
      {
        assert w'.conns[i] == w.conns[i];
      }
    }
  }

  /** A holder that stalls and wakes again keeps the successor's registration fresh. */
  lemma {:induction false} StalledHolderStillBeats(offlineAfter: int)
    requires offlineAfter > 0
    ensures var w := World(Some(NodeRow("a", 0, [], 0)), [Conn("a", true), Conn("b", false)]);
            var mid := Next(w, Cycle(1, offlineAfter, [], 0, Answered, Answered), offlineAfter);
            var end := Next(mid, Cycle(0, offlineAfter + 1, [], 0, Answered, Answered), offlineAfter);
            && Exclusive(w) && !Exclusive(end)
            && end == World(Some(NodeRow("b", offlineAfter + 1, [], 0)), [Conn("a", true), Conn("b", true)])
  {
    var w := World(Some(NodeRow("a", 0, [], 0)), [Conn("a", true), Conn("b", false)]);
    var mid := Next(w, Cycle(1, offlineAfter, [], 0, Answered, Answered), offlineAfter);
    assert mid.conns == [Conn("a", true), Conn("b", true)];
    var end := Next(mid, Cycle(0, offlineAfter + 1, [], 0, Answered, Answered), offlineAfter);
    assert end.conns == [Conn("a", true), Conn("b", true)];
    assert end.conns[0].registered && end.row.value.token == "b";
  }
}
