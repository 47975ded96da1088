/** The fair planner: least-loaded capable node, ties to the least recently picked one. */
module Scheduler {
  import opened Ids
  import NodeIds
  import opened Basics

  datatype Node = Node(id: string, capabilities: set<string>, drained: bool, maxConcurrent: int)

  /** `maxConcurrent <= 0` means unlimited. */
  predicate AtCapacity(n: Node, active: int) {
    n.maxConcurrent > 0 && active >= n.maxConcurrent
  }

  /** A drained node runs nothing, not even a task that requires nothing. */
  predicate CanRun(needs: seq<string>, n: Node) {
    !n.drained && forall c :: c in needs ==> c in n.capabilities
  }

  function Load(counts: map<string, nat>, id: string): nat {
    if id in counts then counts[id] else 0
  }

  predicate Candidate(needs: seq<string>, n: Node, counts: map<string, nat>) {
    CanRun(needs, n) && !AtCapacity(n, Load(counts, n.id))
  }

  /** The round-robin cursor: the round each node was last picked in. */
  datatype Cursor = Cursor(round: nat, last: map<string, nat>)

  function LastPicked(c: Cursor, id: string): int {
    if id in c.last then c.last[id] else -1
  }

  function Mark(c: Cursor, id: string): Cursor {
    Cursor(c.round + 1, c.last[id := c.round])
  }

  predicate Preferred(c: Cursor, counts: map<string, nat>, a: Node, b: Node) {
    || Load(counts, a.id) < Load(counts, b.id)
    || (Load(counts, a.id) == Load(counts, b.id) && LastPicked(c, a.id) < LastPicked(c, b.id))
  }

  /** Node `i` is the planner's choice: of the candidates the least loaded, of those the least recently
      picked, of those the first listed. */
  ghost predicate IsChoice(c: Cursor, needs: seq<string>, online: seq<Node>, counts: map<string, nat>, i: int) {
    && 0 <= i < |online| && Candidate(needs, online[i], counts)
    && forall j :: 0 <= j < |online| && Candidate(needs, online[j], counts) ==>
         || Load(counts, online[i].id) < Load(counts, online[j].id)
         || (&& Load(counts, online[i].id) == Load(counts, online[j].id)
             && (LastPicked(c, online[i].id) < LastPicked(c, online[j].id)
                 || (LastPicked(c, online[i].id) == LastPicked(c, online[j].id) && i <= j)))
  }

  /** The first online node that the pin names. */
  ghost predicate FirstNamed(online: seq<Node>, pin: string, i: int) {
    && 0 <= i < |online| && NodeIds.SameNode(online[i].id, pin)
    && forall j :: 0 <= j < i ==> !NodeIds.SameNode(online[j].id, pin)
  }

  class AffinityScheduler {
    var pickRound: nat
    var lastPickedAt: map<string, nat>

    ghost function State(): Cursor
      reads this
    {
      Cursor(pickRound, lastPickedAt)
    }

    constructor ()
      ensures State() == Cursor(0, map[])
    {
      pickRound, lastPickedAt := 0, map[];
    }

    method Choose(needs: seq<string>, online: seq<Node>, counts: map<string, nat>) returns (best: Option<Node>)
      ensures best.None? <==> forall i :: 0 <= i < |online| ==> !Candidate(needs, online[i], counts)
      ensures best.Some? ==> exists i :: IsChoice(State(), needs, online, counts, i) && best.value == online[i]
    {
      best := None;
      ghost var at := 0;
      for n := 0 to |online|
        invariant best.None? ==> forall i :: 0 <= i < n ==> !Candidate(needs, online[i], counts)
        invariant best.Some? ==> at < n && IsChoice(State(), needs, online[..n], counts, at) && best.value == online[at]
      {
        var node := online[n];
        assert online[..n + 1] == online[..n] + [node];
        if Candidate(needs, node, counts) {
          if best.None? || Beats(node, best.value, counts) {
            best, at := Some(node), n;
          }
        }
      }
      assert online[..|online|] == online;
    }

    predicate Beats(a: Node, b: Node, counts: map<string, nat>)
      reads this
    {
      Preferred(Cursor(pickRound, lastPickedAt), counts, a, b)
    }

    method MarkPicked(id: string)
      modifies this
      ensures State() == Mark(old(State()), id)
    {
      lastPickedAt := lastPickedAt[id := pickRound];
      pickRound := pickRound + 1;
    }

    /** A pinned task gets its lane's node or is parked; only unpinned tasks are balanced. */
    method ChoosePinned(needs: seq<string>, online: seq<Node>, counts: map<string, nat>, pin: string)
      returns (node: Option<Node>, pinned: bool)
      ensures pinned <==> pin != ""
      ensures !pinned ==> (node.None? <==> forall i :: 0 <= i < |online| ==> !Candidate(needs, online[i], counts))
      ensures !pinned && node.Some? ==> exists i :: IsChoice(State(), needs, online, counts, i) && node.value == online[i]
      ensures pinned ==> (node.None? <==> forall i :: FirstNamed(online, pin, i) ==> !Candidate(needs, online[i], counts))
      ensures pinned && node.Some? ==>
                exists i :: FirstNamed(online, pin, i) && node.value == online[i] && Candidate(needs, online[i], counts)
    {
      hide NodeIds.SameNode, IsChoice;
      if pin == "" {
        node := Choose(needs, online, counts);
        return node, false;
      }
      for n := 0 to |online|
        invariant forall j :: 0 <= j < n ==> !NodeIds.SameNode(online[j].id, pin)
      {
        if NodeIds.SameNode(online[n].id, pin) {
          assert FirstNamed(online, pin, n);
          if !CanRun(needs, online[n]) || AtCapacity(online[n], Load(counts, online[n].id)) {
            return None, true;
          }
          return Some(online[n]), true;
        }
      }
      return None, true;
    }
  }

  // ---------------------------------------------------------- pinned placement

  ghost predicate CanonicallyDistinct(online: seq<Node>) {
    forall i, j :: 0 <= i < j < |online| ==> !NodeIds.SameNode(online[i].id, online[j].id)
  }

  /** When no two online ids spell one node, a pinned task parks exactly when the pin's node is absent,
      incapable or full. */
  lemma {:induction false} ParksExactly(online: seq<Node>, pin: string, needs: seq<string>, counts: map<string, nat>)
    requires CanonicallyDistinct(online)
    ensures (forall j :: FirstNamed(online, pin, j) ==> !Candidate(needs, online[j], counts))
            <==> forall i :: 0 <= i < |online| && NodeIds.SameNode(online[i].id, pin) ==>
                   !CanRun(needs, online[i]) || AtCapacity(online[i], Load(counts, online[i].id))
  {
    forall i | 0 <= i < |online| && NodeIds.SameNode(online[i].id, pin) ensures FirstNamed(online, pin, i) {
      forall j | 0 <= j < i ensures !NodeIds.SameNode(online[j].id, pin) {
        assert !NodeIds.SameNode(online[j].id, online[i].id);
      }
    }
  }

  // ------------------------------------------------------ round-robin fairness

  /** Recorded rounds are distinct and in the past. */
  ghost predicate WellRecorded(c: Cursor) {
    && (forall id :: id in c.last ==> c.last[id] < c.round)
    && (forall a, b :: a in c.last && b in c.last && a != b ==> c.last[a] != c.last[b])
  }

  lemma {:induction false} MarkKeepsRecord(c: Cursor, id: string)
    requires WellRecorded(c)
    ensures WellRecorded(Mark(c, id))
  {
  }

  /** One pick: what was asked and which listed node was chosen. */
  datatype Pick = Pick(needs: seq<string>, counts: map<string, nat>, chosen: nat)

  /** A run of picks over one node list. */
  ghost predicate PickRun(online: seq<Node>, cursors: seq<Cursor>, picks: seq<Pick>) {
    && |cursors| == |picks| + 1
    && forall p :: 0 <= p < |picks| ==>
         && IsChoice(cursors[p], picks[p].needs, online, picks[p].counts, picks[p].chosen)
         && cursors[p + 1] == Mark(cursors[p], online[picks[p].chosen].id)
  }

  /** Every pick has exactly the nodes of `able` as candidates, all equally loaded. */
  ghost predicate Tied(online: seq<Node>, able: set<nat>, picks: seq<Pick>) {
    && (forall i :: i in able ==> i < |online|)
    && forall p :: 0 <= p < |picks| ==>
         && (forall i :: 0 <= i < |online| ==> (Candidate(picks[p].needs, online[i], picks[p].counts) <==> i in able))
         && forall i, j :: i in able && j in able ==>
              Load(picks[p].counts, online[i].id) == Load(picks[p].counts, online[j].id)
  }

  ghost predicate DistinctNodes(online: seq<Node>) {
    forall i, j :: 0 <= i < j < |online| ==> online[i].id != online[j].id
  }

  lemma {:induction false} RunKeepsRecord(online: seq<Node>, cursors: seq<Cursor>, picks: seq<Pick>, p: nat)
    requires PickRun(online, cursors, picks) && WellRecorded(cursors[0]) && p <= |picks|
    ensures WellRecorded(cursors[p]) && cursors[p].round == cursors[0].round + p
  {
    if p > 0 {
      RunKeepsRecord(online, cursors, picks, p - 1);
      MarkKeepsRecord(cursors[p - 1], online[picks[p - 1].chosen].id);
    }
  }

  lemma {:induction false} PickIsRemembered(online: seq<Node>, cursors: seq<Cursor>, picks: seq<Pick>, a: nat, b: nat)
    requires PickRun(online, cursors, picks) && WellRecorded(cursors[0]) && a < b <= |picks|
    ensures LastPicked(cursors[b], online[picks[a].chosen].id) >= cursors[0].round + a
    decreases b
  {
    RunKeepsRecord(online, cursors, picks, b - 1);
    if a < b - 1 {
      PickIsRemembered(online, cursors, picks, a, b - 1);
    }
  }

  lemma {:induction false} RangeSize(s: set<int>, lo: int, hi: int)
    requires lo <= hi && forall x :: x in s ==> lo <= x < hi
    ensures |s| <= hi - lo
    decreases hi - lo
  {
    if lo == hi {
      assert forall x :: x !in s;
      assert s == {};
    } else {
      RangeSize(s - {hi - 1}, lo, hi - 1);
    }
  }

  lemma {:induction false} ImageSize(s: set<nat>, online: seq<Node>, c: Cursor) returns (rounds: set<int>)
    requires DistinctNodes(online) && WellRecorded(c)
    requires forall i :: i in s ==> i < |online| && online[i].id in c.last
    ensures |rounds| == |s|
    ensures forall r :: r in rounds <==> exists i :: i in s && c.last[online[i].id] == r
  {
    if s == {} {
      rounds := {};
    } else {
      var i :| i in s;
      var rest := ImageSize(s - {i}, online, c);
      rounds := rest + {c.last[online[i].id]};
    }
  }

  /** Round-robin: among k tied candidates, k consecutive picks choose k different nodes. */
  lemma {:induction false} TiedPicksRotate(online: seq<Node>, able: set<nat>, cursors: seq<Cursor>, picks: seq<Pick>, a: nat, b: nat)
    requires DistinctNodes(online) && PickRun(online, cursors, picks) && Tied(online, able, picks)
    requires WellRecorded(cursors[0]) && a < b < |picks| && picks[a].chosen == picks[b].chosen
    ensures b - a >= |able|
  {
    var n, c := picks[b].chosen, cursors[b];
    RunKeepsRecord(online, cursors, picks, b);
    PickIsRemembered(online, cursors, picks, a, b);
    assert Candidate(picks[b].needs, online[n], picks[b].counts);
    var others := able - {n};
    forall i | i in others ensures online[i].id in c.last && c.last[online[i].id] > cursors[0].round + a {
      assert Candidate(picks[b].needs, online[i], picks[b].counts);
    }
    var rounds := ImageSize(others, online, c);
    RangeSize(rounds, cursors[0].round + a + 1, c.round);
  }

  ghost function Chosen(picks: seq<Pick>, a: nat, m: nat): set<nat>
    requires a + m <= |picks|
  {
    if m == 0 then {} else Chosen(picks, a, m - 1) + {picks[a + m - 1].chosen}
  }

  lemma {:induction false} ChosenMembers(picks: seq<Pick>, a: nat, m: nat)
    requires a + m <= |picks|
    ensures forall i :: i in Chosen(picks, a, m) <==> exists p :: a <= p < a + m && picks[p].chosen == i
  {
    if m > 0 {
      ChosenMembers(picks, a, m - 1);
    }
  }

  lemma {:induction false} ChosenIsAble(online: seq<Node>, able: set<nat>, cursors: seq<Cursor>, picks: seq<Pick>, p: nat)
    requires PickRun(online, cursors, picks) && Tied(online, able, picks) && p < |picks|
    ensures picks[p].chosen in able
  {
  }

  lemma {:induction false} WindowSize(online: seq<Node>, able: set<nat>, cursors: seq<Cursor>, picks: seq<Pick>, a: nat, m: nat)
    requires DistinctNodes(online) && PickRun(online, cursors, picks) && Tied(online, able, picks)
    requires WellRecorded(cursors[0]) && a + m <= |picks| && m <= |able|
    ensures |Chosen(picks, a, m)| == m && Chosen(picks, a, m) <= able
  {
    hide PickRun, Tied, WellRecorded, DistinctNodes;
    if m > 0 {
      WindowSize(online, able, cursors, picks, a, m - 1);
      ChosenMembers(picks, a, m - 1);
      var b := a + m - 1;
      ChosenIsAble(online, able, cursors, picks, b);
      if picks[b].chosen in Chosen(picks, a, m - 1) {
        var p :| a <= p < b && picks[p].chosen == picks[b].chosen;
        TiedPicksRotate(online, able, cursors, picks, p, b);
        assert false;
      }
    }
  }

  lemma {:induction false} FullSubset(s: set<nat>, t: set<nat>)
    requires s <= t && |s| == |t|
    ensures s == t
  {
    if x :| x in t && x !in s {
      assert s <= t - {x};
      SubsetSize(s, t - {x});
      assert false;
    }
  }

  /** ... so any k consecutive picks serve every candidate exactly once. */
  lemma {:induction false} EveryCandidateServed(online: seq<Node>, able: set<nat>, cursors: seq<Cursor>, picks: seq<Pick>, a: nat)
    requires DistinctNodes(online) && PickRun(online, cursors, picks) && Tied(online, able, picks)
    requires WellRecorded(cursors[0]) && a + |able| <= |picks|
    ensures Chosen(picks, a, |able|) == able
  {
    WindowSize(online, able, cursors, picks, a, |able|);
    FullSubset(Chosen(picks, a, |able|), able);
  }
}
