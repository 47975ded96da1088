/** The release-drift alarm: which polls raise an alert, over every sequence of polls. */
module Drift {
  import opened Ids

  /** One poll: whether the deployed pin differs from the main head, by how many commits, and
      whether an open release has been acknowledged for this head. */
  datatype Poll = Poll(drifted: bool, head: string, commits: int, inFlight: bool, now: int)

  datatype Config = Config(grace: int, maxAge: int, commitThreshold: int)

  datatype Reason = Commits | MaxAge | Grace | Stalled

  datatype Key = Key(head: string, reason: Reason)

  datatype Memory = Memory(firstSeen: Option<int>, head: Option<string>, cycles: nat, lastKey: Option<Key>)

  const Blank: Memory := Memory(None, None, 0, None)

  /** The bookkeeping tests the time stamp for truth, so a stamp of zero counts as unset. */
  function FirstSeen(m: Memory, now: int): int {
    if m.firstSeen.None? || m.firstSeen.value == 0 then now else m.firstSeen.value
  }

  /** Why a drifted poll of this age calls for an alert, if it does. */
  function Due(p: Poll, age: int, cfg: Config): Option<Reason> {
    if p.inFlight then (if age >= 3 * cfg.maxAge then Some(Stalled) else None)
    else if p.commits > cfg.commitThreshold then Some(Commits)
    else if age >= cfg.maxAge then Some(MaxAge)
    else if age >= cfg.grace then Some(Grace)
    else None
  }

  /** The bookkeeping and the alert after one poll. */
  function Evaluated(m: Memory, p: Poll, cfg: Config): (Memory, Option<Key>) {
    if !p.drifted then (Blank, None)
    else
      var first := FirstSeen(m, p.now);
      var lastKey := if m.head == Some(p.head) then m.lastKey else None;
      var seen := Memory(Some(first), Some(p.head), m.cycles + 1, lastKey);
      match Due(p, p.now - first, cfg)
      case None => (seen, None)
      case Some(reason) =>
        var key := Key(p.head, reason);
        if lastKey == Some(key) then (seen, None) else (seen.(lastKey := Some(key)), Some(key))
  }

  class Watch {
    var firstSeen: Option<int>
    var head: Option<string>
    var cycles: nat
    var lastKey: Option<Key>

    ghost function View(): Memory
      reads this
    {
      Memory(firstSeen, head, cycles, lastKey)
    }

    constructor ()
      ensures View() == Blank
    {
      firstSeen, head, cycles, lastKey := None, None, 0, None;
    }

    /** Decide this poll's alert, updating the bookkeeping in place. */
    method Evaluate(p: Poll, cfg: Config) returns (alert: Option<Key>)
      modifies this
      ensures (View(), alert) == Evaluated(old(View()), p, cfg)
    {
      if !p.drifted {
        firstSeen, cycles, head, lastKey := None, 0, None, None;
        return None;
      }
      if firstSeen.None? || firstSeen.value == 0 {
        firstSeen := Some(p.now);
      }
      if head != Some(p.head) {
        head := Some(p.head);
        lastKey := None;
      }
      cycles := cycles + 1;
      var age := p.now - firstSeen.value;
      var reason: Reason;
      if p.inFlight {
        if age < 3 * cfg.maxAge {
          return None;
        }
        reason := Stalled;
      } else if p.commits > cfg.commitThreshold {
        reason := Commits;
      } else if age >= cfg.maxAge {
        reason := MaxAge;
      } else if age >= cfg.grace {
        reason := Grace;
      } else {
        return None;
      }
      var key := Key(p.head, reason);
      if lastKey == Some(key) {
        return None;
      }
      lastKey := Some(key);
      return lastKey;
    }
  }

  // ------------------------------------------------------------- all the polls

  function MemoryAfter(ps: seq<Poll>, cfg: Config): Memory {
    if ps == [] then Blank else Evaluated(MemoryAfter(ps[..|ps| - 1], cfg), ps[|ps| - 1], cfg).0
  }

  function AlertAt(ps: seq<Poll>, i: nat, cfg: Config): Option<Key>
    requires i < |ps|
  {
    Evaluated(MemoryAfter(ps[..i], cfg), ps[i], cfg).1
  }

  lemma {:induction false} Prefixes(ps: seq<Poll>, n: nat, cfg: Config)
    requires n < |ps|
    ensures MemoryAfter(ps[..n + 1], cfg) == Evaluated(MemoryAfter(ps[..n], cfg), ps[n], cfg).0
  {
    assert ps[..n + 1][..n] == ps[..n];
  }

  ghost predicate DriftedFrom(ps: seq<Poll>, s: nat, n: nat) {
    s < n <= |ps| && (forall i :: s <= i < n ==> ps[i].drifted) && (s == 0 || !ps[s - 1].drifted)
  }

  lemma {:induction false} BlankBefore(ps: seq<Poll>, s: nat, cfg: Config)
    requires s <= |ps| && (s == 0 || !ps[s - 1].drifted)
    ensures MemoryAfter(ps[..s], cfg) == Blank
  {
  }

  /** The age basis is the clock of the streak's first poll, however often the head changes:
      exactly unless that clock read zero and a later one in the streak did not. */
  lemma {:induction false} AgeBasis(ps: seq<Poll>, s: nat, n: nat, cfg: Config)
    requires DriftedFrom(ps, s, n)
    ensures MemoryAfter(ps[..n], cfg).firstSeen == Some(ps[s].now)
            <==> ps[s].now != 0 || forall i :: s <= i < n ==> ps[i].now == 0
    ensures MemoryAfter(ps[..n], cfg).firstSeen.Some?
    ensures MemoryAfter(ps[..n], cfg).firstSeen == Some(0) ==> forall i :: s <= i < n ==> ps[i].now == 0
  {
    Prefixes(ps, n - 1, cfg);
    if n == s + 1 {
      BlankBefore(ps, s, cfg);
    } else {
      AgeBasis(ps, s, n - 1, cfg);
    }
  }

  /** With a clock that starts at zero the basis moves. */
  lemma {:induction false} ZeroClockMovesBasis(cfg: Config)
    ensures var ps := [Poll(true, "h", 1, false, 0), Poll(true, "h", 1, false, 900)];
            MemoryAfter(ps, cfg).firstSeen == Some(900)
  {
    var ps := [Poll(true, "h", 1, false, 0), Poll(true, "h", 1, false, 900)];
    assert ps[..2] == ps;
    Prefixes(ps, 0, cfg);
    Prefixes(ps, 1, cfg);
  }

  // ------------------------------------------------------------ no silent drift

  /** Every poll from `j` on is drifted on this head, and poll `j` raised this alert. */
  ghost predicate AlertedSince(ps: seq<Poll>, j: nat, n: nat, key: Key, cfg: Config) {
    && j < n <= |ps| && AlertAt(ps, j, cfg) == Some(key)
    && forall i :: j <= i < n ==> ps[i].drifted && ps[i].head == key.head
  }

  ghost predicate Raised(ps: seq<Poll>, n: nat, key: Key, cfg: Config) {
    exists j :: AlertedSince(ps, j, n, key, cfg)
  }

  ghost predicate RaisedFor(ps: seq<Poll>, n: nat, head: string, cfg: Config) {
    exists reason :: Raised(ps, n, Key(head, reason), cfg)
  }

  /** A raised alert still stands after another poll of its head. */
  lemma {:induction false} StillRaised(ps: seq<Poll>, n: nat, key: Key, cfg: Config)
    requires n < |ps| && Raised(ps, n, key, cfg) && ps[n].drifted && ps[n].head == key.head
    ensures Raised(ps, n + 1, key, cfg)
  {
    hide AlertAt;
    var j :| AlertedSince(ps, j, n, key, cfg);
    assert AlertedSince(ps, j, n + 1, key, cfg);
  }

  lemma {:induction false} NowRaised(ps: seq<Poll>, n: nat, key: Key, cfg: Config)
    requires n < |ps| && ps[n].drifted && ps[n].head == key.head && AlertAt(ps, n, cfg) == Some(key)
    ensures Raised(ps, n + 1, key, cfg)
  {
    hide AlertAt;
    assert AlertedSince(ps, n, n + 1, key, cfg);
  }

  /** The remembered key is one that was raised, with this head ever since. */
  lemma {:induction false} RememberedWasRaised(ps: seq<Poll>, n: nat, cfg: Config)
    requires n <= |ps|
    ensures var m := MemoryAfter(ps[..n], cfg);
            m.lastKey.Some? ==> Raised(ps, n, m.lastKey.value, cfg) && m.head == Some(m.lastKey.value.head)
  {
    hide Raised;
    if n > 0 {
      var after := MemoryAfter(ps[..n], cfg);
      Prefixes(ps, n - 1, cfg);
      RememberedWasRaised(ps, n - 1, cfg);
      if after.lastKey.Some? {
        if AlertAt(ps, n - 1, cfg).Some? {
          NowRaised(ps, n - 1, after.lastKey.value, cfg);
        } else {
          StillRaised(ps, n - 1, after.lastKey.value, cfg);
        }
      }
    }
  }

  ghost function Age(ps: seq<Poll>, n: nat, cfg: Config): int
    requires n < |ps|
  {
    ps[n].now - FirstSeen(MemoryAfter(ps[..n], cfg), ps[n].now)
  }

  /** A drifted poll that calls for an alert has it: raised then, or earlier for the same head and
      reason with nothing but this head's drift since.  One that calls for none raises none. */
  lemma {:induction false} DueIsRaised(ps: seq<Poll>, n: nat, cfg: Config)
    requires n < |ps| && ps[n].drifted
    ensures Due(ps[n], Age(ps, n, cfg), cfg).Some? ==>
              Raised(ps, n + 1, Key(ps[n].head, Due(ps[n], Age(ps, n, cfg), cfg).value), cfg)
    ensures Due(ps[n], Age(ps, n, cfg), cfg).None? ==> AlertAt(ps, n, cfg).None?
  {
    var due := Due(ps[n], Age(ps, n, cfg), cfg);
    if due.Some? {
      var key := Key(ps[n].head, due.value);
      if AlertAt(ps, n, cfg).Some? {
        NowRaised(ps, n, key, cfg);
      } else {
        RememberedWasRaised(ps, n, cfg);
        StillRaised(ps, n, key, cfg);
      }
    }
  }

  ghost predicate PositiveClock(ps: seq<Poll>) {
    forall i :: 0 <= i < |ps| ==> ps[i].now > 0
  }

  /** No silent drift: an unacknowledged drifted poll past the shorter window, counted from the
      first poll of its streak, or above the commit threshold, has an alert for its head. */
  lemma {:induction false} NoSilentDrift(ps: seq<Poll>, s: nat, n: nat, cfg: Config)
    requires PositiveClock(ps) && n < |ps| && DriftedFrom(ps, s, n + 1) && !ps[n].inFlight
    requires ps[n].commits > cfg.commitThreshold || ps[n].now - ps[s].now >= cfg.grace || ps[n].now - ps[s].now >= cfg.maxAge
    ensures RaisedFor(ps, n + 1, ps[n].head, cfg)
  {
    AgeIs(ps, s, n, cfg);
    DueIsRaised(ps, n, cfg);
    assert Raised(ps, n + 1, Key(ps[n].head, Due(ps[n], Age(ps, n, cfg), cfg).value), cfg);
  }

  /** Which alert that is.  More commits than the threshold: the commit alert, at any age.  Otherwise
      from the maximum age on the escalation, before that from the grace period on the first warning,
      and before both none. */
  lemma {:induction false} RaisedForReason(ps: seq<Poll>, s: nat, n: nat, cfg: Config)
    requires PositiveClock(ps) && n < |ps| && DriftedFrom(ps, s, n + 1) && !ps[n].inFlight
    ensures var age, few := ps[n].now - ps[s].now, ps[n].commits <= cfg.commitThreshold;
            && (!few ==> Raised(ps, n + 1, Key(ps[n].head, Commits), cfg))
            && (few && age >= cfg.maxAge ==> Raised(ps, n + 1, Key(ps[n].head, MaxAge), cfg))
            && (few && cfg.grace <= age < cfg.maxAge ==> Raised(ps, n + 1, Key(ps[n].head, Grace), cfg))
            && (few && age < cfg.grace && age < cfg.maxAge ==> AlertAt(ps, n, cfg).None?)
    ensures AlertAt(ps, n, cfg).Some? ==>
            var age, few, reason := ps[n].now - ps[s].now, ps[n].commits <= cfg.commitThreshold, AlertAt(ps, n, cfg).value.reason;
            && AlertAt(ps, n, cfg).value.head == ps[n].head
            && (reason == Commits <==> !few) && (reason == MaxAge <==> few && age >= cfg.maxAge)
            && (reason == Grace <==> few && cfg.grace <= age < cfg.maxAge)
  {
    hide Raised;
    AgeIs(ps, s, n, cfg);
    DueIsRaised(ps, n, cfg);
  }

  /** The cycle count is the length of the streak. */
  lemma {:induction false} CyclesAreStreak(ps: seq<Poll>, s: nat, n: nat, cfg: Config)
    requires DriftedFrom(ps, s, n)
    ensures MemoryAfter(ps[..n], cfg).cycles == n - s
  {
    Prefixes(ps, n - 1, cfg);
    if n == s + 1 {
      BlankBefore(ps, s, cfg);
    } else {
      CyclesAreStreak(ps, s, n - 1, cfg);
    }
  }

  lemma {:induction false} AgeIs(ps: seq<Poll>, s: nat, n: nat, cfg: Config)
    requires PositiveClock(ps) && n < |ps| && DriftedFrom(ps, s, n + 1)
    ensures Age(ps, n, cfg) == ps[n].now - ps[s].now
  {
    AgeBasis(ps, s, n + 1, cfg);
    Prefixes(ps, n, cfg);
  }

  /** An acknowledged release is silent exactly until three maximum ages have passed. */
  lemma {:induction false} AcknowledgedIsSilentUntilStalled(ps: seq<Poll>, s: nat, n: nat, cfg: Config)
    requires PositiveClock(ps) && n < |ps| && DriftedFrom(ps, s, n + 1) && ps[n].inFlight
    ensures ps[n].now - ps[s].now < 3 * cfg.maxAge ==> AlertAt(ps, n, cfg).None?
    ensures ps[n].now - ps[s].now >= 3 * cfg.maxAge ==> Raised(ps, n + 1, Key(ps[n].head, Stalled), cfg)
  {
    AgeIs(ps, s, n, cfg);
    DueIsRaised(ps, n, cfg);
  }

  // ------------------------------------------------------------- bounded alerts

  ghost function Alerts(ps: seq<Poll>, a: nat, n: nat, cfg: Config): nat
    requires a <= n <= |ps|
  {
    if n == a then 0 else Alerts(ps, a, n - 1, cfg) + if AlertAt(ps, n - 1, cfg).Some? then 1 else 0
  }

  /** One drifted head, one commit count, nothing acknowledged, and time not running backwards. */
  ghost predicate Steady(ps: seq<Poll>, a: nat, n: nat) {
    && a < n <= |ps|
    && (forall i :: a <= i < n ==>
          ps[i].drifted && ps[i].head == ps[a].head && ps[i].commits == ps[a].commits && !ps[i].inFlight)
    && (forall i, j :: a <= i <= j < n ==> ps[i].now <= ps[j].now)
  }

  ghost function Rank(r: Option<Reason>): nat {
    match r
    case None => 0
    case Some(Commits) => 1
    case Some(Grace) => 1
    case Some(MaxAge) => 2
    case Some(Stalled) => 1
  }

  /** After poll `p` of a steady stretch, `count` alerts never outnumber the urgency reached. */
  ghost predicate Ranked(m: Memory, p: Poll, count: nat, cfg: Config) {
    && m.firstSeen.Some? && m.firstSeen.value > 0 && m.head == Some(p.head)
    && var due := Due(p, p.now - m.firstSeen.value, cfg);
       count <= Rank(due) && (due.Some? ==> m.lastKey == Some(Key(p.head, due.value)))
  }

  lemma {:induction false} RankStarts(m: Memory, p: Poll, cfg: Config)
    requires m.firstSeen.Some? ==> m.firstSeen.value > 0
    requires p.drifted && !p.inFlight && p.now > 0
    ensures Ranked(Evaluated(m, p, cfg).0, p, if Evaluated(m, p, cfg).1.Some? then 1 else 0, cfg)
  {
  }

  lemma {:induction false} RankStep(m: Memory, p: Poll, q: Poll, count: nat, cfg: Config)
    requires Ranked(m, p, count, cfg) && !p.inFlight && q == p.(now := q.now) && q.drifted && p.now <= q.now
    ensures Ranked(Evaluated(m, q, cfg).0, q, count + if Evaluated(m, q, cfg).1.Some? then 1 else 0, cfg)
  {
  }

  lemma {:induction false} AlertsRanked(ps: seq<Poll>, a: nat, n: nat, cfg: Config)
    requires PositiveClock(ps) && Steady(ps, a, n)
    ensures Ranked(MemoryAfter(ps[..n], cfg), ps[n - 1], Alerts(ps, a, n, cfg), cfg)
  {
    hide Ranked, Evaluated, MemoryAfter;
    Prefixes(ps, n - 1, cfg);
    if n == a + 1 {
      FirstSeenPositive(ps, a, cfg);
      RankStarts(MemoryAfter(ps[..a], cfg), ps[a], cfg);
      assert Alerts(ps, a, a, cfg) == 0;
    } else {
      AlertsRanked(ps, a, n - 1, cfg);
      RankStep(MemoryAfter(ps[..n - 1], cfg), ps[n - 2], ps[n - 1], Alerts(ps, a, n - 1, cfg), cfg);
    }
  }

  lemma {:induction false} FirstSeenPositive(ps: seq<Poll>, n: nat, cfg: Config)
    requires PositiveClock(ps) && n <= |ps|
    ensures MemoryAfter(ps[..n], cfg).firstSeen.Some? ==> MemoryAfter(ps[..n], cfg).firstSeen.value > 0
  {
    if n > 0 {
      Prefixes(ps, n - 1, cfg);
      FirstSeenPositive(ps, n - 1, cfg);
    }
  }

  /** A steady stretch raises at most two alerts. */
  lemma {:induction false} AtMostTwoAlerts(ps: seq<Poll>, a: nat, n: nat, cfg: Config)
    requires PositiveClock(ps) && Steady(ps, a, n)
    ensures Alerts(ps, a, n, cfg) <= 2
  {
    AlertsRanked(ps, a, n, cfg);
  }

  /** Above the commit threshold a steady stretch raises one alert, on its first poll, exactly when the
      key remembered at its start is not already this head's; otherwise none. */
  lemma {:induction false} OneAlertExactly(ps: seq<Poll>, a: nat, n: nat, cfg: Config)
    requires Steady(ps, a, n) && ps[a].commits > cfg.commitThreshold
    ensures var key := Key(ps[a].head, Commits);
            var remembered := MemoryAfter(ps[..a], cfg).lastKey == Some(key);
            && Alerts(ps, a, n, cfg) == (if remembered then 0 else 1)
            && AlertAt(ps, a, cfg) == (if remembered then None else Some(key))
            && MemoryAfter(ps[..n], cfg).head == Some(ps[a].head) && MemoryAfter(ps[..n], cfg).lastKey == Some(key)
  {
    hide Evaluated, MemoryAfter;
    Prefixes(ps, n - 1, cfg);
    CommitsPoll(MemoryAfter(ps[..n - 1], cfg), ps[n - 1], cfg);
    if n == a + 1 {
      RememberedWasRaised(ps, a, cfg);
      assert Alerts(ps, a, a, cfg) == 0;
    } else {
      OneAlertExactly(ps, a, n - 1, cfg);
    }
  }

  lemma {:induction false} CommitsPoll(m: Memory, p: Poll, cfg: Config)
    requires p.drifted && !p.inFlight && p.commits > cfg.commitThreshold
    ensures var key := Some(Key(p.head, Commits));
            var (m', alert) := Evaluated(m, p, cfg);
            && m'.head == Some(p.head) && m'.lastKey == key
            && alert == if m.head == Some(p.head) && m.lastKey == key then None else key
  {
  }

  /** So a stretch that opens on a fresh head raises exactly one. */
  lemma {:induction false} ExactlyOneAlert(ps: seq<Poll>, a: nat, n: nat, cfg: Config)
    requires Steady(ps, a, n) && ps[a].commits > cfg.commitThreshold
    requires a == 0 || !ps[a - 1].drifted || ps[a - 1].head != ps[a].head
    ensures Alerts(ps, a, n, cfg) == 1 && AlertAt(ps, a, cfg) == Some(Key(ps[a].head, Commits))
  {
    OneAlertExactly(ps, a, n, cfg);
    RememberedWasRaised(ps, a, cfg);
    if a > 0 {
      Prefixes(ps, a - 1, cfg);
    }
  }

  // --------------------------------------------------------------- escalation

  ghost predicate InGrace(ps: seq<Poll>, s: nat, i: int, cfg: Config) {
    s <= i < |ps| && cfg.grace <= ps[i].now - ps[s].now < cfg.maxAge
  }

  ghost predicate Overdue(ps: seq<Poll>, s: nat, i: int, cfg: Config) {
    s <= i < |ps| && ps[i].now - ps[s].now >= cfg.maxAge
  }

  ghost predicate PolledInGrace(ps: seq<Poll>, s: nat, a: nat, n: nat, cfg: Config) {
    exists i :: a <= i < n && InGrace(ps, s, i, cfg)
  }

  ghost predicate PolledOverdue(ps: seq<Poll>, s: nat, a: nat, n: nat, cfg: Config) {
    exists i :: a <= i < n && Overdue(ps, s, i, cfg)
  }

  /** Each window is entered once: a poll is the first in it exactly when the poll before was not in it. */
  lemma {:induction false} EnteredOnce(ps: seq<Poll>, s: nat, a: nat, n: nat, cfg: Config)
    requires Steady(ps, a, n) && s <= a && n >= a + 2
    ensures PolledInGrace(ps, s, a, n, cfg) <==> PolledInGrace(ps, s, a, n - 1, cfg) || InGrace(ps, s, n - 1, cfg)
    ensures PolledOverdue(ps, s, a, n, cfg) <==> PolledOverdue(ps, s, a, n - 1, cfg) || Overdue(ps, s, n - 1, cfg)
    ensures InGrace(ps, s, n - 1, cfg) ==> (PolledInGrace(ps, s, a, n - 1, cfg) <==> InGrace(ps, s, n - 2, cfg)) && !Overdue(ps, s, n - 2, cfg)
    ensures Overdue(ps, s, n - 1, cfg) ==> (PolledOverdue(ps, s, a, n - 1, cfg) <==> Overdue(ps, s, n - 2, cfg))
    ensures Overdue(ps, s, n - 2, cfg) ==> Overdue(ps, s, n - 1, cfg)
  {
  }

  /** What is remembered at the end of such a stretch. */
  ghost predicate Told(m: Memory, p: Poll, cfg: Config) {
    && m.firstSeen.Some? && m.firstSeen.value > 0 && m.head == Some(p.head)
    && m.lastKey == match Due(p, p.now - m.firstSeen.value, cfg) case None => None case Some(r) => Some(Key(p.head, r))
  }

  lemma {:induction false} TellsFirst(m: Memory, p: Poll, cfg: Config)
    requires (m.firstSeen.Some? ==> m.firstSeen.value > 0) && m.head != Some(p.head) && p.drifted && p.now > 0
    ensures var (m', alert) := Evaluated(m, p, cfg);
            Told(m', p, cfg) && (alert.Some? <==> Due(p, p.now - FirstSeen(m, p.now), cfg).Some?)
  {
  }

  lemma {:induction false} TellsNext(m: Memory, p: Poll, q: Poll, cfg: Config)
    requires Told(m, p, cfg) && !p.inFlight && q == p.(now := q.now) && q.drifted && p.now <= q.now && p.commits <= cfg.commitThreshold
    ensures var (m', alert) := Evaluated(m, q, cfg);
            var was, now := Due(p, p.now - m.firstSeen.value, cfg), Due(q, q.now - m.firstSeen.value, cfg);
            Told(m', q, cfg) && (alert.Some? <==> now.Some? && now != was)
  {
  }

  /** A steady stretch on a fresh head with few commits raises exactly one warning if it is polled in its
      grace window and exactly one escalation if it is polled past its maximum age. */
  lemma {:induction false} EscalatesExactly(ps: seq<Poll>, s: nat, a: nat, n: nat, cfg: Config)
    requires PositiveClock(ps) && Steady(ps, a, n) && s <= a && DriftedFrom(ps, s, n) && ps[a].commits <= cfg.commitThreshold
    requires a == s || ps[a - 1].head != ps[a].head
    ensures Alerts(ps, a, n, cfg) == (if PolledInGrace(ps, s, a, n, cfg) then 1 else 0) + (if PolledOverdue(ps, s, a, n, cfg) then 1 else 0)
    ensures Told(MemoryAfter(ps[..n], cfg), ps[n - 1], cfg)
  {
    hide Evaluated, MemoryAfter, FirstSeen, PolledInGrace, PolledOverdue;
    var m := MemoryAfter(ps[..n - 1], cfg);
    Prefixes(ps, n - 1, cfg);
    AgeIs(ps, s, n - 1, cfg);
    if n == a + 1 {
      FreshHead(ps, s, a, cfg);
      TellsFirst(m, ps[a], cfg);
      assert Alerts(ps, a, a, cfg) == 0;
      FirstPolled(ps, s, a, cfg);
    } else {
      EscalatesExactly(ps, s, a, n - 1, cfg);
      TellsNext(m, ps[n - 2], ps[n - 1], cfg);
      BasisKept(ps, s, n - 1, cfg);
      EnteredOnce(ps, s, a, n, cfg);
      assert InGrace(ps, s, n - 2, cfg) <==> Due(ps[n - 2], ps[n - 2].now - ps[s].now, cfg) == Some(Grace);
      assert InGrace(ps, s, n - 1, cfg) <==> Due(ps[n - 1], ps[n - 1].now - ps[s].now, cfg) == Some(Grace);
      assert Overdue(ps, s, n - 2, cfg) <==> Due(ps[n - 2], ps[n - 2].now - ps[s].now, cfg) == Some(MaxAge);
      assert Overdue(ps, s, n - 1, cfg) <==> Due(ps[n - 1], ps[n - 1].now - ps[s].now, cfg) == Some(MaxAge);
    }
  }

  lemma {:induction false} FirstPolled(ps: seq<Poll>, s: nat, a: nat, cfg: Config)
    requires s <= a < |ps|
    ensures PolledInGrace(ps, s, a, a + 1, cfg) <==> InGrace(ps, s, a, cfg)
    ensures PolledOverdue(ps, s, a, a + 1, cfg) <==> Overdue(ps, s, a, cfg)
  {
  }

  lemma {:induction false} BasisKept(ps: seq<Poll>, s: nat, n: nat, cfg: Config)
    requires PositiveClock(ps) && DriftedFrom(ps, s, n)
    ensures MemoryAfter(ps[..n], cfg).firstSeen == Some(ps[s].now)
  {
    AgeBasis(ps, s, n, cfg);
  }

  lemma {:induction false} FreshHead(ps: seq<Poll>, s: nat, a: nat, cfg: Config)
    requires PositiveClock(ps) && s <= a && DriftedFrom(ps, s, a + 1) && (a == s || ps[a - 1].head != ps[a].head)
    ensures var m := MemoryAfter(ps[..a], cfg); m.head != Some(ps[a].head) && (m.firstSeen.Some? ==> m.firstSeen.value > 0)
  {
    FirstSeenPositive(ps, a, cfg);
    if a == s {
      BlankBefore(ps, s, cfg);
    } else {
      Prefixes(ps, a - 1, cfg);
    }
  }
}
