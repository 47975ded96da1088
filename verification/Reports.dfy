/** The retry queue for terminal reports that the main node did not take.

    A report is keyed by verb and task.  `StatusOf` reads a whole history of posts and says,
    without looking at the queue, whether a report is still owed; the class is proved to hold
    exactly the owed reports. */
module Reports {
  import opened Ids
  import opened LaneProtocol

  datatype Entry = Entry(payload: string, attempts: nat, nextAt: real)

  const MAX_ATTEMPTS: nat := 100
  const BACKOFF_BASE: real := 0.5
  const BACKOFF_CAP: real := 60.0

  /** Gap before the next post once `attempts` posts have failed. */
  function RetryGap(attempts: nat): (gap: real)
    ensures 0.0 < gap <= BACKOFF_CAP
  {
    var wide := BACKOFF_BASE * if attempts == 0 then 1.0 else Pow2(attempts - 1);
    if wide <= BACKOFF_CAP then wide else BACKOFF_CAP
  }

  /** Half a second after the first failure, then twice the last gap each time, up to a minute. */
  lemma {:induction false} RetryGapDoubles(failures: nat)
    requires failures >= 1
    ensures RetryGap(1) == 0.5
    ensures RetryGap(failures + 1) == if 2.0 * RetryGap(failures) <= 60.0 then 2.0 * RetryGap(failures) else 60.0
  {
    assert Pow2(failures) == 2.0 * Pow2(failures - 1);
  }

  // ------------------------------------------------------- a history of posts

  datatype Post =
    | Submitted(key: Key, payload: string, ok: bool, at: real)
    | Retried(key: Key, ok: bool, at: real)

  datatype Posts = NoPosts | Then(past: Posts, post: Post)

  datatype Status = Settled | Owed(payload: string, failures: nat, lastTry: real)

  /** One post's effect on one report.  A successful first post leaves an older owed report alone. */
  ghost function AfterPost(before: Status, p: Post, key: Key): Status {
    if p.key != key then before
    else if p.Submitted? then
      if p.ok then before else Owed(p.payload, 1, p.at)
    else if before.Settled? || p.ok || before.failures + 1 >= MAX_ATTEMPTS then Settled
    else Owed(before.payload, before.failures + 1, p.at)
  }

  ghost function StatusOf(h: Posts, key: Key): Status {
    match h
    case NoPosts => Settled
    case Then(past, p) => AfterPost(StatusOf(past, key), p, key)
  }

  ghost predicate Extends(h: Posts, base: Posts) {
    h == base || (h.Then? && Extends(h.past, base))
  }

  ghost function Count(h: Posts): nat {
    if h.NoPosts? then 0 else Count(h.past) + 1
  }

  lemma {:induction false} ExtensionIsNoShorter(h: Posts, base: Posts)
    requires Extends(h, base)
    ensures Count(h) >= Count(base)
  {
    if h != base {
      ExtensionIsNoShorter(h.past, base);
    }
  }

  /** A post that settles or replaces what is owed under the key. */
  ghost predicate Disturbs(p: Post, key: Key) {
    p.key == key && (p.Retried? <==> p.ok)
  }

  ghost predicate UndisturbedSince(h: Posts, base: Posts, key: Key)
    requires Extends(h, base)
  {
    h == base || (!Disturbs(h.post, key) && UndisturbedSince(h.past, base, key))
  }

  ghost function RetriesSince(h: Posts, base: Posts, key: Key): nat
    requires Extends(h, base)
  {
    if h == base then 0
    else RetriesSince(h.past, base, key) + if h.post.Retried? && h.post.key == key then 1 else 0
  }

  /** An owed report stays owed, payload unchanged, until it is delivered, replaced, or its
      hundredth post fails; at that post, and not before, it is given up. */
  lemma {:induction false} OwedUntilDeliveredReplacedOrAbandoned(h: Posts, base: Posts, key: Key)
    requires Extends(h, base) && UndisturbedSince(h, base, key)
    requires StatusOf(base, key).Owed? && 1 <= StatusOf(base, key).failures < 100
    ensures var owed, failed := StatusOf(base, key), StatusOf(base, key).failures + RetriesSince(h, base, key);
            if failed < 100
            then StatusOf(h, key).Owed? && StatusOf(h, key).payload == owed.payload
                 && StatusOf(h, key).failures == failed
            else StatusOf(h, key).Settled?
  {
    if h != base {
      OwedUntilDeliveredReplacedOrAbandoned(h.past, base, key);
    }
  }

  // ------------------------------------------------------- the fate of a report

  /** The reports submitted, in order. */
  ghost function Submissions(h: Posts): seq<Key> {
    match h
    case NoPosts => []
    case Then(past, p) => Submissions(past) + if p.Submitted? then [p.key] else []
  }

  ghost predicate DeliveredSince(h: Posts, base: Posts, key: Key)
    requires Extends(h, base)
  {
    h != base && ((h.post.Retried? && h.post.key == key && h.post.ok) || DeliveredSince(h.past, base, key))
  }

  /** A newer report for the same verb and task failed to get through and took its place. */
  ghost predicate ReplacedSince(h: Posts, base: Posts, key: Key)
    requires Extends(h, base)
  {
    h != base && ((h.post.Submitted? && h.post.key == key && !h.post.ok) || ReplacedSince(h.past, base, key))
  }

  lemma {:induction false} DisturbedMeans(h: Posts, base: Posts, key: Key)
    requires Extends(h, base)
    ensures UndisturbedSince(h, base, key) <==> !DeliveredSince(h, base, key) && !ReplacedSince(h, base, key)
  {
    if h != base {
      DisturbedMeans(h.past, base, key);
    }
  }

  /** What has become of the report whose submission ends `base`: it got through at once or on a
      retry, a newer one took its place, its hundredth post failed, or it is still owed as it was. */
  ghost predicate Fate(h: Posts, base: Posts) {
    && Extends(h, base) && base.Then? && base.post.Submitted?
    && (|| base.post.ok
        || DeliveredSince(h, base, base.post.key)
        || ReplacedSince(h, base, base.post.key)
        || 1 + RetriesSince(h, base, base.post.key) >= 100
        || (StatusOf(h, base.post.key).Owed? && StatusOf(h, base.post.key).payload == base.post.payload
            && StatusOf(h, base.post.key).failures == 1 + RetriesSince(h, base, base.post.key)))
  }

  lemma {:induction false} EveryReportHasAFate(h: Posts, base: Posts)
    requires Extends(h, base) && base.Then? && base.post.Submitted?
    ensures Fate(h, base)
  {
    var key := base.post.key;
    DisturbedMeans(h, base, key);
    if !base.post.ok && UndisturbedSince(h, base, key) {
      OwedUntilDeliveredReplacedOrAbandoned(h, base, key);
    }
  }

  /** A report that gets through at once leaves nothing owed exactly when nothing was owed before: an
      older one that failed stays in the retry queue, and its post will come last. */
  lemma {:induction false} SuccessSettlesExactly(h: Posts, key: Key, payload: string, at: real)
    ensures StatusOf(Then(h, Submitted(key, payload, true, at)), key).Settled? <==> StatusOf(h, key).Settled?
  {
  }

  /** Two submissions for one verb and task, the first lost and the second taken: the first is owed. */
  lemma {:induction false} StaleReportStays(key: Key, first: string, second: string, at: real, later: real)
    ensures var h := Then(Then(NoPosts, Submitted(key, first, false, at)), Submitted(key, second, true, later));
            StatusOf(h, key) == Owed(first, 1, at)
  {
    assert StatusOf(Then(NoPosts, Submitted(key, first, false, at)), key) == Owed(first, 1, at);
  }

  /** The history up to and including the n-th submission. */
  lemma {:induction false} SubmissionAt(h: Posts, n: nat) returns (base: Posts)
    requires n < |Submissions(h)|
    ensures Extends(h, base) && base.Then? && base.post.Submitted?
    ensures |Submissions(base)| == n + 1 && base.post.key == Submissions(h)[n]
  {
    if h.post.Submitted? && n == |Submissions(h)| - 1 {
      base := h;
    } else {
      base := SubmissionAt(h.past, n);
    }
  }

  // ------------------------------------------------------------- one poll cycle

  /** New reports only, all at one clock reading. */
  ghost predicate Submits(h: Posts, base: Posts, at: real) {
    h == base || (h.Then? && h.post.Submitted? && h.post.at == at && Submits(h.past, base, at))
  }

  ghost predicate DueAt(h: Posts, key: Key, now: real) {
    var s := StatusOf(h, key);
    s.Owed? && s.lastTry + RetryGap(s.failures) <= now
  }

  lemma {:induction false} SubmitsTransitive(h: Posts, mid: Posts, base: Posts, at: real)
    requires Submits(h, mid, at) && Submits(mid, base, at)
    ensures Submits(h, base, at)
  {
    if h != mid {
      SubmitsTransitive(h.past, mid, base, at);
    }
  }

  /** A stretch of submissions retries nothing, and what is due after it was due and not replaced. */
  lemma {:induction false} SubmitsStatus(h: Posts, base: Posts, key: Key, at: real)
    requires Submits(h, base, at)
    ensures Extends(h, base) && RetriesSince(h, base, key) == 0
    ensures if ReplacedSince(h, base, key)
            then StatusOf(h, key).Owed? && StatusOf(h, key).failures == 1 && StatusOf(h, key).lastTry == at
            else StatusOf(h, key) == StatusOf(base, key)
  {
    if h != base {
      SubmitsStatus(h.past, base, key, at);
    }
  }

  lemma {:induction false} ExtendsTransitive(h: Posts, mid: Posts, base: Posts, key: Key)
    requires Extends(h, mid) && Extends(mid, base)
    ensures Extends(h, base)
    ensures RetriesSince(h, base, key) == RetriesSince(h, mid, key) + RetriesSince(mid, base, key)
    ensures ReplacedSince(mid, base, key) ==> ReplacedSince(h, base, key)
  {
    if h != mid {
      ExtendsTransitive(h.past, mid, base, key);
      ExtensionIsNoShorter(h.past, mid);
      ExtensionIsNoShorter(mid, base);
    }
  }

  /** In a cycle every report due at its start is retried exactly once, unless a newer one took its
      place first; no other report is retried. */
  ghost predicate RetriedIfDue(h: Posts, base: Posts, key: Key, now: real)
    requires Extends(h, base)
  {
    && RetriesSince(h, base, key) <= 1
    && (RetriesSince(h, base, key) == 1 ==> DueAt(base, key, now))
    && (DueAt(base, key, now) ==> RetriesSince(h, base, key) == 1 || ReplacedSince(h, base, key))
  }

  lemma {:induction false} CycleRetries(base: Posts, reaped: Posts, drained: Posts, h: Posts, key: Key, now: real)
    requires Submits(reaped, base, now) && Extends(drained, reaped) && Submits(h, drained, now)
    requires RetriesSince(drained, reaped, key) == if DueAt(reaped, key, now) then 1 else 0
    ensures Extends(h, base) && RetriedIfDue(h, base, key, now)
  {
    SubmitsStatus(reaped, base, key, now);
    SubmitsStatus(h, drained, key, now);
    ExtendsTransitive(drained, reaped, base, key);
    ExtendsTransitive(h, drained, base, key);
  }

  ghost predicate AllRetriedIfDue(h: Posts, base: Posts, now: real) {
    Extends(h, base) && forall key :: RetriedIfDue(h, base, key, now)
  }

  lemma {:induction false} CycleRetriesAll(base: Posts, reaped: Posts, drained: Posts, h: Posts, now: real)
    requires Submits(reaped, base, now) && Extends(drained, reaped) && Submits(h, drained, now)
    requires forall key :: RetriesSince(drained, reaped, key) == if DueAt(reaped, key, now) then 1 else 0
    ensures AllRetriedIfDue(h, base, now)
  {
    hide RetriedIfDue, Submits, RetriesSince, DueAt;
    CycleRetries(base, reaped, drained, h, Key(Fail, TaskId("")), now);
    forall key ensures RetriedIfDue(h, base, key, now) {
      CycleRetries(base, reaped, drained, h, key, now);
    }
  }

  lemma {:induction false} OwedFailuresInRange(h: Posts, key: Key)
    ensures StatusOf(h, key).Owed? ==> 1 <= StatusOf(h, key).failures < MAX_ATTEMPTS
  {
    if h.Then? {
      OwedFailuresInRange(h.past, key);
    }
  }

  /** The queue entry that an owed report must have. */
  ghost predicate EntryMatches(e: Entry, owed: Status) {
    owed.Owed? && e == Entry(owed.payload, owed.failures, owed.lastTry + RetryGap(owed.failures))
  }

  ghost predicate Faithful(pending: map<Key, Entry>, h: Posts) {
    forall key :: (key in pending <==> StatusOf(h, key).Owed?)
                  && (key in pending ==> EntryMatches(pending[key], StatusOf(h, key)))
  }

  /** What one drain makes of one report. */
  ghost function AfterDrain(h: Posts, pending: map<Key, Entry>, key: Key, now: real, delivered: set<Key>): Status {
    if key in pending && pending[key].nextAt <= now
    then AfterPost(StatusOf(h, key), Retried(key, key in delivered, now), key)
    else StatusOf(h, key)
  }

  /** Where one report stands while a drain that began at `base` with `asked` is under way. */
  ghost predicate DrainedSoFar(base: Posts, asked: map<Key, Entry>, posts: Posts, pending: map<Key, Entry>,
                               key: Key, due: set<Key>, now: real, delivered: set<Key>)
    requires Extends(posts, base)
  {
    && StatusOf(posts, key)
       == (if key in due then StatusOf(base, key) else AfterDrain(base, asked, key, now, delivered))
    && RetriesSince(posts, base, key)
       == (if key !in due && key in asked && asked[key].nextAt <= now then 1 else 0)
    && (key in due ==> key in asked && asked[key].nextAt <= now && key in pending)
    && (key in pending && key !in due ==> pending[key].nextAt > now)
  }

  ghost predicate SameExcept(p: map<Key, Entry>, q: map<Key, Entry>, key: Key) {
    forall k :: k != key ==> (k in p <==> k in q) && (k in p ==> p[k] == q[k])
  }

  class Outbox {
    var pending: map<Key, Entry>
    ghost var posts: Posts

    ghost predicate Valid()
      reads this
    {
      Faithful(pending, posts)
    }

    constructor ()
      ensures Valid() && pending == map[] && posts == NoPosts
    {
      pending := map[];
      posts := NoPosts;
    }

    /** Post a report now; queue it when the post fails. */
    method QueueReport(verb: Verb, id: TaskId, payload: string, ok: bool, now: real)
      requires Valid()
      modifies this
      ensures Valid()
      ensures posts == Then(old(posts), Submitted(Key(verb, id), payload, ok, now))
      ensures Submits(posts, old(posts), now) && Submissions(posts) == Submissions(old(posts)) + [Key(verb, id)]
    {
      assert Submits(posts, posts, now);
      var key := Key(verb, id);
      OwedFailuresInRange(posts, key);
      posts := Then(posts, Submitted(key, payload, ok, now));
      if !ok {
        pending := pending[key := Entry(payload, 1, now + BACKOFF_BASE)];
      }
    }

    /** Retry every report whose gap has passed; `delivered` says which posts get through.
        Every due report is posted exactly once, every other report is left alone. */
    method DrainPendingReports(now: real, delivered: set<Key>)
      requires Valid()
      modifies this
      ensures Valid()
      ensures Extends(posts, old(posts)) && Submissions(posts) == Submissions(old(posts))
      ensures forall key :: RetriesSince(posts, old(posts), key) == if DueAt(old(posts), key, now) then 1 else 0
      ensures forall key :: StatusOf(posts, key) == AfterDrain(old(posts), old(pending), key, now, delivered)
      ensures forall key :: key in pending ==> pending[key].nextAt > now
    {
      var due := set key | key in pending && pending[key].nextAt <= now;
      ghost var base, asked := posts, pending;
      while due != {}
        invariant Valid() && Extends(posts, base) && Submissions(posts) == Submissions(base)
        invariant due <= asked.Keys
        invariant forall key :: DrainedSoFar(base, asked, posts, pending, key, due, now, delivered)
        decreases due
      {
        var key :| key in due;
        ghost var posts0, pending0, due0 := posts, pending, due;
        assert DrainedSoFar(base, asked, posts, pending, key, due, now, delivered);
        due := due - {key};
        RetryOne(key, key in delivered, now);
        ExtensionIsNoShorter(posts0, base);
        forall k ensures DrainedSoFar(base, asked, posts, pending, k, due, now, delivered) {
          assert DrainedSoFar(base, asked, posts0, pending0, k, due0, now, delivered);
        }
      }
      assert due == {};
      forall key
        ensures StatusOf(posts, key) == AfterDrain(base, asked, key, now, delivered)
        ensures RetriesSince(posts, base, key) == if DueAt(base, key, now) then 1 else 0
      {
        assert DrainedSoFar(base, asked, posts, pending, key, due, now, delivered);
      }
      forall key | key in pending ensures pending[key].nextAt > now {
        assert DrainedSoFar(base, asked, posts, pending, key, due, now, delivered);
      }
    }

    method RetryOne(key: Key, ok: bool, now: real)
      requires Valid() && key in pending
      modifies this
      ensures Valid()
      ensures posts == Then(old(posts), Retried(key, ok, now))
      ensures SameExcept(pending, old(pending), key)
      ensures key in pending ==> pending[key].nextAt > now
    {
      OwedFailuresInRange(posts, key);
      posts := Then(posts, Retried(key, ok, now));
      var current := pending[key];
      if ok || current.attempts + 1 >= MAX_ATTEMPTS {
        pending := pending - {key};
      } else {
        var attempts := current.attempts + 1;
        pending := pending[key := current.(attempts := attempts, nextAt := now + RetryGap(attempts))];
      }
    }
  }
}
