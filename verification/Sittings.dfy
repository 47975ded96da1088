/** A lane's backlog served to the end: pack a batch, take it off the candidates, pack again. */
module Sittings {
  import opened Packing
  import Order
  import opened Basics

  function Rest(xs: seq<Issue>, batch: seq<Issue>): seq<Issue> {
    if xs == [] then [] else (if xs[0] in batch then [] else [xs[0]]) + Rest(xs[1..], batch)
  }

  lemma {:induction false} RestCount(xs: seq<Issue>, batch: seq<Issue>, y: Issue)
    ensures multiset(Rest(xs, batch))[y] == if y in batch then 0 else multiset(xs)[y]
  {
    if xs != [] {
      RestCount(xs[1..], batch, y);
      assert xs == [xs[0]] + xs[1..];
    }
  }

  lemma {:induction false} RestMembers(xs: seq<Issue>, batch: seq<Issue>)
    ensures forall y :: y in Rest(xs, batch) <==> y in xs && y !in batch
    ensures |Rest(xs, batch)| <= |xs|
    ensures (exists y :: y in xs && y in batch) ==> |Rest(xs, batch)| < |xs|
    ensures DistinctIssues(xs) ==> DistinctIssues(Rest(xs, batch))
  {
    if xs != [] {
      RestMembers(xs[1..], batch);
      assert xs == [xs[0]] + xs[1..];
      if DistinctIssues(xs) && xs[0] !in batch {
        var rest := Rest(xs[1..], batch);
        forall k | 0 <= k < |rest| ensures rest[k].id != xs[0].id {
          assert rest[k] in xs[1..];
          var m :| 0 <= m < |xs[1..]| && xs[1..][m] == rest[k];
          assert xs[m + 1] == rest[k];
        }
      }
    }
  }

  lemma {:induction false} DistinctCount(xs: seq<Issue>)
    requires DistinctIssues(xs)
    ensures forall y :: multiset(xs)[y] <= 1
  {
    Order.NoDuplicatesCount(xs);
  }

  // ----------------------------------------------------------------- one sitting

  lemma {:induction false} NamesCount(cs: seq<Cluster>, k: nat)
    requires Proper(cs) && k <= |cs|
    ensures |Names(cs[..k])| == k
  {
    if k == 0 {
      assert Names(cs[..0]) == {};
    } else {
      NamesCount(cs, k - 1);
      NamesSnoc(cs, k - 1);
    }
  }

  lemma {:induction false} SameAreas(xs: seq<Issue>, ys: seq<Issue>)
    requires forall x :: x in xs ==> x in ys
    ensures AreasOf(xs) <= AreasOf(ys)
  {
    forall a | a in AreasOf(xs) ensures a in AreasOf(ys) {
      var i :| 0 <= i < |xs| && Area(xs[i]) == a;
      assert xs[i] in ys;
      var j :| 0 <= j < |ys| && ys[j] == xs[i];
    }
  }

  /** As many clusters as the band has areas. */
  lemma {:induction false} ClusterCount(xs: seq<Issue>)
    requires xs != []
    ensures |BandOrder(xs)| == |AreasOf(Members(xs, TopBand(xs)))|
  {
    hide TopBand, Members, Order.Sort, Grouped, Names, AreasOf, Proper;
    var members := Members(xs, TopBand(xs));
    var sorted := Order.Sort(members, RecencyLe);
    var groups := Grouped(sorted);
    GroupedIsProper(sorted);
    NamesCount(groups, |groups|);
    assert groups[..|groups|] == groups;
    Order.SortKeepsElements(groups, ClusterLe);
    Order.SortKeepsElements(members, RecencyLe);
    Order.SameElements(sorted, members);
    SameAreas(sorted, members);
    SameAreas(members, sorted);
    assert AreasOf(sorted) == AreasOf(members);
  }

  ghost function Least(a: nat, b: nat): nat {
    if a <= b then a else b
  }

  ghost function AtLeastZero(n: int): nat {
    if n < 0 then 0 else n
  }

  lemma {:induction false} AllowedCount(order: seq<Cluster>, cap: int)
    ensures multiset(Concat(Allowed(order, cap))) <= multiset(Concat(order))
    ensures |order| <= cap ==> Concat(Allowed(order, cap)) == Concat(order)
  {
    var allowed := Allowed(order, cap);
    assert allowed == order[..|allowed|];
    ConcatSplit(order, |allowed|);
  }

  lemma {:induction false} AllowedSome(order: seq<Cluster>, cap: int)
    requires Proper(order) && order != []
    ensures Concat(Allowed(order, cap)) == [] <==> cap <= 0
  {
  }

  lemma {:induction false} TakeCount(xs: seq<Issue>, n: nat)
    ensures multiset(Take(xs, n)) <= multiset(xs) && |Take(xs, n)| == Least(n, |xs|)
  {
    if n < |xs| {
      assert xs == xs[..n] + xs[n..];
    }
  }

  /** A batch takes issues of the top band only, none twice, at most the cap; it is empty exactly
      when there is nothing to take or no cluster is allowed; and with clusters to spare it takes
      all it can. */
  lemma {:induction false} BatchFacts(xs: seq<Issue>, cfg: Config)
    requires xs != [] && ValidConfig(cfg)
    ensures multiset(Batch(xs, cfg)) <= multiset(Members(xs, TopBand(xs)))
    ensures |Batch(xs, cfg)| <= cfg.maxBundleSize
    ensures Batch(xs, cfg) == [] <==> cfg.maxAreaClusters <= 0
    ensures |AreasOf(Members(xs, TopBand(xs)))| <= cfg.maxAreaClusters ==>
              |Batch(xs, cfg)| == Least(cfg.maxBundleSize, |Members(xs, TopBand(xs))|)
  {
    hide Concat, Take, Allowed, AreasOf, TopBand, Members, BandOrder, Proper;
    var order := BandOrder(xs);
    var allowed := Allowed(order, cfg.maxAreaClusters);
    BandOrderFacts(xs);
    ClusterCount(xs);
    AllowedCount(order, cfg.maxAreaClusters);
    AllowedSome(order, cfg.maxAreaClusters);
    TakeCount(Concat(allowed), cfg.maxBundleSize);
    Order.SameLength(Concat(order), Members(xs, TopBand(xs)));
  }

  lemma {:induction false} AreasOfConcat(cs: seq<Cluster>)
    requires Proper(cs)
    ensures AreasOf(Concat(cs)) == Names(cs)
  {
    hide Concat, Area;
    forall a ensures a in AreasOf(Concat(cs)) <==> a in Names(cs) {
      if a in AreasOf(Concat(cs)) {
        var n :| 0 <= n < |Concat(cs)| && Area(Concat(cs)[n]) == a;
        var i, p := ConcatFind(cs, n);
        ClusterIsOf(cs, i, p);
      }
      if a in Names(cs) {
        var i :| 0 <= i < |cs| && cs[i].name == a;
        assert ProperCluster(cs[i]);
        ConcatAt(cs, i, 0);
        ClusterIsOf(cs, i, 0);
      }
    }
  }

  lemma {:induction false} ProperFront(cs: seq<Cluster>, k: nat)
    requires Proper(cs) && k <= |cs|
    ensures Proper(cs[..k])
  {
  }

  /** A batch reaches over no more areas than the cap allows.  If somebody of the top band is left
      behind although the batch is not full, then nobody of that area is taken and the cap is reached. */
  lemma {:induction false} BatchIsFilled(xs: seq<Issue>, cfg: Config)
    requires xs != []
    ensures |AreasOf(Batch(xs, cfg))| <= AtLeastZero(cfg.maxAreaClusters)
    ensures forall left :: left in xs && left.band == TopBand(xs) && left !in Batch(xs, cfg) && |Batch(xs, cfg)| < cfg.maxBundleSize ==>
              Area(left) !in AreasOf(Batch(xs, cfg)) && |AreasOf(Batch(xs, cfg))| == AtLeastZero(cfg.maxAreaClusters)
  {
    hide BandOrder, TopBand, Members, Concat, AreasOf, Names, Area, Proper;
    var order := BandOrder(xs);
    var allowed := Allowed(order, cfg.maxAreaClusters);
    BandOrderFacts(xs);
    MembersCount(xs, TopBand(xs));
    assert allowed == order[..|allowed|];
    ProperFront(order, |allowed|);
    AreasOfConcat(allowed);
    NamesCount(order, |allowed|);
    SameAreas(Batch(xs, cfg), Concat(allowed));
    SubsetSize(AreasOf(Batch(xs, cfg)), AreasOf(Concat(allowed)));
    forall left | left in xs && left.band == TopBand(xs) && left !in Batch(xs, cfg) && |Batch(xs, cfg)| < cfg.maxBundleSize
      ensures Area(left) !in AreasOf(Batch(xs, cfg)) && |AreasOf(Batch(xs, cfg))| == AtLeastZero(cfg.maxAreaClusters)
    {
      assert left in multiset(Concat(order));
      var i, p := ClusterOf(order, left);
      if i < |allowed| {
        ConcatAt(allowed, i, p);
        assert false;
      }
      LaterName(order, |allowed|, i);
    }
  }

  lemma {:induction false} LaterName(cs: seq<Cluster>, k: nat, i: nat)
    requires Proper(cs) && k <= i < |cs|
    ensures cs[i].name !in Names(cs[..k])
  {
  }

  // ------------------------------------------------------------ the whole backlog

  ghost predicate Serves(cfg: Config) {
    ValidConfig(cfg) && cfg.maxAreaClusters >= 1
  }

  /** Every sitting leaves fewer candidates. */
  lemma {:induction false} SittingShrinks(xs: seq<Issue>, cfg: Config)
    requires xs != [] && Serves(cfg)
    ensures |Rest(xs, Batch(xs, cfg))| < |xs|
  {
    BatchFacts(xs, cfg);
    var batch := Batch(xs, cfg);
    assert batch[0] in multiset(batch);
    assert batch[0] in multiset(Members(xs, TopBand(xs)));
    MembersCount(xs, TopBand(xs));
    RestMembers(xs, batch);
  }

  function Sittings(xs: seq<Issue>, cfg: Config): seq<seq<Issue>>
    requires Serves(cfg)
    decreases |xs|
  {
    if xs == [] then []
    else
      SittingShrinks(xs, cfg);
      [Batch(xs, cfg)] + Sittings(Rest(xs, Batch(xs, cfg)), cfg)
  }

  /** How often an issue is served over all sittings. */
  ghost function Served(ss: seq<seq<Issue>>, y: Issue): nat {
    if ss == [] then 0 else multiset(ss[0])[y] + Served(ss[1..], y)
  }

  /** What one sitting removes. */
  lemma {:induction false} SittingRemoves(xs: seq<Issue>, cfg: Config, y: Issue)
    requires xs != [] && ValidConfig(cfg) && DistinctIssues(xs)
    ensures var batch := Batch(xs, cfg);
            && multiset(Rest(xs, batch))[y] + multiset(batch)[y] == multiset(xs)[y]
            && (y in batch ==> y in xs && y.band == TopBand(xs))
  {
    var batch := Batch(xs, cfg);
    BatchFacts(xs, cfg);
    MembersCount(xs, TopBand(xs));
    DistinctCount(xs);
    RestCount(xs, batch, y);
    assert multiset(batch)[y] <= multiset(Members(xs, TopBand(xs)))[y] <= multiset(xs)[y] <= 1;
    assert y in batch <==> multiset(batch)[y] > 0;
  }

  /** The sittings partition the candidates: each is served as often as it was there. */
  lemma {:induction false} SittingsPartition(xs: seq<Issue>, cfg: Config, y: Issue)
    requires Serves(cfg) && DistinctIssues(xs)
    ensures Served(Sittings(xs, cfg), y) == multiset(xs)[y]
    decreases |xs|
  {
    if xs != [] {
      SittingShrinks(xs, cfg);
      SittingRemoves(xs, cfg, y);
      RestMembers(xs, Batch(xs, cfg));
      SittingsPartition(Rest(xs, Batch(xs, cfg)), cfg, y);
    }
  }

  /** Every sitting is non-empty and within the cap, and its issues are candidates. */
  lemma {:induction false} EachSitting(xs: seq<Issue>, cfg: Config, i: nat)
    requires Serves(cfg) && DistinctIssues(xs) && i < |Sittings(xs, cfg)|
    ensures var s := Sittings(xs, cfg)[i];
            0 < |s| <= cfg.maxBundleSize && forall x :: x in s ==> x in xs
    decreases |xs|
  {
    hide Batch, Rest, Members, AreasOf, TopBand, DistinctIssues;
    BatchFacts(xs, cfg);
    if i == 0 {
      forall x | x in Batch(xs, cfg) ensures x in xs {
        SittingRemoves(xs, cfg, x);
      }
    } else {
      SittingShrinks(xs, cfg);
      RestMembers(xs, Batch(xs, cfg));
      EachSitting(Rest(xs, Batch(xs, cfg)), cfg, i - 1);
    }
  }

  /** Bands are served in non-decreasing order, and one sitting holds one band. */
  lemma {:induction false} BandsInOrder(xs: seq<Issue>, cfg: Config, i: nat, j: nat, x: Issue, y: Issue)
    requires Serves(cfg) && DistinctIssues(xs) && i <= j < |Sittings(xs, cfg)|
    requires x in Sittings(xs, cfg)[i] && y in Sittings(xs, cfg)[j]
    ensures x.band <= y.band && (i == j ==> x.band == y.band)
    decreases |xs|
  {
    hide Batch, TopBand, DistinctIssues;
    var rest := Rest(xs, Batch(xs, cfg));
    SittingShrinks(xs, cfg);
    RestMembers(xs, Batch(xs, cfg));
    if i > 0 {
      BandsInOrder(rest, cfg, i - 1, j - 1, x, y);
    } else {
      SittingRemoves(xs, cfg, x);
      EachSitting(xs, cfg, j);
      TopBandIsLeast(xs);
      if j == 0 {
        SittingRemoves(xs, cfg, y);
      }
    }
  }

  // ------------------------------------------------------------ how many sittings

  function CeilDiv(n: nat, m: nat): nat
    requires m >= 1
  {
    (n + m - 1) / m
  }

  /** The sittings each band needs by its size alone, summed over the bands below `bound`. */
  function Needed(xs: seq<Issue>, m: nat, bound: nat): nat
    requires m >= 1
  {
    if bound == 0 then 0 else Needed(xs, m, bound - 1) + CeilDiv(|Members(xs, bound - 1)|, m)
  }

  lemma {:induction false} CeilDivStep(n: nat, m: nat, k: nat)
    requires m >= 1 && k <= n
    ensures 0 < k == Least(m, n) ==> CeilDiv(n, m) == CeilDiv(n - k, m) + 1
    ensures k <= m ==> CeilDiv(n, m) <= CeilDiv(n - k, m) + 1
  {
    var q, r := (n + m - 1) / m, (n + m - 1) % m;
    assert n + m - 1 == q * m + r;
    if k <= m {
      assert (n - k + m - 1) >= (q - 1) * m by {
        assert (q - 1) * m == q * m - m;
      }
      QuotientAtLeast(n - k + m - 1, m, q - 1);
      if 0 < k == Least(m, n) {
        if k == m {
          assert n - k + m - 1 == (q - 1) * m + r by {
            assert (q - 1) * m == q * m - m;
          }
          QuotientIs(n - k + m - 1, m, q - 1, r);
        } else {
          QuotientIs(n + m - 1, m, 1, n - 1);
          QuotientIs(m - 1, m, 0, m - 1);
        }
      }
    }
  }

  lemma {:induction false} QuotientIs(a: nat, m: nat, q: int, r: nat)
    requires m >= 1 && a == q * m + r && r < m
    ensures a / m == q
  {
    QuotientAtLeast(a, m, q);
    if a / m > q {
      Scales(q + 1, a / m, m);
      assert false;
    }
  }

  lemma {:induction false} Scales(a: int, b: int, m: nat)
    requires a <= b
    ensures a * m <= b * m
  {
  }

  lemma {:induction false} QuotientAtLeast(a: nat, m: nat, q: int)
    requires m >= 1 && a >= q * m
    ensures a / m >= q
  {
    if a / m < q {
      Scales(a / m + 1, q, m);
      assert false;
    }
  }

  lemma {:induction false} EqualCounts(xs: seq<Issue>, ys: seq<Issue>, zs: seq<Issue>)
    requires forall y :: multiset(xs)[y] == multiset(ys)[y] + multiset(zs)[y]
    ensures |xs| == |ys| + |zs|
  {
    assert multiset(xs) == multiset(ys) + multiset(zs);
    assert |multiset(xs)| == |xs| && |multiset(ys)| == |ys| && |multiset(zs)| == |zs|;
  }

  /** A sitting takes its size off the top band and nothing off the others. */
  lemma {:induction false} BandSizes(xs: seq<Issue>, cfg: Config, band: nat)
    requires xs != [] && ValidConfig(cfg) && DistinctIssues(xs)
    ensures var batch := Batch(xs, cfg);
            |Members(xs, band)| == |Members(Rest(xs, batch), band)| + if band == TopBand(xs) then |batch| else 0
  {
    var batch := Batch(xs, cfg);
    var taken := if band == TopBand(xs) then batch else [];
    MembersCount(xs, band);
    MembersCount(Rest(xs, batch), band);
    forall y ensures multiset(Members(xs, band))[y]
                     == multiset(Members(Rest(xs, batch), band))[y] + multiset(taken)[y]
    {
      SittingRemoves(xs, cfg, y);
    }
    EqualCounts(Members(xs, band), Members(Rest(xs, batch), band), taken);
  }

  lemma {:induction false} NeededDrops(xs: seq<Issue>, cfg: Config, bound: nat)
    requires xs != [] && ValidConfig(cfg) && DistinctIssues(xs)
    ensures var m, rest, top := cfg.maxBundleSize, Rest(xs, Batch(xs, cfg)), TopBand(xs);
            && (top >= bound ==> Needed(xs, m, bound) == Needed(rest, m, bound))
            && Needed(xs, m, bound) <= Needed(rest, m, bound) + 1
            && (top < bound && 0 < |Batch(xs, cfg)| == Least(m, |Members(xs, top)|) ==>
                  Needed(xs, m, bound) == Needed(rest, m, bound) + 1)
  {
    hide Batch, Rest, TopBand, Members, CeilDiv, AreasOf, DistinctIssues;
    if bound > 0 {
      NeededDrops(xs, cfg, bound - 1);
      BandSizes(xs, cfg, bound - 1);
      if bound - 1 == TopBand(xs) {
        BatchFacts(xs, cfg);
        CeilDivStep(|Members(xs, bound - 1)|, cfg.maxBundleSize, |Batch(xs, cfg)|);
      }
    }
  }

  /** No band has more clusters than the reviewability cap. */
  ghost predicate Narrow(xs: seq<Issue>, cfg: Config) {
    forall b: nat :: |AreasOf(Members(xs, b))| <= cfg.maxAreaClusters
  }

  lemma {:induction false} NarrowKept(xs: seq<Issue>, batch: seq<Issue>, cfg: Config)
    requires Narrow(xs, cfg)
    ensures Narrow(Rest(xs, batch), cfg)
  {
    RestMembers(xs, batch);
    forall b: nat ensures |AreasOf(Members(Rest(xs, batch), b))| <= cfg.maxAreaClusters {
      MembersCount(xs, b);
      MembersCount(Rest(xs, batch), b);
      SameAreas(Members(Rest(xs, batch), b), Members(xs, b));
      SubsetSize(AreasOf(Members(Rest(xs, batch), b)), AreasOf(Members(xs, b)));
    }
  }

  /** Never fewer sittings than the band sizes need, and exactly that many when no band has more
      clusters than the cap. */
  lemma {:induction false} SittingsNeeded(xs: seq<Issue>, cfg: Config, bound: nat)
    requires Serves(cfg) && DistinctIssues(xs)
    requires forall x :: x in xs ==> x.band < bound
    ensures |Sittings(xs, cfg)| >= Needed(xs, cfg.maxBundleSize, bound)
    ensures Narrow(xs, cfg) ==> |Sittings(xs, cfg)| == Needed(xs, cfg.maxBundleSize, bound)
    decreases |xs|
  {
    if xs == [] {
      NeededNone(cfg.maxBundleSize, bound);
    } else {
      var rest := Rest(xs, Batch(xs, cfg));
      SittingShrinks(xs, cfg);
      RestMembers(xs, Batch(xs, cfg));
      SittingsNeeded(rest, cfg, bound);
      NeededDrops(xs, cfg, bound);
      if Narrow(xs, cfg) {
        NarrowKept(xs, Batch(xs, cfg), cfg);
        BatchFacts(xs, cfg);
        TopBandIsLeast(xs);
      }
    }
  }

  lemma {:induction false} NeededNone(m: nat, bound: nat)
    requires m >= 1
    ensures Needed([], m, bound) == 0
  {
    if bound > 0 {
      NeededNone(m, bound - 1);
      QuotientIs(m - 1, m, 0, m - 1);
    }
  }
}
