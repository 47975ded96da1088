/** Intake packing: which of a lane's candidate issues make up the next bundle. */
module Packing {
  import opened Ids
  import Order

  datatype Issue = Issue(id: string, iid: nat, labels: seq<string>, created: Option<int>, band: nat)

  datatype Config = Config(maxBundleSize: nat, maxAreaClusters: int)

  /** The configuration validator admits any bundle size of at least one. */
  ghost predicate ValidConfig(cfg: Config) {
    cfg.maxBundleSize >= 1
  }

  datatype Reason = Empty | Packed(band: nat, clusters: set<string>, size: nat, cap: nat)

  const AREA_PREFIX: string := "area::"

  /** The first `area::` label, or the unlabelled cluster. */
  function AreaOf(labels: seq<string>): string {
    if labels == [] then ""
    else if AREA_PREFIX <= labels[0] then labels[0]
    else AreaOf(labels[1..])
  }

  function Area(x: Issue): string {
    AreaOf(x.labels)
  }

  /** Newest first, undated last, issue id as the tiebreak. */
  predicate RecencyLe(a: Issue, b: Issue) {
    match (a.created, b.created)
    case (Some(s), Some(t)) => s > t || (s == t && Order.StringLe(a.id, b.id))
    case (Some(_), None) => true
    case (None, Some(_)) => false
    case (None, None) => Order.StringLe(a.id, b.id)
  }

  ghost predicate DistinctIssues(xs: seq<Issue>) {
    forall i, j :: 0 <= i < j < |xs| ==> xs[i].id != xs[j].id
  }

  lemma {:induction false} RecencyIsTotal(xs: seq<Issue>)
    ensures Order.Orders(RecencyLe, xs)
    ensures DistinctIssues(xs) ==> Order.Separates(RecencyLe, xs)
  {
    forall a, b | a in xs && b in xs ensures RecencyLe(a, b) || RecencyLe(b, a) {
      Order.StringLeTotal(a.id, b.id);
    }
    forall a, b, c | a in xs && b in xs && c in xs && RecencyLe(a, b) && RecencyLe(b, c) ensures RecencyLe(a, c) {
      if Order.StringLe(a.id, b.id) && Order.StringLe(b.id, c.id) {
        Order.StringLeTransitive(a.id, b.id, c.id);
      }
    }
    if DistinctIssues(xs) {
      forall a, b | a in xs && b in xs && RecencyLe(a, b) && RecencyLe(b, a) ensures a == b {
        Order.StringLeAntisymmetric(a.id, b.id);
      }
    }
  }

  // ------------------------------------------------------------ the top band

  function Members(xs: seq<Issue>, band: nat): seq<Issue> {
    if xs == [] then [] else (if xs[0].band == band then [xs[0]] else []) + Members(xs[1..], band)
  }

  function TopBand(xs: seq<Issue>): nat
    requires xs != []
  {
    if |xs| == 1 then xs[0].band
    else
      var rest := TopBand(xs[1..]);
      if xs[0].band <= rest then xs[0].band else rest
  }

  lemma {:induction false} TopBandIsLeast(xs: seq<Issue>)
    requires xs != []
    ensures forall x :: x in xs ==> TopBand(xs) <= x.band
    ensures exists x :: x in xs && x.band == TopBand(xs)
  {
    if |xs| > 1 {
      TopBandIsLeast(xs[1..]);
      assert xs == [xs[0]] + xs[1..];
      if xs[0].band > TopBand(xs[1..]) {
        var x :| x in xs[1..] && x.band == TopBand(xs[1..]);
        assert x in xs;
      } else {
        assert xs[0] in xs;
      }
    } else {
      assert xs[0] in xs;
    }
  }

  lemma {:induction false} MembersCount(xs: seq<Issue>, band: nat)
    ensures forall x :: multiset(Members(xs, band))[x] == if x.band == band then multiset(xs)[x] else 0
    ensures forall x :: x in Members(xs, band) <==> x in xs && x.band == band
    ensures |Members(xs, band)| <= |xs|
  {
    if xs != [] {
      MembersCount(xs[1..], band);
      assert xs == [xs[0]] + xs[1..];
    }
  }

  // -------------------------------------------------------------- the clusters

  datatype Cluster = Cluster(name: string, members: seq<Issue>)

  /** Add an issue to its cluster, or open the cluster. */
  function AddTo(cs: seq<Cluster>, x: Issue): seq<Cluster> {
    if cs == [] then [Cluster(Area(x), [x])]
    else if cs[0].name == Area(x) then [cs[0].(members := cs[0].members + [x])] + cs[1..]
    else [cs[0]] + AddTo(cs[1..], x)
  }

  function Grouped(xs: seq<Issue>): seq<Cluster> {
    if xs == [] then [] else AddTo(Grouped(xs[..|xs| - 1]), xs[|xs| - 1])
  }

  /** Bigger first, named before unlabelled, then by name. */
  predicate ClusterLe(a: Cluster, b: Cluster) {
    || |a.members| > |b.members|
    || (|a.members| == |b.members|
        && ((a.name != "" && b.name == "") || ((a.name == "") == (b.name == "") && Order.StringLe(a.name, b.name))))
  }

  function Concat(cs: seq<Cluster>): seq<Issue> {
    if cs == [] then [] else cs[0].members + Concat(cs[1..])
  }

  function Take(xs: seq<Issue>, n: nat): seq<Issue> {
    if |xs| <= n then xs else xs[..n]
  }

  function AreasOf(xs: seq<Issue>): set<string> {
    set i | 0 <= i < |xs| :: Area(xs[i])
  }

  /** Clusters that may contribute: as many as the reviewability cap allows. */
  function Allowed(order: seq<Cluster>, cap: int): seq<Cluster> {
    if cap <= 0 then [] else if |order| <= cap then order else order[..cap]
  }

  function BandOrder(xs: seq<Issue>): seq<Cluster>
    requires xs != []
  {
    Order.Sort(Grouped(Order.Sort(Members(xs, TopBand(xs)), RecencyLe)), ClusterLe)
  }

  /** The batch, outright: the allowed clusters of the top band one after the other, cut at the cap. */
  function Batch(xs: seq<Issue>, cfg: Config): seq<Issue> {
    if xs == [] then [] else Take(Concat(Allowed(BandOrder(xs), cfg.maxAreaClusters)), cfg.maxBundleSize)
  }

  function ReasonFor(xs: seq<Issue>, cfg: Config): Reason {
    if xs == [] then Empty
    else Packed(TopBand(xs), AreasOf(Batch(xs, cfg)), |Batch(xs, cfg)|, cfg.maxBundleSize)
  }

  // ------------------------------------------------ order of arrival is immaterial

  lemma {:induction false} SameMembers(xs: seq<Issue>, ys: seq<Issue>, band: nat)
    requires multiset(xs) == multiset(ys)
    ensures multiset(Members(xs, band)) == multiset(Members(ys, band))
  {
    MembersCount(xs, band);
    MembersCount(ys, band);
  }

  lemma {:induction false} HeadIsDistinct(xs: seq<Issue>, y: Issue)
    requires xs != [] && DistinctIssues(xs) && y in xs[1..]
    ensures y.id != xs[0].id
  {
    var m :| 0 <= m < |xs[1..]| && xs[1..][m] == y;
    assert xs[m + 1] == y;
  }

  lemma {:induction false} DistinctMembers(xs: seq<Issue>, band: nat)
    requires DistinctIssues(xs)
    ensures DistinctIssues(Members(xs, band))
  {
    if xs != [] {
      DistinctMembers(xs[1..], band);
      MembersCount(xs[1..], band);
      var rest := Members(xs[1..], band);
      forall k | 0 <= k < |rest| ensures rest[k].id != xs[0].id {
        assert rest[k] in xs[1..];
        HeadIsDistinct(xs, rest[k]);
      }
    }
  }

  /** Packing depends only on which candidates there are, never on their order. */
  lemma {:induction false} PackingIgnoresOrder(xs: seq<Issue>, ys: seq<Issue>, cfg: Config)
    requires DistinctIssues(xs) && multiset(xs) == multiset(ys)
    ensures Batch(xs, cfg) == Batch(ys, cfg) && ReasonFor(xs, cfg) == ReasonFor(ys, cfg)
  {
    assert |multiset(xs)| == |xs| && |multiset(ys)| == |ys|;
    if xs != [] {
      Order.SameElements(xs, ys);
      TopBandIsLeast(xs);
      TopBandIsLeast(ys);
      var band := TopBand(xs);
      assert TopBand(ys) == band;
      SameMembers(xs, ys, band);
      DistinctMembers(xs, band);
      RecencyIsTotal(Members(xs, band));
      Order.SortOfPermutation(Members(xs, band), Members(ys, band), RecencyLe);
    }
  }

  // -------------------------------------------------------- what clusters hold

  /** Proper clusters: distinct names, no empty group, every member under its own area. */
  ghost predicate Proper(cs: seq<Cluster>) {
    && (forall i, j :: 0 <= i < j < |cs| ==> cs[i].name != cs[j].name)
    && (forall i :: 0 <= i < |cs| ==> ProperCluster(cs[i]))
  }

  ghost predicate ProperCluster(c: Cluster) {
    c.members != [] && forall k :: 0 <= k < |c.members| ==> Area(c.members[k]) == c.name
  }

  function Names(cs: seq<Cluster>): set<string> {
    set i | 0 <= i < |cs| :: cs[i].name
  }

  lemma {:induction false} AddToNames(cs: seq<Cluster>, x: Issue)
    ensures Names(AddTo(cs, x)) == Names(cs) + {Area(x)}
  {
    var added := AddTo(cs, x);
    if cs == [] {
      NamesCons(added[0], []);
      assert added == [added[0]] + [];
    } else {
      assert cs == [cs[0]] + cs[1..];
      NamesCons(cs[0], cs[1..]);
      if cs[0].name == Area(x) {
        NamesCons(added[0], cs[1..]);
      } else {
        NamesCons(cs[0], AddTo(cs[1..], x));
        AddToNames(cs[1..], x);
      }
    }
  }

  lemma {:induction false} AddToKeepsProper(cs: seq<Cluster>, x: Issue)
    requires Proper(cs)
    ensures Proper(AddTo(cs, x))
  {
    var added := AddTo(cs, x);
    if cs == [] {
    } else if cs[0].name == Area(x) {
      assert forall i :: 0 < i < |cs| ==> added[i] == cs[i];
      assert ProperCluster(cs[0]);
    } else {
      AddToKeepsProper(cs[1..], x);
      AddToNames(cs[1..], x);
      var rest := AddTo(cs[1..], x);
      forall i | 0 <= i < |rest| ensures rest[i].name != cs[0].name {
        assert rest[i].name in Names(rest);
      }
      assert ProperCluster(cs[0]);
    }
  }

  lemma {:induction false} NamesCons(c: Cluster, cs: seq<Cluster>)
    ensures Names([c] + cs) == {c.name} + Names(cs)
  {
    forall n ensures n in Names([c] + cs) <==> n in {c.name} + Names(cs) {
      if n in Names(cs) {
        var i :| 0 <= i < |cs| && cs[i].name == n;
        assert ([c] + cs)[i + 1].name == n;
      }
      if n == c.name {
        assert ([c] + cs)[0].name == n;
      }
    }
  }

  lemma {:induction false} GroupedIsProper(xs: seq<Issue>)
    ensures Proper(Grouped(xs)) && Names(Grouped(xs)) == AreasOf(xs)
  {
    if xs != [] {
      var n := |xs| - 1;
      GroupedIsProper(xs[..n]);
      AddToKeepsProper(Grouped(xs[..n]), xs[n]);
      AddToNames(Grouped(xs[..n]), xs[n]);
      forall a ensures a in AreasOf(xs) <==> a in AreasOf(xs[..n]) + {Area(xs[n])} {
        if a in AreasOf(xs[..n]) {
          var i :| 0 <= i < n && Area(xs[..n][i]) == a;
          assert Area(xs[i]) == a;
        }
      }
    }
  }

  lemma {:induction false} ConcatSnoc(cs: seq<Cluster>, c: Cluster)
    ensures Concat(cs + [c]) == Concat(cs) + c.members
  {
    if cs == [] {
      assert cs + [c] == [c];
    } else {
      assert (cs + [c])[1..] == cs[1..] + [c];
      ConcatSnoc(cs[1..], c);
    }
  }

  /** How often an issue occurs among the clusters' members. */
  ghost function Occurs(cs: seq<Cluster>, y: Issue): nat {
    if cs == [] then 0 else multiset(cs[0].members)[y] + Occurs(cs[1..], y)
  }

  lemma {:induction false} OccursIsCount(cs: seq<Cluster>, y: Issue)
    ensures multiset(Concat(cs))[y] == Occurs(cs, y)
  {
    if cs != [] {
      OccursIsCount(cs[1..], y);
    }
  }

  lemma {:induction false} AddToOccurs(cs: seq<Cluster>, x: Issue, y: Issue)
    ensures Occurs(AddTo(cs, x), y) == Occurs(cs, y) + if x == y then 1 else 0
  {
    if cs == [] {
      assert Occurs([Cluster(Area(x), [x])], y) == multiset([x])[y] + Occurs([], y);
    } else if cs[0].name == Area(x) {
      assert AddTo(cs, x)[1..] == cs[1..];
      assert multiset(cs[0].members + [x])[y] == multiset(cs[0].members)[y] + multiset([x])[y];
    } else {
      AddToOccurs(cs[1..], x, y);
      assert AddTo(cs, x)[1..] == AddTo(cs[1..], x);
    }
  }

  lemma {:induction false} LastCounts(xs: seq<Issue>, y: Issue)
    requires xs != []
    ensures multiset(xs)[y] == multiset(xs[..|xs| - 1])[y] + if xs[|xs| - 1] == y then 1 else 0
  {
    assert xs == xs[..|xs| - 1] + [xs[|xs| - 1]];
  }

  lemma {:induction false} GroupedOccurs(xs: seq<Issue>, y: Issue)
    ensures Occurs(Grouped(xs), y) == multiset(xs)[y]
  {
    if xs != [] {
      hide Occurs, AddTo;
      var n := |xs| - 1;
      GroupedOccurs(xs[..n], y);
      AddToOccurs(Grouped(xs[..n]), xs[n], y);
      LastCounts(xs, y);
    }
  }

  lemma {:induction false} InsertOccurs(c: Cluster, cs: seq<Cluster>, y: Issue)
    ensures Occurs(Order.Insert(c, cs, ClusterLe), y) == multiset(c.members)[y] + Occurs(cs, y)
  {
    var inserted := Order.Insert(c, cs, ClusterLe);
    if cs == [] || ClusterLe(c, cs[0]) {
      assert inserted[1..] == cs;
    } else {
      InsertOccurs(c, cs[1..], y);
      assert inserted[1..] == Order.Insert(c, cs[1..], ClusterLe);
    }
  }

  lemma {:induction false} SortOccurs(cs: seq<Cluster>, y: Issue)
    ensures Occurs(Order.Sort(cs, ClusterLe), y) == Occurs(cs, y)
  {
    if cs != [] {
      SortOccurs(cs[1..], y);
      InsertOccurs(cs[0], Order.Sort(cs[1..], ClusterLe), y);
    }
  }

  /** The clusters in serving order hold exactly the top band's members, in proper clusters. */
  lemma {:induction false} BandOrderFacts(xs: seq<Issue>)
    requires xs != []
    ensures Proper(BandOrder(xs))
    ensures multiset(Concat(BandOrder(xs))) == multiset(Members(xs, TopBand(xs)))
    ensures BandOrder(xs) != []
  {
    var members := Members(xs, TopBand(xs));
    var sorted := Order.Sort(members, RecencyLe);
    var groups := Grouped(sorted);
    GroupedIsProper(sorted);
    SortedIsProper(groups);
    Order.SortKeepsElements(members, RecencyLe);
    forall y ensures multiset(Concat(BandOrder(xs)))[y] == multiset(members)[y] {
      OccursIsCount(BandOrder(xs), y);
      SortOccurs(groups, y);
      GroupedOccurs(sorted, y);
    }
    TopBandIsLeast(xs);
    MembersCount(xs, TopBand(xs));
    var x :| x in xs && x.band == TopBand(xs);
    assert x in members;
    assert multiset(Concat(BandOrder(xs)))[x] > 0;
  }

  lemma {:induction false} SortedIsProper(cs: seq<Cluster>)
    requires Proper(cs)
    ensures Proper(Order.Sort(cs, ClusterLe))
  {
    var sorted := Order.Sort(cs, ClusterLe);
    Order.SortKeepsElements(cs, ClusterLe);
    Order.SameElements(sorted, cs);
    Order.SortKeepsNoDuplicates(cs, ClusterLe);
    forall i | 0 <= i < |sorted| ensures ProperCluster(sorted[i]) {
      assert sorted[i] in cs;
    }
    forall i, j | 0 <= i < j < |sorted| ensures sorted[i].name != sorted[j].name {
      assert sorted[i] in cs && sorted[j] in cs && sorted[i] != sorted[j];
    }
  }

  // ----------------------------------------------------------- newest issues first

  ghost predicate ByRecency(cs: seq<Cluster>) {
    forall i :: 0 <= i < |cs| ==> Order.SortedBy(cs[i].members, RecencyLe)
  }

  ghost predicate AllBefore(cs: seq<Cluster>, x: Issue) {
    forall i, k :: 0 <= i < |cs| && 0 <= k < |cs[i].members| ==> RecencyLe(cs[i].members[k], x)
  }

  lemma {:induction false} AddToByRecency(cs: seq<Cluster>, x: Issue)
    requires ByRecency(cs) && AllBefore(cs, x)
    ensures ByRecency(AddTo(cs, x))
  {
    if cs != [] {
      if cs[0].name == Area(x) {
        var c := cs[0].members;
        forall k | 0 <= k < |c| ensures RecencyLe(c[k], x) {
          assert cs[0].members[k] == c[k];
        }
      } else {
        var rest := cs[1..];
        forall i, k | 0 <= i < |rest| && 0 <= k < |rest[i].members| ensures RecencyLe(rest[i].members[k], x) {
          assert rest[i] == cs[i + 1];
        }
        AddToByRecency(rest, x);
      }
    }
  }

  lemma {:induction false} ClusteredIssue(xs: seq<Issue>, i: nat, k: nat)
    requires i < |Grouped(xs)| && k < |Grouped(xs)[i].members|
    ensures Grouped(xs)[i].members[k] in xs
  {
    var y, cs := Grouped(xs)[i].members[k], Grouped(xs);
    GroupedOccurs(xs, y);
    MemberOccurs(cs, i, k);
  }

  lemma {:induction false} MemberOccurs(cs: seq<Cluster>, i: nat, k: nat)
    requires i < |cs| && k < |cs[i].members|
    ensures Occurs(cs, cs[i].members[k]) > 0
  {
    if i > 0 {
      MemberOccurs(cs[1..], i - 1, k);
    } else {
      assert cs[0].members[k] in multiset(cs[0].members);
    }
  }

  /** Grouping a recency-sorted list keeps every cluster newest first. */
  lemma {:induction false} GroupedByRecency(xs: seq<Issue>)
    requires Order.SortedBy(xs, RecencyLe)
    ensures ByRecency(Grouped(xs))
  {
    if xs != [] {
      var n := |xs| - 1;
      var front := xs[..n];
      GroupedByRecency(front);
      forall i, k | 0 <= i < |Grouped(front)| && 0 <= k < |Grouped(front)[i].members|
        ensures RecencyLe(Grouped(front)[i].members[k], xs[n])
      {
        ClusteredIssue(front, i, k);
        var j :| 0 <= j < n && front[j] == Grouped(front)[i].members[k];
        assert RecencyLe(xs[j], xs[n]);
      }
      AddToByRecency(Grouped(front), xs[n]);
    }
  }

  lemma {:induction false} BandOrderByRecency(xs: seq<Issue>)
    requires xs != []
    ensures ByRecency(BandOrder(xs))
  {
    var members := Members(xs, TopBand(xs));
    var sorted := Order.Sort(members, RecencyLe);
    RecencyIsTotal(members);
    Order.SortSorts(members, RecencyLe);
    GroupedByRecency(sorted);
    var order := Order.Sort(Grouped(sorted), ClusterLe);
    Order.SortKeepsElements(Grouped(sorted), ClusterLe);
    Order.SameElements(order, Grouped(sorted));
    forall i | 0 <= i < |order| ensures Order.SortedBy(order[i].members, RecencyLe) {
      assert order[i] in Grouped(sorted);
    }
  }

  /** Where a cluster's members sit in the concatenation. */
  lemma {:induction false} ConcatAt(cs: seq<Cluster>, i: nat, p: nat)
    requires i < |cs| && p < |cs[i].members|
    ensures |Concat(cs[..i])| + p < |Concat(cs)| && Concat(cs)[|Concat(cs[..i])| + p] == cs[i].members[p]
  {
    if i == 0 {
      assert cs[..0] == [];
    } else {
      ConcatAt(cs[1..], i - 1, p);
      assert cs[..i][1..] == cs[1..][..i - 1];
    }
  }

  lemma {:induction false} ConcatFind(cs: seq<Cluster>, n: nat) returns (i: nat, p: nat)
    requires n < |Concat(cs)|
    ensures i < |cs| && p < |cs[i].members| && n == |Concat(cs[..i])| + p && Concat(cs)[n] == cs[i].members[p]
  {
    if n < |cs[0].members| {
      i, p := 0, n;
      assert cs[..0] == [];
    } else {
      var j, q := ConcatFind(cs[1..], n - |cs[0].members|);
      i, p := j + 1, q;
      assert cs[..i][1..] == cs[1..][..j];
    }
  }

  /** An issue sits in the one cluster named after its area. */
  lemma {:induction false} ClusterOf(cs: seq<Cluster>, x: Issue) returns (i: nat, p: nat)
    requires Proper(cs) && x in Concat(cs)
    ensures i < |cs| && p < |cs[i].members| && cs[i].members[p] == x && cs[i].name == Area(x)
  {
    var n :| 0 <= n < |Concat(cs)| && Concat(cs)[n] == x;
    i, p := ConcatFind(cs, n);
    assert ProperCluster(cs[i]);
  }

  // ------------------------------------------------------- who is served first

  /** How many issues of a band carry an area. */
  ghost function AreaSize(xs: seq<Issue>, band: nat, area: string): nat {
    if xs == [] then 0 else AreaSize(xs[1..], band, area) + if xs[0].band == band && Area(xs[0]) == area then 1 else 0
  }

  /** The order of serving, issue by issue.  Inside an area: the newer, then the dated, then the smaller
      id.  Between areas: the bigger, then the named, then the smaller name. */
  ghost predicate ServedFirst(xs: seq<Issue>, a: Issue, b: Issue) {
    if Area(a) == Area(b) then
      || (a.created.Some? && (b.created.None? || a.created.value > b.created.value))
      || (a.created == b.created && Order.Ascends(a.id, b.id))
    else
      var m, n := AreaSize(xs, a.band, Area(a)), AreaSize(xs, b.band, Area(b));
      m > n || (m == n && Area(a) != "" && (Area(b) == "" || Order.Ascends(Area(a), Area(b))))
  }

  ghost function CountIn(xs: seq<Issue>, area: string): nat {
    if xs == [] then 0 else CountIn(xs[1..], area) + if Area(xs[0]) == area then 1 else 0
  }

  lemma {:induction false} MembersInArea(xs: seq<Issue>, band: nat, area: string)
    ensures CountIn(Members(xs, band), area) == AreaSize(xs, band, area)
  {
    if xs != [] {
      MembersInArea(xs[1..], band, area);
      if xs[0].band == band {
        assert Members(xs, band)[1..] == Members(xs[1..], band);
      } else {
        assert Members(xs, band) == Members(xs[1..], band);
      }
    }
  }

  lemma {:induction false} InsertInArea(x: Issue, xs: seq<Issue>, area: string)
    ensures CountIn(Order.Insert(x, xs, RecencyLe), area) == CountIn(xs, area) + if Area(x) == area then 1 else 0
  {
    var inserted := Order.Insert(x, xs, RecencyLe);
    if xs == [] || RecencyLe(x, xs[0]) {
      assert inserted[1..] == xs;
    } else {
      InsertInArea(x, xs[1..], area);
      assert inserted[1..] == Order.Insert(x, xs[1..], RecencyLe);
    }
  }

  lemma {:induction false} SortInArea(xs: seq<Issue>, area: string)
    ensures CountIn(Order.Sort(xs, RecencyLe), area) == CountIn(xs, area)
  {
    if xs != [] {
      SortInArea(xs[1..], area);
      InsertInArea(xs[0], Order.Sort(xs[1..], RecencyLe), area);
    }
  }

  lemma {:induction false} CountInSnoc(xs: seq<Issue>, x: Issue, area: string)
    ensures CountIn(xs + [x], area) == CountIn(xs, area) + if Area(x) == area then 1 else 0
  {
    if xs == [] {
      assert [] + [x] == [x];
    } else {
      assert (xs + [x])[1..] == xs[1..] + [x];
      CountInSnoc(xs[1..], x, area);
    }
  }

  /** The members of the clusters named so. */
  ghost function SizeOf(cs: seq<Cluster>, name: string): nat {
    if cs == [] then 0 else SizeOf(cs[1..], name) + if cs[0].name == name then |cs[0].members| else 0
  }

  lemma {:induction false} AddToSize(cs: seq<Cluster>, x: Issue, name: string)
    ensures SizeOf(AddTo(cs, x), name) == SizeOf(cs, name) + if Area(x) == name then 1 else 0
  {
    hide Area;
    var added := AddTo(cs, x);
    if cs == [] {
    } else if cs[0].name == Area(x) {
      assert added[1..] == cs[1..];
    } else {
      AddToSize(cs[1..], x, name);
      assert added[1..] == AddTo(cs[1..], x);
    }
  }

  lemma {:induction false} GroupedSize(xs: seq<Issue>, name: string)
    ensures SizeOf(Grouped(xs), name) == CountIn(xs, name)
  {
    hide AddTo, Area;
    if xs != [] {
      var n := |xs| - 1;
      GroupedSize(xs[..n], name);
      AddToSize(Grouped(xs[..n]), xs[n], name);
      CountInSnoc(xs[..n], xs[n], name);
      assert xs == xs[..n] + [xs[n]];
    }
  }

  lemma {:induction false} NoneNamed(cs: seq<Cluster>, name: string)
    requires forall i :: 0 <= i < |cs| ==> cs[i].name != name
    ensures SizeOf(cs, name) == 0
  {
    if cs != [] {
      NoneNamed(cs[1..], name);
    }
  }

  lemma {:induction false} OneNamed(cs: seq<Cluster>, i: nat)
    requires Proper(cs) && i < |cs|
    ensures SizeOf(cs, cs[i].name) == |cs[i].members|
  {
    hide ProperCluster;
    if i == 0 {
      NoneNamed(cs[1..], cs[0].name);
    } else {
      OneNamed(cs[1..], i - 1);
    }
  }

  /** A cluster is as big as its area is in the top band. */
  lemma {:induction false} ClusterSize(xs: seq<Issue>, i: nat)
    requires xs != [] && i < |BandOrder(xs)|
    ensures |BandOrder(xs)[i].members| == AreaSize(xs, TopBand(xs), BandOrder(xs)[i].name)
  {
    hide TopBand, Members, Grouped, Proper;
    var members := Members(xs, TopBand(xs));
    var sorted := Order.Sort(members, RecencyLe);
    var groups, c := Grouped(sorted), BandOrder(xs)[i];
    Order.SortKeepsElements(groups, ClusterLe);
    Order.SameElements(BandOrder(xs), groups);
    assert c in groups;
    var k :| 0 <= k < |groups| && groups[k] == c;
    GroupedIsProper(sorted);
    OneNamed(groups, k);
    GroupedSize(sorted, c.name);
    SortInArea(members, c.name);
    MembersInArea(xs, TopBand(xs), c.name);
  }

  lemma {:induction false} ClusterOrders(cs: seq<Cluster>)
    ensures Order.Orders(ClusterLe, cs)
  {
    forall a, b | a in cs && b in cs ensures ClusterLe(a, b) || ClusterLe(b, a) {
      Order.StringLeTotal(a.name, b.name);
    }
    forall a, b, c | a in cs && b in cs && c in cs && ClusterLe(a, b) && ClusterLe(b, c) ensures ClusterLe(a, c) {
      if Order.StringLe(a.name, b.name) && Order.StringLe(b.name, c.name) {
        Order.StringLeTransitive(a.name, b.name, c.name);
      }
    }
  }

  lemma {:induction false} BandOrderSorted(xs: seq<Issue>, i: nat, j: nat)
    requires xs != [] && i < j < |BandOrder(xs)|
    ensures ClusterLe(BandOrder(xs)[i], BandOrder(xs)[j])
  {
    var groups := Grouped(Order.Sort(Members(xs, TopBand(xs)), RecencyLe));
    ClusterOrders(groups);
    Order.SortSorts(groups, ClusterLe);
  }

  lemma {:induction false} PrefixLength(cs: seq<Cluster>, i: nat, j: nat)
    requires i < j <= |cs|
    ensures |Concat(cs[..i])| + |cs[i].members| <= |Concat(cs[..j])|
  {
    ConcatSplit(cs[..j], i + 1);
    assert cs[..j][..i + 1] == cs[..i] + [cs[i]];
    ConcatSnoc(cs[..i], cs[i]);
  }

  /** The top band in the order in which it is served. */
  ghost function Line(xs: seq<Issue>): seq<Issue>
    requires xs != []
  {
    Concat(BandOrder(xs))
  }

  lemma {:induction false} RecencyMeans(xs: seq<Issue>, a: Issue, b: Issue)
    requires RecencyLe(a, b) && Area(a) == Area(b)
    ensures ServedFirst(xs, a, b)
  {
    Order.StringLeExactly(a.id, b.id);
  }

  lemma {:induction false} ClusterLeMeans(xs: seq<Issue>, a: Issue, b: Issue, c: Cluster, d: Cluster)
    requires ClusterLe(c, d) && Area(a) == c.name != d.name == Area(b)
    requires |c.members| == AreaSize(xs, a.band, c.name) && |d.members| == AreaSize(xs, b.band, d.name)
    ensures ServedFirst(xs, a, b)
  {
    hide Area, AreaSize;
    Order.StringLeExactly(c.name, d.name);
  }

  /** The line holds the top band, and nobody in it stands before one to be served first. */
  lemma {:induction false} LineIsServedInOrder(xs: seq<Issue>, p: nat, q: nat)
    requires xs != [] && p < q < |Line(xs)|
    ensures ServedFirst(xs, Line(xs)[p], Line(xs)[q])
  {
    hide BandOrder, RecencyLe, ClusterLe, Area, Concat, ServedFirst, Proper, ByRecency, TopBand, Members;
    var order := BandOrder(xs);
    BandOrderFacts(xs);
    BandOrderByRecency(xs);
    var i, k := ConcatFind(order, p);
    var j, l := ConcatFind(order, q);
    InLine(xs, p);
    InLine(xs, q);
    ClusterIsOf(order, i, k);
    ClusterIsOf(order, j, l);
    if i == j {
      ClusterByRecency(order, i, k, l);
      RecencyMeans(xs, Line(xs)[p], Line(xs)[q]);
    } else {
      if j < i {
        PrefixLength(order, j, i);
        assert false;
      }
      BandOrderSorted(xs, i, j);
      ClusterSize(xs, i);
      ClusterSize(xs, j);
      NamesDiffer(order, i, j);
      ClusterLeMeans(xs, Line(xs)[p], Line(xs)[q], order[i], order[j]);
    }
  }

  lemma {:induction false} ClusterByRecency(cs: seq<Cluster>, i: nat, k: nat, l: nat)
    requires ByRecency(cs) && i < |cs| && k < l < |cs[i].members|
    ensures RecencyLe(cs[i].members[k], cs[i].members[l])
  {
    assert Order.SortedBy(cs[i].members, RecencyLe);
  }

  lemma {:induction false} ClusterIsOf(cs: seq<Cluster>, i: nat, k: nat)
    requires Proper(cs) && i < |cs| && k < |cs[i].members|
    ensures Area(cs[i].members[k]) == cs[i].name
  {
    assert ProperCluster(cs[i]);
  }

  lemma {:induction false} NamesDiffer(cs: seq<Cluster>, i: nat, j: nat)
    requires Proper(cs) && i < j < |cs|
    ensures cs[i].name != cs[j].name
  {
  }

  lemma {:induction false} InLine(xs: seq<Issue>, p: nat)
    requires xs != [] && p < |Line(xs)|
    ensures Line(xs)[p] in xs && Line(xs)[p].band == TopBand(xs)
  {
    BandOrderFacts(xs);
    MembersCount(xs, TopBand(xs));
    assert Line(xs)[p] in multiset(Line(xs));
  }

  /** A batch is the front of the line. */
  lemma {:induction false} BatchIsFront(xs: seq<Issue>, cfg: Config)
    requires xs != []
    ensures Batch(xs, cfg) <= Line(xs)
  {
    hide Concat;
    var order := BandOrder(xs);
    var allowed := Allowed(order, cfg.maxAreaClusters);
    assert allowed == order[..|allowed|];
    ConcatSplit(order, |allowed|);
  }

  /** Whoever of the top band is left behind stands behind everybody who is taken. */
  lemma {:induction false} TakenFirst(xs: seq<Issue>, cfg: Config, taken: Issue, left: Issue)
    requires xs != [] && taken in Batch(xs, cfg) && left in xs && left.band == TopBand(xs) && left !in Batch(xs, cfg)
    ensures ServedFirst(xs, taken, left)
  {
    hide BandOrder, Batch, Members, TopBand, Area, Concat, ServedFirst;
    BatchIsFront(xs, cfg);
    BandOrderFacts(xs);
    MembersCount(xs, TopBand(xs));
    assert left in multiset(Line(xs));
    var p :| 0 <= p < |Batch(xs, cfg)| && Batch(xs, cfg)[p] == taken;
    var q :| 0 <= q < |Line(xs)| && Line(xs)[q] == left;
    LineIsServedInOrder(xs, p, q);
  }

  /** The batch itself is listed in the order of serving. */
  lemma {:induction false} BatchInOrder(xs: seq<Issue>, cfg: Config, i: nat, j: nat)
    requires xs != [] && i < j < |Batch(xs, cfg)|
    ensures ServedFirst(xs, Batch(xs, cfg)[i], Batch(xs, cfg)[j])
  {
    hide Batch, Line, ServedFirst;
    BatchIsFront(xs, cfg);
    LineIsServedInOrder(xs, i, j);
  }

  /** Between areas the bigger is served first; of two as big the named, then the smaller name. */
  lemma {:induction false} BiggestAreaFirst(xs: seq<Issue>, cfg: Config, taken: Issue, left: Issue)
    requires xs != [] && taken in Batch(xs, cfg) && left in xs && left !in Batch(xs, cfg)
    requires (forall x :: x in xs ==> left.band <= x.band) && Area(left) != Area(taken)
    ensures taken.band == left.band
    ensures var m, n := AreaSize(xs, taken.band, Area(taken)), AreaSize(xs, left.band, Area(left));
            && m >= n
            && (m == n ==> Area(taken) != "" && (Area(left) == "" || Order.Ascends(Area(taken), Area(left))))
  {
    LeastIsTop(xs, left);
    TakenFirst(xs, cfg, taken, left);
    BatchIsFront(xs, cfg);
    var p :| 0 <= p < |Batch(xs, cfg)| && Batch(xs, cfg)[p] == taken;
    InLine(xs, p);
  }

  /** Inside an area the newer is served first: of two dated ones the later, a dated one before an
      undated one, and otherwise the smaller id. */
  lemma {:induction false} NewestFirst(xs: seq<Issue>, cfg: Config, taken: Issue, left: Issue)
    requires xs != [] && taken in Batch(xs, cfg) && left in xs && left !in Batch(xs, cfg)
    requires (forall x :: x in xs ==> left.band <= x.band) && Area(left) == Area(taken)
    ensures left.created.Some? ==> taken.created.Some? && taken.created.value >= left.created.value
    ensures taken.created == left.created ==> Order.Ascends(taken.id, left.id)
  {
    LeastIsTop(xs, left);
    TakenFirst(xs, cfg, taken, left);
  }

  lemma {:induction false} LeastIsTop(xs: seq<Issue>, x: Issue)
    requires x in xs && forall y :: y in xs ==> x.band <= y.band
    ensures x.band == TopBand(xs)
  {
    TopBandIsLeast(xs);
  }

  /** The area of an issue: its first label that begins so, or none. */
  lemma {:induction false} AreaIsFirstLabel(labels: seq<string>)
    ensures if exists i :: 0 <= i < |labels| && "area::" <= labels[i]
            then exists i :: 0 <= i < |labels| && "area::" <= labels[i] && AreaOf(labels) == labels[i]
                             && forall j :: 0 <= j < i ==> !("area::" <= labels[j])
            else AreaOf(labels) == ""
  {
    if labels != [] && !("area::" <= labels[0]) {
      var rest := labels[1..];
      AreaIsFirstLabel(rest);
      if i :| 0 <= i < |labels| && "area::" <= labels[i] {
        assert rest[i - 1] == labels[i];
        var k :| 0 <= k < |rest| && "area::" <= rest[k] && AreaOf(rest) == rest[k]
                 && forall j :: 0 <= j < k ==> !("area::" <= rest[j]);
        assert labels[k + 1] == rest[k];
        forall j | 0 <= j < k + 1 ensures !("area::" <= labels[j]) {
          if j > 0 {
            assert labels[j] == rest[j - 1];
          }
        }
      }
    }
  }

  // ------------------------------------------------------------- the algorithm

  method FindTopBand(xs: seq<Issue>) returns (band: nat)
    requires xs != []
    ensures band == TopBand(xs)
  {
    band := xs[0].band;
    for n := 1 to |xs|
      invariant forall i :: 0 <= i < n ==> band <= xs[i].band
      invariant exists i :: 0 <= i < n && xs[i].band == band
    {
      if xs[n].band < band {
        band := xs[n].band;
      }
    }
    TopBandIsLeast(xs);
  }

  method SelectBand(xs: seq<Issue>, band: nat) returns (members: seq<Issue>)
    ensures members == Members(xs, band)
  {
    members := [];
    var n := |xs|;
    while n > 0
      invariant 0 <= n <= |xs|
      invariant members == Members(xs[n..], band)
    {
      n := n - 1;
      assert xs[n..][1..] == xs[n + 1..];
      members := (if xs[n].band == band then [xs[n]] else []) + members;
    }
    assert xs[0..] == xs;
  }

  method GroupByArea(xs: seq<Issue>) returns (clusters: seq<Cluster>)
    ensures clusters == Grouped(xs)
  {
    clusters := [];
    for n := 0 to |xs|
      invariant clusters == Grouped(xs[..n])
    {
      assert xs[..n + 1][..n] == xs[..n];
      clusters := AddTo(clusters, xs[n]);
    }
    assert xs[..|xs|] == xs;
  }

  lemma {:induction false} AreasOfSnoc(xs: seq<Issue>, x: Issue)
    ensures AreasOf(xs + [x]) == AreasOf(xs) + {Area(x)}
  {
    forall a ensures a in AreasOf(xs + [x]) <==> a in AreasOf(xs) + {Area(x)} {
      if a in AreasOf(xs) {
        var i :| 0 <= i < |xs| && Area(xs[i]) == a;
        assert Area((xs + [x])[i]) == a;
      }
      if a == Area(x) {
        assert Area((xs + [x])[|xs|]) == a;
      }
    }
  }

  lemma {:induction false} TakeSnoc(batch: seq<Issue>, xs: seq<Issue>, k: nat, cap: nat)
    requires k < |xs|
    ensures |Take(batch + xs[..k], cap)| < cap ==>
              Take(batch + xs[..k + 1], cap) == Take(batch + xs[..k], cap) + [xs[k]]
    ensures |Take(batch + xs[..k], cap)| >= cap ==> Take(batch + xs, cap) == Take(batch + xs[..k], cap)
  {
  }

  /** Append one cluster's members until the batch is full. */
  method AppendCluster(batch: seq<Issue>, used: set<string>, c: Cluster, cap: nat)
    returns (batch': seq<Issue>, used': set<string>)
    requires |batch| < cap && used == AreasOf(batch) && ProperCluster(c)
    ensures batch' == Take(batch + c.members, cap) && used' == AreasOf(batch')
    ensures used' == used + {c.name}
  {
    batch', used' := batch, used;
    assert batch' == Take(batch + c.members[..0], cap);
    hide AreasOf, Take;
    for k := 0 to |c.members|
      invariant batch' == Take(batch + c.members[..k], cap) && used' == AreasOf(batch')
      invariant used' == if k == 0 then used else used + {c.name}
      invariant k == 0 ==> batch' == batch
    {
      TakeSnoc(batch, c.members, k, cap);
      if |batch'| >= cap {
        return;
      }
      AreasOfSnoc(batch', c.members[k]);
      batch', used' := batch' + [c.members[k]], used' + {c.name};
    }
    assert c.members[..|c.members|] == c.members;
  }

  lemma {:induction false} NamesSnoc(cs: seq<Cluster>, k: nat)
    requires Proper(cs) && k < |cs|
    ensures Names(cs[..k + 1]) == Names(cs[..k]) + {cs[k].name} && cs[k].name !in Names(cs[..k])
  {
  }

  lemma {:induction false} ConcatSplit(cs: seq<Cluster>, k: nat)
    requires k <= |cs|
    ensures Concat(cs) == Concat(cs[..k]) + Concat(cs[k..])
  {
    if k == 0 {
      assert cs[..0] == [] && cs[0..] == cs;
    } else {
      assert cs[1..][..k - 1] == cs[..k][1..] && cs[1..][k - 1..] == cs[k..];
      ConcatSplit(cs[1..], k - 1);
    }
  }

  /** A batch that is full after `k` clusters is the batch. */
  lemma {:induction false} FullEarly(cs: seq<Cluster>, k: nat, cap: nat)
    requires k <= |cs| && |Concat(cs[..k])| >= cap
    ensures Take(Concat(cs), cap) == Take(Concat(cs[..k]), cap)
  {
    ConcatSplit(cs, k);
  }

  lemma {:induction false} AllowedPrefix(order: seq<Cluster>, cap: int, k: nat)
    requires k < |order| && k <= |Allowed(order, cap)|
    ensures k >= cap ==> Allowed(order, cap) == order[..k]
    ensures k < cap ==> k < |Allowed(order, cap)| && Allowed(order, cap)[..k + 1] == order[..k] + [order[k]]
  {
  }

  /** Where filling stands after the first `k` clusters: none of the caps is reached. */
  ghost predicate Filled(order: seq<Cluster>, cfg: Config, k: int, batch: seq<Issue>, used: set<string>) {
    && 0 <= k <= |order| && k <= |Allowed(order, cfg.maxAreaClusters)|
    && |used| == k && used == Names(order[..k]) && used == AreasOf(batch)
    && batch == Concat(order[..k]) && |batch| < cfg.maxBundleSize
  }

  lemma {:induction false} FillBegins(order: seq<Cluster>, cfg: Config)
    requires ValidConfig(cfg)
    ensures Filled(order, cfg, 0, [], {})
  {
    assert order[..0] == [];
  }

  lemma {:induction false} FillStep(order: seq<Cluster>, cfg: Config, k: nat, batch: seq<Issue>, used: set<string>, more: seq<Issue>)
    requires Proper(order) && Filled(order, cfg, k, batch, used) && k < |order| && k < cfg.maxAreaClusters
    requires more == Take(batch + order[k].members, cfg.maxBundleSize) && AreasOf(more) == used + {order[k].name}
    ensures if |more| >= cfg.maxBundleSize then more == Take(Concat(Allowed(order, cfg.maxAreaClusters)), cfg.maxBundleSize)
            else Filled(order, cfg, k + 1, more, AreasOf(more))
  {
    hide Concat, Names, AreasOf, Proper, Allowed, Take;
    NamesSnoc(order, k);
    AllowedPrefix(order, cfg.maxAreaClusters, k);
    assert order[..k + 1] == order[..k] + [order[k]];
    ConcatSnoc(order[..k], order[k]);
    TakeIsShort(batch + order[k].members, cfg.maxBundleSize);
    if |more| >= cfg.maxBundleSize {
      FullEarly(Allowed(order, cfg.maxAreaClusters), k + 1, cfg.maxBundleSize);
    }
  }

  lemma {:induction false} FillEnds(order: seq<Cluster>, cfg: Config, k: nat, batch: seq<Issue>, used: set<string>)
    requires Filled(order, cfg, k, batch, used) && (k == |order| || k >= cfg.maxAreaClusters)
    ensures batch == Take(Concat(Allowed(order, cfg.maxAreaClusters)), cfg.maxBundleSize)
  {
    hide Concat, Names, AreasOf, Allowed, Take;
    TakeIsShort(batch, cfg.maxBundleSize);
    if k == |order| {
      AllowedWhole(order, cfg.maxAreaClusters);
      assert order[..k] == order;
    } else {
      AllowedPrefix(order, cfg.maxAreaClusters, k);
    }
  }

  /** Fill the batch from clusters in serving order, under both caps. */
  method FillBatch(order: seq<Cluster>, cfg: Config) returns (batch: seq<Issue>, used: set<string>)
    requires ValidConfig(cfg) && Proper(order)
    ensures batch == Take(Concat(Allowed(order, cfg.maxAreaClusters)), cfg.maxBundleSize)
    ensures used == AreasOf(batch)
  {
    assert forall i :: 0 <= i < |order| ==> ProperCluster(order[i]);
    hide Concat, Names, AreasOf, Proper, ProperCluster, Allowed, Take;
    batch, used := [], {};
    FillBegins(order, cfg);
    var k := 0;
    while k < |order|
      invariant Filled(order, cfg, k, batch, used)
      decreases |order| - k
    {
      var c := order[k];
      NamesSnoc(order, k);
      if |used| >= cfg.maxAreaClusters && c.name !in used {
        FillEnds(order, cfg, k, batch, used);
        return;
      }
      ghost var before, areas := batch, used;
      batch, used := AppendCluster(batch, used, c, cfg.maxBundleSize);
      FillStep(order, cfg, k, before, areas, batch);
      k := k + 1;
      if |batch| >= cfg.maxBundleSize {
        return;
      }
    }
    FillEnds(order, cfg, k, batch, used);
  }

  lemma {:induction false} TakeIsShort(xs: seq<Issue>, n: nat)
    ensures |Take(xs, n)| < n ==> Take(xs, n) == xs
    ensures |xs| < n ==> Take(xs, n) == xs
    ensures |Take(xs, n)| >= n ==> |xs| >= n
  {
  }

  lemma {:induction false} AllowedWhole(order: seq<Cluster>, cap: int)
    requires |order| <= |Allowed(order, cap)|
    ensures Allowed(order, cap) == order
  {
  }

  /** The packer meets its outright specification. */
  method PackRepoCandidates(candidates: seq<Issue>, cfg: Config) returns (batch: seq<Issue>, reason: Reason)
    requires ValidConfig(cfg)
    ensures batch == Batch(candidates, cfg)
    ensures reason == ReasonFor(candidates, cfg)
  {
    if candidates == [] {
      return [], Empty;
    }
    var band := FindTopBand(candidates);
    var members := SelectBand(candidates, band);
    var clusters := GroupByArea(Order.Sort(members, RecencyLe));
    var order := Order.Sort(clusters, ClusterLe);
    BandOrderFacts(candidates);
    var used;
    batch, used := FillBatch(order, cfg);
    reason := Packed(band, used, |batch|, cfg.maxBundleSize);
  }
}
