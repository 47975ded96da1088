/** Orders and sorting: code-point order on strings, and a stable sort by a given order whose
    result depends only on the elements when the order separates them. */
module Order {

  /** Code-point order, the order `<` on source strings. */
  predicate StringLe(a: string, b: string) {
    |a| == 0 || (|b| > 0 && (a[0] < b[0] || (a[0] == b[0] && StringLe(a[1..], b[1..]))))
  }

  lemma {:induction false} StringLeTotal(a: string, b: string)
    ensures StringLe(a, b) || StringLe(b, a)
  {
    if |a| > 0 && |b| > 0 && a[0] == b[0] {
      StringLeTotal(a[1..], b[1..]);
    }
  }

  lemma {:induction false} StringLeAntisymmetric(a: string, b: string)
    requires StringLe(a, b) && StringLe(b, a)
    ensures a == b
  {
    if |a| > 0 && |b| > 0 {
      StringLeAntisymmetric(a[1..], b[1..]);
      assert a == [a[0]] + a[1..] && b == [b[0]] + b[1..];
    }
  }

  lemma {:induction false} StringLeTransitive(a: string, b: string, c: string)
    requires StringLe(a, b) && StringLe(b, c)
    ensures StringLe(a, c)
  {
    if |a| > 0 && a[0] == b[0] && b[0] == c[0] {
      StringLeTransitive(a[1..], b[1..], c[1..]);
    }
  }

  /** `a` begins `b`, or at the first difference has the smaller character. */
  ghost predicate Ascends(a: string, b: string) {
    a <= b || exists k :: 0 <= k < |a| && k < |b| && a[..k] == b[..k] && a[k] < b[k]
  }

  lemma {:induction false} AscendsTail(a: string, b: string)
    requires |a| > 0 && |b| > 0 && a[0] == b[0]
    ensures Ascends(a, b) <==> Ascends(a[1..], b[1..])
  {
    var a', b' := a[1..], b[1..];
    assert a == [a[0]] + a' && b == [b[0]] + b';
    if k :| 0 <= k < |a'| && k < |b'| && a'[..k] == b'[..k] && a'[k] < b'[k] {
      assert a[..k + 1] == [a[0]] + a'[..k] && b[..k + 1] == [b[0]] + b'[..k];
      assert a[k + 1] < b[k + 1];
    }
    if k :| 0 <= k < |a| && k < |b| && a[..k] == b[..k] && a[k] < b[k] {
      assert a'[..k - 1] == a[..k][1..] && b'[..k - 1] == b[..k][1..];
      assert a'[k - 1] < b'[k - 1];
    }
  }

  lemma {:induction false} AscendsHead(a: string, b: string)
    requires |a| > 0 && |b| > 0
    ensures a[0] < b[0] ==> Ascends(a, b)
    ensures Ascends(a, b) ==> a[0] <= b[0]
  {
    if a[0] < b[0] {
      assert a[..0] == b[..0];
    }
    if !(a <= b) && Ascends(a, b) {
      var k :| 0 <= k < |a| && k < |b| && a[..k] == b[..k] && a[k] < b[k];
      if k > 0 {
        assert a[0] == a[..k][0] == b[..k][0] == b[0];
      }
    }
  }

  lemma {:induction false} StringLeExactly(a: string, b: string)
    ensures StringLe(a, b) <==> Ascends(a, b)
  {
    if |a| > 0 && |b| > 0 {
      if a[0] == b[0] {
        AscendsTail(a, b);
        StringLeExactly(a[1..], b[1..]);
      } else {
        AscendsHead(a, b);
      }
    }
  }

  // ------------------------------------------------------------------ sorting

  ghost predicate SortedBy<T>(xs: seq<T>, le: (T, T) -> bool) {
    forall i, j :: 0 <= i < j < |xs| ==> le(xs[i], xs[j])
  }

  /** `le` is total and transitive on the elements of `xs`. */
  ghost predicate Orders<T(!new)>(le: (T, T) -> bool, xs: seq<T>) {
    && (forall x, y :: x in xs && y in xs ==> le(x, y) || le(y, x))
    && (forall x, y, z :: x in xs && y in xs && z in xs && le(x, y) && le(y, z) ==> le(x, z))
  }

  /** `le` never ties two different elements of `xs`. */
  ghost predicate Separates<T(!new)>(le: (T, T) -> bool, xs: seq<T>) {
    forall x, y :: x in xs && y in xs && le(x, y) && le(y, x) ==> x == y
  }

  function Insert<T>(x: T, xs: seq<T>, le: (T, T) -> bool): seq<T> {
    if xs == [] || le(x, xs[0]) then [x] + xs else [xs[0]] + Insert(x, xs[1..], le)
  }

  /** Stable sort: of two tied elements the earlier stays first. */
  function Sort<T>(xs: seq<T>, le: (T, T) -> bool): seq<T> {
    if xs == [] then [] else Insert(xs[0], Sort(xs[1..], le), le)
  }

  lemma {:induction false} InsertKeepsElements<T>(x: T, xs: seq<T>, le: (T, T) -> bool)
    ensures multiset(Insert(x, xs, le)) == multiset(xs) + multiset{x}
    ensures |Insert(x, xs, le)| == |xs| + 1
  {
    if xs != [] && !le(x, xs[0]) {
      InsertKeepsElements(x, xs[1..], le);
      assert xs == [xs[0]] + xs[1..];
    }
  }

  lemma {:induction false} SortKeepsElements<T>(xs: seq<T>, le: (T, T) -> bool)
    ensures multiset(Sort(xs, le)) == multiset(xs)
    ensures |Sort(xs, le)| == |xs|
  {
    if xs != [] {
      SortKeepsElements(xs[1..], le);
      InsertKeepsElements(xs[0], Sort(xs[1..], le), le);
      assert xs == [xs[0]] + xs[1..];
    }
  }

  lemma {:induction false} SameElements<T>(xs: seq<T>, ys: seq<T>)
    requires multiset(xs) == multiset(ys)
    ensures forall x :: x in xs <==> x in ys
  {
    forall x ensures x in xs <==> x in ys {
      assert x in xs <==> x in multiset(xs);
      assert x in ys <==> x in multiset(ys);
    }
  }

  lemma {:induction false} InsertAddsOnly<T>(x: T, xs: seq<T>, le: (T, T) -> bool)
    ensures forall j :: 0 <= j < |Insert(x, xs, le)| ==> Insert(x, xs, le)[j] == x || Insert(x, xs, le)[j] in xs
  {
    if xs != [] && !le(x, xs[0]) {
      InsertAddsOnly(x, xs[1..], le);
    }
  }

  lemma {:induction false} InsertSorted<T>(x: T, xs: seq<T>, le: (T, T) -> bool)
    requires SortedBy(xs, le)
    requires forall j :: 0 <= j < |xs| ==> le(x, xs[j]) || le(xs[j], x)
    requires forall i, j :: 0 <= i < j < |xs| && le(x, xs[i]) ==> le(x, xs[j])
    ensures SortedBy(Insert(x, xs, le), le)
  {
    if xs != [] && !le(x, xs[0]) {
      var rest := Insert(x, xs[1..], le);
      InsertSorted(x, xs[1..], le);
      InsertAddsOnly(x, xs[1..], le);
      forall j | 0 <= j < |rest| ensures le(xs[0], rest[j]) {
        if rest[j] != x {
          var k :| 0 <= k < |xs[1..]| && xs[1..][k] == rest[j];
        }
      }
    }
  }

  lemma {:induction false} SortSorts<T(!new)>(xs: seq<T>, le: (T, T) -> bool)
    requires Orders(le, xs)
    ensures SortedBy(Sort(xs, le), le)
  {
    if xs != [] {
      var rest := Sort(xs[1..], le);
      assert Orders(le, xs[1..]) by {
        assert forall y :: y in xs[1..] ==> y in xs;
      }
      SortSorts(xs[1..], le);
      SortKeepsElements(xs[1..], le);
      SameElements(rest, xs[1..]);
      forall j | 0 <= j < |rest| ensures rest[j] in xs {
        assert rest[j] in rest && rest[j] in xs[1..];
      }
      InsertSorted(xs[0], rest, le);
    }
  }

  lemma {:induction false} SortedHeads<T(!new)>(xs: seq<T>, ys: seq<T>, le: (T, T) -> bool)
    requires xs != [] && ys != [] && xs[0] in ys && ys[0] in xs
    requires SortedBy(xs, le) && SortedBy(ys, le) && Orders(le, xs) && Separates(le, xs)
    ensures xs[0] == ys[0]
  {
  }

  lemma {:induction false} DropHead<T>(xs: seq<T>)
    requires xs != []
    ensures multiset(xs[1..]) == multiset(xs) - multiset{xs[0]}
  {
    assert xs == [xs[0]] + xs[1..];
  }

  lemma {:induction false} TailIsSorted<T(!new)>(xs: seq<T>, le: (T, T) -> bool)
    requires xs != [] && SortedBy(xs, le) && Orders(le, xs) && Separates(le, xs)
    ensures SortedBy(xs[1..], le) && Orders(le, xs[1..]) && Separates(le, xs[1..])
  {
    assert forall y :: y in xs[1..] ==> y in xs;
  }

  /** Two sorted lists of the same elements are the same list, when the order separates them. */
  lemma {:induction false} SortedUnique<T(!new)>(xs: seq<T>, ys: seq<T>, le: (T, T) -> bool)
    requires multiset(xs) == multiset(ys)
    requires SortedBy(xs, le) && SortedBy(ys, le) && Orders(le, xs) && Separates(le, xs)
    ensures xs == ys
  {
    hide SortedBy, Orders, Separates;
    SameLength(xs, ys);
    if xs != [] {
      SameElements(xs, ys);
      assert xs[0] in xs && ys[0] in ys;
      SortedHeads(xs, ys, le);
      TailsMatch(xs, ys);
      TailIsSorted(xs, le);
      SortedTail(ys, le);
      SortedUnique(xs[1..], ys[1..], le);
      assert xs == [xs[0]] + xs[1..] && ys == [ys[0]] + ys[1..];
    }
  }

  lemma {:induction false} TailsMatch<T>(xs: seq<T>, ys: seq<T>)
    requires xs != [] && ys != [] && multiset(xs) == multiset(ys) && xs[0] == ys[0]
    ensures multiset(xs[1..]) == multiset(ys[1..])
  {
    DropHead(xs);
    DropHead(ys);
  }

  lemma {:induction false} SameLength<T>(xs: seq<T>, ys: seq<T>)
    requires multiset(xs) == multiset(ys)
    ensures |xs| == |ys|
  {
    assert |multiset(xs)| == |xs| && |multiset(ys)| == |ys|;
  }

  lemma {:induction false} SortedTail<T>(xs: seq<T>, le: (T, T) -> bool)
    requires xs != [] && SortedBy(xs, le)
    ensures SortedBy(xs[1..], le)
  {
  }

  /** Sorting forgets the order of the input. */
  lemma {:induction false} SortOfPermutation<T(!new)>(xs: seq<T>, ys: seq<T>, le: (T, T) -> bool)
    requires multiset(xs) == multiset(ys) && Orders(le, xs) && Separates(le, xs)
    ensures Sort(xs, le) == Sort(ys, le)
  {
    SameElements(xs, ys);
    SortKeepsElements(xs, le);
    SortKeepsElements(ys, le);
    SortSorts(xs, le);
    SortSorts(ys, le);
    SameElements(Sort(xs, le), xs);
    SortedUnique(Sort(xs, le), Sort(ys, le), le);
  }

  /** The head of a stable sort is the first of the least elements. */
  lemma {:induction false} SortHead<T(!new)>(xs: seq<T>, le: (T, T) -> bool) returns (i: nat)
    requires xs != [] && Orders(le, xs)
    ensures i < |xs| && Sort(xs, le) != [] && Sort(xs, le)[0] == xs[i]
    ensures forall j :: 0 <= j < |xs| ==> le(xs[i], xs[j])
    ensures forall j :: 0 <= j < i ==> !le(xs[j], xs[i])
  {
    var rest := xs[1..];
    i := 0;
    if rest == [] {
      assert le(xs[0], xs[0]);
    } else {
      assert Orders(le, rest) by {
        assert forall y :: y in rest ==> y in xs;
      }
      var k := SortHead(rest, le);
      assert rest[k] in xs && xs[0] in xs;
      if le(xs[0], rest[k]) {
        forall j | 0 <= j < |xs| ensures le(xs[0], xs[j]) {
          if j > 0 {
            assert xs[j] == rest[j - 1] && xs[j] in xs;
          }
        }
      } else {
        i := k + 1;
        assert le(xs[i], xs[0]);
        forall j | 0 <= j < |xs| ensures le(xs[i], xs[j]) {
          if j > 0 {
            assert xs[j] == rest[j - 1];
          }
        }
        forall j | 0 <= j < i ensures !le(xs[j], xs[i]) {
          if j > 0 {
            assert xs[j] == rest[j - 1];
          }
        }
      }
    }
  }

  /** Where an element is inserted: behind only those it may not go before. */
  lemma {:induction false} InsertAt<T>(x: T, xs: seq<T>, le: (T, T) -> bool) returns (m: nat)
    ensures m <= |xs| && Insert(x, xs, le) == xs[..m] + [x] + xs[m..]
    ensures forall k :: 0 <= k < m ==> !le(x, xs[k])
  {
    if xs == [] || le(x, xs[0]) {
      m := 0;
    } else {
      var j := InsertAt(x, xs[1..], le);
      m := j + 1;
      assert xs[..m] == [xs[0]] + xs[1..][..j] && xs[m..] == xs[1..][j..];
      forall k | 0 <= k < m ensures !le(x, xs[k]) {
        if k > 0 {
          assert xs[k] == xs[1..][k - 1];
        }
      }
    }
  }

  /** The position before the insertion of what is not the inserted element. */
  lemma {:induction false} InsertShifts<T>(x: T, xs: seq<T>, m: nat, p: nat)
    requires m <= |xs| && p <= |xs| && p != m
    ensures var k := if p < m then p else p - 1;
            k < |xs| && (xs[..m] + [x] + xs[m..])[p] == xs[k]
  {
  }

  lemma {:induction false} BehindHead<T>(xs: seq<T>, x: T, i: nat)
    requires NoDuplicates(xs) && i < |xs| && xs[i] == x && x in xs[1..]
    ensures i > 0 && xs[1..][i - 1] == x && NoDuplicates(xs[1..])
  {
    var m :| 0 <= m < |xs[1..]| && xs[1..][m] == x;
    assert xs[m + 1] == x;
  }

  lemma {:induction false} HeadIsOnce<T>(xs: seq<T>, i: nat)
    requires NoDuplicates(xs) && i < |xs| && xs[i] == xs[0]
    ensures i == 0
  {
  }

  /** Tied elements keep the order in which they were listed. */
  lemma {:induction false} SortIsStable<T>(xs: seq<T>, le: (T, T) -> bool, p: nat, q: nat, i: nat, j: nat)
    requires NoDuplicates(xs) && p < q < |Sort(xs, le)| && i < |xs| && j < |xs|
    requires Sort(xs, le)[p] == xs[i] && Sort(xs, le)[q] == xs[j] && le(xs[j], xs[i])
    ensures i < j
  {
    hide NoDuplicates;
    var rest := xs[1..];
    var sorted := Sort(rest, le);
    SortKeepsElements(rest, le);
    SameElements(sorted, rest);
    var m := InsertAt(xs[0], sorted, le);
    assert Sort(xs, le) == sorted[..m] + [xs[0]] + sorted[m..];
    hide Sort;
    var p', q' := if p < m then p else p - 1, if q < m then q else q - 1;
    if p == m {
      InsertShifts(xs[0], sorted, m, q);
      assert sorted[q'] in sorted;
      BehindHead(xs, xs[j], j);
      HeadIsOnce(xs, i);
    } else if q == m {
      InsertShifts(xs[0], sorted, m, p);
      assert false;
    } else {
      InsertShifts(xs[0], sorted, m, p);
      InsertShifts(xs[0], sorted, m, q);
      assert sorted[p'] in sorted && sorted[q'] in sorted;
      BehindHead(xs, xs[i], i);
      BehindHead(xs, xs[j], j);
      SortIsStable(rest, le, p', q', i - 1, j - 1);
    }
  }

  // --------------------------------------------------------------- duplicates

  ghost predicate NoDuplicates<T>(xs: seq<T>) {
    forall i, j :: 0 <= i < j < |xs| ==> xs[i] != xs[j]
  }

  lemma {:induction false} NoDuplicatesCount<T>(xs: seq<T>)
    ensures NoDuplicates(xs) <==> forall x :: multiset(xs)[x] <= 1
  {
    if xs != [] {
      var rest := xs[1..];
      NoDuplicatesCount(rest);
      assert xs == [xs[0]] + rest;
      assert forall x :: multiset(xs)[x] == multiset(rest)[x] + if x == xs[0] then 1 else 0;
      if NoDuplicates(xs) {
        assert NoDuplicates(rest);
        assert xs[0] !in rest;
        assert multiset(rest)[xs[0]] == 0;
      } else {
        var i, j :| 0 <= i < j < |xs| && xs[i] == xs[j];
        if i == 0 {
          assert rest[j - 1] == xs[0];
          assert xs[0] in rest;
          assert multiset(rest)[xs[0]] >= 1;
          assert multiset(xs)[xs[0]] >= 2;
        } else {
          assert rest[i - 1] == rest[j - 1];
          var x :| multiset(rest)[x] > 1;
          assert multiset(xs)[x] > 1;
        }
      }
    }
  }

  lemma {:induction false} SortKeepsNoDuplicates<T>(xs: seq<T>, le: (T, T) -> bool)
    requires NoDuplicates(xs)
    ensures NoDuplicates(Sort(xs, le))
  {
    SortKeepsElements(xs, le);
    NoDuplicatesCount(xs);
    NoDuplicatesCount(Sort(xs, le));
  }
}
