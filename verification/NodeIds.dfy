/** Node identity: the scheduler's `same_node` and the executor's `_node_ids_match`. */
module NodeIds {
  import opened Basics

  const NODE_PREFIX: string := "node_"

  function Strip(s: string): string
    decreases |s|
  {
    if s == [] then []
    else if IsSpace(s[0]) then Strip(s[1..])
    else if IsSpace(s[|s| - 1]) then Strip(s[..|s| - 1])
    else s
  }

  predicate Trimmed(s: string) {
    s == [] || (!IsSpace(s[0]) && !IsSpace(s[|s| - 1]))
  }

  predicate Prefixed(s: string) {
    NODE_PREFIX <= s
  }

  function RemovePrefix(s: string): string {
    if Prefixed(s) then s[|NODE_PREFIX|..] else s
  }

  /** The bare node name: at most one leading `node_` removed. */
  function CanonicalNodeId(id: string): string {
    RemovePrefix(Strip(id))
  }

  /** The scheduler's and the placement gate's notion of one node. */
  predicate SameNode(a: string, b: string) {
    a != "" && b != "" && CanonicalNodeId(a) == CanonicalNodeId(b)
  }

  /** The executor's own comparison. */
  predicate NodeIdsMatch(a: string, b: string) {
    a != "" && b != "" && (a == b || RemovePrefix(a) == b || RemovePrefix(b) == a)
  }

  predicate IsAssignedToMe(assignedTo: string, me: string) {
    assignedTo != "" && (assignedTo == me || assignedTo == NODE_PREFIX + me || RemovePrefix(assignedTo) == me)
  }

  ghost predicate Blank(s: string) {
    forall i :: 0 <= i < |s| ==> IsSpace(s[i])
  }

  /** `core` between blanks on both sides. */
  ghost predicate Padded(s: string, left: string, core: string, right: string) {
    s == left + core + right && Blank(left) && Blank(right)
  }

  lemma {:induction false} PadLeft(c: char, s: string, left: string, core: string, right: string)
    requires IsSpace(c) && Padded(s, left, core, right)
    ensures Padded([c] + s, [c] + left, core, right)
  {
    hide IsSpace;
  }

  lemma {:induction false} PadRight(c: char, s: string, left: string, core: string, right: string)
    requires IsSpace(c) && Padded(s, left, core, right)
    ensures Padded(s + [c], left, core, right + [c])
  {
    hide IsSpace;
  }

  /** Stripping takes whitespace off both ends, all of it and nothing else. */
  lemma {:induction false} StripTrims(s: string) returns (left: string, right: string)
    ensures Padded(s, left, Strip(s), right) && Trimmed(Strip(s))
    decreases |s|
  {
    hide IsSpace, Padded;
    if s != [] && IsSpace(s[0]) {
      left, right := StripTrims(s[1..]);
      PadLeft(s[0], s[1..], left, Strip(s), right);
      left := [s[0]] + left;
      assert s == [s[0]] + s[1..];
    } else if s != [] && IsSpace(s[|s| - 1]) {
      var n := |s| - 1;
      left, right := StripTrims(s[..n]);
      PadRight(s[n], s[..n], left, Strip(s), right);
      right := right + [s[n]];
      assert s == s[..n] + [s[n]];
    } else {
      left, right := [], [];
      Unpadded(s);
    }
  }

  lemma {:induction false} Unpadded(s: string)
    ensures Padded(s, [], s, [])
  {
    assert [] + s + [] == s;
  }

  /** A task is this node's exactly when it is assigned to the node's id, bare or with the prefix. */
  lemma {:induction false} AssignedExactly(assignedTo: string, me: string)
    ensures IsAssignedToMe(assignedTo, me) <==> assignedTo != "" && (assignedTo == me || assignedTo == "node_" + me)
  {
    PrefixFacts(assignedTo);
    PrefixFacts(me);
  }

  /** On non-empty ids `SameNode` is an equivalence. */
  lemma {:induction false} SameNodeIsEquivalence(a: string, b: string, c: string)
    ensures SameNode(a, a) <==> a != ""
    ensures SameNode(a, b) ==> SameNode(b, a)
    ensures SameNode(a, b) && SameNode(b, c) ==> SameNode(a, c)
  {
  }

  lemma {:induction false} PrefixFacts(s: string)
    ensures Prefixed(s) ==> s == NODE_PREFIX + RemovePrefix(s)
    ensures RemovePrefix(NODE_PREFIX + s) == s && Prefixed(NODE_PREFIX + s)
  {
  }

  /** Exactly when the two comparisons disagree on ids without surrounding whitespace: both carry
      the prefix and one is the other with a second prefix in front. */
  lemma {:induction false} ComparisonsDisagreeExactly(a: string, b: string)
    requires Trimmed(a) && Trimmed(b) && a != "" && b != ""
    ensures SameNode(a, b) ==> NodeIdsMatch(a, b)
    ensures NodeIdsMatch(a, b) != SameNode(a, b)
            <==> Prefixed(a) && Prefixed(b) && (a == NODE_PREFIX + b || b == NODE_PREFIX + a)
  {
  }

  /** A node may report under its bare name or under the registry's spelling of it. */
  ghost predicate Spells(id: string, bare: string) {
    id == bare || id == NODE_PREFIX + bare
  }

  /** On such spellings of proper bare names the two comparisons agree. */
  lemma {:induction false} ComparisonsAgreeOnSpellings(a: string, b: string, x: string, y: string)
    requires Spells(a, x) && Spells(b, y)
    requires x != "" && y != "" && Trimmed(x) && Trimmed(y) && !Prefixed(x) && !Prefixed(y)
    ensures NodeIdsMatch(a, b) <==> SameNode(a, b)
    ensures SameNode(a, b) <==> x == y
  {
    PrefixFacts(x);
    PrefixFacts(y);
    assert Trimmed(NODE_PREFIX + x) && Trimmed(NODE_PREFIX + y) by {
      assert (NODE_PREFIX + x)[|NODE_PREFIX + x| - 1] == x[|x| - 1];
      assert (NODE_PREFIX + y)[|NODE_PREFIX + y| - 1] == y[|y| - 1];
    }
    ComparisonsDisagreeExactly(a, b);
    assert a == NODE_PREFIX + b ==> !Prefixed(b);
    assert b == NODE_PREFIX + a ==> !Prefixed(a);
  }

  /** Neither hypothesis can go: a doubled prefix and a padded id are told apart differently. */
  lemma {:induction false} ComparisonsDisagreeWitness()
    ensures NodeIdsMatch("node_x", "node_node_x") && !SameNode("node_x", "node_node_x")
    ensures SameNode(" x", "x") && !NodeIdsMatch(" x", "x")
  {
  }
}
