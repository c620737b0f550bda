/** The set of nodes reachable from a root in a finite successor graph,
    computed depth-first with a visited list, in preorder.

    The multiversion engine's cascading abort walks the "dependents" graph
    this way: a transaction's successors are the dependents of the versions it
    created. */
module Closure {
  import opened Seqs

  type Graph = map<int, seq<int>>

  function Succ(g: Graph, x: int): seq<int> {
    if x in g then g[x] else []
  }

  /** Every node that is some node's successor. */
  function Targets(g: Graph): set<int> {
    set x, i | x in g && 0 <= i < |g[x]| :: g[x][i]
  }

  function Elems(s: seq<int>): set<int> {
    set i | 0 <= i < |s| :: s[i]
  }

  /** Every node after the first is a successor of an earlier one. */
  ghost predicate Traced(g: Graph, r: seq<int>) {
    forall i | 0 < i < |r| :: exists j | 0 <= j < i :: r[i] in Succ(g, r[j])
  }

  /** `Traced`, with `p[i]` naming the earlier node that `r[i]` succeeds. */
  ghost predicate TracedBy(g: Graph, r: seq<int>, p: seq<nat>) {
    && |p| == |r|
    && forall i | 0 < i < |r| :: p[i] < i && r[i] in Succ(g, r[p[i]])
  }

  /** The nodes of `r` from position `from` on have all their successors in `r`. */
  ghost predicate ClosedFrom(g: Graph, r: seq<int>, from: nat) {
    forall i | from <= i < |r| :: forall w | w in Succ(g, r[i]) :: w in r
  }

  /** A set that holds the successors of each of its members. */
  ghost predicate SuccClosed(g: Graph, s: set<int>) {
    forall x | x in s :: forall w | w in Succ(g, x) :: w in s
  }

  lemma SubsetCard(a: set<int>, b: set<int>)
    requires a <= b
    ensures |a| <= |b|
  {
    assert b == a + (b - a);
  }

  lemma MeasureDrops(g: Graph, seen: seq<int>, grown: seq<int>, x: int)
    requires x in Targets(g) && x !in seen
    requires |grown| > |seen| && grown[..|seen|] == seen && grown[|seen|] == x
    ensures |Targets(g) - Elems(grown)| < |Targets(g) - Elems(seen)|
  {
    var a := Targets(g) - Elems(grown);
    var b := Targets(g) - Elems(seen);
    assert x in b && x !in a;
    assert forall i | 0 <= i < |seen| :: seen[i] == grown[i];
    assert a <= b - {x};
    SubsetCard(a, b - {x});
  }

  /** Depth-first visit of `x`, which has not been seen yet: `x` goes after
      `seen`, then everything first reached through its successors. */
  function Visit(g: Graph, x: int, seen: seq<int>): (r: seq<int>)
    requires x in Targets(g) && x !in seen && NoDup(seen)
    ensures |r| > |seen| && r[..|seen|] == seen && r[|seen|] == x
    ensures NoDup(r)
    decreases |Targets(g) - Elems(seen)|, 0, 0
  {
    var seen' := seen + [x];
    MeasureDrops(g, seen, seen', x);
    VisitAll(g, Succ(g, x), seen')
  }

  /** Visit, in order, every node of `ys` not seen so far. */
  function VisitAll(g: Graph, ys: seq<int>, seen: seq<int>): (r: seq<int>)
    requires forall y | y in ys :: y in Targets(g)
    requires NoDup(seen)
    ensures |r| >= |seen| && r[..|seen|] == seen
    ensures NoDup(r)
    ensures forall y | y in ys :: y in r
    decreases |Targets(g) - Elems(seen)|, 1, |ys|
  {
    if ys == [] then seen
    else if ys[0] in seen then VisitAll(g, ys[1..], seen)
    else
      var s1 := Visit(g, ys[0], seen);
      MeasureDrops(g, seen, s1, ys[0]);
      VisitAll(g, ys[1..], s1)
  }

  /** The nodes reachable from `root`, root first, each once, in depth-first preorder. */
  function Reach(g: Graph, root: int): (r: seq<int>)
    ensures |r| > 0 && r[0] == root
    ensures NoDup(r)
    ensures forall y | y in Succ(g, root) :: y in r
  {
    var r := VisitAll(g, Succ(g, root), [root]);
    assert r[0] == root;
    r
  }

  lemma {:induction false} VisitTraced(g: Graph, x: int, seen: seq<int>, p: seq<nat>, px: nat)
    returns (p': seq<nat>)
    requires x in Targets(g) && x !in seen && NoDup(seen)
    requires TracedBy(g, seen, p) && px < |seen| && x in Succ(g, seen[px])
    ensures TracedBy(g, Visit(g, x, seen), p')
    decreases |Targets(g) - Elems(seen)|, 0, 0
  {
    var seen' := seen + [x];
    MeasureDrops(g, seen, seen', x);
    var q := p + [px];
    assert TracedBy(g, seen', q) by {
      forall i | 0 < i < |seen'| ensures q[i] < i && seen'[i] in Succ(g, seen'[q[i]]) {
        if i < |seen| {
          assert seen'[q[i]] == seen[p[i]];
        }
      }
    }
    p' := VisitAllTraced(g, Succ(g, x), seen', q, |seen|);
  }

  lemma {:induction false} VisitAllTraced(g: Graph, ys: seq<int>, seen: seq<int>, p: seq<nat>, py: nat)
    returns (p': seq<nat>)
    requires forall y | y in ys :: y in Targets(g)
    requires NoDup(seen) && TracedBy(g, seen, p)
    requires py < |seen| && forall y | y in ys :: y in Succ(g, seen[py])
    ensures TracedBy(g, VisitAll(g, ys, seen), p')
    decreases |Targets(g) - Elems(seen)|, 1, |ys|
  {
    if ys == [] {
      p' := p;
    } else if ys[0] in seen {
      p' := VisitAllTraced(g, ys[1..], seen, p, py);
    } else {
      var s1 := Visit(g, ys[0], seen);
      MeasureDrops(g, seen, s1, ys[0]);
      var p1 := VisitTraced(g, ys[0], seen, p, py);
      assert s1[py] == seen[py];
      p' := VisitAllTraced(g, ys[1..], s1, p1, py);
    }
  }

  lemma {:induction false} VisitClosed(g: Graph, x: int, seen: seq<int>)
    requires x in Targets(g) && x !in seen && NoDup(seen)
    ensures ClosedFrom(g, Visit(g, x, seen), |seen|)
    decreases |Targets(g) - Elems(seen)|, 0, 0
  {
    var seen' := seen + [x];
    MeasureDrops(g, seen, seen', x);
    VisitAllClosed(g, Succ(g, x), seen');
  }

  lemma {:induction false} VisitAllClosed(g: Graph, ys: seq<int>, seen: seq<int>)
    requires forall y | y in ys :: y in Targets(g)
    requires NoDup(seen)
    ensures ClosedFrom(g, VisitAll(g, ys, seen), |seen|)
    decreases |Targets(g) - Elems(seen)|, 1, |ys|
  {
    if ys == [] {
    } else if ys[0] in seen {
      VisitAllClosed(g, ys[1..], seen);
    } else {
      var s1 := Visit(g, ys[0], seen);
      MeasureDrops(g, seen, s1, ys[0]);
      VisitClosed(g, ys[0], seen);
      VisitAllClosed(g, ys[1..], s1);
      var r := VisitAll(g, ys[1..], s1);
      forall i | |seen| <= i < |r| ensures forall w | w in Succ(g, r[i]) :: w in r {
        if i < |s1| {
          assert r[i] == s1[i];
          forall w | w in Succ(g, r[i]) ensures w in r {
            assert w in s1;
            var k :| 0 <= k < |s1| && s1[k] == w;
            assert r[k] == w;
          }
        }
      }
    }
  }

  /** Every node `Reach` returns is reachable: each one after the root is a
      successor of an earlier one. */
  lemma ReachTraced(g: Graph, root: int)
    ensures Traced(g, Reach(g, root))
  {
    var r := Reach(g, root);
    var p := VisitAllTraced(g, Succ(g, root), [root], [0], 0);
    forall i | 0 < i < |r| ensures exists j | 0 <= j < i :: r[i] in Succ(g, r[j]) {
      assert r[i] in Succ(g, r[p[i]]);
    }
  }

  /** No reachable node is missing from `Reach`: its nodes' successors are all in it. */
  lemma ReachClosed(g: Graph, root: int)
    ensures SuccClosed(g, Elems(Reach(g, root)))
  {
    var r := Reach(g, root);
    VisitAllClosed(g, Succ(g, root), [root]);
    forall x | x in Elems(r) ensures forall w | w in Succ(g, x) :: w in Elems(r) {
      var i :| 0 <= i < |r| && r[i] == x;
      forall w | w in Succ(g, x) ensures w in Elems(r) {
        assert w in r;
      }
    }
  }

  /** Every node of a traced list lies in any successor-closed set holding its first node. */
  lemma {:induction false} TracedWithin(g: Graph, r: seq<int>, p: seq<nat>, s: set<int>, i: nat)
    requires |r| > 0 && r[0] in s && TracedBy(g, r, p) && SuccClosed(g, s)
    requires i < |r|
    ensures r[i] in s
    decreases i
  {
    if i > 0 {
      var j := p[i];
      assert j < i && r[i] in Succ(g, r[j]);
      TracedWithin(g, r, p, s, j);
      assert r[j] in s;
      assert forall w | w in Succ(g, r[j]) :: w in s;
    }
  }

  /** `Reach` is the least successor-closed set holding the root: it is closed,
      and it lies inside every other closed set that holds the root. */
  lemma ReachIsLeast(g: Graph, root: int, s: set<int>)
    requires root in s && SuccClosed(g, s)
    ensures Elems(Reach(g, root)) <= s
  {
    var r := Reach(g, root);
    var p := VisitAllTraced(g, Succ(g, root), [root], [0], 0);
    forall i | 0 <= i < |r| ensures r[i] in s {
      TracedWithin(g, r, p, s, i);
    }
  }
}
