/** Finite directed graphs: cycles, topological orders, and why a graph without sources has a cycle. */
module Digraph {

  /** Consecutive elements of `p` are joined by edges. */
  ghost predicate Walk<N>(edges: set<(N, N)>, p: seq<N>) {
    p != [] && forall i | 0 <= i < |p| - 1 :: (p[i], p[i + 1]) in edges
  }

  ghost function Ends<N>(edges: set<(N, N)>): set<N> {
    (set e | e in edges :: e.0) + (set e | e in edges :: e.1)
  }

  /** A walk of at least one step that comes back to where it started. */
  ghost predicate IsCycle<N>(edges: set<(N, N)>, older p: seq<N>) {
    && |p| >= 2 && p[0] == p[|p| - 1] && Walk(edges, p)
    && forall i | 0 <= i < |p| :: p[i] in Ends(edges)
  }

  ghost predicate Cyclic<N>(edges: set<(N, N)>) {
    exists p: seq<N> :: IsCycle(edges, p)
  }

  predicate NoRepeats<N(==)>(s: seq<N>) {
    forall i, j | 0 <= i < j < |s| :: s[i] != s[j]
  }

  /** Every edge leads from an earlier element of `order` to a later one. */
  ghost predicate Topological<N>(edges: set<(N, N)>, order: seq<N>) {
    forall e | e in edges :: exists i, j :: 0 <= i < j < |order| && order[i] == e.0 && order[j] == e.1
  }

  /** A walk leads ever later in a topological order without repeats. */
  lemma {:induction false} WalkGoesLater<N>(edges: set<(N, N)>, order: seq<N>, p: seq<N>) returns (i: nat, j: nat)
    requires NoRepeats(order) && Topological(edges, order) && Walk(edges, p) && |p| >= 2
    ensures i < j < |order| && order[i] == p[0] && order[j] == p[|p| - 1]
    decreases |p|
  {
    var k := |p| - 2;
    assert (p[k], p[k + 1]) in edges;
    var a, b :| 0 <= a < b < |order| && order[a] == (p[k], p[k + 1]).0 && order[b] == (p[k], p[k + 1]).1;
    i, j := a, b;
    if |p| > 2 {
      var mid;
      i, mid := WalkGoesLater(edges, order, p[..k + 1]);
      assert mid == a;
    }
  }

  lemma OrderedIsAcyclic<N>(edges: set<(N, N)>, order: seq<N>)
    requires NoRepeats(order) && Topological(edges, order)
    ensures !Cyclic(edges)
  {
    if p: seq<N> :| IsCycle(edges, p) {
      var i, j := WalkGoesLater(edges, order, p);
    }
  }

  // ----- Going back for ever

  ghost predicate HasPredecessor<N>(edges: set<(N, N)>, stuck: set<N>, x: N) {
    exists a :: a in stuck && (a, x) in edges
  }

  lemma Predecessor<N>(edges: set<(N, N)>, stuck: set<N>, x: N) returns (a: N)
    requires HasPredecessor(edges, stuck, x)
    ensures a in stuck && (a, x) in edges
  {
    a :| a in stuck && (a, x) in edges;
  }

  /** A walk of `k` steps that ends at `b` and stays in a set in which everything has a predecessor. */
  lemma {:induction false} BackWalk<N>(edges: set<(N, N)>, stuck: set<N>, b: N, k: nat) returns (p: seq<N>)
    requires b in stuck && forall x | x in stuck :: HasPredecessor(edges, stuck, x)
    ensures |p| == k + 1 && p[k] == b && Walk(edges, p) && forall i | 0 <= i <= k :: p[i] in stuck
    decreases k
  {
    hide HasPredecessor;
    if k == 0 {
      p := [b];
    } else {
      var a := Predecessor(edges, stuck, b);
      var q := BackWalk(edges, stuck, a, k - 1);
      p := q + [b];
      WalkOn(edges, q, b);
    }
  }

  lemma WalkOn<N>(edges: set<(N, N)>, p: seq<N>, b: N)
    requires Walk(edges, p) && (p[|p| - 1], b) in edges
    ensures Walk(edges, p + [b])
  {
    var q := p + [b];
    forall i | 0 <= i < |q| - 1
      ensures (q[i], q[i + 1]) in edges
    {
      if i < |p| - 1 { assert (p[i], p[i + 1]) in edges; }
    }
  }

  lemma WalkPart<N>(edges: set<(N, N)>, p: seq<N>, i: nat, j: nat)
    requires Walk(edges, p) && i < j < |p| && p[i] == p[j]
    ensures IsCycle(edges, p[i..j + 1])
  {
    var q := p[i..j + 1];
    forall k | 0 <= k < |q| - 1
      ensures (q[k], q[k + 1]) in edges
    {
      assert (p[i + k], p[i + k + 1]) in edges;
    }
    forall k | 0 <= k < |q|
      ensures q[k] in Ends(edges)
    {
      var m := if k < |q| - 1 then k else k - 1;
      assert (q[m], q[m + 1]) in edges && (q[m], q[m + 1]).0 == q[m] && (q[m], q[m + 1]).1 == q[m + 1];
    }
  }

  /** A sequence longer than the set it is drawn from repeats an element. */
  lemma {:induction false} Repeats<N>(p: seq<N>, s: set<N>) returns (i: nat, j: nat)
    requires |p| > |s| && forall k | 0 <= k < |p| :: p[k] in s
    ensures i < j < |p| && p[i] == p[j]
    decreases |p|
  {
    var last, init := p[|p| - 1], p[..|p| - 1];
    if k :| 0 <= k < |init| && init[k] == last {
      i, j := k, |p| - 1;
    } else {
      forall k | 0 <= k < |init|
        ensures init[k] in s - {last}
      {
      }
      i, j := Repeats(init, s - {last});
    }
  }

  /** A non-empty set in which everything has a predecessor contains a cycle. */
  lemma StuckIsCyclic<N>(edges: set<(N, N)>, stuck: set<N>)
    requires stuck != {} && forall x | x in stuck :: HasPredecessor(edges, stuck, x)
    ensures Cyclic(edges)
  {
    hide HasPredecessor;
    var b :| b in stuck;
    var p := BackWalk(edges, stuck, b, |stuck|);
    var i, j := Repeats(p, stuck);
    WalkPart(edges, p, i, j);
  }

  /** A sequence without repeats is as long as its set of elements. */
  lemma {:induction false} LengthOfSet<N>(s: seq<N>)
    requires NoRepeats(s)
    ensures |set x | x in s| == |s|
    decreases |s|
  {
    if s != [] {
      var init, last := s[..|s| - 1], s[|s| - 1];
      LengthOfSet(init);
      assert (set x | x in s) == (set x | x in init) + {last};
      assert last !in init;
    }
  }
}
