/** Walks in a finite directed graph given as a set of edges. */
module Graphs {

  type Graph = set<(string, string)>

  ghost predicate Walk(g: Graph, p: seq<string>) {
    |p| > 0 && forall i :: 0 <= i < |p| - 1 ==> (p[i], p[i + 1]) in g
  }

  ghost predicate WalkFrom(g: Graph, n: string, p: seq<string>) {
    Walk(g, p) && p[0] == n
  }

  ghost predicate Repeats(p: seq<string>) {
    exists i, j :: 0 <= i < j < |p| && p[i] == p[j]
  }

  /** Some walk starting at `n` visits a node twice, that is, a path from `n` leads into a cycle. */
  ghost predicate ReachesCycle(g: Graph, n: string) {
    exists p :: WalkFrom(g, n, p) && Repeats(p)
  }

  ghost predicate IsCycle(g: Graph, p: seq<string>) {
    Walk(g, p) && |p| > 1 && p[0] == p[|p| - 1]
  }

  ghost predicate HasCycle(g: Graph) {
    exists p :: IsCycle(g, p)
  }

  /** `n` lies on a cycle. */
  ghost predicate OnCycle(g: Graph, n: string) {
    exists p :: IsCycle(g, p) && p[0] == n
  }

  ghost predicate Reaches(g: Graph, n: string, goal: set<string>) {
    exists p :: WalkFrom(g, n, p) && p[|p| - 1] in goal
  }

  lemma ReachesSelf(g: Graph, n: string, goal: set<string>)
    requires n in goal
    ensures Reaches(g, n, goal)
  {
    var p := [n];
    assert WalkFrom(g, n, p) && p[|p| - 1] in goal;
  }

  lemma ReachesStep(g: Graph, n: string, m: string, goal: set<string>)
    requires (n, m) in g && Reaches(g, m, goal)
    ensures Reaches(g, n, goal)
  {
    var p :| WalkFrom(g, m, p) && p[|p| - 1] in goal;
    var q := [n] + p;
    forall i | 0 <= i < |q| - 1 ensures (q[i], q[i + 1]) in g {
      if i > 0 { assert q[i] == p[i - 1] && q[i + 1] == p[i]; }
    }
    assert WalkFrom(g, n, q) && q[|q| - 1] in goal;
  }

  /** Walks compose: what can reach something that reaches the goal reaches the goal. */
  lemma {:induction false} ReachesTransitive(g: Graph, n: string, mid: set<string>, goal: set<string>)
    requires Reaches(g, n, mid)
    requires forall m :: m in mid ==> Reaches(g, m, goal)
    ensures Reaches(g, n, goal)
  {
    var p :| WalkFrom(g, n, p) && p[|p| - 1] in mid;
    var i := |p| - 1;
    while i > 0
      invariant 0 <= i < |p|
      invariant Reaches(g, p[i], goal)
    {
      i := i - 1;
      ReachesStep(g, p[i], p[i + 1], goal);
    }
  }

  lemma ReachesMonotone(g: Graph, n: string, a: set<string>, b: set<string>)
    requires Reaches(g, n, a) && a <= b
    ensures Reaches(g, n, b)
  {
    var p :| WalkFrom(g, n, p) && p[|p| - 1] in a;
    assert WalkFrom(g, n, p) && p[|p| - 1] in b;
  }

  lemma ReachesCycleStep(g: Graph, n: string, m: string)
    requires (n, m) in g && ReachesCycle(g, m)
    ensures ReachesCycle(g, n)
  {
    var p :| WalkFrom(g, m, p) && Repeats(p);
    var q := [n] + p;
    forall i | 0 <= i < |q| - 1 ensures (q[i], q[i + 1]) in g {
      if i > 0 { assert q[i] == p[i - 1] && q[i + 1] == p[i]; }
    }
    var i, j :| 0 <= i < j < |p| && p[i] == p[j];
    assert q[i + 1] == q[j + 1];
    assert WalkFrom(g, n, q) && Repeats(q);
  }

  /** `order` lists every successor of each of its nodes earlier than the node itself. */
  ghost predicate SuccessorsFirst(g: Graph, order: seq<string>) {
    forall k, m :: 0 <= k < |order| && (order[k], m) in g ==> m in order[..k]
  }

  /** A walk starting inside such an order strictly descends in it. */
  lemma {:induction false} WalkDescends(g: Graph, order: seq<string>, p: seq<string>, k: nat) returns (at: seq<nat>)
    requires SuccessorsFirst(g, order) && Walk(g, p) && k < |order| && order[k] == p[0]
    ensures |at| == |p| && at[0] == k
    ensures forall i :: 0 <= i < |p| ==> at[i] < |order| && order[at[i]] == p[i]
    ensures forall i :: 0 <= i < |p| - 1 ==> at[i + 1] < at[i]
  {
    at := [k];
    while |at| < |p|
      invariant 0 < |at| <= |p| && at[0] == k
      invariant forall i :: 0 <= i < |at| ==> at[i] < |order| && order[at[i]] == p[i]
      invariant forall i :: 0 <= i < |at| - 1 ==> at[i + 1] < at[i]
    {
      var last := at[|at| - 1];
      assert (order[last], p[|at|]) in g;
      var next :| 0 <= next < last && order[next] == p[|at|];
      at := at + [next];
    }
  }

  lemma {:induction false} DescendingAt(at: seq<nat>, i: nat, j: nat)
    requires forall i :: 0 <= i < |at| - 1 ==> at[i + 1] < at[i]
    requires i < j < |at|
    ensures at[j] < at[i]
    decreases j
  {
    if j > i + 1 { DescendingAt(at, i, j - 1); }
  }

  /** Nothing listed in a successors-first order without repetition reaches a cycle. */
  lemma NoCycleFromOrder(g: Graph, order: seq<string>, k: nat)
    requires SuccessorsFirst(g, order) && k < |order|
    requires forall i, j :: 0 <= i < j < |order| ==> order[i] != order[j]
    ensures !ReachesCycle(g, order[k])
    ensures !OnCycle(g, order[k])
  {
    forall p | WalkFrom(g, order[k], p) ensures !Repeats(p) {
      var at := WalkDescends(g, order, p, k);
      forall i, j | 0 <= i < j < |p| ensures p[i] != p[j] { DescendingAt(at, i, j); }
    }
    if OnCycle(g, order[k]) {
      var p :| IsCycle(g, p) && p[0] == order[k];
      assert WalkFrom(g, order[k], p) && Repeats(p);
    }
  }

  /** Every node of `stuck` has a successor in `stuck`: walks inside it can be made as long as one likes. */
  ghost predicate Trapped(g: Graph, stuck: set<string>) {
    forall n {:trigger HasNext(g, stuck, n)} :: n in stuck ==> HasNext(g, stuck, n)
  }

  ghost predicate HasNext(g: Graph, stuck: set<string>, n: string) {
    exists m :: m in stuck && (n, m) in g
  }

  lemma {:induction false} LongWalk(g: Graph, stuck: set<string>, n: string, len: nat) returns (p: seq<string>)
    requires Trapped(g, stuck) && n in stuck && len > 0
    ensures |p| == len && WalkFrom(g, n, p)
    ensures forall i :: 0 <= i < |p| ==> p[i] in stuck
  {
    p := [n];
    while |p| < len
      invariant 0 < |p| <= len && WalkFrom(g, n, p)
      invariant forall i :: 0 <= i < |p| ==> p[i] in stuck
    {
      assert HasNext(g, stuck, p[|p| - 1]);
      var m :| m in stuck && (p[|p| - 1], m) in g;
      p := p + [m];
    }
  }

  /** Pigeonhole. */
  lemma {:induction false} MustRepeat(p: seq<string>, s: set<string>)
    requires forall i :: 0 <= i < |p| ==> p[i] in s
    requires |p| > |s|
    ensures Repeats(p)
  {
    if !Repeats(p) {
      DistinctFit(p, s);
      assert false;
    }
  }

  lemma {:induction false} DistinctFit(p: seq<string>, s: set<string>)
    requires forall i :: 0 <= i < |p| ==> p[i] in s
    requires !Repeats(p)
    ensures |p| <= |s|
  {
    if p == [] {
    } else {
      var x := p[|p| - 1];
      var q := p[..|p| - 1];
      forall i | 0 <= i < |q| ensures q[i] in s - {x} {
        assert p[i] != p[|p| - 1];
      }
      forall i, j | 0 <= i < j < |q| ensures q[i] != q[j] {
        assert q[i] == p[i] && q[j] == p[j];
      }
      DistinctFit(q, s - {x});
    }
  }

  lemma TrappedReachesCycle(g: Graph, stuck: set<string>, n: string)
    requires Trapped(g, stuck) && n in stuck
    ensures ReachesCycle(g, n)
  {
    var p := LongWalk(g, stuck, n, |stuck| + 1);
    MustRepeat(p, stuck);
    assert WalkFrom(g, n, p) && Repeats(p);
  }

  /** A graph has a cycle exactly when some node reaches one. */
  lemma CycleIffReached(g: Graph)
    ensures HasCycle(g) <==> exists n :: ReachesCycle(g, n)
  {
    if HasCycle(g) {
      var p :| IsCycle(g, p);
      assert WalkFrom(g, p[0], p) && Repeats(p);
      assert ReachesCycle(g, p[0]);
    }
    if n :| ReachesCycle(g, n) {
      var p :| WalkFrom(g, n, p) && Repeats(p);
      var i, j :| 0 <= i < j < |p| && p[i] == p[j];
      var q := p[i..j + 1];
      forall k | 0 <= k < |q| - 1 ensures (q[k], q[k + 1]) in g {
        assert (p[i + k], p[i + k + 1]) in g;
      }
      assert IsCycle(g, q);
    }
  }
}
