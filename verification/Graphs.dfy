/** Dependency graphs: reachability, cycles, and the topological sort. */
module Graphs {
  import opened Values
  import opened References

  /** Each node with the nodes it depends on. */
  type Graph = map<Id, set<Id>>

  ghost predicate Closed(g: Graph)
  {
    forall n, d :: n in g && d in g[n] ==> d in g
  }

  ghost predicate Linked(g: Graph, p: seq<Id>, i: nat)
    requires i + 1 < |p|
  {
    p[i] in g && p[i + 1] in g[p[i]]
  }

  ghost predicate IsPath(g: Graph, p: seq<Id>)
  {
    p != [] && forall i: nat :: i + 1 < |p| ==> Linked(g, p, i)
  }

  lemma PathTail(g: Graph, p: seq<Id>)
    requires IsPath(g, p) && |p| >= 2
    ensures IsPath(g, p[1..]) && p[0] in g && p[1] in g[p[0]]
  {
    assert Linked(g, p, 0);
    forall i: nat | i + 1 < |p[1..]| ensures Linked(g, p[1..], i) {
      assert Linked(g, p, i + 1);
    }
  }

  lemma PathSnoc(g: Graph, p: seq<Id>, c: Id)
    requires IsPath(g, p) && p[|p| - 1] in g && c in g[p[|p| - 1]]
    ensures IsPath(g, p + [c])
  {
    forall i: nat | i + 1 < |p + [c]| ensures Linked(g, p + [c], i) {
      assert i + 1 < |p| ==> Linked(g, p, i);
    }
  }

  /** `a` is `b`, or depends on it directly or through others. */
  ghost predicate Reaches(g: Graph, a: Id, b: Id)
  {
    exists p :: IsPath(g, p) && p[0] == a && p[|p| - 1] == b
  }

  ghost predicate Cyclic(g: Graph)
  {
    exists p :: IsPath(g, p) && |p| >= 2 && p[0] == p[|p| - 1]
  }

  predicate NoDuplicates(s: seq<Id>)
  {
    forall i, j :: 0 <= i < j < |s| ==> s[i] != s[j]
  }

  function Members(s: seq<Id>): set<Id>
  {
    set x | x in s
  }

  /** `order` lists nodes of `g`, none twice, and each after everything it depends on. */
  ghost predicate Ordered(g: Graph, order: seq<Id>)
  {
    && NoDuplicates(order)
    && Members(order) <= g.Keys
    && forall i :: 0 <= i < |order| ==> g[order[i]] <= Members(order[..i])
  }

  ghost predicate TopologicalOrder(g: Graph, order: seq<Id>)
  {
    Ordered(g, order) && Members(order) == g.Keys
  }

  lemma OrderedSnoc(g: Graph, order: seq<Id>, n: Id)
    requires Ordered(g, order) && n in g && n !in order && g[n] <= Members(order)
    ensures Ordered(g, order + [n]) && Members(order + [n]) == Members(order) + {n}
  {
    var longer := order + [n];
    assert forall x :: x in longer <==> x in order || x == n;
    forall i | 0 <= i < |longer| ensures g[longer[i]] <= Members(longer[..i]) {
      assert longer[..i] == order[..i];
      assert order[..|order|] == order;
    }
  }

  function Restrict(g: Graph, nodes: set<Id>): Graph
  {
    map n | n in nodes && n in g :: g[n]
  }

  function IndexIn(order: seq<Id>, id: Id): (i: nat)
    requires id in order
    ensures i < |order| && order[i] == id
  {
    if order[0] == id then 0 else 1 + IndexIn(order[1..], id)
  }

  /** Positions in an order rank its components. */
  function Positions(order: seq<Id>): map<Id, nat>
  {
    map id | id in order :: IndexIn(order, id)
  }

  // ---- reachability ----------------------------------------------------------------------

  lemma ReachesItself(g: Graph, a: Id)
    ensures Reaches(g, a, a)
  {
    assert IsPath(g, [a]);
  }

  lemma ReachesStep(g: Graph, a: Id, b: Id, c: Id)
    requires Reaches(g, a, b) && b in g && c in g[b]
    ensures Reaches(g, a, c)
  {
    var p :| IsPath(g, p) && p[0] == a && p[|p| - 1] == b;
    PathSnoc(g, p, c);
    assert (p + [c])[0] == a;
  }

  ghost predicate ClosedSet(g: Graph, nodes: set<Id>)
  {
    forall n, d :: n in nodes && n in g && d in g[n] ==> d in nodes
  }

  lemma {:induction false} PathStaysInClosedSet(g: Graph, nodes: set<Id>, p: seq<Id>)
    requires ClosedSet(g, nodes) && IsPath(g, p) && p[0] in nodes
    ensures p[|p| - 1] in nodes
    decreases |p|
  {
    if |p| > 1 {
      PathTail(g, p);
      PathStaysInClosedSet(g, nodes, p[1..]);
    }
  }

  /** A closed set holds everything reachable from its members. */
  lemma ReachableStaysInClosedSet(g: Graph, nodes: set<Id>, a: Id, b: Id)
    requires ClosedSet(g, nodes) && a in nodes && Reaches(g, a, b)
    ensures b in nodes
  {
    var p :| IsPath(g, p) && p[0] == a && p[|p| - 1] == b;
    PathStaysInClosedSet(g, nodes, p);
  }

  // ---- orders ----------------------------------------------------------------------------

  lemma {:induction false} PathGoesBack(g: Graph, order: seq<Id>, i: nat, p: seq<Id>)
    requires Ordered(g, order) && i < |order|
    requires IsPath(g, p) && |p| >= 2 && p[0] == order[i]
    ensures p[|p| - 1] in order[..i]
    decreases |p|
  {
    PathTail(g, p);
    assert p[1] in order[..i];
    if |p| > 2 {
      var j :| 0 <= j < i && order[j] == p[1];
      PathGoesBack(g, order, j, p[1..]);
    }
  }

  /** Everything a node depends on, directly or not, comes before it. */
  lemma DependenciesComeFirst(g: Graph, order: seq<Id>, i: nat, d: Id)
    requires Ordered(g, order) && i < |order|
    requires Reaches(g, order[i], d) && d != order[i]
    ensures d in order[..i]
  {
    var p :| IsPath(g, p) && p[0] == order[i] && p[|p| - 1] == d;
    PathGoesBack(g, order, i, p);
  }

  /** An order of part of a graph is an order in the whole graph. */
  lemma OrderedInWhole(g: Graph, nodes: set<Id>, order: seq<Id>)
    requires nodes <= g.Keys && TopologicalOrder(Restrict(g, nodes), order)
    ensures Ordered(g, order) && Members(order) == nodes
  {
    forall i | 0 <= i < |order| ensures g[order[i]] <= Members(order[..i]) {
      assert order[i] in Members(order);
    }
  }

  lemma OrderedIsAcyclic(g: Graph, order: seq<Id>)
    requires TopologicalOrder(g, order)
    ensures !Cyclic(g)
  {
    if Cyclic(g) {
      var p :| IsPath(g, p) && |p| >= 2 && p[0] == p[|p| - 1];
      PathTail(g, p);
      assert p[0] in Members(order);
      var i :| 0 <= i < |order| && order[i] == p[0];
      PathGoesBack(g, order, i, p);
    }
  }

  /** Each node with everything it depends on, directly or through others. */
  ghost function Closure(g: Graph): Graph
  {
    map n | n in g :: set d | d in g && d != n && Reaches(g, n, d)
  }

  lemma OrderedInClosure(g: Graph, order: seq<Id>)
    requires Ordered(g, order)
    ensures Ordered(Closure(g), order)
  {
    forall i | 0 <= i < |order| ensures Closure(g)[order[i]] <= Members(order[..i]) {
      assert order[i] in Members(order);
      forall d | d in Closure(g)[order[i]] ensures d in Members(order[..i]) {
        DependenciesComeFirst(g, order, i, d);
      }
    }
  }

  // ---- cycles ----------------------------------------------------------------------------

  /** Every node of `nodes` depends on some node of `nodes`. */
  ghost predicate Stuck(g: Graph, nodes: set<Id>)
  {
    forall n :: n in nodes ==> n in g && g[n] * nodes != {}
  }

  lemma {:induction false} LongPath(g: Graph, nodes: set<Id>, length: nat) returns (p: seq<Id>)
    requires nodes != {} && Stuck(g, nodes) && length > 0
    ensures IsPath(g, p) && |p| == length && Members(p) <= nodes
    decreases length
  {
    if length == 1 {
      var n :| n in nodes;
      p := [n];
    } else {
      var q := LongPath(g, nodes, length - 1);
      assert q[|q| - 1] in Members(q);
      var d :| d in g[q[|q| - 1]] * nodes;
      PathSnoc(g, q, d);
      p := q + [d];
      assert forall x :: x in Members(p) ==> x in Members(q) || x == d;
    }
  }

  lemma {:induction false} Pigeonhole(s: seq<Id>, nodes: set<Id>)
    requires NoDuplicates(s) && Members(s) <= nodes
    ensures |s| <= |nodes|
    decreases |s|
  {
    if s != [] {
      var last := s[|s| - 1];
      assert last in Members(s);
      assert forall x :: x in Members(s[..|s| - 1]) ==> x in Members(s);
      Pigeonhole(s[..|s| - 1], nodes - {last});
    }
  }

  lemma StuckIsCyclic(g: Graph, nodes: set<Id>)
    requires nodes != {} && Stuck(g, nodes)
    ensures Cyclic(g)
  {
    var p := LongPath(g, nodes, |nodes| + 1);
    if NoDuplicates(p) {
      Pigeonhole(p, nodes);
    }
    var i, j :| 0 <= i < j < |p| && p[i] == p[j];
    var cycle := p[i..j + 1];
    forall k: nat | k + 1 < |cycle| ensures Linked(g, cycle, k) {
      assert Linked(g, p, i + k);
    }
    assert IsPath(g, cycle);
  }

  /** A cycle that runs through `n`. */
  ghost predicate OnCycle(g: Graph, n: Id)
  {
    exists p :: IsPath(g, p) && |p| >= 2 && p[0] == n && p[|p| - 1] == n
  }

  lemma {:induction false} PathInRestriction(g: Graph, nodes: set<Id>, p: seq<Id>)
    requires ClosedSet(g, nodes) && IsPath(g, p) && p[0] in nodes
    ensures IsPath(Restrict(g, nodes), p)
    decreases |p|
  {
    if |p| >= 2 {
      PathTail(g, p);
      PathInRestriction(g, nodes, p[1..]);
      forall i: nat | i + 1 < |p| ensures Linked(Restrict(g, nodes), p, i) {
        if i > 0 {
          assert Linked(Restrict(g, nodes), p[1..], i - 1);
        }
      }
    }
  }

  /** Restricting a graph to a closed set keeps exactly the cycles through that set. */
  lemma CyclesInRestriction(g: Graph, nodes: set<Id>)
    requires ClosedSet(g, nodes)
    ensures Cyclic(Restrict(g, nodes)) <==> exists n :: n in nodes && OnCycle(g, n)
  {
    if Cyclic(Restrict(g, nodes)) {
      var p :| IsPath(Restrict(g, nodes), p) && |p| >= 2 && p[0] == p[|p| - 1];
      forall i: nat | i + 1 < |p| ensures Linked(g, p, i) {
        assert Linked(Restrict(g, nodes), p, i);
      }
      PathTail(Restrict(g, nodes), p);
      assert OnCycle(g, p[0]);
    }
    forall n | n in nodes && OnCycle(g, n) ensures Cyclic(Restrict(g, nodes)) {
      var p :| IsPath(g, p) && |p| >= 2 && p[0] == n && p[|p| - 1] == n;
      PathInRestriction(g, nodes, p);
    }
  }

  // ---- the sort --------------------------------------------------------------------------

  /** `graphlib` adds a node for every predecessor that is not a node already. */
  function WithPredecessors(g: Graph): Graph
  {
    map n | n in g.Keys + (set m, d | m in g && d in g[m] :: d) :: if n in g then g[n] else {}
  }

  lemma WithPredecessorsIsClosed(g: Graph)
    ensures Closed(WithPredecessors(g))
  {
  }

  lemma ClosedNeedsNoNodes(g: Graph)
    requires Closed(g)
    ensures WithPredecessors(g) == g
  {
  }

  /** `waiting` counts the predecessors that each node still waits for. */
  ghost predicate Counts(g: Graph, placed: set<Id>, waiting: map<Id, int>)
  {
    waiting.Keys == g.Keys && forall n :: n in g ==> waiting[n] == |g[n] - placed|
  }

  function Ready(waiting: map<Id, int>, placed: set<Id>): set<Id>
  {
    set n | n in waiting && n !in placed && waiting[n] == 0
  }

  /** `done(n)`: every successor of `n` waits for one predecessor fewer. */
  function Done(g: Graph, waiting: map<Id, int>, n: Id): map<Id, int>
    requires waiting.Keys == g.Keys
  {
    map m | m in waiting :: if n in g[m] then waiting[m] - 1 else waiting[m]
  }

  lemma OneFewer(s: set<Id>, placed: set<Id>, n: Id)
    requires n !in placed
    ensures |s - (placed + {n})| == |s - placed| - (if n in s then 1 else 0)
  {
    if n in s {
      assert s - (placed + {n}) == (s - placed) - {n};
    } else {
      assert s - (placed + {n}) == s - placed;
    }
  }

  lemma DoneCounts(g: Graph, placed: set<Id>, waiting: map<Id, int>, n: Id)
    requires Counts(g, placed, waiting) && n !in placed
    ensures Counts(g, placed + {n}, Done(g, waiting, n))
  {
    forall m | m in g ensures Done(g, waiting, n)[m] == |g[m] - (placed + {n})| {
      OneFewer(g[m], placed, n);
    }
  }

  lemma NothingWaitedFor(g: Graph, placed: set<Id>, waiting: map<Id, int>, n: Id)
    requires Counts(g, placed, waiting) && n in Ready(waiting, placed)
    ensures n in g && n !in placed && g[n] <= placed
  {
    assert |g[n] - placed| == 0;
    assert g[n] - placed == {};
    assert forall d :: d in g[n] ==> d in placed || d in g[n] - placed;
  }

  lemma NothingReady(g: Graph, placed: set<Id>, waiting: map<Id, int>)
    requires Counts(g, placed, waiting)
    requires Closed(g) && placed <= g.Keys && Ready(waiting, placed) == {}
    ensures placed == g.Keys || Cyclic(g)
  {
    var left := g.Keys - placed;
    forall n | n in left ensures n in g && g[n] * left != {} {
      assert n !in Ready(waiting, placed);
      assert |g[n] - placed| != 0;
      var d :| d in g[n] - placed;
      assert d in g[n] * left;
    }
    if left != {} {
      StuckIsCyclic(g, left);
    }
  }

  /** Half-way through a sort. */
  ghost predicate Sorting(g: Graph, order: seq<Id>, placed: set<Id>, waiting: map<Id, int>)
  {
    Ordered(g, order) && placed == Members(order) && Counts(g, placed, waiting)
  }

  lemma {:induction false} SortStep(g: Graph, order: seq<Id>, placed: set<Id>, waiting: map<Id, int>, n: Id)
    requires Sorting(g, order, placed, waiting) && n in Ready(waiting, placed)
    ensures n in g.Keys - placed
    ensures Sorting(g, order + [n], placed + {n}, Done(g, waiting, n))
  {
    NothingWaitedFor(g, placed, waiting, n);
    OrderedSnoc(g, order, n);
    DoneCounts(g, placed, waiting, n);
  }

  /** The sort of a graph whose predecessors are nodes. Which ready node goes next is left open, so
  the order may be any that `graphlib` produces. */
  method Sort(g: Graph) returns (r: Option<seq<Id>>)
    requires Closed(g)
    ensures r.Some? ==> TopologicalOrder(g, r.value)
    ensures r.None? <==> Cyclic(g)
  {
    var waiting: map<Id, int> := map n | n in g :: |g[n]|;
    var order: seq<Id> := [];
    var placed: set<Id> := {};
    assert forall n :: n in g ==> g[n] - {} == g[n];
    while Ready(waiting, placed) != {}
      invariant Sorting(g, order, placed, waiting)
      decreases g.Keys - placed
    {
      var n :| n in Ready(waiting, placed);
      SortStep(g, order, placed, waiting, n);
      order, placed, waiting := order + [n], placed + {n}, Done(g, waiting, n);
    }
    NothingReady(g, placed, waiting);
    if placed == g.Keys {
      OrderedIsAcyclic(g, order);
      return Some(order);
    }
    return None;
  }

  /** `TopologicalSorter(...).static_order()`. */
  method StaticOrder(sorted: Graph) returns (r: Option<seq<Id>>)
    ensures r.Some? ==> TopologicalOrder(WithPredecessors(sorted), r.value)
    ensures r.None? <==> Cyclic(WithPredecessors(sorted))
  {
    WithPredecessorsIsClosed(sorted);
    r := Sort(WithPredecessors(sorted));
  }
}
