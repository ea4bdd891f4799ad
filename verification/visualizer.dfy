/** Graph tracing of micrograd (src/visualizer.cpp, `trace`).

`trace(n, nodes, edges)` is a depth-first search keyed by node identity: a
node not yet in `nodes` is inserted, and then for each of its predecessors
`c` the edge `(c, n)` is inserted and `c` is traced in turn. `draw_plot`
starts it from empty sets; its rendering is not part of this model.
 */
module Visualizer {
  import opened Block

  type Edge = (nat, nat)

  /** `m` is reached from `n` along `prevs` links by a path that never enters
      `avoid` (so `n` itself is not in `avoid`). These are exactly the nodes a
      trace from `n` inserts when it starts with `avoid` already visited. */
  ghost predicate ReachesAvoiding(a: Arena, n: nat, m: nat, avoid: set<nat>)
    requires WellFormed(a) && n < |a|
    ensures ReachesAvoiding(a, n, m, avoid) ==> m <= n && m !in avoid
    decreases n
  {
    n !in avoid && (m == n || exists c :: c in a[n].prevs && ReachesAvoiding(a, c, m, avoid))
  }

  /** The nodes a trace from `n` discovers when `visited` are already known. */
  ghost function Discovered(a: Arena, n: nat, visited: set<nat>): set<nat>
    requires WellFormed(a) && n < |a|
  {
    set m: nat | m <= n && ReachesAvoiding(a, n, m, visited)
  }

  /** The edges `(child, parent)` for every parent in `ps`. */
  ghost function InducedEdges(a: Arena, ps: set<nat>): set<Edge>
  {
    set p, c | p in ps && p < |a| && c in a[p].prevs :: (c, p)
  }

  /** With nothing to avoid, avoiding reachability is plain reachability. */
  lemma {:induction false} AvoidingNothing(a: Arena, n: nat, m: nat)
    requires WellFormed(a) && n < |a|
    ensures ReachesAvoiding(a, n, m, {}) <==> Reaches(a, n, m)
    decreases n
  {
    if m != n {
      if Reaches(a, n, m) {
        var c :| c in a[n].prevs && Reaches(a, c, m);
        AvoidingNothing(a, c, m);
      }
      if ReachesAvoiding(a, n, m, {}) {
        var c :| c in a[n].prevs && ReachesAvoiding(a, c, m, {});
        AvoidingNothing(a, c, m);
      }
    }
  }

  /** Avoiding more nodes reaches fewer. */
  lemma {:induction false} AvoidingMonotone(a: Arena, n: nat, m: nat, small: set<nat>, big: set<nat>)
    requires WellFormed(a) && n < |a| && small <= big
    requires ReachesAvoiding(a, n, m, big)
    ensures ReachesAvoiding(a, n, m, small)
    decreases n
  {
    if m != n {
      var c :| c in a[n].prevs && ReachesAvoiding(a, c, m, big);
      AvoidingMonotone(a, c, m, small, big);
    }
  }

  /** One step down from `n` to a predecessor `c`. */
  lemma AvoidingStep(a: Arena, n: nat, c: nat, m: nat, avoid: set<nat>)
    requires WellFormed(a) && n < |a| && n !in avoid && c in a[n].prevs
    requires ReachesAvoiding(a, c, m, avoid)
    ensures ReachesAvoiding(a, n, m, avoid)
  {
  }

  /** A set that contains the start and the predecessors of each node it
      gained over `avoid` contains every node reached while avoiding `avoid`. */
  lemma {:induction false} ClosedContainsDiscovered(a: Arena, n: nat, m: nat, avoid: set<nat>, s: set<nat>)
    requires WellFormed(a) && n < |a|
    requires n in s
    requires forall p, c :: p in s && p !in avoid && p < |a| && c in a[p].prevs ==> c in s
    requires ReachesAvoiding(a, n, m, avoid)
    ensures m in s
    decreases n
  {
    if m != n {
      var c :| c in a[n].prevs && ReachesAvoiding(a, c, m, avoid);
      ClosedContainsDiscovered(a, c, m, avoid, s);
    }
  }

  /** No node occurs twice. */
  predicate Distinct(s: seq<nat>) {
    forall i, j :: 0 <= i < j < |s| ==> s[i] != s[j]
  }

  lemma DistinctConcat(s: seq<nat>, t: seq<nat>)
    requires Distinct(s) && Distinct(t)
    requires forall x :: x in s ==> x !in t
    ensures Distinct(s + t)
  {
    forall i, j | 0 <= i < j < |s + t|
      ensures (s + t)[i] != (s + t)[j]
    {
      if i < |s| && |s| <= j {
        assert (s + t)[i] in s && (s + t)[j] == t[j - |s|];
      }
    }
  }

  /** Every node in `nodes'` but not in `nodes` is reached from `n` while
      avoiding `nodes`. */
  ghost predicate NewFrom(a: Arena, n: nat, nodes: set<nat>, nodes': set<nat>)
    requires WellFormed(a) && n < |a|
  {
    forall p :: p in nodes' && p !in nodes ==> p <= n && ReachesAvoiding(a, n, p, nodes)
  }

  /** Every node gained over `nodes`, except those in `open`, has all its
      predecessors in `nodes'` and the edge from each of them in `edges'`. */
  ghost predicate NewExpanded(a: Arena, nodes: set<nat>, nodes': set<nat>, edges': set<Edge>, open: set<nat>)
  {
    forall p, c :: p in nodes' && p !in nodes && p !in open && p < |a| && c in a[p].prevs ==>
      c in nodes' && (c, p) in edges'
  }

  /** Every edge gained over `edges` is `(child, parent)` for a parent gained
      over `nodes` and one of its predecessors. */
  ghost predicate NewEdgesSound(a: Arena, nodes: set<nat>, nodes': set<nat>, edges: set<Edge>, edges': set<Edge>)
  {
    forall e :: e in edges' && e !in edges ==>
      e.1 in nodes' && e.1 !in nodes && e.1 < |a| && e.0 in a[e.1].prevs
  }

  /** `expanded` lists the nodes gained over `nodes`, each once. */
  ghost predicate ListsNew(expanded: seq<nat>, nodes: set<nat>, nodes': set<nat>) {
    Distinct(expanded) && forall p :: p in expanded <==> p in nodes' && p !in nodes
  }

  /** What `trace(n, nodes, edges)` guarantees about the final `nodes'` and
      `edges'`: it only inserts; `n` ends up visited; a visited `n` changes
      nothing; every inserted node is reached from `n` without passing through
      a node visited before; every inserted node had its predecessors visited
      and the edges from them inserted; every inserted edge goes from a
      predecessor to an inserted node; `expanded` lists the inserted nodes,
      each once, because a node's predecessors are walked only on insertion. */
  ghost predicate Traced(a: Arena, n: nat, nodes: set<nat>, edges: set<Edge>,
                         nodes': set<nat>, edges': set<Edge>, expanded: seq<nat>)
    requires WellFormed(a) && n < |a|
  {
    && nodes <= nodes' && edges <= edges'
    && n in nodes'
    && (n in nodes ==> nodes' == nodes && edges' == edges && expanded == [])
    && NewFrom(a, n, nodes, nodes')
    && NewExpanded(a, nodes, nodes', edges', {})
    && NewEdgesSound(a, nodes, nodes', edges, edges')
    && ListsNew(expanded, nodes, nodes')
  }

  /** The state of `trace(n, nodes, edges)` while it walks the predecessors of
      `n`: those not in `rest` are done, and every node it inserted, other
      than `n` itself, has its predecessors and their edges in place. */
  ghost predicate Walking(a: Arena, n: nat, nodes: set<nat>, edges: set<Edge>, rest: set<nat>,
                          nodes': set<nat>, edges': set<Edge>, expanded: seq<nat>)
    requires WellFormed(a) && n < |a|
  {
    && rest <= a[n].prevs
    && nodes + {n} <= nodes' && edges <= edges'
    && NewFrom(a, n, nodes, nodes')
    && NewExpanded(a, nodes, nodes', edges', {n})
    && (forall c :: c in a[n].prevs && c !in rest ==> c in nodes' && (c, n) in edges')
    && NewEdgesSound(a, nodes, nodes', edges, edges')
    && ListsNew(expanded, nodes, nodes')
  }

  lemma StepNewFrom(a: Arena, n: nat, c: nat, nodes: set<nat>, nodes0: set<nat>, nodes1: set<nat>)
    requires WellFormed(a) && n < |a| && n !in nodes && c in a[n].prevs && nodes <= nodes0
    requires NewFrom(a, n, nodes, nodes0) && NewFrom(a, c, nodes0, nodes1)
    ensures NewFrom(a, n, nodes, nodes1)
  {
    forall p | p in nodes1 && p !in nodes
      ensures p <= n && ReachesAvoiding(a, n, p, nodes)
    {
      if p !in nodes0 {
        AvoidingMonotone(a, c, p, nodes, nodes0);
        AvoidingStep(a, n, c, p, nodes);
      }
    }
  }

  lemma StepExpanded(a: Arena, n: nat, nodes: set<nat>, nodes0: set<nat>, edges0: set<Edge>,
                     nodes1: set<nat>, edges1: set<Edge>)
    requires nodes0 <= nodes1 && edges0 <= edges1
    requires NewExpanded(a, nodes, nodes0, edges0, {n}) && NewExpanded(a, nodes0, nodes1, edges1, {})
    ensures NewExpanded(a, nodes, nodes1, edges1, {n})
  {
  }

  lemma StepEdgesSound(a: Arena, nodes: set<nat>, edges: set<Edge>, nodes0: set<nat>, edges0: set<Edge>,
                       nodes1: set<nat>, edges1: set<Edge>, e0: Edge)
    requires nodes <= nodes0 <= nodes1
    requires e0.1 in nodes0 && e0.1 !in nodes && e0.1 < |a| && e0.0 in a[e0.1].prevs
    requires NewEdgesSound(a, nodes, nodes0, edges, edges0)
    requires NewEdgesSound(a, nodes0, nodes1, edges0 + {e0}, edges1)
    ensures NewEdgesSound(a, nodes, nodes1, edges, edges1)
  {
  }

  lemma StepListsNew(nodes: set<nat>, nodes0: set<nat>, nodes1: set<nat>, expanded0: seq<nat>, more: seq<nat>)
    requires nodes <= nodes0 <= nodes1
    requires ListsNew(expanded0, nodes, nodes0) && ListsNew(more, nodes0, nodes1)
    ensures ListsNew(expanded0 + more, nodes, nodes1)
  {
    DistinctConcat(expanded0, more);
  }

  /** Inserting the edge `(c, n)` and tracing `c` completes one more predecessor. */
  lemma TraceStep(a: Arena, n: nat, nodes: set<nat>, edges: set<Edge>, rest: set<nat>,
                  nodes0: set<nat>, edges0: set<Edge>, expanded0: seq<nat>,
                  c: nat, nodes1: set<nat>, edges1: set<Edge>, more: seq<nat>)
    requires WellFormed(a) && n < |a| && n !in nodes && c in rest
    requires Walking(a, n, nodes, edges, rest, nodes0, edges0, expanded0)
    requires Traced(a, c, nodes0, edges0 + {(c, n)}, nodes1, edges1, more)
    ensures Walking(a, n, nodes, edges, rest - {c}, nodes1, edges1, expanded0 + more)
  {
    StepNewFrom(a, n, c, nodes, nodes0, nodes1);
    StepExpanded(a, n, nodes, nodes0, edges0, nodes1, edges1);
    StepEdgesSound(a, nodes, edges, nodes0, edges0, nodes1, edges1, (c, n));
    StepListsNew(nodes, nodes0, nodes1, expanded0, more);
  }

  /** Once every predecessor of `n` is done, the trace of `n` is complete. */
  lemma WalkDone(a: Arena, n: nat, nodes: set<nat>, edges: set<Edge>,
                 nodes': set<nat>, edges': set<Edge>, expanded: seq<nat>)
    requires WellFormed(a) && n < |a| && n !in nodes
    requires Walking(a, n, nodes, edges, {}, nodes', edges', expanded)
    ensures Traced(a, n, nodes, edges, nodes', edges', expanded)
  {
  }

  /** The guarantees of `trace` pin its result down exactly: the nodes gained
      are those discovered from `n` around the visited ones, and the edges
      gained are the edges below them. */
  lemma TraceExact(a: Arena, n: nat, nodes: set<nat>, edges: set<Edge>,
                   nodes': set<nat>, edges': set<Edge>, expanded: seq<nat>)
    requires WellFormed(a) && n < |a|
    requires Traced(a, n, nodes, edges, nodes', edges', expanded)
    ensures nodes' == nodes + Discovered(a, n, nodes)
    ensures edges' == edges + InducedEdges(a, Discovered(a, n, nodes))
  {
    var found := Discovered(a, n, nodes);
    if n in nodes {
      assert found == {};
      return;
    }
    forall m | m in found
      ensures m in nodes'
    {
      ClosedContainsDiscovered(a, n, m, nodes, nodes');
    }
    assert nodes' == nodes + found;
    forall e | e in InducedEdges(a, found)
      ensures e in edges'
    {
      var p, c :| p in found && p < |a| && c in a[p].prevs && e == (c, p);
    }
  }

  /** `trace(n, nodes, edges)`: returns the final `nodes` and `edges`, and, in
      `expanded`, the nodes whose predecessors this call walked, in order.
      The iteration order over `prevs` (pointer order in the source) is left
      open: any order satisfies the contract. */
  method Trace(a: Arena, n: nat, nodes: set<nat>, edges: set<Edge>)
    returns (nodes': set<nat>, edges': set<Edge>, expanded: seq<nat>)
    requires WellFormed(a) && n < |a|
    ensures Traced(a, n, nodes, edges, nodes', edges', expanded)
    decreases n, 1
  {
    if n in nodes {
      return nodes, edges, [];
    }
    nodes', edges', expanded := nodes + {n}, edges, [n];
    var rest := a[n].prevs;
    while rest != {}
      invariant Walking(a, n, nodes, edges, rest, nodes', edges', expanded)
      decreases rest
    {
      var c :| c in rest;
      nodes', edges', expanded := VisitPrev(a, n, nodes, edges, rest, nodes', edges', expanded, c);
      rest := rest - {c};
    }
    WalkDone(a, n, nodes, edges, nodes', edges', expanded);
  }

  /** One pass of the loop in `trace(n, ...)`: insert the edge `(c, n)`, then
      trace `c`. */
  method VisitPrev(a: Arena, n: nat, nodes: set<nat>, edges: set<Edge>, rest: set<nat>,
                   nodes0: set<nat>, edges0: set<Edge>, expanded0: seq<nat>, c: nat)
    returns (nodes': set<nat>, edges': set<Edge>, expanded: seq<nat>)
    requires WellFormed(a) && n < |a| && n !in nodes && c in rest
    requires Walking(a, n, nodes, edges, rest, nodes0, edges0, expanded0)
    ensures Walking(a, n, nodes, edges, rest - {c}, nodes', edges', expanded)
    decreases n, 0
  {
    var more;
    nodes', edges', more := Trace(a, c, nodes0, edges0 + {(c, n)});
    TraceStep(a, n, nodes, edges, rest, nodes0, edges0, expanded0, c, nodes', edges', more);
    expanded := expanded0 + more;
  }

  /** The call in `draw_plot`: starting from empty sets, the nodes are exactly
      those reachable from the root and the edges exactly the `(child,
      parent)` pairs below it; every node's predecessors are walked once. */
  method TraceFromRoot(a: Arena, root: nat) returns (nodes: set<nat>, edges: set<Edge>, expanded: seq<nat>)
    requires WellFormed(a) && root < |a|
    ensures forall m :: m in nodes <==> Reaches(a, root, m)
    ensures forall c, p :: (c, p) in edges <==> p in nodes && p < |a| && c in a[p].prevs
    ensures Distinct(expanded)
    ensures forall m :: m in expanded <==> m in nodes
  {
    nodes, edges, expanded := Trace(a, root, {}, {});
    TraceExact(a, root, {}, {}, nodes, edges, expanded);
    forall m
      ensures m in nodes <==> Reaches(a, root, m)
    {
      AvoidingNothing(a, root, m);
    }
  }
}
