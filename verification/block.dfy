/** The expression-graph node of micrograd (src/block.h) over an explicit heap.

A `Value` is a scalar with its gradient, an operation tag and a set of
predecessors. Shared pointers become indices into an `Arena`, a sequence of
node records that only ever grows: `make_shared` appends one record and its
index is the new node's identity. `operator+` and `operator*` copy both
operands into fresh nodes and make those copies, not the operands, the
predecessors of the result.
 */
module Block {

  /** One node: `data`, `grad`, the predecessor set `prevs` and the tag `op`. */
  datatype Value = Value(data: real, grad: real, prevs: set<nat>, op: string)

  /** The heap of nodes; a node is identified by its index. */
  type Arena = seq<Value>

  /** A value built on top of an arena: the grown arena and what was built. */
  datatype Built<T> = Built(arena: Arena, item: T)

  /** Every predecessor of a node was allocated before the node itself. */
  ghost predicate WellFormed(a: Arena) {
    forall i, p {:trigger p in a[i].prevs} :: 0 <= i < |a| && p in a[i].prevs ==> p < i
  }

  /** `b` is `a` with records appended: nothing already allocated changes. */
  predicate Extends(a: Arena, b: Arena) {
    |a| <= |b| && b[..|a|] == a
  }

  /** Every index in `xs` is past the end of `a`: nodes allocated after `a`. */
  predicate AllNew(a: Arena, xs: seq<nat>) {
    forall j :: 0 <= j < |xs| ==> |a| <= xs[j]
  }

  /** Every index of `xs` names an allocated node. */
  predicate InArena(a: Arena, xs: seq<nat>) {
    forall i :: 0 <= i < |xs| ==> xs[i] < |a|
  }

  /** The `data` of the nodes at `xs`, in order. */
  function Data(a: Arena, xs: seq<nat>): (r: seq<real>)
    requires InArena(a, xs)
    ensures |r| == |xs| && forall i :: 0 <= i < |xs| ==> r[i] == a[xs[i]].data
  {
    seq(|xs|, i requires 0 <= i < |xs| => a[xs[i]].data)
  }

  /** Growing the arena leaves every old node as it was. */
  lemma ExtendsAt(a: Arena, b: Arena, k: nat)
    requires Extends(a, b) && k < |a|
    ensures b[k] == a[k]
  {
    assert b[..|a|][k] == b[k];
  }

  lemma ExtendsTrans(a: Arena, b: Arena, c: Arena)
    requires Extends(a, b) && Extends(b, c)
    ensures Extends(a, c)
  {
    assert c[..|a|] == c[..|b|][..|a|];
  }

  lemma DataExtends(a: Arena, b: Arena, xs: seq<nat>)
    requires Extends(a, b) && InArena(a, xs)
    ensures InArena(b, xs) && Data(b, xs) == Data(a, xs)
  {
    forall i | 0 <= i < |xs|
      ensures b[xs[i]] == a[xs[i]]
    {
      ExtendsAt(a, b, xs[i]);
    }
  }

  /** A node built by the constructor alone: no predecessors, no tag, zero gradient. */
  predicate IsLeaf(v: Value) {
    v.prevs == {} && v.op == "" && v.grad == 0.0
  }

  /** `Value(data, children = {}, op = "", grad = 0.0)`. */
  function NewValue(data: real, children: set<nat> := {}, op: string := "", grad: real := 0.0): Value
  {
    Value(data, grad, children, op)
  }

  /** `make_shared<Value>(v)`: the record goes to the next free index. */
  function Alloc(a: Arena, v: Value): (r: Built<nat>)
    requires forall p :: p in v.prevs ==> p < |a|
    ensures r.item == |a| && |r.arena| == |a| + 1 && r.arena[r.item] == v
    ensures Extends(a, r.arena)
    ensures WellFormed(a) ==> WellFormed(r.arena)
  {
    Built(a + [v], |a|)
  }

  /** `make_shared<Value>(data)`: a fresh node built with the constructor defaults. */
  function NewLeaf(a: Arena, data: real): (r: Built<nat>)
    ensures r.item == |a| && |r.arena| == |a| + 1 && Extends(a, r.arena)
    ensures r.arena[r.item].data == data && IsLeaf(r.arena[r.item])
    ensures WellFormed(a) ==> WellFormed(r.arena)
  {
    Alloc(a, NewValue(data))
  }

  /** The shape both binary operators share: fresh copies of the operands at
      `|a|` and `|a| + 1`, then the output at `|a| + 2` with exactly those
      two copies as predecessors and a zero gradient. */
  ghost predicate CopiedOperands(a: Arena, x: nat, y: nat, r: Built<nat>)
    requires x < |a| && y < |a|
  {
    && |r.arena| == |a| + 3 && r.item == |a| + 2
    && Extends(a, r.arena)
    && r.arena[|a|] == a[x] && r.arena[|a| + 1] == a[y]
    && r.arena[r.item].prevs == {|a|, |a| + 1}
    && r.arena[r.item].grad == 0.0
  }

  /** The common body of `operator+` and `operator*`. */
  function Binary(a: Arena, x: nat, y: nat, data: real, op: string): (r: Built<nat>)
    requires x < |a| && y < |a|
    ensures CopiedOperands(a, x, y, r)
    ensures r.arena[r.item].data == data && r.arena[r.item].op == op
    ensures WellFormed(a) ==> WellFormed(r.arena)
  {
    var lhs, rhs := |a|, |a| + 1;
    Built(a + [a[x], a[y], NewValue(data, {lhs, rhs}, op)], |a| + 2)
  }

  /** `x + y` for the nodes at `x` and `y` (which may be the same node). */
  function Add(a: Arena, x: nat, y: nat): (r: Built<nat>)
    requires x < |a| && y < |a|
    ensures CopiedOperands(a, x, y, r)
    ensures r.arena[r.item].data == a[x].data + a[y].data
    ensures r.arena[r.item].op == "+"
    ensures |r.arena[r.item].prevs| == 2
    ensures x !in r.arena[r.item].prevs && y !in r.arena[r.item].prevs
    ensures r.arena[x] == a[x] && r.arena[y] == a[y]
    ensures WellFormed(a) ==> WellFormed(r.arena)
  {
    Binary(a, x, y, a[x].data + a[y].data, "+")
  }

  /** `x * y` for the nodes at `x` and `y` (which may be the same node). */
  function Mul(a: Arena, x: nat, y: nat): (r: Built<nat>)
    requires x < |a| && y < |a|
    ensures CopiedOperands(a, x, y, r)
    ensures r.arena[r.item].data == a[x].data * a[y].data
    ensures r.arena[r.item].op == "*"
    ensures |r.arena[r.item].prevs| == 2
    ensures x !in r.arena[r.item].prevs && y !in r.arena[r.item].prevs
    ensures r.arena[x] == a[x] && r.arena[y] == a[y]
    ensures WellFormed(a) ==> WellFormed(r.arena)
  {
    Binary(a, x, y, a[x].data * a[y].data, "*")
  }

  /** Stand-in for `Value::tanh()`, which `Value` in src/block.h does not define:
      one new node whose data is the activation `tanh` of the operand's data.
      Its tag and its single predecessor (the operand) are choices of this
      model; nothing below depends on them beyond well-formedness. */
  function Tanh(a: Arena, x: nat, tanh: real -> real): (r: Built<nat>)
    requires x < |a|
    ensures r.item == |a| && |r.arena| == |a| + 1 && Extends(a, r.arena)
    ensures r.arena[r.item].data == tanh(a[x].data) && r.arena[r.item].grad == 0.0
    ensures WellFormed(a) ==> WellFormed(r.arena)
  {
    Alloc(a, NewValue(tanh(a[x].data), {x}, "tanh"))
  }

  /** `m` is `n` or is reached from `n` by following `prevs` links. */
  ghost predicate Reaches(a: Arena, n: nat, m: nat)
    requires WellFormed(a) && n < |a|
    ensures Reaches(a, n, m) ==> m <= n
    decreases n
  {
    m == n || exists c :: c in a[n].prevs && Reaches(a, c, m)
  }

  /** Acyclicity: no node is reached again from any of its predecessors. */
  lemma {:induction false} NoCycle(a: Arena, n: nat, c: nat)
    requires WellFormed(a) && n < |a| && c in a[n].prevs
    ensures !Reaches(a, c, n)
  {
  }

  /** Reachability among old nodes does not change when the arena grows. */
  lemma {:induction false} ReachesExtends(a: Arena, b: Arena, n: nat, m: nat)
    requires WellFormed(a) && WellFormed(b) && Extends(a, b) && n < |a|
    ensures Reaches(b, n, m) <==> Reaches(a, n, m)
    decreases n
  {
    assert b[n] == b[..|a|][n];
    if m != n {
      if Reaches(a, n, m) {
        var c :| c in a[n].prevs && Reaches(a, c, m);
        ReachesExtends(a, b, c, m);
      }
      if Reaches(b, n, m) {
        var c :| c in b[n].prevs && Reaches(b, c, m);
        ReachesExtends(a, b, c, m);
      }
    }
  }

  /** The copy of an operand has the operand's whole subgraph below it, but
      not the operand itself. */
  lemma CopyReaches(a: Arena, b: Arena, x: nat, k: nat, m: nat)
    requires WellFormed(a) && WellFormed(b) && Extends(a, b)
    requires x < |a| <= k < |b| && b[k] == a[x]
    ensures Reaches(b, k, m) <==> m == k || (m != x && Reaches(a, x, m))
  {
    if m != k && m != x {
      if Reaches(b, k, m) {
        var c :| c in b[k].prevs && Reaches(b, c, m);
        ReachesExtends(a, b, c, m);
      }
      if Reaches(a, x, m) {
        var c :| c in a[x].prevs && Reaches(a, c, m);
        ReachesExtends(a, b, c, m);
      }
    }
  }

  /** What the output of `x + y` or `x * y` reaches: itself, the two copies,
      and everything strictly below either operand. */
  lemma BinaryReaches(a: Arena, x: nat, y: nat, r: Built<nat>, m: nat)
    requires WellFormed(a) && x < |a| && y < |a|
    requires CopiedOperands(a, x, y, r) && WellFormed(r.arena)
    ensures Reaches(r.arena, r.item, m) <==>
              || m in {r.item, |a|, |a| + 1}
              || (m != x && Reaches(a, x, m))
              || (m != y && Reaches(a, y, m))
  {
    var b := r.arena;
    CopyReaches(a, b, x, |a|, m);
    CopyReaches(a, b, y, |a| + 1, m);
    if m != r.item && Reaches(b, r.item, m) {
      var c :| c in b[r.item].prevs && Reaches(b, c, m);
    }
    if m == |a| {
      assert Reaches(b, |a|, m);
    }
    if m == |a| + 1 {
      assert Reaches(b, |a| + 1, m);
    }
  }

  /** Either operand of `x + y` or `x * y` is reached from the output only
      through the other operand: for two leaves (the neuron's weight times an
      input), neither operand is in the output's graph. */
  lemma OperandReached(a: Arena, x: nat, y: nat, r: Built<nat>)
    requires WellFormed(a) && x < |a| && y < |a|
    requires CopiedOperands(a, x, y, r) && WellFormed(r.arena)
    ensures Reaches(r.arena, r.item, x) <==> x != y && Reaches(a, y, x)
    ensures Reaches(r.arena, r.item, y) <==> x != y && Reaches(a, x, y)
  {
    BinaryReaches(a, x, y, r, x);
    BinaryReaches(a, x, y, r, y);
  }

  /** The node `v` agrees with the data of its predecessors in `a`: a leaf,
      or a `+`/`*` node with two predecessors whose sum/product is its data. */
  ghost predicate Evaluated(a: Arena, v: Value) {
    && (forall p :: p in v.prevs ==> p < |a|)
    && (|| (v.op == "" && v.prevs == {})
        || (&& (v.op == "+" || v.op == "*")
            && |v.prevs| == 2
            && forall p, q :: p in v.prevs && q in v.prevs && p != q ==>
                 v.data == (if v.op == "+" then a[p].data + a[q].data else a[p].data * a[q].data)))
  }

  /** Every node of an arena holds the forward value of its predecessors.
      Only leaves and `+`/`*` nodes qualify: the `tanh` stand-in node that
      `Tanh` appends is not `Evaluated`, so an arena that a neuron call has
      grown is not `Consistent`, and nothing here claims it is. */
  ghost predicate Consistent(a: Arena) {
    forall i :: 0 <= i < |a| ==> Evaluated(a, a[i])
  }

  lemma EvaluatedExtends(a: Arena, b: Arena, v: Value)
    requires Extends(a, b) && Evaluated(a, v)
    ensures Evaluated(b, v)
  {
    forall p | p in v.prevs
      ensures b[p] == a[p]
    {
      assert b[..|a|][p] == b[p];
    }
  }

  /** Leaves keep an arena consistent. */
  lemma NewLeafConsistent(a: Arena, data: real)
    requires Consistent(a)
    ensures Consistent(NewLeaf(a, data).arena)
  {
    var b := NewLeaf(a, data).arena;
    forall i | 0 <= i < |b|
      ensures Evaluated(b, b[i])
    {
      if i < |a| {
        assert b[i] == b[..|a|][i];
        EvaluatedExtends(a, b, a[i]);
      }
    }
  }

  /** `x + y` and `x * y` keep an arena consistent: the stored data of every
      node, old, copied or new, is the forward value of its operands. */
  lemma BinaryConsistent(a: Arena, x: nat, y: nat, r: Built<nat>)
    requires Consistent(a) && x < |a| && y < |a|
    requires CopiedOperands(a, x, y, r)
    requires || (r.arena[r.item].op == "+" && r.arena[r.item].data == a[x].data + a[y].data)
             || (r.arena[r.item].op == "*" && r.arena[r.item].data == a[x].data * a[y].data)
    ensures Consistent(r.arena)
  {
    var b := r.arena;
    forall i | 0 <= i < |b|
      ensures Evaluated(b, b[i])
    {
      if i < |a| {
        assert b[i] == b[..|a|][i];
        EvaluatedExtends(a, b, a[i]);
      } else if i == |a| {
        EvaluatedExtends(a, b, a[x]);
      } else if i == |a| + 1 {
        EvaluatedExtends(a, b, a[y]);
      } else {
        assert b[|a|].data == a[x].data && b[|a| + 1].data == a[y].data;
        assert |b[i].prevs| == 2 by {
          assert b[i].prevs == {|a|} + {|a| + 1};
        }
      }
    }
  }

  lemma AddConsistent(a: Arena, x: nat, y: nat)
    requires Consistent(a) && x < |a| && y < |a|
    ensures Consistent(Add(a, x, y).arena)
  {
    BinaryConsistent(a, x, y, Add(a, x, y));
  }

  lemma MulConsistent(a: Arena, x: nat, y: nat)
    requires Consistent(a) && x < |a| && y < |a|
    ensures Consistent(Mul(a, x, y).arena)
  {
    BinaryConsistent(a, x, y, Mul(a, x, y));
  }
}
