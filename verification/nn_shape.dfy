/** The network classes of micrograd (src/nn.h): their data and constructors.

A `Neuron` holds its weight leaves `ws`, its bias leaf `b` and the vector
`params` its `parameters()` fills; a `Layer` holds `numOut` neurons of
`numIn` inputs each; an `MLP` holds a chain of layers. Leaves live in the
arena, so the classes hold arena indices. The uniform random draws of the
constructors are abstracted into `draw` functions: `draw(i)` is the value
the neuron's generator yields on its `i`-th call (weights first, then the
bias), and layers and networks add the neuron and layer positions.
 */
module NnShape {
  import opened Block

  datatype Neuron = Neuron(ws: seq<nat>, b: nat, params: seq<nat>)

  datatype Layer = Layer(numIn: nat, numOut: nat, neurons: seq<Neuron>, params: seq<nat>)

  datatype MLP = MLP(layers: seq<Layer>, params: seq<nat>)

  /** The neuron's leaves are allocated in `a`. */
  predicate NeuronIn(a: Arena, n: Neuron) {
    InArena(a, n.ws) && n.b < |a|
  }

  /** What the `Layer` constructor establishes: `numOut` neurons, each with
      `numIn` weights. */
  predicate LayerShape(l: Layer) {
    |l.neurons| == l.numOut && forall j :: 0 <= j < |l.neurons| ==> |l.neurons[j].ws| == l.numIn
  }

  predicate LayerIn(a: Arena, l: Layer) {
    forall j :: 0 <= j < |l.neurons| ==> NeuronIn(a, l.neurons[j])
  }

  /** Each layer's output width is the next layer's input width. */
  predicate Chained(ls: seq<Layer>) {
    forall i, j :: 0 <= i < |ls| && j == i + 1 < |ls| ==> ls[i].numOut == ls[j].numIn
  }

  /** What the `MLP` constructor establishes. */
  predicate MLPShape(m: MLP) {
    Chained(m.layers) && forall i :: 0 <= i < |m.layers| ==> LayerShape(m.layers[i])
  }

  predicate MLPIn(a: Arena, m: MLP) {
    forall i :: 0 <= i < |m.layers| ==> LayerIn(a, m.layers[i])
  }

  /** The loop of `Neuron(num_in)` that pushes `count` weight leaves. */
  function NewWeights(a: Arena, count: nat, draw: nat -> real): (r: Built<seq<nat>>)
    ensures |r.item| == count && |r.arena| == |a| + count && Extends(a, r.arena)
    ensures forall i :: 0 <= i < count ==>
              r.item[i] == |a| + i && IsLeaf(r.arena[|a| + i]) && r.arena[|a| + i].data == draw(i)
    ensures WellFormed(a) ==> WellFormed(r.arena)
    decreases count
  {
    if count == 0 then Built(a, [])
    else
      var r := NewWeights(a, count - 1, draw);
      var w := NewLeaf(r.arena, draw(count - 1));
      Built(w.arena, r.item + [w.item])
  }

  /** `Neuron(num_in)`: `num_in` fresh weight leaves, then one fresh bias leaf. */
  function NewNeuron(a: Arena, numIn: nat, draw: nat -> real): (r: Built<Neuron>)
    ensures |r.item.ws| == numIn && r.item.params == []
    ensures |r.arena| == |a| + numIn + 1 && Extends(a, r.arena)
    ensures forall i :: 0 <= i < numIn ==>
              r.item.ws[i] == |a| + i && IsLeaf(r.arena[r.item.ws[i]]) && r.arena[r.item.ws[i]].data == draw(i)
    ensures r.item.b == |a| + numIn && IsLeaf(r.arena[r.item.b]) && r.arena[r.item.b].data == draw(numIn)
    ensures NeuronIn(r.arena, r.item)
    ensures WellFormed(a) ==> WellFormed(r.arena)
  {
    var w := NewWeights(a, numIn, draw);
    var b := NewLeaf(w.arena, draw(numIn));
    Built(b.arena, Neuron(w.item, b.item, []))
  }

  lemma NeuronInExtends(a: Arena, b: Arena, n: Neuron)
    requires Extends(a, b) && NeuronIn(a, n)
    ensures NeuronIn(b, n)
  {
  }

  /** Every weight and the bias of `n` is an allocated leaf. */
  predicate NeuronLeaves(a: Arena, n: Neuron) {
    NeuronIn(a, n) && (forall i :: 0 <= i < |n.ws| ==> IsLeaf(a[n.ws[i]])) && IsLeaf(a[n.b])
  }

  lemma NeuronLeavesExtends(a: Arena, b: Arena, n: Neuron)
    requires Extends(a, b) && NeuronLeaves(a, n)
    ensures NeuronLeaves(b, n)
  {
    forall i | 0 <= i < |n.ws|
      ensures b[n.ws[i]] == a[n.ws[i]]
    {
      ExtendsAt(a, b, n.ws[i]);
    }
    ExtendsAt(a, b, n.b);
  }

  /** Neuron `j` of a layer as the constructor leaves it: `numIn` weight
      leaves at `start`, `start + 1`, ..., then the bias leaf, drawn from
      `draw(j, _)`, and `params` still empty. */
  predicate DrawnNeuron(a: Arena, n: Neuron, numIn: nat, draw: (nat, nat) -> real, j: nat, start: nat) {
    && |n.ws| == numIn && n.params == [] && NeuronIn(a, n)
    && (forall i :: 0 <= i < numIn ==>
          n.ws[i] == start + i && IsLeaf(a[n.ws[i]]) && a[n.ws[i]].data == draw(j, i))
    && n.b == start + numIn && IsLeaf(a[n.b]) && a[n.b].data == draw(j, numIn)
  }

  lemma DrawnNeuronExtends(a: Arena, b: Arena, n: Neuron, numIn: nat, draw: (nat, nat) -> real, j: nat, start: nat)
    requires Extends(a, b) && DrawnNeuron(a, n, numIn, draw, j, start)
    ensures DrawnNeuron(b, n, numIn, draw, j, start)
  {
    forall k | 0 <= k < |a|
      ensures b[k] == a[k]
    {
      assert b[..|a|][k] == b[k];
    }
  }

  /** Where neuron `j` of a layer of `numIn`-input neurons starts, counted
      from the layer's first record: each neuron takes `numIn + 1` records. */
  function NeuronStart(numIn: nat, j: nat): nat
    decreases j
  {
    if j == 0 then 0 else NeuronStart(numIn, j - 1) + numIn + 1
  }

  lemma {:induction false} NeuronStartIs(numIn: nat, j: nat)
    ensures NeuronStart(numIn, j) == j * (numIn + 1)
    decreases j
  {
    if j > 0 {
      NeuronStartIs(numIn, j - 1);
      assert j * (numIn + 1) == (j - 1) * (numIn + 1) + numIn + 1;
    }
  }

  /** What `count` iterations of the loop of `Layer(num_in, num_out)` have
      built from `a`: `count` neurons, neuron `j` drawn from `draw(j, _)` into
      the `numIn + 1` new leaves from `|a| + NeuronStart(numIn, j)` on, so
      that `NeuronStart(numIn, count)` new records are appended. */
  predicate NeuronsBuilt(a: Arena, numIn: nat, count: nat, draw: (nat, nat) -> real, r: Built<seq<Neuron>>) {
    && |r.item| == count && Extends(a, r.arena)
    && |r.arena| == |a| + NeuronStart(numIn, count)
    && (forall j :: 0 <= j < count ==> DrawnNeuron(r.arena, r.item[j], numIn, draw, j, |a| + NeuronStart(numIn, j)))
  }

  /** Pushing neuron `count` after `count` neurons. */
  lemma NeuronsStep(a: Arena, numIn: nat, count: nat, draw: (nat, nat) -> real,
                    r: Built<seq<Neuron>>, b: Arena, n: Neuron)
    requires NeuronsBuilt(a, numIn, count, draw, r)
    requires Extends(r.arena, b) && |b| == |r.arena| + numIn + 1 && DrawnNeuron(b, n, numIn, draw, count, |r.arena|)
    ensures NeuronsBuilt(a, numIn, count + 1, draw, Built(b, r.item + [n]))
  {
    forall j | 0 <= j < count
      ensures DrawnNeuron(b, r.item[j], numIn, draw, j, |a| + NeuronStart(numIn, j))
    {
      DrawnNeuronExtends(r.arena, b, r.item[j], numIn, draw, j, |a| + NeuronStart(numIn, j));
    }
    ExtendsTrans(a, r.arena, b);
  }

  /** The loop of `Layer(num_in, num_out)` that pushes `count` neurons;
      neuron `j` draws its values from `draw(j, _)`. */
  function NewNeurons(a: Arena, numIn: nat, count: nat, draw: (nat, nat) -> real): (r: Built<seq<Neuron>>)
    ensures NeuronsBuilt(a, numIn, count, draw, r)
    ensures WellFormed(a) ==> WellFormed(r.arena)
    decreases count
  {
    if count == 0 then Built(a, [])
    else
      var last: nat := count - 1;
      var r := NewNeurons(a, numIn, last, draw);
      var n := NewNeuron(r.arena, numIn, (i: nat) => draw(last, i));
      assert DrawnNeuron(n.arena, n.item, numIn, draw, last, |r.arena|);
      NeuronsStep(a, numIn, last, draw, r, n.arena, n.item);
      Built(n.arena, r.item + [n.item])
  }

  /** A layer as its constructor leaves it: shaped, allocated, and with no
      `parameters()` call yet on it or its neurons. */
  predicate FreshLayer(a: Arena, l: Layer, numIn: nat, numOut: nat) {
    && l.numIn == numIn && l.numOut == numOut
    && LayerShape(l) && LayerIn(a, l)
    && l.params == [] && (forall j :: 0 <= j < |l.neurons| ==> l.neurons[j].params == [])
    && forall j :: 0 <= j < |l.neurons| ==> NeuronLeaves(a, l.neurons[j])
  }

  /** The neurons the constructor loop built make a fresh layer. */
  lemma NeuronsFresh(a: Arena, numIn: nat, numOut: nat, draw: (nat, nat) -> real, r: Built<seq<Neuron>>)
    requires NeuronsBuilt(a, numIn, numOut, draw, r)
    ensures FreshLayer(r.arena, Layer(numIn, numOut, r.item, []), numIn, numOut)
  {
    forall j | 0 <= j < numOut
      ensures |r.item[j].ws| == numIn && NeuronLeaves(r.arena, r.item[j]) && r.item[j].params == []
    {
      assert DrawnNeuron(r.arena, r.item[j], numIn, draw, j, |a| + NeuronStart(numIn, j));
    }
  }

  /** `Layer(num_in, num_out)`: `num_out` neurons of `num_in` inputs each. */
  function NewLayer(a: Arena, numIn: nat, numOut: nat, draw: (nat, nat) -> real): (r: Built<Layer>)
    ensures FreshLayer(r.arena, r.item, numIn, numOut)
    ensures Extends(a, r.arena) && |r.arena| == |a| + numOut * (numIn + 1)
    ensures WellFormed(a) ==> WellFormed(r.arena)
  {
    var ns := NewNeurons(a, numIn, numOut, draw);
    NeuronsFresh(a, numIn, numOut, draw, ns);
    NeuronStartIs(numIn, numOut);
    Built(ns.arena, Layer(numIn, numOut, ns.item, []))
  }

  lemma LayerInExtends(a: Arena, b: Arena, l: Layer)
    requires Extends(a, b) && LayerIn(a, l)
    ensures LayerIn(b, l)
  {
  }

  lemma FreshLayerExtends(a: Arena, b: Arena, l: Layer, numIn: nat, numOut: nat)
    requires Extends(a, b) && FreshLayer(a, l, numIn, numOut)
    ensures FreshLayer(b, l, numIn, numOut)
  {
    LayerInExtends(a, b, l);
    forall j | 0 <= j < |l.neurons|
      ensures NeuronLeaves(b, l.neurons[j])
    {
      NeuronLeavesExtends(a, b, l.neurons[j]);
    }
  }

  /** What `count` iterations of the loop of `MLP(sizes)` have built from
      `a`: layers `0 .. count - 1`, layer `i` mapping `sizes[i]` inputs to
      `sizes[i + 1]` outputs. */
  predicate LayersBuilt(a: Arena, sizes: seq<nat>, count: nat, r: Built<seq<Layer>>)
    requires count < |sizes|
  {
    |r.item| == count && Extends(a, r.arena)
    && forall i :: 0 <= i < count ==> FreshLayer(r.arena, r.item[i], sizes[i], sizes[i + 1])
  }

  /** Pushing layer `count` after `count` layers. */
  lemma LayersStep(a: Arena, sizes: seq<nat>, count: nat, r: Built<seq<Layer>>, b: Arena, l: Layer)
    requires count + 1 < |sizes| && LayersBuilt(a, sizes, count, r)
    requires Extends(r.arena, b) && FreshLayer(b, l, sizes[count], sizes[count + 1])
    ensures LayersBuilt(a, sizes, count + 1, Built(b, r.item + [l]))
  {
    forall i | 0 <= i < count
      ensures FreshLayer(b, r.item[i], sizes[i], sizes[i + 1])
    {
      FreshLayerExtends(r.arena, b, r.item[i], sizes[i], sizes[i + 1]);
    }
    ExtendsTrans(a, r.arena, b);
  }

  /** One pass of the loop of `MLP(sizes)`: build layer `count`, mapping
      `sizes[count]` to `sizes[count + 1]`, and push it. */
  function PushLayer(a: Arena, sizes: seq<nat>, count: nat, draw: (nat, nat, nat) -> real,
                     r: Built<seq<Layer>>): (r': Built<seq<Layer>>)
    requires count + 1 < |sizes| && LayersBuilt(a, sizes, count, r)
    ensures LayersBuilt(a, sizes, count + 1, r')
    ensures WellFormed(r.arena) ==> WellFormed(r'.arena)
  {
    var l := NewLayer(r.arena, sizes[count], sizes[count + 1], (j: nat, k: nat) => draw(count, j, k));
    LayersStep(a, sizes, count, r, l.arena, l.item);
    Built(l.arena, r.item + [l.item])
  }

  /** The loop of `MLP(sizes)` that pushes layers `0 .. count - 1`. */
  function NewLayers(a: Arena, sizes: seq<nat>, count: nat, draw: (nat, nat, nat) -> real): (r: Built<seq<Layer>>)
    requires count < |sizes|
    ensures LayersBuilt(a, sizes, count, r)
    ensures WellFormed(a) ==> WellFormed(r.arena)
    decreases count
  {
    if count == 0 then Built(a, [])
    else PushLayer(a, sizes, count - 1, draw, NewLayers(a, sizes, count - 1, draw))
  }

  /** No `parameters()` call yet: the network and its layers hold no
      collected parameters. */
  predicate Unfilled(m: MLP) {
    m.params == [] && forall i :: 0 <= i < |m.layers| ==> m.layers[i].params == []
  }

  /** `MLP(sizes)`: `|sizes| - 1` layers, layer `i` mapping `sizes[i]` to
      `sizes[i + 1]`, so consecutive layers agree on their widths. */
  function NewMLP(a: Arena, sizes: seq<nat>, draw: (nat, nat, nat) -> real): (r: Built<MLP>)
    requires |sizes| >= 1
    ensures |r.item.layers| == |sizes| - 1 && r.item.params == []
    ensures forall i :: 0 <= i < |r.item.layers| ==>
              FreshLayer(r.arena, r.item.layers[i], sizes[i], sizes[i + 1])
    ensures MLPShape(r.item) && MLPIn(r.arena, r.item) && Unfilled(r.item)
    ensures Extends(a, r.arena)
    ensures WellFormed(a) ==> WellFormed(r.arena)
  {
    var ls := NewLayers(a, sizes, |sizes| - 1, draw);
    var m := MLP(ls.item, []);
    assert forall i :: 0 <= i < |m.layers| ==> FreshLayer(ls.arena, m.layers[i], sizes[i], sizes[i + 1]);
    assert forall i :: 0 <= i < |m.layers| ==> LayerShape(m.layers[i]) && LayerIn(ls.arena, m.layers[i]) by {
      forall i | 0 <= i < |m.layers|
        ensures LayerShape(m.layers[i]) && LayerIn(ls.arena, m.layers[i])
      {
        assert FreshLayer(ls.arena, m.layers[i], sizes[i], sizes[i + 1]);
      }
    }
    assert Unfilled(m) by {
      forall i | 0 <= i < |m.layers|
        ensures m.layers[i].params == []
      {
        assert FreshLayer(ls.arena, m.layers[i], sizes[i], sizes[i + 1]);
      }
    }
    assert Chained(m.layers) by {
      forall i, j | 0 <= i < |m.layers| && j == i + 1 < |m.layers|
        ensures m.layers[i].numOut == m.layers[j].numIn
      {
        assert FreshLayer(ls.arena, m.layers[i], sizes[i], sizes[i + 1]);
        assert FreshLayer(ls.arena, m.layers[j], sizes[j], sizes[j + 1]);
      }
    }
    Built(ls.arena, m)
  }
}
