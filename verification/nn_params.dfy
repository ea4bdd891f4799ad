/** `parameters()` of micrograd's network classes (src/nn.h).

`Neuron::parameters()` overwrites its `params` with `ws` followed by `b`.
`Layer::parameters()` and `MLP::parameters()` append their parts' results
to their own `params` and never clear it, so each call returns everything
the earlier calls returned followed by one more round. A call is modelled
as a function from the object to the updated object and the returned
vector.
 */
module NnParameters {
  import opened NnShape

  /** The object after a `parameters()` call, and the vector the call returns. */
  datatype Returned<S> = Returned(self: S, result: seq<nat>)

  /** The leaves a neuron owns: its weights, then its bias. */
  function Own(n: Neuron): (r: seq<nat>)
    ensures |r| == |n.ws| + 1 && r[..|n.ws|] == n.ws && r[|n.ws|] == n.b
  {
    n.ws + [n.b]
  }

  /** `neuron.parameters()`: `params` becomes `ws` followed by `b`, whatever
      it held before, and is returned. */
  function NeuronParameters(n: Neuron): (r: Returned<Neuron>)
    ensures r.result == Own(n) && r.self == n.(params := r.result)
  {
    Returned(n.(params := Own(n)), Own(n))
  }

  /** Repeated calls return the same vector and leave the neuron as the
      first call left it. */
  lemma NeuronParametersStable(n: Neuron)
    ensures NeuronParameters(NeuronParameters(n).self) == NeuronParameters(n)
  {
  }

  /** The own leaves of `ns[0]`, then of `ns[1]`, and so on. */
  function Leaves(ns: seq<Neuron>): seq<nat> {
    LeavesOf(ns, |ns|)
  }

  /** The own leaves of the first `count` neurons of `ns`. */
  function LeavesOf(ns: seq<Neuron>, count: nat): seq<nat>
    requires count <= |ns|
    decreases count
  {
    if count == 0 then [] else LeavesOf(ns, count - 1) + Own(ns[count - 1])
  }

  /** Neurons that have the same weights and biases own the same leaves,
      whatever their `params`. */
  predicate SameLeaves(ns: seq<Neuron>, ms: seq<Neuron>) {
    |ns| == |ms| && forall j :: 0 <= j < |ns| ==> ns[j].ws == ms[j].ws && ns[j].b == ms[j].b
  }

  lemma {:induction false} LeavesSame(ns: seq<Neuron>, ms: seq<Neuron>, count: nat)
    requires SameLeaves(ns, ms) && count <= |ns|
    ensures LeavesOf(ns, count) == LeavesOf(ms, count)
    decreases count
  {
    if count > 0 {
      LeavesSame(ns, ms, count - 1);
    }
  }

  /** A layer's neurons of `numIn` weights each own `numIn + 1` leaves apiece. */
  lemma {:induction false} LeavesLength(ns: seq<Neuron>, numIn: nat, count: nat)
    requires forall j :: 0 <= j < |ns| ==> |ns[j].ws| == numIn
    requires count <= |ns|
    ensures |LeavesOf(ns, count)| == count * (numIn + 1)
    decreases count
  {
    if count > 0 {
      LeavesLength(ns, numIn, count - 1);
      assert count * (numIn + 1) == (count - 1) * (numIn + 1) + numIn + 1;
    }
  }

  /** The neurons after each has had its `parameters()` called once. */
  function Refreshed(ns: seq<Neuron>): (r: seq<Neuron>)
    ensures |r| == |ns| && forall j :: 0 <= j < |ns| ==> r[j] == NeuronParameters(ns[j]).self
  {
    seq(|ns|, j requires 0 <= j < |ns| => NeuronParameters(ns[j]).self)
  }

  /** The layer and the returned vector after one `layer.parameters()`:
      every neuron is refreshed and the leaves of all neurons, in order, are
      appended to `params`, which is returned. */
  function LayerCalled(l: Layer): (r: Returned<Layer>)
    ensures r.result == r.self.params
  {
    var ps := l.params + Leaves(l.neurons);
    Returned(l.(neurons := Refreshed(l.neurons), params := ps), ps)
  }

  /** The neurons and `params` after `i` iterations of the loop of
      `layer.parameters()`. */
  predicate LayerLoop(l: Layer, i: nat, neurons: seq<Neuron>, params: seq<nat>) {
    && i <= |l.neurons| == |neurons|
    && params == l.params + LeavesOf(l.neurons, i)
    && (forall j :: 0 <= j < i ==> neurons[j] == NeuronParameters(l.neurons[j]).self)
    && (forall j :: i <= j < |neurons| ==> neurons[j] == l.neurons[j])
  }

  /** Iteration `i` of the loop of `layer.parameters()`. */
  lemma LayerLoopStep(l: Layer, i: nat, neurons: seq<Neuron>, params: seq<nat>)
    requires LayerLoop(l, i, neurons, params) && i < |l.neurons|
    ensures var curr := NeuronParameters(neurons[i]);
            LayerLoop(l, i + 1, neurons[i := curr.self], params + curr.result)
  {
  }

  /** The loop of `layer.parameters()` after its last iteration. */
  lemma LayerLoopDone(l: Layer, neurons: seq<Neuron>, params: seq<nat>)
    requires LayerLoop(l, |l.neurons|, neurons, params)
    ensures Returned(l.(neurons := neurons, params := params), params) == LayerCalled(l)
  {
    assert neurons == Refreshed(l.neurons);
  }

  /** `layer.parameters()`, loop and all. */
  method LayerParameters(l: Layer) returns (r: Returned<Layer>)
    ensures r == LayerCalled(l)
  {
    var neurons, params := l.neurons, l.params;
    var i := 0;
    while i < |l.neurons|
      invariant LayerLoop(l, i, neurons, params)
    {
      LayerLoopStep(l, i, neurons, params);
      var curr := NeuronParameters(neurons[i]);
      neurons := neurons[i := curr.self];
      params := params + curr.result;
      i := i + 1;
    }
    LayerLoopDone(l, neurons, params);
    return Returned(l.(neurons := neurons, params := params), params);
  }

  /** `s` written `k` times in a row. */
  function Repeat(s: seq<nat>, k: nat): seq<nat>
    decreases k
  {
    if k == 0 then [] else Repeat(s, k - 1) + s
  }

  lemma {:induction false} RepeatLength(s: seq<nat>, k: nat)
    ensures |Repeat(s, k)| == k * |s|
    decreases k
  {
    if k > 0 {
      RepeatLength(s, k - 1);
      assert k * |s| == (k - 1) * |s| + |s|;
    }
  }

  /** Refreshing keeps the leaves and a second refresh changes nothing. */
  lemma RefreshedStable(ns: seq<Neuron>)
    ensures Leaves(Refreshed(ns)) == Leaves(ns)
    ensures Refreshed(Refreshed(ns)) == Refreshed(ns)
  {
    assert SameLeaves(Refreshed(ns), ns);
    LeavesSame(Refreshed(ns), ns, |ns|);
  }

  /** A layer after `k` calls of `parameters()`, in closed form: from the
      first call on its neurons are refreshed, and its `params` is the
      initial one followed by `k` copies of its neurons' leaves. */
  function LayerAfter(l: Layer, k: nat): Layer {
    if k == 0 then l
    else l.(neurons := Refreshed(l.neurons), params := l.params + Repeat(Leaves(l.neurons), k))
  }

  /** One more call takes the closed form for `k` calls to the one for
      `k + 1`, and returns the new `params`. */
  lemma LayerStep(l: Layer, k: nat)
    ensures LayerCalled(LayerAfter(l, k)).self == LayerAfter(l, k + 1)
    ensures LayerCalled(LayerAfter(l, k)).result == l.params + Repeat(Leaves(l.neurons), k + 1)
  {
    RefreshedStable(l.neurons);
    var s := Leaves(l.neurons);
    assert l.params + Repeat(s, k + 1) == (l.params + Repeat(s, k)) + s;
  }

  /** On a layer as its constructor leaves it, the call after `k` calls
      returns `k + 1` rounds of every weight and bias. */
  lemma FreshLayerParameters(a: Block.Arena, l: Layer, numIn: nat, numOut: nat, k: nat)
    requires FreshLayer(a, l, numIn, numOut)
    ensures LayerCalled(LayerAfter(l, k)).result == Repeat(Leaves(l.neurons), k + 1)
  {
    LayerStep(l, k);
  }

  /** `k` rounds of the leaves of `numOut` neurons of `numIn` weights each
      are `k * numOut * (numIn + 1)` indices. */
  lemma RoundsOfLayer(l: Layer, numIn: nat, numOut: nat, k: nat)
    requires LayerShape(l) && l.numIn == numIn && l.numOut == numOut
    ensures |Repeat(Leaves(l.neurons), k)| == k * (numOut * (numIn + 1))
  {
    LeavesLength(l.neurons, numIn, |l.neurons|);
    RepeatLength(Leaves(l.neurons), k);
  }

  /** What one call of `parameters()` on each of the first `count` layers
      of `ls` returns, concatenated. */
  function ResultsOf(ls: seq<Layer>, count: nat): seq<nat>
    requires count <= |ls|
    decreases count
  {
    if count == 0 then [] else ResultsOf(ls, count - 1) + LayerCalled(ls[count - 1]).result
  }

  /** The layers after each has had its `parameters()` called once. */
  function CalledLayers(ls: seq<Layer>): (r: seq<Layer>)
    ensures |r| == |ls| && forall i :: 0 <= i < |ls| ==> r[i] == LayerCalled(ls[i]).self
  {
    seq(|ls|, i requires 0 <= i < |ls| => LayerCalled(ls[i]).self)
  }

  /** The network and the returned vector after one `mlp.parameters()`:
      every layer's `parameters()` is called in order and what it returns is
      appended to `params`, which is returned. */
  function MLPCalled(m: MLP): (r: Returned<MLP>)
    ensures r.result == r.self.params
  {
    var ps := m.params + ResultsOf(m.layers, |m.layers|);
    Returned(m.(layers := CalledLayers(m.layers), params := ps), ps)
  }

  /** The layers and `params` after `i` iterations of the loop of
      `mlp.parameters()`. */
  predicate MLPLoop(m: MLP, i: nat, layers: seq<Layer>, params: seq<nat>) {
    && i <= |m.layers| == |layers|
    && params == m.params + ResultsOf(m.layers, i)
    && (forall j :: 0 <= j < i ==> layers[j] == LayerCalled(m.layers[j]).self)
    && (forall j :: i <= j < |layers| ==> layers[j] == m.layers[j])
  }

  /** Iteration `i` of the loop of `mlp.parameters()`. */
  lemma MLPLoopStep(m: MLP, i: nat, layers: seq<Layer>, params: seq<nat>)
    requires MLPLoop(m, i, layers, params) && i < |m.layers|
    ensures var curr := LayerCalled(layers[i]);
            MLPLoop(m, i + 1, layers[i := curr.self], params + curr.result)
  {
  }

  /** The loop of `mlp.parameters()` after its last iteration. */
  lemma MLPLoopDone(m: MLP, layers: seq<Layer>, params: seq<nat>)
    requires MLPLoop(m, |m.layers|, layers, params)
    ensures Returned(m.(layers := layers, params := params), params) == MLPCalled(m)
  {
    assert layers == CalledLayers(m.layers);
  }

  /** `mlp.parameters()`, loop and all. */
  method MLPParameters(m: MLP) returns (r: Returned<MLP>)
    ensures r == MLPCalled(m)
  {
    var layers, params := m.layers, m.params;
    var i := 0;
    while i < |m.layers|
      invariant MLPLoop(m, i, layers, params)
    {
      MLPLoopStep(m, i, layers, params);
      var curr := LayerCalled(layers[i]);
      layers := layers[i := curr.self];
      params := params + curr.result;
      i := i + 1;
    }
    MLPLoopDone(m, layers, params);
    return Returned(m.(layers := layers, params := params), params);
  }

  /** Every layer after `k` calls of its own. */
  function LayersAfter(ls: seq<Layer>, k: nat): (r: seq<Layer>)
    ensures |r| == |ls| && forall i :: 0 <= i < |ls| ==> r[i] == LayerAfter(ls[i], k)
  {
    seq(|ls|, i requires 0 <= i < |ls| => LayerAfter(ls[i], k))
  }

  /** Round `j` over the first `count` layers: what the `j`-th call of each
      layer's `parameters()` returns, concatenated. */
  function Round(ls: seq<Layer>, count: nat, j: nat): seq<nat>
    requires count <= |ls|
    decreases count
  {
    if count == 0 then [] else Round(ls, count - 1, j) + (ls[count - 1].params + Repeat(Leaves(ls[count - 1].neurons), j))
  }

  /** Rounds `1 .. k` over all layers, one after the other. */
  function Rounds(ls: seq<Layer>, k: nat): seq<nat>
    decreases k
  {
    if k == 0 then [] else Rounds(ls, k - 1) + Round(ls, |ls|, k)
  }

  /** A network after `k` calls of `parameters()`, in closed form: every
      layer has had `k` calls, and `params` is the initial one followed by
      rounds `1 .. k`. */
  function MLPAfter(m: MLP, k: nat): MLP {
    m.(layers := LayersAfter(m.layers, k), params := m.params + Rounds(m.layers, k))
  }

  /** Calling every layer after `k` calls returns round `k + 1`. */
  lemma {:induction false} ResultsAfter(ls: seq<Layer>, k: nat, count: nat)
    requires count <= |ls|
    ensures ResultsOf(LayersAfter(ls, k), count) == Round(ls, count, k + 1)
  {
    var c := 0;
    while c < count
      invariant c <= count
      invariant ResultsOf(LayersAfter(ls, k), c) == Round(ls, c, k + 1)
    {
      LayerStep(ls[c], k);
      c := c + 1;
    }
  }

  /** Calling every layer after `k` calls leaves every layer after `k + 1`. */
  lemma CalledLayersAfter(ls: seq<Layer>, k: nat)
    ensures CalledLayers(LayersAfter(ls, k)) == LayersAfter(ls, k + 1)
  {
    forall i | 0 <= i < |ls|
      ensures CalledLayers(LayersAfter(ls, k))[i] == LayersAfter(ls, k + 1)[i]
    {
      LayerStep(ls[i], k);
    }
  }

  /** The `params` after call `k + 1` is the initial one followed by rounds
      `1 .. k + 1`. */
  lemma MLPStepParams(m: MLP, k: nat)
    ensures MLPCalled(MLPAfter(m, k)).result == m.params + Rounds(m.layers, k + 1)
  {
    ResultsAfter(m.layers, k, |m.layers|);
    assert m.params + Rounds(m.layers, k + 1)
        == (m.params + Rounds(m.layers, k)) + Round(m.layers, |m.layers|, k + 1);
  }

  /** One more call takes the closed form for `k` calls to the one for
      `k + 1`. */
  lemma MLPStep(m: MLP, k: nat)
    ensures MLPCalled(MLPAfter(m, k)).self == MLPAfter(m, k + 1)
  {
    CalledLayersAfter(m.layers, k);
    MLPStepParams(m, k);
  }

  /** The closed form for no calls is the network itself. */
  lemma MLPAfterNone(m: MLP)
    ensures MLPAfter(m, 0) == m
  {
    assert LayersAfter(m.layers, 0) == m.layers;
  }

  /** The leaves of the neurons of the first `count` layers, layer by layer. */
  function AllLeaves(ls: seq<Layer>, count: nat): seq<nat>
    requires count <= |ls|
    decreases count
  {
    if count == 0 then [] else AllLeaves(ls, count - 1) + Leaves(ls[count - 1].neurons)
  }

  lemma Distribute(j: nat, x: nat, y: nat)
    ensures j * (x + y) == j * x + j * y
  {
  }

  /** When the layers start with empty `params`, round `j` is `j` times
      their leaves long. */
  lemma {:induction false} RoundLength(ls: seq<Layer>, count: nat, j: nat)
    requires count <= |ls| && forall i :: 0 <= i < |ls| ==> ls[i].params == []
    ensures |Round(ls, count, j)| == j * |AllLeaves(ls, count)|
    decreases count
  {
    if count > 0 {
      RoundLength(ls, count - 1, j);
      RepeatLength(Leaves(ls[count - 1].neurons), j);
      Distribute(j, |AllLeaves(ls, count - 1)|, |Leaves(ls[count - 1].neurons)|);
    }
  }

  lemma Triangle(k: nat, n: nat, prev: nat)
    requires k >= 1 && 2 * prev == (k - 1) * k * n
    ensures 2 * (prev + k * n) == k * (k + 1) * n
  {
    assert (k - 1) * k * n + 2 * (k * n) == k * (k + 1) * n;
  }

  /** Twice the length of rounds `1 .. k` is `k * (k + 1)` times the number
      of leaves. */
  lemma {:induction false} RoundsLength(ls: seq<Layer>, k: nat)
    requires forall i :: 0 <= i < |ls| ==> ls[i].params == []
    ensures 2 * |Rounds(ls, k)| == k * (k + 1) * |AllLeaves(ls, |ls|)|
    decreases k
  {
    if k > 0 {
      RoundsLength(ls, k - 1);
      RoundLength(ls, |ls|, k);
      Triangle(k, |AllLeaves(ls, |ls|)|, |Rounds(ls, k - 1)|);
    }
  }

  lemma EmptyPrefix(p: seq<nat>, s: seq<nat>)
    requires p == []
    ensures p + s == s
  {
  }

  /** A network before its first `parameters()` call, as `MLP(sizes)`
      leaves it: call `k + 1` returns rounds `1 .. k + 1`, in which round `j`
      holds `j` copies of every layer's leaves. */
  lemma UnfilledMLPParameters(m: MLP, k: nat)
    requires Unfilled(m)
    ensures MLPCalled(MLPAfter(m, k)).result == Rounds(m.layers, k + 1)
  {
    MLPStepParams(m, k);
    EmptyPrefix(m.params, Rounds(m.layers, k + 1));
  }

  /** A network before its first `parameters()` call: call `k + 1` returns
      `(k + 1) * (k + 2) / 2` copies of its leaves. */
  lemma UnfilledMLPParametersLength(m: MLP, k: nat)
    requires Unfilled(m)
    ensures 2 * |MLPCalled(MLPAfter(m, k)).result| == (k + 1) * (k + 2) * |AllLeaves(m.layers, |m.layers|)|
  {
    UnfilledMLPParameters(m, k);
    RoundsLength(m.layers, k + 1);
  }
}
