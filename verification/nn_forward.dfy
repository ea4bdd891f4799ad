/** The call operators of micrograd's network classes (src/nn.h).

`Neuron::operator()` checks that the input has as many entries as the neuron
has weights, then accumulates `b + w0*x0 + w1*x1 + ...` with the graph
operators and applies `tanh`; `Layer::operator()` checks the input width and
calls each neuron on the same input; `MLP::operator()` checks the first
layer's input width and threads the vector through the layers. A failed
`assert` becomes a `Failure` result. `tanh` is a parameter: the model does
not interpret it.
 */
module NnForward {
  import opened Block
  import opened NnShape

  /** The argument of a failed arity `assert`: expected and actual input size. */
  datatype CallError = InputSizeMismatch(expected: nat, actual: nat)

  datatype Result<T> = Success(value: T) | Failure(error: CallError)

  /** `bias + ws[0]*xs[0] + ws[1]*xs[1] + ...`, added left to right. */
  function Affine(bias: real, ws: seq<real>, xs: seq<real>): real
    requires |ws| == |xs|
    decreases |ws|
  {
    if |ws| == 0 then bias
    else Affine(bias, ws[..|ws| - 1], xs[..|xs| - 1]) + ws[|ws| - 1] * xs[|xs| - 1]
  }

  /** The value a neuron computes from the input values `xs`. */
  function NeuronForward(a: Arena, n: Neuron, xs: seq<real>, tanh: real -> real): real
    requires NeuronIn(a, n) && |xs| == |n.ws|
  {
    tanh(Affine(a[n.b].data, Data(a, n.ws), xs))
  }

  /** The values a layer computes: neuron `j` gives output `j`. */
  function LayerForward(a: Arena, l: Layer, xs: seq<real>, tanh: real -> real): (r: seq<real>)
    requires LayerShape(l) && LayerIn(a, l) && |xs| == l.numIn
    ensures |r| == l.numOut
  {
    seq(l.numOut, j requires 0 <= j < l.numOut => NeuronForward(a, l.neurons[j], xs, tanh))
  }

  /** The values a chain of layers computes, one layer after the other. */
  function MLPForward(a: Arena, ls: seq<Layer>, xs: seq<real>, tanh: real -> real): (r: seq<real>)
    requires Chained(ls) && forall i :: 0 <= i < |ls| ==> LayerShape(ls[i]) && LayerIn(a, ls[i])
    requires |ls| > 0 ==> |xs| == ls[0].numIn
    ensures |ls| == 0 ==> r == xs
    ensures |ls| > 0 ==> |r| == ls[|ls| - 1].numOut
    decreases |ls|
  {
    if |ls| == 0 then xs
    else LayerForward(a, ls[|ls| - 1], MLPForward(a, ls[..|ls| - 1], xs, tanh), tanh)
  }

  lemma NeuronForwardExtends(a: Arena, b: Arena, n: Neuron, xs: seq<real>, tanh: real -> real)
    requires Extends(a, b) && NeuronIn(a, n) && |xs| == |n.ws|
    ensures NeuronIn(b, n) && NeuronForward(b, n, xs, tanh) == NeuronForward(a, n, xs, tanh)
  {
    DataExtends(a, b, n.ws);
    ExtendsAt(a, b, n.b);
  }

  lemma LayerForwardExtends(a: Arena, b: Arena, l: Layer, xs: seq<real>, tanh: real -> real)
    requires Extends(a, b) && LayerShape(l) && LayerIn(a, l) && |xs| == l.numIn
    ensures LayerIn(b, l) && LayerForward(b, l, xs, tanh) == LayerForward(a, l, xs, tanh)
  {
    LayerInExtends(a, b, l);
    forall j | 0 <= j < l.numOut
      ensures NeuronForward(b, l.neurons[j], xs, tanh) == NeuronForward(a, l.neurons[j], xs, tanh)
    {
      NeuronForwardExtends(a, b, l.neurons[j], xs, tanh);
    }
  }

  /** One more term of the sum: the prefix sums of `Affine` differ by the
      product of the next weight and input. */
  lemma AffineStep(a: Arena, bias: real, ws: seq<nat>, xs: seq<nat>, i: nat)
    requires InArena(a, ws) && InArena(a, xs) && |ws| == |xs| && i < |ws|
    ensures Affine(bias, Data(a, ws[..i + 1]), Data(a, xs[..i + 1]))
            == Affine(bias, Data(a, ws[..i]), Data(a, xs[..i])) + a[ws[i]].data * a[xs[i]].data
  {
    assert Data(a, ws[..i + 1])[..i] == Data(a, ws[..i]);
    assert Data(a, xs[..i + 1])[..i] == Data(a, xs[..i]);
  }

  /** One iteration of the neuron's loop: `act = act + w * x`, a `Mul`
      node followed by an `Add` node. */
  method Accumulate(a: Arena, act: nat, w: nat, x: nat) returns (r: Built<nat>)
    requires WellFormed(a) && act < |a| && w < |a| && x < |a|
    ensures WellFormed(r.arena) && Extends(a, r.arena) && r.item < |r.arena|
    ensures r.arena[r.item].data == a[act].data + a[w].data * a[x].data
  {
    var mult := Mul(a, w, x);
    var sum := Add(mult.arena, act, mult.item);
    ExtendsTrans(a, mult.arena, sum.arena);
    ExtendsAt(a, mult.arena, act);
    return sum;
  }

  /** The arena and accumulator after `i` iterations of the neuron's loop. */
  ghost predicate Summed(a: Arena, n: Neuron, x: seq<nat>, i: nat, arena: Arena, output: nat)
    requires NeuronIn(a, n) && InArena(a, x) && i <= |n.ws| == |x|
  {
    WellFormed(arena) && Extends(a, arena) && output < |arena|
    && arena[output].data == Affine(a[n.b].data, Data(a, n.ws[..i]), Data(a, x[..i]))
  }

  /** Iteration `i` of the neuron's loop. */
  method SumStep(a: Arena, n: Neuron, x: seq<nat>, i: nat, arena: Arena, output: nat) returns (r: Built<nat>)
    requires NeuronIn(a, n) && InArena(a, x) && i < |n.ws| == |x|
    requires Summed(a, n, x, i, arena, output)
    ensures Summed(a, n, x, i + 1, r.arena, r.item)
  {
    ExtendsAt(a, arena, n.ws[i]);
    ExtendsAt(a, arena, x[i]);
    AffineStep(a, a[n.b].data, n.ws, x, i);
    r := Accumulate(arena, output, n.ws[i], x[i]);
    ExtendsTrans(a, arena, r.arena);
  }

  /** The loop of `neuron(x)`: starting from the bias, adds `w_i * x_i` for
      every weight in turn. */
  method WeightedSum(a: Arena, n: Neuron, x: seq<nat>) returns (r: Built<nat>)
    requires WellFormed(a) && NeuronIn(a, n) && InArena(a, x) && |x| == |n.ws|
    ensures WellFormed(r.arena) && Extends(a, r.arena) && r.item < |r.arena|
    ensures r.arena[r.item].data == Affine(a[n.b].data, Data(a, n.ws), Data(a, x))
  {
    var arena: Arena, output: nat := a, n.b;
    var i := 0;
    while i < |n.ws|
      invariant 0 <= i <= |n.ws|
      invariant Summed(a, n, x, i, arena, output)
    {
      var next := SumStep(a, n, x, i, arena, output);
      arena, output := next.arena, next.item;
      i := i + 1;
    }
    assert n.ws[..i] == n.ws && x[..i] == x;
    return Built(arena, output);
  }

  /** `neuron(x)`: fails on an input of the wrong width; otherwise the output
      is a new node holding `tanh(b + sum of w_i * x_i)` over the data of the
      neuron's leaves and the inputs. */
  method NeuronCall(a: Arena, n: Neuron, x: seq<nat>, tanh: real -> real) returns (r: Result<Built<nat>>)
    requires WellFormed(a) && NeuronIn(a, n) && InArena(a, x)
    ensures r.Failure? <==> |x| != |n.ws|
    ensures r.Failure? ==> r.error == InputSizeMismatch(|n.ws|, |x|)
    ensures r.Success? ==>
              && WellFormed(r.value.arena) && Extends(a, r.value.arena)
              && |a| <= r.value.item < |r.value.arena|
              && r.value.arena[r.value.item].data == NeuronForward(a, n, Data(a, x), tanh)
  {
    if |n.ws| != |x| {
      return Failure(InputSizeMismatch(|n.ws|, |x|));
    }
    var sum := WeightedSum(a, n, x);
    var act := Tanh(sum.arena, sum.item, tanh);
    ExtendsTrans(a, sum.arena, act.arena);
    return Success(act);
  }

  /** `layer(x)`: fails on an input of the wrong width; otherwise returns
      `numOut` new nodes, output `j` holding what neuron `j` computes. */
  method LayerCall(a: Arena, l: Layer, x: seq<nat>, tanh: real -> real) returns (r: Result<Built<seq<nat>>>)
    requires WellFormed(a) && LayerShape(l) && LayerIn(a, l) && InArena(a, x)
    ensures r.Failure? <==> |x| != l.numIn
    ensures r.Failure? ==> r.error == InputSizeMismatch(l.numIn, |x|)
    ensures r.Success? ==>
              && WellFormed(r.value.arena) && Extends(a, r.value.arena)
              && |r.value.item| == l.numOut && InArena(r.value.arena, r.value.item)
              && AllNew(a, r.value.item)
              && Data(r.value.arena, r.value.item) == LayerForward(a, l, Data(a, x), tanh)
  {
    if l.numIn != |x| {
      return Failure(InputSizeMismatch(l.numIn, |x|));
    }
    var arena, outputs := a, [];
    var i := 0;
    while i < l.numOut
      invariant 0 <= i <= l.numOut
      invariant WellFormed(arena) && Extends(a, arena)
      invariant |outputs| == i && InArena(arena, outputs)
      invariant AllNew(a, outputs)
      invariant forall j :: 0 <= j < i ==>
                  arena[outputs[j]].data == NeuronForward(a, l.neurons[j], Data(a, x), tanh)
    {
      NeuronInExtends(a, arena, l.neurons[i]);
      DataExtends(a, arena, x);
      var o := NeuronCall(arena, l.neurons[i], x, tanh);
      assert o.Success?;
      var next := o.value;
      NeuronForwardExtends(a, arena, l.neurons[i], Data(a, x), tanh);
      forall j | 0 <= j < i
        ensures next.arena[outputs[j]] == arena[outputs[j]]
      {
        ExtendsAt(arena, next.arena, outputs[j]);
      }
      ExtendsTrans(a, arena, next.arena);
      arena, outputs := next.arena, outputs + [next.item];
      i := i + 1;
    }
    return Success(Built(arena, outputs));
  }

  /** `mlp(x)`: fails when the input does not fit the first layer; otherwise
      returns as many nodes as the last layer has neurons, holding what the
      layers compute one after the other. The source reads `layers[0]`
      unconditionally, so there must be a layer. */
  method MLPCall(a: Arena, m: MLP, x: seq<nat>, tanh: real -> real) returns (r: Result<Built<seq<nat>>>)
    requires WellFormed(a) && MLPShape(m) && MLPIn(a, m) && InArena(a, x)
    requires |m.layers| > 0
    ensures r.Failure? <==> |x| != m.layers[0].numIn
    ensures r.Failure? ==> r.error == InputSizeMismatch(m.layers[0].numIn, |x|)
    ensures r.Success? ==>
              && WellFormed(r.value.arena) && Extends(a, r.value.arena)
              && |r.value.item| == m.layers[|m.layers| - 1].numOut && InArena(r.value.arena, r.value.item)
              && AllNew(a, r.value.item)
              && Data(r.value.arena, r.value.item) == MLPForward(a, m.layers, Data(a, x), tanh)
  {
    if m.layers[0].numIn != |x| {
      return Failure(InputSizeMismatch(m.layers[0].numIn, |x|));
    }
    var arena, outputs := a, x;
    var i := 0;
    while i < |m.layers|
      invariant 0 <= i <= |m.layers|
      invariant WellFormed(arena) && Extends(a, arena) && InArena(arena, outputs)
      invariant |outputs| == if i == 0 then m.layers[0].numIn else m.layers[i - 1].numOut
      invariant i > 0 ==> AllNew(a, outputs)
      invariant Data(arena, outputs) == MLPForward(a, m.layers[..i], Data(a, x), tanh)
    {
      var layer := m.layers[i];
      assert i > 0 ==> m.layers[i - 1].numOut == layer.numIn;
      LayerInExtends(a, arena, layer);
      var o := LayerCall(arena, layer, outputs, tanh);
      assert o.Success?;
      var next := o.value;
      LayerForwardExtends(a, arena, layer, Data(arena, outputs), tanh);
      assert m.layers[..i + 1][..i] == m.layers[..i];
      ExtendsTrans(a, arena, next.arena);
      arena, outputs := next.arena, next.item;
      i := i + 1;
    }
    assert m.layers[..i] == m.layers;
    return Success(Built(arena, outputs));
  }
}
