# micrograd (C++) core in Dafny

This project models the scalar autograd library micrograd in its C++ form. It covers three pieces:

- **Expression nodes** (`src/block.h`). A `Value` holds `data`, `grad`, a predecessor set `prevs` and an `op` tag. `operator+` and `operator*` build a new node from the sum or product of their operands. Its predecessors are fresh copies of the operands (`make_shared<Value>(*this)`), not the operands themselves.
- **Graph tracing** (`src/visualizer.cpp`). `trace` is a recursive depth-first walk with a visited set. It collects every node reachable through `prevs` together with the `(child, parent)` edges. `draw_plot` calls it once from empty sets.
- **The network classes** (`src/nn.h`). `Neuron`, `Layer` and `MLP` each have a constructor, a call operator and `parameters()`.

How the model is built:

- Shared pointers become indices into an `Arena`, a sequence of node records that only grows.
- `make_shared` appends a record, and the new index is the node's identity.
- A well-formed arena has every predecessor index below the node's own index, which makes acyclicity explicit.
- Each binary operator appends three records: a copy of the left operand, a copy of the right operand, and the output.
- Every operation takes an arena and returns the grown arena together with what it built (`Built`).
- The network classes hold arena indices.
- A call operator either succeeds or returns a `Failure(InputSizeMismatch(expected, actual))`. This models the source's `assert` on the input width.
- `parameters()` returns the updated object together with the vector it returns (`Returned`). Repeated calls are described by a closed form after `k` calls plus a step lemma for call `k + 1`.

Modules:

- `Block` (`block.dfy`): nodes, the arena, the operators, reachability, forward consistency.
- `Visualizer` (`visualizer.dfy`): `trace` and the `draw_plot` call.
- `NnShape` (`nn_shape.dfy`): the network datatypes and constructors.
- `NnForward` (`nn_forward.dfy`): the call operators, with a pure reference forward pass.
- `NnParameters` (`nn_params.dfy`): the `parameters()` methods.

Three places where the model had to choose, and what it chose:

- The `Neuron` constructor (src/nn.h:23,26) passes a `std::string` label as the fourth argument, where the `Value` constructor (src/block.h:15) takes `double grad`. A string does not convert to a double, so the model drops the label argument, and leaves get the default `grad == 0`.
- The arity checks are `assert`s. The model reports them as a `Failure` result rather than assuming they hold.
- The names `Layer::parameters()` and `MLP::parameters()` suggest they return the layer's or network's parameters, once each. The code never clears the member `params`, so every call appends another full round. The model follows the code.

## Model

| member | source | states |
|---|---|---|
| Block.Alloc | src/block.h:23 | `make_shared` puts the new record at the next free index. It leaves every existing record alone and keeps the arena well formed. |
| Block.NewLeaf | src/block.h:15-16 | The constructor is `NewValue`, with the same defaults. A `Value` built with the default arguments is a leaf: it has the given data, `grad == 0`, no predecessors and the empty tag. It is appended as a new node and leaves the old nodes unchanged. |
| Block.Binary | src/block.h:22-30 | The shape both operators share. Fresh copies of the two operands are appended, equal to them field for field. The output comes after them, with exactly those two copies as predecessors, a zero gradient, and the given data and tag. Well-formedness is preserved. |
| Block.Add | src/block.h:22-25 | `x + y` has data `x.data + y.data`, tag `"+"` and `grad == 0`. It has exactly two predecessors, even when `x` and `y` are the same node. Neither operand is a predecessor, both operands are unchanged, and the arena stays well formed. |
| Block.Mul | src/block.h:27-30 | `x * y` has data `x.data * y.data`, tag `"*"` and `grad == 0`. The predecessor, copy, operand and well-formedness guarantees are the same as for `+`. |
| Block.Tanh | src/nn.h:37 | Stand-in for `Value::tanh()`: one new node holding `tanh` of the operand's data, with zero gradient, appended without disturbing the arena. |
| Block.NoCycle | src/block.h:22-29 | In a graph built by these operators, no node is reachable again from one of its own predecessors. |
| Block.ReachesExtends | src/block.h:22-29 | Appending nodes never changes which old nodes an old node reaches. |
| Block.CopyReaches | src/block.h:23 | A copy of an operand reaches itself and the operand's strict descendants. It does not reach the operand. |
| Block.BinaryReaches | src/block.h:22-30 | The output of `x + y` or `x * y` reaches exactly these nodes: itself, the two copies, and the strict descendants of either operand. |
| Block.OperandReached | src/block.h:22-30 | Either operand, left or right, is in the output's graph if and only if it lies strictly below the other operand. |
| Block.NewLeafConsistent | src/block.h:15-16 | Adding a leaf to a consistent arena keeps it consistent: every node still holds the forward value of its predecessors. |
| Block.BinaryConsistent | src/block.h:22-30 | Appending the copies and an output whose data is the sum or product of the two copies keeps the arena consistent. |
| Block.AddConsistent | src/block.h:22-25 | After `+`, the output's data is the sum of its two predecessors' data, and every other node still agrees with its predecessors. |
| Block.MulConsistent | src/block.h:27-30 | After `*`, the output's data is the product of its two predecessors' data, and every other node still agrees with its predecessors. |
| Visualizer.AvoidingNothing | src/visualizer.cpp:10-15 | Reaching while avoiding the empty visited set is the same as plain reachability through `prevs`, in both directions. |
| Visualizer.ClosedContainsDiscovered | src/visualizer.cpp:10-15 | Any node set that contains the start and is closed under `prevs` outside the visited set contains everything reached around the visited set. |
| Visualizer.Trace | src/visualizer.cpp:6-17 | Guarantees of `trace(n, nodes, edges)`:<br>• it only inserts, and `n` ends up in `nodes`;<br>• if `n` was already visited, nothing changes;<br>• each inserted node is reached from `n` around the previously visited nodes;<br>• each inserted node has all its predecessors visited and their edges inserted;<br>• each inserted edge is `(child, parent)` with `child` in `parent.prevs`;<br>• each node's predecessors are walked at most once;<br>• it terminates on any well-formed graph, whatever the iteration order. |
| Visualizer.VisitPrev | src/visualizer.cpp:12-15 | One pass of the loop inserts the edge `(c, n)` and traces `c`. After it, `c` counts as done and the loop's guarantees still hold. |
| Visualizer.TraceStep | src/visualizer.cpp:13-14 | The loop's guarantees carry over from the state before tracing `c` to the state after it. |
| Visualizer.TraceExact | src/visualizer.cpp:6-17 | The guarantees of `trace` fix its result. The final nodes are the old nodes plus those discovered from `n` around them. The final edges are the old edges plus every `(c, p)` with `p` discovered and `c` in `p.prevs`. |
| Visualizer.TraceFromRoot | src/visualizer.cpp:19-22 | From empty sets, as `draw_plot` calls it: a node is collected if and only if it is reachable from the root. An edge `(c, p)` is collected if and only if `p` is collected and `c` is in `p.prevs`. Every collected node is expanded exactly once. |
| NnShape.NewWeights | src/nn.h:22-25 | The weight loop allocates `count` new leaves in order. Weight `i` holds the `i`-th draw. |
| NnShape.NewNeuron | src/nn.h:16-27 | `Neuron(num_in)` creates exactly `num_in` weight leaves followed by one bias leaf, all without predecessors. The bias holds the draw after the weights, and `params` starts empty. |
| NnShape.NewNeurons | src/nn.h:57-60 | The constructor loop of `Layer` creates `count` neurons in order. Neuron `j` gets `numIn` new weight leaves and then a new bias leaf, at consecutive indices from `|a| + NeuronStart(numIn, j)`, which `NeuronStartIs` shows is `|a| + j * (numIn + 1)`, holding its own draws. In all, `count * (numIn + 1)` records are appended. |
| NnShape.NewLayer | src/nn.h:55-61 | `Layer(num_in, num_out)` holds `num_out` neurons of `num_in` weights each. Every weight and bias is an allocated leaf (no predecessors, empty tag, zero gradient), and no `params` are filled yet. |
| NnShape.NewLayers | src/nn.h:87-90 | The constructor loop of `MLP` builds the layers in order. Layer `i` maps `sizes[i]` inputs to `sizes[i + 1]` outputs. |
| NnShape.PushLayer | src/nn.h:88-89 | One pass of the `MLP` constructor loop: layer `count`, mapping `sizes[count]` to `sizes[count + 1]`, is built fresh and pushed after the earlier layers, which stay fresh. |
| NnShape.NewMLP | src/nn.h:86-91 | `MLP(sizes)` has `|sizes| - 1` fresh layers, so every weight and bias of the network is an allocated leaf. Layer `i` maps `sizes[i]` to `sizes[i + 1]`, so each layer's `numOut` is the next layer's `numIn`. Neither the network nor any layer has collected parameters yet (`Unfilled`). |
| NnForward.MLPForward | src/nn.h:95-100 | Reference forward pass of a chain of layers. With no layers it returns the input. Otherwise its width is the last layer's `numOut`. |
| NnForward.Accumulate | src/nn.h:33-34 | One pass of the neuron loop: the new node holds `act + w * x`, and the arena only grows. |
| NnForward.WeightedSum | src/nn.h:31-35 | The neuron loop yields a node holding the left fold `b + w_0 * x_0 + ... + w_(n-1) * x_(n-1)` over the data of the leaves and the inputs. |
| NnForward.NeuronCall | src/nn.h:29-38 | The neuron call fails if and only if `x.size() != ws.size()`, with both sizes in the error. Otherwise it returns a new node holding `tanh` of the weighted sum, and the arena only grows. |
| NnForward.LayerCall | src/nn.h:63-70 | The layer call fails if and only if `x.size() != num_in`. Otherwise it returns exactly `num_out` nodes, all new (at or above the old arena size), and output `j` holds what `neurons[j]` computes on `x`. |
| NnForward.MLPCall | src/nn.h:93-101 | The network call fails if and only if `x.size() != layers[0].num_in`. Otherwise it returns as many new nodes as the last layer has neurons, holding the layers' composed forward pass. |
| NnParameters.NeuronParameters | src/nn.h:40-44 | `Neuron::parameters()` returns `ws` followed by `b`, of length `|ws| + 1`. It sets `params` to exactly that and changes nothing else. |
| NnParameters.NeuronParametersStable | src/nn.h:40-43 | Calling `Neuron::parameters()` a second time returns the same vector and leaves the neuron as it was. |
| NnParameters.LayerParameters | src/nn.h:72-78 | The loop of `Layer::parameters()` appends every neuron's `ws + [b]` to the old `params`, in neuron order. It refreshes each neuron's own `params` and returns the new member vector. |
| NnParameters.RefreshedStable | src/nn.h:73-75 | Refreshing the neurons' `params` leaves their leaves unchanged, and a second refresh changes nothing. |
| NnParameters.LayerStep | src/nn.h:72-78 | After `k` calls, call `k + 1` of `Layer::parameters()` returns the original `params` followed by `k + 1` copies of all the leaves. `params` is never cleared. |
| NnParameters.FreshLayerParameters | src/nn.h:72-77 | On a freshly built layer, call `k + 1` returns exactly `k + 1` rounds of the neurons' leaves. |
| NnParameters.RoundsOfLayer | src/nn.h:72-77 | `k` rounds of a shaped layer's leaves hold `k * num_out * (num_in + 1)` entries. So call `k` of `parameters()` on a fresh layer returns that many. |
| NnParameters.MLPParameters | src/nn.h:103-109 | The loop of `MLP::parameters()` calls `parameters()` on every layer in order and appends each result to the network's `params`. It returns the new member vector. |
| NnParameters.MLPStep | src/nn.h:103-109 | After `k` calls of `MLP::parameters()`, one more call yields the network state after `k + 1` calls. |
| NnParameters.ResultsAfter | src/nn.h:104-107 | After `k` calls, one more pass over the layers returns round `k + 1`: for each layer in order, its old `params` followed by `k + 1` copies of its leaves. |
| NnParameters.MLPStepParams | src/nn.h:103-109 | Call `k + 1` of `MLP::parameters()` returns the network's original `params` followed by rounds `1` to `k + 1`. Round `j` concatenates, for each layer, its own old `params` and then `j` copies of its leaves. |
| NnParameters.MLPAfterNone | src/nn.h:103-109 | The closed form for zero calls is the network itself. |
| NnParameters.RoundsLength | src/nn.h:103-109 | When the layers start with empty `params`, the first `k` calls together contribute `k * (k + 1) / 2` copies of all leaves. |
| NnParameters.UnfilledMLPParameters | src/nn.h:103-109 | On a network before its first `parameters()` call (`Unfilled`, which `NewMLP` guarantees), call `k + 1` returns exactly the rounds `1` to `k + 1`. |
| NnParameters.UnfilledMLPParametersLength | src/nn.h:103-109 | On such a network, call `k + 1` of `parameters()` returns `(k + 1) * (k + 2) / 2` times as many entries as the network has leaves. |

## Left out

- Graphviz rendering in `draw_plot` (src/visualizer.cpp:24-54) is not modelled. It is a foreign library writing an SVG file, and only the `trace` call is modelled.
- `src/visualizer.h` holds declarations only.
- `src/main.cpp` is not part of this model. It covers the driver, the training loop, console output and the gradient-descent update on doubles (I/O and floating point).
- Random initialisation with `random_device`, `mt19937` and `uniform_real_distribution` (src/nn.h:17-19) becomes a `draw` function parameter. So the weights are arbitrary reals, and the range `[-1, 1)` is not modelled.
- `repr` (src/block.h:18-20) is string formatting of doubles.
- `Value` in src/block.h:8-32 does not define `tanh`, `backward` or `label`, which src/nn.h:37 and src/main.cpp:54,59 use. No gradient propagation is modelled. `tanh` is a function parameter.
- Block.Tanh: the tag and the predecessor of the tanh node are choices of this model. Only its data and zero gradient are stated. Forward consistency (`Consistent`) covers leaves and `+`/`*` nodes only, so it is not claimed for an arena that a neuron call has grown.
- Data are exact reals. Double rounding is not modelled.
- `shared_ptr` reference counting, lifetime and ownership are not modelled. The arena never frees.
- `layer_name` and the names `MLP` gives its layers are not modelled, because no code in src/nn.h or src/visualizer.cpp reads them.
- Sizes are `nat`. A negative `num_in` or `num_out` (an `int` compared with `size_t`) is not modelled, and neither is the truncation of the `double` sizes passed to `Layer` in `MLP`.
- NnShape.NewMLP: requires at least one size. With an empty vector, `size() - 1` wraps around and the loop reads out of bounds, which is undefined behaviour.
- NnForward.MLPCall: requires at least one layer. The source reads `layers[0]` unconditionally, which is undefined behaviour for an empty network.
- NnForward.NeuronCall, NnForward.LayerCall, NnForward.MLPCall: the arity checks are `assert`s, which vanish under `NDEBUG`. The model always reports the mismatch.
- Visualizer.Trace: the order in which `prevs` is walked (pointer order in the source) is left unspecified. The contract holds for every order.
- NnParameters.LayerStep, NnParameters.MLPStepParams: repeated `parameters()` calls are characterised by a closed form after `k` calls plus the step to `k + 1`. There is no iterated-call function.
