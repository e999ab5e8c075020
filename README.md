# neural — a Dafny model of a feed-forward neural-network engine

This project models the core of the `neural` C++ library. It covers:

- the intrusive element/container lists of `Util` and its `MemoryBuffer`;
- the neuron graph of `NeuralNet` (neurons, input and output synapses,
  biases, layers, groups, a layered net with an input and an output group);
- evaluation, resetting, weight setting and wiring of that graph;
- saving and loading a layered net;
- one step of back-propagation training (`BPTrainer::Train`);
- the genetic trainer (`Chromosome` and `GATrainer`).

Each operation is proved against a specification function. The
specification functions have their own lemmas.

Modules, in dependency order:

| module | file | models |
|---|---|---|
| `Util` | `util.dfy` | list positions (`GetIndex`, `Get`), C's `%`, the `Random` draws |
| `Containers` | `containers.dfy` | `Element`/`Container`. All containers and elements live in one `Pool` object, because attaching an element to one container detaches it from another |
| `MemBuf` | `membuf.dfy` | `MemoryBuffer` as a class over a byte array |
| `Graph` | `graph.dfy` | the neuron graph as a value, its well-formedness invariant, and the operations that build and rewire it |
| `Wiring` | `wiring.dfy` | the connection patterns `Group::Connect`, `ConnectParallel` and `ConnectGroups`, as lists of links |
| `NeuralNet` | `net.dfy` | class `LayeredNet`: `data`, `tempdouble` and `tempint` per neuron, plus every run-time operation |
| `Serial` | `serial.dfy` | the save format as a token stream; decoding an encoding gives back the image |
| `Storage` | `storage.dfy` | what `Load` builds and what `Save` writes, as functions on the graph |
| `WeightOrder` | `weightorder.dfy` | the order in which `GATrainer` reads and writes a net's weights |
| `BackProp` | `bpnet.dfy` | `BPTrainer::Train` |
| `Genes` | `genes.dfy` | class `Chromosome`: mutation and crossover |
| `Roulette` | `roulette.dfy` | `GetFitnessTotal` and `GetChromosome`, the roulette-wheel pick |
| `Breeding` | `breeding.dfy` | the crossover pass of `CreatePopulation`, as a function of the random draws |
| `Genetic` | `genetic.dfy` | class `GATrainer` |

## How the entities are represented

**Connections and biases.** A connection is a pair of C++ objects: an
`OutputSynapse` in the source neuron and an `InputSynapse` in the target
neuron. Here it is one `Synapse` record in an arena. Its number appears in the
source's `outs` list and the target's `ins` list. A `Bias` is an input synapse
with no source, and its connected data is 1.

**List order.** `Container::Attach` puts an element at the front of its list.
So every list in the model has the newest entry first, as in the source.
Lists are walked in that same order, whether to evaluate, to save, or to read
and write weights.

**Evaluation markers.** A neuron's `data` is `NoData`, `InProgress` or `Val(v)`.
The source marks the first two with the doubles `DBL_MIN` and `DBL_MAX`.
`Num` turns the markers back into those numbers wherever the source reads
them as numbers.

**Stale spare buffer in the genetic trainer.** `Chromosome::GetNewGenes`
(`Source/GANet.h:18`) returns `genes`, not `newgenes`. The model follows
the code, and `Genes.Chromosome.GetNewGenes` states it. The consequence:

1. `CrossOver` writes the offspring into the parents' *current* `genes` buffers.
2. In `CreatePopulation`, `Update` then swaps in the *spare* buffer.
3. That spare buffer is what gets mutated and written to the net.
4. The crossover result is kept as the new spare.

`Genetic.GATrainer.CreatePopulation` states this outcome exactly: the genes
come from `RenewedGenes` of the spare buffers, and the spare from
`RenewedSpare` of the bred population.

## Model

| member | source | states |
|---|---|---|
| Util.IndexOf | Source/Util.cpp:51-62 | the first position of an element: it holds the element, and no earlier position does |
| Util.GetIndex | Source/Util.cpp:51-62 | `Container::GetIndex`: the position of the element when it is in the list, and -1 when it is not |
| Util.CRem | Source/Util.cpp:333-336 | C's truncating `%`: `a == CDiv(a, b) * b + r` with C's truncating quotient, the remainder is smaller in magnitude than the divisor, and it has the sign of the dividend |
| Util.GetInt | Source/Util.h:208 | `Random::GetInt(max)`: for a non-negative draw and a positive `max`, the result is in `[0, max)` |
| Util.GetIntRange | Source/Util.cpp:333-336 | `Random::GetInt(min, max)`: for a non-negative draw and `min < max`, the result is in `[min, max)` |
| Util.GetDouble | Source/Util.cpp:327-331 | `Random::GetDouble(min, max)`: a uniform draw in `[0, 1]` gives a value in `[min, max]` |
| Util.ReverseAt | Source/Util.cpp:64-82 | the reversed list has at position `i` the element at `|s|-1-i`, which is the order repeated front insertion gives |
| Util.ReverseMultiset | Source/Util.cpp:64-82 | reversing keeps the same elements with the same multiplicities |
| Util.DistinctConcat | Source/Util.h:81-144 | for two duplicate-free lists, their concatenation is duplicate-free if and only if they share no element (both directions) |
| Util.InsertAtDistinct | Source/Util.cpp:164-190 | inserting an element that is not in a duplicate-free list keeps it duplicate-free |
| Containers.ChainRemove | Source/Util.cpp:193-210 | unlinking an element keeps every list a duplicate-free chain |
| Containers.ChainInsert | Source/Util.cpp:64-190 | linking in an element that is not yet in the list keeps the chain well formed |
| Containers.PoolRemove | Source/Util.cpp:193-210 | `Detach` keeps the pool invariant: each element is in at most one container, and its owner field names that container |
| Containers.PoolInsert | Source/Util.cpp:64-190 | every `Attach*` keeps the pool invariant and sets the element's owner |
| Containers.PoolNewElement | Source/Util.cpp:9-11 | a new element has no container, and the invariant holds |
| Containers.PoolNewContainer | Source/Util.cpp:26-28 | a new container is empty, and the invariant holds |
| Containers.PoolDeleteElement | Source/Util.cpp:19-22 | freeing an element (after detaching it) keeps the invariant |
| Containers.PoolDeleteContainer | Source/Util.cpp:30-33 | destroying an emptied container keeps the invariant |
| Containers.HeldIff | Source/Util.h:55-78 | an element is in a container's list iff its owner field names that container |
| Containers.WithoutInsertAt | Source/Util.cpp:164-190 | removing an element just inserted gives back the original list |
| Containers.Pool.constructor | Source/Util.h:81-144 | an empty pool that satisfies the invariant |
| Containers.Pool.NewElement | Source/Util.cpp:9-11 | `Element()`: a fresh handle that belongs to no container |
| Containers.Pool.NewContainer | Source/Util.cpp:26-28 | `Container()`: a fresh, empty container with size 0 |
| Containers.Pool.Elements | Source/Util.cpp:35-38 | the first element of the list, or null when the list is empty |
| Containers.Pool.Next | Source/Util.h:55-78 | the element after `e` in its container, or null at the end |
| Containers.Pool.Prev | Source/Util.h:55-78 | the element before `e` in its container, or null at the front |
| Containers.Pool.GetSize | Source/Util.cpp:236-239 | the hand-kept counter equals the list length |
| Containers.Pool.Find | Source/Util.cpp:40-49 | true iff the element is in this container |
| Containers.Pool.GetIndex | Source/Util.cpp:51-62 | the element's position, or -1 when it is absent |
| Containers.Pool.Get | Source/Util.cpp:242-253 | the element at position `number`, or null when the position is out of range |
| Containers.Pool.Detach | Source/Util.cpp:193-210 | succeeds iff the element was in the list. On success the element is removed and left without an owner; otherwise nothing changes |
| Containers.Pool.Free | Source/Util.cpp:19-22 | `Element::Free`: detaches the element from whatever container holds it |
| Containers.Pool.Attach | Source/Util.cpp:64-82 | succeeds iff the element was not already here. It is first taken out of its old container and then put at the front |
| Containers.Pool.AttachLast | Source/Util.cpp:85-113 | like `Attach`, but the element goes at the back |
| Containers.Pool.AttachAfter | Source/Util.cpp:116-136 | inserts at the position just after `after`. It fails, changing nothing, when `after` is not in the list or the element already is |
| Containers.Pool.AttachBefore | Source/Util.cpp:139-162 | inserts at the position of `before`, with the same failure cases as `AttachAfter` |
| Containers.Pool.AttachAt | Source/Util.cpp:164-190 | succeeds iff the element is not in the list and `0 <= index < size`; it then inserts at `index` |
| Containers.Pool.DetachAll | Source/Util.cpp:213-216 | the list becomes empty, and every element it held becomes unowned |
| Containers.Pool.DeleteElement | Source/Util.cpp:19-22 | `delete element`: detach it, then drop it from the pool |
| Containers.Pool.Empty | Source/Util.cpp:219-222 | the list becomes empty and every element it held is deleted |
| Containers.Pool.DeleteContainer | Source/Util.cpp:30-33 | `~Container`: the elements are detached (kept), and the container goes away |
| Containers.Pool.DeleteCleanContainer | Source/Util.cpp:257-260 | `~CleanContainer`: the elements are deleted, and the container goes away |
| Containers.Pool.ForEach | Source/Util.h:158-159 | the `forEach` walk visits exactly the container's list, front to back |
| Containers.Pool.ForEachDetach | Source/Util.h:158-159 | a `forEach` that detaches each element stops after the first one, because `Detach` nulls its `next` |
| MemBuf.MemoryBuffer.constructor | Source/Util.cpp:303-305 | size 0 and a null buffer |
| MemBuf.MemoryBuffer.Sized | Source/Util.cpp:307-311 | a fresh buffer of exactly the requested size; no object (`None`) exactly when the size is negative |
| MemBuf.MemoryBuffer.GetSize | Source/Util.cpp:265-268 | the current size, never negative |
| MemBuf.MemoryBuffer.GetBuffer | Source/Util.cpp:276-284 | the size becomes `max(size, bytesize)`. The buffer is replaced only when it must grow, and it then holds at least `bytesize` bytes |
| MemBuf.MemoryBuffer.Realloc | Source/Util.cpp:286-295 | for a non-negative `bytesize`, a fresh block: the size becomes `bytesize`, and the first `min(bytesize, old size)` bytes are kept. A negative size gives null and changes nothing |
| MemBuf.MemoryBuffer.Clear | Source/Util.cpp:297-301 | size 0 and a null buffer |
| Graph.AddNeurons | Source/NeuralNet.cpp:237-244 | the `Layer(size)` loop adds exactly `count` neurons and no layer |
| Graph.AddNeuronsOk | Source/NeuralNet.cpp:237-244 | adding neurons to a layer keeps the graph well formed |
| Graph.AddNeuronsShape | Source/NeuralNet.cpp:166-171 | each new neuron has a fresh bias of weight 0 as its only input, no outputs, and data 0 |
| Graph.AddNeuronsLayer | Source/NeuralNet.cpp:237-244 | the new neurons are at the front of the layer, newest first, followed by the old members |
| Graph.AddNeuronsOtherLayers | Source/NeuralNet.cpp:237-244 | no other layer changes |
| Graph.WithLayerOk | Source/NeuralNet.cpp:237-244 | `new Layer(size)` keeps the graph well formed |
| Graph.WithLayerLayers | Source/NeuralNet.cpp:237-244 | the new layer holds the `size` new neurons (none when `size <= 0`), and the old layers are kept |
| Graph.WithLayerNeurons | Source/NeuralNet.cpp:166-171 | the old neurons are kept, and each new one is a fresh `Neuron(0, 0)` |
| Graph.Range | Source/NeuralNet.cpp:237-244 | the numbers `lo, lo+1, …, hi-1` |
| Graph.NewNetOk | Source/NeuralNet.cpp:316-323 | `NeuralNet(in, out)`: a well-formed net with two layers, groups `[input, output]` and that input and output |
| Graph.NewNetLayers | Source/NeuralNet.cpp:316-323 | the input layer has `inputcount` neurons and the output layer `outputcount` |
| Graph.NewNetNeurons | Source/NeuralNet.cpp:166-171 | every neuron of a new net has one bias of weight 0, no outputs, and data 0 |
| Graph.AddOutputShape | Source/NeuralNet.cpp:103-117 | `AddOutput` creates one new synapse `a -> b` with the given weight. It is at the front of `a`'s outputs and of `b`'s inputs, and nothing else changes |
| Graph.AddOutputOk | Source/NeuralNet.cpp:98-117 | `AddOutput`/`AddInput` keep the graph well formed |
| Graph.SetBiasShape | Source/NeuralNet.cpp:142-156 | after `SetBias(b)`, `GetBias` returns `b`. No other synapse's weight changes, and a new bias is created only when the neuron had none |
| Graph.SetBiasOk | Source/NeuralNet.cpp:142-150 | `SetBias` keeps the graph well formed |
| Graph.ReweightOk | Source/NeuralNet.cpp:87-96 | changing the weight or temp of a synapse keeps the graph well formed |
| Graph.RemoveAll | Source/NeuralNet.cpp:20-26 | a list without `x`: every other element is kept, nothing is added, and it stays duplicate-free |
| Graph.DisconnectOk | Source/NeuralNet.cpp:20-26 | removing a synapse from both ends keeps the graph well formed |
| Graph.InAllGroups | Source/NeuralNet.cpp:325-332 | a neuron is in the net iff some group's layer holds it |
| Graph.GetNeuronPosition | Source/NeuralNet.cpp:325-332 | `GetNeuron` at a neuron's (group, index) position gives back that neuron |
| Graph.PositionGetNeuron | Source/NeuralNet.cpp:325-332 | `GetNeuron(gi, ni)` finds a neuron iff the position is in range, and that neuron's position is `(gi, ni)` |
| Graph.WithGroupOk | Source/NeuralNet.cpp:263-267 | `AddGroup` keeps the graph well formed |
| Graph.WithGroupShape | Source/NeuralNet.cpp:263-267 | `AddGroup` changes nothing when the layer is already a group or the net has no output. Otherwise the layer is inserted just before the output group |
| Graph.GraphWired | Source/NeuralNet.h:228-276 | a well-formed graph is wired: every input's source neuron exists |
| Wiring.AddOutputsAppend | Source/NeuralNet.cpp:184-211 | making the connections of `ps ++ qs` is making those of `ps`, then those of `qs` |
| Wiring.AddOutputsShape | Source/NeuralNet.cpp:184-211 | one new synapse per link, in order, with the links' ends and weight 0. The old synapses are kept |
| Wiring.AddOutputsLists | Source/NeuralNet.cpp:103-117 | each neuron's new inputs and outputs go in front of its old lists, newest first |
| Wiring.AddOutputsOk | Source/NeuralNet.cpp:184-211 | making connections keeps the graph well formed |
| Wiring.Links | Source/NeuralNet.cpp:184-211 | one synapse record per link |
| Wiring.Row | Source/NeuralNet.cpp:184-193 | the inner loop of `Group::Connect`: one link from `a` to each `y` |
| Wiring.CrossCount | Source/NeuralNet.cpp:184-193 | `Group::Connect` makes `|xs|·|ys|` links, and `(x, y)` is among them iff `x` is in `xs` and `y` is in `ys` |
| Wiring.Zip | Source/NeuralNet.cpp:195-203 | `ConnectParallel` links the `k`-th neurons pairwise, as many times as the shorter group has neurons |
| Wiring.GroupLayers | Source/NeuralNet.cpp:269-276 | one neuron list per group, in group order |
| Wiring.ChainCount | Source/NeuralNet.cpp:269-276 | `ConnectGroups` links exactly the pairs whose ends lie in adjacent groups, once per pair of positions |
| Wiring.ChainStep | Source/NeuralNet.cpp:269-276 | `ConnectGroups` connects each group to the next, one pair of groups at a time |
| NeuralNet.Pow2 | Source/NeuralNet.cpp:52-53 | the powers of two used to write `DBL_MIN` and `DBL_MAX`; always at least 1 |
| NeuralNet.Weight | Source/NeuralNet.cpp:71-84 | `ZeroWeights`, `OneWeights`, `RandomWeights`: each gives a weight in `[-1, 1]` for a draw in `[0, 1]` |
| NeuralNet.Reweighted | Source/NeuralNet.cpp:87-96 | `SetWeights` on one input: with no function, `weight := temp`. The ends and the temp are kept, and a random weight lies in `[-1, 1]` |
| NeuralNet.ReweightedTwice | Source/NeuralNet.cpp:87-96 | setting a weight twice with the same function and draw equals setting it once |
| NeuralNet.CountDrop | Source/NeuralNet.cpp:119-140 | marking a neuron strictly lowers the number of unevaluated neurons. This is the termination measure of the recursive `Neuron::Update` |
| NeuralNet.SumStable | Source/NeuralNet.cpp:119-140 | once a neuron's inputs are evaluated, later evaluations do not change its weighted sum |
| NeuralNet.LayerStep | Source/NeuralNet.cpp:173-182 | one step of `Group::Update`: the neuron is visited, and the result stays true iff it was true and the neuron's value is non-zero |
| NeuralNet.LayerDone | Source/NeuralNet.cpp:173-182 | after `Group::Update`, every neuron of the group is evaluated or on the evaluation path. The result is true iff all have non-zero values |
| NeuralNet.LayeredNet.constructor | Source/NeuralNet.cpp:316-323 | the graph is `NewNet(in, out)`; every neuron has data 0 and zero temps |
| NeuralNet.LayeredNet.NewLayer | Source/NeuralNet.cpp:237-244 | the graph gets the new layer, and the new neurons get data 0; old state is kept |
| NeuralNet.LayeredNet.AddGroup | Source/NeuralNet.cpp:263-267 | the graph becomes `WithGroup(l)`, and no neuron state changes |
| NeuralNet.LayeredNet.NeuronUpdate | Source/NeuralNet.cpp:119-140 | `Neuron::Update`. When the neuron is being evaluated (a loop), the result is 0. Otherwise the neuron becomes `Val(T(weighted sum))` over evaluated inputs, none of which was in progress when the update began. Other neurons only move forward in evaluation, and every neuron the nested updates evaluate is `Settled`: `T` of the weighted sum of its own evaluated inputs. In a feed-forward net (`Acyclic`), when every neuron of the net in progress lies in a later group, no loop is met: the neuron ends with a value and no other neuron is left in progress |
| NeuralNet.LayeredNet.ReadInputs | Source/NeuralNet.cpp:125-136 | the input loop of `Neuron::Update`: it stops (`met`) only at an input in progress; otherwise every input is evaluated, none comes from the neuron itself, and `sum` is the weighted sum of their values. In a feed-forward net with every neuron in progress in a later group, it never stops early and leaves nothing else in progress |
| NeuralNet.InputAdvance | Source/NeuralNet.cpp:128-134 | a nested update of an input without data keeps what the input loop has established about the inputs read so far: their sum, the neurons settled since the update began, and in a feed-forward net that nothing else entered progress |
| NeuralNet.SourceBelow | Source/NeuralNet.cpp:125-129 | in a feed-forward net, a source of the neuron being updated is not in progress and lies in an earlier group, so its own update meets no loop either |
| NeuralNet.LayeredNet.LayerUpdate | Source/NeuralNet.cpp:173-182 | `Group::Update` returns true iff every neuron of the group has a non-zero value. Neurons outside the group only move forward. When no neuron reads the group, every neuron evaluated during the call is `Settled`. In a feed-forward net, when the group is part of the net and no neuron of the net is in progress, every neuron of the group ends with a value and none of the net is left in progress |
| NeuralNet.LayerAdvance | Source/NeuralNet.cpp:177-180 | one turn of the `Group::Update` loop keeps its facts about the neurons visited so far, including that none of the net is in progress in a feed-forward net |
| NeuralNet.LayeredNet.ResetNeuron | Source/NeuralNet.h:140 | `Neuron::Reset`: data `NoData`, `tempdouble = DBL_MIN`, `tempint = 0` |
| NeuralNet.LayeredNet.LayerReset | Source/NeuralNet.cpp:246-250 | `Layer::Reset` resets exactly the layer's neurons |
| NeuralNet.LayeredNet.Reset | Source/NeuralNet.cpp:309-313 | `NeuralNet::Reset` resets exactly the neurons of the net's groups |
| NeuralNet.LayeredNet.SetInputs | Source/NeuralNet.cpp:291-307 | the `k`-th input neuron gets `inputbuffer[k]`, and nothing else changes |
| NeuralNet.LayeredNet.CopyOutputs | Source/NeuralNet.cpp:291-307 | `outputbuffer[k]` is the numeric data of the `k`-th output neuron; the rest of the buffer is kept |
| NeuralNet.LayeredNet.Update | Source/NeuralNet.cpp:291-307 | `NeuralNet::Update` resets the net and loads the inputs. It returns true iff every output neuron ends with a non-zero value, and only then fills the output buffer. When no neuron reads an output neuron (a feed-forward net), every neuron of the net other than an input that holds a value holds `T` of the weighted sum of its inputs; and when no output neuron feeds another, every output neuron is settled. In a feed-forward net no neuron of the net is left in progress and every output neuron holds a value (`ForwardPass`) |
| NeuralNet.AcyclicUnread | Source/NeuralNet.cpp:269-276 | in a feed-forward net, the shape `ConnectGroups` gives, no neuron reads an output neuron |
| NeuralNet.ForwardUnique | Source/NeuralNet.cpp:119-140 | in a feed-forward net, two results of the forward pass that agree on the input neurons agree on every neuron of the net holding a value in both: the values depend only on the inputs and the weights |
| NeuralNet.ForwardOutputs | Source/NeuralNet.cpp:291-307 | in a feed-forward net, two forward passes from the same input values give every output neuron a value, and the same one |
| NeuralNet.UnreadNoOuts | Source/NeuralNet.cpp:103-117 | every connection is recorded at both ends, so neurons without output synapses are read by no neuron |
| NeuralNet.SettledStable | Source/NeuralNet.cpp:119-140 | a settled neuron stays settled while the other neurons only move forward in evaluation |
| NeuralNet.NewlyStep | Source/NeuralNet.cpp:125-136 | a nested `Neuron::Update` on an unevaluated input keeps every neuron evaluated so far settled, and adds the ones it evaluated |
| NeuralNet.NewlyFinal | Source/NeuralNet.cpp:138-139 | storing the neuron's own value at the end of its update leaves the neurons its nested updates evaluated settled |
| NeuralNet.SinceStep | Source/NeuralNet.cpp:177-180 | one neuron's update inside `Group::Update` keeps every neuron evaluated since the start of the call settled, when no neuron reads it |
| NeuralNet.LayeredNet.NeuronSetWeights | Source/NeuralNet.cpp:87-96 | every input of the neuron is `Reweighted`, and nothing else changes |
| NeuralNet.LayeredNet.LayerSetWeights | Source/NeuralNet.cpp:225-229 | every input of every neuron of the layer is `Reweighted` |
| NeuralNet.LayeredNet.SetWeights | Source/NeuralNet.cpp:279-283 | exactly the inputs of the net's neurons are `Reweighted`; the neuron state is kept |
| NeuralNet.LayeredNet.Connect | Source/NeuralNet.cpp:184-193 | the graph gets the links `Cross(la, lb)` |
| NeuralNet.LayeredNet.ConnectParallel | Source/NeuralNet.cpp:195-203 | the graph gets the links `Zip(la, lb)` |
| NeuralNet.LayeredNet.ConnectNeuron | Source/NeuralNet.cpp:205-211 | the graph gets one link from each neuron of the layer to `n` |
| NeuralNet.LayeredNet.ConnectGroups | Source/NeuralNet.cpp:269-276 | the graph gets the links `Chain` of the groups: each group fully connected to the next |
| NeuralNet.LayeredNet.TagGroups | Source/NeuralNet.cpp:338-344 | the first loop of `Save` tags every neuron with the index of its group |
| NeuralNet.LayeredNet.SaveNeuron | Source/NeuralNet.cpp:358-371 | the tokens of one neuron's input records, as `Storage.SavedNeuron` describes them |
| NeuralNet.LayeredNet.SaveLayer | Source/NeuralNet.cpp:346-374 | a group's neuron count followed by each neuron's records |
| NeuralNet.LayeredNet.SaveGroups | Source/NeuralNet.cpp:346-374 | the group count and every group, as `Encode(Image)` |
| NeuralNet.LayeredNet.Save | Source/NeuralNet.cpp:335-377 | `Save`: the tags are `Tagged`, the stream is `Encode(Image(g))`, and the graph is unchanged |
| NeuralNet.LayeredNet.LoadNeuron | Source/NeuralNet.cpp:395-415 | the records of one neuron are loaded as `LoadEntries` |
| NeuralNet.LayeredNet.LoadLayer | Source/NeuralNet.cpp:386-418 | one new layer, filled from its image, becomes the last group |
| NeuralNet.LayeredNet.LoadLayers | Source/NeuralNet.cpp:386-418 | all layer images loaded in order |
| NeuralNet.LayeredNet.Load | Source/NeuralNet.cpp:379-427 | returns true iff the stream decodes. Then the graph is `LoadNet(old, image)`; on a malformed stream nothing changes |
| Serial.DecodeEncode | Source/NeuralNet.cpp:335-427 | the reader of `Load` parses what the writer of `Save` wrote back into the same image, whatever follows it |
| Serial.ParseLayersTokens | Source/NeuralNet.cpp:386-418 | parsing encoded layers gives back those layers and the rest of the stream |
| Serial.EncodePrefix | Source/NeuralNet.cpp:346-374 | encoding one more layer appends its tokens |
| Storage.LoadEntry | Source/NeuralNet.cpp:395-415 | one record keeps the graph loadable: a bias record or a new input, with everything else unchanged |
| Storage.LoadNet | Source/NeuralNet.cpp:379-427 | the loaded net has one group per image layer, with input the first group and output the last (none for an empty image) |
| Storage.LoadNetOk | Source/NeuralNet.cpp:379-427 | loading an image into a well-formed net gives a well-formed net |
| Storage.LoadEntryView | Source/NeuralNet.cpp:395-415 | a record adds exactly that record to the neuron's view, or sets its bias |
| Storage.LoadNetView | Source/NeuralNet.cpp:379-427 | for any image, what the loaded net would save is `ReloadedNet(image)` |
| Storage.ResolvesGetNeuron | Source/NeuralNet.cpp:325-332 | a record's `(group, index)` names a neuron iff `GetNeuron` finds one there |
| Storage.TaggedNet | Source/NeuralNet.cpp:338-344 | after the tagging loop, each neuron's `tempint` is the index of its group |
| Storage.SavedView | Source/NeuralNet.cpp:346-374 | what `Save` writes is the view of the net |
| Storage.SaveLoad | Source/NeuralNet.cpp:335-427 | saving, then loading the stream, gives a net whose view is `ReloadedNet` of the saved image |
| Storage.SaveLoadFeedForward | Source/NeuralNet.cpp:335-427 | for a saved feed-forward net, the reloaded net has the same group sizes and biases, and each neuron's links come back in reverse order |
| Storage.NeuronBias | Source/NeuralNet.cpp:358-371 | the bias read back from a neuron's records is its `GetBias` |
| Storage.ReloadedFeedForward | Source/NeuralNet.cpp:395-415 | reloading a feed-forward net's image gives each neuron its links in reverse order, followed by its `GetBias` |
| Storage.KeptLinks | Source/NeuralNet.cpp:395-415 | when every link record names an existing neuron, `Load` keeps all the link records |
| Storage.BiasWeightIs | Source/NeuralNet.cpp:395-415 | when all bias records of a neuron carry one weight, that weight is the bias `Load` gives it |
| WeightOrder.NeuronsSlotsOk | Source/GANet.cpp:68-100 | the weight slots of a list of neurons are those neurons' inputs, in order, each exactly once |
| WeightOrder.GroupsSlotsOk | Source/GANet.cpp:68-100 | the slots of the groups are their neurons' inputs, group by group |
| WeightOrder.SlotsDistinct | Source/GANet.cpp:68-100 | no synapse is read or written twice |
| WeightOrder.WithWeightsAt | Source/GANet.cpp:80-89 | writing weights sets slot `k` to `w[k]` and leaves every other synapse alone |
| WeightOrder.WithOwnWeights | Source/GANet.cpp:80-100 | writing back the weights just read changes nothing |
| WeightOrder.WithWeightsOk | Source/GANet.cpp:80-89 | writing weights keeps the graph well formed |
| WeightOrder.SetThenGet | Source/GANet.cpp:80-100 | reading the weights back after `SetWeights(w)` gives `w`, up to the net's weight count |
| WeightOrder.GetThenSet | Source/GANet.cpp:80-100 | `SetWeights` with the weights `GetWeights` just read leaves the net as it was |
| BackProp.TrainedTemps | Source/BPNet.cpp:16-58 | every trained neuron has each input's `temp = weight + step·factor·input`, with the neuron's final error factor. Every other synapse and factor is untouched |
| BackProp.TrainedOutput | Source/BPNet.cpp:16-31 | the factor of the `i`-th output neuron is `a(1-a)(d-a)` |
| BackProp.TrainedHidden | Source/BPNet.cpp:36-58 | the factor of a hidden neuron is `data(1-data)` times the sum of the factor times the weight over its outputs |
| BackProp.TrainedZero | Source/BPNet.cpp:16-58 | a factor is 0 when the outputs match the targets |
| BackProp.TrainedAtTarget | Source/BPNet.cpp:16-58 | when the outputs match the targets, every trained temp is the unchanged weight, so training leaves the weights alone |
| BackProp.AbsSumZero | Source/BPNet.cpp:29 | the summed error is non-negative, and 0 iff every output matches its target |
| BackProp.MeanErrorZero | Source/BPNet.cpp:29-33 | the mean error is non-negative, and 0 iff every output matches its target |
| BackProp.StageNeuron | Source/BPNet.cpp:21-27 | the neuron's factor is stored, and each of its inputs gets the delta-rule temp |
| BackProp.ErrorFactor | Source/BPNet.cpp:41-48 | the hidden neuron's factor is `HiddenFactor` |
| BackProp.OutputLayer | Source/BPNet.cpp:16-33 | the output loop is `OutputPass`, and it returns the mean error |
| BackProp.HiddenLayer | Source/BPNet.cpp:40-56 | one hidden group is `LayerPass` |
| BackProp.HiddenLayers | Source/BPNet.cpp:36-58 | the groups from the one before the output back to (but not including) the input are `Backward` |
| BackProp.Evaluate | Source/BPNet.cpp:11 | the net is updated on the inputs: `Updated` (inputs loaded, buffer rule, `TempInt` reset) and `ForwardPass`, so in a feed-forward net every output neuron holds a value, every hidden and output neuron holding a value holds `T` of the weighted sum of its inputs, and the output values and buffer are fixed by the inputs and the weights (`EvaluatedUnique`) |
| BackProp.EvaluatedUnique | Source/NeuralNet.cpp:291-307 | in a feed-forward net, two updates on the same inputs from the same output buffer give the output neurons the same values and leave the same buffer |
| BackProp.Backprop | Source/BPNet.cpp:13-61 | the backward pass and commit give `AfterTrain` |
| BackProp.Commit | Source/BPNet.cpp:61 | `SetWeights(null)`: every weight becomes its temp |
| BackProp.Train | Source/BPNet.cpp:5-63 | the neuron values are those of the forward pass on the inputs (`Updated`, `ForwardPass`; in a feed-forward net the output values are fixed by the inputs and weights, `EvaluatedUnique`); the new graph and temps are `AfterTrain(...)` of the old graph over those values. The result is the mean error over the outputs |
| Genes.MutatedBound | Source/GANet.cpp:25-33 | a mutated gene moves by at most `maxoffset`, and not at all when the draw is at least `rate` |
| Genes.MutatedGenesBound | Source/GANet.cpp:25-33 | every gene of a mutated chromosome moves by at most `maxoffset`; genes whose draw is at least `rate` are kept |
| Genes.FlipPoint | Source/GANet.cpp:47-55 | the crossover point is between 0 and the gene count |
| Genes.CrossedApart | Source/GANet.cpp:42-66 | the offspring are `a[..p] + b[p..n]` and `b[..p] + a[p..n]`; genes past `n` are kept |
| Genes.CrossedPairs | Source/GANet.cpp:42-66 | at each position the two offspring hold the two parents' genes, swapped or not |
| Genes.CrossedSelf | Source/GANet.cpp:42-66 | when `outa` and `outb` are one chromosome, it ends with the second offspring, `b[..p] + a[p..n]` |
| Genes.Chromosome.constructor | Source/GANet.cpp:6-10 | two new gene buffers of the given length, and fitness 0 |
| Genes.Chromosome.GetNewGenes | Source/GANet.h:18 | returns the `genes` buffer, not the spare `newgenes` |
| Genes.Chromosome.SetGenes | Source/GANet.cpp:19-23 | every gene is a weight-function value, which lies in `[-1, 1]` |
| Genes.Chromosome.Mutate | Source/GANet.cpp:25-33 | the genes become `MutatedGenes` of the old genes |
| Genes.Chromosome.Update | Source/GANet.cpp:35-40 | swaps the two buffers and keeps the fitness |
| Genes.CrossRange | Source/GANet.cpp:48-64 | one copy loop of `CrossOver` writes its range of positions |
| Genes.CrossOver | Source/GANet.cpp:42-66 | nothing happens when the gene counts differ. Otherwise the outputs get `Crossed` of the parents at `FlipPoint` |
| Roulette.SumMonotone | Source/GANet.cpp:168-185 | with non-negative fitnesses, running totals never decrease |
| Roulette.PickIs | Source/GANet.cpp:176-185 | `GetChromosome(v)` picks the first chromosome whose running total reaches `v` |
| Roulette.PickNone | Source/GANet.cpp:176-185 | `GetChromosome(v)` returns null iff there are no chromosomes or the total is below `v` |
| Roulette.PickPositive | Source/GANet.cpp:176-185 | a positive value never picks a chromosome of fitness 0 |
| Breeding.Partner | Source/GANet.cpp:191-202 | `outb` is the next chromosome, or `outa` itself at the end |
| Breeding.SumFit | Source/GANet.cpp:168-174 | the fitness total is non-negative |
| Breeding.Parent | Source/GANet.cpp:193-194 | a parent is the roulette pick of `GetDouble(0, total)` and always exists |
| Breeding.BreedStep | Source/GANet.cpp:191-202 | one crossover changes only `outa` and `outb` |
| Breeding.BreedFromKeeps | Source/GANet.cpp:191-202 | chromosomes before the current one are not touched again |
| Breeding.BreedFromUniform | Source/GANet.cpp:191-202 | a population of identical chromosomes breeds to itself |
| Breeding.BreedStepPairs | Source/GANet.cpp:191-202 | at every position the two offspring hold exactly the two parents' genes (as a multiset) |
| Breeding.BreedStepCopies | Source/GANet.cpp:47-52 | without crossover, the offspring copy their parents |
| Genetic.GetWeightCount | Source/GANet.cpp:68-78 | the count is the number of weight slots of the net |
| Genetic.GetNeuronGenes | Source/GANet.cpp:96-97 | one neuron's weights go into consecutive genes; other genes are kept |
| Genetic.GetLayerGenes | Source/GANet.cpp:95-97 | one layer's weights go into consecutive genes |
| Genetic.GetGroupsGenes | Source/GANet.cpp:94-99 | the first genes are the net's weights in slot order |
| Genetic.GetWeights | Source/GANet.cpp:91-100 | `genes[..count]` is `Weights(net)`, and the rest is unchanged |
| Genetic.SetNeuronWeights | Source/GANet.cpp:85-86 | one neuron's inputs get consecutive genes |
| Genetic.SetLayerWeights | Source/GANet.cpp:84-87 | one layer's inputs get consecutive genes |
| Genetic.SetGroupsWeights | Source/GANet.cpp:83-88 | all inputs get the genes in slot order |
| Genetic.SetWeights | Source/GANet.cpp:80-89 | the net becomes `WithWeights(net, Slots, genes)`; neuron state is kept |
| Genetic.PoolPrepend | Source/GANet.cpp:113-117 | a fresh chromosome added in front keeps the chromosome pool well formed |
| Genetic.NetsOkAll | Source/GANet.h:43-102 | every trained net is well formed with the trainer's weight count |
| Genetic.CrossInto | Source/GANet.cpp:191-202 | one `CrossOver` of two roulette parents into `outa`/`outb` gives `Crossed` |
| Genetic.SwapMutate | Source/GANet.cpp:205-207 | `Update` then `Mutate`: the spare buffer becomes current and is mutated |
| Genetic.Reweigh | Source/GANet.cpp:208 | the net takes the chromosome's genes as weights |
| Genetic.RenewRound | Source/GANet.cpp:204-211 | one round of the renew loop |
| Genetic.Renew | Source/GANet.cpp:204-211 | the renew loop gives `RenewedGenes`, `RenewedSpare` and `RenewedGraphs` |
| Genetic.RewiredOk | Source/GANet.cpp:80-100 | writing weights keeps the net well formed, and reading them back gives the written ones |
| Genetic.RenewedStep | Source/GANet.cpp:204-211 | renewing one more chromosome changes exactly that chromosome's genes and spare |
| Genetic.MeanErrorOf | Source/GANet.cpp:138-148 | the mean absolute difference of the desired values and the buffer's first `count` values (0 for no values); it is non-negative and 0 exactly when those values match |
| Genetic.Assess | Source/GANet.cpp:136-148 | `Assessed`: after `NeuralNet::Update` the input neurons hold the inputs and the other neurons the forward pass's values (`ForwardPass`: in a feed-forward net every neuron holding a value holds `T` of the weighted sum of its inputs); the buffer holds the output values when all are non-zero and is otherwise left as it was; the error is the mean absolute difference of the desired values and the buffer's front (0 with no outputs) |
| Genetic.AssessedUnique | Source/GANet.cpp:136-148 | in a feed-forward net, two assessments on the same inputs from the same buffer give the output neurons the same values and give the same buffer and the same error |
| Genetic.AssessedError | Source/GANet.cpp:136-148 | when the update succeeds, the error is the mean error of the output neurons' values; when it fails, the mean error of the buffer the net found; it is non-negative and 0 exactly when the buffer matches the desired output |
| Genetic.AssessedAppend | Source/GANet.cpp:135-160 | one more net's turn, starting from the buffer the previous turn left, extends the record of the scoring loop |
| Genetic.RescoredFit | Source/GANet.cpp:156 | new fitnesses `exp(1 - e)` are positive |
| Genetic.RescoredOrder | Source/GANet.cpp:156 | a smaller error gives a fitness at least as large |
| Genetic.RescoredStep | Source/GANet.cpp:156 | rescoring one more net changes exactly that chromosome's fitness |
| Genetic.SumAppend | Source/GANet.cpp:149 | the total error grows by each net's error |
| Genetic.AssessAt | Source/GANet.cpp:136-148 | net `j`'s turn extends the scoring record: its neuron values are the forward pass on the inputs and its error is `Assessed` from them and the buffer the previous net left; the graphs and the other nets' neuron values are kept. In a feed-forward net that error is fixed by the inputs, the weights and the previous buffer (`AssessedUnique`) |
| Genetic.Rate | Source/GANet.cpp:156 | the `j`-th chromosome's fitness is set, and nothing else changes |
| Genetic.ScoreRound | Source/GANet.cpp:135-160 | net `j`'s turn (its forward pass and its error, as `Assessed`) is recorded and chromosome `j`'s fitness becomes `exp(1 - e)` of that turn's error, which in a feed-forward net is fixed by the inputs, the weights and the previous buffer (`AssessedUnique`); genes, spare buffers and graphs are kept |
| Genetic.Score | Source/GANet.cpp:135-160 | `E[j]` is net `j`'s `Assessed` error, computed from the values of its forward pass on the inputs, each net starting from the buffer the one before it left; every chromosome's fitness is `Rescored` from `E`, and the total is `Sum(E)`. For feed-forward nets each `E[j]` is fixed by the inputs, the weights and the buffer (`AssessedUnique`) |
| Genetic.GATrainer.constructor | Source/GANet.cpp:215-218 | no nets, no chromosomes, all rates 0 |
| Genetic.GATrainer.RemoveNets | Source/GANet.h:92 | the nets are dropped and the chromosomes kept |
| Genetic.GATrainer.GetFitnessTotal | Source/GANet.cpp:168-174 | the sum of the fitnesses |
| Genetic.GATrainer.GetChromosome | Source/GANet.cpp:176-185 | the roulette pick, or null |
| Genetic.GATrainer.Enlist | Source/GANet.cpp:103-119 | the net goes in front unless already present, and a chromosome with the right gene count is added in front only when there are fewer chromosomes than nets; the result is the net's position, which has a chromosome with enough genes |
| Genetic.GATrainer.AddNet | Source/GANet.cpp:103-122 | the net goes in front unless already present. A chromosome is added only when there are fewer chromosomes than nets, its gene count taken from the first net or from the front chromosome. The chromosome at the net's index holds the net's weights in front; its remaining genes and every other chromosome's genes are kept |
| Genetic.GATrainer.Load | Source/GANet.cpp:119-121 | the chromosome at `index` gets the net's weights, and other chromosomes are kept |
| Genetic.GATrainer.AttachNet | Source/GANet.cpp:111 | `nets.Attach(net)` |
| Genetic.GATrainer.AttachChromosome | Source/GANet.cpp:113-117 | a new chromosome is attached only when there are fewer chromosomes than nets |
| Genetic.GATrainer.CrossStep | Source/GANet.cpp:191-202 | one pass of the crossover loop is `BreedStep` |
| Genetic.GATrainer.BreedRound | Source/GANet.cpp:191-202 | one round moves on to just after `outb` |
| Genetic.GATrainer.Breed | Source/GANet.cpp:191-202 | the crossover loop gives `BreedFrom` |
| Genetic.GATrainer.CrossAll | Source/GANet.cpp:189-202 | the total, then the crossover loop |
| Genetic.GATrainer.CreatePopulation | Source/GANet.cpp:187-213 | the genes are `RenewedGenes`, the spares are `RenewedSpare` of the bred population, and each net wears its renewed genes |
| Genetic.GATrainer.Generation | Source/GANet.cpp:128-165 | scoring then `CreatePopulation`: the result is the mean of the nets' `Assessed` errors over their forward passes, the fitnesses are `exp(1 - e)` of them (for feed-forward nets fixed by the inputs and the weights, `AssessedUnique`), and the genes, spares and weights are those of the bred and renewed population |
| Genetic.GATrainer.Train | Source/GANet.cpp:124-166 | with at most one net, returns `TrainError` and changes nothing (genes, fitness, nets and output buffer). Otherwise it does one `Generation` and returns the mean of the nets' errors, which for feed-forward nets depends only on the inputs, the desired outputs, the weights and the buffer |

## Left out

- Random draws: `Random::GetDouble` and `Random::GetInt` read the C library generator. Here every draw is a parameter (a real in `[0, 1]` or a non-negative integer).
- `exp` in the fitness formula is a parameter `Exp`, assumed positive. The C library function is not modelled.
- Transfer functions: `Neuron::Update` applies a function parameter `T`. `SigmoidTransfer`, the per-neuron transfer pointer and `SetTransferFunctions` are not modelled, and neither is `Load`'s setting every neuron to the sigmoid.
- `NetTrainer::input` and `NetTrainer::train` are callbacks. Here they are the input and desired-output sequences passed to `Train`.
- File I/O: `Save` and `Load` write and read a token stream (`Serial.Token`), not a `FILE*`, and `fwrite`/`fread` errors are not modelled.
- Floating point: `double` is `real`. Rounding, NaN and infinity are not modelled. `DBL_MIN` and `DBL_MAX` are exact reals, and integer widths are not modelled.
- BackProp.Train: when the output group has no neurons the source divides 0 by 0 (NaN). The model returns 0.
- Genetic.Assess: the same applies; with no output neurons the model's error is 0 where the source's is NaN.
- The pointer representation of `Container` (the `next`/`prev` fields and the `elements` head) is replaced by one list per container, and `Next`/`Prev` read neighbours off that list.
- The reference counting of `Object` and `Container::ReleaseAll` (whose body is empty) are not modelled. Memory is never reclaimed, so `delete` only removes a handle from the pool.
- `tempdouble` and `tempint` of a new neuron are uninitialised in C++. Here they start at 0.
- A chromosome's spare `newgenes` buffer starts with arbitrary contents, as in C++.
- Genetic.GATrainer.RemoveNets: the source's `nets.Empty()` deletes every net. Since memory is never reclaimed here, the model only drops the references, and a net handed to `AddNet` again is still usable here although the source would use a deleted object.
- Genetic.GATrainer.AddNet: requires that the net has no more weights than the chromosomes have genes. The source writes past the gene buffer otherwise.
- Genetic.GetWeights: requires the same (the source overruns the gene buffer otherwise).
- Genetic.SetWeights: requires the same (the source reads past the gene buffer otherwise).
- The trainer's invariant keeps every fitness non-negative, so a roulette pick always finds a parent. The null parent `GetChromosome` could return is not modelled. In the source this can fail because of the uninitialised fitness (next line).
- Genes.Chromosome.constructor: the source leaves `fitness` uninitialised and the model sets it to 0. The difference can be seen. Add three nets, call `RemoveNets`, add two nets and `Train`. Only the first two chromosomes are scored. The third still holds garbage, and that garbage enters `GetFitnessTotal` and `GetChromosome`. With a negative or NaN value, `GetChromosome` can return a null parent that `CreatePopulation` then dereferences.
- MemBuf.MemoryBuffer.Sized: for a negative size C++'s `new[]` throws `std::bad_array_new_length`. The model returns `None` instead and does not model the exception.
- MemBuf.MemoryBuffer.Realloc: for a negative size `new[]` throws before the buffer is touched. The model returns null with the buffer unchanged and does not model the exception.
- NeuralNet.LayeredNet.Save: requires every input's source to carry a `TempInt` tag naming a group (`Storage.Savable`). Otherwise `groups.Get(groupindex)` returns null and `Save` dereferences it (`thislayer->neurons`, Source/NeuralNet.cpp:363-364).
- NeuralNet.LayeredNet.Update: the outcome is pinned down only for feed-forward nets (`Acyclic`): every connection that touches a neuron of the net joins two neurons of the net and runs from an earlier group to a later one, and the output layer is the last group. This is the shape `ConnectGroups` gives, but the model does not prove that a net built by the constructor, `AddGroup` and `ConnectGroups` is `Acyclic`. In such a net no neuron is left in progress, every output neuron holds a value, and the output values are fixed by the inputs and the weights. For other wirings only the `Settled` clauses of `ForwardPass` are stated, and neurons may be left in progress.
- NeuralNet.ForwardUnique: a neuron of the net that no output neuron depends on may end `NoData` or hold its forward value, depending on the wiring; the model states its value only when it holds one.
- Genetic.Assess: takes the neuron values from `NeuralNet::Update`, so its error is fixed by the inputs and weights only in feed-forward nets (`Genetic.AssessedUnique`).
- Genetic.AssessAt: the same restriction as `Genetic.Assess`.
- Genetic.ScoreRound: the same restriction as `Genetic.Assess`.
- Genetic.Score: the same restriction as `Genetic.Assess`.
- Genetic.GATrainer.Generation: the same restriction as `Genetic.Assess`.
- Genetic.GATrainer.Train: the same restriction as `Genetic.Assess`.
- BackProp.Evaluate: the output values are fixed by the inputs and weights only in feed-forward nets (`BackProp.EvaluatedUnique`).
- BackProp.Train: the same restriction as `BackProp.Evaluate`.
- NeuralNet.LayeredNet.NeuronUpdate: an input or neuron value equal to `DBL_MIN` or `DBL_MAX` is read by the source as the marker `NoData` or `ThisNeuron` (Source/NeuralNet.cpp:52-53, 128-132) and by the model as a number. For example, with `inputbuffer[k] == DBL_MAX` the source's hidden neurons fed by input `k` return 0.0 as if in a loop, so `Group::Update` can fail, where the model computes `T` of the weighted sum.
- NeuralNet.LayeredNet.Load: a stream that does not parse makes `Load` return false with the net unchanged. The source would read garbage and build a partial net.
- BackProp.Train: requires at least two groups, with the input first and the output last, which is what the `NeuralNet` constructor and `AddGroup` give. Otherwise the source's walk back from the output group runs past the front of the group list.
- BackProp.TrainedHidden: stated for feed-forward nets only (every output of a hidden neuron leads to a later group), which `ConnectGroups` produces. Other wirings are not characterised.
- `MemoryBuffer::GetBuffer()` without arguments is plain field access and has no separate member.
- `NetTrainer::SetInputs` and `SetOutputs`, `Examples.cpp` and `Main.cpp` are not part of this model.
