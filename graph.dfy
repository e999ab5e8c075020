/**
 * The neuron graph of NeuralNet.cpp/.h, as plain values.
 *
 * Neurons, synapses and layers are numbered in creation order. A connection
 * in the C++ code is two mirrored objects, an `OutputSynapse` in the source
 * neuron's `outputs` and an `InputSynapse` (carrying `weight` and `temp`) in
 * the target neuron's `inputs`; here it is one `Synapse` record whose number
 * appears in both lists. A `Bias` is an input synapse with no far end
 * (`src == None`), whose connected data is the constant 1.
 *
 * Every `Container::Attach` of a fresh synapse or neuron puts it at the
 * front of its list, so new entries are prepended.
 */
module Graph {
  import opened Util

  type NeuronId = nat
  type SynId = nat
  type LayerId = nat

  /** A connection (or a bias when `src` is null) into neuron `dst`. */
  datatype Synapse = Synapse(src: Option<NeuronId>, dst: NeuronId, weight: real, temp: real)

  /** A neuron's `inputs` and `outputs` lists, its `bias` pointer and the layer container holding it. */
  datatype Neuron = Neuron(ins: seq<SynId>, outs: seq<SynId>, bias: Option<SynId>, layer: Option<LayerId>)

  /**
   * All neurons, synapses and layers of a `LayeredNet`: `layers[l]` is the
   * `neurons` list of layer `l`, `groups` the net's list of layers, and
   * `input`/`output` its input and output layer pointers.
   */
  datatype Graph = Graph(neurons: seq<Neuron>, syn: seq<Synapse>, layers: seq<seq<NeuronId>>,
                         groups: seq<LayerId>, input: Option<LayerId>, output: Option<LayerId>)

  /** Every synapse joins existing neurons. */
  ghost predicate SynOk(g: Graph)
  {
    forall s | 0 <= s < |g.syn| ::
      g.syn[s].dst < |g.neurons| && (g.syn[s].src.Some? ==> g.syn[s].src.value < |g.neurons|)
  }

  /** A neuron's inputs are distinct synapses that lead into it. */
  ghost predicate InsOk(g: Graph)
  {
    forall n | 0 <= n < |g.neurons| ::
      Distinct(g.neurons[n].ins) && forall t | t in g.neurons[n].ins :: t < |g.syn| && g.syn[t].dst == n
  }

  /** A neuron's outputs are distinct synapses that leave it. */
  ghost predicate OutsOk(g: Graph)
  {
    forall n | 0 <= n < |g.neurons| ::
      Distinct(g.neurons[n].outs) && forall t | t in g.neurons[n].outs :: t < |g.syn| && g.syn[t].src == Some(n)
  }

  /** The two halves of a connection exist together: it is in its source's outputs iff it is in its target's inputs. */
  ghost predicate Mirrored(g: Graph)
  {
    forall s | 0 <= s < |g.syn| && g.syn[s].src.Some? && g.syn[s].src.value < |g.neurons| && g.syn[s].dst < |g.neurons| ::
      (s in g.neurons[g.syn[s].src.value].outs <==> s in g.neurons[g.syn[s].dst].ins)
  }

  /** The one input without a far end is the neuron's `bias`. */
  ghost predicate BiasOk(g: Graph)
  {
    forall n | 0 <= n < |g.neurons| ::
      (g.neurons[n].bias.Some? ==> g.neurons[n].bias.value in g.neurons[n].ins) &&
      forall t | t in g.neurons[n].ins && t < |g.syn| :: (g.syn[t].src.None? <==> g.neurons[n].bias == Some(t))
  }

  /**
   * A layer holds distinct neurons that point back at it; the net's groups
   * are distinct layers and include its input and output layers.
   */
  ghost predicate LayersOk(g: Graph)
  {
    (forall l | 0 <= l < |g.layers| ::
       Distinct(g.layers[l]) && forall n | n in g.layers[l] :: n < |g.neurons| && g.neurons[n].layer == Some(l)) &&
    (forall n | 0 <= n < |g.neurons| && g.neurons[n].layer.Some? ::
       g.neurons[n].layer.value < |g.layers| && n in g.layers[g.neurons[n].layer.value]) &&
    Distinct(g.groups) && GroupsIn(g) &&
    (g.input.Some? ==> g.input.value in g.groups) && (g.output.Some? ==> g.output.value in g.groups)
  }

  /**
   * What evaluation needs, by position: every input of every neuron exists,
   * and so does the neuron it comes from; every neuron of a layer exists.
   */
  ghost predicate Wired(g: Graph)
  {
    (forall n, k | 0 <= n < |g.neurons| && 0 <= k < |g.neurons[n].ins| ::
       g.neurons[n].ins[k] < |g.syn| &&
       (g.syn[g.neurons[n].ins[k]].src.Some? ==> g.syn[g.neurons[n].ins[k]].src.value < |g.neurons|)) &&
    LayersIn(g)
  }

  /** Every group of the net is an existing layer. */
  ghost predicate GroupsIn(g: Graph)
  {
    forall i | 0 <= i < |g.groups| :: g.groups[i] < |g.layers|
  }

  /** Every neuron of a layer exists. */
  ghost predicate LayersIn(g: Graph)
  {
    forall l, k | 0 <= l < |g.layers| && 0 <= k < |g.layers[l]| :: g.layers[l][k] < |g.neurons|
  }

  lemma LayersOkIn(g: Graph)
    requires LayersOk(g)
    ensures LayersIn(g)
  {
    forall l, k | 0 <= l < |g.layers| && 0 <= k < |g.layers[l]|
      ensures g.layers[l][k] < |g.neurons|
    {
      assert g.layers[l][k] in g.layers[l];
    }
  }

  ghost predicate GraphOk(g: Graph)
  {
    SynOk(g) && InsOk(g) && OutsOk(g) && Mirrored(g) && BiasOk(g) && LayersOk(g)
  }

  /** The graph of a net with nothing in it. */
  function EmptyGraph(): Graph
  {
    Graph([], [], [], [], None, None)
  }

  lemma EmptyGraphOk()
    ensures GraphOk(EmptyGraph())
  {
  }

  /** `new Neuron(0.0, 0.0)`: a neuron in no layer whose only input is a bias of weight 0. */
  function NewNeuron(g: Graph): Graph
  {
    g.(neurons := g.neurons + [Neuron([|g.syn|], [], Some(|g.syn|), None)],
       syn := g.syn + [Synapse(None, |g.neurons|, 0.0, 0.0)])
  }

  lemma NewNeuronOk(g: Graph)
    requires GraphOk(g)
    ensures GraphOk(NewNeuron(g))
  {
    NewNeuronLists(g);
    NewNeuronMirror(g);
    NewNeuronLayers(g);
  }

  lemma NewNeuronLists(g: Graph)
    requires SynOk(g) && InsOk(g) && OutsOk(g) && BiasOk(g)
    ensures var r := NewNeuron(g); SynOk(r) && InsOk(r) && OutsOk(r) && BiasOk(r)
  {
    var r := NewNeuron(g);
    assert forall m | 0 <= m < |g.neurons| :: r.neurons[m] == g.neurons[m];
    assert forall t | 0 <= t < |g.syn| :: r.syn[t] == g.syn[t];
    assert r.neurons[|g.neurons|].ins == [|g.syn|];
  }

  lemma NewNeuronMirror(g: Graph)
    requires SynOk(g) && Mirrored(g)
    ensures Mirrored(NewNeuron(g))
  {
    var r := NewNeuron(g);
    assert forall m | 0 <= m < |g.neurons| :: r.neurons[m] == g.neurons[m];
    assert forall t | 0 <= t < |g.syn| :: r.syn[t] == g.syn[t];
  }

  lemma NewNeuronLayers(g: Graph)
    requires LayersOk(g)
    ensures LayersOk(NewNeuron(g))
  {
    var r := NewNeuron(g);
    assert forall m | 0 <= m < |g.neurons| :: r.neurons[m] == g.neurons[m];
  }

  /** `layer->neurons.Attach(neuron)` for a neuron in no layer: it goes to the front of layer `l`. */
  function AttachToLayer(g: Graph, n: NeuronId, l: LayerId): Graph
    requires n < |g.neurons| && l < |g.layers|
  {
    g.(neurons := g.neurons[n := g.neurons[n].(layer := Some(l))], layers := g.layers[l := [n] + g.layers[l]])
  }

  lemma AttachToLayerOk(g: Graph, n: NeuronId, l: LayerId)
    requires GraphOk(g) && n < |g.neurons| && l < |g.layers| && g.neurons[n].layer.None?
    ensures GraphOk(AttachToLayer(g, n, l))
  {
    var r := AttachToLayer(g, n, l);
    assert forall m | 0 <= m < |r.neurons| ::
      r.neurons[m].ins == g.neurons[m].ins && r.neurons[m].outs == g.neurons[m].outs && r.neurons[m].bias == g.neurons[m].bias;
    assert n !in g.layers[l];
    PrependDistinct(g.layers[l], n);
    forall j | 0 <= j < |r.layers|
      ensures forall m | m in r.layers[j] :: m < |r.neurons| && r.neurons[m].layer == Some(j)
    {
      if j != l {
        assert n !in g.layers[j];
      }
    }
  }

  /**
   * The first `count` iterations of the `Layer(size)` constructor's loop
   * over layer `l`: each creates a neuron with a bias of weight 0 and
   * attaches it to the front of the layer.
   */
  function AddNeurons(g: Graph, l: LayerId, count: nat): (r: Graph)
    requires l < |g.layers|
    ensures |r.layers| == |g.layers|
    ensures |r.neurons| == |g.neurons| + count
    decreases count
  {
    if count == 0 then g
    else
      var h := AddNeurons(g, l, count - 1);
      AttachToLayer(NewNeuron(h), |h.neurons|, l)
  }

  /** `new Layer(size)`: a new, empty layer (number `|g.layers|`) filled with `size` fresh neurons. */
  function WithLayer(g: Graph, size: int): (r: Graph)
  {
    AddNeurons(g.(layers := g.layers + [[]]), |g.layers|, if size < 0 then 0 else size)
  }

  /** Filling a layer keeps the graph well formed. */
  lemma {:induction false} AddNeuronsOk(g: Graph, l: LayerId, count: nat)
    requires GraphOk(g) && l < |g.layers|
    ensures GraphOk(AddNeurons(g, l, count))
  {
    if count > 0 {
      AddNeuronsOk(g, l, count - 1);
      var h := AddNeurons(g, l, count - 1);
      var h1 := NewNeuron(h);
      NewNeuronOk(h);
      assert h1.neurons[|h.neurons|].layer.None?;
      AttachToLayerOk(h1, |h.neurons|, l);
      assert AddNeurons(g, l, count) == AttachToLayer(h1, |h.neurons|, l);
    }
  }

  /**
   * `Layer(size)` yields, over the neurons already there, `size` new ones,
   * each with one fresh bias synapse of weight 0 and no other links.
   */
  lemma {:induction false} AddNeuronsShape(g: Graph, l: LayerId, count: nat)
    requires l < |g.layers|
    ensures var r := AddNeurons(g, l, count);
            var N, S := |g.neurons|, |g.syn|;
            |r.syn| == S + count && r.syn[..S] == g.syn && r.neurons[..N] == g.neurons &&
            (forall m | N <= m < N + count :: r.neurons[m] == Neuron([S + (m - N)], [], Some(S + (m - N)), Some(l))) &&
            (forall t | S <= t < S + count :: r.syn[t] == Synapse(None, N + (t - S), 0.0, 0.0)) &&
            r.groups == g.groups && r.input == g.input && r.output == g.output
  {
    if count > 0 {
      AddNeuronsShape(g, l, count - 1);
      var h := AddNeurons(g, l, count - 1);
      var N, S := |g.neurons|, |g.syn|;
      var r := AddNeurons(g, l, count);
      assert forall m | N <= m < N + count - 1 :: r.neurons[m] == h.neurons[m];
      assert forall t | S <= t < S + count - 1 :: r.syn[t] == h.syn[t];
      assert r.syn[..S] == h.syn[..S];
      assert r.neurons[..N] == h.neurons[..N];
    }
  }

  /** The new neurons go to the front of the layer, newest first. */
  lemma {:induction false} AddNeuronsLayer(g: Graph, l: LayerId, count: nat)
    requires l < |g.layers|
    ensures AddNeurons(g, l, count).layers[l] == Reverse(Range(|g.neurons|, |g.neurons| + count)) + g.layers[l]
  {
    if count > 0 {
      AddNeuronsLayer(g, l, count - 1);
      var N := |g.neurons|;
      var older := Reverse(Range(N, N + count - 1));
      AddNeuronsStep(g, l, count);
      ReverseRangeStep(N, N + count);
      ConsAppend(N + count - 1, older, g.layers[l]);
    }
  }

  /** Filling layer `l` changes no other layer. */
  lemma {:induction false} AddNeuronsOtherLayers(g: Graph, l: LayerId, count: nat)
    requires l < |g.layers|
    ensures forall j | 0 <= j < |g.layers| && j != l :: AddNeurons(g, l, count).layers[j] == g.layers[j]
  {
    if count > 0 {
      AddNeuronsOtherLayers(g, l, count - 1);
      AddNeuronsStep(g, l, count);
    }
  }

  lemma AddNeuronsStep(g: Graph, l: LayerId, count: nat)
    requires l < |g.layers| && count > 0
    ensures var h := AddNeurons(g, l, count - 1);
            var r := AddNeurons(g, l, count);
            r.layers[l] == [|g.neurons| + count - 1] + h.layers[l] &&
            forall j | 0 <= j < |g.layers| && j != l :: r.layers[j] == h.layers[j]
  {
  }

  lemma ConsAppend(x: nat, s: seq<nat>, t: seq<nat>)
    ensures [x] + (s + t) == ([x] + s) + t
  {
  }

  lemma ReverseRangeStep(lo: nat, hi: nat)
    requires lo < hi
    ensures Reverse(Range(lo, hi)) == [hi - 1] + Reverse(Range(lo, hi - 1))
  {
    var s := Range(lo, hi);
    assert s[..|s| - 1] == Range(lo, hi - 1);
  }

  /** The numbers from `lo` up to but excluding `hi`. */
  function Range(lo: nat, hi: nat): (r: seq<nat>)
    ensures |r| == if lo <= hi then hi - lo else 0
    ensures forall k | 0 <= k < |r| :: r[k] == lo + k
    decreases hi - lo
  {
    if lo >= hi then [] else Range(lo, hi - 1) + [hi - 1]
  }

  /** A new empty layer keeps the graph well formed. */
  lemma EmptyLayerOk(g: Graph)
    requires GraphOk(g)
    ensures GraphOk(g.(layers := g.layers + [[]]))
  {
    var r := g.(layers := g.layers + [[]]);
    assert forall l | 0 <= l < |g.layers| :: r.layers[l] == g.layers[l];
  }

  /** A new layer keeps the graph well formed. */
  lemma WithLayerOk(g: Graph, size: int)
    requires GraphOk(g)
    ensures GraphOk(WithLayer(g, size))
  {
    EmptyLayerOk(g);
    AddNeuronsOk(g.(layers := g.layers + [[]]), |g.layers|, if size < 0 then 0 else size);
  }

  /**
   * The graph of `NeuralNet(inputcount, outputcount)`: an input layer and
   * an output layer of new neurons; the groups are the input layer
   * (`Attach`) followed by the output layer (`AttachLast`).
   */
  function NewNet(inputcount: int, outputcount: int): Graph
  {
    var g := WithLayer(WithLayer(EmptyGraph(), inputcount), outputcount);
    g.(groups := [0, 1], input := Some(0), output := Some(1))
  }

  /**
   * `Layer(size)` appended to a graph: the new last layer holds the new
   * neurons, newest first; the layers before are unchanged.
   */
  lemma WithLayerLayers(g: Graph, size: int)
    ensures var r := WithLayer(g, size);
            var c := if size < 0 then 0 else size;
            |r.layers| == |g.layers| + 1 && r.layers[..|g.layers|] == g.layers &&
            r.layers[|g.layers|] == Reverse(Range(|g.neurons|, |g.neurons| + c)) &&
            r.groups == g.groups && r.input == g.input && r.output == g.output
  {
    var c := if size < 0 then 0 else size;
    var g1 := g.(layers := g.layers + [[]]);
    AddNeuronsShape(g1, |g.layers|, c);
    AddNeuronsLayer(g1, |g.layers|, c);
    AddNeuronsOtherLayers(g1, |g.layers|, c);
    var r := WithLayer(g, size);
    assert r.layers[..|g.layers|] == g.layers;
  }

  /**
   * Each neuron `Layer(size)` creates has its own bias of weight 0 as its
   * one input, and points at the new layer; nothing before is changed.
   */
  lemma WithLayerNeurons(g: Graph, size: int)
    ensures var r := WithLayer(g, size);
            var c := if size < 0 then 0 else size;
            var N, S := |g.neurons|, |g.syn|;
            |r.neurons| == N + c && |r.syn| == S + c &&
            r.neurons[..N] == g.neurons && r.syn[..S] == g.syn &&
            (forall m | N <= m < N + c :: r.neurons[m] == Neuron([S + (m - N)], [], Some(S + (m - N)), Some(|g.layers|))) &&
            (forall t | S <= t < S + c :: r.syn[t] == Synapse(None, N + (t - S), 0.0, 0.0))
  {
    var c := if size < 0 then 0 else size;
    AddNeuronsShape(g.(layers := g.layers + [[]]), |g.layers|, c);
  }

  /** Making two layers the groups, first as input and second as output, keeps the graph well formed. */
  lemma TwoGroupsOk(h: Graph)
    requires GraphOk(h) && |h.layers| == 2
    ensures GraphOk(h.(groups := [0, 1], input := Some(0), output := Some(1)))
  {
  }

  /** A new net is well formed, with the two layers as its groups, input first. */
  lemma NewNetOk(inputcount: int, outputcount: int)
    ensures var g := NewNet(inputcount, outputcount);
            GraphOk(g) && |g.layers| == 2 && g.groups == [0, 1] && g.input == Some(0) && g.output == Some(1)
  {
    var e := EmptyGraph();
    EmptyGraphOk();
    WithLayerOk(e, inputcount);
    var g1 := WithLayer(e, inputcount);
    WithLayerOk(g1, outputcount);
    var h := WithLayer(g1, outputcount);
    assert |g1.layers| == 1 by { WithLayerLayers(e, inputcount); }
    assert |h.layers| == 2 by { WithLayerLayers(g1, outputcount); }
    TwoGroupsOk(h);
  }

  /**
   * The input layer of a new net holds neurons 0 to `inputcount - 1` and
   * the output layer the next `outputcount`, each layer newest first.
   */
  lemma NewNetLayers(inputcount: int, outputcount: int)
    ensures var g := NewNet(inputcount, outputcount);
            var a := if inputcount < 0 then 0 else inputcount;
            var b := if outputcount < 0 then 0 else outputcount;
            |g.layers| == 2 && g.layers[0] == Reverse(Range(0, a)) && g.layers[1] == Reverse(Range(a, a + b))
  {
    var g1 := WithLayer(EmptyGraph(), inputcount);
    WithLayerLayers(EmptyGraph(), inputcount);
    WithLayerNeurons(EmptyGraph(), inputcount);
    WithLayerLayers(g1, outputcount);
    var g2 := WithLayer(g1, outputcount);
    assert g2.layers[..1][0] == g2.layers[0];
  }

  /** Every neuron of a new net has one input, its own bias of weight 0. */
  lemma NewNetNeurons(inputcount: int, outputcount: int)
    ensures var g := NewNet(inputcount, outputcount);
            var a := if inputcount < 0 then 0 else inputcount;
            var b := if outputcount < 0 then 0 else outputcount;
            |g.neurons| == a + b && |g.syn| == a + b &&
            (forall m | 0 <= m < a + b ::
               g.neurons[m] == Neuron([m], [], Some(m), Some(if m < a then 0 else 1)) &&
               g.syn[m] == Synapse(None, m, 0.0, 0.0))
  {
    TwoLayersNeurons(EmptyGraph(), inputcount, outputcount);
  }

  lemma TwoLayersNeurons(e: Graph, inputcount: int, outputcount: int)
    requires e.neurons == [] && e.syn == [] && e.layers == []
    ensures var g := WithLayer(WithLayer(e, inputcount), outputcount);
            var a := if inputcount < 0 then 0 else inputcount;
            var b := if outputcount < 0 then 0 else outputcount;
            |g.neurons| == a + b && |g.syn| == a + b &&
            (forall m | 0 <= m < a + b ::
               g.neurons[m] == Neuron([m], [], Some(m), Some(if m < a then 0 else 1)) &&
               g.syn[m] == Synapse(None, m, 0.0, 0.0))
  {
    var a := if inputcount < 0 then 0 else inputcount;
    var b := if outputcount < 0 then 0 else outputcount;
    var g1 := WithLayer(e, inputcount);
    var g2 := WithLayer(g1, outputcount);
    FirstLayerNeurons(e, inputcount);
    assert |g1.layers| == 1 by { WithLayerLayers(e, inputcount); }
    WithLayerNeurons(g1, outputcount);
    assert |g1.neurons| == a && |g1.syn| == a;
    forall m | 0 <= m < a + b
      ensures g2.neurons[m] == Neuron([m], [], Some(m), Some(if m < a then 0 else 1))
      ensures g2.syn[m] == Synapse(None, m, 0.0, 0.0)
    {
      if m < a {
        assert g2.neurons[..a][m] == g2.neurons[m];
        assert g2.syn[..a][m] == g2.syn[m];
      } else {
        assert g2.neurons[m] == Neuron([a + (m - a)], [], Some(a + (m - a)), Some(1));
        assert g2.syn[m] == Synapse(None, a + (m - a), 0.0, 0.0);
      }
    }
  }

  lemma FirstLayerNeurons(e: Graph, inputcount: int)
    requires e.neurons == [] && e.syn == [] && e.layers == []
    ensures var g := WithLayer(e, inputcount);
            var a := if inputcount < 0 then 0 else inputcount;
            |g.neurons| == a && |g.syn| == a &&
            (forall m | 0 <= m < a :: g.neurons[m] == Neuron([m], [], Some(m), Some(0)) && g.syn[m] == Synapse(None, m, 0.0, 0.0))
  {
    var g := WithLayer(e, inputcount);
    WithLayerNeurons(e, inputcount);
    assert |e.neurons| == 0 && |e.syn| == 0 && |e.layers| == 0;
    forall m | 0 <= m < |g.neurons|
      ensures g.neurons[m] == Neuron([m], [], Some(m), Some(0)) && g.syn[m] == Synapse(None, m, 0.0, 0.0)
    {
      assert g.neurons[m] == Neuron([0 + (m - 0)], [], Some(0 + (m - 0)), Some(|e.layers|));
      assert g.syn[m] == Synapse(None, 0 + (m - 0), 0.0, 0.0);
    }
  }



  /**
   * `Neuron::AddOutput(neuron, weight)` called on `a` with target `b`: a new
   * connection from `a` to `b`, at the front of `a`'s outputs and of `b`'s
   * inputs, with the given weight and `temp` 0.
   */
  function AddOutput(g: Graph, a: NeuronId, b: NeuronId, w: real): Graph
    requires a < |g.neurons| && b < |g.neurons|
  {
    var s := |g.syn|;
    var ns := g.neurons[a := g.neurons[a].(outs := [s] + g.neurons[a].outs)];
    g.(neurons := ns[b := ns[b].(ins := [s] + ns[b].ins)],
       syn := g.syn + [Synapse(Some(a), b, w, 0.0)])
  }

  /** `Neuron::AddInput(neuron, weight)` on `b` is `neuron->AddOutput(b, weight)`. */
  function AddInput(g: Graph, b: NeuronId, a: NeuronId, w: real): Graph
    requires a < |g.neurons| && b < |g.neurons|
  {
    AddOutput(g, a, b, w)
  }

  /** The connection `AddOutput` creates, and the lists it is put at the front of; nothing else changes. */
  lemma AddOutputShape(g: Graph, a: NeuronId, b: NeuronId, w: real)
    requires a < |g.neurons| && b < |g.neurons|
    ensures var r := AddOutput(g, a, b, w);
            var s := |g.syn|;
            r.syn == g.syn + [Synapse(Some(a), b, w, 0.0)] && |r.neurons| == |g.neurons| &&
            r.neurons[a].outs == [s] + g.neurons[a].outs && r.neurons[b].ins == [s] + g.neurons[b].ins &&
            (forall m | 0 <= m < |g.neurons| ::
               r.neurons[m].bias == g.neurons[m].bias && r.neurons[m].layer == g.neurons[m].layer &&
               (m != a ==> r.neurons[m].outs == g.neurons[m].outs) &&
               (m != b ==> r.neurons[m].ins == g.neurons[m].ins)) &&
            r.layers == g.layers && r.groups == g.groups && r.input == g.input && r.output == g.output
  {
  }

  /** A connection made by `AddOutput` keeps the graph well formed: both of its halves are in place. */
  lemma AddOutputOk(g: Graph, a: NeuronId, b: NeuronId, w: real)
    requires GraphOk(g) && a < |g.neurons| && b < |g.neurons|
    ensures GraphOk(AddOutput(g, a, b, w))
  {
    AddOutputShape(g, a, b, w);
    AddOutputIns(g, a, b, w);
    AddOutputOuts(g, a, b, w);
    AddOutputMirror(g, a, b, w);
    AddOutputBias(g, a, b, w);
  }

  lemma AddOutputIns(g: Graph, a: NeuronId, b: NeuronId, w: real)
    requires SynOk(g) && InsOk(g) && a < |g.neurons| && b < |g.neurons|
    ensures SynOk(AddOutput(g, a, b, w)) && InsOk(AddOutput(g, a, b, w))
  {
    var r := AddOutput(g, a, b, w);
    var s := |g.syn|;
    AddOutputShape(g, a, b, w);
    assert s !in g.neurons[b].ins;
    PrependDistinct(g.neurons[b].ins, s);
    assert forall t | 0 <= t < s :: r.syn[t] == g.syn[t];
  }

  lemma AddOutputOuts(g: Graph, a: NeuronId, b: NeuronId, w: real)
    requires OutsOk(g) && a < |g.neurons| && b < |g.neurons|
    ensures OutsOk(AddOutput(g, a, b, w))
  {
    var r := AddOutput(g, a, b, w);
    var s := |g.syn|;
    AddOutputShape(g, a, b, w);
    assert s !in g.neurons[a].outs;
    PrependDistinct(g.neurons[a].outs, s);
    assert forall t | 0 <= t < s :: r.syn[t] == g.syn[t];
  }

  lemma AddOutputMirror(g: Graph, a: NeuronId, b: NeuronId, w: real)
    requires Mirrored(g) && a < |g.neurons| && b < |g.neurons|
    ensures Mirrored(AddOutput(g, a, b, w))
  {
    var r := AddOutput(g, a, b, w);
    var s := |g.syn|;
    AddOutputShape(g, a, b, w);
    forall t | 0 <= t < |r.syn| && r.syn[t].src.Some? && r.syn[t].src.value < |r.neurons| && r.syn[t].dst < |r.neurons|
      ensures t in r.neurons[r.syn[t].src.value].outs <==> t in r.neurons[r.syn[t].dst].ins
    {
      if t < s {
        assert r.syn[t] == g.syn[t];
        var p, q := g.syn[t].src.value, g.syn[t].dst;
        assert t in r.neurons[p].outs <==> t in g.neurons[p].outs;
        assert t in r.neurons[q].ins <==> t in g.neurons[q].ins;
      }
    }
  }

  lemma AddOutputBias(g: Graph, a: NeuronId, b: NeuronId, w: real)
    requires InsOk(g) && BiasOk(g) && a < |g.neurons| && b < |g.neurons|
    ensures BiasOk(AddOutput(g, a, b, w))
  {
    var r := AddOutput(g, a, b, w);
    var s := |g.syn|;
    AddOutputShape(g, a, b, w);
    forall m | 0 <= m < |r.neurons|
      ensures (r.neurons[m].bias.Some? ==> r.neurons[m].bias.value in r.neurons[m].ins) &&
              forall t | t in r.neurons[m].ins && t < |r.syn| :: (r.syn[t].src.None? <==> r.neurons[m].bias == Some(t))
    {
      assert forall t | t in g.neurons[m].ins :: r.syn[t] == g.syn[t];
      if g.neurons[m].bias.Some? {
        assert g.neurons[m].bias.value in g.neurons[m].ins;
      }
    }
  }

  /**
   * `Neuron::SetBias(b)`: an existing bias gets weight `b` in place;
   * otherwise a new bias of weight `b` is put at the front of the inputs.
   */
  function SetBias(g: Graph, n: NeuronId, b: real): Graph
    requires n < |g.neurons|
    requires g.neurons[n].bias.Some? ==> g.neurons[n].bias.value < |g.syn|
  {
    match g.neurons[n].bias
    case Some(s) => g.(syn := g.syn[s := g.syn[s].(weight := b)])
    case None =>
      var s := |g.syn|;
      g.(neurons := g.neurons[n := g.neurons[n].(ins := [s] + g.neurons[n].ins, bias := Some(s))],
         syn := g.syn + [Synapse(None, n, b, 0.0)])
  }

  /** `Neuron::GetBias`: the bias weight, or 0 without a bias. */
  function GetBias(g: Graph, n: NeuronId): real
    requires n < |g.neurons|
    requires g.neurons[n].bias.Some? ==> g.neurons[n].bias.value < |g.syn|
  {
    match g.neurons[n].bias
    case Some(s) => g.syn[s].weight
    case None => 0.0
  }

  /**
   * After `SetBias(b)` the neuron has a bias and `GetBias` reads `b`; an
   * existing bias is reused in place; no other neuron, bias or connection
   * changes.
   */
  lemma SetBiasShape(g: Graph, n: NeuronId, b: real)
    requires GraphOk(g) && n < |g.neurons|
    ensures var r := SetBias(g, n, b);
            r.neurons[n].bias.Some? && r.neurons[n].bias.value < |r.syn| && GetBias(r, n) == b &&
            |r.neurons| == |g.neurons| && r.layers == g.layers && r.groups == g.groups &&
            r.input == g.input && r.output == g.output &&
            (forall m | 0 <= m < |g.neurons| && m != n :: r.neurons[m] == g.neurons[m] && GetBias(r, m) == GetBias(g, m)) &&
            (forall m | 0 <= m < |g.neurons| :: r.neurons[m].layer == g.neurons[m].layer && r.neurons[m].outs == g.neurons[m].outs) &&
            (g.neurons[n].bias.Some? ==> r.neurons[n] == g.neurons[n] && |r.syn| == |g.syn|) &&
            (g.neurons[n].bias.None? ==> r.neurons[n].ins == [|g.syn|] + g.neurons[n].ins && |r.syn| == |g.syn| + 1) &&
            (forall t | 0 <= t < |g.syn| && Some(t) != g.neurons[n].bias :: r.syn[t] == g.syn[t]) &&
            (forall t | 0 <= t < |g.syn| :: r.syn[t].src == g.syn[t].src && r.syn[t].dst == g.syn[t].dst && r.syn[t].temp == g.syn[t].temp)
  {
    if g.neurons[n].bias.Some? {
      var s := g.neurons[n].bias.value;
      assert s < |g.syn| && g.syn[s].dst == n;
      forall m | 0 <= m < |g.neurons| && m != n && g.neurons[m].bias.Some?
        ensures g.neurons[m].bias.value != s
      {
        assert g.neurons[m].bias.value in g.neurons[m].ins;
      }
    }
  }

  /**
   * A graph whose synapses differ from a well-formed graph's only in their
   * weights and temps is well formed too: weight setting cannot break it.
   */
  lemma ReweightOk(g: Graph, h: Graph)
    requires GraphOk(g) && h.neurons == g.neurons && h.layers == g.layers && h.groups == g.groups
    requires h.input == g.input && h.output == g.output && |h.syn| == |g.syn|
    requires forall s | 0 <= s < |g.syn| :: h.syn[s].src == g.syn[s].src && h.syn[s].dst == g.syn[s].dst
    ensures GraphOk(h)
  {
  }

  lemma SetBiasOk(g: Graph, n: NeuronId, b: real)
    requires GraphOk(g) && n < |g.neurons|
    ensures GraphOk(SetBias(g, n, b))
  {
    if g.neurons[n].bias.Some? {
      var r := SetBias(g, n, b);
      var s := g.neurons[n].bias.value;
      assert s in g.neurons[n].ins;
      assert r == g.(syn := g.syn[s := g.syn[s].(weight := b)]);
      ReweightOk(g, r);
    } else {
      NewBiasIns(g, n, b);
      NewBiasMirror(g, n, b);
      NewBiasBias(g, n, b);
    }
  }

  lemma NewBiasIns(g: Graph, n: NeuronId, b: real)
    requires SynOk(g) && InsOk(g) && OutsOk(g) && n < |g.neurons| && g.neurons[n].bias.None?
    ensures var r := SetBias(g, n, b); SynOk(r) && InsOk(r) && OutsOk(r)
  {
    var r := SetBias(g, n, b);
    var s := |g.syn|;
    assert s !in g.neurons[n].ins;
    PrependDistinct(g.neurons[n].ins, s);
    assert forall t | 0 <= t < s :: r.syn[t] == g.syn[t];
    assert forall m | 0 <= m < |r.neurons| && m != n :: r.neurons[m] == g.neurons[m];
  }

  lemma NewBiasMirror(g: Graph, n: NeuronId, b: real)
    requires SynOk(g) && Mirrored(g) && n < |g.neurons| && g.neurons[n].bias.None?
    ensures Mirrored(SetBias(g, n, b))
  {
    var r := SetBias(g, n, b);
    forall t | 0 <= t < |r.syn| && r.syn[t].src.Some? && r.syn[t].src.value < |r.neurons| && r.syn[t].dst < |r.neurons|
      ensures t in r.neurons[r.syn[t].src.value].outs <==> t in r.neurons[r.syn[t].dst].ins
    {
      var p, q := g.syn[t].src.value, g.syn[t].dst;
      assert r.neurons[p].outs == g.neurons[p].outs;
      assert t in r.neurons[q].ins <==> t in g.neurons[q].ins;
    }
  }

  lemma NewBiasBias(g: Graph, n: NeuronId, b: real)
    requires InsOk(g) && BiasOk(g) && n < |g.neurons| && g.neurons[n].bias.None?
    ensures BiasOk(SetBias(g, n, b))
  {
    var r := SetBias(g, n, b);
    var s := |g.syn|;
    assert forall t | 0 <= t < s :: r.syn[t] == g.syn[t];
    assert forall m | 0 <= m < |r.neurons| && m != n :: r.neurons[m] == g.neurons[m];
    forall t | t in r.neurons[n].ins && t < |r.syn|
      ensures r.syn[t].src.None? <==> r.neurons[n].bias == Some(t)
    {
      if t != s {
        assert g.syn[t].src.None? <==> g.neurons[n].bias == Some(t);
      }
    }
  }

  /**
   * Deleting either half of a connection (the `Synapse` destructor) deletes
   * the other: the connection leaves both the source's outputs and the
   * target's inputs, and every other list is as it was.
   */
  function Disconnect(g: Graph, s: SynId): Graph
    requires s < |g.syn| && g.syn[s].src.Some? && g.syn[s].src.value < |g.neurons| && g.syn[s].dst < |g.neurons|
  {
    var a, b := g.syn[s].src.value, g.syn[s].dst;
    var ns := g.neurons[a := g.neurons[a].(outs := RemoveAll(g.neurons[a].outs, s))];
    g.(neurons := ns[b := ns[b].(ins := RemoveAll(ns[b].ins, s))])
  }

  /** `l` without any occurrence of `x`, the rest in order. */
  function RemoveAll(l: seq<SynId>, x: SynId): (r: seq<SynId>)
    ensures x !in r
    ensures forall y | y in l && y != x :: y in r
    ensures forall y | y in r :: y in l
    ensures Distinct(l) ==> Distinct(r)
  {
    if l == [] then []
    else if l[0] == x then RemoveAll(l[1..], x)
    else
      var t := RemoveAll(l[1..], x);
      assert forall k | 0 <= k < |l[1..]| :: l[1..][k] == l[k + 1];
      if Distinct(l) then
        assert l[0] !in t;
        PrependDistinct(t, l[0]);
        [l[0]] + t
      else
        [l[0]] + t
  }

  /** Deleting a connection keeps the graph well formed and removes both of its halves. */
  lemma DisconnectOk(g: Graph, s: SynId)
    requires GraphOk(g) && s < |g.syn| && g.syn[s].src.Some?
    ensures g.syn[s].src.value < |g.neurons| && g.syn[s].dst < |g.neurons|
    ensures var r := Disconnect(g, s);
            GraphOk(r) && s !in r.neurons[g.syn[s].src.value].outs && s !in r.neurons[g.syn[s].dst].ins &&
            r.syn == g.syn && |r.neurons| == |g.neurons| &&
            (forall m | 0 <= m < |g.neurons| ::
               (forall t | t in g.neurons[m].ins && t != s :: t in r.neurons[m].ins) &&
               (forall t | t in g.neurons[m].outs && t != s :: t in r.neurons[m].outs) &&
               (forall t | t in r.neurons[m].ins :: t in g.neurons[m].ins) &&
               (forall t | t in r.neurons[m].outs :: t in g.neurons[m].outs))
  {
    DisconnectLists(g, s);
    DisconnectMirror(g, s);
    DisconnectBias(g, s);
  }

  lemma DisconnectLists(g: Graph, s: SynId)
    requires SynOk(g) && InsOk(g) && OutsOk(g) && LayersOk(g) && s < |g.syn| && g.syn[s].src.Some?
    ensures var r := Disconnect(g, s);
            SynOk(r) && InsOk(r) && OutsOk(r) && LayersOk(r) &&
            (forall m | 0 <= m < |r.neurons| :: r.neurons[m].bias == g.neurons[m].bias && r.neurons[m].layer == g.neurons[m].layer)
  {
    var r := Disconnect(g, s);
    assert forall m | 0 <= m < |r.neurons| ::
      r.neurons[m].bias == g.neurons[m].bias && r.neurons[m].layer == g.neurons[m].layer;
  }

  lemma DisconnectMirror(g: Graph, s: SynId)
    requires SynOk(g) && Mirrored(g) && s < |g.syn| && g.syn[s].src.Some?
    ensures Mirrored(Disconnect(g, s))
  {
    var r := Disconnect(g, s);
    forall t | 0 <= t < |r.syn| && r.syn[t].src.Some? && r.syn[t].src.value < |r.neurons| && r.syn[t].dst < |r.neurons|
      ensures t in r.neurons[r.syn[t].src.value].outs <==> t in r.neurons[r.syn[t].dst].ins
    {
      var p, q := g.syn[t].src.value, g.syn[t].dst;
      assert t in g.neurons[p].outs <==> t in g.neurons[q].ins;
    }
  }

  lemma DisconnectBias(g: Graph, s: SynId)
    requires SynOk(g) && InsOk(g) && BiasOk(g) && s < |g.syn| && g.syn[s].src.Some?
    ensures BiasOk(Disconnect(g, s))
  {
    var r := Disconnect(g, s);
    forall m | 0 <= m < |r.neurons|
      ensures (r.neurons[m].bias.Some? ==> r.neurons[m].bias.value in r.neurons[m].ins) &&
              forall t | t in r.neurons[m].ins && t < |r.syn| :: (r.syn[t].src.None? <==> r.neurons[m].bias == Some(t))
    {
      assert r.neurons[m].bias == g.neurons[m].bias;
      if r.neurons[m].bias.Some? {
        var t := g.neurons[m].bias.value;
        assert t in g.neurons[m].ins;
        assert g.syn[t].src.None?;
      }
    }
  }

  /** `LayeredNet::GetNeuron(groupindex, neuronindex)`: `groups.Get`, then that layer's `neurons.Get`; null when either index is out of range. */
  function GetNeuron(g: Graph, gi: int, ni: int): Option<NeuronId>
    requires GroupsIn(g)
  {
    if 0 <= gi < |g.groups| then
      Nth(g.layers[g.groups[gi]], ni)
    else None
  }

  /** The neuron sits in a layer of the net. */
  ghost predicate InNet(g: Graph, n: NeuronId)
  {
    n < |g.neurons| && g.neurons[n].layer.Some? && g.neurons[n].layer.value in g.groups
  }

  /** Neuron `m` sits in one of the first `i` groups of the net. */
  ghost predicate InFirstGroups(g: Graph, m: NeuronId, i: nat)
    requires i <= |g.groups|
  {
    m < |g.neurons| && g.neurons[m].layer.Some? && g.neurons[m].layer.value in g.groups[..i]
  }

  /** One more group: its layer's neurons join those of the first `i` groups. */
  lemma InFirstGroupsStep(g: Graph, i: nat)
    requires LayersOk(g) && i < |g.groups|
    ensures g.groups[i] < |g.layers|
    ensures forall m | 0 <= m < |g.neurons| ::
      InFirstGroups(g, m, i + 1) <==> InFirstGroups(g, m, i) || m in g.layers[g.groups[i]]
  {
    assert g.groups[i] in g.groups;
    assert g.groups[..i + 1] == g.groups[..i] + [g.groups[i]];
  }

  /** All the groups hold exactly the neurons of the net. */
  lemma InAllGroups(g: Graph)
    ensures forall m | 0 <= m < |g.neurons| :: InFirstGroups(g, m, |g.groups|) <==> InNet(g, m)
  {
    assert g.groups[..|g.groups|] == g.groups;
  }

  /**
   * The two numbers `Save` writes for a connection from neuron `n`: the index
   * of its layer among the net's groups (the `TempInt` set on every neuron of
   * that layer) and its index in that layer (`GetIndex`).
   */
  function Position(g: Graph, n: NeuronId): (int, int)
    requires LayersOk(g) && InNet(g, n)
  {
    var l := g.neurons[n].layer.value;
    (IndexOf(g.groups, l), IndexOf(g.layers[l], n))
  }

  /** `GetNeuron` undoes `Position`: the position of a neuron of the net leads back to it. */
  lemma GetNeuronPosition(g: Graph, n: NeuronId)
    requires LayersOk(g) && InNet(g, n)
    ensures GetNeuron(g, Position(g, n).0, Position(g, n).1) == Some(n)
  {
  }

  /** ... and `Position` undoes `GetNeuron`: whatever `GetNeuron` finds sits at the position asked for. */
  lemma PositionGetNeuron(g: Graph, gi: int, ni: int)
    requires LayersOk(g) && GetNeuron(g, gi, ni).Some?
    ensures var n := GetNeuron(g, gi, ni).value; InNet(g, n) && Position(g, n) == (gi, ni)
  {
    var l := g.groups[gi];
    assert l in g.groups;
    assert 0 <= ni < |g.layers[l]|;
    var n := g.layers[l][ni];
    assert n in g.layers[l];
    assert g.neurons[n].layer == Some(l);
    assert IndexOf(g.groups, l) == gi by {
      var j := IndexOf(g.groups, l);
      assert g.groups[j] == g.groups[gi];
    }
    assert IndexOf(g.layers[l], n) == ni by {
      var j := IndexOf(g.layers[l], n);
      assert g.layers[l][j] == g.layers[l][ni];
    }
  }

  /**
   * `NeuralNet::AddGroup(group)` is `groups.AttachBefore(group, output)`:
   * nothing happens when the layer is already a group or the output layer
   * is not; otherwise the layer goes just before the output layer.
   */
  function WithGroup(g: Graph, l: LayerId): Graph
  {
    if l in g.groups || g.output.None? || g.output.value !in g.groups then g
    else g.(groups := InsertAt(g.groups, IndexOf(g.groups, g.output.value), l))
  }

  /** Changing only the groups and the input and output layers keeps a graph well formed when they satisfy `LayersOk`'s group conditions. */
  lemma RegroupOk(g: Graph, h: Graph)
    requires GraphOk(g) && h == g.(groups := h.groups, input := h.input, output := h.output)
    requires Distinct(h.groups) && GroupsIn(h)
    requires (h.input.Some? ==> h.input.value in h.groups) && (h.output.Some? ==> h.output.value in h.groups)
    ensures GraphOk(h)
  {
    assert SynOk(h) && InsOk(h) && OutsOk(h) && Mirrored(h) && BiasOk(h);
  }

  lemma InsertGroupIn(g: Graph, i: nat, l: LayerId)
    requires GroupsIn(g) && i <= |g.groups| && l < |g.layers|
    ensures GroupsIn(g.(groups := InsertAt(g.groups, i, l)))
  {
    var r := InsertAt(g.groups, i, l);
    forall k | 0 <= k < |r|
      ensures r[k] < |g.layers|
    {
      if k < i {
        assert r[k] == g.groups[k];
      } else if k > i {
        assert r[k] == g.groups[k - 1];
      }
    }
  }

  /** `AddGroup` keeps the net well formed. */
  lemma WithGroupOk(g: Graph, l: LayerId)
    requires GraphOk(g) && l < |g.layers|
    ensures GraphOk(WithGroup(g, l))
  {
    var r := WithGroup(g, l);
    if r.groups != g.groups {
      var i := IndexOf(g.groups, g.output.value);
      InsertAtDistinct(g.groups, i, l);
      InsertGroupIn(g, i, l);
      RegroupOk(g, r);
    }
  }

  /**
   * `AddGroup` changes nothing when the layer is already a group or the
   * output layer is missing; otherwise the layer lands just before the
   * output layer and the other groups keep their order.
   */
  lemma WithGroupShape(g: Graph, l: LayerId)
    requires Distinct(g.groups)
    ensures var r := WithGroup(g, l);
            r.neurons == g.neurons && r.syn == g.syn && r.layers == g.layers &&
            r.input == g.input && r.output == g.output &&
            (r.groups != g.groups <==> l !in g.groups && g.output.Some? && g.output.value in g.groups) &&
            (r.groups != g.groups ==>
               var i := IndexOf(r.groups, l);
               i + 1 < |r.groups| && r.groups[i + 1] == g.output.value && RemoveAt(r.groups, i) == g.groups)
  {
    var r := WithGroup(g, l);
    if l !in g.groups && g.output.Some? && g.output.value in g.groups {
      InsertAtDistinct(g.groups, IndexOf(g.groups, g.output.value), l);
    }
  }

  /** A well-formed graph is wired. */
  lemma GraphWired(g: Graph)
    requires SynOk(g) && InsOk(g) && LayersOk(g)
    ensures Wired(g)
  {
    forall n, k | 0 <= n < |g.neurons| && 0 <= k < |g.neurons[n].ins|
      ensures g.neurons[n].ins[k] < |g.syn|
    {
      assert g.neurons[n].ins[k] in g.neurons[n].ins;
    }
    forall l, k | 0 <= l < |g.layers| && 0 <= k < |g.layers[l]|
      ensures g.layers[l][k] < |g.neurons|
    {
      assert g.layers[l][k] in g.layers[l];
    }
  }
}
