/**
 * The order in which `GATrainer` visits the weights of a net
 * (`GetWeightCount`, `GetWeights` and `SetWeights` in GANet.cpp): the
 * layers in the order of the net's groups, the neurons of each layer in
 * list order, and the input synapses of each neuron (its bias among them)
 * in list order. A chromosome's `i`-th gene is the weight of the `i`-th
 * synapse of this order.
 */
module WeightOrder {
  import opened Util
  import opened Graph

  /** The input synapses of the neurons `ns`, neuron by neuron. */
  function NeuronsSlots(neurons: seq<Neuron>, ns: seq<NeuronId>): seq<SynId>
    requires forall k | 0 <= k < |ns| :: ns[k] < |neurons|
  {
    if ns == [] then [] else neurons[ns[0]].ins + NeuronsSlots(neurons, ns[1..])
  }

  /** The input synapses of the neurons of the layers `ls`, layer by layer. */
  function GroupsSlots(neurons: seq<Neuron>, layers: seq<seq<NeuronId>>, ls: seq<LayerId>): seq<SynId>
    requires forall k | 0 <= k < |ls| :: ls[k] < |layers|
    requires forall l, k | 0 <= l < |layers| && 0 <= k < |layers[l]| :: layers[l][k] < |neurons|
  {
    if ls == [] then [] else NeuronsSlots(neurons, layers[ls[0]]) + GroupsSlots(neurons, layers, ls[1..])
  }

  /** What is left to visit from neuron `j` on: the inputs of neuron `ns[j]` and then those of the neurons after it. */
  lemma NeuronStep(neurons: seq<Neuron>, ns: seq<NeuronId>, j: nat)
    requires j < |ns| && forall k | 0 <= k < |ns| :: ns[k] < |neurons|
    ensures NeuronsSlots(neurons, ns[j..]) == neurons[ns[j]].ins + NeuronsSlots(neurons, ns[j + 1..])
  {
    assert ns[j..][1..] == ns[j + 1..];
  }

  /** What is left to visit from group `gi` on: the neurons of that group's layer and then the groups after it. */
  lemma GroupStep(g: Graph, gi: nat)
    requires LayersOk(g) && LayersIn(g) && gi < |g.groups|
    ensures var N, L := g.neurons, g.layers;
      GroupsSlots(N, L, g.groups[gi..]) == NeuronsSlots(N, L[g.groups[gi]]) + GroupsSlots(N, L, g.groups[gi + 1..])
  {
    assert g.groups[gi..][1..] == g.groups[gi + 1..];
  }

  /** The synapses listed for neurons `ns` are inputs of those neurons; for distinct neurons they are distinct. */
  lemma {:induction false} NeuronsSlotsOk(g: Graph, ns: seq<NeuronId>)
    requires InsOk(g) && forall k | 0 <= k < |ns| :: ns[k] < |g.neurons|
    ensures forall s | s in NeuronsSlots(g.neurons, ns) :: s < |g.syn| && g.syn[s].dst in ns
    ensures Distinct(ns) ==> Distinct(NeuronsSlots(g.neurons, ns))
  {
    if ns != [] {
      var n, ns' := ns[0], ns[1..];
      NeuronsSlotsOk(g, ns');
      var a, b := g.neurons[n].ins, NeuronsSlots(g.neurons, ns');
      assert NeuronsSlots(g.neurons, ns) == a + b;
      forall s | s in a + b
        ensures s < |g.syn| && g.syn[s].dst in ns
      {
        if s in b {
          assert g.syn[s].dst in ns';
        }
      }
      if Distinct(ns) {
        assert n !in ns' by {
          forall k | 0 <= k < |ns'|
            ensures ns'[k] != n
          {
            assert ns'[k] == ns[k + 1];
          }
        }
        forall s | s in a
          ensures s !in b
        {
          assert g.syn[s].dst == n;
        }
        DistinctConcat(a, b);
      }
    }
  }

  /** The synapses listed for layers `ls` lead into neurons of those layers; for distinct layers they are distinct. */
  lemma {:induction false} GroupsSlotsOk(g: Graph, ls: seq<LayerId>)
    requires InsOk(g) && LayersOk(g) && LayersIn(g) && forall k | 0 <= k < |ls| :: ls[k] < |g.layers|
    ensures forall s | s in GroupsSlots(g.neurons, g.layers, ls) ::
      s < |g.syn| && g.syn[s].dst < |g.neurons| && g.neurons[g.syn[s].dst].layer.Some? && g.neurons[g.syn[s].dst].layer.value in ls
    ensures Distinct(ls) ==> Distinct(GroupsSlots(g.neurons, g.layers, ls))
  {
    if ls != [] {
      var l, ls' := ls[0], ls[1..];
      GroupsSlotsOk(g, ls');
      NeuronsSlotsOk(g, g.layers[l]);
      var a, b := NeuronsSlots(g.neurons, g.layers[l]), GroupsSlots(g.neurons, g.layers, ls');
      assert GroupsSlots(g.neurons, g.layers, ls) == a + b;
      forall s | s in a
        ensures g.syn[s].dst < |g.neurons| && g.neurons[g.syn[s].dst].layer == Some(l)
      {
        assert g.syn[s].dst in g.layers[l];
      }
      if Distinct(ls) {
        assert l !in ls' by {
          forall k | 0 <= k < |ls'|
            ensures ls'[k] != l
          {
            assert ls'[k] == ls[k + 1];
          }
        }
        forall s | s in a
          ensures s !in b
        {
          assert g.neurons[g.syn[s].dst].layer == Some(l);
        }
        DistinctConcat(a, b);
      }
    }
  }

  /** The synapses whose weights the trainer visits, in its order; in a well-formed net each exists. */
  ghost function Slots(g: Graph): (S: seq<SynId>)
    requires InsOk(g) && LayersOk(g)
    ensures forall k | 0 <= k < |S| :: S[k] < |g.syn|
  {
    LayersOkIn(g);
    GroupsSlotsOk(g, g.groups);
    var S := GroupsSlots(g.neurons, g.layers, g.groups);
    assert forall k | 0 <= k < |S| :: S[k] in S;
    S
  }

  /** In a well-formed net no synapse is visited twice. */
  lemma SlotsDistinct(g: Graph)
    requires InsOk(g) && LayersOk(g)
    ensures Distinct(Slots(g))
  {
    LayersOkIn(g);
    GroupsSlotsOk(g, g.groups);
  }

  /** The weights of the synapses `S`, in order. */
  function WeightsAt(g: Graph, S: seq<SynId>): (w: seq<real>)
    requires forall k | 0 <= k < |S| :: S[k] < |g.syn|
    ensures |w| == |S|
  {
    seq(|S|, k requires 0 <= k < |S| => g.syn[S[k]].weight)
  }

  lemma WeightsAtAppend(g: Graph, A: seq<SynId>, B: seq<SynId>)
    requires (forall k | 0 <= k < |A| :: A[k] < |g.syn|) && forall k | 0 <= k < |B| :: B[k] < |g.syn|
    ensures WeightsAt(g, A + B) == WeightsAt(g, A) + WeightsAt(g, B)
  {
  }

  /** The weights the trainer reads from a net, in its order. */
  ghost function Weights(g: Graph): (w: seq<real>)
    requires InsOk(g) && LayersOk(g)
    ensures |w| == |Slots(g)|
  {
    WeightsAt(g, Slots(g))
  }

  /** Graph `g` after the synapses `S`, in order, get the weights `w`. */
  function WithWeights(g: Graph, S: seq<SynId>, w: seq<real>): (r: Graph)
    requires |S| <= |w| && forall k | 0 <= k < |S| :: S[k] < |g.syn|
    ensures r == g.(syn := r.syn) && |r.syn| == |g.syn|
    ensures forall s | 0 <= s < |g.syn| :: r.syn[s] == g.syn[s].(weight := r.syn[s].weight)
  {
    if S == [] then g
    else
      var h := WithWeights(g, S[..|S| - 1], w);
      var s := S[|S| - 1];
      h.(syn := h.syn[s := h.syn[s].(weight := w[|S| - 1])])
  }

  /** Setting the weights of `A + B` sets those of `A` and then those of `B`, from the genes after `A`'s. */
  lemma {:induction false} WithWeightsAppend(g: Graph, A: seq<SynId>, B: seq<SynId>, w: seq<real>)
    requires |A| + |B| <= |w| && (forall k | 0 <= k < |A| :: A[k] < |g.syn|) && forall k | 0 <= k < |B| :: B[k] < |g.syn|
    ensures WithWeights(g, A + B, w) == WithWeights(WithWeights(g, A, w), B, w[|A|..])
  {
    if B == [] {
      assert A + B == A;
    } else {
      var B' := B[..|B| - 1];
      WithWeightsAppend(g, A, B', w);
      assert (A + B)[..|A + B| - 1] == A + B';
    }
  }

  /** With distinct synapses, the `k`-th of `S` ends with weight `w[k]` and the synapses not in `S` are untouched. */
  lemma {:induction false} WithWeightsAt(g: Graph, S: seq<SynId>, w: seq<real>)
    requires |S| <= |w| && (forall k | 0 <= k < |S| :: S[k] < |g.syn|) && Distinct(S)
    ensures forall k | 0 <= k < |S| :: WithWeights(g, S, w).syn[S[k]].weight == w[k]
    ensures forall s | 0 <= s < |g.syn| && s !in S :: WithWeights(g, S, w).syn[s] == g.syn[s]
  {
    if S != [] {
      var S' := S[..|S| - 1];
      WithWeightsAt(g, S', w);
      forall k | 0 <= k < |S'|
        ensures S'[k] != S[|S| - 1]
      {
        assert S[k] != S[|S| - 1];
      }
    }
  }

  /** Giving every synapse of `S` the weight it already has changes nothing. */
  lemma {:induction false} WithOwnWeights(g: Graph, S: seq<SynId>, w: seq<real>)
    requires |S| <= |w| && forall k | 0 <= k < |S| :: S[k] < |g.syn| && w[k] == g.syn[S[k]].weight
    ensures WithWeights(g, S, w) == g
  {
    if S != [] {
      WithOwnWeights(g, S[..|S| - 1], w);
      assert g.syn[S[|S| - 1] := g.syn[S[|S| - 1]]] == g.syn;
    }
  }

  /** Setting weights keeps a net well formed and keeps the order its weights are visited in. */
  lemma WithWeightsOk(g: Graph, w: seq<real>)
    requires GraphOk(g) && |Slots(g)| <= |w|
    ensures GraphOk(WithWeights(g, Slots(g), w)) && Slots(WithWeights(g, Slots(g), w)) == Slots(g)
  {
    ReweightOk(g, WithWeights(g, Slots(g), w));
  }

  /** Reading the weights back after writing `w` gives `w`, as far as the net has weights. */
  lemma SetThenGet(g: Graph, w: seq<real>)
    requires GraphOk(g) && |Slots(g)| <= |w|
    ensures GraphOk(WithWeights(g, Slots(g), w)) && Weights(WithWeights(g, Slots(g), w)) == w[..|Slots(g)|]
  {
    WithWeightsOk(g, w);
    SlotsDistinct(g);
    WithWeightsAt(g, Slots(g), w);
  }

  /** Writing back the weights just read leaves the net as it was. */
  lemma GetThenSet(g: Graph)
    requires InsOk(g) && LayersOk(g)
    ensures WithWeights(g, Slots(g), Weights(g)) == g
  {
    WithOwnWeights(g, Slots(g), Weights(g));
  }
}
