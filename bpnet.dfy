/**
 * `BPTrainer::Train` (BPNet.cpp): one step of back propagation on a
 * `LayeredNet`. The net is evaluated on the input the trainer's `input`
 * callback produces; every output neuron's error factor a(1 - a)(d - a)
 * goes into its `TempDouble`, and every input synapse of it has its `temp`
 * staged to weight + step * error factor * data; then the layers between
 * the output and the input layer, from the one before the output back to
 * the one after the input, get the error factor
 * data(1 - data) * sum(downstream `TempDouble` * weight) and stage their
 * inputs the same way; finally `SetWeights(null)` moves every staged
 * `temp` into its weight. The mean absolute output error is returned.
 *
 * The backward pass reads the graph (its wiring and its weights) and
 * writes only the synapses' `temp` values and the neurons' `TempDouble`s,
 * so it is specified by functions from a fixed graph and a `Pass` holding
 * those two sequences; the lemmas below state what the pass leaves in
 * them, and the methods at the end do the same on a `LayeredNet`.
 */
module BackProp {
  import opened Util
  import opened Graph
  import opened NeuralNet

  /** What the backward pass writes: the `temp` of every synapse and the `TempDouble` of every neuron. */
  datatype Pass = Pass(temp: seq<real>, td: seq<real>)

  /** Synapses join existing neurons and every neuron's input and output synapses exist, its inputs leading into it. */
  ghost predicate Shaped(g: Graph)
  {
    SynOk(g) &&
    forall n | 0 <= n < |g.neurons| ::
      (forall t | t in g.neurons[n].ins :: t < |g.syn| && g.syn[t].dst == n) &&
      (forall t | t in g.neurons[n].outs :: t < |g.syn|)
  }

  lemma GraphShaped(g: Graph)
    requires GraphOk(g)
    ensures Shaped(g)
  {
  }

  /** One `data` and one `TempDouble` per neuron, one `temp` per synapse. */
  predicate Fits(g: Graph, data: seq<Eval>, p: Pass)
  {
    |data| == |g.neurons| && |p.td| == |g.neurons| && |p.temp| == |g.syn|
  }

  /** The synapses' `temp` values. */
  function Temps(g: Graph): (t: seq<real>)
    ensures |t| == |g.syn| && forall s | 0 <= s < |g.syn| :: t[s] == g.syn[s].temp
  {
    seq(|g.syn|, s requires 0 <= s < |g.syn| => g.syn[s].temp)
  }

  /** `g` with the synapses' `temp` values `t` and nothing else changed. */
  function WithTemps(g: Graph, t: seq<real>): (h: Graph)
    requires |t| == |g.syn|
    ensures h == g.(syn := h.syn) && |h.syn| == |g.syn|
  {
    g.(syn := seq(|g.syn|, s requires 0 <= s < |g.syn| => g.syn[s].(temp := t[s])))
  }

  lemma WithTempsAt(g: Graph, t: seq<real>)
    requires |t| == |g.syn|
    ensures forall s | 0 <= s < |g.syn| :: WithTemps(g, t).syn[s] == g.syn[s].(temp := t[s])
  {
  }

  lemma WithOwnTemps(g: Graph)
    ensures WithTemps(g, Temps(g)) == g
  {
    assert WithTemps(g, Temps(g)).syn == g.syn;
  }

  /** `GetConnectedData` of a synapse: 1 for a bias, otherwise the `data` of the neuron it comes from. */
  function ConnectedData(g: Graph, data: seq<Eval>, s: SynId): real
    requires SynOk(g) && |data| == |g.neurons| && s < |g.syn|
  {
    match g.syn[s].src
    case None => 1.0
    case Some(m) => Num(data[m])
  }

  /** The error factor of an output neuron with actual output `a` and desired output `d`. */
  function OutputFactor(a: real, d: real): real
  {
    a * (1.0 - a) * (d - a)
  }

  /** The delta rule: the `temp` staged for an input of weight `w` and data `v` of a neuron with error factor `ef`. */
  function Delta(w: real, step: real, ef: real, v: real): real
  {
    w + step * ef * v
  }

  /** The `temp` neuron `n` stages on input synapse `s` with error factor `ef`. */
  function Staged(g: Graph, data: seq<Eval>, step: real, s: SynId, ef: real): real
    requires SynOk(g) && |data| == |g.neurons| && s < |g.syn|
  {
    Delta(g.syn[s].weight, step, ef, ConnectedData(g, data, s))
  }

  /**
   * Neuron `n` gets error factor `ef`: it goes into its `TempDouble`, and
   * each of its input synapses has its `temp` staged by the delta rule.
   */
  function Stage(g: Graph, data: seq<Eval>, step: real, p: Pass, n: NeuronId, ef: real): (q: Pass)
    requires Shaped(g) && Fits(g, data, p) && n < |g.neurons|
    ensures Fits(g, data, q) && q.td == p.td[n := ef]
  {
    Pass(seq(|g.syn|, s requires 0 <= s < |g.syn| =>
           if s in g.neurons[n].ins then Staged(g, data, step, s, ef) else p.temp[s]),
         p.td[n := ef])
  }

  /** Only the input synapses of the staged neuron have their `temp` changed, each by the delta rule. */
  lemma StageAt(g: Graph, data: seq<Eval>, step: real, p: Pass, n: NeuronId, ef: real)
    requires Shaped(g) && Fits(g, data, p) && n < |g.neurons|
    ensures forall s | 0 <= s < |g.syn| ::
      Stage(g, data, step, p, n, ef).temp[s] == if s in g.neurons[n].ins then Staged(g, data, step, s, ef) else p.temp[s]
  {
  }

  /** The output loop after its first `i` neurons: neuron `outs[k]` has actual output `a[k]` and desired output `d[k]`. */
  function OutputPass(g: Graph, data: seq<Eval>, step: real, p: Pass, outs: seq<NeuronId>, a: seq<real>, d: seq<real>, i: nat): (q: Pass)
    requires Shaped(g) && Fits(g, data, p) && i <= |outs| && |outs| <= |a| && |outs| <= |d|
    requires forall k | 0 <= k < |outs| :: outs[k] < |g.neurons|
    ensures Fits(g, data, q)
  {
    if i == 0 then p
    else Stage(g, data, step, OutputPass(g, data, step, p, outs, a, d, i - 1), outs[i - 1], OutputFactor(a[i - 1], d[i - 1]))
  }

  /** The sum of downstream `TempDouble` times weight over the first `k` output synapses `ts`, in list order. */
  function DownSum(g: Graph, td: seq<real>, ts: seq<SynId>, k: nat): real
    requires k <= |ts| && forall j | 0 <= j < |ts| :: ts[j] < |g.syn| && g.syn[ts[j]].dst < |td|
  {
    if k == 0 then 0.0
    else DownSum(g, td, ts, k - 1) + Term(td[g.syn[ts[k - 1]].dst], g.syn[ts[k - 1]].weight)
  }

  lemma OutsFit(g: Graph, td: seq<real>, n: NeuronId)
    requires Shaped(g) && |td| == |g.neurons| && n < |g.neurons|
    ensures forall j | 0 <= j < |g.neurons[n].outs| ::
      g.neurons[n].outs[j] < |g.syn| && g.syn[g.neurons[n].outs[j]].dst < |td|
  {
    var outs := g.neurons[n].outs;
    forall j | 0 <= j < |outs|
      ensures outs[j] < |g.syn| && g.syn[outs[j]].dst < |td|
    {
      assert outs[j] in outs;
    }
  }

  /** The error factor of a hidden neuron: data(1 - data) times the sum over its outputs of downstream `TempDouble` times weight. */
  function HiddenFactor(g: Graph, data: seq<Eval>, td: seq<real>, n: NeuronId): real
    requires Shaped(g) && |data| == |g.neurons| && |td| == |g.neurons| && n < |g.neurons|
  {
    OutsFit(g, td, n);
    var x := Num(data[n]);
    DownSum(g, td, g.neurons[n].outs, |g.neurons[n].outs|) * (x * (1.0 - x))
  }

  /** The loop over a hidden layer's neurons `ns` after its first `j` neurons. */
  function LayerPass(g: Graph, data: seq<Eval>, step: real, p: Pass, ns: seq<NeuronId>, j: nat): (q: Pass)
    requires Shaped(g) && Fits(g, data, p) && j <= |ns| && forall k | 0 <= k < |ns| :: ns[k] < |g.neurons|
    ensures Fits(g, data, q)
  {
    if j == 0 then p
    else
      var q := LayerPass(g, data, step, p, ns, j - 1);
      Stage(g, data, step, q, ns[j - 1], HiddenFactor(g, data, q.td, ns[j - 1]))
  }

  /** The layers a pass runs over exist and so do their neurons. */
  ghost predicate IndicesIn(g: Graph)
  {
    GroupsIn(g) && LayersIn(g)
  }

  /**
   * The loop over the hidden layers once it has handled groups
   * `|groups| - 2` down to `k`: the group before the output layer first,
   * the input layer (group 0) never.
   */
  function Backward(g: Graph, data: seq<Eval>, step: real, p: Pass, k: nat): (q: Pass)
    requires Shaped(g) && Fits(g, data, p) && IndicesIn(g)
    ensures Fits(g, data, q)
    decreases |g.groups| - k
  {
    if k + 1 >= |g.groups| then p
    else
      var ns := g.layers[g.groups[k]];
      LayerPass(g, data, step, Backward(g, data, step, p, k + 1), ns, |ns|)
  }

  /* ------------------------------------------------------------------ */
  /* What a pass leaves                                                  */
  /* ------------------------------------------------------------------ */

  /**
   * `q` is `p` after each neuron of `D` has been given an error factor
   * once: only the `TempDouble`s of `D` changed, and an input synapse of a
   * neuron of `D` has its `temp` staged by the delta rule with that
   * neuron's `TempDouble` in `q`; every other `temp` is as it was.
   */
  ghost predicate Handled(g: Graph, data: seq<Eval>, step: real, p: Pass, q: Pass, D: set<NeuronId>)
    requires Shaped(g) && Fits(g, data, p) && Fits(g, data, q)
  {
    (forall m | 0 <= m < |p.td| && m !in D :: q.td[m] == p.td[m]) &&
    forall s | 0 <= s < |g.syn| ::
      q.temp[s] ==
        if g.syn[s].dst in D && s in g.neurons[g.syn[s].dst].ins
        then Staged(g, data, step, s, q.td[g.syn[s].dst])
        else p.temp[s]
  }

  lemma HandledNone(g: Graph, data: seq<Eval>, step: real, p: Pass)
    requires Shaped(g) && Fits(g, data, p)
    ensures Handled(g, data, step, p, p, {})
  {
  }

  /** Giving one more neuron its error factor extends what has been handled. */
  lemma HandledStage(g: Graph, data: seq<Eval>, step: real, p: Pass, q: Pass, D: set<NeuronId>, n: NeuronId, ef: real)
    requires Shaped(g) && Fits(g, data, p) && Fits(g, data, q) && Handled(g, data, step, p, q, D)
    requires n !in D && n < |g.neurons|
    ensures Handled(g, data, step, p, Stage(g, data, step, q, n, ef), D + {n})
  {
    var r := Stage(g, data, step, q, n, ef);
    StageAt(g, data, step, q, n, ef);
    forall s | 0 <= s < |g.syn|
      ensures r.temp[s] ==
        if g.syn[s].dst in D + {n} && s in g.neurons[g.syn[s].dst].ins
        then Staged(g, data, step, s, r.td[g.syn[s].dst])
        else p.temp[s]
    {
      if s in g.neurons[n].ins {
        assert g.syn[s].dst == n;
      }
    }
  }

  /** Two passes over disjoint sets of neurons make one pass over both. */
  lemma HandledTrans(g: Graph, data: seq<Eval>, step: real, p: Pass, q: Pass, r: Pass, D1: set<NeuronId>, D2: set<NeuronId>)
    requires Shaped(g) && Fits(g, data, p) && Fits(g, data, q) && Fits(g, data, r) && D1 !! D2
    requires Handled(g, data, step, p, q, D1) && Handled(g, data, step, q, r, D2)
    ensures Handled(g, data, step, p, r, D1 + D2)
  {
  }

  /** The neurons of `ns[..i]`. */
  function Prefix(ns: seq<NeuronId>, i: nat): set<NeuronId>
    requires i <= |ns|
  {
    set k | 0 <= k < i :: ns[k]
  }

  lemma PrefixStep(ns: seq<NeuronId>, i: nat)
    requires 0 < i <= |ns| && Distinct(ns)
    ensures Prefix(ns, i) == Prefix(ns, i - 1) + {ns[i - 1]} && ns[i - 1] !in Prefix(ns, i - 1)
  {
  }

  lemma PrefixNone(ns: seq<NeuronId>)
    ensures Prefix(ns, 0) == {}
  {
  }

  /** The output loop gives each output neuron an error factor once. */
  lemma {:induction false} OutputHandled(g: Graph, data: seq<Eval>, step: real, p: Pass, outs: seq<NeuronId>, a: seq<real>, d: seq<real>, i: nat)
    requires Shaped(g) && Fits(g, data, p) && i <= |outs| && |outs| <= |a| && |outs| <= |d| && Distinct(outs)
    requires forall k | 0 <= k < |outs| :: outs[k] < |g.neurons|
    ensures Handled(g, data, step, p, OutputPass(g, data, step, p, outs, a, d, i), Prefix(outs, i))
  {
    if i == 0 {
      HandledNone(g, data, step, p);
      PrefixNone(outs);
    } else {
      var q := OutputPass(g, data, step, p, outs, a, d, i - 1);
      OutputHandled(g, data, step, p, outs, a, d, i - 1);
      PrefixStep(outs, i);
      HandledStage(g, data, step, p, q, Prefix(outs, i - 1), outs[i - 1], OutputFactor(a[i - 1], d[i - 1]));
    }
  }

  /** The output loop leaves in the `TempDouble` of output neuron `outs[k]` the error factor of its actual and desired output. */
  lemma {:induction false} OutputFactorKept(g: Graph, data: seq<Eval>, step: real, p: Pass, outs: seq<NeuronId>, a: seq<real>, d: seq<real>, i: nat, k: nat)
    requires Shaped(g) && Fits(g, data, p) && k < i <= |outs| && |outs| <= |a| && |outs| <= |d| && Distinct(outs)
    requires forall j | 0 <= j < |outs| :: outs[j] < |g.neurons|
    ensures OutputPass(g, data, step, p, outs, a, d, i).td[outs[k]] == OutputFactor(a[k], d[k])
  {
    if k < i - 1 {
      OutputFactorKept(g, data, step, p, outs, a, d, i - 1, k);
    }
  }

  /** The loop over a hidden layer gives each of its neurons an error factor once. */
  lemma {:induction false} LayerHandled(g: Graph, data: seq<Eval>, step: real, p: Pass, ns: seq<NeuronId>, j: nat)
    requires Shaped(g) && Fits(g, data, p) && j <= |ns| && Distinct(ns) && forall k | 0 <= k < |ns| :: ns[k] < |g.neurons|
    ensures Handled(g, data, step, p, LayerPass(g, data, step, p, ns, j), Prefix(ns, j))
  {
    if j == 0 {
      HandledNone(g, data, step, p);
      PrefixNone(ns);
    } else {
      LayerHandled(g, data, step, p, ns, j - 1);
      LayerHandledStep(g, data, step, p, ns, j);
    }
  }

  lemma LayerHandledStep(g: Graph, data: seq<Eval>, step: real, p: Pass, ns: seq<NeuronId>, j: nat)
    requires Shaped(g) && Fits(g, data, p) && 0 < j <= |ns| && Distinct(ns) && forall k | 0 <= k < |ns| :: ns[k] < |g.neurons|
    requires Handled(g, data, step, p, LayerPass(g, data, step, p, ns, j - 1), Prefix(ns, j - 1))
    ensures Handled(g, data, step, p, LayerPass(g, data, step, p, ns, j), Prefix(ns, j))
  {
    var q := LayerPass(g, data, step, p, ns, j - 1);
    var ef := HiddenFactor(g, data, q.td, ns[j - 1]);
    PrefixStep(ns, j);
    HandledStage(g, data, step, p, q, Prefix(ns, j - 1), ns[j - 1], ef);
  }

  /** ... and leaves in each the error factor the `TempDouble`s at its turn yield. */
  lemma {:induction false} LayerFactor(g: Graph, data: seq<Eval>, step: real, p: Pass, ns: seq<NeuronId>, j: nat, k: nat)
    requires Shaped(g) && Fits(g, data, p) && k < j <= |ns| && Distinct(ns) && forall i | 0 <= i < |ns| :: ns[i] < |g.neurons|
    ensures LayerPass(g, data, step, p, ns, j).td[ns[k]] == HiddenFactor(g, data, LayerPass(g, data, step, p, ns, k).td, ns[k])
  {
    LayerStep(g, data, step, p, ns, j);
    if k < j - 1 {
      LayerFactor(g, data, step, p, ns, j - 1, k);
      assert ns[k] != ns[j - 1];
    }
  }

  lemma LayerStep(g: Graph, data: seq<Eval>, step: real, p: Pass, ns: seq<NeuronId>, j: nat)
    requires Shaped(g) && Fits(g, data, p) && 0 < j <= |ns| && forall i | 0 <= i < |ns| :: ns[i] < |g.neurons|
    ensures var q := LayerPass(g, data, step, p, ns, j - 1);
      LayerPass(g, data, step, p, ns, j).td == q.td[ns[j - 1] := HiddenFactor(g, data, q.td, ns[j - 1])]
  {
  }

  /** The loop over a layer leaves the `TempDouble` of a neuron outside it alone. */
  lemma {:induction false} LayerKeeps(g: Graph, data: seq<Eval>, step: real, p: Pass, ns: seq<NeuronId>, j: nat, m: NeuronId)
    requires Shaped(g) && Fits(g, data, p) && j <= |ns| && forall i | 0 <= i < |ns| :: ns[i] < |g.neurons|
    requires m < |g.neurons| && m !in ns
    ensures LayerPass(g, data, step, p, ns, j).td[m] == p.td[m]
  {
    if j > 0 {
      LayerStep(g, data, step, p, ns, j);
      LayerKeeps(g, data, step, p, ns, j - 1, m);
    }
  }

  /* ------------------------------------------------------------------ */
  /* Groups                                                              */
  /* ------------------------------------------------------------------ */

  /** Neuron `m` belongs to the net, in one of the groups from index `lo` up to but not including `hi`. */
  ghost predicate InGroups(g: Graph, m: NeuronId, lo: int, hi: int)
    requires LayersOk(g)
  {
    InNet(g, m) && lo <= Position(g, m).0 < hi
  }

  /** The neurons of the layer of group `k` are the neurons of the net whose group index is `k`. */
  lemma LayerGroup(g: Graph, k: nat, m: NeuronId)
    requires LayersOk(g) && k < |g.groups|
    ensures g.groups[k] < |g.layers|
    ensures m in g.layers[g.groups[k]] <==> InGroups(g, m, k, k + 1)
  {
    var l := g.groups[k];
    assert l in g.groups;
    if m in g.layers[l] {
      assert g.neurons[m].layer == Some(l);
      var i := IndexOf(g.groups, l);
      assert i == k;
    }
    if InGroups(g, m, k, k + 1) {
      assert g.neurons[m].layer.value == g.groups[k];
    }
  }

  /** Neuron `m` is in group `k` or a later one, but not in the last, the output layer. */
  ghost predicate InBand(g: Graph, m: NeuronId, k: nat)
    requires LayersOk(g)
  {
    InGroups(g, m, k, |g.groups| - 1)
  }

  /** The neurons the hidden layer loop handles once it reaches group `k`. */
  ghost function Band(g: Graph, k: nat): set<NeuronId>
    requires LayersOk(g)
  {
    set m | 0 <= m < |g.neurons| && InBand(g, m, k)
  }

  /** The neurons of the layer of group `k`. */
  ghost function LayerSet(g: Graph, k: nat): set<NeuronId>
    requires GroupsIn(g) && k < |g.groups|
  {
    var ns := g.layers[g.groups[k]];
    Prefix(ns, |ns|)
  }

  lemma LayerSetIs(g: Graph, k: nat)
    requires LayersOk(g) && k < |g.groups|
    ensures forall m | 0 <= m < |g.neurons| :: m in LayerSet(g, k) <==> InGroups(g, m, k, k + 1)
    ensures forall m | m in LayerSet(g, k) :: m < |g.neurons|
  {
    var ns := g.layers[g.groups[k]];
    forall m | 0 <= m < |g.neurons|
      ensures m in LayerSet(g, k) <==> InGroups(g, m, k, k + 1)
    {
      LayerGroup(g, k, m);
      if m in ns {
        var i := IndexOf(ns, m);
        assert m in Prefix(ns, |ns|);
      }
    }
    forall m | m in LayerSet(g, k)
      ensures m < |g.neurons|
    {
      var i :| 0 <= i < |ns| && ns[i] == m;
      assert ns[i] in ns;
    }
  }

  /** The band from group `k` is the layer of group `k` and the band from group `k + 1`, which do not meet. */
  lemma BandStep(g: Graph, k: nat)
    requires LayersOk(g) && k + 1 < |g.groups|
    ensures Band(g, k) == LayerSet(g, k) + Band(g, k + 1) && LayerSet(g, k) !! Band(g, k + 1)
  {
    LayerSetIs(g, k);
  }

  lemma BandEmpty(g: Graph, k: nat)
    requires LayersOk(g) && k + 1 >= |g.groups|
    ensures Band(g, k) == {}
  {
  }

  /** The loop over the hidden layers, down to group `k`, handles the neurons of the band from group `k`. */
  lemma BackwardHandled(g: Graph, data: seq<Eval>, step: real, p: Pass, k: nat)
    requires Shaped(g) && Fits(g, data, p) && LayersOk(g) && IndicesIn(g)
    ensures Handled(g, data, step, p, Backward(g, data, step, p, k), Band(g, k))
    decreases |g.groups| - k
  {
    if k + 1 >= |g.groups| {
      BandEmpty(g, k);
      HandledNone(g, data, step, p);
    } else {
      var r := Backward(g, data, step, p, k + 1);
      var ns := g.layers[g.groups[k]];
      BackwardHandled(g, data, step, p, k + 1);
      assert g.groups[k] < |g.layers|;
      LayerHandled(g, data, step, r, ns, |ns|);
      BandStep(g, k);
      HandledTrans(g, data, step, p, r, Backward(g, data, step, p, k), Band(g, k + 1), LayerSet(g, k));
      assert Band(g, k + 1) + LayerSet(g, k) == Band(g, k);
    }
  }

  /** The loop over the hidden layers from group `k2 - 1` down to group `k` leaves the `TempDouble` of a neuron outside those groups alone. */
  lemma BackwardKeeps(g: Graph, data: seq<Eval>, step: real, p: Pass, k: nat, k2: nat, m: NeuronId)
    requires Shaped(g) && Fits(g, data, p) && LayersOk(g) && IndicesIn(g)
    requires k <= k2 && m < |g.neurons| && !InGroups(g, m, k, k2)
    ensures Backward(g, data, step, p, k).td[m] == Backward(g, data, step, p, k2).td[m]
    decreases k2 - k
  {
    if k < k2 && k + 1 < |g.groups| {
      var ns := g.layers[g.groups[k]];
      LayerGroup(g, k, m);
      LayerKeeps(g, data, step, Backward(g, data, step, p, k + 1), ns, |ns|, m);
      BackwardKeeps(g, data, step, p, k + 1, k2, m);
    }
  }

  /* ------------------------------------------------------------------ */
  /* The whole backward pass                                             */
  /* ------------------------------------------------------------------ */

  /** The output layer: the layer of the last group. */
  function OutLayer(g: Graph): seq<NeuronId>
    requires GroupsIn(g) && 0 < |g.groups|
  {
    g.layers[g.groups[|g.groups| - 1]]
  }

  /** What the backward pass needs: a net of at least two groups, and an actual and a desired value per output neuron. */
  ghost predicate Trainable(g: Graph, data: seq<Eval>, p: Pass, a: seq<real>, d: seq<real>)
  {
    Shaped(g) && Fits(g, data, p) && LayersOk(g) && 2 <= |g.groups| && |OutLayer(g)| <= |a| && |OutLayer(g)| <= |d|
  }

  /**
   * The backward pass of `Train` from `p` on a net whose neurons hold
   * `data`, with actual outputs `a` and desired outputs `d`: the output
   * loop, then the hidden layer loop down to group 1.
   */
  ghost function TrainPass(g: Graph, data: seq<Eval>, step: real, p: Pass, a: seq<real>, d: seq<real>): (F: Pass)
    requires Trainable(g, data, p, a, d)
    ensures Fits(g, data, F)
  {
    LayersOkIn(g);
    var outs := OutLayer(g);
    Backward(g, data, step, OutputPass(g, data, step, p, outs, a, d, |outs|), 1)
  }

  /** Neuron `m` is in a group after the input layer: one the backward pass gives an error factor. */
  ghost predicate Trained(g: Graph, m: NeuronId)
    requires LayersOk(g)
  {
    InGroups(g, m, 1, |g.groups|)
  }

  ghost function TrainedSet(g: Graph): set<NeuronId>
    requires LayersOk(g)
  {
    set m | 0 <= m < |g.neurons| && Trained(g, m)
  }

  /**
   * The backward pass gives every neuron after the input layer an error
   * factor once and stages each of its inputs by the delta rule with it;
   * the input layer's `TempDouble`s and the `temp` of every other synapse
   * are as they were.
   */
  lemma TrainedTemps(g: Graph, data: seq<Eval>, step: real, p: Pass, a: seq<real>, d: seq<real>)
    requires Trainable(g, data, p, a, d)
    ensures Handled(g, data, step, p, TrainPass(g, data, step, p, a, d), TrainedSet(g))
  {
    LayersOkIn(g);
    var outs := OutLayer(g);
    var k := |g.groups| - 1;
    var q := OutputPass(g, data, step, p, outs, a, d, |outs|);
    assert g.groups[k] < |g.layers|;
    OutputHandled(g, data, step, p, outs, a, d, |outs|);
    BackwardHandled(g, data, step, q, 1);
    TrainedSplit(g);
    HandledTrans(g, data, step, p, q, TrainPass(g, data, step, p, a, d), LayerSet(g, k), Band(g, 1));
  }

  /** The neurons after the input layer are those of the output layer and those of the band from group 1. */
  lemma TrainedSplit(g: Graph)
    requires LayersOk(g) && 2 <= |g.groups|
    ensures TrainedSet(g) == LayerSet(g, |g.groups| - 1) + Band(g, 1) && LayerSet(g, |g.groups| - 1) !! Band(g, 1)
  {
    LayerSetIs(g, |g.groups| - 1);
  }

  /** The backward pass leaves in the `TempDouble` of the `i`-th output neuron the error factor of its actual and desired output. */
  lemma TrainedOutput(g: Graph, data: seq<Eval>, step: real, p: Pass, a: seq<real>, d: seq<real>, i: nat)
    requires Trainable(g, data, p, a, d) && i < |OutLayer(g)|
    ensures OutLayer(g)[i] < |g.neurons|
    ensures TrainPass(g, data, step, p, a, d).td[OutLayer(g)[i]] == OutputFactor(a[i], d[i])
  {
    LayersOkIn(g);
    var outs := OutLayer(g);
    var k := |g.groups| - 1;
    var q := OutputPass(g, data, step, p, outs, a, d, |outs|);
    assert g.groups[k] < |g.layers|;
    OutputFactorKept(g, data, step, p, outs, a, d, |outs|, i);
    assert outs[i] in outs;
    LayerGroup(g, k, outs[i]);
    BackwardKeeps(g, data, step, q, 1, k, outs[i]);
  }

  /**
   * Every output synapse of a hidden neuron leads to a neuron of a later
   * group: the shape `ConnectGroups` gives a net, each group feeding the
   * next.
   */
  ghost predicate Forward(g: Graph)
    requires LayersOk(g)
  {
    forall n, t | 0 <= n < |g.neurons| && InBand(g, n, 1) && t in g.neurons[n].outs ::
      t < |g.syn| && InNet(g, g.syn[t].dst) && Position(g, g.syn[t].dst).0 > Position(g, n).0
  }

  /** `DownSum` reads only the `TempDouble`s of the neurons `ts` lead to. */
  lemma {:induction false} DownSumSame(g: Graph, td1: seq<real>, td2: seq<real>, ts: seq<SynId>, k: nat)
    requires k <= |ts| && |td1| == |td2|
    requires forall j | 0 <= j < |ts| :: ts[j] < |g.syn| && g.syn[ts[j]].dst < |td1|
    requires forall j | 0 <= j < k :: td1[g.syn[ts[j]].dst] == td2[g.syn[ts[j]].dst]
    ensures DownSum(g, td1, ts, k) == DownSum(g, td2, ts, k)
  {
    if k > 0 {
      DownSumSame(g, td1, td2, ts, k - 1);
    }
  }

  /** Downstream `TempDouble`s of 0 make a sum of 0. */
  lemma {:induction false} DownSumZero(g: Graph, td: seq<real>, ts: seq<SynId>, k: nat)
    requires k <= |ts| && forall j | 0 <= j < |ts| :: ts[j] < |g.syn| && g.syn[ts[j]].dst < |td|
    requires forall j | 0 <= j < k :: td[g.syn[ts[j]].dst] == 0.0
    ensures DownSum(g, td, ts, k) == 0.0
  {
    if k > 0 {
      DownSumZero(g, td, ts, k - 1);
    }
  }

  /** The error factor of a hidden neuron reads only the `TempDouble`s of the neurons it feeds. */
  lemma HiddenFactorSame(g: Graph, data: seq<Eval>, td1: seq<real>, td2: seq<real>, n: NeuronId)
    requires Shaped(g) && |data| == |g.neurons| && |td1| == |g.neurons| && |td2| == |g.neurons| && n < |g.neurons|
    requires forall t | t in g.neurons[n].outs :: td1[g.syn[t].dst] == td2[g.syn[t].dst]
    ensures HiddenFactor(g, data, td1, n) == HiddenFactor(g, data, td2, n)
  {
    var ts := g.neurons[n].outs;
    OutsFit(g, td1, n);
    forall j | 0 <= j < |ts|
      ensures td1[g.syn[ts[j]].dst] == td2[g.syn[ts[j]].dst]
    {
      assert ts[j] in ts;
    }
    DownSumSame(g, td1, td2, ts, |ts|);
  }

  /**
   * In a net whose hidden neurons feed later groups only, the backward
   * pass leaves in the `TempDouble` of every hidden neuron the error factor
   * that the final `TempDouble`s of the neurons it feeds yield: each layer
   * is handled after every layer it feeds and before any that could change
   * them again.
   */
  lemma TrainedHidden(g: Graph, data: seq<Eval>, step: real, p: Pass, a: seq<real>, d: seq<real>, n: NeuronId)
    requires Trainable(g, data, p, a, d) && Forward(g) && n < |g.neurons| && InBand(g, n, 1)
    ensures var F := TrainPass(g, data, step, p, a, d);
      F.td[n] == HiddenFactor(g, data, F.td, n)
  {
    LayersOkIn(g);
    var F := TrainPass(g, data, step, p, a, d);
    var outs := OutLayer(g);
    var q := OutputPass(g, data, step, p, outs, a, d, |outs|);
    assert F == Backward(g, data, step, q, 1);
    var k := Position(g, n).0;
    var ns := g.layers[g.groups[k]];
    LayerGroup(g, k, n);
    var j := IndexOf(ns, n);
    var R := Backward(g, data, step, q, k + 1);
    var S := LayerPass(g, data, step, R, ns, j);
    assert Backward(g, data, step, q, k) == LayerPass(g, data, step, R, ns, |ns|);
    LayerFactor(g, data, step, R, ns, |ns|, j);
    BackwardKeeps(g, data, step, q, 1, k, n);
    assert F.td[n] == HiddenFactor(g, data, S.td, n);
    forall t | t in g.neurons[n].outs
      ensures S.td[g.syn[t].dst] == F.td[g.syn[t].dst]
    {
      var m := g.syn[t].dst;
      LayerGroup(g, k, m);
      LayerKeeps(g, data, step, R, ns, j, m);
      BackwardKeeps(g, data, step, q, 1, k + 1, m);
    }
    HiddenFactorSame(g, data, S.td, F.td, n);
  }

  /** When every actual output is the desired one, every neuron after the input layer gets error factor 0 ... */
  lemma TrainedZero(g: Graph, data: seq<Eval>, step: real, p: Pass, a: seq<real>, d: seq<real>, m: NeuronId)
    requires Trainable(g, data, p, a, d) && Forward(g)
    requires forall i | 0 <= i < |OutLayer(g)| :: a[i] == d[i]
    requires m < |g.neurons| && Trained(g, m)
    ensures TrainPass(g, data, step, p, a, d).td[m] == 0.0
    decreases |g.groups| - Position(g, m).0
  {
    var F := TrainPass(g, data, step, p, a, d);
    var k := Position(g, m).0;
    if k == |g.groups| - 1 {
      var outs := OutLayer(g);
      LayerGroup(g, k, m);
      var i := IndexOf(outs, m);
      TrainedOutput(g, data, step, p, a, d, i);
    } else {
      TrainedHidden(g, data, step, p, a, d, m);
      var ts := g.neurons[m].outs;
      OutsFit(g, F.td, m);
      forall j | 0 <= j < |ts|
        ensures F.td[g.syn[ts[j]].dst] == 0.0
      {
        assert ts[j] in ts;
        TrainedZero(g, data, step, p, a, d, g.syn[ts[j]].dst);
      }
      DownSumZero(g, F.td, ts, |ts|);
    }
  }

  /** ... so the pass stages every input of theirs back to its own weight, and `SetWeights(null)` leaves those weights as they were. */
  lemma TrainedAtTarget(g: Graph, data: seq<Eval>, step: real, p: Pass, a: seq<real>, d: seq<real>)
    requires Trainable(g, data, p, a, d) && Forward(g)
    requires forall i | 0 <= i < |OutLayer(g)| :: a[i] == d[i]
    ensures var F := TrainPass(g, data, step, p, a, d);
      forall s | 0 <= s < |g.syn| ::
        F.temp[s] == if g.syn[s].dst in TrainedSet(g) && s in g.neurons[g.syn[s].dst].ins then g.syn[s].weight else p.temp[s]
  {
    var F := TrainPass(g, data, step, p, a, d);
    TrainedTemps(g, data, step, p, a, d);
    forall s | 0 <= s < |g.syn| && g.syn[s].dst in TrainedSet(g)
      ensures F.td[g.syn[s].dst] == 0.0
    {
      TrainedZero(g, data, step, p, a, d, g.syn[s].dst);
    }
  }

  /* ------------------------------------------------------------------ */
  /* The mean error                                                      */
  /* ------------------------------------------------------------------ */

  /** The sum of the absolute differences of desired and actual outputs over the first `k` output neurons. */
  function AbsSum(d: seq<real>, a: seq<real>, k: nat): real
    requires k <= |d| && k <= |a|
  {
    if k == 0 then 0.0 else AbsSum(d, a, k - 1) + RealAbs(d[k - 1] - a[k - 1])
  }

  /** The summed error over `k` outputs depends only on the first `k` actual outputs. */
  lemma {:induction false} AbsSumSame(d: seq<real>, a: seq<real>, b: seq<real>, k: nat)
    requires k <= |d| && k <= |a| && k <= |b| && forall i | 0 <= i < k :: a[i] == b[i]
    ensures AbsSum(d, a, k) == AbsSum(d, b, k)
  {
    if k > 0 {
      AbsSumSame(d, a, b, k - 1);
    }
  }

  /** The mean absolute error `Train` returns over `k` output neurons. */
  function MeanError(d: seq<real>, a: seq<real>, k: nat): real
    requires 0 < k <= |d| && k <= |a|
  {
    AbsSum(d, a, k) / (k as real)
  }

  /** The summed error is never negative, and it is 0 exactly when every actual output is the desired one. */
  lemma {:induction false} AbsSumZero(d: seq<real>, a: seq<real>, k: nat)
    requires k <= |d| && k <= |a|
    ensures AbsSum(d, a, k) >= 0.0
    ensures AbsSum(d, a, k) == 0.0 <==> forall i | 0 <= i < k :: d[i] == a[i]
  {
    if k > 0 {
      AbsSumZero(d, a, k - 1);
    }
  }

  /** So is the mean error. */
  lemma MeanErrorZero(d: seq<real>, a: seq<real>, k: nat)
    requires 0 < k <= |d| && k <= |a|
    ensures MeanError(d, a, k) >= 0.0
    ensures MeanError(d, a, k) == 0.0 <==> forall i | 0 <= i < k :: d[i] == a[i]
  {
    AbsSumZero(d, a, k);
  }

  /* ------------------------------------------------------------------ */
  /* The trainer on a `LayeredNet`                                       */
  /* ------------------------------------------------------------------ */

  /** The `TempDouble`s `NeuralNet::Update` leaves: `DblMin` for the neurons of the net, the others as they were. */
  ghost function ResetTd(g: Graph, td: seq<real>): (r: seq<real>)
    requires |td| == |g.neurons|
    ensures |r| == |td| && forall m | 0 <= m < |td| :: r[m] == if InNet(g, m) then DblMin else td[m]
  {
    seq(|td|, m requires 0 <= m < |td| => if InNet(g, m) then DblMin else td[m])
  }

  /** `g` with the `temp` values `t` after `SetWeights(null)`: each input synapse of a neuron of the net takes its `temp` as its weight. */
  ghost function Committed(g: Graph, t: seq<real>): (h: Graph)
    requires |t| == |g.syn|
    ensures h == g.(syn := h.syn) && |h.syn| == |g.syn|
    ensures forall s | 0 <= s < |g.syn| ::
      h.syn[s] == if NetInput(g, s) then Reweighted(g.syn[s].(temp := t[s]), None, 0.0) else g.syn[s].(temp := t[s])
  {
    g.(syn := seq(|g.syn|, s requires 0 <= s < |g.syn| =>
      if NetInput(g, s) then Reweighted(g.syn[s].(temp := t[s]), None, 0.0) else g.syn[s].(temp := t[s])))
  }

  /** The inner loop of both loops of `Train`: neuron `n` gets error factor `ef` in its `TempDouble`, and each of its input synapses its staged `temp`. */
  method StageNeuron(net: LayeredNet, step: real, n: NeuronId, ef: real, ghost G: Graph, ghost P: Pass)
    requires Shaped(G) && Fits(G, net.data, P) && n < |G.neurons|
    requires net.g == WithTemps(G, P.temp) && net.tempdouble == P.td
    modifies net
    ensures net.data == old(net.data) && net.tempint == old(net.tempint)
    ensures var q := Stage(G, net.data, step, P, n, ef);
      net.g == WithTemps(G, q.temp) && net.tempdouble == q.td
  {
    WithTempsAt(G, P.temp);
    net.tempdouble := net.tempdouble[n := ef];
    var ins := net.g.neurons[n].ins;
    var k := 0;
    while k < |ins|
      invariant 0 <= k <= |ins| && ins == G.neurons[n].ins
      invariant net.data == old(net.data) && net.tempint == old(net.tempint) && net.tempdouble == P.td[n := ef]
      invariant net.g == G.(syn := net.g.syn) && |net.g.syn| == |G.syn|
      invariant forall s | 0 <= s < |G.syn| ::
        net.g.syn[s] == G.syn[s].(temp := if s in ins[..k] then Staged(G, net.data, step, s, ef) else P.temp[s])
    {
      assert ins[k] in ins;
      assert ins[..k + 1] == ins[..k] + [ins[k]];
      var s := ins[k];
      var x := if net.g.syn[s].src.None? then 1.0 else Num(net.data[net.g.syn[s].src.value]);
      assert x == ConnectedData(G, net.data, s);
      ghost var before := net.g.syn;
      assert before[s] == G.syn[s].(temp := before[s].temp);
      assert before[s].weight + step * ef * x == Staged(G, net.data, step, s, ef);
      net.g := net.g.(syn := net.g.syn[s := net.g.syn[s].(temp := net.g.syn[s].weight + step * ef * x)]);
      assert net.g.syn[s] == before[s].(temp := Staged(G, net.data, step, s, ef));
      forall s' | 0 <= s' < |G.syn|
        ensures net.g.syn[s'] == G.syn[s'].(temp := if s' in ins[..k + 1] then Staged(G, net.data, step, s', ef) else P.temp[s'])
      {
        if s' == s {
          assert net.g.syn[s'] == G.syn[s].(temp := Staged(G, net.data, step, s, ef));
        } else {
          assert net.g.syn[s'] == before[s'];
        }
      }
      k := k + 1;
    }
    assert ins[..k] == ins;
    StageAt(G, net.data, step, P, n, ef);
    WithTempsAt(G, Stage(G, net.data, step, P, n, ef).temp);
    assert net.g.syn == WithTemps(G, Stage(G, net.data, step, P, n, ef).temp).syn;
  }

  /** The error factor of hidden neuron `n`: the sum over its output synapses of downstream `TempDouble` times weight, times data(1 - data). */
  method ErrorFactor(net: LayeredNet, n: NeuronId, ghost G: Graph, ghost P: Pass) returns (ef: real)
    requires Shaped(G) && Fits(G, net.data, P) && n < |G.neurons|
    requires net.g == WithTemps(G, P.temp) && net.tempdouble == P.td
    ensures ef == HiddenFactor(G, net.data, P.td, n)
  {
    OutsFit(G, P.td, n);
    var outs := net.g.neurons[n].outs;
    var e := 0.0;
    var k := 0;
    while k < |outs|
      invariant 0 <= k <= |outs| && outs == G.neurons[n].outs
      invariant e == DownSum(G, P.td, outs, k)
    {
      var t := outs[k];
      e := e + net.tempdouble[net.g.syn[t].dst] * net.g.syn[t].weight;
      k := k + 1;
    }
    var x := Num(net.data[n]);
    ef := e * (x * (1.0 - x));
  }

  /**
   * The output loop of `Train` over the neurons of layer `l`: the `i`-th
   * gets the error factor of its actual output `out2[i]` and its desired
   * output `desired[i]`, and the absolute differences are summed; the sum
   * divided by their number is returned.
   */
  method OutputLayer(net: LayeredNet, step: real, l: LayerId, desired: seq<real>, out2: array<real>, ghost G: Graph, ghost P: Pass)
    returns (meanerror: real)
    requires Shaped(G) && Fits(G, net.data, P) && l < |G.layers| && forall k | 0 <= k < |G.layers[l]| :: G.layers[l][k] < |G.neurons|
    requires |desired| >= |G.layers[l]| && out2.Length >= |G.layers[l]|
    requires net.g == WithTemps(G, P.temp) && net.tempdouble == P.td
    modifies net
    ensures net.data == old(net.data) && net.tempint == old(net.tempint)
    ensures var outs := G.layers[l];
      var q := OutputPass(G, net.data, step, P, outs, out2[..], desired, |outs|);
      net.g == WithTemps(G, q.temp) && net.tempdouble == q.td &&
      meanerror == if |outs| == 0 then 0.0 else MeanError(desired, out2[..], |outs|)
  {
    var outs := net.g.layers[l];
    ghost var q := P;
    meanerror := 0.0;
    var i := 0;
    while i < |outs|
      invariant 0 <= i <= |outs| && outs == G.layers[l]
      invariant net.data == old(net.data) && net.tempint == old(net.tempint)
      invariant q == OutputPass(G, net.data, step, P, outs, out2[..], desired, i)
      invariant net.g == WithTemps(G, q.temp) && net.tempdouble == q.td
      invariant meanerror == AbsSum(desired, out2[..], i)
    {
      var desiredoutput := desired[i];
      var actualoutput := out2[i];
      var errorfactor := actualoutput * (1.0 - actualoutput) * (desiredoutput - actualoutput);
      assert errorfactor == OutputFactor(out2[..][i], desired[i]);
      StageNeuron(net, step, outs[i], errorfactor, G, q);
      q := Stage(G, net.data, step, q, outs[i], errorfactor);
      meanerror := meanerror + RealAbs(desiredoutput - actualoutput);
      i := i + 1;
    }
    if i > 0 {
      meanerror := meanerror / (i as real);
    }
  }

  /** One pass of the hidden layer loop of `Train`: each neuron of layer `l` in turn gets its error factor and stages its inputs. */
  method HiddenLayer(net: LayeredNet, step: real, l: LayerId, ghost G: Graph, ghost P: Pass)
    requires Shaped(G) && Fits(G, net.data, P) && l < |G.layers| && forall k | 0 <= k < |G.layers[l]| :: G.layers[l][k] < |G.neurons|
    requires net.g == WithTemps(G, P.temp) && net.tempdouble == P.td
    modifies net
    ensures net.data == old(net.data) && net.tempint == old(net.tempint)
    ensures var q := LayerPass(G, net.data, step, P, G.layers[l], |G.layers[l]|);
      net.g == WithTemps(G, q.temp) && net.tempdouble == q.td
  {
    var ns := net.g.layers[l];
    ghost var q := P;
    var j := 0;
    while j < |ns|
      invariant 0 <= j <= |ns| && ns == G.layers[l]
      invariant net.data == old(net.data) && net.tempint == old(net.tempint)
      invariant q == LayerPass(G, net.data, step, P, ns, j)
      invariant net.g == WithTemps(G, q.temp) && net.tempdouble == q.td
    {
      var errorfactor := ErrorFactor(net, ns[j], G, q);
      StageNeuron(net, step, ns[j], errorfactor, G, q);
      q := Stage(G, net.data, step, q, ns[j], errorfactor);
      j := j + 1;
    }
  }

  /** The hidden layer loop of `Train`: the layers of the groups from the one before the output layer back to the one after the input layer. */
  method HiddenLayers(net: LayeredNet, step: real, ghost G: Graph, ghost P: Pass)
    requires Shaped(G) && Fits(G, net.data, P) && LayersOk(G) && IndicesIn(G) && 2 <= |G.groups|
    requires G.input == Some(G.groups[0])
    requires net.g == WithTemps(G, P.temp) && net.tempdouble == P.td
    modifies net
    ensures net.data == old(net.data) && net.tempint == old(net.tempint)
    ensures var q := Backward(G, net.data, step, P, 1);
      net.g == WithTemps(G, q.temp) && net.tempdouble == q.td
  {
    ghost var data := net.data;
    var k := |net.g.groups| - 2;
    ghost var q := P;
    while net.g.groups[k] != net.g.input.value
      invariant 0 <= k <= |G.groups| - 2
      invariant net.data == data && net.tempint == old(net.tempint)
      invariant q == Backward(G, data, step, P, k + 1)
      invariant net.g == WithTemps(G, q.temp) && net.tempdouble == q.td
      decreases k
    {
      assert k != 0;
      var l := net.g.groups[k];
      assert l == G.groups[k] && l < |G.layers|;
      HiddenLayer(net, step, l, G, q);
      q := LayerPass(G, data, step, q, G.layers[l], |G.layers[l]|);
      assert q == Backward(G, data, step, P, k);
      k := k - 1;
    }
    assert k == 0;
  }

  /**
   * `BPTrainer::Train(net, state)`: `inputs` and `desired` are what the
   * trainer's `input` and `train` callbacks produce, `out2` is the
   * trainer's buffer the net's outputs go to and `step` its step. The net
   * is updated on `inputs`; the output loop and then the hidden layer loop,
   * from the group before the output layer back to the one after the
   * input layer, give every neuron its error factor and stage its inputs;
   * `SetWeights(null)` then makes every staged `temp` a weight. The result
   * is the mean absolute output error.
   */
  method Train(net: LayeredNet, step: real, inputs: seq<real>, desired: seq<real>, out2: array<real>, T: real -> real)
    returns (meanerror: real)
    requires net.Valid() && 2 <= |net.g.groups|
    requires net.g.input == Some(net.g.groups[0]) && net.g.output == Some(net.g.groups[|net.g.groups| - 1])
    requires |inputs| >= |net.g.layers[net.g.groups[0]]|
    requires |desired| >= |OutLayer(net.g)| && out2.Length >= |OutLayer(net.g)|
    modifies net, out2
    ensures net.Valid() && net.g.neurons == old(net.g).neurons
    ensures (net.g, net.tempdouble) == AfterTrain(old(net.g), net.data, step, ResetTd(old(net.g), old(net.tempdouble)), out2[..], desired)
    ensures var outs := OutLayer(old(net.g));
      meanerror == if |outs| == 0 then 0.0 else MeanError(desired, out2[..], |outs|)
    ensures Updated(old(net.g), inputs, net.data, old(net.tempint), net.tempint, old(out2[..]), out2[..])
    ensures ForwardPass(old(net.g), net.data, T)
  {
    Evaluate(net, inputs, out2, T);
    meanerror := Backprop(net, step, desired, out2, net.g);
  }

  /** The call `net->Update(inputbuffer, outputbuffer2)` at the start of `Train`. */
  method Evaluate(net: LayeredNet, inputs: seq<real>, out2: array<real>, T: real -> real)
    requires net.Valid() && 2 <= |net.g.groups|
    requires net.g.input == Some(net.g.groups[0]) && net.g.output == Some(net.g.groups[|net.g.groups| - 1])
    requires |inputs| >= |net.g.layers[net.g.groups[0]]| && out2.Length >= |OutLayer(net.g)|
    modifies net, out2
    ensures net.Valid() && net.g == old(net.g)
    ensures net.tempdouble == ResetTd(net.g, old(net.tempdouble))
    ensures Updated(net.g, inputs, net.data, old(net.tempint), net.tempint, old(out2[..]), out2[..])
    ensures ForwardPass(net.g, net.data, T)
  {
    ghost var G, td0, ti0, before := net.g, net.tempdouble, net.tempint, out2[..];
    GraphWired(G);
    LayersOkIn(G);
    var ok := net.Update(inputs, out2, T);
    UpdatedIntro(G, inputs, net.data, td0, net.tempdouble, ti0, net.tempint, ok, before, out2[..]);
  }

  /**
   * What `NeuralNet::Update` leaves that `Train` does not change: the
   * input neurons hold the inputs; when every output neuron has a value
   * other than 0 the outputs are in the output buffer, otherwise the buffer
   * is as it was; the net's neurons have `TempInt` 0.
   */
  ghost predicate Updated(G: Graph, inputs: seq<real>, data: seq<Eval>, ti0: seq<int>, ti: seq<int>, before: seq<real>, after: seq<real>)
    requires GraphOk(G) && 0 < |G.groups|
  {
    LayersOkIn(G);
    var ins := G.layers[G.groups[0]];
    var outs := OutLayer(G);
    |data| == |G.neurons| && |ti0| == |ti| == |G.neurons| && |before| == |after| &&
    (forall m | 0 <= m < |ti| :: ti[m] == if InNet(G, m) then 0 else ti0[m]) &&
    (|ins| <= |inputs| ==> forall i | 0 <= i < |ins| :: data[ins[i]] == Val(inputs[i])) &&
    if forall n | n in outs :: data[n].Val? && data[n].v != 0.0
    then |outs| <= |after| && (forall j | 0 <= j < |outs| :: after[j] == Num(data[outs[j]])) && after[|outs|..] == before[|outs|..]
    else after == before
  }

  lemma UpdatedIntro(G: Graph, inputs: seq<real>, data: seq<Eval>, td0: seq<real>, td: seq<real>, ti0: seq<int>, ti: seq<int>,
                     ok: bool, before: seq<real>, after: seq<real>)
    requires GraphOk(G) && IndicesIn(G) && 2 <= |G.groups| && G.input == Some(G.groups[0]) && G.output == Some(G.groups[|G.groups| - 1])
    requires |data| == |G.neurons| && |td0| == |td| == |G.neurons| && |ti0| == |ti| == |G.neurons|
    requires |before| == |after| && |inputs| >= |G.layers[G.groups[0]]| && |after| >= |G.layers[G.output.value]|
    requires forall m | 0 <= m < |G.neurons| ::
      td[m] == (if InNet(G, m) then DblMin else td0[m]) &&
      ti[m] == (if InNet(G, m) then 0 else ti0[m])
    requires var outs := G.layers[G.output.value];
      (ok <==> forall n | n in outs :: data[n].Val? && data[n].v != 0.0) &&
      (ok ==> forall j | 0 <= j < |outs| :: after[j] == Num(data[outs[j]])) &&
      (ok ==> after[|outs|..] == before[|outs|..]) &&
      (!ok ==> after == before)
    requires G.input != G.output ==>
      forall i | 0 <= i < |G.layers[G.input.value]| :: data[G.layers[G.input.value][i]] == Val(inputs[i])
    ensures td == ResetTd(G, td0)
    ensures Updated(G, inputs, data, ti0, ti, before, after)
  {
    assert G.groups[0] != G.groups[|G.groups| - 1];
  }

  /**
   * In a feed-forward net, `Update` on the same inputs gives the output
   * neurons the same values and the output buffer the same contents,
   * whatever order the recursion met the neurons in.
   */
  lemma EvaluatedUnique(G: Graph, inputs: seq<real>, T: real -> real, d1: seq<Eval>, d2: seq<Eval>,
                        ti0: seq<int>, t1: seq<int>, t2: seq<int>, before: seq<real>, a1: seq<real>, a2: seq<real>)
    requires GraphOk(G) && 2 <= |G.groups| && Acyclic(G)
    requires G.input == Some(G.groups[0]) && G.output == Some(G.groups[|G.groups| - 1])
    requires |inputs| >= |G.layers[G.groups[0]]|
    requires Updated(G, inputs, d1, ti0, t1, before, a1) && ForwardPass(G, d1, T)
    requires Updated(G, inputs, d2, ti0, t2, before, a2) && ForwardPass(G, d2, T)
    ensures forall n | n in OutLayer(G) :: d1[n].Val? && d1[n] == d2[n]
    ensures a1 == a2
  {
    LayersOkIn(G);
    var ins, outs := G.layers[G.groups[0]], OutLayer(G);
    forall n | n in ins
      ensures d1[n] == d2[n]
    {
      var i := IndexOf(ins, n);
    }
    ForwardOutputs(G, d1, d2, T);
    if forall m | m in outs :: d1[m].Val? && d1[m].v != 0.0 {
      assert forall m | m in outs :: d2[m].Val? && d2[m].v != 0.0;
      assert a1 == a1[..|outs|] + a1[|outs|..] && a2 == a2[..|outs|] + a2[|outs|..];
      assert a1[..|outs|] == a2[..|outs|];
    } else {
      assert !forall m | m in outs :: d2[m].Val? && d2[m].v != 0.0;
    }
  }

  /** What `Train` does after updating the net: both loops, then `SetWeights(null)`. */
  method Backprop(net: LayeredNet, step: real, desired: seq<real>, out2: array<real>, ghost G: Graph)
    returns (meanerror: real)
    requires net.g == G && net.Valid() && 2 <= |G.groups|
    requires G.input == Some(G.groups[0]) && G.output == Some(G.groups[|G.groups| - 1])
    requires |desired| >= |OutLayer(G)| && out2.Length >= |OutLayer(G)|
    modifies net
    ensures net.Valid() && net.data == old(net.data) && net.tempint == old(net.tempint)
    ensures (net.g, net.tempdouble) == AfterTrain(G, net.data, step, old(net.tempdouble), out2[..], desired)
    ensures var outs := OutLayer(G);
      meanerror == if |outs| == 0 then 0.0 else MeanError(desired, out2[..], |outs|)
  {
    GraphShaped(G);
    LayersOkIn(G);
    ghost var P0 := Pass(Temps(G), net.tempdouble);
    WithOwnTemps(G);
    meanerror := OutputLayer(net, step, net.g.output.value, desired, out2, G, P0);
    ghost var P1 := OutputPass(G, net.data, step, P0, OutLayer(G), out2[..], desired, |OutLayer(G)|);
    HiddenLayers(net, step, G, P1);
    ghost var F := Backward(G, net.data, step, P1, 1);
    assert F == TrainPass(G, net.data, step, P0, out2[..], desired);
    Commit(net, G, F.temp);
  }

  /**
   * The graph and the `TempDouble`s `Train` leaves, from graph `G` whose
   * neurons hold `data` and `TempDouble`s `td` after the update: the
   * backward pass from the synapses' own `temp`s, then `SetWeights(null)`.
   */
  ghost function AfterTrain(G: Graph, data: seq<Eval>, step: real, td: seq<real>, a: seq<real>, d: seq<real>): (r: (Graph, seq<real>))
    requires GraphOk(G) && 2 <= |G.groups| && |data| == |G.neurons| && |td| == |G.neurons|
    requires |OutLayer(G)| <= |a| && |OutLayer(G)| <= |d|
  {
    GraphShaped(G);
    var F := TrainPass(G, data, step, Pass(Temps(G), td), a, d);
    (Committed(G, F.temp), F.td)
  }

  /** `SetWeights(null)` at the end of `Train`. */
  method Commit(net: LayeredNet, ghost G: Graph, ghost t: seq<real>)
    requires GraphOk(G) && |t| == |G.syn| && net.g == WithTemps(G, t)
    requires |net.data| == |G.neurons| && |net.tempdouble| == |G.neurons| && |net.tempint| == |G.neurons|
    modifies net
    ensures net.Valid() && net.g == Committed(G, t)
    ensures net.data == old(net.data) && net.tempdouble == old(net.tempdouble) && net.tempint == old(net.tempint)
  {
    WithTempsAt(G, t);
    ReweightOk(G, net.g);
    net.SetWeights(None, s => 0.0);
    ReweightOk(G, net.g);
    assert net.g.syn == Committed(G, t).syn;
  }
}
