/**
 * The run-time side of NeuralNet.cpp/.h: each neuron's `data`, `tempdouble`
 * and `tempint`, evaluation (`Neuron::Update`, `Group::Update`,
 * `NeuralNet::Update`), resetting, weight setting and the wiring operations
 * of `Group`, `Layer` and `NeuralNet`, as methods of one `LayeredNet` object
 * that owns the graph of its neurons.
 */
module NeuralNet {
  import opened Util
  import opened Graph
  import opened Wiring
  import Serial
  import Storage

  /**
   * A neuron's `data`. The source marks "not evaluated since the last reset"
   * with the double `NoData` (DBL_MIN) and "being evaluated" with
   * `ThisNeuron` (DBL_MAX); here they are two constructors of their own.
   */
  datatype Eval = NoData | InProgress | Val(v: real)

  function Pow2(n: nat): (r: real)
    ensures r >= 1.0
  {
    if n == 0 then 1.0 else 2.0 * Pow2(n - 1)
  }

  /** DBL_MIN, the smallest normal double, 2^-1022. */
  const DblMin: real := 1.0 / Pow2(1022)

  /** DBL_MAX, the largest double, (2 - 2^-52) * 2^1023. */
  const DblMax: real := (2.0 - 1.0 / Pow2(52)) * Pow2(1023)

  /** `NetTrainer::TrainError`: what a trainer returns when it cannot train, DBL_MAX. */
  const TrainError: real := DblMax

  /** The double a neuron's `data` holds: the sentinels read as DBL_MIN and DBL_MAX. */
  function Num(e: Eval): real
  {
    match e
    case NoData => DblMin
    case InProgress => DblMax
    case Val(v) => v
  }

  /** `Neuron::LinearTransfer`. */
  function LinearTransfer(x: real): real
  {
    x
  }

  /** `Neuron::StepTransfer`: 1 for a positive input, else 0. */
  function StepTransfer(x: real): real
  {
    if x > 0.0 then 1.0 else 0.0
  }

  /** The three weight functions of the source. */
  datatype WeightFn = ZeroWeights | OneWeights | RandomWeights

  /** The weight a weight function returns; `u` is the draw `RandomWeights` scales onto [-1, 1]. */
  function Weight(f: WeightFn, u: real): (w: real)
    ensures 0.0 <= u <= 1.0 ==> -1.0 <= w <= 1.0
  {
    match f
    case ZeroWeights => 0.0
    case OneWeights => 1.0
    case RandomWeights => GetDouble(u, -1.0, 1.0)
  }

  /**
   * How a neuron's `data` may change while neurons are being updated: an
   * evaluated neuron keeps its value and a neuron left in progress stays so;
   * only a neuron without data may change.
   */
  predicate Stable(a: Eval, b: Eval)
  {
    match a
    case NoData => true
    case InProgress => b == InProgress
    case Val(_) => b == a
  }

  /** The number of neurons without data: what every nested `Neuron::Update` call decreases. */
  function NoDataCount(d: seq<Eval>): nat
  {
    if d == [] then 0 else NoDataCount(d[..|d| - 1]) + (if d[|d| - 1].NoData? then 1 else 0)
  }

  lemma {:induction false} CountStable(d1: seq<Eval>, d2: seq<Eval>)
    requires |d1| == |d2| && forall m | 0 <= m < |d1| :: Stable(d1[m], d2[m])
    ensures NoDataCount(d2) <= NoDataCount(d1)
  {
    if d1 != [] {
      CountStable(d1[..|d1| - 1], d2[..|d2| - 1]);
    }
  }

  /** Marking neuron `n` in progress, with every other neuron stable, removes at least `n`'s own NoData. */
  lemma {:induction false} CountDrop(d1: seq<Eval>, d2: seq<Eval>, n: nat)
    requires |d1| == |d2| && n < |d1| && d2[n] == InProgress
    requires forall m | 0 <= m < |d1| && m != n :: Stable(d1[m], d2[m])
    ensures NoDataCount(d2) + (if d1[n].NoData? then 1 else 0) <= NoDataCount(d1)
  {
    var k := |d1| - 1;
    if n == k {
      CountStable(d1[..k], d2[..k]);
    } else {
      CountDrop(d1[..k], d2[..k], n);
    }
  }

  /** Composing "stable except at `n`" with "stable everywhere" is stable except at `n`. */
  lemma StableTrans(d0: seq<Eval>, d1: seq<Eval>, d2: seq<Eval>, n: nat)
    requires |d0| == |d1| == |d2|
    requires forall m | 0 <= m < |d0| && m != n :: Stable(d0[m], d1[m])
    requires forall m | 0 <= m < |d1| :: Stable(d1[m], d2[m])
    ensures forall m | 0 <= m < |d0| && m != n :: Stable(d0[m], d2[m])
  {
  }

  /** The first `i` synapses of `ins` exist, and every neuron they come from has been evaluated or is in progress. */
  ghost predicate EvaluatedTo(g: Graph, data: seq<Eval>, ins: seq<SynId>, i: nat)
    requires i <= |ins|
  {
    forall k | 0 <= k < i ::
      ins[k] < |g.syn| && (g.syn[ins[k]].src.Some? ==> g.syn[ins[k]].src.value < |data| && !data[g.syn[ins[k]].src.value].NoData?)
  }

  ghost predicate Evaluated(g: Graph, data: seq<Eval>, ins: seq<SynId>)
  {
    EvaluatedTo(g, data, ins, |ins|)
  }

  /**
   * What input synapse `s` adds to a neuron's sum, as read by
   * `Neuron::Update`: a bias reads 1, an evaluated neuron its value, and a
   * neuron left in progress by a loop returned 0.
   */
  function InputValue(g: Graph, data: seq<Eval>, s: SynId): real
    requires s < |g.syn|
  {
    match g.syn[s].src
    case None => 1.0
    case Some(m) => if m < |data| && data[m].Val? then data[m].v else 0.0
  }

  /** What one input adds to a neuron's sum: its value times the synapse's weight. */
  function Term(x: real, w: real): real
  {
    x * w
  }

  /** The sum of input value times weight over the first `i` input synapses of `ins`, in list order. */
  function SumTo(g: Graph, data: seq<Eval>, ins: seq<SynId>, i: nat): real
    requires i <= |ins| && forall k | 0 <= k < i :: ins[k] < |g.syn|
  {
    if i == 0 then 0.0
    else SumTo(g, data, ins, i - 1) + Term(InputValue(g, data, ins[i - 1]), g.syn[ins[i - 1]].weight)
  }

  /** The weighted sum over all of `ins`. */
  function WeightedSum(g: Graph, data: seq<Eval>, ins: seq<SynId>): real
    requires forall k | 0 <= k < |ins| :: ins[k] < |g.syn|
  {
    SumTo(g, data, ins, |ins|)
  }

  /** One more input read: the sum grows by its value times its weight. */
  lemma SumStep(g: Graph, data: seq<Eval>, ins: seq<SynId>, i: nat, x: real)
    requires i < |ins| && EvaluatedTo(g, data, ins, i) && ins[i] < |g.syn|
    requires g.syn[ins[i]].src.Some? ==> g.syn[ins[i]].src.value < |data| && !data[g.syn[ins[i]].src.value].NoData?
    requires x == InputValue(g, data, ins[i])
    ensures EvaluatedTo(g, data, ins, i + 1)
    ensures SumTo(g, data, ins, i + 1) == SumTo(g, data, ins, i) + Term(x, g.syn[ins[i]].weight)
  {
  }

  /** None of the first `i` synapses of `ins` comes from neuron `n`. */
  ghost predicate NotFrom(g: Graph, ins: seq<SynId>, i: nat, n: NeuronId)
    requires i <= |ins| && forall k | 0 <= k < i :: ins[k] < |g.syn|
  {
    forall k | 0 <= k < i :: g.syn[ins[k]].src != Some(n)
  }

  lemma NotFromStep(g: Graph, ins: seq<SynId>, i: nat, n: NeuronId)
    requires i < |ins| && (forall k | 0 <= k <= i :: ins[k] < |g.syn|) && NotFrom(g, ins, i, n)
    requires g.syn[ins[i]].src != Some(n)
    ensures NotFrom(g, ins, i + 1, n)
  {
  }

  /** Once the first `i` inputs are evaluated or in progress, further updates do not change their sum. */
  lemma {:induction false} SumStable(g: Graph, d1: seq<Eval>, d2: seq<Eval>, ins: seq<SynId>, i: nat)
    requires i <= |ins| && EvaluatedTo(g, d1, ins, i) && |d1| == |d2|
    requires forall m | 0 <= m < |d1| :: Stable(d1[m], d2[m])
    ensures EvaluatedTo(g, d2, ins, i) && SumTo(g, d1, ins, i) == SumTo(g, d2, ins, i)
  {
    if i > 0 {
      SumStable(g, d1, d2, ins, i - 1);
    }
  }

  /** The sum does not read the data of a neuron that is none of the sources. */
  lemma {:induction false} SumIgnores(g: Graph, d: seq<Eval>, n: nat, x: Eval, ins: seq<SynId>, i: nat)
    requires i <= |ins| && EvaluatedTo(g, d, ins, i) && n < |d| && !x.NoData?
    requires NotFrom(g, ins, i, n)
    ensures EvaluatedTo(g, d[n := x], ins, i) && SumTo(g, d[n := x], ins, i) == SumTo(g, d, ins, i)
  {
    if i > 0 {
      SumIgnores(g, d, n, x, ins, i - 1);
      assert InputValue(g, d[n := x], ins[i - 1]) == InputValue(g, d, ins[i - 1]);
    }
  }

  /** Updates that leave every neuron but `x` stable, and `x` is none of the sources: the sum keeps its value. */
  lemma {:induction false} SumKeep(g: Graph, d1: seq<Eval>, d2: seq<Eval>, x: NeuronId, ins: seq<SynId>, i: nat)
    requires i <= |ins| && EvaluatedTo(g, d1, ins, i) && |d1| == |d2| && NotFrom(g, ins, i, x)
    requires forall m | 0 <= m < |d1| && m != x :: Stable(d1[m], d2[m])
    ensures EvaluatedTo(g, d2, ins, i) && SumTo(g, d1, ins, i) == SumTo(g, d2, ins, i)
  {
    if i > 0 {
      SumKeep(g, d1, d2, x, ins, i - 1);
    }
  }

  /**
   * Neuron `n` is as `Neuron::Update` leaves it: still in progress (a loop
   * was met), or holding the transfer function of its weighted input sum
   * over evaluated inputs.
   */
  ghost predicate Settled(g: Graph, data: seq<Eval>, n: NeuronId, T: real -> real)
    requires Wired(g) && |data| == |g.neurons| && n < |g.neurons|
  {
    data[n] == InProgress ||
    (data[n].Val? && Evaluated(g, data, g.neurons[n].ins) && data[n].v == T(WeightedSum(g, data, g.neurons[n].ins)))
  }

  /** No neuron of `ns` takes input from a neuron of `ns`: a `Layer` has no connections inside it. */
  ghost predicate Unlinked(g: Graph, ns: seq<NeuronId>)
  {
    forall o, k | o in ns && o < |g.neurons| && 0 <= k < |g.neurons[o].ins| && g.neurons[o].ins[k] < |g.syn| ::
      g.syn[g.neurons[o].ins[k]].src.None? || g.syn[g.neurons[o].ins[k]].src.value !in ns
  }

  /** A settled neuron stays settled while another neuron `x`, none of its sources, is updated. */
  lemma SettledKeep(g: Graph, d1: seq<Eval>, d2: seq<Eval>, n: NeuronId, x: NeuronId, T: real -> real)
    requires Wired(g) && |d1| == |d2| == |g.neurons| && n < |g.neurons| && n != x
    requires forall m | 0 <= m < |d1| && m != x :: Stable(d1[m], d2[m])
    requires NotFrom(g, g.neurons[n].ins, |g.neurons[n].ins|, x)
    requires Settled(g, d1, n, T)
    ensures Settled(g, d2, n, T)
  {
    if d1[n].Val? {
      SumKeep(g, d1, d2, x, g.neurons[n].ins, |g.neurons[n].ins|);
    }
  }

  /** Every neuron among the first `j` of `ns` has been through an update: in progress or evaluated. */
  ghost predicate Visited(d: seq<Eval>, ns: seq<NeuronId>, j: nat)
    requires j <= |ns| && forall k | 0 <= k < |ns| :: ns[k] < |d|
  {
    forall k | 0 <= k < j :: d[ns[k]] == InProgress || d[ns[k]].Val?
  }

  /** Every neuron among the first `j` of `ns` holds a value other than 0. */
  ghost predicate NonZero(d: seq<Eval>, ns: seq<NeuronId>, j: nat)
    requires j <= |ns| && forall k | 0 <= k < |ns| :: ns[k] < |d|
  {
    forall k | 0 <= k < j :: d[ns[k]].Val? && d[ns[k]].v != 0.0
  }

  /**
   * One step of `Group::Update`: after the update of `ns[j]`, which returned
   * `r` and left the other neurons stable, the first `j + 1` neurons are
   * visited, and they all hold non-zero values exactly when the first `j`
   * did and `r` is not 0.
   */
  lemma LayerStep(d0: seq<Eval>, d1: seq<Eval>, d2: seq<Eval>, ns: seq<NeuronId>, j: nat, r: real)
    requires j < |ns| && Distinct(ns) && |d0| == |d1| == |d2| && forall k | 0 <= k < |ns| :: ns[k] < |d1|
    requires forall m | 0 <= m < |d1| && m != ns[j] :: Stable(d1[m], d2[m])
    requires (d2[ns[j]] == InProgress && r == 0.0) || d2[ns[j]] == Val(r)
    requires forall m | 0 <= m < |d0| && m !in ns[..j] :: Stable(d0[m], d1[m])
    requires Visited(d1, ns, j)
    ensures Visited(d2, ns, j + 1)
    ensures NonZero(d2, ns, j + 1) <==> NonZero(d1, ns, j) && r != 0.0
    ensures forall m | 0 <= m < |d0| && m !in ns[..j + 1] :: Stable(d0[m], d2[m])
  {
    assert ns[..j + 1] == ns[..j] + [ns[j]];
    assert forall k | 0 <= k < j :: ns[k] != ns[j];
  }

  /** In a layer without connections inside it, updating `ns[j]` keeps the neurons updated before it settled. */
  lemma SettledStep(g: Graph, d1: seq<Eval>, d2: seq<Eval>, ns: seq<NeuronId>, j: nat, T: real -> real)
    requires Wired(g) && |d1| == |d2| == |g.neurons| && j < |ns| && Distinct(ns) && forall k | 0 <= k < |ns| :: ns[k] < |g.neurons|
    requires forall m | 0 <= m < |d1| && m != ns[j] :: Stable(d1[m], d2[m])
    requires Unlinked(g, ns) && Settled(g, d2, ns[j], T)
    requires forall k | 0 <= k < j :: Settled(g, d1, ns[k], T)
    ensures forall k | 0 <= k <= j :: Settled(g, d2, ns[k], T)
  {
    forall k | 0 <= k < j
      ensures Settled(g, d2, ns[k], T)
    {
      assert ns[k] in ns && ns[j] in ns && ns[k] != ns[j];
      SettledKeep(g, d1, d2, ns[k], ns[j], T);
    }
  }

  /** At the end of `Group::Update` every neuron of the layer has been visited: the loop's facts stated per neuron. */
  lemma LayerDone(g: Graph, d0: seq<Eval>, d: seq<Eval>, ns: seq<NeuronId>, ret: bool, T: real -> real)
    requires Wired(g) && |d0| == |d| == |g.neurons| && forall k | 0 <= k < |ns| :: ns[k] < |d|
    requires forall m | 0 <= m < |d| && m !in ns[..|ns|] :: Stable(d0[m], d[m])
    requires Visited(d, ns, |ns|) && (ret <==> NonZero(d, ns, |ns|))
    requires Unlinked(g, ns) ==> forall k | 0 <= k < |ns| :: Settled(g, d, ns[k], T)
    ensures forall m | 0 <= m < |d| && m !in ns :: Stable(d0[m], d[m])
    ensures forall n | n in ns :: d[n] == InProgress || d[n].Val?
    ensures ret <==> forall n | n in ns :: d[n].Val? && d[n].v != 0.0
    ensures Unlinked(g, ns) ==> forall n | n in ns :: Settled(g, d, n, T)
  {
    assert ns[..|ns|] == ns;
    forall n | n in ns
      ensures d[n] == InProgress || d[n].Val?
      ensures Unlinked(g, ns) ==> Settled(g, d, n, T)
    {
      var k := IndexOf(ns, n);
    }
    if !ret {
      var k :| 0 <= k < |ns| && !(d[ns[k]].Val? && d[ns[k]].v != 0.0);
      assert ns[k] in ns;
    }
  }

  /**
   * One turn of `Group::Update`: what the update of `ns[j]` promises carries
   * the facts about the first `j` neurons of the layer over to the first
   * `j + 1`.
   */
  lemma LayerAdvance(G: Graph, d0: seq<Eval>, before: seq<Eval>, data: seq<Eval>, ns: seq<NeuronId>, j: nat,
                     r: real, ret: bool, ff: bool, T: real -> real)
    requires Wired(G) && |d0| == |before| == |data| == |G.neurons| && j < |ns| && Distinct(ns)
    requires forall k | 0 <= k < |ns| :: ns[k] < |d0|
    requires forall m | 0 <= m < |before| && m !in ns[..j] :: Stable(d0[m], before[m])
    requires Visited(before, ns, j) && (ret <==> NonZero(before, ns, j))
    requires Unlinked(G, ns) ==> forall k | 0 <= k < j :: Settled(G, before, ns[k], T)
    requires Unread(G, ns) ==> SettledSince(G, d0, before, T) && forall m | 0 <= m < |d0| :: d0[m].NoData? || !before[m].NoData?
    requires ff ==> NoneInProgress(G, before)
    requires ff ==> Acyclic(G) && Below(G, before, ns[j])
    requires forall m | 0 <= m < |data| && m != ns[j] :: Stable(before[m], data[m])
    requires (data[ns[j]] == InProgress && r == 0.0) ||
             (data[ns[j]] == Val(r) && Evaluated(G, data, G.neurons[ns[j]].ins) &&
              r == T(WeightedSum(G, data, G.neurons[ns[j]].ins)))
    requires NewlySettled(G, before, before[ns[j] := InProgress], data, ns[j], T)
    requires Acyclic(G) && Below(G, before, ns[j]) ==> data[ns[j]].Val? && NoneEntered(before, data, ns[j])
    ensures forall m | 0 <= m < |data| && m !in ns[..j + 1] :: Stable(d0[m], data[m])
    ensures Visited(data, ns, j + 1) && (ret && r != 0.0 <==> NonZero(data, ns, j + 1))
    ensures Unlinked(G, ns) ==> forall k | 0 <= k < j + 1 :: Settled(G, data, ns[k], T)
    ensures Unread(G, ns) ==> SettledSince(G, d0, data, T) && forall m | 0 <= m < |d0| :: d0[m].NoData? || !data[m].NoData?
    ensures ff ==> NoneInProgress(G, data)
  {
    var n := ns[j];
    NoneKept(ff, G, before, data, n);
    if Unread(G, ns) {
      assert Unread(G, [n]) by {
        assert forall x | x in [n] :: x in ns;
      }
      SinceStep(G, d0, before, data, n, T);
    }
    LayerStep(d0, before, data, ns, j, r);
    if Unlinked(G, ns) {
      assert Settled(G, data, n, T);
      SettledStep(G, before, data, ns, j, T);
    }
  }

  /** The output layer is part of the net. */
  lemma OutputsInNet(g: Graph)
    requires LayersOk(g) && g.output.Some?
    ensures g.output.value < |g.layers| && AllInNet(g, g.layers[g.output.value])
  {
    var l := g.output.value;
    forall k | 0 <= k < |g.layers[l]|
      ensures InNet(g, g.layers[l][k])
    {
      assert g.layers[l][k] in g.layers[l];
    }
  }

  /** None of the first `i` synapses of `ins` comes from a neuron that is in progress in `d`. */
  ghost predicate ClearTo(g: Graph, d: seq<Eval>, ins: seq<SynId>, i: nat)
    requires i <= |ins|
  {
    forall k | 0 <= k < i ::
      ins[k] < |g.syn| && (g.syn[ins[k]].src.Some? ==> g.syn[ins[k]].src.value < |d| && !d[g.syn[ins[k]].src.value].InProgress?)
  }

  /**
   * The neurons other than `n` that had no data in `d0` and hold a value in
   * `d` are settled in `d`, and none of their sources is in progress in `c`.
   */
  ghost predicate NewlySettled(g: Graph, d0: seq<Eval>, c: seq<Eval>, d: seq<Eval>, n: NeuronId, T: real -> real)
    requires Wired(g) && |d| == |g.neurons|
  {
    forall m: NeuronId | m < |d| && m < |d0| && m != n && d0[m].NoData? && d[m].Val? ::
      Settled(g, d, m, T) && ClearTo(g, c, g.neurons[m].ins, |g.neurons[m].ins|)
  }

  /** Every neuron that had no data in `d0` and holds a value in `d` is settled in `d`. */
  ghost predicate SettledSince(g: Graph, d0: seq<Eval>, d: seq<Eval>, T: real -> real)
    requires Wired(g) && |d| == |g.neurons|
  {
    forall m: NeuronId | m < |d| && m < |d0| && d0[m].NoData? && d[m].Val? :: Settled(g, d, m, T)
  }

  /** Every neuron of the net outside `ins` that holds a value is settled: the value is the transfer function of its inputs. */
  ghost predicate NetSettled(g: Graph, data: seq<Eval>, ins: seq<NeuronId>, T: real -> real)
  {
    Wired(g) && |data| == |g.neurons| &&
    forall m: NeuronId | InNet(g, m) && m !in ins && data[m].Val? :: Settled(g, data, m, T)
  }

  /** No neuron takes input from a neuron of `ns`. */
  ghost predicate Unread(g: Graph, ns: seq<NeuronId>)
  {
    forall o, k | 0 <= o < |g.neurons| && 0 <= k < |g.neurons[o].ins| && g.neurons[o].ins[k] < |g.syn| ::
      g.syn[g.neurons[o].ins[k]].src.None? || g.syn[g.neurons[o].ins[k]].src.value !in ns
  }

  /** The index among the net's groups of the layer holding neuron `n`. */
  ghost function GroupOf(g: Graph, n: NeuronId): nat
    requires InNet(g, n)
  {
    IndexOf(g.groups, g.neurons[n].layer.value)
  }

  /**
   * The `k`-th input of neuron `o`, when it touches the net, joins two
   * neurons of the net and comes from an earlier group.
   */
  ghost predicate ForwardInput(g: Graph, o: NeuronId, k: nat)
  {
    o < |g.neurons| && k < |g.neurons[o].ins| && g.neurons[o].ins[k] < |g.syn| && g.syn[g.neurons[o].ins[k]].src.Some? &&
    (InNet(g, o) || InNet(g, g.syn[g.neurons[o].ins[k]].src.value)) ==>
      InNet(g, o) && InNet(g, g.syn[g.neurons[o].ins[k]].src.value) &&
      GroupOf(g, g.syn[g.neurons[o].ins[k]].src.value) < GroupOf(g, o)
  }

  /**
   * A feed-forward net, the shape `ConnectGroups` gives one: every
   * connection that touches a neuron of the net joins two neurons of the net
   * and runs from an earlier group to a later one, and the output layer is
   * the last group.
   */
  ghost predicate Acyclic(g: Graph)
  {
    g.output.Some? && |g.groups| > 0 && g.groups[|g.groups| - 1] == g.output.value &&
    forall o: NeuronId, k: nat {:trigger ForwardInput(g, o, k)} :: ForwardInput(g, o, k)
  }

  /** The neurons in progress in `d`. */
  ghost function InProgressSet(d: seq<Eval>): set<NeuronId>
  {
    set m | 0 <= m < |d| && d[m].InProgress?
  }

  /** Since `d0`, no neuron other than `n` has entered progress. */
  ghost predicate NoneEntered(d0: seq<Eval>, d: seq<Eval>, n: NeuronId)
  {
    InProgressSet(d) <= InProgressSet(d0) + {n}
  }

  /** Marking `n` in progress, or giving it a value, enters nothing else into progress. */
  lemma EnteredSet(b: bool, d0: seq<Eval>, d: seq<Eval>, n: NeuronId, x: Eval)
    requires n < |d| && (b ==> NoneEntered(d0, d, n))
    ensures b ==> NoneEntered(d0, d[n := x], n)
  {
    forall m | m in InProgressSet(d[n := x]) && m != n
      ensures m in InProgressSet(d)
    {
    }
  }

  /**
   * A nested update of `m` that ends with `m` evaluated and enters nothing
   * into progress keeps what the update of `n` has entered.
   */
  lemma EnteredTrans(b: bool, d0: seq<Eval>, d1: seq<Eval>, d2: seq<Eval>, n: NeuronId, m: NeuronId)
    requires b ==> m < |d2| && d2[m].Val? && NoneEntered(d0, d1, n) && NoneEntered(d1, d2, m)
    ensures b ==> NoneEntered(d0, d2, n)
  {
    if b {
      assert m !in InProgressSet(d2);
    }
  }

  /** No neuron of the net is in progress. */
  ghost predicate NoneInProgress(g: Graph, data: seq<Eval>)
  {
    forall m | m in InProgressSet(data) :: !InNet(g, m)
  }

  /** Neuron `n` is in the net, and every neuron of the net in progress sits in a later group. */
  ghost predicate Below(g: Graph, data: seq<Eval>, n: NeuronId)
  {
    InNet(g, n) && forall m | m in InProgressSet(data) && InNet(g, m) :: GroupOf(g, m) > GroupOf(g, n)
  }

  /**
   * What the forward pass of `NeuralNet::Update` leaves in `data`: when no
   * output neuron feeds another the output neurons are settled; when no
   * neuron reads an output neuron every neuron of the net other than an
   * input that holds a value is settled; and in a feed-forward net
   * (`Acyclic`) no neuron of the net is left in progress and every output
   * neuron holds a value.
   */
  ghost predicate ForwardPass(g: Graph, data: seq<Eval>, T: real -> real)
  {
    Wired(g) && |data| == |g.neurons| && g.input.Some? && g.output.Some? &&
    g.input.value < |g.layers| && g.output.value < |g.layers| &&
    var ins, outs := g.layers[g.input.value], g.layers[g.output.value];
    (forall m: NeuronId {:trigger Settled(g, data, m, T)} | m < |g.neurons| &&
      ((Unlinked(g, outs) && m in outs) || (Unread(g, outs) && InNet(g, m) && m !in ins && data[m].Val?)) ::
      Settled(g, data, m, T)) &&
    (Acyclic(g) ==> NoneInProgress(g, data) && forall n | n in outs :: data[n].Val?)
  }

  /** In a well-formed graph, neurons without output synapses are read by no neuron: each connection sits at both ends. */
  lemma UnreadNoOuts(g: Graph, ns: seq<NeuronId>)
    requires GraphOk(g) && forall n | n in ns && n < |g.neurons| :: g.neurons[n].outs == []
    ensures Unread(g, ns)
  {
    forall o, k | 0 <= o < |g.neurons| && 0 <= k < |g.neurons[o].ins| && g.neurons[o].ins[k] < |g.syn|
      ensures g.syn[g.neurons[o].ins[k]].src.None? || g.syn[g.neurons[o].ins[k]].src.value !in ns
    {
      var s := g.neurons[o].ins[k];
      assert s in g.neurons[o].ins;
      if g.syn[s].src.Some? {
        assert g.syn[s].dst == o;
        assert s in g.neurons[g.syn[s].src.value].outs;
      }
    }
  }

  /**
   * In a feed-forward net, while neuron `n` is in progress and nothing else
   * has entered progress since its update began, a source of `n` is not in
   * progress and every neuron of the net in progress lies after it.
   */
  lemma SourceBelow(g: Graph, d0: seq<Eval>, d: seq<Eval>, n: NeuronId, k: nat)
    requires Wired(g) && |d0| == |d| == |g.neurons| && n < |g.neurons| && k < |g.neurons[n].ins|
    requires g.syn[g.neurons[n].ins[k]].src.Some? && d[n].InProgress?
    requires Acyclic(g) && Below(g, d0, n) ==> NoneEntered(d0, d, n)
    ensures var m := g.syn[g.neurons[n].ins[k]].src.value;
      Acyclic(g) && Below(g, d0, n) ==> m != n && !d[m].InProgress? && Below(g, d, m)
  {
    if Acyclic(g) {
      assert ForwardInput(g, n, k);
    }
  }

  /** Every neuron of `ns` is in the net. */
  ghost predicate AllInNet(g: Graph, ns: seq<NeuronId>)
  {
    forall k {:trigger InNet(g, ns[k])} | 0 <= k < |ns| :: InNet(g, ns[k])
  }

  /** With nothing of the net in progress, every neuron of the net is `Below`. */
  lemma NoneBelow(b: bool, g: Graph, d: seq<Eval>, ns: seq<NeuronId>, j: nat)
    requires j < |ns| && (b ==> Acyclic(g) && AllInNet(g, ns) && NoneInProgress(g, d))
    ensures b ==> Acyclic(g) && Below(g, d, ns[j])
  {
    if b {
      assert InNet(g, ns[j]);
    }
  }

  /** A layer of the net left with nothing in progress holds values only. */
  lemma LayerValues(b: bool, g: Graph, d: seq<Eval>, ns: seq<NeuronId>)
    requires forall n | n in ns :: n < |d| && (d[n] == InProgress || d[n].Val?)
    requires b ==> AllInNet(g, ns) && NoneInProgress(g, d)
    ensures b ==> forall n | n in ns :: d[n].Val?
  {
    if b {
      forall n | n in ns
        ensures d[n].Val?
      {
        var k := IndexOf(ns, n);
        assert InNet(g, ns[k]);
      }
    }
  }

  /** An update of `n` that leaves it evaluated and enters nothing into progress keeps the net clear of neurons in progress. */
  lemma NoneKept(b: bool, g: Graph, d1: seq<Eval>, d2: seq<Eval>, n: NeuronId)
    requires b ==> n < |d2| && d2[n].Val? && NoneEntered(d1, d2, n) && NoneInProgress(g, d1)
    ensures b ==> NoneInProgress(g, d2)
  {
  }

  /** In a feed-forward net no neuron reads an output neuron. */
  lemma AcyclicUnread(g: Graph)
    requires LayersOk(g) && Acyclic(g)
    ensures g.output.value < |g.layers| && Unread(g, g.layers[g.output.value])
  {
    var last := |g.groups| - 1;
    assert g.groups[last] in g.groups;
    forall m | m in g.layers[g.output.value]
      ensures InNet(g, m) && GroupOf(g, m) == last
    {
      var i := GroupOf(g, m);
      assert g.groups[i] == g.groups[last];
    }
    forall o, k | 0 <= o < |g.neurons| && 0 <= k < |g.neurons[o].ins| && g.neurons[o].ins[k] < |g.syn|
      ensures g.syn[g.neurons[o].ins[k]].src.None? || g.syn[g.neurons[o].ins[k]].src.value !in g.layers[g.output.value]
    {
      assert ForwardInput(g, o, k);
    }
  }

  /** Inputs that read the same in two stores give the same weighted sum. */
  lemma {:induction false} SumAgree(g: Graph, d1: seq<Eval>, d2: seq<Eval>, ins: seq<SynId>, i: nat)
    requires i <= |ins| && forall k | 0 <= k < i :: ins[k] < |g.syn|
    requires forall k | 0 <= k < i :: InputValue(g, d1, ins[k]) == InputValue(g, d2, ins[k])
    ensures SumTo(g, d1, ins, i) == SumTo(g, d2, ins, i)
  {
    if i > 0 {
      SumAgree(g, d1, d2, ins, i - 1);
    }
  }

  /**
   * In a feed-forward net the forward pass fixes every value from the input
   * neurons and the weights: two stores it leaves that agree on the input
   * neurons agree on every neuron of the net holding a value in both.
   */
  lemma {:induction false} ForwardUnique(g: Graph, d1: seq<Eval>, d2: seq<Eval>, T: real -> real, m: NeuronId)
    requires LayersOk(g) && Acyclic(g) && ForwardPass(g, d1, T) && ForwardPass(g, d2, T)
    requires g.input != g.output ==> forall n | n in g.layers[g.input.value] :: d1[n] == d2[n]
    requires InNet(g, m) && d1[m].Val? && d2[m].Val?
    ensures d1[m] == d2[m]
    decreases GroupOf(g, m)
  {
    if m !in g.layers[g.input.value] || g.input == g.output {
      AcyclicUnread(g);
      assert Unlinked(g, g.layers[g.output.value]);
      assert Settled(g, d1, m, T) && Settled(g, d2, m, T);
      var syns := g.neurons[m].ins;
      forall k | 0 <= k < |syns|
        ensures InputValue(g, d1, syns[k]) == InputValue(g, d2, syns[k])
      {
        assert ForwardInput(g, m, k);
        if g.syn[syns[k]].src.Some? {
          var x := g.syn[syns[k]].src.value;
          assert x !in InProgressSet(d1) && x !in InProgressSet(d2);
          ForwardUnique(g, d1, d2, T, x);
        }
      }
      SumAgree(g, d1, d2, syns, |syns|);
    }
  }

  /**
   * Hence two forward passes through a feed-forward net that start from the
   * same input values leave the same values in the output neurons.
   */
  lemma ForwardOutputs(g: Graph, d1: seq<Eval>, d2: seq<Eval>, T: real -> real)
    requires LayersOk(g) && Acyclic(g) && ForwardPass(g, d1, T) && ForwardPass(g, d2, T)
    requires g.input != g.output ==> forall n | n in g.layers[g.input.value] :: d1[n] == d2[n]
    ensures forall n | n in g.layers[g.output.value] :: d1[n].Val? && d1[n] == d2[n]
  {
    var outs := g.layers[g.output.value];
    OutputsInNet(g);
    forall n | n in outs
      ensures d1[n].Val? && d1[n] == d2[n]
    {
      assert InNet(g, outs[IndexOf(outs, n)]);
      ForwardUnique(g, d1, d2, T, n);
    }
  }

  /** One more input read that is not in progress, at a time when everything in progress in `c` still is. */
  lemma ClearStep(g: Graph, c: seq<Eval>, d: seq<Eval>, ins: seq<SynId>, i: nat)
    requires i < |ins| && ClearTo(g, c, ins, i) && ins[i] < |g.syn| && |c| == |d|
    requires forall x | 0 <= x < |c| :: Stable(c[x], d[x])
    requires g.syn[ins[i]].src.Some? ==> g.syn[ins[i]].src.value < |d| && !d[g.syn[ins[i]].src.value].InProgress?
    ensures ClearTo(g, c, ins, i + 1)
  {
  }

  /** What is clear of the neurons in progress later was clear of them before: in-progress neurons stay so. */
  lemma ClearEarlier(g: Graph, d1: seq<Eval>, d2: seq<Eval>, ins: seq<SynId>)
    requires ClearTo(g, d2, ins, |ins|) && |d1| == |d2|
    requires forall x | 0 <= x < |d1| :: Stable(d1[x], d2[x])
    ensures ClearTo(g, d1, ins, |ins|)
  {
  }

  /** A settled neuron holding a value stays settled while every neuron stays stable. */
  lemma SettledStable(g: Graph, d1: seq<Eval>, d2: seq<Eval>, m: NeuronId, T: real -> real)
    requires Wired(g) && |d1| == |d2| == |g.neurons| && m < |g.neurons| && d1[m].Val?
    requires forall x | 0 <= x < |d1| :: Stable(d1[x], d2[x])
    requires Settled(g, d1, m, T)
    ensures Settled(g, d2, m, T)
  {
    SumStable(g, d1, d2, g.neurons[m].ins, |g.neurons[m].ins|);
  }

  /**
   * The loop of `Neuron::Update` on `n` after a nested update of input
   * neuron `x`: the neurons evaluated so far stay settled, and those the
   * nested update evaluated join them.
   */
  lemma NewlyStep(g: Graph, d0: seq<Eval>, c: seq<Eval>, b: seq<Eval>, d: seq<Eval>, n: NeuronId, x: NeuronId, T: real -> real)
    requires Wired(g) && |d0| == |b| == |d| == |g.neurons| && n < |g.neurons| && x < |g.neurons|
    requires c == d0[n := InProgress] && b[n] == InProgress && b[x].NoData?
    requires forall m | 0 <= m < |d0| && m != n :: Stable(d0[m], b[m])
    requires NewlySettled(g, d0, c, b, n, T)
    requires forall m | 0 <= m < |d| && m != x :: Stable(b[m], d[m])
    requires (d[x] == InProgress) || (d[x].Val? && Evaluated(g, d, g.neurons[x].ins) && d[x].v == T(WeightedSum(g, d, g.neurons[x].ins)))
    requires d[x].Val? ==> ClearTo(g, b[x := InProgress], g.neurons[x].ins, |g.neurons[x].ins|)
    requires NewlySettled(g, b, b[x := InProgress], d, x, T)
    ensures NewlySettled(g, d0, c, d, n, T)
  {
    assert forall m | 0 <= m < |d| :: Stable(c[m], b[x := InProgress][m]);
    forall m: NeuronId | m < |d| && m != n && d0[m].NoData? && d[m].Val?
      ensures Settled(g, d, m, T) && ClearTo(g, c, g.neurons[m].ins, |g.neurons[m].ins|)
    {
      if m == x {
        ClearEarlier(g, c, b[x := InProgress], g.neurons[m].ins);
      } else if b[m].NoData? {
        ClearEarlier(g, c, b[x := InProgress], g.neurons[m].ins);
      } else {
        SettledStable(g, b, d, m, T);
      }
    }
  }

  /**
   * One nested update inside the input loop of `Neuron::Update` on `n`:
   * what the update of the input `m` promises carries the loop's facts about
   * the inputs read so far over to the store it leaves.
   */
  lemma InputAdvance(g: Graph, d0: seq<Eval>, c: seq<Eval>, b: seq<Eval>, d: seq<Eval>, n: NeuronId, m: NeuronId,
                     i: nat, sum: real, x: real, ff: bool, T: real -> real)
    requires Wired(g) && |d0| == |b| == |d| == |g.neurons| && n < |g.neurons| && m < |g.neurons| && i <= |g.neurons[n].ins|
    requires c == d0[n := InProgress] && b[n] == InProgress && b[m].NoData?
    requires forall k | 0 <= k < |d0| && k != n :: Stable(d0[k], b[k])
    requires EvaluatedTo(g, b, g.neurons[n].ins, i) && sum == SumTo(g, b, g.neurons[n].ins, i)
    requires NewlySettled(g, d0, c, b, n, T)
    requires ff ==> NoneEntered(d0, b, n) && Acyclic(g) && Below(g, b, m)
    requires forall k | 0 <= k < |d| && k != m :: Stable(b[k], d[k])
    requires (d[m] == InProgress && x == 0.0) ||
             (d[m] == Val(x) && Evaluated(g, d, g.neurons[m].ins) && x == T(WeightedSum(g, d, g.neurons[m].ins)))
    requires d[m].Val? ==> ClearTo(g, b[m := InProgress], g.neurons[m].ins, |g.neurons[m].ins|)
    requires NewlySettled(g, b, b[m := InProgress], d, m, T)
    requires Acyclic(g) && Below(g, b, m) ==> d[m].Val? && NoneEntered(b, d, m)
    ensures forall k | 0 <= k < |d| && k != n :: Stable(d0[k], d[k])
    ensures EvaluatedTo(g, d, g.neurons[n].ins, i) && sum == SumTo(g, d, g.neurons[n].ins, i)
    ensures NewlySettled(g, d0, c, d, n, T)
    ensures ff ==> NoneEntered(d0, d, n)
  {
    SumStable(g, b, d, g.neurons[n].ins, i);
    NewlyStep(g, d0, c, b, d, n, m, T);
    StableTrans(d0, b, d, n);
    EnteredTrans(ff, d0, b, d, n, m);
  }

  /** Giving `n` its value at the end of its update keeps the others settled: none of them reads `n`. */
  lemma NewlyFinal(g: Graph, d0: seq<Eval>, c: seq<Eval>, d: seq<Eval>, n: NeuronId, r: real, T: real -> real)
    requires Wired(g) && |d0| == |d| == |g.neurons| && n < |g.neurons| && c == d0[n := InProgress]
    requires NewlySettled(g, d0, c, d, n, T)
    ensures NewlySettled(g, d0, c, d[n := Val(r)], n, T)
  {
    forall m: NeuronId | m < |d| && m != n && d0[m].NoData? && d[m].Val?
      ensures Settled(g, d[n := Val(r)], m, T)
    {
      var ins := g.neurons[m].ins;
      assert ClearTo(g, c, ins, |ins|);
      assert NotFrom(g, ins, |ins|, n);
      SumIgnores(g, d, n, Val(r), ins, |ins|);
    }
  }

  /**
   * The loop of `Group::Update` after the update of `x`, a neuron no neuron
   * reads: what was settled stays settled, and what the update evaluated
   * joins it.
   */
  lemma SinceStep(g: Graph, d0: seq<Eval>, b: seq<Eval>, d: seq<Eval>, x: NeuronId, T: real -> real)
    requires Wired(g) && |d0| == |b| == |d| == |g.neurons| && x < |g.neurons|
    requires SettledSince(g, d0, b, T) && Unread(g, [x])
    requires forall m | 0 <= m < |d0| :: d0[m].NoData? || !b[m].NoData?
    requires forall m | 0 <= m < |d| && m != x :: Stable(b[m], d[m])
    requires (d[x] == InProgress) || (d[x].Val? && Evaluated(g, d, g.neurons[x].ins) && d[x].v == T(WeightedSum(g, d, g.neurons[x].ins)))
    requires NewlySettled(g, b, b[x := InProgress], d, x, T)
    ensures SettledSince(g, d0, d, T)
    ensures forall m | 0 <= m < |d0| :: d0[m].NoData? || !d[m].NoData?
  {
    forall m: NeuronId | m < |d| && d0[m].NoData? && d[m].Val?
      ensures Settled(g, d, m, T)
    {
      if m != x && b[m].Val? {
        var ins := g.neurons[m].ins;
        forall k | 0 <= k < |ins|
          ensures g.syn[ins[k]].src != Some(x)
        {
        }
        SettledKeep(g, b, d, m, x, T);
      }
    }
  }

  /**
   * A synapse after `Neuron::SetWeights(weight)` has visited it: with a
   * weight function its weight is what the function returns (`u` being the
   * draw a random weight takes), without one the weight takes the staged
   * `temp` value.
   */
  function Reweighted(x: Synapse, f: Option<WeightFn>, u: real): (r: Synapse)
    ensures r.src == x.src && r.dst == x.dst && r.temp == x.temp
    ensures f.None? ==> r.weight == r.temp
    ensures f == Some(RandomWeights) && 0.0 <= u <= 1.0 ==> -1.0 <= r.weight <= 1.0
  {
    x.(weight := if f.Some? then Weight(f.value, u) else x.temp)
  }

  /** Visiting a synapse twice is visiting it once. */
  lemma ReweightedTwice(x: Synapse, f: Option<WeightFn>, u: real)
    ensures Reweighted(Reweighted(x, f, u), f, u) == Reweighted(x, f, u)
  {
  }

  /** Synapse `s` is an input of a neuron of layer `l`. */
  ghost predicate LayerInput(g: Graph, l: LayerId, s: SynId)
    requires l < |g.layers| && s < |g.syn|
  {
    g.syn[s].dst < |g.neurons| && g.syn[s].dst in g.layers[l] && s in g.neurons[g.syn[s].dst].ins
  }

  /** Synapse `s` is an input of a neuron of the net. */
  ghost predicate NetInput(g: Graph, s: SynId)
    requires s < |g.syn|
  {
    g.syn[s].dst < |g.neurons| && InNet(g, g.syn[s].dst) && s in g.neurons[g.syn[s].dst].ins
  }

  /** `s` is `s0` followed by copies of `z`: what `new Layer` does to the per-neuron state. */
  ghost predicate Padded<T>(s0: seq<T>, s: seq<T>, z: T)
  {
    |s0| <= |s| && s[..|s0|] == s0 && forall m | |s0| <= m < |s| :: s[m] == z
  }

  lemma PaddedSnoc<T>(s0: seq<T>, s: seq<T>, z: T)
    requires Padded(s0, s, z)
    ensures Padded(s0, s + [z], z)
  {
    assert (s + [z])[..|s0|] == s[..|s0|];
  }

  lemma PaddedTrans<T>(s0: seq<T>, s1: seq<T>, s2: seq<T>, z: T)
    requires Padded(s0, s1, z) && Padded(s1, s2, z)
    ensures Padded(s0, s2, z)
  {
    assert s2[..|s1|][..|s0|] == s2[..|s0|];
    forall m | |s0| <= m < |s2|
      ensures s2[m] == z
    {
      if m < |s1| {
        assert s2[..|s1|][m] == s2[m];
      }
    }
  }

  class LayeredNet {
    /** The neurons, synapses and layers of the net. */
    var g: Graph
    /** Per neuron: `data`, `tempdouble` and `tempint`. */
    var data: seq<Eval>
    var tempdouble: seq<real>
    var tempint: seq<int>

    ghost predicate Valid()
      reads this
    {
      GraphOk(g) && |data| == |g.neurons| && |tempdouble| == |g.neurons| && |tempint| == |g.neurons|
    }

    /**
     * `NeuralNet(inputcount, outputcount)`: a new input layer and a new
     * output layer, the input layer first in the list of groups. Every
     * neuron starts with data 0 and a bias of weight 0.
     */
    constructor (inputcount: int, outputcount: int)
      ensures Valid() && g == NewNet(inputcount, outputcount)
      ensures forall m | 0 <= m < |data| :: data[m] == Val(0.0) && tempdouble[m] == 0.0 && tempint[m] == 0
    {
      g := EmptyGraph();
      data := [];
      tempdouble := [];
      tempint := [];
      new;
      var input := NewLayer(inputcount);
      ghost var d := data;
      var output := NewLayer(outputcount);
      forall m | 0 <= m < |data|
        ensures data[m] == Val(0.0) && tempdouble[m] == 0.0 && tempint[m] == 0
      {
        if m < |d| {
          assert data[m] == data[..|d|][m] && tempdouble[m] == tempdouble[..|d|][m] && tempint[m] == tempint[..|d|][m];
        }
      }
      g := g.(groups := [input, output], input := Some(input), output := Some(output));
      NewNetOk(inputcount, outputcount);
    }

    /**
     * `new Layer(size)`: a new layer, numbered after the existing ones,
     * holding `size` new neurons (none when `size` is not positive), each
     * with data 0 and a bias of weight 0.
     */
    method NewLayer(size: int) returns (l: LayerId)
      requires |data| == |g.neurons| && |tempdouble| == |g.neurons| && |tempint| == |g.neurons|
      modifies this
      ensures l == |old(g).layers| && g == WithLayer(old(g), size)
      ensures |data| == |g.neurons| && |tempdouble| == |g.neurons| && |tempint| == |g.neurons|
      ensures data[..|old(data)|] == old(data) && tempdouble[..|old(data)|] == old(tempdouble) && tempint[..|old(data)|] == old(tempint)
      ensures forall m | |old(data)| <= m < |data| :: data[m] == Val(0.0) && tempdouble[m] == 0.0 && tempint[m] == 0
    {
      ghost var d0, td0, ti0 := data, tempdouble, tempint;
      l := |g.layers|;
      g := g.(layers := g.layers + [[]]);
      ghost var g1 := g;
      var count := if size < 0 then 0 else size;
      var i := 0;
      while i < count
        invariant 0 <= i <= count && g == AddNeurons(g1, l, i)
        invariant |data| == |g.neurons| && |tempdouble| == |g.neurons| && |tempint| == |g.neurons|
        invariant Padded(d0, data, Val(0.0)) && Padded(td0, tempdouble, 0.0) && Padded(ti0, tempint, 0)
      {
        var n := |g.neurons|;
        assert AddNeurons(g1, l, i + 1) == AttachToLayer(NewNeuron(g), n, l);
        g := AttachToLayer(NewNeuron(g), n, l);
        PaddedSnoc(d0, data, Val(0.0));
        PaddedSnoc(td0, tempdouble, 0.0);
        PaddedSnoc(ti0, tempint, 0);
        data := data + [Val(0.0)];
        tempdouble := tempdouble + [0.0];
        tempint := tempint + [0];
        i := i + 1;
      }
    }

    /** `NeuralNet::AddGroup`: layer `l` joins the groups just before the output layer. */
    method AddGroup(l: LayerId)
      requires Valid() && l < |g.layers|
      modifies this
      ensures Valid() && g == WithGroup(old(g), l)
      ensures data == old(data) && tempdouble == old(tempdouble) && tempint == old(tempint)
    {
      WithGroupOk(g, l);
      g := WithGroup(g, l);
    }

    /**
     * `Neuron::Update`: marks the neuron in progress, then goes through its
     * inputs in list order (`ReadInputs`); an input without data is updated
     * first, an input in progress (a loop) makes it return 0 at once,
     * leaving the neuron in progress; otherwise the neuron's data becomes the
     * transfer function of the weighted input sum, and is returned. No
     * evaluated neuron is evaluated again, and none other than `n` loses its
     * state. In a feed-forward net, when every neuron of the net in progress
     * lies after `n`, no loop is met: `n` ends evaluated and no other neuron
     * is left in progress.
     */
    method NeuronUpdate(n: NeuronId, T: real -> real) returns (r: real)
      requires Wired(g) && |data| == |g.neurons| && n < |g.neurons|
      modifies this
      ensures g == old(g) && tempdouble == old(tempdouble) && tempint == old(tempint)
      ensures |data| == |old(data)|
      ensures forall m | 0 <= m < |data| && m != n :: Stable(old(data)[m], data[m])
      ensures (data[n] == InProgress && r == 0.0) ||
              (data[n] == Val(r) && Evaluated(g, data, g.neurons[n].ins) &&
               r == T(WeightedSum(g, data, g.neurons[n].ins)))
      ensures data[n].Val? ==> ClearTo(g, old(data)[n := InProgress], g.neurons[n].ins, |g.neurons[n].ins|)
      ensures NewlySettled(g, old(data), old(data)[n := InProgress], data, n, T)
      ensures Acyclic(g) && Below(g, old(data), n) ==> data[n].Val? && NoneEntered(old(data), data, n)
      decreases NoDataCount(data) + (if data[n].NoData? then 0 else 1), 0
    {
      ghost var d0 := data;
      ghost var G := g;
      CountDrop(d0, d0[n := InProgress], n);
      EnteredSet(true, d0, d0, n, InProgress);
      data := data[n := InProgress];
      ghost var c := data;
      var sum, met := ReadInputs(n, T, d0);
      if met {
        return 0.0;
      }
      var ins := g.neurons[n].ins;
      r := T(sum);
      SumIgnores(G, data, n, Val(r), ins, |ins|);
      NewlyFinal(G, d0, c, data, n, r, T);
      EnteredSet(Acyclic(G) && Below(G, d0, n), d0, data, n, Val(r));
      data := data[n := Val(r)];
    }

    /**
     * The input loop of `Neuron::Update` on neuron `n`, which is in
     * progress: reads the inputs in list order, updating those without data,
     * and stops at once (`met`) at an input in progress; otherwise `sum` is
     * the weighted input sum. `d0` is the data before `n` was marked.
     */
    method ReadInputs(n: NeuronId, T: real -> real, ghost d0: seq<Eval>) returns (sum: real, met: bool)
      requires Wired(g) && |d0| == |g.neurons| && n < |g.neurons| && data == d0[n := InProgress]
      requires Acyclic(g) && Below(g, d0, n) ==> NoneEntered(d0, data, n)
      modifies this
      ensures g == old(g) && tempdouble == old(tempdouble) && tempint == old(tempint)
      ensures |data| == |d0| && data[n] == InProgress
      ensures forall m | 0 <= m < |data| && m != n :: Stable(d0[m], data[m])
      ensures !met ==>
        Evaluated(g, data, g.neurons[n].ins) && NotFrom(g, g.neurons[n].ins, |g.neurons[n].ins|, n) &&
        sum == WeightedSum(g, data, g.neurons[n].ins) && ClearTo(g, old(data), g.neurons[n].ins, |g.neurons[n].ins|)
      ensures NewlySettled(g, d0, old(data), data, n, T)
      ensures Acyclic(g) && Below(g, d0, n) ==> !met && NoneEntered(d0, data, n)
      decreases NoDataCount(data), 1
    {
      ghost var G := g;
      ghost var c := data;
      ghost var ff := Acyclic(G) && Below(G, d0, n);
      var ins := g.neurons[n].ins;
      sum := 0.0;
      met := false;
      var i := 0;
      while i < |ins|
        invariant 0 <= i <= |ins| && ins == G.neurons[n].ins
        invariant g == G && tempdouble == old(tempdouble) && tempint == old(tempint)
        invariant |data| == |d0| && data[n] == InProgress
        invariant forall m | 0 <= m < |data| && m != n :: Stable(d0[m], data[m])
        invariant EvaluatedTo(G, data, ins, i) && NotFrom(G, ins, i, n)
        invariant sum == SumTo(G, data, ins, i)
        invariant ClearTo(G, c, ins, i) && NewlySettled(G, d0, c, data, n, T)
        invariant ff ==> NoneEntered(d0, data, n)
      {
        var s := ins[i];
        var x: real;
        match g.syn[s].src {
          case None =>
            x := 1.0;
            ClearStep(G, c, data, ins, i);
          case Some(m) =>
            SourceBelow(G, d0, data, n, i);
            if data[m].NoData? {
              ghost var before := data;
              ClearStep(G, c, data, ins, i);
              CountStable(c, data);
              x := NeuronUpdate(m, T);
              InputAdvance(G, d0, c, before, data, n, m, i, sum, x, ff, T);
            } else if data[m].InProgress? {
              met := true;
              return;
            } else {
              ClearStep(G, c, data, ins, i);
              x := data[m].v;
            }
        }
        SumStep(G, data, ins, i, x);
        NotFromStep(G, ins, i, n);
        sum := sum + Term(x, g.syn[s].weight);
        i := i + 1;
      }
    }

    /**
     * `Group::Update` on a layer: updates every neuron of the layer in list
     * order and reports failure when any of those calls returned exactly 0.
     * Each call is made even on a neuron already evaluated through an
     * earlier one.
     */
    method LayerUpdate(l: LayerId, T: real -> real) returns (ret: bool)
      requires Wired(g) && |data| == |g.neurons| && l < |g.layers|
      requires Distinct(g.layers[l]) && forall n | n in g.layers[l] :: n < |g.neurons|
      modifies this
      ensures g == old(g) && tempdouble == old(tempdouble) && tempint == old(tempint)
      ensures |data| == |old(data)|
      ensures forall m | 0 <= m < |data| && m !in g.layers[l] :: Stable(old(data)[m], data[m])
      ensures forall n | n in g.layers[l] :: data[n] == InProgress || data[n].Val?
      ensures ret <==> forall n | n in g.layers[l] :: data[n].Val? && data[n].v != 0.0
      ensures Unlinked(g, g.layers[l]) ==> forall n | n in g.layers[l] :: Settled(g, data, n, T)
      ensures Unread(g, g.layers[l]) ==> SettledSince(g, old(data), data, T)
      ensures Acyclic(g) && AllInNet(g, g.layers[l]) && NoneInProgress(g, old(data)) ==>
        NoneInProgress(g, data) && forall n | n in g.layers[l] :: data[n].Val?
    {
      ghost var d0 := data;
      ghost var G := g;
      var ns := g.layers[l];
      ret := true;
      ghost var ff := Acyclic(G) && AllInNet(G, ns) && NoneInProgress(G, d0);
      assert forall k | 0 <= k < |ns| :: ns[k] in ns;
      var j := 0;
      while j < |ns|
        invariant 0 <= j <= |ns| && ns == G.layers[l] && forall k | 0 <= k < |ns| :: ns[k] < |d0|
        invariant g == G && tempdouble == old(tempdouble) && tempint == old(tempint)
        invariant |data| == |d0|
        invariant forall m | 0 <= m < |data| && m !in ns[..j] :: Stable(d0[m], data[m])
        invariant Visited(data, ns, j) && (ret <==> NonZero(data, ns, j))
        invariant Unlinked(G, ns) ==> forall k | 0 <= k < j :: Settled(G, data, ns[k], T)
        invariant Unread(G, ns) ==> SettledSince(G, d0, data, T) && forall m | 0 <= m < |d0| :: d0[m].NoData? || !data[m].NoData?
        invariant ff ==> NoneInProgress(G, data)
      {
        ghost var before := data;
        var n := ns[j];
        NoneBelow(ff, G, data, ns, j);
        var r := NeuronUpdate(n, T);
        LayerAdvance(G, d0, before, data, ns, j, r, ret, ff, T);
        if r == 0.0 {
          ret := false;
        }
        j := j + 1;
      }
      LayerDone(G, d0, data, ns, ret, T);
      LayerValues(ff, G, data, ns);
    }

    /** `Neuron::Reset`: no data, `tempdouble` back to NoData (DBL_MIN), `tempint` 0. */
    method ResetNeuron(n: NeuronId)
      requires n < |data| && n < |tempdouble| && n < |tempint|
      modifies this
      ensures g == old(g)
      ensures data == old(data)[n := NoData] && tempdouble == old(tempdouble)[n := DblMin] && tempint == old(tempint)[n := 0]
    {
      data := data[n := NoData];
      tempdouble := tempdouble[n := DblMin];
      tempint := tempint[n := 0];
    }

    /** `Layer::Reset`: the neurons of layer `l` are reset, and no others. */
    method LayerReset(l: LayerId)
      requires l < |g.layers| && |data| == |tempdouble| == |tempint| && forall n | n in g.layers[l] :: n < |data|
      modifies this
      ensures g == old(g) && |data| == |old(data)| && |tempdouble| == |old(tempdouble)| && |tempint| == |old(tempint)|
      ensures forall m | 0 <= m < |data| ::
        data[m] == (if m in g.layers[l] then NoData else old(data)[m]) &&
        tempdouble[m] == (if m in g.layers[l] then DblMin else old(tempdouble)[m]) &&
        tempint[m] == (if m in g.layers[l] then 0 else old(tempint)[m])
    {
      var ns := g.layers[l];
      var j := 0;
      while j < |ns|
        invariant 0 <= j <= |ns| && g == old(g) && ns == g.layers[l]
        invariant |data| == |old(data)| && |tempdouble| == |old(tempdouble)| && |tempint| == |old(tempint)|
        invariant forall m | 0 <= m < |data| ::
          data[m] == (if m in ns[..j] then NoData else old(data)[m]) &&
          tempdouble[m] == (if m in ns[..j] then DblMin else old(tempdouble)[m]) &&
          tempint[m] == (if m in ns[..j] then 0 else old(tempint)[m])
      {
        assert ns[j] in ns;
        assert ns[..j + 1] == ns[..j] + [ns[j]];
        ResetNeuron(ns[j]);
        j := j + 1;
      }
      assert ns[..j] == ns;
    }

    /** `NeuralNet::Reset`: resets its layers one by one, so exactly the neurons of the net are reset. */
    method Reset()
      requires LayersOk(g) && |data| == |g.neurons| && |tempdouble| == |g.neurons| && |tempint| == |g.neurons|
      modifies this
      ensures g == old(g) && |data| == |old(data)| && |tempdouble| == |old(tempdouble)| && |tempint| == |old(tempint)|
      ensures forall m | 0 <= m < |data| ::
        data[m] == (if InNet(g, m) then NoData else old(data)[m]) &&
        tempdouble[m] == (if InNet(g, m) then DblMin else old(tempdouble)[m]) &&
        tempint[m] == (if InNet(g, m) then 0 else old(tempint)[m])
    {
      ghost var G := g;
      var i := 0;
      while i < |g.groups|
        invariant 0 <= i <= |G.groups| && g == G
        invariant |data| == |G.neurons| && |tempdouble| == |G.neurons| && |tempint| == |G.neurons|
        invariant forall m | 0 <= m < |data| ::
          data[m] == (if InFirstGroups(G, m, i) then NoData else old(data)[m]) &&
          tempdouble[m] == (if InFirstGroups(G, m, i) then DblMin else old(tempdouble)[m]) &&
          tempint[m] == (if InFirstGroups(G, m, i) then 0 else old(tempint)[m])
      {
        InFirstGroupsStep(G, i);
        LayerReset(g.groups[i]);
        i := i + 1;
      }
      InAllGroups(G);
    }

    /**
     * `NeuralNet::Update`: resets the net, gives the input neurons the
     * values of `inputbuffer` in list order, updates the output layer and,
     * only when that succeeds, copies the output neurons' data into
     * `outputbuffer` in list order. The neuron values it leaves are those
     * of the forward pass (`ForwardPass`).
     */
    method Update(inputbuffer: seq<real>, outputbuffer: array<real>, T: real -> real) returns (ok: bool)
      requires LayersOk(g) && Wired(g) && g.input.Some? && g.output.Some?
      requires |data| == |g.neurons| && |tempdouble| == |g.neurons| && |tempint| == |g.neurons|
      requires |inputbuffer| >= |g.layers[g.input.value]| && outputbuffer.Length >= |g.layers[g.output.value]|
      modifies this, outputbuffer
      ensures g == old(g) && |data| == |g.neurons| && |tempdouble| == |g.neurons| && |tempint| == |g.neurons|
      ensures forall m | 0 <= m < |g.neurons| ::
        tempdouble[m] == (if InNet(g, m) then DblMin else old(tempdouble)[m]) &&
        tempint[m] == (if InNet(g, m) then 0 else old(tempint)[m])
      ensures var outs := g.layers[g.output.value];
        (ok <==> forall n | n in outs :: data[n].Val? && data[n].v != 0.0) &&
        (ok ==> forall j | 0 <= j < |outs| :: outputbuffer[j] == Num(data[outs[j]])) &&
        (ok ==> outputbuffer[|outs|..] == old(outputbuffer[|outs|..])) &&
        (!ok ==> outputbuffer[..] == old(outputbuffer[..]))
      ensures g.input != g.output ==>
        forall i | 0 <= i < |g.layers[g.input.value]| :: data[g.layers[g.input.value][i]] == Val(inputbuffer[i])
      ensures ForwardPass(g, data, T)
    {
      Reset();
      SetInputs(g.input.value, inputbuffer);
      ghost var d1 := data;
      ghost var ff := Acyclic(g);
      if ff {
        OutputsInNet(g);
        forall m | m in InProgressSet(d1)
          ensures !InNet(g, m)
        {
        }
      }
      ok := LayerUpdate(g.output.value, T);
      forall m: NeuronId | InNet(g, m) && m !in g.layers[g.input.value]
        ensures d1[m].NoData?
      {
      }
      if g.input != g.output {
        forall i | 0 <= i < |g.layers[g.input.value]|
          ensures data[g.layers[g.input.value][i]] == Val(inputbuffer[i])
        {
          var n := g.layers[g.input.value][i];
          assert n in g.layers[g.input.value];
          assert n !in g.layers[g.output.value];
        }
      }
      if ok {
        CopyOutputs(g.output.value, outputbuffer);
      }
    }

    /** The input loop of `NeuralNet::Update`: the `k`-th neuron of layer `l` gets the `k`-th value of `inputbuffer`. */
    method SetInputs(l: LayerId, inputbuffer: seq<real>)
      requires l < |g.layers| && Distinct(g.layers[l]) && |inputbuffer| >= |g.layers[l]|
      requires forall k | 0 <= k < |g.layers[l]| :: g.layers[l][k] < |data|
      modifies this
      ensures g == old(g) && tempdouble == old(tempdouble) && tempint == old(tempint) && |data| == |old(data)|
      ensures forall k | 0 <= k < |g.layers[l]| :: data[g.layers[l][k]] == Val(inputbuffer[k])
      ensures forall m | 0 <= m < |data| && m !in g.layers[l] :: data[m] == old(data)[m]
    {
      var ns := g.layers[l];
      var i := 0;
      while i < |ns|
        invariant 0 <= i <= |ns| && g == old(g) && ns == g.layers[l] && |data| == |old(data)|
        invariant tempdouble == old(tempdouble) && tempint == old(tempint)
        invariant forall k | 0 <= k < i :: data[ns[k]] == Val(inputbuffer[k])
        invariant forall m | 0 <= m < |data| && m !in ns[..i] :: data[m] == old(data)[m]
      {
        assert ns[..i + 1] == ns[..i] + [ns[i]];
        assert forall k | 0 <= k < i :: ns[k] != ns[i];
        data := data[ns[i] := Val(inputbuffer[i])];
        i := i + 1;
      }
      assert ns[..i] == ns;
    }

    /** The output loop of `NeuralNet::Update`: the data of the `k`-th neuron of layer `l` goes to `outputbuffer[k]`. */
    method CopyOutputs(l: LayerId, outputbuffer: array<real>)
      requires l < |g.layers| && outputbuffer.Length >= |g.layers[l]|
      requires forall k | 0 <= k < |g.layers[l]| :: g.layers[l][k] < |data|
      modifies outputbuffer
      ensures forall k | 0 <= k < |g.layers[l]| :: outputbuffer[k] == Num(data[g.layers[l][k]])
      ensures outputbuffer[|g.layers[l]|..] == old(outputbuffer[|g.layers[l]|..])
    {
      var ns := g.layers[l];
      var j := 0;
      while j < |ns|
        invariant 0 <= j <= |ns|
        invariant forall k | 0 <= k < j :: outputbuffer[k] == Num(data[ns[k]])
        invariant outputbuffer[j..] == old(outputbuffer[j..])
      {
        outputbuffer[j] := Num(data[ns[j]]);
        j := j + 1;
      }
    }

    /**
     * `Neuron::SetWeights(weight)`: every input synapse of neuron `n` gets a
     * new weight, from the weight function when there is one and otherwise
     * from its staged `temp`; no other synapse and nothing else changes.
     */
    method NeuronSetWeights(n: NeuronId, f: Option<WeightFn>, u: SynId -> real)
      requires n < |g.neurons| && forall t | t in g.neurons[n].ins :: t < |g.syn|
      modifies this
      ensures data == old(data) && tempdouble == old(tempdouble) && tempint == old(tempint)
      ensures g == old(g).(syn := g.syn) && |g.syn| == |old(g).syn|
      ensures forall s | 0 <= s < |g.syn| ::
        g.syn[s] == if s in old(g).neurons[n].ins then Reweighted(old(g).syn[s], f, u(s)) else old(g).syn[s]
    {
      var ins := g.neurons[n].ins;
      var k := 0;
      while k < |ins|
        invariant 0 <= k <= |ins| && data == old(data) && tempdouble == old(tempdouble) && tempint == old(tempint)
        invariant g == old(g).(syn := g.syn) && |g.syn| == |old(g).syn|
        invariant forall s | 0 <= s < |g.syn| ::
          g.syn[s] == if s in ins[..k] then Reweighted(old(g).syn[s], f, u(s)) else old(g).syn[s]
      {
        assert ins[k] in ins;
        assert ins[..k + 1] == ins[..k] + [ins[k]];
        var s := ins[k];
        ReweightedTwice(old(g).syn[s], f, u(s));
        g := g.(syn := g.syn[s := Reweighted(g.syn[s], f, u(s))]);
        k := k + 1;
      }
      assert ins[..k] == ins;
    }

    /** `Layer::SetWeights(weight)`: the inputs of the neurons of layer `l` get new weights, and no other synapse. */
    method LayerSetWeights(l: LayerId, f: Option<WeightFn>, u: SynId -> real)
      requires InsOk(g) && LayersIn(g) && l < |g.layers|
      modifies this
      ensures data == old(data) && tempdouble == old(tempdouble) && tempint == old(tempint)
      ensures g == old(g).(syn := g.syn) && |g.syn| == |old(g).syn|
      ensures forall s | 0 <= s < |g.syn| ::
        g.syn[s] == if LayerInput(old(g), l, s) then Reweighted(old(g).syn[s], f, u(s)) else old(g).syn[s]
    {
      ghost var G := g;
      var ns := g.layers[l];
      var j := 0;
      while j < |ns|
        invariant 0 <= j <= |ns| && data == old(data) && tempdouble == old(tempdouble) && tempint == old(tempint)
        invariant g == G.(syn := g.syn) && |g.syn| == |G.syn|
        invariant forall s | 0 <= s < |g.syn| ::
          g.syn[s] == if G.syn[s].dst in ns[..j] && s in G.neurons[G.syn[s].dst].ins then Reweighted(G.syn[s], f, u(s)) else G.syn[s]
      {
        assert ns[..j + 1] == ns[..j] + [ns[j]];
        var n := ns[j];
        NeuronSetWeights(n, f, u);
        forall s | 0 <= s < |g.syn|
          ensures g.syn[s] == if G.syn[s].dst in ns[..j + 1] && s in G.neurons[G.syn[s].dst].ins then Reweighted(G.syn[s], f, u(s)) else G.syn[s]
        {
          ReweightedTwice(G.syn[s], f, u(s));
        }
        j := j + 1;
      }
      assert ns[..j] == ns;
    }

    /** `NeuralNet::SetWeights(weight)`: the inputs of the neurons of the net get new weights, and no other synapse. */
    method SetWeights(f: Option<WeightFn>, u: SynId -> real)
      requires InsOk(g) && LayersOk(g)
      modifies this
      ensures data == old(data) && tempdouble == old(tempdouble) && tempint == old(tempint)
      ensures g == old(g).(syn := g.syn) && |g.syn| == |old(g).syn|
      ensures forall s | 0 <= s < |g.syn| ::
        g.syn[s] == if NetInput(old(g), s) then Reweighted(old(g).syn[s], f, u(s)) else old(g).syn[s]
    {
      ghost var G := g;
      var i := 0;
      while i < |g.groups|
        invariant 0 <= i <= |G.groups| && data == old(data) && tempdouble == old(tempdouble) && tempint == old(tempint)
        invariant g == G.(syn := g.syn) && |g.syn| == |G.syn| && InsOk(g) && LayersOk(g)
        invariant forall s | 0 <= s < |g.syn| ::
          g.syn[s] == if G.syn[s].dst < |G.neurons| && InFirstGroups(G, G.syn[s].dst, i) && s in G.neurons[G.syn[s].dst].ins
                      then Reweighted(G.syn[s], f, u(s)) else G.syn[s]
      {
        InFirstGroupsStep(G, i);
        LayersOkIn(g);
        LayerSetWeights(g.groups[i], f, u);
        i := i + 1;
      }
      InAllGroups(G);
    }

    /** `Group::Connect(group)` on layers: every neuron of layer `la`, in order, gets an output to every neuron of layer `lb`, in order. */
    method Connect(la: LayerId, lb: LayerId)
      requires LayersIn(g) && la < |g.layers| && lb < |g.layers|
      modifies this
      ensures data == old(data) && tempdouble == old(tempdouble) && tempint == old(tempint)
      ensures var ps := Cross(old(g).layers[la], old(g).layers[lb]);
              LinksIn(old(g), ps) && g == AddOutputs(old(g), ps)
    {
      ghost var g0 := g;
      var xs := g.layers[la];
      var ys := g.layers[lb];
      var i := 0;
      while i < |xs|
        invariant 0 <= i <= |xs| && data == old(data) && tempdouble == old(tempdouble) && tempint == old(tempint)
        invariant LinksIn(g0, Cross(xs[..i], ys)) && g == AddOutputs(g0, Cross(xs[..i], ys))
      {
        RowStart(Cross(xs[..i], ys), xs[i], ys);
        var j := 0;
        while j < |ys|
          invariant 0 <= j <= |ys| && data == old(data) && tempdouble == old(tempdouble) && tempint == old(tempint)
          invariant LinksIn(g0, Cross(xs[..i], ys) + Row(xs[i], ys[..j]))
          invariant g == AddOutputs(g0, Cross(xs[..i], ys) + Row(xs[i], ys[..j]))
        {
          RowNext(Cross(xs[..i], ys), xs[i], ys, j);
          AddOutputsNext(g0, Cross(xs[..i], ys) + Row(xs[i], ys[..j]), xs[i], ys[j]);
          g := AddOutput(g, xs[i], ys[j], 0.0);
          j := j + 1;
        }
        CrossRowDone(xs, ys, i);
        i := i + 1;
      }
      assert xs[..i] == xs;
    }

    /** `Group::ConnectParallel(group)` on layers: the `k`-th neuron of `la` gets an output to the `k`-th of `lb`, while both have one. */
    method ConnectParallel(la: LayerId, lb: LayerId)
      requires LayersIn(g) && la < |g.layers| && lb < |g.layers|
      modifies this
      ensures data == old(data) && tempdouble == old(tempdouble) && tempint == old(tempint)
      ensures var ps := Zip(old(g).layers[la], old(g).layers[lb]);
              LinksIn(old(g), ps) && g == AddOutputs(old(g), ps)
    {
      ghost var g0 := g;
      var xs := g.layers[la];
      var ys := g.layers[lb];
      ghost var zs := Zip(xs, ys);
      var k := 0;
      while k < |xs| && k < |ys|
        invariant 0 <= k <= |zs| && data == old(data) && tempdouble == old(tempdouble) && tempint == old(tempint)
        invariant LinksIn(g0, zs[..k]) && g == AddOutputs(g0, zs[..k])
      {
        TakeSnoc(zs, k);
        assert zs[k] == (xs[k], ys[k]);
        assert xs[k] < |g0.neurons| && ys[k] < |g0.neurons|;
        AddOutputsNext(g0, zs[..k], xs[k], ys[k]);
        g := AddOutput(g, xs[k], ys[k], 0.0);
        k := k + 1;
      }
      assert zs[..k] == zs;
    }

    /** `Group::Connect(neuron)` on a layer: every neuron of layer `la`, in order, gets an output to neuron `n`. */
    method ConnectNeuron(la: LayerId, n: NeuronId)
      requires LayersIn(g) && la < |g.layers| && n < |g.neurons|
      modifies this
      ensures data == old(data) && tempdouble == old(tempdouble) && tempint == old(tempint)
      ensures var ps := Cross(old(g).layers[la], [n]);
              LinksIn(old(g), ps) && g == AddOutputs(old(g), ps)
    {
      ghost var g0 := g;
      var xs := g.layers[la];
      var i := 0;
      while i < |xs|
        invariant 0 <= i <= |xs| && data == old(data) && tempdouble == old(tempdouble) && tempint == old(tempint)
        invariant LinksIn(g0, Cross(xs[..i], [n])) && g == AddOutputs(g0, Cross(xs[..i], [n]))
      {
        RowStart(Cross(xs[..i], [n]), xs[i], [n]);
        RowNext(Cross(xs[..i], [n]), xs[i], [n], 0);
        CrossRowDone(xs, [n], i);
        AddOutputsNext(g0, Cross(xs[..i], [n]), xs[i], n);
        g := AddOutput(g, xs[i], n, 0.0);
        i := i + 1;
      }
      assert xs[..i] == xs;
    }

    /** `NeuralNet::ConnectGroups`: each group that has a next one is connected to it, in group order. */
    method ConnectGroups()
      requires LayersIn(g) && GroupsIn(g)
      modifies this
      ensures data == old(data) && tempdouble == old(tempdouble) && tempint == old(tempint)
      ensures var ps := Chain(GroupLayers(old(g)));
              LinksIn(old(g), ps) && g == AddOutputs(old(g), ps)
    {
      ghost var g0 := g;
      ghost var ls := GroupLayers(g0);
      var k := 0;
      while k < |g.groups|
        invariant 0 <= k <= |ls| && data == old(data) && tempdouble == old(tempdouble) && tempint == old(tempint)
        invariant g.groups == g0.groups && g.layers == g0.layers && |g.neurons| == |g0.neurons|
        invariant var ps := Chain(ls[..if k + 1 < |ls| then k + 1 else |ls|]);
                  LinksIn(g0, ps) && g == AddOutputs(g0, ps)
      {
        if k + 1 < |g.groups| {
          ghost var h := g;
          Connect(g.groups[k], g.groups[k + 1]);
          AddOutputsShape(h, Cross(ls[k], ls[k + 1]));
          ChainStep(g0, ls, k, h);
        }
        k := k + 1;
      }
      assert ls[..|ls|] == ls;
    }
  
    /**
     * The records `Save` writes for neuron `n`: its input count, then for
     * each input, in list order, the group index and neuron index of its
     * source (-1, -1 for a bias) and its weight.
     */
    method SaveNeuron(n: NeuronId) returns (toks: seq<Serial.Token>)
      requires Storage.Savable(g, tempint) && InNet(g, n)
      ensures toks == Serial.NeuronTokens(Storage.SavedNeuron(g, tempint, n))
    {
      var ins := g.neurons[n].ins;
      ghost var es := Storage.SavedNeuron(g, tempint, n);
      toks := [Serial.I32(|ins|)];
      var k := 0;
      while k < |ins|
        invariant 0 <= k <= |ins| && toks == [Serial.I32(|ins|)] + Serial.EntriesTokens(es[..k])
      {
        var t := ins[k];
        Storage.SavedInput(g, tempint, n, t);
        var gi, ni;
        match g.syn[t].src {
          case None =>
            gi, ni := -1, -1;
          case Some(m) =>
            gi := tempint[m];
            ni := GetIndex(g.layers[g.groups[gi]], m);
        }
        Serial.EntriesSnoc(es[..k], es[k]);
        assert es[..k + 1] == es[..k] + [es[k]];
        toks := toks + [Serial.I32(gi), Serial.I32(ni), Serial.F64(g.syn[t].weight)];
        k := k + 1;
      }
      assert es[..k] == es;
    }

    /** The records `Save` writes for the group `l`: its neuron count, then each neuron's records. */
    method SaveLayer(l: LayerId) returns (toks: seq<Serial.Token>)
      requires Storage.Savable(g, tempint) && l in g.groups
      ensures toks == Serial.LayerTokens(Storage.SavedLayer(g, tempint, l))
    {
      var ns := g.layers[l];
      ghost var li := Storage.SavedLayer(g, tempint, l);
      toks := [Serial.I32(|ns|)];
      var j := 0;
      while j < |ns|
        invariant 0 <= j <= |ns| && toks == [Serial.I32(|ns|)] + Serial.NeuronsTokens(li[..j])
      {
        assert ns[j] in ns;
        var nt := SaveNeuron(ns[j]);
        Serial.NeuronsSnoc(li[..j], li[j]);
        assert li[..j + 1] == li[..j] + [li[j]];
        toks := toks + nt;
        j := j + 1;
      }
      assert li[..j] == li;
    }

    /** The first loop of `LayeredNet::Save`: each neuron of group `i` gets `TempInt` `i`. */
    method TagGroups()
      requires Valid()
      modifies this
      ensures Valid() && g == old(g) && data == old(data) && tempdouble == old(tempdouble)
      ensures tempint == Storage.Tagged(g, old(tempint), |g.groups|)
    {
      LayersOkIn(g);
      var i := 0;
      while i < |g.groups|
        invariant g == old(g) && data == old(data) && tempdouble == old(tempdouble) && Valid() && LayersIn(g)
        invariant 0 <= i <= |g.groups| && tempint == Storage.Tagged(g, old(tempint), i)
      {
        var ns := g.layers[g.groups[i]];
        ghost var T := tempint;
        Storage.TagNone(T, i);
        var j := 0;
        while j < |ns|
          invariant g == old(g) && data == old(data) && tempdouble == old(tempdouble) && |tempint| == |T|
          invariant 0 <= j <= |ns| && tempint == Storage.TagLayer(T, ns[..j], i)
        {
          Storage.TagStep(T, ns, j, i);
          tempint := tempint[ns[j] := i];
          j := j + 1;
        }
        assert ns[..j] == ns;
        i := i + 1;
      }
    }

    /** The writing part of `LayeredNet::Save`: the group count, then the records of each group. */
    method SaveGroups() returns (toks: seq<Serial.Token>)
      requires Storage.Savable(g, tempint)
      ensures toks == Serial.Encode(Storage.Image(g, tempint))
    {
      ghost var img := Storage.Image(g, tempint);
      toks := [Serial.I32(|g.groups|)];
      var i := 0;
      while i < |g.groups|
        invariant 0 <= i <= |g.groups| && toks == [Serial.I32(|g.groups|)] + Serial.LayersTokens(img[..i])
      {
        var l := g.groups[i];
        assert l in g.groups;
        var lt := SaveLayer(l);
        assert lt == Serial.LayerTokens(img[i]);
        Serial.EncodePrefix(img, i);
        toks := toks + lt;
        i := i + 1;
      }
      assert img[..i] == img;
    }

    /**
     * `LayeredNet::Save`, writing to a token stream: each neuron of group
     * `i` gets `TempInt` `i`, then the group count and the records of each
     * group are written. The source needs every input's source to carry
     * the index of a group in its `TempInt` once the groups are tagged.
     */
    method Save() returns (toks: seq<Serial.Token>)
      requires Valid() && Storage.Savable(g, Storage.Tagged(g, tempint, |g.groups|))
      modifies this
      ensures Valid() && g == old(g) && data == old(data) && tempdouble == old(tempdouble)
      ensures tempint == Storage.Tagged(g, old(tempint), |g.groups|)
      ensures toks == Serial.Encode(Storage.Image(g, tempint))
    {
      TagGroups();
      toks := SaveGroups();
    }
  
    /**
     * The records of one neuron read by `LayeredNet::Load`, in order: -1
     * sets the bias (`SetBias`); otherwise the neuron found by `GetNeuron`
     * becomes a new input (`AddInput`), and a record naming none is
     * dropped.
     */
    method LoadNeuron(n: NeuronId, es: seq<Serial.Entry>)
      requires Storage.Loadable(g) && n < |g.neurons|
      modifies this
      ensures g == Storage.LoadEntries(old(g), n, es)
      ensures data == old(data) && tempdouble == old(tempdouble) && tempint == old(tempint)
    {
      var k := 0;
      while k < |es|
        invariant 0 <= k <= |es| && g == Storage.LoadEntries(old(g), n, es[..k])
        invariant data == old(data) && tempdouble == old(tempdouble) && tempint == old(tempint)
      {
        var e := es[k];
        assert es[..k + 1][..k] == es[..k];
        if e.gi == -1 {
          g := SetBias(g, n, e.w);
        } else {
          var m := GetNeuron(g, e.gi, e.ni);
          if m.Some? {
            assert m.value in g.layers[g.groups[e.gi]];
            g := AddInput(g, n, m.value, e.w);
          }
        }
        k := k + 1;
      }
      assert es[..k] == es;
    }

    /**
     * One layer read by `LayeredNet::Load`: `new Layer(layersize)` is
     * appended to the groups, then neuron `j` of it reads the `j`-th
     * records.
     */
    method LoadLayer(li: Serial.LayerImage)
      requires Storage.Loadable(g) && |data| == |g.neurons| && |tempdouble| == |g.neurons| && |tempint| == |g.neurons|
      modifies this
      ensures g == Storage.LoadLayer(old(g), li)
      ensures |data| == |g.neurons| && |tempdouble| == |g.neurons| && |tempint| == |g.neurons|
      ensures Padded(old(data), data, Val(0.0)) && Padded(old(tempdouble), tempdouble, 0.0) && Padded(old(tempint), tempint, 0)
    {
      Storage.WithLayerLoadable(g, |li|);
      WithLayerLayers(g, |li|);
      var l := NewLayer(|li|);
      g := g.(groups := g.groups + [l]);
      ghost var h := g;
      ghost var d1, td1, ti1 := data, tempdouble, tempint;
      var j := 0;
      while j < |li|
        invariant 0 <= j <= |li| && Storage.Loadable(h) && l < |h.layers| && |h.layers[l]| == |li|
        invariant g == Storage.LoadNeurons(h, l, li[..j])
        invariant data == d1 && tempdouble == td1 && tempint == ti1
      {
        assert li[..j + 1][..j] == li[..j];
        LoadNeuron(g.layers[l][j], li[j]);
        j := j + 1;
      }
      assert li[..j] == li;
    }

    /** The loop of `LayeredNet::Load` over the layer records: each becomes a new layer and group. */
    method LoadLayers(img: seq<Serial.LayerImage>)
      requires Storage.Loadable(g) && |data| == |g.neurons| && |tempdouble| == |g.neurons| && |tempint| == |g.neurons|
      modifies this
      ensures g == Storage.LoadLayers(old(g), img)
      ensures |data| == |g.neurons| && |tempdouble| == |g.neurons| && |tempint| == |g.neurons|
      ensures Padded(old(data), data, Val(0.0)) && Padded(old(tempdouble), tempdouble, 0.0) && Padded(old(tempint), tempint, 0)
    {
      ghost var h := g;
      var i := 0;
      while i < |img|
        invariant 0 <= i <= |img| && Storage.Loadable(h) && g == Storage.LoadLayers(h, img[..i])
        invariant |data| == |g.neurons| && |tempdouble| == |g.neurons| && |tempint| == |g.neurons|
        invariant Padded(old(data), data, Val(0.0)) && Padded(old(tempdouble), tempdouble, 0.0) && Padded(old(tempint), tempint, 0)
      {
        assert img[..i + 1][..i] == img[..i];
        ghost var d, td, ti := data, tempdouble, tempint;
        LoadLayer(img[i]);
        PaddedTrans(old(data), d, data, Val(0.0));
        PaddedTrans(old(tempdouble), td, tempdouble, 0.0);
        PaddedTrans(old(tempint), ti, tempint, 0);
        i := i + 1;
      }
      assert img[..i] == img;
    }

    /**
     * `LayeredNet::Load`, reading a token stream: the groups are emptied
     * and the input and output layers cleared, each layer read is
     * appended, and then the first group becomes the input layer and the
     * last the output layer. A stream that does not hold a whole net is
     * rejected and nothing changes.
     */
    method Load(toks: seq<Serial.Token>) returns (ok: bool)
      requires Valid()
      modifies this
      ensures Storage.Loadable(old(g))
      ensures ok == Serial.Decode(toks).Some?
      ensures !ok ==> g == old(g) && data == old(data) && tempdouble == old(tempdouble) && tempint == old(tempint)
      ensures ok ==> Valid() && g == Storage.LoadNet(old(g), Serial.Decode(toks).value)
      ensures ok ==> Padded(old(data), data, Val(0.0)) && Padded(old(tempdouble), tempdouble, 0.0) && Padded(old(tempint), tempint, 0)
    {
      Storage.GraphLoadable(g);
      var img := Serial.Decode(toks);
      if img.None? {
        return false;
      }
      ok := true;
      g := g.(groups := [], input := None, output := None);
      LoadLayers(img.value);
      if g.groups != [] {
        g := g.(input := Some(g.groups[0]), output := Some(g.groups[|g.groups| - 1]));
      }
      Storage.LoadNetOk(old(g), img.value);
    }
  }
}
