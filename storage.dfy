/**
 * `LayeredNet::Save` and `LayeredNet::Load` (NeuralNet.cpp) on the graph:
 * what `Save` writes for a net, what `Load` builds from the records it reads,
 * and what a net looks like after being saved and loaded back.
 *
 * A net is compared with the one loaded from it through its view: per group,
 * per neuron of that layer, the records of its inputs in list order, naming
 * each connection's source by its `Position` (index of its layer among the
 * groups, index in that layer) and the bias by -1, -1.
 */
module Storage {
  import opened Util
  import opened Graph
  import opened Serial

  /* ------------------------------------------------------------------ */
  /* Load                                                                */
  /* ------------------------------------------------------------------ */

  /** What the steps of `Load` need and keep: groups and layer members exist, and so do biases. */
  ghost predicate Loadable(g: Graph)
  {
    GroupsIn(g) && LayersIn(g) &&
    forall n | 0 <= n < |g.neurons| && g.neurons[n].bias.Some? :: g.neurons[n].bias.value < |g.syn|
  }

  lemma GraphLoadable(g: Graph)
    requires GraphOk(g)
    ensures Loadable(g)
  {
    LayersOkIn(g);
    forall n | 0 <= n < |g.neurons| && g.neurons[n].bias.Some?
      ensures g.neurons[n].bias.value < |g.syn|
    {
      assert g.neurons[n].bias.value in g.neurons[n].ins;
    }
  }

  /**
   * One record read for neuron `n`: group index -1 sets the bias
   * (`SetBias`); otherwise the record's source is looked up with
   * `GetNeuron` and, when found, becomes a new input of `n` at the front of
   * its list (`AddInput`); a record naming no neuron is dropped.
   */
  function LoadEntry(g: Graph, n: NeuronId, e: Entry): (r: Graph)
    requires Loadable(g) && n < |g.neurons|
    ensures Loadable(r) && |r.neurons| == |g.neurons| && |g.syn| <= |r.syn|
    ensures r.layers == g.layers && r.groups == g.groups && r.input == g.input && r.output == g.output
  {
    if e.gi == -1 then SetBias(g, n, e.w)
    else
      match GetNeuron(g, e.gi, e.ni)
      case Some(m) => AddInput(g, n, m, e.w)
      case None => g
  }

  /** The records of one neuron, read in order. */
  function LoadEntries(g: Graph, n: NeuronId, es: seq<Entry>): (r: Graph)
    requires Loadable(g) && n < |g.neurons|
    ensures Loadable(r) && |r.neurons| == |g.neurons| && |g.syn| <= |r.syn|
    ensures r.layers == g.layers && r.groups == g.groups && r.input == g.input && r.output == g.output
    decreases |es|
  {
    if es == [] then g else LoadEntry(LoadEntries(g, n, es[..|es| - 1]), n, es[|es| - 1])
  }

  /** The records of the first `|li|` neurons of layer `l`, the `j`-th neuron (`neurons.Get(j)`) reading `li[j]`. */
  function LoadNeurons(g: Graph, l: LayerId, li: LayerImage): (r: Graph)
    requires Loadable(g) && l < |g.layers| && |li| <= |g.layers[l]|
    ensures Loadable(r) && |r.neurons| == |g.neurons| && |g.syn| <= |r.syn|
    ensures r.layers == g.layers && r.groups == g.groups && r.input == g.input && r.output == g.output
    decreases |li|
  {
    if li == [] then g
    else
      var j := |li| - 1;
      LoadEntries(LoadNeurons(g, l, li[..j]), g.layers[l][j], li[j])
  }

  /** A new layer is a fresh, bias-only layer of the net's neurons. */
  lemma WithLayerLoadable(g: Graph, size: int)
    requires Loadable(g)
    ensures var r := WithLayer(g, size);
            Loadable(r) && |r.layers| == |g.layers| + 1 && |r.layers[|g.layers|]| == (if size < 0 then 0 else size) &&
            r.groups == g.groups
  {
    var r := WithLayer(g, size);
    WithLayerLayers(g, size);
    WithLayerNeurons(g, size);
    var N, S := |g.neurons|, |g.syn|;
    forall l, k | 0 <= l < |r.layers| && 0 <= k < |r.layers[l]|
      ensures r.layers[l][k] < |r.neurons|
    {
      if l < |g.layers| {
        assert r.layers[..|g.layers|][l] == r.layers[l];
      } else {
        ReverseAt(Range(N, |r.neurons|), k);
      }
    }
    forall n | 0 <= n < |r.neurons| && r.neurons[n].bias.Some?
      ensures r.neurons[n].bias.value < |r.syn|
    {
      if n < N {
        assert r.neurons[..N][n] == r.neurons[n];
      }
    }
  }

  /**
   * One layer read: `new Layer(layersize)` appended to the groups
   * (`AttachLast`), then the records of each of its neurons.
   */
  function LoadLayer(g: Graph, li: LayerImage): (r: Graph)
    requires Loadable(g)
    ensures Loadable(r) && |r.groups| == |g.groups| + 1 && r.groups[..|g.groups|] == g.groups
    ensures r.input == g.input && r.output == g.output
  {
    WithLayerLoadable(g, |li|);
    WithLayerLayers(g, |li|);
    var h := WithLayer(g, |li|);
    var l := |g.layers|;
    LoadNeurons(h.(groups := h.groups + [l]), l, li)
  }

  function LoadLayers(g: Graph, img: NetImage): (r: Graph)
    requires Loadable(g)
    ensures Loadable(r) && |r.groups| == |g.groups| + |img|
    decreases |img|
  {
    if img == [] then g else LoadLayer(LoadLayers(g, img[..|img| - 1]), img[|img| - 1])
  }

  /**
   * `Load`: the groups are emptied and the input and output layers
   * cleared; the layers read are appended in order; then the first group
   * is the input layer and the last the output layer.
   */
  function LoadNet(g: Graph, img: NetImage): (r: Graph)
    requires Loadable(g)
    ensures |r.groups| == |img|
    ensures |img| == 0 ==> r.input.None? && r.output.None?
    ensures |img| > 0 ==> r.input == Some(r.groups[0]) && r.output == Some(r.groups[|img| - 1])
  {
    var h := LoadLayers(g.(groups := [], input := None, output := None), img);
    if h.groups == [] then h else h.(input := Some(h.groups[0]), output := Some(h.groups[|h.groups| - 1]))
  }

  /* ------------------------------------------------------------------ */
  /* Load keeps the graph well formed                                    */
  /* ------------------------------------------------------------------ */

  lemma LoadEntryOk(g: Graph, n: NeuronId, e: Entry)
    requires GraphOk(g) && n < |g.neurons|
    ensures Loadable(g) && GraphOk(LoadEntry(g, n, e))
  {
    GraphLoadable(g);
    if e.gi == -1 {
      SetBiasOk(g, n, e.w);
    } else if GetNeuron(g, e.gi, e.ni).Some? {
      LayersOkIn(g);
      AddOutputOk(g, GetNeuron(g, e.gi, e.ni).value, n, e.w);
    }
  }

  lemma {:induction false} LoadEntriesOk(g: Graph, n: NeuronId, es: seq<Entry>)
    requires GraphOk(g) && n < |g.neurons|
    ensures Loadable(g) && GraphOk(LoadEntries(g, n, es))
    decreases |es|
  {
    GraphLoadable(g);
    if es != [] {
      LoadEntriesOk(g, n, es[..|es| - 1]);
      LoadEntryOk(LoadEntries(g, n, es[..|es| - 1]), n, es[|es| - 1]);
    }
  }

  lemma {:induction false} LoadNeuronsOk(g: Graph, l: LayerId, li: LayerImage)
    requires GraphOk(g) && l < |g.layers| && |li| <= |g.layers[l]|
    ensures Loadable(g) && GraphOk(LoadNeurons(g, l, li))
    decreases |li|
  {
    GraphLoadable(g);
    if li != [] {
      var j := |li| - 1;
      LoadNeuronsOk(g, l, li[..j]);
      LayersOkIn(g);
      LoadEntriesOk(LoadNeurons(g, l, li[..j]), g.layers[l][j], li[j]);
    }
  }

  /** `groups.AttachLast(layer)` for the newest layer, not yet a group, keeps the graph well formed. */
  lemma AppendGroupOk(g: Graph)
    requires GraphOk(g) && |g.layers| > 0 && |g.layers| - 1 !in g.groups
    ensures GraphOk(g.(groups := g.groups + [|g.layers| - 1]))
  {
    var r := g.(groups := g.groups + [|g.layers| - 1]);
    assert forall i | 0 <= i < |g.groups| :: r.groups[i] == g.groups[i];
    RegroupOk(g, r);
  }

  lemma LoadLayerOk(g: Graph, li: LayerImage)
    requires GraphOk(g)
    ensures Loadable(g) && GraphOk(LoadLayer(g, li))
  {
    GraphLoadable(g);
    WithLayerLoadable(g, |li|);
    WithLayerLayers(g, |li|);
    WithLayerOk(g, |li|);
    var h := WithLayer(g, |li|);
    var l := |g.layers|;
    assert l !in h.groups;
    AppendGroupOk(h);
    LoadNeuronsOk(h.(groups := h.groups + [l]), l, li);
  }

  lemma {:induction false} LoadLayersOk(g: Graph, img: NetImage)
    requires GraphOk(g)
    ensures Loadable(g) && GraphOk(LoadLayers(g, img))
    decreases |img|
  {
    GraphLoadable(g);
    if img != [] {
      LoadLayersOk(g, img[..|img| - 1]);
      LoadLayerOk(LoadLayers(g, img[..|img| - 1]), img[|img| - 1]);
    }
  }

  /** `Load` leaves a well-formed net, whatever records it reads. */
  lemma LoadNetOk(g: Graph, img: NetImage)
    requires GraphOk(g)
    ensures Loadable(g) && GraphOk(LoadNet(g, img))
  {
    GraphLoadable(g);
    var g0 := g.(groups := [], input := None, output := None);
    RegroupOk(g, g0);
    LoadLayersOk(g0, img);
    var h := LoadLayers(g0, img);
    if h.groups != [] {
      RegroupOk(h, LoadNet(g, img));
    }
  }

  /* ------------------------------------------------------------------ */
  /* Views                                                               */
  /* ------------------------------------------------------------------ */

  /** Every input of a neuron of the net exists and is a bias or comes from a neuron of the net. */
  ghost predicate Closed(g: Graph)
  {
    LayersOk(g) &&
    forall n: NeuronId, t | InNet(g, n) && t in g.neurons[n].ins ::
      t < |g.syn| && (g.syn[t].src.Some? ==> InNet(g, g.syn[t].src.value))
  }

  /** The record of input `s`: -1, -1 for a bias, the `Position` of the source for a connection. */
  function PosEntry(g: Graph, s: SynId): Entry
    requires LayersOk(g) && s < |g.syn| && (g.syn[s].src.Some? ==> InNet(g, g.syn[s].src.value))
  {
    match g.syn[s].src
    case None => Entry(-1, -1, g.syn[s].weight)
    case Some(m) => Entry(Position(g, m).0, Position(g, m).1, g.syn[s].weight)
  }

  /** The records of neuron `n`'s inputs, in list order. */
  function NeuronView(g: Graph, n: NeuronId): (r: NeuronImage)
    requires Closed(g) && InNet(g, n)
    ensures |r| == |g.neurons[n].ins|
  {
    var ins := g.neurons[n].ins;
    seq(|ins|, k requires 0 <= k < |ins| => assert ins[k] in ins; PosEntry(g, ins[k]))
  }

  /** The records of the neurons of layer `l`, a group, in list order. */
  function LayerView(g: Graph, l: LayerId): (r: LayerImage)
    requires Closed(g) && l in g.groups
    ensures |r| == |g.layers[l]|
  {
    var ns := g.layers[l];
    seq(|ns|, j requires 0 <= j < |ns| => assert ns[j] in ns; NeuronView(g, ns[j]))
  }

  /** The records of the whole net, group by group. */
  function View(g: Graph): (r: NetImage)
    requires Closed(g)
    ensures |r| == |g.groups|
  {
    seq(|g.groups|, i requires 0 <= i < |g.groups| => assert g.groups[i] in g.groups; LayerView(g, g.groups[i]))
  }

  /** The number of neurons of each group. */
  function Sizes(g: Graph): (r: seq<nat>)
    requires GroupsIn(g)
    ensures |r| == |g.groups|
  {
    seq(|g.groups|, i requires 0 <= i < |g.groups| => |g.layers[g.groups[i]]|)
  }

  /** The number of neurons of each layer of an image. */
  function ImageSizes(img: NetImage): (r: seq<nat>)
    ensures |r| == |img|
  {
    seq(|img|, i requires 0 <= i < |img| => |img[i]|)
  }

  /** A record that `GetNeuron` resolves once layers of the given sizes are groups. */
  predicate Resolves(sizes: seq<nat>, e: Entry)
  {
    e.gi != -1 && 0 <= e.gi < |sizes| && 0 <= e.ni < sizes[e.gi]
  }

  /** The records that become connections, in reading order. */
  function Kept(sizes: seq<nat>, es: seq<Entry>): seq<Entry>
  {
    if es == [] then []
    else Kept(sizes, es[..|es| - 1]) + (if Resolves(sizes, es[|es| - 1]) then [es[|es| - 1]] else [])
  }

  /** The weight of the last bias record, or `b` when there is none. */
  function BiasWeight(es: seq<Entry>, b: real): real
  {
    if es == [] then b
    else if es[|es| - 1].gi == -1 then es[|es| - 1].w
    else BiasWeight(es[..|es| - 1], b)
  }

  /**
   * The records a neuron loaded from `es` has: the connections kept, last
   * read first, then its bias.
   */
  function Reloaded(sizes: seq<nat>, es: NeuronImage): NeuronImage
  {
    Reverse(Kept(sizes, es)) + [Entry(-1, -1, BiasWeight(es, 0.0))]
  }

  function ReloadedLayer(sizes: seq<nat>, li: LayerImage): (r: LayerImage)
    ensures |r| == |li|
  {
    seq(|li|, j requires 0 <= j < |li| => Reloaded(sizes, li[j]))
  }

  /** The records of a net loaded from `img`: the records of layer `i` resolve against layers 0 to `i`. */
  function ReloadedNet(img: NetImage): (r: NetImage)
    ensures |r| == |img| && forall i | 0 <= i < |img| :: |r[i]| == |img[i]|
  {
    if img == [] then []
    else ReloadedNet(img[..|img| - 1]) + [ReloadedLayer(ImageSizes(img), img[|img| - 1])]
  }

  /** Neither the groups, the input and output layers nor any neuron's layer change. */
  ghost predicate SamePlaces(h: Graph, r: Graph)
  {
    r.groups == h.groups && r.input == h.input && r.output == h.output && r.layers == h.layers && |r.neurons| == |h.neurons| &&
    forall m | 0 <= m < |h.neurons| :: r.neurons[m].layer == h.neurons[m].layer
  }

  /** Every neuron of `h`'s net is in `r`'s, at the same position. */
  ghost predicate PlacesKept(h: Graph, r: Graph)
  {
    LayersOk(h) && LayersOk(r) &&
    forall m | InNet(h, m) :: InNet(r, m) && Position(r, m) == Position(h, m)
  }

  lemma SamePlacesKept(h: Graph, r: Graph)
    requires LayersOk(h) && SamePlaces(h, r)
    ensures LayersOk(r) && PlacesKept(h, r)
  {
  }

  /** An input left alone keeps its record when no neuron moves. */
  lemma PosEntrySame(h: Graph, r: Graph, t: SynId)
    requires Closed(h) && Closed(r) && PlacesKept(h, r)
    requires t < |h.syn| && t < |r.syn| && r.syn[t] == h.syn[t]
    requires h.syn[t].src.Some? ==> InNet(h, h.syn[t].src.value)
    ensures r.syn[t].src.Some? ==> InNet(r, r.syn[t].src.value)
    ensures PosEntry(r, t) == PosEntry(h, t)
  {
  }

  /** A neuron whose inputs and their synapses are unchanged, in a net whose places are kept, has the same view. */
  lemma NeuronViewSame(h: Graph, r: Graph, n: NeuronId)
    requires Closed(h) && Closed(r) && PlacesKept(h, r) && InNet(h, n) && InNet(r, n)
    requires r.neurons[n].ins == h.neurons[n].ins
    requires forall t | t in h.neurons[n].ins :: t < |r.syn| && r.syn[t] == h.syn[t]
    ensures NeuronView(r, n) == NeuronView(h, n)
  {
    var ins := h.neurons[n].ins;
    forall k | 0 <= k < |ins|
      ensures NeuronView(r, n)[k] == NeuronView(h, n)[k]
    {
      assert ins[k] in ins;
    }
  }

  /* ------------------------------------------------------------------ */
  /* What each step of Load does to the view                            */
  /* ------------------------------------------------------------------ */

  /** A bias record sets the weight of the neuron's bias, its last input; nothing else changes. */
  lemma BiasEntryView(h: Graph, n: NeuronId, w: real, V: seq<Entry>, b0: real)
    requires InsOk(h) && BiasOk(h) && Closed(h) && InNet(h, n) && h.neurons[n].bias.Some?
    requires NeuronView(h, n) == V + [Entry(-1, -1, b0)]
    ensures var r := SetBias(h, n, w);
            Closed(r) && SamePlaces(h, r) &&
            NeuronView(r, n) == V + [Entry(-1, -1, w)] &&
            forall m: NeuronId | InNet(h, m) && m != n :: NeuronView(r, m) == NeuronView(h, m)
  {
    var b := h.neurons[n].bias.value;
    assert b in h.neurons[n].ins;
    var r := h.(syn := h.syn[b := h.syn[b].(weight := w)]);
    assert SetBias(h, n, w) == r;
    ReweightClosed(h, b, w);
    BiasOwnView(h, n, w, V, b0);
    forall m: NeuronId | InNet(h, m) && m != n
      ensures NeuronView(r, m) == NeuronView(h, m)
    {
      assert b !in h.neurons[m].ins;
      NeuronViewSame(h, r, m);
    }
  }

  /** Changing the weight of one synapse moves no neuron and keeps every input in place. */
  lemma ReweightClosed(h: Graph, b: SynId, w: real)
    requires Closed(h) && b < |h.syn|
    ensures var r := h.(syn := h.syn[b := h.syn[b].(weight := w)]);
            Closed(r) && SamePlaces(h, r) && PlacesKept(h, r)
  {
    var r := h.(syn := h.syn[b := h.syn[b].(weight := w)]);
    SamePlacesKept(h, r);
  }

  lemma BiasOwnView(h: Graph, n: NeuronId, w: real, V: seq<Entry>, b0: real)
    requires InsOk(h) && BiasOk(h) && Closed(h) && InNet(h, n) && h.neurons[n].bias.Some?
    requires NeuronView(h, n) == V + [Entry(-1, -1, b0)]
    requires h.neurons[n].bias.value < |h.syn|
    ensures var r := h.(syn := h.syn[h.neurons[n].bias.value := h.syn[h.neurons[n].bias.value].(weight := w)]);
            Closed(r) && NeuronView(r, n) == V + [Entry(-1, -1, w)]
  {
    var b := h.neurons[n].bias.value;
    var r := h.(syn := h.syn[b := h.syn[b].(weight := w)]);
    ReweightClosed(h, b, w);
    var ins := h.neurons[n].ins;
    var k := |ins| - 1;
    assert NeuronView(h, n)[k] == Entry(-1, -1, b0);
    assert ins[k] in ins;
    assert ins[k] == b;
    forall j | 0 <= j < k
      ensures NeuronView(r, n)[j] == NeuronView(h, n)[j]
    {
      assert ins[j] in ins;
    }
  }

  /** A record `GetNeuron` resolves becomes a connection at the front of the neuron's inputs; nothing else changes. */
  lemma LinkEntryView(h: Graph, n: NeuronId, e: Entry)
    requires Closed(h) && InNet(h, n) && GetNeuron(h, e.gi, e.ni).Some?
    ensures GetNeuron(h, e.gi, e.ni).value < |h.neurons|
    ensures var r := AddInput(h, n, GetNeuron(h, e.gi, e.ni).value, e.w);
            Closed(r) && SamePlaces(h, r) &&
            NeuronView(r, n) == [e] + NeuronView(h, n) &&
            forall m: NeuronId | InNet(h, m) && m != n :: NeuronView(r, m) == NeuronView(h, m)
  {
    var a := GetNeuron(h, e.gi, e.ni).value;
    PositionGetNeuron(h, e.gi, e.ni);
    LinkClosed(h, n, a, e.w);
    var r := AddInput(h, n, a, e.w);
    AddOutputShape(h, a, n, e.w);
    var s := |h.syn|;
    var ins := h.neurons[n].ins;
    forall k | 0 <= k < |ins|
      ensures NeuronView(r, n)[k + 1] == NeuronView(h, n)[k]
    {
      var t := ins[k];
      assert t in ins && r.neurons[n].ins[k + 1] == t;
      PosEntrySame(h, r, t);
    }
    assert NeuronView(r, n)[0] == e;
    LinkOthersView(h, n, a, e.w);
  }

  /** A new connection into neuron `n` leaves the records of every other neuron as they were. */
  lemma LinkOthersView(h: Graph, n: NeuronId, a: NeuronId, w: real)
    requires Closed(h) && InNet(h, n) && InNet(h, a)
    ensures var r := AddInput(h, n, a, w);
            Closed(r) && forall m: NeuronId | InNet(h, m) && m != n :: NeuronView(r, m) == NeuronView(h, m)
  {
    LinkClosed(h, n, a, w);
    var r := AddInput(h, n, a, w);
    AddOutputShape(h, a, n, w);
    forall m: NeuronId | InNet(h, m) && m != n
      ensures NeuronView(r, m) == NeuronView(h, m)
    {
      assert forall t | t in h.neurons[m].ins :: r.syn[t] == h.syn[t];
      NeuronViewSame(h, r, m);
    }
  }

  /** A new connection into a neuron of the net from a neuron of the net moves no neuron and keeps the net closed. */
  lemma LinkClosed(h: Graph, n: NeuronId, a: NeuronId, w: real)
    requires Closed(h) && InNet(h, n) && InNet(h, a)
    ensures var r := AddInput(h, n, a, w);
            Closed(r) && SamePlaces(h, r) && PlacesKept(h, r)
  {
    AddOutputShape(h, a, n, w);
    var r := AddInput(h, n, a, w);
    var s := |h.syn|;
    SamePlacesKept(h, r);
    forall x: NeuronId, t | InNet(r, x) && t in r.neurons[x].ins
      ensures t < |r.syn| && (r.syn[t].src.Some? ==> InNet(r, r.syn[t].src.value))
    {
      if t != s {
        assert t in h.neurons[x].ins;
        assert r.syn[t] == h.syn[t];
      }
    }
  }

  lemma ClosedLoadable(h: Graph)
    requires InsOk(h) && BiasOk(h) && Closed(h)
    ensures Loadable(h)
  {
    LayersOkIn(h);
    forall n | 0 <= n < |h.neurons| && h.neurons[n].bias.Some?
      ensures h.neurons[n].bias.value < |h.syn|
    {
      assert h.neurons[n].bias.value in h.neurons[n].ins;
    }
  }

  /** `GetNeuron` finds the neuron a record names exactly when the record resolves against the sizes of the groups. */
  lemma ResolvesGetNeuron(h: Graph, e: Entry)
    requires GroupsIn(h)
    ensures Resolves(Sizes(h), e) <==> e.gi != -1 && GetNeuron(h, e.gi, e.ni).Some?
  {
  }

  /**
   * One record read for a neuron whose view is its kept connections `V`,
   * last read first, then its bias of weight `b0`: a resolved record joins
   * the connections, a bias record sets the bias weight, any other record
   * is dropped; no other neuron's view or bias changes.
   */
  lemma LoadEntryView(h: Graph, n: NeuronId, e: Entry, V: seq<Entry>, b0: real)
    requires InsOk(h) && BiasOk(h) && Closed(h) && InNet(h, n)
    requires NeuronView(h, n) == Reverse(V) + [Entry(-1, -1, b0)]
    ensures Loadable(h)
    ensures var r := LoadEntry(h, n, e);
            Closed(r) && SamePlaces(h, r) &&
            NeuronView(r, n) == Reverse(V + (if Resolves(Sizes(h), e) then [e] else [])) + [Entry(-1, -1, if e.gi == -1 then e.w else b0)] &&
            forall m: NeuronId | InNet(h, m) && m != n :: NeuronView(r, m) == NeuronView(h, m)
  {
    ClosedLoadable(h);
    ResolvesGetNeuron(h, e);
    var r := LoadEntry(h, n, e);
    if e.gi == -1 {
      ViewBias(h, n);
      BiasEntryView(h, n, e.w, Reverse(V), b0);
      assert !Resolves(Sizes(h), e) && V + [] == V;
    } else if GetNeuron(h, e.gi, e.ni).Some? {
      LinkEntryView(h, n, e);
      ReverseSnoc(V, e);
      assert NeuronView(r, n) == Reverse(V + [e]) + [Entry(-1, -1, b0)];
    } else {
      assert r == h && V + [] == V;
    }
  }

  /** A neuron whose last record is a bias record has a bias: the input that record stands for. */
  lemma ViewBias(h: Graph, n: NeuronId)
    requires BiasOk(h) && Closed(h) && InNet(h, n)
    requires |NeuronView(h, n)| > 0 && NeuronView(h, n)[|NeuronView(h, n)| - 1].gi == -1
    ensures h.neurons[n].bias.Some?
  {
    var ins := h.neurons[n].ins;
    assert ins[|ins| - 1] in ins;
  }

  lemma AppendAssoc(a: seq<Entry>, b: seq<Entry>, c: seq<Entry>)
    ensures (a + b) + c == a + (b + c)
  {
  }

  lemma ReverseSnoc(V: seq<Entry>, e: Entry)
    ensures Reverse(V + [e]) == [e] + Reverse(V)
  {
    assert (V + [e])[..|V|] == V;
  }

  /** The records of one neuron read in order: see `LoadEntryView`. */
  lemma {:induction false} LoadEntriesView(h: Graph, n: NeuronId, es: seq<Entry>, V: seq<Entry>, b0: real)
    requires GraphOk(h) && Closed(h) && InNet(h, n)
    requires NeuronView(h, n) == Reverse(V) + [Entry(-1, -1, b0)]
    ensures Loadable(h)
    ensures var r := LoadEntries(h, n, es);
            Closed(r) && SamePlaces(h, r) &&
            NeuronView(r, n) == Reverse(V + Kept(Sizes(h), es)) + [Entry(-1, -1, BiasWeight(es, b0))] &&
            forall m: NeuronId | InNet(h, m) && m != n :: NeuronView(r, m) == NeuronView(h, m)
    decreases |es|
  {
    GraphLoadable(h);
    if es == [] {
      assert V + [] == V;
    } else {
      var es' := es[..|es| - 1];
      var e := es[|es| - 1];
      LoadEntriesView(h, n, es', V, b0);
      var h' := LoadEntries(h, n, es');
      LoadEntriesOk(h, n, es');
      var V' := V + Kept(Sizes(h), es');
      LoadEntryView(h', n, e, V', BiasWeight(es', b0));
      assert Sizes(h') == Sizes(h);
      var x := if Resolves(Sizes(h), e) then [e] else [];
      assert Kept(Sizes(h), es) == Kept(Sizes(h), es') + x;
      AppendAssoc(V, Kept(Sizes(h), es'), x);
    }
  }

  /** The view of each neuron of a layer as `Layer(size)` makes it: its one input is a bias of weight 0. */
  function FreshViews(count: nat): (r: LayerImage)
    ensures |r| == count
  {
    seq(count, _ => [Entry(-1, -1, 0.0)])
  }

  /**
   * The records of the first `|li|` neurons of a fresh layer: each of those
   * neurons gets the records `Reloaded` describes, the rest of the layer
   * stays fresh, and no neuron outside the layer changes.
   */
  lemma {:induction false} LoadNeuronsView(h: Graph, l: LayerId, li: LayerImage)
    requires GraphOk(h) && Closed(h) && l in h.groups && |li| <= |h.layers[l]|
    requires LayerView(h, l) == FreshViews(|h.layers[l]|)
    ensures Loadable(h)
    ensures var r := LoadNeurons(h, l, li);
            GraphOk(r) && Closed(r) && SamePlaces(h, r) &&
            LayerView(r, l) == ReloadedLayer(Sizes(h), li) + FreshViews(|h.layers[l]| - |li|) &&
            forall m: NeuronId | InNet(h, m) && m !in h.layers[l] :: NeuronView(r, m) == NeuronView(h, m)
    decreases |li|
  {
    GraphLoadable(h);
    LoadNeuronsOk(h, l, li);
    if li == [] {
      assert ReloadedLayer(Sizes(h), li) == [];
    } else {
      var j := |li| - 1;
      var h' := LoadNeurons(h, l, li[..j]);
      LoadNeuronsView(h, l, li[..j]);
      assert |h.layers[l]| - |li[..j]| == |h.layers[l]| - |li| + 1;
      NeuronsStep(h, h', l, li);
      assert LoadNeurons(h, l, li) == LoadEntries(h', h.layers[l][j], li[j]);
    }
  }

  /** The last neuron's records, read after those of the neurons before it. */
  lemma NeuronsStep(h: Graph, h': Graph, l: LayerId, li: LayerImage)
    requires Closed(h) && l in h.groups && 0 < |li| <= |h.layers[l]|
    requires GraphOk(h') && Closed(h') && SamePlaces(h, h')
    requires LayerView(h', l) == ReloadedLayer(Sizes(h), li[..|li| - 1]) + FreshViews(|h.layers[l]| - |li| + 1)
    requires forall m: NeuronId | InNet(h, m) && m !in h.layers[l] :: NeuronView(h', m) == NeuronView(h, m)
    ensures Loadable(h') && h.layers[l][|li| - 1] < |h'.neurons|
    ensures var r := LoadEntries(h', h.layers[l][|li| - 1], li[|li| - 1]);
            Closed(r) && SamePlaces(h, r) &&
            LayerView(r, l) == ReloadedLayer(Sizes(h), li) + FreshViews(|h.layers[l]| - |li|) &&
            forall m: NeuronId | InNet(h, m) && m !in h.layers[l] :: NeuronView(r, m) == NeuronView(h, m)
  {
    var ns := h.layers[l];
    var j := |li| - 1;
    var n := ns[j];
    assert ns[j] in ns;
    assert NeuronView(h', n) == LayerView(h', l)[j] == [Entry(-1, -1, 0.0)];
    assert Reverse<Entry>([]) == [];
    LoadEntriesView(h', n, li[j], [], 0.0);
    var r := LoadEntries(h', n, li[j]);
    assert Sizes(h') == Sizes(h);
    assert [] + Kept(Sizes(h), li[j]) == Kept(Sizes(h), li[j]);
    assert NeuronView(r, n) == Reloaded(Sizes(h), li[j]);
    assert Distinct(ns);
    forall k | 0 <= k < |ns|
      ensures LayerView(r, l)[k] == (ReloadedLayer(Sizes(h), li) + FreshViews(|ns| - |li|))[k]
    {
      assert ns[k] in ns;
      if k != j {
        assert ns[k] != n;
        assert LayerView(r, l)[k] == LayerView(h', l)[k];
      }
    }
  }

  /** Appending a new layer to the groups keeps the position of every other group's neurons. */
  lemma IndexOfAppend(s: seq<LayerId>, l: LayerId, x: LayerId)
    requires x in s
    ensures x in s + [l] && IndexOf(s + [l], x) == IndexOf(s, x)
  {
    var i := IndexOf(s, x);
    assert (s + [l])[i] == x;
    var k := IndexOf(s + [l], x);
    assert k <= i;
    assert s[k] == x;
  }

  /** `new Layer(size)` appended to the groups keeps the graph well formed. */
  lemma FreshLayerOk(h: Graph, size: int)
    requires GraphOk(h)
    ensures var h1 := WithLayer(h, size); GraphOk(h1.(groups := h1.groups + [|h.layers|]))
  {
    var h1 := WithLayer(h, size);
    WithLayerOk(h, size);
    WithLayerLayers(h, size);
    assert |h.layers| !in h1.groups;
    AppendGroupOk(h1);
  }

  /**
   * `new Layer(size)` appended to the groups: the old neurons of the net
   * keep their places and views, and the new group is a fresh layer.
   */
  lemma FreshLayerView(h: Graph, size: int)
    requires LayersOk(h) && Closed(h)
    requires var h1 := WithLayer(h, size); LayersOk(h1.(groups := h1.groups + [|h.layers|]))
    ensures var l := |h.layers|;
            var h1 := WithLayer(h, size);
            var h2 := h1.(groups := h1.groups + [l]);
            Closed(h2) && PlacesKept(h, h2) && l in h2.groups &&
            LayerView(h2, l) == FreshViews(if size < 0 then 0 else size) &&
            Sizes(h2) == Sizes(h) + [if size < 0 then 0 else size] &&
            (forall m: NeuronId | InNet(h, m) :: m !in h2.layers[l] && NeuronView(h2, m) == NeuronView(h, m)) &&
            (forall x | x in h.groups :: h2.layers[x] == h.layers[x])
  {
    var l := |h.layers|;
    var h1 := WithLayer(h, size);
    var h2 := h1.(groups := h1.groups + [l]);
    FreshLayerFrame(h, size);
    FreshLayerKept(h, h2);
    FreshLayerClosed(h, h2);
    FreshOldViews(h, h2);
    FreshNewViews(h, h2);
    WithLayerLayers(h, size);
    assert |h2.layers[l]| == if size < 0 then 0 else size;
    FreshSizes(h, h2);
  }

  lemma FreshOldViews(h: Graph, h2: Graph)
    requires Closed(h) && Closed(h2) && PlacesKept(h, h2) && |h.neurons| <= |h2.neurons| && |h.syn| <= |h2.syn|
    requires forall m | 0 <= m < |h.neurons| :: h2.neurons[m] == h.neurons[m]
    requires forall t | 0 <= t < |h.syn| :: h2.syn[t] == h.syn[t]
    ensures forall m: NeuronId | InNet(h, m) :: NeuronView(h2, m) == NeuronView(h, m)
  {
    forall m: NeuronId | InNet(h, m)
      ensures NeuronView(h2, m) == NeuronView(h, m)
    {
      forall t | t in h.neurons[m].ins
        ensures t < |h2.syn| && h2.syn[t] == h.syn[t]
      {
      }
      NeuronViewSame(h, h2, m);
    }
  }

  lemma FreshNewViews(h: Graph, h2: Graph)
    requires Closed(h2) && |h.neurons| <= |h2.neurons| && |h2.syn| == |h.syn| + (|h2.neurons| - |h.neurons|)
    requires forall m | |h.neurons| <= m < |h2.neurons| :: h2.neurons[m].ins == [|h.syn| + (m - |h.neurons|)]
    requires forall t | |h.syn| <= t < |h2.syn| :: h2.syn[t].src.None? && h2.syn[t].weight == 0.0
    requires |h.layers| in h2.groups && forall m | m in h2.layers[|h.layers|] :: |h.neurons| <= m
    ensures LayerView(h2, |h.layers|) == FreshViews(|h2.layers[|h.layers|]|)
  {
    var ns := h2.layers[|h.layers|];
    forall j | 0 <= j < |ns|
      ensures LayerView(h2, |h.layers|)[j] == [Entry(-1, -1, 0.0)]
    {
      assert ns[j] in ns;
    }
  }

  lemma FreshSizes(h: Graph, h2: Graph)
    requires GroupsIn(h) && GroupsIn(h2) && h2.groups == h.groups + [|h.layers|]
    requires |h2.layers| == |h.layers| + 1 && forall x | 0 <= x < |h.layers| :: h2.layers[x] == h.layers[x]
    ensures Sizes(h2) == Sizes(h) + [|h2.layers[|h.layers|]|]
  {
  }

  lemma FreshLayerFrame(h: Graph, size: int)
    ensures var l := |h.layers|;
            var h1 := WithLayer(h, size);
            var h2 := h1.(groups := h1.groups + [l]);
            var N, S := |h.neurons|, |h.syn|;
            N <= |h2.neurons| && |h2.syn| == S + (|h2.neurons| - N) &&
            (forall m | 0 <= m < N :: h2.neurons[m] == h.neurons[m]) &&
            (forall t | 0 <= t < S :: h2.syn[t] == h.syn[t]) &&
            (forall m | N <= m < |h2.neurons| :: h2.neurons[m].ins == [S + (m - N)]) &&
            (forall t | S <= t < |h2.syn| :: h2.syn[t].src.None? && h2.syn[t].weight == 0.0) &&
            |h2.layers| == l + 1 && (forall x | 0 <= x < l :: h2.layers[x] == h.layers[x]) &&
            (forall m | m in h2.layers[l] :: N <= m) &&
            h2.groups == h.groups + [l]
  {
    var l := |h.layers|;
    var h1 := WithLayer(h, size);
    var h2 := h1.(groups := h1.groups + [l]);
    var N, S := |h.neurons|, |h.syn|;
    var c := if size < 0 then 0 else size;
    WithLayerLayers(h, size);
    WithLayerNeurons(h, size);
    forall m | 0 <= m < N
      ensures h2.neurons[m] == h.neurons[m]
    {
      assert h2.neurons[..N][m] == h2.neurons[m];
    }
    forall t | 0 <= t < S
      ensures h2.syn[t] == h.syn[t]
    {
      assert h2.syn[..S][t] == h2.syn[t];
    }
    forall x | 0 <= x < l
      ensures h2.layers[x] == h.layers[x]
    {
      assert h2.layers[..l][x] == h2.layers[x];
    }
    NewLayerMembers(h, size);
  }

  /** The new layer holds only new neurons. */
  lemma NewLayerMembers(h: Graph, size: int)
    ensures var r := WithLayer(h, size);
            |h.layers| < |r.layers| && forall m | m in r.layers[|h.layers|] :: |h.neurons| <= m
  {
    var r := WithLayer(h, size);
    var N := |h.neurons|;
    WithLayerLayers(h, size);
    forall m | m in r.layers[|h.layers|]
      ensures N <= m
    {
      var k := IndexOf(r.layers[|h.layers|], m);
      ReverseAt(Range(N, N + (if size < 0 then 0 else size)), k);
    }
  }

  /** With a new layer appended to the groups, the old neurons are in the net as before and at the same place. */
  lemma FreshLayerKept(h: Graph, h2: Graph)
    requires LayersOk(h) && LayersOk(h2) && |h.neurons| <= |h2.neurons|
    requires forall m | 0 <= m < |h.neurons| :: h2.neurons[m] == h.neurons[m]
    requires |h2.layers| == |h.layers| + 1 && (forall x | 0 <= x < |h.layers| :: h2.layers[x] == h.layers[x])
    requires h2.groups == h.groups + [|h.layers|]
    ensures PlacesKept(h, h2) && forall m | 0 <= m < |h.neurons| :: InNet(h2, m) <==> InNet(h, m)
    ensures forall x | x in h.groups :: h2.layers[x] == h.layers[x]
  {
    var l := |h.layers|;
    forall m: NeuronId | InNet(h, m)
      ensures InNet(h2, m) && Position(h2, m) == Position(h, m)
    {
      var x := h.neurons[m].layer.value;
      IndexOfAppend(h.groups, l, x);
    }
    forall m | 0 <= m < |h.neurons|
      ensures InNet(h2, m) <==> InNet(h, m)
    {
      if h.neurons[m].layer.Some? {
        assert h.neurons[m].layer.value < l;
      }
    }
  }

  lemma FreshLayerClosed(h: Graph, h2: Graph)
    requires Closed(h) && LayersOk(h2) && |h.neurons| <= |h2.neurons| && |h2.syn| == |h.syn| + (|h2.neurons| - |h.neurons|)
    requires forall m | 0 <= m < |h.neurons| :: h2.neurons[m] == h.neurons[m]
    requires forall t | 0 <= t < |h.syn| :: h2.syn[t] == h.syn[t]
    requires forall m | |h.neurons| <= m < |h2.neurons| :: h2.neurons[m].ins == [|h.syn| + (m - |h.neurons|)]
    requires forall t | |h.syn| <= t < |h2.syn| :: h2.syn[t].src.None?
    requires forall m | 0 <= m < |h.neurons| :: InNet(h2, m) <==> InNet(h, m)
    ensures Closed(h2)
  {
    forall x: NeuronId, t | InNet(h2, x) && t in h2.neurons[x].ins
      ensures t < |h2.syn| && (h2.syn[t].src.Some? ==> InNet(h2, h2.syn[t].src.value))
    {
      if x < |h.neurons| {
        assert t in h.neurons[x].ins;
        assert h2.syn[t] == h.syn[t];
      }
    }
  }

  /** A group whose layer and neurons' views are unchanged has the same view. */
  lemma LayerViewSame(a: Graph, b: Graph, x: LayerId)
    requires Closed(a) && Closed(b) && x in a.groups && x in b.groups && b.layers[x] == a.layers[x]
    requires forall m | m in a.layers[x] :: InNet(a, m) && InNet(b, m) && NeuronView(b, m) == NeuronView(a, m)
    ensures LayerView(b, x) == LayerView(a, x)
  {
    forall j | 0 <= j < |a.layers[x]|
      ensures LayerView(b, x)[j] == LayerView(a, x)[j]
    {
      assert a.layers[x][j] in a.layers[x];
    }
  }

  /** One layer read: the net's view gains the layer's reloaded records, resolved against the groups so far and itself. */
  lemma LoadLayerView(h: Graph, li: LayerImage)
    requires GraphOk(h) && Closed(h)
    ensures Loadable(h)
    ensures var r := LoadLayer(h, li);
            GraphOk(r) && Closed(r) && Sizes(r) == Sizes(h) + [|li|] &&
            View(r) == View(h) + [ReloadedLayer(Sizes(h) + [|li|], li)]
  {
    GraphLoadable(h);
    LoadLayerOk(h, li);
    var l := |h.layers|;
    var h1 := WithLayer(h, |li|);
    var h2 := h1.(groups := h1.groups + [l]);
    FreshLayerOk(h, |li|);
    FreshLayerView(h, |li|);
    LoadNeuronsView(h2, l, li);
    var r := LoadNeurons(h2, l, li);
    assert r == LoadLayer(h, li);
    assert Sizes(r) == Sizes(h2);
    assert ReloadedLayer(Sizes(h2), li) + FreshViews(0) == ReloadedLayer(Sizes(h2), li);
    OldLayerViews(h, h2, r, ReloadedLayer(Sizes(h2), li));
  }

  lemma OldLayerViews(h: Graph, h2: Graph, r: Graph, X: LayerImage)
    requires Closed(h) && Closed(h2) && Closed(r) && PlacesKept(h, h2) && SamePlaces(h2, r)
    requires |h2.groups| == |h.groups| + 1 && h2.groups[..|h.groups|] == h.groups && h2.groups[|h.groups|] == |h.layers|
    requires forall x | x in h.groups :: h2.layers[x] == h.layers[x]
    requires forall m: NeuronId | InNet(h, m) :: m !in h2.layers[|h.layers|] && NeuronView(h2, m) == NeuronView(h, m)
    requires forall m: NeuronId | InNet(h2, m) && m !in h2.layers[|h.layers|] :: NeuronView(r, m) == NeuronView(h2, m)
    requires LayerView(r, |h.layers|) == X
    ensures View(r) == View(h) + [X]
  {
    forall i | 0 <= i < |r.groups|
      ensures View(r)[i] == (View(h) + [X])[i]
    {
      if i < |h.groups| {
        var x := h.groups[i];
        assert x in h.groups && h2.groups[i] == x;
        forall m | m in h.layers[x]
          ensures InNet(h, m) && InNet(r, m) && NeuronView(r, m) == NeuronView(h, m)
        {
        }
        LayerViewSame(h, r, x);
      }
    }
  }

  lemma {:induction false} LoadLayersView(g0: Graph, img: NetImage)
    requires GraphOk(g0) && Closed(g0) && g0.groups == []
    ensures Loadable(g0)
    ensures var r := LoadLayers(g0, img);
            GraphOk(r) && Closed(r) && Sizes(r) == ImageSizes(img) && View(r) == ReloadedNet(img)
    decreases |img|
  {
    GraphLoadable(g0);
    if img != [] {
      var img' := img[..|img| - 1];
      var li := img[|img| - 1];
      LoadLayersView(g0, img');
      LoadLayerView(LoadLayers(g0, img'), li);
      ImageSizesSnoc(img);
    }
  }

  lemma ImageSizesSnoc(img: NetImage)
    requires img != []
    ensures ImageSizes(img) == ImageSizes(img[..|img| - 1]) + [|img[|img| - 1]|]
  {
  }

  lemma ClosedIgnoresEnds(h: Graph, r: Graph)
    requires Closed(h) && LayersOk(r) && r == h.(input := r.input, output := r.output)
    ensures Closed(r)
  {
    assert forall m :: InNet(r, m) == InNet(h, m);
  }

  /** The view does not depend on which groups are the input and output layers. */
  lemma ViewIgnoresEnds(h: Graph, r: Graph)
    requires Closed(h) && Closed(r) && r == h.(input := r.input, output := r.output)
    ensures View(r) == View(h)
  {
    assert PlacesKept(h, r);
    forall i | 0 <= i < |h.groups|
      ensures View(r)[i] == View(h)[i]
    {
      var x := h.groups[i];
      assert x in h.groups;
      forall m | m in h.layers[x]
        ensures InNet(h, m) && InNet(r, m) && NeuronView(r, m) == NeuronView(h, m)
      {
        NeuronViewSame(h, r, m);
      }
      LayerViewSame(h, r, x);
    }
  }

  /**
   * What `Load` builds from any records, into any well-formed net: a
   * well-formed net whose inputs all come from its own neurons, whose view
   * is `ReloadedNet(img)`: layer `i` has `|img[i]|` neurons; each neuron has
   * the connections of its records that name a neuron of layers 0 to `i`,
   * the last read first, then a bias weighted by its last bias record (0
   * without one). Records naming a later layer or a position outside its
   * layer are dropped.
   */
  lemma LoadNetView(g: Graph, img: NetImage)
    requires GraphOk(g)
    ensures Loadable(g)
    ensures var r := LoadNet(g, img);
            GraphOk(r) && Closed(r) && View(r) == ReloadedNet(img)
  {
    GraphLoadable(g);
    LoadNetOk(g, img);
    var g0 := g.(groups := [], input := None, output := None);
    RegroupOk(g, g0);
    LoadLayersView(g0, img);
    var h := LoadLayers(g0, img);
    var r := LoadNet(g, img);
    ClosedIgnoresEnds(h, r);
    ViewIgnoresEnds(h, r);
  }

  /* ------------------------------------------------------------------ */
  /* Save                                                                */
  /* ------------------------------------------------------------------ */

  /** Each neuron of `ns` gets `TempInt` `v`. */
  function TagLayer(tags: seq<int>, ns: seq<NeuronId>, v: int): (r: seq<int>)
    ensures |r| == |tags|
  {
    seq(|tags|, n requires 0 <= n < |tags| => if n in ns then v else tags[n])
  }

  lemma TagNone(tags: seq<int>, v: int)
    ensures TagLayer(tags, [], v) == tags
  {
  }

  /** The first loop of `Save` tags one neuron after another. */
  lemma TagStep(tags: seq<int>, ns: seq<NeuronId>, j: nat, v: int)
    requires j < |ns| && ns[j] < |tags|
    ensures TagLayer(tags, ns[..j + 1], v) == TagLayer(tags, ns[..j], v)[ns[j] := v]
  {
    assert ns[..j + 1] == ns[..j] + [ns[j]];
  }

  /** The first loop of `Save` after `i` groups: each neuron of group `k < i` has `TempInt` `k`. */
  function Tagged(g: Graph, tags: seq<int>, i: nat): (r: seq<int>)
    requires GroupsIn(g) && i <= |g.groups|
    ensures |r| == |tags|
  {
    if i == 0 then tags else TagLayer(Tagged(g, tags, i - 1), g.layers[g.groups[i - 1]], i - 1)
  }

  /**
   * After the first `i` groups are tagged, a neuron of one of them carries
   * the index of its layer among the groups, and every other neuron its old
   * `TempInt`.
   */
  lemma {:induction false} TaggedFirst(g: Graph, tags: seq<int>, i: nat)
    requires LayersOk(g) && |tags| == |g.neurons| && i <= |g.groups|
    ensures forall m | 0 <= m < |g.neurons| ::
      Tagged(g, tags, i)[m] == if InFirstGroups(g, m, i) then IndexOf(g.groups, g.neurons[m].layer.value) else tags[m]
  {
    if i > 0 {
      TaggedFirst(g, tags, i - 1);
      InFirstGroupsStep(g, i - 1);
      var l := g.groups[i - 1];
      forall m | m in g.layers[l]
        ensures m < |g.neurons| && g.neurons[m].layer == Some(l) && IndexOf(g.groups, l) == i - 1
      {
        assert g.groups[IndexOf(g.groups, l)] == g.groups[i - 1];
      }
    }
  }

  /** After the whole first loop of `Save`, a neuron of the net carries the index of its layer among the groups. */
  lemma TaggedNet(g: Graph, tags: seq<int>)
    requires LayersOk(g) && |tags| == |g.neurons|
    ensures forall m | 0 <= m < |g.neurons| ::
      Tagged(g, tags, |g.groups|)[m] == if InNet(g, m) then Position(g, m).0 else tags[m]
  {
    TaggedFirst(g, tags, |g.groups|);
    InAllGroups(g);
  }

  /**
   * `Save` can write the net: every input of a neuron of the net exists,
   * and the `TempInt` of each input's source names a group (for a source
   * outside the net, a stale one; `groups.Get` would otherwise return null
   * and `Save` dereference it).
   */
  ghost predicate Savable(g: Graph, tags: seq<int>)
  {
    LayersOk(g) && |tags| == |g.neurons| &&
    forall n: NeuronId, t | InNet(g, n) && t in g.neurons[n].ins ::
      t < |g.syn| &&
      (g.syn[t].src.Some? ==> g.syn[t].src.value < |g.neurons| && 0 <= tags[g.syn[t].src.value] < |g.groups|)
  }

  /**
   * The record `Save` writes for input `s`: -1, -1 and the weight for a
   * bias; otherwise the source's `TempInt`, the source's index in that
   * group's layer (`GetIndex`, -1 when it is not there) and the weight.
   */
  function SavedEntry(g: Graph, tags: seq<int>, s: SynId): Entry
    requires GroupsIn(g) && s < |g.syn|
    requires g.syn[s].src.Some? ==> g.syn[s].src.value < |tags| && 0 <= tags[g.syn[s].src.value] < |g.groups|
  {
    match g.syn[s].src
    case None => Entry(-1, -1, g.syn[s].weight)
    case Some(m) => Entry(tags[m], GetIndex(g.layers[g.groups[tags[m]]], m), g.syn[s].weight)
  }

  lemma SavedInput(g: Graph, tags: seq<int>, n: NeuronId, t: SynId)
    requires Savable(g, tags) && InNet(g, n) && t in g.neurons[n].ins
    ensures t < |g.syn| && GroupsIn(g)
    ensures g.syn[t].src.Some? ==> g.syn[t].src.value < |tags| && 0 <= tags[g.syn[t].src.value] < |g.groups|
  {
  }

  function SavedNeuron(g: Graph, tags: seq<int>, n: NeuronId): (r: NeuronImage)
    requires Savable(g, tags) && InNet(g, n)
    ensures |r| == |g.neurons[n].ins|
  {
    var ins := g.neurons[n].ins;
    seq(|ins|, k requires 0 <= k < |ins| => SavedInput(g, tags, n, ins[k]); SavedEntry(g, tags, ins[k]))
  }

  function SavedLayer(g: Graph, tags: seq<int>, l: LayerId): (r: LayerImage)
    requires Savable(g, tags) && l in g.groups
    ensures |r| == |g.layers[l]|
  {
    var ns := g.layers[l];
    seq(|ns|, j requires 0 <= j < |ns| => assert ns[j] in ns; SavedNeuron(g, tags, ns[j]))
  }

  /** The records `Save` writes, group by group, given the `TempInt`s its first loop leaves. */
  function Image(g: Graph, tags: seq<int>): (r: NetImage)
    requires Savable(g, tags)
    ensures |r| == |g.groups|
  {
    seq(|g.groups|, i requires 0 <= i < |g.groups| => assert g.groups[i] in g.groups; SavedLayer(g, tags, g.groups[i]))
  }

  /**
   * A net whose inputs all come from its own neurons can be saved whatever
   * the `TempInt`s before, and `Save` then writes its view: each
   * connection by the position of its source.
   */
  lemma SavedView(g: Graph, tags: seq<int>)
    requires Closed(g) && |tags| == |g.neurons|
    ensures Savable(g, Tagged(g, tags, |g.groups|)) && Image(g, Tagged(g, tags, |g.groups|)) == View(g)
  {
    var T := Tagged(g, tags, |g.groups|);
    TaggedNet(g, tags);
    assert Savable(g, T);
    forall n: NeuronId | InNet(g, n)
      ensures SavedNeuron(g, T, n) == NeuronView(g, n)
    {
      var ins := g.neurons[n].ins;
      forall k | 0 <= k < |ins|
        ensures SavedNeuron(g, T, n)[k] == NeuronView(g, n)[k]
      {
        assert ins[k] in ins;
      }
    }
    forall i | 0 <= i < |g.groups|
      ensures Image(g, T)[i] == View(g)[i]
    {
      var x := g.groups[i];
      assert x in g.groups;
      forall j | 0 <= j < |g.layers[x]|
        ensures SavedLayer(g, T, x)[j] == LayerView(g, x)[j]
      {
        assert g.layers[x][j] in g.layers[x];
      }
    }
  }

  /* ------------------------------------------------------------------ */
  /* Save, then Load                                                     */
  /* ------------------------------------------------------------------ */

  /**
   * Saving a net whose inputs all come from its own neurons writes its
   * view; the token stream reads back to that view whatever follows it;
   * and loading it builds a well-formed net whose view is what `Reloaded`
   * describes.
   */
  lemma SaveLoad(g: Graph, tags: seq<int>, base: Graph, rest: seq<Token>)
    requires Closed(g) && |tags| == |g.neurons| && GraphOk(base)
    ensures Loadable(base) && Savable(g, Tagged(g, tags, |g.groups|))
    ensures var img := Image(g, Tagged(g, tags, |g.groups|));
            var r := LoadNet(base, img);
            img == View(g) && Decode(Encode(img) + rest) == Some(img) &&
            GraphOk(r) && Closed(r) && View(r) == ReloadedNet(img)
  {
    SavedView(g, tags);
    var img := Image(g, Tagged(g, tags, |g.groups|));
    DecodeEncode(img, rest);
    LoadNetView(base, img);
  }

  /** The connection records of `es`, in order. */
  function Links(es: seq<Entry>): (r: seq<Entry>)
    ensures forall k | 0 <= k < |r| :: r[k].gi != -1
  {
    if es == [] then []
    else Links(es[..|es| - 1]) + (if es[|es| - 1].gi != -1 then [es[|es| - 1]] else [])
  }

  /** When every connection record resolves, `Load` keeps them all. */
  lemma {:induction false} KeptLinks(sizes: seq<nat>, es: seq<Entry>)
    requires forall k | 0 <= k < |es| && es[k].gi != -1 :: Resolves(sizes, es[k])
    ensures Kept(sizes, es) == Links(es)
  {
    if es != [] {
      KeptLinks(sizes, es[..|es| - 1]);
    }
  }

  lemma {:induction false} LinksAll(es: seq<Entry>)
    requires forall k | 0 <= k < |es| :: es[k].gi != -1
    ensures Links(es) == es
  {
    if es != [] {
      LinksAll(es[..|es| - 1]);
    }
  }

  /**
   * When every bias record weighs `w`, and there is one or the default is
   * `w` too, the bias `Load` sets weighs `w`.
   */
  lemma {:induction false} BiasWeightIs(es: seq<Entry>, b: real, w: real, k0: int)
    requires forall k | 0 <= k < |es| && es[k].gi == -1 :: es[k].w == w
    requires b == w || (0 <= k0 < |es| && es[k0].gi == -1)
    ensures BiasWeight(es, b) == w
  {
    if es != [] && es[|es| - 1].gi != -1 {
      BiasWeightIs(es[..|es| - 1], b, w, k0);
    }
  }

  /** The bias `Load` reads back from a neuron's records is the neuron's own (0 when it has none). */
  lemma NeuronBias(g: Graph, n: NeuronId)
    requires BiasOk(g) && Closed(g) && InNet(g, n)
    ensures BiasWeight(NeuronView(g, n), 0.0) == GetBias(g, n)
  {
    var ins := g.neurons[n].ins;
    var es := NeuronView(g, n);
    forall k | 0 <= k < |es| && es[k].gi == -1
      ensures es[k].w == GetBias(g, n)
    {
      assert ins[k] in ins;
    }
    var k0 := if g.neurons[n].bias.Some? then IndexOf(ins, g.neurons[n].bias.value) else 0;
    if g.neurons[n].bias.Some? {
      assert ins[k0] in ins;
    }
    BiasWeightIs(es, 0.0, GetBias(g, n), k0);
  }

  /** Every input of a neuron of the net comes from the same or an earlier group. */
  ghost predicate FeedForward(g: Graph)
  {
    Closed(g) &&
    forall n: NeuronId, t | InNet(g, n) && t in g.neurons[n].ins ::
      t < |g.syn| && (g.syn[t].src.Some? ==>
        InNet(g, g.syn[t].src.value) && Position(g, g.syn[t].src.value).0 <= Position(g, n).0)
  }

  /** Layer `i` of a reloaded net resolves against the first `i + 1` layers. */
  lemma {:induction false} ReloadedNetAt(img: NetImage, i: nat)
    requires i < |img|
    ensures ReloadedNet(img)[i] == ReloadedLayer(ImageSizes(img[..i + 1]), img[i])
  {
    if i < |img| - 1 {
      var front := img[..|img| - 1];
      ReloadedNetAt(front, i);
      assert front[..i + 1] == img[..i + 1];
    } else {
      assert img[..i + 1] == img;
    }
  }

  /**
   * The view of a feed-forward net, reloaded: each neuron keeps every
   * connection, in reverse order, followed by its bias (0 when it had none).
   */
  lemma ReloadedFeedForward(g: Graph, i: nat, j: nat)
    requires BiasOk(g) && FeedForward(g) && i < |g.groups| && j < |g.layers[g.groups[i]]|
    ensures g.layers[g.groups[i]][j] < |g.neurons| && InNet(g, g.layers[g.groups[i]][j])
    ensures var n := g.layers[g.groups[i]][j];
            ReloadedNet(View(g))[i][j] == Reverse(Links(NeuronView(g, n))) + [Entry(-1, -1, GetBias(g, n))]
  {
    var img := View(g);
    var l := g.groups[i];
    assert l in g.groups;
    var n := g.layers[l][j];
    assert n in g.layers[l];
    assert IndexOf(g.groups, l) == i;
    var sizes := ImageSizes(img[..i + 1]);
    var es := NeuronView(g, n);
    assert img[i][j] == es;
    var ins := g.neurons[n].ins;
    forall k | 0 <= k < |es| && es[k].gi != -1
      ensures Resolves(sizes, es[k])
    {
      assert ins[k] in ins;
      var m := g.syn[ins[k]].src.value;
      var x := g.groups[Position(g, m).0];
      assert x in g.groups;
      assert sizes[Position(g, m).0] == |img[Position(g, m).0]| == |g.layers[x]|;
    }
    KeptLinks(sizes, es);
    NeuronBias(g, n);
    ReloadedNetAt(img, i);
  }

  /** Reversed, connection records stay connection records. */
  lemma ReverseLinks(es: seq<Entry>)
    ensures forall k | 0 <= k < |Links(es)| :: Reverse(Links(es))[k].gi != -1
  {
    forall k | 0 <= k < |Links(es)|
      ensures Reverse(Links(es))[k].gi != -1
    {
      ReverseAt(Links(es), k);
    }
  }

  /** A neuron whose records are connections followed by one bias record has that bias, and those connections. */
  lemma ViewParts(r: Graph, n: NeuronId, X: seq<Entry>, b: real)
    requires BiasOk(r) && Closed(r) && InNet(r, n)
    requires forall k | 0 <= k < |X| :: X[k].gi != -1
    requires NeuronView(r, n) == X + [Entry(-1, -1, b)]
    ensures GetBias(r, n) == b && Links(NeuronView(r, n)) == X
  {
    var es := NeuronView(r, n);
    ViewBias(r, n);
    var ins := r.neurons[n].ins;
    assert ins[|ins| - 1] in ins;
    LinksAll(X);
    assert es[..|es| - 1] == X;
  }

  /** A net whose view is the reload of another's has the same layer sizes. */
  lemma ReloadedSizes(g: Graph, r: Graph)
    requires Closed(g) && Closed(r) && View(r) == ReloadedNet(View(g))
    ensures Sizes(r) == Sizes(g)
  {
    forall i | 0 <= i < |g.groups|
      ensures Sizes(r)[i] == Sizes(g)[i]
    {
      assert g.groups[i] in g.groups;
      assert r.groups[i] in r.groups;
      assert |View(r)[i]| == |ReloadedNet(View(g))[i]| == |View(g)[i]|;
    }
  }

  /**
   * Neuron `j` of group `i` of `r` exists, as does its counterpart in `g`,
   * and has its counterpart's bias weight and its connection records in
   * reverse order.
   */
  ghost predicate Restored(g: Graph, r: Graph, i: nat, j: nat)
  {
    Closed(g) && BiasOk(g) && Closed(r) && BiasOk(r) &&
    i < |g.groups| && i < |r.groups| && j < |g.layers[g.groups[i]]| && j < |r.layers[r.groups[i]]| &&
    var n := g.layers[g.groups[i]][j];
    var n' := r.layers[r.groups[i]][j];
    InNet(g, n) && InNet(r, n') &&
    (g.neurons[n].bias.Some? ==> g.neurons[n].bias.value < |g.syn|) &&
    (r.neurons[n'].bias.Some? ==> r.neurons[n'].bias.value < |r.syn|) &&
    GetBias(r, n') == GetBias(g, n) &&
    Links(NeuronView(r, n')) == Reverse(Links(NeuronView(g, n)))
  }

  lemma ReloadedNeuron(g: Graph, r: Graph, i: nat, j: nat)
    requires BiasOk(g) && FeedForward(g) && BiasOk(r) && Closed(r)
    requires View(r) == ReloadedNet(View(g)) && Sizes(r) == Sizes(g)
    requires i < |g.groups| && j < |g.layers[g.groups[i]]|
    ensures Restored(g, r, i, j)
  {
    ReloadedFeedForward(g, i, j);
    var n := g.layers[g.groups[i]][j];
    var x := r.groups[i];
    assert x in r.groups;
    assert |r.layers[x]| == Sizes(r)[i] == Sizes(g)[i];
    var n' := r.layers[x][j];
    assert n' in r.layers[x];
    assert NeuronView(r, n') == View(r)[i][j];
    ReverseLinks(NeuronView(g, n));
    ViewParts(r, n', Reverse(Links(NeuronView(g, n))), GetBias(g, n));
    var ins := g.neurons[n].ins;
    if g.neurons[n].bias.Some? {
      assert g.neurons[n].bias.value in ins;
    }
    var ins' := r.neurons[n'].ins;
    if r.neurons[n'].bias.Some? {
      assert r.neurons[n'].bias.value in ins';
    }
  }

  lemma AllRestored(g: Graph, r: Graph)
    requires GroupsIn(g) && BiasOk(g) && FeedForward(g) && BiasOk(r) && Closed(r)
    requires View(r) == ReloadedNet(View(g)) && Sizes(r) == Sizes(g)
    ensures forall i: nat, j: nat | i < |g.groups| && j < |g.layers[g.groups[i]]| :: Restored(g, r, i, j)
  {
    forall i: nat, j: nat | i < |g.groups| && j < |g.layers[g.groups[i]]|
      ensures Restored(g, r, i, j)
    {
      ReloadedNeuron(g, r, i, j);
    }
  }

  /**
   * Saving a feed-forward net and loading it back gives a net with the
   * same layer sizes in which each neuron has the bias weight of its
   * counterpart and its connections, from the neurons at the same
   * positions with the same weights, in reverse order.
   */
  lemma SaveLoadFeedForward(g: Graph, base: Graph)
    requires GraphOk(g) && FeedForward(g) && GraphOk(base)
    ensures Loadable(base)
    ensures var r := LoadNet(base, View(g));
      GraphOk(r) && Closed(r) && Sizes(r) == Sizes(g) &&
      forall i: nat, j: nat | i < |g.groups| && j < |g.layers[g.groups[i]]| :: Restored(g, r, i, j)
  {
    LoadNetView(base, View(g));
    var r := LoadNet(base, View(g));
    ReloadedSizes(g, r);
    AllRestored(g, r);
  }
}
