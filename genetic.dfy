/**
 * `GATrainer` (GANet.h/.cpp): a population of nets of one shape, each
 * with a chromosome holding its weights as genes in the order of module
 * `WeightOrder`. `Train` scores every net on one input and turns its mean
 * output error into the fitness of its chromosome; `CreatePopulation`
 * then breeds the chromosomes pairwise from parents picked by roulette
 * wheel, swaps each net's chromosome buffers, mutates the genes and
 * writes them into the net as weights.
 *
 * The trainer's `nets` and `chromosomes` containers are sequences in list
 * order; attaching puts a new element at the front, as
 * `Container::Attach` does.
 */
module Genetic {
  import opened Util
  import opened Graph
  import opened NeuralNet
  import opened Genes
  import opened WeightOrder
  import opened Roulette
  import opened Breeding
  import BackProp

  /** `GATrainer::GetWeightCount(net)`: the number of input synapses of the neurons of the net's groups. */
  method GetWeightCount(net: LayeredNet) returns (count: int)
    requires InsOk(net.g) && LayersOk(net.g)
    ensures count == |Slots(net.g)|
  {
    var g := net.g;
    LayersOkIn(g);
    ghost var N, L := g.neurons, g.layers;
    ghost var S := Slots(g);
    assert g.groups[0..] == g.groups;
    count := 0;
    var gi := 0;
    while gi < |g.groups|
      invariant 0 <= gi <= |g.groups| && count + |GroupsSlots(N, L, g.groups[gi..])| == |S|
    {
      var ns := g.layers[g.groups[gi]];
      GroupStep(g, gi);
      assert ns[0..] == ns;
      var j := 0;
      while j < |ns|
        invariant 0 <= j <= |ns|
        invariant count + |NeuronsSlots(N, ns[j..])| + |GroupsSlots(N, L, g.groups[gi + 1..])| == |S|
      {
        var ins := g.neurons[ns[j]].ins;
        NeuronStep(N, ns, j);
        var t := 0;
        while t < |ins|
          invariant 0 <= t <= |ins|
          invariant count + (|ins| - t) + |NeuronsSlots(N, ns[j + 1..])| + |GroupsSlots(N, L, g.groups[gi + 1..])| == |S|
        {
          count := count + 1;
          t := t + 1;
        }
        j := j + 1;
      }
      assert ns[j..] == [];
      gi := gi + 1;
    }
    assert g.groups[gi..] == [];
  }

  /** Where `X + R` lies in `S` at `i`, `X` lies at `i` and `R` at `j`, just after `X`. */
  lemma SplitAt<T>(S: seq<T>, i: nat, X: seq<T>, R: seq<T>, j: nat)
    requires j == i + |X| && j + |R| <= |S| && forall k | 0 <= k < |X + R| :: (X + R)[k] == S[i + k]
    ensures forall k | 0 <= k < |X| :: X[k] == S[i + k]
    ensures forall k | 0 <= k < |R| :: R[k] == S[j + k]
  {
    forall k | 0 <= k < |X|
      ensures X[k] == S[i + k]
    {
      assert X[k] == (X + R)[k];
    }
    forall k | 0 <= k < |R|
      ensures R[k] == S[j + k]
    {
      assert R[k] == (X + R)[|X| + k];
    }
  }

  /** Where the groups from `gi` on have their slots at `i` in `S`, group `gi`'s layer has its slots at `i` and the later groups theirs just after. */
  lemma GroupSplit(N: seq<Neuron>, L: seq<seq<NeuronId>>, groups: seq<LayerId>, gi: nat, S: seq<SynId>, i: nat)
    requires gi < |groups| && forall k | 0 <= k < |groups| :: groups[k] < |L|
    requires forall l, k | 0 <= l < |L| && 0 <= k < |L[l]| :: L[l][k] < |N|
    requires i <= |S| && S[i..] == GroupsSlots(N, L, groups[gi..])
    ensures var X := NeuronsSlots(N, L[groups[gi]]);
      i + |X| <= |S| && (forall k | 0 <= k < |X| :: X[k] == S[i + k]) && S[i + |X|..] == GroupsSlots(N, L, groups[gi + 1..])
  {
    var X, R := NeuronsSlots(N, L[groups[gi]]), GroupsSlots(N, L, groups[gi + 1..]);
    assert groups[gi..][1..] == groups[gi + 1..];
    assert S[i..] == X + R;
    forall k | 0 <= k < |X|
      ensures X[k] == S[i + k]
    {
      assert X[k] == S[i..][k];
    }
    assert S[i + |X|..] == S[i..][|X|..];
  }

  /** The inner loop of `GetWeights`: genes `i` on get the weights of the synapses `ins`, which come at `i` in the order `S`. */
  method GetNeuronGenes(g: Graph, chromosome: Chromosome, ins: seq<SynId>, i: nat, ghost S: seq<SynId>) returns (next: nat)
    requires chromosome.Valid() && i + |ins| <= chromosome.genecount && i + |ins| <= |S|
    requires forall k | 0 <= k < |S| :: S[k] < |g.syn|
    requires forall k | 0 <= k < |ins| :: ins[k] == S[i + k]
    modifies chromosome.genes
    ensures next == i + |ins|
    ensures forall k | i <= k < next :: chromosome.genes[k] == g.syn[S[k]].weight
    ensures forall k | 0 <= k < chromosome.genes.Length && !(i <= k < next) :: chromosome.genes[k] == old(chromosome.genes[k])
  {
    next := i;
    var t := 0;
    while t < |ins|
      invariant 0 <= t <= |ins| && next == i + t
      invariant forall k | i <= k < next :: chromosome.genes[k] == g.syn[S[k]].weight
      invariant forall k | 0 <= k < chromosome.genes.Length && !(i <= k < next) :: chromosome.genes[k] == old(chromosome.genes[k])
    {
      chromosome.genes[next] := g.syn[ins[t]].weight;
      next := next + 1;
      t := t + 1;
    }
  }

  /** The middle loop of `GetWeights`: genes `i` on get the weights of the inputs of the neurons `ns`, which come at `i` in the order `S`. */
  method GetLayerGenes(g: Graph, chromosome: Chromosome, ns: seq<NeuronId>, i: nat, ghost S: seq<SynId>) returns (next: nat)
    requires forall k | 0 <= k < |ns| :: ns[k] < |g.neurons|
    requires forall k | 0 <= k < |S| :: S[k] < |g.syn|
    requires chromosome.Valid() && i + |NeuronsSlots(g.neurons, ns)| <= chromosome.genecount && i + |NeuronsSlots(g.neurons, ns)| <= |S|
    requires forall k | 0 <= k < |NeuronsSlots(g.neurons, ns)| :: NeuronsSlots(g.neurons, ns)[k] == S[i + k]
    modifies chromosome.genes
    ensures next == i + |NeuronsSlots(g.neurons, ns)|
    ensures forall k | i <= k < next :: chromosome.genes[k] == g.syn[S[k]].weight
    ensures forall k | 0 <= k < chromosome.genes.Length && !(i <= k < next) :: chromosome.genes[k] == old(chromosome.genes[k])
  {
    assert ns[0..] == ns;
    next := i;
    var j := 0;
    while j < |ns|
      invariant 0 <= j <= |ns| && i <= next && next + |NeuronsSlots(g.neurons, ns[j..])| == i + |NeuronsSlots(g.neurons, ns)|
      invariant forall k | 0 <= k < |NeuronsSlots(g.neurons, ns[j..])| :: NeuronsSlots(g.neurons, ns[j..])[k] == S[next + k]
      invariant forall k | i <= k < next :: chromosome.genes[k] == g.syn[S[k]].weight
      invariant forall k | 0 <= k < chromosome.genes.Length && !(i <= k < next) :: chromosome.genes[k] == old(chromosome.genes[k])
    {
      var ins := g.neurons[ns[j]].ins;
      ghost var R := NeuronsSlots(g.neurons, ns[j + 1..]);
      assert ns[j..][1..] == ns[j + 1..];
      assert NeuronsSlots(g.neurons, ns[j..]) == ins + R;
      SplitAt(S, next, ins, R, next + |ins|);
      next := GetNeuronGenes(g, chromosome, ins, next, S);
      j := j + 1;
    }
  }

  /** The outer loop of `GetWeights`: the first genes get the weights of the synapses `S` visited layer by layer over `groups`. */
  method GetGroupsGenes(g: Graph, chromosome: Chromosome, ghost S: seq<SynId>)
    requires forall k | 0 <= k < |g.groups| :: g.groups[k] < |g.layers|
    requires forall l, k | 0 <= l < |g.layers| && 0 <= k < |g.layers[l]| :: g.layers[l][k] < |g.neurons|
    requires S == GroupsSlots(g.neurons, g.layers, g.groups) && forall k | 0 <= k < |S| :: S[k] < |g.syn|
    requires chromosome.Valid() && |S| <= chromosome.genecount
    modifies chromosome.genes
    ensures forall k | 0 <= k < |S| :: chromosome.genes[k] == g.syn[S[k]].weight
    ensures forall k | |S| <= k < chromosome.genes.Length :: chromosome.genes[k] == old(chromosome.genes[k])
  {
    assert g.groups[0..] == g.groups;
    var i: nat := 0;
    var gi := 0;
    while gi < |g.groups|
      invariant 0 <= gi <= |g.groups| && i <= |S| && S[i..] == GroupsSlots(g.neurons, g.layers, g.groups[gi..])
      invariant forall k | 0 <= k < i :: chromosome.genes[k] == g.syn[S[k]].weight
      invariant forall k | i <= k < chromosome.genes.Length :: chromosome.genes[k] == old(chromosome.genes[k])
    {
      var ns := g.layers[g.groups[gi]];
      GroupSplit(g.neurons, g.layers, g.groups, gi, S, i);
      i := GetLayerGenes(g, chromosome, ns, i, S);
      gi := gi + 1;
    }
  }

  /** `GATrainer::GetWeights(net, chromosome)`: the chromosome's first genes become the net's weights in the trainer's order. */
  method GetWeights(net: LayeredNet, chromosome: Chromosome)
    requires net.Valid() && chromosome.Valid() && |Slots(net.g)| <= chromosome.genecount
    modifies chromosome.genes
    ensures chromosome.genes[..|Slots(net.g)|] == Weights(net.g)
    ensures chromosome.genes[|Slots(net.g)|..] == old(chromosome.genes[|Slots(net.g)|..])
  {
    var g := net.g;
    LayersOkIn(g);
    GetGroupsGenes(g, chromosome, Slots(g));
  }

  /** The inner loop of `SetWeights`: the synapses `ins`, which come at `i` in the order `S`, get genes `i` on as weights. */
  method SetNeuronWeights(net: LayeredNet, genes: array<real>, ins: seq<SynId>, i: nat, ghost G: Graph, ghost S: seq<SynId>)
    returns (next: nat)
    requires i + |ins| <= |S| <= genes.Length && forall k | 0 <= k < |S| :: S[k] < |G.syn|
    requires forall k | 0 <= k < |ins| :: ins[k] == S[i + k]
    requires net.g == WithWeights(G, S[..i], genes[..])
    modifies net
    ensures next == i + |ins| && net.g == WithWeights(G, S[..next], genes[..])
    ensures net.data == old(net.data) && net.tempdouble == old(net.tempdouble) && net.tempint == old(net.tempint)
  {
    next := i;
    var t := 0;
    while t < |ins|
      invariant 0 <= t <= |ins| && next == i + t && net.g == WithWeights(G, S[..next], genes[..])
      invariant net.data == old(net.data) && net.tempdouble == old(net.tempdouble) && net.tempint == old(net.tempint)
    {
      assert S[..next + 1][..next] == S[..next];
      var s := ins[t];
      net.g := net.g.(syn := net.g.syn[s := net.g.syn[s].(weight := genes[next])]);
      next := next + 1;
      t := t + 1;
    }
  }

  /** The middle loop of `SetWeights`: the inputs of the neurons `ns`, which come at `i` in the order `S`, get genes `i` on. */
  method SetLayerWeights(net: LayeredNet, genes: array<real>, ns: seq<NeuronId>, i: nat, ghost G: Graph, ghost S: seq<SynId>)
    returns (next: nat)
    requires forall k | 0 <= k < |ns| :: ns[k] < |G.neurons|
    requires i + |NeuronsSlots(G.neurons, ns)| <= |S| <= genes.Length && forall k | 0 <= k < |S| :: S[k] < |G.syn|
    requires forall k | 0 <= k < |NeuronsSlots(G.neurons, ns)| :: NeuronsSlots(G.neurons, ns)[k] == S[i + k]
    requires net.g == WithWeights(G, S[..i], genes[..])
    modifies net
    ensures next == i + |NeuronsSlots(G.neurons, ns)| && net.g == WithWeights(G, S[..next], genes[..])
    ensures net.data == old(net.data) && net.tempdouble == old(net.tempdouble) && net.tempint == old(net.tempint)
  {
    assert ns[0..] == ns;
    ghost var rest := NeuronsSlots(G.neurons, ns);
    next := i;
    var j := 0;
    while j < |ns|
      invariant 0 <= j <= |ns| && rest == NeuronsSlots(G.neurons, ns[j..]) && next + |rest| == i + |NeuronsSlots(G.neurons, ns)|
      invariant forall k | 0 <= k < |rest| :: rest[k] == S[next + k]
      invariant net.g == WithWeights(G, S[..next], genes[..])
      invariant net.data == old(net.data) && net.tempdouble == old(net.tempdouble) && net.tempint == old(net.tempint)
    {
      var ins := net.g.neurons[ns[j]].ins;
      ghost var R := NeuronsSlots(G.neurons, ns[j + 1..]);
      assert ns[j..][1..] == ns[j + 1..];
      assert rest == ins + R;
      SplitAt(S, next, ins, R, next + |ins|);
      next := SetNeuronWeights(net, genes, ins, next, G, S);
      rest := R;
      j := j + 1;
    }
  }

  /** The outer loop of `SetWeights`: the synapses `S`, visited layer by layer over the groups, get the genes in order. */
  method SetGroupsWeights(net: LayeredNet, genes: array<real>, ghost G: Graph, ghost S: seq<SynId>)
    requires forall k | 0 <= k < |G.groups| :: G.groups[k] < |G.layers|
    requires forall l, k | 0 <= l < |G.layers| && 0 <= k < |G.layers[l]| :: G.layers[l][k] < |G.neurons|
    requires S == GroupsSlots(G.neurons, G.layers, G.groups) && |S| <= genes.Length && forall k | 0 <= k < |S| :: S[k] < |G.syn|
    requires net.g == G
    modifies net
    ensures net.g == WithWeights(G, S, genes[..])
    ensures net.data == old(net.data) && net.tempdouble == old(net.tempdouble) && net.tempint == old(net.tempint)
  {
    ghost var N, L := G.neurons, G.layers;
    assert G.groups[0..] == G.groups;
    assert S[..0] == [];
    ghost var rest := S;
    var i: nat := 0;
    var gi := 0;
    while gi < |net.g.groups|
      invariant net.g.groups == G.groups && net.g.layers == L
      invariant 0 <= gi <= |G.groups| && rest == GroupsSlots(N, L, G.groups[gi..]) && i + |rest| == |S|
      invariant forall k | 0 <= k < |rest| :: rest[k] == S[i + k]
      invariant net.g == WithWeights(G, S[..i], genes[..])
      invariant net.data == old(net.data) && net.tempdouble == old(net.tempdouble) && net.tempint == old(net.tempint)
    {
      var ns := net.g.layers[net.g.groups[gi]];
      ghost var X := NeuronsSlots(N, ns);
      ghost var R := GroupsSlots(N, L, G.groups[gi + 1..]);
      assert G.groups[gi..][1..] == G.groups[gi + 1..];
      assert rest == X + R;
      SplitAt(S, i, X, R, i + |X|);
      i := SetLayerWeights(net, genes, ns, i, G, S);
      rest := R;
      gi := gi + 1;
    }
    assert S[..i] == S;
  }

  /**
   * `GATrainer::SetWeights(net, chromosome)`: the net's weights become the
   * chromosome's first genes in the trainer's order; nothing else of the
   * net changes.
   */
  method SetWeights(net: LayeredNet, chromosome: Chromosome)
    requires InsOk(net.g) && LayersOk(net.g) && chromosome.Valid() && |Slots(net.g)| <= chromosome.genecount
    modifies net
    ensures net.g == WithWeights(old(net.g), Slots(old(net.g)), chromosome.genes[..])
    ensures net.data == old(net.data) && net.tempdouble == old(net.tempdouble) && net.tempint == old(net.tempint)
  {
    LayersOkIn(net.g);
    SetGroupsWeights(net, chromosome.genes, net.g, Slots(net.g));
  }

  /** The fitness of each chromosome, in list order. */
  ghost function Fitnesses(cs: seq<Chromosome>): (F: seq<real>)
    reads cs
    ensures |F| == |cs| && forall i | 0 <= i < |cs| :: F[i] == cs[i].fitness
  {
    seq(|cs|, i requires 0 <= i < |cs| reads cs => cs[i].fitness)
  }

  /** `F` lists the fitness of the chromosomes `cs`, in order. */
  ghost predicate Scored(cs: seq<Chromosome>, F: seq<real>)
    reads cs
  {
    |F| == |cs| && forall i | 0 <= i < |cs| :: cs[i].fitness == F[i]
  }

  /** The gene buffers of the chromosomes `cs` are among `B`. */
  ghost predicate Owned(cs: seq<Chromosome>, B: set<array<real>>)
    reads cs
  {
    forall i | 0 <= i < |cs| :: cs[i].genes in B
  }

  /** `G` holds the genes of the chromosomes `cs`, in order. */
  ghost predicate Holding(cs: seq<Chromosome>, G: seq<seq<real>>)
    reads cs, set c | c in cs :: c.genes
  {
    |G| == |cs| && forall i | 0 <= i < |cs| :: cs[i].genes[..] == G[i]
  }

  /** Chromosomes `i` and `j` of `cs` share no buffer. */
  ghost predicate Apart(cs: seq<Chromosome>, i: nat, j: nat)
    requires i < |cs| && j < |cs|
    reads cs
  {
    cs[i].genes != cs[j].genes && cs[i].genes != cs[j].newgenes && cs[i].newgenes != cs[j].newgenes
  }

  /** The chromosomes `cs` are well formed with `n` genes each and no gene buffer is shared by two of them. */
  ghost predicate Pool(cs: seq<Chromosome>, n: nat)
    reads cs
  {
    (forall i | 0 <= i < |cs| :: cs[i].Valid() && cs[i].genecount == n) &&
    forall i, j | 0 <= i < |cs| && 0 <= j < |cs| && i != j :: Apart(cs, i, j)
  }

  /** A chromosome with two new buffers joins a pool at the front. */
  lemma PoolPrepend(c: Chromosome, cs: seq<Chromosome>, n: nat)
    requires Pool(cs, n) && c.Valid() && c.genecount == n
    requires forall i | 0 <= i < |cs| :: c.genes !in cs[i].Buffers() && c.newgenes !in cs[i].Buffers()
    ensures Pool([c] + cs, n)
  {
    var ds := [c] + cs;
    forall i, j | 0 <= i < |ds| && 0 <= j < |ds| && i != j
      ensures Apart(ds, i, j)
    {
      if i > 0 && j > 0 {
        assert Apart(cs, i - 1, j - 1);
      }
    }
  }

  /** Net `net` is well formed and has no more than `n` weights. */
  ghost predicate NetOk(net: LayeredNet, n: nat)
    reads net
  {
    net.Valid() && |Slots(net.g)| <= n
  }

  /** Every net of `nets` is well formed and has no more than `n` weights. */
  ghost predicate NetsOk(nets: seq<LayeredNet>, n: nat)
    reads nets
    decreases |nets|
  {
    nets == [] || (NetOk(nets[0], n) && NetsOk(nets[1..], n))
  }

  /** `NetsOk` holds exactly when it holds of each net. */
  lemma {:induction false} NetsOkAll(nets: seq<LayeredNet>, n: nat)
    ensures NetsOk(nets, n) <==> forall i | 0 <= i < |nets| :: NetOk(nets[i], n)
    decreases |nets|
  {
    if nets != [] {
      NetsOkAll(nets[1..], n);
      if forall i | 0 <= i < |nets| :: NetOk(nets[i], n) {
        assert forall i | 0 <= i < |nets[1..]| :: NetOk(nets[1..][i], n) by {
          forall i | 0 <= i < |nets[1..]| ensures NetOk(nets[1..][i], n) {
            assert nets[1..][i] == nets[i + 1];
          }
        }
      }
      if NetsOk(nets, n) {
        forall i | 0 <= i < |nets| ensures NetOk(nets[i], n) {
          if i > 0 {
            assert nets[i] == nets[1..][i - 1];
          }
        }
      }
    }
  }

  /** A net that is well formed with at most `n` weights joins the nets at the front. */
  lemma NetsOkPrepend(net: LayeredNet, nets: seq<LayeredNet>, n: nat)
    requires NetsOk(nets, n) && NetOk(net, n)
    ensures NetsOk([net] + nets, n)
  {
    assert ([net] + nets)[1..] == nets;
  }

  /** A chromosome at the front puts its fitness at the front. */
  lemma FitPrepend(c: Chromosome, cs: seq<Chromosome>)
    requires Fit(Fitnesses(cs)) && c.fitness >= 0.0
    ensures Fit(Fitnesses([c] + cs))
  {
    assert Fitnesses([c] + cs) == [c.fitness] + Fitnesses(cs);
  }

  /**
   * The write of one round of `CreatePopulation`: `CrossOver` from the
   * chromosomes `a` and `b` of `cs` into chromosome `k` and the next one, or
   * `k` alone when it is the last; `G` holds their genes before.
   */
  method CrossInto(cs: seq<Chromosome>, k: nat, ghost a: nat, ghost b: nat, ina: Chromosome, inb: Chromosome,
                   rate: real, u: real, flip: nat, ghost n: nat, ghost G: seq<seq<real>>, ghost B: set<array<real>>,
                   ghost F: seq<real>)
    requires Pool(cs, n) && k < |cs| && a < |cs| && b < |cs| && ina == cs[a] && inb == cs[b]
    requires Holding(cs, G) && Owned(cs, B) && Scored(cs, F)
    modifies cs[k].genes, cs[Partner(|cs|, k)].genes
    ensures Shaped(G, n) && Pool(cs, n) && Owned(cs, B) && Scored(cs, F)
    ensures var r := Crossed(G[k], G[Partner(|cs|, k)], G[a], G[b], FlipPoint(n, rate, u, a == b, flip), n,
                             b == k, a == k, Partner(|cs|, k) == k);
      Holding(cs, G[k := r.0][Partner(|cs|, k) := r.1])
  {
    assert Shaped(G, n) by {
      forall i | 0 <= i < |G| ensures |G[i]| == n {
        assert cs[i].genes[..] == G[i];
      }
    }
    ghost var k2 := Partner(|cs|, k);
    var outa := cs[k];
    var outb := if k + 1 < |cs| then cs[k + 1] else outa;
    assert outb == cs[k2];
    assert (b != k ==> Apart(cs, b, k)) && (a != k ==> Apart(cs, a, k)) && (k2 != k ==> Apart(cs, k2, k));
    assert a != b ==> Apart(cs, a, b);
    assert (inb.genes == outa.genes) == (b == k);
    assert (ina.genes == outa.genes) == (a == k);
    assert (outa.genes == outb.genes) == (k2 == k);
    assert (ina == inb) == (a == b);
    ghost var r := Crossed(G[k], G[k2], G[a], G[b], FlipPoint(n, rate, u, a == b, flip), n, b == k, a == k, k2 == k);
    CrossOver(ina, inb, outa, outb, rate, u, flip);
    assert outa.genes[..] == r.0 && outb.genes[..] == r.1;
    forall i | 0 <= i < |G|
      ensures cs[i].genes[..] == G[k := r.0][k2 := r.1][i]
    {
      if i != k && i != k2 {
        assert Apart(cs, i, k) && Apart(cs, i, k2);
        assert cs[i].genes[..] == old(cs[i].genes[..]);
      }
    }
  }

  /** The draws of one chromosome's `Mutate`: a pick and an offset per gene. */
  datatype MutationDraws = MutationDraws(picks: seq<real>, offs: seq<real>)

  /** Every chromosome's mutation draws cover `n` genes. */
  predicate MutationsOk(ms: seq<MutationDraws>, n: nat)
  {
    forall j | 0 <= j < |ms| :: |ms[j].picks| == n && |ms[j].offs| == n
  }

  /** `N` holds the `newgenes` buffers of the chromosomes `cs`, in order. */
  ghost predicate Spare(cs: seq<Chromosome>, N: seq<seq<real>>)
    reads cs, set c | c in cs :: c.newgenes
  {
    |N| == |cs| && forall i | 0 <= i < |cs| :: cs[i].newgenes[..] == N[i]
  }

  /** `W` lists the graphs of the nets, in order. */
  ghost predicate Wearing(nets: seq<LayeredNet>, W: seq<Graph>)
    reads nets
  {
    |W| == |nets| && forall j | 0 <= j < |nets| :: nets[j].g == W[j]
  }

  /**
   * The genes after the second loop of `CreatePopulation` has handled the
   * first `m` nets: chromosome `i < m` holds its former spare buffer `N[i]`,
   * mutated with the draws `ms[i]`; the others still hold `G[i]`.
   */
  function RenewedGenes(G: seq<seq<real>>, N: seq<seq<real>>, ms: seq<MutationDraws>, rate: real, maxoffset: real, n: nat, m: nat)
    : (R: seq<seq<real>>)
    requires |N| == |G| && Shaped(N, n) && m <= |G| && m <= |ms| && MutationsOk(ms, n)
    ensures |R| == |G|
  {
    seq(|G|, i requires 0 <= i < |G| => if i < m then MutatedGenes(N[i], rate, maxoffset, ms[i].picks, ms[i].offs) else G[i])
  }

  /** The spare buffers after the same `m` nets: chromosome `i < m` keeps its former genes `G[i]` there. */
  function RenewedSpare(G: seq<seq<real>>, N: seq<seq<real>>, m: nat): (R: seq<seq<real>>)
    requires |N| == |G| && m <= |G|
    ensures |R| == |G|
  {
    seq(|G|, i requires 0 <= i < |G| => if i < m then G[i] else N[i])
  }

  /**
   * Graph `g` after `SetWeights` has written the genes `w` into it: its
   * weights in the trainer's order become the first genes. A graph that is
   * not well formed, or has more weights than genes, is left as it is.
   */
  ghost function Rewired(g: Graph, w: seq<real>): (h: Graph)
  {
    if InsOk(g) && LayersOk(g) && |Slots(g)| <= |w| then WithWeights(g, Slots(g), w) else g
  }

  /** Writing genes into a well-formed net keeps it well formed, and the net's weights read back as those genes. */
  lemma RewiredOk(g: Graph, w: seq<real>)
    requires GraphOk(g) && |Slots(g)| <= |w|
    ensures GraphOk(Rewired(g, w)) && Slots(Rewired(g, w)) == Slots(g) && Weights(Rewired(g, w)) == w[..|Slots(g)|]
  {
    WithWeightsOk(g, w);
    SetThenGet(g, w);
  }

  /** The graphs after the same `m` nets: net `j < m` has the genes `R[j]` as weights. */
  ghost function RenewedGraphs(W: seq<Graph>, R: seq<seq<real>>, m: nat): (V: seq<Graph>)
    requires m <= |W| <= |R|
    ensures |V| == |W|
  {
    seq(|W|, j requires 0 <= j < |W| => if j < m then Rewired(W[j], R[j]) else W[j])
  }

  /** One more chromosome renewed: chromosome `j` gets its mutated spare buffer in front and its genes behind. */
  lemma RenewedStep(G: seq<seq<real>>, N: seq<seq<real>>, ms: seq<MutationDraws>, rate: real, maxoffset: real, n: nat, j: nat)
    requires |N| == |G| && Shaped(N, n) && j < |G| && j < |ms| && MutationsOk(ms, n)
    ensures RenewedGenes(G, N, ms, rate, maxoffset, n, j + 1)
         == RenewedGenes(G, N, ms, rate, maxoffset, n, j)[j := MutatedGenes(N[j], rate, maxoffset, ms[j].picks, ms[j].offs)]
    ensures RenewedSpare(G, N, j + 1) == RenewedSpare(G, N, j)[j := G[j]]
    ensures RenewedGenes(G, N, ms, rate, maxoffset, n, j)[j] == G[j] && RenewedSpare(G, N, j)[j] == N[j]
  {
  }

  /** One more net reweighted: net `j` gets the genes `R[j]` as weights. */
  lemma RenewedGraphsStep(W: seq<Graph>, R: seq<seq<real>>, j: nat)
    requires j < |W| <= |R|
    ensures RenewedGraphs(W, R, j + 1) == RenewedGraphs(W, R, j)[j := Rewired(W[j], R[j])]
    ensures RenewedGraphs(W, R, j)[j] == W[j]
  {
  }

  /** Both buffers of each chromosome of `cs` are among `B`. */
  ghost predicate Banked(cs: seq<Chromosome>, B: set<array<real>>)
    reads cs
  {
    forall i | 0 <= i < |cs| :: cs[i].genes in B && cs[i].newgenes in B
  }

  /**
   * The first two calls of a pass of the second loop of `CreatePopulation`,
   * on chromosome `j`: `Update` swaps its buffers and `Mutate` changes the
   * genes now in front. `C` and `D` hold the genes and the spare buffers before.
   */
  method SwapMutate(cs: seq<Chromosome>, j: nat, rate: real, maxoffset: real, md: MutationDraws,
                    ghost n: nat, ghost C: seq<seq<real>>, ghost D: seq<seq<real>>, ghost F: seq<real>, ghost B: set<array<real>>)
    requires Pool(cs, n) && j < |cs| && |md.picks| == n && |md.offs| == n
    requires Holding(cs, C) && Spare(cs, D) && Scored(cs, F) && Banked(cs, B)
    modifies cs[j], cs[j].newgenes
    ensures Shaped(D, n) && Pool(cs, n) && Scored(cs, F) && Banked(cs, B)
    ensures cs[j].genes == old(cs[j].newgenes) && cs[j].newgenes == old(cs[j].genes)
    ensures Holding(cs, C[j := MutatedGenes(D[j], rate, maxoffset, md.picks, md.offs)]) && Spare(cs, D[j := C[j]])
  {
    assert Shaped(D, n) by {
      forall i | 0 <= i < |D| ensures |D[i]| == n {
        assert cs[i].newgenes[..] == D[i];
      }
    }
    var c := cs[j];
    c.Update();
    c.Mutate(rate, maxoffset, md.picks, md.offs);
    forall i | 0 <= i < |cs| && i != j
      ensures cs[i].genes[..] == C[i] && cs[i].newgenes[..] == D[i]
    {
      assert old(Apart(cs, i, j));
      assert cs[i] != c && cs[i].genes != c.genes && cs[i].newgenes != c.genes;
    }
    forall x, y | 0 <= x < |cs| && 0 <= y < |cs| && x != y
      ensures Apart(cs, x, y)
    {
      assert old(Apart(cs, x, y)) && old(Apart(cs, y, x));
    }
  }

  /**
   * The last call of a pass of the second loop of `CreatePopulation`:
   * `SetWeights` writes the genes of `c` into net `j`. `W` holds the graphs
   * before.
   */
  method Reweigh(nets: seq<LayeredNet>, j: nat, c: Chromosome, ghost n: nat, ghost W: seq<Graph>)
    requires Distinct(nets) && j < |nets| && c.Valid() && c.genecount == n
    requires NetsOk(nets, n) && Wearing(nets, W)
    modifies nets[j]
    ensures NetsOk(nets, n) && Wearing(nets, W[j := Rewired(W[j], c.genes[..])])
  {
    NetsOkAll(nets, n);
    var net := nets[j];
    assert NetOk(net, n);
    SetWeights(net, c);
    WithWeightsOk(W[j], c.genes[..]);
    forall i | 0 <= i < |nets| && i != j
      ensures nets[i].g == W[i] && NetOk(nets[i], n)
    {
      assert nets[i] != net;
    }
    NetsOkAll(nets, n);
  }

  /**
   * One pass of the second loop of `CreatePopulation`, on chromosome `j`
   * and net `j`: `Update`, `Mutate`, then `SetWeights`. `C`, `D` and `V`
   * hold the genes, the spare buffers and the graphs before; the results
   * hold them after.
   */
  method RenewRound(cs: seq<Chromosome>, nets: seq<LayeredNet>, j: nat, rate: real, maxoffset: real, md: MutationDraws,
                    ghost n: nat, ghost C: seq<seq<real>>, ghost D: seq<seq<real>>, ghost V: seq<Graph>,
                    ghost F: seq<real>, ghost B: set<array<real>>)
    returns (ghost C': seq<seq<real>>, ghost D': seq<seq<real>>, ghost V': seq<Graph>)
    requires Pool(cs, n) && Distinct(nets) && j < |nets| <= |cs| && |md.picks| == n && |md.offs| == n
    requires NetsOk(nets, n) && Holding(cs, C) && Spare(cs, D) && Wearing(nets, V) && Scored(cs, F) && Banked(cs, B)
    modifies cs[j], cs[j].newgenes, nets[j]
    ensures Shaped(D, n) && Pool(cs, n) && Scored(cs, F) && Banked(cs, B) && NetsOk(nets, n)
    ensures Holding(cs, C') && Spare(cs, D') && Wearing(nets, V')
    ensures C' == C[j := MutatedGenes(D[j], rate, maxoffset, md.picks, md.offs)] && D' == D[j := C[j]]
    ensures V' == V[j := Rewired(V[j], C'[j])]
  {
    SwapMutate(cs, j, rate, maxoffset, md, n, C, D, F, B);
    C' := C[j := MutatedGenes(D[j], rate, maxoffset, md.picks, md.offs)];
    D' := D[j := C[j]];
    assert forall i | 0 <= i < |cs| :: cs[i] as object != nets[j] && cs[i].genes as object != nets[j] && cs[i].newgenes as object != nets[j];
    Reweigh(nets, j, cs[j], n, V);
    V' := V[j := Rewired(V[j], C'[j])];
  }

  /** A pass of the second loop of `CreatePopulation` takes its state from net `j` to net `j + 1`. */
  lemma RenewAdvance(G: seq<seq<real>>, N: seq<seq<real>>, ms: seq<MutationDraws>, rate: real, maxoffset: real, n: nat,
                     W: seq<Graph>, j: nat, C: seq<seq<real>>, D: seq<seq<real>>, V: seq<Graph>)
    requires |N| == |G| && Shaped(N, n) && j < |W| <= |G| && |ms| == |W| && MutationsOk(ms, n)
    requires C == RenewedGenes(G, N, ms, rate, maxoffset, n, j) && D == RenewedSpare(G, N, j)
    requires V == RenewedGraphs(W, RenewedGenes(G, N, ms, rate, maxoffset, n, |W|), j)
    ensures D[j] == N[j] && V[j] == W[j]
    ensures var r := MutatedGenes(D[j], rate, maxoffset, ms[j].picks, ms[j].offs);
      C[j := r] == RenewedGenes(G, N, ms, rate, maxoffset, n, j + 1) && D[j := C[j]] == RenewedSpare(G, N, j + 1) &&
      V[j := Rewired(V[j], r)] == RenewedGraphs(W, RenewedGenes(G, N, ms, rate, maxoffset, n, |W|), j + 1)
  {
    RenewedStep(G, N, ms, rate, maxoffset, n, j);
    RenewedGraphsStep(W, RenewedGenes(G, N, ms, rate, maxoffset, n, |W|), j);
  }

  /**
   * The second loop of `CreatePopulation`: for each net in turn, its
   * chromosome swaps its buffers, mutates the genes now in front and
   * gives them to the net as weights. `G`, `N` and `W` hold the genes,
   * the spare buffers and the graphs before.
   */
  method Renew(cs: seq<Chromosome>, nets: seq<LayeredNet>, rate: real, maxoffset: real, ms: seq<MutationDraws>,
               ghost n: nat, ghost G: seq<seq<real>>, ghost N: seq<seq<real>>, ghost W: seq<Graph>,
               ghost F: seq<real>, ghost B: set<array<real>>, ghost O: set<object>)
    requires Pool(cs, n) && Distinct(nets) && |nets| <= |cs| && NetsOk(nets, n)
    requires (forall i | 0 <= i < |cs| :: cs[i] in O) && forall j | 0 <= j < |nets| :: nets[j] in O
    requires |ms| == |nets| && MutationsOk(ms, n)
    requires Holding(cs, G) && Spare(cs, N) && Wearing(nets, W) && Scored(cs, F)
    requires Banked(cs, B)
    modifies O, B
    ensures Shaped(N, n) && Pool(cs, n) && NetsOk(nets, n) && Scored(cs, F) && Banked(cs, B)
    ensures var R := RenewedGenes(G, N, ms, rate, maxoffset, n, |nets|);
      Holding(cs, R) && Spare(cs, RenewedSpare(G, N, |nets|)) && Wearing(nets, RenewedGraphs(W, R, |nets|))
  {
    assert Shaped(N, n) by {
      forall i | 0 <= i < |N| ensures |N[i]| == n {
        assert cs[i].newgenes[..] == N[i];
      }
    }
    ghost var C, D, V := G, N, W;
    var j := 0;
    while j < |nets|
      invariant j <= |nets| && Pool(cs, n) && Scored(cs, F) && Banked(cs, B)
      invariant NetsOk(nets, n) && Holding(cs, C) && Spare(cs, D) && Wearing(nets, V)
      invariant C == RenewedGenes(G, N, ms, rate, maxoffset, n, j) && D == RenewedSpare(G, N, j)
      invariant V == RenewedGraphs(W, RenewedGenes(G, N, ms, rate, maxoffset, n, |nets|), j)
    {
      RenewAdvance(G, N, ms, rate, maxoffset, n, W, j, C, D, V);
      C, D, V := RenewRound(cs, nets, j, rate, maxoffset, ms[j], n, C, D, V, F, B);
      assert C == RenewedGenes(G, N, ms, rate, maxoffset, n, j + 1) && D == RenewedSpare(G, N, j + 1);
      j := j + 1;
    }
  }

  /**
   * The sizes one pass of `Train` needs from net graph `g`: an input and an
   * output layer, at least as many inputs as input neurons, and a desired
   * value and a buffer slot per output neuron.
   */
  predicate Runnable(g: Graph, inputs: nat, desired: nat, outputs: nat)
  {
    g.input.Some? && g.output.Some? && g.input.value < |g.layers| && g.output.value < |g.layers| &&
    inputs >= |g.layers[g.input.value]| && desired >= |g.layers[g.output.value]| && outputs >= |g.layers[g.output.value]|
  }

  /**
   * What one net's turn in the scoring loop of `Train` leaves, for a net of
   * graph `g`: `NeuralNet::Update` on `inputs` gives the neuron values
   * `data`, with the inputs on the input neurons and the values the
   * forward pass computes (`ForwardPass`). When every output neuron has a
   * value other than 0 the buffer, `before` until then, holds the outputs
   * in front and is otherwise as it was; else it is left as it was. `e` is
   * the mean absolute difference between `desired` and the front of the
   * buffer after the update, over the output neurons (0 when there are none).
   */
  ghost predicate Assessed(g: Graph, inputs: seq<real>, desired: seq<real>, T: real -> real, data: seq<Eval>,
                           before: seq<real>, after: seq<real>, e: real)
  {
    Runnable(g, |inputs|, |desired|, |after|) && LayersOk(g) && Wired(g) && |data| == |g.neurons| && |before| == |after| &&
    var ins, outs := g.layers[g.input.value], g.layers[g.output.value];
    (g.input != g.output ==> forall i | 0 <= i < |ins| :: data[ins[i]] == Val(inputs[i])) &&
    ForwardPass(g, data, T) &&
    (if forall m | m in outs :: data[m].Val? && data[m].v != 0.0
     then (forall k | 0 <= k < |outs| :: after[k] == Num(data[outs[k]])) && after[|outs|..] == before[|outs|..]
     else after == before) &&
    e == if |outs| == 0 then 0.0 else BackProp.MeanError(desired, after, |outs|)
  }

  /**
   * One net's share of `Train`: `net->Update(inputbuffer, outputbuffer2)`,
   * then the mean absolute difference of the desired outputs and the outputs
   * of the net's output neurons; 0 when there are none.
   */
  method Assess(net: LayeredNet, inputs: seq<real>, desired: seq<real>, out2: array<real>, T: real -> real)
    returns (meanerror: real)
    requires net.Valid() && Runnable(net.g, |inputs|, |desired|, out2.Length)
    modifies net, out2
    ensures net.Valid() && net.g == old(net.g) && meanerror >= 0.0
    ensures Assessed(net.g, inputs, desired, T, net.data, old(out2[..]), out2[..], meanerror)
    ensures forall m | 0 <= m < |net.g.neurons| ::
      net.tempdouble[m] == (if InNet(net.g, m) then DblMin else old(net.tempdouble)[m]) &&
      net.tempint[m] == (if InNet(net.g, m) then 0 else old(net.tempint)[m])
  {
    GraphWired(net.g);
    var ok := net.Update(inputs, out2, T);
    var outs := net.g.layers[net.g.output.value];
    meanerror := MeanErrorOf(desired, out2, |outs|);
  }

  /**
   * The error loop of `Train` for one net: the mean absolute difference of
   * `desired` and the first `count` values of `out2`, 0 when `count` is 0.
   */
  method MeanErrorOf(desired: seq<real>, out2: array<real>, count: nat) returns (meanerror: real)
    requires count <= |desired| && count <= out2.Length
    ensures meanerror == if count == 0 then 0.0 else BackProp.MeanError(desired, out2[..], count)
    ensures meanerror >= 0.0 && (meanerror == 0.0 <==> forall i | 0 <= i < count :: out2[i] == desired[i])
  {
    meanerror := 0.0;
    var i := 0;
    while i < count
      invariant 0 <= i <= count && meanerror == BackProp.AbsSum(desired, out2[..], i)
    {
      meanerror := meanerror + RealAbs(desired[i] - out2[i]);
      i := i + 1;
    }
    if i > 0 {
      BackProp.MeanErrorZero(desired, out2[..], i);
      meanerror := meanerror / (i as real);
    }
  }

  /**
   * The error of a net's turn, read off the net: when every output neuron
   * has a value other than 0 it is the mean error of those values; otherwise
   * it is the mean error of what the buffer held before, which the failed
   * update left in place. It is 0 exactly when that is the desired output.
   */
  lemma AssessedError(g: Graph, inputs: seq<real>, desired: seq<real>, T: real -> real, data: seq<Eval>,
                      before: seq<real>, after: seq<real>, e: real)
    requires Assessed(g, inputs, desired, T, data, before, after, e)
    ensures var outs := g.layers[g.output.value];
      var vals := seq(|outs|, k requires 0 <= k < |outs| => Num(data[outs[k]]));
      |outs| > 0 ==>
        (forall m | m in outs :: data[m].Val? && data[m].v != 0.0) ==> e == BackProp.MeanError(desired, vals, |outs|)
    ensures var outs := g.layers[g.output.value];
      |outs| > 0 ==>
        !(forall m | m in outs :: data[m].Val? && data[m].v != 0.0) ==> e == BackProp.MeanError(desired, before, |outs|)
    ensures var outs := g.layers[g.output.value];
      e >= 0.0 && (e == 0.0 <==> forall k | 0 <= k < |outs| :: after[k] == desired[k])
  {
    var outs := g.layers[g.output.value];
    var vals := seq(|outs|, k requires 0 <= k < |outs| => Num(data[outs[k]]));
    if |outs| > 0 {
      if forall m | m in outs :: data[m].Val? && data[m].v != 0.0 {
        BackProp.AbsSumSame(desired, after, vals, |outs|);
      }
      BackProp.MeanErrorZero(desired, after, |outs|);
    }
  }

  /**
   * In a feed-forward net a turn is fixed by the graph, the inputs and the
   * buffer it starts from: two turns agree on the output values, the
   * buffer they leave and the error.
   */
  lemma AssessedUnique(g: Graph, inputs: seq<real>, desired: seq<real>, T: real -> real, d1: seq<Eval>, d2: seq<Eval>,
                       before: seq<real>, a1: seq<real>, a2: seq<real>, e1: real, e2: real)
    requires Acyclic(g)
    requires Assessed(g, inputs, desired, T, d1, before, a1, e1) && Assessed(g, inputs, desired, T, d2, before, a2, e2)
    ensures forall n | n in g.layers[g.output.value] :: d1[n].Val? && d1[n] == d2[n]
    ensures a1 == a2 && e1 == e2
  {
    var ins, outs := g.layers[g.input.value], g.layers[g.output.value];
    if g.input != g.output {
      forall n | n in ins
        ensures d1[n] == d2[n]
      {
        var i := IndexOf(ins, n);
      }
    }
    ForwardOutputs(g, d1, d2, T);
    if forall m | m in outs :: d1[m].Val? && d1[m].v != 0.0 {
      assert forall m | m in outs :: d2[m].Val? && d2[m].v != 0.0;
      assert a1 == a1[..|outs|] + a1[|outs|..] && a2 == a2[..|outs|] + a2[|outs|..];
      assert a1[..|outs|] == a2[..|outs|];
    } else {
      assert !forall m | m in outs :: d2[m].Val? && d2[m].v != 0.0;
    }
  }

  /** `exp(1.0 - meanerror)`: the fitness `Train` gives a net of mean error `e`, with `exp` as the parameter `Exp`. */
  function Fitness(Exp: real -> real, e: real): real
  {
    Exp(1.0 - e)
  }

  /**
   * The fitness after the scoring loop of `Train`: chromosome `i` of the
   * first `|E|` gets `exp(1 - E[i])` from the mean error `E[i]` of net `i`;
   * the others keep theirs from `F`.
   */
  function Rescored(F: seq<real>, E: seq<real>, Exp: real -> real): (R: seq<real>)
    requires |E| <= |F|
    ensures |R| == |F|
  {
    seq(|F|, i requires 0 <= i < |F| => if i < |E| then Fitness(Exp, E[i]) else F[i])
  }

  /** With a positive `exp`, the new fitness is positive wherever a net was scored and no fitness becomes negative. */
  lemma RescoredFit(F: seq<real>, E: seq<real>, Exp: real -> real)
    requires |E| <= |F| && Fit(F) && forall x :: Exp(x) > 0.0
    ensures Fit(Rescored(F, E, Exp))
    ensures forall i | 0 <= i < |E| :: Rescored(F, E, Exp)[i] > 0.0
  {
  }

  /** With an increasing `exp`, the smaller a net's error, the greater its chromosome's fitness. */
  lemma RescoredOrder(F: seq<real>, E: seq<real>, Exp: real -> real, i: nat, k: nat)
    requires |E| <= |F| && i < |E| && k < |E| && E[i] <= E[k]
    requires forall x, y | x <= y :: Exp(x) <= Exp(y)
    ensures Rescored(F, E, Exp)[i] >= Rescored(F, E, Exp)[k]
  {
    assert 1.0 - E[k] <= 1.0 - E[i];
  }

  /** Scoring one more net changes only its chromosome's fitness. */
  lemma RescoredStep(F: seq<real>, E: seq<real>, Exp: real -> real, e: real)
    requires |E| < |F|
    ensures Rescored(F, E + [e], Exp) == Rescored(F, E, Exp)[|E| := Fitness(Exp, e)]
  {
  }

  /** Adding one more mean error to the running total of the scoring loop. */
  lemma SumAppend(E: seq<real>, e: real)
    ensures Sum(E + [e]) == Sum(E) + e
  {
    assert (E + [e])[..|E|] == E;
  }

  /** The mean errors of the scoring loop stay non-negative as one more is added. */
  lemma NonNegAppend(E: seq<real>, e: real)
    requires e >= 0.0 && forall i | 0 <= i < |E| :: E[i] >= 0.0
    ensures forall i | 0 <= i < |E + [e]| :: (E + [e])[i] >= 0.0
  {
  }

  /**
   * The record of the first `|E|` turns of the scoring loop: net `i`'s
   * update left `D[i]` in its neurons, took the output buffer from
   * `Outs[i]` to `Outs[i + 1]` and gave the mean error `E[i]`.
   */
  ghost predicate ScoreRecord(W: seq<Graph>, inputs: seq<real>, desired: seq<real>, T: real -> real,
                              D: seq<seq<Eval>>, Outs: seq<seq<real>>, E: seq<real>)
  {
    |D| == |E| <= |W| && |Outs| == |E| + 1 &&
    forall i | 0 <= i < |E| :: Turn(W, inputs, desired, T, D, Outs, E, i)
  }

  /** Entry `i` of the record: net `i`'s turn, from buffer `Outs[i]` to `Outs[i + 1]`. */
  ghost predicate Turn(W: seq<Graph>, inputs: seq<real>, desired: seq<real>, T: real -> real,
                       D: seq<seq<Eval>>, Outs: seq<seq<real>>, E: seq<real>, i: nat)
  {
    i < |W| && i < |D| && i + 1 < |Outs| && i < |E| && Assessed(W[i], inputs, desired, T, D[i], Outs[i], Outs[i + 1], E[i])
  }

  /** One more net's turn, starting from the last buffer of the record, extends the record. */
  lemma AssessedAppend(W: seq<Graph>, inputs: seq<real>, desired: seq<real>, T: real -> real,
                       D: seq<seq<Eval>>, Outs: seq<seq<real>>, E: seq<real>, d: seq<Eval>, o: seq<real>, e: real)
    requires ScoreRecord(W, inputs, desired, T, D, Outs, E) && |E| < |W|
    requires Assessed(W[|E|], inputs, desired, T, d, Outs[|E|], o, e)
    ensures ScoreRecord(W, inputs, desired, T, D + [d], Outs + [o], E + [e])
  {
    forall i | 0 <= i < |E| + 1
      ensures Turn(W, inputs, desired, T, D + [d], Outs + [o], E + [e], i)
    {
      assert (Outs + [o])[i] == Outs[i];
      if i < |E| {
        assert Turn(W, inputs, desired, T, D, Outs, E, i);
        assert (D + [d])[i] == D[i] && (Outs + [o])[i + 1] == Outs[i + 1] && (E + [e])[i] == E[i];
      }
    }
  }

  /**
   * The net half of a pass of the scoring loop: `Assess` on net `j`, whose
   * turn extends the record `D`, `Outs`, `E` of the nets before it; the
   * graphs and the other nets' neuron values stay as they were.
   */
  method AssessAt(nets: seq<LayeredNet>, j: nat, inputs: seq<real>, desired: seq<real>, out2: array<real>, T: real -> real,
                  ghost n: nat, ghost W: seq<Graph>, ghost D: seq<seq<Eval>>, ghost Outs: seq<seq<real>>, ghost E: seq<real>)
    returns (e: real)
    requires Distinct(nets) && j < |nets| && NetsOk(nets, n) && Wearing(nets, W)
    requires Runnable(nets[j].g, |inputs|, |desired|, out2.Length)
    requires j == |E| && ScoreRecord(W, inputs, desired, T, D, Outs, E) && Outs[j] == out2[..]
    modifies nets[j], out2
    ensures NetsOk(nets, n) && Wearing(nets, W) && e >= 0.0
    ensures ScoreRecord(W, inputs, desired, T, D + [nets[j].data], Outs + [out2[..]], E + [e])
    ensures forall i | 0 <= i < |nets| && i != j :: nets[i].data == old(nets[i].data)
  {
    NetsOkAll(nets, n);
    e := Assess(nets[j], inputs, desired, out2, T);
    AssessedAppend(W, inputs, desired, T, D, Outs, E, nets[j].data, out2[..], e);
    forall i | 0 <= i < |nets| && i != j
      ensures NetOk(nets[i], n) && nets[i].g == W[i] && nets[i].data == old(nets[i].data)
    {
    }
    NetsOkAll(nets, n);
  }

  /** The chromosome half of a pass of the scoring loop: chromosome `j` gets fitness `v`; the genes stay as they were. */
  method Rate(cs: seq<Chromosome>, c: Chromosome, j: nat, v: real,
              ghost n: nat, ghost G: seq<seq<real>>, ghost N: seq<seq<real>>, ghost F: seq<real>, ghost B: set<array<real>>)
    requires j < |cs| && c == cs[j] && Pool(cs, n) && Holding(cs, G) && Spare(cs, N) && Scored(cs, F) && Banked(cs, B)
    modifies c`fitness
    ensures Pool(cs, n) && Holding(cs, G) && Spare(cs, N) && Scored(cs, F[j := v]) && Banked(cs, B)
    ensures forall i | 0 <= i < |cs| :: cs[i].genes == old(cs[i].genes) && cs[i].newgenes == old(cs[i].newgenes)
  {
    forall i | 0 <= i < |cs| && i != j
      ensures cs[i] != c
    {
      assert Apart(cs, i, j);
    }
    c.fitness := v;
    forall x, y | 0 <= x < |cs| && 0 <= y < |cs| && x != y
      ensures Apart(cs, x, y)
    {
      assert old(Apart(cs, x, y));
    }
    forall i | 0 <= i < |cs|
      ensures cs[i].genes[..] == G[i] && cs[i].newgenes[..] == N[i]
    {
      assert cs[i].genes == old(cs[i].genes) && cs[i].newgenes == old(cs[i].newgenes);
    }
  }

  /**
   * One pass of the scoring loop of `Train`, on net `j`: the net's mean
   * error `e` becomes the fitness `exp(1 - e)` of chromosome `j`. The
   * genes, the buffers and the graphs stay as they were.
   */
  method ScoreRound(cs: seq<Chromosome>, c: Chromosome, nets: seq<LayeredNet>, j: nat, inputs: seq<real>, desired: seq<real>,
                    out2: array<real>, T: real -> real, Exp: real -> real, ghost n: nat,
                    ghost G: seq<seq<real>>, ghost N: seq<seq<real>>, ghost W: seq<Graph>, ghost F: seq<real>,
                    ghost B: set<array<real>>, ghost D: seq<seq<Eval>>, ghost Outs: seq<seq<real>>, ghost E: seq<real>)
    returns (e: real)
    requires Pool(cs, n) && Distinct(nets) && j < |nets| <= |cs| && c == cs[j] && NetsOk(nets, n)
    requires j == |E| && ScoreRecord(W, inputs, desired, T, D, Outs, E) && Outs[j] == out2[..]
    requires Runnable(nets[j].g, |inputs|, |desired|, out2.Length)
    requires Holding(cs, G) && Spare(cs, N) && Wearing(nets, W) && Scored(cs, F) && Banked(cs, B) && out2 !in B
    modifies c`fitness, nets[j], out2
    ensures Pool(cs, n) && NetsOk(nets, n) && Holding(cs, G) && Spare(cs, N) && Wearing(nets, W) && Banked(cs, B)
    ensures Scored(cs, F[j := Fitness(Exp, e)]) && e >= 0.0
    ensures ScoreRecord(W, inputs, desired, T, D + [nets[j].data], Outs + [out2[..]], E + [e])
    ensures forall i | 0 <= i < |nets| && i != j :: nets[i].data == old(nets[i].data)
    ensures forall i | 0 <= i < |cs| :: cs[i].genes == old(cs[i].genes) && cs[i].newgenes == old(cs[i].newgenes)
  {
    assert forall i | 0 <= i < |cs| :: cs[i].genes != out2 && cs[i].newgenes != out2;
    assert forall i | 0 <= i < |cs| :: cs[i] as object != nets[j];
    e := AssessAt(nets, j, inputs, desired, out2, T, n, W, D, Outs, E);
    Rate(cs, c, j, Fitness(Exp, e), n, G, N, F, B);
  }

  /**
   * The scoring loop of `Train`: each net in turn is updated on `inputs`
   * and its mean error `E[j]` sets the fitness of chromosome `j`; `sum`
   * adds the errors up in list order. `D[j]` is what net `j`'s update left
   * in its neurons, and `Outs[j]` the output buffer before net `j`'s turn:
   * a net whose update fails leaves the previous net's outputs there.
   */
  method Score(cs: seq<Chromosome>, nets: seq<LayeredNet>, inputs: seq<real>, desired: seq<real>, out2: array<real>,
               T: real -> real, Exp: real -> real, ghost n: nat,
               ghost G: seq<seq<real>>, ghost N: seq<seq<real>>, ghost W: seq<Graph>, ghost F: seq<real>,
               ghost B: set<array<real>>)
    returns (sum: real, ghost E: seq<real>, ghost D: seq<seq<Eval>>, ghost Outs: seq<seq<real>>)
    requires Pool(cs, n) && Distinct(nets) && |nets| <= |cs| && NetsOk(nets, n)
    requires forall j | 0 <= j < |nets| :: Runnable(nets[j].g, |inputs|, |desired|, out2.Length)
    requires Holding(cs, G) && Spare(cs, N) && Wearing(nets, W) && Scored(cs, F) && Banked(cs, B) && out2 !in B
    modifies cs`fitness, nets, out2
    ensures |E| == |nets| && sum == Sum(E) && forall j | 0 <= j < |E| :: E[j] >= 0.0
    ensures Pool(cs, n) && NetsOk(nets, n) && Holding(cs, G) && Spare(cs, N) && Wearing(nets, W) && Banked(cs, B)
    ensures forall i | 0 <= i < |cs| :: cs[i].genes == old(cs[i].genes) && cs[i].newgenes == old(cs[i].newgenes)
    ensures Scored(cs, Rescored(F, E, Exp))
    ensures ScoreRecord(W, inputs, desired, T, D, Outs, E) && Outs[0] == old(out2[..]) && Outs[|nets|] == out2[..]
    ensures forall j | 0 <= j < |nets| :: nets[j].data == D[j]
  {
    sum := 0.0;
    E, D, Outs := [], [], [out2[..]];
    assert Rescored(F, E, Exp) == F;
    var j := 0;
    while j < |nets|
      invariant j == |E| == |D| <= |nets| && |Outs| == j + 1
      invariant sum == Sum(E)
      invariant forall i | 0 <= i < |E| :: E[i] >= 0.0
      invariant Pool(cs, n) && NetsOk(nets, n) && Holding(cs, G) && Spare(cs, N) && Wearing(nets, W) && Banked(cs, B)
      invariant Scored(cs, Rescored(F, E, Exp))
      invariant forall i | 0 <= i < |cs| :: cs[i].genes == old(cs[i].genes) && cs[i].newgenes == old(cs[i].newgenes)
      invariant Outs[0] == old(out2[..]) && Outs[j] == out2[..]
      invariant forall i | 0 <= i < j :: nets[i].data == D[i]
      invariant ScoreRecord(W, inputs, desired, T, D, Outs, E)
    {
      var e := ScoreRound(cs, cs[j], nets, j, inputs, desired, out2, T, Exp, n, G, N, W, Rescored(F, E, Exp), B, D, Outs, E);
      RescoredStep(F, E, Exp, e);
      SumAppend(E, e);
      NonNegAppend(E, e);
      sum := sum + e;
      E, D, Outs := E + [e], D + [nets[j].data], Outs + [out2[..]];
      j := j + 1;
    }
  }

  /**
   * `GATrainer`: the nets of the population and their chromosomes, net `i`
   * going with chromosome `i`, and the three rates of the algorithm.
   */
  class GATrainer {
    var nets: seq<LayeredNet>
    var chromosomes: seq<Chromosome>
    var mutationrate: real
    var mutationoffset: real
    var crossoverrate: real

    /** The gene count the chromosomes share: the first one's, 0 when there is none. */
    ghost function GeneCount(): nat
      reads this, chromosomes
    {
      if chromosomes == [] then 0 else chromosomes[0].genecount
    }

    /**
     * No net is listed twice and none of the chromosomes has negative
     * fitness; the chromosomes have `n` genes each and share no buffer;
     * every net is well formed and has no more than `n` weights.
     */
    ghost predicate Stocked(n: nat)
      reads this, nets, chromosomes
    {
      Distinct(nets) && Fit(Fitnesses(chromosomes)) && Pool(chromosomes, n) && NetsOk(nets, n)
    }

    /** There are at least as many chromosomes as nets, and the population is stocked with its gene count. */
    ghost predicate Valid()
      reads this, nets, chromosomes
    {
      |nets| <= |chromosomes| && Stocked(GeneCount())
    }

    /** `GATrainer(inputcount, outputcount)`: no nets, no chromosomes, all rates 0. */
    constructor ()
      ensures Valid() && nets == [] && chromosomes == []
      ensures mutationrate == 0.0 && mutationoffset == 0.0 && crossoverrate == 0.0
    {
      nets := [];
      chromosomes := [];
      mutationrate := 0.0;
      mutationoffset := 0.0;
      crossoverrate := 0.0;
    }

    /** `RemoveNets()`: the trainer lets go of its nets; the chromosomes stay for nets added later. */
    method RemoveNets()
      requires Valid()
      modifies this
      ensures Valid() && nets == [] && chromosomes == old(chromosomes)
      ensures mutationrate == old(mutationrate) && mutationoffset == old(mutationoffset) && crossoverrate == old(crossoverrate)
    {
      nets := [];
    }

    /** `GetFitnessTotal()`: the sum of the chromosomes' fitness. */
    method GetFitnessTotal() returns (total: real)
      ensures total == Sum(Fitnesses(chromosomes))
    {
      ghost var F := Fitnesses(chromosomes);
      total := 0.0;
      var i := 0;
      while i < |chromosomes|
        invariant 0 <= i <= |chromosomes| && total == Sum(F[..i])
      {
        SumNext(F, i);
        total := total + chromosomes[i].fitness;
        i := i + 1;
      }
      assert F[..i] == F;
    }

    /** `GetChromosome(value)`: the roulette pick for `value`, none when the running total of fitness never reaches it. */
    method GetChromosome(value: real) returns (c: Option<Chromosome>)
      ensures Pick(Fitnesses(chromosomes), value).None? ==> c == None
      ensures Pick(Fitnesses(chromosomes), value).Some? ==>
        Pick(Fitnesses(chromosomes), value).value < |chromosomes| && c == Some(chromosomes[Pick(Fitnesses(chromosomes), value).value])
    {
      ghost var F := Fitnesses(chromosomes);
      PickFromIs(F, value, 0, 0);
      var total := 0.0;
      var i := 0;
      while i < |chromosomes|
        invariant 0 <= i <= |chromosomes| && total == Sum(F[..i]) && PickFrom(F, value, i) == Pick(F, value)
      {
        SumNext(F, i);
        total := total + chromosomes[i].fitness;
        if value <= total {
          PickFromIs(F, value, i, i);
          return Some(chromosomes[i]);
        }
        i := i + 1;
      }
      return None;
    }

    /**
     * `AddNet(net)`: the net goes to the front of the list unless it is
     * there already; a new chromosome goes to the front when there are
     * fewer chromosomes than nets, with as many genes as the first
     * chromosome or, for the first net, as the net has weights; the
     * chromosome at the net's position then takes the net's weights.
     */
    method AddNet(net: LayeredNet)
      requires Valid() && net.Valid()
      requires |chromosomes| > 0 ==> |Slots(net.g)| <= chromosomes[0].genecount
      modifies this, set c | c in chromosomes :: c.genes
      ensures Valid() && net in nets
      ensures nets == if net in old(nets) then old(nets) else [net] + old(nets)
      ensures |old(chromosomes)| < |nets| ==>
        |chromosomes| == |old(chromosomes)| + 1 && chromosomes[1..] == old(chromosomes) && fresh(chromosomes[0]) &&
        chromosomes[0].genecount == (if old(nets) == [] then |Slots(net.g)| else old(chromosomes)[0].genecount)
      ensures |old(chromosomes)| >= |nets| ==> chromosomes == old(chromosomes)
      ensures chromosomes[IndexOf(nets, net)].genes[..|Slots(net.g)|] == Weights(net.g)
      ensures var c := chromosomes[IndexOf(nets, net)];
        c in old(chromosomes) ==> c.genes[|Slots(net.g)|..] == old(c.genes[|Slots(net.g)|..])
      ensures forall c | c in old(chromosomes) && c != chromosomes[IndexOf(nets, net)] :: c.genes[..] == old(c.genes[..])
      ensures mutationrate == old(mutationrate) && mutationoffset == old(mutationoffset) && crossoverrate == old(crossoverrate)
    {
      var index := Enlist(net);
      Load(net, index);
    }

    /** The first half of `AddNet`: the net and, when one is due, a new chromosome are attached; `index` is the net's position. */
    method Enlist(net: LayeredNet) returns (index: nat)
      requires Valid() && net.Valid()
      requires |chromosomes| > 0 ==> |Slots(net.g)| <= chromosomes[0].genecount
      modifies this
      ensures Valid() && net in nets && index == IndexOf(nets, net) < |chromosomes|
      ensures |Slots(net.g)| <= chromosomes[index].genecount
      ensures nets == if net in old(nets) then old(nets) else [net] + old(nets)
      ensures |old(chromosomes)| < |nets| ==>
        |chromosomes| == |old(chromosomes)| + 1 && chromosomes[1..] == old(chromosomes) && fresh(chromosomes[0]) && fresh(chromosomes[0].genes) &&
        chromosomes[0].genecount == (if old(nets) == [] then |Slots(net.g)| else old(chromosomes)[0].genecount)
      ensures |old(chromosomes)| >= |nets| ==> chromosomes == old(chromosomes)
      ensures mutationrate == old(mutationrate) && mutationoffset == old(mutationoffset) && crossoverrate == old(crossoverrate)
    {
      var weightcount;
      if |nets| == 0 {
        weightcount := GetWeightCount(net);
      } else {
        weightcount := chromosomes[0].genecount;
      }
      ghost var n := if chromosomes == [] then weightcount else chromosomes[0].genecount;
      AttachNet(net, n);
      AttachChromosome(weightcount, n);
      index := GetIndex(nets, net);
    }

    /** `GetWeights(net, chromosome)` for the chromosome at `index`; the other chromosomes keep their genes. */
    method Load(net: LayeredNet, index: nat)
      requires Valid() && net.Valid() && index < |chromosomes| && |Slots(net.g)| <= chromosomes[index].genecount
      modifies chromosomes[index].genes
      ensures Valid()
      ensures chromosomes[index].genes[..|Slots(net.g)|] == Weights(net.g)
      ensures chromosomes[index].genes[|Slots(net.g)|..] == old(chromosomes[index].genes[|Slots(net.g)|..])
      ensures forall c | c in chromosomes && c != chromosomes[index] :: c.genes[..] == old(c.genes[..])
    {
      forall c | c in chromosomes && c != chromosomes[index]
        ensures c.genes != chromosomes[index].genes
      {
        var i :| 0 <= i < |chromosomes| && chromosomes[i] == c;
        assert Apart(chromosomes, i, index);
      }
      GetWeights(net, chromosomes[index]);
    }

    /** `nets.Attach(net)`: the net goes to the front unless it is listed already. */
    method AttachNet(net: LayeredNet, ghost n: nat)
      requires Stocked(n) && NetOk(net, n)
      modifies this
      ensures Stocked(n) && net in nets
      ensures nets == if net in old(nets) then old(nets) else [net] + old(nets)
      ensures chromosomes == old(chromosomes)
      ensures mutationrate == old(mutationrate) && mutationoffset == old(mutationoffset) && crossoverrate == old(crossoverrate)
    {
      if net !in nets {
        PrependDistinct(nets, net);
        NetsOkPrepend(net, nets, n);
        nets := [net] + nets;
      }
    }

    /** A new chromosome of `weightcount` genes goes to the front when there are fewer chromosomes than nets. */
    method AttachChromosome(weightcount: nat, ghost n: nat)
      requires Stocked(n) && |nets| <= |chromosomes| + 1
      requires |chromosomes| < |nets| ==> weightcount == n
      modifies this
      ensures Valid() && nets == old(nets) && (chromosomes != [] ==> GeneCount() == n)
      ensures |old(chromosomes)| < |nets| ==>
        chromosomes == [chromosomes[0]] + old(chromosomes) && fresh(chromosomes[0]) && fresh(chromosomes[0].genes) &&
        chromosomes[0].genecount == weightcount
      ensures |old(chromosomes)| >= |nets| ==> chromosomes == old(chromosomes)
      ensures mutationrate == old(mutationrate) && mutationoffset == old(mutationoffset) && crossoverrate == old(crossoverrate)
    {
      if |chromosomes| < |nets| {
        var chromosome := new Chromosome(weightcount);
        PoolPrepend(chromosome, chromosomes, weightcount);
        FitPrepend(chromosome, chromosomes);
        chromosomes := [chromosome] + chromosomes;
      }
    }

    /**
     * One round of the first loop of `CreatePopulation`, at chromosome `k`:
     * two parents picked by roulette wheel with the draws of `d`, then
     * `CrossOver` into chromosome `k` and the next one, or `k` alone when it
     * is the last. `G` holds the chromosomes' genes and `F` their fitness.
     */
    method CrossStep(k: nat, d: PairDraws, total: real, ghost n: nat, ghost G: seq<seq<real>>, ghost F: seq<real>,
                     ghost B: set<array<real>>)
      requires Pool(chromosomes, n) && Scored(chromosomes, F) && Fit(F) && k < |chromosomes| && DrawOk(d) && total == Sum(F)
      requires Holding(chromosomes, G) && Owned(chromosomes, B)
      modifies chromosomes[k].genes, chromosomes[Partner(|chromosomes|, k)].genes
      ensures Shaped(G, n) && Pool(chromosomes, n) && Scored(chromosomes, F)
      ensures Owned(chromosomes, B)
      ensures Holding(chromosomes, BreedStep(G, F, crossoverrate, d, n, k))
    {
      assert F == Fitnesses(chromosomes);
      ghost var a, b := Parent(F, d.ua), Parent(F, d.ub);
      var ina := GetChromosome(GetDouble(d.ua, 0.0, total));
      var inb := GetChromosome(GetDouble(d.ub, 0.0, total));
      assert ina == Some(chromosomes[a]) && inb == Some(chromosomes[b]);
      CrossInto(chromosomes, k, a, b, ina.value, inb.value, crossoverrate, d.cross, d.flip, n, G, B, F);
    }

    /**
     * Round `k` of the crossover pass: breeds chromosome `k` and its partner
     * and moves on to the chromosome after the partner.
     */
    method BreedRound(k: nat, ds: seq<PairDraws>, total: real, ghost n: nat, ghost C: seq<seq<real>>, ghost F: seq<real>, ghost B: set<array<real>>)
      returns (k': nat, ghost C': seq<seq<real>>)
      requires Pool(chromosomes, n) && Scored(chromosomes, F) && Fit(F) && total == Sum(F)
      requires k < |chromosomes| && DrawsOk(ds) && |chromosomes| <= 2 * |ds|
      requires Holding(chromosomes, C) && Owned(chromosomes, B)
      modifies B
      ensures Shaped(C, n) && Shaped(C', n) && k < k' <= |chromosomes| && |C'| == |C|
      ensures Pool(chromosomes, n) && Owned(chromosomes, B) && Scored(chromosomes, F) && Holding(chromosomes, C')
      ensures C' == BreedStep(C, F, crossoverrate, ds[k / 2], n, k) && k' == Partner(|chromosomes|, k) + 1
    {
      CrossStep(k, ds[k / 2], total, n, C, F, B);
      C' := BreedStep(C, F, crossoverrate, ds[k / 2], n, k);
      k' := Partner(|chromosomes|, k) + 1;
    }

    /**
     * The first half of `CreatePopulation`: one pass of roulette-wheel
     * crossovers over the population, two chromosomes per round.
     */
    method Breed(ds: seq<PairDraws>, total: real, ghost n: nat, ghost G: seq<seq<real>>, ghost F: seq<real>, ghost B: set<array<real>>)
      requires Pool(chromosomes, n) && Scored(chromosomes, F) && Fit(F) && total == Sum(F)
      requires DrawsOk(ds) && |chromosomes| <= 2 * |ds|
      requires Holding(chromosomes, G) && Owned(chromosomes, B)
      modifies B
      ensures Shaped(G, n) && Pool(chromosomes, n) && Owned(chromosomes, B) && Scored(chromosomes, F)
      ensures Holding(chromosomes, BreedFrom(G, F, crossoverrate, ds, n, 0))
      ensures mutationrate == old(mutationrate) && mutationoffset == old(mutationoffset) && crossoverrate == old(crossoverrate)
    {
      assert Shaped(G, n) by {
        forall i | 0 <= i < |G| ensures |G[i]| == n {
          assert chromosomes[i].genes[..] == G[i];
        }
      }
      var cs := chromosomes;
      ghost var target := BreedFrom(G, F, crossoverrate, ds, n, 0);
      ghost var C := G;
      var k := 0;
      while k < |cs|
        invariant chromosomes == cs && k <= |cs| && Shaped(C, n) && |C| == |cs|
        invariant Pool(cs, n) && Owned(cs, B) && Scored(cs, F) && Holding(cs, C)
        invariant BreedFrom(C, F, crossoverrate, ds, n, k) == target
        decreases |cs| - k
      {
        ghost var C0, k0 := C, k;
        k, C := BreedRound(k, ds, total, n, C, F, B);
        BreedFromAdvance(C0, C, F, crossoverrate, ds, n, k0, k, target);
      }
      BreedFromDone(C, F, crossoverrate, ds, n, k);
    }

    /**
     * The crossover pass of `CreatePopulation` with the fitness total it
     * draws from; the spare buffers, kept out of `B`, are left as they were.
     */
    method CrossAll(ds: seq<PairDraws>, ghost n: nat, ghost G: seq<seq<real>>, ghost N: seq<seq<real>>, ghost F: seq<real>,
                    ghost B: set<array<real>>)
      requires Pool(chromosomes, n) && Scored(chromosomes, F) && Fit(F)
      requires DrawsOk(ds) && |chromosomes| <= 2 * |ds|
      requires Holding(chromosomes, G) && Spare(chromosomes, N) && Owned(chromosomes, B)
      requires forall i | 0 <= i < |chromosomes| :: chromosomes[i].newgenes !in B
      modifies B
      ensures Shaped(G, n) && Pool(chromosomes, n) && Scored(chromosomes, F) && Spare(chromosomes, N)
      ensures Holding(chromosomes, BreedFrom(G, F, crossoverrate, ds, n, 0))
      ensures mutationrate == old(mutationrate) && mutationoffset == old(mutationoffset) && crossoverrate == old(crossoverrate)
    {
      assert Fitnesses(chromosomes) == F;
      var total := GetFitnessTotal();
      Breed(ds, total, n, G, F, B);
    }

    /**
     * `CreatePopulation()`: the crossover pass over all chromosomes, with
     * the parents of round `k` drawn by `ds[k / 2]` from the fitness total,
     * then, for each net, the buffer swap, `Mutate` with the draws `ms[j]`
     * and `SetWeights`. `G`, `N`, `W` and `F` hold the genes, the spare
     * buffers, the graphs and the fitness before; `B` holds the buffers.
     */
    method CreatePopulation(ds: seq<PairDraws>, ms: seq<MutationDraws>, ghost G: seq<seq<real>>, ghost N: seq<seq<real>>,
                            ghost W: seq<Graph>, ghost F: seq<real>, ghost n: nat, ghost B: set<array<real>>, ghost Bg: set<array<real>>,
                            ghost O: set<object>)
      requires this !in O && (forall i | 0 <= i < |chromosomes| :: chromosomes[i] in O) && forall j | 0 <= j < |nets| :: nets[j] in O
      requires Owned(chromosomes, Bg) && Bg <= B && forall i | 0 <= i < |chromosomes| :: chromosomes[i].newgenes !in Bg
      requires Valid() && n == GeneCount() && DrawsOk(ds) && |chromosomes| <= 2 * |ds| && |ms| == |nets| && MutationsOk(ms, n)
      requires Holding(chromosomes, G) && Spare(chromosomes, N) && Wearing(nets, W) && Scored(chromosomes, F)
      requires Banked(chromosomes, B)
      modifies O, B
      ensures Valid() && chromosomes == old(chromosomes) && nets == old(nets) && Scored(chromosomes, F) && Banked(chromosomes, B)
      ensures GeneCount() == n && Shaped(G, n) && Shaped(N, n) && Fit(F)
      ensures var H := BreedFrom(G, F, crossoverrate, ds, n, 0);
        var R := RenewedGenes(H, N, ms, mutationrate, mutationoffset, n, |nets|);
        Holding(chromosomes, R) && Spare(chromosomes, RenewedSpare(H, N, |nets|)) && Wearing(nets, RenewedGraphs(W, R, |nets|))
    {
      var cs, ns := chromosomes, nets;
      CrossAll(ds, n, G, N, F, Bg);
      ghost var H := BreedFrom(G, F, crossoverrate, ds, n, 0);
      Renew(cs, ns, mutationrate, mutationoffset, ms, n, H, N, W, F, B, O);
      assert chromosomes == cs && nets == ns;
      assert Fitnesses(chromosomes) == F;
      assert GeneCount() == n;
    }

    /**
     * The body of `Train` when there are at least two nets: the nets are
     * scored, the next generation is bred and the mean error returned.
     */
    method Generation(inputs: seq<real>, desired: seq<real>, out2: array<real>, T: real -> real, Exp: real -> real,
                      ds: seq<PairDraws>, ms: seq<MutationDraws>, ghost n: nat,
                      ghost G: seq<seq<real>>, ghost N: seq<seq<real>>, ghost W: seq<Graph>, ghost F: seq<real>,
                      ghost B: set<array<real>>, ghost Bg: set<array<real>>, ghost O: set<object>)
      returns (r: real, ghost E: seq<real>, ghost D: seq<seq<Eval>>, ghost Outs: seq<seq<real>>)
      requires Valid() && n == GeneCount() && |nets| > 1 && forall x :: Exp(x) > 0.0
      requires forall j | 0 <= j < |nets| :: Runnable(nets[j].g, |inputs|, |desired|, out2.Length)
      requires DrawsOk(ds) && |chromosomes| <= 2 * |ds| && |ms| == |nets| && MutationsOk(ms, n)
      requires this !in O && out2 !in O && (forall i | 0 <= i < |chromosomes| :: chromosomes[i] in O) && forall j | 0 <= j < |nets| :: nets[j] in O
      requires Owned(chromosomes, Bg) && Bg <= B && forall i | 0 <= i < |chromosomes| :: chromosomes[i].newgenes !in Bg
      requires Banked(chromosomes, B) && out2 !in B
      requires Holding(chromosomes, G) && Spare(chromosomes, N) && Wearing(nets, W) && Scored(chromosomes, F)
      modifies O, B, out2
      ensures Valid() && chromosomes == old(chromosomes) && nets == old(nets)
      ensures |E| == |nets| && (forall j | 0 <= j < |E| :: E[j] >= 0.0) && r == Sum(E) / (|E| as real) &&
        Shaped(G, n) && Shaped(N, n) && Fit(Rescored(F, E, Exp))
      ensures var F' := Rescored(F, E, Exp);
        var H := BreedFrom(G, F', crossoverrate, ds, n, 0);
        var R := RenewedGenes(H, N, ms, mutationrate, mutationoffset, n, |nets|);
        Scored(chromosomes, F') && Holding(chromosomes, R) && Spare(chromosomes, RenewedSpare(H, N, |nets|)) &&
        Wearing(nets, RenewedGraphs(W, R, |nets|))
      ensures ScoreRecord(W, inputs, desired, T, D, Outs, E) && Outs[0] == old(out2[..]) && Outs[|nets|] == out2[..]
    {
      var cs, ns := chromosomes, nets;
      var sum;
      assert forall j | 0 <= j < |ns| :: ns[j] as object != this;
      sum, E, D, Outs := Score(cs, ns, inputs, desired, out2, T, Exp, n, G, N, W, F, B);
      RescoredFit(F, E, Exp);
      ghost var F' := Rescored(F, E, Exp);
      assert Fitnesses(chromosomes) == F';
      CreatePopulation(ds, ms, G, N, W, F', n, B, Bg, O);
      r := sum / (|ns| as real);
    }

    /**
     * `Train(state)`: with at most one net, `TrainError` and nothing
     * changes. Otherwise each net in turn is updated on `inputs` (what the
     * `input` callback gives for the state) and its mean error `E[j]`
     * against `desired` (what the `train` callback gives) becomes the
     * fitness `exp(1 - E[j])` of chromosome `j`; `CreatePopulation` then
     * breeds the next generation and the mean of the nets' errors is
     * returned. `G`, `N`, `W` and `F` hold the genes, the spare buffers,
     * the graphs and the fitness before.
     */
    method Train(inputs: seq<real>, desired: seq<real>, out2: array<real>, T: real -> real, Exp: real -> real,
                 ds: seq<PairDraws>, ms: seq<MutationDraws>, ghost n: nat,
                 ghost G: seq<seq<real>>, ghost N: seq<seq<real>>, ghost W: seq<Graph>, ghost F: seq<real>,
                 ghost B: set<array<real>>, ghost Bg: set<array<real>>, ghost O: set<object>)
      returns (r: real, ghost E: seq<real>, ghost D: seq<seq<Eval>>, ghost Outs: seq<seq<real>>)
      requires Valid() && n == GeneCount() && forall x :: Exp(x) > 0.0
      requires forall j | 0 <= j < |nets| :: Runnable(nets[j].g, |inputs|, |desired|, out2.Length)
      requires DrawsOk(ds) && |chromosomes| <= 2 * |ds| && |ms| == |nets| && MutationsOk(ms, n)
      requires this !in O && out2 !in O && (forall i | 0 <= i < |chromosomes| :: chromosomes[i] in O) && forall j | 0 <= j < |nets| :: nets[j] in O
      requires Owned(chromosomes, Bg) && Bg <= B && forall i | 0 <= i < |chromosomes| :: chromosomes[i].newgenes !in Bg
      requires Banked(chromosomes, B) && out2 !in B
      requires Holding(chromosomes, G) && Spare(chromosomes, N) && Wearing(nets, W) && Scored(chromosomes, F)
      modifies O, B, out2
      ensures Valid() && chromosomes == old(chromosomes) && nets == old(nets)
      ensures |nets| <= 1 ==>
        r == TrainError && Holding(chromosomes, G) && Spare(chromosomes, N) && Wearing(nets, W) && Scored(chromosomes, F)
      ensures |nets| <= 1 ==> unchanged(out2) && forall j | 0 <= j < |nets| :: unchanged(nets[j])
      ensures |nets| > 1 ==>
        |E| == |nets| && (forall j | 0 <= j < |E| :: E[j] >= 0.0) && r == Sum(E) / (|E| as real) &&
        Shaped(G, n) && Shaped(N, n) && Fit(Rescored(F, E, Exp))
      ensures |nets| > 1 ==>
        var F' := Rescored(F, E, Exp);
        var H := BreedFrom(G, F', crossoverrate, ds, n, 0);
        var R := RenewedGenes(H, N, ms, mutationrate, mutationoffset, n, |nets|);
        Scored(chromosomes, F') && Holding(chromosomes, R) && Spare(chromosomes, RenewedSpare(H, N, |nets|)) &&
        Wearing(nets, RenewedGraphs(W, R, |nets|))
      ensures |nets| > 1 ==>
        ScoreRecord(W, inputs, desired, T, D, Outs, E) && Outs[0] == old(out2[..]) && Outs[|nets|] == out2[..]
    {
      E, D, Outs := [], [], [];
      if |nets| <= 1 {
        return TrainError, E, D, Outs;
      }
      r, E, D, Outs := Generation(inputs, desired, out2, T, Exp, ds, ms, n, G, N, W, F, B, Bg, O);
    }
  }
}
