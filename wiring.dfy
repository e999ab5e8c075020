/**
 * The wiring operations of `Group` and `NeuralNet` as sequences of
 * `Neuron::AddOutput(neuron)` calls, each with the default weight 0: a list
 * of (from, to) pairs, made in order. `Group::Connect` makes every pair of
 * its outputs and the other group's inputs, `Group::ConnectParallel` pairs
 * them up by position, and `NeuralNet::ConnectGroups` connects each group
 * to the next.
 */
module Wiring {
  import opened Util
  import opened Graph

  type Link = (NeuronId, NeuronId)

  /** Every pair names neurons of the graph. */
  ghost predicate LinksIn(g: Graph, ps: seq<Link>)
  {
    forall k | 0 <= k < |ps| :: ps[k].0 < |g.neurons| && ps[k].1 < |g.neurons|
  }

  /** `AddOutput(from, to, 0.0)` for each pair, first pair first. */
  function AddOutputs(g: Graph, ps: seq<Link>): (r: Graph)
    requires LinksIn(g, ps)
    ensures |r.neurons| == |g.neurons|
    decreases |ps|
  {
    if ps == [] then g
    else
      var h := AddOutputs(g, ps[..|ps| - 1]);
      AddOutput(h, ps[|ps| - 1].0, ps[|ps| - 1].1, 0.0)
  }

  /** The synapse records the pairs create, in order: each from its first neuron to its second, weight 0. */
  function Links(ps: seq<Link>): (r: seq<Synapse>)
    ensures |r| == |ps|
  {
    seq(|ps|, k requires 0 <= k < |ps| => Synapse(Some(ps[k].0), ps[k].1, 0.0, 0.0))
  }

  /** Making the connections of `ps` and then those of `qs` is making those of `ps + qs`. */
  lemma {:induction false} AddOutputsAppend(g: Graph, ps: seq<Link>, qs: seq<Link>)
    requires LinksIn(g, ps + qs)
    ensures LinksIn(g, ps) && LinksIn(AddOutputs(g, ps), qs)
    ensures AddOutputs(g, ps + qs) == AddOutputs(AddOutputs(g, ps), qs)
    decreases |qs|
  {
    assert forall k | 0 <= k < |ps| :: ps[k] == (ps + qs)[k];
    assert forall k | 0 <= k < |qs| :: qs[k] == (ps + qs)[|ps| + k];
    if qs != [] {
      var qs' := qs[..|qs| - 1];
      var last := qs[|qs| - 1];
      assert (ps + qs)[..|ps + qs| - 1] == ps + qs';
      assert (ps + qs)[|ps + qs| - 1] == last;
      assert LinksIn(g, ps + qs') by {
        assert forall k | 0 <= k < |ps + qs'| :: (ps + qs')[k] == (ps + qs)[k];
      }
      AddOutputsAppend(g, ps, qs');
      var h := AddOutputs(g, ps + qs');
      assert AddOutputs(g, ps + qs) == AddOutput(h, last.0, last.1, 0.0);
      assert AddOutputs(AddOutputs(g, ps), qs) == AddOutput(AddOutputs(AddOutputs(g, ps), qs'), last.0, last.1, 0.0);
    } else {
      assert ps + qs == ps;
    }
  }

  /**
   * The pairs' connections are appended to the synapse records in order;
   * no neuron, layer or group is created, and no neuron changes layer or
   * bias.
   */
  lemma {:induction false} AddOutputsShape(g: Graph, ps: seq<Link>)
    requires LinksIn(g, ps)
    ensures var r := AddOutputs(g, ps);
            r.syn == g.syn + Links(ps) &&
            r.layers == g.layers && r.groups == g.groups && r.input == g.input && r.output == g.output &&
            forall m | 0 <= m < |g.neurons| :: r.neurons[m].bias == g.neurons[m].bias && r.neurons[m].layer == g.neurons[m].layer
    decreases |ps|
  {
    if ps != [] {
      var ps' := ps[..|ps| - 1];
      AddOutputsShape(g, ps');
      var h := AddOutputs(g, ps');
      AddOutputShape(h, ps[|ps| - 1].0, ps[|ps| - 1].1, 0.0);
      assert Links(ps) == Links(ps') + [Synapse(Some(ps[|ps| - 1].0), ps[|ps| - 1].1, 0.0, 0.0)];
    }
  }

  /**
   * Each new connection is in the inputs of the neuron it leads to and in
   * the outputs of the neuron it comes from; the lists gain nothing else.
   */
  lemma {:induction false} AddOutputsLists(g: Graph, ps: seq<Link>)
    requires LinksIn(g, ps)
    ensures var r := AddOutputs(g, ps);
            forall m, t | 0 <= m < |g.neurons| ::
              (t in r.neurons[m].ins <==> t in g.neurons[m].ins || (|g.syn| <= t < |g.syn| + |ps| && ps[t - |g.syn|].1 == m)) &&
              (t in r.neurons[m].outs <==> t in g.neurons[m].outs || (|g.syn| <= t < |g.syn| + |ps| && ps[t - |g.syn|].0 == m))
    decreases |ps|
  {
    if ps != [] {
      var ps' := ps[..|ps| - 1];
      AddOutputsLists(g, ps');
      AddOutputsShape(g, ps');
      var h := AddOutputs(g, ps');
      AddOutputShape(h, ps[|ps| - 1].0, ps[|ps| - 1].1, 0.0);
    }
  }

  /** The connections keep the graph well formed. */
  lemma {:induction false} AddOutputsOk(g: Graph, ps: seq<Link>)
    requires GraphOk(g) && LinksIn(g, ps)
    ensures GraphOk(AddOutputs(g, ps))
    decreases |ps|
  {
    if ps != [] {
      var ps' := ps[..|ps| - 1];
      AddOutputsOk(g, ps');
      AddOutputOk(AddOutputs(g, ps'), ps[|ps| - 1].0, ps[|ps| - 1].1, 0.0);
    }
  }

  /** `a` connected to each of `ys`, in order. */
  function Row(a: NeuronId, ys: seq<NeuronId>): (r: seq<Link>)
    ensures |r| == |ys|
  {
    seq(|ys|, k requires 0 <= k < |ys| => (a, ys[k]))
  }

  /** `Group::Connect(group)`: for each output neuron in order, a connection to each input neuron of `group` in order. */
  function Cross(xs: seq<NeuronId>, ys: seq<NeuronId>): seq<Link>
  {
    if xs == [] then [] else Cross(xs[..|xs| - 1], ys) + Row(xs[|xs| - 1], ys)
  }

  /** `Connect` makes |outputs| × |inputs| connections, and a pair is among them exactly when its ends are. */
  lemma {:induction false} CrossCount(xs: seq<NeuronId>, ys: seq<NeuronId>)
    ensures |Cross(xs, ys)| == |xs| * |ys|
    ensures forall a, b :: (a, b) in Cross(xs, ys) <==> a in xs && b in ys
  {
    if xs != [] {
      var xs' := xs[..|xs| - 1];
      var a' := xs[|xs| - 1];
      CrossCount(xs', ys);
      assert xs == xs' + [a'];
      forall a, b
        ensures (a, b) in Cross(xs, ys) <==> a in xs && b in ys
      {
        if (a, b) in Row(a', ys) {
          var k :| 0 <= k < |ys| && Row(a', ys)[k] == (a, b);
        }
        if a == a' && b in ys {
          var k :| 0 <= k < |ys| && ys[k] == b;
          assert Row(a', ys)[k] == (a, b);
        }
      }
    }
  }

  /** `Group::ConnectParallel(group)`: the `k`-th output to the `k`-th input, as far as the shorter list goes. */
  function Zip(xs: seq<NeuronId>, ys: seq<NeuronId>): (r: seq<Link>)
    ensures |r| == if |xs| < |ys| then |xs| else |ys|
    ensures forall k | 0 <= k < |r| :: r[k] == (xs[k], ys[k])
  {
    if |xs| < |ys| then seq(|xs|, k requires 0 <= k < |xs| => (xs[k], ys[k]))
    else seq(|ys|, k requires 0 <= k < |ys| => (xs[k], ys[k]))
  }

  /** The layers of the net's groups, in group order. */
  function GroupLayers(g: Graph): (ls: seq<seq<NeuronId>>)
    requires GroupsIn(g)
    ensures |ls| == |g.groups|
  {
    seq(|g.groups|, i requires 0 <= i < |g.groups| => g.layers[g.groups[i]])
  }

  /** `NeuralNet::ConnectGroups` over layers `ls`: each layer that has a next one is connected to it, in order. */
  function Chain(ls: seq<seq<NeuronId>>): seq<Link>
  {
    if |ls| < 2 then [] else Chain(ls[..|ls| - 1]) + Cross(ls[|ls| - 2], ls[|ls| - 1])
  }

  /** The sum, over neighbouring layers, of the product of their sizes. */
  function SumProducts(ls: seq<seq<NeuronId>>): nat
  {
    if |ls| < 2 then 0 else SumProducts(ls[..|ls| - 1]) + |ls[|ls| - 2]| * |ls[|ls| - 1]|
  }

  /**
   * `ConnectGroups` makes, for each pair of neighbouring layers, the
   * product of their sizes in connections, and a pair is among them exactly
   * when it leads from a layer to the next one.
   */
  lemma {:induction false} ChainCount(ls: seq<seq<NeuronId>>)
    ensures |Chain(ls)| == SumProducts(ls)
    ensures forall a, b :: (a, b) in Chain(ls) <==> exists i | 0 <= i < |ls| - 1 :: a in ls[i] && b in ls[i + 1]
  {
    if |ls| >= 2 {
      var ls' := ls[..|ls| - 1];
      ChainCount(ls');
      CrossCount(ls[|ls| - 2], ls[|ls| - 1]);
      forall a, b
        ensures (a, b) in Chain(ls) <==> exists i | 0 <= i < |ls| - 1 :: a in ls[i] && b in ls[i + 1]
      {
        if (a, b) in Chain(ls') {
          var i :| 0 <= i < |ls'| - 1 && a in ls'[i] && b in ls'[i + 1];
          assert a in ls[i] && b in ls[i + 1];
        }
        if exists i | 0 <= i < |ls| - 1 :: a in ls[i] && b in ls[i + 1] {
          var i :| 0 <= i < |ls| - 1 && a in ls[i] && b in ls[i + 1];
          if i < |ls| - 2 {
            assert a in ls'[i] && b in ls'[i + 1];
          }
        }
      }
    }
  }

  /** One more connection at the end of the list. */
  lemma AddOutputsNext(g: Graph, ps: seq<Link>, a: NeuronId, b: NeuronId)
    requires LinksIn(g, ps) && a < |g.neurons| && b < |g.neurons|
    ensures LinksIn(g, ps + [(a, b)])
    ensures AddOutputs(g, ps + [(a, b)]) == AddOutput(AddOutputs(g, ps), a, b, 0.0)
  {
    assert (ps + [(a, b)])[..|ps|] == ps;
  }

  /** The inner loop of `Connect`, one step further: one more pair of `a`'s row. */
  lemma RowNext(ps: seq<Link>, a: NeuronId, ys: seq<NeuronId>, j: nat)
    requires j < |ys|
    ensures ps + Row(a, ys[..j + 1]) == (ps + Row(a, ys[..j])) + [(a, ys[j])]
  {
    assert Row(a, ys[..j + 1]) == Row(a, ys[..j]) + [(a, ys[j])];
  }

  /** The inner loop of `Connect` before its first step. */
  lemma RowStart(ps: seq<Link>, a: NeuronId, ys: seq<NeuronId>)
    ensures ps + Row(a, ys[..0]) == ps
  {
    assert Row(a, ys[..0]) == [];
  }

  /** The inner loop of `Connect` done: the row of `xs[i]` completes the first `i + 1` rows. */
  lemma CrossRowDone(xs: seq<NeuronId>, ys: seq<NeuronId>, i: nat)
    requires i < |xs|
    ensures Cross(xs[..i], ys) + Row(xs[i], ys[..|ys|]) == Cross(xs[..i + 1], ys)
  {
    var p := xs[..i + 1];
    assert p[..|p| - 1] == xs[..i] && p[|p| - 1] == xs[i];
    assert Cross(p, ys) == Cross(xs[..i], ys) + Row(xs[i], ys);
    assert ys[..|ys|] == ys;
  }

  /** Pairs of neurons of the graph name neurons of the graph. */
  lemma CrossIn(g: Graph, xs: seq<NeuronId>, ys: seq<NeuronId>)
    requires (forall k | 0 <= k < |xs| :: xs[k] < |g.neurons|) && forall k | 0 <= k < |ys| :: ys[k] < |g.neurons|
    ensures LinksIn(g, Cross(xs, ys))
  {
    CrossCount(xs, ys);
    forall k | 0 <= k < |Cross(xs, ys)|
      ensures Cross(xs, ys)[k].0 < |g.neurons| && Cross(xs, ys)[k].1 < |g.neurons|
    {
      var p := Cross(xs, ys)[k];
      assert (p.0, p.1) in Cross(xs, ys);
    }
  }

  /** One more step of `ConnectGroups`: connecting group `k` to group `k + 1` extends the chain of connections made so far. */
  lemma ChainStep(g0: Graph, ls: seq<seq<NeuronId>>, k: nat, h: Graph)
    requires k + 1 < |ls|
    requires LinksIn(g0, Chain(ls[..k + 1])) && h == AddOutputs(g0, Chain(ls[..k + 1]))
    requires LinksIn(h, Cross(ls[k], ls[k + 1]))
    ensures LinksIn(g0, Chain(ls[..k + 2]))
    ensures AddOutputs(h, Cross(ls[k], ls[k + 1])) == AddOutputs(g0, Chain(ls[..k + 2]))
  {
    var ps, qs := Chain(ls[..k + 1]), Cross(ls[k], ls[k + 1]);
    assert ls[..k + 2][..k + 1] == ls[..k + 1];
    assert Chain(ls[..k + 2]) == ps + qs;
    AddOutputsShape(g0, ps);
    LinksAppend(g0, ps, qs);
    AddOutputsAppend(g0, ps, qs);
  }

  lemma LinksAppend(g: Graph, ps: seq<Link>, qs: seq<Link>)
    requires LinksIn(g, ps) && LinksIn(g, qs)
    ensures LinksIn(g, ps + qs)
  {
    assert forall k | |ps| <= k < |ps + qs| :: (ps + qs)[k] == qs[k - |ps|];
  }
}
