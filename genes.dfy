/**
 * `Chromosome` (GANet.h/.cpp): a fixed number of genes held in two
 * buffers, `genes` and `newgenes`, and a fitness score. `Update` swaps the
 * two buffer pointers. `GetNewGenes` returns `genes` (not `newgenes`), so
 * `CrossOver`, which writes its offspring through `GetNewGenes`, writes
 * them into the `genes` buffers of its output chromosomes, and those may
 * be the very buffers it reads its parents from.
 *
 * The random draws of `Mutate` and `CrossOver` are parameters: each draw
 * of `Random::GetDouble()` is the value in [0, 1] it returned, and the
 * draw of `Random::GetInt` is the value `rand()` returned.
 */
module Genes {
  import opened Util
  import opened NeuralNet

  /** The gene `Mutate` leaves in place of `x`: `pick` is the draw compared with the rate, `off` the one scaled onto [-1, 1]. */
  function Mutated(x: real, rate: real, maxoffset: real, pick: real, off: real): real
  {
    if GetDouble(pick, 0.0, 1.0) < rate then x + GetDouble(off, -1.0, 1.0) * maxoffset else x
  }

  /** A gene moves by at most `maxoffset`, and only when its draw is below the rate. */
  lemma MutatedBound(x: real, rate: real, maxoffset: real, pick: real, off: real)
    requires maxoffset >= 0.0 && 0.0 <= off <= 1.0
    ensures RealAbs(Mutated(x, rate, maxoffset, pick, off) - x) <= maxoffset
    ensures GetDouble(pick, 0.0, 1.0) >= rate ==> Mutated(x, rate, maxoffset, pick, off) == x
  {
    var d := GetDouble(off, -1.0, 1.0);
    assert -1.0 <= d <= 1.0;
    ScaleBelow(maxoffset, (d + 1.0) / 2.0);
    assert d * maxoffset == 2.0 * (maxoffset * ((d + 1.0) / 2.0)) - maxoffset;
    assert -maxoffset <= d * maxoffset <= maxoffset;
    if GetDouble(pick, 0.0, 1.0) < rate {
      assert Mutated(x, rate, maxoffset, pick, off) - x == d * maxoffset;
    }
  }

  /** All genes of `g` after `Mutate`, the `i`-th with the draws `picks[i]` and `offs[i]`. */
  function MutatedGenes(g: seq<real>, rate: real, maxoffset: real, picks: seq<real>, offs: seq<real>): (r: seq<real>)
    requires |picks| == |g| && |offs| == |g|
    ensures |r| == |g|
  {
    seq(|g|, i requires 0 <= i < |g| => Mutated(g[i], rate, maxoffset, picks[i], offs[i]))
  }

  /** Mutation keeps the gene count, moves each gene by at most `maxoffset`, and leaves the genes whose draw reaches the rate. */
  lemma MutatedGenesBound(g: seq<real>, rate: real, maxoffset: real, picks: seq<real>, offs: seq<real>)
    requires |picks| == |g| && |offs| == |g|
    requires maxoffset >= 0.0 && forall i | 0 <= i < |offs| :: 0.0 <= offs[i] <= 1.0
    ensures var r := MutatedGenes(g, rate, maxoffset, picks, offs);
      |r| == |g| &&
      (forall i | 0 <= i < |g| :: RealAbs(r[i] - g[i]) <= maxoffset) &&
      (forall i | 0 <= i < |g| && GetDouble(picks[i], 0.0, 1.0) >= rate :: r[i] == g[i])
  {
    var r := MutatedGenes(g, rate, maxoffset, picks, offs);
    forall i | 0 <= i < |g|
      ensures RealAbs(r[i] - g[i]) <= maxoffset
      ensures GetDouble(picks[i], 0.0, 1.0) >= rate ==> r[i] == g[i]
    {
      MutatedBound(g[i], rate, maxoffset, picks[i], offs[i]);
    }
  }

  /**
   * Where `CrossOver` switches parents for `n` genes: after all of them
   * (a straight copy) when the crossover draw exceeds the rate or both
   * parents are one chromosome, otherwise at `Random::GetInt(n + 1)`.
   */
  function FlipPoint(n: nat, rate: real, u: real, same: bool, flip: nat): (p: nat)
    ensures p <= n
  {
    if GetDouble(u, 0.0, 1.0) > rate || same then n else GetInt(flip, n + 1)
  }

  /**
   * The contents of the gene arrays of `outa` and `outb` after `CrossOver`
   * writes their first `n` positions, from their old contents `oa`, `ob`
   * and the parents' old genes `a`, `b`, switching parents at `p`. At each
   * position `outa` gets the gene of `a` below `p` and of `b` from `p` on,
   * and `outb` the other parent's gene, read after `outa`'s write: when the
   * parent it reads is `outa`'s array (`bIsOutA` below `p`, `aIsOutA` from
   * `p` on) it reads the gene just written. When both outputs are one
   * array (`same`) the write to `outb` is the one that stays.
   */
  function Crossed(oa: seq<real>, ob: seq<real>, a: seq<real>, b: seq<real>, p: nat, n: nat,
                   bIsOutA: bool, aIsOutA: bool, same: bool): (r: (seq<real>, seq<real>))
    requires n <= |a| && n <= |b| && n <= |oa| && n <= |ob| && (same ==> oa == ob)
    ensures |r.0| == |oa| && |r.1| == |ob|
  {
    var xa := seq(|oa|, i requires 0 <= i < |oa| => if i < n then (if i < p then a[i] else b[i]) else oa[i]);
    var xb := seq(|ob|, i requires 0 <= i < |ob| =>
      if i < n then (if i < p then (if bIsOutA then a[i] else b[i]) else (if aIsOutA then b[i] else a[i])) else ob[i]);
    (if same then xb else xa, xb)
  }

  /**
   * With four separate arrays, `outa` takes the first `p` genes of `a` and
   * the rest of `b`, `outb` the first `p` of `b` and the rest of `a`, and
   * the genes from `n` on stay.
   */
  lemma CrossedApart(oa: seq<real>, ob: seq<real>, a: seq<real>, b: seq<real>, p: nat, n: nat)
    requires n <= |a| && n <= |b| && n <= |oa| && n <= |ob| && p <= n
    ensures var r := Crossed(oa, ob, a, b, p, n, false, false, false);
      r.0 == a[..p] + b[p..n] + oa[n..] && r.1 == b[..p] + a[p..n] + ob[n..]
  {
    var r := Crossed(oa, ob, a, b, p, n, false, false, false);
    assert r.0 == a[..p] + b[p..n] + oa[n..] by {
      forall i | 0 <= i < |oa| ensures r.0[i] == (a[..p] + b[p..n] + oa[n..])[i] {
        if i < p { assert (a[..p] + b[p..n] + oa[n..])[i] == a[i]; }
        else if i < n { assert (a[..p] + b[p..n] + oa[n..])[i] == b[p..n][i - p]; }
        else { assert (a[..p] + b[p..n] + oa[n..])[i] == oa[n..][i - n]; }
      }
    }
    assert r.1 == b[..p] + a[p..n] + ob[n..] by {
      forall i | 0 <= i < |ob| ensures r.1[i] == (b[..p] + a[p..n] + ob[n..])[i] {
        if i < p { assert (b[..p] + a[p..n] + ob[n..])[i] == b[i]; }
        else if i < n { assert (b[..p] + a[p..n] + ob[n..])[i] == a[p..n][i - p]; }
        else { assert (b[..p] + a[p..n] + ob[n..])[i] == ob[n..][i - n]; }
      }
    }
  }

  /** With four separate arrays, each of the first `n` positions holds the two parents' genes between the two offspring. */
  lemma CrossedPairs(oa: seq<real>, ob: seq<real>, a: seq<real>, b: seq<real>, p: nat, n: nat)
    requires n <= |a| && n <= |b| && n <= |oa| && n <= |ob|
    ensures var r := Crossed(oa, ob, a, b, p, n, false, false, false);
      forall i | 0 <= i < n :: multiset{r.0[i], r.1[i]} == multiset{a[i], b[i]}
  {
    var r := Crossed(oa, ob, a, b, p, n, false, false, false);
    forall i | 0 <= i < n
      ensures multiset{r.0[i], r.1[i]} == multiset{a[i], b[i]}
    {
      if i < p {
        assert r.0[i] == a[i] && r.1[i] == b[i];
      } else {
        assert r.0[i] == b[i] && r.1[i] == a[i];
      }
    }
  }

  /**
   * When both outputs are one chromosome that is neither parent (the last
   * chromosome of an odd population), it ends with `outb`'s offspring: the
   * first `p` genes of `b` and the rest of `a`.
   */
  lemma CrossedSelf(o: seq<real>, a: seq<real>, b: seq<real>, p: nat, n: nat)
    requires n <= |a| && n <= |b| && n <= |o| && p <= n
    ensures var r := Crossed(o, o, a, b, p, n, false, false, true);
      r.0 == r.1 == b[..p] + a[p..n] + o[n..]
  {
    CrossedApart(o, o, a, b, p, n);
  }

  class Chromosome {
    /** The number of genes, fixed at construction. */
    const genecount: nat
    var genes: array<real>
    var newgenes: array<real>
    var fitness: real

    /** Both buffers hold `genecount` genes and are two arrays. */
    ghost predicate Valid()
      reads this
    {
      genes.Length == genecount && newgenes.Length == genecount && genes != newgenes
    }

    /** The two gene buffers the chromosome owns. */
    function Buffers(): set<array<real>>
      reads this
    {
      {genes, newgenes}
    }

    /** `Chromosome(length)`: two new buffers of `length` genes. */
    constructor (length: nat)
      ensures Valid() && genecount == length && fresh(genes) && fresh(newgenes) && fitness == 0.0
    {
      genecount := length;
      genes := new real[length];
      newgenes := new real[length];
      fitness := 0.0;
    }

    /** `GetNewGenes()` returns the `genes` buffer, never the `newgenes` one. */
    function GetNewGenes(): (a: array<real>)
      reads this
      ensures Valid() ==> a != newgenes && a.Length == genecount
      ensures a == genes
    {
      genes
    }

    /** `SetGenes(weight)`: every gene gets a value of the weight function, the `i`-th from draw `us[i]`. */
    method SetGenes(f: WeightFn, us: seq<real>)
      requires Valid() && |us| == genecount
      modifies genes
      ensures forall i | 0 <= i < genecount :: genes[i] == Weight(f, us[i])
      ensures (forall i | 0 <= i < |us| :: 0.0 <= us[i] <= 1.0) ==> forall i | 0 <= i < genecount :: -1.0 <= genes[i] <= 1.0
    {
      var i := 0;
      while i < genecount
        invariant 0 <= i <= genecount
        invariant forall k | 0 <= k < i :: genes[k] == Weight(f, us[k])
      {
        genes[i] := Weight(f, us[i]);
        i := i + 1;
      }
    }

    /** `Mutate(rate, maxoffset)`: gene `i` moves by `GetDouble(-1, 1) * maxoffset` when its draw `picks[i]` is below `rate`. */
    method Mutate(rate: real, maxoffset: real, picks: seq<real>, offs: seq<real>)
      requires Valid() && |picks| == genecount && |offs| == genecount
      modifies genes
      ensures genes[..] == MutatedGenes(old(genes[..]), rate, maxoffset, picks, offs)
    {
      var i := 0;
      while i < genecount
        invariant 0 <= i <= genecount
        invariant forall k | 0 <= k < i :: genes[k] == Mutated(old(genes[k]), rate, maxoffset, picks[k], offs[k])
        invariant forall k | i <= k < genecount :: genes[k] == old(genes[k])
      {
        if GetDouble(picks[i], 0.0, 1.0) < rate {
          genes[i] := genes[i] + GetDouble(offs[i], -1.0, 1.0) * maxoffset;
        }
        i := i + 1;
      }
    }

    /** `Update()`: the two buffers trade places, so a second `Update` puts both back. */
    method Update()
      requires Valid()
      modifies this
      ensures Valid() && genes == old(newgenes) && newgenes == old(genes) && fitness == old(fitness)
      ensures Buffers() == old(Buffers())
    {
      var temp := genes;
      genes := newgenes;
      newgenes := temp;
    }
  }

  /** What the loops of `CrossOver` have done after `i` positions, towards the contents `t`. */
  ghost predicate Written(ina: Chromosome, inb: Chromosome, outa: Chromosome, outb: Chromosome, t: (seq<real>, seq<real>),
                          oa: seq<real>, ob: seq<real>, a: seq<real>, b: seq<real>, n: nat, i: nat)
    reads ina, inb, outa, outb, ina.genes, inb.genes, outa.genes, outb.genes
    requires |t.0| == |oa| == outa.genes.Length && |t.1| == |ob| == outb.genes.Length
    requires i <= n <= ina.genes.Length && n <= inb.genes.Length && n <= |a| && n <= |b| && n <= |oa| && n <= |ob|
  {
    (forall j | 0 <= j < i :: outa.genes[j] == t.0[j] && outb.genes[j] == t.1[j]) &&
    (forall j | i <= j < |oa| :: outa.genes[j] == oa[j]) &&
    (forall j | i <= j < |ob| :: outb.genes[j] == ob[j]) &&
    (forall j | i <= j < n :: ina.genes[j] == a[j] && inb.genes[j] == b[j])
  }

  /**
   * One loop of `CrossOver`: positions `lo` to `hi` of `outa` and `outb`
   * get the genes of `ina` and `inb`, or of `inb` and `ina` when `swap`
   * (the positions from the flip point on).
   */
  method CrossRange(ina: Chromosome, inb: Chromosome, outa: Chromosome, outb: Chromosome, lo: nat, hi: nat, swap: bool,
                    ghost t: (seq<real>, seq<real>), ghost oa: seq<real>, ghost ob: seq<real>, ghost a: seq<real>, ghost b: seq<real>,
                    ghost n: nat)
    requires ina.Valid() && inb.Valid() && outa.Valid() && outb.Valid()
    requires lo <= hi <= n <= ina.genecount && n <= inb.genecount && n <= |a| && n <= |b|
    requires |oa| == outa.genecount && |ob| == outb.genecount && n <= |oa| && n <= |ob| && (outa.genes == outb.genes ==> oa == ob)
    requires |t.0| == |oa| && |t.1| == |ob|
    requires forall j | lo <= j < hi ::
      t.0[j] == (if outa.genes == outb.genes then t.1[j] else if swap then b[j] else a[j]) &&
      t.1[j] == if swap then (if ina.genes == outa.genes then b[j] else a[j]) else (if inb.genes == outa.genes then a[j] else b[j])
    requires Written(ina, inb, outa, outb, t, oa, ob, a, b, n, lo)
    modifies outa.genes, outb.genes
    ensures Written(ina, inb, outa, outb, t, oa, ob, a, b, n, hi)
  {
    var i := lo;
    while i < hi
      invariant lo <= i <= hi && Written(ina, inb, outa, outb, t, oa, ob, a, b, n, i)
    {
      var x := if swap then inb.genes[i] else ina.genes[i];
      assert outa.genes != outb.genes ==> x == t.0[i];
      outa.GetNewGenes()[i] := x;
      var y := if swap then ina.genes[i] else inb.genes[i];
      assert y == t.1[i];
      outb.GetNewGenes()[i] := y;
      i := i + 1;
    }
  }

  /**
   * `Chromosome::CrossOver(ina, inb, outa, outb, rate)`: nothing when the
   * parents' gene counts differ; otherwise the offspring of the first
   * `n` genes are written into `outa`'s and `outb`'s `GetNewGenes()`
   * (their `genes` buffers), switching parents at the flip point. `u` is
   * the crossover draw and `flip` the draw of `Random::GetInt`.
   */
  method CrossOver(ina: Chromosome, inb: Chromosome, outa: Chromosome, outb: Chromosome, rate: real, u: real, flip: nat)
    requires ina.Valid() && inb.Valid() && outa.Valid() && outb.Valid()
    requires ina.genecount == inb.genecount ==> ina.genecount <= outa.genecount && ina.genecount <= outb.genecount
    modifies outa.genes, outb.genes
    ensures ina.genecount != inb.genecount ==> outa.genes[..] == old(outa.genes[..]) && outb.genes[..] == old(outb.genes[..])
    ensures ina.genecount == inb.genecount ==>
      (outa.genes[..], outb.genes[..]) ==
      Crossed(old(outa.genes[..]), old(outb.genes[..]), old(ina.genes[..]), old(inb.genes[..]),
              FlipPoint(ina.genecount, rate, u, ina == inb, flip), ina.genecount,
              inb.genes == outa.genes, ina.genes == outa.genes, outa.genes == outb.genes)
  {
    if ina.genecount != inb.genecount {
      return;
    }
    var n := ina.genecount;
    ghost var oa, ob, a, b := outa.genes[..], outb.genes[..], ina.genes[..], inb.genes[..];
    ghost var p := FlipPoint(n, rate, u, ina == inb, flip);
    ghost var t := Crossed(oa, ob, a, b, p, n, inb.genes == outa.genes, ina.genes == outa.genes, outa.genes == outb.genes);
    if GetDouble(u, 0.0, 1.0) > rate || ina == inb {
      CrossRange(ina, inb, outa, outb, 0, n, false, t, oa, ob, a, b, n);
    } else {
      var flippoint := GetInt(flip, n + 1);
      CrossRange(ina, inb, outa, outb, 0, flippoint, false, t, oa, ob, a, b, n);
      CrossRange(ina, inb, outa, outb, flippoint, n, true, t, oa, ob, a, b, n);
    }
    assert outa.genes[..] == t.0;
    assert outb.genes[..] == t.1;
  }
}
