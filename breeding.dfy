/**
 * The first loop of `GATrainer::CreatePopulation` on the gene contents of
 * the chromosomes, in list order: chromosome `k` and the next one (or `k`
 * itself when it is the last) receive the offspring of two parents picked
 * by roulette wheel, and the walk goes on after that partner. The parents'
 * genes are read when their round comes, so a parent may already hold
 * offspring written by an earlier round.
 */
module Breeding {
  import opened Util
  import opened Genes
  import opened Roulette

  /** The draws of one round: the two roulette draws, the crossover draw and the flip-point draw. */
  datatype PairDraws = PairDraws(ua: real, ub: real, cross: real, flip: nat)

  /** The roulette draws of a round lie in [0, 1], as `Random::GetDouble()` gives them. */
  predicate DrawOk(d: PairDraws)
  {
    0.0 <= d.ua <= 1.0 && 0.0 <= d.ub <= 1.0
  }

  /** The roulette draws of every round lie in [0, 1]. */
  predicate DrawsOk(ds: seq<PairDraws>)
  {
    forall i | 0 <= i < |ds| :: DrawOk(ds[i])
  }

  /** Every chromosome holds `n` genes. */
  predicate Shaped(G: seq<seq<real>>, n: nat)
  {
    forall i | 0 <= i < |G| :: |G[i]| == n
  }

  /** No chromosome has negative fitness. */
  predicate Fit(F: seq<real>)
  {
    forall i | 0 <= i < |F| :: F[i] >= 0.0
  }

  /** The partner of chromosome `k` of `m`: the next one, or `k` itself when it is the last. */
  function Partner(m: nat, k: nat): (k2: nat)
    requires k < m
    ensures k2 < m
  {
    if k + 1 < m then k + 1 else k
  }

  /** The total fitness is never negative when no fitness is. */
  lemma SumFit(F: seq<real>)
    requires Fit(F)
    ensures Sum(F) >= 0.0
  {
    SumMonotone(F, |F|, |F|);
    assert F[..|F|] == F;
  }

  /**
   * The parent `GetChromosome(Random::GetDouble(0, total))` returns for
   * draw `u`: with no negative fitness there always is one, and it is the
   * roulette pick of `total * u`.
   */
  function Parent(F: seq<real>, u: real): (a: nat)
    requires F != [] && Fit(F) && 0.0 <= u <= 1.0
    ensures a < |F| && Pick(F, GetDouble(u, 0.0, Sum(F))) == Some(a)
  {
    SumFit(F);
    var v := GetDouble(u, 0.0, Sum(F));
    assert v == Sum(F) * u;
    assert Sum(F) * u <= Sum(F) * 1.0;
    PickNone(F, v);
    var j := Pick(F, v).value;
    PickIs(F, v, j);
    j
  }

  /** One round at chromosome `k`: `CrossOver(ina, inb, outa, outb, rate)` on the current contents. */
  function BreedStep(G: seq<seq<real>>, F: seq<real>, rate: real, d: PairDraws, n: nat, k: nat): (H: seq<seq<real>>)
    requires Shaped(G, n) && |F| == |G| && Fit(F) && k < |G| && DrawOk(d)
    ensures Shaped(H, n) && |H| == |G|
    ensures forall i | 0 <= i < |G| && i != k && i != Partner(|G|, k) :: H[i] == G[i]
  {
    var a, b, k2 := Parent(F, d.ua), Parent(F, d.ub), Partner(|G|, k);
    var r := Crossed(G[k], G[k2], G[a], G[b], FlipPoint(n, rate, d.cross, a == b, d.flip), n, b == k, a == k, k2 == k);
    G[k := r.0][k2 := r.1]
  }

  /** The rounds from chromosome `k` on; round `k` uses the draws `ds[k / 2]`. */
  function BreedFrom(G: seq<seq<real>>, F: seq<real>, rate: real, ds: seq<PairDraws>, n: nat, k: nat): (H: seq<seq<real>>)
    requires Shaped(G, n) && |F| == |G| && Fit(F) && k <= |G| && DrawsOk(ds) && |G| <= 2 * |ds|
    ensures Shaped(H, n) && |H| == |G|
    decreases |G| - k
  {
    if k == |G| then G
    else
      BreedFrom(BreedStep(G, F, rate, ds[k / 2], n, k), F, rate, ds, n, Partner(|G|, k) + 1)
  }

  /** The rounds from `k` on are round `k` and then the rounds from the one after its partner. */
  lemma BreedFromStep(G: seq<seq<real>>, F: seq<real>, rate: real, ds: seq<PairDraws>, n: nat, k: nat)
    requires Shaped(G, n) && |F| == |G| && Fit(F) && k < |G| && DrawsOk(ds) && |G| <= 2 * |ds|
    ensures BreedFrom(G, F, rate, ds, n, k) == BreedFrom(BreedStep(G, F, rate, ds[k / 2], n, k), F, rate, ds, n, Partner(|G|, k) + 1)
  {
  }

  /** A round that takes the pass from `k` to `k2` keeps what the rest of the pass comes to. */
  lemma BreedFromAdvance(G: seq<seq<real>>, G2: seq<seq<real>>, F: seq<real>, rate: real, ds: seq<PairDraws>, n: nat, k: nat, k2: nat, H: seq<seq<real>>)
    requires Shaped(G, n) && |F| == |G| && Fit(F) && k < |G| && DrawsOk(ds) && |G| <= 2 * |ds|
    requires BreedFrom(G, F, rate, ds, n, k) == H
    requires G2 == BreedStep(G, F, rate, ds[k / 2], n, k) && k2 == Partner(|G|, k) + 1
    ensures BreedFrom(G2, F, rate, ds, n, k2) == H
  {
    BreedFromStep(G, F, rate, ds, n, k);
  }

  /** Once every chromosome has had its round, no rounds are left. */
  lemma BreedFromDone(G: seq<seq<real>>, F: seq<real>, rate: real, ds: seq<PairDraws>, n: nat, k: nat)
    requires Shaped(G, n) && |F| == |G| && Fit(F) && k == |G| && DrawsOk(ds) && |G| <= 2 * |ds|
    ensures BreedFrom(G, F, rate, ds, n, k) == G
  {
  }

  /** The rounds from `k` on leave the chromosomes before `k` as they are. */
  lemma {:induction false} BreedFromKeeps(G: seq<seq<real>>, F: seq<real>, rate: real, ds: seq<PairDraws>, n: nat, k: nat)
    requires Shaped(G, n) && |F| == |G| && Fit(F) && k <= |G| && DrawsOk(ds) && |G| <= 2 * |ds|
    ensures forall i | 0 <= i < k :: BreedFrom(G, F, rate, ds, n, k)[i] == G[i]
    decreases |G| - k
  {
    if k < |G| {
      var G' := BreedStep(G, F, rate, ds[k / 2], n, k);
      BreedFromKeeps(G', F, rate, ds, n, Partner(|G|, k) + 1);
    }
  }

  /** Crossing chromosomes that all hold `x` gives `x` twice, whatever the flip point and aliasing. */
  lemma CrossedUniform(x: seq<real>, p: nat, n: nat, bIsOutA: bool, aIsOutA: bool, same: bool)
    requires n <= |x|
    ensures Crossed(x, x, x, x, p, n, bIsOutA, aIsOutA, same) == (x, x)
  {
    var r := Crossed(x, x, x, x, p, n, bIsOutA, aIsOutA, same);
    assert r.0 == x && r.1 == x;
  }

  /** A round on a population whose chromosomes all hold the same genes changes nothing. */
  lemma BreedStepUniform(G: seq<seq<real>>, F: seq<real>, rate: real, d: PairDraws, n: nat, k: nat, x: seq<real>)
    requires Shaped(G, n) && |F| == |G| && Fit(F) && k < |G| && DrawOk(d)
    requires forall i | 0 <= i < |G| :: G[i] == x
    ensures BreedStep(G, F, rate, d, n, k) == G
  {
    assert G[k] == x && |x| == n;
    var a, b, k2 := Parent(F, d.ua), Parent(F, d.ub), Partner(|G|, k);
    CrossedUniform(x, FlipPoint(n, rate, d.cross, a == b, d.flip), n, b == k, a == k, k2 == k);
    assert G[k := x][k2 := x] == G;
  }

  /** A population whose chromosomes all hold the same genes keeps them through a whole pass of crossovers. */
  lemma {:induction false} BreedFromUniform(G: seq<seq<real>>, F: seq<real>, rate: real, ds: seq<PairDraws>, n: nat, k: nat, x: seq<real>)
    requires Shaped(G, n) && |F| == |G| && Fit(F) && k <= |G| && DrawsOk(ds) && |G| <= 2 * |ds|
    requires forall i | 0 <= i < |G| :: G[i] == x
    ensures BreedFrom(G, F, rate, ds, n, k) == G
    decreases |G| - k
  {
    if k < |G| {
      BreedStepUniform(G, F, rate, ds[k / 2], n, k, x);
      BreedFromUniform(G, F, rate, ds, n, Partner(|G|, k) + 1, x);
    }
  }

  /**
   * When neither parent is one of the two chromosomes being written and
   * those are two, each position of the offspring holds the parents' two
   * genes at that position, one each.
   */
  lemma BreedStepPairs(G: seq<seq<real>>, F: seq<real>, rate: real, d: PairDraws, n: nat, k: nat)
    requires Shaped(G, n) && |F| == |G| && Fit(F) && k < |G| && DrawOk(d)
    requires var a, b, k2 := Parent(F, d.ua), Parent(F, d.ub), Partner(|G|, k);
      k2 != k && a != k && a != k2 && b != k && b != k2
    ensures var a, b, k2 := Parent(F, d.ua), Parent(F, d.ub), Partner(|G|, k);
      var H := BreedStep(G, F, rate, d, n, k);
      forall i | 0 <= i < n :: multiset{H[k][i], H[k2][i]} == multiset{G[a][i], G[b][i]}
  {
    var a, b, k2 := Parent(F, d.ua), Parent(F, d.ub), Partner(|G|, k);
    CrossedPairs(G[k], G[k2], G[a], G[b], FlipPoint(n, rate, d.cross, a == b, d.flip), n);
  }

  /**
   * When the crossover draw is above the rate or both parents are the same
   * chromosome, and neither parent is written, the two chromosomes become
   * copies of the parents.
   */
  lemma BreedStepCopies(G: seq<seq<real>>, F: seq<real>, rate: real, d: PairDraws, n: nat, k: nat)
    requires Shaped(G, n) && |F| == |G| && Fit(F) && k < |G| && DrawOk(d)
    requires var a, b, k2 := Parent(F, d.ua), Parent(F, d.ub), Partner(|G|, k);
      k2 != k && a != k && a != k2 && b != k && b != k2 && (GetDouble(d.cross, 0.0, 1.0) > rate || a == b)
    ensures var a, b, k2 := Parent(F, d.ua), Parent(F, d.ub), Partner(|G|, k);
      var H := BreedStep(G, F, rate, d, n, k);
      H[k] == G[a] && H[k2] == G[b]
  {
    var a, b, k2 := Parent(F, d.ua), Parent(F, d.ub), Partner(|G|, k);
    CrossedApart(G[k], G[k2], G[a], G[b], n, n);
    assert G[a][..n] == G[a] && G[b][..n] == G[b];
    assert G[b][n..n] == [] && G[a][n..n] == [] && G[k][n..] == [] && G[k2][n..] == [];
  }
}
