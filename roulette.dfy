/**
 * Roulette-wheel selection as `GATrainer::GetChromosome(value)` does it:
 * walk the chromosomes in list order adding up their fitness, and take the
 * first one at which the running total reaches `value`; none when the
 * total never does.
 */
module Roulette {
  import opened Util

  /** The sum of `f`, added up from the front as the trainer's loops do. */
  function Sum(f: seq<real>): real
  {
    if f == [] then 0.0 else Sum(f[..|f| - 1]) + f[|f| - 1]
  }

  /** The running total once entry `k` has been added. */
  function Running(f: seq<real>, k: nat): real
    requires k < |f|
  {
    Sum(f[..k + 1])
  }

  /** One more entry adds its value to the running total. */
  lemma SumNext(f: seq<real>, i: nat)
    requires i < |f|
    ensures Running(f, i) == Sum(f[..i]) + f[i]
  {
    assert f[..i + 1][..i] == f[..i];
  }

  /** With no negative entry the running total only grows. */
  lemma {:induction false} SumMonotone(f: seq<real>, i: nat, j: nat)
    requires i <= j <= |f| && forall k | 0 <= k < |f| :: f[k] >= 0.0
    ensures 0.0 <= Sum(f[..i]) <= Sum(f[..j])
    decreases j
  {
    if j > 0 {
      SumNext(f, j - 1);
      if i < j {
        SumMonotone(f, i, j - 1);
      } else {
        SumMonotone(f, j - 1, j - 1);
      }
    } else {
      assert f[..0] == [];
    }
  }

  /** The first index from `i` on at which the running total of `f` reaches `v`. */
  function PickFrom(f: seq<real>, v: real, i: nat): Option<nat>
    requires i <= |f|
    decreases |f| - i
  {
    if i == |f| then None
    else if v <= Running(f, i) then Some(i)
    else PickFrom(f, v, i + 1)
  }

  /** The chromosome `GetChromosome(v)` returns, as an index into the fitness list `f`. */
  function Pick(f: seq<real>, v: real): Option<nat>
  {
    PickFrom(f, v, 0)
  }

  /** `PickFrom(f, v, i)` is `j` exactly when the total reaches `v` at `j` and at no index from `i` up to `j`. */
  lemma {:induction false} PickFromIs(f: seq<real>, v: real, i: nat, j: nat)
    requires i <= |f|
    ensures PickFrom(f, v, i) == Some(j) <==>
      i <= j < |f| && v <= Running(f, j) && forall k | i <= k < j :: Running(f, k) < v
    decreases |f| - i
  {
    if i < |f| && v > Running(f, i) {
      PickFromIs(f, v, i + 1, j);
    }
  }

  /** `PickFrom(f, v, i)` is none exactly when the total stays below `v` at every index from `i`. */
  lemma {:induction false} PickFromNone(f: seq<real>, v: real, i: nat)
    requires i <= |f|
    ensures PickFrom(f, v, i) == None <==> forall k | i <= k < |f| :: Running(f, k) < v
    decreases |f| - i
  {
    if i < |f| && v > Running(f, i) {
      PickFromNone(f, v, i + 1);
    }
  }

  /** Roulette selection picks the first chromosome at which the running total of fitness reaches `v`. */
  lemma PickIs(f: seq<real>, v: real, j: nat)
    ensures Pick(f, v) == Some(j) <==>
      j < |f| && v <= Running(f, j) && forall k | 0 <= k < j :: Running(f, k) < v
  {
    PickFromIs(f, v, 0, j);
  }

  /** With no negative fitness, selection fails exactly when there is no chromosome or `v` exceeds the total. */
  lemma PickNone(f: seq<real>, v: real)
    requires forall k | 0 <= k < |f| :: f[k] >= 0.0
    ensures Pick(f, v) == None <==> f == [] || Sum(f) < v
  {
    PickFromNone(f, v, 0);
    if f != [] {
      var last := |f| - 1;
      assert f[..last + 1] == f;
      if Sum(f) < v {
        forall k | 0 <= k < |f|
          ensures Running(f, k) < v
        {
          SumMonotone(f, k + 1, |f|);
        }
      } else {
        assert Running(f, last) >= v;
      }
    }
  }

  /** With no negative fitness and `v` above 0, a chromosome of fitness 0 is never picked. */
  lemma PickPositive(f: seq<real>, v: real)
    requires forall k | 0 <= k < |f| :: f[k] >= 0.0
    requires v > 0.0 && Pick(f, v).Some?
    ensures Pick(f, v).value < |f| && f[Pick(f, v).value] > 0.0
  {
    var j := Pick(f, v).value;
    PickIs(f, v, j);
    SumNext(f, j);
    if j > 0 {
      SumNext(f, j - 1);
      assert Running(f, j - 1) < v;
    } else {
      assert f[..0] == [];
    }
  }
}
