/**
 * Small shared vocabulary: an optional value standing in for a nullable
 * pointer, distinctness of sequences, C's remainder operator, and the
 * draws the source takes from the C library's `rand()`.
 */
module Util {

  /** A value or nothing: what a possibly-null pointer carries. */
  datatype Option<T> = None | Some(value: T)

  /** No element occurs twice. */
  predicate Distinct<T(==)>(s: seq<T>) {
    forall i, j | 0 <= i < j < |s| :: s[i] != s[j]
  }

  /** Two distinct sequences make a distinct one exactly when they have no element in common. */
  lemma DistinctConcat<T>(a: seq<T>, b: seq<T>)
    requires Distinct(a) && Distinct(b)
    ensures Distinct(a + b) <==> forall x | x in a :: x !in b
  {
    if forall x | x in a :: x !in b {
      forall i, j | 0 <= i < j < |a + b|
        ensures (a + b)[i] != (a + b)[j]
      {
        if j < |a| {
          assert (a + b)[i] == a[i] && (a + b)[j] == a[j];
        } else if i >= |a| {
          assert (a + b)[i] == b[i - |a|] && (a + b)[j] == b[j - |a|];
        } else {
          assert (a + b)[i] == a[i] && a[i] in a;
          assert (a + b)[j] == b[j - |a|] && b[j - |a|] in b;
        }
      }
    } else {
      var x :| x in a && x in b;
      var i :| 0 <= i < |a| && a[i] == x;
      var j :| 0 <= j < |b| && b[j] == x;
      assert (a + b)[i] == (a + b)[|a| + j];
    }
  }

  /** The position of `x` in `s`; `x` must occur. */
  function IndexOf<T(==)>(s: seq<T>, x: T): (i: nat)
    requires x in s
    ensures i < |s| && s[i] == x
    ensures forall j | 0 <= j < i :: s[j] != x
  {
    if s[0] == x then 0 else 1 + IndexOf(s[1..], x)
  }

  /** `Container::GetIndex`: the position of `x` in `s`, or -1 when it is not there. */
  function GetIndex<T(==)>(s: seq<T>, x: T): (i: int)
    ensures x in s ==> 0 <= i < |s| && s[i] == x
    ensures x !in s ==> i == -1
  {
    if x in s then IndexOf(s, x) else -1
  }

  /** `s` without its element at position `i`. */
  function RemoveAt<T>(s: seq<T>, i: nat): seq<T>
    requires i < |s|
  {
    s[..i] + s[i + 1..]
  }

  /** `s` with `x` inserted at position `i`. */
  function InsertAt<T>(s: seq<T>, i: nat, x: T): (r: seq<T>)
    requires i <= |s|
  {
    s[..i] + [x] + s[i..]
  }

  /** A prefix one element longer is the shorter prefix and that element. */
  lemma TakeSnoc<T>(s: seq<T>, i: nat)
    requires i < |s|
    ensures s[..i + 1] == s[..i] + [s[i]]
  {
  }

  /** A new element in front of distinct ones keeps them distinct. */
  lemma PrependDistinct<T>(s: seq<T>, x: T)
    requires Distinct(s) && x !in s
    ensures Distinct([x] + s)
  {
    forall i, j | 0 <= i < j < |[x] + s|
      ensures ([x] + s)[i] != ([x] + s)[j]
    {
      assert ([x] + s)[j] == s[j - 1];
      if i > 0 {
        assert ([x] + s)[i] == s[i - 1];
      }
    }
  }

  /** `Container::Get(number)`: the element at that position, or nothing outside the list. */
  function Nth<T>(s: seq<T>, i: int): Option<T>
  {
    if 0 <= i < |s| then Some(s[i]) else None
  }

  /** Where the elements of `s` land when `x` is inserted at position `i`. */
  lemma InsertAtIndex<T>(s: seq<T>, i: nat, x: T)
    requires i <= |s|
    ensures var r := InsertAt(s, i, x);
            |r| == |s| + 1 && r[i] == x &&
            (forall j | 0 <= j < i :: r[j] == s[j]) && (forall j | i < j < |r| :: r[j] == s[j - 1])
  {
  }

  /** Inserting a new element into distinct ones: it lands at position `i`, and removing it gives `s` back. */
  lemma InsertAtDistinct<T>(s: seq<T>, i: nat, x: T)
    requires i <= |s| && Distinct(s) && x !in s
    ensures var r := InsertAt(s, i, x);
            Distinct(r) && x in r && IndexOf(r, x) == i && RemoveAt(r, i) == s &&
            (forall y | y in r :: y == x || y in s) && (forall y | y in s :: y in r) &&
            (i < |s| ==> r[i + 1] == s[i])
  {
    var r := InsertAt(s, i, x);
    InsertAtIndex(s, i, x);
    forall a, b | 0 <= a < b < |r|
      ensures r[a] != r[b]
    {
      if a == i {
        assert s[b - 1] in s;
      } else if b == i {
        assert s[a] in s;
      }
    }
    assert r[..i] == s[..i] && r[i + 1..] == s[i..];
    assert s[..i] + s[i..] == s;
    forall y | y in s
      ensures y in r
    {
      var j := IndexOf(s, y);
      if j < i {
        assert r[j] == y;
      } else {
        assert r[j + 1] == y;
      }
    }
  }

  /** `s` reversed. */
  function Reverse<T>(s: seq<T>): (r: seq<T>)
    ensures |r| == |s|
  {
    if s == [] then [] else [s[|s| - 1]] + Reverse(s[..|s| - 1])
  }

  lemma {:induction false} ReverseAt<T>(s: seq<T>, k: nat)
    requires k < |s|
    ensures Reverse(s)[k] == s[|s| - 1 - k]
  {
    if k > 0 {
      ReverseAt(s[..|s| - 1], k - 1);
    }
  }

  lemma {:induction false} ReverseMultiset<T>(s: seq<T>)
    ensures multiset(Reverse(s)) == multiset(s)
  {
    if s != [] {
      ReverseMultiset(s[..|s| - 1]);
      assert s == s[..|s| - 1] + [s[|s| - 1]];
    }
  }

  function Abs(x: int): nat { if x < 0 then -x else x }

  /** The absolute value of a real: C's `fabs`. */
  function RealAbs(x: real): real { if x < 0.0 then -x else x }

  /** The C and C++ `/` operator on integers: the quotient truncated toward zero. */
  function CDiv(a: int, b: int): int
    requires b != 0
  {
    if (a >= 0) == (b > 0) then Abs(a) / Abs(b) else -(Abs(a) / Abs(b))
  }

  /**
   * The C and C++ `%` operator: the quotient is truncated toward zero, so
   * the remainder takes the sign of the dividend (Dafny's own `%` is
   * Euclidean and never negative).
   */
  function CRem(a: int, b: int): (r: int)
    requires b != 0
    ensures a == CDiv(a, b) * b + r
    ensures Abs(r) < Abs(b)
    ensures a >= 0 ==> r >= 0
    ensures a <= 0 ==> r <= 0
  {
    if a >= 0 then a % Abs(b) else -((-a) % Abs(b))
  }

  /** `Random::GetInt(max)` is `rand() % max` (Util.h); `draw` is the value `rand()` returned. */
  function GetInt(draw: int, max: int): (r: int)
    requires max != 0
    ensures draw >= 0 && max > 0 ==> 0 <= r < max
  {
    CRem(draw, max)
  }

  /** `Random::GetInt(min, max)` is `rand() % (max - min) + min`. */
  function GetIntRange(draw: int, min: int, max: int): (r: int)
    requires max != min
    ensures draw >= 0 && min < max ==> min <= r < max
  {
    CRem(draw, max - min) + min
  }

  /**
   * `Random::GetDouble(min, max)` scales `u`, the draw divided by RAND_MAX
   * (a value between 0 and 1), onto the range from `min` to `max`.
   */
  function GetDouble(u: real, min: real, max: real): (r: real)
    ensures 0.0 <= u <= 1.0 && min <= max ==> min <= r <= max
  {
    ScaleBelow(max - min, u);
    (max - min) * u + min
  }

  /** A non-negative span scaled by a value between 0 and 1 lies between 0 and the span. */
  lemma ScaleBelow(d: real, u: real)
    ensures d >= 0.0 && 0.0 <= u <= 1.0 ==> 0.0 <= d * u <= d
  {
    if d >= 0.0 && 0.0 <= u <= 1.0 {
      assert d - d * u == d * (1.0 - u);
    }
  }
}
