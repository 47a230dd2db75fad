/** The probe sequence: triangular steps over a power-of-two array of groups. */
module Probing {

  function Pow2(k: nat): (p: nat)
    ensures p >= 1
  {
    if k == 0 then 1 else 2 * Pow2(k - 1)
  }

  ghost predicate IsPow2(n: nat) {
    exists k: nat :: Pow2(k) == n
  }

  lemma {:induction false} Pow2Sum(a: nat, b: nat)
    ensures Pow2(a + b) == Pow2(a) * Pow2(b)
  {
    if b == 0 {
    } else {
      Pow2Sum(a, b - 1);
      assert Pow2(a + b) == 2 * Pow2(a + (b - 1));
    }
  }

  lemma {:induction false} Pow2Monotone(a: nat, b: nat)
    requires a < b
    ensures Pow2(a) < Pow2(b)
  {
    if a + 1 < b {
      Pow2Monotone(a, b - 1);
    }
  }

  lemma Pow2Injective(a: nat, b: nat)
    requires Pow2(a) == Pow2(b)
    ensures a == b
  {
    if a < b {
      Pow2Monotone(a, b);
    } else if b < a {
      Pow2Monotone(b, a);
    }
  }

  /** One probe step: the next group after `group`, the step number being `delta`. The source masks the
      sum; a walk never takes a step as long as the array, so the sum wraps at most once (Bits.NextIsMaskedSum). */
  function Next(groups: nat, group: nat, delta: nat): (next: nat)
    requires group < groups && delta < groups
    ensures next < groups
  {
    if group + delta < groups then group + delta else group + delta - groups
  }

  /** The group a probe from `home` looks at after `d` steps. */
  function Path(groups: nat, home: nat, d: nat): (group: nat)
    requires home < groups && d < groups
    ensures group < groups
  {
    if d == 0 then home else Next(groups, Path(groups, home, d - 1), d)
  }

  function Triangular(d: nat): nat {
    if d == 0 then 0 else Triangular(d - 1) + d
  }

  lemma {:induction false} TriangularClosed(d: nat)
    ensures 2 * Triangular(d) == d * (d + 1)
  {
    if d > 0 {
      TriangularClosed(d - 1);
      assert d * (d + 1) == (d - 1) * d + 2 * d;
    }
  }

  lemma MultipleBounds(m: int, q: int)
    requires m > 0
    ensures q >= 1 ==> m * q >= m
    ensures q <= -1 ==> m * q <= -m
    ensures q == 0 ==> m * q == 0
  {
    if q >= 1 {
      assert m * (q - 1) >= 0;
    } else if q <= -1 {
      assert m * (-q - 1) >= 0;
    }
  }

  lemma Distribute(m: int, a: int, b: int)
    ensures m * (a + b) == m * a + m * b
    ensures m * (a - b) == m * a - m * b
  {
  }

  /** Quotient and remainder are determined by what they have to satisfy. */
  lemma ModUnique(x: int, m: int, q: int, r: int)
    requires m > 0 && 0 <= r < m && x == m * q + r
    ensures x % m == r && x / m == q
  {
    MultipleBounds(m, q - x / m);
    Distribute(m, q, x / m);
  }

  /** The step-by-step walk lands where the triangular numbers say, less the times it wrapped. */
  lemma {:induction false} PathIsTriangular(groups: nat, home: nat, d: nat) returns (wraps: nat)
    requires home < groups && d < groups
    ensures Path(groups, home, d) == home + Triangular(d) - groups * wraps
  {
    if d == 0 {
      wraps := 0;
    } else {
      wraps := PathIsTriangular(groups, home, d - 1);
      if Path(groups, home, d - 1) + d >= groups {
        Distribute(groups, wraps, 1);
        wraps := wraps + 1;
      }
    }
  }

  /** After d steps a walk has gone 1 + 2 + ... + d groups from home, round the array. */
  lemma PathIs(groups: nat, home: nat, d: nat)
    requires home < groups && d < groups
    ensures Path(groups, home, d) == (home + d * (d + 1) / 2) % groups
  {
    var wraps := PathIsTriangular(groups, home, d);
    TriangularClosed(d);
    ModUnique(home + Triangular(d), groups, wraps, Path(groups, home, d));
  }

  /** x is a multiple of 2^k. */
  predicate Halves(k: nat, x: int) {
    k == 0 || (x % 2 == 0 && Halves(k - 1, x / 2))
  }

  lemma OddTimesOdd(a: int, b: int)
    requires a % 2 == 1 && b % 2 == 1
    ensures (a * b) % 2 == 1
  {
    var x, y := a / 2, b / 2;
    assert a * b == 2 * (2 * (x * y) + x + y) + 1 by {
      assert a == 2 * x + 1 && b == 2 * y + 1;
      Distribute(a, 2 * y, 1);
      Distribute(2 * y, 2 * x, 1);
      assert 2 * y * (2 * x) == 4 * (x * y);
    }
  }

  /** An odd factor carries no power of two: if 2^k divides odd * x, it divides x. */
  lemma {:induction false} OddFactorDrops(k: nat, odd: int, x: int)
    requires odd % 2 == 1 && Halves(k, odd * x)
    ensures Halves(k, x)
  {
    if k > 0 {
      if x % 2 == 1 {
        OddTimesOdd(odd, x);
      } else {
        var half := x / 2;
        assert odd * x == 2 * (odd * half) by {
          assert x == half + half;
          Distribute(odd, half, half);
        }
        OddFactorDrops(k - 1, odd, half);
      }
    }
  }

  lemma {:induction false} SmallMultipleIsZero(k: nat, x: int)
    requires 0 <= x < Pow2(k) && Halves(k, x)
    ensures x == 0
  {
    if k > 0 {
      SmallMultipleIsZero(k - 1, x / 2);
    }
  }

  lemma {:induction false} MultipleHalves(k: nat, w: int)
    ensures Halves(k, Pow2(k) * w)
  {
    if k > 0 {
      MultipleHalves(k - 1, w);
      assert Pow2(k) * w == 2 * (Pow2(k - 1) * w);
    }
  }

  lemma MultiplesDifference(k: nat, v: int, w: int, t: int)
    requires t == Pow2(k) * w - Pow2(k) * v
    ensures Halves(k, t)
  {
    MultipleHalves(k, w - v);
    Distribute(Pow2(k), w, v);
  }

  /** Two positive factors below 2^k, one of them odd, do not make a multiple of 2^k. */
  lemma TwoFactors(k: nat, a: int, b: int)
    requires 0 < a < Pow2(k) && 0 < b < Pow2(k) && (a % 2 == 1 || b % 2 == 1)
    ensures !Halves(k, a * b)
  {
    if Halves(k, a * b) {
      if a % 2 == 1 {
        OddFactorDrops(k, a, b);
        SmallMultipleIsZero(k, b);
      } else {
        assert a * b == b * a;
        OddFactorDrops(k, b, a);
        SmallMultipleIsZero(k, a);
      }
    }
  }

  lemma TriangularProduct(i: nat, j: nat, a: int, b: int)
    requires a == j - i && b == j + i + 1
    ensures a * b == 2 * (Triangular(j) - Triangular(i))
  {
    TriangularClosed(i);
    TriangularClosed(j);
    hide Triangular;
    assert a * b == a * j + a * (i + 1) by {
      Distribute(a, j, i + 1);
    }
    assert a * j == j * j - i * j;
    assert a * (i + 1) == j * (i + 1) - i * (i + 1);
    assert j * (j + 1) == j * j + j && j * (i + 1) == i * j + j;
  }

  lemma HalvesDouble(k: nat, t: int)
    ensures Halves(k + 1, 2 * t) == Halves(k, t)
  {
  }

  lemma HalfAProduct(k: nat, a: int, b: int, t: int)
    requires 0 < a < Pow2(k + 1) && 0 < b < Pow2(k + 1) && (a % 2 == 1 || b % 2 == 1)
    requires a * b == 2 * t
    ensures !Halves(k, t)
  {
    hide *;
    TwoFactors(k + 1, a, b);
    HalvesDouble(k, t);
  }

  /** Two triangular numbers at depths below 2^k never differ by a multiple of 2^k: their difference is
      half of (j - i) * (j + i + 1), and one of those two factors is odd. */
  lemma TriangularResidues(k: nat, i: nat, j: nat)
    requires i < j < Pow2(k)
    ensures !Halves(k, Triangular(j) - Triangular(i))
  {
    assert j + i + 1 < Pow2(k + 1);
    hide *;
    var a, b := j - i, j + i + 1;
    assert a % 2 == 1 || b % 2 == 1;
    TriangularProduct(i, j, a, b);
    HalfAProduct(k, a, b, Triangular(j) - Triangular(i));
  }

  /** Two different depths below 2^k reach two different groups. */
  lemma PathInjective(k: nat, groups: nat, home: nat, i: nat, j: nat)
    requires groups == Pow2(k) && home < groups
    requires i < j < groups
    ensures Path(groups, home, i) != Path(groups, home, j)
  {
    hide Triangular, Halves, Path;
    TriangularResidues(k, i, j);
    var wi := PathIsTriangular(groups, home, i);
    var wj := PathIsTriangular(groups, home, j);
    if Path(groups, home, i) == Path(groups, home, j) {
      MultiplesDifference(k, wi, wj, Triangular(j) - Triangular(i));
    }
  }

  /** {0, ..., n - 1} */
  function Below(n: nat): (s: set<nat>)
    ensures forall x: nat :: x in s <==> x < n
    ensures |s| == n
  {
    if n == 0 then {} else
      var s := Below(n - 1);
      assert n - 1 !in s;
      s + {n - 1}
  }

  ghost predicate Reached(groups: nat, home: nat, n: nat, g: nat)
    requires home < groups && n <= groups
  {
    exists d :: 0 <= d < n && Path(groups, home, d) == g
  }

  lemma NotYetReached(k: nat, groups: nat, home: nat, n: nat)
    requires groups == Pow2(k) && home < groups && n < groups
    ensures !Reached(groups, home, n, Path(groups, home, n))
  {
    forall d | 0 <= d < n
      ensures Path(groups, home, d) != Path(groups, home, n)
    {
      PathInjective(k, groups, home, d, n);
    }
  }

  lemma {:induction false} FirstSteps(k: nat, groups: nat, home: nat, n: nat) returns (s: set<nat>)
    requires groups == Pow2(k) && home < groups && n <= groups
    ensures |s| == n
    ensures forall g :: g in s ==> g < groups && Reached(groups, home, n, g)
  {
    if n == 0 {
      s := {};
    } else {
      var before := FirstSteps(k, groups, home, n - 1);
      var last := Path(groups, home, n - 1);
      NotYetReached(k, groups, home, n - 1);
      s := before + {last};
      forall g | g in s
        ensures Reached(groups, home, n, g)
      {
        if g != last {
          assert Reached(groups, home, n - 1, g);
        }
      }
    }
  }

  lemma SubsetOfSameSize<T>(a: set<T>, b: set<T>)
    requires a <= b && |a| == |b|
    ensures a == b
  {
    assert a + (b - a) == b;
    assert |b - a| == 0;
  }

  /** The first 2^k groups of a probe sequence are all the groups there are. */
  lemma PathOnto(groups: nat, home: nat, g: nat)
    requires IsPow2(groups) && home < groups && g < groups
    ensures exists d :: 0 <= d < groups && Path(groups, home, d) == g
  {
    var k :| Pow2(k) == groups;
    var steps := FirstSteps(k, groups, home, groups);
    assert steps <= Below(groups);
    SubsetOfSameSize(steps, Below(groups));
    assert g in steps;
    assert Reached(groups, home, groups, g);
  }

  /** How many steps a probe from `home` takes before it looks at `g`. */
  ghost function Depth(groups: nat, home: nat, g: nat): (d: nat)
    requires IsPow2(groups) && home < groups && g < groups
    ensures d < groups && Path(groups, home, d) == g
  {
    PathOnto(groups, home, g);
    var d :| 0 <= d < groups && Path(groups, home, d) == g;
    d
  }

  /** The probe sequence from any home visits every group exactly once in its first `groups` steps:
      Path and Depth are each other's inverses. */
  lemma DepthOfPath(groups: nat, home: nat, d: nat)
    requires IsPow2(groups) && home < groups && d < groups
    ensures Depth(groups, home, Path(groups, home, d)) == d
  {
    var k :| Pow2(k) == groups;
    var e := Depth(groups, home, Path(groups, home, d));
    if e < d {
      PathInjective(k, groups, home, e, d);
    } else if d < e {
      PathInjective(k, groups, home, d, e);
    }
  }
}
