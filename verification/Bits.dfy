/** Bitwise operations on natural numbers, bit by bit from the lowest. */
module Bits {
  import opened Probing

  function And(a: nat, b: nat): (r: nat)
    ensures r <= a
  {
    if a == 0 || b == 0 then 0 else 2 * And(a / 2, b / 2) + if a % 2 == 1 && b % 2 == 1 then 1 else 0
  }

  function Or(a: nat, b: nat): nat {
    if a == 0 && b == 0 then 0 else 2 * Or(a / 2, b / 2) + if a % 2 == 1 || b % 2 == 1 then 1 else 0
  }

  predicate Bit(x: nat, k: nat) {
    if k == 0 then x % 2 == 1 else Bit(x / 2, k - 1)
  }

  lemma {:induction false} ZeroBits(k: nat)
    ensures !Bit(0, k)
  {
    if k > 0 {
      ZeroBits(k - 1);
    }
  }

  lemma {:induction false} OrBits(a: nat, b: nat, k: nat)
    ensures Bit(Or(a, b), k) <==> Bit(a, k) || Bit(b, k)
  {
    if a == 0 && b == 0 {
      ZeroBits(k);
    } else if k > 0 {
      OrBits(a / 2, b / 2, k - 1);
    }
  }

  lemma {:induction false} OrBelow(a: nat, b: nat, w: nat)
    requires a < Pow2(w) && b < Pow2(w)
    ensures Or(a, b) < Pow2(w)
  {
    if w > 0 {
      OrBelow(a / 2, b / 2, w - 1);
    }
  }

  lemma {:induction false} Pow2Bits(k: nat, j: nat)
    ensures Bit(Pow2(k), j) <==> j == k
  {
    if k == 0 {
      if j > 0 {
        ZeroBits(j - 1);
      }
    } else if j > 0 {
      Pow2Bits(k - 1, j - 1);
    }
  }

  /** Testing a bit with a mask of that bit alone. */
  lemma {:induction false} AndPow2(x: nat, k: nat)
    ensures And(x, Pow2(k)) == if Bit(x, k) then Pow2(k) else 0
  {
    if x == 0 {
      ZeroBits(k);
    } else if k > 0 {
      AndPow2(x / 2, k - 1);
    } else {
      assert And(x / 2, 0) == 0;
    }
  }

  lemma {:induction false} AndSelf(x: nat)
    ensures And(x, x) == x
  {
    if x > 0 {
      AndSelf(x / 2);
    }
  }

  /** n & (n - 1) clears the lowest set bit: nothing is left exactly when n is a power of two. */
  lemma {:induction false} ClearLowest(n: nat)
    requires n > 0
    ensures And(n, n - 1) == 0 <==> IsPow2(n)
  {
    if n == 1 {
      assert Pow2(0) == 1;
    } else if n % 2 == 0 {
      ClearLowest(n / 2);
      HalfPow2(n / 2);
    } else {
      AndSelf(n / 2);
      assert (n - 1) / 2 == n / 2;
      OddNotPow2(n);
    }
  }

  lemma HalfPow2(m: nat)
    ensures IsPow2(2 * m) <==> IsPow2(m)
  {
    if IsPow2(m) {
      var k: nat :| Pow2(k) == m;
      assert Pow2(k + 1) == 2 * m;
    }
    if IsPow2(2 * m) {
      var k: nat :| Pow2(k) == 2 * m;
      assert Pow2(k - 1) == m;
    }
  }

  lemma OddNotPow2(n: nat)
    requires n > 1 && n % 2 == 1
    ensures !IsPow2(n)
  {
    forall k: nat
      ensures Pow2(k) != n
    {
    }
  }

  function Xor(a: nat, b: nat): nat {
    if a == 0 && b == 0 then 0 else 2 * Xor(a / 2, b / 2) + if a % 2 == b % 2 then 0 else 1
  }

  lemma {:induction false} XorZero(a: nat, b: nat)
    ensures Xor(a, b) == 0 <==> a == b
  {
    if a != 0 || b != 0 {
      XorZero(a / 2, b / 2);
    }
  }

  /** Masking with ones below bit k is the remainder. */
  lemma {:induction false} AndMask(x: nat, k: nat)
    ensures And(x, Pow2(k) - 1) == x % Pow2(k)
  {
    if k == 0 {
      AndZero(x);
    } else {
      assert Pow2(k) == 2 * Pow2(k - 1);
      hide Pow2, And;
      AndMask(x / 2, k - 1);
      AndStep(x, Pow2(k) - 1);
      OddHalf(Pow2(k - 1));
      ModHalves(x, Pow2(k - 1));
    }
  }

  /** The next group of a walk is the sum under the mask, the number of groups being a power of two. */
  lemma NextIsMaskedSum(groups: nat, group: nat, delta: nat)
    requires IsPow2(groups) && group < groups && delta < groups
    ensures Next(groups, group, delta) == And(group + delta, groups - 1)
  {
    ModUnique(group + delta, groups, if group + delta < groups then 0 else 1, Next(groups, group, delta));
    hide And, Pow2;
    var k :| groups == Pow2(k);
    AndMask(group + delta, k);
  }

  lemma OddHalf(p: nat)
    requires p > 0
    ensures (2 * p - 1) / 2 == p - 1 && (2 * p - 1) % 2 == 1
  {
  }

  lemma ModHalves(x: nat, p: nat)
    requires p > 0
    ensures x % (2 * p) == 2 * ((x / 2) % p) + x % 2
  {
    var q, r := (x / 2) / p, (x / 2) % p;
    assert x / 2 == q * p + r;
    assert q * (2 * p) == 2 * (q * p);
    ModUnique(x, 2 * p, q, 2 * r + x % 2);
  }

  // Words put together from a high part and w low bits ////////////////////////

  /** The word with `l` in its low w bits and `h` above them. */
  function Join(w: nat, h: nat, l: nat): nat {
    h * Pow2(w) + l
  }

  lemma JoinNone(h: nat)
    ensures Join(0, h, 0) == h
  {
  }

  lemma JoinHalf(w: nat, h: nat, l: nat)
    requires w > 0 && l < Pow2(w)
    ensures Join(w, h, l) / 2 == Join(w - 1, h, l / 2) && Join(w, h, l) % 2 == l % 2
    ensures l / 2 < Pow2(w - 1)
  {
    assert h * Pow2(w) == 2 * (h * Pow2(w - 1));
  }

  lemma JoinTwice(w: nat, h: nat, l: nat, c: nat)
    requires w > 0 && l < Pow2(w - 1) && c < 2
    ensures 2 * Join(w - 1, h, l) + c == Join(w, h, 2 * l + c) && 2 * l + c < Pow2(w)
  {
    assert h * Pow2(w) == 2 * (h * Pow2(w - 1));
  }

  lemma {:induction false} XorJoin(w: nat, ah: nat, al: nat, bh: nat, bl: nat)
    requires al < Pow2(w) && bl < Pow2(w)
    ensures Xor(al, bl) < Pow2(w)
    ensures Xor(Join(w, ah, al), Join(w, bh, bl)) == Join(w, Xor(ah, bh), Xor(al, bl))
  {
    if w == 0 {
      JoinNone(ah);
      JoinNone(bh);
      JoinNone(Xor(ah, bh));
    } else {
      hide Pow2, Xor, Join;
      JoinHalf(w, ah, al);
      JoinHalf(w, bh, bl);
      XorJoin(w - 1, ah, al / 2, bh, bl / 2);
      XorStep(Join(w, ah, al), Join(w, bh, bl));
      XorStep(al, bl);
      JoinTwice(w, Xor(ah, bh), Xor(al / 2, bl / 2), if al % 2 == bl % 2 then 0 else 1);
    }
  }

  lemma {:induction false} OrJoin(w: nat, ah: nat, al: nat, bh: nat, bl: nat)
    requires al < Pow2(w) && bl < Pow2(w)
    ensures Or(al, bl) < Pow2(w)
    ensures Or(Join(w, ah, al), Join(w, bh, bl)) == Join(w, Or(ah, bh), Or(al, bl))
  {
    if w == 0 {
      JoinNone(ah);
      JoinNone(bh);
      JoinNone(Or(ah, bh));
    } else {
      hide Pow2, Or, Join;
      JoinHalf(w, ah, al);
      JoinHalf(w, bh, bl);
      OrJoin(w - 1, ah, al / 2, bh, bl / 2);
      OrStep(Join(w, ah, al), Join(w, bh, bl));
      OrStep(al, bl);
      JoinTwice(w, Or(ah, bh), Or(al / 2, bl / 2), if al % 2 == 1 || bl % 2 == 1 then 1 else 0);
    }
  }

  lemma {:induction false} AndJoin(w: nat, ah: nat, al: nat, bh: nat, bl: nat)
    requires al < Pow2(w) && bl < Pow2(w)
    ensures And(al, bl) < Pow2(w)
    ensures And(Join(w, ah, al), Join(w, bh, bl)) == Join(w, And(ah, bh), And(al, bl))
  {
    if w == 0 {
      JoinNone(ah);
      JoinNone(bh);
      JoinNone(And(ah, bh));
    } else {
      hide Pow2, And, Join;
      JoinHalf(w, ah, al);
      JoinHalf(w, bh, bl);
      AndJoin(w - 1, ah, al / 2, bh, bl / 2);
      AndStep(Join(w, ah, al), Join(w, bh, bl));
      AndStep(al, bl);
      JoinTwice(w, And(ah, bh), And(al / 2, bl / 2), if al % 2 == 1 && bl % 2 == 1 then 1 else 0);
    }
  }

  lemma AndStep(a: nat, b: nat)
    ensures And(a, b) == 2 * And(a / 2, b / 2) + if a % 2 == 1 && b % 2 == 1 then 1 else 0
  {
    AndZero(a / 2);
    AndZero(b / 2);
  }

  lemma AndZero(a: nat)
    ensures And(a, 0) == 0 == And(0, a)
  {
  }

  lemma OrStep(a: nat, b: nat)
    ensures Or(a, b) == 2 * Or(a / 2, b / 2) + if a % 2 == 1 || b % 2 == 1 then 1 else 0
  {
  }

  lemma XorStep(a: nat, b: nat)
    ensures Xor(a, b) == 2 * Xor(a / 2, b / 2) + if a % 2 == b % 2 then 0 else 1
  {
  }

  // The lowest set bit /////////////////////////////////////////////////////////

  /** countr_zero */
  function TrailingZeros(x: nat): (k: nat)
    requires x > 0
  {
    if x % 2 == 1 then 0 else 1 + TrailingZeros(x / 2)
  }

  lemma {:induction false} LowestBit(x: nat, j: nat)
    requires x > 0
    ensures Bit(x, TrailingZeros(x))
    ensures j < TrailingZeros(x) ==> !Bit(x, j)
  {
    if x % 2 == 0 {
      LowestBit(x / 2, if j > 0 then j - 1 else 0);
    }
  }

  /** x & (x - 1) has all the bits of x but the lowest. */
  lemma {:induction false} WithoutLowest(x: nat, j: nat)
    requires x > 0
    ensures Bit(And(x, x - 1), j) <==> Bit(x, j) && j != TrailingZeros(x)
  {
    if j == 0 {
      AndStep(x, x - 1);
    } else if x % 2 == 0 {
      WithoutLowest(x / 2, j - 1);
      AndStep(x, x - 1);
      assert (x - 1) / 2 == x / 2 - 1;
    } else {
      AndSelf(x / 2);
      AndStep(x, x - 1);
      assert (x - 1) / 2 == x / 2;
    }
  }

}
