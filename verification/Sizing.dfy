/** Hash decomposition and the arithmetic of array sizes, shifts and capacities. */
module Sizing {
  import opened Probing
  import opened Groups

  type Word = x: nat | x < 0x1_0000_0000_0000_0000

  const INITIAL_SHIFTS: nat := 62

  lemma TwoTo16()
    ensures Pow2(16) == 0x1_0000
  {
    assert Pow2(4) == 16;
    Pow2Sum(4, 4);
    Pow2Sum(8, 8);
  }

  lemma TwoTo64()
    ensures Pow2(64) == 0x1_0000_0000_0000_0000
  {
    hide Pow2;
    TwoTo16();
    Pow2Sum(16, 16);
    Pow2Sum(32, 32);
  }

  function ShiftRight(x: nat, n: nat): nat {
    if n == 0 then x else ShiftRight(x / 2, n - 1)
  }

  lemma {:induction false} ShiftRightBound(x: nat, n: nat, k: nat)
    requires x < Pow2(n + k)
    ensures ShiftRight(x, n) < Pow2(k)
  {
    if n > 0 {
      ShiftRightBound(x / 2, n - 1, k);
    }
  }

  lemma TwiceProduct(p: nat, q: nat)
    ensures 2 * p * q == 2 * (p * q)
  {
  }

  /** Shifting right by n is dividing by 2^n: the value is quotient times 2^n plus a remainder below it. */
  lemma {:induction false} ShiftRightDivides(x: nat, n: nat) returns (rest: nat)
    ensures rest < Pow2(n) && x == Pow2(n) * ShiftRight(x, n) + rest
  {
    if n == 0 {
      rest := 0;
    } else {
      var low := ShiftRightDivides(x / 2, n - 1);
      rest := 2 * low + x % 2;
      var p, q := Pow2(n - 1), ShiftRight(x / 2, n - 1);
      assert Pow2(n) == 2 * p && ShiftRight(x, n) == q;
      hide *;
      TwiceProduct(p, q);
    }
  }

  lemma ShiftIsDivide(x: nat, k: nat)
    ensures ShiftRight(x, k) == x / Pow2(k)
  {
    var rest := ShiftRightDivides(x, k);
    ModUnique(x, Pow2(k), ShiftRight(x, k), rest);
  }

  lemma MulMonotone(p: nat, a: nat, b: nat)
    requires a <= b
    ensures p * a <= p * b
  {
  }

  /** The home group of a hash, in an array of 2^(64 - shifts) groups: its top bits. */
  function Home(hash: Word, shifts: nat): (home: nat)
    requires shifts <= 64
    ensures home < Pow2(64 - shifts)
  {
    TwoTo64();
    ShiftRightBound(hash, shifts, 64 - shifts);
    ShiftRight(hash, shifts)
  }

  /** The low byte of the hash, with 0, which marks an empty lane, moved to 8: the counter class, the low
      three bits, stays that of the byte. */
  function Fingerprint(hash: Word): (fp: Byte)
    ensures fp != 0 && Class(fp) == hash % 8
    ensures fp == hash % 256 || (hash % 256 == 0 && fp == 8)
  {
    if hash % 256 == 0 then 8 else hash % 256
  }

  /** The home group is the hash divided by 2^shifts: its top bits. */
  lemma HomeIs(hash: Word, shifts: nat)
    requires shifts <= 64
    ensures Home(hash, shifts) == hash / Pow2(shifts)
  {
    ShiftIsDivide(hash, shifts);
  }

  // Load factor and capacity //////////////////////////////////////////////////

  /** A maximum load factor, num / den. */
  datatype Load = Load(num: nat, den: nat)

  predicate ValidLoad(load: Load) {
    load.den > 0 && load.num <= load.den
  }

  /** The width of the value index leaves 2^bits slots at most. */
  predicate ValidBits(bits: nat) {
    6 <= bits <= 63
  }

  function Min(a: nat, b: nat): nat {
    if a <= b then a else b
  }

  function NumGroups(shifts: nat, bits: nat): (n: nat)
    requires shifts <= 64 && ValidBits(bits)
    ensures n > 0
  {
    Min(Pow2(bits - 4), Pow2(64 - shifts))
  }

  /** floor(slots * num / den). The source multiplies in floating point, which is exact for a number of slots
      that is a power of two. */
  function Scaled(slots: nat, load: Load): (c: nat)
    requires ValidLoad(load)
    ensures c <= slots
  {
    MulMonotone(slots, load.num, load.den);
    QuotientAtMost(slots * load.num, load.den, slots);
    slots * load.num / load.den
  }

  lemma QuotientAtMost(x: nat, p: nat, q: nat)
    requires p > 0 && x <= q * p
    ensures x / p <= q
  {
    if x / p >= q + 1 {
      MulMonotone(p, q + 1, x / p);
    }
  }

  /** The quotient of a division is the largest number that many times fits. */
  lemma QuotientIs(x: nat, p: nat)
    requires p > 0
    ensures (x / p) * p <= x < (x / p + 1) * p
  {
  }

  function Capacity(load: Load, bits: nat, slots: nat): (c: nat)
    requires ValidLoad(load)
    ensures c <= slots
  {
    if slots == Pow2(bits) then slots else Scaled(slots, load)
  }

  /** The capacity is the most values that are not past the load factor, or every slot of the largest array. */
  lemma CapacityIs(load: Load, bits: nat, slots: nat)
    requires ValidLoad(load)
    ensures var c := Capacity(load, bits, slots);
            if slots == Pow2(bits) then c == slots
            else c * load.den <= slots * load.num < (c + 1) * load.den
  {
    QuotientIs(slots * load.num, load.den);
  }

  /** The shift for an array that holds `size` values: the fewest groups, from four up, whose load is not
      exceeded, or the most groups there can be. */
  function ShiftsFrom(load: Load, bits: nat, size: nat, shifts: nat): (r: nat)
    requires ValidLoad(load) && ValidBits(bits) && shifts <= INITIAL_SHIFTS
    ensures r <= shifts
    decreases shifts
  {
    var slots := LANES * NumGroups(shifts, bits);
    if shifts > 0 && slots < Pow2(bits) && Scaled(slots, load) < size
    then ShiftsFrom(load, bits, size, shifts - 1)
    else shifts
  }

  function ShiftsFor(load: Load, bits: nat, size: nat): nat
    requires ValidLoad(load) && ValidBits(bits)
  {
    ShiftsFrom(load, bits, size, INITIAL_SHIFTS)
  }

  /** A shift describes an array of at most 2^bits slots. */
  predicate ValidShifts(shifts: nat, bits: nat) {
    ValidBits(bits) && shifts <= INITIAL_SHIFTS && 68 <= bits + shifts
  }

  lemma SlotsOf(shifts: nat, bits: nat)
    requires ValidShifts(shifts, bits)
    ensures NumGroups(shifts, bits) == Pow2(64 - shifts)
    ensures LANES * Pow2(64 - shifts) == Pow2(68 - shifts)
    ensures LANES * Pow2(64 - shifts) <= Pow2(bits)
    ensures LANES * Pow2(64 - shifts) == Pow2(bits) <==> 68 == bits + shifts
  {
    assert Pow2(4) == LANES;
    Pow2Sum(4, 64 - shifts);
    if 68 - shifts < bits {
      Pow2Monotone(68 - shifts, bits);
    }
    if 64 - shifts < bits - 4 {
      Pow2Monotone(64 - shifts, bits - 4);
    }
  }

  /** The array of this shift would not hold `size` values within the load. */
  predicate TooSmall(load: Load, bits: nat, size: nat, shifts: nat)
    requires ValidLoad(load) && shifts <= 64
  {
    Capacity(load, bits, LANES * Pow2(64 - shifts)) < size
  }

  /** The computed shift is one the array can have (in particular it never runs down to zero, whose group
      count a 64-bit shift could not even express), the array has a slot for every value, and every array passed over
      on the way was too small. */
  lemma {:induction false} ShiftsFromIs(load: Load, bits: nat, size: nat, shifts: nat)
    requires ValidLoad(load) && ValidShifts(shifts, bits) && size <= Pow2(bits)
    ensures var r := ShiftsFrom(load, bits, size, shifts);
            && ValidShifts(r, bits)
            && size <= Capacity(load, bits, LANES * Pow2(64 - r))
            && forall k: nat :: r < k <= shifts ==> TooSmall(load, bits, size, k)
    decreases shifts
  {
    SlotsOf(shifts, bits);
    hide Pow2, Scaled;
    var slots := LANES * NumGroups(shifts, bits);
    if shifts > 0 && slots < Pow2(bits) && Scaled(slots, load) < size {
      assert TooSmall(load, bits, size, shifts);
      ShiftsFromIs(load, bits, size, shifts - 1);
    }
  }

  lemma ShiftsForFits(load: Load, bits: nat, size: nat)
    requires ValidLoad(load) && ValidBits(bits) && size <= Pow2(bits)
    ensures var r := ShiftsFor(load, bits, size);
            && ValidShifts(r, bits)
            && size <= Capacity(load, bits, LANES * Pow2(64 - r)) <= LANES * Pow2(64 - r)
            && forall k: nat :: r < k <= INITIAL_SHIFTS ==> TooSmall(load, bits, size, k)
  {
    ShiftsFromIs(load, bits, size, INITIAL_SHIFTS);
  }
}
