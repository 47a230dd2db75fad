/** How large an array every operation asks for, and when it gets it: in terms of capacities alone. */
module Sizes {
  import opened Probing
  import opened Groups
  import opened Reference
  import opened Sizing
  import opened TableState
  import opened Building
  import opened Operations
  import opened Safety
  import opened Soundness
  import opened Rebuilding
  import opened Replacing

  /** The capacity of the array of this shift. */
  function Room(load: Load, bits: nat, shifts: nat): nat
    requires ValidLoad(load) && shifts <= 64
  {
    Capacity(load, bits, LANES * Pow2(64 - shifts))
  }

  /** The array of this shift holds a and b values within the load. */
  predicate Holds(load: Load, bits: nat, shifts: nat, a: nat, b: nat)
    requires ValidLoad(load) && shifts <= 64
  {
    a <= Room(load, bits, shifts) && b <= Room(load, bits, shifts)
  }

  /** No smaller array, from four groups up, holds both. */
  ghost predicate Smallest(load: Load, bits: nat, shifts: nat, a: nat, b: nat)
    requires ValidLoad(load)
  {
    forall k: nat :: shifts < k <= INITIAL_SHIFTS ==> TooSmall(load, bits, a, k) || TooSmall(load, bits, b, k)
  }

  /** The most values a call for `count` can ask for. */
  function Asked(bits: nat, count: nat): nat {
    Min(count, Pow2(bits))
  }

  /** The shift wanted is the one of the smallest array that holds the values there are and those asked for. */
  lemma WantedIs<K, V>(s: State<K, V>, count: nat)
    requires Safe(s)
    ensures ValidLoad(s.load) && ValidBits(s.bits) && ValidShifts(WantedShifts(s, count), s.bits)
    ensures Holds(s.load, s.bits, WantedShifts(s, count), Asked(s.bits, count), |s.values|)
    ensures Smallest(s.load, s.bits, WantedShifts(s, count), Asked(s.bits, count), |s.values|)
  {
    hide Safe, ShiftsFor, Pow2, Capacity;
    SizeFits(s);
    SafeShape(s);
    ShiftsForFits(s.load, s.bits, Wanted(s.bits, count, |s.values|));
  }

  /** There is one smallest array that holds both. */
  lemma SmallestUnique(load: Load, bits: nat, a: nat, b: nat, p: nat, q: nat)
    requires ValidLoad(load) && p <= INITIAL_SHIFTS && q <= INITIAL_SHIFTS
    requires Holds(load, bits, p, a, b) && Smallest(load, bits, p, a, b) && Holds(load, bits, q, a, b)
    ensures q <= p
    ensures Smallest(load, bits, q, a, b) <==> q == p
  {
    hide Pow2, Capacity;
    assert !TooSmall(load, bits, a, q) && !TooSmall(load, bits, b, q);
    assert !TooSmall(load, bits, a, p) && !TooSmall(load, bits, b, p);
  }

  lemma OwnRoom<K, V>(s: State<K, V>)
    requires Safe(s)
    ensures ValidLoad(s.load) && ValidBits(s.bits) && s.shifts <= INITIAL_SHIFTS
    ensures s.hasArray ==> s.capacity == Room(s.load, s.bits, s.shifts)
    ensures !s.hasArray ==> s.values == [] && s.shifts == INITIAL_SHIFTS && s.capacity == 0
  {
    hide Capacity, Pow2;
    if !s.hasArray {
      NoneWithoutArray(s);
    }
  }

  // rehash /////////////////////////////////////////////////////////////////////

  /** rehash(count) leaves the smallest array that holds the values there are and `count`, if it leaves one. */
  lemma RehashSize<K, V>(s: State<K, V>, count: nat, budget: nat)
    requires Safe(s) && Rehash(s, count, budget).Placed?
    ensures var r := Rehash(s, count, budget).state;
            && ValidLoad(s.load) && r.load == s.load && r.bits == s.bits && r.shifts <= INITIAL_SHIFTS
            && r.values == s.values
            && Holds(s.load, s.bits, r.shifts, Asked(s.bits, count), |s.values|)
            && Smallest(s.load, s.bits, r.shifts, Asked(s.bits, count), |s.values|)
            && (r.hasArray ==> r.capacity == Room(s.load, s.bits, r.shifts))
            && (!r.hasArray ==> r == s)
  {
    hide Safe, WantedShifts, Holds, Smallest, Capacity, Pow2, Build, Cleared;
    WantedIs(s, count);
    RehashSafe(s, count, budget);
    OwnRoom(Rehash(s, count, budget).state);
  }

  /** It fails only when a new array is needed, its own not being that one, and there is no memory for it. */
  lemma RehashPlaced<K, V>(s: State<K, V>, count: nat, budget: nat)
    requires Safe(s)
    ensures ValidLoad(s.load) && s.shifts <= INITIAL_SHIFTS
    ensures var r, own := Rehash(s, count, budget),
                          Holds(s.load, s.bits, s.shifts, Asked(s.bits, count), |s.values|)
                          && Smallest(s.load, s.bits, s.shifts, Asked(s.bits, count), |s.values|);
            && (r.Placed? <==> own || budget > 0)
            && (!r.Placed? ==> r == NoMemory(s))
            && (r.Placed? ==> r.budget == if own then budget else budget - 1)
            && (r.Placed? && own ==> r.state.shifts == s.shifts)
  {
    hide Safe, WantedShifts, Holds, Smallest, Capacity, Pow2, Build, Cleared, Asked;
    WantedIs(s, count);
    OwnRoom(s);
    var a := Asked(s.bits, count);
    if Holds(s.load, s.bits, s.shifts, a, |s.values|) {
      SmallestUnique(s.load, s.bits, a, |s.values|, WantedShifts(s, count), s.shifts);
    }
  }

  // reserve ////////////////////////////////////////////////////////////////////

  /** Whether the array there is holds the values there are and those asked for. */
  ghost predicate Ample<K, V>(s: State<K, V>, a: nat, b: nat) {
    s.hasArray && a <= s.capacity && b <= s.capacity
  }

  lemma AmpleIs<K, V>(s: State<K, V>, count: nat)
    requires Safe(s)
    ensures ValidLoad(s.load) && ValidBits(s.bits)
    ensures Ample(s, Asked(s.bits, count), |s.values|) <==> s.hasArray && s.shifts <= WantedShifts(s, count)
  {
    hide Safe, WantedShifts, Smallest, Capacity, Pow2, Asked;
    WantedIs(s, count);
    OwnRoom(s);
    var a := Asked(s.bits, count);
    if Ample(s, a, |s.values|) {
      SmallestUnique(s.load, s.bits, a, |s.values|, WantedShifts(s, count), s.shifts);
    } else if s.hasArray && s.shifts <= WantedShifts(s, count) {
      SafeShape(s);
      CapacityMonotone(s.load, s.bits, WantedShifts(s, count), s.shifts);
    }
  }

  /** reserve(count) succeeds with memory for one array, or when the one there is holds the values there are and `count`
      already, which it then leaves as it is; otherwise it leaves the smallest array that does. */
  lemma ReservePlaced<K, V>(s: State<K, V>, count: nat, budget: nat)
    requires Safe(s)
    ensures var r, a := Reserve(s, count, budget), Asked(s.bits, count);
            && (r.Placed? <==> budget > 0 || Ample(s, a, |s.values|))
            && (!r.Placed? ==> r == NoMemory(s))
            && (Ample(s, a, |s.values|) ==> r.state == s && r.budget == budget)
            && (r.Placed? && !Ample(s, a, |s.values|) ==>
                  && r.budget == budget - 1
                  && ValidLoad(s.load) && r.state.load == s.load && r.state.bits == s.bits
                  && r.state.values == s.values
                  && r.state.hasArray && a <= r.state.capacity && |s.values| <= r.state.capacity
                  && Smallest(s.load, s.bits, r.state.shifts, a, |s.values|))
  {
    hide Safe, WantedShifts, Smallest, Capacity, Pow2, Build, Asked, Ample;
    AmpleIs(s, count);
    WantedIs(s, count);
    OwnRoom(s);
    ReserveSafe(s, count, budget);
    OwnRoom(Reserve(s, count, budget).state);
  }

  // replace ////////////////////////////////////////////////////////////////////

  lemma SizeForIs(load: Load, bits: nat, size: nat)
    requires ValidLoad(load) && ValidBits(bits) && size <= Pow2(bits)
    ensures var r := ShiftsFor(load, bits, size);
            ValidShifts(r, bits) && Holds(load, bits, r, size, 0) && Smallest(load, bits, r, size, 0)
  {
    hide ShiftsFor, Pow2, Capacity;
    ShiftsForFits(load, bits, size);
  }

  lemma AmpleForIs<K, V>(s: State<K, V>, size: nat)
    requires Safe(s) && size <= Pow2(s.bits)
    ensures ValidLoad(s.load) && ValidBits(s.bits)
    ensures Ample(s, size, 0) <==> !NeedsArray(s, size)
  {
    hide Safe, ShiftsFor, Smallest, Capacity, Pow2;
    OwnRoom(s);
    SizeForIs(s.load, s.bits, size);
    if Ample(s, size, 0) {
      SmallestUnique(s.load, s.bits, size, 0, ShiftsFor(s.load, s.bits, size), s.shifts);
    } else if s.hasArray && s.shifts <= ShiftsFor(s.load, s.bits, size) {
      SafeShape(s);
      CapacityMonotone(s.load, s.bits, ShiftsFor(s.load, s.bits, size), s.shifts);
    }
  }

  /** replace(container) fails for a container larger than any table and, when the array there is does not hold it, for
      want of memory; it leaves that array, or the smallest that holds the container, repetitions included. */
  lemma ReplacePlaced<K, V>(s: State<K, V>, container: seq<Entry<K, V>>, budget: nat)
    requires Safe(s)
    ensures var r, n := ReplaceWith(s, container, budget), |container|;
            && (r.Placed? <==> n <= Pow2(s.bits) && (budget > 0 || Ample(s, n, 0)))
            && (r.Overflow? <==> n > Pow2(s.bits))
            && (!r.Placed? ==> r.state == s)
            && (r.Placed? ==>
                  && r.state.hasArray && n <= r.state.capacity
                  && ValidLoad(s.load) && r.state.load == s.load && r.state.bits == s.bits
                  && if Ample(s, n, 0) then r.budget == budget && r.state.shifts == s.shifts
                     else r.budget == budget - 1 && Smallest(s.load, s.bits, r.state.shifts, n, 0))
  {
    hide Safe, ShiftsFor, Smallest, Capacity, Pow2, Ample, NeedsArray, Replaced;
    ReplaceWithSound(s, container, budget);
    OwnRoom(s);
    if |container| <= Pow2(s.bits) {
      AmpleForIs(s, |container|);
      ReplacedIs(s, container);
    }
  }

  lemma ReplacedIs<K, V>(s: State<K, V>, container: seq<Entry<K, V>>)
    requires Safe(s) && |container| <= Pow2(s.bits)
    ensures var r, n := Replaced(s, container), |container|;
            && ValidLoad(s.load) && ValidBits(s.bits)
            && r.hasArray && n <= r.capacity && r.load == s.load && r.bits == s.bits
            && if NeedsArray(s, n) then Smallest(s.load, s.bits, r.shifts, n, 0) else r.shifts == s.shifts
  {
    hide Safe, ShiftsFor, Smallest, Capacity, Pow2, Build, Cleared, Dedup, Base, Ample;
    OwnRoom(s);
    SafeShape(s);
    SizeForIs(s.load, s.bits, |container|);
    AmpleForIs(s, |container|);
    AmpleParts(s, |container|);
    var base, shifts := EmptiedFor(s, |container|).0, EmptiedFor(s, |container|).1;
    assert |base| == Pow2(64 - shifts);
  }

  lemma AmpleParts<K, V>(s: State<K, V>, n: nat)
    ensures Ample(s, n, 0) <==> s.hasArray && n <= s.capacity
  {
  }

  // insert /////////////////////////////////////////////////////////////////////

  /** How many values the table can hold before it has to grow: those of its array, or of its first one. */
  ghost function Limit<K, V>(s: State<K, V>): nat
    requires Safe(s)
  {
    Capacity(s.load, s.bits, LANES * |s.groups|)
  }

  lemma LimitIs<K, V>(s: State<K, V>)
    requires Safe(s)
    ensures WithArray(s).capacity == Limit(s) && WithArray(s).hasArray && WithArray(s).shifts == s.shifts
    ensures s.hasArray ==> Limit(s) == s.capacity
  {
    hide Capacity;
  }

  /** The allocations an insert of an absent key has left for a growth. */
  function AfterFirst(hasArray: bool, budget: nat): nat {
    if hasArray || budget == 0 then budget else budget - 1
  }

  /** An insert of an absent key grows: the limit is reached, and there are a larger array and memory for it. */
  ghost predicate Grows<K, V>(s: State<K, V>, budget: nat)
    requires Safe(s)
  {
    |s.values| >= Limit(s) && Limit(s) != Pow2(s.bits) && AfterFirst(s.hasArray, budget) > 0
  }

  lemma AppendEnds<K, V>(s: State<K, V>, e: Entry<K, V>, budget: nat)
    requires Safe(s) && s.hasArray
    ensures Limit(s) == s.capacity
    ensures var r := Append(s, e, budget);
            if |s.values| < s.capacity then r.Placed? && r.state.shifts == s.shifts && r.budget == budget
            else if s.capacity == Pow2(s.bits) then r.Overflow? && r.budget == budget
            else if budget == 0 then r.NoMemory?
            else r.Placed? && s.shifts > 0 && r.state.shifts == s.shifts - 1 && r.budget == budget - 1
  {
    hide Safe, Place, Capacity, Build, Pow2;
    LimitIs(s);
    if |s.values| >= s.capacity {
      AppendOver(s, e, budget);
    }
  }

  /** How an insert ends, in every case, by what a caller can check before. A present key needs nothing. An absent one
      needs an array, a value container that can append, and room: below the limit, or in an array twice as large. */
  lemma InsertEnds<K, V>(s: State<K, V>, e: Entry<K, V>, budget: nat, appends: bool)
    requires Sound(s)
    ensures Safe(s)
    ensures var r, left := Emplace(s, e, budget, appends), AfterFirst(s.hasArray, budget);
            if Present(s.values, e.key) then
              r.Placed? && !r.inserted && r.state.shifts == s.shifts && r.budget == budget
            else if !s.hasArray && budget == 0 then r == NoMemory(s)
            else if !appends then r.AppendFailed? && r.budget == left
            else if |s.values| < Limit(s) then
              r.Placed? && r.inserted && r.state.shifts == s.shifts && r.budget == left
            else if Limit(s) == Pow2(s.bits) then r.Overflow? && r.budget == left
            else if left == 0 then r.NoMemory?
            else r.Placed? && r.inserted && s.shifts > 0 && r.state.shifts == s.shifts - 1 && r.budget == left - 1
  {
    hide Safe, Sound, Append, Probe, Find, MoveHome, Limit, Present, WithArray, InsertsLike;
    SoundParts(s);
    SafeShape(s);
    WithArraySound(s);
    WithArrayIs(s);
    LimitIs(s);
    var t := WithArray(s);
    SoundParts(t);
    SafeShape(t);
    FindIsScan(t, e.key);
    AppendEnds(t, e, AfterFirst(s.hasArray, budget));
    LimitIs(t);
    FoundHasArray(s, e.key);
    AppendInserts(t, e, AfterFirst(s.hasArray, budget));
  }

  lemma FoundHasArray<K, V>(s: State<K, V>, k: K)
    requires Safe(s)
    ensures Present(s.values, k) ==> s.hasArray
  {
    hide Safe;
    if !s.hasArray {
      NoneWithoutArray(s);
    }
  }

  lemma AppendInserts<K, V>(s: State<K, V>, e: Entry<K, V>, budget: nat)
    requires Safe(s) && s.hasArray
    ensures Append(s, e, budget).Placed? ==> Append(s, e, budget).inserted
  {
    hide Safe, Place, Rebuilt, Pow2;
  }
}
