/** The maximum load factor: what it means for the capacity, and when a table stays within it. */
module LoadFactors {
  import opened Probing
  import opened Groups
  import opened Reference
  import opened Sizing
  import opened TableState
  import opened Building
  import opened Operations
  import opened Safety
  import opened Soundness
  import opened Rebuilding
  import opened Replacing
  import opened Merging
  import opened Runs
  import opened Sizes

  ghost function Slots<K, V>(s: State<K, V>): nat {
    LANES * |s.groups|
  }

  /** No more values than the maximum load factor allows, size / slots <= num / den. */
  ghost predicate Within<K, V>(s: State<K, V>) {
    |s.values| * s.load.den <= Slots(s) * s.load.num
  }

  /** The array is the largest there can be, every slot of which may be used. */
  ghost predicate Largest<K, V>(s: State<K, V>) {
    Slots(s) == Pow2(s.bits)
  }

  lemma FitsIff(n: nat, c: nat, den: nat, x: nat)
    requires c * den <= x < (c + 1) * den
    ensures n <= c <==> n * den <= x
  {
    if n <= c {
      MulMonotone(den, n, c);
    } else {
      MulMonotone(den, c + 1, n);
    }
  }

  /** Below the largest array, the values are within the load factor exactly while they are within the capacity. */
  lemma WithinIs<K, V>(s: State<K, V>)
    requires Safe(s) && !Largest(s)
    ensures |s.values| <= Limit(s) <==> Within(s)
    ensures s.hasArray ==> Limit(s) == s.capacity
  {
    hide Safe, Capacity, Pow2, Limit;
    LimitIs(s);
    LimitFor(s);
    FitsIff(|s.values|, Limit(s), s.load.den, Slots(s) * s.load.num);
  }

  lemma LimitFor<K, V>(s: State<K, V>)
    requires Safe(s)
    ensures Largest(s) ==> Limit(s) == Slots(s)
    ensures !Largest(s) ==> Limit(s) * s.load.den <= Slots(s) * s.load.num < (Limit(s) + 1) * s.load.den
  {
    hide Capacity, Pow2;
    CapacityIs(s.load, s.bits, Slots(s));
  }

  // One insert /////////////////////////////////////////////////////////////////

  /** An array twice as large has twice the slots. */
  lemma Doubled(shifts: nat)
    requires 0 < shifts <= 64
    ensures Pow2(64 - (shifts - 1)) == 2 * Pow2(64 - shifts)
  {
  }

  lemma SlotsFor<K, V>(s: State<K, V>)
    requires Safe(s)
    ensures s.shifts <= 62 && Slots(s) == LANES * Pow2(64 - s.shifts) && ValidLoad(s.load)
  {
    hide Pow2;
    SafeShape(s);
  }

  /** After an insert that added a value, below the largest array, the table is within its load factor if and only if
      twice the slots it had before are enough for one value more: an insert grows once. */
  lemma InsertWithin<K, V>(s: State<K, V>, e: Entry<K, V>, budget: nat)
    requires Sound(s)
    ensures Safe(s)
    ensures var r := Emplace(s, e, budget, true);
            r.Placed? && r.inserted && !Largest(r.state) ==>
              (Within(r.state) <==> (|s.values| + 1) * s.load.den <= 2 * Slots(s) * s.load.num)
  {
    hide Safe, Sound, Emplace, Limit, Pow2, Within, Largest, Present, Insert;
    SoundParts(s);
    var r := Emplace(s, e, budget, true);
    InsertEnds(s, e, budget, true);
    EmplaceSound(s, e, budget, true);
    if r.Placed? && r.inserted && !Largest(r.state) {
      SoundParts(r.state);
      InsertKeeps(s, e, budget, true);
      SlotsFor(s);
      SlotsFor(r.state);
      WithinSum(s, r.state);
      if r.state.shifts == s.shifts {
        LimitFor(s);
        assert |s.values| < Limit(s);
        SameLargest(s, r.state);
        FitsIff(|s.values| + 1, Limit(s), s.load.den, Slots(s) * s.load.num);
        Twice(Slots(s) * s.load.num, Slots(s), s.load.num);
      } else {
        Doubled(s.shifts);
      }
    }
  }

  lemma Twice(x: nat, a: nat, b: nat)
    requires x == a * b
    ensures 2 * a * b == 2 * x && x <= 2 * x
  {
  }

  lemma SameLargest<K, V>(s: State<K, V>, r: State<K, V>)
    requires Slots(r) == Slots(s) && r.bits == s.bits
    ensures Largest(r) <==> Largest(s)
  {
  }

  lemma WithinSum<K, V>(s: State<K, V>, r: State<K, V>)
    requires |r.values| == |s.values| + 1 && r.load == s.load
    ensures Within(r) <==> (|s.values| + 1) * s.load.den <= Slots(r) * s.load.num
  {
  }

  lemma InsertKeeps<K, V>(s: State<K, V>, e: Entry<K, V>, budget: nat, appends: bool)
    requires Safe(s)
    ensures var r := Emplace(s, e, budget, appends);
            && r.state.hash == s.hash && r.state.bits == s.bits && r.state.load == s.load
            && (s.hasArray ==> r.state.hasArray) && r.state.shifts <= s.shifts <= r.state.shifts + 1
            && (r.Placed? && r.inserted ==> |r.state.values| == |s.values| + 1)
            && (!(r.Placed? && r.inserted) ==> |r.state.values| == |s.values|)
  {
    hide Safe, Probe, MoveHome, Place, Pow2, Capacity;
  }

  // What every operation keeps /////////////////////////////////////////////////

  /** Hash, index width and, unless it is what the operation is for, load factor; an array once there is one. */
  ghost predicate Keeps<K, V>(s: State<K, V>, r: State<K, V>) {
    r.hash == s.hash && r.bits == s.bits && r.load == s.load && (s.hasArray ==> r.hasArray)
  }

  /** The array, or that there is none; and no value more. */
  ghost predicate KeepsArray<K, V>(s: State<K, V>, r: State<K, V>) {
    Keeps(s, r) && r.shifts == s.shifts && r.hasArray == s.hasArray && |r.values| <= |s.values|
  }

  lemma EraseSlotKeeps<K, V>(s: State<K, V>, slot: Slot, tag: Tag)
    requires Safe(s) && Has(|s.groups|, slot) && Full(s.groups, slot) && tag.home < |s.groups|
    ensures EraseSlot(s, slot, tag).Done? ==> KeepsArray(s, EraseSlot(s, slot, tag).state)
  {
    hide Safe, Free, Repoint, SlotOfValue, Pow2;
    PointeeInRange(s, slot);
    SafeShape(s);
  }

  lemma EraseKeeps<K, V>(s: State<K, V>, k: K, i: nat)
    requires Safe(s)
    ensures EraseKey(s, k).Done? ==> KeepsArray(s, EraseKey(s, k).state)
    ensures i < |s.values| && EraseAt(s, i).Done? ==> KeepsArray(s, EraseAt(s, i).state)
    ensures i < |s.values| && ReplaceKeyAt(s, i, k).Done? ==> KeepsArray(s, ReplaceKeyAt(s, i, k).state)
  {
    hide Safe, EraseSlot, SlotOfValue, Free, Place, HasRoom, TagOf, Pow2, KeepsArray;
    SafeShape(s);
    KeepsSelf(s);
    if Probe(s, k).Some? {
      EraseSlotKeeps(s, Probe(s, k).value, TagOf(s, k));
    }
    if i < |s.values| {
      var tag := TagOf(s, s.values[i].key);
      var found := SlotOfValue(s.groups, tag, i, 0);
      if found.Some? && Full(s.groups, found.value) {
        EraseSlotKeeps(s, found.value, tag);
      }
      RekeyKeeps(s, i, k);
    }
  }

  lemma KeepsSelf<K, V>(s: State<K, V>)
    ensures KeepsArray(s, s)
  {
  }

  lemma RekeyKeeps<K, V>(s: State<K, V>, i: nat, k: K)
    requires Safe(s) && i < |s.values|
    ensures ReplaceKeyAt(s, i, k).Done? ==> KeepsArray(s, ReplaceKeyAt(s, i, k).state)
  {
    hide Safe, Probe, SlotOfValue, Free, Place, HasRoom, TagOf, Pow2;
  }

  lemma SourceKeeps<K, V>(s: State<K, V>, kept: seq<Entry<K, V>>)
    requires Safe(s) && |kept| <= |s.values|
    ensures KeepsArray(s, SourceAfter(s, kept))
  {
    hide Safe, Build, Pow2, Cleared;
    if |kept| != |s.values| {
      SourceRefilled(s, kept);
    }
  }

  lemma SizedKeeps<K, V>(s: State<K, V>, count: nat, budget: nat)
    requires Safe(s)
    ensures Keeps(s, Rehash(s, count, budget).state)
    ensures Keeps(s, Reserve(s, count, budget).state)
    ensures Reserve(s, count, budget).state.shifts <= s.shifts
  {
    hide Safe, WantedShifts, Build, Pow2, Cleared, Capacity;
    SafeShape(s);
    OwnRoom(s);
    WantedIs(s, count);
  }

  lemma ReplaceKeeps<K, V>(s: State<K, V>, container: seq<Entry<K, V>>, budget: nat)
    requires Safe(s)
    ensures var r := ReplaceWith(s, container, budget).state;
            Keeps(s, r) && r.shifts <= s.shifts
            && (r == s || |r.values| <= |container|)
  {
    hide Safe, ShiftsFor, Build, Pow2, Cleared, Capacity, Base;
    OwnRoom(s);
    if |container| <= Pow2(s.bits) {
      SizeForIs(s.load, s.bits, |container|);
    }
  }

  /** What an operation does to everything but values and index: hash and width stay, the load factor changes where that
      is what is asked for, an array is never given up and made smaller by a rehash only; an erase, a re-keying, a
      clear, a new load factor and being merged away leave it the size it is, and an insert doubles it at most. */
  lemma StepKeeps<K, V>(s: State<K, V>, op: Op<K, V>)
    requires Safe(s) && Step(s, op).Done?
    ensures var r := Step(s, op).state;
            && r.hash == s.hash && r.bits == s.bits && (s.hasArray ==> r.hasArray)
            && (!op.LimitLoad? ==> r.load == s.load)
            && (!op.RehashFor? ==> r.shifts <= s.shifts)
            && (op.InsertEntry? ==> s.shifts <= r.shifts + 1)
            && (!op.InsertEntry? && !op.RehashFor? && !op.ReserveFor? && !op.ReplaceAll? ==>
                  r.shifts == s.shifts && r.hasArray == s.hasArray && |r.values| <= |s.values|)
  {
    hide Safe, Sound, Emplace, EraseKey, EraseAt, ReplaceKeyAt, Rehash, Reserve, ReplaceWith, MergeFrom, SourceAfter,
         Cleared;
    match op
    case InsertEntry(e, budget, appends) => InsertKeeps(s, e, budget, appends);
    case EraseByKey(k) => EraseKeeps(s, k, |s.values|);
    case EraseByIndex(i) => if i < |s.values| { EraseKeeps(s, s.values[i].key, i); }
    case Rekey(i, k) => if i < |s.values| { EraseKeeps(s, k, i); }
    case RehashFor(count, budget) => SizedKeeps(s, count, budget);
    case ReserveFor(count, budget) => SizedKeeps(s, count, budget);
    case ClearAll =>
    case TakeAll =>
    case LimitLoad(num, den) =>
    case ReplaceAll(container, budget) => ReplaceKeeps(s, container, budget);
    case GiveTo(dest, budget, x) =>
      if Safe(dest) { SourceKeeps(s, MergeFrom(dest, s.values, 0, budget, x).kept); }
  }

  /** max_load_factor(ml) sets the load factor to ml, or to 1 where ml is above it, and the capacity with it; values and
      index stay, even past the new limit. */
  lemma SetLoadIs<K, V>(s: State<K, V>, ml: Load)
    requires Safe(s) && ml.den > 0
    ensures var r := SetLoad(s, ml);
            && Safe(r) && r.values == s.values && r.groups == s.groups && r.shifts == s.shifts
            && r.load.den > 0 && r.load.num * ml.den == Min(ml.num, ml.den) * r.load.den
            && (s.hasArray && !Largest(r) ==>
                  r.capacity * r.load.den <= Slots(r) * r.load.num < (r.capacity + 1) * r.load.den)
  {
    hide Safe, Capacity, Pow2, Limit;
    var r := SetLoad(s, ml);
    SetLoadSafe(s, ml);
    LimitIs(r);
    LimitFor(r);
  }

  // Whole runs /////////////////////////////////////////////////////////////////

  /** No more values than the table can hold before it has to grow, and at least one of them allowed. */
  ghost predicate Steady<K, V>(s: State<K, V>)
    requires Safe(s)
  {
    |s.values| <= Limit(s) && s.load.den <= 64 * s.load.num
  }

  /** An array twice as large holds more, unless even one with 64 slots holds nothing. */
  lemma LimitGrows(load: Load, bits: nat, shifts: nat)
    requires ValidLoad(load) && ValidShifts(shifts, bits) && shifts > 0 && ValidShifts(shifts - 1, bits)
    requires load.den <= 64 * load.num
    ensures Room(load, bits, shifts) + 1 <= Room(load, bits, shifts - 1)
  {
    SlotsOf(shifts, bits);
    SlotsOf(shifts - 1, bits);
    var slots, c, d := LANES * Pow2(64 - shifts), Room(load, bits, shifts), Room(load, bits, shifts - 1);
    assert Pow2(2) == 4;
    FourGroups(shifts);
    Doubled(shifts);
    CapacityIs(load, bits, slots);
    CapacityIs(load, bits, 2 * slots);
    hide Capacity, Pow2, Room;
    if 2 * slots != Pow2(bits) {
      OneMore(slots, load, c, d);
    }
  }

  lemma FourGroups(shifts: nat)
    requires shifts <= INITIAL_SHIFTS
    ensures Pow2(64 - shifts) >= 4
  {
    assert Pow2(2) == 4;
    if shifts < 62 {
      Pow2Monotone(2, 64 - shifts);
    }
  }

  lemma OneMore(slots: nat, load: Load, c: nat, d: nat)
    requires slots >= 64 && load.den > 0 && load.den <= 64 * load.num
    requires c * load.den <= slots * load.num < (c + 1) * load.den
    requires d * load.den <= 2 * slots * load.num < (d + 1) * load.den
    ensures c + 1 <= d
  {
    MulMonotone(load.num, 64, slots);
    assert c * load.den + load.den <= 2 * (slots * load.num);
    if d <= c {
      MulMonotone(load.den, d + 1, c + 1);
    }
  }

  lemma LimitOf<K, V>(s: State<K, V>)
    requires Safe(s)
    ensures s.shifts <= 62 && ValidLoad(s.load) && ValidShifts(s.shifts, s.bits)
    ensures Limit(s) == Room(s.load, s.bits, s.shifts)
  {
    hide Capacity, Pow2;
    SafeShape(s);
  }

  lemma InsertSteady<K, V>(s: State<K, V>, e: Entry<K, V>, budget: nat, appends: bool)
    requires Safe(s) && Steady(s)
    ensures Safe(Emplace(s, e, budget, appends).state) && Steady(Emplace(s, e, budget, appends).state)
  {
    hide Safe, Limit, Append, Probe, MoveHome, Capacity, Room, Pow2;
    EmplaceSafe(s, e, budget, appends);
    InsertKeeps(s, e, budget, appends);
    SafeShape(s);
    var r, t := Emplace(s, e, budget, appends).state, WithArray(s);
    WithArraySafe(s);
    LimitOf(s);
    LimitOf(r);
    LimitOf(t);
    LimitIs(s);
    SafeShape(t);
    if r.shifts < s.shifts {
      LimitGrows(s.load, s.bits, s.shifts);
    } else if s.hasArray || budget > 0 {
      AppendEnds(t, e, AfterFirst(s.hasArray, budget));
    }
  }

  /** An operation on a table within its load factor, other than setting that, leaves it within. */
  lemma StepSteady<K, V>(s: State<K, V>, op: Op<K, V>)
    requires Safe(s) && Steady(s) && Step(s, op).Done? && !op.LimitLoad?
    ensures Safe(Step(s, op).state) && Steady(Step(s, op).state)
  {
    hide Safe, Limit, Room, Emplace, EraseKey, EraseAt, ReplaceKeyAt, Rehash, Reserve, ReplaceWith, MergeFrom,
         SourceAfter, Cleared, Smallest, Ample;
    StepSafe(s, op);
    StepKeeps(s, op);
    var r := Step(s, op).state;
    LimitOf(s);
    LimitOf(r);
    OwnRoom(r);
    match op
    case InsertEntry(e, budget, appends) => InsertSteady(s, e, budget, appends);
    case RehashFor(count, budget) =>
      RehashPlaced(s, count, budget);
      if Rehash(s, count, budget).Placed? { RehashSize(s, count, budget); }
    case ReserveFor(count, budget) => ReservePlaced(s, count, budget);
    case ReplaceAll(container, budget) =>
      ReplacePlaced(s, container, budget);
      ReplaceKeeps(s, container, budget);
    case _ =>
  }

  ghost predicate NoLimits<K, V>(ops: seq<Op<K, V>>) {
    forall i :: 0 <= i < |ops| ==> !ops[i].LimitLoad?
  }

  lemma {:induction false} RunSteady<K, V>(s: State<K, V>, ops: seq<Op<K, V>>)
    requires Safe(s) && Steady(s) && NoLimits(ops) && Run(s, ops).Done?
    ensures Safe(Run(s, ops).state) && Steady(Run(s, ops).state)
    decreases |ops|
  {
    hide Safe, Steady, Step;
    if ops != [] {
      StepSafe(s, ops[0]);
      StepSteady(s, ops[0]);
      RunSteady(Step(s, ops[0]).state, ops[1..]);
    }
  }

  /** A table stays within its maximum load factor: in every state a run reaches from a new table without changing it,
      size / slots is at most that, unless the array is the largest there can be. The factor is at least 1 / 64, so that
      the first array may hold a value. */
  lemma LoadFactorKept<K, V>(hash: K -> Word, bits: nat, load: Load, ops: seq<Op<K, V>>)
    requires ValidBits(bits) && ValidLoad(load) && load.den <= 64 * load.num && NoLimits(ops)
    ensures Safe(NewTable<K, V>(hash, bits, load))
    ensures var r := Run(NewTable<K, V>(hash, bits, load), ops);
            r.Done? ==> Within(r.state) || Largest(r.state)
  {
    hide Safe, Sound, Run, Within, Largest, Limit;
    NewTableSound<K, V>(hash, bits, load);
    var s := NewTable<K, V>(hash, bits, load);
    SoundParts(s);
    if Run(s, ops).Done? {
      RunSteady(s, ops);
      if !Largest(Run(s, ops).state) {
        WithinIs(Run(s, ops).state);
      }
    }
  }

  /** Below that it does not: at a load factor of a thousandth the first value goes into an array of 128 slots, which is
      to hold none. */
  lemma PastLoadFactor<K, V>(hash: K -> Word, e: Entry<K, V>)
    ensures var s := NewTable<K, V>(hash, 32, Load(1, 1000));
            && Safe(s)
            && var r := Run(s, [InsertEntry(e, 2, true)]);
               r.Done? && Sound(r.state) && r.state.values == [e] && Slots(r.state) == 128
               && !Largest(r.state) && !Within(r.state)
  {
    var s := NewTable<K, V>(hash, 32, Load(1, 1000));
    NewTableSound<K, V>(hash, 32, Load(1, 1000));
    hide Safe, Sound, Emplace, Limit, Run;
    SoundParts(s);
    RunOne(s, InsertEntry(e, 2, true));
    LimitIs(s);
    FirstArrayCapacity(s);
    InsertEnds(s, e, 2, true);
    EmplaceSound(s, e, 2, true);
    InsertKeeps(s, e, 2, true);
    var r := Emplace(s, e, 2, true).state;
    SoundParts(r);
    SlotsFor(r);
    assert Pow2(2) == 4 && Pow2(3) == 8;
    Pow2Monotone(8, 32);
    Pow2Sum(4, 4);
    assert Pow2(4) == 16;
    hide Pow2;
  }
}
