/** What rehash, reserve and clear are for: the index of a rebuild, whatever the old one looked like, and room for
    the elements asked for. */
module Rebuilding {
  import opened Probing
  import opened Groups
  import opened Counters
  import opened Bijection
  import opened Reference
  import opened Sizing
  import opened TableState
  import opened Building
  import opened Operations
  import opened Safety
  import opened Soundness

  /** The same index but for what stands in the value indices of empty lanes. */
  ghost predicate SameVisible(a: seq<Group>, b: seq<Group>) {
    SameMetadata(a, b) && forall s: Slot :: Has(|a|, s) && Full(a, s) ==> Pointee(a, s) == Pointee(b, s)
  }

  lemma {:induction false} FreeDepthSame(a: seq<Group>, b: seq<Group>, home: nat, d: nat)
    requires SameMetadata(a, b) && home < |a| && d <= |a|
    ensures FreeDepth(a, home, d) == FreeDepth(b, home, d)
    decreases |a| - d
  {
    hide Path;
    if d < |a| {
      assert a[Path(|a|, home, d)].fingerprints == b[Path(|a|, home, d)].fingerprints;
      FreeDepthSame(a, b, home, d + 1);
    }
  }

  lemma PlaceVisible(a: seq<Group>, b: seq<Group>, tag: Tag, v: nat)
    requires SameVisible(a, b) && IsPow2(|a|) && tag.home < |a| && tag.fp != 0 && HasRoom(a, tag.home)
    ensures HasRoom(b, tag.home) && SameVisible(Place(a, tag, v), Place(b, tag, v))
  {
    FreeDepthSame(a, b, tag.home, 0);
    PlaceFilled(a, tag, v);
    PlaceFilled(b, tag, v);
    assert PlaceSlot(a, tag.home) == PlaceSlot(b, tag.home);
    hide Place, HasRoom, FreeLane;
    PlaceMetadata(a, b, tag, v);
  }

  lemma PlaceMetadata(a: seq<Group>, b: seq<Group>, tag: Tag, v: nat)
    requires SameMetadata(a, b) && IsPow2(|a|) && tag.home < |a| && HasRoom(a, tag.home)
    ensures HasRoom(b, tag.home) && SameMetadata(Place(a, tag, v), Place(b, tag, v))
  {
    FreeDepthSame(a, b, tag.home, 0);
    hide HasRoom;
  }

  lemma {:induction false} BuildVisible(a: seq<Group>, b: seq<Group>, tags: seq<Tag>)
    requires SameVisible(a, b) && IsPow2(|a|) && TagsFit(|a|, tags) && IsEmptyIndex(a) && |tags| <= LANES * |a|
    ensures SameVisible(Build(a, tags), Build(b, tags))
  {
    if tags != [] {
      hide SameVisible, IsEmptyIndex, Place, HasRoom, Bijects;
      VisibleLength(a, b);
      var last := |tags| - 1;
      BuildVisible(a, b, tags[..last]);
      BuildBijects(a, tags);
      PlaceVisible(Build(a, tags[..last]), Build(b, tags[..last]), tags[last], last);
    }
  }

  lemma VisibleLength(a: seq<Group>, b: seq<Group>)
    requires SameVisible(a, b)
    ensures |a| == |b|
  {
  }

  lemma ClearedVisible(bs: seq<Group>)
    ensures SameVisible(Cleared(bs), EmptyGroups(|bs|)) && IsEmptyIndex(Cleared(bs))
  {
  }

  /** After a rehash the index is, whatever stood in it before, the one a new array gets when it is filled from the
      values; the array is the one for the size asked for, and holds it. */
  lemma RehashIsRebuild<K, V>(s: State<K, V>, count: nat, budget: nat)
    requires Safe(s) && Rehash(s, count, budget).Placed?
    ensures var r, wanted := Rehash(s, count, budget).state, Wanted(s.bits, count, |s.values|);
            && r.values == s.values
            && r.shifts == ShiftsFor(s.load, s.bits, wanted) <= 64
            && (r.hasArray ==> SameVisible(r.groups, Rebuilt(s, r.shifts).groups) && wanted <= r.capacity)
            && (r.hasArray <==> s.hasArray || r.shifts != s.shifts)
  {
    hide Safe, ShiftsFor, Build, Capacity, Cleared, SameVisible, IsEmptyIndex;
    SafeShape(s);
    WantedFits(s, count);
    var shifts := WantedShifts(s, count);
    hide ValidShifts;
    if shifts != s.shifts {
      VisibleSelf(Rebuilt(s, shifts).groups);
    } else {
      ClearedVisible(s.groups);
      BuildVisible(Cleared(s.groups), EmptyGroups(|s.groups|), TagsFor(s.hash, s.shifts, s.values));
    }
  }

  lemma VisibleSelf(bs: seq<Group>)
    ensures SameVisible(bs, bs)
  {
  }

  lemma ScaledMonotone(a: nat, b: nat, load: Load)
    requires a <= b && ValidLoad(load)
    ensures Scaled(a, load) <= Scaled(b, load)
  {
    MulMonotone(load.num, a, b);
    QuotientMonotone(a * load.num, b * load.num, load.den);
  }

  lemma QuotientMonotone(x: nat, y: nat, p: nat)
    requires x <= y && p > 0
    ensures x / p <= y / p
  {
    if y / p < x / p {
      MulMonotone(p, y / p + 1, x / p);
    }
  }

  /** A larger array has the larger capacity. */
  lemma CapacityMonotone(load: Load, bits: nat, a: nat, b: nat)
    requires ValidLoad(load) && ValidShifts(a, bits) && ValidShifts(b, bits) && b <= a
    ensures Capacity(load, bits, LANES * Pow2(64 - a)) <= Capacity(load, bits, LANES * Pow2(64 - b))
  {
    SlotsOf(a, bits);
    SlotsOf(b, bits);
    if b < a {
      Pow2Monotone(64 - a, 64 - b);
      ScaledMonotone(LANES * Pow2(64 - a), LANES * Pow2(64 - b), load);
    }
    hide Scaled, Pow2;
  }

  /** After a reserve the table never had its array made smaller and has room for the elements asked for. */
  lemma ReserveFits<K, V>(s: State<K, V>, count: nat, budget: nat)
    requires Safe(s) && Reserve(s, count, budget).Placed?
    ensures var r := Reserve(s, count, budget).state;
            r.hasArray && r.values == s.values && r.shifts <= s.shifts && Min(count, Pow2(s.bits)) <= r.capacity
  {
    hide Safe, ShiftsFor, Build, Capacity;
    SafeShape(s);
    WantedFits(s, count);
    var shifts := WantedShifts(s, count);
    if s.hasArray && s.shifts <= shifts {
      CapacityMonotone(s.load, s.bits, shifts, s.shifts);
    }
  }

  /** So the inserts up to that number allocate nothing. */
  lemma RoomNeedsNoMemory<K, V>(s: State<K, V>, e: Entry<K, V>)
    requires Safe(s) && s.hasArray && |s.values| < s.capacity
    ensures Emplace(s, e, 0, true).Placed? && Emplace(s, e, 0, true).state.capacity == s.capacity
  {
    hide Safe, Probe, MoveHome, Place;
  }

  /** An insert that finds no memory, or no larger array, or cannot append its value, leaves the table as it was before,
      except that it may have been given its first, empty array: the key was not found, and no value was added. There
      is no larger array only where the values are as many as the index can ever tell apart. */
  lemma FailedInsert<K, V>(s: State<K, V>, e: Entry<K, V>, budget: nat, appends: bool)
    requires Safe(s) && !Emplace(s, e, budget, appends).Placed?
    ensures Emplace(s, e, budget, appends).state == if budget == 0 then s else WithArray(s)
    ensures Emplace(s, e, budget, appends).Overflow? ==> appends && s.hasArray && |s.values| == Pow2(s.bits)
    ensures Emplace(s, e, budget, appends).AppendFailed? ==> !appends
    ensures Probe(s, e.key).None?
  {
    hide Safe, MoveHome, Place, Rebuilt, Capacity;
    SafeShape(s);
    if s.hasArray {
      SizeFits(s);
    } else {
      NoneWithoutArray(s);
      NothingProbed(s, e.key);
      FirstArrayCapacity(s);
    }
  }

  /** The first array has 64 slots, which is every slot there can be for the narrowest index only; and then, or at a
      load factor of at least 1 / 64, it has room for a value. */
  lemma FirstArrayCapacity<K, V>(s: State<K, V>)
    requires Safe(s) && !s.hasArray
    ensures s.values == [] && |s.groups| == 4 && LANES * |s.groups| == 64
    ensures WithArray(s).capacity == Capacity(s.load, s.bits, 64)
    ensures Capacity(s.load, s.bits, 64) == 0 <==> s.bits > 6 && 64 * s.load.num < s.load.den
    ensures WithArray(s).capacity == Pow2(s.bits) ==> WithArray(s).capacity > 0
  {
    NoneWithoutArray(s);
    SafeShape(s);
    assert Pow2(2) == 4 && Pow2(3) == 8;
    Pow2Sum(3, 3);
    if s.bits > 6 {
      Pow2Monotone(6, s.bits);
    }
    hide Safe, Bijects, Pow2;
    BelowOne(64 * s.load.num, s.load.den);
  }

  lemma BelowOne(x: nat, p: nat)
    requires p > 0
    ensures x / p == 0 <==> x < p
  {
  }

  /** When a failed insert leaves the first array behind: the table had none, its allocation succeeded, and then either
      the value could not be appended, or no further allocation succeeded while the maximum load factor is below
      1 / 64, so that even the first value calls for a larger array. */
  lemma FirstArrayKept<K, V>(s: State<K, V>, e: Entry<K, V>, budget: nat, appends: bool)
    requires Safe(s)
    ensures var r := Emplace(s, e, budget, appends);
            !r.Placed? && r.state != s
            <==> !s.hasArray && budget > 0
                 && (!appends || (budget == 1 && s.bits > 6 && 64 * s.load.num < s.load.den))
  {
    hide Safe, MoveHome, Place, Rebuilt, Capacity;
    SafeShape(s);
    if !Emplace(s, e, budget, appends).Placed? {
      FailedInsert(s, e, budget, appends);
    }
    if !s.hasArray {
      FirstArrayCapacity(s);
      WithArraySafe(s);
      NothingProbed(WithArray(s), e.key);
    }
  }

  /** Both happen: an insert into a new table whose first value cannot be appended, at any load factor, and one at a
      maximum load factor of a hundredth that is out of memory after one allocation. */
  lemma FirstArrayKeptExample<K, V>(hash: K -> Word, e: Entry<K, V>, load: Load)
    requires ValidLoad(load)
    ensures var s := NewTable<K, V>(hash, 32, load);
            Safe(s) && Emplace(s, e, 1, false) == AppendFailed(WithArray(s), 0) && WithArray(s) != s
    ensures var s := NewTable<K, V>(hash, 32, Load(1, 100));
            Safe(s) && Emplace(s, e, 1, true) == NoMemory(WithArray(s)) && WithArray(s) != s
  {
    KeptFromNew(hash, e, load);
    KeptFromNew(hash, e, Load(1, 100));
  }

  lemma KeptFromNew<K, V>(hash: K -> Word, e: Entry<K, V>, load: Load)
    requires ValidLoad(load)
    ensures var s := NewTable<K, V>(hash, 32, load);
            && Safe(s) && WithArray(s) != s
            && Emplace(s, e, 1, false) == AppendFailed(WithArray(s), 0)
            && (64 * load.num < load.den ==> Emplace(s, e, 1, true) == NoMemory(WithArray(s)))
  {
    var s := NewTable<K, V>(hash, 32, load);
    NewTableSound<K, V>(hash, 32, load);
    hide Safe, Sound;
    FirstArrayKept(s, e, 1, false);
    FirstArrayKept(s, e, 1, true);
    if !Emplace(s, e, 1, true).Placed? {
      FailedInsert(s, e, 1, true);
    }
    FailedInsert(s, e, 1, false);
  }

  /** Nothing is found in four empty groups, the sentinel's or the first array's. */
  lemma NothingProbed<K, V>(s: State<K, V>, k: K)
    requires Shape(s) && s.groups == EmptyGroups(4)
    ensures Probe(s, k).None?
  {
  }

  /** extract leaves an index with no counter stuck and no key to be found; clear does exactly when there were values
      to clear, and otherwise leaves whatever counters an earlier erase left stuck. */
  lemma ClearedOut<K, V>(s: State<K, V>)
    requires Safe(s)
    ensures Safe(ExtractAll(s)) && Safe(Clear(s)) && Clear(s).values == []
    ensures IsEmptyIndex(ExtractAll(s).groups) && forall k :: Probe(ExtractAll(s), k).None?
    ensures IsEmptyIndex(Clear(s).groups) <==> s.values != [] || IsEmptyIndex(s.groups)
  {
    hide Safe, IsEmptyIndex, Cleared, Probe;
    ExtractAllSafe(s);
    ClearedVisible(s.groups);
    SafeShape(ExtractAll(s));
    forall k
      ensures Probe(ExtractAll(s), k).None?
    {
      EmptyProbe(ExtractAll(s), k);
    }
  }

  lemma EmptyProbe<K, V>(s: State<K, V>, k: K)
    requires Shape(s) && IsEmptyIndex(s.groups)
    ensures Probe(s, k).None?
  {
  }
}
