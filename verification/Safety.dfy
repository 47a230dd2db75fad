/** The lower tier: from nothing but the bijection, every operation keeps the bijection. */
module Safety {
  import opened Probing
  import opened Groups
  import opened Bijection
  import opened Reference
  import opened Sizing
  import opened TableState
  import opened Building
  import opened Operations
  import opened Faults
  import Counters

  lemma RefilledSafe<K, V>(s: State<K, V>, base: seq<Group>, shifts: nat)
    requires ValidLoad(s.load) && ValidShifts(shifts, s.bits)
    requires |base| == Pow2(64 - shifts) && Counters.IsEmptyIndex(base)
    requires |s.values| <= LANES * |base|
    ensures Safe(Refilled(s, base, shifts))
  {
    hide Injects, Build;
    BuildBijects(base, TagsFor(s.hash, shifts, s.values));
  }

  lemma RebuiltSafe<K, V>(s: State<K, V>, shifts: nat)
    requires ValidLoad(s.load) && ValidShifts(shifts, s.bits) && |s.values| <= LANES * Pow2(64 - shifts)
    ensures Safe(Rebuilt(s, shifts))
  {
    EmptyGroupsEmpty(Pow2(64 - shifts));
    RefilledSafe(s, EmptyGroups(Pow2(64 - shifts)), shifts);
  }

  lemma ClearedEmpty(bs: seq<Group>)
    ensures Counters.IsEmptyIndex(Cleared(bs))
    ensures forall t: Slot :: Has(|bs|, t) ==> Pointee(Cleared(bs), t) == Pointee(bs, t)
  {
  }

  lemma AppendSafe<K, V>(s: State<K, V>, e: Entry<K, V>, budget: nat)
    requires Safe(s) && s.hasArray
    ensures Safe(Append(s, e, budget).state)
  {
    hide Injects, Build, Place;
    var longer := s.(values := s.values + [e]);
    if |s.values| + 1 <= s.capacity {
      RoomToAppend(s, e.key);
    } else if s.capacity != Pow2(s.bits) && budget > 0 {
      CanGrow(s);
      RebuiltSafe(longer, s.shifts - 1);
    }
  }

  lemma EmplaceSafe<K, V>(s: State<K, V>, e: Entry<K, V>, budget: nat, appends: bool)
    requires Safe(s)
    ensures Safe(Emplace(s, e, budget, appends).state)
  {
    if s.hasArray || budget > 0 {
      WithArraySafe(s);
      var t := WithArray(s);
      var left := if s.hasArray then budget else budget - 1;
      match Probe(t, e.key)
      case Some(slot) => MoveHomeSafe(t, slot, TagOf(t, e.key));
      case None => AppendSafe(t, e, left);
    }
  }

  /** Trouble with a hash apart, an insert in trouble is an insert. */
  lemma EmplaceInSafe<K, V>(s: State<K, V>, e: Entry<K, V>, budget: nat, trouble: Trouble)
    requires Safe(s)
    ensures var r := EmplaceIn(s, e, budget, trouble);
            r.Unfilled? || (Safe(r.state) && r == Emplace(s, e, budget, trouble != NoAppend))
  {
    hide Safe, Emplace, PartlyFilled;
    EmplaceSafe(s, e, budget, trouble != NoAppend);
  }

  lemma MoveHomeSafe<K, V>(s: State<K, V>, slot: Slot, tag: Tag)
    requires Safe(s) && s.hasArray && Has(|s.groups|, slot) && Full(s.groups, slot) && tag.home < |s.groups|
    ensures Safe(s.(groups := MoveHome(s.groups, slot, tag)))
  {
    MoveHomeInjects(s.groups, |s.values|, slot, tag);
  }

  lemma ArrayWhenFull<K, V>(s: State<K, V>, slot: Slot)
    requires Safe(s) && Has(|s.groups|, slot) && Full(s.groups, slot)
    ensures s.hasArray
  {
  }

  /** Freeing a slot and letting the last value fill the hole keeps the bijection. */
  lemma EraseSlotBijects(bs: seq<Group>, n: nat, slot: Slot, tag: Tag, t: Slot)
    requires Bijects(bs, n) && IsPow2(|bs|) && Has(|bs|, slot) && Full(bs, slot) && tag.home < |bs|
    ensures n > 0
    ensures Pointee(bs, slot) == n - 1 ==> Bijects(Free(bs, slot, tag), n - 1)
    ensures var freed := Free(bs, slot, tag);
            (Pointee(bs, slot) != n - 1 && Has(|bs|, t) && Full(freed, t) && Pointee(freed, t) == n - 1)
              ==> Bijects(Repoint(freed, t, Pointee(bs, slot)), n - 1)
  {
    var freed := Free(bs, slot, tag);
    FreeInjects(bs, n, n, slot, tag);
    if Pointee(bs, slot) == n - 1 {
      DropLast(freed, n, n - 1);
    } else if Has(|bs|, t) && Full(freed, t) && Pointee(freed, t) == n - 1 {
      RepointInjects(freed, n, n - 1, t, Pointee(bs, slot));
    }
  }

  lemma EraseSlotSafe<K, V>(s: State<K, V>, slot: Slot, tag: Tag)
    requires Safe(s) && Has(|s.groups|, slot) && Full(s.groups, slot) && tag.home < |s.groups|
    ensures EraseSlot(s, slot, tag).Done? ==> Safe(EraseSlot(s, slot, tag).state)
  {
    hide Bijects, Free, Repoint, Capacity, Pow2, SlotOfValue, TagOf;
    ArrayWhenFull(s, slot);
    EraseSlotBijects(s.groups, |s.values|, slot, tag, slot);
    var last := |s.values| - 1;
    var found := SlotOfValue(Free(s.groups, slot, tag), TagOf(s, s.values[last].key), last, 0);
    if found.Some? {
      EraseSlotBijects(s.groups, |s.values|, slot, tag, found.value);
    }
  }

  lemma EraseAtSafe<K, V>(s: State<K, V>, i: nat)
    requires Safe(s) && i < |s.values|
    ensures EraseAt(s, i).Done? ==> Safe(EraseAt(s, i).state)
  {
    var tag := TagOf(s, s.values[i].key);
    match SlotOfValue(s.groups, tag, i, 0)
    case None =>
    case Some(slot) => EraseSlotSafe(s, slot, tag);
  }

  lemma EraseKeySafe<K, V>(s: State<K, V>, k: K)
    requires Safe(s)
    ensures EraseKey(s, k).Done? ==> Safe(EraseKey(s, k).state)
  {
    match Probe(s, k)
    case None =>
    case Some(slot) => EraseSlotSafe(s, slot, TagOf(s, k));
  }

  lemma FreeThenPlaceBijects(bs: seq<Group>, n: nat, slot: Slot, tag: Tag, newTag: Tag)
    requires Bijects(bs, n) && IsPow2(|bs|) && Has(|bs|, slot) && Full(bs, slot)
    requires tag.home < |bs| && newTag.home < |bs| && newTag.fp != 0 && HasRoom(Free(bs, slot, tag), newTag.home)
    ensures Bijects(Place(Free(bs, slot, tag), newTag, Pointee(bs, slot)), n)
  {
    FreeInjects(bs, n, n, slot, tag);
    PlaceInjects(Free(bs, slot, tag), n, n - 1, newTag, Pointee(bs, slot));
  }

  lemma ReplaceKeySafe<K, V>(s: State<K, V>, i: nat, k: K)
    requires Safe(s) && i < |s.values|
    ensures ReplaceKeyAt(s, i, k).Done? ==> Safe(ReplaceKeyAt(s, i, k).state)
  {
    if Probe(s, k).None? {
      var tag := TagOf(s, s.values[i].key);
      match SlotOfValue(s.groups, tag, i, 0)
      case None =>
      case Some(slot) =>
        ArrayWhenFull(s, slot);
        RoomAfterFree(s, slot, tag, TagOf(s, k).home);
        FreeThenPlaceBijects(s.groups, |s.values|, slot, tag, TagOf(s, k));
    }
  }

  lemma ClearedGroups(n: nat)
    ensures Cleared(EmptyGroups(n)) == EmptyGroups(n)
  {
  }

  lemma ExtractAllSafe<K, V>(s: State<K, V>)
    requires Safe(s)
    ensures Safe(ExtractAll(s)) && Safe(Clear(s))
  {
    ClearedEmpty(s.groups);
    EmptyInjects(Cleared(s.groups), 0);
    ClearedGroups(4);
  }

  lemma SizeFits<K, V>(s: State<K, V>)
    requires Safe(s)
    ensures |s.values| <= LANES * |s.groups| <= Pow2(s.bits)
  {
    SlotsOf(s.shifts, s.bits);
    NoMoreThanSlots(s.groups, |s.values|);
  }

  /** The array a rehash or a reserve asks for is one the table can have, with room for its values. */
  lemma WantedFits<K, V>(s: State<K, V>, count: nat)
    requires Safe(s)
    ensures ValidLoad(s.load) && ValidBits(s.bits) && ValidShifts(WantedShifts(s, count), s.bits)
    ensures |s.values| <= LANES * Pow2(64 - WantedShifts(s, count))
    ensures |s.values| <= Wanted(s.bits, count, |s.values|)
                       <= Capacity(s.load, s.bits, LANES * Pow2(64 - WantedShifts(s, count)))
    ensures |s.values| <= LANES * |s.groups| && ValidShifts(s.shifts, s.bits) && |s.groups| == Pow2(64 - s.shifts)
  {
    SizeFits(s);
    hide ShiftsFor, Capacity, Injects, TooSmall;
    ShiftsForFits(s.load, s.bits, Wanted(s.bits, count, |s.values|));
  }

  lemma RehashSafe<K, V>(s: State<K, V>, count: nat, budget: nat)
    requires Safe(s)
    ensures Safe(Rehash(s, count, budget).state)
  {
    hide Safe, Refilled, Rebuilt, Cleared, ShiftsFor, Pow2, Max, Min, Counters.IsEmptyIndex, ValidShifts;
    WantedFits(s, count);
    if WantedShifts(s, count) != s.shifts {
      RebuiltSafe(s, WantedShifts(s, count));
    } else {
      ClearedEmpty(s.groups);
      RefilledSafe(s, Cleared(s.groups), s.shifts);
    }
  }

  lemma ReserveSafe<K, V>(s: State<K, V>, count: nat, budget: nat)
    requires Safe(s)
    ensures Safe(Reserve(s, count, budget).state)
  {
    hide Safe, Rebuilt, ShiftsFor, Pow2, Max, Min, ValidShifts;
    WantedFits(s, count);
    RebuiltSafe(s, WantedShifts(s, count));
  }

  lemma SetLoadSafe<K, V>(s: State<K, V>, load: Load)
    requires Safe(s) && load.den > 0
    ensures Safe(SetLoad(s, load))
  {
  }
}
