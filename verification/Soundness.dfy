/** The upper tier: with exact counters and distinct keys, every operation keeps both, never reports a changed
    key, and does to the values what the linear-scan container does. */
module Soundness {
  import opened Probing
  import opened Groups
  import opened Counters
  import opened Bijection
  import opened Reference
  import opened Sizing
  import opened TableState
  import opened Building
  import opened Operations
  import opened Faults
  import opened Safety

  lemma SoundIs<K, V>(s: State<K, V>)
    requires Safe(s) && DistinctKeys(s.values)
    requires Exact(s.groups, TagMap(s.groups, TagsFor(s.hash, s.shifts, s.values)))
    ensures Sound(s)
  {
  }

  lemma SoundParts<K, V>(s: State<K, V>)
    requires Sound(s)
    ensures Safe(s) && DistinctKeys(s.values) && Exact(s.groups, EntriesOf(s))
  {
  }

  lemma SoundFrom<K, V>(s: State<K, V>, tm: Entries)
    requires Safe(s) && DistinctKeys(s.values) && EntriesOf(s) == tm && Exact(s.groups, tm)
    ensures Sound(s)
  {
    hide Safe, DistinctKeys, Exact, EntriesOf;
  }

  lemma SafeShape<K, V>(s: State<K, V>)
    requires Safe(s)
    ensures Shape(s) && ValidLoad(s.load) && ValidShifts(s.shifts, s.bits)
    ensures |s.groups| == Pow2(64 - s.shifts) && IsPow2(|s.groups|)
    ensures Bijects(s.groups, |s.values|)
  {
  }

  // Rebuilding /////////////////////////////////////////////////////////////////

  lemma RefilledSound<K, V>(s: State<K, V>, base: seq<Group>, shifts: nat)
    requires ValidLoad(s.load) && ValidShifts(shifts, s.bits) && DistinctKeys(s.values)
    requires |base| == Pow2(64 - shifts) && IsEmptyIndex(base)
    requires |s.values| <= LANES * |base|
    ensures Sound(Refilled(s, base, shifts)) && Refilled(s, base, shifts).values == s.values
  {
    RefilledSafe(s, base, shifts);
    BuildExact(base, TagsFor(s.hash, shifts, s.values));
    hide Safe, Exact, Build, TagMap, IsEmptyIndex;
    SoundIs(Refilled(s, base, shifts));
  }

  lemma RebuiltSound<K, V>(s: State<K, V>, shifts: nat)
    requires ValidLoad(s.load) && ValidShifts(shifts, s.bits) && DistinctKeys(s.values)
    requires |s.values| <= LANES * Pow2(64 - shifts)
    ensures Sound(Rebuilt(s, shifts)) && Rebuilt(s, shifts).values == s.values
  {
    hide Sound, IsEmptyIndex;
    EmptyGroupsEmpty(Pow2(64 - shifts));
    RefilledSound(s, EmptyGroups(Pow2(64 - shifts)), shifts);
  }

  lemma EmptyIndexSound<K, V>(s: State<K, V>)
    requires Safe(s) && s.values == [] && IsEmptyIndex(s.groups)
    ensures Sound(s)
  {
    EmptyExact(s.groups);
    assert EntriesOf(s) == map[];
  }

  lemma NewTableSound<K, V>(hash: K -> Word, bits: nat, load: Load)
    requires ValidBits(bits) && ValidLoad(load)
    ensures Sound(NewTable<K, V>(hash, bits, load))
  {
    EmptyGroupsEmpty(4);
    EmptyInjects(EmptyGroups(4), 0);
    assert Pow2(2) == 4;
    hide IsEmptyIndex;
    EmptyIndexSound(NewTable<K, V>(hash, bits, load));
  }

  lemma WithArraySound<K, V>(s: State<K, V>)
    requires Sound(s)
    ensures Sound(WithArray(s))
  {
    WithArraySafe(s);
    assert EntriesOf(WithArray(s)) == EntriesOf(s);
  }

  // Inserting //////////////////////////////////////////////////////////////////

  /** The table with `e` appended and placed. */
  ghost function Extended<K, V>(s: State<K, V>, e: Entry<K, V>): State<K, V>
    requires Safe(s) && HasRoom(s.groups, TagOf(s, e.key).home)
  {
    s.(values := s.values + [e], groups := Place(s.groups, TagOf(s, e.key), |s.values|))
  }

  lemma ExtendedSafe<K, V>(s: State<K, V>, e: Entry<K, V>)
    requires Safe(s) && s.hasArray && |s.values| + 1 <= s.capacity
    ensures HasRoom(s.groups, TagOf(s, e.key).home) && Safe(Extended(s, e))
  {
    RoomToAppend(s, e.key);
    hide Injects, Place, TagOf, Capacity, HasRoom;
  }

  lemma ExtendedTags<K, V>(hash: K -> Word, shifts: nat, values: seq<Entry<K, V>>, e: Entry<K, V>)
    requires shifts <= 64
    ensures TagsFor(hash, shifts, values + [e]) == TagsFor(hash, shifts, values) + [TagFor(hash, shifts, e.key)]
  {
    hide TagFor;
  }

  lemma ExtendedExact<K, V>(s: State<K, V>, e: Entry<K, V>)
    requires Sound(s) && s.hasArray && |s.values| + 1 <= s.capacity
    ensures HasRoom(s.groups, TagOf(s, e.key).home)
    ensures var r := Extended(s, e);
            Bijects(r.groups, |r.values|) && Exact(r.groups, TagMap(r.groups, TagsFor(r.hash, r.shifts, r.values)))
  {
    RoomToAppend(s, e.key);
    ExtendedTags(s.hash, s.shifts, s.values, e);
    hide Place, Exact, TagMap, TagsFor, Injects, HasRoom, TagFor, Capacity, DistinctKeys;
    BuildExactStep(s.groups, TagsFor(s.hash, s.shifts, s.values), TagOf(s, e.key));
  }

  lemma PlaceSound<K, V>(s: State<K, V>, e: Entry<K, V>)
    requires Sound(s) && s.hasArray && |s.values| + 1 <= s.capacity && !Present(s.values, e.key)
    ensures HasRoom(s.groups, TagOf(s, e.key).home) && Sound(Extended(s, e))
  {
    ExtendedSafe(s, e);
    ExtendedExact(s, e);
    InsertRefines(s.values, e);
    hide Exact, Place, TagMap, Safe, HasRoom, DistinctKeys, TagsFor, TagOf;
    SoundIs(Extended(s, e));
    hide Sound;
  }

  lemma MoveHomeSound<K, V>(s: State<K, V>, slot: Slot)
    requires Sound(s) && Has(|s.groups|, slot) && Full(s.groups, slot)
    ensures Sound(s.(groups := MoveHome(s.groups, slot, EntriesOf(s)[slot])))
  {
    ArrayWhenFull(s, slot);
    var tm := EntriesOf(s);
    var tag := tm[slot];
    var r := s.(groups := MoveHome(s.groups, slot, tag));
    MoveHomeSafe(s, slot, tag);
    MoveHomeExact(s.groups, tm, slot);
    MoveHomeEntries(s, slot);
  }

  /** The entry moves with its value index. */
  lemma MoveHomeEntries<K, V>(s: State<K, V>, slot: Slot)
    requires Sound(s) && Has(|s.groups|, slot) && Full(s.groups, slot)
    ensures var tag := EntriesOf(s)[slot];
            var r := s.(groups := MoveHome(s.groups, slot, tag));
            Safe(r) && EntriesOf(r) == (EntriesOf(s) - {slot})[HomedSlot(s.groups, slot, tag) := tag]
  {
    ArrayWhenFull(s, slot);
    var tag := EntriesOf(s)[slot];
    MoveHomeSafe(s, slot, tag);
    if slot.group != tag.home && HasFree(s.groups[tag.home]) {
      MoveHomeSlots(s.groups, slot, tag);
      MovedEntries(s, s.(groups := MoveHome(s.groups, slot, tag)), slot, Slot(tag.home, FreeLane(s.groups[tag.home])));
    } else {
      assert (EntriesOf(s) - {slot})[slot := tag] == EntriesOf(s);
    }
  }

  lemma MovedEntries<K, V>(s: State<K, V>, r: State<K, V>, from: Slot, to: Slot)
    requires Safe(s) && Safe(r) && r == s.(groups := r.groups) && |r.groups| == |s.groups| && from != to
    requires Has(|s.groups|, from) && Full(s.groups, from) && Has(|s.groups|, to) && !Full(s.groups, to)
    requires SameSlots(PutSlot(ClearSlot(s.groups, from), to, s.groups[from.group].fingerprints[from.lane],
                               Pointee(s.groups, from)), r.groups)
    ensures EntriesOf(r) == (EntriesOf(s) - {from})[to := EntriesOf(s)[from]]
  {
    hide Safe, Full, Pointee, EntriesOf, TagFor, SameSlots, PutSlot, ClearSlot;
    MovedSlots(s.groups, r.groups, from, to);
    var now, want := EntriesOf(r), (EntriesOf(s) - {from})[to := EntriesOf(s)[from]];
    assert forall t: Slot :: t in now <==> t in want;
    assert forall t: Slot :: t in now ==> now[t] == want[t];
  }

  lemma MovedSlots(bs: seq<Group>, r: seq<Group>, from: Slot, to: Slot)
    requires |r| == |bs| && from != to && Has(|bs|, from) && Full(bs, from) && Has(|bs|, to)
    requires SameSlots(PutSlot(ClearSlot(bs, from), to, bs[from.group].fingerprints[from.lane], Pointee(bs, from)), r)
    ensures Full(r, to) && Pointee(r, to) == Pointee(bs, from) && !Full(r, from)
    ensures forall t: Slot :: Has(|bs|, t) && t != from && t != to
              ==> Full(r, t) == Full(bs, t) && Pointee(r, t) == Pointee(bs, t)
  {
  }

  /** A probe that hits in a sound table finds the slot under the tag the entry was placed with. */
  lemma FoundTag<K, V>(s: State<K, V>, k: K)
    requires Sound(s) && Probe(s, k).Some?
    ensures var slot := Probe(s, k).value;
            && Has(|s.groups|, slot) && Full(s.groups, slot)
            && EntriesOf(s)[slot] == TagOf(s, k)
            && Pointee(s.groups, slot) == Scan(s.values, k) < |s.values|
  {
    FindIsScan(s, k);
  }

  /** What an insert does in every outcome: the values of the linear-scan container and the position of the
      key, or, out of memory or of range, the table as it was. */
  ghost predicate InsertsLike<K, V>(s: State<K, V>, e: Entry<K, V>, r: Insertion<K, V>) {
    if r.Placed? then
      && r.state.values == Insert(s.values, e)
      && r.at == Scan(r.state.values, e.key)
      && r.inserted == !Present(s.values, e.key)
    else
      !Present(s.values, e.key) && r.state == s
  }

  lemma FailsLike<K, V>(s: State<K, V>, e: Entry<K, V>, r: Insertion<K, V>)
    requires !r.Placed? && r.state == s && !Present(s.values, e.key)
    ensures InsertsLike(s, e, r)
  {
  }

  lemma AppendSound<K, V>(s: State<K, V>, e: Entry<K, V>, budget: nat)
    requires Sound(s) && s.hasArray && !Present(s.values, e.key)
    ensures Safe(s) && Sound(Append(s, e, budget).state) && InsertsLike(s, e, Append(s, e, budget))
  {
    hide Safe, Sound, Place, Rebuilt, TagOf, DistinctKeys, HasRoom, Pow2, MapOf, InsertsLike;
    SoundParts(s);
    SafeShape(s);
    hide Shape;
    var longer, r := s.(values := s.values + [e]), Append(s, e, budget);
    InsertRefines(s.values, e);
    if |s.values| + 1 <= s.capacity {
      RoomToAppend(s, e.key);
      PlaceSound(s, e);
      assert r.state == Extended(s, e);
      AppendsLike(s, e, r);
    } else if s.capacity != Pow2(s.bits) && budget > 0 {
      CanGrow(s);
      RebuiltSound(longer, s.shifts - 1);
      AppendsLike(s, e, r);
    } else {
      FailsLike(s, e, r);
    }
  }

  lemma AppendsLike<K, V>(s: State<K, V>, e: Entry<K, V>, r: Insertion<K, V>)
    requires DistinctKeys(s.values + [e]) && !Present(s.values, e.key)
    requires r.Placed? && r.state.values == s.values + [e] && r.at == |s.values| && r.inserted
    ensures InsertsLike(s, e, r)
  {
    ScanOfKey(s.values + [e], |s.values|);
  }

  /** A hit moves its entry home and inserts nothing. */
  lemma HitSound<K, V>(s: State<K, V>, e: Entry<K, V>, budget: nat)
    requires Sound(s) && Probe(s, e.key).Some?
    ensures var slot, tag := Probe(s, e.key).value, TagOf(s, e.key);
            && Safe(s) && IsPow2(|s.groups|) && Has(|s.groups|, slot) && tag.home < |s.groups|
            && var r := Placed(s.(groups := MoveHome(s.groups, slot, tag)), Pointee(s.groups, slot), false, budget);
               Sound(r.state) && InsertsLike(s, e, r)
  {
    hide Safe, Sound, MoveHome, Probe, EntriesOf, Find;
    SoundParts(s);
    SafeShape(s);
    FoundTag(s, e.key);
    MoveHomeSound(s, Probe(s, e.key).value);
  }

  lemma EmplaceSound<K, V>(s: State<K, V>, e: Entry<K, V>, budget: nat, appends: bool)
    requires Sound(s)
    ensures var r := Emplace(s, e, budget, appends);
            Sound(r.state) && (InsertsLike(s, e, r) || (!s.hasArray && InsertsLike(WithArray(s), e, r)))
  {
    hide Safe, Sound, Append, MoveHome, Probe, Find, Shape, InsertsLike, WithArray;
    SoundParts(s);
    SafeShape(s);
    var r, t := Emplace(s, e, budget, appends), WithArray(s);
    WithArraySafe(s);
    WithArraySound(s);
    SafeShape(t);
    WithArrayIs(s);
    if !s.hasArray && budget == 0 {
      NoneWithoutArray(s);
      FailsLike(s, e, r);
    } else if Probe(t, e.key).Some? {
      HitSound(t, e, r.budget);
    } else {
      FindIsScan(t, e.key);
      if appends {
        AppendSound(t, e, if s.hasArray then budget else budget - 1);
      } else {
        FailsLike(t, e, r);
      }
    }
  }

  lemma WithArrayIs<K, V>(s: State<K, V>)
    requires Safe(s)
    ensures WithArray(s).hasArray && WithArray(s).values == s.values && (s.hasArray ==> WithArray(s) == s)
  {
  }

  /** Only an insert of a new key makes the array larger. */
  lemma GrewInserted<K, V>(s: State<K, V>, e: Entry<K, V>, budget: nat, appends: bool)
    requires Safe(s)
    ensures var r := Emplace(s, e, budget, appends);
            r.Placed? && r.state.shifts < s.shifts ==> r.inserted
  {
    hide Safe, MoveHome, Probe, Place;
  }

  /** An insert that is cut short while it fills a larger array has appended its value, whose key was absent; in any
      other trouble it is an insert. */
  lemma EmplaceInSound<K, V>(s: State<K, V>, e: Entry<K, V>, budget: nat, trouble: Trouble)
    requires Sound(s)
    ensures Safe(s)
    ensures var r := EmplaceIn(s, e, budget, trouble);
            if r.Unfilled? then !Present(s.values, e.key) && r.state.values == s.values + [e]
            else r == Emplace(s, e, budget, trouble != NoAppend)
  {
    hide Safe, Sound, Emplace, Present;
    SoundParts(s);
    EmplaceSound(s, e, budget, trouble != NoAppend);
    GrewInserted(s, e, budget, trouble != NoAppend);
    WithArrayIs(s);
    hide WithArray;
  }

  lemma NoneWithoutArray<K, V>(s: State<K, V>)
    requires Safe(s) && !s.hasArray
    ensures s.values == []
  {
    if s.values != [] {
      ArrayWhenFull(s, SlotFor(s.groups, |s.values|, 0));
    }
  }

  // Erasing ////////////////////////////////////////////////////////////////////

  /** Slot for slot, r is bs with `slot` emptied and the pointer to `last` turned to the index that freed. */
  ghost predicate Vacated(bs: seq<Group>, r: seq<Group>, slot: Slot, last: nat) {
    && |r| == |bs|
    && Has(|bs|, slot)
    && !Full(r, slot)
    && forall t: Slot :: Has(|bs|, t) && t != slot ==>
         && Full(r, t) == Full(bs, t)
         && (Full(bs, t) ==> Pointee(r, t) == if Pointee(bs, t) == last then Pointee(bs, slot) else Pointee(bs, t))
  }

  lemma ErasedEntries<K, V>(s: State<K, V>, r: State<K, V>, slot: Slot)
    requires Safe(s) && Safe(r) && Has(|s.groups|, slot) && Full(s.groups, slot)
    requires Pointee(s.groups, slot) < |s.values|
    requires r == s.(groups := r.groups, values := RemoveAt(s.values, Pointee(s.groups, slot)))
    requires Vacated(s.groups, r.groups, slot, |s.values| - 1)
    requires forall t: Slot :: t in EntriesOf(s) && t != slot ==> Pointee(s.groups, t) != Pointee(s.groups, slot)
    ensures EntriesOf(r) == EntriesOf(s) - {slot}
  {
    hide Safe, EntriesOf, TagFor, Full, Pointee;
    var now, want := EntriesOf(r), EntriesOf(s) - {slot};
    assert forall t: Slot :: t in now <==> t in want;
    assert forall t: Slot :: t in now ==> now[t] == want[t];
  }

  lemma FreedSlots(bs: seq<Group>, slot: Slot, tag: Tag)
    requires IsPow2(|bs|) && Has(|bs|, slot) && tag.home < |bs|
    ensures var r := Free(bs, slot, tag);
            && !Full(r, slot)
            && (forall t: Slot :: Has(|bs|, t) && t != slot
                  ==> r[t.group].fingerprints[t.lane] == bs[t.group].fingerprints[t.lane])
            && (forall t: Slot :: Has(|bs|, t) ==> Pointee(r, t) == Pointee(bs, t))
  {
  }

  lemma FreedVacated(bs: seq<Group>, n: nat, slot: Slot, tag: Tag)
    requires Bijects(bs, n) && IsPow2(|bs|) && Has(|bs|, slot) && Full(bs, slot) && tag.home < |bs|
    requires Pointee(bs, slot) == n - 1
    ensures Vacated(bs, Free(bs, slot, tag), slot, n - 1)
  {
    FreedSlots(bs, slot, tag);
    hide Free;
  }

  lemma RepointedVacated(bs: seq<Group>, n: nat, slot: Slot, tag: Tag, t: Slot)
    requires Bijects(bs, n) && IsPow2(|bs|) && Has(|bs|, slot) && Full(bs, slot) && tag.home < |bs|
    requires Has(|bs|, t) && Full(Free(bs, slot, tag), t) && Pointee(Free(bs, slot, tag), t) == n - 1
    ensures Vacated(bs, Repoint(Free(bs, slot, tag), t, Pointee(bs, slot)), slot, n - 1)
  {
    FreedSlots(bs, slot, tag);
    hide Free;
  }

  lemma EntryCarries(bs: seq<Group>, tm: Entries, slot: Slot)
    requires Exact(bs, tm) && slot in tm
    ensures Has(|bs|, slot) && Carries(bs[slot.group], slot.lane, tm[slot].fp, Pointee(bs, slot))
    ensures tm[slot].home < |bs| && tm[slot].fp != 0 && IsPow2(|bs|)
  {
    hide CountersExact;
  }

  /** The slot of a value is found even once another slot has been freed. */
  lemma StillFound(bs: seq<Group>, tm: Entries, slot: Slot, u: Slot)
    requires Exact(bs, tm) && slot in tm && u in tm && u != slot
    requires |bs| > 0 && tm[u].home < |bs| && tm[slot].home < |bs| && IsPow2(|bs|) && Has(|bs|, slot) && Has(|bs|, u)
    ensures SlotOfValue(Free(bs, slot, tm[slot]), tm[u], Pointee(bs, u), 0).Some?
  {
    EntryCarries(bs, tm, u);
    FreedSlots(bs, slot, tm[slot]);
    hide Free, Exact;
    SlotOfValueFound(Free(bs, slot, tm[slot]), tm[u], Pointee(bs, u), u, 0);
  }

  lemma SlotForEntry<K, V>(s: State<K, V>, i: nat)
    requires Sound(s) && i < |s.values|
    ensures var u := SlotFor(s.groups, |s.values|, i);
            u in EntriesOf(s) && EntriesOf(s)[u] == TagOf(s, s.values[i].key)
  {
    hide Injects, TagFor, Exact;
  }

  /** The last value's slot is found, and turning it to the freed index vacates the erased one. */
  lemma LastRepointed(bs: seq<Group>, n: nat, tm: Entries, slot: Slot, u: Slot)
    requires Bijects(bs, n) && Exact(bs, tm) && slot in tm && u in tm && u != slot
    requires Fits(|bs|, tm) && Has(|bs|, slot) && Has(|bs|, u) && Full(bs, slot) && Pointee(bs, u) == n - 1
    ensures var freed := Free(bs, slot, tm[slot]);
            var found := SlotOfValue(freed, tm[u], n - 1, 0);
            found.Some? && Vacated(bs, Repoint(freed, found.value, Pointee(bs, slot)), slot, n - 1)
  {
    StillFound(bs, tm, slot, u);
    EntryCarries(bs, tm, u);
    hide Injects, Free, Exact, Vacated, Repoint, SlotOfValue;
    RepointedVacated(bs, n, slot, tm[slot], SlotOfValue(Free(bs, slot, tm[slot]), tm[u], n - 1, 0).value);
  }

  lemma EntriesFit<K, V>(s: State<K, V>)
    requires Safe(s)
    ensures Fits(|s.groups|, EntriesOf(s))
  {
    hide Injects, EntriesOf;
  }

  /** Whatever index is left once a slot has been vacated and its counts taken back, with the last value moved
      into the hole, is sound. */
  lemma VacatedSound<K, V>(s: State<K, V>, r: State<K, V>, slot: Slot)
    requires Sound(s) && Safe(r) && Has(|s.groups|, slot) && Full(s.groups, slot)
    requires Pointee(s.groups, slot) < |s.values|
    requires r == s.(groups := r.groups, values := RemoveAt(s.values, Pointee(s.groups, slot)))
    requires Vacated(s.groups, r.groups, slot, |s.values| - 1)
    requires Exact(r.groups, EntriesOf(s) - {slot})
    ensures Sound(r)
  {
    hide Safe, Shape;
    SoundParts(s);
    SafeShape(s);
    assert forall t: Slot :: t in EntriesOf(s) && t != slot ==> Pointee(s.groups, t) != Pointee(s.groups, slot);
    hide Sound, Injects, Exact, EntriesOf, DistinctKeys, Vacated;
    RemoveAtRefines(s.values, Pointee(s.groups, slot));
    ErasedEntries(s, r, slot);
    SoundFrom(r, EntriesOf(s) - {slot});
  }

  lemma PointeeInRange<K, V>(s: State<K, V>, slot: Slot)
    requires Safe(s) && Has(|s.groups|, slot) && Full(s.groups, slot)
    ensures Pointee(s.groups, slot) < |s.values|
  {
  }

  lemma EraseLastSound<K, V>(s: State<K, V>, slot: Slot)
    requires Sound(s) && Has(|s.groups|, slot) && Full(s.groups, slot)
    requires |s.values| > 0 && Pointee(s.groups, slot) == |s.values| - 1
    ensures var r := EraseSlot(s, slot, EntriesOf(s)[slot]);
            r.Done? && Sound(r.state) && r.state.values == RemoveAt(s.values, Pointee(s.groups, slot))
  {
    hide Safe, Sound, Shape, Injects, Free, Exact, EntriesOf, RemoveAt, Vacated, TagOf, SlotOfValue;
    SoundParts(s);
    SafeShape(s);
    var tag := EntriesOf(s)[slot];
    FreeExact(s.groups, EntriesOf(s), slot);
    EraseSlotSafe(s, slot, tag);
    FreedVacated(s.groups, |s.values|, slot, tag);
    VacatedSound(s, EraseSlot(s, slot, tag).state, slot);
  }

  lemma EraseMiddleSound<K, V>(s: State<K, V>, slot: Slot)
    requires Sound(s) && Has(|s.groups|, slot) && Full(s.groups, slot)
    requires |s.values| > 0 && Pointee(s.groups, slot) < |s.values| - 1
    ensures var r := EraseSlot(s, slot, EntriesOf(s)[slot]);
            r.Done? && Sound(r.state) && r.state.values == RemoveAt(s.values, Pointee(s.groups, slot))
  {
    hide Safe, Sound, Shape, Injects, Free, Exact, EntriesOf, RemoveAt, Vacated, TagOf, SlotOfValue, Repoint;
    SoundParts(s);
    SafeShape(s);
    var tm, last := EntriesOf(s), |s.values| - 1;
    var freed := Free(s.groups, slot, tm[slot]);
    FreeExact(s.groups, tm, slot);
    EraseSlotSafe(s, slot, tm[slot]);
    EntriesFit(s);
    var u := SlotFor(s.groups, |s.values|, last);
    SlotForEntry(s, last);
    LastRepointed(s.groups, |s.values|, tm, slot, u);
    var t := SlotOfValue(freed, TagOf(s, s.values[last].key), last, 0).value;
    RepointExact(freed, tm - {slot}, t, Pointee(s.groups, slot));
    VacatedSound(s, EraseSlot(s, slot, tm[slot]).state, slot);
  }

  lemma EraseSlotSound<K, V>(s: State<K, V>, slot: Slot)
    requires Sound(s) && Has(|s.groups|, slot) && Full(s.groups, slot)
    ensures Pointee(s.groups, slot) < |s.values|
    ensures var r := EraseSlot(s, slot, EntriesOf(s)[slot]);
            r.Done? && Sound(r.state) && r.state.values == RemoveAt(s.values, Pointee(s.groups, slot))
  {
    hide Safe, Sound, EntriesOf, EraseSlot, RemoveAt;
    SoundParts(s);
    PointeeInRange(s, slot);
    if Pointee(s.groups, slot) == |s.values| - 1 {
      EraseLastSound(s, slot);
    } else {
      EraseMiddleSound(s, slot);
    }
  }

  /** The slot of value i is found, under the tag of its key. */
  lemma SlotOfValueSound<K, V>(s: State<K, V>, i: nat)
    requires Sound(s) && i < |s.values|
    ensures SlotOfValue(s.groups, TagOf(s, s.values[i].key), i, 0) == Some(SlotFor(s.groups, |s.values|, i))
    ensures SlotFor(s.groups, |s.values|, i) in EntriesOf(s)
    ensures EntriesOf(s)[SlotFor(s.groups, |s.values|, i)] == TagOf(s, s.values[i].key)
  {
    hide Safe, Shape, DistinctKeys;
    SafeShape(s);
    SlotForEntry(s, i);
    var u := SlotFor(s.groups, |s.values|, i);
    EntryCarries(s.groups, EntriesOf(s), u);
    hide Exact, EntriesOf, TagOf;
    SlotOfValueFound(s.groups, TagOf(s, s.values[i].key), i, u, 0);
  }

  lemma EraseAtSound<K, V>(s: State<K, V>, i: nat)
    requires Sound(s) && i < |s.values|
    ensures var r := EraseAt(s, i);
            r.Done? && Sound(r.state) && r.state.values == RemoveAt(s.values, i)
  {
    hide Safe, Sound, EntriesOf, EraseSlot, RemoveAt, SlotOfValue, TagOf, Injects;
    SoundParts(s);
    SafeShape(s);
    SlotOfValueSound(s, i);
    EraseSlotSound(s, SlotFor(s.groups, |s.values|, i));
  }

  lemma EraseKeySound<K, V>(s: State<K, V>, k: K)
    requires Sound(s)
    ensures var r := EraseKey(s, k);
            r.Done? && Sound(r.state) && r.state.values == Erase(s.values, k)
  {
    hide Safe, Sound, EntriesOf, EraseSlot, RemoveAt, Probe, Find, Scan;
    SoundParts(s);
    SafeShape(s);
    FindIsScan(s, k);
    if Probe(s, k).Some? {
      FoundTag(s, k);
      EraseSlotSound(s, Probe(s, k).value);
    }
  }

  // Replacing a key ////////////////////////////////////////////////////////////

  lemma RekeyedEntry<K, V>(s: State<K, V>, r: State<K, V>, freed: seq<Group>, slot: Slot, p: Slot, k: K, t: Slot)
    requires Safe(s) && Safe(r) && Has(|s.groups|, slot) && Full(s.groups, slot)
    requires |freed| == |s.groups| && Has(|freed|, p) && Pointee(s.groups, slot) < |s.values|
    requires Vacated(s.groups, freed, slot, |s.values|) && Filled(freed, r.groups, p, Pointee(s.groups, slot))
    requires var i := Pointee(s.groups, slot);
             r == s.(groups := r.groups, values := s.values[i := Entry(k, s.values[i].val)])
    requires forall t: Slot :: t in EntriesOf(s) && t != slot ==> Pointee(s.groups, t) != Pointee(s.groups, slot)
    ensures t in EntriesOf(r) <==> t == p || (t in EntriesOf(s) && t != slot)
    ensures t in EntriesOf(r) ==> EntriesOf(r)[t] == if t == p then TagOf(s, k) else EntriesOf(s)[t]
  {
    hide Safe, EntriesOf, TagFor, Full, Pointee;
  }

  lemma RekeyedEntries<K, V>(s: State<K, V>, r: State<K, V>, freed: seq<Group>, slot: Slot, p: Slot, k: K)
    requires Safe(s) && Safe(r) && Has(|s.groups|, slot) && Full(s.groups, slot)
    requires |freed| == |s.groups| && Has(|freed|, p) && Pointee(s.groups, slot) < |s.values|
    requires Vacated(s.groups, freed, slot, |s.values|) && Filled(freed, r.groups, p, Pointee(s.groups, slot))
    requires var i := Pointee(s.groups, slot);
             r == s.(groups := r.groups, values := s.values[i := Entry(k, s.values[i].val)])
    requires forall t: Slot :: t in EntriesOf(s) && t != slot ==> Pointee(s.groups, t) != Pointee(s.groups, slot)
    ensures EntriesOf(r) == (EntriesOf(s) - {slot})[p := TagOf(s, k)]
  {
    SafeShape(s);
    assert s.shifts <= 64;
    hide *;
    var now, before, tag := EntriesOf(r), EntriesOf(s), TagOf(s, k);
    forall t: Slot
      ensures t in now <==> t == p || (t in before && t != slot)
      ensures t in now ==> now[t] == if t == p then tag else before[t]
    {
      RekeyedEntry(s, r, freed, slot, p, k, t);
    }
    MapChanged(before, now, slot, p, tag);
  }

  lemma MapChanged(before: Entries, now: Entries, slot: Slot, p: Slot, tag: Tag)
    requires forall t: Slot :: t in now <==> t == p || (t in before && t != slot)
    requires forall t: Slot :: t in now ==> now[t] == if t == p then tag else before[t]
    ensures now == (before - {slot})[p := tag]
  {
  }

  lemma FreedVacatedAny(bs: seq<Group>, n: nat, slot: Slot, tag: Tag)
    requires Bijects(bs, n) && IsPow2(|bs|) && Has(|bs|, slot) && Full(bs, slot) && tag.home < |bs|
    ensures Vacated(bs, Free(bs, slot, tag), slot, n)
  {
    FreedSlots(bs, slot, tag);
    hide Free;
  }

  lemma RekeyedExact(bs: seq<Group>, n: nat, tm: Entries, slot: Slot, tag: Tag)
    requires Bijects(bs, n) && Exact(bs, tm) && slot in tm && Fits(|bs|, tm) && Has(|bs|, slot) && Full(bs, slot)
    requires tag.home < |bs| && tag.fp != 0 && HasRoom(Free(bs, slot, tm[slot]), tag.home)
    ensures var freed := Free(bs, slot, tm[slot]);
            var p := PlaceSlot(freed, tag.home);
            && Vacated(bs, freed, slot, n)
            && Filled(freed, Place(freed, tag, Pointee(bs, slot)), p, Pointee(bs, slot))
            && Exact(Place(freed, tag, Pointee(bs, slot)), (tm - {slot})[p := tag])
  {
    FreedVacatedAny(bs, n, slot, tm[slot]);
    FreeExact(bs, tm, slot);
    hide Injects, Free, Place, Exact, Vacated, HasRoom;
    var freed := Free(bs, slot, tm[slot]);
    PlaceFilled(freed, tag, Pointee(bs, slot));
    PlaceExact(freed, tm - {slot}, tag, Pointee(bs, slot));
  }

  lemma ReplaceKeySound<K, V>(s: State<K, V>, i: nat, k: K)
    requires Sound(s) && i < |s.values|
    ensures var r := ReplaceKeyAt(s, i, k);
            r.Done? && Sound(r.state) && r.state.values == ReplaceKey(s.values, i, k)
  {
    hide Safe, Sound, Shape, EntriesOf, SlotOfValue, TagOf, Probe, Find, Scan;
    SoundParts(s);
    SafeShape(s);
    FindIsScan(s, k);
    if Probe(s, k).None? {
      RekeySound(s, i, k);
    }
  }

  /** What re-keying value i leaves: its slot freed and the entry placed anew, under exact counters. */
  lemma RekeyedIs<K, V>(s: State<K, V>, i: nat, k: K)
    requires Sound(s) && i < |s.values| && Shape(s) && Probe(s, k).None? && !Present(s.values, k)
    ensures Safe(s)
    ensures var r, tm, slot, tag := ReplaceKeyAt(s, i, k), EntriesOf(s), SlotFor(s.groups, |s.values|, i), TagOf(s, k);
            && slot in tm && Has(|s.groups|, slot) && tm[slot].home < |s.groups| && tag.home < |s.groups| && tag.fp != 0
            && IsPow2(|s.groups|)
            && Exact(s.groups, tm)
            && var freed := Free(s.groups, slot, tm[slot]);
               && HasRoom(freed, tag.home)
               && r.Done? && Safe(r.state) && r.state.values == s.values[i := Entry(k, s.values[i].val)]
               && r.state.groups == Place(freed, tag, i)
               && Exact(r.state.groups, EntriesOf(r.state))
               && EntriesOf(r.state) == (tm - {slot})[PlaceSlot(freed, tag.home) := tag]
  {
    hide Safe, Sound, Shape, SlotOfValue, Probe, Scan;
    SoundParts(s);
    SafeShape(s);
    var tm, slot := EntriesOf(s), SlotFor(s.groups, |s.values|, i);
    SlotOfValueSound(s, i);
    assert forall t: Slot :: t in tm && t != slot ==> Pointee(s.groups, t) != Pointee(s.groups, slot);
    RoomAfterFree(s, slot, tm[slot], TagOf(s, k).home);
    ReplaceKeySafe(s, i, k);
    EntriesFit(s);
    var freed := Free(s.groups, slot, tm[slot]);
    hide EntriesOf, TagOf, Injects, Free, Place, Exact, Vacated, Filled, HasRoom, DistinctKeys, Pow2;
    RekeyedExact(s.groups, |s.values|, tm, slot, TagOf(s, k));
    RekeyedEntries(s, ReplaceKeyAt(s, i, k).state, freed, slot, PlaceSlot(freed, TagOf(s, k).home), k);
  }

  lemma RekeySound<K, V>(s: State<K, V>, i: nat, k: K)
    requires Sound(s) && i < |s.values| && Shape(s) && Probe(s, k).None? && !Present(s.values, k)
    ensures Safe(s)
    ensures var r := ReplaceKeyAt(s, i, k);
            r.Done? && Sound(r.state) && r.state.values == s.values[i := Entry(k, s.values[i].val)]
  {
    hide *;
    SoundParts(s);
    RekeyedIs(s, i, k);
    ReplaceKeyRefines(s.values, i, k);
    ReplaceKeyAbsent(s.values, i, k);
    SoundFrom(ReplaceKeyAt(s, i, k).state, EntriesOf(ReplaceKeyAt(s, i, k).state));
  }

  lemma ReplaceKeyAbsent<K, V>(vs: seq<Entry<K, V>>, i: nat, k: K)
    requires i < |vs| && !Present(vs, k)
    ensures ReplaceKey(vs, i, k) == vs[i := Entry(k, vs[i].val)]
  {
  }

  // The rest ///////////////////////////////////////////////////////////////////

  lemma ExtractAllSound<K, V>(s: State<K, V>)
    requires Sound(s)
    ensures Sound(ExtractAll(s)) && Sound(Clear(s))
  {
    hide Safe, Sound, IsEmptyIndex;
    SoundParts(s);
    ExtractAllSafe(s);
    ClearedEmpty(s.groups);
    EmptyIndexSound(ExtractAll(s));
  }

  lemma RehashSound<K, V>(s: State<K, V>, count: nat, budget: nat)
    requires Sound(s)
    ensures Sound(Rehash(s, count, budget).state) && Rehash(s, count, budget).state.values == s.values
  {
    hide Safe, Sound, IsEmptyIndex, ShiftsFor, DistinctKeys, Refilled, Rebuilt, Cleared, Pow2, Max, Min, ValidShifts;
    SoundParts(s);
    WantedFits(s, count);
    if WantedShifts(s, count) != s.shifts {
      RebuiltSound(s, WantedShifts(s, count));
    } else {
      ClearedEmpty(s.groups);
      RefilledSound(s, Cleared(s.groups), s.shifts);
    }
  }

  lemma ReserveSound<K, V>(s: State<K, V>, count: nat, budget: nat)
    requires Sound(s)
    ensures Sound(Reserve(s, count, budget).state) && Reserve(s, count, budget).state.values == s.values
  {
    hide Safe, Sound, ShiftsFor, DistinctKeys, Rebuilt, Pow2, Max, Min, ValidShifts;
    SoundParts(s);
    WantedFits(s, count);
    RebuiltSound(s, WantedShifts(s, count));
  }

  lemma SetLoadSound<K, V>(s: State<K, V>, load: Load)
    requires Sound(s) && load.den > 0
    ensures Sound(SetLoad(s, load)) && SetLoad(s, load).values == s.values
  {
    SetLoadSafe(s, load);
    hide Safe;
    assert EntriesOf(SetLoad(s, load)) == EntriesOf(s);
  }
}
