/** Where entries stand: an insert that finds its key brings the entry home, and no operation but a rebuild moves any
    entry it is not about. */
module Frames {
  import opened Probing
  import opened Groups
  import opened Counters
  import opened Bijection
  import opened Reference
  import opened Sizing
  import opened TableState
  import opened Building
  import opened Operations
  import opened Safety
  import opened Soundness
  import opened Replacing
  import opened Merging
  import opened Rebuilding
  import opened Inverse

  lemma SlotForIs(bs: seq<Group>, n: nat, i: nat, slot: Slot)
    requires Bijects(bs, n) && i < n && Has(|bs|, slot) && Full(bs, slot) && Pointee(bs, slot) == i
    ensures SlotFor(bs, n, i) == slot
  {
  }

  /** The entry moved home points where it did, and stands in its home group unless that is full. */
  lemma HomedPoints(bs: seq<Group>, slot: Slot, tag: Tag)
    requires IsPow2(|bs|) && Has(|bs|, slot) && Full(bs, slot) && tag.home < |bs|
    ensures var r, h := MoveHome(bs, slot, tag), HomedSlot(bs, slot, tag);
            && Full(r, h) && Pointee(r, h) == Pointee(bs, slot)
            && (h.group == tag.home || (r == bs && !HasFree(bs[tag.home])))
  {
    hide Free, LaneOf, MoveHome;
    if slot.group != tag.home && HasFree(bs[tag.home]) {
      MoveHomeSlots(bs, slot, tag);
      var to := Slot(tag.home, FreeLane(bs[tag.home]));
      MovedSlots(bs, MoveHome(bs, slot, tag), slot, to);
    } else {
      StaysHome(bs, slot, tag);
    }
  }

  lemma StaysHome(bs: seq<Group>, slot: Slot, tag: Tag)
    requires IsPow2(|bs|) && Has(|bs|, slot) && tag.home < |bs|
    requires slot.group == tag.home || !HasFree(bs[tag.home])
    ensures MoveHome(bs, slot, tag) == bs
  {
  }

  /** Every full slot but one is as it was. */
  ghost predicate Others(a: seq<Group>, b: seq<Group>, slot: Slot) {
    && |a| == |b|
    && forall t: Slot :: Has(|a|, t) && Full(a, t) && t != slot ==> Full(b, t) && Pointee(b, t) == Pointee(a, t)
  }

  lemma HomedOthers(bs: seq<Group>, slot: Slot, tag: Tag)
    requires IsPow2(|bs|) && Has(|bs|, slot) && Full(bs, slot) && tag.home < |bs|
    ensures Others(bs, MoveHome(bs, slot, tag), slot)
  {
    hide Free, LaneOf, MoveHome;
    if slot.group != tag.home && HasFree(bs[tag.home]) {
      MoveHomeSlots(bs, slot, tag);
      MovedSlots(bs, MoveHome(bs, slot, tag), slot, Slot(tag.home, FreeLane(bs[tag.home])));
    } else {
      StaysHome(bs, slot, tag);
    }
  }

  // Inserting //////////////////////////////////////////////////////////////////

  /** What an insert of a present key does to the index. */
  lemma HitIs<K, V>(s: State<K, V>, e: Entry<K, V>, budget: nat, appends: bool)
    requires Sound(s) && Present(s.values, e.key)
    ensures Safe(s) && s.hasArray && Probe(s, e.key).Some?
    ensures var r, slot, tag := Emplace(s, e, budget, appends).state, Probe(s, e.key).value, TagOf(s, e.key);
            && Has(|s.groups|, slot) && Full(s.groups, slot) && IsPow2(|s.groups|) && tag.home < |s.groups|
            && EntriesOf(s)[slot] == tag && Pointee(s.groups, slot) == Scan(s.values, e.key)
            && r == s.(groups := MoveHome(s.groups, slot, tag))
  {
    hide Safe, Sound, MoveHome, Append, Probe, Find, EntriesOf, Scan;
    SoundParts(s);
    SafeShape(s);
    FindIsScan(s, e.key);
    FoundTag(s, e.key);
    if !s.hasArray {
      NoneWithoutArray(s);
    }
  }

  /** An insert that finds its key brings the entry home: the slot a probe then finds it in is in its home group, unless
      that has no free lane. No other entry moves. */
  lemma HitAtHome<K, V>(s: State<K, V>, e: Entry<K, V>, budget: nat, appends: bool)
    requires Sound(s) && Present(s.values, e.key)
    ensures Safe(s) && Shape(s) && Probe(s, e.key).Some?
    ensures var r, tag := Emplace(s, e, budget, appends).state, TagOf(s, e.key);
            && Sound(r) && Safe(r) && Shape(r) && r.values == s.values && TagOf(r, e.key) == tag
            && tag.home < |r.groups| && Probe(r, e.key).Some?
            && (Probe(r, e.key).value.group == tag.home || !HasFree(r.groups[tag.home]))
            && Others(s.groups, r.groups, Probe(s, e.key).value)
  {
    hide Safe, Sound, MoveHome, Emplace, Probe, Find, EntriesOf, Scan, Others, HasFree, HomedSlot, TagFor;
    SoundParts(s);
    SafeShape(s);
    HitIs(s, e, budget, appends);
    var slot, tag := Probe(s, e.key).value, TagOf(s, e.key);
    MoveHomeSound(s, slot);
    var r, i := Emplace(s, e, budget, appends).state, Scan(s.values, e.key);
    SoundParts(r);
    SafeShape(r);
    HomedPoints(s.groups, slot, tag);
    HomedOthers(s.groups, slot, tag);
    PointeeInRange(s, slot);
    ProbeOfKey(r, i);
    SlotForIs(r.groups, |r.values|, i, HomedSlot(s.groups, slot, tag));
  }

  /** An insert of an absent key that does not grow puts the entry behind full groups only, in a slot that was free; no
      other entry moves. */
  lemma MissFrame<K, V>(s: State<K, V>, e: Entry<K, V>, budget: nat)
    requires Sound(s) && s.hasArray && !Present(s.values, e.key) && |s.values| + 1 <= s.capacity
    ensures Safe(s)
    ensures var r, tag := Emplace(s, e, budget, true).state, TagOf(s, e.key);
            && Sound(r) && Shape(r) && |r.groups| == |s.groups| && IsPow2(|s.groups|) && tag.home < |s.groups|
            && Probe(r, e.key).Some?
            && var p := Probe(r, e.key).value;
               && !Full(s.groups, p) && Others(s.groups, r.groups, p)
               && forall g: nat :: g < |s.groups| && Passes(|s.groups|, p, tag, g) ==> !HasFree(s.groups[g])
  {
    hide Safe, Sound, Probe, Find, Scan, Place, HasRoom, Passes, HasFree, MoveHome, TagFor, PlaceSlot;
    SoundParts(s);
    SafeShape(s);
    FindIsScan(s, e.key);
    PlacedSlotFound(s, e);
    assert Emplace(s, e, budget, true).state == Extended(s, e);
    var p, tag := PlaceSlot(s.groups, TagOf(s, e.key).home), TagOf(s, e.key);
    PlaceFilled(s.groups, tag, |s.values|);
    forall g: nat | g < |s.groups| && Passes(|s.groups|, p, tag, g)
      ensures !HasFree(s.groups[g])
    {
      PassedIsFull(s.groups, tag, g);
    }
  }

  // Erasing and re-keying //////////////////////////////////////////////////////

  /** An erase vacates one slot and turns the one of the last value to the position that freed; no entry moves. */
  lemma EraseFrame<K, V>(s: State<K, V>, i: nat)
    requires Sound(s) && i < |s.values|
    ensures Safe(s)
    ensures var r, slot := EraseAt(s, i), SlotFor(s.groups, |s.values|, i);
            && r.Done? && Sound(r.state)
            && Vacated(s.groups, r.state.groups, slot, |s.values| - 1)
            && Exact(r.state.groups, EntriesOf(s) - {slot})
  {
    hide Safe, Sound, Shape, Injects, Free, Exact, EntriesOf, Vacated, TagOf, SlotOfValue, Repoint;
    SoundParts(s);
    SafeShape(s);
    EntriesFit(s);
    SlotOfValueSound(s, i);
    EraseAtSound(s, i);
    var slot, tm, last := SlotFor(s.groups, |s.values|, i), EntriesOf(s), |s.values| - 1;
    FreeExact(s.groups, tm, slot);
    if i == last {
      FreedVacated(s.groups, |s.values|, slot, tm[slot]);
    } else {
      SlotForEntry(s, last);
      var u, freed := SlotFor(s.groups, |s.values|, last), Free(s.groups, slot, tm[slot]);
      LastRepointed(s.groups, |s.values|, tm, slot, u);
      RepointExact(freed, tm - {slot}, SlotOfValue(freed, tm[u], last, 0).value, i);
    }
  }

  /** A re-keying moves no entry but its own. */
  lemma RekeyFrame<K, V>(s: State<K, V>, i: nat, k: K)
    requires Sound(s) && i < |s.values| && !Present(s.values, k)
    ensures Safe(s)
    ensures var r, slot := ReplaceKeyAt(s, i, k), SlotFor(s.groups, |s.values|, i);
            && r.Done? && |r.state.groups| == |s.groups|
            && Others(s.groups, r.state.groups, slot)
  {
    hide Safe, Sound, Shape, Probe, Find, Scan, Free, Place, HasRoom, EntriesOf, TagFor, Exact, ReplaceKeyAt, PlaceSlot,
         Injects, Pow2;
    SoundParts(s);
    SafeShape(s);
    FindIsScan(s, k);
    RekeyedIs(s, i, k);
    var slot, tag := SlotFor(s.groups, |s.values|, i), TagOf(s, k);
    FreedSlots(s.groups, slot, EntriesOf(s)[slot]);
    FreedOthers(s.groups, slot, EntriesOf(s)[slot], tag, i);
  }

  lemma FreedOthers(bs: seq<Group>, slot: Slot, was: Tag, tag: Tag, v: nat)
    requires IsPow2(|bs|) && Has(|bs|, slot) && was.home < |bs| && tag.home < |bs| && tag.fp != 0
    requires HasRoom(Free(bs, slot, was), tag.home)
    ensures Others(bs, Place(Free(bs, slot, was), tag, v), slot)
  {
    hide Place, HasRoom, Free, PlaceSlot;
    FreedSlots(bs, slot, was);
    PlaceFilled(Free(bs, slot, was), tag, v);
  }

  // A changed key //////////////////////////////////////////////////////////////

  /** The fingerprint kept for value i is the one of its key. */
  ghost predicate Marked<K, V>(s: State<K, V>, i: nat)
    requires Safe(s) && i < |s.values|
  {
    var u := SlotFor(s.groups, |s.values|, i);
    s.groups[u.group].fingerprints[u.lane] == TagOf(s, s.values[i].key).fp
  }

  lemma SlotOfMarked<K, V>(s: State<K, V>, i: nat)
    requires Safe(s) && i < |s.values|
    ensures var r := SlotOfValue(s.groups, TagOf(s, s.values[i].key), i, 0);
            r == if Marked(s, i) then Some(SlotFor(s.groups, |s.values|, i)) else None
  {
    hide SlotOfValue, TagFor, Shape;
    SafeShape(s);
    var u, tag := SlotFor(s.groups, |s.values|, i), TagOf(s, s.values[i].key);
    var r := SlotOfValue(s.groups, tag, i, 0);
    if r.Some? {
      SlotForIs(s.groups, |s.values|, i, r.value);
    }
    if Marked(s, i) {
      SlotOfValueFound(s.groups, tag, i, u, 0);
    }
  }

  /** The same of the last value once another slot has been freed. */
  lemma LastMarked<K, V>(s: State<K, V>, slot: Slot, tag: Tag)
    requires Safe(s) && Has(|s.groups|, slot) && Full(s.groups, slot) && tag.home < |s.groups|
    requires Pointee(s.groups, slot) < |s.values| - 1
    ensures var last := |s.values| - 1;
            SlotOfValue(Free(s.groups, slot, tag), TagOf(s, s.values[last].key), last, 0).Some? <==> Marked(s, last)
  {
    hide SlotOfValue, TagFor, Shape, Free;
    SafeShape(s);
    var last := |s.values| - 1;
    var u, lastTag := SlotFor(s.groups, |s.values|, last), TagOf(s, s.values[last].key);
    var freed := Free(s.groups, slot, tag);
    FreedSlots(s.groups, slot, tag);
    var r := SlotOfValue(freed, lastTag, last, 0);
    if r.Some? {
      SlotForIs(s.groups, |s.values|, last, r.value);
    }
    if Marked(s, last) {
      SlotOfValueFound(freed, lastTag, last, u, 0);
    }
  }

  /** An erase by position reports a changed key if and only if the fingerprint kept for the value, or for the last one,
      is not that of its key. */
  lemma KeyChangedWhen<K, V>(s: State<K, V>, i: nat)
    requires Safe(s) && i < |s.values|
    ensures EraseAt(s, i).KeyChanged? <==> !Marked(s, i) || !Marked(s, |s.values| - 1)
  {
    hide Safe, SlotOfValue, TagFor, Free, Marked, Repoint, RemoveAt;
    SafeShape(s);
    SlotOfMarked(s, i);
    var u, tag := SlotFor(s.groups, |s.values|, i), TagOf(s, s.values[i].key);
    if Marked(s, i) && i != |s.values| - 1 {
      LastMarked(s, u, tag);
    }
  }

  /** And a re-keying if and only if its new key is not found and the fingerprint kept for the value is not that of its
      key. */
  lemma RekeyChangedWhen<K, V>(s: State<K, V>, i: nat, k: K)
    requires Safe(s) && i < |s.values|
    ensures Shape(s)
    ensures ReplaceKeyAt(s, i, k).KeyChanged? <==> Probe(s, k).None? && !Marked(s, i)
  {
    hide Safe, SlotOfValue, TagFor, Free, Place, HasRoom, Marked, Probe;
    SafeShape(s);
    SlotOfMarked(s, i);
  }

  // Filled again ///////////////////////////////////////////////////////////////

  /** An emptied array filled again is, whatever stood in it, what a new array of that size gets. */
  lemma RefilledVisible<K, V>(s: State<K, V>, base: seq<Group>, shifts: nat)
    requires ValidLoad(s.load) && ValidShifts(shifts, s.bits) && |base| == Pow2(64 - shifts) && IsEmptyIndex(base)
    requires |s.values| <= LANES * |base|
    ensures SameVisible(Refilled(s, base, shifts).groups, Rebuilt(s, shifts).groups)
  {
    hide Build, SameVisible, Capacity, Pow2, IsEmptyIndex;
    EmptyVisible(base);
    BuildVisible(base, EmptyGroups(|base|), TagsFor(s.hash, shifts, s.values));
  }

  lemma EmptyVisible(bs: seq<Group>)
    requires IsEmptyIndex(bs)
    ensures SameVisible(bs, EmptyGroups(|bs|))
  {
    forall g | 0 <= g < |bs|
      ensures bs[g].fingerprints == EMPTY_GROUP.fingerprints && bs[g].overflows == EMPTY_GROUP.overflows
    {
      forall l: nat | l < LANES
        ensures bs[g].fingerprints[l] == 0
      {
        assert !Full(bs, Slot(g, l));
      }
    }
  }

  /** The index replace leaves is one filled afresh from the values that remain. */
  lemma ReplaceIsRebuild<K, V>(s: State<K, V>, container: seq<Entry<K, V>>, budget: nat)
    requires Safe(s) && ReplaceWith(s, container, budget).Placed?
    ensures var r := ReplaceWith(s, container, budget).state;
            ValidLoad(r.load) && r.shifts <= 64 && SameVisible(r.groups, Rebuilt(r, r.shifts).groups)
  {
    hide Safe, Build, SameVisible, Capacity, Pow2, IsEmptyIndex, EmptiedFor, ValidShifts, Dedup, Base, ShiftsFor,
         TagFor;
    SafeShape(s);
    var base, shifts := EmptiedFor(s, |container|).0, EmptiedFor(s, |container|).1;
    BaseSmaller(base, shifts, s.bits, |container|, |Dedup(container, 0)|);
    BaseParts(base, shifts, s.bits, |Dedup(container, 0)|);
    RefilledVisible(s.(values := Dedup(container, 0)), base, shifts);
  }

  lemma BaseParts(base: seq<Group>, shifts: nat, bits: nat, n: nat)
    requires Base(base, shifts, bits, n)
    ensures ValidShifts(shifts, bits) && shifts <= 64 && |base| == Pow2(64 - shifts) && IsEmptyIndex(base)
    ensures n <= LANES * |base|
  {
    hide IsEmptyIndex, Pow2;
  }

  /** So is the one of a source that a merge took something from; one it took nothing from keeps its own. */
  lemma SourceIsRebuild<K, V>(s: State<K, V>, kept: seq<Entry<K, V>>)
    requires Safe(s) && |kept| <= |s.values|
    ensures var r := SourceAfter(s, kept);
            && ValidLoad(r.load) && r.shifts <= 64
            && if |kept| == |s.values| then r == s else SameVisible(r.groups, Rebuilt(r, r.shifts).groups)
  {
    hide Safe, Build, SameVisible, Capacity, Pow2, IsEmptyIndex, Cleared, TagFor, ValidShifts;
    SafeShape(s);
    SizeFits(s);
    ClearedEmpty(s.groups);
    if |kept| != |s.values| {
      RefilledVisible(s.(values := kept), Cleared(s.groups), s.shifts);
    }
  }

  // Nothing to do //////////////////////////////////////////////////////////////

  /** An erase of an absent key, a re-keying to a present one, and clearing an empty table change nothing at all. */
  lemma NothingToDo<K, V>(s: State<K, V>, k: K, i: nat)
    requires Sound(s)
    ensures Safe(s)
    ensures !Present(s.values, k) ==> EraseKey(s, k) == Done(s)
    ensures Present(s.values, k) && i < |s.values| ==> ReplaceKeyAt(s, i, k) == Done(s)
    ensures s.values == [] ==> Clear(s) == s
  {
    hide Safe, Sound, Probe, Find, Present, EraseSlot, Place, Free, SlotOfValue;
    SoundParts(s);
    SafeShape(s);
    FindIsScan(s, k);
  }
}
