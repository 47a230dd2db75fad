/** Erasing a key just inserted undoes the insert. */
module Inverse {
  import opened Probing
  import opened Groups
  import opened Counters
  import opened Bijection
  import opened Reference
  import opened TableState
  import opened Operations
  import opened Safety
  import opened Soundness

  /** The slot a fresh key was placed in is the one a probe for it finds. */
  lemma PlacedSlotFound<K, V>(s: State<K, V>, e: Entry<K, V>)
    requires Sound(s) && s.hasArray && !Present(s.values, e.key) && |s.values| + 1 <= s.capacity
    ensures HasRoom(s.groups, TagOf(s, e.key).home) && Sound(Extended(s, e))
    ensures Shape(Extended(s, e))
    ensures Probe(Extended(s, e), e.key) == Some(PlaceSlot(s.groups, TagOf(s, e.key).home))
  {
    PlaceSound(s, e);
    var r := Extended(s, e);
    SafeShape(s);
    SafeShape(r);
    FindIsScan(r, e.key);
    ScanOfKey(r.values, |s.values|);
    PlaceFilled(s.groups, TagOf(s, e.key), |s.values|);
    hide Sound, Safe, Shape, Exact, Place, PlaceSlot, HasRoom, TagOf, Find, DistinctKeys;
  }

  /** Insert and erase of a fresh key, without a growth in between, give back the values, and give back every
      fingerprint and counter exactly when no counter the insert incremented stood at 254. */
  lemma InsertThenErase<K, V>(s: State<K, V>, e: Entry<K, V>, budget: nat)
    requires Sound(s) && s.hasArray && !Present(s.values, e.key) && |s.values| + 1 <= s.capacity
    ensures Safe(s) && HasRoom(s.groups, TagOf(s, e.key).home)
    ensures Emplace(s, e, budget, true).Placed? && Safe(Emplace(s, e, budget, true).state)
    ensures var r := EraseKey(Emplace(s, e, budget, true).state, e.key);
            && r.Done?
            && r.state.values == s.values
            && (SameMetadata(r.state.groups, s.groups) <==> NoneAboutToStick(s.groups, TagOf(s, e.key)))
  {
    hide Safe, Sound, Shape, Place, HasRoom, Probe, Find, Scan, SameMetadata, NoneAboutToStick;
    SoundParts(s);
    SafeShape(s);
    FindIsScan(s, e.key);
    EmplaceSafe(s, e, budget, true);
    PlacedSlotFound(s, e);
    PlaceThenFreeRestores(s.groups, TagOf(s, e.key), |s.values|);
    assert Emplace(s, e, budget, true).state == Extended(s, e);
    PlaceFilled(s.groups, TagOf(s, e.key), |s.values|);
    hide TagOf, Free, Emplace;
    assert RemoveAt(Extended(s, e).values, |s.values|) == s.values;
  }

  /** Slot for slot the index is back as it was. */
  lemma SlotsRestored(bs: seq<Group>, tag: Tag, v: nat)
    requires IsPow2(|bs|) && tag.home < |bs| && HasRoom(bs, tag.home)
    ensures var r := Free(Place(bs, tag, v), PlaceSlot(bs, tag.home), tag);
            |r| == |bs| && forall t: Slot :: Has(|bs|, t) ==>
              Full(r, t) == Full(bs, t) && (Full(bs, t) ==> Pointee(r, t) == Pointee(bs, t))
  {
    var p := PlaceSlot(bs, tag.home);
    var r := Free(Place(bs, tag, v), p, tag);
    forall t: Slot | Has(|bs|, t)
      ensures Full(r, t) == Full(bs, t) && (Full(bs, t) ==> Pointee(r, t) == Pointee(bs, t))
    {
      PlaceThenFree(bs, tag, v, t.group);
    }
  }

  /** The table after the insert and the erase: the same entries in the same slots. */
  lemma InsertThenEraseIs<K, V>(s: State<K, V>, e: Entry<K, V>, budget: nat)
    requires Sound(s) && s.hasArray && !Present(s.values, e.key) && |s.values| + 1 <= s.capacity
    ensures Safe(s) && HasRoom(s.groups, TagOf(s, e.key).home) && IsPow2(|s.groups|)
    ensures Safe(Emplace(s, e, budget, true).state)
    ensures var r, tag := EraseKey(Emplace(s, e, budget, true).state, e.key), TagOf(s, e.key);
            && r.Done? && Sound(r.state)
            && r.state == s.(groups := Free(Place(s.groups, tag, |s.values|), PlaceSlot(s.groups, tag.home), tag))
            && EntriesOf(r.state) == EntriesOf(s)
  {
    hide Safe, Sound, Shape, Place, HasRoom, Probe, Find, Scan, EntriesOf;
    SoundParts(s);
    SafeShape(s);
    FindIsScan(s, e.key);
    EmplaceSafe(s, e, budget, true);
    PlacedSlotFound(s, e);
    assert Emplace(s, e, budget, true).state == Extended(s, e);
    EraseKeySound(Extended(s, e), e.key);
    PlaceFilled(s.groups, TagOf(s, e.key), |s.values|);
    SlotsRestored(s.groups, TagOf(s, e.key), |s.values|);
    hide TagOf, Free, Emplace;
    assert RemoveAt(Extended(s, e).values, |s.values|) == s.values;
    var r := EraseKey(Extended(s, e), e.key).state;
    SoundParts(r);
    SameEntriesIn(s, r);
  }

  lemma SameEntriesIn<K, V>(s: State<K, V>, r: State<K, V>)
    requires Safe(s) && Safe(r) && r == s.(groups := r.groups) && |r.groups| == |s.groups|
    requires forall t: Slot :: Has(|s.groups|, t) ==>
               Full(r.groups, t) == Full(s.groups, t)
               && (Full(s.groups, t) ==> Pointee(r.groups, t) == Pointee(s.groups, t))
    ensures EntriesOf(r) == EntriesOf(s)
  {
    hide Safe, EntriesOf, Full, Pointee, TagFor;
  }
}
