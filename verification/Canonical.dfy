/** Insert-only canonicity: without an erase, the index is the one a rebuild from the values gives. */
module Canonical {
  import opened Probing
  import opened Groups
  import opened Counters
  import opened Bijection
  import opened Reference
  import opened Sizing
  import opened TableState
  import opened Building
  import opened Operations
  import opened Safety
  import opened Soundness
  import opened Runs

  /** An entry away from home has a full home group. */
  ghost predicate HomesFull(bs: seq<Group>, tags: seq<Tag>)
    requires TagsFit(|bs|, tags)
  {
    forall t: Slot :: Has(|bs|, t) && Full(bs, t) && Pointee(bs, t) < |tags| ==>
      t.group == tags[Pointee(bs, t)].home || !HasFree(bs[tags[Pointee(bs, t)].home])
  }

  lemma PlaceKeepsFull(bs: seq<Group>, tag: Tag, v: nat, g: nat)
    requires IsPow2(|bs|) && tag.home < |bs| && HasRoom(bs, tag.home) && g < |bs| && !HasFree(bs[g])
    ensures !HasFree(Place(bs, tag, v)[g])
  {
    assert Place(bs, tag, v)[g].fingerprints == bs[g].fingerprints;
  }

  lemma PlaceHomesFull(bs: seq<Group>, tags: seq<Tag>, tag: Tag)
    requires IsPow2(|bs|) && TagsFit(|bs|, tags) && HomesFull(bs, tags) && Bijects(bs, |tags|)
    requires tag.home < |bs| && tag.fp != 0 && HasRoom(bs, tag.home)
    ensures HomesFull(Place(bs, tag, |tags|), tags + [tag])
  {
    var r, p := Place(bs, tag, |tags|), PlaceSlot(bs, tag.home);
    PlaceFilled(bs, tag, |tags|);
    assert p.group == tag.home || !HasFree(bs[tag.home]) by {
      assert Path(|bs|, tag.home, 0) == tag.home;
    }
    forall t: Slot | Has(|bs|, t) && Full(r, t) && Pointee(r, t) < |tags| + 1
      ensures var home := (tags + [tag])[Pointee(r, t)].home; t.group == home || !HasFree(r[home])
    {
      hide Place, HasRoom, HasFree, Full, Pointee, FreeLane;
      var home := (tags + [tag])[Pointee(r, t)].home;
      if t.group != home {
        assert t != p ==> Pointee(bs, t) < |tags|;
        PlaceKeepsFull(bs, tag, |tags|, home);
      }
    }
  }

  lemma {:induction false} BuildHomesFull(bs: seq<Group>, tags: seq<Tag>)
    requires IsPow2(|bs|) && TagsFit(|bs|, tags) && IsEmptyIndex(bs) && |tags| <= LANES * |bs|
    ensures HomesFull(Build(bs, tags), tags)
  {
    if tags == [] {
      NoneFull(bs);
    } else {
      hide *;
      BuildLast(bs, tags);
      var last := |tags| - 1;
      BuildHomesFull(bs, tags[..last]);
      PlaceHomesFull(Build(bs, tags[..last]), tags[..last], tags[last]);
    }
  }

  lemma NoneFull(bs: seq<Group>)
    requires IsPow2(|bs|) && IsEmptyIndex(bs)
    ensures Build(bs, []) == bs && HomesFull(bs, [])
  {
  }

  /** A build is a shorter one and a placement that finds room. */
  lemma BuildLast(bs: seq<Group>, tags: seq<Tag>)
    requires IsPow2(|bs|) && TagsFit(|bs|, tags) && IsEmptyIndex(bs) && |tags| <= LANES * |bs| && tags != []
    ensures var last := |tags| - 1;
            var before := Build(bs, tags[..last]);
            && tags == tags[..last] + [tags[last]]
            && |tags[..last]| == last <= LANES * |bs|
            && TagsFit(|bs|, tags[..last])
            && tags[last].home < |bs| && tags[last].fp != 0
            && Bijects(before, last)
            && HasRoom(before, tags[last].home)
            && Build(bs, tags) == Place(before, tags[last], last)
  {
    hide Place, HasRoom, IsEmptyIndex, Injects;
    BuildBijects(bs, tags);
    BuildBijects(bs, tags[..|tags| - 1]);
  }

  /** The index is the one a freshly allocated array gets when it is filled from the values. */
  ghost predicate IsCanonical<K, V>(s: State<K, V>)
    requires Safe(s)
  {
    s.groups == Rebuilt(s, s.shifts).groups
  }

  /** In a canonical table a hit has nowhere to move: either it is at home or its home is full. */
  lemma NothingMoves<K, V>(s: State<K, V>, slot: Slot)
    requires Sound(s) && IsCanonical(s) && Has(|s.groups|, slot) && Full(s.groups, slot)
    ensures MoveHome(s.groups, slot, EntriesOf(s)[slot]) == s.groups
  {
    hide Safe, Sound, Capacity, Injects, Exact, DistinctKeys;
    SoundParts(s);
    SafeShape(s);
    NoMoreThanSlots(s.groups, |s.values|);
    EmptyGroupsEmpty(|s.groups|);
    BuildHomesFull(EmptyGroups(|s.groups|), TagsFor(s.hash, s.shifts, s.values));
    PointeeInRange(s, slot);
    hide Build, HasFree;
  }

  lemma ExtendedCanonical<K, V>(s: State<K, V>, e: Entry<K, V>)
    requires Safe(s) && IsCanonical(s) && HasRoom(s.groups, TagOf(s, e.key).home)
    ensures Extended(s, e).groups == Rebuilt(Extended(s, e), s.shifts).groups
  {
    hide Safe, Capacity, TagFor, Place;
    SafeShape(s);
    var tags, n := TagsFor(s.hash, s.shifts, s.values + [e]), |s.values|;
    ExtendedTags(s.hash, s.shifts, s.values, e);
    assert tags[..n] == TagsFor(s.hash, s.shifts, s.values);
    assert tags[..n + 1] == tags;
    BuildStep(EmptyGroups(|s.groups|), tags, n);
  }

  lemma AppendCanonical<K, V>(s: State<K, V>, e: Entry<K, V>, budget: nat)
    requires Safe(s) && s.hasArray && IsCanonical(s)
    ensures Safe(Append(s, e, budget).state) && IsCanonical(Append(s, e, budget).state)
  {
    hide Safe, Place, Build, Capacity, HasRoom, TagFor;
    SafeShape(s);
    AppendSafe(s, e, budget);
    if |s.values| + 1 <= s.capacity {
      RoomToAppend(s, e.key);
      ExtendedCanonical(s, e);
    }
  }

  lemma EmplaceCanonical<K, V>(s: State<K, V>, e: Entry<K, V>, budget: nat, appends: bool)
    requires Sound(s) && IsCanonical(s)
    ensures Safe(Emplace(s, e, budget, appends).state) && IsCanonical(Emplace(s, e, budget, appends).state)
  {
    hide Safe, Sound, Append, MoveHome, Probe, Build, EntriesOf, Capacity;
    SoundParts(s);
    SafeShape(s);
    EmplaceSafe(s, e, budget, appends);
    if s.hasArray || budget > 0 {
      var t := WithArray(s);
      WithArraySafe(s);
      WithArraySound(s);
      SafeShape(t);
      if Probe(t, e.key).Some? {
        FoundTag(t, e.key);
        NothingMoves(t, Probe(t, e.key).value);
      } else if appends {
        AppendCanonical(t, e, if s.hasArray then budget else budget - 1);
      }
    }
  }

  lemma ReserveCanonical<K, V>(s: State<K, V>, count: nat, budget: nat)
    requires Safe(s) && IsCanonical(s)
    ensures Safe(Reserve(s, count, budget).state) && IsCanonical(Reserve(s, count, budget).state)
  {
    hide Safe, Build, ShiftsFor, Capacity;
    SafeShape(s);
    ReserveSafe(s, count, budget);
  }

  ghost predicate InsertsAndReserves<K, V>(ops: seq<Op<K, V>>) {
    forall i :: 0 <= i < |ops| ==> ops[i].InsertEntry? || ops[i].ReserveFor?
  }

  /** After any run of inserts, of new and of present keys, and of reserves, with any of them failing, the
      fingerprints, value indices and counters are those of an index built afresh from the values. */
  lemma {:induction false} InsertOnlyRun<K, V>(s: State<K, V>, ops: seq<Op<K, V>>)
    requires Sound(s) && IsCanonical(s) && InsertsAndReserves(ops)
    ensures var r := Run(s, ops);
            r.Done? && Safe(r.state) && IsCanonical(r.state)
    decreases |ops|
  {
    hide Safe, Sound, IsCanonical, Emplace, Reserve, ReferenceStep;
    SoundParts(s);
    if ops != [] {
      StepSafe(s, ops[0]);
      StepSound(s, ops[0]);
      match ops[0] {
        case InsertEntry(e, budget, appends) => EmplaceCanonical(s, e, budget, appends);
        case ReserveFor(count, budget) => ReserveCanonical(s, count, budget);
      }
      InsertOnlyRun(Step(s, ops[0]).state, ops[1..]);
    }
  }

  lemma NewTableCanonical<K, V>(hash: K -> Word, bits: nat, load: Load)
    requires ValidBits(bits) && ValidLoad(load)
    ensures var s := NewTable<K, V>(hash, bits, load); Sound(s) && IsCanonical(s)
  {
    NewTableSound<K, V>(hash, bits, load);
    assert Pow2(2) == 4;
  }
}
