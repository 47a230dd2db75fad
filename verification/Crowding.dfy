/** Two states a table can reach in which a counter is not its count: keys that all hash alike, inserted until the
    counter of their class in their home group is full. */
module Crowding {
  import opened Probing
  import opened Groups
  import opened Counters
  import opened Bijection
  import opened Reference
  import opened Sizing
  import opened TableState
  import opened Building
  import opened Operations
  import opened Safety
  import opened Soundness
  import opened Runs
  import opened Canonical
  import opened Rebuilding
  import opened Inverse

  /** Every key hashes to 0: home group 0 and, 0 marking an empty lane, fingerprint 8, which is of class 0. */
  function Zero(k: nat): Word {
    0
  }

  const TAG: Tag := Tag(0, 8)

  ghost function NewCrowd(): State<nat, bool> {
    NewTable<nat, bool>(Zero, 32, Load(1, 1))
  }

  /** Room for 300 entries, then the keys 0, 1, ..., n - 1. */
  function Arrivals(n: nat): seq<Op<nat, bool>> {
    if n == 0 then [ReserveFor(300, 1)] else Arrivals(n - 1) + [InsertEntry(Entry(n - 1, false), 0, true)]
  }

  function Row(n: nat): (vs: seq<Entry<nat, bool>>)
    ensures |vs| == n && forall i :: 0 <= i < n ==> vs[i] == Entry(i, false)
  {
    seq(n, i => Entry(i, false))
  }

  function Alike(n: nat): (tags: seq<Tag>)
    ensures |tags| == n && forall i :: 0 <= i < n ==> tags[i] == TAG
  {
    seq(n, _ => TAG)
  }

  // The index //////////////////////////////////////////////////////////////////

  /** How many of n entries have passed the first group: all but the sixteen it holds. */
  function Past(n: nat): nat {
    if n <= LANES then 0 else n - LANES
  }

  ghost predicate FirstGroup(bs: seq<Group>, n: nat) {
    && |bs| > 0
    && (forall l :: 0 <= l < LANES ==> (bs[0].fingerprints[l] != 0 <==> l < n))
    && bs[0].overflows[0] == Min(Past(n), 255)
  }

  lemma PlaceInFirst(bs: seq<Group>, n: nat)
    requires IsPow2(|bs|) && FirstGroup(bs, n) && n < LANES && HasRoom(bs, 0)
    ensures FirstGroup(Place(bs, TAG, n), n + 1)
    ensures PlaceSlot(bs, 0) == Slot(0, n) && !Passes(|bs|, PlaceSlot(bs, 0), TAG, 0)
  {
    assert Path(|bs|, 0, 0) == 0;
    assert bs[0].fingerprints[n] == 0 && FreeLane(bs[0]) == n;
    assert FreeDepth(bs, 0, 0) == 0;
  }

  lemma PlacePastFirst(bs: seq<Group>, n: nat)
    requires IsPow2(|bs|) && FirstGroup(bs, n) && n >= LANES && HasRoom(bs, 0)
    ensures FirstGroup(Place(bs, TAG, n), n + 1)
    ensures PlaceSlot(bs, 0).group != 0 && Passes(|bs|, PlaceSlot(bs, 0), TAG, 0)
  {
    var d := FreeDepth(bs, 0, 0);
    assert Path(|bs|, 0, 0) == 0;
    assert FreeLane(bs[0]) == LANES;
    assert d > 0;
    DepthOfPath(|bs|, 0, 0);
    DepthOfPath(|bs|, 0, d);
    PlaceCounter(bs, TAG, n, 0, 0);
    FingerprintsStay(bs, n);
  }

  lemma FingerprintsStay(bs: seq<Group>, v: nat)
    requires IsPow2(|bs|) && HasRoom(bs, 0) && PlaceSlot(bs, 0).group != 0
    ensures Place(bs, TAG, v)[0].fingerprints == bs[0].fingerprints
  {
    hide FreeDepth, HasRoom, PlaceSlot;
  }

  /** n entries that hash alike, built into an empty index: the counter of their home group stops at 255, the number
      that passed does not. */
  lemma {:induction false} AlikeBuild(bs: seq<Group>, n: nat)
    requires IsPow2(|bs|) && IsEmptyIndex(bs) && n <= LANES * |bs|
    ensures |bs| > 0 && TagsFit(|bs|, Alike(n)) && Bijects(Build(bs, Alike(n)), n)
    ensures FirstGroup(Build(bs, Alike(n)), n)
    ensures var tm := TagMap(Build(bs, Alike(n)), Alike(n));
            Fits(|bs|, tm) && |Passers(|bs|, tm, 0, 0)| == Past(n)
  {
    BuildBijects(bs, Alike(n));
    if n == 0 {
      NoneBuilt(bs);
    } else {
      BuildEntries(bs, Alike(n));
      hide *;
      AlikeBuild(bs, n - 1);
      AlikePrefix(n);
      var before := Build(bs, Alike(n - 1));
      var tm := TagMap(before, Alike(n - 1));
      PassersInsert(|bs|, tm, PlaceSlot(before, 0), TAG, 0, 0);
      AlikePlaced(before, n - 1);
    }
  }

  lemma AlikePlaced(bs: seq<Group>, n: nat)
    requires IsPow2(|bs|) && FirstGroup(bs, n) && HasRoom(bs, 0)
    ensures FirstGroup(Place(bs, TAG, n), n + 1) && Class(TAG.fp) == 0 && TAG.home == 0
    ensures Past(n + 1) == Past(n) + if Passes(|bs|, PlaceSlot(bs, 0), TAG, 0) then 1 else 0
  {
    hide Place, PlaceSlot, HasRoom, FirstGroup, Passes;
    if n < LANES {
      PlaceInFirst(bs, n);
    } else {
      PlacePastFirst(bs, n);
    }
  }

  lemma AlikePrefix(n: nat)
    requires n > 0
    ensures Alike(n)[..n - 1] == Alike(n - 1) && Alike(n)[n - 1] == TAG && TAG.home == 0
  {
  }

  lemma NoneBuilt(bs: seq<Group>)
    requires IsPow2(|bs|) && IsEmptyIndex(bs)
    ensures |bs| > 0 && TagsFit(|bs|, Alike(0)) && Bijects(Build(bs, Alike(0)), 0)
    ensures FirstGroup(Build(bs, Alike(0)), 0)
    ensures var tm := TagMap(Build(bs, Alike(0)), Alike(0));
            Fits(|bs|, tm) && |Passers(|bs|, tm, 0, 0)| == 0
  {
    EmptyInjects(bs, 0);
    var tm := TagMap(bs, Alike(0));
    assert tm == map[];
    assert Passers(|bs|, tm, 0, 0) == {};
    forall l: nat | l < LANES
      ensures bs[0].fingerprints[l] == 0
    {
      assert !Full(bs, Slot(0, l));
    }
  }

  // The runs ///////////////////////////////////////////////////////////////////

  lemma {:induction false} ZeroShift(n: nat)
    ensures ShiftRight(0, n) == 0
  {
    if n > 0 {
      ZeroShift(n - 1);
    }
  }

  lemma CrowdTags(shifts: nat, n: nat)
    requires shifts <= 64
    ensures TagsFor(Zero, shifts, Row(n)) == Alike(n)
  {
    ZeroShift(shifts);
  }

  /** What the run of n arrivals comes to. */
  ghost predicate Crowd(s: State<nat, bool>, n: nat) {
    && Sound(s) && Safe(s) && IsCanonical(s)
    && s.hash == Zero && s.bits == 32 && s.hasArray && 300 <= s.capacity && s.values == Row(n)
  }

  lemma EmplaceKeeps<K, V>(s: State<K, V>, e: Entry<K, V>, budget: nat)
    requires Safe(s) && s.hasArray
    ensures var r := Emplace(s, e, budget, true).state;
            r.hash == s.hash && r.bits == s.bits && r.hasArray
  {
    hide Safe, Probe, MoveHome, Place;
  }

  lemma NextArrival(s: State<nat, bool>, n: nat)
    requires Crowd(s, n) && n < 300
    ensures Crowd(Emplace(s, Entry(n, false), 0, true).state, n + 1)
  {
    hide Safe, Sound, IsCanonical, Emplace, WithArray;
    var e := Entry(n, false);
    assert !Present(Row(n), n);
    EmplaceSafe(s, e, 0, true);
    EmplaceSound(s, e, 0, true);
    EmplaceCanonical(s, e, 0, true);
    EmplaceKeeps(s, e, 0);
    RoomNeedsNoMemory(s, e);
    assert Row(n) + [e] == Row(n + 1);
  }

  lemma FirstArrivals()
    ensures Safe(NewCrowd()) && Sound(NewCrowd())
    ensures Reserve(NewCrowd(), 300, 1).Placed? && Crowd(Reserve(NewCrowd(), 300, 1).state, 0)
  {
    var s := NewCrowd();
    NewTableSound<nat, bool>(Zero, 32, Load(1, 1));
    NewTableCanonical<nat, bool>(Zero, 32, Load(1, 1));
    SoundParts(s);
    hide Safe, Sound, IsCanonical, ShiftsFor, Rebuilt, Exact;
    ReserveSafe(s, 300, 1);
    ReserveSound(s, 300, 1);
    ReserveCanonical(s, 300, 1);
    Above300();
    ReserveFits(s, 300, 1);
    ReserveKeeps(s, 300, 1);
  }

  lemma ReserveKeeps<K, V>(s: State<K, V>, count: nat, budget: nat)
    requires Safe(s)
    ensures var r := Reserve(s, count, budget).state;
            r.hash == s.hash && r.bits == s.bits
  {
    hide Safe, ShiftsFor;
  }

  lemma Above300()
    ensures 300 <= Pow2(32)
  {
    TwoTo16();
    Pow2Sum(16, 16);
  }

  lemma {:induction false} CrowdRun(n: nat)
    requires n <= 300
    ensures Safe(NewCrowd()) && Run(NewCrowd(), Arrivals(n)).Done? && Crowd(Run(NewCrowd(), Arrivals(n)).state, n)
  {
    hide Safe, Sound, Emplace, Reserve, Crowd, Run, NewCrowd;
    FirstArrivals();
    if n == 0 {
      RunOne(NewCrowd(), ReserveFor(300, 1));
    } else {
      CrowdRun(n - 1);
      RunSnoc(NewCrowd(), Arrivals(n - 1), InsertEntry(Entry(n - 1, false), 0, true));
      NextArrival(Run(NewCrowd(), Arrivals(n - 1)).state, n - 1);
    }
  }

  /** In such a state the counter of class 0 in group 0 is the number that passed it, cut at 255. */
  lemma CrowdCounter(s: State<nat, bool>, n: nat)
    requires Crowd(s, n)
    ensures |s.groups| > 0 && FirstGroup(s.groups, n)
    ensures Fits(|s.groups|, EntriesOf(s)) && |Passers(|s.groups|, EntriesOf(s), 0, 0)| == Past(n)
  {
    SafeShape(s);
    SizeFits(s);
    EmptyGroupsEmpty(|s.groups|);
    CrowdTags(s.shifts, n);
    AlikeBuild(EmptyGroups(|s.groups|), n);
    hide Safe, Sound, Build, Capacity, FirstGroup, TagMap, TagsFor, Alike, Row;
  }

  /** A sound table whose counter of class 0 in group 0 stands at `counter` where `count` entries have passed. */
  ghost predicate Counts<K, V>(s: State<K, V>, counter: nat, count: nat) {
    && Sound(s) && |s.groups| > 0 && Fits(|s.groups|, EntriesOf(s))
    && s.groups[0].overflows[0] == counter && |Passers(|s.groups|, EntriesOf(s), 0, 0)| == count
  }

  /** 271 values are enough for a counter to get to 255: the last of as many keys that hash alike is the 255th to pass
      their home group, and the first 270 leave its counter at 254. */
  lemma Fullest()
    ensures Safe(NewCrowd())
    ensures var r, before := Run(NewCrowd(), Arrivals(271)), Run(NewCrowd(), Arrivals(270));
            && r.Done? && Counts(r.state, 255, 255) && |r.state.values| == 271
            && before.Done? && Counts(before.state, 254, 254) && |before.state.values| == 270
  {
    hide Arrivals, Safe, Sound, Run, EntriesOf;
    CrowdRun(271);
    CrowdCounter(Run(NewCrowd(), Arrivals(271)).state, 271);
    CrowdRun(270);
    CrowdCounter(Run(NewCrowd(), Arrivals(270)).state, 270);
  }

  /** A reachable, sound table with a counter below the number of entries it counts: 272 keys that hash alike leave 256
      past their home group and its counter at 255. */
  lemma Overfull()
    ensures Safe(NewCrowd())
    ensures var r := Run(NewCrowd(), Arrivals(272));
            r.Done? && Counts(r.state, 255, 256)
  {
    hide Arrivals, Safe, Sound, Run, EntriesOf;
    CrowdRun(272);
    CrowdCounter(Run(NewCrowd(), Arrivals(272)).state, 272);
  }

  /** A reachable, sound table with a counter above it: of 271 keys that hash alike the last is erased again, which
      leaves 254 entries past their home group and its counter stuck at 255. */
  lemma Stuck()
    ensures Safe(NewCrowd())
    ensures var r := Run(NewCrowd(), Arrivals(271) + [EraseByKey(270)]);
            r.Done? && Counts(r.state, 255, 254)
  {
    hide Arrivals, Safe, Run, Counts, Crowd, Emplace, EraseKey;
    CrowdRun(271);
    CrowdRun(270);
    var s := Run(NewCrowd(), Arrivals(270)).state;
    var e: Entry<nat, bool> := Entry(270, false);
    StuckAfter(s, e);
    ArrivalsStep(270);
    RunSnoc(NewCrowd(), Arrivals(270), InsertEntry(e, 0, true));
    RunSnoc(NewCrowd(), Arrivals(271), EraseByKey(270));
  }

  lemma ArrivalsStep(n: nat)
    ensures Arrivals(n + 1) == Arrivals(n) + [InsertEntry(Entry(n, false), 0, true)]
  {
  }

  /** On the index alone. */
  lemma StuckIndex(bs: seq<Group>)
    requires IsPow2(|bs|) && FirstGroup(bs, 270) && HasRoom(bs, 0)
    ensures var r := Free(Place(bs, TAG, 270), PlaceSlot(bs, 0), TAG);
            bs[0].overflows[0] == 254 && r[0].overflows[0] == 255 && !SameMetadata(r, bs)
  {
    hide Place, Free, HasRoom, PlaceSlot, Passes;
    PlacePastFirst(bs, 270);
    PlaceThenFree(bs, TAG, 270, 0);
  }

  /** One insert and one erase of a fresh key at 270 entries: the table was sound and its counter at 254, and the erase
      does not undo what the insert did to the counters. */
  lemma StuckAfter(s: State<nat, bool>, e: Entry<nat, bool>)
    requires Crowd(s, 270) && e.key == 270
    ensures Safe(Emplace(s, e, 0, true).state) && Counts(s, 254, 254)
    ensures var r := EraseKey(Emplace(s, e, 0, true).state, 270);
            && r.Done? && Counts(r.state, 255, 254) && r.state.values == s.values
            && !SameMetadata(r.state.groups, s.groups)
  {
    CrowdCounter(s, 270);
    FreshArrival(s, e);
    InsertThenEraseIs(s, e, 0);
    StuckIndex(s.groups);
    hide Safe, Sound, EntriesOf, Emplace, EraseKey, Place, Free, HasRoom, IsCanonical, SameMetadata, Passers, Row;
  }

  lemma FreshArrival(s: State<nat, bool>, e: Entry<nat, bool>)
    requires Crowd(s, 270) && e.key == 270
    ensures Sound(s) && s.hasArray && !Present(s.values, e.key) && |s.values| == 270 && |s.values| + 1 <= s.capacity
    ensures Safe(s) && s.shifts <= 64 && TagOf(s, e.key) == TAG
  {
    SafeShape(s);
    ZeroShift(s.shifts);
    hide Safe, Sound, ShiftRight, IsCanonical;
  }
}
