/** The table as a value: its fields, the two tiers of invariant, and what a lookup computes. */
module TableState {
  import opened Probing
  import opened Groups
  import opened Counters
  import opened Bijection
  import opened Reference
  import opened Sizing

  datatype Option<+T> = None | Some(value: T)

  /** A table that has not allocated an index reads the shared sentinel: four empty groups. */
  datatype State<!K(==), V> = State(
    hash: K -> Word,
    bits: nat,
    load: Load,
    values: seq<Entry<K, V>>,
    groups: seq<Group>,
    shifts: nat,
    hasArray: bool,
    capacity: nat)

  function EmptyGroups(n: nat): (bs: seq<Group>)
    ensures |bs| == n
  {
    seq(n, _ => EMPTY_GROUP)
  }

  ghost predicate Shape<K, V>(s: State<K, V>) {
    && ValidLoad(s.load)
    && ValidShifts(s.shifts, s.bits)
    && |s.groups| == Pow2(64 - s.shifts)
    && if s.hasArray then s.capacity == Capacity(s.load, s.bits, LANES * |s.groups|)
       else s.shifts == INITIAL_SHIFTS && s.capacity == 0 && s.groups == EmptyGroups(4)
  }

  /** The lower tier: what a checked load of an index from outside establishes. Fingerprints and counters
      may be anything. */
  ghost predicate Safe<K, V>(s: State<K, V>) {
    Shape(s) && Bijects(s.groups, |s.values|)
  }

  function TagFor<K>(hash: K -> Word, shifts: nat, k: K): (tag: Tag)
    requires shifts <= 64
    ensures tag.home < Pow2(64 - shifts) && tag.fp != 0
  {
    Tag(Home(hash(k), shifts), Fingerprint(hash(k)))
  }

  function TagOf<K, V>(s: State<K, V>, k: K): (tag: Tag)
    requires s.shifts <= 64
    ensures tag.home < Pow2(64 - s.shifts) && tag.fp != 0
  {
    TagFor(s.hash, s.shifts, k)
  }

  function TagsFor<K, V>(hash: K -> Word, shifts: nat, values: seq<Entry<K, V>>): (tags: seq<Tag>)
    requires shifts <= 64
    ensures |tags| == |values|
    ensures forall i :: 0 <= i < |values| ==> tags[i] == TagFor(hash, shifts, values[i].key)
  {
    seq(|values|, i requires 0 <= i < |values| => TagFor(hash, shifts, values[i].key))
  }

  /** What the full slots of an index hold when value i has tag tags[i]. */
  ghost function TagMap(bs: seq<Group>, tags: seq<Tag>): (tm: Entries)
    requires forall t: Slot :: Has(|bs|, t) && Full(bs, t) ==> Pointee(bs, t) < |tags|
    ensures forall t: Slot :: t in tm <==> Has(|bs|, t) && Full(bs, t)
    ensures forall t: Slot :: t in tm ==> tm[t] == tags[Pointee(bs, t)]
  {
    map t | t in FullSlots(bs) :: tags[Pointee(bs, t)]
  }

  /** The entries the index ought to hold. */
  ghost function EntriesOf<K, V>(s: State<K, V>): (tm: Entries)
    requires Safe(s)
    ensures forall t: Slot :: t in tm <==> Has(|s.groups|, t) && Full(s.groups, t)
    ensures forall t: Slot :: t in tm ==> Pointee(s.groups, t) < |s.values|
    ensures forall t: Slot :: t in tm ==> tm[t] == TagOf(s, s.values[Pointee(s.groups, t)].key)
  {
    TagMap(s.groups, TagsFor(s.hash, s.shifts, s.values))
  }

  /** The upper tier: keys are distinct, fingerprints are those of the keys, counters are exact. */
  ghost predicate Sound<K, V>(s: State<K, V>) {
    Safe(s) && DistinctKeys(s.values) && Exact(s.groups, EntriesOf(s))
  }

  // Lookup by key /////////////////////////////////////////////////////////////

  predicate Matches<K(==), V>(values: seq<Entry<K, V>>, g: Group, lane: nat, fp: Byte, k: K)
    requires lane < LANES
  {
    g.fingerprints[lane] == fp && g.index[lane] < |values| && values[g.index[lane]].key == k
  }

  /** The lowest lane from `from` on that holds the key, or LANES. */
  function KeyLane<K(==), V>(values: seq<Entry<K, V>>, g: Group, fp: Byte, k: K, from: nat): (lane: nat)
    requires from <= LANES
    ensures from <= lane <= LANES
    ensures lane < LANES ==> Matches(values, g, lane, fp, k)
    ensures forall l :: from <= l < lane ==> !Matches(values, g, l, fp, k)
    decreases LANES - from
  {
    if from == LANES || Matches(values, g, from, fp, k) then from else KeyLane(values, g, fp, k, from + 1)
  }

  /** Where a probe for `k` stops, from depth `d` on. */
  function ProbeFrom<K(==), V>(values: seq<Entry<K, V>>, bs: seq<Group>, tag: Tag, k: K, d: nat): (r: Option<Slot>)
    requires tag.home < |bs| && d < |bs|
    ensures r.Some? ==> Has(|bs|, r.value) && Matches(values, bs[r.value.group], r.value.lane, tag.fp, k)
    decreases |bs| - d
  {
    var g := Path(|bs|, tag.home, d);
    var lane := KeyLane(values, bs[g], tag.fp, k, 0);
    if lane < LANES then Some(Slot(g, lane))
    else if bs[g].overflows[Class(tag.fp)] == 0 || d == |bs| - 1 then None
    else ProbeFrom(values, bs, tag, k, d + 1)
  }

  ghost function Probe<K, V>(s: State<K, V>, k: K): (r: Option<Slot>)
    requires Shape(s)
    ensures r.Some? ==> Has(|s.groups|, r.value) && Full(s.groups, r.value)
  {
    ProbeFrom(s.values, s.groups, TagOf(s, k), k, 0)
  }

  /** What find returns: the position of the value, or the number of values. */
  ghost function Find<K, V>(s: State<K, V>, k: K): nat
    requires Shape(s)
  {
    match Probe(s, k)
    case Some(slot) => Pointee(s.groups, slot)
    case None => |s.values|
  }

  /** No slot but `slot` answers a probe for `k`. */
  ghost predicate OnlyHit<K, V>(values: seq<Entry<K, V>>, bs: seq<Group>, fp: Byte, k: K, slot: Slot) {
    && Has(|bs|, slot)
    && Matches(values, bs[slot.group], slot.lane, fp, k)
    && forall t: Slot :: Has(|bs|, t) && Matches(values, bs[t.group], t.lane, fp, k) ==> t == slot
  }

  /** The lane a group answers with, if any, is that of the slot. */
  lemma OnlyHitLane<K, V>(values: seq<Entry<K, V>>, bs: seq<Group>, fp: Byte, k: K, slot: Slot, g: nat)
    requires OnlyHit(values, bs, fp, k, slot) && g < |bs|
    ensures var lane := KeyLane(values, bs[g], fp, k, 0);
            if g == slot.group then lane == slot.lane && lane < LANES else lane == LANES
  {
    var lane := KeyLane(values, bs[g], fp, k, 0);
    hide KeyLane, Matches;
    if lane < LANES {
      assert Slot(g, lane) == slot;
    }
  }

  /** With exact counters the one slot that answers is reached: no counter before its group is zero. */
  lemma {:induction false} ProbeReaches<K, V>(
    values: seq<Entry<K, V>>, bs: seq<Group>, tm: Entries, k: K, slot: Slot, d: nat)
    requires Exact(bs, tm) && slot in tm && OnlyHit(values, bs, tm[slot].fp, k, slot)
    requires d <= Depth(|bs|, tm[slot].home, slot.group)
    ensures ProbeFrom(values, bs, tm[slot], k, d) == Some(slot)
    decreases |bs| - d
  {
    hide OnlyHit, KeyLane, Matches, CountersExact, Path;
    var tag := tm[slot];
    var g := Path(|bs|, tag.home, d);
    DepthOfPath(|bs|, tag.home, d);
    OnlyHitLane(values, bs, tag.fp, k, slot, g);
    if g != slot.group {
      NoWrap(bs, tm, slot, g);
      ProbeReaches(values, bs, tm, k, slot, d + 1);
    }
  }

  /** No counter for the tag's class is zero from depth `d` to the group of the slot. */
  ghost predicate Open(bs: seq<Group>, tag: Tag, slot: Slot, d: nat)
    requires IsPow2(|bs|) && tag.home < |bs| && Has(|bs|, slot)
  {
    forall g: nat :: g < |bs| && d <= Depth(|bs|, tag.home, g) < Depth(|bs|, tag.home, slot.group) ==>
      bs[g].overflows[Class(tag.fp)] != 0
  }

  lemma OpenStep(bs: seq<Group>, tag: Tag, slot: Slot, d: nat)
    requires IsPow2(|bs|) && tag.home < |bs| && Has(|bs|, slot) && d < Depth(|bs|, tag.home, slot.group)
    ensures Open(bs, tag, slot, d)
       <==> bs[Path(|bs|, tag.home, d)].overflows[Class(tag.fp)] != 0 && Open(bs, tag, slot, d + 1)
  {
    DepthOfPath(|bs|, tag.home, d);
    forall g: nat | g < |bs|
      ensures Path(|bs|, tag.home, Depth(|bs|, tag.home, g)) == g
    {
    }
    hide Path, Depth;
  }

  /** Over any counters at all, the one slot that answers is found if and only if none before it is zero: a probe stops
      at the first group that nothing of the class has passed. */
  lemma {:induction false} ProbeStops<K, V>(
    values: seq<Entry<K, V>>, bs: seq<Group>, tag: Tag, k: K, slot: Slot, d: nat)
    requires IsPow2(|bs|) && tag.home < |bs| && OnlyHit(values, bs, tag.fp, k, slot)
    requires d <= Depth(|bs|, tag.home, slot.group)
    ensures ProbeFrom(values, bs, tag, k, d) == if Open(bs, tag, slot, d) then Some(slot) else None
    decreases |bs| - d
  {
    hide OnlyHit, KeyLane, Matches, Path, Open;
    HasOnlyHit(values, bs, tag.fp, k, slot);
    var g := Path(|bs|, tag.home, d);
    DepthOfPath(|bs|, tag.home, d);
    OnlyHitLane(values, bs, tag.fp, k, slot, g);
    if g != slot.group {
      OpenStep(bs, tag, slot, d);
      if bs[g].overflows[Class(tag.fp)] != 0 {
        ProbeStops(values, bs, tag, k, slot, d + 1);
      }
    } else {
      OpenHere(bs, tag, slot);
    }
  }

  lemma HasOnlyHit<K, V>(values: seq<Entry<K, V>>, bs: seq<Group>, fp: Byte, k: K, slot: Slot)
    requires OnlyHit(values, bs, fp, k, slot)
    ensures Has(|bs|, slot)
  {
  }

  lemma OpenHere(bs: seq<Group>, tag: Tag, slot: Slot)
    requires IsPow2(|bs|) && tag.home < |bs| && Has(|bs|, slot)
    ensures Open(bs, tag, slot, Depth(|bs|, tag.home, slot.group))
  {
  }

  lemma ValueSlotOnlyHit<K, V>(s: State<K, V>, i: nat)
    requires Sound(s) && i < |s.values|
    ensures var slot := SlotFor(s.groups, |s.values|, i);
            && slot in EntriesOf(s)
            && EntriesOf(s)[slot] == TagOf(s, s.values[i].key)
            && OnlyHit(s.values, s.groups, EntriesOf(s)[slot].fp, s.values[i].key, slot)
  {
  }

  /** A probe for the key of value `i` ends at the slot of value `i`. */
  lemma ProbeOfKey<K, V>(s: State<K, V>, i: nat)
    requires Sound(s) && i < |s.values|
    ensures Probe(s, s.values[i].key) == Some(SlotFor(s.groups, |s.values|, i))
  {
    ValueSlotOnlyHit(s, i);
    ProbeReaches(s.values, s.groups, EntriesOf(s), s.values[i].key, SlotFor(s.groups, |s.values|, i), 0);
  }

  /** In every sound state find agrees with a linear scan of the values. */
  lemma FindIsScan<K, V>(s: State<K, V>, k: K)
    requires Sound(s)
    ensures Find(s, k) == Scan(s.values, k)
    ensures Probe(s, k).Some? <==> Present(s.values, k)
  {
    var i := Scan(s.values, k);
    if i < |s.values| {
      ProbeOfKey(s, i);
    }
  }

  // The slot of a value ////////////////////////////////////////////////////////

  predicate Carries(g: Group, lane: nat, fp: Byte, v: nat)
    requires lane < LANES
  {
    g.fingerprints[lane] == fp && g.index[lane] == v
  }

  function ValueLane(g: Group, fp: Byte, v: nat, from: nat): (lane: nat)
    requires from <= LANES
    ensures from <= lane <= LANES
    ensures lane < LANES ==> Carries(g, lane, fp, v)
    ensures forall l :: from <= l < lane ==> !Carries(g, l, fp, v)
    decreases LANES - from
  {
    if from == LANES || Carries(g, from, fp, v) then from else ValueLane(g, fp, v, from + 1)
  }

  /** The slot pointing at value `v`, searched over the whole walk from its home; None when the walk ends,
      which the source reports as a changed key. */
  function SlotOfValue(bs: seq<Group>, tag: Tag, v: nat, d: nat): (r: Option<Slot>)
    requires tag.home < |bs| && d < |bs|
    ensures r.Some? ==> Has(|bs|, r.value) && Carries(bs[r.value.group], r.value.lane, tag.fp, v)
    decreases |bs| - d
  {
    var g := Path(|bs|, tag.home, d);
    var lane := ValueLane(bs[g], tag.fp, v, 0);
    if lane < LANES then Some(Slot(g, lane))
    else if d == |bs| - 1 then None
    else SlotOfValue(bs, tag, v, d + 1)
  }

  /** A slot that carries the fingerprint and the index is found, the walk reaching every group. */
  lemma {:induction false} SlotOfValueFound(bs: seq<Group>, tag: Tag, v: nat, slot: Slot, d: nat)
    requires IsPow2(|bs|) && tag.home < |bs| && Has(|bs|, slot)
    requires Carries(bs[slot.group], slot.lane, tag.fp, v)
    requires d <= Depth(|bs|, tag.home, slot.group)
    ensures SlotOfValue(bs, tag, v, d).Some?
    decreases |bs| - d
  {
    var g := Path(|bs|, tag.home, d);
    hide Path, Next;
    if ValueLane(bs[g], tag.fp, v, 0) == LANES {
      assert g != slot.group;
      SlotOfValueFound(bs, tag, v, slot, d + 1);
    }
  }
}
