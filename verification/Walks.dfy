/** The probe loops: looking for a key, for the slot of a value, and for a free lane. */
module Walks {
  import opened Probing
  import opened Groups
  import opened Bijection
  import opened Reference
  import opened TableState
  import opened Building
  import opened Swar
  import opened Sizing
  import opened Faults
  import Counters

  /** Every full lane's index is below n. */
  ghost predicate PointsBelow(bs: seq<Group>, n: nat) {
    forall s: Slot :: Has(|bs|, s) && Full(bs, s) ==> Pointee(bs, s) < n
  }

  lemma BijectsPointsBelow(bs: seq<Group>, n: nat, m: nat)
    requires Bijects(bs, n) && n <= m
    ensures PointsBelow(bs, m)
  {
  }

  lemma PointsInside(bs: seq<Group>, n: nat, g: nat, fp: Byte)
    requires PointsBelow(bs, n) && g < |bs| && fp != 0
    ensures forall l :: 0 <= l < LANES && bs[g].fingerprints[l] == fp ==> bs[g].index[l] < n
  {
    forall l | 0 <= l < LANES && bs[g].fingerprints[l] == fp
      ensures bs[g].index[l] < n
    {
      assert Full(bs, Slot(g, l));
    }
  }

  /** A probe over the blocks, from a group and the distance already walked. The mask is one less than the number
      of blocks, except over the sentinel, where it is zero and every counter is too. */
  method ProbeFromGroup<K(==), V>(
    values: seq<Entry<K, V>>, blocks: seq<Group>, mask: nat, tag: Tag, key: K, group: nat, walked: nat)
    returns (r: Option<Slot>)
    requires PointsBelow(blocks, |values|) && tag.home < |blocks| && tag.fp != 0
    requires mask == |blocks| - 1 || (mask == 0 && blocks == EmptyGroups(4))
    requires walked < |blocks| && group == Path(|blocks|, tag.home, walked)
    ensures r == ProbeFrom(values, blocks, tag, key, walked)
  {
    hide PointsBelow, KeyLane, Matches;
    var g, delta := group, walked;
    while true
      invariant walked <= delta < |blocks| && g == Path(|blocks|, tag.home, delta)
      invariant ProbeFrom(values, blocks, tag, key, delta) == ProbeFrom(values, blocks, tag, key, walked)
      decreases |blocks| - delta
    {
      PointsInside(blocks, |values|, g, tag.fp);
      var lane := LaneOfKey(values, blocks[g], tag.fp, key);
      if lane < LANES {
        return Some(Slot(g, lane));
      }
      if blocks[g].overflows[Class(tag.fp)] == 0 || delta == mask {
        return None;
      }
      delta := delta + 1;
      g := Next(mask + 1, g, delta);
    }
  }

  /** A probe from the tag's home group. */
  method ProbeWalk<K(==), V>(values: seq<Entry<K, V>>, blocks: seq<Group>, mask: nat, tag: Tag, key: K)
    returns (r: Option<Slot>)
    requires PointsBelow(blocks, |values|) && tag.home < |blocks| && tag.fp != 0
    requires mask == |blocks| - 1 || (mask == 0 && blocks == EmptyGroups(4))
    ensures r == ProbeFrom(values, blocks, tag, key, 0)
  {
    hide PointsBelow, ProbeFrom;
    r := ProbeFromGroup(values, blocks, mask, tag, key, tag.home, 0);
  }

  /** What a lookup does once its home group has been looked at and does not hold the key. */
  method ProbeAfterHome<K(==), V>(values: seq<Entry<K, V>>, blocks: seq<Group>, mask: nat, tag: Tag, key: K)
    returns (r: Option<Slot>)
    requires PointsBelow(blocks, |values|) && tag.home < |blocks| && tag.fp != 0 && mask == |blocks| - 1
    requires KeyLane(values, blocks[tag.home], tag.fp, key, 0) == LANES
    ensures r == ProbeFrom(values, blocks, tag, key, 0)
  {
    hide PointsBelow, KeyLane;
    if blocks[tag.home].overflows[Class(tag.fp)] == 0 || mask == 0 {
      return None;
    }
    r := ProbeFromGroup(values, blocks, mask, tag, key, Next(mask + 1, tag.home, 1), 1);
  }

  lemma {:induction false} LaneOfPrefix<K, V>(values: seq<Entry<K, V>>, i: nat, g: Group, fp: Byte, k: K, from: nat)
    requires i <= |values| && from <= LANES
    requires forall l :: 0 <= l < LANES && g.fingerprints[l] == fp ==> g.index[l] < i
    ensures KeyLane(values, g, fp, k, from) == KeyLane(values[..i], g, fp, k, from)
    decreases LANES - from
  {
    if from < LANES {
      LaneOfPrefix(values, i, g, fp, k, from + 1);
    }
  }

  /** A probe sees no value the index does not point at. */
  lemma {:induction false} ProbeOfPrefix<K, V>(
    values: seq<Entry<K, V>>, i: nat, bs: seq<Group>, tag: Tag, k: K, d: nat)
    requires i <= |values| && PointsBelow(bs, i) && tag.home < |bs| && tag.fp != 0 && d < |bs|
    ensures ProbeFrom(values, bs, tag, k, d) == ProbeFrom(values[..i], bs, tag, k, d)
    decreases |bs| - d
  {
    hide PointsBelow, KeyLane, Matches, Path;
    var g := Path(|bs|, tag.home, d);
    PointsInside(bs, i, g, tag.fp);
    LaneOfPrefix(values, i, bs[g], tag.fp, k, 0);
    if d + 1 < |bs| {
      ProbeOfPrefix(values, i, bs, tag, k, d + 1);
    }
  }

  lemma SlotOfValueAt(bs: seq<Group>, tag: Tag, v: nat, d: nat)
    requires tag.home < |bs| && d < |bs|
    ensures var g := Path(|bs|, tag.home, d);
            var lane := ValueLane(bs[g], tag.fp, v, 0);
            SlotOfValue(bs, tag, v, d)
              == if lane < LANES then Some(Slot(g, lane))
                 else if d == |bs| - 1 then None
                 else SlotOfValue(bs, tag, v, d + 1)
  {
  }

  /** The slot of one value, over the whole walk from its home; None is the source's changed-key error. */
  method SlotWalk(blocks: seq<Group>, tag: Tag, v: nat) returns (r: Option<Slot>)
    requires tag.home < |blocks|
    ensures r == SlotOfValue(blocks, tag, v, 0)
  {
    hide SlotOfValue;
    var g, delta := tag.home, 0;
    while true
      invariant delta < |blocks| && g == Path(|blocks|, tag.home, delta)
      invariant SlotOfValue(blocks, tag, v, delta) == SlotOfValue(blocks, tag, v, 0)
      decreases |blocks| - delta
    {
      SlotOfValueAt(blocks, tag, v, delta);
      var lane := LaneOfValue(blocks[g], tag.fp, v);
      if lane < LANES {
        return Some(Slot(g, lane));
      }
      if delta == |blocks| - 1 {
        return None;
      }
      delta := delta + 1;
      g := Next(|blocks|, g, delta);
    }
  }

  lemma CountedNone(bs: seq<Group>, tag: Tag)
    requires IsPow2(|bs|) && tag.home < |bs| && HasRoom(bs, tag.home)
    ensures Counted(bs, tag.home, Class(tag.fp), 0) == bs && FreeDepth(bs, tag.home, 0) < |bs|
    ensures Path(|bs|, tag.home, 0) == tag.home
  {
  }

  /** A placement takes the first group with a free lane that its walk comes to. */
  lemma PlacedHere(bs: seq<Group>, tag: Tag, v: nat, d: nat)
    requires IsPow2(|bs|) && tag.home < |bs| && HasRoom(bs, tag.home) && d < |bs|
    requires FreeDepth(bs, tag.home, d) == FreeDepth(bs, tag.home, 0)
    ensures var g := Path(|bs|, tag.home, d);
            var now := Counted(bs, tag.home, Class(tag.fp), d);
            now[g] == bs[g]
            && if HasFree(bs[g]) then Place(bs, tag, v) == PutSlot(now, Slot(g, FreeLane(bs[g])), tag.fp, v)
               else d + 1 < |bs| && FreeDepth(bs, tag.home, d + 1) == FreeDepth(bs, tag.home, 0)
    ensures d + 1 < |bs| ==> Path(|bs|, tag.home, d + 1) == Next(|bs|, Path(|bs|, tag.home, d), d + 1)
  {
    CountedStep(bs, tag.home, Class(tag.fp), d);
    hide Counted;
  }

  /** The first free slot on the walk takes the value; every full group on the way counts it. */
  method PlaceWalk(groups: array<Group>, tag: Tag, v: nat)
    requires IsPow2(groups.Length) && tag.home < groups.Length && HasRoom(groups[..], tag.home)
    modifies groups
    ensures groups[..] == Place(old(groups[..]), tag, v)
  {
    hide IsPow2, Place, FreeDepth, Counted, FreeLane, Path, HasRoom;
    ghost var bs := groups[..];
    CountedNone(bs, tag);
    var g, delta := tag.home, 0;
    while true
      invariant delta < |bs| && g == Path(|bs|, tag.home, delta)
      invariant groups[..] == Counted(bs, tag.home, Class(tag.fp), delta)
      invariant FreeDepth(bs, tag.home, delta) == FreeDepth(bs, tag.home, 0) < |bs|
      decreases |bs| - delta
    {
      CountedStep(bs, tag.home, Class(tag.fp), delta);
      var group := groups[g];
      var lane := FirstEmpty(group);
      PlacedHere(bs, tag, v, delta);
      ghost var now := groups[..];
      if lane < LANES {
        groups[g] := group.(fingerprints := group.fingerprints[lane := tag.fp], index := group.index[lane := v]);
        assert groups[..] == PutSlot(now, Slot(g, lane), tag.fp, v);
        return;
      }
      groups[g] := BumpGroup(group, Class(tag.fp));
      assert groups[..] == now[g := BumpGroup(bs[g], Class(tag.fp))];
      delta := delta + 1;
      g := Next(groups.Length, g, delta);
    }
  }

  /** Takes an entry out of every counter on the walk from its home to the group it was found in. */
  method UncountWalk(groups: array<Group>, home: nat, c: nat, foundIn: nat)
    requires IsPow2(groups.Length) && home < groups.Length && foundIn < groups.Length && c < CLASSES
    modifies groups
    ensures groups[..] == Uncounted(old(groups[..]), home, c, Depth(groups.Length, home, foundIn))
  {
    hide IsPow2;
    ghost var bs := groups[..];
    ghost var depth := Depth(groups.Length, home, foundIn);
    DepthOfPath(groups.Length, home, 0);
    var g, delta := home, 0;
    while g != foundIn
      invariant delta <= depth && g == Path(|bs|, home, delta)
      invariant groups[..] == Uncounted(bs, home, c, delta)
      decreases |bs| - delta
    {
      UncountedStep(bs, home, c, delta);
      hide Uncounted;
      groups[g] := UnbumpGroup(groups[g], c);
      delta := delta + 1;
      g := Next(groups.Length, g, delta);
    }
    DepthOfPath(groups.Length, home, delta);
  }

  // Filling an index ///////////////////////////////////////////////////////////

  lemma BuildNone(bs: seq<Group>, tags: seq<Tag>)
    requires IsPow2(|bs|) && TagsFit(|bs|, tags)
    ensures tags[..0] == [] && Build(bs, tags[..0]) == bs
  {
  }

  /** The next value of a build finds room. */
  lemma BuildNext(bs: seq<Group>, tags: seq<Tag>, i: nat)
    requires IsPow2(|bs|) && TagsFit(|bs|, tags) && Counters.IsEmptyIndex(bs) && |tags| <= LANES * |bs| && i < |tags|
    ensures HasRoom(Build(bs, tags[..i]), tags[i].home)
    ensures Build(bs, tags[..i + 1]) == Place(Build(bs, tags[..i]), tags[i], i)
  {
    hide Counters.IsEmptyIndex, Bijects, Place, HasRoom;
    BuildBijects(bs, tags[..i + 1]);
    assert tags[..i + 1][..i] == tags[..i];
    BuildStep(bs, tags, i);
  }

  /** Which hash a ring slot holds: those of the positions from `from` up to `ahead`. */
  ghost predicate RingHolds<K, V>(ring: seq<Word>, hash: K -> Word, values: seq<Entry<K, V>>, from: nat, ahead: nat) {
    && |ring| == PIPELINE_DEPTH && from <= ahead <= |values|
    && forall j :: from <= j < ahead ==> ring[j % PIPELINE_DEPTH] == hash(values[j].key)
  }

  /** The first sixteen hashes. False when that of element `throwsAt` is one of them and throws. */
  method PrimeRing<K, V>(hash: K -> Word, values: seq<Entry<K, V>>, throwsAt: nat)
    returns (ok: bool, ring: array<Word>, ahead: nat)
    ensures fresh(ring) && ring.Length == PIPELINE_DEPTH
    ensures ok <==> Min(|values|, PIPELINE_DEPTH) <= throwsAt
    ensures ok ==> ahead == Min(|values|, PIPELINE_DEPTH) && RingHolds(ring[..], hash, values, 0, ahead)
  {
    ring := new Word[PIPELINE_DEPTH](_ => 0);
    ahead := 0;
    while ahead < PIPELINE_DEPTH && ahead != |values|
      invariant ahead <= PIPELINE_DEPTH && ahead <= |values| && ahead <= throwsAt
      invariant forall j :: 0 <= j < ahead ==> ring[j] == hash(values[j].key)
    {
      if ahead == throwsAt {
        return false, ring, ahead;
      }
      ring[ahead] := hash(values[ahead].key);
      ahead := ahead + 1;
    }
    return true, ring, ahead;
  }

  /** One turn of the ring: the hash of element i comes out before the slot it frees is refilled with that of
      element i + 16, if there is one. False when that one is element `throwsAt` and throws. */
  method TurnRing<K, V>(ring: array<Word>, hash: K -> Word, values: seq<Entry<K, V>>, i: nat, ahead: nat, throwsAt: nat)
    returns (ok: bool, mh: Word, next: nat)
    requires ring.Length == PIPELINE_DEPTH && i < |values| && ahead == Min(|values|, i + PIPELINE_DEPTH) <= throwsAt
    requires RingHolds(ring[..], hash, values, i, ahead)
    modifies ring
    ensures ok <==> Min(|values|, i + 1 + PIPELINE_DEPTH) <= throwsAt
    ensures ok ==> mh == hash(values[i].key) && next == Min(|values|, i + 1 + PIPELINE_DEPTH)
    ensures ok ==> RingHolds(ring[..], hash, values, i + 1, next)
  {
    ok, mh, next := true, ring[i % PIPELINE_DEPTH], ahead;
    if ahead != |values| {
      if ahead == throwsAt {
        return false, mh, next;
      }
      ring[i % PIPELINE_DEPTH] := hash(values[ahead].key);
      next := ahead + 1;
    }
  }

  /** Places every value into an empty index, hashing sixteen elements ahead of the one it places. False when the hash
      of element `throwsAt` throws: the values it had come to are placed by then. */
  method FillWalk<K, V>(groups: array<Group>, hash: K -> Word, shifts: nat, values: seq<Entry<K, V>>, throwsAt: nat)
    returns (ok: bool)
    requires shifts <= 64 && groups.Length == Pow2(64 - shifts) && IsPow2(groups.Length)
    requires Counters.IsEmptyIndex(groups[..]) && |values| <= LANES * groups.Length
    modifies groups
    ensures ok <==> |values| <= throwsAt
    ensures groups[..] == Build(old(groups[..]), TagsFor(hash, shifts, values)[..CameTo(throwsAt, |values|)])
  {
    hide Counters.IsEmptyIndex, IsPow2, Build, Place, HasRoom, Pow2, RingHolds;
    ghost var bs, tags := groups[..], TagsFor(hash, shifts, values);
    BuildNone(bs, tags);
    var ring, ahead;
    ok, ring, ahead := PrimeRing(hash, values, throwsAt);
    if !ok {
      return;
    }
    for i := 0 to |values|
      invariant ahead == Min(|values|, i + PIPELINE_DEPTH) <= throwsAt
      invariant RingHolds(ring[..], hash, values, i, ahead)
      invariant groups[..] == Build(bs, tags[..i])
    {
      var mh;
      ok, mh, ahead := TurnRing(ring, hash, values, i, ahead, throwsAt);
      if !ok {
        return;
      }
      BuildNext(bs, tags, i);
      PlaceWalk(groups, Tag(Home(mh, shifts), Fingerprint(mh)), i);
    }
    return true;
  }
}
