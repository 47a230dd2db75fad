/** Filling an empty index from the values: what a rehash or a growth computes. */
module Building {
  import opened Probing
  import opened Groups
  import opened Counters
  import opened Bijection
  import opened TableState

  ghost predicate TagsFit(n: nat, tags: seq<Tag>) {
    forall i :: 0 <= i < |tags| ==> tags[i].home < n && tags[i].fp != 0
  }

  /** Values 0, 1, ... placed one after the other. */
  ghost function Build(bs: seq<Group>, tags: seq<Tag>): (r: seq<Group>)
    requires IsPow2(|bs|) && TagsFit(|bs|, tags)
    ensures |r| == |bs|
  {
    if tags == [] then bs else
      var last := |tags| - 1;
      var before := Build(bs, tags[..last]);
      if HasRoom(before, tags[last].home) then Place(before, tags[last], last) else before
  }

  lemma BuildStep(bs: seq<Group>, tags: seq<Tag>, i: nat)
    requires IsPow2(|bs|) && TagsFit(|bs|, tags) && i < |tags|
    ensures var before := Build(bs, tags[..i]);
            Build(bs, tags[..i + 1])
              == if HasRoom(before, tags[i].home) then Place(before, tags[i], i) else before
  {
    assert tags[..i + 1][..i] == tags[..i];
  }

  lemma WidenInjects(bs: seq<Group>, n: nat, m: nat, k: nat)
    requires Injects(bs, n, k) && n <= m
    ensures Injects(bs, m, k)
  {
  }

  /** Placing the value after the last of a bijection keeps it one. */
  lemma PlaceNext(bs: seq<Group>, n: nat, tag: Tag)
    requires Bijects(bs, n) && IsPow2(|bs|) && tag.home < |bs| && tag.fp != 0 && n < LANES * |bs|
    ensures HasRoom(bs, tag.home) && Bijects(Place(bs, tag, n), n + 1)
  {
    RoomWhenNotFull(bs, tag.home);
    WidenInjects(bs, n, n + 1, n);
    PlaceInjects(bs, n + 1, n, tag, n);
  }

  lemma {:induction false} BuildBijects(bs: seq<Group>, tags: seq<Tag>)
    requires IsPow2(|bs|) && TagsFit(|bs|, tags) && IsEmptyIndex(bs) && |tags| <= LANES * |bs|
    ensures Bijects(Build(bs, tags), |tags|)
    ensures tags != [] ==> HasRoom(Build(bs, tags[..|tags| - 1]), tags[|tags| - 1].home)
  {
    if tags == [] {
      EmptyInjects(bs, 0);
    } else {
      var last := |tags| - 1;
      BuildBijects(bs, tags[..last]);
      PlaceNext(Build(bs, tags[..last]), last, tags[last]);
    }
  }

  /** One slot more, pointing at one value more. */
  lemma TagMapExtend(bs: seq<Group>, r: seq<Group>, tags: seq<Tag>, s: Slot, tag: Tag)
    requires Filled(bs, r, s, |tags|) && Bijects(bs, |tags|) && Bijects(r, |tags| + 1)
    ensures TagMap(r, tags + [tag]) == TagMap(bs, tags)[s := tag]
  {
    var now, before := TagMap(r, tags + [tag]), TagMap(bs, tags);
    hide TagMap, FullSlots, Injects;
    forall t: Slot
      ensures t in now <==> t == s || t in before
      ensures t in now ==> now[t] == if t == s then tag else before[t]
    {
    }
    MapExtended(before, now, s, tag);
  }

  lemma MapExtended(before: Entries, now: Entries, s: Slot, tag: Tag)
    requires forall t: Slot :: t in now <==> t == s || t in before
    requires forall t: Slot :: t in now ==> now[t] == if t == s then tag else before[t]
    ensures now == before[s := tag]
  {
  }

  lemma {:induction false} BuildExact(bs: seq<Group>, tags: seq<Tag>)
    requires IsPow2(|bs|) && TagsFit(|bs|, tags) && IsEmptyIndex(bs) && |tags| <= LANES * |bs|
    ensures Bijects(Build(bs, tags), |tags|)
    ensures Exact(Build(bs, tags), TagMap(Build(bs, tags), tags))
  {
    hide Injects, Place, TagMap, HasRoom, Exact, IsEmptyIndex;
    BuildBijects(bs, tags);
    if tags == [] {
      BuildNoneExact(bs);
    } else {
      var last := |tags| - 1;
      var before := Build(bs, tags[..last]);
      BuildExact(bs, tags[..last]);
      BuildExactStep(before, tags[..last], tags[last]);
      assert tags == tags[..last] + [tags[last]];
    }
  }

  lemma BuildNoneExact(bs: seq<Group>)
    requires IsPow2(|bs|) && IsEmptyIndex(bs)
    ensures Bijects(bs, 0) && Exact(bs, TagMap(bs, []))
  {
    EmptyInjects(bs, 0);
    EmptyExact(bs);
    assert TagMap(bs, []) == map[];
  }

  lemma BuildExactStep(bs: seq<Group>, tags: seq<Tag>, tag: Tag)
    requires IsPow2(|bs|) && Bijects(bs, |tags|) && Exact(bs, TagMap(bs, tags))
    requires tag.home < |bs| && tag.fp != 0 && HasRoom(bs, tag.home)
    requires Bijects(Place(bs, tag, |tags|), |tags| + 1)
    ensures Exact(Place(bs, tag, |tags|), TagMap(Place(bs, tag, |tags|), tags + [tag]))
  {
    PlaceExact(bs, TagMap(bs, tags), tag, |tags|);
    PlaceFilled(bs, tag, |tags|);
    hide *;
    TagMapExtend(bs, Place(bs, tag, |tags|), tags, PlaceSlot(bs, tag.home), tag);
  }

  /** The entries of a build are those of the shorter one and the value placed last. */
  lemma {:induction false} BuildEntries(bs: seq<Group>, tags: seq<Tag>)
    requires IsPow2(|bs|) && TagsFit(|bs|, tags) && IsEmptyIndex(bs) && 0 < |tags| <= LANES * |bs|
    ensures var last, tag := |tags| - 1, tags[|tags| - 1];
            var before := Build(bs, tags[..last]);
            && TagsFit(|bs|, tags[..last]) && tag.home < |bs| && tag.fp != 0
            && Bijects(before, last) && Bijects(Build(bs, tags), |tags|)
            && HasRoom(before, tag.home)
            && Build(bs, tags) == Place(before, tag, last)
            && var tm, p := TagMap(before, tags[..last]), PlaceSlot(before, tag.home);
               && Fits(|bs|, tm) && Has(|bs|, p) && p !in tm && Exact(before, tm)
               && TagMap(Build(bs, tags), tags) == tm[p := tag]
  {
    hide Injects, Place, TagMap, HasRoom, CountersExact, IsEmptyIndex;
    var last := |tags| - 1;
    var before := Build(bs, tags[..last]);
    BuildExact(bs, tags[..last]);
    BuildBijects(bs, tags);
    PlaceFilled(before, tags[last], last);
    assert tags == tags[..last] + [tags[last]];
    hide PlaceSlot, Filled;
    TagMapExtend(before, Place(before, tags[last], last), tags[..last], PlaceSlot(before, tags[last].home), tags[last]);
  }

  /** A build whose counts stay within 254, or of at most 270 entries, sticks no counter. */
  lemma {:induction false} BuildUnstuck(bs: seq<Group>, tags: seq<Tag>)
    requires IsPow2(|bs|) && TagsFit(|bs|, tags) && IsEmptyIndex(bs) && |tags| <= LANES * |bs|
    requires Bijects(Build(bs, tags), |tags|)
    requires Fits(|bs|, TagMap(Build(bs, tags), tags)) && Sparse(|bs|, TagMap(Build(bs, tags), tags))
    ensures Unstuck(Build(bs, tags))
  {
    hide Unstuck, Sparse, Place, HasRoom, IsEmptyIndex, TagMap, Fits;
    if tags == [] {
      EmptyUnstuck(bs);
      assert Unstuck(Build(bs, tags));
    } else {
      BuildEntries(bs, tags);
      var last, tag := |tags| - 1, tags[|tags| - 1];
      var before := Build(bs, tags[..last]);
      var tm, p := TagMap(before, tags[..last]), PlaceSlot(before, tag.home);
      hide *;
      SparseBefore(|bs|, tm, p, tag);
      BuildUnstuck(bs, tags[..last]);
      PlaceSparse(before, tm, tag, last);
      assert Unstuck(Build(bs, tags));
    }
  }
}
