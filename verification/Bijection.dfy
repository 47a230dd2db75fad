/** The bijection between full slots and value indices: what makes every read through the index stay inside
    the values, and what guarantees a placement a free slot. */
module Bijection {
  import opened Probing
  import opened Groups

  /** `k` full slots, every one pointing at a value below `n`, no two at the same one. */
  ghost predicate Injects(bs: seq<Group>, n: nat, k: nat) {
    && (forall s: Slot :: Has(|bs|, s) && Full(bs, s) ==> Pointee(bs, s) < n)
    && (forall s: Slot, t: Slot ::
          (Has(|bs|, s) && Full(bs, s) && Has(|bs|, t) && Full(bs, t) && Pointee(bs, s) == Pointee(bs, t)) ==> s == t)
    && |FullSlots(bs)| == k
  }

  /** The full slots are in bijection with the `n` values. */
  ghost predicate Bijects(bs: seq<Group>, n: nat) {
    Injects(bs, n, n)
  }

  ghost predicate Unpointed(bs: seq<Group>, i: nat) {
    forall s: Slot :: Has(|bs|, s) && Full(bs, s) ==> Pointee(bs, s) != i
  }

  // Counting //////////////////////////////////////////////////////////////////

  ghost function Pointees(bs: seq<Group>, slots: set<Slot>): set<nat>
    requires forall s :: s in slots ==> Has(|bs|, s)
  {
    set s | s in slots :: Pointee(bs, s)
  }

  lemma {:induction false} PointeesSize(bs: seq<Group>, slots: set<Slot>)
    requires forall s :: s in slots ==> Has(|bs|, s)
    requires forall s, t :: s in slots && t in slots && Pointee(bs, s) == Pointee(bs, t) ==> s == t
    ensures |Pointees(bs, slots)| == |slots|
    decreases |slots|
  {
    if slots == {} {
      assert Pointees(bs, slots) == {};
    } else {
      var s :| s in slots;
      PointeesSize(bs, slots - {s});
      assert Pointees(bs, slots) == Pointees(bs, slots - {s}) + {Pointee(bs, s)};
    }
  }

  /** As many distinct pointees as values: every value is pointed at. */
  lemma Onto(bs: seq<Group>, n: nat, i: nat)
    requires Bijects(bs, n) && i < n
    ensures !Unpointed(bs, i)
  {
    var full := FullSlots(bs);
    PointeesSize(bs, full);
    assert Pointees(bs, full) <= Below(n);
    SubsetOfSameSize(Pointees(bs, full), Below(n));
    assert i in Pointees(bs, full);
  }

  /** The one slot that points at value `i`. */
  ghost function SlotFor(bs: seq<Group>, n: nat, i: nat): (s: Slot)
    requires Bijects(bs, n) && i < n
    ensures Has(|bs|, s) && Full(bs, s) && Pointee(bs, s) == i
  {
    Onto(bs, n, i);
    var s :| Has(|bs|, s) && Full(bs, s) && Pointee(bs, s) == i;
    s
  }

  ghost function Lanes(g: nat, l: nat): (slots: set<Slot>)
    ensures forall s: Slot :: s in slots <==> s.group == g && s.lane < l
    ensures |slots| == l
  {
    if l == 0 then {} else
      var before := Lanes(g, l - 1);
      before + {Slot(g, l - 1)}
  }

  lemma AllSlotsStep(n: nat)
    requires n > 0
    ensures AllSlots(n) == AllSlots(n - 1) + Lanes(n - 1, LANES)
    ensures AllSlots(n - 1) * Lanes(n - 1, LANES) == {}
  {
  }

  lemma DisjointUnionSize<T>(a: set<T>, b: set<T>)
    requires a * b == {}
    ensures |a + b| == |a| + |b|
  {
  }

  lemma {:induction false} AllSlotsSize(n: nat)
    ensures |AllSlots(n)| == LANES * n
  {
    hide AllSlots, Lanes;
    if n == 0 {
      NoSlots();
    } else {
      AllSlotsSize(n - 1);
      AllSlotsStep(n);
      DisjointUnionSize(AllSlots(n - 1), Lanes(n - 1, LANES));
    }
  }

  lemma NoSlots()
    ensures AllSlots(0) == {}
  {
  }

  lemma FreeLaneFound(g: Group, l: nat)
    requires l < LANES && g.fingerprints[l] == 0
    ensures HasFree(g)
  {
  }

  /** Fewer full slots than slots: every walk meets a group with a free lane. */
  lemma RoomWhenNotFull(bs: seq<Group>, home: nat)
    requires IsPow2(|bs|) && home < |bs| && |FullSlots(bs)| < LANES * |bs|
    ensures HasRoom(bs, home)
  {
    AllSlotsSize(|bs|);
    assert FullSlots(bs) != AllSlots(|bs|);
    var s :| s in AllSlots(|bs|) && s !in FullSlots(bs);
    FreeLaneFound(bs[s.group], s.lane);
    var d := Depth(|bs|, home, s.group);
    assert HasFree(bs[Path(|bs|, home, d)]);
  }

  lemma NoMoreThanSlots(bs: seq<Group>, n: nat)
    requires Bijects(bs, n)
    ensures n <= LANES * |bs|
  {
    AllSlotsSize(|bs|);
    assert FullSlots(bs) <= AllSlots(|bs|);
    assert |AllSlots(|bs|)| == |FullSlots(bs)| + |AllSlots(|bs|) - FullSlots(bs)|;
  }

  // What every index operation keeps //////////////////////////////////////////

  lemma EmptyInjects(bs: seq<Group>, n: nat)
    requires forall s: Slot :: Has(|bs|, s) ==> !Full(bs, s)
    ensures Injects(bs, n, 0)
  {
    assert FullSlots(bs) == {};
  }

  /** Slot for slot, r is bs with `s` full, pointing at `v`. */
  ghost predicate Filled(bs: seq<Group>, r: seq<Group>, s: Slot, v: nat) {
    && |r| == |bs|
    && Has(|bs|, s)
    && Full(r, s) && Pointee(r, s) == v
    && forall t: Slot :: Has(|bs|, t) && t != s ==> Full(r, t) == Full(bs, t) && Pointee(r, t) == Pointee(bs, t)
  }

  lemma FilledFullSlots(bs: seq<Group>, r: seq<Group>, s: Slot, v: nat)
    requires Filled(bs, r, s, v)
    ensures FullSlots(r) == FullSlots(bs) + {s}
  {
  }

  lemma FilledInjects(bs: seq<Group>, r: seq<Group>, n: nat, k: nat, s: Slot, v: nat)
    requires Filled(bs, r, s, v) && Injects(bs, n, k) && !Full(bs, s) && v < n && Unpointed(bs, v)
    ensures Injects(r, n, k + 1)
  {
    FilledFullSlots(bs, r, s, v);
    hide FullSlots;
  }

  lemma PutFilled(bs: seq<Group>, s: Slot, fp: Byte, v: nat)
    requires Has(|bs|, s) && fp != 0
    ensures Filled(bs, PutSlot(bs, s, fp, v), s, v)
  {
  }

  lemma PutInjects(bs: seq<Group>, n: nat, k: nat, s: Slot, fp: Byte, v: nat)
    requires Injects(bs, n, k) && Has(|bs|, s) && !Full(bs, s) && fp != 0 && v < n && Unpointed(bs, v)
    ensures Injects(PutSlot(bs, s, fp, v), n, k + 1)
  {
    hide *;
    PutFilled(bs, s, fp, v);
    FilledInjects(bs, PutSlot(bs, s, fp, v), n, k, s, v);
  }

  lemma ClearInjects(bs: seq<Group>, n: nat, k: nat, s: Slot)
    requires Injects(bs, n, k) && Has(|bs|, s) && Full(bs, s)
    ensures k > 0 && Injects(ClearSlot(bs, s), n, k - 1)
    ensures Unpointed(ClearSlot(bs, s), Pointee(bs, s))
  {
    var r := ClearSlot(bs, s);
    assert FullSlots(bs) == FullSlots(r) + {s};
    assert forall t: Slot :: Has(|bs|, t) && t != s ==> Full(r, t) == Full(bs, t) && Pointee(r, t) == Pointee(bs, t);
  }

  /** Same fingerprints and value indices, whatever the counters. */
  ghost predicate SameSlots(a: seq<Group>, b: seq<Group>) {
    && |a| == |b|
    && (forall s: Slot :: Has(|a|, s) ==> Full(a, s) == Full(b, s))
    && (forall s: Slot :: Has(|a|, s) ==> Pointee(a, s) == Pointee(b, s))
  }

  lemma SameSlotsInject(a: seq<Group>, b: seq<Group>, n: nat, k: nat)
    requires SameSlots(a, b) && Injects(a, n, k)
    ensures Injects(b, n, k)
  {
    assert FullSlots(a) == FullSlots(b);
  }

  lemma CountedSlots(bs: seq<Group>, home: nat, c: nat, d: nat)
    requires IsPow2(|bs|) && home < |bs| && c < CLASSES && d <= |bs|
    ensures SameSlots(bs, Counted(bs, home, c, d)) && SameSlots(bs, Uncounted(bs, home, c, d))
  {
  }

  /** Slot for slot, a placement fills one lane and nothing else. */
  lemma PlaceFilled(bs: seq<Group>, tag: Tag, v: nat)
    requires IsPow2(|bs|) && tag.home < |bs| && HasRoom(bs, tag.home) && tag.fp != 0
    ensures Filled(bs, Place(bs, tag, v), PlaceSlot(bs, tag.home), v)
  {
    CountedSlots(bs, tag.home, Class(tag.fp), FreeDepth(bs, tag.home, 0));
    hide Counted, FreeDepth;
  }

  lemma PlaceInjects(bs: seq<Group>, n: nat, k: nat, tag: Tag, v: nat)
    requires Injects(bs, n, k) && IsPow2(|bs|) && tag.home < |bs| && HasRoom(bs, tag.home)
    requires tag.fp != 0 && v < n && Unpointed(bs, v)
    ensures Injects(Place(bs, tag, v), n, k + 1)
  {
    hide *;
    PlaceFilled(bs, tag, v);
    FilledInjects(bs, Place(bs, tag, v), n, k, PlaceSlot(bs, tag.home), v);
  }

  lemma FreeInjects(bs: seq<Group>, n: nat, k: nat, s: Slot, tag: Tag)
    requires Injects(bs, n, k) && IsPow2(|bs|) && Has(|bs|, s) && Full(bs, s) && tag.home < |bs|
    ensures k > 0 && Injects(Free(bs, s, tag), n, k - 1)
    ensures Unpointed(Free(bs, s, tag), Pointee(bs, s))
  {
    ClearInjects(bs, n, k, s);
    CountedSlots(ClearSlot(bs, s), tag.home, Class(tag.fp), Depth(|bs|, tag.home, s.group));
    SameSlotsInject(ClearSlot(bs, s), Free(bs, s, tag), n, k - 1);
  }

  /** Repointing the slot of the last value at an index nothing points at leaves the last index unpointed. */
  lemma RepointInjects(bs: seq<Group>, n: nat, k: nat, s: Slot, v: nat)
    requires Injects(bs, n, k) && Has(|bs|, s) && Full(bs, s) && Pointee(bs, s) == n - 1
    requires v < n - 1 && Unpointed(bs, v)
    ensures Injects(Repoint(bs, s, v), n - 1, k)
  {
    var r := Repoint(bs, s, v);
    assert forall t: Slot :: Has(|bs|, t) ==> Full(r, t) == Full(bs, t);
    assert forall t: Slot :: Has(|bs|, t) && t != s ==> Pointee(r, t) == Pointee(bs, t);
    assert FullSlots(r) == FullSlots(bs);
  }

  /** With the last value unpointed, the index is one for the values without it. */
  lemma DropLast(bs: seq<Group>, n: nat, k: nat)
    requires n > 0 && Injects(bs, n, k) && Unpointed(bs, n - 1)
    ensures Injects(bs, n - 1, k)
  {
  }

  /** Moving home is, slot for slot, leaving one lane and taking another. */
  lemma MoveHomeSlots(bs: seq<Group>, s: Slot, tag: Tag)
    requires IsPow2(|bs|) && Has(|bs|, s) && Full(bs, s) && tag.home < |bs|
    requires s.group != tag.home && HasFree(bs[tag.home])
    ensures var to := Slot(tag.home, FreeLane(bs[tag.home]));
            && !Full(ClearSlot(bs, s), to)
            && SameSlots(PutSlot(ClearSlot(bs, s), to, bs[s.group].fingerprints[s.lane], Pointee(bs, s)),
                         MoveHome(bs, s, tag))
  {
    var to := Slot(tag.home, FreeLane(bs[tag.home]));
    var put := PutSlot(bs, to, bs[s.group].fingerprints[s.lane], Pointee(bs, s));
    CountedSlots(ClearSlot(put, s), tag.home, Class(tag.fp), Depth(|bs|, tag.home, s.group));
  }

  lemma MoveHomeInjects(bs: seq<Group>, n: nat, s: Slot, tag: Tag)
    requires Bijects(bs, n) && IsPow2(|bs|) && Has(|bs|, s) && Full(bs, s) && tag.home < |bs|
    ensures Bijects(MoveHome(bs, s, tag), n)
  {
    if s.group != tag.home && HasFree(bs[tag.home]) {
      var to := Slot(tag.home, FreeLane(bs[tag.home]));
      var fp := bs[s.group].fingerprints[s.lane];
      MoveHomeSlots(bs, s, tag);
      ClearInjects(bs, n, n, s);
      PutInjects(ClearSlot(bs, s), n, n - 1, to, fp, Pointee(bs, s));
      SameSlotsInject(PutSlot(ClearSlot(bs, s), to, fp, Pointee(bs, s)), MoveHome(bs, s, tag), n, n);
    }
  }
}
