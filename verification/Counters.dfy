/** The exact-counter invariant. Every overflow counter is saturated or equal to the number of live
    entries of its class whose walk from home passes its group before reaching the group they are in. */
module Counters {
  import opened Probing
  import opened Groups
  import opened Bijection

  /** The live entries: which slots are taken, and the home and fingerprint of the entry in each. */
  type Entries = map<Slot, Tag>

  ghost predicate Fits(n: nat, tm: Entries) {
    IsPow2(n) && forall s: Slot :: s in tm ==> Has(n, s) && tm[s].home < n
  }

  ghost predicate Passes(n: nat, s: Slot, tag: Tag, g: nat)
    requires IsPow2(n) && Has(n, s) && tag.home < n && g < n
  {
    Depth(n, tag.home, g) < Depth(n, tag.home, s.group)
  }

  /** The live entries of class `c` that group `g` has to have counted. */
  ghost function Passers(n: nat, tm: Entries, g: nat, c: nat): set<Slot>
    requires Fits(n, tm) && g < n
  {
    set s: Slot | s in tm.Keys && Class(tm[s].fp) == c && Passes(n, s, tm[s], g)
  }

  predicate CounterAgrees(counter: Byte, count: nat) {
    counter == SATURATED || counter == count
  }

  /** The entries in `tm` are the full slots of `bs`, under the fingerprints they carry there. */
  ghost predicate Describes(bs: seq<Group>, tm: Entries) {
    && Fits(|bs|, tm)
    && (forall s: Slot :: s in tm <==> Has(|bs|, s) && Full(bs, s))
    && (forall s: Slot :: s in tm ==> bs[s.group].fingerprints[s.lane] == tm[s].fp)
  }

  ghost predicate CountersExact(bs: seq<Group>, tm: Entries)
    requires Fits(|bs|, tm)
  {
    forall g: nat, c: nat :: g < |bs| && c < CLASSES ==>
      CounterAgrees(bs[g].overflows[c], |Passers(|bs|, tm, g, c)|)
  }

  ghost predicate Exact(bs: seq<Group>, tm: Entries) {
    Describes(bs, tm) && CountersExact(bs, tm)
  }

  // One entry more, one entry less ////////////////////////////////////////////

  lemma PassersInsert(n: nat, tm: Entries, s: Slot, tag: Tag, g: nat, c: nat)
    requires Fits(n, tm) && Has(n, s) && tag.home < n && s !in tm && g < n
    ensures Fits(n, tm[s := tag])
    ensures |Passers(n, tm[s := tag], g, c)| == |Passers(n, tm, g, c)|
              + if Class(tag.fp) == c && Passes(n, s, tag, g) then 1 else 0
  {
    var now := Passers(n, tm[s := tag], g, c);
    var before := Passers(n, tm, g, c);
    if Class(tag.fp) == c && Passes(n, s, tag, g) {
      assert now == before + {s};
    } else {
      assert now == before;
    }
  }

  lemma PassersRemove(n: nat, tm: Entries, s: Slot, g: nat, c: nat)
    requires Fits(n, tm) && s in tm && g < n
    ensures Fits(n, tm - {s})
    ensures |Passers(n, tm, g, c)| == |Passers(n, tm - {s}, g, c)|
              + if Class(tm[s].fp) == c && Passes(n, s, tm[s], g) then 1 else 0
  {
    PassersInsert(n, tm - {s}, s, tm[s], g, c);
    assert (tm - {s})[s := tm[s]] == tm;
  }

  // What every index operation keeps //////////////////////////////////////////

  lemma PlaceDescribes(bs: seq<Group>, tm: Entries, tag: Tag, v: nat)
    requires Describes(bs, tm) && tag.home < |bs| && tag.fp != 0 && HasRoom(bs, tag.home)
    ensures Describes(Place(bs, tag, v), tm[PlaceSlot(bs, tag.home) := tag])
  {
  }

  lemma PlaceCounter(bs: seq<Group>, tag: Tag, v: nat, g: nat, c: nat)
    requires IsPow2(|bs|) && tag.home < |bs| && HasRoom(bs, tag.home) && g < |bs| && c < CLASSES
    ensures Place(bs, tag, v)[g].overflows[c]
         == if Class(tag.fp) == c && Passes(|bs|, PlaceSlot(bs, tag.home), tag, g)
            then Bump(bs[g].overflows[c]) else bs[g].overflows[c]
  {
    DepthOfPath(|bs|, tag.home, FreeDepth(bs, tag.home, 0));
  }

  lemma PlaceExact(bs: seq<Group>, tm: Entries, tag: Tag, v: nat)
    requires Exact(bs, tm) && tag.home < |bs| && tag.fp != 0 && HasRoom(bs, tag.home)
    ensures Exact(Place(bs, tag, v), tm[PlaceSlot(bs, tag.home) := tag])
  {
    var s := PlaceSlot(bs, tag.home);
    PlaceDescribes(bs, tm, tag, v);
    forall g: nat, c: nat | g < |bs| && c < CLASSES
      ensures CounterAgrees(Place(bs, tag, v)[g].overflows[c], |Passers(|bs|, tm[s := tag], g, c)|)
    {
      PlaceCounter(bs, tag, v, g, c);
      PassersInsert(|bs|, tm, s, tag, g, c);
    }
  }

  lemma FreeDescribes(bs: seq<Group>, tm: Entries, s: Slot)
    requires Describes(bs, tm) && s in tm
    ensures Describes(Free(bs, s, tm[s]), tm - {s})
  {
  }

  /** The decrement of an erase never meets a zero: the counter still counts the entry being erased. */
  lemma NoWrap(bs: seq<Group>, tm: Entries, s: Slot, g: nat)
    requires Exact(bs, tm) && s in tm && g < |bs| && Passes(|bs|, s, tm[s], g)
    ensures bs[g].overflows[Class(tm[s].fp)] > 0
  {
    assert s in Passers(|bs|, tm, g, Class(tm[s].fp));
  }

  lemma FreeExact(bs: seq<Group>, tm: Entries, s: Slot)
    requires Exact(bs, tm) && s in tm
    ensures Exact(Free(bs, s, tm[s]), tm - {s})
  {
    var tag := tm[s];
    FreeDescribes(bs, tm, s);
    forall g: nat, c: nat | g < |bs| && c < CLASSES
      ensures CounterAgrees(Free(bs, s, tag)[g].overflows[c], |Passers(|bs|, tm - {s}, g, c)|)
    {
      PassersRemove(|bs|, tm, s, g, c);
      if Passes(|bs|, s, tag, g) {
        NoWrap(bs, tm, s, g);
      }
    }
  }

  lemma RepointExact(bs: seq<Group>, tm: Entries, s: Slot, v: nat)
    requires Exact(bs, tm) && Has(|bs|, s)
    ensures Exact(Repoint(bs, s, v), tm)
  {
    var r := Repoint(bs, s, v);
    assert forall t: Slot :: Has(|bs|, t) ==> r[t.group].fingerprints[t.lane] == bs[t.group].fingerprints[t.lane];
    assert forall g: nat, c: nat :: g < |bs| && c < CLASSES ==> r[g].overflows[c] == bs[g].overflows[c];
  }

  /** Where an entry ends up when a writing operation has found it in slot `s`. */
  ghost function HomedSlot(bs: seq<Group>, s: Slot, tag: Tag): (r: Slot)
    requires Has(|bs|, s) && tag.home < |bs|
    ensures Has(|bs|, r)
  {
    if s.group == tag.home || !HasFree(bs[tag.home]) then s else Slot(tag.home, FreeLane(bs[tag.home]))
  }

  lemma DepthOfHome(n: nat, home: nat)
    requires IsPow2(n) && home < n
    ensures Depth(n, home, home) == 0
  {
    DepthOfPath(n, home, 0);
  }

  /** An entry in its home group is counted nowhere. */
  lemma PutHomeExact(bs: seq<Group>, tm: Entries, s: Slot, tag: Tag, v: nat)
    requires Exact(bs, tm) && tag.home < |bs| && tag.fp != 0
    requires Has(|bs|, s) && s !in tm && s.group == tag.home
    ensures Exact(PutSlot(bs, s, tag.fp, v), tm[s := tag])
  {
    var put := PutSlot(bs, s, tag.fp, v);
    DepthOfHome(|bs|, tag.home);
    forall g: nat, c: nat | g < |bs| && c < CLASSES
      ensures CounterAgrees(put[g].overflows[c], |Passers(|bs|, tm[s := tag], g, c)|)
    {
      PassersInsert(|bs|, tm, s, tag, g, c);
      assert put[g].overflows[c] == bs[g].overflows[c];
    }
  }

  lemma MoveHomeExact(bs: seq<Group>, tm: Entries, s: Slot)
    requires Exact(bs, tm) && s in tm
    ensures Exact(MoveHome(bs, s, tm[s]), (tm - {s})[HomedSlot(bs, s, tm[s]) := tm[s]])
  {
    hide CountersExact, Free, HasFree, FreeLane, MoveHome;
    var tag := tm[s];
    var to := HomedSlot(bs, s, tag);
    HomedSlotIs(bs, tm, s);
    hide *;
    if to == s {
      assert (tm - {s})[s := tag] == tm;
    } else {
      PutHomeExact(bs, tm, to, tag, Pointee(bs, s));
      FreeExact(PutSlot(bs, to, tag.fp, Pointee(bs, s)), tm[to := tag], s);
      assert tm[to := tag] - {s} == (tm - {s})[to := tag];
    }
  }

  /** Moving home is taking a free lane of the home group and freeing the slot the entry was in. */
  lemma HomedSlotIs(bs: seq<Group>, tm: Entries, s: Slot)
    requires Describes(bs, tm) && s in tm
    ensures Has(|bs|, s) && IsPow2(|bs|) && tm[s].home < |bs|
    ensures var tag := tm[s];
            var to := HomedSlot(bs, s, tag);
            if to == s then MoveHome(bs, s, tag) == bs
            else to !in tm && to.group == tag.home && tag.fp != 0
                 && MoveHome(bs, s, tag) == Free(PutSlot(bs, to, tag.fp, Pointee(bs, s)), s, tag)
  {
    hide Free, LaneOf;
  }

  // The empty index ///////////////////////////////////////////////////////////

  ghost predicate IsEmptyIndex(bs: seq<Group>) {
    && (forall s: Slot :: Has(|bs|, s) ==> !Full(bs, s))
    && (forall g: nat, c: nat :: g < |bs| && c < CLASSES ==> bs[g].overflows[c] == 0)
  }

  lemma EmptyExact(bs: seq<Group>)
    requires IsPow2(|bs|) && IsEmptyIndex(bs)
    ensures Exact(bs, map[])
  {
    forall g: nat, c: nat | g < |bs| && c < CLASSES
      ensures CounterAgrees(bs[g].overflows[c], |Passers(|bs|, map[], g, c)|)
    {
      assert Passers(|bs|, map[], g, c) == {};
    }
  }

  // Placing and freeing are inverse ///////////////////////////////////////////

  /** Freeing the entry just placed empties its lane again and takes back every count, except that a
      counter the placement moved from 254 to 255 is stuck there. */
  lemma PlaceThenFree(bs: seq<Group>, tag: Tag, v: nat, g: nat)
    requires IsPow2(|bs|) && tag.home < |bs| && HasRoom(bs, tag.home) && g < |bs|
    ensures var s := PlaceSlot(bs, tag.home);
            var r := Free(Place(bs, tag, v), s, tag);
            && r[g].fingerprints == bs[g].fingerprints
            && forall c :: 0 <= c < CLASSES ==>
                 r[g].overflows[c] == if c == Class(tag.fp) && Passes(|bs|, s, tag, g) && bs[g].overflows[c] == 254
                                      then SATURATED else bs[g].overflows[c]
  {
    DepthOfPath(|bs|, tag.home, FreeDepth(bs, tag.home, 0));
  }

  ghost predicate SameMetadata(a: seq<Group>, b: seq<Group>) {
    && |a| == |b|
    && (forall g :: 0 <= g < |a| ==> a[g].fingerprints == b[g].fingerprints)
    && (forall g :: 0 <= g < |a| ==> a[g].overflows == b[g].overflows)
  }

  /** No counter the placement of `tag` is about to increment stands one below saturation. */
  ghost predicate NoneAboutToStick(bs: seq<Group>, tag: Tag)
    requires IsPow2(|bs|) && tag.home < |bs| && HasRoom(bs, tag.home)
  {
    forall g :: 0 <= g < |bs| && Passes(|bs|, PlaceSlot(bs, tag.home), tag, g)
      ==> bs[g].overflows[Class(tag.fp)] != 254
  }

  /** An erase undoes its insert exactly when no counter on the way was about to saturate. */
  lemma PlaceThenFreeRestores(bs: seq<Group>, tag: Tag, v: nat)
    requires IsPow2(|bs|) && tag.home < |bs| && HasRoom(bs, tag.home)
    ensures SameMetadata(Free(Place(bs, tag, v), PlaceSlot(bs, tag.home), tag), bs) <==> NoneAboutToStick(bs, tag)
  {
    var s := PlaceSlot(bs, tag.home);
    var r := Free(Place(bs, tag, v), s, tag);
    forall g | 0 <= g < |bs|
      ensures r[g].fingerprints == bs[g].fingerprints
      ensures NoneAboutToStick(bs, tag) ==> r[g].overflows == bs[g].overflows
      ensures Passes(|bs|, s, tag, g) && r[g].overflows == bs[g].overflows ==> bs[g].overflows[Class(tag.fp)] != 254
    {
      PlaceThenFree(bs, tag, v, g);
    }
  }

  // When a counter is the count ////////////////////////////////////////////////

  /** Every counter is the count itself, at 255 too. */
  ghost predicate TrueCounts(bs: seq<Group>, tm: Entries) {
    && Describes(bs, tm)
    && forall g: nat, c: nat :: g < |bs| && c < CLASSES ==> bs[g].overflows[c] == |Passers(|bs|, tm, g, c)|
  }

  /** No group was passed by more than `limit` entries of one class. */
  ghost predicate PassedAtMost(n: nat, tm: Entries, limit: nat)
    requires Fits(n, tm)
  {
    forall g: nat, c: nat :: g < n && c < CLASSES ==> |Passers(n, tm, g, c)| <= limit
  }

  ghost predicate Unstuck(bs: seq<Group>) {
    forall g: nat, c: nat :: g < |bs| && c < CLASSES ==> bs[g].overflows[c] != SATURATED
  }

  /** No counter an erase of the entry in `s` is to decrement is stuck. */
  ghost predicate NoneStuckOnTheWay(bs: seq<Group>, s: Slot, tag: Tag)
    requires IsPow2(|bs|) && Has(|bs|, s) && tag.home < |bs|
  {
    forall g: nat :: g < |bs| && Passes(|bs|, s, tag, g) ==> bs[g].overflows[Class(tag.fp)] != SATURATED
  }

  /** Under the exact-counter law a counter is below its count only where that is past what a byte can say, and above
      it only where the counter is stuck. */
  lemma OffBy(bs: seq<Group>, tm: Entries, g: nat, c: nat)
    requires Exact(bs, tm) && g < |bs| && c < CLASSES
    ensures var counter, count := bs[g].overflows[c], |Passers(|bs|, tm, g, c)|;
            && (counter < count <==> count > 255)
            && (counter > count <==> counter == 255 && count < 255)
  {
    assert CounterAgrees(bs[g].overflows[c], |Passers(|bs|, tm, g, c)|);
  }

  /** A placement keeps true counts true exactly when no count goes past 255. */
  lemma PlaceTrue(bs: seq<Group>, tm: Entries, tag: Tag, v: nat)
    requires TrueCounts(bs, tm) && tag.home < |bs| && tag.fp != 0 && HasRoom(bs, tag.home)
    ensures var now := tm[PlaceSlot(bs, tag.home) := tag];
            Describes(Place(bs, tag, v), now)
            && (TrueCounts(Place(bs, tag, v), now) <==> PassedAtMost(|bs|, now, 255))
  {
    var s, r := PlaceSlot(bs, tag.home), Place(bs, tag, v);
    PlaceDescribes(bs, tm, tag, v);
    forall g: nat, c: nat | g < |bs| && c < CLASSES
      ensures r[g].overflows[c] == |Passers(|bs|, tm[s := tag], g, c)| <==> |Passers(|bs|, tm[s := tag], g, c)| <= 255
    {
      PlaceCounter(bs, tag, v, g, c);
      PassersInsert(|bs|, tm, s, tag, g, c);
    }
    hide Place, Describes;
  }

  /** Freeing an entry keeps true counts true exactly when no counter on the way stands at 255. */
  lemma FreeTrue(bs: seq<Group>, tm: Entries, s: Slot)
    requires TrueCounts(bs, tm) && s in tm
    ensures Fits(|bs|, tm) && Has(|bs|, s) && Describes(Free(bs, s, tm[s]), tm - {s})
    ensures TrueCounts(Free(bs, s, tm[s]), tm - {s}) <==> NoneStuckOnTheWay(bs, s, tm[s])
  {
    FreeDescribes(bs, tm, s);
    var r, tag := Free(bs, s, tm[s]), tm[s];
    forall g: nat, c: nat | g < |bs| && c < CLASSES
      ensures r[g].overflows[c] == |Passers(|bs|, tm - {s}, g, c)|
         <==> !(Class(tag.fp) == c && Passes(|bs|, s, tag, g) && bs[g].overflows[c] == SATURATED)
    {
      PassersRemove(|bs|, tm, s, g, c);
    }
    hide Free, Describes;
  }

  /** Where no group is passed by more than 254 entries of a class, no counter being stuck and every counter being the
      count are the same. */
  lemma TrueIffUnstuck(bs: seq<Group>, tm: Entries)
    requires Exact(bs, tm) && PassedAtMost(|bs|, tm, 254)
    ensures TrueCounts(bs, tm) <==> Unstuck(bs)
  {
  }

  /** Where no counter is stuck every counter is the count, and no count is past 254. */
  lemma UnstuckLow(bs: seq<Group>, tm: Entries)
    requires Exact(bs, tm) && Unstuck(bs)
    ensures TrueCounts(bs, tm) && PassedAtMost(|bs|, tm, 254)
  {
  }

  lemma FewerBefore(n: nat, tm: Entries, s: Slot, tag: Tag, limit: nat)
    requires Fits(n, tm) && Has(n, s) && tag.home < n && s !in tm
    requires Fits(n, tm[s := tag]) && PassedAtMost(n, tm[s := tag], limit)
    ensures PassedAtMost(n, tm, limit)
  {
    forall g: nat, c: nat | g < n && c < CLASSES
      ensures |Passers(n, tm, g, c)| <= limit
    {
      PassersInsert(n, tm, s, tag, g, c);
    }
  }

  /** From an index without a stuck counter a placement sticks none exactly when no group has then been passed by more
      than 254 entries of one class. */
  lemma PlaceUnstuck(bs: seq<Group>, tm: Entries, tag: Tag, v: nat)
    requires Exact(bs, tm) && Unstuck(bs) && tag.home < |bs| && tag.fp != 0 && HasRoom(bs, tag.home)
    ensures var now := tm[PlaceSlot(bs, tag.home) := tag];
            Fits(|bs|, now) && (Unstuck(Place(bs, tag, v)) <==> PassedAtMost(|bs|, now, 254))
  {
    var r, now := Place(bs, tag, v), tm[PlaceSlot(bs, tag.home) := tag];
    UnstuckLow(bs, tm);
    PlaceTrue(bs, tm, tag, v);
    PlaceExact(bs, tm, tag, v);
    if Unstuck(r) {
      UnstuckLow(r, now);
    } else if PassedAtMost(|bs|, now, 254) {
      TrueIffUnstuck(r, now);
    }
  }

  // Few entries ////////////////////////////////////////////////////////////////

  /** The sixteen entries of a full group have not passed it. */
  lemma PassersOfFull(bs: seq<Group>, tm: Entries, g: nat, c: nat)
    requires Describes(bs, tm) && g < |bs| && !HasFree(bs[g])
    ensures |Passers(|bs|, tm, g, c)| + LANES <= |tm.Keys|
  {
    var passers, here := Passers(|bs|, tm, g, c), Lanes(g, LANES);
    forall s | s in here
      ensures s in tm.Keys && s !in passers
    {
      assert Has(|bs|, s) && Full(bs, s);
    }
    hide *;
    assert passers <= tm.Keys && here <= tm.Keys;
    ApartInside(tm.Keys, passers, here);
  }

  lemma ApartInside<T>(all: set<T>, a: set<T>, b: set<T>)
    requires a <= all && b <= all && a * b == {}
    ensures |a| + |b| <= |all|
  {
    DisjointUnionSize(a, b);
    DisjointUnionSize(a + b, all - (a + b));
    assert all == a + b + (all - (a + b));
  }

  /** A placement passes full groups only. */
  lemma PassedIsFull(bs: seq<Group>, tag: Tag, g: nat)
    requires IsPow2(|bs|) && tag.home < |bs| && HasRoom(bs, tag.home) && g < |bs|
    requires Passes(|bs|, PlaceSlot(bs, tag.home), tag, g)
    ensures !HasFree(bs[g])
  {
    var d := FreeDepth(bs, tag.home, 0);
    DepthOfPath(|bs|, tag.home, d);
    assert Path(|bs|, tag.home, Depth(|bs|, tag.home, g)) == g;
  }

  /** No group can have been passed by more than 254 entries of a class, or there are too few entries for a placement to
      make it so. */
  ghost predicate Sparse(n: nat, tm: Entries)
    requires Fits(n, tm)
  {
    PassedAtMost(n, tm, 254) || |tm.Keys| <= 270
  }

  lemma SparseBefore(n: nat, tm: Entries, s: Slot, tag: Tag)
    requires Fits(n, tm) && Has(n, s) && tag.home < n && s !in tm
    requires Fits(n, tm[s := tag]) && Sparse(n, tm[s := tag])
    ensures Sparse(n, tm)
  {
    if PassedAtMost(n, tm[s := tag], 254) {
      FewerBefore(n, tm, s, tag, 254);
    } else {
      assert tm[s := tag].Keys == tm.Keys + {s};
    }
  }

  /** With at most 270 entries, the one placed last included, no counter has got to 255 by counting. */
  lemma PlaceFew(bs: seq<Group>, tm: Entries, tag: Tag)
    requires Exact(bs, tm) && Unstuck(bs) && tag.home < |bs| && HasRoom(bs, tag.home) && |tm.Keys| < 270
    ensures var now := tm[PlaceSlot(bs, tag.home) := tag];
            Fits(|bs|, now) && PassedAtMost(|bs|, now, 254)
  {
    UnstuckLow(bs, tm);
    var s := PlaceSlot(bs, tag.home);
    var now := tm[s := tag];
    PassersInsert(|bs|, tm, s, tag, tag.home, 0);
    hide Unstuck, CountersExact, PlaceSlot, HasFree, HasRoom, Passers;
    forall g: nat, c: nat | g < |bs| && c < CLASSES
      ensures |Passers(|bs|, now, g, c)| <= 254
    {
      PassersInsert(|bs|, tm, s, tag, g, c);
      if Passes(|bs|, s, tag, g) {
        PassedIsFull(bs, tag, g);
        PassersOfFull(bs, tm, g, c);
      }
    }
  }

  lemma PlaceSparse(bs: seq<Group>, tm: Entries, tag: Tag, v: nat)
    requires Exact(bs, tm) && Unstuck(bs) && tag.home < |bs| && tag.fp != 0 && HasRoom(bs, tag.home)
    requires Fits(|bs|, tm[PlaceSlot(bs, tag.home) := tag]) && Sparse(|bs|, tm[PlaceSlot(bs, tag.home) := tag])
    ensures Unstuck(Place(bs, tag, v))
  {
    PlaceUnstuck(bs, tm, tag, v);
    if |tm.Keys| < 270 {
      PlaceFew(bs, tm, tag);
    } else {
      OneMore(bs, tm, PlaceSlot(bs, tag.home), tag);
    }
    hide Unstuck, CountersExact, Describes, PlaceSlot, Place, PassedAtMost, HasRoom, FreeDepth;
  }

  lemma OneMore(bs: seq<Group>, tm: Entries, s: Slot, tag: Tag)
    requires Describes(bs, tm) && Has(|bs|, s) && !Full(bs, s)
    ensures |tm[s := tag].Keys| == |tm.Keys| + 1
  {
    assert tm[s := tag].Keys == tm.Keys + {s};
  }

  /** Decrements make no counter stick: none of them meets a zero. */
  lemma FreeUnstuck(bs: seq<Group>, tm: Entries, s: Slot)
    requires Exact(bs, tm) && s in tm && Unstuck(bs)
    ensures Unstuck(Free(bs, s, tm[s]))
  {
    var r, tag := Free(bs, s, tm[s]), tm[s];
    forall g: nat, c: nat | g < |bs| && c < CLASSES
      ensures r[g].overflows[c] != SATURATED
    {
      if c == Class(tag.fp) && Passes(|bs|, s, tag, g) {
        NoWrap(bs, tm, s, g);
      }
    }
  }

  lemma SameCountersUnstuck(bs: seq<Group>, r: seq<Group>)
    requires |r| == |bs| && Unstuck(bs) && forall g: nat :: g < |bs| ==> r[g].overflows == bs[g].overflows
    ensures Unstuck(r)
  {
  }

  lemma MoveHomeUnstuck(bs: seq<Group>, tm: Entries, s: Slot)
    requires Exact(bs, tm) && s in tm && Unstuck(bs)
    ensures Unstuck(MoveHome(bs, s, tm[s]))
  {
    hide CountersExact, Free, HasFree, FreeLane, MoveHome, Unstuck;
    var tag := tm[s];
    var to := HomedSlot(bs, s, tag);
    HomedSlotIs(bs, tm, s);
    if to != s {
      SameCountersUnstuck(bs, PutSlot(bs, to, tag.fp, Pointee(bs, s)));
      hide *;
      PutHomeExact(bs, tm, to, tag, Pointee(bs, s));
      FreeUnstuck(PutSlot(bs, to, tag.fp, Pointee(bs, s)), tm[to := tag], s);
    }
  }

  lemma EmptyUnstuck(bs: seq<Group>)
    requires IsEmptyIndex(bs)
    ensures Unstuck(bs)
  {
  }
}
