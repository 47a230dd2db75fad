/** An index from outside: the check of its shape and of its slots, and the table built from it. */
module Loading {
  import opened Probing
  import opened Bits
  import opened Groups
  import opened Counters
  import opened Bijection
  import opened Reference
  import opened Sizing
  import opened TableState
  import opened Operations
  import opened Soundness
  import opened Tables

  // The shape //////////////////////////////////////////////////////////////////

  /** No blocks for no values, else a power of two of blocks between the smallest array and the largest. */
  predicate ShapeFits(n: nat, numValues: nat, bits: nat)
    requires ValidBits(bits)
  {
    if n == 0 then numValues == 0
    else And(n, n - 1) == 0 && Pow2(64 - INITIAL_SHIFTS) <= n && n <= Pow2(bits) / LANES
  }

  lemma PowerFits(k: nat, bits: nat)
    requires ValidBits(bits)
    ensures Pow2(64 - INITIAL_SHIFTS) <= Pow2(k) && Pow2(k) <= Pow2(bits) / LANES <==> 2 <= k && k <= bits - 4
  {
    assert Pow2(4) == LANES;
    Pow2Sum(4, bits - 4);
    hide Pow2;
    assert Pow2(bits) / LANES == Pow2(bits - 4);
    Pow2Order(2, k);
    Pow2Order(k, bits - 4);
  }

  /** The shapes let through are those of the arrays a table can have. */
  lemma ShapeFitsIff(n: nat, numValues: nat, bits: nat)
    requires ValidBits(bits) && n > 0
    ensures ShapeFits(n, numValues, bits) <==> exists shifts: nat :: ValidShifts(shifts, bits) && n == Pow2(64 - shifts)
  {
    ClearLowest(n);
    hide And, Pow2;
    if IsPow2(n) {
      var k: nat :| Pow2(k) == n;
      PowerFits(k, bits);
      if ShapeFits(n, numValues, bits) {
        assert ValidShifts(64 - k, bits) && n == Pow2(64 - (64 - k));
      }
      if shifts: nat :| ValidShifts(shifts, bits) && n == Pow2(64 - shifts) {
        Pow2Injective(k, 64 - shifts);
      }
    }
  }

  lemma Pow2Order(a: nat, b: nat)
    ensures Pow2(a) <= Pow2(b) <==> a <= b
  {
    if a < b {
      Pow2Monotone(a, b);
    } else if b < a {
      Pow2Monotone(b, a);
    }
  }

  /** The shift of a loaded array: counted down from 64 until the array is no larger than it says. */
  method DescribeLoadedIndex(n: nat, bits: nat) returns (shifts: nat)
    requires exists r: nat :: ValidShifts(r, bits) && n == Pow2(64 - r)
    ensures ValidShifts(shifts, bits) && n == Pow2(64 - shifts)
  {
    ghost var r: nat :| ValidShifts(r, bits) && n == Pow2(64 - r);
    shifts := 64;
    while Pow2(64 - shifts) < n
      invariant r <= shifts <= 64
    {
      Pow2Order(64 - r, 64 - shifts);
      shifts := shifts - 1;
    }
    Pow2Order(64 - r, 64 - shifts);
  }

  // The slots //////////////////////////////////////////////////////////////////

  /** The full slots before lane `l` of block `i`. */
  ghost function FullBefore(bs: seq<Group>, i: nat, l: nat): (slots: set<Slot>)
    ensures forall s: Slot :: s in slots <==>
      Has(|bs|, s) && Full(bs, s) && (s.group < i || (s.group == i && s.lane < l))
  {
    set s: Slot | s in FullSlots(bs) && (s.group < i || (s.group == i && s.lane < l))
  }

  /** No slot points past the values, no two at one value. */
  ghost predicate Unique(bs: seq<Group>, n: nat, slots: set<Slot>)
    requires forall s :: s in slots ==> Has(|bs|, s)
  {
    && (forall s :: s in slots ==> Pointee(bs, s) < n)
    && (forall s, t :: s in slots && t in slots && Pointee(bs, s) == Pointee(bs, t) ==> s == t)
  }

  /** Bit v of the bitmap: bit v % 64 of word v / 64. */
  predicate Seen(seen: seq<Word>, v: nat)
    requires v < 64 * |seen|
  {
    Bit(seen[v / 64], v % 64)
  }

  /** The bitmap marks the values the slots point at. */
  ghost predicate Marks(seen: seq<Word>, bs: seq<Group>, n: nat, slots: set<Slot>)
    requires forall s :: s in slots ==> Has(|bs|, s)
  {
    n <= 64 * |seen| && forall v :: 0 <= v < n ==> (Seen(seen, v) <==> v in Pointees(bs, slots))
  }

  lemma OneSlotMore(bs: seq<Group>, n: nat, slots: set<Slot>, s: Slot)
    requires Has(|bs|, s) && s !in slots && forall t :: t in slots ==> Has(|bs|, t)
    ensures Unique(bs, n, slots + {s})
       <==> Unique(bs, n, slots) && Pointee(bs, s) < n && Pointee(bs, s) !in Pointees(bs, slots)
    ensures Pointees(bs, slots + {s}) == Pointees(bs, slots) + {Pointee(bs, s)}
  {
    if Unique(bs, n, slots + {s}) {
      assert s in slots + {s};
      assert forall t :: t in slots ==> t in slots + {s};
    }
  }

  /** Setting one bit of one word sets that bit of the bitmap and no other. */
  lemma SetSeen(seen: seq<Word>, v: nat, u: nat)
    requires v < 64 * |seen| && u < 64 * |seen|
    ensures Or(seen[v / 64], Pow2(v % 64)) < 0x1_0000_0000_0000_0000
    ensures Seen(seen[v / 64 := Or(seen[v / 64], Pow2(v % 64))], u) <==> u == v || Seen(seen, u)
    ensures And(seen[v / 64], Pow2(v % 64)) != 0 <==> Seen(seen, v)
  {
    TwoTo64();
    Pow2Monotone(v % 64, 64);
    AndPow2(seen[v / 64], v % 64);
    hide Pow2, Or, And, Bit;
    OrBelow(seen[v / 64], Pow2(v % 64), 64);
    OrBits(seen[v / 64], Pow2(v % 64), u % 64);
    Pow2Bits(v % 64, u % 64);
  }

  /** One slot of check_index_block_unique: its bit is tested and set. */
  method MarkValue(seen: array<Word>, v: nat, ghost bs: seq<Group>, ghost n: nat, ghost slots: set<Slot>, ghost s: Slot)
    returns (twice: bool)
    requires v < n <= 64 * seen.Length && Has(|bs|, s) && Pointee(bs, s) == v && s !in slots
    requires forall t :: t in slots ==> Has(|bs|, t)
    requires Marks(seen[..], bs, n, slots)
    modifies seen
    ensures twice <==> v in Pointees(bs, slots)
    ensures Marks(seen[..], bs, n, slots + {s})
  {
    ghost var before := seen[..];
    hide Pointees, Seen, Unique, Full, Pointee;
    forall u | 0 <= u < n
      ensures And(before[v / 64], Pow2(v % 64)) != 0 <==> Seen(before, v)
      ensures Or(before[v / 64], Pow2(v % 64)) < 0x1_0000_0000_0000_0000
      ensures Seen(before[v / 64 := Or(before[v / 64], Pow2(v % 64))], u) <==> u == v || Seen(before, u)
    {
      SetSeen(before, v, u);
    }
    OneSlotMore(bs, n, slots, s);
    hide Or, And, Pow2;
    var bit := Pow2(v % 64);
    SetSeen(before, v, v);
    twice := And(seen[v / 64], bit) != 0;
    seen[v / 64] := Or(seen[v / 64], bit);
    assert seen[..] == before[v / 64 := Or(before[v / 64], bit)];
  }

  lemma BeforeStep(bs: seq<Group>, i: nat, l: nat)
    requires i < |bs| && l < LANES
    ensures Slot(i, l) !in FullBefore(bs, i, l)
    ensures FullBefore(bs, i, l + 1)
         == if Full(bs, Slot(i, l)) then FullBefore(bs, i, l) + {Slot(i, l)} else FullBefore(bs, i, l)
  {
  }

  lemma NextBlock(bs: seq<Group>, i: nat)
    requires i < |bs|
    ensures FullBefore(bs, i, LANES) == FullBefore(bs, i + 1, 0)
  {
  }

  lemma AllBlocks(bs: seq<Group>, n: nat)
    ensures FullBefore(bs, 0, 0) == {} && FullBefore(bs, |bs|, 0) == FullSlots(bs)
    ensures Unique(bs, n, FullSlots(bs)) && |FullSlots(bs)| == n <==> Bijects(bs, n)
  {
  }

  /** check_index_block_unique: counts this block's full slots, and whether every slot so far points at a value of
      its own. */
  method CheckBlock(bs: seq<Group>, i: nat, numValues: nat, used: nat, seen: array<Word>) returns (ok: bool, now: nat)
    requires i < |bs| && numValues <= 64 * seen.Length
    requires used == |FullBefore(bs, i, 0)| && Marks(seen[..], bs, numValues, FullBefore(bs, i, 0))
    modifies seen
    ensures now == |FullBefore(bs, i + 1, 0)| && Marks(seen[..], bs, numValues, FullBefore(bs, i + 1, 0))
    ensures ok && Unique(bs, numValues, FullBefore(bs, i, 0)) <==> Unique(bs, numValues, FullBefore(bs, i + 1, 0))
  {
    hide Marks, Unique, Pointees;
    ok, now := true, used;
    for slot := 0 to LANES
      invariant now == |FullBefore(bs, i, slot)| && Marks(seen[..], bs, numValues, FullBefore(bs, i, slot))
      invariant ok && Unique(bs, numValues, FullBefore(bs, i, 0)) <==> Unique(bs, numValues, FullBefore(bs, i, slot))
    {
      BeforeStep(bs, i, slot);
      ghost var before := FullBefore(bs, i, slot);
      if bs[i].fingerprints[slot] != 0 {
        OneSlotMore(bs, numValues, before, Slot(i, slot));
        hide FullBefore;
        now := now + 1;
        var v := bs[i].index[slot];
        if v >= numValues {
          MarkPast(seen[..], bs, numValues, before, Slot(i, slot));
          ok := false;
        } else {
          var twice := MarkValue(seen, v, bs, numValues, before, Slot(i, slot));
          if twice {
            ok := false;
          }
        }
      }
    }
    NextBlock(bs, i);
  }

  lemma MarkPast(seen: seq<Word>, bs: seq<Group>, n: nat, slots: set<Slot>, s: Slot)
    requires Has(|bs|, s) && s !in slots && (forall t :: t in slots ==> Has(|bs|, t))
    requires Marks(seen, bs, n, slots) && Pointee(bs, s) >= n
    ensures Marks(seen, bs, n, slots + {s})
  {
    OneSlotMore(bs, n, slots, s);
    hide Pointees, Seen;
  }

  /** check_index_unique: accepts exactly the blocks whose full slots are in bijection with the values. */
  method CheckIndexUnique(bs: seq<Group>, numValues: nat) returns (ok: bool)
    ensures ok <==> Bijects(bs, numValues)
  {
    var seen := new Word[numValues / 64 + 1](_ => 0);
    AllBlocks(bs, numValues);
    NoneSeen(seen[..], bs, numValues);
    hide Marks, Unique, Bijects, FullBefore;
    var used := 0;
    ok := true;
    for i := 0 to |bs|
      invariant used == |FullBefore(bs, i, 0)| && Marks(seen[..], bs, numValues, FullBefore(bs, i, 0))
      invariant ok <==> Unique(bs, numValues, FullBefore(bs, i, 0))
      modifies seen
    {
      var fine, now := CheckBlock(bs, i, numValues, used, seen);
      ok, used := fine && ok, now;
    }
    ok := ok && used == numValues;
  }

  lemma NoneSeen(seen: seq<Word>, bs: seq<Group>, n: nat)
    requires |seen| == n / 64 + 1 && forall i :: 0 <= i < |seen| ==> seen[i] == 0
    ensures Marks(seen, bs, n, {}) && Unique(bs, n, {})
  {
    assert Pointees(bs, {}) == {};
    forall v | 0 <= v < n
      ensures !Seen(seen, v)
    {
      ZeroBits(v % 64);
    }
  }

  // The table //////////////////////////////////////////////////////////////////

  /** What the checked load lets through. */
  ghost predicate Accepts(index: seq<Group>, numValues: nat, bits: nat)
    requires ValidBits(bits)
  {
    ShapeFits(|index|, numValues, bits) && (index == [] || Bijects(index, numValues))
  }

  /** The index of a table as it is written out: nothing for a table that has not allocated one. */
  ghost function IndexOf<K, V>(s: State<K, V>): seq<Group> {
    if s.hasArray then s.groups else []
  }

  /** `s` has these values and this index. */
  ghost predicate Holds<K, V>(s: State<K, V>, values: seq<Entry<K, V>>, index: seq<Group>) {
    s.values == values && Shape(s) && IndexOf(s) == index && s.hasArray == (index != [])
  }

  /** An index the check let through, with its values, is a table of the lower tier. */
  lemma AcceptedSafe<K, V>(s: State<K, V>, index: seq<Group>)
    requires ValidBits(s.bits) && Holds(s, s.values, index) && Accepts(index, |s.values|, s.bits)
    ensures Safe(s)
  {
    if index == [] {
      EmptyInjects(EmptyGroups(4), 0);
    }
  }

  /** The owning constructor from values and an index, for both levels of trust; false is the source's bad-index
      error. */
  method Load<K(==), V>(hash: K -> Word, bits: nat, load: Load,
                        values: seq<Entry<K, V>>, index: seq<Group>, checked: bool)
    returns (ok: bool, t: Table<K, V>)
    requires ValidBits(bits) && ValidLoad(load)
    ensures checked ==> (ok <==> Accepts(index, |values|, bits))
    ensures !checked ==> (ok <==> ShapeFits(|index|, |values|, bits))
    ensures fresh(t) && fresh(t.groups) && t.hash == hash && t.bits == bits && t.load == load
    ensures ok ==> Holds(t.St(), values, index)
    ensures ok && Accepts(index, |values|, bits) ==> t.Valid()
  {
    hide Bijects, Safe, And;
    t := new Table(hash, bits, load);
    ok := ShapeFits(|index|, |values|, bits);
    if !ok {
      return;
    }
    if index == [] {
      SafeShape(t.St());
    } else {
      ShapeFitsIff(|index|, |values|, bits);
      if checked {
        ok := CheckIndexUnique(index, |values|);
        if !ok {
          return;
        }
      }
      var blocks := new Group[|index|](i requires 0 <= i < |index| => index[i]);
      assert blocks[..] == index;
      t.groups := blocks;
      t.shifts := DescribeLoadedIndex(|index|, bits);
      t.mask := |index| - 1;
      t.capacity := Capacity(load, bits, LANES * |index|);
      t.values := values;
      assert t.Data() == index;
    }
    assert Holds(t.St(), values, index);
    hide Holds, Shape, Accepts;
    if Accepts(index, |values|, bits) {
      AcceptedSafe(t.St(), index);
    }
  }

  /** Loading a table's own index and values, at any load factor, is accepted and gives a table that answers every
      lookup as the original does, and keeps the upper tier where the original has it. */
  lemma LoadOwn<K, V>(s: State<K, V>, r: State<K, V>)
    requires Safe(s) && r.hash == s.hash && r.bits == s.bits && Holds(r, s.values, IndexOf(s))
    ensures ValidBits(s.bits) && Accepts(IndexOf(s), |s.values|, s.bits) && Safe(r)
    ensures r.groups == s.groups && r.shifts == s.shifts
    ensures r == s.(load := r.load, capacity := r.capacity) && (ValidLoad(r.load) ==> r == SetLoad(s, r.load))
    ensures forall k :: Find(r, k) == Find(s, k)
    ensures Sound(s) ==> Sound(r)
  {
    if s.hasArray {
      ShapeFitsIff(|s.groups|, |s.values|, s.bits);
      Pow2Injective(64 - s.shifts, 64 - r.shifts);
    } else {
      NoneWithoutArray(s);
    }
    hide Bijects, Exact, DistinctKeys;
    AcceptedSafe(r, IndexOf(s));
    SameAnswers(s, r);
  }

  lemma SameAnswers<K, V>(s: State<K, V>, r: State<K, V>)
    requires Safe(s) && Safe(r)
    requires r.hash == s.hash && r.values == s.values && r.groups == s.groups && r.shifts == s.shifts
    ensures forall k :: Find(r, k) == Find(s, k)
    ensures Sound(s) ==> Sound(r)
  {
    hide Bijects, Exact, DistinctKeys, TagMap, ProbeFrom;
  }
}
