/** What every operation of the table computes, as a function of the whole state. The functions are defined
    on every Safe state, whatever its fingerprints and counters hold; a changed key is an outcome. */
module Operations {
  import opened Probing
  import opened Groups
  import opened Counters
  import opened Bijection
  import opened Reference
  import opened Sizing
  import opened TableState
  import opened Building
  import opened Faults

  /** A default constructed table. */
  ghost function NewTable<K, V>(hash: K -> Word, bits: nat, load: Load): State<K, V> {
    State(hash, bits, load, [], EmptyGroups(4), INITIAL_SHIFTS, false, 0)
  }

  // Growing, rebuilding ////////////////////////////////////////////////////////

  /** The state with an index of these groups and this shift filled from its values. */
  ghost function Refilled<K, V>(s: State<K, V>, base: seq<Group>, shifts: nat): (r: State<K, V>)
    requires shifts <= 64 && |base| == Pow2(64 - shifts) && ValidLoad(s.load)
  {
    s.(groups := Build(base, TagsFor(s.hash, shifts, s.values)),
       shifts := shifts,
       hasArray := true,
       capacity := Capacity(s.load, s.bits, LANES * |base|))
  }

  /** The same with only the first n values come to. */
  ghost function PartlyFilled<K, V>(s: State<K, V>, base: seq<Group>, shifts: nat, n: nat): (r: State<K, V>)
    requires shifts <= 64 && |base| == Pow2(64 - shifts) && ValidLoad(s.load) && n <= |s.values|
  {
    s.(groups := Build(base, TagsFor(s.hash, shifts, s.values)[..n]),
       shifts := shifts,
       hasArray := true,
       capacity := Capacity(s.load, s.bits, LANES * |base|))
  }

  lemma FilledToTheEnd<K, V>(s: State<K, V>, base: seq<Group>, shifts: nat)
    requires shifts <= 64 && |base| == Pow2(64 - shifts) && ValidLoad(s.load)
    ensures PartlyFilled(s, base, shifts, |s.values|) == Refilled(s, base, shifts)
  {
    hide TagFor, Build;
    var tags := TagsFor(s.hash, shifts, s.values);
    assert tags[..|s.values|] == tags;
  }

  /** A freshly allocated index filled from the values. */
  ghost function Rebuilt<K, V>(s: State<K, V>, shifts: nat): (r: State<K, V>)
    requires shifts <= 64 && ValidLoad(s.load)
  {
    Refilled(s, EmptyGroups(Pow2(64 - shifts)), shifts)
  }

  /** Fingerprints and counters zeroed, value indices left alone. */
  function Cleared(bs: seq<Group>): (r: seq<Group>)
    ensures |r| == |bs|
  {
    seq(|bs|, g requires 0 <= g < |bs| =>
      bs[g].(fingerprints := EMPTY_GROUP.fingerprints, overflows := EMPTY_GROUP.overflows))
  }

  ghost function WithArray<K, V>(s: State<K, V>): State<K, V>
    requires ValidLoad(s.load)
  {
    if s.hasArray then s else s.(hasArray := true, capacity := Capacity(s.load, s.bits, LANES * |s.groups|))
  }

  // Inserting //////////////////////////////////////////////////////////////////

  /** How an insert ends: with the position of the key and whether it was inserted, or with no memory for the index,
      at the largest index there can be, with a value container that could not append, or in the middle of filling a
      new array. `budget` counts the allocations of the index that may still succeed. */
  datatype Insertion<!K(==), V> =
    | Placed(state: State<K, V>, at: nat, inserted: bool, budget: nat)
    | NoMemory(state: State<K, V>)
    | Overflow(state: State<K, V>, budget: nat)
    | AppendFailed(state: State<K, V>, budget: nat)
    | Unfilled(state: State<K, V>, budget: nat)
  {
    function LeftOver(): nat {
      if NoMemory? then 0 else budget
    }
  }

  /** Appending a value whose key the probe did not find. */
  ghost function Append<K, V>(s: State<K, V>, e: Entry<K, V>, budget: nat): (r: Insertion<K, V>)
    requires Safe(s) && s.hasArray
    ensures !r.Unfilled?
  {
    var n := |s.values|;
    var longer := s.(values := s.values + [e]);
    if n + 1 <= s.capacity then
      RoomToAppend(s, e.key);
      Placed(longer.(groups := Place(s.groups, TagOf(s, e.key), n)), n, true, budget)
    else if s.capacity == Pow2(s.bits) then Overflow(s, budget)
    else if budget == 0 then NoMemory(s)
    else
      CanGrow(s);
      Placed(Rebuilt(longer, s.shifts - 1), n, true, budget - 1)
  }

  /** An insert that looks first. `appends` says whether the value container can take the value; it is only asked to
      when the key is not there. */
  ghost function Emplace<K, V>(s: State<K, V>, e: Entry<K, V>, budget: nat, appends: bool): (r: Insertion<K, V>)
    requires Safe(s)
    ensures !r.Unfilled?
  {
    if !s.hasArray && budget == 0 then NoMemory(s) else
      WithArraySafe(s);
      var t := WithArray(s);
      var left := if s.hasArray then budget else budget - 1;
      match Probe(t, e.key)
      case Some(slot) =>
        Placed(t.(groups := MoveHome(t.groups, slot, TagOf(t, e.key))), Pointee(t.groups, slot), false, left)
      case None => if appends then Append(t, e, left) else AppendFailed(t, left)
  }

  /** What an insert of `e` comes to when a growth it needs is cut short, the hash of value `throwsAt` throwing. */
  ghost function OrUnfilled<K, V>(s: State<K, V>, e: Entry<K, V>, r: Insertion<K, V>, throwsAt: nat)
    : (t: Insertion<K, V>)
    requires Safe(s)
  {
    if r.Placed? && r.state.shifts < s.shifts && throwsAt <= |s.values| then
      Unfilled(PartlyFilled(s.(values := s.values + [e]), EmptyGroups(Pow2(64 - r.state.shifts)), r.state.shifts,
                            CameTo(throwsAt, |s.values| + 1)),
               r.budget)
    else r
  }

  /** An insert, whatever trouble it runs into. */
  ghost function EmplaceIn<K, V>(s: State<K, V>, e: Entry<K, V>, budget: nat, trouble: Trouble): (r: Insertion<K, V>)
    requires Safe(s)
  {
    var r := Emplace(s, e, budget, trouble != NoAppend);
    if trouble.NoHash? then OrUnfilled(s, e, r, trouble.at) else r
  }

  // Erasing ////////////////////////////////////////////////////////////////////

  datatype Outcome<!K(==), V> = Done(state: State<K, V>) | KeyChanged

  /** Erasing the value that `slot` points at, whose key has tag `tag`; the last value fills the hole. */
  ghost function EraseSlot<K, V>(s: State<K, V>, slot: Slot, tag: Tag): (r: Outcome<K, V>)
    requires Safe(s) && Has(|s.groups|, slot) && Full(s.groups, slot) && tag.home < |s.groups|
  {
    var i, last := Pointee(s.groups, slot), |s.values| - 1;
    var freed := Free(s.groups, slot, tag);
    if i == last then Done(s.(groups := freed, values := RemoveAt(s.values, i)))
    else
      match SlotOfValue(freed, TagOf(s, s.values[last].key), last, 0)
      case None => KeyChanged
      case Some(t) => Done(s.(groups := Repoint(freed, t, i), values := RemoveAt(s.values, i)))
  }

  ghost function EraseAt<K, V>(s: State<K, V>, i: nat): (r: Outcome<K, V>)
    requires Safe(s) && i < |s.values|
  {
    var tag := TagOf(s, s.values[i].key);
    match SlotOfValue(s.groups, tag, i, 0)
    case None => KeyChanged
    case Some(slot) => EraseSlot(s, slot, tag)
  }

  ghost function EraseKey<K, V>(s: State<K, V>, k: K): (r: Outcome<K, V>)
    requires Safe(s)
  {
    match Probe(s, k)
    case None => Done(s)
    case Some(slot) => EraseSlot(s, slot, TagOf(s, k))
  }

  // Replacing a key ////////////////////////////////////////////////////////////

  ghost function ReplaceKeyAt<K, V>(s: State<K, V>, i: nat, k: K): (r: Outcome<K, V>)
    requires Safe(s) && i < |s.values|
  {
    if Probe(s, k).Some? then Done(s) else
      var tag := TagOf(s, s.values[i].key);
      match SlotOfValue(s.groups, tag, i, 0)
      case None => KeyChanged
      case Some(slot) =>
        RoomAfterFree(s, slot, tag, TagOf(s, k).home);
        Done(s.(values := s.values[i := Entry(k, s.values[i].val)],
                groups := Place(Free(s.groups, slot, tag), TagOf(s, k), i)))
  }

  // The rest ///////////////////////////////////////////////////////////////////

  ghost function Clear<K, V>(s: State<K, V>): State<K, V> {
    if s.values == [] then s else s.(values := [], groups := Cleared(s.groups))
  }

  /** extract() &&: the values are handed out and the index is emptied, even of stuck counters. */
  ghost function ExtractAll<K, V>(s: State<K, V>): State<K, V> {
    s.(values := [], groups := Cleared(s.groups))
  }

  /** How many values a rehash or a reserve for `count` elements makes room for. */
  function Wanted(bits: nat, count: nat, size: nat): nat {
    Max(Min(count, Pow2(bits)), size)
  }

  /** The shift of the array for them. */
  ghost function WantedShifts<K, V>(s: State<K, V>, count: nat): nat
    requires ValidLoad(s.load) && ValidBits(s.bits)
  {
    ShiftsFor(s.load, s.bits, Wanted(s.bits, count, |s.values|))
  }

  /** rehash(count): the array for max(count, size) values, or the same array cleared and filled again. */
  ghost function Rehash<K, V>(s: State<K, V>, count: nat, budget: nat): (r: Insertion<K, V>)
    requires Safe(s)
    ensures !r.Unfilled? && (r.Placed? ==> r.state.shifts == WantedShifts(s, count))
  {
    var shifts := WantedShifts(s, count);
    if shifts != s.shifts then
      if budget == 0 then NoMemory(s) else Placed(Rebuilt(s, shifts), 0, false, budget - 1)
    else if !s.hasArray then Placed(s, 0, false, budget)
    else Placed(Refilled(s, Cleared(s.groups), s.shifts), 0, false, budget)
  }

  /** reserve(count): grows the array, never shrinks it. */
  ghost function Reserve<K, V>(s: State<K, V>, count: nat, budget: nat): (r: Insertion<K, V>)
    requires Safe(s)
    ensures !r.Unfilled? && (r.Placed? && r.state.shifts < s.shifts ==> r.state.shifts == WantedShifts(s, count))
  {
    var shifts := WantedShifts(s, count);
    if !s.hasArray || shifts < s.shifts then
      if budget == 0 then NoMemory(s) else Placed(Rebuilt(s, shifts), 0, false, budget - 1)
    else Placed(s, 0, false, budget)
  }

  /** A rehash whose fill is cut short, the hash of value `throwsAt` throwing. */
  ghost function RehashIn<K, V>(s: State<K, V>, count: nat, budget: nat, throwsAt: nat): (r: Insertion<K, V>)
    requires Safe(s)
  {
    var r := Rehash(s, count, budget);
    if r.Placed? && r.state.hasArray && throwsAt < |s.values| then
      var base := if r.state.shifts != s.shifts then EmptyGroups(Pow2(64 - r.state.shifts)) else Cleared(s.groups);
      Unfilled(PartlyFilled(s, base, r.state.shifts, CameTo(throwsAt, |s.values|)), r.budget)
    else r
  }

  ghost function ReserveIn<K, V>(s: State<K, V>, count: nat, budget: nat, throwsAt: nat): (r: Insertion<K, V>)
    requires Safe(s)
  {
    var r := Reserve(s, count, budget);
    if r.Placed? && r.state.shifts < s.shifts && throwsAt < |s.values| then
      Unfilled(PartlyFilled(s, EmptyGroups(Pow2(64 - r.state.shifts)), r.state.shifts, CameTo(throwsAt, |s.values|)),
               r.budget)
    else r
  }

  function Max(a: nat, b: nat): nat {
    if a <= b then b else a
  }

  /** max_load_factor(load), cut at 1. */
  ghost function SetLoad<K, V>(s: State<K, V>, load: Load): State<K, V>
    requires load.den > 0
  {
    var cut := if load.num <= load.den then load else Load(1, 1);
    s.(load := cut,
       capacity := if !s.hasArray then 0 else Capacity(cut, s.bits, LANES * |s.groups|))
  }

  // Why the functions above are defined ////////////////////////////////////////

  lemma EmptyGroupsEmpty(n: nat)
    ensures IsEmptyIndex(EmptyGroups(n))
  {
  }

  lemma WithArraySafe<K, V>(s: State<K, V>)
    requires Safe(s)
    ensures Safe(WithArray(s))
  {
    assert Pow2(2) == 4;
  }

  lemma RoomToAppend<K, V>(s: State<K, V>, k: K)
    requires Safe(s) && s.hasArray && |s.values| + 1 <= s.capacity
    ensures |s.values| < LANES * |s.groups|
    ensures HasRoom(s.groups, TagOf(s, k).home)
    ensures Bijects(Place(s.groups, TagOf(s, k), |s.values|), |s.values| + 1)
  {
    PlaceNext(s.groups, |s.values|, TagOf(s, k));
  }

  /** Below the largest array there is a next larger one, and it has room for one value more. */
  lemma CanGrow<K, V>(s: State<K, V>)
    requires Safe(s) && s.hasArray && s.capacity != Pow2(s.bits)
    ensures s.shifts > 0 && ValidShifts(s.shifts - 1, s.bits)
    ensures |s.values| + 1 <= LANES * Pow2(64 - (s.shifts - 1))
  {
    SlotsOf(s.shifts, s.bits);
    NoMoreThanSlots(s.groups, |s.values|);
  }

  lemma RoomAfterFree<K, V>(s: State<K, V>, slot: Slot, tag: Tag, home: nat)
    requires Safe(s) && Has(|s.groups|, slot) && Full(s.groups, slot)
    requires tag.home < |s.groups| && home < |s.groups|
    ensures HasRoom(Free(s.groups, slot, tag), home)
  {
    FreeInjects(s.groups, |s.values|, |s.values|, slot, tag);
    NoMoreThanSlots(s.groups, |s.values|);
    RoomWhenNotFull(Free(s.groups, slot, tag), home);
  }

  /** Past the capacity an append fails, or rebuilds into an array twice as large. */
  lemma AppendOver<K, V>(s: State<K, V>, e: Entry<K, V>, budget: nat)
    requires Safe(s) && s.hasArray && |s.values| + 1 > s.capacity
    ensures s.capacity == Pow2(s.bits) ==> Append(s, e, budget) == Overflow(s, budget)
    ensures s.capacity != Pow2(s.bits) && budget == 0 ==> Append(s, e, budget) == NoMemory(s)
    ensures s.capacity != Pow2(s.bits) && budget > 0 ==>
              && s.shifts > 0 && ValidShifts(s.shifts - 1, s.bits)
              && |s.values| + 1 <= LANES * Pow2(64 - (s.shifts - 1))
              && Append(s, e, budget)
                 == Placed(Rebuilt(s.(values := s.values + [e]), s.shifts - 1), |s.values|, true, budget - 1)
  {
    hide Safe, Rebuilt, Bijects;
    if s.capacity != Pow2(s.bits) && budget > 0 {
      CanGrow(s);
    }
  }
}
