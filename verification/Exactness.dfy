/** When the counters of a table are exact without exception: over runs in which no group is ever passed by more than
    254 entries of one class. */
module Exactness {
  import opened Probing
  import opened Groups
  import opened Counters
  import opened Bijection
  import opened Reference
  import opened Sizing
  import opened TableState
  import opened Building
  import opened Operations
  import opened Safety
  import opened Soundness
  import opened Replacing
  import opened Merging
  import opened Runs

  /** No group of the table was passed by more than 254 of its entries of one class. */
  ghost predicate Low<K, V>(s: State<K, V>)
    requires Safe(s)
  {
    EntriesFit(s);
    PassedAtMost(|s.groups|, EntriesOf(s), 254)
  }

  /** That, or no more than 270 values: too few for a counter that counts up to get to 255. */
  ghost predicate Calm<K, V>(s: State<K, V>)
    requires Safe(s)
  {
    EntriesFit(s);
    Sparse(|s.groups|, EntriesOf(s))
  }

  lemma LowIsCalm<K, V>(s: State<K, V>)
    requires Safe(s) && Low(s)
    ensures Calm(s)
  {
  }

  lemma FewIsCalm<K, V>(s: State<K, V>)
    requires Safe(s) && |s.values| <= 270
    ensures Calm(s)
  {
    assert EntriesOf(s).Keys == FullSlots(s.groups);
  }

  // One operation //////////////////////////////////////////////////////////////

  lemma ExtendedEntries<K, V>(s: State<K, V>, e: Entry<K, V>)
    requires Sound(s) && s.hasArray && |s.values| + 1 <= s.capacity
    ensures HasRoom(s.groups, TagOf(s, e.key).home) && Safe(Extended(s, e))
    ensures EntriesOf(Extended(s, e)) == EntriesOf(s)[PlaceSlot(s.groups, TagOf(s, e.key).home) := TagOf(s, e.key)]
  {
    ExtendedSafe(s, e);
    RoomToAppend(s, e.key);
    ExtendedTags(s.hash, s.shifts, s.values, e);
    PlaceFilled(s.groups, TagOf(s, e.key), |s.values|);
    hide Place, Exact, TagMap, TagsFor, Injects, HasRoom, TagFor, Capacity, DistinctKeys, PlaceSlot, Filled;
    TagMapExtend(s.groups, Place(s.groups, TagOf(s, e.key), |s.values|), TagsFor(s.hash, s.shifts, s.values),
                 PlaceSlot(s.groups, TagOf(s, e.key).home), TagOf(s, e.key));
  }

  lemma ExtendedUnstuck<K, V>(s: State<K, V>, e: Entry<K, V>)
    requires Sound(s) && s.hasArray && |s.values| + 1 <= s.capacity && Unstuck(s.groups)
    requires HasRoom(s.groups, TagOf(s, e.key).home) && Safe(Extended(s, e)) && Calm(Extended(s, e))
    ensures Unstuck(Extended(s, e).groups)
  {
    hide Safe, Place, Unstuck, Sparse, Exact, EntriesOf, HasRoom, DistinctKeys, TagFor;
    ExtendedEntries(s, e);
    EntriesFit(Extended(s, e));
    SafeShape(s);
    PlaceSparse(s.groups, EntriesOf(s), TagOf(s, e.key), |s.values|);
  }

  lemma RefilledUnstuck<K, V>(s: State<K, V>, base: seq<Group>, shifts: nat)
    requires ValidLoad(s.load) && ValidShifts(shifts, s.bits) && |base| == Pow2(64 - shifts) && IsEmptyIndex(base)
    requires |s.values| <= LANES * |base|
    requires Safe(Refilled(s, base, shifts)) && Calm(Refilled(s, base, shifts))
    ensures Unstuck(Refilled(s, base, shifts).groups)
  {
    var r := Refilled(s, base, shifts);
    SafeShape(r);
    EntriesFit(r);
    hide Safe, Build, Unstuck, Sparse, IsEmptyIndex, TagMap, Capacity, Injects, Pow2, ValidShifts;
    BuildUnstuck(base, TagsFor(s.hash, shifts, s.values));
  }

  lemma RebuiltUnstuck<K, V>(s: State<K, V>, shifts: nat)
    requires ValidLoad(s.load) && ValidShifts(shifts, s.bits) && |s.values| <= LANES * Pow2(64 - shifts)
    requires Safe(Rebuilt(s, shifts)) && Calm(Rebuilt(s, shifts))
    ensures Unstuck(Rebuilt(s, shifts).groups)
  {
    hide Safe, Calm, Unstuck, IsEmptyIndex, Refilled;
    EmptyGroupsEmpty(Pow2(64 - shifts));
    RefilledUnstuck(s, EmptyGroups(Pow2(64 - shifts)), shifts);
  }

  lemma AppendUnstuck<K, V>(s: State<K, V>, e: Entry<K, V>, budget: nat)
    requires Sound(s) && s.hasArray && Unstuck(s.groups)
    requires Safe(Append(s, e, budget).state) && Calm(Append(s, e, budget).state)
    ensures Unstuck(Append(s, e, budget).state.groups)
  {
    hide Safe, Calm, Unstuck, Rebuilt, Place, HasRoom, TagOf, Sound;
    SoundParts(s);
    SafeShape(s);
    if |s.values| + 1 <= s.capacity {
      RoomToAppend(s, e.key);
      assert Append(s, e, budget).state == Extended(s, e);
      ExtendedUnstuck(s, e);
    } else if s.capacity != Pow2(s.bits) && budget > 0 {
      CanGrow(s);
      RebuiltUnstuck(s.(values := s.values + [e]), s.shifts - 1);
    }
  }

  lemma FoundUnstuck<K, V>(s: State<K, V>, slot: Slot)
    requires Sound(s) && Has(|s.groups|, slot) && Full(s.groups, slot) && Unstuck(s.groups)
    ensures var tag := EntriesOf(s)[slot];
            IsPow2(|s.groups|) && tag.home < |s.groups| && Unstuck(MoveHome(s.groups, slot, tag))
  {
    hide Safe, Unstuck, MoveHome, Exact, EntriesOf, DistinctKeys;
    EntriesFit(s);
    MoveHomeUnstuck(s.groups, EntriesOf(s), slot);
  }

  lemma EmplaceUnstuck<K, V>(s: State<K, V>, e: Entry<K, V>, budget: nat, appends: bool)
    requires Sound(s) && Unstuck(s.groups)
    requires Safe(Emplace(s, e, budget, appends).state) && Calm(Emplace(s, e, budget, appends).state)
    ensures Unstuck(Emplace(s, e, budget, appends).state.groups)
  {
    hide Safe, Calm, Sound, Unstuck, MoveHome, Append, Probe, EntriesOf, Shape;
    SoundParts(s);
    SafeShape(s);
    if s.hasArray || budget > 0 {
      WithArraySafe(s);
      WithArraySound(s);
      var t := WithArray(s);
      SafeShape(t);
      match Probe(t, e.key)
      case Some(slot) =>
        FoundTag(t, e.key);
        FoundUnstuck(t, slot);
      case None =>
        if appends {
          AppendUnstuck(t, e, if s.hasArray then budget else budget - 1);
        }
    }
  }

  lemma EraseSlotUnstuck<K, V>(s: State<K, V>, slot: Slot)
    requires Sound(s) && Has(|s.groups|, slot) && Full(s.groups, slot) && Unstuck(s.groups)
    requires IsPow2(|s.groups|) && EntriesOf(s)[slot].home < |s.groups|
    ensures var r := EraseSlot(s, slot, EntriesOf(s)[slot]);
            r.Done? ==> Unstuck(r.state.groups)
  {
    hide Safe, Unstuck, Free, Exact, EntriesOf, RemoveAt, SlotOfValue, TagOf, DistinctKeys;
    PointeeInRange(s, slot);
    var tag := EntriesOf(s)[slot];
    FreeUnstuck(s.groups, EntriesOf(s), slot);
    var last := |s.values| - 1;
    var freed := Free(s.groups, slot, tag);
    SafeShape(s);
    var found := SlotOfValue(freed, TagOf(s, s.values[last].key), last, 0);
    if found.Some? {
      SameCountersUnstuck(freed, Repoint(freed, found.value, Pointee(s.groups, slot)));
    }
  }

  lemma EraseKeyUnstuck<K, V>(s: State<K, V>, k: K)
    requires Sound(s) && Unstuck(s.groups)
    ensures Safe(s)
    ensures EraseKey(s, k).Done? ==> Unstuck(EraseKey(s, k).state.groups)
  {
    hide Safe, Sound, Unstuck, EntriesOf, EraseSlot, Probe;
    SoundParts(s);
    SafeShape(s);
    if Probe(s, k).Some? {
      FoundTag(s, k);
      EraseSlotUnstuck(s, Probe(s, k).value);
    }
  }

  lemma EraseAtUnstuck<K, V>(s: State<K, V>, i: nat)
    requires Sound(s) && Unstuck(s.groups) && i < |s.values|
    ensures Safe(s)
    ensures EraseAt(s, i).Done? ==> Unstuck(EraseAt(s, i).state.groups)
  {
    hide Safe, Sound, Unstuck, EntriesOf, EraseSlot, SlotOfValue, TagOf, Injects;
    SoundParts(s);
    SafeShape(s);
    SlotOfValueSound(s, i);
    EraseSlotUnstuck(s, SlotFor(s.groups, |s.values|, i));
  }

  lemma ReplaceKeyUnstuck<K, V>(s: State<K, V>, i: nat, k: K)
    requires Sound(s) && Unstuck(s.groups) && i < |s.values|
    requires Safe(s) && ReplaceKeyAt(s, i, k).Done? && Safe(ReplaceKeyAt(s, i, k).state)
    requires Calm(ReplaceKeyAt(s, i, k).state)
    ensures Unstuck(ReplaceKeyAt(s, i, k).state.groups)
  {
    hide Safe, Sound, Shape, Unstuck, SlotOfValue, TagOf, Probe, Find, Scan, EntriesOf, Free, Place, HasRoom, Exact,
         Sparse, Injects;
    SoundParts(s);
    SafeShape(s);
    FindIsScan(s, k);
    if Probe(s, k).None? {
      RekeyedIs(s, i, k);
      hide ReplaceKeyAt;
      var r, tm, slot, tag := ReplaceKeyAt(s, i, k).state, EntriesOf(s), SlotFor(s.groups, |s.values|, i), TagOf(s, k);
      EntriesFit(r);
      FreeUnstuck(s.groups, tm, slot);
      FreeExact(s.groups, tm, slot);
      PlaceSparse(Free(s.groups, slot, tm[slot]), tm - {slot}, tag, i);
    } else {
      assert ReplaceKeyAt(s, i, k).state == s;
    }
  }

  lemma RehashUnstuck<K, V>(s: State<K, V>, count: nat, budget: nat)
    requires Safe(s) && Unstuck(s.groups)
    requires Safe(Rehash(s, count, budget).state) && Calm(Rehash(s, count, budget).state)
    ensures Unstuck(Rehash(s, count, budget).state.groups)
  {
    hide Safe, Calm, Unstuck, IsEmptyIndex, ShiftsFor, Capacity, Build, Rebuilt, Refilled, Cleared;
    SafeShape(s);
    WantedFits(s, count);
    if WantedShifts(s, count) != s.shifts {
      if budget > 0 {
        RebuiltUnstuck(s, WantedShifts(s, count));
      }
    } else if s.hasArray {
      ClearedEmpty(s.groups);
      RefilledUnstuck(s, Cleared(s.groups), s.shifts);
    }
  }

  lemma ReserveUnstuck<K, V>(s: State<K, V>, count: nat, budget: nat)
    requires Safe(s) && Unstuck(s.groups)
    requires Safe(Reserve(s, count, budget).state) && Calm(Reserve(s, count, budget).state)
    ensures Unstuck(Reserve(s, count, budget).state.groups)
  {
    hide Safe, Calm, Unstuck, ShiftsFor, Capacity, Rebuilt;
    SafeShape(s);
    WantedFits(s, count);
    if (!s.hasArray || WantedShifts(s, count) < s.shifts) && budget > 0 {
      RebuiltUnstuck(s, WantedShifts(s, count));
    }
  }

  lemma ReplacedUnstuck<K, V>(s: State<K, V>, container: seq<Entry<K, V>>)
    requires Safe(s) && |container| <= Pow2(s.bits)
    requires Safe(Replaced(s, container)) && Calm(Replaced(s, container))
    ensures Unstuck(Replaced(s, container).groups)
  {
    hide Safe, Calm, Unstuck, Dedup, Refilled, EmptiedFor, ValidShifts, Capacity;
    SafeShape(s);
    var base, shifts := EmptiedFor(s, |container|).0, EmptiedFor(s, |container|).1;
    BaseSmaller(base, shifts, s.bits, |container|, |Dedup(container, 0)|);
    hide IsEmptyIndex;
    RefilledUnstuck(s.(values := Dedup(container, 0)), base, shifts);
  }

  lemma SourceAfterUnstuck<K, V>(s: State<K, V>, kept: seq<Entry<K, V>>)
    requires Safe(s) && |kept| <= |s.values| && Unstuck(s.groups)
    requires Safe(SourceAfter(s, kept)) && Calm(SourceAfter(s, kept))
    ensures Unstuck(SourceAfter(s, kept).groups)
  {
    hide Safe, Calm, Unstuck, IsEmptyIndex, Refilled, Cleared;
    SafeShape(s);
    SizeFits(s);
    ClearedEmpty(s.groups);
    if |kept| != |s.values| {
      RefilledUnstuck(s.(values := kept), Cleared(s.groups), s.shifts);
    }
  }

  /** An operation from a sound table without a stuck counter to a calm one sticks none. */
  lemma StepUnstuck<K, V>(s: State<K, V>, op: Op<K, V>)
    requires Sound(s) && Unstuck(s.groups)
    requires Safe(s) && Step(s, op).Done? && Safe(Step(s, op).state) && Calm(Step(s, op).state)
    ensures Unstuck(Step(s, op).state.groups)
  {
    hide Safe, Sound, Calm, Unstuck, Emplace, EraseKey, EraseAt, ReplaceKeyAt, Rehash, Reserve, Replaced, MergeFrom,
         SourceAfter, NeedsArray, Cleared, IsEmptyIndex;
    match op
    case InsertEntry(e, budget, appends) => EmplaceUnstuck(s, e, budget, appends);
    case EraseByKey(k) => EraseKeyUnstuck(s, k);
    case EraseByIndex(i) => if i < |s.values| { EraseAtUnstuck(s, i); }
    case Rekey(i, k) => if i < |s.values| { ReplaceKeyUnstuck(s, i, k); }
    case RehashFor(count, budget) => RehashUnstuck(s, count, budget);
    case ReserveFor(count, budget) => ReserveUnstuck(s, count, budget);
    case ClearAll => ClearedEmpty(s.groups); EmptyUnstuck(Cleared(s.groups));
    case TakeAll => ClearedEmpty(s.groups); EmptyUnstuck(Cleared(s.groups));
    case LimitLoad(num, den) =>
    case ReplaceAll(container, budget) =>
      if ReplaceWith(s, container, budget).Placed? { ReplacedUnstuck(s, container); }
    case GiveTo(dest, budget, x) =>
      if Safe(dest) { SourceAfterUnstuck(s, MergeFrom(dest, s.values, 0, budget, x).kept); }
  }

  // Whole runs ////////////////////////////////////////////////////////////////

  /** The states a run goes through, the first and the last included. */
  ghost function States<K, V>(s: State<K, V>, ops: seq<Op<K, V>>): (states: seq<State<K, V>>)
    requires Safe(s)
    ensures |states| > 0 && states[0] == s
    decreases |ops|
  {
    if ops == [] then [s] else
      StepSafe(s, ops[0]);
      match Step(s, ops[0])
      case KeyChanged => [s]
      case Done(next) => [s] + States(next, ops[1..])
  }

  lemma {:induction false} StatesLast<K, V>(s: State<K, V>, ops: seq<Op<K, V>>)
    requires Safe(s)
    ensures Run(s, ops).Done? ==> States(s, ops)[|States(s, ops)| - 1] == Run(s, ops).state
    decreases |ops|
  {
    hide Safe, Step;
    if ops != [] {
      StepSafe(s, ops[0]);
      if Step(s, ops[0]).Done? {
        StatesLast(Step(s, ops[0]).state, ops[1..]);
      }
    }
  }

  ghost predicate AllCalm<K, V>(states: seq<State<K, V>>) {
    forall i :: 0 <= i < |states| ==> Safe(states[i]) && Calm(states[i])
  }

  /** In no state was a group passed by more than 254 entries of a class. */
  ghost predicate AllLow<K, V>(states: seq<State<K, V>>) {
    forall i :: 0 <= i < |states| ==> Safe(states[i]) && Low(states[i])
  }

  ghost predicate AllUnstuck<K, V>(states: seq<State<K, V>>) {
    forall i :: 0 <= i < |states| ==> Unstuck(states[i].groups)
  }

  /** In every state every counter is its count. */
  ghost predicate AllCounted<K, V>(states: seq<State<K, V>>) {
    forall i :: 0 <= i < |states| ==> Safe(states[i]) && TrueCounts(states[i].groups, EntriesOf(states[i]))
  }

  ghost predicate AllSound<K, V>(states: seq<State<K, V>>) {
    forall i :: 0 <= i < |states| ==> Sound(states[i])
  }

  lemma {:induction false} StatesSound<K, V>(s: State<K, V>, ops: seq<Op<K, V>>)
    requires Sound(s) && AllPartnered(ops)
    ensures Safe(s) && AllSound(States(s, ops))
    decreases |ops|
  {
    hide Safe, Sound, Step, Partnered;
    SoundParts(s);
    if ops != [] {
      StepSafe(s, ops[0]);
      StepSound(s, ops[0]);
      StatesSound(Step(s, ops[0]).state, ops[1..]);
    }
  }

  /** A run through calm states, from a sound table without a stuck counter, sticks none anywhere. */
  lemma {:induction false} StatesUnstuck<K, V>(s: State<K, V>, ops: seq<Op<K, V>>)
    requires Sound(s) && AllPartnered(ops) && Unstuck(s.groups)
    requires Safe(s) && AllCalm(States(s, ops))
    ensures AllUnstuck(States(s, ops))
    decreases |ops|
  {
    hide Safe, Sound, Step, Calm, Unstuck, Partnered;
    if ops != [] {
      StepSafe(s, ops[0]);
      StepSound(s, ops[0]);
      var next := Step(s, ops[0]).state;
      assert States(s, ops)[1..] == States(next, ops[1..]);
      assert Calm(next) by {
        assert States(s, ops)[1] == next;
      }
      StepUnstuck(s, ops[0]);
      StatesUnstuck(next, ops[1..]);
    }
  }

  lemma UnstuckCounted<K, V>(states: seq<State<K, V>>)
    requires AllSound(states) && AllUnstuck(states)
    ensures AllLow(states) && AllCounted(states)
  {
    hide Safe, Sound, TrueCounts, Unstuck, PassedAtMost, Exact, DistinctKeys;
    forall i | 0 <= i < |states|
      ensures Safe(states[i]) && Low(states[i]) && TrueCounts(states[i].groups, EntriesOf(states[i]))
    {
      SoundParts(states[i]);
      EntriesFit(states[i]);
      UnstuckLow(states[i].groups, EntriesOf(states[i]));
    }
  }

  lemma LowCalm<K, V>(states: seq<State<K, V>>)
    requires AllLow(states)
    ensures AllCalm(states)
  {
    hide Safe, Low, Calm;
    forall i | 0 <= i < |states|
      ensures Safe(states[i]) && Calm(states[i])
    {
      LowIsCalm(states[i]);
    }
  }

  /** When the counters are exact without exception: from a sound table without a stuck counter, a run sticks none if
      and only if in none of its states a group has been passed by more than 254 entries of a class; and then every
      counter is its count in every one of them. */
  lemma RunCounts<K, V>(s: State<K, V>, ops: seq<Op<K, V>>)
    requires Sound(s) && AllPartnered(ops) && Unstuck(s.groups)
    ensures Safe(s) && Run(s, ops).Done?
    ensures AllLow(States(s, ops)) <==> AllUnstuck(States(s, ops))
    ensures AllUnstuck(States(s, ops)) ==> AllCounted(States(s, ops))
  {
    hide Safe, Sound, States, Unstuck, AllLow, AllCalm, AllUnstuck, AllCounted, AllSound, Run;
    SoundParts(s);
    RunSound(s, ops);
    StatesSound(s, ops);
    var states := States(s, ops);
    if AllLow(states) {
      LowCalm(states);
      StatesUnstuck(s, ops);
    }
    if AllUnstuck(states) {
      UnstuckCounted(states);
    }
  }

  /** The same from a new table, in the words of the counters: as long as no group is passed by more than 254 entries of
      a class, every counter is the number of live entries of its class whose walk passes its group. */
  lemma ReachableTrueCounts<K, V>(
    hash: K -> Word, bits: nat, load: Load, ops: seq<Op<K, V>>, g: nat, c: nat)
    requires ValidBits(bits) && ValidLoad(load) && AllPartnered(ops)
    requires Safe(NewTable<K, V>(hash, bits, load)) && AllLow(States(NewTable<K, V>(hash, bits, load), ops))
    ensures var r := Run(NewTable<K, V>(hash, bits, load), ops);
            && r.Done? && Sound(r.state)
            && (g < |r.state.groups| && c < CLASSES ==>
                  Fits(|r.state.groups|, EntriesOf(r.state))
                  && r.state.groups[g].overflows[c] == |Passers(|r.state.groups|, EntriesOf(r.state), g, c)|)
  {
    var s := NewTable<K, V>(hash, bits, load);
    hide Safe, Sound, AllLow, AllUnstuck, EntriesOf, Run;
    NewTableSound<K, V>(hash, bits, load);
    EmptyGroupsEmpty(4);
    EmptyUnstuck(s.groups);
    RunSound(s, ops);
    RunCounts(s, ops);
    StatesLast(s, ops);
  }

  // Small tables ///////////////////////////////////////////////////////////////

  lemma PassersAtMostValues<K, V>(s: State<K, V>, g: nat, c: nat)
    requires Safe(s) && g < |s.groups|
    ensures Fits(|s.groups|, EntriesOf(s)) && |Passers(|s.groups|, EntriesOf(s), g, c)| <= |s.values|
  {
    EntriesFit(s);
    var passers, full := Passers(|s.groups|, EntriesOf(s), g, c), FullSlots(s.groups);
    assert passers <= full;
    assert |full| == |passers| + |full - passers|;
  }

  /** The run never holds more than 270 values. */
  ghost predicate AllFew<K, V>(states: seq<State<K, V>>) {
    forall i :: 0 <= i < |states| ==> Safe(states[i]) && |states[i].values| <= 270
  }

  lemma FewCalm<K, V>(states: seq<State<K, V>>)
    requires AllFew(states)
    ensures AllCalm(states)
  {
    hide Safe, Calm;
    forall i | 0 <= i < |states|
      ensures Safe(states[i]) && Calm(states[i])
    {
      FewIsCalm(states[i]);
    }
  }

  /** A table that never holds more than 270 values has only exact counters: a counter gets to 255 by a placement past a
      full group, whose sixteen entries it does not count. Crowding.Fullest reaches 255 with 271. */
  lemma FewCounted<K, V>(s: State<K, V>, ops: seq<Op<K, V>>)
    requires Sound(s) && AllPartnered(ops) && Unstuck(s.groups)
    requires Safe(s) && AllFew(States(s, ops))
    ensures AllUnstuck(States(s, ops)) && AllLow(States(s, ops)) && AllCounted(States(s, ops))
  {
    hide Safe, Sound, States, Unstuck, AllLow, AllCalm, AllUnstuck, AllCounted, AllFew, Run;
    FewCalm(States(s, ops));
    StatesUnstuck(s, ops);
    RunCounts(s, ops);
  }
}
