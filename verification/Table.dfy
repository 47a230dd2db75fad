/** The table itself: values in a dense vector, and beside them an array of groups that every operation updates
    in place. Each method is proved against the function of the whole state that specifies it; none asks for
    more than the lower tier, Valid. */
module Tables {
  import opened Probing
  import opened Groups
  import opened Counters
  import opened Bijection
  import opened Reference
  import opened Sizing
  import opened TableState
  import opened Building
  import opened Operations
  import opened Safety
  import opened Soundness
  import opened Swar
  import opened Faults
  import opened Walks

  /** How an insert ends. */
  datatype Status = Inserted(at: nat) | Found(at: nat) | OutOfMemory | TooMany | NotAppended | HashThrew

  /** The status and the allocations left over that belong to a specified outcome. */
  ghost predicate Reports<K, V>(r: Insertion<K, V>, status: Status, left: nat) {
    match r
    case Placed(_, at, inserted, budget) => status == (if inserted then Inserted(at) else Found(at)) && left == budget
    case NoMemory(_) => status == OutOfMemory && left == 0
    case Overflow(_, budget) => status == TooMany && left == budget
    case AppendFailed(_, budget) => status == NotAppended && left == budget
    case Unfilled(_, budget) => status == HashThrew && left == budget
  }

  class Table<K(==), V> {
    const hash: K -> Word
    const bits: nat
    var load: Load
    var values: seq<Entry<K, V>>
    var groups: array<Group>
    var mask: nat
    var shifts: nat
    var capacity: nat

    /** The blocks a lookup reads: the sentinel's four empty ones while no array is allocated. */
    function Data(): (bs: seq<Group>)
      reads this, groups
    {
      if groups.Length == 0 then EmptyGroups(4) else groups[..]
    }

    ghost function St(): (s: State<K, V>)
      reads this, groups
    {
      State(hash, bits, load, values, Data(), shifts, groups.Length != 0, capacity)
    }

    ghost predicate Valid()
      reads this, groups
    {
      Safe(St()) && mask == if groups.Length == 0 then 0 else groups.Length - 1
    }

    constructor (hash: K -> Word, bits: nat, load: Load)
      requires ValidBits(bits) && ValidLoad(load)
      ensures Valid() && Sound(St()) && fresh(groups)
      ensures this.hash == hash && this.bits == bits && this.load == load && values == [] && groups.Length == 0
    {
      this.hash := hash;
      this.bits := bits;
      this.load := load;
      values := [];
      groups := new Group[0];
      mask := 0;
      shifts := INITIAL_SHIFTS;
      capacity := 0;
      new;
      NewTableSound<K, V>(hash, bits, load);
    }

    method Decompose(key: K) returns (tag: Tag)
      requires shifts <= 64
      ensures tag == TagOf(St(), key)
    {
      var mh := hash(key);
      tag := Tag(Home(mh, shifts), Fingerprint(mh));
    }

    // Lookup ///////////////////////////////////////////////////////////////////

    method Probe(key: K) returns (r: Option<Slot>)
      requires Valid()
      ensures Shape(St()) && r == TableState.Probe(St(), key)
    {
      hide Safe, Bijects, TagOf;
      SafeShape(St());
      var tag := Decompose(key);
      BijectsPointsBelow(Data(), |values|, |values|);
      hide PointsBelow;
      r := ProbeWalk(values, Data(), mask, tag, key);
    }

    method Find(key: K) returns (i: nat)
      requires Valid()
      ensures Shape(St()) && i == TableState.Find(St(), key)
      ensures i < |values| ==> values[i].key == key
      ensures i <= |values|
      ensures Sound(St()) ==> i == Scan(values, key)
    {
      hide Safe, Sound, Shape;
      if Sound(St()) {
        FindIsScan(St(), key);
      }
      var r := Probe(key);
      i := if r.None? then |values| else Data()[r.value.group].index[r.value.lane];
    }

    // Placing, freeing, moving /////////////////////////////////////////////////

    method EraseGroupSlot(slot: Slot, tag: Tag)
      requires IsPow2(groups.Length) && Has(groups.Length, slot) && tag.home < groups.Length
      modifies groups
      ensures groups[..] == Free(old(groups[..]), slot, tag)
    {
      hide IsPow2;
      var group := groups[slot.group];
      groups[slot.group] := group.(fingerprints := group.fingerprints[slot.lane := 0]);
      assert groups[..] == ClearSlot(old(groups[..]), slot);
      hide ClearSlot;
      UncountWalk(groups, tag.home, Class(tag.fp), slot.group);
    }

    method MoveToHome(slot: Slot, tag: Tag)
      requires IsPow2(groups.Length) && Has(groups.Length, slot) && tag.home < groups.Length
      modifies groups
      ensures groups[..] == MoveHome(old(groups[..]), slot, tag)
    {
      hide IsPow2, Free;
      if slot.group == tag.home {
        return;
      }
      var home := groups[tag.home];
      var lane := FirstEmpty(home);
      if lane == LANES {
        return;
      }
      var from := groups[slot.group];
      groups[tag.home] := home.(fingerprints := home.fingerprints[lane := from.fingerprints[slot.lane]],
                                index := home.index[lane := from.index[slot.lane]]);
      assert groups[..] == PutSlot(old(groups[..]), Slot(tag.home, lane),
                                   from.fingerprints[slot.lane], from.index[slot.lane]);
      hide PutSlot;
      EraseGroupSlot(slot, tag);
    }

    // Allocating and filling ///////////////////////////////////////////////////

    /** A fresh array of empty groups with its shift, mask and capacity, all four together. */
    method AllocateFromShift(newShifts: nat)
      requires ValidLoad(load) && newShifts <= 64
      modifies this
      ensures groups.Length == Pow2(64 - newShifts) && groups[..] == EmptyGroups(groups.Length) && fresh(groups)
      ensures values == old(values) && load == old(load)
      ensures shifts == newShifts && mask == groups.Length - 1
      ensures capacity == Capacity(load, bits, LANES * groups.Length)
    {
      var n := Pow2(64 - newShifts);
      groups := new Group[n](_ => EMPTY_GROUP);
      shifts := newShifts;
      mask := n - 1;
      capacity := Capacity(load, bits, LANES * n);
    }

    /** Points a slot at every value. False when the hash of value `throwsAt` throws. */
    method FillFromValues(throwsAt: nat) returns (ok: bool)
      requires shifts <= 64 && groups.Length == Pow2(64 - shifts) && IsPow2(groups.Length)
      requires IsEmptyIndex(groups[..]) && |values| <= LANES * groups.Length
      modifies groups
      ensures ok <==> |values| <= throwsAt
      ensures groups[..] == Build(old(groups[..]), TagsFor(hash, shifts, values)[..CameTo(throwsAt, |values|)])
      ensures ok ==> groups[..] == Build(old(groups[..]), TagsFor(hash, shifts, values))
    {
      hide Build, IsEmptyIndex, TagFor, IsPow2, Pow2;
      ok := FillWalk(groups, hash, shifts, values, throwsAt);
      ghost var tags := TagsFor(hash, shifts, values);
      assert tags[..|values|] == tags;
    }

    // Inserting ////////////////////////////////////////////////////////////////

    /** Allocates the first array, which every path that writes the index does before anything else. */
    method AllocateIfNone(budget: nat) returns (ok: bool, left: nat)
      requires Valid()
      modifies this
      ensures Valid() && (groups == old(groups) || fresh(groups))
      ensures ok <==> old(groups.Length != 0) || budget > 0
      ensures ok ==> groups.Length != 0
      ensures St() == if ok then WithArray(old(St())) else old(St())
      ensures left == if ok && old(groups.Length == 0) then budget - 1 else budget
    {
      hide Safe;
      SafeShape(St());
      WithArraySafe(St());
      ok, left := true, budget;
      if groups.Length == 0 {
        if budget == 0 {
          ok := false;
        } else {
          left := budget - 1;
          AllocateFromShift(shifts);
        }
      }
    }

    /** A new array filled with all the values, or until the hash of value `throwsAt` throws. */
    method Rebuild(newShifts: nat, throwsAt: nat) returns (ok: bool)
      requires ValidLoad(load) && ValidShifts(newShifts, bits) && |values| <= LANES * Pow2(64 - newShifts)
      modifies this
      ensures fresh(groups) && groups.Length != 0 && mask == groups.Length - 1 && values == old(values)
      ensures ok <==> |values| <= throwsAt
      ensures ok ==> St() == Rebuilt(old(St()), newShifts)
      ensures St() == PartlyFilled(old(St()), EmptyGroups(Pow2(64 - newShifts)), newShifts, CameTo(throwsAt, |values|))
    {
      hide Build, IsEmptyIndex, Pow2, Capacity;
      EmptyGroupsEmpty(Pow2(64 - newShifts));
      AllocateFromShift(newShifts);
      ok := FillFromValues(throwsAt);
    }

    method PopBack(ghost before: State<K, V>, ghost e: Entry<K, V>)
      requires St() == before.(values := before.values + [e])
      modifies this`values
      ensures St() == before
    {
      values := values[..|values| - 1];
      assert values == before.values;
    }

    /** The value appended last overflows the array: a larger one is filled with all of them. Where there is none,
        or no memory for it, the value is taken out again; where a hash throws on the way, it is not. */
    method IncreaseSize(budget: nat, throwsAt: nat, ghost before: State<K, V>, ghost e: Entry<K, V>)
      returns (status: Status, left: nat)
      requires Safe(before) && before.hasArray && |before.values| + 1 > before.capacity
      requires St() == before.(values := before.values + [e]) && mask == groups.Length - 1
      modifies this
      ensures (groups == old(groups) || fresh(groups)) && groups.Length != 0
      ensures var r := OrUnfilled(before, e, Append(before, e, budget), throwsAt);
              (r.Unfilled? || Valid()) && St() == r.state && Reports(r, status, left)
    {
      hide Safe, Shape, Append, Rebuilt, PartlyFilled;
      AppendSafe(before, e, budget);
      AppendOver(before, e, budget);
      SafeShape(before);
      RebuiltShifts(before.(values := before.values + [e]), before.shifts - 1);
      if capacity == Pow2(bits) {
        PopBack(before, e);
        status, left := TooMany, budget;
      } else if budget == 0 {
        PopBack(before, e);
        status, left := OutOfMemory, budget;
      } else {
        var ok := Rebuild(shifts - 1, throwsAt);
        left := budget - 1;
        status := if ok then Inserted(|values| - 1) else HashThrew;
      }
    }

    /** Points a slot at the value appended last, whose key was not there, or grows. */
    method PlaceAppended(tag: Tag, budget: nat, throwsAt: nat, ghost before: State<K, V>, ghost e: Entry<K, V>)
      returns (status: Status, left: nat)
      requires Safe(before) && before.hasArray && tag == TagOf(before, e.key)
      requires St() == before.(values := before.values + [e]) && mask == groups.Length - 1
      modifies this, groups
      ensures (groups == old(groups) || fresh(groups)) && groups.Length != 0
      ensures var r := OrUnfilled(before, e, Append(before, e, budget), throwsAt);
              (r.Unfilled? || Valid()) && St() == r.state && Reports(r, status, left)
    {
      hide Safe, Place, Rebuilt, PartlyFilled;
      AppendSafe(before, e, budget);
      SafeShape(before);
      hide Shape;
      if |values| > capacity {
        hide Append;
        status, left := IncreaseSize(budget, throwsAt, before, e);
      } else {
        RoomToAppend(before, e.key);
        PlaceWalk(groups, tag, |values| - 1);
        status, left := Inserted(|values| - 1), budget;
      }
    }

    /** Appends a value whose key is not there and points a slot at it. */
    method PlaceElement(e: Entry<K, V>, tag: Tag, budget: nat, trouble: Trouble) returns (status: Status, left: nat)
      requires Valid() && groups.Length != 0 && tag == TagOf(St(), e.key)
      modifies this, groups
      ensures (groups == old(groups) || fresh(groups)) && groups.Length != 0
      ensures var s := old(St());
              var r := if trouble == NoAppend then AppendFailed(s, budget)
                       else OrUnfilled(s, e, Append(s, e, budget), ThrowsAt(trouble, |s.values|));
              (r.Unfilled? || Valid()) && St() == r.state && Reports(r, status, left)
    {
      hide Safe, Append, TagOf, OrUnfilled;
      ghost var before := St();
      if trouble == NoAppend {
        return NotAppended, budget;
      }
      var throwsAt := ThrowsAt(trouble, |values|);
      values := values + [e];
      status, left := PlaceAppended(tag, budget, throwsAt, before, e);
    }

    /** An insert whose key has been hashed already, into a table that has its array. */
    method InsertHashed(mh: Word, e: Entry<K, V>, budget: nat, trouble: Trouble) returns (status: Status, left: nat)
      requires Valid() && groups.Length != 0 && mh == hash(e.key)
      modifies this, groups
      ensures (groups == old(groups) || fresh(groups)) && groups.Length != 0
      ensures var r := EmplaceIn(old(St()), e, budget, trouble);
              (r.Unfilled? || Valid()) && St() == r.state && Reports(r, status, left)
    {
      hide Safe, Shape, Append, MoveHome, TagOf, PartlyFilled;
      EmplaceSafe(St(), e, budget, trouble != NoAppend);
      SafeShape(St());
      TagParts(St(), e.key);
      var tag := Tag(Home(mh, shifts), Fingerprint(mh));
      BijectsPointsBelow(Data(), |values|, |values|);
      hide PointsBelow;
      var r := ProbeWalk(values, Data(), mask, tag, e.key);
      if r.None? {
        status, left := PlaceElement(e, tag, budget, trouble);
      } else {
        status, left := Found(groups[r.value.group].index[r.value.lane]), budget;
        MoveToHome(r.value, tag);
      }
    }

    /** try_emplace, emplace and insert: looks the key up and appends the value when it is not there. */
    method Insert(e: Entry<K, V>, budget: nat, trouble: Trouble) returns (status: Status, left: nat)
      requires Valid()
      modifies this, groups
      ensures groups == old(groups) || fresh(groups)
      ensures Safe(old(St()))
      ensures var r := EmplaceIn(old(St()), e, budget, trouble);
              (r.Unfilled? || Valid()) && St() == r.state && Reports(r, status, left)
    {
      hide Safe, Shape, Append, MoveHome, TagOf, Bijects, PartlyFilled;
      EmplaceInAfterArray(St(), e, budget, trouble);
      var ok;
      ok, left := AllocateIfNone(budget);
      if ok {
        hide EmplaceIn, WithArray;
        status, left := InsertHashed(hash(e.key), e, left, trouble);
      } else {
        status, left := OutOfMemory, 0;
      }
    }

    /** emplace from arguments that are not a value yet: the value is appended first, its key looked up after, and
        it is taken out again when the key is there. So a value that cannot be appended fails the call even then. */
    method EmplaceValueFirst(e: Entry<K, V>, budget: nat, trouble: Trouble) returns (status: Status, left: nat)
      requires Valid()
      modifies this, groups
      ensures groups == old(groups) || fresh(groups)
      ensures Safe(old(St()))
      ensures var s := old(St());
              var r := if trouble == NoAppend && (s.hasArray || budget > 0)
                       then AppendFailed(WithArray(s), if s.hasArray then budget else budget - 1)
                       else EmplaceIn(s, e, budget, trouble);
              (r.Unfilled? || Valid()) && St() == r.state && Reports(r, status, left)
    {
      hide Safe, Shape, Append, MoveHome, TagOf, Bijects, PartlyFilled;
      EmplaceInAfterArray(St(), e, budget, trouble);
      var ok;
      ok, left := AllocateIfNone(budget);
      if !ok {
        status, left := OutOfMemory, 0;
      } else if trouble == NoAppend {
        status := NotAppended;
      } else {
        hide EmplaceIn, WithArray;
        status, left := AppendThenLookUp(e, left, trouble);
      }
    }

    method AppendThenLookUp(e: Entry<K, V>, budget: nat, trouble: Trouble) returns (status: Status, left: nat)
      requires Valid() && groups.Length != 0 && trouble != NoAppend
      modifies this, groups
      ensures groups == old(groups) || fresh(groups)
      ensures var r := EmplaceIn(old(St()), e, budget, trouble);
              (r.Unfilled? || Valid()) && St() == r.state && Reports(r, status, left)
    {
      hide Safe, Shape, Append, MoveHome, TagOf, PartlyFilled;
      ghost var before := St();
      EmplaceSafe(before, e, budget, true);
      SafeShape(before);
      BijectsPointsBelow(Data(), |values|, |values|);
      BijectsPointsBelow(Data(), |values|, |values| + 1);
      hide PointsBelow, Bijects;
      var throwsAt := ThrowsAt(trouble, |values|);
      values := values + [e];
      var tag := Decompose(e.key);
      AppendedProbe(before, e);
      var r := ProbeWalk(values, Data(), mask, tag, e.key);
      if r.None? {
        status, left := PlaceAppended(tag, budget, throwsAt, before, e);
      } else {
        status, left := Found(groups[r.value.group].index[r.value.lane]), budget;
        PopBack(before, e);
        MoveToHome(r.value, tag);
      }
    }

    // Erasing //////////////////////////////////////////////////////////////////

    /** The last value moves into the hole and its slot is turned to the new index. False when no slot for it is
        found: its key was changed behind the table's back. */
    method FinishErase(i: nat) returns (ok: bool)
      requires i < |values| && shifts <= 64 && groups.Length == Pow2(64 - shifts)
      modifies this`values, groups
      ensures var last := |old(values)| - 1;
              var found := SlotOfValue(old(groups[..]), TagOf(old(St()), old(values)[last].key), last, 0);
              && (ok <==> i == last || found.Some?)
              && (ok ==> values == RemoveAt(old(values), i))
              && (ok ==> groups[..] == if i == last then old(groups[..]) else Repoint(old(groups[..]), found.value, i))
    {
      hide TagFor, Pow2, SlotOfValue;
      var last := |values| - 1;
      if i != last {
        var tag := Decompose(values[last].key);
        values := values[i := values[last]];
        var found := SlotWalk(groups[..], tag, last);
        if found.None? {
          return false;
        }
        var group := groups[found.value.group];
        groups[found.value.group] := group.(index := group.index[found.value.lane := i]);
      }
      values := values[..last];
      return true;
    }

    /** Frees the slot, takes its counts back, hands the value over and closes the hole in the values, the last even if
        what it is handed to throws. */
    method EraseAtSlot(slot: Slot, tag: Tag, handlerThrows: bool) returns (ok: bool, thrown: bool)
      requires Valid() && Has(|Data()|, slot) && Full(Data(), slot) && tag.home < |Data()|
      modifies this`values, groups
      ensures match EraseSlot(old(St()), slot, tag)
              case Done(s) => ok && Valid() && St() == s && thrown == handlerThrows
              case KeyChanged => !ok
    {
      hide Safe, Free, Repoint, RemoveAt, SlotOfValue;
      ghost var before := St();
      SafeShape(before);
      ArrayWhenFull(before, slot);
      PointeeInRange(before, slot);
      EraseSlotSafe(before, slot, tag);
      hide Shape, TagOf;
      var i := groups[slot.group].index[slot.lane];
      EraseGroupSlot(slot, tag);
      if handlerThrows {
        ok := FinishErase(i);
        return ok, true;
      }
      ok := FinishErase(i);
      return ok, false;
    }

    /** erase(key): how many values left, one or none; None stands for the changed-key error. */
    method Erase(key: K) returns (erased: Option<nat>)
      requires Valid()
      modifies this`values, groups
      ensures match EraseKey(old(St()), key)
              case Done(s) =>
                Valid() && St() == s && |values| <= old(|values|) && erased == Some(old(|values|) - |values|)
              case KeyChanged => erased == None
    {
      hide Safe, Shape, EraseSlot, TagOf;
      SafeShape(St());
      var tag := Decompose(key);
      var r := Probe(key);
      if r.None? {
        return Some(0);
      }
      EraseSlotSize(St(), r.value, tag);
      var ok, _ := EraseAtSlot(r.value, tag, false);
      return if ok then Some(1) else None;
    }

    /** erase(iterator) and extract(iterator): the value at position i leaves and is handed out; a handler that throws
        leaves the table the same. */
    method EraseIndex(i: nat, handlerThrows: bool) returns (ok: bool, value: Entry<K, V>, thrown: bool)
      requires Valid() && i < |values|
      modifies this`values, groups
      ensures value == old(values)[i]
      ensures match EraseAt(old(St()), i)
              case Done(s) => ok && Valid() && St() == s && thrown == handlerThrows
              case KeyChanged => !ok
    {
      hide Safe, Shape, EraseSlot, TagOf, SlotOfValue;
      SafeShape(St());
      value := values[i];
      var tag := Decompose(value.key);
      var found := SlotWalk(Data(), tag, i);
      if found.None? {
        return false, value, false;
      }
      ok, thrown := EraseAtSlot(found.value, tag, handlerThrows);
    }

    // Replacing a key //////////////////////////////////////////////////////////

    /** replace_key(iterator, key): the position of the key and whether it was put there, if no key had changed. */
    method ReplaceKey(i: nat, key: K) returns (ok: bool, at: nat, replaced: bool)
      requires Valid() && i < |values|
      modifies this`values, groups
      ensures match ReplaceKeyAt(old(St()), i, key)
              case Done(s) =>
                && ok && Valid() && St() == s
                && replaced == TableState.Probe(old(St()), key).None?
                && at == if replaced then i else TableState.Find(old(St()), key)
              case KeyChanged => !ok
    {
      hide Safe, Shape, TagOf, SlotOfValue, Free, Place, HasRoom;
      ghost var before := St();
      SafeShape(before);
      ReplaceKeySafe(before, i, key);
      var newTag := Decompose(key);
      var r := Probe(key);
      if r.Some? {
        return true, Data()[r.value.group].index[r.value.lane], false;
      }
      var oldTag := Decompose(values[i].key);
      values := values[i := Entry(key, values[i].val)];
      var found := SlotWalk(Data(), oldTag, i);
      if found.None? {
        return false, i, false;
      }
      ArrayWhenFull(before, found.value);
      RoomAfterFree(before, found.value, oldTag, newTag.home);
      EraseGroupSlot(found.value, oldTag);
      PlaceWalk(groups, newTag, i);
      return true, i, true;
    }

    // Clearing and sizing //////////////////////////////////////////////////////

    /** Zeroes fingerprints and counters of every block and leaves the value indices alone. */
    method ClearMetadata()
      modifies groups
      ensures groups[..] == Cleared(old(groups[..]))
    {
      for g := 0 to groups.Length
        invariant forall h :: 0 <= h < g ==> groups[h] == Cleared(old(groups[..]))[h]
        invariant forall h :: g <= h < groups.Length ==> groups[h] == old(groups[h])
      {
        groups[g] := groups[g].(fingerprints := EMPTY_GROUP.fingerprints, overflows := EMPTY_GROUP.overflows);
      }
    }

    method Clear()
      requires Valid()
      modifies this`values, groups
      ensures Valid() && St() == Operations.Clear(old(St()))
    {
      ExtractAllSafe(St());
      ClearedGroups(4);
      hide Safe, Cleared;
      if values != [] {
        values := [];
        ClearMetadata();
      }
    }

    /** extract() &&: hands all the values out. */
    method ExtractAll() returns (out: seq<Entry<K, V>>)
      requires Valid()
      modifies this`values, groups
      ensures Valid() && St() == Operations.ExtractAll(old(St())) && out == old(values)
    {
      ExtractAllSafe(St());
      ClearedGroups(4);
      hide Safe, Cleared;
      out := values;
      values := [];
      ClearMetadata();
    }

    /** calc_shifts_for_size */
    method CalcShiftsForSize(size: nat) returns (r: nat)
      requires ValidLoad(load) && ValidBits(bits)
      ensures r == ShiftsFor(load, bits, size)
    {
      r := INITIAL_SHIFTS;
      while r > 0 && LANES * NumGroups(r, bits) < Pow2(bits) && Scaled(LANES * NumGroups(r, bits), load) < size
        invariant r <= INITIAL_SHIFTS
        invariant ShiftsFrom(load, bits, size, r) == ShiftsFor(load, bits, size)
      {
        r := r - 1;
      }
    }

    /** The same array cleared and filled again, or until the hash of value `throwsAt` throws. */
    method Refill(throwsAt: nat) returns (ok: bool)
      requires Valid() && groups.Length != 0
      modifies groups
      ensures ok <==> |values| <= throwsAt
      ensures ok ==> St() == Refilled(old(St()), Cleared(old(groups[..])), shifts)
      ensures St() == PartlyFilled(old(St()), Cleared(old(groups[..])), shifts, CameTo(throwsAt, |values|))
    {
      SafeShape(St());
      SizeFits(St());
      ShapeCapacity(St());
      hide Safe, Shape, Build, Capacity, IsEmptyIndex, Cleared;
      ClearedEmpty(groups[..]);
      ClearMetadata();
      ok := FillFromValues(throwsAt);
    }

    method Rehash(count: nat, budget: nat, throwsAt: nat) returns (ok: bool, left: nat)
      requires Valid()
      modifies this, groups
      ensures groups == old(groups) || fresh(groups)
      ensures var r := RehashIn(old(St()), count, budget, throwsAt);
              (r.Unfilled? || Valid()) && St() == r.state && ok == r.Placed? && left == r.LeftOver()
    {
      hide Safe, Shape, Refilled, Rebuilt, PartlyFilled, Capacity, ShiftsFor, Cleared;
      RehashSafe(St(), count, budget);
      SafeShape(St());
      WantedFits(St(), count);
      var newShifts := CalcShiftsForSize(Wanted(bits, count, |values|));
      RebuiltShifts(St(), newShifts);
      RefilledArray(St(), Cleared(Data()), shifts);
      ok, left := true, budget;
      if newShifts != shifts {
        if budget == 0 {
          return false, 0;
        }
        left := budget - 1;
        ok := Rebuild(newShifts, throwsAt);
      } else if groups.Length != 0 {
        ok := Refill(throwsAt);
      }
    }

    method Reserve(count: nat, budget: nat, throwsAt: nat) returns (ok: bool, left: nat)
      requires Valid()
      modifies this, groups
      ensures groups == old(groups) || fresh(groups)
      ensures var r := ReserveIn(old(St()), count, budget, throwsAt);
              (r.Unfilled? || Valid()) && St() == r.state && ok == r.Placed? && left == r.LeftOver()
    {
      hide Safe, Shape, Rebuilt, PartlyFilled, Capacity, ShiftsFor;
      ReserveSafe(St(), count, budget);
      SafeShape(St());
      WantedFits(St(), count);
      var newShifts := CalcShiftsForSize(Wanted(bits, count, |values|));
      RebuiltShifts(St(), newShifts);
      ok, left := true, budget;
      if groups.Length == 0 || newShifts < shifts {
        if groups.Length == 0 {
          NoneWithoutArray(St());
        }
        if budget == 0 {
          return false, 0;
        }
        left := budget - 1;
        ok := Rebuild(newShifts, throwsAt);
      }
    }

    /** max_load_factor(ml), ml cut at 1. */
    method SetMaxLoadFactor(ml: Load)
      requires Valid() && ml.den > 0
      modifies this`load, this`capacity
      ensures Valid() && St() == SetLoad(old(St()), ml)
    {
      SetLoadSafe(St(), ml);
      hide Safe, Bijects;
      load := if ml.num <= ml.den then ml else Load(1, 1);
      if LANES * groups.Length != Pow2(bits) {
        capacity := Scaled(LANES * groups.Length, load);
      }
    }
  }

  lemma EraseSlotSize<K, V>(s: State<K, V>, slot: Slot, tag: Tag)
    requires Safe(s) && Has(|s.groups|, slot) && Full(s.groups, slot) && tag.home < |s.groups|
    ensures EraseSlot(s, slot, tag).Done? ==> |EraseSlot(s, slot, tag).state.values| == |s.values| - 1
  {
    hide Safe, Free;
    PointeeInRange(s, slot);
  }

  lemma ShapeCapacity<K, V>(s: State<K, V>)
    requires Safe(s) && s.hasArray
    ensures ValidLoad(s.load) && s.capacity == Capacity(s.load, s.bits, LANES * |s.groups|)
  {
  }

  lemma TagParts<K, V>(s: State<K, V>, k: K)
    requires s.shifts <= 64
    ensures TagOf(s, k) == Tag(Home(s.hash(k), s.shifts), Fingerprint(s.hash(k)))
  {
  }

  /** An insert is the first array's allocation followed by the same insert. */
  lemma EmplaceAfterArray<K, V>(s: State<K, V>, e: Entry<K, V>, budget: nat, appends: bool)
    requires Safe(s)
    ensures Safe(WithArray(s))
    ensures s.hasArray || budget > 0 ==>
              Emplace(s, e, budget, appends)
              == Emplace(WithArray(s), e, if s.hasArray then budget else budget - 1, appends)
  {
    hide Safe, Append, MoveHome, Probe;
    SafeShape(s);
    WithArraySafe(s);
  }

  /** The same, whatever trouble the insert runs into. */
  lemma EmplaceInAfterArray<K, V>(s: State<K, V>, e: Entry<K, V>, budget: nat, trouble: Trouble)
    requires Safe(s)
    ensures Safe(WithArray(s))
    ensures s.hasArray || budget > 0 ==>
              EmplaceIn(s, e, budget, trouble)
              == EmplaceIn(WithArray(s), e, if s.hasArray then budget else budget - 1, trouble)
    ensures !s.hasArray && budget == 0 ==> EmplaceIn(s, e, budget, trouble) == NoMemory(s)
  {
    hide Safe, Append, MoveHome, Probe;
    SafeShape(s);
    WithArraySafe(s);
    EmplaceAfterArray(s, e, budget, trouble != NoAppend);
  }

  /** Which of the values and the new one throws, if any: past them where none does. */
  function ThrowsAt(trouble: Trouble, n: nat): nat {
    if trouble.NoHash? then trouble.at else n + 1
  }

  lemma RebuiltShifts<K, V>(s: State<K, V>, shifts: nat)
    ensures shifts <= 64 && ValidLoad(s.load) ==> Rebuilt(s, shifts).shifts == shifts && Rebuilt(s, shifts).hasArray
  {
  }

  lemma RefilledArray<K, V>(s: State<K, V>, base: seq<Group>, shifts: nat)
    requires shifts <= 64 && |base| == Pow2(64 - shifts) && ValidLoad(s.load)
    ensures Refilled(s, base, shifts).shifts == shifts && Refilled(s, base, shifts).hasArray
  {
  }

  /** The appended value, which no slot points at yet, changes no probe. */
  lemma AppendedProbe<K, V>(s: State<K, V>, e: Entry<K, V>)
    requires Safe(s) && Shape(s) && PointsBelow(s.groups, |s.values|)
    ensures TagOf(s, e.key) == TagOf(s.(values := s.values + [e]), e.key)
    ensures ProbeFrom(s.values + [e], s.groups, TagOf(s, e.key), e.key, 0) == TableState.Probe(s, e.key)
  {
    hide Safe, PointsBelow, ProbeFrom;
    ProbeOfPrefix(s.values + [e], |s.values|, s.groups, TagOf(s, e.key), e.key, 0);
    assert (s.values + [e])[..|s.values|] == s.values;
  }
}
