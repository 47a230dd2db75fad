/** What an exception leaves behind where it comes out of the hash: an index that was being filled, and a merge whose
    source was being put back together. */
module Interruptions {
  import opened Probing
  import opened Groups
  import opened Counters
  import opened Bijection
  import opened Reference
  import opened Sizing
  import opened TableState
  import opened Building
  import opened Operations
  import opened Safety
  import opened Soundness
  import opened Faults
  import opened Walks
  import opened Replacing
  import opened Merging
  import opened Rebuilding
  import opened Runs
  import opened RangeInsert
  import opened Sizes
  import Tables

  /** Where a lookup that finds exactly the first n values finds a key. */
  ghost function Among<K, V>(vs: seq<Entry<K, V>>, n: nat, k: K): nat
    requires n <= |vs|
  {
    if Present(vs[..n], k) then Scan(vs, k) else |vs|
  }

  // A fill cut short ///////////////////////////////////////////////////////////

  /** The index of a fill that has come to n values is that of a table of those values. */
  lemma PrefixFilled<K, V>(s: State<K, V>, base: seq<Group>, shifts: nat, n: nat)
    requires shifts <= 64 && |base| == Pow2(64 - shifts) && ValidLoad(s.load) && n <= |s.values|
    ensures PartlyFilled(s, base, shifts, n)
         == Refilled(s.(values := s.values[..n]), base, shifts).(values := s.values)
  {
    hide TagFor, Build;
    assert TagsFor(s.hash, shifts, s.values)[..n] == TagsFor(s.hash, shifts, s.values[..n]);
  }

  /** As many values as full slots, or it is no table. */
  lemma UnplacedUnsafe<K, V>(s: State<K, V>, n: nat)
    requires n <= |s.values| && Sound(s.(values := s.values[..n]))
    ensures Safe(s) <==> n == |s.values|
    ensures Sound(s) <==> n == |s.values|
  {
    hide DistinctKeys, Exact, EntriesOf;
    if n == |s.values| {
      assert s.(values := s.values[..n]) == s;
    }
  }

  lemma PrefixDistinct<K, V>(vs: seq<Entry<K, V>>, n: nat)
    requires n <= |vs| && DistinctKeys(vs)
    ensures DistinctKeys(vs[..n])
  {
  }

  lemma ScanOfPrefix<K, V>(vs: seq<Entry<K, V>>, n: nat, k: K)
    requires n <= |vs|
    ensures Present(vs[..n], k) ==> Scan(vs, k) == Scan(vs[..n], k)
  {
  }

  /** Values no slot points at are not found. */
  lemma UnplacedFinds<K, V>(s: State<K, V>, n: nat)
    requires n <= |s.values| && Sound(s.(values := s.values[..n]))
    ensures Shape(s) && forall k :: Find(s, k) == Among(s.values, n, k)
  {
    var t := s.(values := s.values[..n]);
    SafeShape(t);
    BijectsPointsBelow(s.groups, n, n);
    hide Sound, Safe, PointsBelow, ProbeFrom, Bijects, TagFor, Present, Scan;
    forall k
      ensures Find(s, k) == Among(s.values, n, k)
    {
      FindIsScan(t, k);
      ScanOfPrefix(s.values, n, k);
      ProbeOfPrefix(s.values, n, s.groups, TagOf(s, k), k, 0);
    }
  }

  /** A fill that is cut short, by a hash that throws, after n values leaves a table if and only if those were all of
      them. Otherwise the others are counted as values and cannot be found. */
  lemma InterruptedFill<K, V>(s: State<K, V>, base: seq<Group>, shifts: nat, n: nat)
    requires ValidLoad(s.load) && ValidShifts(shifts, s.bits) && |base| == Pow2(64 - shifts) && IsEmptyIndex(base)
    requires n <= |s.values| <= LANES * |base| && DistinctKeys(s.values)
    ensures var r := PartlyFilled(s, base, shifts, n);
            && (Safe(r) <==> n == |s.values|) && (Sound(r) <==> n == |s.values|)
            && Shape(r) && forall k :: Find(r, k) == Among(s.values, n, k)
  {
    hide Safe, Sound, Refilled, PartlyFilled, DistinctKeys, IsEmptyIndex, Among, Find;
    var r, t := PartlyFilled(s, base, shifts, n), s.(values := s.values[..n]);
    PrefixFilled(s, base, shifts, n);
    PrefixDistinct(s.values, n);
    RefilledSound(t, base, shifts);
    assert r.values == s.values && r.(values := s.values[..n]) == Refilled(t, base, shifts);
    UnplacedFinds(r, n);
    UnplacedUnsafe(r, n);
  }

  /** The same of a value that was appended before its key was looked up, by an emplace whose hash or comparison then
      throws. */
  lemma InterruptedEmplace<K, V>(s: State<K, V>, e: Entry<K, V>)
    requires Sound(s)
    ensures var r := s.(values := s.values + [e]);
            !Safe(r) && Shape(r) && forall k :: Find(r, k) == Among(r.values, |s.values|, k)
  {
    hide Safe, Sound, Among, Find;
    var r := s.(values := s.values + [e]);
    assert r.values[..|s.values|] == s.values;
    assert r.(values := r.values[..|s.values|]) == s;
    UnplacedFinds(r, |s.values|);
    UnplacedUnsafe(r, |s.values|);
  }

  /** An insert whose growth is cut short: the values are the old ones and the new one, and no table; those the fill had
      come to are found. */
  lemma InterruptedGrowth<K, V>(s: State<K, V>, e: Entry<K, V>, budget: nat, trouble: Trouble)
    requires Sound(s)
    ensures Safe(s)
    ensures var r := EmplaceIn(s, e, budget, trouble);
            && (Sound(r.state) <==> !r.Unfilled?) && (Safe(r.state) <==> !r.Unfilled?)
            && (r.Unfilled? ==>
                  var n := CameTo(trouble.at, |s.values| + 1);
                  && r.state.values == s.values + [e] && n <= |s.values|
                  && Shape(r.state) && forall k :: Find(r.state, k) == Among(r.state.values, n, k))
  {
    hide Safe, Sound, Emplace, Among, Find, Shape, PartlyFilled, IsEmptyIndex, DistinctKeys, Present, Insert, MapOf;
    SoundParts(s);
    EmplaceInSound(s, e, budget, trouble);
    EmplaceSound(s, e, budget, trouble != NoAppend);
    var r, g := EmplaceIn(s, e, budget, trouble), Emplace(s, e, budget, trouble != NoAppend);
    SoundParts(g.state);
    if r.Unfilled? {
      GrownFits(s, e, budget);
      var longer := s.(values := s.values + [e]);
      EmptyGroupsEmpty(Pow2(64 - g.state.shifts));
      InterruptedFill(longer, EmptyGroups(Pow2(64 - g.state.shifts)), g.state.shifts,
                      CameTo(trouble.at, |s.values| + 1));
    }
  }

  /** It is cut short if and only if the key is absent, a growth is needed and has its memory, and the value whose hash
      throws is among those to be hashed. */
  lemma CutShortWhen<K, V>(s: State<K, V>, e: Entry<K, V>, budget: nat, trouble: Trouble)
    requires Sound(s)
    ensures Safe(s)
    ensures EmplaceIn(s, e, budget, trouble).Unfilled?
       <==> trouble.NoHash? && trouble.at <= |s.values| && !Present(s.values, e.key) && Grows(s, budget)
  {
    hide Safe, Sound, Emplace, Present, Limit, PartlyFilled;
    SoundParts(s);
    InsertEnds(s, e, budget, trouble != NoAppend);
  }

  /** The array a growth allocates is one the table can have, and has room. */
  lemma GrownFits<K, V>(s: State<K, V>, e: Entry<K, V>, budget: nat)
    requires Sound(s) && Safe(s)
    requires Emplace(s, e, budget, true).Placed? && Emplace(s, e, budget, true).state.shifts < s.shifts
    ensures var shifts := Emplace(s, e, budget, true).state.shifts;
            && ValidLoad(s.load) && ValidShifts(shifts, s.bits) && |s.values| + 1 <= LANES * Pow2(64 - shifts)
            && DistinctKeys(s.values + [e])
  {
    hide *;
    GrewKeeps(s, e, budget);
    FitsItsArray(Emplace(s, e, budget, true).state);
    SafeShape(s);
  }

  lemma FitsItsArray<K, V>(s: State<K, V>)
    requires Sound(s)
    ensures s.shifts <= 64 && ValidShifts(s.shifts, s.bits) && |s.values| <= LANES * Pow2(64 - s.shifts)
    ensures DistinctKeys(s.values)
  {
    SoundParts(s);
    SafeShape(s);
    SizeFits(s);
    hide Safe, Sound, DistinctKeys;
  }

  lemma GrewKeeps<K, V>(s: State<K, V>, e: Entry<K, V>, budget: nat)
    requires Sound(s) && Safe(s)
    requires Emplace(s, e, budget, true).Placed? && Emplace(s, e, budget, true).state.shifts < s.shifts
    ensures var r := Emplace(s, e, budget, true);
            Sound(r.state) && r.state.bits == s.bits && r.state.values == s.values + [e]
  {
    hide Safe, Sound, Emplace, Present, WithArray;
    EmplaceSound(s, e, budget, true);
    GrewInserted(s, e, budget, true);
    EmplaceBits(s, e, budget);
    WithArrayIs(s);
  }

  lemma EmplaceBits<K, V>(s: State<K, V>, e: Entry<K, V>, budget: nat)
    requires Safe(s)
    ensures Emplace(s, e, budget, true).state.bits == s.bits
  {
    hide Safe, Probe, MoveHome, Place;
  }

  /** The same of a rehash, into a new array or the same one: the values are those it had. */
  lemma InterruptedRehash<K, V>(s: State<K, V>, count: nat, budget: nat, throwsAt: nat)
    requires Sound(s)
    ensures Safe(s)
    ensures var r := RehashIn(s, count, budget, throwsAt);
            && (r.Unfilled? <==> Rehash(s, count, budget).Placed? && throwsAt < |s.values|)
            && r.state.values == s.values
            && (Sound(r.state) <==> !r.Unfilled?) && (Safe(r.state) <==> !r.Unfilled?)
            && (r.Unfilled? ==> Shape(r.state) && throwsAt < |s.values|
                                && forall k :: Find(r.state, k) == Among(s.values, CameTo(throwsAt, |s.values|), k))
  {
    hide *;
    SoundParts(s);
    RehashSound(s, count, budget);
    SoundParts(Rehash(s, count, budget).state);
    RehashWhen(s, count, budget, throwsAt);
    if RehashIn(s, count, budget, throwsAt).Unfilled? {
      RehashUnfilled(s, count, budget, throwsAt);
    } else {
      RehashWhole(s, count, budget, throwsAt);
    }
  }

  lemma RehashWhen<K, V>(s: State<K, V>, count: nat, budget: nat, throwsAt: nat)
    requires Safe(s)
    ensures RehashIn(s, count, budget, throwsAt).Unfilled?
       <==> Rehash(s, count, budget).Placed? && throwsAt < |s.values|
  {
    hide Safe, WantedShifts, Build, Cleared, Capacity, Pow2;
    OwnRoom(s);
  }

  lemma RehashWhole<K, V>(s: State<K, V>, count: nat, budget: nat, throwsAt: nat)
    requires Safe(s) && !RehashIn(s, count, budget, throwsAt).Unfilled?
    ensures RehashIn(s, count, budget, throwsAt) == Rehash(s, count, budget)
  {
    hide Safe, Rehash;
  }

  lemma RehashUnfilled<K, V>(s: State<K, V>, count: nat, budget: nat, throwsAt: nat)
    requires Sound(s) && Safe(s) && RehashIn(s, count, budget, throwsAt).Unfilled?
    ensures var r := RehashIn(s, count, budget, throwsAt).state;
            && r.values == s.values && throwsAt < |s.values| && !Sound(r) && !Safe(r)
            && Shape(r) && forall k :: Find(r, k) == Among(s.values, CameTo(throwsAt, |s.values|), k)
  {
    hide Safe, Sound, Rehash, Among, Find, Shape, IsEmptyIndex, DistinctKeys, Cleared, WantedShifts, Build, Capacity,
         Pow2;
    SoundParts(s);
    SafeShape(s);
    WantedFits(s, count);
    ClearedEmpty(s.groups);
    var g := Rehash(s, count, budget);
    EmptyGroupsEmpty(Pow2(64 - g.state.shifts));
    var base := if g.state.shifts != s.shifts then EmptyGroups(Pow2(64 - g.state.shifts)) else Cleared(s.groups);
    InterruptedFill(s, base, g.state.shifts, CameTo(throwsAt, |s.values|));
  }

  lemma InterruptedReserve<K, V>(s: State<K, V>, count: nat, budget: nat, throwsAt: nat)
    requires Sound(s)
    ensures Safe(s)
    ensures var r := ReserveIn(s, count, budget, throwsAt);
            && (r.Unfilled? <==> budget > 0 && throwsAt < |s.values| && !Ample(s, Asked(s.bits, count), |s.values|))
            && r.state.values == s.values
            && (Sound(r.state) <==> !r.Unfilled?) && (Safe(r.state) <==> !r.Unfilled?)
            && (r.Unfilled? ==> Shape(r.state) && throwsAt < |s.values|
                                && forall k :: Find(r.state, k) == Among(s.values, CameTo(throwsAt, |s.values|), k))
  {
    hide *;
    SoundParts(s);
    ReserveSound(s, count, budget);
    SoundParts(Reserve(s, count, budget).state);
    ReserveWhen(s, count, budget, throwsAt);
    if ReserveIn(s, count, budget, throwsAt).Unfilled? {
      ReserveUnfilled(s, count, budget, throwsAt);
    } else {
      ReserveWhole(s, count, budget, throwsAt);
    }
  }

  lemma ReserveWhen<K, V>(s: State<K, V>, count: nat, budget: nat, throwsAt: nat)
    requires Safe(s)
    ensures ReserveIn(s, count, budget, throwsAt).Unfilled?
       <==> budget > 0 && throwsAt < |s.values| && !Ample(s, Asked(s.bits, count), |s.values|)
  {
    hide Safe, WantedShifts, Build, Capacity, Pow2, Ample, Asked;
    OwnRoom(s);
    AmpleIs(s, count);
  }

  lemma ReserveWhole<K, V>(s: State<K, V>, count: nat, budget: nat, throwsAt: nat)
    requires Safe(s) && !ReserveIn(s, count, budget, throwsAt).Unfilled?
    ensures ReserveIn(s, count, budget, throwsAt) == Reserve(s, count, budget)
  {
    hide Safe, Reserve;
  }

  lemma ReserveUnfilled<K, V>(s: State<K, V>, count: nat, budget: nat, throwsAt: nat)
    requires Sound(s) && Safe(s) && ReserveIn(s, count, budget, throwsAt).Unfilled?
    ensures var r := ReserveIn(s, count, budget, throwsAt).state;
            && r.values == s.values && throwsAt < |s.values| && !Sound(r) && !Safe(r)
            && Shape(r) && forall k :: Find(r, k) == Among(s.values, CameTo(throwsAt, |s.values|), k)
  {
    hide Safe, Sound, Reserve, Among, Find, Shape, IsEmptyIndex, DistinctKeys, Cleared, WantedShifts, Build, Capacity,
         Pow2;
    SoundParts(s);
    SafeShape(s);
    WantedFits(s, count);
    var g := Reserve(s, count, budget);
    EmptyGroupsEmpty(Pow2(64 - g.state.shifts));
    var base := EmptyGroups(Pow2(64 - g.state.shifts));
    InterruptedFill(s, base, g.state.shifts, CameTo(throwsAt, |s.values|));
  }

  // A merge that throws ////////////////////////////////////////////////////////

  /** The destination of a merge is no table if the walk ended in the middle of a growth. */
  lemma {:induction false} BrokenUnsafe<K, V>(
    s: State<K, V>, src: seq<Entry<K, V>>, i: nat, budget: nat, x: Interruption)
    requires Sound(s) && i <= |src|
    ensures Safe(s)
    ensures var r := MergeFrom(s, src, i, budget, x);
            r.broken ==> !Safe(r.state) && !Sound(r.state)
    decreases |src| - i
  {
    hide Safe, Sound, EmplaceIn, Emplace, Find, Among;
    SoundParts(s);
    if i < |src| && x != Before(i) {
      InterruptedGrowth(s, src[i], budget, TroubleAt(x, i));
      var one := EmplaceIn(s, src[i], budget, TroubleAt(x, i));
      if one.Placed? {
        BrokenUnsafe(one.state, src, i + 1, one.budget, x);
      }
    }
  }

  /** The source after a merge, when the index it is given again may be cut short: a sound table if and only if nothing
      was taken from it or its own hash throws on none of the elements kept. Otherwise every one of those is still among
      its values and only the first of them, those the fill had come to, are found. */
  lemma RepairSound<K, V>(source: State<K, V>, kept: seq<Entry<K, V>>, throwsAt: nat)
    requires Sound(source) && DistinctKeys(kept) && |kept| <= |source.values|
    requires |kept| == |source.values| ==> kept == source.values
    ensures Safe(source)
    ensures var u, n := Repaired(source, kept, throwsAt), CameTo(throwsAt, |kept|);
            && u.values == kept && (|kept| == |source.values| ==> u == source)
            && (Safe(u) <==> Repairs(source, kept, throwsAt)) && (Sound(u) <==> Repairs(source, kept, throwsAt))
            && Shape(u) && (!Repairs(source, kept, throwsAt) ==> forall k :: Find(u, k) == Among(kept, n, k))
  {
    hide Safe, Sound, PartlyFilled, DistinctKeys, IsEmptyIndex, Among, Find, Cleared;
    SoundParts(source);
    SafeShape(source);
    SizeFits(source);
    if |kept| != |source.values| {
      var s := source.(values := kept);
      ClearedEmpty(source.groups);
      InterruptedFill(s, Cleared(source.groups), source.shifts, CameTo(throwsAt, |kept|));
      assert PartlyFilled(s, Cleared(source.groups), source.shifts, CameTo(throwsAt, |kept|)).values == kept by {
        PrefixFilled(s, Cleared(source.groups), source.shifts, CameTo(throwsAt, |kept|));
      }
    }
  }

  /** What a merge whose walk is interrupted guarantees, wherever that is: the destination has taken the absent elements
      the walk came to, in order, and is sound unless it ended in the middle of a growth; the source keeps the others,
      in order, but for one lost to a failed growth or append, and is sound if and only if nothing left it or its own
      hash throws on none of those. */
  lemma MergeInterrupted<K, V>(s: State<K, V>, source: State<K, V>, budget: nat, x: Interruption, throwsAt: nat)
    requires Sound(s) && Sound(source)
    ensures Safe(s) && Safe(source)
    ensures var r := MergeFrom(s, source.values, 0, budget, x);
            && Merges(s.values, source.values, x, r)
            && (Sound(r.state) <==> !r.broken) && (Safe(r.state) <==> !r.broken)
            && var u := Repaired(source, r.kept, throwsAt);
               && u.values == r.kept
               && (Sound(u) <==> (r.state.values == s.values && !r.lost) || |r.kept| <= throwsAt)
               && (r.state.values == s.values && !r.lost ==> u == source)
               && (Safe(u) <==> Sound(u))
  {
    hide Safe, Sound, MergeFrom, Repaired, DistinctKeys, PresentOnes, AbsentOnes, SourceAfter, Find, Among, Shape;
    SoundParts(s);
    SoundParts(source);
    MergeSound(s, source, budget, x);
    BrokenUnsafe(s, source.values, 0, budget, x);
    var src, r := source.values, MergeFrom(s, source.values, 0, budget, x);
    if !r.broken {
      SoundParts(r.state);
    }
    NothingTaken(s.values, src, r.done, r.Rest());
    SharedOut(s.values, src, r.done);
    assert |s.values + AbsentOnes(s.values, src, r.done)| == |s.values| ==> AbsentOnes(s.values, src, r.done) == [];
    RepairSound(source, r.kept, throwsAt);
  }

  /** Every element handled is present or absent. */
  lemma {:induction false} SharedOut<K, V>(vs: seq<Entry<K, V>>, src: seq<Entry<K, V>>, n: nat)
    requires n <= |src|
    ensures |PresentOnes(vs, src, n)| + |AbsentOnes(vs, src, n)| == n
  {
    hide Present;
    if n > 0 {
      SharedOut(vs, src, n - 1);
    }
  }

  // Where a walk ends ///////////////////////////////////////////////////////////

  /** Why an element cannot be inserted: its key is absent, and the value container fails, or the table is full with no
      memory for a larger array or no larger array to have. */
  ghost predicate Blocked<K, V>(s: State<K, V>, k: K, left: nat, trouble: Trouble) {
    && !Present(s.values, k)
    && (trouble == NoAppend || (|s.values| >= s.capacity && (left == 0 || s.capacity == Pow2(s.bits))))
  }

  lemma InsertBlocked<K, V>(s: State<K, V>, e: Entry<K, V>, budget: nat, trouble: Trouble)
    requires Sound(s)
    ensures Safe(s)
    ensures var r := EmplaceIn(s, e, budget, trouble);
            !r.Placed? && !r.Unfilled? ==> Blocked(r.state, e.key, r.LeftOver(), trouble)
  {
    hide Safe, Sound, Emplace, EmplaceIn, Present, Limit, Probe;
    SoundParts(s);
    EmplaceInSound(s, e, budget, trouble);
    var r := Emplace(s, e, budget, trouble != NoAppend);
    InsertEnds(s, e, budget, trouble != NoAppend);
    LimitIs(s);
    WithArrayIs(s);
    OwnRoom(s);
    hide WithArray;
    if !r.Placed? {
      FailedInsert(s, e, budget, trouble != NoAppend);
    }
  }

  /** Where a walk over the elements of another container ends, and nowhere else: at the last, before the one it is
      interrupted at, in the middle of a growth, or at one that cannot be inserted. */
  lemma {:induction false} WalkEnds<K, V>(
    s: State<K, V>, src: seq<Entry<K, V>>, i: nat, budget: nat, x: Interruption)
    requires Sound(s) && i <= |src|
    ensures Safe(s)
    ensures var r := InsertAll(s, src, i, budget, x);
            && (x.Before? && i <= x.at ==> r.done <= x.at)
            && (r.broken || r.done == |src| || x == Before(r.done)
                || Blocked(r.state, src[r.done].key, r.left, TroubleAt(x, r.done)))
    decreases |src| - i
  {
    hide Safe, Sound, EmplaceIn, Emplace, Blocked, TroubleAt;
    SoundParts(s);
    if i < |src| && x != Before(i) {
      InsertedOne(s, src[i], budget, TroubleAt(x, i));
      InsertBlocked(s, src[i], budget, TroubleAt(x, i));
      var one := EmplaceIn(s, src[i], budget, TroubleAt(x, i));
      if one.Placed? {
        WalkEnds(one.state, src, i + 1, one.budget, x);
      }
    }
  }

  /** So a merge loses an element only at one that cannot be inserted. */
  lemma LostWhen<K, V>(s: State<K, V>, src: seq<Entry<K, V>>, budget: nat, x: Interruption)
    requires Sound(s) && DistinctKeys(src)
    ensures Safe(s)
    ensures var r := MergeFrom(s, src, 0, budget, x);
            && (x.Before? ==> r.done <= x.at)
            && (r.lost ==> Blocked(r.state, src[r.done].key, r.left, TroubleAt(x, r.done)))
  {
    hide Safe, Sound, MergeFrom, InsertAll, Blocked, DistinctKeys, PresentOnes, AbsentOnes, Present;
    SoundParts(s);
    MergeInserts(s, src, 0, budget, x);
    MergeDestination(s, src, budget, x);
    WalkEnds(s, src, 0, budget, x);
  }

  // Which walk merge takes /////////////////////////////////////////////////////

  /** The largest array that is not worth hashing ahead for: 8192 groups, or 4096 of the wide ones. */
  function CachedShifts(bits: nat): nat {
    if bits == 63 then 52 else 51
  }

  /** merge hashes ahead exactly when that array would be too small for the values of both tables. */
  lemma HashesAheadWhen(load: Load, bits: nat, size: nat)
    requires ValidLoad(load) && ValidBits(bits) && size <= Pow2(bits)
    ensures HashesAhead(load, bits, size) <==> 17 <= bits && TooSmall(load, bits, size, CachedShifts(bits))
  {
    hide ShiftsFor, Capacity, Pow2, NumGroups, BlockBytes;
    ShiftsForFits(load, bits, size);
    var r := ShiftsFor(load, bits, size);
    SlotsOf(r, bits);
    AheadGroups(64 - r, bits);
    if 17 <= bits && CachedShifts(bits) <= r {
      CapacityMonotone(load, bits, r, CachedShifts(bits));
    }
  }

  lemma AheadGroups(k: nat, bits: nat)
    requires ValidBits(bits) && k <= bits - 4
    ensures Pow2(k) * BlockBytes(bits) > MERGE_MIN_INDEX_BYTES <==> k > 64 - CachedShifts(bits)
  {
    hide Pow2;
    GroupNumbers();
    var most := 64 - CachedShifts(bits);
    if k < most {
      Pow2Monotone(k, most);
    } else if k > most + 1 {
      Pow2Monotone(most + 1, k);
    }
  }

  lemma GroupNumbers()
    ensures Pow2(12) == 4096 && Pow2(13) == 8192 && Pow2(14) == 16384
  {
    assert Pow2(3) == 8;
    Pow2Sum(3, 3);
    Pow2Sum(6, 6);
  }

  // It does happen /////////////////////////////////////////////////////////////

  ghost function Started<K, V>(hash: K -> Word, load: Load): State<K, V> {
    NewTable<K, V>(hash, 32, load)
  }

  /** A new table with its first array. */
  lemma StartedRoom<K, V>(hash: K -> Word, load: Load)
    requires ValidLoad(load)
    ensures var s := Started<K, V>(hash, load);
            && Sound(s) && Safe(s) && !s.hasArray && s.values == []
            && Sound(WithArray(s)) && Safe(WithArray(s)) && WithArray(s).hasArray && WithArray(s).values == []
            && WithArray(s).capacity == Capacity(load, 32, 64)
  {
    var s := Started<K, V>(hash, load);
    NewTableSound<K, V>(hash, 32, load);
    WithArraySound(s);
    SoundParts(s);
    SoundParts(WithArray(s));
    FirstArrayCapacity(s);
    hide Safe, Sound, Pow2;
  }

  /** It has 64 slots of at least that many for an index this wide: all of them at load 1, and one at load 1 / 64. */
  lemma StartedCapacity()
    ensures Capacity(Load(1, 1), 32, 64) == 64 && Capacity(Load(1, 64), 32, 64) == 1
  {
    assert Pow2(3) == 8;
    Pow2Sum(3, 3);
    Pow2Sum(6, 26);
    Pow2Monotone(1, 26);
    hide Pow2;
  }

  /** Below the capacity a new key is inserted without any memory. */
  lemma NextInserted<K, V>(s: State<K, V>, e: Entry<K, V>)
    requires Sound(s) && s.hasArray && |s.values| < s.capacity && !Present(s.values, e.key)
    ensures Safe(s)
    ensures var r := Emplace(s, e, 0, true);
            && r.Placed? && r.inserted && Sound(r.state) && Safe(r.state)
            && r.state.hasArray && r.state.capacity == s.capacity && r.state.values == s.values + [e]
  {
    hide Safe, Sound, Present, Emplace, WithArray;
    SoundParts(s);
    EmplaceSound(s, e, 0, true);
    RoomNeedsNoMemory(s, e);
    var r := Emplace(s, e, 0, true).state;
    SoundParts(r);
    SafeShape(s);
    SafeShape(r);
    if !r.hasArray {
      NoneWithoutArray(r);
    }
  }

  lemma OneInserted<K, V>(hash: K -> Word, load: Load, a: Entry<K, V>)
    requires ValidLoad(load) && Capacity(load, 32, 64) > 0
    ensures var s := Started<K, V>(hash, load);
            && Safe(s)
            && var r := Run(s, [InsertEntry(a, 1, true)]);
               && r.Done? && Sound(r.state) && r.state.values == [a]
               && r.state.hasArray && r.state.capacity == Capacity(load, 32, 64)
  {
    hide Safe, Sound, Emplace, WithArray, Run;
    var s := Started<K, V>(hash, load);
    StartedRoom<K, V>(hash, load);
    Tables.EmplaceAfterArray(s, a, 1, true);
    NextInserted(WithArray(s), a);
    RunOne(s, InsertEntry(a, 1, true));
  }

  ghost function TwoInserts<K, V>(a: Entry<K, V>, b: Entry<K, V>): seq<Op<K, V>> {
    [InsertEntry(a, 1, true), InsertEntry(b, 0, true)]
  }

  lemma TwoInserted<K, V>(hash: K -> Word, a: Entry<K, V>, b: Entry<K, V>)
    requires a.key != b.key
    ensures Safe(Started<K, V>(hash, Load(1, 1)))
    ensures var r := Run(Started<K, V>(hash, Load(1, 1)), TwoInserts(a, b));
            r.Done? && Sound(r.state) && r.state.values == [a, b]
  {
    hide Safe, Sound, Emplace, WithArray, Run, Capacity;
    var s := Started<K, V>(hash, Load(1, 1));
    StartedCapacity();
    OneInserted(hash, Load(1, 1), a);
    var one := Run(s, [InsertEntry(a, 1, true)]).state;
    NextInserted(one, b);
    RunSnoc(s, [InsertEntry(a, 1, true)], InsertEntry(b, 0, true));
    assert TwoInserts(a, b) == [InsertEntry(a, 1, true)] + [InsertEntry(b, 0, true)];
  }

  /** The index for two values is small enough not to hash ahead for. */
  lemma TwoStayCached(load: Load)
    requires load == Load(1, 1)
    ensures !HashesAhead(load, 32, 2)
  {
    assert Pow2(2) == 4 && Pow2(3) == 8;
    Pow2Monotone(6, 28);
    Pow2Sum(3, 3);
    hide Pow2;
    assert NumGroups(62, 32) == 4;
    assert Scaled(64, load) == 64;
    hide NumGroups, Scaled;
    assert ShiftsFor(load, 32, 2) == 62;
  }

  /** A merge after which the source is no table: of its two elements the first is taken, the hash of the second throws,
      and it throws again while the source is put back together. The second is then the source's one value, and a
      lookup does not find it. */
  lemma RepairFails<K, V>(hash: K -> Word, a: Entry<K, V>, b: Entry<K, V>)
    returns (s: State<K, V>, source: State<K, V>, r: Merged<K, V>, u: State<K, V>)
    requires a.key != b.key
    ensures s == Started<K, V>(hash, Load(1, 1)) && Sound(s) && Safe(s) && Safe(WithArray(s))
    ensures Run(s, TwoInserts(a, b)) == Done(source) && Sound(source) && Safe(source) && source.values == [a, b]
    ensures !HashesAhead(s.load, s.bits, |s.values| + 2)
    ensures r == MergeFrom(WithArray(s), source.values, 0, 0, Cut(HashAt(1), false, 2))
    ensures r.state.values == [a] && r.kept == [b] && !r.lost && !r.broken
    ensures u == Repaired(source, r.kept, 0)
    ensures !Safe(u) && Shape(u) && u.values == [b] && Find(u, b.key) == |u.values|
  {
    hide Safe, Sound, Emplace, WithArray, Run, Repaired, Find, Shape, HashesAhead, MergeFrom, Capacity;
    StartedRoom<K, V>(hash, Load(1, 1));
    StartedCapacity();
    TwoInserted(hash, a, b);
    TwoStayCached(Load(1, 1));
    s := Started<K, V>(hash, Load(1, 1));
    source := Run(s, TwoInserts(a, b)).state;
    SoundParts(source);
    var t := WithArray(s);
    NextInserted(t, a);
    MergeStep(t, [a, b], 0, 0, Before(1));
    MergeEnds(Emplace(t, a, 0, true).state, [a, b], 1, Emplace(t, a, 0, true).budget, Before(1));
    r := MergeFrom(t, source.values, 0, 0, Before(1));
    u := Repaired(source, r.kept, 0);
    RepairSound(source, [b], 0);
  }

  /** An insert after which a table is none: at load 1 / 64 the second value calls for a larger array, and the hash of
      the first throws while that is filled. Both are then values, and neither is found, the first one, which was there,
      no more than the second. */
  lemma GrowthFails<K, V>(hash: K -> Word, a: Entry<K, V>, b: Entry<K, V>)
    returns (s: State<K, V>, r: Insertion<K, V>)
    requires a.key != b.key
    ensures Safe(Started<K, V>(hash, Load(1, 64)))
    ensures Run(Started<K, V>(hash, Load(1, 64)), [InsertEntry(a, 1, true)]) == Done(s)
    ensures Sound(s) && Safe(s) && s.values == [a] && Find(s, a.key) == 0
    ensures r == EmplaceIn(s, b, 1, NoHash(0)) && r.Unfilled? && r.state.values == [a, b]
    ensures !Safe(r.state) && Shape(r.state) && Find(r.state, a.key) == 2 && Find(r.state, b.key) == 2
  {
    hide Safe, Sound, Run, Find, Shape, Capacity, Emplace;
    StartedCapacity();
    OneInserted(hash, Load(1, 64), a);
    s := Run(Started<K, V>(hash, Load(1, 64)), [InsertEntry(a, 1, true)]).state;
    SoundParts(s);
    r := EmplaceIn(s, b, 1, NoHash(0));
    FindIsScan(s, a.key);
    FullGrows(s, b);
    InterruptedGrowth(s, b, 1, NoHash(0));
  }

  /** At the capacity, and below the largest array, a new key makes a table grow. */
  lemma FullGrows<K, V>(s: State<K, V>, e: Entry<K, V>)
    requires Sound(s) && s.hasArray && |s.values| == s.capacity && !Present(s.values, e.key) && s.capacity < 64
    ensures Safe(s)
    ensures var r := Emplace(s, e, 1, true);
            r.Placed? && r.state.shifts < s.shifts
  {
    hide Safe, Sound, Probe, Append, Find, MoveHome, Rebuilt;
    SoundParts(s);
    SafeShape(s);
    FindIsScan(s, e.key);
    Pow2Sum(3, 3);
    assert Pow2(3) == 8;
    Pow2Monotone(6, s.bits);
    AppendOver(s, e, 1);
    Tables.RebuiltShifts(s.(values := s.values + [e]), s.shifts - 1);
  }
}
