/** replace(container): the index is built over values that may repeat keys, dropping a repetition by pulling
    the last value into its place, with a pipelined part that has hashed ahead of the value it handles. */
module Replacing {
  import opened Probing
  import opened Groups
  import opened Bijection
  import opened Reference
  import opened Sizing
  import opened TableState
  import opened Building
  import opened Operations
  import opened Safety
  import opened Soundness
  import opened Faults
  import opened Walks
  import opened Tables
  import Counters

  // The values that remain /////////////////////////////////////////////////////

  /** The plain loop on the values alone, from position i on: a repetition is replaced by the last value and
      looked at again. */
  function Dedup<K(==), V>(vs: seq<Entry<K, V>>, i: nat): (r: seq<Entry<K, V>>)
    requires i <= |vs|
    ensures |r| <= |vs|
    decreases |vs| - i
  {
    if i == |vs| then vs
    else if Present(vs[..i], vs[i].key) then Dedup(RemoveAt(vs, i), i)
    else Dedup(vs, i + 1)
  }

  lemma DistinctSnoc<K, V>(vs: seq<Entry<K, V>>, i: nat)
    requires i < |vs| && DistinctKeys(vs[..i]) && !Present(vs[..i], vs[i].key)
    ensures DistinctKeys(vs[..i + 1])
  {
    assert vs[..i + 1] == vs[..i] + [vs[i]];
    InsertRefines(vs[..i], vs[i]);
  }

  lemma RemoveAtPrefix<K, V>(vs: seq<Entry<K, V>>, i: nat)
    requires i < |vs|
    ensures RemoveAt(vs, i)[..i] == vs[..i]
  {
  }

  /** Dropping a repeated key changes no key set, and drops one element. */
  lemma RemoveRepetition<K, V>(vs: seq<Entry<K, V>>, i: nat)
    requires i < |vs| && Present(vs[..i], vs[i].key)
    ensures Keys(RemoveAt(vs, i)) == Keys(vs)
    ensures multiset(RemoveAt(vs, i)) <= multiset(vs)
  {
    var r, last := RemoveAt(vs, i), |vs| - 1;
    forall k | k in Keys(vs)
      ensures k in Keys(r)
    {
      var j :| 0 <= j < |vs| && vs[j].key == k;
      var m := if j == i then Scan(vs[..i], vs[i].key) else if j == last then i else j;
      assert r[m].key == k;
    }
    forall k | k in Keys(r)
      ensures k in Keys(vs)
    {
      var j :| 0 <= j < |r| && r[j].key == k;
      assert vs[if j == i then last else j].key == k;
    }
    RemoveAtMultiset(vs, i);
  }

  lemma RemoveAtMultiset<K, V>(vs: seq<Entry<K, V>>, i: nat)
    requires i < |vs|
    ensures multiset(RemoveAt(vs, i)) + multiset{vs[i]} == multiset(vs)
  {
    var last := |vs| - 1;
    assert vs == vs[..last] + [vs[last]];
    if i == last {
      assert RemoveAt(vs, i) == vs[..last];
    } else {
      assert RemoveAt(vs, i) == vs[..last][i := vs[last]];
    }
  }

  /** What remains has distinct keys, all the keys of the container, and only elements of it. */
  lemma {:induction false} DedupKeeps<K, V>(vs: seq<Entry<K, V>>, i: nat)
    requires i <= |vs| && DistinctKeys(vs[..i])
    ensures DistinctKeys(Dedup(vs, i))
    ensures Keys(Dedup(vs, i)) == Keys(vs)
    ensures multiset(Dedup(vs, i)) <= multiset(vs)
    decreases |vs| - i
  {
    if i == |vs| {
      assert vs[..i] == vs;
    } else {
      hide DistinctKeys, Keys, RemoveAt;
      if Present(vs[..i], vs[i].key) {
        RemoveRepetition(vs, i);
        RemoveAtPrefix(vs, i);
        DedupKeeps(RemoveAt(vs, i), i);
      } else {
        DistinctSnoc(vs, i);
        DedupKeeps(vs, i + 1);
      }
    }
  }

  /** Where two sequences differ, over the length of the second. */
  ghost function Differ<E>(a: seq<E>, b: seq<E>): set<nat>
    requires |b| <= |a|
  {
    set p: nat | p < |b| && b[p] != a[p]
  }

  /** No more elements stand in another place than were dropped: a repetition is filled with the last element alone. So
      a container without repetitions is kept as it is. */
  lemma {:induction false} DedupMoves<K, V>(vs: seq<Entry<K, V>>, i: nat)
    requires i <= |vs|
    ensures var r := Dedup(vs, i);
            && i <= |r| && r[..i] == vs[..i]
            && |Differ(vs, r)| <= |vs| - |r|
    decreases |vs| - i
  {
    hide Present;
    if i == |vs| {
      assert Differ(vs, vs) == {};
    } else if Present(vs[..i], vs[i].key) {
      var less := RemoveAt(vs, i);
      RemoveAtPrefix(vs, i);
      DedupMoves(less, i);
      OneDiffers(vs, i, Dedup(less, i));
    } else {
      DedupMoves(vs, i + 1);
      assert Dedup(vs, i)[..i] == Dedup(vs, i + 1)[..i + 1][..i] == vs[..i + 1][..i];
    }
  }

  lemma OneDiffers<K, V>(vs: seq<Entry<K, V>>, i: nat, r: seq<Entry<K, V>>)
    requires i < |vs| && |r| < |vs|
    ensures |Differ(vs, r)| <= |Differ(RemoveAt(vs, i), r)| + 1
  {
    var all, one := Differ(vs, r), Differ(RemoveAt(vs, i), r);
    assert all <= one + {i};
    SubsetSize(all, one + {i});
  }

  lemma SubsetSize<T>(a: set<T>, b: set<T>)
    requires a <= b
    ensures |a| <= |b|
  {
    assert b == a + (b - a);
  }

  lemma NoRepetition<K, V>(vs: seq<Entry<K, V>>)
    requires DistinctKeys(vs)
    ensures Dedup(vs, 0) == vs
  {
    DistinctStay(vs, 0);
  }

  lemma {:induction false} DistinctStay<K, V>(vs: seq<Entry<K, V>>, i: nat)
    requires DistinctKeys(vs) && i <= |vs|
    ensures Dedup(vs, i) == vs
    decreases |vs| - i
  {
    if i < |vs| {
      assert !Present(vs[..i], vs[i].key);
      DistinctStay(vs, i + 1);
    }
  }

  // The index over the first i values //////////////////////////////////////////

  /** The index over the first i values, whose keys are distinct. */
  ghost function Partial<K, V>(base: seq<Group>, hash: K -> Word, shifts: nat, values: seq<Entry<K, V>>, i: nat)
    : (bs: seq<Group>)
    requires shifts <= 64 && |base| == Pow2(64 - shifts) && i <= |values|
    ensures |bs| == |base|
  {
    Build(base, TagsFor(hash, shifts, values[..i]))
  }

  ghost predicate Base(base: seq<Group>, shifts: nat, bits: nat, n: nat) {
    && ValidShifts(shifts, bits)
    && |base| == Pow2(64 - shifts)
    && Counters.IsEmptyIndex(base)
    && n <= LANES * |base|
  }

  /** Over a partial index a probe says whether the key is among the first i values. */
  lemma PartialProbe<K, V>(
    base: seq<Group>, hash: K -> Word, shifts: nat, bits: nat, values: seq<Entry<K, V>>, i: nat, k: K)
    requires Base(base, shifts, bits, |values|) && i <= |values| && DistinctKeys(values[..i])
    ensures var bs, tag := Partial(base, hash, shifts, values, i), TagFor(hash, shifts, k);
            && PointsBelow(bs, |values|)
            && tag.home < |bs|
            && (ProbeFrom(values, bs, tag, k, 0).Some? <==> Present(values[..i], k))
  {
    hide Counters.IsEmptyIndex, DistinctKeys, PointsBelow, Build, TagFor, Scan;
    var load := Load(1, 1);
    var s := State(hash, bits, load, values[..i], base, shifts, true, Capacity(load, bits, LANES * |base|));
    RefilledSound(s, base, shifts);
    var r := Refilled(s, base, shifts);
    SoundParts(r);
    FindIsScan(r, k);
    SafeShape(r);
    hide Safe, Sound, Shape, Bijects;
    BijectsPointsBelow(r.groups, i, |values|);
    BijectsPointsBelow(r.groups, i, i);
    ProbeOfPrefix(values, i, r.groups, TagFor(hash, shifts, k), k, 0);
  }

  /** Placing value i, whose key is new, makes the index over the first i + 1. */
  lemma PartialPlace<K, V>(base: seq<Group>, hash: K -> Word, shifts: nat, bits: nat, values: seq<Entry<K, V>>, i: nat)
    requires Base(base, shifts, bits, |values|) && i < |values|
    ensures IsPow2(|base|)
    ensures var bs, tag := Partial(base, hash, shifts, values, i), TagFor(hash, shifts, values[i].key);
            tag.home < |bs| && HasRoom(bs, tag.home) && Place(bs, tag, i) == Partial(base, hash, shifts, values, i + 1)
  {
    hide Counters.IsEmptyIndex, Build, Place, HasRoom, TagFor;
    assert IsPow2(|base|);
    hide Pow2;
    var tags := TagsFor(hash, shifts, values);
    assert tags[..i] == TagsFor(hash, shifts, values[..i]);
    assert tags[..i + 1] == TagsFor(hash, shifts, values[..i + 1]);
    BuildNext(base, tags, i);
  }

  // The loops //////////////////////////////////////////////////////////////////

  /** What holds after every turn of either loop: the first i values have distinct keys and are indexed, and what
      is left to do comes to the same values as the plain loop on the whole container. */
  ghost predicate Deduping<K, V>(t: Table<K, V>, base: seq<Group>, container: seq<Entry<K, V>>, i: nat)
    reads t, t.groups
  {
    && Base(base, t.shifts, t.bits, |t.values|)
    && t.groups.Length == |base| && t.mask == |base| - 1
    && i <= |t.values|
    && DistinctKeys(t.values[..i])
    && t.groups[..] == Partial(base, t.hash, t.shifts, t.values, i)
    && Dedup(t.values, i) == Dedup(container, 0)
  }

  /** One turn: the value at i is dropped for the last one when its key is among the first i, and is indexed
      otherwise. The tag was computed beforehand. */
  method DedupTurn<K(==), V>(t: Table<K, V>, i: nat, tag: Tag,
                             ghost base: seq<Group>, ghost container: seq<Entry<K, V>>)
    returns (placed: bool)
    requires Deduping(t, base, container, i) && i < |t.values| && tag == TagFor(t.hash, t.shifts, t.values[i].key)
    modifies t`values, t.groups
    ensures placed <==> !Present(old(t.values)[..i], old(t.values)[i].key)
    ensures t.values == if placed then old(t.values) else RemoveAt(old(t.values), i)
    ensures Deduping(t, base, container, if placed then i + 1 else i)
  {
    hide Base, Partial, DistinctKeys, Place, HasRoom, PointsBelow, TagFor;
    PartialProbe(base, t.hash, t.shifts, t.bits, t.values, i, t.values[i].key);
    var found := ProbeWalk(t.values, t.groups[..], t.mask, tag, t.values[i].key);
    placed := found.None?;
    if placed {
      DistinctSnoc(t.values, i);
      PartialPlace(base, t.hash, t.shifts, t.bits, t.values, i);
      PlaceWalk(t.groups, tag, i);
    } else {
      RemoveAtPrefix(t.values, i);
      PartialSame(base, t.hash, t.shifts, t.bits, t.values, RemoveAt(t.values, i), i);
      var last := |t.values| - 1;
      if i != last {
        t.values := t.values[i := t.values[last]];
      }
      t.values := t.values[..last];
      assert t.values == RemoveAt(old(t.values), i);
    }
  }

  lemma PartialSame<K, V>(base: seq<Group>, hash: K -> Word, shifts: nat, bits: nat,
                          a: seq<Entry<K, V>>, b: seq<Entry<K, V>>, i: nat)
    requires Base(base, shifts, bits, |a|) && |b| <= |a| && i <= |b| && a[..i] == b[..i]
    ensures Base(base, shifts, bits, |b|)
    ensures Partial(base, hash, shifts, a, i) == Partial(base, hash, shifts, b, i)
  {
    hide Counters.IsEmptyIndex, Build;
  }

  /** The ring holds the tags of positions i to i + 15. */
  ghost predicate RingTags<K, V>(ring: seq<Tag>, hash: K -> Word, shifts: nat, values: seq<Entry<K, V>>, i: nat) {
    && shifts <= 64 && |ring| == PIPELINE_DEPTH && i + PIPELINE_DEPTH <= |values|
    && forall j :: i <= j < i + PIPELINE_DEPTH ==> ring[j % PIPELINE_DEPTH] == TagFor(hash, shifts, values[j].key)
  }

  /** A drop touches position i and the last, and the last is beyond the window: only one tag is stale. */
  lemma RingAfterDrop<K, V>(ring: seq<Tag>, hash: K -> Word, shifts: nat, values: seq<Entry<K, V>>, i: nat)
    requires RingTags(ring, hash, shifts, values, i) && |values| > i + PIPELINE_DEPTH + 1
    ensures var r := RemoveAt(values, i);
            RingTags(ring[i % PIPELINE_DEPTH := TagFor(hash, shifts, r[i].key)], hash, shifts, r, i)
  {
    hide TagFor;
  }

  lemma RingAfterPlace<K, V>(ring: seq<Tag>, hash: K -> Word, shifts: nat, values: seq<Entry<K, V>>, i: nat)
    requires RingTags(ring, hash, shifts, values, i) && |values| > i + PIPELINE_DEPTH
    ensures RingTags(ring[i % PIPELINE_DEPTH := TagFor(hash, shifts, values[i + PIPELINE_DEPTH].key)],
                     hash, shifts, values, i + 1)
  {
    hide TagFor;
  }

  method PrimeTags<K, V>(hash: K -> Word, shifts: nat, values: seq<Entry<K, V>>) returns (ring: array<Tag>)
    requires shifts <= 64 && |values| >= PIPELINE_DEPTH
    ensures fresh(ring) && ring.Length == PIPELINE_DEPTH && RingTags(ring[..], hash, shifts, values, 0)
  {
    hide TagFor, RingTags;
    ring := new Tag[PIPELINE_DEPTH](_ => Tag(0, 0));
    for i := 0 to PIPELINE_DEPTH
      invariant forall j :: 0 <= j < i ==> ring[j] == TagFor(hash, shifts, values[j].key)
      modifies ring
    {
      ring[i] := TagFor(hash, shifts, values[i].key);
    }
    PrimedTags(ring[..], hash, shifts, values);
  }

  lemma PrimedTags<K, V>(ring: seq<Tag>, hash: K -> Word, shifts: nat, values: seq<Entry<K, V>>)
    requires shifts <= 64 && |ring| == PIPELINE_DEPTH <= |values|
    requires forall j :: 0 <= j < PIPELINE_DEPTH ==> ring[j] == TagFor(hash, shifts, values[j].key)
    ensures RingTags(ring, hash, shifts, values, 0)
  {
    hide TagFor;
    forall j | 0 <= j < PIPELINE_DEPTH
      ensures j % PIPELINE_DEPTH == j
    {
    }
  }

  /** One turn of the pipelined loop: the tag comes out of the ring, and the slot it frees takes the tag of the
      value pulled into the hole, or of the one sixteen further on. */
  method PipelinedTurn<K(==), V>(t: Table<K, V>, ring: array<Tag>, i: nat,
                                 ghost base: seq<Group>, ghost container: seq<Entry<K, V>>) returns (next: nat)
    requires |t.values| > i + PIPELINE_DEPTH + 1 && Deduping(t, base, container, i)
    requires ring.Length == PIPELINE_DEPTH && RingTags(ring[..], t.hash, t.shifts, t.values, i)
    modifies t`values, t.groups, ring
    ensures next <= |t.values| && |t.values| - next < |old(t.values)| - i && |t.values| <= |old(t.values)|
    ensures Deduping(t, base, container, next)
    ensures RingTags(ring[..], t.hash, t.shifts, t.values, next)
  {
    hide Deduping, TagFor, RingTags, Dedup, RemoveAt;
    var slot := i % PIPELINE_DEPTH;
    RingTagOf(ring[..], t.hash, t.shifts, t.values, i);
    RingAfterDrop(ring[..], t.hash, t.shifts, t.values, i);
    RingAfterPlace(ring[..], t.hash, t.shifts, t.values, i);
    var placed := DedupTurn(t, i, ring[slot], base, container);
    if placed {
      ring[slot] := TagFor(t.hash, t.shifts, t.values[i + PIPELINE_DEPTH].key);
      next := i + 1;
    } else {
      ring[slot] := TagFor(t.hash, t.shifts, t.values[i].key);
      next := i;
    }
  }

  /** The pipelined part: it stops while the window cannot yet reach the value that a drop moves. */
  method DedupPipelined<K(==), V>(t: Table<K, V>, ghost base: seq<Group>, ghost container: seq<Entry<K, V>>)
    returns (i: nat)
    requires Deduping(t, base, container, 0) && |t.values| > PIPELINE_DEPTH + 1
    modifies t`values, t.groups
    ensures i <= |t.values| && Deduping(t, base, container, i)
  {
    hide Deduping, RingTags;
    DedupingShifts(t, base, container, 0);
    var ring := PrimeTags(t.hash, t.shifts, t.values);
    i := 0;
    while |t.values| > i + PIPELINE_DEPTH + 1
      invariant i <= |t.values| && Deduping(t, base, container, i)
      invariant fresh(ring) && ring.Length == PIPELINE_DEPTH
      invariant RingTags(ring[..], t.hash, t.shifts, t.values, i)
      decreases |t.values| - i
    {
      i := PipelinedTurn(t, ring, i, base, container);
    }
  }

  lemma RingTagOf<K, V>(ring: seq<Tag>, hash: K -> Word, shifts: nat, values: seq<Entry<K, V>>, i: nat)
    requires RingTags(ring, hash, shifts, values, i)
    ensures shifts <= 64 && ring[i % PIPELINE_DEPTH] == TagFor(hash, shifts, values[i].key)
  {
    hide TagFor;
  }

  lemma DedupingShifts<K, V>(t: Table<K, V>, base: seq<Group>, container: seq<Entry<K, V>>, i: nat)
    requires Deduping(t, base, container, i)
    ensures t.shifts <= 64
  {
  }

  /** How many bytes a block takes, by the width of its value indices. */
  function BlockBytes(bits: nat): nat {
    if bits == 63 then 152 else 88
  }

  const PIPELINE_MIN_INDEX_BYTES: nat := 0x4_0000

  /** The two loops one after the other; the first only for an index that is large enough. */
  method DedupAll<K(==), V>(t: Table<K, V>, ghost base: seq<Group>, ghost container: seq<Entry<K, V>>)
    requires Deduping(t, base, container, 0)
    modifies t`values, t.groups
    ensures Deduping(t, base, container, |t.values|)
  {
    hide Deduping, TagFor, RemoveAt;
    DedupingShifts(t, base, container, 0);
    var i: nat := 0;
    if |t.values| > PIPELINE_DEPTH + 1 && t.groups.Length * BlockBytes(t.bits) > PIPELINE_MIN_INDEX_BYTES {
      i := DedupPipelined(t, base, container);
    }
    while i != |t.values|
      invariant i <= |t.values| && Deduping(t, base, container, i)
      decreases |t.values| - i
    {
      var placed := DedupTurn(t, i, TagFor(t.hash, t.shifts, t.values[i].key), base, container);
      if placed {
        i := i + 1;
      }
    }
  }

  // replace() //////////////////////////////////////////////////////////////////

  /** The emptied index replace builds in, and its shift: the old array if that is large enough, or a new one. */
  ghost function EmptiedFor<K, V>(s: State<K, V>, size: nat): (r: (seq<Group>, nat))
    requires Safe(s) && size <= Pow2(s.bits)
    ensures Base(r.0, r.1, s.bits, size)
  {
    EmptiedFits(s, size);
    var shifts := ShiftsFor(s.load, s.bits, size);
    if !s.hasArray || shifts < s.shifts then (EmptyGroups(Pow2(64 - shifts)), shifts)
    else (Cleared(s.groups), s.shifts)
  }

  lemma EmptiedFits<K, V>(s: State<K, V>, size: nat)
    requires Safe(s) && size <= Pow2(s.bits)
    ensures var shifts := ShiftsFor(s.load, s.bits, size);
            && Base(EmptyGroups(Pow2(64 - shifts)), shifts, s.bits, size)
            && (s.shifts <= shifts ==> Base(Cleared(s.groups), s.shifts, s.bits, size))
  {
    hide Safe, Shape, Capacity, ShiftsFor, Counters.IsEmptyIndex;
    SafeShape(s);
    ShiftsForFits(s.load, s.bits, size);
    var shifts := ShiftsFor(s.load, s.bits, size);
    EmptyGroupsEmpty(Pow2(64 - shifts));
    ClearedEmpty(s.groups);
    if s.shifts <= shifts {
      SlotsGrow(s.shifts, shifts);
    }
  }

  lemma SlotsGrow(a: nat, b: nat)
    requires a <= b <= 64
    ensures Pow2(64 - b) <= Pow2(64 - a)
  {
    if a < b {
      Pow2Monotone(64 - b, 64 - a);
    }
  }

  /** The state replace leaves: the emptied index filled from the values that remain. */
  ghost function Replaced<K, V>(s: State<K, V>, container: seq<Entry<K, V>>): State<K, V>
    requires Safe(s) && |container| <= Pow2(s.bits)
  {
    var (base, shifts) := EmptiedFor(s, |container|);
    Refilled(s.(values := Dedup(container, 0)), base, shifts)
  }

  /** No array, or one too small for `size` values. */
  ghost predicate NeedsArray<K, V>(s: State<K, V>, size: nat)
    requires ValidLoad(s.load) && ValidBits(s.bits)
  {
    !s.hasArray || ShiftsFor(s.load, s.bits, size) < s.shifts
  }

  /** replace(container): it fails for a container larger than the table can ever be, or for want of memory where a
      new array is needed. */
  ghost function ReplaceWith<K, V>(s: State<K, V>, container: seq<Entry<K, V>>, budget: nat): (r: Insertion<K, V>)
    requires Safe(s)
  {
    if |container| > Pow2(s.bits) then Overflow(s, budget)
    else if !NeedsArray(s, |container|) then Placed(Replaced(s, container), 0, false, budget)
    else if budget == 0 then NoMemory(s)
    else Placed(Replaced(s, container), 0, false, budget - 1)
  }

  lemma ReplacedIsSound<K, V>(s: State<K, V>, container: seq<Entry<K, V>>)
    requires Safe(s) && |container| <= Pow2(s.bits)
    ensures Sound(Replaced(s, container)) && Replaced(s, container).values == Dedup(container, 0)
  {
    hide Safe, Sound, Shape, DistinctKeys, Keys, Base, EmptiedFor, Refilled, ValidShifts, Dedup;
    SafeShape(s);
    NoKeys(container);
    DedupKeeps(container, 0);
    var base, shifts := EmptiedFor(s, |container|).0, EmptiedFor(s, |container|).1;
    BaseSmaller(base, shifts, s.bits, |container|, |Dedup(container, 0)|);
    RefilledBase(s.(values := Dedup(container, 0)), base, shifts);
  }

  /** replace from a safe table ends sound, with the values that remain, where it does not fail; else nothing
      changed. */
  lemma ReplaceWithSound<K, V>(s: State<K, V>, container: seq<Entry<K, V>>, budget: nat)
    requires Safe(s)
    ensures var r := ReplaceWith(s, container, budget);
            && Safe(r.state)
            && (Sound(s) ==> Sound(r.state))
            && r.state.values == if r.Placed? then Dedup(container, 0) else s.values
  {
    hide Safe, Sound, NeedsArray, Dedup, Replaced;
    if |container| <= Pow2(s.bits) {
      ReplacedIsSound(s, container);
      SoundParts(Replaced(s, container));
    }
  }

  lemma BaseSmaller(base: seq<Group>, shifts: nat, bits: nat, n: nat, m: nat)
    requires Base(base, shifts, bits, n) && m <= n
    ensures Base(base, shifts, bits, m) && shifts <= 64 && |base| == Pow2(64 - shifts)
  {
    hide Counters.IsEmptyIndex;
  }

  lemma RefilledBase<K, V>(s: State<K, V>, base: seq<Group>, shifts: nat)
    requires Base(base, shifts, s.bits, |s.values|) && DistinctKeys(s.values) && ValidLoad(s.load)
    requires shifts <= 64 && |base| == Pow2(64 - shifts)
    ensures Sound(Refilled(s, base, shifts)) && Refilled(s, base, shifts).values == s.values
  {
    hide Sound, DistinctKeys, Counters.IsEmptyIndex, Build;
    RefilledSound(s, base, shifts);
  }

  /** Replacing makes a sound table out of any safe one and any container: keys are distinct, every key of the
      container is there, and nothing that was not in it. */
  lemma ReplacedSound<K, V>(s: State<K, V>, container: seq<Entry<K, V>>)
    requires Safe(s) && |container| <= Pow2(s.bits)
    ensures Sound(Replaced(s, container))
    ensures var values := Replaced(s, container).values;
            && values == Dedup(container, 0)
            && DistinctKeys(values) && Keys(values) == Keys(container) && multiset(values) <= multiset(container)
  {
    hide *;
    ReplacedIsSound(s, container);
    NoKeys(container);
    DedupKeeps(container, 0);
  }

  lemma NoKeys<K, V>(vs: seq<Entry<K, V>>)
    ensures DistinctKeys(vs[..0])
  {
  }

  lemma DedupingStart<K, V>(t: Table<K, V>, base: seq<Group>)
    requires Base(base, t.shifts, t.bits, |t.values|)
    requires t.groups.Length == |base| && t.mask == |base| - 1 && t.groups[..] == base
    ensures Deduping(t, base, t.values, 0)
  {
    hide Base, Dedup;
  }

  lemma DedupingEnd<K, V>(t: Table<K, V>, base: seq<Group>, container: seq<Entry<K, V>>)
    requires Deduping(t, base, container, |t.values|)
    ensures t.values == Dedup(container, 0)
    ensures t.shifts <= 64 && t.groups.Length > 0 && t.mask == t.groups.Length - 1 && |base| == Pow2(64 - t.shifts)
    ensures t.groups[..] == Build(base, TagsFor(t.hash, t.shifts, t.values))
  {
    assert t.values[..|t.values|] == t.values;
    hide Build;
  }

  /** Allocates unless the array is there and large enough, and empties it. */
  method EmptyFor<K(==), V>(t: Table<K, V>, size: nat, budget: nat) returns (ok: bool, left: nat)
    requires t.Valid() && size <= Pow2(t.bits)
    modifies t, t.groups
    ensures t.groups == old(t.groups) || fresh(t.groups)
    ensures ok ==> t.St() == old(t.St()).(groups := t.groups[..], shifts := t.shifts, hasArray := true,
                                          capacity := Capacity(old(t.load), t.bits, LANES * t.groups.Length))
    ensures ok ==> (t.groups[..], t.shifts) == EmptiedFor(old(t.St()), size)
    ensures ok ==> t.groups.Length > 0 && t.mask == t.groups.Length - 1
    ensures ok <==> !NeedsArray(old(t.St()), size) || budget > 0
    ensures left == if NeedsArray(old(t.St()), size) && ok then budget - 1 else budget
    ensures !ok ==> t.St() == old(t.St()) && t.Valid()
  {
    hide Safe, Shape, Capacity, ShiftsFor, Cleared, Counters.IsEmptyIndex, Base;
    ghost var before := t.St();
    SafeShape(before);
    EmptiedFits(before, size);
    ShiftsForFits(t.load, t.bits, size);
    var shifts := t.CalcShiftsForSize(size);
    ok, left := true, budget;
    if t.groups.Length == 0 || shifts < t.shifts {
      if budget == 0 {
        return false, 0;
      }
      left := budget - 1;
      t.AllocateFromShift(shifts);
      ClearedGroups(t.groups.Length);
    } else {
      ShapeCapacity(before);
    }
    t.ClearMetadata();
  }

  /** replace(container): false for a container larger than the table can ever be, or for want of memory. */
  method Replace<K(==), V>(t: Table<K, V>, container: seq<Entry<K, V>>, budget: nat) returns (ok: bool, left: nat)
    requires t.Valid()
    modifies t, t.groups
    ensures t.groups == old(t.groups) || fresh(t.groups)
    ensures var r := ReplaceWith(old(t.St()), container, budget);
            t.Valid() && t.St() == r.state && ok == r.Placed? && (r.Placed? || r.Overflow? ==> left == r.budget)
  {
    hide Safe, Sound, Shape, Capacity, Base, Dedup, Deduping, Build, EmptiedFor, DistinctKeys, Keys, NeedsArray;
    ghost var before := t.St();
    SafeShape(before);
    if |container| > Pow2(t.bits) {
      return false, budget;
    }
    ReplacedSound(before, container);
    SoundParts(Replaced(before, container));
    ok, left := EmptyFor(t, |container|, budget);
    if ok {
      ghost var base := t.groups[..];
      t.values := container;
      DedupingStart(t, base);
      DedupAll(t, base, container);
      DedupingEnd(t, base, container);
    }
  }
}
