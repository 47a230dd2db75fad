/** Whole runs: any sequence of operations on a table. */
module Runs {
  import opened Groups
  import opened Bijection
  import opened Reference
  import opened Sizing
  import opened TableState
  import opened Operations
  import opened Safety
  import opened Soundness
  import opened Replacing
  import opened Merging
  import opened RangeInsert
  import opened Faults
  import Counters
  import Probing

  /** A call on the table. A `budget` says how many of its allocations succeed. An index at or past the size is
      one no caller can name, and a state that is not safe is no table; such calls are skipped. GiveTo is being merged
      into another table, to the end or interrupted. The operations over many elements are runs of these: see
      InsertAllIsRun, MergeIsRun, Erasures and Loading.LoadOwn. */
  datatype Op<!K(==), V> =
    | InsertEntry(e: Entry<K, V>, budget: nat, appends: bool)
    | EraseByKey(k: K)
    | EraseByIndex(i: nat)
    | Rekey(i: nat, k: K)
    | RehashFor(count: nat, budget: nat)
    | ReserveFor(count: nat, budget: nat)
    | ClearAll
    | TakeAll
    | LimitLoad(num: nat, den: nat)
    | ReplaceAll(container: seq<Entry<K, V>>, budget: nat)
    | GiveTo(dest: State<K, V>, budget: nat, x: Interruption)

  ghost function Step<K, V>(s: State<K, V>, op: Op<K, V>): (r: Outcome<K, V>)
    requires Safe(s)
  {
    match op
    case InsertEntry(e, budget, appends) => Done(Emplace(s, e, budget, appends).state)
    case EraseByKey(k) => EraseKey(s, k)
    case EraseByIndex(i) => if i < |s.values| then EraseAt(s, i) else Done(s)
    case Rekey(i, k) => if i < |s.values| then ReplaceKeyAt(s, i, k) else Done(s)
    case RehashFor(count, budget) => Done(Rehash(s, count, budget).state)
    case ReserveFor(count, budget) => Done(Reserve(s, count, budget).state)
    case ClearAll => Done(Clear(s))
    case TakeAll => Done(ExtractAll(s))
    case LimitLoad(num, den) => if den > 0 then Done(SetLoad(s, Load(num, den))) else Done(s)
    case ReplaceAll(container, budget) => Done(ReplaceWith(s, container, budget).state)
    case GiveTo(dest, budget, x) =>
      if Safe(dest) then Done(SourceAfter(s, MergeFrom(dest, s.values, 0, budget, x).kept)) else Done(s)
  }

  lemma StepSafe<K, V>(s: State<K, V>, op: Op<K, V>)
    requires Safe(s)
    ensures Step(s, op).Done? ==> Safe(Step(s, op).state)
  {
    hide Safe, Emplace, EraseKey, EraseAt, ReplaceKeyAt, Rehash, Reserve, Clear, ExtractAll, SetLoad;
    hide ReplaceWith, MergeFrom, SourceAfter, Sound;
    match op
    case InsertEntry(e, budget, appends) => EmplaceSafe(s, e, budget, appends);
    case EraseByKey(k) => EraseKeySafe(s, k);
    case EraseByIndex(i) => if i < |s.values| { EraseAtSafe(s, i); }
    case Rekey(i, k) => if i < |s.values| { ReplaceKeySafe(s, i, k); }
    case RehashFor(count, budget) => RehashSafe(s, count, budget);
    case ReserveFor(count, budget) => ReserveSafe(s, count, budget);
    case ClearAll => ExtractAllSafe(s);
    case TakeAll => ExtractAllSafe(s);
    case LimitLoad(num, den) => if den > 0 { SetLoadSafe(s, Load(num, den)); }
    case ReplaceAll(container, budget) => ReplaceWithSound(s, container, budget);
    case GiveTo(dest, budget, x) =>
      if Safe(dest) { SourceAfterSafe(s, MergeFrom(dest, s.values, 0, budget, x).kept); }
  }

  /** The operations one after the other, stopping where one reports a changed key. */
  ghost function Run<K, V>(s: State<K, V>, ops: seq<Op<K, V>>): (r: Outcome<K, V>)
    requires Safe(s)
    decreases |ops|
  {
    if ops == [] then Done(s) else
      StepSafe(s, ops[0]);
      match Step(s, ops[0])
      case KeyChanged => KeyChanged
      case Done(next) => Run(next, ops[1..])
  }

  /** The lower tier over whole runs: starting from no more than a bijection, with arbitrary fingerprints and
      counters, a run keeps the bijection to its end or stops by reporting a changed key. */
  lemma {:induction false} RunSafe<K, V>(s: State<K, V>, ops: seq<Op<K, V>>)
    requires Safe(s)
    ensures Run(s, ops).Done? ==> Safe(Run(s, ops).state)
    decreases |ops|
  {
    hide Safe, Step;
    if ops != [] {
      StepSafe(s, ops[0]);
      if Step(s, ops[0]).Done? {
        RunSafe(Step(s, ops[0]).state, ops[1..]);
      }
    }
  }

  /** A run in two parts. */
  lemma {:induction false} RunConcat<K, V>(s: State<K, V>, a: seq<Op<K, V>>, b: seq<Op<K, V>>)
    requires Safe(s) && Run(s, a).Done?
    ensures Safe(Run(s, a).state) && Run(s, a + b) == Run(Run(s, a).state, b)
    decreases |a|
  {
    hide Safe, Step;
    if a == [] {
      assert a + b == b;
    } else {
      StepSafe(s, a[0]);
      RunConcat(Step(s, a[0]).state, a[1..], b);
      assert (a + b)[1..] == a[1..] + b;
    }
  }

  /** One operation more. */
  lemma RunSnoc<K, V>(s: State<K, V>, ops: seq<Op<K, V>>, op: Op<K, V>)
    requires Safe(s) && Run(s, ops).Done?
    ensures Safe(Run(s, ops).state) && Run(s, ops + [op]) == Step(Run(s, ops).state, op)
  {
    hide Safe, Step;
    RunConcat(s, ops, [op]);
    RunOne(Run(s, ops).state, op);
  }

  lemma RunOne<K, V>(s: State<K, V>, op: Op<K, V>)
    requires Safe(s)
    ensures Run(s, [op]) == Step(s, op)
  {
    hide Safe, Step;
    StepSafe(s, op);
    assert [op][1..] == [];
  }

  ghost predicate InsertsOnly<K, V>(ops: seq<Op<K, V>>) {
    forall i :: 0 <= i < |ops| ==> ops[i].InsertEntry?
  }

  /** A range insert is a run of inserts, wherever it is interrupted but in the middle of a growth. */
  lemma {:induction false} InsertAllIsRun<K, V>(
    s: State<K, V>, src: seq<Entry<K, V>>, i: nat, budget: nat, x: Interruption) returns (ops: seq<Op<K, V>>)
    requires Safe(s) && i <= |src|
    ensures var r := InsertAll(s, src, i, budget, x);
            InsertsOnly(ops) && (r.broken || Run(s, ops) == Done(r.state))
    decreases |src| - i
  {
    hide Safe, Emplace, EmplaceIn;
    ops := [];
    if i < |src| && x != Before(i) {
      var trouble := TroubleAt(x, i);
      var appends := trouble != NoAppend;
      EmplaceInSafe(s, src[i], budget, trouble);
      var one := EmplaceIn(s, src[i], budget, trouble);
      if one.Placed? {
        ops := InsertAllIsRun(one.state, src, i + 1, one.budget, x);
      }
      RunCons(s, src[i], budget, appends, ops);
      ops := [InsertEntry(src[i], budget, appends)] + ops;
    }
  }

  lemma RunCons<K, V>(s: State<K, V>, e: Entry<K, V>, budget: nat, appends: bool, rest: seq<Op<K, V>>)
    requires Safe(s) && InsertsOnly(rest)
    ensures Safe(Emplace(s, e, budget, appends).state) && InsertsOnly([InsertEntry(e, budget, appends)] + rest)
    ensures Run(s, [InsertEntry(e, budget, appends)] + rest) == Run(Emplace(s, e, budget, appends).state, rest)
  {
    hide Safe, Emplace;
    EmplaceSafe(s, e, budget, appends);
    assert ([InsertEntry(e, budget, appends)] + rest)[1..] == rest;
  }

  /** What a merge does to the destination is a run of inserts; what it does to the source is GiveTo. */
  lemma MergeIsRun<K, V>(
    s: State<K, V>, src: seq<Entry<K, V>>, i: nat, budget: nat, x: Interruption) returns (ops: seq<Op<K, V>>)
    requires Safe(s) && i <= |src|
    ensures var r := MergeFrom(s, src, i, budget, x);
            InsertsOnly(ops) && (r.broken || Run(s, ops) == Done(r.state))
  {
    hide Safe;
    ops := InsertAllIsRun(s, src, i, budget, x);
    MergeInserts(s, src, i, budget, x);
  }

  // The same run on the linear-scan container //////////////////////////////////

  /** How many elements an operation handled, and the first it left alone: one further when that between was lost. */
  datatype Extent = Extent(done: nat, rest: nat)

  /** How much of an operation takes effect: an insert or a replace can fail for want of memory or of range, and a
      merge part of the way. */
  ghost function Takes<K, V>(s: State<K, V>, op: Op<K, V>): Extent
    requires Safe(s)
  {
    match op
    case InsertEntry(e, budget, appends) => Times(if Emplace(s, e, budget, appends).Placed? then 1 else 0)
    case ReplaceAll(container, budget) => Times(if ReplaceWith(s, container, budget).Placed? then 1 else 0)
    case GiveTo(dest, budget, x) =>
      if Safe(dest) then
        var r := MergeFrom(dest, s.values, 0, budget, x);
        Extent(r.done, r.Rest())
      else Times(0)
    case _ => Times(1)
  }

  function Times(n: nat): Extent {
    Extent(n, n)
  }

  ghost function ReferenceStep<K, V>(vs: seq<Entry<K, V>>, op: Op<K, V>, takes: Extent): seq<Entry<K, V>> {
    match op
    case InsertEntry(e, _, _) => if takes.done == 1 then Insert(vs, e) else vs
    case EraseByKey(k) => Erase(vs, k)
    case EraseByIndex(i) => if i < |vs| then RemoveAt(vs, i) else vs
    case Rekey(i, k) => if i < |vs| then ReplaceKey(vs, i, k) else vs
    case RehashFor(_, _) => vs
    case ReserveFor(_, _) => vs
    case ClearAll => []
    case TakeAll => []
    case LimitLoad(_, _) => vs
    case ReplaceAll(container, _) => if takes.done == 1 then Dedup(container, 0) else vs
    case GiveTo(dest, _, _) =>
      if takes.done <= takes.rest <= |vs| then PresentOnes(dest.values, vs, takes.done) + vs[takes.rest..] else vs
  }

  /** The tables merged into are sound too. */
  ghost predicate Partnered<K, V>(op: Op<K, V>) {
    op.GiveTo? ==> Sound(op.dest)
  }

  ghost predicate AllPartnered<K, V>(ops: seq<Op<K, V>>) {
    forall i :: 0 <= i < |ops| ==> Partnered(ops[i])
  }

  lemma StepSound<K, V>(s: State<K, V>, op: Op<K, V>)
    requires Sound(s) && Partnered(op)
    ensures Safe(s)
    ensures var r := Step(s, op);
            r.Done? && Sound(r.state) && r.state.values == ReferenceStep(s.values, op, Takes(s, op))
  {
    hide Safe, Sound, Emplace, EraseKey, EraseAt, ReplaceKeyAt, Rehash, Reserve, Insert, Erase, ReplaceKey, RemoveAt;
    hide ReplaceWith, MergeFrom, SourceAfter, Dedup, PresentOnes;
    SoundParts(s);
    match op
    case InsertEntry(e, budget, appends) => EmplaceSound(s, e, budget, appends);
    case EraseByKey(k) => EraseKeySound(s, k);
    case EraseByIndex(i) => if i < |s.values| { EraseAtSound(s, i); }
    case Rekey(i, k) => if i < |s.values| { ReplaceKeySound(s, i, k); }
    case RehashFor(count, budget) => RehashSound(s, count, budget);
    case ReserveFor(count, budget) => ReserveSound(s, count, budget);
    case ClearAll => ExtractAllSound(s);
    case TakeAll => ExtractAllSound(s);
    case LimitLoad(num, den) => if den > 0 { SetLoadSound(s, Load(num, den)); }
    case ReplaceAll(container, budget) => ReplaceWithSound(s, container, budget);
    case GiveTo(dest, budget, x) => SoundParts(dest); MergeSound(dest, s, budget, x);
  }

  ghost function ReferenceRun<K, V>(s: State<K, V>, vs: seq<Entry<K, V>>, ops: seq<Op<K, V>>): seq<Entry<K, V>>
    requires Safe(s)
    decreases |ops|
  {
    if ops == [] then vs else
      StepSafe(s, ops[0]);
      match Step(s, ops[0])
      case KeyChanged => vs
      case Done(next) => ReferenceRun(next, ReferenceStep(vs, ops[0], Takes(s, ops[0])), ops[1..])
  }

  /** The upper tier over whole runs: from a sound table every run ends, in a sound table, with the values the
      linear-scan container has after the same operations; no run ever reports a changed key, and at its end
      find is a linear scan of the values for every key. */
  lemma {:induction false} RunSound<K, V>(s: State<K, V>, ops: seq<Op<K, V>>)
    requires Sound(s) && AllPartnered(ops)
    ensures Safe(s)
    ensures var r := Run(s, ops);
            && r.Done? && Sound(r.state) && r.state.values == ReferenceRun(s, s.values, ops)
            && forall k :: Find(r.state, k) == Scan(r.state.values, k)
    decreases |ops|
  {
    hide Safe, Sound, Step, ReferenceStep, Find, Scan, Partnered, Takes;
    SoundParts(s);
    if ops == [] {
      forall k
        ensures Find(s, k) == Scan(s.values, k)
      {
        FindIsScan(s, k);
      }
    } else {
      StepSafe(s, ops[0]);
      StepSound(s, ops[0]);
      RunSound(Step(s, ops[0]).state, ops[1..]);
    }
  }

  /** The exact-counter law of every reachable state, in its own words: a counter is stuck at 255 or equals the
      number of live entries of its class whose walk passes its group before the one they are in. */
  lemma ReachableCounters<K, V>(hash: K -> Word, bits: nat, load: Load, ops: seq<Op<K, V>>, g: nat, c: nat)
    requires ValidBits(bits) && ValidLoad(load) && AllPartnered(ops)
    ensures Safe(NewTable<K, V>(hash, bits, load))
    ensures var r := Run(NewTable<K, V>(hash, bits, load), ops);
            && r.Done? && Sound(r.state)
            && (g < |r.state.groups| && c < CLASSES ==>
                  && Counters.Fits(|r.state.groups|, EntriesOf(r.state))
                  && var counter := r.state.groups[g].overflows[c];
                     counter == 255 || counter == |Counters.Passers(|r.state.groups|, EntriesOf(r.state), g, c)|)
  {
    hide Safe;
    NewTableSound<K, V>(hash, bits, load);
    RunSound(NewTable<K, V>(hash, bits, load), ops);
    hide EntriesOf, DistinctKeys;
  }

  /** Sizing in every reachable state, from any safe one: the groups are 2^(64 - shifts), so any hash shifted is one of
      them; values and capacity are at most the slots; and below the capacity every placement walk has room. */
  lemma ReachableSizing<K, V>(s: State<K, V>, ops: seq<Op<K, V>>, mh: Word)
    requires Safe(s)
    ensures var r := Run(s, ops);
            r.Done? ==>
              var t := r.state;
              var slots := LANES * |t.groups|;
              && t.shifts <= 62 && |t.groups| == Probing.Pow2(64 - t.shifts)
              && Home(mh, t.shifts) < |t.groups|
              && |t.values| <= slots <= Probing.Pow2(t.bits) && t.capacity <= slots
              && (|t.values| < t.capacity ==> HasRoom(t.groups, Home(mh, t.shifts)))
  {
    hide Safe, Shape, Run, Bijects, Home, HasRoom, Capacity;
    RunSafe(s, ops);
    if Run(s, ops).Done? {
      var t := Run(s, ops).state;
      SafeShape(t);
      SizeFits(t);
      CapacityFits(t);
      if |t.values| < t.capacity {
        BijectsSize(t.groups, |t.values|);
        RoomWhenNotFull(t.groups, Home(mh, t.shifts));
      }
    }
  }

  lemma CapacityFits<K, V>(s: State<K, V>)
    requires Shape(s)
    ensures s.capacity <= LANES * |s.groups|
  {
  }

  lemma BijectsSize(bs: seq<Group>, n: nat)
    requires Bijects(bs, n)
    ensures |FullSlots(bs)| == n
  {
  }
}
