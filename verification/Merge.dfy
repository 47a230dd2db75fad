/** merge(source): one pass takes every element of the source whose key is not in the destination, compacts the
    others in place, and rebuilds the source's index once. */
module Merging {
  import opened Reference
  import opened Sizing
  import opened TableState
  import opened Building
  import opened Operations
  import opened Safety
  import opened Soundness
  import opened Faults
  import opened Walks
  import opened Tables
  import opened RangeInsert
  import opened Replacing
  import Counters

  /** The destination after the walk, the elements left behind, the first the destination was not given, and whether
      that one was lost: to a growth or an append that failed, after which it is in neither table. `broken` says that
      the walk ended in the middle of a growth, which leaves the destination no table. */
  datatype Merged<!K(==), V> =
    Merged(state: State<K, V>, kept: seq<Entry<K, V>>, done: nat, left: nat, lost: bool, broken: bool)
  {
    /** The first element the walk did not come to. */
    function Rest(): nat {
      if lost then done + 1 else done
    }
  }

  ghost function MergeFrom<K, V>(s: State<K, V>, src: seq<Entry<K, V>>, i: nat, budget: nat, x: Interruption)
    : (r: Merged<K, V>)
    requires Safe(s) && i <= |src|
    ensures i <= r.done <= r.Rest() <= |src| && |r.kept| <= |src| - i
    decreases |src| - i
  {
    if i == |src| || x == Before(i) then Merged(s, src[i..], i, budget, false, false) else
      EmplaceInSafe(s, src[i], budget, TroubleAt(x, i));
      var one := EmplaceIn(s, src[i], budget, TroubleAt(x, i));
      if one.Placed? then
        var r := MergeFrom(one.state, src, i + 1, one.budget, x);
        r.(kept := (if one.inserted then [] else [src[i]]) + r.kept)
      else if one.Unfilled? then Merged(one.state, src[i + 1..], i + 1, one.budget, false, true)
      else Merged(one.state, src[i + 1..], i, one.LeftOver(), true, false)
  }

  /** The destination goes through what a range insert of the same elements does to it. */
  lemma {:induction false} MergeInserts<K, V>(
    s: State<K, V>, src: seq<Entry<K, V>>, i: nat, budget: nat, x: Interruption)
    requires Safe(s) && i <= |src|
    ensures var r := MergeFrom(s, src, i, budget, x);
            InsertAll(s, src, i, budget, x) == Progress(r.state, r.done, r.left, r.broken)
    decreases |src| - i
  {
    hide Safe, EmplaceIn, TroubleAt, MergeFrom, InsertAll;
    if i == |src| || x == Before(i) {
      InsertAllEnds(s, src, i, budget, x);
      MergeEnds(s, src, i, budget, x);
    } else {
      InsertAllStep(s, src, i, budget, x);
      MergeStep(s, src, i, budget, x);
      var one := EmplaceIn(s, src[i], budget, TroubleAt(x, i));
      if one.Placed? {
        MergeInserts(one.state, src, i + 1, one.budget, x);
      }
    }
  }

  lemma MergeEnds<K, V>(s: State<K, V>, src: seq<Entry<K, V>>, i: nat, budget: nat, x: Interruption)
    requires Safe(s) && i <= |src| && (i == |src| || x == Before(i))
    ensures MergeFrom(s, src, i, budget, x) == Merged(s, src[i..], i, budget, false, false)
  {
  }

  /** The elements among the first n whose key the destination had. */
  ghost function PresentOnes<K, V>(vs: seq<Entry<K, V>>, src: seq<Entry<K, V>>, n: nat): seq<Entry<K, V>>
    requires n <= |src|
  {
    if n == 0 then [] else PresentOnes(vs, src, n - 1) + if Present(vs, src[n - 1].key) then [src[n - 1]] else []
  }

  ghost function AbsentOnes<K, V>(vs: seq<Entry<K, V>>, src: seq<Entry<K, V>>, n: nat): seq<Entry<K, V>>
    requires n <= |src|
  {
    if n == 0 then [] else AbsentOnes(vs, src, n - 1) + if Present(vs, src[n - 1].key) then [] else [src[n - 1]]
  }

  /** What a walk over the rest of the source is entitled to: the values are the destination's own and the absent
      elements of the first i. */
  ghost predicate Taken<K, V>(s: State<K, V>, vs: seq<Entry<K, V>>, src: seq<Entry<K, V>>, i: nat) {
    i <= |src| && Sound(s) && s.values == vs + AbsentOnes(vs, src, i)
  }

  /** A source of distinct keys never meets one of its own elements in the destination. */
  lemma {:induction false} AbsentKeys<K, V>(vs: seq<Entry<K, V>>, src: seq<Entry<K, V>>, i: nat, k: K)
    requires i <= |src| && (forall j :: 0 <= j < i ==> src[j].key != k)
    ensures Present(vs + AbsentOnes(vs, src, i), k) <==> Present(vs, k)
  {
    if i == 0 {
      assert vs + AbsentOnes(vs, src, i) == vs;
    } else {
      AbsentKeys(vs, src, i - 1, k);
      var before := vs + AbsentOnes(vs, src, i - 1);
      PresentSnoc(before, src[i - 1], k);
      hide Present;
      assert vs + AbsentOnes(vs, src, i)
          == before + if Present(vs, src[i - 1].key) then [] else [src[i - 1]];
    }
  }

  lemma TakenStep<K, V>(
    s: State<K, V>, vs: seq<Entry<K, V>>, src: seq<Entry<K, V>>, i: nat, budget: nat, trouble: Trouble)
    requires Taken(s, vs, src, i) && i < |src| && DistinctKeys(src)
    ensures Safe(s)
    ensures var r := EmplaceIn(s, src[i], budget, trouble);
            && (r.Placed? ==> Taken(r.state, vs, src, i + 1) && r.inserted == !Present(vs, src[i].key))
            && (r.Unfilled? ==> r.state.values == vs + AbsentOnes(vs, src, i + 1) && !Present(vs, src[i].key))
            && (!r.Placed? && !r.Unfilled? ==> Taken(r.state, vs, src, i) && !Present(vs, src[i].key))
  {
    hide Sound, Safe, Emplace, EmplaceIn, Present;
    SoundParts(s);
    EmplaceInSound(s, src[i], budget, trouble);
    EmplaceSound(s, src[i], budget, trouble != NoAppend);
    AbsentKeys(vs, src, i, src[i].key);
    WithArrayIs(s);
    hide WithArray;
    assert vs + AbsentOnes(vs, src, i) + [] == vs + AbsentOnes(vs, src, i);
  }

  /** What a merge is entitled to do to the values of the two tables. The destination's become its old ones followed, in
      order, by the source elements handled whose key was absent. The elements left behind are the others, in order, and
      the ones not come to. The walk ends at the end of the source or where it was interrupted, unless it lost an
      element, whose key was absent, or ended in the middle of a growth. */
  ghost predicate Merges<K, V>(vs: seq<Entry<K, V>>, src: seq<Entry<K, V>>, x: Interruption, r: Merged<K, V>) {
    && r.Rest() <= |src|
    && r.state.values == vs + AbsentOnes(vs, src, r.done)
    && r.kept == PresentOnes(vs, src, r.done) + src[r.Rest()..]
    && (r.lost || r.broken || r.done == |src| || x == Before(r.done))
    && (r.lost ==> !r.broken && x != Before(r.done) && !Present(vs, src[r.done].key))
    && (r.broken ==> x.Inserting? && x.trouble.NoHash? && r.done == x.at + 1)
  }

  /** merge exactly, from any element on. */
  lemma {:induction false} MergeFromIs<K, V>(
    s: State<K, V>, vs: seq<Entry<K, V>>, src: seq<Entry<K, V>>, i: nat, budget: nat, x: Interruption)
    requires Taken(s, vs, src, i) && DistinctKeys(src)
    ensures Safe(s) && i <= |src|
    ensures var r := MergeFrom(s, src, i, budget, x);
            && (r.broken || Sound(r.state))
            && Merges(vs, src, x, r.(kept := PresentOnes(vs, src, i) + r.kept))
    decreases |src| - i
  {
    hide Sound, Safe, Present, DistinctKeys, Emplace, OrUnfilled, PresentOnes, AbsentOnes;
    TakenSafe(s, vs, src, i);
    if i < |src| && x != Before(i) {
      TakenStep(s, vs, src, i, budget, TroubleAt(x, i));
      var one := EmplaceIn(s, src[i], budget, TroubleAt(x, i));
      if one.Placed? {
        TakenSafe(one.state, vs, src, i + 1);
        MergeFromIs(one.state, vs, src, i + 1, one.budget, x);
        PresentOnesStep(vs, src, i, MergeFrom(one.state, src, i + 1, one.budget, x).kept);
      } else if one.Unfilled? {
        PresentOnesStep(vs, src, i, src[i + 1..]);
      }
    }
  }

  lemma PresentOnesStep<K, V>(vs: seq<Entry<K, V>>, src: seq<Entry<K, V>>, i: nat, rest: seq<Entry<K, V>>)
    requires i < |src|
    ensures PresentOnes(vs, src, i) + ((if Present(vs, src[i].key) then [src[i]] else []) + rest)
         == PresentOnes(vs, src, i + 1) + rest
  {
    hide Present;
  }

  lemma TakenSafe<K, V>(s: State<K, V>, vs: seq<Entry<K, V>>, src: seq<Entry<K, V>>, i: nat)
    requires Taken(s, vs, src, i)
    ensures Safe(s) && i <= |src|
  {
    hide Safe;
  }

  /** The source afterwards: untouched when nothing was taken, else its array cleared and filled again from the
      elements left behind. */
  ghost function SourceAfter<K, V>(s: State<K, V>, kept: seq<Entry<K, V>>): State<K, V>
    requires Safe(s) && |kept| <= |s.values|
  {
    if |kept| == |s.values| then s else Refilled(s.(values := kept), Cleared(s.groups), s.shifts)
  }

  lemma SourceAfterSafe<K, V>(s: State<K, V>, kept: seq<Entry<K, V>>)
    requires Safe(s) && |kept| <= |s.values|
    ensures Safe(SourceAfter(s, kept))
  {
    hide Safe, Counters.IsEmptyIndex, Build;
    SafeShape(s);
    SizeFits(s);
    ClearedEmpty(s.groups);
    if |kept| != |s.values| {
      SourceRefilled(s, kept);
      RefilledSafe(s.(values := kept), Cleared(s.groups), s.shifts);
    }
  }

  lemma SourceRefilled<K, V>(s: State<K, V>, kept: seq<Entry<K, V>>)
    requires Safe(s) && s.values != [] && |kept| <= |s.values|
    ensures s.hasArray
  {
    if !s.hasArray {
      NoneWithoutArray(s);
    }
  }

  lemma SourceAfterSound<K, V>(s: State<K, V>, kept: seq<Entry<K, V>>)
    requires Sound(s) && |kept| <= |s.values| && DistinctKeys(kept)
    ensures Sound(SourceAfter(s, kept))
  {
    hide Safe, Sound, Counters.IsEmptyIndex, Build, DistinctKeys;
    SoundParts(s);
    SafeShape(s);
    SizeFits(s);
    ClearedEmpty(s.groups);
    if |kept| != |s.values| {
      RefilledSound(s.(values := kept), Cleared(s.groups), s.shifts);
    }
  }

  lemma {:induction false} PresentOnesFrom<K, V>(vs: seq<Entry<K, V>>, src: seq<Entry<K, V>>, n: nat)
    requires n <= |src| && DistinctKeys(src)
    ensures DistinctKeys(PresentOnes(vs, src, n))
    ensures forall i :: 0 <= i < |PresentOnes(vs, src, n)| ==>
              exists j :: 0 <= j < n && src[j] == PresentOnes(vs, src, n)[i]
  {
    hide Present;
    if n > 0 {
      PresentOnesFrom(vs, src, n - 1);
    }
  }

  lemma KeptDistinct<K, V>(vs: seq<Entry<K, V>>, src: seq<Entry<K, V>>, n: nat, m: nat)
    requires n <= m <= |src| && DistinctKeys(src)
    ensures DistinctKeys(PresentOnes(vs, src, n) + src[m..])
  {
    PresentOnesFrom(vs, src, n);
    hide PresentOnes;
  }

  lemma MergeDestination<K, V>(s: State<K, V>, src: seq<Entry<K, V>>, budget: nat, x: Interruption)
    requires Sound(s) && DistinctKeys(src)
    ensures Safe(s)
    ensures var r := MergeFrom(s, src, 0, budget, x);
            (r.broken || Sound(r.state)) && Merges(s.values, src, x, r)
  {
    hide Safe, Sound, DistinctKeys, MergeFrom, Merges;
    SoundParts(s);
    MergeFromIs(s, s.values, src, 0, budget, x);
    var r := MergeFrom(s, src, 0, budget, x);
    assert PresentOnes(s.values, src, 0) + r.kept == r.kept;
  }

  /** A merge of two sound tables leaves two sound tables, wherever it is interrupted: the destination takes the absent
      elements it came to, in order, the source keeps every other one, in order, except one lost to a growth or an
      append that failed. The destination is sound unless it ended in the middle of a growth, the source once its index
      has been filled again. */
  lemma MergeSound<K, V>(s: State<K, V>, source: State<K, V>, budget: nat, x: Interruption)
    requires Sound(s) && Sound(source)
    ensures Safe(s) && Safe(source)
    ensures var r := MergeFrom(s, source.values, 0, budget, x);
            && (r.broken || Sound(r.state)) && Merges(s.values, source.values, x, r) && DistinctKeys(r.kept)
            && Sound(SourceAfter(source, r.kept)) && SourceAfter(source, r.kept).values == r.kept
  {
    hide Safe, Sound, DistinctKeys, MergeFrom, Refilled, PresentOnes, AbsentOnes;
    SoundParts(s);
    SoundParts(source);
    MergeDestination(s, source.values, budget, x);
    var src, r := source.values, MergeFrom(s, source.values, 0, budget, x);
    KeptDistinct(s.values, src, r.done, r.Rest());
    NothingTaken(s.values, src, r.done, r.Rest());
    SourceAfterSound(source, r.kept);
    SourceAfterValues(source, r.kept);
  }

  lemma SourceAfterValues<K, V>(s: State<K, V>, kept: seq<Entry<K, V>>)
    requires Safe(s) && |kept| <= |s.values| && (|kept| == |s.values| ==> kept == s.values)
    ensures SourceAfter(s, kept).values == kept
  {
    hide Safe;
  }

  lemma {:induction false} PresentOnesSize<K, V>(vs: seq<Entry<K, V>>, src: seq<Entry<K, V>>, n: nat)
    requires n <= |src|
    ensures |PresentOnes(vs, src, n)| <= n
    ensures |PresentOnes(vs, src, n)| == n ==> PresentOnes(vs, src, n) == src[..n]
  {
    hide Present;
    if n > 0 {
      PresentOnesSize(vs, src, n - 1);
    }
  }

  /** As many elements kept as there were: nothing was taken. */
  lemma NothingTaken<K, V>(vs: seq<Entry<K, V>>, src: seq<Entry<K, V>>, done: nat, from: nat)
    requires done <= from <= |src|
    ensures |PresentOnes(vs, src, done) + src[from..]| <= |src|
    ensures |PresentOnes(vs, src, done) + src[from..]| == |src| ==> PresentOnes(vs, src, done) + src[from..] == src
  {
    PresentOnesSize(vs, src, done);
    hide PresentOnes;
  }

  // The walk ///////////////////////////////////////////////////////////////////

  lemma RingSame<K, V>(ring: seq<Word>, hash: K -> Word, a: seq<Entry<K, V>>, b: seq<Entry<K, V>>,
                       from: nat, ahead: nat)
    requires RingHolds(ring, hash, a, from, ahead) && |a| == |b| && from <= |a| && a[from..] == b[from..]
    ensures RingHolds(ring, hash, b, from, ahead)
  {
    forall j | from <= j < ahead
      ensures ring[j % PIPELINE_DEPTH] == hash(b[j].key)
    {
      assert a[j] == a[from..][j - from] && b[j] == b[from..][j - from];
    }
  }

  /** One turn of the walk as the whole sees it. */
  lemma MergeStep<K, V>(s: State<K, V>, src: seq<Entry<K, V>>, i: nat, budget: nat, x: Interruption)
    requires Safe(s) && i < |src| && x != Before(i)
    ensures var one := EmplaceIn(s, src[i], budget, TroubleAt(x, i));
            && (one.Unfilled? || Safe(one.state))
            && MergeFrom(s, src, i, budget, x)
               == if one.Placed? then
                    var r := MergeFrom(one.state, src, i + 1, one.budget, x);
                    r.(kept := (if one.inserted then [] else [src[i]]) + r.kept)
                  else if one.Unfilled? then Merged(one.state, src[i + 1..], i + 1, one.budget, false, true)
                  else Merged(one.state, src[i + 1..], i, one.LeftOver(), true, false)
  {
    hide Safe, EmplaceIn;
    EmplaceInSafe(s, src[i], budget, TroubleAt(x, i));
  }

  /** What is known half way: the source holds the survivors so far, a gap, and the rest; and the whole walk comes
      to what the rest of it still has to do, after what is done. */
  ghost predicate Walking<K, V>(t: Table<K, V>, src: seq<Entry<K, V>>, values: seq<Entry<K, V>>, write: nat, read: nat,
                                left: nat, x: Interruption, whole: Merged<K, V>)
    reads t, t.groups
  {
    && t.Valid() && t.groups.Length != 0
    && write <= read <= |src| == |values|
    && values[read..] == src[read..]
    && var rest := MergeFrom(t.St(), src, read, left, x);
       whole == rest.(kept := values[..write] + rest.kept)
  }

  lemma NextOf<E>(src: seq<E>, values: seq<E>, read: nat)
    requires read < |src| == |values| && values[read..] == src[read..]
    ensures values[read] == src[read] && values[read + 1..] == src[read + 1..]
  {
    assert values[read..][0] == src[read..][0];
    assert values[read + 1..] == values[read..][1..] && src[read + 1..] == src[read..][1..];
  }

  lemma MovedDown<E>(values: seq<E>, write: nat, read: nat)
    requires write <= read < |values|
    ensures var now := if write != read then values[write := values[read]] else values;
            now[..write + 1] == values[..write] + [values[read]] && now[read + 1..] == values[read + 1..]
  {
  }

  /** After an element that stayed or left, the rest of the walk is still to come to the whole. */
  lemma WalkingNext<K, V>(t: Table<K, V>, src: seq<Entry<K, V>>, before: seq<Entry<K, V>>, now: seq<Entry<K, V>>,
                          write: nat, newWrite: nat, read: nat, left: nat, x: Interruption, whole: Merged<K, V>,
                          inserted: bool)
    requires t.Valid() && t.groups.Length != 0 && write <= read < |src| == |now| == |before|
    requires newWrite == if inserted then write else write + 1
    requires now[read + 1..] == src[read + 1..]
    requires now[..newWrite] == before[..write] + if inserted then [] else [src[read]]
    requires var rest := MergeFrom(t.St(), src, read + 1, left, x);
             whole == rest.(kept := before[..write] + ((if inserted then [] else [src[read]]) + rest.kept))
    ensures Walking(t, src, now, newWrite, read + 1, left, x, whole)
  {
    hide Safe, MergeFrom;
  }

  /** One element: it stays, moved down over the gap, or leaves for the destination. */
  method MergeTurn<K(==), V>(t: Table<K, V>, u: Table<K, V>, mh: Word, write: nat, read: nat, budget: nat,
                             trouble: Trouble, ghost src: seq<Entry<K, V>>, ghost x: Interruption,
                             ghost whole: Merged<K, V>)
    returns (ok: bool, newWrite: nat, left: nat)
    requires t != u && t.groups != u.groups && read < |src|
    requires Walking(t, src, u.values, write, read, budget, x, whole) && mh == t.hash(u.values[read].key)
    requires x != Before(read) && trouble == TroubleAt(x, read)
    modifies t, t.groups, u`values
    ensures t.groups == old(t.groups) || fresh(t.groups)
    ensures newWrite <= read + 1 && |u.values| == |old(u.values)| && u.values[read + 1..] == old(u.values)[read + 1..]
    ensures newWrite == read + 1 ==> write == read && u.values == old(u.values)
    ensures ok ==> Walking(t, src, u.values, newWrite, read + 1, left, x, whole)
    ensures !ok ==> newWrite == write && (whole.broken || t.Valid()) && whole.Rest() == read + 1
    ensures !ok ==> whole.state == t.St() && whole.kept == u.values[..write] + u.values[read + 1..]
                    && whole.left == left && (whole.lost || whole.broken)
  {
    hide Safe, EmplaceIn, MergeFrom;
    MergeStep(t.St(), src, read, budget, x);
    ghost var before := u.values;
    NextOf(src, before, read);
    var status;
    status, left := t.InsertHashed(mh, u.values[read], budget, trouble);
    ok, newWrite := true, write;
    if status.Found? {
      if write != read {
        u.values := u.values[write := u.values[read]];
      }
      newWrite := write + 1;
      MovedDown(before, write, read);
      WalkingNext(t, src, before, u.values, write, newWrite, read, left, x, whole, false);
    } else if status.Inserted? {
      WalkingNext(t, src, before, u.values, write, newWrite, read, left, x, whole, true);
    } else {
      ok := false;
    }
  }

  lemma WalkingStart<K, V>(t: Table<K, V>, src: seq<Entry<K, V>>, left: nat, x: Interruption)
    requires t.Valid() && t.groups.Length != 0
    ensures Walking(t, src, src, 0, 0, left, x, MergeFrom(t.St(), src, 0, left, x))
  {
    hide Safe, MergeFrom;
    var r := MergeFrom(t.St(), src, 0, left, x);
    assert src[..0] + r.kept == r.kept;
  }

  /** The walk is over, at the end of the source or before an element that throws. */
  lemma WalkingEnd<K, V>(t: Table<K, V>, src: seq<Entry<K, V>>, values: seq<Entry<K, V>>, write: nat, read: nat,
                         left: nat, x: Interruption, whole: Merged<K, V>)
    requires Walking(t, src, values, write, read, left, x, whole) && (read == |src| || x == Before(read))
    ensures t.Valid() && write <= read <= |values|
    ensures whole == Merged(t.St(), values[..write] + values[read..], read, left, false, false)
  {
    hide Safe;
  }

  /** The walk, hashing sixteen ahead or not, up to the end of the source, a hash or a comparison that throws, or an
      element that is lost; `read` is the first element it leaves to the source. */
  method MergeWalk<K(==), V>(t: Table<K, V>, u: Table<K, V>, pipelined: bool, budget: nat, fault: Fault,
                             ghost src: seq<Entry<K, V>>) returns (ok: bool, write: nat, read: nat, left: nat)
    requires t != u && t.groups != u.groups && t.Valid() && t.groups.Length != 0 && u.values == src
    modifies t, t.groups, u`values
    ensures t.groups == old(t.groups) || fresh(t.groups)
    ensures write <= read <= |u.values| == |src| && Safe(old(t.St()))
    ensures write == read ==> u.values == src
    ensures var r := MergeFrom(old(t.St()), src, 0, budget, Cut(fault, pipelined, |src|));
            && r.state == t.St() && r.kept == u.values[..write] + u.values[read..] && r.left == left
            && (r.broken || t.Valid()) && read == r.Rest() && (ok <==> r.done == |src| && !r.broken)
  {
    hide Safe, MergeFrom, Walking, RingHolds, Cut, TroubleAt, TroubleOf;
    ghost var x := Cut(fault, pipelined, |src|);
    ghost var whole := MergeFrom(t.St(), src, 0, budget, x);
    WalkingStart(t, src, budget, x);
    ok, write, read, left := true, 0, 0, budget;
    var ring, look, throwsAt := new Word[PIPELINE_DEPTH](_ => 0), 0, Throwing(fault, |u.values|);
    if pipelined {
      ok, ring, look := PrimeRing(t.hash, u.values, throwsAt);
      if !ok {
        CutStart(fault, |src|);
        WalkingEnd(t, src, u.values, 0, 0, left, x, whole);
        return;
      }
    }
    while read != |u.values|
      invariant write <= read <= |u.values| == |src|
      invariant write == read ==> u.values == src
      invariant t.groups == old(t.groups) || fresh(t.groups)
      invariant fresh(ring) && ring.Length == PIPELINE_DEPTH && u.groups == old(u.groups)
      invariant Walking(t, src, u.values, write, read, left, x, whole)
      invariant pipelined ==> look == Min(|u.values|, read + PIPELINE_DEPTH) <= throwsAt
      invariant pipelined ==> RingHolds(ring[..], t.hash, u.values, read, look)
      decreases |src| - read
    {
      var mh: Word;
      ghost var before := u.values;
      CutAt(fault, pipelined, |src|, read);
      if pipelined {
        ok, mh, look := TurnRing(ring, t.hash, u.values, read, look, throwsAt);
      } else {
        ok, mh := fault != HashAt(read), t.hash(u.values[read].key);
      }
      if !ok || fault == CompareAt(read) {
        WalkingEnd(t, src, u.values, write, read, left, x, whole);
        return false, write, read, left;
      }
      ok, write, left := MergeTurn(t, u, mh, write, read, left, TroubleOf(fault, read), src, x, whole);
      if pipelined {
        RingSame(ring[..], t.hash, before, u.values, read + 1, look);
      }
      read := read + 1;
      if !ok {
        return;
      }
    }
    WalkingEnd(t, src, u.values, write, read, left, x, whole);
  }

  // After the walk /////////////////////////////////////////////////////////////

  /** The source's index filled again over the elements left behind, unless nothing was taken; where the hash of kept
      element `throwsAt` throws, over those the fill had come to. */
  ghost function Repaired<K, V>(s: State<K, V>, kept: seq<Entry<K, V>>, throwsAt: nat): (r: State<K, V>)
    requires Safe(s) && |kept| <= |s.values|
  {
    if |kept| == |s.values| then s
    else PartlyFilled(s.(values := kept), Cleared(s.groups), s.shifts, CameTo(throwsAt, |kept|))
  }

  ghost predicate Repairs<K, V>(s: State<K, V>, kept: seq<Entry<K, V>>, throwsAt: nat) {
    |kept| == |s.values| || |kept| <= throwsAt
  }

  lemma RepairedIs<K, V>(s: State<K, V>, kept: seq<Entry<K, V>>, throwsAt: nat)
    requires Safe(s) && |kept| <= |s.values| && Repairs(s, kept, throwsAt)
    ensures Repaired(s, kept, throwsAt) == SourceAfter(s, kept)
  {
    hide Safe, Build, TagFor, Cleared, Capacity;
    SafeShape(s);
    FilledToTheEnd(s.(values := kept), Cleared(s.groups), s.shifts);
  }

  /** Drops everything from `keep` on and rebuilds the index over what is left, unless nothing was taken. False when the
      hash of a value throws. */
  method DropTailAndReindex<K(==), V>(u: Table<K, V>, keep: nat, throwsAt: nat, ghost before: State<K, V>)
    returns (ok: bool)
    requires Safe(before) && u.St() == before.(values := u.values)
    requires |u.values| == |before.values| && keep <= |u.values|
    requires u.mask == if u.groups.Length == 0 then 0 else u.groups.Length - 1
    requires keep == |u.values| ==> u.values == before.values
    modifies u`values, u.groups
    ensures u.St() == Repaired(before, old(u.values)[..keep], throwsAt)
    ensures ok == Repairs(before, old(u.values)[..keep], throwsAt) && (ok ==> u.Valid())
  {
    hide Safe, Shape, Capacity, Build, Cleared, Counters.IsEmptyIndex, SourceAfter;
    SafeShape(before);
    SizeFits(before);
    ghost var kept := u.values[..keep];
    SourceAfterSafe(before, kept);
    if Repairs(before, kept, throwsAt) {
      RepairedIs(before, kept, throwsAt);
    }
    if keep == |u.values| {
      assert kept == before.values;
      return true;
    }
    SourceRefilled(before, []);
    ShapeCapacity(before);
    for k := |u.values| downto keep
      invariant |u.values| == k && u.values == old(u.values)[..k]
      invariant u.groups[..] == old(u.groups[..])
    {
      u.values := u.values[..k];
    }
    ClearedEmpty(u.groups[..]);
    u.ClearMetadata();
    ok := u.FillFromValues(throwsAt);
  }

  /** Closes the gap first: everything from `from` on moves down onto `keep`. */
  method CompactAndReindex<K(==), V>(u: Table<K, V>, keep: nat, from: nat, throwsAt: nat, ghost before: State<K, V>)
    returns (ok: bool)
    requires Safe(before) && u.St() == before.(values := u.values) && |u.values| == |before.values|
    requires keep <= from <= |u.values| && (keep == from ==> u.values == before.values)
    requires u.mask == if u.groups.Length == 0 then 0 else u.groups.Length - 1
    modifies u`values, u.groups
    ensures var kept := old(u.values)[..keep] + old(u.values)[from..];
            && u.St() == Repaired(before, kept, throwsAt)
            && ok == Repairs(before, kept, throwsAt) && (ok ==> u.Valid())
  {
    hide Safe, Repaired, Repairs, Shape;
    ghost var orig := u.values;
    var n, write := |u.values|, keep;
    for i := from to n
      invariant write == keep + (i - from) && GapClosing(orig, u.values, keep, from, i)
      invariant u.groups[..] == old(u.groups[..])
    {
      GapStep(orig, u.values, keep, from, i);
      hide GapClosing;
      if write != i {
        u.values := u.values[write := u.values[i]];
      }
      write := write + 1;
    }
    GapClosed(orig, u.values, keep, from);
    hide GapClosing;
    ok := DropTailAndReindex(u, write, throwsAt, before);
  }

  /** The survivors before the gap and the values from `from` to `i` stand together; the rest is untouched. */
  ghost predicate GapClosing<E>(orig: seq<E>, now: seq<E>, keep: nat, from: nat, i: nat) {
    && keep <= from <= i <= |orig| == |now|
    && now[..keep + (i - from)] == orig[..keep] + orig[from..i]
    && now[i..] == orig[i..]
  }

  lemma GapClosed<E>(orig: seq<E>, now: seq<E>, keep: nat, from: nat)
    requires GapClosing(orig, now, keep, from, |orig|)
    ensures now[..keep + (|orig| - from)] == orig[..keep] + orig[from..]
    ensures keep == from ==> now == orig
  {
    assert orig[from..|orig|] == orig[from..];
    if keep == from {
      assert orig[..keep] + orig[keep..] == orig && now[..|orig|] == now;
    }
  }

  lemma GapStep<E>(orig: seq<E>, now: seq<E>, keep: nat, from: nat, i: nat)
    requires GapClosing(orig, now, keep, from, i) && i < |orig|
    ensures i < |now| && keep + (i - from) <= i
    ensures GapClosing(orig, now[keep + (i - from) := now[i]], keep, from, i + 1)
  {
    var r := now[keep + (i - from) := now[i]];
    assert now[i] == now[i..][0] == orig[i];
    assert r[i + 1..] == now[i..][1..] && orig[i + 1..] == orig[i..][1..];
    assert r[..keep + (i + 1 - from)] == now[..keep + (i - from)] + [now[i]];
    assert orig[from..i + 1] == orig[from..i] + [orig[i]];
  }

  const MERGE_MIN_INDEX_BYTES: nat := 0x10_0000

  /** Whether the index for that many values would be too large to stay in the cache. */
  predicate HashesAhead(load: Load, bits: nat, size: nat)
    requires ValidLoad(load) && ValidBits(bits)
  {
    NumGroups(ShiftsFor(load, bits, size), bits) * BlockBytes(bits) > MERGE_MIN_INDEX_BYTES
  }

  /** The walk and the repair, once the destination has its array. */
  method MergeWithArray<K(==), V>(t: Table<K, V>, u: Table<K, V>, pipelined: bool, budget: nat, fault: Fault,
                                  throwsAt: nat) returns (ok: bool, left: nat)
    requires t != u && t.groups != u.groups && t.Valid() && u.Valid() && t.groups.Length != 0
    modifies t, t.groups, u`values, u.groups
    ensures t.groups == old(t.groups) || fresh(t.groups)
    ensures Safe(old(u.St())) && Safe(old(t.St()))
    ensures var source := old(u.St());
            var r := MergeFrom(old(t.St()), source.values, 0, budget, Cut(fault, pipelined, |source.values|));
            && t.St() == r.state && left == r.left
            && u.St() == Repaired(source, r.kept, throwsAt)
            && (r.broken || t.Valid()) && (Repairs(source, r.kept, throwsAt) ==> u.Valid())
            && (ok <==> r.done == |source.values| && !r.broken && Repairs(source, r.kept, throwsAt))
  {
    hide Safe, Shape, MergeFrom, Repaired, Repairs, Cut;
    ghost var source := u.St();
    var write, read, repaired;
    ok, write, read, left := MergeWalk(t, u, pipelined, budget, fault, source.values);
    if ok {
      assert u.values[..write] + u.values[read..] == u.values[..write];
      ok := DropTailAndReindex(u, write, throwsAt, source);
    } else {
      repaired := CompactAndReindex(u, write, read, throwsAt, source);
    }
  }

  /** merge(source). False when an allocation failed, before the walk, with nothing changed, or during it, when a value
      could not be appended, or when a hash or a comparison threw: one of the walk's, by `fault`, or the hash of element
      `throwsAt` of those kept, while the source's index is filled again. Merging a table into itself does nothing. */
  method Merge<K(==), V>(t: Table<K, V>, u: Table<K, V>, budget: nat, fault: Fault, throwsAt: nat)
    returns (ok: bool, left: nat)
    requires t.Valid() && u.Valid() && (t != u ==> t.groups != u.groups)
    modifies t, t.groups, u`values, u.groups
    ensures t.groups == old(t.groups) || fresh(t.groups)
    ensures Safe(old(u.St())) && Safe(old(t.St())) && Safe(WithArray(old(t.St())))
    ensures ValidLoad(old(t.load)) && ValidBits(t.bits)
    ensures var s, source := old(t.St()), old(u.St());
            if t == u || source.values == [] then ok && t.Valid() && t.St() == s && u.St() == source
            else if !s.hasArray && budget == 0 then !ok && t.Valid() && t.St() == s && u.St() == source
            else
              var n := |source.values|;
              var x := Cut(fault, HashesAhead(s.load, s.bits, |s.values| + n), n);
              var r := MergeFrom(WithArray(s), source.values, 0, if s.hasArray then budget else budget - 1, x);
              && t.St() == r.state && left == r.left
              && u.St() == Repaired(source, r.kept, throwsAt)
              && (r.broken || t.Valid()) && (Repairs(source, r.kept, throwsAt) ==> u.Valid())
              && (ok <==> r.done == n && !r.broken && Repairs(source, r.kept, throwsAt))
  {
    hide Safe, Shape, MergeFrom, WithArray, Repaired, Repairs, HashesAhead, Cut;
    WithArraySafe(t.St());
    SafeShape(t.St());
    ok, left := true, budget;
    if t == u || u.values == [] {
      return;
    }
    var pipelined := HashesAhead(t.load, t.bits, |t.values| + |u.values|);
    ok, left := t.AllocateIfNone(budget);
    if ok {
      ok, left := MergeWithArray(t, u, pipelined, left, fault, throwsAt);
    }
  }
}
