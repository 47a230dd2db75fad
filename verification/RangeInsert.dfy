/** Range insert: hashes run sixteen elements ahead of the inserts, although an insert may grow the index. */
module RangeInsert {
  import opened Reference
  import opened Sizing
  import opened TableState
  import opened Operations
  import opened Safety
  import opened Soundness
  import opened Faults
  import opened Walks
  import opened Tables

  /** The state, the first element the walk did not insert, the allocations left over, and whether the state is no table
      because the walk ended in the middle of a growth. */
  datatype Progress<!K(==), V> = Progress(state: State<K, V>, done: nat, left: nat, broken: bool)

  /** The plain loop from element i on: one insert after another, up to the first that fails. */
  ghost function InsertAll<K, V>(s: State<K, V>, src: seq<Entry<K, V>>, i: nat, budget: nat, x: Interruption)
    : (r: Progress<K, V>)
    requires Safe(s) && i <= |src|
    ensures i <= r.done <= |src|
    decreases |src| - i
  {
    if i == |src| || x == Before(i) then Progress(s, i, budget, false) else
      EmplaceInSafe(s, src[i], budget, TroubleAt(x, i));
      var one := EmplaceIn(s, src[i], budget, TroubleAt(x, i));
      if one.Placed? then InsertAll(one.state, src, i + 1, one.budget, x)
      else if one.Unfilled? then Progress(one.state, i + 1, one.budget, true)
      else Progress(one.state, i, one.LeftOver(), false)
  }

  function InsertEach<K(==), V>(vs: seq<Entry<K, V>>, src: seq<Entry<K, V>>): seq<Entry<K, V>>
    decreases |src|
  {
    if src == [] then vs else InsertEach(Insert(vs, src[0]), src[1..])
  }

  /** The values after a range insert are the old ones and, in order, the elements handled whose key was neither
      in the table nor earlier in the range: the first occurrence of a key wins. */
  lemma {:induction false} InsertAllSound<K, V>(
    s: State<K, V>, src: seq<Entry<K, V>>, i: nat, budget: nat, x: Interruption)
    requires Sound(s) && i <= |src|
    ensures Safe(s)
    ensures var r := InsertAll(s, src, i, budget, x);
            (r.broken || Sound(r.state)) && r.state.values == InsertEach(s.values, src[i..r.done])
    decreases |src| - i
  {
    hide Safe, Sound, Emplace, EmplaceIn, Insert, InsertEach;
    SoundParts(s);
    InsertEachNext(s.values, src, i, InsertAll(s, src, i, budget, x).done);
    if i < |src| && x != Before(i) {
      InsertedOne(s, src[i], budget, TroubleAt(x, i));
      EmplaceInSafe(s, src[i], budget, TroubleAt(x, i));
      var r := EmplaceIn(s, src[i], budget, TroubleAt(x, i));
      if r.Placed? {
        InsertAllSound(r.state, src, i + 1, r.budget, x);
      }
    }
  }

  /** One turn on the values. */
  lemma InsertedOne<K, V>(s: State<K, V>, e: Entry<K, V>, budget: nat, trouble: Trouble)
    requires Sound(s)
    ensures Safe(s)
    ensures var r := EmplaceIn(s, e, budget, trouble);
            && (r.Unfilled? || Sound(r.state))
            && r.state.values == if r.Placed? || r.Unfilled? then Insert(s.values, e) else s.values
  {
    hide Safe, Sound, Emplace, EmplaceIn;
    SoundParts(s);
    EmplaceInSound(s, e, budget, trouble);
    EmplaceSound(s, e, budget, trouble != NoAppend);
    WithArrayIs(s);
    hide WithArray;
  }

  lemma InsertEachNext<K, V>(vs: seq<Entry<K, V>>, src: seq<Entry<K, V>>, i: nat, n: nat)
    requires i <= n <= |src|
    ensures n == i ==> InsertEach(vs, src[i..n]) == vs
    ensures n == i + 1 ==> InsertEach(vs, src[i..n]) == Insert(vs, src[i])
    ensures n > i ==> InsertEach(vs, src[i..n]) == InsertEach(Insert(vs, src[i]), src[i + 1..n])
  {
    hide Insert;
    if n > i {
      assert src[i..n][1..] == src[i + 1..n];
    }
  }

  ghost predicate Fresh<K, V>(vs: seq<Entry<K, V>>, src: seq<Entry<K, V>>, i: nat)
    requires i < |src|
  {
    !Present(vs, src[i].key) && forall j :: 0 <= j < i ==> src[j].key != src[i].key
  }

  ghost function FreshOnes<K, V>(vs: seq<Entry<K, V>>, src: seq<Entry<K, V>>, n: nat): seq<Entry<K, V>>
    requires n <= |src|
  {
    if n == 0 then [] else FreshOnes(vs, src, n - 1) + if Fresh(vs, src, n - 1) then [src[n - 1]] else []
  }

  /** Inserting each element one by one appends exactly the fresh ones. */
  lemma {:induction false} InsertEachIs<K, V>(vs: seq<Entry<K, V>>, src: seq<Entry<K, V>>, n: nat)
    requires n <= |src|
    ensures InsertEach(vs, src[..n]) == vs + FreshOnes(vs, src, n)
  {
    if n == 0 {
    } else {
      InsertEachIs(vs, src, n - 1);
      InsertEachSnoc(vs, src[..n - 1], src[n - 1]);
      assert src[..n] == src[..n - 1] + [src[n - 1]];
      FreshPresent(vs, src, n - 1, src[n - 1].key);
    }
  }

  lemma {:induction false} InsertEachSnoc<K, V>(vs: seq<Entry<K, V>>, src: seq<Entry<K, V>>, e: Entry<K, V>)
    ensures InsertEach(vs, src + [e]) == Insert(InsertEach(vs, src), e)
    decreases |src|
  {
    hide Insert;
    if src == [] {
      assert (src + [e])[1..] == [];
    } else {
      InsertEachSnoc(Insert(vs, src[0]), src[1..], e);
      assert (src + [e])[1..] == src[1..] + [e];
    }
  }

  lemma {:induction false} FreshPresent<K, V>(vs: seq<Entry<K, V>>, src: seq<Entry<K, V>>, n: nat, k: K)
    requires n <= |src|
    ensures Present(vs + FreshOnes(vs, src, n), k)
       <==> Present(vs, k) || exists j :: 0 <= j < n && src[j].key == k
  {
    PresentIff(vs, k);
    PresentIff(vs + FreshOnes(vs, src, n), k);
    if n == 0 {
      assert vs + FreshOnes(vs, src, n) == vs;
    } else {
      FreshPresent(vs, src, n - 1, k);
      PresentIff(vs + FreshOnes(vs, src, n - 1), k);
      PresentIff(vs, src[n - 1].key);
      hide Present, Scan;
      FreshStep(vs, src, n, k);
    }
  }

  lemma PresentIff<K, V>(vs: seq<Entry<K, V>>, k: K)
    ensures Present(vs, k) <==> exists i :: 0 <= i < |vs| && vs[i].key == k
  {
  }

  lemma FreshStep<K, V>(vs: seq<Entry<K, V>>, src: seq<Entry<K, V>>, n: nat, k: K)
    requires 0 < n <= |src|
    requires Present(vs + FreshOnes(vs, src, n - 1), k)
        <==> Present(vs, k) || exists j :: 0 <= j < n - 1 && src[j].key == k
    ensures Present(vs + FreshOnes(vs, src, n), k) <==> Present(vs, k) || exists j :: 0 <= j < n && src[j].key == k
  {
    var before, e := vs + FreshOnes(vs, src, n - 1), src[n - 1];
    assert vs + FreshOnes(vs, src, n) == before + if Fresh(vs, src, n - 1) then [e] else [];
    PresentSnoc(before, e, k);
    hide Present;
    assert (exists j :: 0 <= j < n && src[j].key == k)
      <==> (e.key == k || exists j :: 0 <= j < n - 1 && src[j].key == k);
  }

  lemma PresentSnoc<K, V>(vs: seq<Entry<K, V>>, e: Entry<K, V>, k: K)
    ensures Present(vs + [e], k) <==> Present(vs, k) || e.key == k
    ensures vs + [] == vs
  {
    PresentIff(vs, k);
    PresentIff(vs + [e], k);
    hide Present;
    if Present(vs, k) {
      var i :| 0 <= i < |vs| && vs[i].key == k;
      assert (vs + [e])[i].key == k;
    }
    if e.key == k {
      assert (vs + [e])[|vs|].key == k;
    }
  }

  /** The walk of a range insert, into a table that has its array. */
  method InsertWalk<K(==), V>(t: Table<K, V>, src: seq<Entry<K, V>>, budget: nat, fault: Fault)
    returns (done: nat, left: nat)
    requires t.Valid() && t.groups.Length != 0
    modifies t, t.groups
    ensures t.groups == old(t.groups) || fresh(t.groups)
    ensures Safe(old(t.St()))
    ensures var r := InsertAll(old(t.St()), src, 0, budget, Cut(fault, true, |src|));
            && t.St() == r.state && done == r.done && left == r.left && (r.broken || t.Valid())
  {
    hide Safe, RingHolds, InsertAll, Cut, EmplaceIn, TroubleAt, TroubleOf;
    ghost var x := Cut(fault, true, |src|);
    ghost var whole := InsertAll(t.St(), src, 0, budget, x);
    done, left := 0, budget;
    var throwsAt := Throwing(fault, |src|);
    var ok, ring, ahead := PrimeRing(t.hash, src, throwsAt);
    if !ok {
      CutStart(fault, |src|);
      InsertAllEnds(t.St(), src, 0, left, x);
      return;
    }
    while done < |src|
      invariant done <= |src| && t.Valid() && t.groups.Length != 0
      invariant t.groups == old(t.groups) || fresh(t.groups)
      invariant fresh(ring) && ring.Length == PIPELINE_DEPTH
      invariant ahead == Min(|src|, done + PIPELINE_DEPTH) <= throwsAt && RingHolds(ring[..], t.hash, src, done, ahead)
      invariant whole == InsertAll(t.St(), src, done, left, x)
    {
      var mh, status;
      CutAt(fault, true, |src|, done);
      ok, mh, ahead := TurnRing(ring, t.hash, src, done, ahead, throwsAt);
      if !ok || fault == CompareAt(done) {
        InsertAllEnds(t.St(), src, done, left, x);
        return;
      }
      InsertAllStep(t.St(), src, done, left, x);
      status, left := t.InsertHashed(mh, src[done], left, TroubleOf(fault, done));
      if status.OutOfMemory? || status.TooMany? || status.NotAppended? {
        return;
      }
      done := done + 1;
      if status.HashThrew? {
        return;
      }
    }
    InsertAllEnds(t.St(), src, done, left, x);
  }

  /** insert(first, last) over a range that can be walked twice. It ends at the element that cannot be inserted, or
      that is next when a hash or a comparison throws. */
  method InsertRange<K(==), V>(t: Table<K, V>, src: seq<Entry<K, V>>, budget: nat, fault: Fault)
    returns (done: nat, left: nat)
    requires t.Valid()
    modifies t, t.groups
    ensures t.groups == old(t.groups) || fresh(t.groups)
    ensures Safe(WithArray(old(t.St())))
    ensures var s := old(t.St());
            if src == [] || (!s.hasArray && budget == 0) then
              t.Valid() && t.St() == s && done == 0 && left == budget
            else
              var left0 := if s.hasArray then budget else budget - 1;
              var r := InsertAll(WithArray(s), src, 0, left0, Cut(fault, true, |src|));
              t.St() == r.state && done == r.done && left == r.left && (r.broken || t.Valid())
  {
    hide Safe, Shape, WithArray, InsertAll, Cut;
    done, left := 0, budget;
    WithArraySafe(t.St());
    if src == [] {
      return;
    }
    var ok;
    ok, left := t.AllocateIfNone(budget);
    if ok {
      done, left := InsertWalk(t, src, left, fault);
    }
  }

  lemma InsertAllEnds<K, V>(s: State<K, V>, src: seq<Entry<K, V>>, i: nat, budget: nat, x: Interruption)
    requires Safe(s) && i <= |src| && (i == |src| || x == Before(i))
    ensures InsertAll(s, src, i, budget, x) == Progress(s, i, budget, false)
  {
  }

  /** One turn of the plain loop. */
  lemma InsertAllStep<K, V>(s: State<K, V>, src: seq<Entry<K, V>>, i: nat, budget: nat, x: Interruption)
    requires Safe(s) && i < |src| && x != Before(i)
    ensures var one := EmplaceIn(s, src[i], budget, TroubleAt(x, i));
            && (one.Unfilled? || Safe(one.state))
            && InsertAll(s, src, i, budget, x)
               == if one.Placed? then InsertAll(one.state, src, i + 1, one.budget, x)
                  else if one.Unfilled? then Progress(one.state, i + 1, one.budget, true)
                  else Progress(one.state, i, one.LeftOver(), false)
  {
    hide Safe, EmplaceIn;
    EmplaceInSafe(s, src[i], budget, TroubleAt(x, i));
  }
}
