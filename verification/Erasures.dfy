/** Erasing many elements: a range of positions, and every element a predicate holds of. */
module Erasures {
  import opened Groups
  import opened Reference
  import opened Sizing
  import opened TableState
  import opened Operations
  import opened Soundness
  import opened Runs
  import opened Tables

  /** Whatever the index holds, an erase that goes through removes position i from the values. */
  lemma EraseAtValues<K, V>(s: State<K, V>, i: nat)
    requires Safe(s) && i < |s.values|
    ensures EraseAt(s, i).Done? ==> EraseAt(s, i).state.values == RemoveAt(s.values, i)
  {
    hide Safe, RemoveAt, Free, Repoint;
    SafeShape(s);
  }

  // A range of positions ///////////////////////////////////////////////////////

  function Reversed<E>(s: seq<E>): (r: seq<E>)
    ensures |r| == |s|
  {
    if s == [] then [] else [s[|s| - 1]] + Reversed(s[..|s| - 1])
  }

  /** What erasing positions [first, last) leaves: the prefix, the last values in reverse where they fill the
      holes, and the rest of the tail. */
  function RangeErased<E>(vs: seq<E>, first: nat, last: nat): seq<E>
    requires first <= last <= |vs|
  {
    var m := Min(last - first, |vs| - last);
    vs[..first] + Reversed(vs[|vs| - m..]) + vs[last..|vs| - m]
  }

  /** Half way through the first loop: j holes are filled. */
  function HolesFilled<E>(vs: seq<E>, first: nat, j: nat): seq<E>
    requires first + j <= |vs| - j
  {
    vs[..first] + Reversed(vs[|vs| - j..]) + vs[first + j..|vs| - j]
  }

  lemma {:induction false} ReversedSnoc<E>(s: seq<E>, e: E)
    ensures Reversed([e] + s) == Reversed(s) + [e]
  {
    if s == [] {
      assert [e] + s == [e];
    } else {
      ReversedSnoc(s[..|s| - 1], e);
      assert ([e] + s)[..|s|] == [e] + s[..|s| - 1];
    }
  }

  lemma FillNext<K, V>(vs: seq<Entry<K, V>>, first: nat, j: nat)
    requires first + j + 1 <= |vs| - j - 1
    ensures first + j < |HolesFilled(vs, first, j)|
    ensures RemoveAt(HolesFilled(vs, first, j), first + j) == HolesFilled(vs, first, j + 1)
  {
    hide Reversed, RemoveAt;
    var n := |vs|;
    assert vs[n - j - 1..] == [vs[n - j - 1]] + vs[n - j..];
    ReversedSnoc(vs[n - j..], vs[n - j - 1]);
    FillNextPieces(vs[..first], Reversed(vs[n - j..]), vs[first + j..n - j]);
    SliceInside(vs, first + j, n - j);
  }

  lemma FillNextPieces<K, V>(a: seq<Entry<K, V>>, b: seq<Entry<K, V>>, c: seq<Entry<K, V>>)
    requires |c| >= 2
    ensures RemoveAt(a + b + c, |a| + |b|) == a + (b + [c[|c| - 1]]) + c[1..|c| - 1]
  {
  }

  lemma SliceInside<E>(s: seq<E>, a: nat, b: nat)
    requires a + 2 <= b <= |s|
    ensures |s[a..b]| == b - a && s[a..b][b - a - 1] == s[b - 1]
    ensures s[a..b][1..b - a - 1] == s[a + 1..b - 1]
  {
    var t := s[a..b];
    var inner, want := t[1..b - a - 1], s[a + 1..b - 1];
    assert forall k :: 0 <= k < |want| ==> inner[k] == want[k];
  }

  lemma RemoveLast<K, V>(vs: seq<Entry<K, V>>)
    requires vs != []
    ensures RemoveAt(vs, |vs| - 1) == vs[..|vs| - 1]
  {
  }

  /** The first loop's result is the whole answer when the range was no longer than the tail. */
  lemma FilledAll<E>(vs: seq<E>, first: nat, last: nat)
    requires first <= last <= |vs| && last - first <= |vs| - last
    ensures HolesFilled(vs, first, last - first) == RangeErased(vs, first, last)
  {
    hide Reversed;
  }

  /** Otherwise it is the answer and a surplus at the end. */
  lemma FilledFront<E>(vs: seq<E>, first: nat, last: nat)
    requires first <= last <= |vs| && |vs| - last <= last - first
    ensures var m := |vs| - last;
            && |HolesFilled(vs, first, m)| == last
            && HolesFilled(vs, first, m)[..first + m] == RangeErased(vs, first, last)
  {
    var m := |vs| - last;
    var front := vs[..first] + Reversed(vs[|vs| - m..]);
    hide Reversed;
    assert |front| == first + m;
    assert front + vs[last..last] == front;
  }

  /** erase(first, last): a run of single erases. False if a key turned out to have changed. */
  method EraseRange<K(==), V>(t: Table<K, V>, first: nat, last: nat)
    returns (ok: bool, at: nat, ghost ops: seq<Op<K, V>>)
    requires t.Valid() && first <= last <= |t.values|
    modifies t`values, t.groups
    ensures ok ==> t.Valid() && t.values == RangeErased(old(t.values), first, last) && at == first
    ensures Safe(old(t.St())) && (ok ==> |ops| == last - first && Run(old(t.St()), ops) == Done(t.St()))
    ensures old(Sound(t.St())) ==> ok && Sound(t.St())
  {
    hide Safe, Sound, EraseAt, RemoveAt, Reversed, RangeErased, HolesFilled, Run;
    ghost var vs, sound, start := t.values, Sound(t.St()), t.St();
    ops := [];
    RunNone(start);
    var mid := first + Min(last - first, |t.values| - last);
    var idx := first;
    at := first;
    NoneFilled(vs, first);
    if last - first <= |vs| - last {
      FilledAll(vs, first, last);
    } else {
      FilledFront(vs, first, last);
    }
    while idx != mid
      invariant first <= idx <= mid && t.Valid() && (sound ==> Sound(t.St()))
      invariant t.values == HolesFilled(vs, first, idx - first)
      invariant |ops| == idx - first && Run(start, ops) == Done(t.St())
    {
      FillNext(vs, first, idx - first);
      ok, ops := EraseOne(t, idx, sound, start, ops);
      if !ok {
        return;
      }
      idx := idx + 1;
    }
    ghost var full := t.values;
    idx := last;
    while idx != mid
      invariant mid <= idx <= last && t.Valid() && (sound ==> Sound(t.St()))
      invariant t.values == if mid == last then full else full[..idx]
      invariant |ops| == mid - first + (last - idx) && Run(start, ops) == Done(t.St())
    {
      RemoveLast(t.values);
      assert full[..idx][..idx - 1] == full[..idx - 1];
      idx := idx - 1;
      ok, ops := EraseOne(t, idx, sound, start, ops);
      if !ok {
        return;
      }
    }
    ok := true;
  }

  lemma RunNone<K, V>(s: State<K, V>)
    requires Safe(s)
    ensures Run(s, []) == Done(s)
  {
  }

  lemma NoneFilled<E>(vs: seq<E>, first: nat)
    requires first <= |vs|
    ensures HolesFilled(vs, first, 0) == vs
  {
  }

  /** Erasing one position, as both loops need it. */
  method EraseOne<K(==), V>(t: Table<K, V>, i: nat, ghost sound: bool,
                            ghost start: State<K, V>, ghost before: seq<Op<K, V>>)
    returns (ok: bool, ghost ops: seq<Op<K, V>>)
    requires t.Valid() && i < |t.values| && (sound ==> Sound(t.St()))
    requires Safe(start) && Run(start, before) == Done(t.St())
    modifies t`values, t.groups
    ensures ok ==> t.Valid() && t.values == RemoveAt(old(t.values), i)
    ensures ok ==> ops == before + [EraseByIndex(i)] && Run(start, ops) == Done(t.St())
    ensures sound ==> ok && Sound(t.St())
  {
    hide Safe, Sound, EraseAt, RemoveAt, Run;
    EraseAtValues(t.St(), i);
    if sound {
      EraseAtSound(t.St(), i);
    }
    ops := before + [EraseByIndex(i)];
    RunSnoc(start, before, EraseByIndex(i));
    var value, thrown;
    ok, value, thrown := t.EraseIndex(i, false);
  }

  // erase_if ///////////////////////////////////////////////////////////////////

  /** The loop on the values alone, from position i down. */
  ghost function ErasedIf<K, V>(vs: seq<Entry<K, V>>, i: nat, pred: Entry<K, V> -> bool): seq<Entry<K, V>>
    requires i <= |vs|
    decreases i
  {
    if i == 0 then vs
    else if pred(vs[i - 1]) then ErasedIf(RemoveAt(vs, i - 1), i - 1, pred)
    else ErasedIf(vs, i - 1, pred)
  }

  ghost function Failing<K, V>(vs: seq<Entry<K, V>>, pred: Entry<K, V> -> bool): (kept: multiset<Entry<K, V>>)
  {
    if vs == [] then multiset{} else
      var last := vs[|vs| - 1];
      Failing(vs[..|vs| - 1], pred) + if pred(last) then multiset{} else multiset{last}
  }

  lemma RemoveAtTail<K, V>(vs: seq<Entry<K, V>>, i: nat)
    requires i < |vs|
    ensures RemoveAt(vs, i)[..i] == vs[..i]
    ensures multiset(RemoveAt(vs, i)[i..]) == multiset(vs[i + 1..])
  {
    var last := |vs| - 1;
    if i == last {
      assert RemoveAt(vs, i)[i..] == [] && vs[i + 1..] == [];
    } else {
      var moved := vs[i + 1..last];
      assert RemoveAt(vs, i)[i..] == [vs[last]] + moved;
      assert vs[i + 1..] == moved + [vs[last]];
    }
  }

  /** What is to be left when the loop has come down to position i. */
  ghost function Due<K, V>(vs: seq<Entry<K, V>>, i: nat, pred: Entry<K, V> -> bool): multiset<Entry<K, V>>
    requires i <= |vs|
  {
    Failing(vs[..i], pred) + multiset(vs[i..])
  }

  /** What is kept is exactly what the predicate fails of, although every erase moves the last value. */
  lemma {:induction false} ErasedIfKeeps<K, V>(vs: seq<Entry<K, V>>, i: nat, pred: Entry<K, V> -> bool)
    requires i <= |vs|
    ensures multiset(ErasedIf(vs, i, pred)) == Due(vs, i, pred)
    decreases i
  {
    hide Due, RemoveAt;
    if i == 0 {
      DueNone(vs, pred);
    } else if pred(vs[i - 1]) {
      DueErased(vs, i - 1, pred);
      ErasedIfKeeps(RemoveAt(vs, i - 1), i - 1, pred);
    } else {
      DueKept(vs, i - 1, pred);
      ErasedIfKeeps(vs, i - 1, pred);
    }
  }

  lemma DueNone<K, V>(vs: seq<Entry<K, V>>, pred: Entry<K, V> -> bool)
    ensures Due(vs, 0, pred) == multiset(vs)
  {
    assert vs[..0] == [] && vs[0..] == vs;
  }

  lemma DueErased<K, V>(vs: seq<Entry<K, V>>, i: nat, pred: Entry<K, V> -> bool)
    requires i < |vs| && pred(vs[i])
    ensures Due(RemoveAt(vs, i), i, pred) == Due(vs, i + 1, pred)
  {
    hide RemoveAt, Failing;
    FailingStep(vs, i, pred);
    RemoveAtTail(vs, i);
  }

  lemma DueKept<K, V>(vs: seq<Entry<K, V>>, i: nat, pred: Entry<K, V> -> bool)
    requires i < |vs| && !pred(vs[i])
    ensures Due(vs, i, pred) == Due(vs, i + 1, pred)
  {
    hide Failing;
    FailingStep(vs, i, pred);
    MovedOver(Failing(vs[..i], pred), multiset{vs[i]}, multiset(vs[i + 1..]));
  }

  lemma MovedOver<E>(a: multiset<E>, b: multiset<E>, c: multiset<E>)
    ensures a + (b + c) == (a + b) + c
  {
  }

  lemma FailingStep<K, V>(vs: seq<Entry<K, V>>, i: nat, pred: Entry<K, V> -> bool)
    requires i < |vs|
    ensures pred(vs[i]) ==> Failing(vs[..i + 1], pred) == Failing(vs[..i], pred)
    ensures !pred(vs[i]) ==> Failing(vs[..i + 1], pred) == Failing(vs[..i], pred) + multiset{vs[i]}
    ensures multiset(vs[i..]) == multiset{vs[i]} + multiset(vs[i + 1..])
  {
    assert vs[..i + 1][..i] == vs[..i];
    assert vs[i..] == [vs[i]] + vs[i + 1..];
  }

  lemma EraseIfStep<K, V>(vs: seq<Entry<K, V>>, now: seq<Entry<K, V>>, i: nat, pred: Entry<K, V> -> bool)
    requires i < |vs| && i < |now| && now[..i + 1] == vs[..i + 1]
    ensures now[i] == vs[i] && now[..i] == vs[..i]
    ensures Reversed(vs[i..]) == Reversed(vs[i + 1..]) + [vs[i]]
    ensures RemoveAt(now, i)[..i] == vs[..i]
    ensures ErasedIf(now, i + 1, pred)
         == if pred(now[i]) then ErasedIf(RemoveAt(now, i), i, pred) else ErasedIf(now, i, pred)
  {
    assert now[i] == now[..i + 1][i] && vs[i] == vs[..i + 1][i];
    assert now[..i] == now[..i + 1][..i] && vs[..i] == vs[..i + 1][..i];
    assert vs[i..] == [vs[i]] + vs[i + 1..];
    ReversedSnoc(vs[i + 1..], vs[i]);
    RemoveAtTail(now, i);
    hide Reversed, RemoveAt;
  }

  lemma EraseIfEnds<K, V>(vs: seq<Entry<K, V>>, pred: Entry<K, V> -> bool)
    ensures vs[..|vs|] == vs[0..] == vs && Reversed(vs[|vs|..]) == []
    ensures ErasedIf(vs, 0, pred) == vs
  {
  }

  /** std::erase_if. The elements the predicate was asked about come out in the order of the questions. */
  method EraseIf<K(==), V>(t: Table<K, V>, pred: Entry<K, V> -> bool)
    returns (ok: bool, erased: nat, asked: seq<Entry<K, V>>, ghost ops: seq<Op<K, V>>)
    requires t.Valid()
    modifies t`values, t.groups
    ensures ok ==> t.Valid() && t.values == ErasedIf(old(t.values), |old(t.values)|, pred)
    ensures ok ==> asked == Reversed(old(t.values)) && erased + |t.values| == |old(t.values)|
    ensures Safe(old(t.St())) && (ok ==> |ops| == erased && Run(old(t.St()), ops) == Done(t.St()))
    ensures old(Sound(t.St())) ==> ok && Sound(t.St())
  {
    hide Safe, Sound, RemoveAt, Run, Step, Reversed, ErasedIf;
    ghost var vs, sound, start := t.values, Sound(t.St()), t.St();
    ops := [];
    RunNone(start);
    var size := |t.values|;
    var idx: nat := size;
    asked, ok := [], true;
    EraseIfEnds(vs, pred);
    while idx != 0
      invariant idx <= |t.values| <= |vs| && t.Valid() && (sound ==> Sound(t.St()))
      invariant t.values[..idx] == vs[..idx]
      invariant asked == Reversed(vs[idx..])
      invariant ErasedIf(t.values, idx, pred) == ErasedIf(vs, |vs|, pred)
      invariant |ops| + |t.values| == |vs| && Run(start, ops) == Done(t.St())
    {
      idx := idx - 1;
      EraseIfStep(vs, t.values, idx, pred);
      asked := asked + [t.values[idx]];
      if pred(t.values[idx]) {
        ok, ops := EraseOne(t, idx, sound, start, ops);
        if !ok {
          return false, 0, asked, ops;
        }
      }
    }
    EraseIfEnds(t.values, pred);
    erased := size - |t.values|;
  }
}
