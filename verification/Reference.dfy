/** The abstract container: a dense vector of entries looked up by linear scan, and the map it stands for.
    It knows nothing of hashes, groups or counters. */
module Reference {
  import opened Probing

  datatype Entry<+K, +V> = Entry(key: K, val: V)

  ghost predicate DistinctKeys<K, V>(vs: seq<Entry<K, V>>) {
    forall i, j :: 0 <= i < j < |vs| ==> vs[i].key != vs[j].key
  }

  /** The first position holding `k`, or the length when none does. */
  function Scan<K(==), V>(vs: seq<Entry<K, V>>, k: K): (i: nat)
    ensures i <= |vs|
    ensures i < |vs| ==> vs[i].key == k
    ensures forall j :: 0 <= j < i ==> vs[j].key != k
  {
    ScanFrom(vs, k, 0)
  }

  function ScanFrom<K(==), V>(vs: seq<Entry<K, V>>, k: K, from: nat): (i: nat)
    requires from <= |vs|
    ensures from <= i <= |vs|
    ensures i < |vs| ==> vs[i].key == k
    ensures forall j :: from <= j < i ==> vs[j].key != k
    decreases |vs| - from
  {
    if from == |vs| || vs[from].key == k then from else ScanFrom(vs, k, from + 1)
  }

  predicate Present<K(==), V>(vs: seq<Entry<K, V>>, k: K) {
    Scan(vs, k) < |vs|
  }

  ghost function Keys<K, V>(vs: seq<Entry<K, V>>): set<K> {
    set i | 0 <= i < |vs| :: vs[i].key
  }

  ghost function MapOf<K, V>(vs: seq<Entry<K, V>>): map<K, V> {
    map k | k in Keys(vs) :: vs[Scan(vs, k)].val
  }

  lemma ScanOfKey<K, V>(vs: seq<Entry<K, V>>, i: nat)
    requires DistinctKeys(vs) && i < |vs|
    ensures Scan(vs, vs[i].key) == i
  {
  }

  lemma MapAt<K, V>(vs: seq<Entry<K, V>>, i: nat)
    requires DistinctKeys(vs) && i < |vs|
    ensures vs[i].key in MapOf(vs) && MapOf(vs)[vs[i].key] == vs[i].val
  {
    ScanOfKey(vs, i);
  }

  lemma MapHoldsValues<K, V>(vs: seq<Entry<K, V>>)
    requires DistinctKeys(vs)
    ensures MapOf(vs).Keys == Keys(vs)
    ensures forall i :: 0 <= i < |vs| ==> vs[i].key in MapOf(vs) && MapOf(vs)[vs[i].key] == vs[i].val
  {
    forall i | 0 <= i < |vs|
      ensures vs[i].key in MapOf(vs) && MapOf(vs)[vs[i].key] == vs[i].val
    {
      MapAt(vs, i);
    }
  }

  /** A map that has the vector's keys and, at every position's key, that position's value is its MapOf. */
  lemma MapIs<K, V>(vs: seq<Entry<K, V>>, m: map<K, V>)
    requires DistinctKeys(vs) && m.Keys == Keys(vs)
    requires forall i :: 0 <= i < |vs| ==> vs[i].key in m && m[vs[i].key] == vs[i].val
    ensures MapOf(vs) == m
  {
  }

  // Operations ////////////////////////////////////////////////////////////////

  function Insert<K(==), V>(vs: seq<Entry<K, V>>, e: Entry<K, V>): seq<Entry<K, V>> {
    if Present(vs, e.key) then vs else vs + [e]
  }

  /** Position `i` leaves and the last entry takes its place. */
  function RemoveAt<K, V>(vs: seq<Entry<K, V>>, i: nat): (r: seq<Entry<K, V>>)
    requires i < |vs|
    ensures |r| == |vs| - 1
  {
    vs[i := vs[|vs| - 1]][..|vs| - 1]
  }

  function Erase<K(==), V>(vs: seq<Entry<K, V>>, k: K): seq<Entry<K, V>> {
    if Present(vs, k) then RemoveAt(vs, Scan(vs, k)) else vs
  }

  /** The key at `i` becomes `k`, unless `k` is there already. */
  function ReplaceKey<K(==), V>(vs: seq<Entry<K, V>>, i: nat, k: K): seq<Entry<K, V>>
    requires i < |vs|
  {
    if Present(vs, k) then vs else vs[i := Entry(k, vs[i].val)]
  }

  lemma InsertRefines<K, V>(vs: seq<Entry<K, V>>, e: Entry<K, V>)
    requires DistinctKeys(vs)
    ensures DistinctKeys(Insert(vs, e))
    ensures MapOf(Insert(vs, e)) == if e.key in MapOf(vs) then MapOf(vs) else MapOf(vs)[e.key := e.val]
  {
    if !Present(vs, e.key) {
      var r := vs + [e];
      assert Keys(r) == Keys(vs) + {e.key} by {
        assert r[|vs|].key == e.key;
        assert forall i :: 0 <= i < |vs| ==> r[i] == vs[i];
      }
      MapHoldsValues(vs);
      hide MapOf;
      MapIs(r, MapOf(vs)[e.key := e.val]);
    }
  }

  lemma RemoveAtKeys<K, V>(vs: seq<Entry<K, V>>, i: nat)
    requires DistinctKeys(vs) && i < |vs|
    ensures DistinctKeys(RemoveAt(vs, i))
    ensures Keys(RemoveAt(vs, i)) == Keys(vs) - {vs[i].key}
  {
    var r := RemoveAt(vs, i);
    forall k | k in Keys(vs) - {vs[i].key}
      ensures k in Keys(r)
    {
      var j :| 0 <= j < |vs| && vs[j].key == k;
      assert k == if j == |vs| - 1 then r[i].key else r[j].key;
    }
  }

  lemma RemoveAtRefines<K, V>(vs: seq<Entry<K, V>>, i: nat)
    requires DistinctKeys(vs) && i < |vs|
    ensures DistinctKeys(RemoveAt(vs, i))
    ensures MapOf(RemoveAt(vs, i)) == MapOf(vs) - {vs[i].key}
  {
    var r := RemoveAt(vs, i);
    RemoveAtKeys(vs, i);
    forall k | k in Keys(r)
      ensures MapOf(r)[k] == MapOf(vs)[k]
    {
      var j := Scan(r, k);
      MapAt(vs, if j == i then |vs| - 1 else j);
    }
  }

  lemma ReplaceKeyKeys<K, V>(vs: seq<Entry<K, V>>, i: nat, k: K)
    requires DistinctKeys(vs) && i < |vs| && !Present(vs, k)
    ensures Keys(ReplaceKey(vs, i, k)) == Keys(vs) - {vs[i].key} + {k}
  {
    var r := ReplaceKey(vs, i, k);
    forall q | q in Keys(vs) - {vs[i].key} + {k}
      ensures q in Keys(r)
    {
      if q == k {
        assert r[i].key == q;
      } else {
        assert r[Scan(vs, q)].key == q;
      }
    }
  }

  lemma ReplaceKeyRefines<K, V>(vs: seq<Entry<K, V>>, i: nat, k: K)
    requires DistinctKeys(vs) && i < |vs|
    ensures DistinctKeys(ReplaceKey(vs, i, k))
    ensures MapOf(ReplaceKey(vs, i, k))
         == if k in MapOf(vs) then MapOf(vs) else (MapOf(vs) - {vs[i].key})[k := vs[i].val]
  {
    if !Present(vs, k) {
      ReplaceKeyKeys(vs, i, k);
      MapHoldsValues(vs);
      MapIs(ReplaceKey(vs, i, k), (MapOf(vs) - {vs[i].key})[k := vs[i].val]);
    }
  }

  // Equality of the maps two vectors stand for /////////////////////////////////

  lemma {:induction false} KeysSize<K, V>(vs: seq<Entry<K, V>>)
    requires DistinctKeys(vs)
    ensures |Keys(vs)| == |vs|
  {
    if vs == [] {
      assert Keys(vs) == {};
    } else {
      var init, last := vs[..|vs| - 1], vs[|vs| - 1].key;
      KeysSize(init);
      assert last !in Keys(init);
      assert Keys(vs) == Keys(init) + {last} by {
        assert forall i :: 0 <= i < |init| ==> init[i] == vs[i];
      }
    }
  }

  ghost predicate HoldsAll<K, V>(m: map<K, V>, vs: seq<Entry<K, V>>) {
    forall i :: 0 <= i < |vs| ==> vs[i].key in m && m[vs[i].key] == vs[i].val
  }

  /** Two vectors of one length stand for one map as soon as one holds all the entries of the other: distinct
      keys leave no room for a further one. */
  lemma SameMapIff<K, V>(a: seq<Entry<K, V>>, b: seq<Entry<K, V>>)
    requires DistinctKeys(a) && DistinctKeys(b)
    ensures |a| == |b| && HoldsAll(MapOf(a), b) <==> MapOf(a) == MapOf(b)
  {
    KeysSize(a);
    KeysSize(b);
    MapHoldsValues(a);
    MapHoldsValues(b);
    hide MapOf, DistinctKeys;
    if |a| == |b| && HoldsAll(MapOf(a), b) {
      HeldKeys(MapOf(a), b);
      SubsetOfSameSize(Keys(b), Keys(a));
      HeldMap(MapOf(a), MapOf(b), b);
    }
  }

  lemma HeldKeys<K, V>(m: map<K, V>, vs: seq<Entry<K, V>>)
    requires HoldsAll(m, vs)
    ensures Keys(vs) <= m.Keys
  {
  }

  lemma HeldMap<K, V>(m: map<K, V>, n: map<K, V>, vs: seq<Entry<K, V>>)
    requires HoldsAll(m, vs) && HoldsAll(n, vs) && m.Keys == n.Keys == Keys(vs)
    ensures m == n
  {
  }
}
