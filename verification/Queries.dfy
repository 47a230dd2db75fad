/** Operations that only read: equality of two tables, verify, and what a lookup depends on. */
module Queries {
  import opened Probing
  import opened Groups
  import opened Counters
  import opened Reference
  import opened Sizing
  import opened TableState

  // Equality ///////////////////////////////////////////////////////////////////

  /** What operator== computes: equal sizes, and every entry of `b` found in `a` with an equal value. */
  ghost predicate SameEntries<K, V>(a: State<K, V>, b: State<K, V>)
    requires Shape(a)
  {
    && |a.values| == |b.values|
    && forall i :: 0 <= i < |b.values| ==> FoundEqual(a, b.values[i])
  }

  ghost predicate FoundEqual<K, V>(a: State<K, V>, e: Entry<K, V>)
    requires Shape(a)
  {
    var at := Find(a, e.key);
    at < |a.values| && a.values[at].val == e.val
  }

  lemma FoundEqualIs<K, V>(a: State<K, V>, e: Entry<K, V>)
    requires Sound(a)
    ensures FoundEqual(a, e) <==> (e.key in MapOf(a.values) && MapOf(a.values)[e.key] == e.val)
  {
    FindIsScan(a, e.key);
    hide Sound, Safe, Find;
    assert e.key in Keys(a.values) <==> Present(a.values, e.key);
  }

  /** Two tables compare equal exactly when they stand for the same map, whatever the order of their values,
      the layout of their indexes, or the hashes they use. */
  lemma EqualIffSameMap<K, V>(a: State<K, V>, b: State<K, V>)
    requires Sound(a) && DistinctKeys(b.values)
    ensures SameEntries(a, b) <==> MapOf(a.values) == MapOf(b.values)
  {
    SameMapIff(a.values, b.values);
    hide Safe, Find, MapOf, Exact, DistinctKeys;
    forall i | 0 <= i < |b.values|
      ensures FoundEqual(a, b.values[i])
         <==> (b.values[i].key in MapOf(a.values) && MapOf(a.values)[b.values[i].key] == b.values[i].val)
    {
      FoundEqualIs(a, b.values[i]);
    }
  }

  // verify /////////////////////////////////////////////////////////////////////

  /** What verify looks at for one value. */
  ghost predicate Consistent<K, V>(s: State<K, V>, i: nat)
    requires Shape(s) && i < |s.values|
  {
    Find(s, s.values[i].key) == i
  }

  ghost predicate AllConsistent<K, V>(s: State<K, V>)
    requires Shape(s)
  {
    forall i :: 0 <= i < |s.values| ==> Consistent(s, i)
  }

  /** verify(full), on any safe index: true exactly when keys are distinct and find is the linear scan for every
      key, present or not. */
  lemma VerifyMeans<K, V>(s: State<K, V>)
    requires Safe(s)
    ensures AllConsistent(s) <==> DistinctKeys(s.values) && forall k :: Find(s, k) == Scan(s.values, k)
  {
    if AllConsistent(s) {
      forall i, j | 0 <= i < j < |s.values|
        ensures s.values[i].key != s.values[j].key
      {
        assert Consistent(s, i) && Consistent(s, j);
      }
      forall k
        ensures Find(s, k) == Scan(s.values, k)
      {
        if Present(s.values, k) {
          assert Consistent(s, Scan(s.values, k));
        } else {
          AbsentNotFound(s, k);
        }
      }
    }
    if DistinctKeys(s.values) && forall k :: Find(s, k) == Scan(s.values, k) {
      forall i | 0 <= i < |s.values|
        ensures Consistent(s, i)
      {
        ScanOfKey(s.values, i);
      }
    }
  }

  /** On any safe index a key that is not there is not found. */
  lemma AbsentNotFound<K, V>(s: State<K, V>, k: K)
    requires Safe(s) && !Present(s.values, k)
    ensures Find(s, k) == |s.values|
  {
  }

  lemma SoundVerifies<K, V>(s: State<K, V>)
    requires Sound(s)
    ensures AllConsistent(s)
  {
    forall i | 0 <= i < |s.values|
      ensures Consistent(s, i)
    {
      FindIsScan(s, s.values[i].key);
      ScanOfKey(s.values, i);
    }
  }

  /** The indexes differ in their counters only, and agree on which are zero. */
  ghost predicate SameButPositive(a: seq<Group>, b: seq<Group>) {
    && |a| == |b|
    && (forall g :: 0 <= g < |a| ==> a[g].fingerprints == b[g].fingerprints && a[g].index == b[g].index)
    && (forall g, c :: 0 <= g < |a| && 0 <= c < CLASSES ==> (a[g].overflows[c] == 0 <==> b[g].overflows[c] == 0))
  }

  /** A lookup sees of a counter only whether it is zero: one that is positive but too low, or too high, changes
      no lookup, so verify cannot tell it from an exact one. */
  lemma {:induction false} LookupSeesZeros<K, V>(
    values: seq<Entry<K, V>>, a: seq<Group>, b: seq<Group>, tag: Tag, k: K, d: nat)
    requires SameButPositive(a, b) && tag.home < |a| && d < |a|
    ensures ProbeFrom(values, a, tag, k, d) == ProbeFrom(values, b, tag, k, d)
    decreases |a| - d
  {
    hide SameButPositive, Path, KeyLane, Matches, Class;
    var g := Path(|a|, tag.home, d);
    SameGroup(a, b, g, Class(tag.fp));
    SameLane(values, a[g], b[g], tag.fp, k, 0);
    if d + 1 < |a| {
      LookupSeesZeros(values, a, b, tag, k, d + 1);
    }
  }

  lemma SameGroup(a: seq<Group>, b: seq<Group>, g: nat, c: nat)
    requires SameButPositive(a, b) && g < |a| && c < CLASSES
    ensures |a| == |b| && a[g].fingerprints == b[g].fingerprints && a[g].index == b[g].index
    ensures a[g].overflows[c] == 0 <==> b[g].overflows[c] == 0
  {
  }

  lemma {:induction false} SameLane<K, V>(values: seq<Entry<K, V>>, a: Group, b: Group, fp: Byte, k: K, from: nat)
    requires a.fingerprints == b.fingerprints && a.index == b.index && from <= LANES
    ensures KeyLane(values, a, fp, k, from) == KeyLane(values, b, fp, k, from)
    decreases LANES - from
  {
    if from < LANES {
      SameLane(values, a, b, fp, k, from + 1);
    }
  }

  // The positions a spot check looks at ////////////////////////////////////////

  /** floor(j * n / 16), computed without the product. */
  function Spot(j: nat, n: nat): nat {
    j * (n / 16) + j * (n % 16) / 16
  }

  lemma SixteenthOfSum(x: nat, y: nat, z: nat)
    requires z == 16 * x + y
    ensures z / 16 == x + y / 16
  {
  }

  lemma ProductOfSplit(j: nat, n: nat, q: nat, r: nat)
    requires n == 16 * q + r
    ensures j * n == 16 * (j * q) + j * r
  {
    Distribute(j, 16 * q, r);
  }

  lemma SixteenthBelow(j: nat, n: nat, z: nat)
    requires j < 16 && n > 0 && z == n * j
    ensures z / 16 < n
  {
    MulMonotone(n, j, 15);
  }

  lemma SpotIs(j: nat, n: nat)
    requires j < 16 && n > 0
    ensures Spot(j, n) == j * n / 16 < n
  {
    ProductOfSplit(j, n, n / 16, n % 16);
    SixteenthOfSum(j * (n / 16), j * (n % 16), j * n);
    SixteenthBelow(j, n, j * n);
  }
}
