/** Operations over many elements: bulk visit, range erase, erase_if, comparison of two tables, verify. */
module Bulk {
  import opened Groups
  import opened Bijection
  import opened Reference
  import opened Sizing
  import opened TableState
  import opened Soundness
  import opened Queries
  import opened Swar
  import opened Faults
  import opened Walks
  import opened Tables

  // Bulk visit /////////////////////////////////////////////////////////////////

  /** The positions a loop of single finds would hand to the callable, in the order of the keys. */
  ghost function VisitEach<K, V>(s: State<K, V>, keys: seq<K>): seq<nat>
    requires Shape(s)
  {
    if keys == [] then [] else
      var i := Find(s, keys[|keys| - 1]);
      VisitEach(s, keys[..|keys| - 1]) + if i < |s.values| then [i] else []
  }

  function VisitByScan<K(==), V>(vs: seq<Entry<K, V>>, keys: seq<K>): seq<nat> {
    if keys == [] then [] else
      var i := Scan(vs, keys[|keys| - 1]);
      VisitByScan(vs, keys[..|keys| - 1]) + if i < |vs| then [i] else []
  }

  lemma {:induction false} VisitIsScan<K, V>(s: State<K, V>, keys: seq<K>)
    requires Sound(s)
    ensures VisitEach(s, keys) == VisitByScan(s.values, keys)
  {
    hide Sound, Safe, Find, Scan, Shape;
    SoundParts(s);
    SafeShape(s);
    if keys != [] {
      FindIsScan(s, keys[|keys| - 1]);
      VisitIsScan(s, keys[..|keys| - 1]);
    }
  }

  lemma VisitSnoc<K, V>(s: State<K, V>, keys: seq<K>, n: nat)
    requires Shape(s) && n < |keys|
    ensures VisitEach(s, keys[..n + 1])
         == VisitEach(s, keys[..n]) + if Find(s, keys[n]) < |s.values| then [Find(s, keys[n])] else []
  {
    hide Shape, Find;
    assert keys[..n + 1][..n] == keys[..n];
  }

  /** Pass three for one key, given the lanes of its home group that pass two matched. */
  method VisitOne<K(==), V>(t: Table<K, V>, key: K, tag: Tag, lanes: nat) returns (at: nat)
    requires t.Valid() && t.groups.Length != 0
    requires tag == TagOf(t.St(), key) && tag.home < t.groups.Length
    requires lanes == MatchFingerprint(t.groups[tag.home].fingerprints, tag.fp)
    ensures Shape(t.St()) && at == TableState.Find(t.St(), key)
  {
    hide Safe, Shape, Bijects, TagOf, MatchFingerprint;
    SafeShape(t.St());
    BijectsPointsBelow(t.Data(), |t.values|, |t.values|);
    PointsInside(t.groups[..], |t.values|, tag.home, tag.fp);
    hide PointsBelow;
    var group := t.groups[tag.home];
    var lane := FirstMatch(t.values, group, tag.fp, key, lanes);
    if lane < LANES {
      return group.index[lane];
    }
    var r := ProbeAfterHome(t.values, t.groups[..], t.mask, tag, key);
    at := if r.None? then |t.values| else t.groups[r.value.group].index[r.value.lane];
  }

  /** The tags of the keys of a chunk. */
  ghost predicate Tagged<K, V>(s: State<K, V>, keys: seq<K>, tags: seq<Tag>)
    requires Shape(s)
  {
    |keys| <= |tags| && forall j :: 0 <= j < |keys| ==> tags[j] == TagOf(s, keys[j])
  }

  /** The lanes of the home groups of a chunk. */
  ghost predicate Matched(bs: seq<Group>, tags: seq<Tag>, lanes: seq<nat>, n: nat) {
    && n <= |tags| && n <= |lanes|
    && forall j :: 0 <= j < n ==>
         tags[j].home < |bs| && lanes[j] == MatchFingerprint(bs[tags[j].home].fingerprints, tags[j].fp)
  }

  /** Pass one. */
  method HashPass<K(==), V>(t: Table<K, V>, keys: seq<K>) returns (tags: array<Tag>)
    requires t.Valid() && |keys| <= PIPELINE_DEPTH
    ensures fresh(tags) && tags.Length == PIPELINE_DEPTH && Shape(t.St()) && Tagged(t.St(), keys, tags[..])
  {
    hide Safe, Shape, TagOf;
    SafeShape(t.St());
    tags := new Tag[PIPELINE_DEPTH](_ => Tag(0, 0));
    for i := 0 to |keys|
      invariant forall j :: 0 <= j < i ==> tags[j] == TagOf(t.St(), keys[j])
    {
      tags[i] := t.Decompose(keys[i]);
    }
  }

  /** Pass two. */
  method MatchPass(bs: array<Group>, tags: array<Tag>, n: nat) returns (lanes: array<nat>)
    requires n <= tags.Length == PIPELINE_DEPTH && forall j :: 0 <= j < n ==> tags[j].home < bs.Length
    ensures fresh(lanes) && Matched(bs[..], tags[..], lanes[..], n)
  {
    hide MatchFingerprint;
    lanes := new nat[PIPELINE_DEPTH](_ => 0);
    for i := 0 to n
      invariant forall j :: 0 <= j < i ==> lanes[j] == MatchFingerprint(bs[tags[j].home].fingerprints, tags[j].fp)
      modifies lanes
    {
      lanes[i] := MatchFingerprint(bs[tags[i].home].fingerprints, tags[i].fp);
    }
  }

  /** Pass three. */
  method ComparePass<K(==), V>(t: Table<K, V>, keys: seq<K>, tags: seq<Tag>, lanes: seq<nat>)
    returns (visited: seq<nat>)
    requires t.Valid() && t.groups.Length != 0 && Shape(t.St())
    requires Tagged(t.St(), keys, tags) && Matched(t.groups[..], tags, lanes, |keys|)
    ensures visited == VisitEach(t.St(), keys)
  {
    hide Safe, Shape, TagOf, Find;
    visited := [];
    for i := 0 to |keys|
      invariant visited == VisitEach(t.St(), keys[..i])
    {
      VisitSnoc(t.St(), keys, i);
      var at := VisitOne(t, keys[i], tags[i], lanes[i]);
      if at < |t.values| {
        visited := visited + [at];
      }
    }
    assert keys[..|keys|] == keys;
  }

  lemma TagsAtHome<K, V>(s: State<K, V>, keys: seq<K>, tags: seq<Tag>)
    requires Shape(s) && Tagged(s, keys, tags)
    ensures forall j :: 0 <= j < |keys| ==> tags[j].home < |s.groups|
  {
    hide TagOf;
  }

  /** One chunk of at most sixteen keys, in three passes. */
  method VisitChunk<K(==), V>(t: Table<K, V>, keys: seq<K>) returns (visited: seq<nat>)
    requires t.Valid() && t.groups.Length != 0 && |keys| <= PIPELINE_DEPTH
    ensures Shape(t.St()) && visited == VisitEach(t.St(), keys)
  {
    hide Safe, Shape, VisitEach, Tagged, Matched;
    var tags := HashPass(t, keys);
    TagsAtHome(t.St(), keys, tags[..]);
    var lanes := MatchPass(t.groups, tags, |keys|);
    visited := ComparePass(t, keys, tags[..], lanes[..]);
  }

  lemma {:induction false} VisitConcat<K, V>(s: State<K, V>, a: seq<K>, b: seq<K>)
    requires Shape(s)
    ensures VisitEach(s, a + b) == VisitEach(s, a) + VisitEach(s, b)
    decreases |b|
  {
    hide Shape, Find;
    if b == [] {
      assert a + b == a;
    } else {
      VisitConcat(s, a, b[..|b| - 1]);
      assert (a + b)[..|a + b| - 1] == a + b[..|b| - 1];
    }
  }

  /** visit(first, last, f): f is called on the elements at the positions returned, in that order. */
  method Visit<K(==), V>(t: Table<K, V>, keys: seq<K>) returns (visited: seq<nat>)
    requires t.Valid()
    ensures Shape(t.St()) && visited == VisitEach(t.St(), keys)
  {
    hide Safe, Shape, Find;
    SafeShape(t.St());
    visited := [];
    if t.values == [] {
      VisitNothing(t.St(), keys);
      return;
    }
    SlotsWhenValues(t.St());
    var first := 0;
    while first != |keys|
      invariant first <= |keys| && visited == VisitEach(t.St(), keys[..first])
    {
      var n := Min(PIPELINE_DEPTH, |keys| - first);
      var chunk := VisitChunk(t, keys[first..first + n]);
      visited := visited + chunk;
      VisitConcat(t.St(), keys[..first], keys[first..first + n]);
      assert keys[..first] + keys[first..first + n] == keys[..first + n];
      first := first + n;
    }
    assert keys[..|keys|] == keys;
  }

  lemma SlotsWhenValues<K, V>(s: State<K, V>)
    requires Safe(s) && s.values != []
    ensures s.hasArray
  {
    if !s.hasArray {
      NoneWithoutArray(s);
    }
  }

  lemma {:induction false} VisitNothing<K, V>(s: State<K, V>, keys: seq<K>)
    requires Shape(s) && Safe(s) && s.values == []
    ensures VisitEach(s, keys) == []
  {
    hide Safe, Shape;
    if keys != [] {
      VisitNothing(s, keys[..|keys| - 1]);
      AbsentNotFound(s, keys[|keys| - 1]);
    }
  }

  // Comparison and verify //////////////////////////////////////////////////////

  /** operator== */
  method Equals<K(==), V(==)>(a: Table<K, V>, b: Table<K, V>) returns (equal: bool)
    requires a.Valid()
    ensures Shape(a.St()) && equal == (a == b || SameEntries(a.St(), b.St()))
    ensures Sound(a.St()) && DistinctKeys(b.values) ==> (equal <==> MapOf(a.values) == MapOf(b.values))
  {
    hide Safe, Sound, Shape, MapOf, DistinctKeys, TableState.Find;
    SafeShape(a.St());
    if Sound(a.St()) && DistinctKeys(b.values) {
      EqualIffSameMap(a.St(), b.St());
    }
    if a == b {
      return true;
    }
    if |a.values| != |b.values| {
      return false;
    }
    for i := 0 to |b.values|
      invariant forall j :: 0 <= j < i ==> FoundEqual(a.St(), b.values[j])
    {
      var at := a.Find(b.values[i].key);
      if at == |a.values| || a.values[at].val != b.values[i].val {
        assert !FoundEqual(a.St(), b.values[i]);
        return false;
      }
    }
    return true;
  }

  method VerifyAll<K(==), V>(t: Table<K, V>) returns (ok: bool)
    requires t.Valid()
    ensures Shape(t.St()) && ok == AllConsistent(t.St())
  {
    hide Safe, Sound, Shape, TableState.Find, Scan;
    SafeShape(t.St());
    ghost var s := t.St();
    for i := 0 to |t.values|
      invariant forall j :: 0 <= j < i ==> Consistent(s, j)
    {
      var at := t.Find(t.values[i].key);
      assert Consistent(s, i) <==> at == i;
      if at != i {
        return false;
      }
    }
    return true;
  }

  ghost predicate SpotConsistent<K, V>(s: State<K, V>, j: nat)
    requires Shape(s)
  {
    j * |s.values| / 16 < |s.values| && Consistent(s, j * |s.values| / 16)
  }

  /** verify(full), or verify(spot) at sixteen positions spread evenly. */
  method Verify<K(==), V>(t: Table<K, V>, full: bool) returns (ok: bool)
    requires t.Valid()
    ensures Shape(t.St())
    ensures full ==> ok == AllConsistent(t.St())
    ensures !full ==> (ok <==> t.values == [] || forall j :: 0 <= j < 16 ==> SpotConsistent(t.St(), j))
  {
    hide Safe, Shape, TableState.Find, Spot;
    SafeShape(t.St());
    if full {
      ok := VerifyAll(t);
      return;
    }
    var j := 0;
    while j < 16 && t.values != []
      invariant j <= 16
      invariant forall k :: 0 <= k < j ==> SpotConsistent(t.St(), k)
    {
      SpotIs(j, |t.values|);
      var at := t.Find(t.values[Spot(j, |t.values|)].key);
      if at != Spot(j, |t.values|) {
        assert !SpotConsistent(t.St(), j);
        return false;
      }
      j := j + 1;
    }
    return true;
  }
}
