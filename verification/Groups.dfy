/** The index: groups of sixteen fingerprints, eight overflow counters and sixteen value indices, and what
    placing, freeing, repointing and counting do to an array of them. */
module Groups {
  import opened Probing

  const LANES: nat := 16
  const CLASSES: nat := 8
  const SATURATED: nat := 255

  type Byte = b: nat | b < 256

  /** One block of the index. Fingerprint 0 marks an empty lane, whose value index is never read. */
  datatype Block = Block(fingerprints: seq<Byte>, overflows: seq<Byte>, index: seq<nat>)

  type Group = b: Block | |b.fingerprints| == 16 && |b.overflows| == 8 && |b.index| == 16
    witness Block(seq(16, _ => 0), seq(8, _ => 0), seq(16, _ => 0))

  const EMPTY_GROUP: Group := Block(seq(16, _ => 0), seq(8, _ => 0), seq(16, _ => 0))

  datatype Slot = Slot(group: nat, lane: nat)

  /** A hash taken apart: the group a probe starts from and the fingerprint looked for. */
  datatype Tag = Tag(home: nat, fp: Byte)

  function Class(fp: Byte): (c: nat)
    ensures c < CLASSES
  {
    fp % 8
  }

  // Lanes ////////////////////////////////////////////////////////////////////

  /** The lowest lane from `from` on that holds `b`, or the number of lanes when none does. */
  function LaneOf(fps: seq<Byte>, b: Byte, from: nat): (lane: nat)
    requires from <= |fps|
    ensures from <= lane <= |fps|
    ensures lane < |fps| ==> fps[lane] == b
    ensures forall l :: from <= l < lane ==> fps[l] != b
    decreases |fps| - from
  {
    if from == |fps| || fps[from] == b then from else LaneOf(fps, b, from + 1)
  }

  function FreeLane(g: Group): nat {
    LaneOf(g.fingerprints, 0, 0)
  }

  predicate HasFree(g: Group) {
    FreeLane(g) < LANES
  }

  // Slots ////////////////////////////////////////////////////////////////////

  predicate Has(n: nat, s: Slot) {
    s.group < n && s.lane < LANES
  }

  ghost function AllSlots(n: nat): (slots: set<Slot>)
    ensures forall s: Slot :: s in slots <==> Has(n, s)
  {
    set g: nat, l: nat | g < n && l < LANES :: Slot(g, l)
  }

  predicate Full(bs: seq<Group>, s: Slot)
    requires Has(|bs|, s)
  {
    bs[s.group].fingerprints[s.lane] != 0
  }

  function Pointee(bs: seq<Group>, s: Slot): nat
    requires Has(|bs|, s)
  {
    bs[s.group].index[s.lane]
  }

  ghost function FullSlots(bs: seq<Group>): (slots: set<Slot>)
    ensures forall s: Slot :: s in slots <==> Has(|bs|, s) && Full(bs, s)
  {
    set s: Slot | s in AllSlots(|bs|) && Full(bs, s)
  }

  function PutSlot(bs: seq<Group>, s: Slot, fp: Byte, v: nat): (r: seq<Group>)
    requires Has(|bs|, s)
    ensures |r| == |bs|
  {
    var g := bs[s.group];
    bs[s.group := g.(fingerprints := g.fingerprints[s.lane := fp], index := g.index[s.lane := v])]
  }

  function ClearSlot(bs: seq<Group>, s: Slot): (r: seq<Group>)
    requires Has(|bs|, s)
    ensures |r| == |bs|
  {
    var g := bs[s.group];
    bs[s.group := g.(fingerprints := g.fingerprints[s.lane := 0])]
  }

  function Repoint(bs: seq<Group>, s: Slot, v: nat): (r: seq<Group>)
    requires Has(|bs|, s)
    ensures |r| == |bs|
  {
    var g := bs[s.group];
    bs[s.group := g.(index := g.index[s.lane := v])]
  }

  // Counters /////////////////////////////////////////////////////////////////

  function Bump(x: Byte): Byte {
    if x == SATURATED then x else x + 1
  }

  /** What a decrement of an unsigned byte does, wrap-around included. */
  function Unbump(x: Byte): Byte {
    if x == SATURATED then x else if x == 0 then 255 else x - 1
  }

  /** The decrement is one of a byte, modulo 256. */
  lemma UnbumpWraps(x: Byte)
    ensures Unbump(x) == x <==> x == SATURATED
    ensures x != SATURATED ==> (Unbump(x) + 1) % 256 == x
  {
  }

  function BumpGroup(g: Group, c: nat): Group
    requires c < CLASSES
  {
    g.(overflows := g.overflows[c := Bump(g.overflows[c])])
  }

  function UnbumpGroup(g: Group, c: nat): Group
    requires c < CLASSES
  {
    g.(overflows := g.overflows[c := Unbump(g.overflows[c])])
  }

  /** The index with class `c` counted once more in the first `d` groups of the walk from `home`. */
  ghost function Counted(bs: seq<Group>, home: nat, c: nat, d: nat): (r: seq<Group>)
    requires IsPow2(|bs|) && home < |bs| && c < CLASSES && d <= |bs|
    ensures |r| == |bs|
  {
    seq(|bs|, g requires 0 <= g < |bs| => if Depth(|bs|, home, g) < d then BumpGroup(bs[g], c) else bs[g])
  }

  /** The index with class `c` counted once less in the first `d` groups of the walk from `home`. */
  ghost function Uncounted(bs: seq<Group>, home: nat, c: nat, d: nat): (r: seq<Group>)
    requires IsPow2(|bs|) && home < |bs| && c < CLASSES && d <= |bs|
    ensures |r| == |bs|
  {
    seq(|bs|, g requires 0 <= g < |bs| => if Depth(|bs|, home, g) < d then UnbumpGroup(bs[g], c) else bs[g])
  }

  lemma CountedStep(bs: seq<Group>, home: nat, c: nat, d: nat)
    requires IsPow2(|bs|) && home < |bs| && c < CLASSES && d < |bs|
    ensures var g := Path(|bs|, home, d);
            && Counted(bs, home, c, d)[g] == bs[g]
            && Counted(bs, home, c, d + 1) == Counted(bs, home, c, d)[g := BumpGroup(bs[g], c)]
  {
    DepthOfPath(|bs|, home, d);
  }

  lemma UncountedStep(bs: seq<Group>, home: nat, c: nat, d: nat)
    requires IsPow2(|bs|) && home < |bs| && c < CLASSES && d < |bs|
    ensures var g := Path(|bs|, home, d);
            && Uncounted(bs, home, c, d)[g] == bs[g]
            && Uncounted(bs, home, c, d + 1) == Uncounted(bs, home, c, d)[g := UnbumpGroup(bs[g], c)]
  {
    DepthOfPath(|bs|, home, d);
  }

  // Placing //////////////////////////////////////////////////////////////////

  /** The first depth from `d` on whose group has a free lane, or the number of groups when none has. */
  function FreeDepth(bs: seq<Group>, home: nat, d: nat): (r: nat)
    requires home < |bs| && d <= |bs|
    ensures d <= r <= |bs|
    ensures r < |bs| ==> HasFree(bs[Path(|bs|, home, r)])
    ensures forall e :: d <= e < r ==> !HasFree(bs[Path(|bs|, home, e)])
    decreases |bs| - d
  {
    if d == |bs| || HasFree(bs[Path(|bs|, home, d)]) then d else FreeDepth(bs, home, d + 1)
  }

  predicate HasRoom(bs: seq<Group>, home: nat)
    requires home < |bs|
  {
    FreeDepth(bs, home, 0) < |bs|
  }

  /** The slot a placement from `home` takes. */
  function PlaceSlot(bs: seq<Group>, home: nat): (s: Slot)
    requires home < |bs| && HasRoom(bs, home)
    ensures Has(|bs|, s) && !Full(bs, s)
  {
    var g := Path(|bs|, home, FreeDepth(bs, home, 0));
    Slot(g, FreeLane(bs[g]))
  }

  /** Placing value `v`: the first free slot on the walk takes it and every full group on the way counts it. */
  ghost function Place(bs: seq<Group>, tag: Tag, v: nat): (r: seq<Group>)
    requires IsPow2(|bs|) && tag.home < |bs| && HasRoom(bs, tag.home)
    ensures |r| == |bs|
  {
    PutSlot(Counted(bs, tag.home, Class(tag.fp), FreeDepth(bs, tag.home, 0)), PlaceSlot(bs, tag.home), tag.fp, v)
  }

  /** Freeing slot `s`, which was reached from `home`: the lane empties and the groups on the way there
      stop counting it. */
  ghost function Free(bs: seq<Group>, s: Slot, tag: Tag): (r: seq<Group>)
    requires IsPow2(|bs|) && Has(|bs|, s) && tag.home < |bs|
    ensures |r| == |bs|
  {
    Uncounted(ClearSlot(bs, s), tag.home, Class(tag.fp), Depth(|bs|, tag.home, s.group))
  }

  /** Moving the entry in slot `s` to its home group when that has room and is not where it is already. */
  ghost function MoveHome(bs: seq<Group>, s: Slot, tag: Tag): (r: seq<Group>)
    requires IsPow2(|bs|) && Has(|bs|, s) && tag.home < |bs|
    ensures |r| == |bs|
  {
    if s.group == tag.home || !HasFree(bs[tag.home]) then bs else
      var from := bs[s.group];
      var to := Slot(tag.home, FreeLane(bs[tag.home]));
      Free(PutSlot(bs, to, from.fingerprints[s.lane], from.index[s.lane]), s, tag)
  }
}
