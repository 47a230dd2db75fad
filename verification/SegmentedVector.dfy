/** A vector in blocks of 2^bits elements: growing it adds a block and moves nothing. */
module SegmentedVectors {
  import opened Probing
  import opened Bits
  import opened Sizing

  /** The largest f with s * 2^f at most maxVal, or 0 where not even s is: the bits of a segment's element count. */
  method NumBitsClosest(maxVal: nat, s: nat) returns (f: nat)
    requires 0 < s
    ensures maxVal < s * Pow2(f + 1) && (f == 0 || s * Pow2(f) <= maxVal)
  {
    f := 0;
    while s * Pow2(f + 1) <= maxVal
      invariant f == 0 || s * Pow2(f) <= maxVal
      decreases maxVal - s * Pow2(f)
    {
      Doubles(s, Pow2(f));
      f := f + 1;
    }
  }

  lemma Doubles(s: nat, p: nat)
    requires s > 0 && p > 0
    ensures s * p < s * (2 * p)
  {
  }

  function Quotient(i: nat, p: nat): nat
    requires p > 0
  {
    i / p
  }

  function Remainder(i: nat, p: nat): nat
    requires p > 0
  {
    i % p
  }

  /** How many elements n blocks have room for. */
  function Room(n: nat, p: nat): nat {
    n * p
  }

  lemma BlockOf(i: nat, n: nat, p: nat)
    requires p > 0 && i < Room(n, p)
    ensures Quotient(i, p) < n && Remainder(i, p) < p
  {
    if i / p >= n {
      MulMonotone(p, n, i / p);
    }
  }

  /** No two positions share a block and an offset. */
  lemma OnePlace(i: nat, j: nat, p: nat)
    requires p > 0 && Quotient(i, p) == Quotient(j, p) && Remainder(i, p) == Remainder(j, p)
    ensures i == j
  {
    assert i == p * (i / p) + i % p && j == p * (j / p) + j % p;
  }

  lemma OneBlockMore(n: nat, p: nat)
    ensures Room(n + 1, p) == Room(n, p) + p
  {
  }

  lemma MoreBlocks(n: nat, m: nat, p: nat)
    requires n <= m
    ensures Room(n, p) <= Room(m, p)
  {
    MulMonotone(p, n, m);
  }

  /** Shifting and masking, as the source does, is dividing by the block size. */
  lemma ShiftAndMask(i: nat, k: nat)
    ensures ShiftRight(i, k) == Quotient(i, Pow2(k)) && And(i, Pow2(k) - 1) == Remainder(i, Pow2(k))
  {
    ShiftIsDivide(i, k);
    AndMask(i, k);
  }

  function BlocksFor(capacity: nat, p: nat): (n: nat)
    requires p > 0
    ensures capacity <= Room(n, p) < capacity + p
  {
    var n := (capacity + p - 1) / p;
    assert n * p + (capacity + p - 1) % p == capacity + p - 1;
    n
  }

  class SegmentedVector<T(0)> {
    const bits: nat
    var blocks: seq<array<T>>
    var size: nat

    ghost predicate Valid()
      reads this
    {
      && (forall b :: 0 <= b < |blocks| ==> blocks[b].Length == Pow2(bits))
      && (forall a, b :: 0 <= a < b < |blocks| ==> blocks[a] != blocks[b])
      && size <= Room(|blocks|, Pow2(bits))
    }

    /** Where element i lives: nothing but this address says which element it is. */
    ghost function At(i: nat): (element: T)
      requires Valid() && i < Room(|blocks|, Pow2(bits))
      reads this, blocks
    {
      BlockOf(i, |blocks|, Pow2(bits));
      blocks[Quotient(i, Pow2(bits))][Remainder(i, Pow2(bits))]
    }

    ghost function Contents(): (s: seq<T>)
      requires Valid()
      reads this, blocks
      ensures |s| == size && forall i :: 0 <= i < size ==> s[i] == At(i)
    {
      seq(size, i requires 0 <= i < size && Valid() reads this, blocks => At(i))
    }

    function Capacity(): nat
      reads this
    {
      Room(|blocks|, Pow2(bits))
    }

    constructor (bits: nat)
      ensures Valid() && Contents() == [] && this.bits == bits && blocks == []
    {
      this.bits := bits;
      blocks := [];
      size := 0;
    }

    method Get(i: nat) returns (x: T)
      requires Valid() && i < size
      ensures x == Contents()[i]
    {
      BlockOf(i, |blocks|, Pow2(bits));
      ShiftAndMask(i, bits);
      hide ShiftRight, And, Pow2, Quotient, Remainder, Room;
      x := blocks[ShiftRight(i, bits)][And(i, Pow2(bits) - 1)];
    }

    method Set(i: nat, x: T)
      requires Valid() && i < size
      modifies blocks
      ensures Valid() && Contents() == old(Contents())[i := x]
    {
      Put(i, x);
    }

    /** Writing one slot of the capacity, in use or not, leaves every other as it was. */
    method Put(i: nat, x: T)
      requires Valid() && i < Capacity()
      modifies blocks
      ensures Valid() && At(i) == x && forall j: nat :: j < Capacity() && j != i ==> At(j) == old(At(j))
    {
      var p := Pow2(bits);
      BlockOf(i, |blocks|, p);
      ShiftAndMask(i, bits);
      hide ShiftRight, And, Pow2, Quotient, Remainder, Room;
      var block := blocks[ShiftRight(i, bits)];
      block[And(i, p - 1)] := x;
      forall j: nat | j < Room(|blocks|, p) && j != i
        ensures At(j) == old(At(j))
      {
        BlockOf(j, |blocks|, p);
        if Quotient(i, p) == Quotient(j, p) && Remainder(i, p) == Remainder(j, p) {
          OnePlace(i, j, p);
        }
      }
    }

    /** One more block at the end; what is there stays where it is. */
    method IncreaseCapacity()
      requires Valid()
      modifies this`blocks
      ensures Valid() && |blocks| == |old(blocks)| + 1 && old(blocks) <= blocks && fresh(blocks[|old(blocks)|])
      ensures Contents() == old(Contents())
    {
      ghost var p := Pow2(bits);
      var block := new T[Pow2(bits)];
      ghost var before := blocks;
      blocks := blocks + [block];
      OneBlockMore(|before|, p);
      hide Pow2, Quotient, Remainder, Room;
      forall i: nat | i < size
        ensures At(i) == old(At(i))
      {
        BlockOf(i, |before|, p);
      }
    }

    /** emplace_back: no element moves, the blocks there were stay the first of the blocks there are. */
    method EmplaceBack(x: T)
      requires Valid()
      modifies this, blocks
      ensures Valid() && Contents() == old(Contents()) + [x]
      ensures old(blocks) <= blocks && forall b :: |old(blocks)| <= b < |blocks| ==> fresh(blocks[b])
      ensures |blocks| == if old(size) < old(Capacity()) then |old(blocks)| else |old(blocks)| + 1
    {
      ghost var was := Contents();
      hide Pow2, Room;
      if size == Capacity() {
        IncreaseCapacity();
        OneBlockMore(|blocks| - 1, Pow2(bits));
      }
      assert Contents() == was;
      label Room:
      Put(size, x);
      size := size + 1;
      assert forall i: nat :: i < |was| ==> At(i) == old@Room(At(i));
    }

    method PopBack()
      requires Valid() && size > 0
      modifies this`size
      ensures Valid() && Contents() == old(Contents())[..old(size) - 1] && blocks == old(blocks)
    {
      size := size - 1;
    }

    /** Destroying from the back leaves the front alone, and the memory in place. */
    method DestroyTail(count: nat)
      requires Valid() && count <= size
      modifies this`size
      ensures Valid() && Contents() == old(Contents())[..count] && blocks == old(blocks)
    {
      size := count;
    }

    /** Adds no more blocks than the capacity asked for needs. */
    method Reserve(capacity: nat)
      requires Valid()
      modifies this`blocks
      ensures Valid() && Capacity() >= capacity && Contents() == old(Contents())
      ensures old(blocks) <= blocks && forall b :: |old(blocks)| <= b < |blocks| ==> fresh(blocks[b])
      ensures |blocks| > |old(blocks)| ==> Room(|blocks| - 1, Pow2(bits)) < capacity
    {
      ghost var was := Contents();
      hide Pow2, Room;
      while capacity > Capacity()
        invariant Valid() && Contents() == was
        invariant old(blocks) <= blocks && forall b :: |old(blocks)| <= b < |blocks| ==> fresh(blocks[b])
        invariant |blocks| > |old(blocks)| ==> Room(|blocks| - 1, Pow2(bits)) < capacity
        decreases capacity - Capacity()
      {
        OneBlockMore(|blocks|, Pow2(bits));
        IncreaseCapacity();
      }
    }

    method Resize(count: nat, value: T)
      requires Valid()
      modifies this, blocks
      ensures Valid()
      ensures Contents() == if count <= old(size) then old(Contents())[..count]
                            else old(Contents()) + seq(count - old(size), _ => value)
      ensures old(blocks) <= blocks && forall b :: |old(blocks)| <= b < |blocks| ==> fresh(blocks[b])
      ensures |blocks| > |old(blocks)| ==> Room(|blocks| - 1, Pow2(bits)) < count
    {
      hide Pow2, Room;
      if count < size {
        DestroyTail(count);
      } else if count > size {
        ghost var was := Contents();
        var more := count - size;
        Reserve(count);
        ghost var enough := blocks;
        for added := 0 to more
          invariant Valid() && Contents() == was + seq(added, _ => value)
          invariant old(blocks) <= blocks && forall b :: |old(blocks)| <= b < |blocks| ==> fresh(blocks[b])
          invariant blocks == enough
        {
          EmplaceBack(value);
          assert seq(added, _ => value) + [value] == seq(added + 1, _ => value);
        }
      }
    }

    method Clear()
      requires Valid()
      modifies this`size
      ensures Valid() && Contents() == [] && blocks == old(blocks)
    {
      DestroyTail(0);
    }

    /** Gives back the blocks at the end that hold nothing, and no other. */
    method ShrinkToFit()
      requires Valid()
      modifies this`blocks
      ensures Valid() && Contents() == old(Contents()) && blocks <= old(blocks)
      ensures Capacity() < size + Pow2(bits)
    {
      ghost var was := Contents();
      var p := Pow2(bits);
      var required := BlocksFor(size, p);
      hide Pow2, Room, Quotient, Remainder, BlocksFor;
      while |blocks| > required
        invariant Valid() && Contents() == was && blocks <= old(blocks)
      {
        MoreBlocks(required, |blocks| - 1, p);
        ghost var before := blocks;
        blocks := blocks[..|blocks| - 1];
        forall i: nat | i < size
          ensures At(i) == was[i]
        {
          BlockOf(i, |blocks|, p);
        }
      }
      MoreBlocks(|blocks|, required, p);
    }
  }
}
