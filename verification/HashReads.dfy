/** The reads hash_bytes makes of a key of `len` bytes, in order: what each path touches, and nothing of what it
    computes from it. */
module HashReads {
  import opened Probing
  import opened Bits
  import opened Groups
  import opened Sizing
  import opened Swar

  /** `size` bytes from offset `at` on. */
  datatype Read = Read(at: int, size: nat)

  /** Every read is inside the key. */
  ghost predicate Inside(trace: seq<Read>, len: nat) {
    forall i :: 0 <= i < |trace| ==> 0 <= trace[i].at && trace[i].at + trace[i].size <= len
  }

  predicate Touches(r: Read, i: int) {
    r.at <= i < r.at + r.size
  }

  /** Some read takes in byte i. */
  ghost predicate Covered(trace: seq<Read>, i: int) {
    exists j :: 0 <= j < |trace| && Touches(trace[j], i)
  }

  /** Every byte in [from, to) is read. */
  ghost predicate Covers(trace: seq<Read>, from: int, to: int) {
    forall i :: from <= i < to ==> Covered(trace, i)
  }

  lemma CoveredBy(trace: seq<Read>, j: nat, i: int)
    requires j < |trace| && Touches(trace[j], i)
    ensures Covered(trace, i)
  {
  }

  /** A block of sixteen bytes: two words of eight. */
  function Block(at: int): seq<Read> {
    [Read(at, 8), Read(at + 8, 8)]
  }

  /** r3: the first byte, the middle one and the last. */
  function R3(len: nat): seq<Read> {
    [Read(0, 1), Read(len / 2, 1), Read(len - 1, 1)]
  }

  lemma CoversMore(trace: seq<Read>, more: seq<Read>, from: int, to: int)
    requires Covers(trace, from, to)
    ensures Covers(trace + more, from, to) && Covers(more + trace, from, to)
  {
    forall i | from <= i < to
      ensures Covered(trace + more, i) && Covered(more + trace, i)
    {
      assert Covered(trace, i);
      var j :| 0 <= j < |trace| && Touches(trace[j], i);
      CoveredBy(trace + more, j, i);
      CoveredBy(more + trace, |more| + j, i);
    }
  }

  lemma CoversJoin(trace: seq<Read>, a: int, b: int, c: int, d: int)
    requires Covers(trace, a, b) && Covers(trace, c, d) && c <= b
    ensures Covers(trace, a, d)
  {
  }

  lemma BlockCovers(at: int)
    ensures Covers(Block(at), at, at + 16)
  {
    forall i | at <= i < at + 16
      ensures Covered(Block(at), i)
    {
      CoveredBy(Block(at), if i < at + 8 then 0 else 1, i);
    }
  }

  /** Reading the next block takes the covered prefix sixteen bytes further. */
  lemma NextBlock(trace: seq<Read>, at: nat, len: nat)
    requires Inside(trace, len) && Covers(trace, 0, at) && at + 16 <= len
    ensures Inside(trace + Block(at), len) && Covers(trace + Block(at), 0, at + 16)
  {
    BlockCovers(at);
    CoversMore(Block(at), trace, at, at + 16);
    CoversMore(trace, Block(at), 0, at);
    hide Covers;
    CoversJoin(trace + Block(at), 0, at, at, at + 16);
  }

  /** The last sixteen bytes close the gap left of them. */
  lemma LastBlock(trace: seq<Read>, at: nat, len: nat)
    requires Inside(trace, len) && Covers(trace, 0, at) && 16 <= len <= at + 16
    ensures Inside(trace + Block(len - 16), len) && Covers(trace + Block(len - 16), 0, len)
  {
    BlockCovers(len - 16);
    CoversMore(Block(len - 16), trace, len - 16, len);
    CoversMore(trace, Block(len - 16), 0, at);
    hide Covers;
    CoversJoin(trace + Block(len - 16), 0, at, len - 16, len);
  }

  ghost predicate Complete(trace: seq<Read>, len: nat) {
    Inside(trace, len) && Covers(trace, 0, len)
  }

  /** Two reads of one size, from the front and up to the end, cover any key up to twice that size. */
  lemma TwoReads(len: nat, size: nat)
    requires size <= len <= 2 * size
    ensures Complete([Read(0, size), Read(len - size, size)], len)
  {
    var trace := [Read(0, size), Read(len - size, size)];
    forall i | 0 <= i < len
      ensures Covered(trace, i)
    {
      CoveredBy(trace, if i < size then 0 else 1, i);
    }
  }

  /** So do those two, each read as two halves. */
  lemma FourReads(len: nat)
    requires 8 <= len <= 16
    ensures Complete([Read(0, 4), Read(4, 4), Read(len - 8, 4), Read(len - 4, 4)], len)
  {
    var trace := [Read(0, 4), Read(4, 4), Read(len - 8, 4), Read(len - 4, 4)];
    forall i | 0 <= i < len
      ensures Covered(trace, i)
    {
      CoveredBy(trace, if i < 4 then 0 else if i < 8 then 1 else if i < len - 4 then 2 else 3, i);
    }
  }

  lemma ThreeReads(len: nat)
    requires 1 <= len <= 3
    ensures Complete(R3(len), len)
  {
    forall i | 0 <= i < len
      ensures Covered(R3(len), i)
    {
      CoveredBy(R3(len), if i == 0 then 0 else if i == len - 1 then 2 else 1, i);
    }
  }

  /** Up to sixteen bytes. A length known at compile time is read as words of four bytes. */
  method ShortReads(len: nat, constant: bool) returns (trace: seq<Read>)
    requires len <= 16
    ensures Complete(trace, len)
  {
    if len >= 8 {
      if constant && len % 4 == 0 {
        trace := [Read(0, 4), Read(4, 4), Read(len - 8, 4), Read(len - 4, 4)];
        FourReads(len);
      } else {
        trace := [Read(0, 8), Read(len - 8, 8)];
        TwoReads(len, 8);
      }
    } else if len >= 4 {
      trace := [Read(0, 4), Read(len - 4, 4)];
      TwoReads(len, 4);
    } else if len > 0 {
      trace := R3(len);
      ThreeReads(len);
    } else {
      trace := [];
      NoReads(0);
    }
  }

  /** The first block and the last sixteen bytes, then whole blocks from the front while there are any. */
  method MediumReads(len: nat) returns (trace: seq<Read>)
    requires 16 < len <= 144
    ensures Complete(trace, len)
  {
    hide Inside, Covers;
    ghost var at := 16;
    trace := FirstAndLast(len);
    if len > 32 {
      trace, at := TakeBlock(trace, 16, len);
      if len > 48 {
        trace, at := TakeBlock(trace, 32, len);
        if len > 64 {
          trace, at := TakeBlock(trace, 48, len);
          if len > 80 {
            trace, at := TakeBlock(trace, 64, len);
            if len > 96 {
              trace, at := TakeBlock(trace, 80, len);
              if len > 112 {
                trace, at := TakeBlock(trace, 96, len);
                if len > 128 {
                  trace, at := TakeBlock(trace, 112, len);
                }
              }
            }
          }
        }
      }
    }
    CoversJoin(trace, 0, at, len - 16, len);
  }

  method FirstAndLast(len: nat) returns (trace: seq<Read>)
    requires 16 < len
    ensures Inside(trace, len) && Covers(trace, 0, 16) && Covers(trace, len - 16, len)
  {
    trace := Block(0) + Block(len - 16);
    BlockCovers(0);
    BlockCovers(len - 16);
    CoversMore(Block(0), Block(len - 16), 0, 16);
    CoversMore(Block(len - 16), Block(0), len - 16, len);
  }

  method TakeBlock(before: seq<Read>, at: nat, len: nat) returns (trace: seq<Read>, ghost next: nat)
    requires at + 16 < len && Inside(before, len) && Covers(before, 0, at) && Covers(before, len - 16, len)
    ensures next == at + 16 && trace == before + Block(at)
    ensures Inside(trace, len) && Covers(trace, 0, next) && Covers(trace, len - 16, len)
  {
    hide Inside, Covers;
    NextBlock(before, at, len);
    CoversMore(before, Block(at), len - 16, len);
    trace, next := before + Block(at), at + 16;
  }

  /** The lanes of one turn of a long loop. */
  method TakeLanes(before: seq<Read>, at: nat, lanes: nat, len: nat) returns (trace: seq<Read>)
    requires at + 16 * lanes <= len && Inside(before, len) && Covers(before, 0, at)
    ensures Inside(trace, len) && Covers(trace, 0, at + 16 * lanes)
  {
    hide Inside, Covers, Block;
    trace := before;
    for lane := 0 to lanes
      invariant Inside(trace, len) && Covers(trace, 0, at + 16 * lane)
    {
      NextBlock(trace, at + 16 * lane, len);
      trace := trace + Block(at + 16 * lane);
    }
  }

  /** Six lanes at a time, three, one, and the last sixteen bytes, wherever they fall. */
  method LongReads(len: nat) returns (trace: seq<Read>)
    requires 144 < len
    ensures Complete(trace, len)
  {
    hide Inside, Covers, Block;
    var p: nat, i: nat := 0, len;
    trace := [];
    NoReads(len);
    if i > 192 {
      trace := TakeLanes(trace, p, 6, len);
      p, i := p + 96, i - 96;
      while i > 96
        invariant p + i == len && i > 0 && Inside(trace, len) && Covers(trace, 0, p)
      {
        trace := TakeLanes(trace, p, 6, len);
        p, i := p + 96, i - 96;
      }
    }
    while i > 48
      invariant p + i == len && i > 0 && Inside(trace, len) && Covers(trace, 0, p)
    {
      trace := TakeLanes(trace, p, 3, len);
      p, i := p + 48, i - 48;
    }
    while i > 16
      invariant p + i == len && i > 0 && Inside(trace, len) && Covers(trace, 0, p)
    {
      trace := TakeLanes(trace, p, 1, len);
      p, i := p + 16, i - 16;
    }
    LastBlock(trace, p, len);
    trace := trace + Block(p + i - 16);
  }

  lemma NoReads(len: nat)
    ensures Inside([], len) && Covers([], 0, 0)
  {
  }

  /** hash_bytes reads only inside the key, and every byte of it, whatever the length. */
  method HashBytesReads(len: nat, constant: bool) returns (trace: seq<Read>)
    ensures forall i :: 0 <= i < |trace| ==> 0 <= trace[i].at && trace[i].at + trace[i].size <= len
    ensures forall i :: 0 <= i < len ==> Covered(trace, i)
  {
    if len <= 16 {
      trace := ShortReads(len, constant);
    } else if len <= 144 {
      trace := MediumReads(len);
    } else {
      trace := LongReads(len);
    }
  }

  // The two ways of reading eight bytes ////////////////////////////////////////

  lemma {:induction false} BytesAppend(a: seq<Byte>, b: seq<Byte>)
    ensures FromBytes(a + b) == Join(8 * |a|, FromBytes(b), FromBytes(a))
  {
    if a == [] {
      assert a + b == b;
    } else {
      BytesAppend(a[1..], b);
      assert (a + b)[1..] == a[1..] + b;
      JoinJoin(8 * |a[1..]|, FromBytes(b), FromBytes(a[1..]), a[0]);
      hide Join;
    }
  }

  lemma JoinJoin(w: nat, h: nat, l: nat, b: nat)
    ensures Join(8, Join(w, h, l), b) == Join(w + 8, h, Join(8, l, b))
  {
    Pow2Sum(w, 8);
    assert h * Pow2(w) * Pow2(8) == h * (Pow2(w) * Pow2(8));
  }

  /** Two words of four bytes, the second shifted up and or-ed in, are the word of eight: a key hashes the same
      whichever way it is read. */
  lemma FourAndFour(bytes: seq<Byte>)
    requires |bytes| == 8
    ensures Or(FromBytes(bytes[..4]), FromBytes(bytes[4..]) * 0x1_0000_0000) == FromBytes(bytes)
  {
    var low, high := FromBytes(bytes[..4]), FromBytes(bytes[4..]);
    assert bytes == bytes[..4] + bytes[4..];
    BytesBelow(bytes[..4]);
    BytesAppend(bytes[..4], bytes[4..]);
    TwoTo16();
    Pow2Sum(16, 16);
    Pow2Above(32);
    assert Join(32, 0, low) == low && Join(32, high, 0) == high * 0x1_0000_0000;
    hide FromBytes, Or, Join, Pow2;
    OrJoin(32, 0, low, high, 0);
    OrZero(low);
    OrZero(high);
  }

  lemma Pow2Above(w: nat)
    ensures 0 < Pow2(w)
  {
  }
}
