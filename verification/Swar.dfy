/** Matching a fingerprint against the sixteen of a group, a word of eight bytes at a time. */
module Swar {
  import opened Probing
  import opened Bits
  import opened Groups
  import opened Reference
  import opened Sizing
  import opened TableState

  const LOWS: nat := 0x7F7F_7F7F_7F7F_7F7F
  const HIGHS: nat := 0x8080_8080_8080_8080
  const ONES: nat := 0x0101_0101_0101_0101
  const GATHER: nat := 0x0102_0408_1020_4080
  const ALL: nat := 0xFFFF_FFFF_FFFF_FFFF

  /** Bit i of the result for byte i of the word. */
  function MatchZeroBytes(x: Word): nat {
    var low := (And(x, LOWS) + LOWS) % (ALL + 1);
    WordOps(low, x);
    var zeros := And(ALL - Or(low, x), HIGHS);
    ShiftRight(ShiftRight(zeros, 7) * GATHER % (ALL + 1), 56)
  }

  lemma WordOps(a: Word, b: Word)
    ensures Or(a, b) <= ALL
  {
    TwoTo64();
    OrBelow(a, b, 64);
  }

  // Words as bytes /////////////////////////////////////////////////////////////

  /** The little-endian word of these bytes. */
  function FromBytes(bytes: seq<Byte>): nat {
    if bytes == [] then 0 else Join(8, FromBytes(bytes[1..]), bytes[0])
  }

  function ToBytes(x: nat, n: nat): (bytes: seq<Byte>)
    ensures |bytes| == n
  {
    if n == 0 then [] else [x % 256] + ToBytes(x / 256, n - 1)
  }

  lemma TwoTo8()
    ensures Pow2(8) == 256
  {
    assert Pow2(4) == 16;
    Pow2Sum(4, 4);
  }

  lemma {:induction false} BytesOfWord(x: nat, n: nat)
    requires x < Pow2(8 * n)
    ensures FromBytes(ToBytes(x, n)) == x
  {
    if n > 0 {
      TwoTo8();
      Pow2Sum(8, 8 * (n - 1));
      assert x / 256 < Pow2(8 * (n - 1));
      BytesOfWord(x / 256, n - 1);
      assert ToBytes(x, n)[1..] == ToBytes(x / 256, n - 1);
    }
  }

  lemma {:induction false} BytesBelow(bytes: seq<Byte>)
    ensures FromBytes(bytes) < Pow2(8 * |bytes|)
  {
    if bytes != [] {
      TwoTo8();
      BytesBelow(bytes[1..]);
      Pow2Sum(8, 8 * |bytes[1..]|);
    }
  }

  function Repeat(b: Byte, n: nat): (bytes: seq<Byte>)
    ensures |bytes| == n
  {
    if n == 0 then [] else [b] + Repeat(b, n - 1)
  }

  lemma RepeatStep(b: Byte, n: nat)
    ensures FromBytes(Repeat(b, n + 1)) == FromBytes(Repeat(b, n)) * 256 + b
  {
    TwoTo8();
    assert Repeat(b, n + 1)[1..] == Repeat(b, n);
  }

  lemma RepeatWord(b: Byte)
    ensures FromBytes(Repeat(b, 8)) == b * ONES
  {
    assert FromBytes(Repeat(b, 0)) == 0;
    RepeatStep(b, 0);
    RepeatStep(b, 1);
    RepeatStep(b, 2);
    RepeatStep(b, 3);
    RepeatStep(b, 4);
    RepeatStep(b, 5);
    RepeatStep(b, 6);
    RepeatStep(b, 7);
  }

  // The zero bytes /////////////////////////////////////////////////////////////

  function Flag(b: bool): (f: Byte) {
    if b then 1 else 0
  }

  /** The high bit of every zero byte, and no other bit. */
  function ZeroMarks(bytes: seq<Byte>): (marks: seq<Byte>)
    ensures |marks| == |bytes|
  {
    if bytes == [] then [] else [128 * Flag(bytes[0] == 0)] + ZeroMarks(bytes[1..])
  }

  /** One byte through the masks: nothing carries out of it, and only a zero leaves the high bit. */
  lemma ByteMarks(b: Byte)
    ensures And(b, 0x7F) + 0x7F < 256
    ensures Or(And(b, 0x7F) + 0x7F, b) < 256
    ensures And(255 - Or(And(b, 0x7F) + 0x7F, b), 0x80) == 128 * Flag(b == 0)
  {
    hide Or, And, Pow2, Bit;
    TwoTo8();
    TwoTo7And56();
    AndMask(b, 7);
    var low := And(b, 0x7F) + 0x7F;
    OrBelow(low, b, 8);
    OrBits(low, b, 7);
    AndPow2(255 - Or(low, b), 7);
    HighBit(low);
    HighBit(b);
    HighBit(Or(low, b));
    HighBit(255 - Or(low, b));
  }

  lemma HighBit(b: Byte)
    ensures Bit(b, 7) <==> b >= 128
  {
    assert Bit(b, 7) == Bit(b / 2 / 2 / 2 / 2, 3) by {
      assert Bit(b, 7) == Bit(b / 2, 6) == Bit(b / 2 / 2, 5) == Bit(b / 2 / 2 / 2, 4);
    }
    var q := b / 2 / 2 / 2 / 2;
    assert Bit(q, 3) == Bit(q / 2, 2) == Bit(q / 2 / 2, 1) == Bit(q / 2 / 2 / 2, 0);
  }

  lemma JoinSum(w: nat, ah: nat, al: nat, bh: nat, bl: nat)
    ensures Join(w, ah, al) + Join(w, bh, bl) == Join(w, ah + bh, al + bl)
  {
  }

  lemma JoinMinus(w: nat, ah: nat, al: nat, bh: nat, bl: nat)
    requires bh <= ah && bl <= al
    ensures Join(w, bh, bl) <= Join(w, ah, al)
    ensures Join(w, ah, al) - Join(w, bh, bl) == Join(w, ah - bh, al - bl)
  {
    assert (ah - bh) * Pow2(w) == ah * Pow2(w) - bh * Pow2(w);
    assert (ah - bh) * Pow2(w) >= 0;
  }

  /** The masks lows, highs and all take the word x to the marks z, without a carry out of it. */
  predicate Masked(x: nat, lows: nat, highs: nat, all: nat, z: nat) {
    var low := And(x, lows) + lows;
    low <= all && Or(low, x) <= all && And(all - Or(low, x), highs) == z
  }

  lemma MaskedByte(b: Byte)
    ensures Masked(b, 0x7F, 0x80, 0xFF, 128 * Flag(b == 0))
  {
    hide And, Or;
    ByteMarks(b);
  }

  lemma MaskedJoin(x: nat, lows: nat, highs: nat, all: nat, z: nat, b: Byte, zb: Byte)
    requires Masked(x, lows, highs, all, z) && Masked(b, 0x7F, 0x80, 0xFF, zb)
    ensures Masked(Join(8, x, b), Join(8, lows, 0x7F), Join(8, highs, 0x80), Join(8, all, 0xFF), Join(8, z, zb))
  {
    TwoTo8();
    hide And, Or, Join, Pow2;
    var low, lb := And(x, lows) + lows, And(b, 0x7F) + 0x7F;
    AndJoin(8, x, b, lows, 0x7F);
    JoinSum(8, And(x, lows), And(b, 0x7F), lows, 0x7F);
    JoinMinus(8, all, 0xFF, low, lb);
    OrJoin(8, low, lb, x, b);
    JoinMinus(8, all, 0xFF, Or(low, x), Or(lb, b));
    AndJoin(8, all - Or(low, x), 0xFF - Or(lb, b), highs, 0x80);
  }

  /** The masks, byte by byte, over words of any number of bytes. */
  lemma {:induction false} WordMarks(bytes: seq<Byte>)
    ensures var n := |bytes|;
            Masked(FromBytes(bytes), FromBytes(Repeat(0x7F, n)), FromBytes(Repeat(0x80, n)), FromBytes(Repeat(0xFF, n)),
                   FromBytes(ZeroMarks(bytes)))
  {
    if bytes != [] {
      hide Masked, Join;
      var n, rest := |bytes|, bytes[1..];
      WordMarks(rest);
      MaskedByte(bytes[0]);
      RepeatJoin(0x7F, n);
      RepeatJoin(0x80, n);
      RepeatJoin(0xFF, n);
      assert ZeroMarks(bytes)[1..] == ZeroMarks(rest);
      MaskedJoin(FromBytes(rest), FromBytes(Repeat(0x7F, n - 1)), FromBytes(Repeat(0x80, n - 1)),
                 FromBytes(Repeat(0xFF, n - 1)), FromBytes(ZeroMarks(rest)), bytes[0], 128 * Flag(bytes[0] == 0));
    }
  }

  lemma RepeatJoin(b: Byte, n: nat)
    requires n > 0
    ensures FromBytes(Repeat(b, n)) == Join(8, FromBytes(Repeat(b, n - 1)), b)
  {
    assert Repeat(b, n)[1..] == Repeat(b, n - 1);
  }

  // Gathering the marks ////////////////////////////////////////////////////////

  /** The number whose bit i is flag i. */
  function FromFlags(flags: seq<bool>): nat {
    if flags == [] then 0 else 2 * FromFlags(flags[1..]) + Flag(flags[0])
  }

  lemma {:induction false} FlagBits(flags: seq<bool>, i: nat)
    ensures Bit(FromFlags(flags), i) <==> i < |flags| && flags[i]
  {
    if flags == [] {
      ZeroBits(i);
    } else if i > 0 {
      FlagBits(flags[1..], i - 1);
    }
  }

  /** Eight flags a byte apart, times the constant: flag i ends up at bit 56 + i of the low word, what is above
      it past the word and what is below it short of bit 56. */
  lemma Gather(f0: Byte, f1: Byte, f2: Byte, f3: Byte, f4: Byte, f5: Byte, f6: Byte, f7: Byte)
    requires f0 < 2 && f1 < 2 && f2 < 2 && f3 < 2 && f4 < 2 && f5 < 2 && f6 < 2 && f7 < 2
    ensures var word := f0 + 0x100 * f1 + 0x1_0000 * f2 + 0x100_0000 * f3 + 0x1_0000_0000 * f4 + 0x100_0000_0000 * f5
                        + 0x1_0000_0000_0000 * f6 + 0x100_0000_0000_0000 * f7;
            word * GATHER % (ALL + 1) / 0x100_0000_0000_0000
              == f0 + 2 * f1 + 4 * f2 + 8 * f3 + 16 * f4 + 32 * f5 + 64 * f6 + 128 * f7
  {
    var above := f1 + 0x102 * f2 + 0x1_0204 * f3 + 0x102_0408 * f4 + 0x1_0204_0810 * f5 + 0x102_0408_1020 * f6
                 + 0x1_0204_0810_2040 * f7;
    var byte := f0 + 2 * f1 + 4 * f2 + 8 * f3 + 16 * f4 + 32 * f5 + 64 * f6 + 128 * f7;
    var below := 0x2_0408_1020_4080 * f0 + 0x4_0810_2040_8000 * f1 + 0x8_1020_4080_0000 * f2 + 0x10_2040_8000_0000 * f3
                 + 0x20_4080_0000_0000 * f4 + 0x40_8000_0000_0000 * f5 + 0x80_0000_0000_0000 * f6;
    var word := f0 + 0x100 * f1 + 0x1_0000 * f2 + 0x100_0000 * f3 + 0x1_0000_0000 * f4 + 0x100_0000_0000 * f5
                + 0x1_0000_0000_0000 * f6 + 0x100_0000_0000_0000 * f7;
    ModUnique(word * GATHER, ALL + 1, above, 0x100_0000_0000_0000 * byte + below);
    ModUnique(0x100_0000_0000_0000 * byte + below, 0x100_0000_0000_0000, byte, below);
  }

  ghost function ZeroFlags(bytes: seq<Byte>): (flags: seq<bool>)
    ensures |flags| == |bytes| && forall i :: 0 <= i < |bytes| ==> flags[i] == (bytes[i] == 0)
  {
    seq(|bytes|, i requires 0 <= i < |bytes| => bytes[i] == 0)
  }

  lemma JoinByte(h: nat, l: nat)
    ensures Join(8, h, l) == 256 * h + l
  {
    TwoTo8();
  }

  /** The number whose byte i is flag i. */
  function Spread(flags: seq<bool>): nat {
    if flags == [] then 0 else 256 * Spread(flags[1..]) + Flag(flags[0])
  }

  lemma {:induction false} MarksOfFlags(bytes: seq<Byte>)
    ensures FromBytes(ZeroMarks(bytes)) == 128 * Spread(ZeroFlags(bytes))
  {
    if bytes != [] {
      MarksOfFlags(bytes[1..]);
      assert ZeroMarks(bytes)[1..] == ZeroMarks(bytes[1..]);
      assert ZeroFlags(bytes)[1..] == ZeroFlags(bytes[1..]);
      JoinByte(FromBytes(ZeroMarks(bytes[1..])), 128 * Flag(bytes[0] == 0));
      hide Join;
    }
  }

  lemma FlagStep(flags: seq<bool>, i: nat)
    requires i < |flags|
    ensures Spread(flags[i..]) == 256 * Spread(flags[i + 1..]) + Flag(flags[i])
    ensures FromFlags(flags[i..]) == 2 * FromFlags(flags[i + 1..]) + Flag(flags[i])
  {
    assert flags[i..][1..] == flags[i + 1..];
  }

  lemma EightEnds(flags: seq<bool>)
    requires |flags| == 8
    ensures Spread(flags[8..]) == 0 == FromFlags(flags[8..])
    ensures Spread(flags[0..]) == Spread(flags) && FromFlags(flags[0..]) == FromFlags(flags)
  {
    assert flags[8..] == [] && flags[0..] == flags;
  }

  lemma FourFlags(flags: seq<bool>, i: nat)
    requires i + 4 <= |flags|
    ensures Spread(flags[i..])
         == Flag(flags[i]) + 0x100 * Flag(flags[i + 1]) + 0x1_0000 * Flag(flags[i + 2])
          + 0x100_0000 * Flag(flags[i + 3]) + 0x1_0000_0000 * Spread(flags[i + 4..])
    ensures FromFlags(flags[i..])
         == Flag(flags[i]) + 2 * Flag(flags[i + 1]) + 4 * Flag(flags[i + 2]) + 8 * Flag(flags[i + 3])
          + 16 * FromFlags(flags[i + 4..])
  {
    hide *;
    FlagStep(flags, i);
    FlagStep(flags, i + 1);
    FlagStep(flags, i + 2);
    FlagStep(flags, i + 3);
  }

  lemma EightFlags(flags: seq<bool>)
    requires |flags| == 8
    ensures Spread(flags)
         == Flag(flags[0]) + 0x100 * Flag(flags[1]) + 0x1_0000 * Flag(flags[2]) + 0x100_0000 * Flag(flags[3])
          + 0x1_0000_0000 * Flag(flags[4]) + 0x100_0000_0000 * Flag(flags[5]) + 0x1_0000_0000_0000 * Flag(flags[6])
          + 0x100_0000_0000_0000 * Flag(flags[7])
    ensures FromFlags(flags)
         == Flag(flags[0]) + 2 * Flag(flags[1]) + 4 * Flag(flags[2]) + 8 * Flag(flags[3]) + 16 * Flag(flags[4])
          + 32 * Flag(flags[5]) + 64 * Flag(flags[6]) + 128 * Flag(flags[7])
  {
    hide *;
    EightEnds(flags);
    FourFlags(flags, 4);
    assert Spread(flags[4..]) == Flag(flags[4]) + 0x100 * Flag(flags[5]) + 0x1_0000 * Flag(flags[6])
                               + 0x100_0000 * Flag(flags[7]);
    FourFlags(flags, 0);
  }

  lemma TwoTo7And56()
    ensures Pow2(7) == 128 && Pow2(56) == 0x100_0000_0000_0000
  {
    TwoTo8();
    TwoTo16();
    hide Pow2;
    Pow2Sum(8, 16);
    Pow2Sum(16, 16);
    Pow2Sum(24, 32);
    Pow2Sum(7, 1);
    assert Pow2(1) == 2 by {
      OneBit();
    }
  }

  lemma OneBit()
    ensures Pow2(1) == 2
  {
  }

  lemma WordsOfEight(bytes: seq<Byte>)
    requires |bytes| == 8
    ensures FromBytes(bytes) <= ALL
    ensures FromBytes(Repeat(0x7F, 8)) == LOWS && FromBytes(Repeat(0x80, 8)) == HIGHS
    ensures FromBytes(Repeat(0xFF, 8)) == ALL
  {
    TwoTo64();
    BytesBelow(bytes);
    RepeatWord(0x7F);
    RepeatWord(0x80);
    RepeatWord(0xFF);
  }

  lemma GatherFlags(flags: seq<bool>)
    requires |flags| == 8
    ensures Spread(flags) * GATHER % (ALL + 1) / 0x100_0000_0000_0000 == FromFlags(flags)
  {
    EightFlags(flags);
    hide Spread, FromFlags;
    Gather(Flag(flags[0]), Flag(flags[1]), Flag(flags[2]), Flag(flags[3]),
           Flag(flags[4]), Flag(flags[5]), Flag(flags[6]), Flag(flags[7]));
  }

  /** Shifting the marks down, multiplying and shifting again. */
  lemma GatherMarks(flags: seq<bool>)
    requires |flags| == 8
    ensures ShiftRight(ShiftRight(128 * Spread(flags), 7) * GATHER % (ALL + 1), 56) == FromFlags(flags)
  {
    TwoTo7And56();
    ShiftIsDivide(128 * Spread(flags), 7);
    ShiftIsDivide(Spread(flags) * GATHER % (ALL + 1), 56);
    GatherFlags(flags);
    hide *;
  }

  /** Bit i of the answer is set exactly for a zero byte i, and no bit past the eighth. */
  lemma MatchZeroIs(bytes: seq<Byte>)
    requires |bytes| == 8
    ensures FromBytes(bytes) <= ALL && MatchZeroBytes(FromBytes(bytes)) == FromFlags(ZeroFlags(bytes))
  {
    hide FromBytes, ZeroMarks, ZeroFlags, Repeat, FromFlags, ShiftRight, And, Or, Spread;
    WordsOfEight(bytes);
    WordMarks(bytes);
    MarksOfFlags(bytes);
    GatherMarks(ZeroFlags(bytes));
    SmallMod(And(FromBytes(bytes), LOWS) + LOWS);
  }

  lemma SmallMod(x: nat)
    requires x <= ALL
    ensures x % (ALL + 1) == x
  {
  }

  /** The same of any word, whatever its bytes. */
  lemma MatchZeroOfWord(x: Word, i: nat)
    ensures Bit(MatchZeroBytes(x), i) <==> i < 8 && ToBytes(x, 8)[i] == 0
  {
    TwoTo64();
    BytesOfWord(x, 8);
    MatchZeroIs(ToBytes(x, 8));
    FlagBits(ZeroFlags(ToBytes(x, 8)), i);
  }

  // Matching a fingerprint /////////////////////////////////////////////////////

  ghost function MatchFlags(fps: seq<Byte>, fp: Byte): (flags: seq<bool>)
    ensures |flags| == |fps| && forall i :: 0 <= i < |fps| ==> flags[i] == (fps[i] == fp)
  {
    seq(|fps|, i requires 0 <= i < |fps| => fps[i] == fp)
  }

  function HalfMatch(fps: seq<Byte>, fp: Byte): nat
    requires |fps| == 8
  {
    BytesBelow64(fps);
    WantedBelow64(fp);
    XorBelow(FromBytes(fps), fp * ONES, 64);
    TwoTo64();
    MatchZeroBytes(Xor(FromBytes(fps), fp * ONES))
  }

  /** The lanes that carry the fingerprint, as bits of one number. */
  function MatchFingerprint(fps: seq<Byte>, fp: Byte): (lanes: nat)
    requires |fps| == LANES
  {
    Or(HalfMatch(fps[..8], fp), HalfMatch(fps[8..], fp) * 256)
  }

  lemma BytesBelow64(bytes: seq<Byte>)
    requires |bytes| == 8
    ensures FromBytes(bytes) < Pow2(64)
  {
    BytesBelow(bytes);
  }

  lemma WantedBelow64(fp: Byte)
    ensures fp * ONES < Pow2(64)
  {
    RepeatWord(fp);
    BytesBelow64(Repeat(fp, 8));
  }

  ghost function XorBytes(bytes: seq<Byte>, b: Byte): (r: seq<Byte>)
    ensures |r| == |bytes| && forall i :: 0 <= i < |bytes| ==> r[i] == Xor(bytes[i], b)
  {
    seq(|bytes|, i requires 0 <= i < |bytes| => XorByte(bytes[i], b))
  }

  ghost function XorByte(a: Byte, b: Byte): (r: Byte)
    ensures r == Xor(a, b)
  {
    TwoTo8();
    XorBelow(a, b, 8);
    Xor(a, b)
  }

  lemma {:induction false} XorBelow(a: nat, b: nat, w: nat)
    requires a < Pow2(w) && b < Pow2(w)
    ensures Xor(a, b) < Pow2(w)
  {
    if w > 0 {
      XorBelow(a / 2, b / 2, w - 1);
    }
  }

  lemma {:induction false} XorWord(bytes: seq<Byte>, b: Byte)
    ensures Xor(FromBytes(bytes), FromBytes(Repeat(b, |bytes|))) == FromBytes(XorBytes(bytes, b))
  {
    if bytes != [] {
      TwoTo8();
      XorWord(bytes[1..], b);
      RepeatJoin(b, |bytes|);
      XorJoin(8, FromBytes(bytes[1..]), bytes[0], FromBytes(Repeat(b, |bytes| - 1)), b);
      assert XorBytes(bytes, b)[1..] == XorBytes(bytes[1..], b);
      hide Xor, Join;
    }
  }

  lemma HalfMatchIs(fps: seq<Byte>, fp: Byte)
    requires |fps| == 8
    ensures HalfMatch(fps, fp) == FromFlags(MatchFlags(fps, fp))
  {
    hide MatchZeroBytes, Xor, FromBytes, FromFlags, Repeat, Pow2;
    RepeatWord(fp);
    XorWord(fps, fp);
    MatchZeroIs(XorBytes(fps, fp));
    forall i | 0 <= i < 8
      ensures ZeroFlags(XorBytes(fps, fp))[i] == (fps[i] == fp)
    {
      XorZero(fps[i], fp);
    }
    assert ZeroFlags(XorBytes(fps, fp)) == MatchFlags(fps, fp);
  }

  lemma {:induction false} FlagsBelow(flags: seq<bool>)
    ensures FromFlags(flags) < Pow2(|flags|)
  {
    if flags != [] {
      FlagsBelow(flags[1..]);
    }
  }

  lemma {:induction false} OrZero(x: nat)
    ensures Or(x, 0) == x == Or(0, x)
  {
    if x > 0 {
      OrZero(x / 2);
    }
  }

  /** Both halves together: bit i is set exactly when lane i carries the fingerprint, for the sixteen lanes, and no
      bit past them. */
  lemma MatchFingerprintIs(fps: seq<Byte>, fp: Byte, i: nat)
    requires |fps| == LANES
    ensures Bit(MatchFingerprint(fps, fp), i) <==> i < LANES && fps[i] == fp
  {
    hide HalfMatch, MatchFlags, FromFlags, Or;
    HalfMatchIs(fps[..8], fp);
    HalfMatchIs(fps[8..], fp);
    var low, high := FromFlags(MatchFlags(fps[..8], fp)), FromFlags(MatchFlags(fps[8..], fp));
    OrBits(low, high * 256, i);
    FlagBits(MatchFlags(fps[..8], fp), i);
    HighBits(high, i);
    if i >= 8 {
      FlagBits(MatchFlags(fps[8..], fp), i - 8);
    }
  }

  lemma HighBits(x: nat, i: nat)
    ensures Bit(x * 256, i) <==> i >= 8 && Bit(x, i - 8)
  {
    DoubledBits(x * 128, i);
    if i >= 1 { DoubledBits(x * 64, i - 1); }
    if i >= 2 { DoubledBits(x * 32, i - 2); }
    if i >= 3 { DoubledBits(x * 16, i - 3); }
    if i >= 4 { DoubledBits(x * 8, i - 4); }
    if i >= 5 { DoubledBits(x * 4, i - 5); }
    if i >= 6 { DoubledBits(x * 2, i - 6); }
    if i >= 7 { DoubledBits(x, i - 7); }
    hide Bit;
  }

  lemma DoubledBits(x: nat, i: nat)
    ensures Bit(2 * x, i) <==> i >= 1 && Bit(x, i - 1)
  {
  }

  // The loop over the matching lanes ///////////////////////////////////////////

  lemma {:induction false} KeyLaneSkip<K, V>(values: seq<Entry<K, V>>, g: Group, fp: Byte, k: K, p: nat, q: nat)
    requires p <= q <= LANES && forall l :: p <= l < q ==> !Matches(values, g, l, fp, k)
    ensures KeyLane(values, g, fp, k, p) == KeyLane(values, g, fp, k, q)
    decreases q - p
  {
    if p < q {
      KeyLaneSkip(values, g, fp, k, p + 1, q);
    }
  }

  /** The bits of `lanes` are the lanes from p on that carry the fingerprint. */
  ghost predicate LanesFrom(lanes: nat, g: Group, fp: Byte, p: nat) {
    p <= LANES && forall j: nat :: Bit(lanes, j) <==> p <= j < LANES && g.fingerprints[j] == fp
  }

  lemma NextLane(lanes: nat, g: Group, fp: Byte, p: nat)
    requires lanes > 0 && LanesFrom(lanes, g, fp, p)
    ensures var lane := TrailingZeros(lanes);
            && p <= lane < LANES && g.fingerprints[lane] == fp
            && (forall l :: p <= l < lane ==> g.fingerprints[l] != fp)
            && LanesFrom(And(lanes, lanes - 1), g, fp, lane + 1)
  {
    hide Bit, And;
    var lane := TrailingZeros(lanes);
    LowestBit(lanes, 0);
    forall j: nat
      ensures j < lane ==> !Bit(lanes, j)
      ensures Bit(And(lanes, lanes - 1), j) <==> Bit(lanes, j) && j != lane
    {
      LowestBit(lanes, j);
      WithoutLowest(lanes, j);
    }
  }

  lemma NoLaneLeft(g: Group, fp: Byte, p: nat)
    requires LanesFrom(0, g, fp, p)
    ensures forall l :: p <= l < LANES ==> g.fingerprints[l] != fp
  {
    forall l | p <= l < LANES
      ensures g.fingerprints[l] != fp
    {
      ZeroBits(l);
    }
  }

  lemma AllLanes(g: Group, fp: Byte)
    ensures LanesFrom(MatchFingerprint(g.fingerprints, fp), g, fp, 0)
  {
    hide Bit, MatchFingerprint;
    forall j: nat
      ensures Bit(MatchFingerprint(g.fingerprints, fp), j) <==> j < LANES && g.fingerprints[j] == fp
    {
      MatchFingerprintIs(g.fingerprints, fp, j);
    }
  }

  /** The loop over the lanes a match came to, lowest first, until one points at the key. */
  method FirstMatch<K(==), V>(values: seq<Entry<K, V>>, group: Group, fp: Byte, key: K, matched: nat)
    returns (lane: nat)
    requires forall l :: 0 <= l < LANES && group.fingerprints[l] == fp ==> group.index[l] < |values|
    requires matched == MatchFingerprint(group.fingerprints, fp)
    ensures lane == KeyLane(values, group, fp, key, 0)
  {
    hide MatchFingerprint, LanesFrom, KeyLane;
    var lanes := matched;
    ghost var p: nat := 0;
    AllLanes(group, fp);
    while lanes != 0
      invariant p <= LANES && LanesFrom(lanes, group, fp, p)
      invariant KeyLane(values, group, fp, key, p) == KeyLane(values, group, fp, key, 0)
      decreases LANES + 1 - p
    {
      NextLane(lanes, group, fp, p);
      lane := TrailingZeros(lanes);
      KeyLaneSkip(values, group, fp, key, p, lane);
      KeyLaneHere(values, group, fp, key, lane);
      if values[group.index[lane]].key == key {
        return lane;
      }
      lanes, p := And(lanes, lanes - 1), lane + 1;
    }
    NoLaneLeft(group, fp, p);
    KeyLaneSkip(values, group, fp, key, p, LANES);
    lane := LANES;
  }

  method LaneOfKey<K(==), V>(values: seq<Entry<K, V>>, group: Group, fp: Byte, key: K) returns (lane: nat)
    requires forall l :: 0 <= l < LANES && group.fingerprints[l] == fp ==> group.index[l] < |values|
    ensures lane == KeyLane(values, group, fp, key, 0)
  {
    hide MatchFingerprint, KeyLane;
    lane := FirstMatch(values, group, fp, key, MatchFingerprint(group.fingerprints, fp));
  }

  lemma KeyLaneHere<K, V>(values: seq<Entry<K, V>>, g: Group, fp: Byte, k: K, l: nat)
    requires l < LANES
    ensures KeyLane(values, g, fp, k, l) == if Matches(values, g, l, fp, k) then l else KeyLane(values, g, fp, k, l + 1)
  {
  }

  /** match_empty: the lowest bit is the lowest free lane, and there is none exactly when the group is full. */
  lemma EmptyLanes(g: Group)
    ensures var lanes := MatchFingerprint(g.fingerprints, 0);
            FreeLane(g) == if lanes == 0 then LANES else TrailingZeros(lanes)
  {
    hide MatchFingerprint, LanesFrom, LaneOf;
    AllLanes(g, 0);
    var lanes := MatchFingerprint(g.fingerprints, 0);
    if lanes == 0 {
      NoLaneLeft(g, 0, 0);
    } else {
      NextLane(lanes, g, 0, 0);
    }
  }

  /** The lowest free lane of a group, or LANES. */
  method FirstEmpty(group: Group) returns (lane: nat)
    ensures lane == FreeLane(group)
  {
    hide MatchFingerprint, LaneOf;
    EmptyLanes(group);
    var empties := MatchFingerprint(group.fingerprints, 0);
    lane := if empties == 0 then LANES else TrailingZeros(empties);
  }

  // The loop for the slot of a value ///////////////////////////////////////////

  lemma {:induction false} ValueLaneSkip(g: Group, fp: Byte, v: nat, p: nat, q: nat)
    requires p <= q <= LANES && forall l :: p <= l < q ==> !Carries(g, l, fp, v)
    ensures ValueLane(g, fp, v, p) == ValueLane(g, fp, v, q)
    decreases q - p
  {
    if p < q {
      ValueLaneSkip(g, fp, v, p + 1, q);
    }
  }

  lemma ValueLaneHere(g: Group, fp: Byte, v: nat, l: nat)
    requires l < LANES
    ensures ValueLane(g, fp, v, l) == if Carries(g, l, fp, v) then l else ValueLane(g, fp, v, l + 1)
  {
  }

  /** The lanes of one group that carry the fingerprint, lowest first, until one points at the value. */
  method LaneOfValue(group: Group, fp: Byte, v: nat) returns (lane: nat)
    ensures lane == ValueLane(group, fp, v, 0)
  {
    hide MatchFingerprint, LanesFrom, ValueLane;
    var lanes := MatchFingerprint(group.fingerprints, fp);
    ghost var p: nat := 0;
    AllLanes(group, fp);
    while lanes != 0
      invariant p <= LANES && LanesFrom(lanes, group, fp, p)
      invariant ValueLane(group, fp, v, p) == ValueLane(group, fp, v, 0)
      decreases LANES + 1 - p
    {
      NextLane(lanes, group, fp, p);
      lane := TrailingZeros(lanes);
      ValueLaneSkip(group, fp, v, p, lane);
      ValueLaneHere(group, fp, v, lane);
      if group.index[lane] == v {
        return lane;
      }
      lanes, p := And(lanes, lanes - 1), lane + 1;
    }
    NoLaneLeft(group, fp, p);
    ValueLaneSkip(group, fp, v, p, LANES);
    lane := LANES;
  }
}
