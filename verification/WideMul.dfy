/** The portable 64 by 64 to 128 bit multiplication, from four 32 bit products. */
module WideMul {
  import opened Probing
  import opened Sizing

  const HALF: nat := 0x1_0000_0000
  const WORD: nat := 0x1_0000_0000_0000_0000

  function Carry(overflowed: bool): Word {
    if overflowed then 1 else 0
  }

  /** The low and the high word that four products of halves make up. Every sum and every shift wraps as a 64 bit word
      does; a carry is seen by the sum being less than what was added to. */
  function Sum(rh: Word, rm0: Word, rm1: Word, rl: Word): (Word, Word) {
    var t := (rl + rm0 * HALF % WORD) % WORD;
    var c0 := Carry(t < rl);
    var lo := (t + rm1 * HALF % WORD) % WORD;
    var c := c0 + Carry(lo < t);
    var hi := (rh + rm0 / HALF + rm1 / HALF + c) % WORD;
    (lo, hi)
  }

  /** mum: the low and the high word of the product. */
  function Mum(a: Word, b: Word): (r: (Word, Word))
    ensures r.1 * WORD + r.0 == a * b
  {
    var (ha, hb, la, lb) := (a / HALF, b / HALF, a % HALF, b % HALF);
    Exact(a, b);
    Sum(ha * hb % WORD, ha * lb % WORD, hb * la % WORD, la * lb % WORD)
  }

  lemma ProductFits(a: nat, b: nat, m: nat)
    requires a < m && b < m
    ensures a * b <= (m - 1) * (m - 1)
  {
    MulMonotone(a, b, m - 1);
    MulMonotone(m - 1, a, m - 1);
  }

  /** The schoolbook identity. */
  lemma Schoolbook(ha: nat, la: nat, hb: nat, lb: nat)
    ensures (ha * HALF + la) * (hb * HALF + lb) == ha * hb * WORD + ha * lb * HALF + hb * la * HALF + la * lb
  {
    var a := ha * HALF + la;
    Distribute(a, hb * HALF, lb);
    Distribute(lb, ha * HALF, la);
    Distribute(hb * HALF, ha * HALF, la);
    assert hb * HALF * (ha * HALF) == ha * hb * WORD;
    assert hb * HALF * la == hb * la * HALF;
    assert lb * (ha * HALF) == ha * lb * HALF;
  }

  /** A wrapped sum and its carry are the sum. */
  lemma SumWithCarry(x: Word, y: Word)
    ensures var s := (x + y) % WORD; s + Carry(s < x) * WORD == x + y
  {
  }

  /** Shifting half a word up keeps the low half; the high half is what the high word is owed. */
  lemma ShiftedHalves(m: Word)
    ensures m * HALF % WORD + m / HALF * WORD == m * HALF
  {
    var h, l := m / HALF, m % HALF;
    ModUnique(m * HALF, WORD, h, l * HALF);
  }

  lemma Exact(a: Word, b: Word)
    ensures var (ha, hb, la, lb) := (a / HALF, b / HALF, a % HALF, b % HALF);
            var r := Sum(ha * hb % WORD, ha * lb % WORD, hb * la % WORD, la * lb % WORD);
            r.1 * WORD + r.0 == a * b
  {
    hide Sum;
    var ha, hb, la, lb := a / HALF, b / HALF, a % HALF, b % HALF;
    HalfProduct(ha, hb);
    HalfProduct(ha, lb);
    HalfProduct(hb, la);
    HalfProduct(la, lb);
    Schoolbook(ha, la, hb, lb);
    ProductFits(a, b, WORD);
    Combined(ha * hb, ha * lb, hb * la, la * lb, a * b);
  }

  lemma HalfProduct(x: nat, y: nat)
    requires x < HALF && y < HALF
    ensures 0 <= x * y < WORD && x * y % WORD == x * y
  {
    ProductFits(x, y, HALF);
    assert x * y >= 0;
    ModUnique(x * y, WORD, 0, x * y);
  }

  lemma Combined(rh: Word, rm0: Word, rm1: Word, rl: Word, product: nat)
    requires product == rh * WORD + rm0 * HALF + rm1 * HALF + rl && product < WORD * WORD
    ensures var r := Sum(rh, rm0, rm1, rl); r.1 * WORD + r.0 == product
  {
    hide Carry;
    Assembled(rh, rm0, rm1, rl, product);
    HighFits(rh, rm0, rm1, rl, product);
  }

  /** The four products put together, before the high word is cut to 64 bits. */
  lemma Assembled(rh: Word, rm0: Word, rm1: Word, rl: Word, product: nat)
    requires product == rh * WORD + rm0 * HALF + rm1 * HALF + rl
    ensures var t := (rl + rm0 * HALF % WORD) % WORD;
            var lo := (t + rm1 * HALF % WORD) % WORD;
            (rh + rm0 / HALF + rm1 / HALF + Carry(t < rl) + Carry(lo < t)) * WORD + lo == product
  {
    var up0, up1 := rm0 * HALF % WORD, rm1 * HALF % WORD;
    var t := (rl + up0) % WORD;
    ShiftedHalves(rm0);
    ShiftedHalves(rm1);
    SumWithCarry(rl, up0);
    SumWithCarry(t, up1);
    hide Carry;
  }

  /** The product is below 2^128, so nothing of the high word is cut off. */
  lemma HighFits(rh: Word, rm0: Word, rm1: Word, rl: Word, product: nat)
    requires product == rh * WORD + rm0 * HALF + rm1 * HALF + rl && product < WORD * WORD
    ensures var t := (rl + rm0 * HALF % WORD) % WORD;
            var lo := (t + rm1 * HALF % WORD) % WORD;
            rh + rm0 / HALF + rm1 / HALF + Carry(t < rl) + Carry(lo < t) < WORD
  {
    Assembled(rh, rm0, rm1, rl, product);
  }
}
