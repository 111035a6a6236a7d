/**
 Arithmetic of polynomials over GF(2) modulo p(x), as the CRC code uses it.
 */
module CrcAlgebra {
  import opened Bits
  import opened CrcSpec

  // ---------- addition ----------

  lemma AddComm(a: bv64, b: bv64)
    ensures Add(a, b) == Add(b, a)
  {
  }

  lemma AddIs(a: bv64, b: bv64)
    ensures Add(a, b) == a ^ b
  {
  }

  lemma XorAssoc(a: bv64, b: bv64, c: bv64, x: bv64, y: bv64)
    requires x == a ^ b && y == b ^ c
    ensures x ^ c == a ^ y
  {
  }

  lemma AddAssoc(a: bv64, b: bv64, c: bv64)
    ensures Add(Add(a, b), c) == Add(a, Add(b, c))
  {
    hide Add;
    AddIs(a, b);
    AddIs(b, c);
    AddIs(Add(a, b), c);
    AddIs(a, Add(b, c));
    XorAssoc(a, b, c, Add(a, b), Add(b, c));
  }

  lemma AddZero(a: bv64)
    ensures Add(a, 0) == a && Add(0, a) == a && Add(a, a) == 0
  {
  }

  lemma AddSwap(a: bv64, b: bv64, c: bv64, d: bv64)
    ensures Add(Add(a, b), Add(c, d)) == Add(Add(a, c), Add(b, d))
  {
    hide Add;
    AddAssoc(a, b, Add(c, d));
    AddAssoc(b, c, d);
    AddComm(b, c);
    AddAssoc(c, b, d);
    AddAssoc(a, c, Add(b, d));
  }

  lemma AddSmall(a: bv64, b: bv64)
    requires a <= ONES && b <= ONES
    ensures Add(a, b) <= ONES
  {
  }

  function Half(r: bv64): bv64 {
    r >> 1
  }

  /** What multiplying by x adds to the shifted value. */
  function Carry(r: bv64): bv64 {
    if r & 1 == 1 then POLY else 0
  }

  lemma TimesXIs(r: bv64)
    ensures TimesX(r) == Add(Half(r), Carry(r))
  {
    AddZero(Half(r));
  }

  lemma HalfAdd(a: bv64, b: bv64)
    ensures Half(Add(a, b)) == Add(Half(a), Half(b))
  {
  }

  lemma OddAdd(a: bv64, b: bv64)
    ensures (Add(a, b) & 1 == 1) == ((a & 1 == 1) != (b & 1 == 1))
  {
  }

  lemma CarryAdd(a: bv64, b: bv64)
    ensures Carry(Add(a, b)) == Add(Carry(a), Carry(b))
  {
    hide Add;
    OddAdd(a, b);
    AddZero(POLY);
    AddZero(0);
  }

  lemma TimesXAdd(a: bv64, b: bv64)
    ensures TimesX(Add(a, b)) == Add(TimesX(a), TimesX(b)) && TimesX(0) == 0
  {
    hide Add, Half, Carry;
    TimesXIs(a);
    TimesXIs(b);
    TimesXIs(Add(a, b));
    HalfAdd(a, b);
    CarryAdd(a, b);
    AddSwap(Half(a), Half(b), Carry(a), Carry(b));
  }

  /** Multiplication by a power of x is linear. */
  lemma {:induction false} TimesXnAdd(a: bv64, b: bv64, n: nat)
    ensures TimesXn(Add(a, b), n) == Add(TimesXn(a, n), TimesXn(b, n)) && TimesXn(0, n) == 0
    decreases n
  {
    hide Add, TimesX;
    TimesXAdd(a, b);
    if n > 0 {
      TimesXnAdd(TimesX(a), TimesX(b), n - 1);
    }
  }

  lemma {:induction false} TimesXnPlus(r: bv64, m: nat, n: nat)
    ensures TimesXn(r, m + n) == TimesXn(TimesXn(r, m), n)
    decreases m
  {
    hide TimesX;
    if m > 0 {
      TimesXnPlus(TimesX(r), m - 1, n);
    }
  }

  // ---------- shifting ----------

  lemma TimesX2(x: bv64)
    requires x & 3 == 0
    ensures TimesXn(x, 2) == x >> 2
  {
    assert TimesXn(x, 2) == TimesXn(TimesX(x), 1) == TimesXn(TimesX(TimesX(x)), 0);
  }

  lemma TimesX4(x: bv64)
    requires x & 15 == 0
    ensures TimesXn(x, 4) == x >> 4
  {
    hide TimesXn;
    Shifts(x);
    TimesX2(x);
    TimesX2(x >> 2);
    TimesXnPlus(x, 2, 2);
  }

  lemma Shifts(x: bv64)
    ensures (x >> 2) >> 2 == x >> 4 && (x >> 4) >> 4 == x >> 8
    ensures x & 15 == 0 ==> x & 3 == 0 && (x >> 2) & 3 == 0
    ensures x & 0xff == 0 ==> x & 15 == 0 && (x >> 4) & 15 == 0
  {
  }

  /** A multiple of 2^8 is merely shifted. */
  lemma TimesX8(x: bv64)
    requires x & 0xff == 0
    ensures TimesXn(x, 8) == x >> 8
  {
    hide TimesXn;
    Shifts(x);
    TimesX4(x);
    TimesX4(x >> 4);
    TimesXnPlus(x, 4, 4);
  }

  /** x >> 8 */
  function Down8(x: bv64): bv64 {
    x >> 8
  }

  /** x & 0xff */
  function LowByte(x: bv64): bv64 {
    x & 0xff
  }

  /** x << 8 */
  function Up8(x: bv64): bv64 {
    x << 8
  }

  /** The basis of the table-driven computation: eight steps at once. */
  lemma EightSteps(x: bv64)
    ensures TimesXn(x, 8) == Add(Down8(x), TimesXn(LowByte(x), 8))
  {
    hide TimesXn, Add, TimesX, Down8, LowByte, Up8;
    SplitLow(x);
    DownUp(x);
    TimesXnAdd(LowByte(x), Up8(Down8(x)), 8);
    AddComm(Down8(x), TimesXn(LowByte(x), 8));
  }

  lemma SplitLow(x: bv64)
    ensures x == Add(LowByte(x), Up8(Down8(x)))
  {
  }

  lemma DownUp(x: bv64)
    ensures TimesXn(Up8(Down8(x)), 8) == Down8(x)
  {
    hide TimesXn, Down8, LowByte, Up8;
    DownUpDown(x);
    Shifted(Up8(Down8(x)));
  }

  lemma DownUpDown(x: bv64)
    ensures LowByte(Up8(Down8(x))) == 0 && Down8(Up8(Down8(x))) == Down8(x)
  {
  }

  lemma Shifted(x: bv64)
    requires LowByte(x) == 0
    ensures TimesXn(x, 8) == Down8(x)
  {
    hide TimesXn;
    TimesX8(x);
  }

  // ---------- words ----------

  /** Bytes as a little-endian word. */
  function Pack(bs: seq<byte>): bv64
    decreases |bs|
  {
    if bs == [] then 0 else Add(Word(bs[0]), Up8(Pack(bs[1..])))
  }

  predicate AtMost(x: bv64, t: bv64) {
    x <= t
  }

  function Fill(t: bv64): bv64 {
    (t << 8) | 0xff
  }

  /** The largest value of n bytes. */
  function Top(n: nat): bv64 {
    if n == 0 then 0 else Fill(Top(n - 1))
  }

  lemma TopSmall(n: nat, x: bv64)
    requires n <= 7 && AtMost(x, Top(n))
    ensures AtMost(x, 0xff_ffff_ffff_ffff)
  {
    assert Top(1) == 0xff && Top(2) == 0xffff;
    assert Top(3) == 0xff_ffff && Top(4) == 0xffff_ffff;
    assert Top(5) == 0xff_ffff_ffff && Top(6) == 0xffff_ffff_ffff;
    assert Top(7) == 0xff_ffff_ffff_ffff;
  }

  lemma PushByte64(p: bv64, t: bv64, b: bv64)
    requires AtMost(p, t) && AtMost(t, 0xff_ffff_ffff_ffff) && b <= 0xff
    ensures AtMost(Add(b, Up8(p)), Fill(t))
  {
  }

  lemma UpDown(p: bv64)
    requires AtMost(p, 0xff_ffff_ffff_ffff)
    ensures TimesXn(Up8(p), 8) == p
  {
    hide TimesXn, Down8, LowByte, Up8, AtMost;
    UpDownIs(p);
    Shifted(Up8(p));
  }

  lemma UpDownIs(p: bv64)
    requires AtMost(p, 0xff_ffff_ffff_ffff)
    ensures LowByte(Up8(p)) == 0 && Down8(Up8(p)) == p
  {
  }

  lemma {:induction false} PackSmall(bs: seq<byte>)
    requires |bs| <= 8
    ensures AtMost(Pack(bs), Top(|bs|))
    ensures |bs| <= 7 ==> AtMost(Pack(bs), 0xff_ffff_ffff_ffff)
    decreases |bs|
  {
    hide Add, Word, Up8, AtMost, Fill;
    if bs == [] {
      AtMostItself(0);
    } else {
      var n, b, p := |bs| - 1, Word(bs[0]), Pack(bs[1..]);
      PackSmall(bs[1..]);
      AtMostItself(Top(n));
      TopSmall(n, Top(n));
      PushByte64(p, Top(n), b);
    }
    if |bs| <= 7 {
      TopSmall(|bs|, Pack(bs));
    }
  }

  lemma AtMostItself(t: bv64)
    ensures AtMost(t, t)
  {
  }

  /** Feeding up to eight bytes is adding them as a word and shifting them out together. */
  lemma {:induction false} FeedWord(r: bv64, bs: seq<byte>)
    requires |bs| <= 8
    ensures Register(r, bs) == TimesXn(Add(r, Pack(bs)), 8 * |bs|)
    decreases |bs|
  {
    hide Add, TimesXn, TimesX, Word, Up8, AtMost;
    AtMostItself(0xff_ffff_ffff_ffff);
    if bs == [] {
      AddZero(r);
      TimesXnNone(r);
    } else {
      var n, b, p := |bs| - 1, Word(bs[0]), Pack(bs[1..]);
      PackSmall(bs[1..]);
      UpDown(p);
      FeedWord(Feed(r, bs[0]), bs[1..]);
      AddAssoc(r, b, Up8(p));
      TimesXnAdd(Add(r, b), Up8(p), 8);
      TimesXnPlus(Add(r, Pack(bs)), 8, 8 * n);
    }
  }

  lemma TimesXnNone(r: bv64)
    ensures TimesXn(r, 0) == r
  {
  }
}
