/**
 crc32.c: tables, the CRC a byte, a word and several interleaved words at a time, and combination.
 A z_crc_t is a bv64 that is at most ONES.
 */
module Crc32 {
  import opened Bits
  import opened CrcSpec
  import opened CrcAlgebra
  import opened CrcMul

  // ---------- bytes of words ----------

  function Cut(x: bv64): bv8 {
    (x & 0xff) as bv8
  }

  /** The low byte of x, as a table index. */
  function Index(x: bv64): byte {
    Cut(x) as int
  }

  lemma CutIs(x: bv64)
    ensures Cut(x) as bv64 == LowByte(x)
  {
  }

  lemma ByteRound(c: bv8)
    ensures (c as int) as bv8 == c
  {
  }

  lemma IndexWord(x: bv64)
    ensures Word(Index(x)) == LowByte(x)
  {
    hide Cut, LowByte;
    ByteRound(Cut(x));
    CutIs(x);
  }

  // ---------- a byte at a time ----------

  /** The CRC of each byte. */
  ghost predicate TableOk(t: seq<bv64>) {
    |t| == 256 && forall i: byte :: t[i] == TimesXn(Word(i), 8)
  }

  method MakeCrcTable() returns (table: array<bv64>)
    ensures fresh(table) && TableOk(table[..])
  {
    hide TimesX, Word;
    table := new bv64[256];
    for i := 0 to 256
      invariant forall j: byte :: j < i ==> table[j] == TimesXn(Word(j), 8)
    {
      var p := Word(i);
      for j := 0 to 8
        invariant TimesXn(p, 8 - j) == TimesXn(Word(i), 8)
      {
        p := TimesX(p);
      }
      table[i] := p;
    }
  }

  lemma TableLookup(t: seq<bv64>, x: bv64)
    requires TableOk(t)
    ensures TimesXn(x, 8) == Add(Down8(x), t[Index(x)])
  {
    hide TimesXn, Add, Down8, LowByte, Word, Index;
    EightSteps(x);
    IndexWord(x);
  }

  lemma ByteAbove(r: bv64, w: bv64)
    requires w <= 0xff
    ensures Down8(Add(r, w)) == Down8(r)
  {
  }

  /** The step of the byte-wise loop is the step of the definition. */
  method CrcByte(t: seq<bv64>, crc: bv64, b: byte) returns (crc': bv64)
    requires TableOk(t)
    ensures crc' == Feed(crc, b)
  {
    hide TimesXn, Add, Down8, LowByte, Word, Index;
    var x := Add(crc, Word(b));
    crc' := Add(Down8(crc), t[Index(x)]);
    TableLookup(t, x);
    ByteAbove(crc, Word(b));
  }

  method CrcBytes(t: seq<bv64>, crc: bv64, buf: seq<byte>) returns (crc': bv64)
    requires TableOk(t)
    ensures crc' == Register(crc, buf)
  {
    hide Feed, TableOk;
    crc' := crc;
    for i := 0 to |buf|
      invariant Register(crc, buf) == Register(crc', buf[i..])
    {
      assert buf[i..][0] == buf[i] && buf[i..][1..] == buf[i + 1..];
      crc' := CrcByte(t, crc', buf[i]);
    }
  }

  // ---------- a word at a time ----------

  lemma Halves(x: bv64, lo: bv64, hi: bv64)
    requires lo == x & ONES && hi == x >> 32
    ensures lo <= ONES && hi <= ONES && x == lo ^ (hi << 32)
  {
  }

  function Up32(x: bv64): bv64 {
    x << 32
  }

  lemma SplitHalves(x: bv64) returns (lo: bv64, hi: bv64)
    ensures lo <= ONES && hi <= ONES && x == Add(lo, Up32(hi))
  {
    lo, hi := x & ONES, x >> 32;
    Halves(x, lo, hi);
  }

  lemma UpFour(h: bv64)
    requires h <= ONES
    ensures Up32(h) == Up8(Up8(Up8(Up8(h))))
  {
  }

  lemma UpBounds(h: bv64)
    requires h <= ONES
    ensures AtMost(h, 0xff_ffff_ffff_ffff) && AtMost(Up8(h), 0xff_ffff_ffff_ffff)
    ensures AtMost(Up8(Up8(h)), 0xff_ffff_ffff_ffff) && AtMost(Up8(Up8(Up8(h))), 0xff_ffff_ffff_ffff)
  {
  }

  lemma ShiftedOut(h: bv64)
    requires h <= ONES
    ensures TimesXn(Up32(h), 32) == h
  {
    hide TimesXn, Up8, Up32, AtMost;
    UpFour(h);
    UpBounds(h);
    UpDown(h);
    UpDown(Up8(h));
    UpDown(Up8(Up8(h)));
    UpDown(Up8(Up8(Up8(h))));
    TimesXnPlus(Up32(h), 8, 8);
    TimesXnPlus(Up32(h), 16, 8);
    TimesXnPlus(Up32(h), 24, 8);
  }

  /** A whole word shifted out leaves a 32-bit value. */
  lemma WordSmall(x: bv64)
    ensures TimesXn(x, 64) <= ONES
  {
    hide TimesXn, Add, Up32;
    var lo, hi := SplitHalves(x);
    TimesXnAdd(lo, Up32(hi), 32);
    ShiftedOut(hi);
    TimesXnSmall(lo, 32);
    AddSmall(TimesXn(lo, 32), hi);
    TimesXnSmall(TimesXn(x, 32), 32);
    TimesXnPlus(x, 32, 32);
  }

  /** The sizes a z_word_t may have. */
  predicate Size(w: nat) {
    w == 4 || w == 8
  }

  /** x is a word of w bytes. */
  predicate Fits(x: bv64, w: nat) {
    w == 8 || x <= ONES
  }

  lemma FitsAdd(a: bv64, b: bv64, w: nat)
    requires Fits(a, w) && Fits(b, w)
    ensures Fits(Add(a, b), w)
  {
  }

  lemma FitsOn(x: bv64, m: nat, w: nat)
    requires Fits(x, w)
    ensures Fits(TimesXn(x, m), w)
  {
    hide TimesXn;
    if w != 8 {
      TimesXnSmall(x, m);
    }
  }

  /** crc_word: the bytes of data shifted out. */
  method CrcWord(t: seq<bv64>, data: bv64, w: nat) returns (crc: bv64)
    requires TableOk(t) && Size(w) && Fits(data, w)
    ensures crc == TimesXn(data, 8 * w) && crc <= ONES
  {
    hide TimesXn, Add, Down8, Index;
    crc := data;
    TimesXnNone(data);
    for k := 0 to w
      invariant crc == TimesXn(data, 8 * k)
    {
      TableLookup(t, crc);
      TimesXnPlus(data, 8 * k, 8);
      crc := Add(Down8(crc), t[Index(crc)]);
    }
    if w == 8 {
      WordSmall(data);
    } else {
      TimesXnSmall(data, 32);
    }
  }

  // ---------- products and powers ----------

  /** The number of bits from m, a single bit, down. */
  function Depth(m: bv64): nat
    decreases m
  {
    if m == 0 then 0 else HalfLess(m); 1 + Depth(Half(m))
  }

  lemma HalfLess(m: bv64)
    ensures m != 0 ==> Half(m) < m
  {
  }

  lemma DepthOfOne()
    ensures Depth(ONE) == 32
  {
    assert Depth(8) == 4;
    assert Depth(0x80) == 8;
    assert Depth(0x800) == 12;
    assert Depth(0x8000) == 16;
    assert Depth(0x8_0000) == 20;
    assert Depth(0x80_0000) == 24;
    assert Depth(0x800_0000) == 28;
  }

  predicate Single(m: bv64) {
    m != 0 && m & (m - 1) == 0
  }

  /** a has the bit m. */
  predicate Has(a: bv64, m: bv64) {
    a & m != 0
  }

  /** a has a bit at m or below. */
  predicate Reaches(a: bv64, m: bv64) {
    a & (m | (m - 1)) != 0
  }

  /** a has a bit below m. */
  predicate ReachesBelow(a: bv64, m: bv64) {
    a & (m - 1) != 0
  }

  lemma ReachStep(a: bv64, m: bv64)
    requires Single(m)
    ensures Reaches(a, m) <==> Has(a, m) || ReachesBelow(a, m)
    ensures m != 1 ==> (ReachesBelow(a, m) <==> Reaches(a, Half(m))) && Single(Half(m))
    ensures m == 1 ==> !ReachesBelow(a, m) && Half(m) == 0
    ensures m != 0
  {
  }

  lemma PartNext(a: bv64, m: bv64, y: bv64)
    requires Single(m)
    ensures Part(a, m, Depth(m), y) == Add(if Has(a, m) then y else 0, Part(a, Half(m), Depth(Half(m)), TimesX(y)))
    ensures Part(a, 0, Depth(0), y) == 0
  {
    hide Part, Add, TimesX;
    PartStep(a, m, Depth(m), y);
    PartStep(a, 0, 0, y);
  }

  /** Terms that a does not have add nothing. */
  lemma {:induction false} PartNone(a: bv64, m: bv64, y: bv64)
    requires Single(m) && !Reaches(a, m)
    ensures Part(a, m, Depth(m), y) == 0
    decreases Depth(m)
  {
    hide Part, Reaches, ReachesBelow, Add, Single, Half, TimesX, Has;
    PartNext(a, m, y);
    ReachStep(a, m);
    AddZero(0);
    if m != 1 {
      PartNone(a, Half(m), TimesX(y));
    } else {
      PartZero(a, TimesX(y));
    }
  }

  lemma PartZero(a: bv64, y: bv64)
    ensures Part(a, 0, Depth(0), y) == 0
  {
    hide Part;
    PartStep(a, 0, 0, y);
  }

  /** multmodp: the product, going through the bits of a until none is left. */
  method Multmodp(a: bv64, b: bv64) returns (p: bv64)
    requires a != 0 && a <= ONES
    ensures p == Mul(a, b)
  {
    hide Part, Reaches, ReachesBelow, Add, Single, Half, TimesX, Has, Depth;
    StartOne(a);
    var m, y := ONE, b;
    p := 0;
    AddZero(Mul(a, b));
    while true
      invariant Single(m) && Reaches(a, m) && Add(p, Part(a, m, Depth(m), y)) == Mul(a, b)
      decreases Depth(m)
    {
      PartNext(a, m, y);
      ReachStep(a, m);
      ghost var rest := Part(a, Half(m), Depth(Half(m)), TimesX(y));
      if Has(a, m) {
        AddAssoc(p, y, rest);
        p := Add(p, y);
        if !ReachesBelow(a, m) {
          NothingLeft(a, m, TimesX(y));
          AddZero(p);
          break;
        }
      } else {
        AddZero(rest);
      }
      DepthStep(m);
      m := Half(m);
      y := TimesX(y);
    }
  }

  lemma NothingLeft(a: bv64, m: bv64, y: bv64)
    requires Single(m) && !ReachesBelow(a, m)
    ensures Part(a, Half(m), Depth(Half(m)), y) == 0
  {
    hide Part, Reaches, ReachesBelow, Single, Half, Has, Depth;
    ReachStep(a, m);
    if m != 1 {
      PartNone(a, Half(m), y);
    } else {
      PartZero(a, y);
    }
  }

  lemma DepthStep(m: bv64)
    requires Single(m)
    ensures Depth(Half(m)) < Depth(m)
  {
  }

  lemma StartOne(a: bv64)
    requires a != 0 && a <= ONES
    ensures Single(ONE) && Reaches(a, ONE) && Depth(ONE) == 32
  {
    hide Depth;
    DepthOfOne();
  }

  /** The table of x^(2^k) repeats: x^(2^32) is x again. */
  lemma {:induction false} PowersRepeat(k: nat)
    ensures Power(Pow2(k)) == X2N[k % 32]
  {
    hide X2N, Mul, TimesXn, Power, Pow2;
    TableLength();
    if k == 0 {
      FirstPower();
    } else {
      Pow2Twice(k);
      PowersRepeat(k - 1);
      PowerPlus(Pow2(k - 1), Pow2(k - 1));
      Squared((k - 1) % 32);
    }
  }

  lemma Pow2Twice(k: nat)
    requires k > 0
    ensures Pow2(k) == Pow2(k - 1) + Pow2(k - 1) && Pow2(0) == 1
  {
  }

  lemma FirstPower()
    ensures Power(Pow2(0)) == X2N[0]
  {
    assert TimesXn(ONE, 1) == TimesXn(TimesX(ONE), 0);
  }

  lemma TableNonzero(k: nat)
    requires k < 32
    ensures |X2N| == 32 && X2N[k] != 0 && X2N[k] <= ONES
  {
    hide TimesXn, Power, X2N, Pow2;
    TableLength();
    PowersRepeat(k);
    PowerNonzero(Pow2(k));
  }

  lemma TableLength()
    ensures |X2N| == 32
  {
  }

  /** The part of make_crc_table that fills x2n_table, by repeated squaring. */
  method MakeX2nTable() returns (x2n: array<bv64>)
    ensures fresh(x2n) && x2n[..] == X2N
  {
    hide Mul;
    x2n := new bv64[32];
    var p := 0x4000_0000;
    x2n[0] := p;
    for n := 1 to 32
      invariant p == X2N[n - 1] && x2n[..n] == X2N[..n]
    {
      TableNonzero(n - 1);
      Squared(n - 1);
      p := Multmodp(p, p);
      x2n[n] := p;
    }
    assert x2n[..] == x2n[..32];
  }

  lemma ShiftOne(n: nat, k: nat)
    ensures Shl(n, k) == Shl(n / 2, k + 1) + if n % 2 == 1 then Pow2(k) else 0
  {
    hide Shl, Pow2;
    var h := n / 2;
    ShlAdd(h + h, n % 2, k);
    ShlAdd(h, h, k);
    ShlNext(h, k);
    ShlAdd(0, 0, k);
  }

  lemma ShlNext(h: nat, k: nat)
    ensures Shl(h, k + 1) == 2 * Shl(h, k)
  {
  }

  /** x2nmodp: x^(n 2^k), for any n and k, from a table of 32 powers. */
  method X2nmodp(x2n: seq<bv64>, n: nat, k: nat) returns (p: bv64)
    requires x2n == X2N
    ensures p == Power(Shl(n, k)) && p <= ONES
  {
    hide X2N, Mul, TimesXn, Pow2, Shl;
    p := ONE;
    TimesXnNone(ONE);
    TimesXnSmall(ONE, Shl(n, k));
    var n': nat, k': nat := n, k;
    ghost var e: nat := 0;
    while n' > 0
      invariant p == Power(e) && e + Shl(n', k') == Shl(n, k)
      decreases n'
    {
      ShiftOne(n', k');
      if n' % 2 == 1 {
        PowersRepeat(k');
        TableNonzero(k' % 32);
        PowerPlus(Pow2(k'), e);
        p := Multmodp(x2n[k' % 32], p);
        e := Pow2(k') + e;
      }
      n', k' := n' / 2, k' + 1;
    }
    ShlAdd(0, 0, k');
  }

  // ---------- combination ----------

  /** A difference in the register is carried along by the data. */
  lemma {:induction false} RegisterAdd(r: bv64, d: bv64, data: seq<byte>)
    ensures Register(Add(r, d), data) == Add(Register(r, data), TimesXn(d, 8 * |data|))
    decreases |data|
  {
    hide Add, TimesXn, Word;
    if data == [] {
      TimesXnNone(d);
    } else {
      var w, n := Word(data[0]), |data| - 1;
      AddAssoc(r, d, w);
      AddComm(d, w);
      AddAssoc(r, w, d);
      TimesXnAdd(Add(r, w), d, 8);
      RegisterAdd(Feed(r, data[0]), TimesXn(d, 8), data[1..]);
      TimesXnPlus(d, 8, 8 * n);
    }
  }

  lemma PowerNonzero(n: nat)
    ensures Power(n) != 0 && Power(n) <= ONES
  {
    hide TimesX;
    TimesXnSmall(ONE, n);
    TimesXnNonzero(ONE, n);
  }

  lemma {:induction false} TimesXnNonzero(r: bv64, n: nat)
    requires r != 0 && r <= ONES
    ensures TimesXn(r, n) != 0
    decreases n
  {
    if n > 0 {
      TimesXnNonzero(TimesX(r), n - 1);
    }
  }

  /** The register form of a CRC continued over data, and its conditioning. */
  lemma CrcParts(crc1: bv32, b: seq<byte>)
    ensures ToRegister(Crc(crc1, b)) == Register(ToRegister(crc1), b)
  {
    hide Register, ToRegister, FromRegister;
    ToRegisterSmall(crc1);
    RegisterSmall(ToRegister(crc1), b);
    FromToRegister(Register(ToRegister(crc1), b));
  }

  function Wide(c: bv32): bv64 {
    c as bv64
  }

  lemma RegisterOf(c: bv32)
    ensures ToRegister(c) == Add(ONES, Wide(c)) && Wide(c) <= ONES && ToRegister(0) == ONES
  {
  }

  lemma RegisterCancel(c: bv32, x: bv64)
    requires Add(ONES, Wide(c)) == Add(ONES, x)
    ensures Wide(c) == x
  {
    hide Add, Wide;
    AddAssoc(ONES, ONES, Wide(c));
    AddAssoc(ONES, ONES, x);
    AddZero(ONES);
    AddZero(Wide(c));
    AddZero(x);
  }

  /** The CRC of two pieces together, from the CRCs of the pieces and the length of the second. */
  lemma Combination(crc0: bv32, a: seq<byte>, b: seq<byte>)
    ensures Wide(Crc(crc0, a + b)) == Add(Mul(Power(8 * |b|), Wide(Crc(crc0, a))), Wide(Crc(0, b)))
  {
    hide Crc, Add, Mul, TimesXn, Register, ToRegister, Power, Wide;
    var c1, c2, c := Crc(crc0, a), Crc(0, b), Crc(crc0, a + b);
    var t := TimesXn(Wide(c1), 8 * |b|);
    CrcConcat(crc0, a, b);
    CrcParts(c1, b);
    CrcParts(0, b);
    RegisterOf(c1);
    RegisterOf(c2);
    RegisterOf(c);
    RegisterOf(0);
    RegisterAdd(ONES, Wide(c1), b);
    MulPower(8 * |b|, Wide(c1));
    AddAssoc(ONES, Wide(c2), t);
    AddComm(Wide(c2), t);
    RegisterCancel(c, Add(t, Wide(c2)));
  }

  /** crc32_combine, for any lengths. */
  method Crc32Combine(x2n: seq<bv64>, crc1: bv32, crc2: bv32, len2: nat) returns (crc: bv64)
    requires x2n == X2N
    ensures crc == Add(Mul(Power(8 * len2), Wide(crc1)), Wide(crc2))
    ensures forall c: bv32, a: seq<byte>, b: seq<byte> ::
              Crc(c, a) == crc1 && Crc(0, b) == crc2 && |b| == len2 ==> crc == Wide(Crc(c, a + b))
  {
    hide X2N, Mul, TimesXn, Crc, Add, Power, Wide;
    var op := X2nmodp(x2n, len2, 3);
    ShlThree(len2);
    PowerNonzero(8 * len2);
    var product := Multmodp(op, Wide(crc1));
    crc := Add(product, Wide(crc2));
    forall c: bv32, a: seq<byte>, b: seq<byte> | Crc(c, a) == crc1 && Crc(0, b) == crc2 && |b| == len2
      ensures crc == Wide(Crc(c, a + b))
    {
      Combination(c, a, b);
    }
  }

  lemma ShlThree(n: nat)
    ensures Shl(n, 3) == 8 * n
  {
    assert Shl(n, 1) == 2 * n;
  }
}
