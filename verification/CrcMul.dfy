/**
 Multiplication of polynomials modulo p(x), and powers of x.
 */
module CrcMul {
  import opened CrcSpec
  import opened CrcAlgebra

  const ONE: bv64 := 0x8000_0000   // the polynomial 1

  /** y if a has the term m. */
  function Term(a: bv64, m: bv64, y: bv64): bv64 {
    if a & m != 0 then y else 0
  }

  /** The sum over n terms of a from m on, the first counting y, each next one x times as much. */
  function Part(a: bv64, m: bv64, n: nat, y: bv64): bv64
    decreases n
  {
    if n == 0 then 0 else Term(a, m, y) ^ Part(a, m >> 1, n - 1, TimesX(y))
  }

  /** The product of a and b. */
  function Mul(a: bv64, b: bv64): bv64 {
    Part(a, ONE, 32, b)
  }

  /** x^n */
  function Power(n: nat): bv64 {
    TimesXn(ONE, n)
  }

  lemma PartStep(a: bv64, m: bv64, n: nat, y: bv64)
    ensures Part(a, m, n, y) == if n == 0 then 0 else Add(Term(a, m, y), Part(a, m >> 1, n - 1, TimesX(y)))
  {
    hide TimesX, Term, Add;
    if n > 0 {
      AddIs(Term(a, m, y), Part(a, m >> 1, n - 1, TimesX(y)));
    }
  }

  // ---------- linearity ----------

  lemma TermAdd(a: bv64, m: bv64, y: bv64, z: bv64)
    ensures Term(a, m, Add(y, z)) == Add(Term(a, m, y), Term(a, m, z)) && Term(a, m, 0) == 0
  {
    hide Add;
    AddZero(0);
  }

  lemma TermTimesX(a: bv64, m: bv64, y: bv64)
    ensures Term(a, m, TimesX(y)) == TimesX(Term(a, m, y))
  {
    hide TimesX;
    TimesXAdd(0, 0);
  }

  lemma {:induction false} PartAdd(a: bv64, m: bv64, n: nat, y: bv64, z: bv64)
    ensures Part(a, m, n, Add(y, z)) == Add(Part(a, m, n, y), Part(a, m, n, z)) && Part(a, m, n, 0) == 0
    decreases n
  {
    hide Add, TimesX, Term, Part;
    AddZero(0);
    PartStep(a, m, n, Add(y, z));
    PartStep(a, m, n, y);
    PartStep(a, m, n, z);
    PartStep(a, m, n, 0);
    if n > 0 {
      var q := m >> 1;
      PartAdd(a, q, n - 1, TimesX(y), TimesX(z));
      TimesXAdd(y, z);
      TermAdd(a, m, y, z);
      AddSwap(Term(a, m, y), Term(a, m, z), Part(a, q, n - 1, TimesX(y)), Part(a, q, n - 1, TimesX(z)));
    }
  }

  /** Multiplication commutes with multiplication by x. */
  lemma {:induction false} PartTimesX(a: bv64, m: bv64, n: nat, y: bv64)
    ensures Part(a, m, n, TimesX(y)) == TimesX(Part(a, m, n, y))
    decreases n
  {
    hide Add, TimesX, Term, Part;
    TimesXAdd(0, 0);
    PartStep(a, m, n, y);
    PartStep(a, m, n, TimesX(y));
    if n > 0 {
      var q := m >> 1;
      PartTimesX(a, q, n - 1, TimesX(y));
      TermTimesX(a, m, y);
      TimesXAdd(Term(a, m, y), Part(a, q, n - 1, TimesX(y)));
    }
  }

  lemma MulTerm(a: bv64, b: bv64, m: bv64, y: bv64)
    ensures Mul(a, Term(b, m, y)) == Term(b, m, Mul(a, y))
  {
    hide Part;
    PartAdd(a, ONE, 32, 0, 0);
  }

  /** So a product may be taken term by term on either side. */
  lemma {:induction false} MulPart(a: bv64, b: bv64, m: bv64, n: nat, y: bv64)
    ensures Mul(a, Part(b, m, n, y)) == Part(b, m, n, Mul(a, y))
    decreases n
  {
    hide Add, TimesX, Term, Part;
    PartAdd(a, ONE, 32, 0, 0);
    PartStep(b, m, n, y);
    PartStep(b, m, n, Mul(a, y));
    if n > 0 {
      var q := m >> 1;
      MulPart(a, b, q, n - 1, TimesX(y));
      PartTimesX(a, ONE, 32, y);
      MulTerm(a, b, m, y);
      PartAdd(a, ONE, 32, Term(b, m, y), Part(b, q, n - 1, TimesX(y)));
    }
  }

  lemma {:induction false} TimesXnPart(b: bv64, m: bv64, k: nat, y: bv64, n: nat)
    ensures TimesXn(Part(b, m, k, y), n) == Part(b, m, k, TimesXn(y, n))
    decreases n
  {
    hide TimesX, Part;
    if n > 0 {
      PartTimesX(b, m, k, y);
      TimesXnPart(b, m, k, TimesX(y), n - 1);
    }
  }

  // ---------- the product without recursion ----------

  function Two(a: bv64, m: bv64, y: bv64): bv64 {
    Term(a, m, y) ^ Term(a, m >> 1, TimesX(y))
  }

  function X2(y: bv64): bv64 {
    TimesX(TimesX(y))
  }

  function Four(a: bv64, m: bv64, y: bv64): bv64 {
    Two(a, m, y) ^ Two(a, m >> 2, X2(y))
  }

  function X4(y: bv64): bv64 {
    X2(X2(y))
  }

  function Eight(a: bv64, m: bv64, y: bv64): bv64 {
    Four(a, m, y) ^ Four(a, m >> 4, X4(y))
  }

  function X8(y: bv64): bv64 {
    X4(X4(y))
  }

  function Flat(a: bv64, b: bv64): bv64 {
    Add(Eight(a, 0x8000_0000, b),
        Add(Eight(a, 0x80_0000, X8(b)), Add(Eight(a, 0x8000, X8(X8(b))), Eight(a, 0x80, X8(X8(X8(b)))))))
  }

  lemma MaskShifts(m: bv64)
    ensures (m >> 1) >> 1 == m >> 2 && (m >> 2) >> 2 == m >> 4 && (m >> 4) >> 4 == m >> 8
  {
  }

  lemma TwoIs(a: bv64, m: bv64, y: bv64)
    ensures Two(a, m, y) == Add(Term(a, m, y), Term(a, m >> 1, TimesX(y)))
  {
    hide Term, TimesX, Add;
    AddIs(Term(a, m, y), Term(a, m >> 1, TimesX(y)));
  }

  lemma PartTwo(a: bv64, m: bv64, n: nat, y: bv64)
    requires n >= 2
    ensures Part(a, m, n, y) == Add(Two(a, m, y), Part(a, m >> 2, n - 2, X2(y)))
  {
    hide Part, Add, TimesX, Term, Two;
    PartStep(a, m, n, y);
    PartStep(a, m >> 1, n - 1, TimesX(y));
    MaskShifts(m);
    TwoIs(a, m, y);
    AddAssoc(Term(a, m, y), Term(a, m >> 1, TimesX(y)), Part(a, m >> 2, n - 2, X2(y)));
  }

  lemma FourIs(a: bv64, m: bv64, y: bv64)
    ensures Four(a, m, y) == Add(Two(a, m, y), Two(a, m >> 2, X2(y)))
  {
    hide Two, X2, Add;
    AddIs(Two(a, m, y), Two(a, m >> 2, X2(y)));
  }

  lemma PartFour(a: bv64, m: bv64, n: nat, y: bv64)
    requires n >= 4
    ensures Part(a, m, n, y) == Add(Four(a, m, y), Part(a, m >> 4, n - 4, X4(y)))
  {
    hide Part, Add, X2, Two, Four;
    PartTwo(a, m, n, y);
    PartTwo(a, m >> 2, n - 2, X2(y));
    MaskShifts(m);
    FourIs(a, m, y);
    AddAssoc(Two(a, m, y), Two(a, m >> 2, X2(y)), Part(a, m >> 4, n - 4, X4(y)));
  }

  lemma EightIs(a: bv64, m: bv64, y: bv64)
    ensures Eight(a, m, y) == Add(Four(a, m, y), Four(a, m >> 4, X4(y)))
  {
    hide Four, X4, Add;
    AddIs(Four(a, m, y), Four(a, m >> 4, X4(y)));
  }

  lemma PartEight(a: bv64, m: bv64, n: nat, y: bv64)
    requires n >= 8
    ensures Part(a, m, n, y) == Add(Eight(a, m, y), Part(a, m >> 8, n - 8, X8(y)))
  {
    hide Part, Add, X4, Four, Eight;
    PartFour(a, m, n, y);
    PartFour(a, m >> 4, n - 4, X4(y));
    MaskShifts(m);
    EightIs(a, m, y);
    AddAssoc(Four(a, m, y), Four(a, m >> 4, X4(y)), Part(a, m >> 8, n - 8, X8(y)));
  }

  lemma ByteMasks()
    ensures 0x8000_0000 >> 8 == 0x80_0000 as bv64 && 0x80_0000 >> 8 == 0x8000 as bv64 && 0x8000 >> 8 == 0x80 as bv64
  {
  }

  lemma MulFlat(a: bv64, b: bv64)
    ensures Mul(a, b) == Flat(a, b)
  {
    hide Part, Add, X8, Eight;
    var y1 := X8(b);
    var y2 := X8(y1);
    var y3 := X8(y2);
    var e3 := Eight(a, 0x80, y3);
    ByteMasks();
    PartEight(a, 0x8000_0000, 32, b);
    PartEight(a, 0x80_0000, 24, y1);
    PartEight(a, 0x8000, 16, y2);
    PartEight(a, 0x80, 8, y3);
    PartStep(a, 0x80 >> 8, 0, X8(y3));
    AddZero(e3);
  }

  // ---------- one ----------

  lemma OneBytes(a: bv64)
    ensures Eight(a, 0x8000_0000, 0x8000_0000) == a & 0xff00_0000
  {
  }

  lemma OneBytesNext(a: bv64)
    ensures Eight(a, 0x80_0000, 0x80_0000) == a & 0xff_0000
  {
  }

  lemma OneBytesLow(a: bv64)
    ensures Eight(a, 0x8000, 0x8000) == a & 0xff00
  {
  }

  lemma OneBytesLast(a: bv64)
    ensures Eight(a, 0x80, 0x80) == a & 0xff
  {
  }

  lemma OneShifts()
    ensures X8(0x8000_0000) == 0x80_0000 && X8(0x80_0000) == 0x8000 && X8(0x8000) == 0x80
  {
  }

  lemma AllBytes(a: bv64, e0: bv64, e1: bv64, e2: bv64, e3: bv64)
    requires a <= ONES && e0 == a & 0xff00_0000 && e1 == a & 0xff_0000 && e2 == a & 0xff00 && e3 == a & 0xff
    ensures Add(e0, Add(e1, Add(e2, e3))) == a
  {
  }

  /** One is neutral. */
  lemma MulOne(a: bv64)
    requires a <= ONES
    ensures Mul(a, ONE) == a
  {
    hide Part, Eight, X8, Mul, Add;
    MulFlat(a, ONE);
    OneShifts();
    OneBytes(a);
    OneBytesNext(a);
    OneBytesLow(a);
    OneBytesLast(a);
    AllBytes(a, Eight(a, 0x8000_0000, 0x8000_0000), Eight(a, 0x80_0000, 0x80_0000),
             Eight(a, 0x8000, 0x8000), Eight(a, 0x80, 0x80));
  }

  /** The product is commutative. */
  lemma MulComm(a: bv64, b: bv64)
    requires a <= ONES && b <= ONES
    ensures Mul(a, b) == Mul(b, a)
  {
    hide Part;
    MulOne(a);
    MulOne(b);
    MulPart(a, b, ONE, 32, ONE);
  }

  /** Multiplying by x^n is shifting by n. */
  lemma MulPower(n: nat, b: bv64)
    requires b <= ONES
    ensures Mul(Power(n), b) == TimesXn(b, n) && Power(n) <= ONES
  {
    hide Part, TimesX;
    TimesXnSmall(ONE, n);
    MulOne(b);
    TimesXnPart(b, ONE, 32, ONE, n);
    MulComm(Power(n), b);
  }

  lemma PowerPlus(m: nat, n: nat)
    ensures Mul(Power(m), Power(n)) == Power(m + n)
  {
    hide Part, TimesX, Mul;
    TimesXnSmall(ONE, n);
    MulPower(m, Power(n));
    TimesXnPlus(ONE, n, m);
  }

  // ---------- the powers x^(2^k) ----------

  lemma FlatOf(a: bv64, b: bv64, y1: bv64, y2: bv64, y3: bv64, e0: bv64, e1: bv64, e2: bv64, e3: bv64)
    requires y1 == X8(b) && y2 == X8(y1) && y3 == X8(y2)
    requires e0 == Eight(a, 0x8000_0000, b) && e1 == Eight(a, 0x80_0000, y1) && e2 == Eight(a, 0x8000, y2) &&
             e3 == Eight(a, 0x80, y3)
    ensures Flat(a, b) == e0 ^ (e1 ^ (e2 ^ e3))
  {
    hide Eight, X8, Add;
    AddIs(e2, e3);
    AddIs(e1, Add(e2, e3));
    AddIs(e0, Add(e1, Add(e2, e3)));
    SumIs(e0, e1, e2, e3, Add(e2, e3), Add(e1, Add(e2, e3)), Add(e0, Add(e1, Add(e2, e3))));
  }

  lemma SumIs(e0: bv64, e1: bv64, e2: bv64, e3: bv64, s2: bv64, s1: bv64, s0: bv64)
    requires s2 == e2 ^ e3 && s1 == e1 ^ s2 && s0 == e0 ^ s1
    ensures s0 == e0 ^ (e1 ^ (e2 ^ e3))
  {
  }

  /** x^(2^k) for k < 32. */
  const X2N: seq<bv64> := [
    0x40000000, 0x20000000, 0x08000000, 0x00800000, 0x00008000, 0xedb88320, 0xb1e6b092, 0xa06a2517,
    0xed627dae, 0x88d14467, 0xd7bbfe6a, 0xec447f11, 0x8e7ea170, 0x6427800e, 0x4d47bae0, 0x09fe548f,
    0x83852d0f, 0x30362f1a, 0x7b5a9cc3, 0x31fec169, 0x9fec022a, 0x6c8dedc4, 0x15d6874d, 0x5fde7a4e,
    0xbad90e37, 0x2e4e5eef, 0x4eaba214, 0xa8a472c0, 0x429a969e, 0x148d302a, 0xc40ba6d0, 0xc4e22c3c
  ]

  lemma Squares0()
    ensures Flat(0x40000000, 0x40000000) == 0x20000000
    ensures Flat(0x20000000, 0x20000000) == 0x08000000
  {
    hide Flat;
    FlatOf(0x40000000, 0x40000000, 0x400000, 0x4000, 0x40,
           0x20000000, 0x0, 0x0, 0x0);
    FlatOf(0x20000000, 0x20000000, 0x200000, 0x2000, 0x20,
           0x8000000, 0x0, 0x0, 0x0);
  }

  lemma Squares1()
    ensures Flat(0x08000000, 0x08000000) == 0x00800000
    ensures Flat(0x00800000, 0x00800000) == 0x00008000
  {
    hide Flat;
    FlatOf(0x08000000, 0x08000000, 0x80000, 0x800, 0x8,
           0x800000, 0x0, 0x0, 0x0);
    FlatOf(0x00800000, 0x00800000, 0x8000, 0x80, 0xedb88320,
           0x0, 0x8000, 0x0, 0x0);
  }

  lemma Squares2()
    ensures Flat(0x00008000, 0x00008000) == 0xedb88320
    ensures Flat(0xedb88320, 0xedb88320) == 0xb1e6b092
  {
    hide Flat;
    FlatOf(0x00008000, 0x00008000, 0x80, 0xedb88320, 0x3b83984b,
           0x0, 0x0, 0xedb88320, 0x0);
    FlatOf(0xedb88320, 0xedb88320, 0x3b83984b, 0xe1351b80, 0xed59b63b,
           0xdebb9ec5, 0x2c1c24b0, 0xe373a5d9, 0xa032af3e);
  }

  lemma Squares3()
    ensures Flat(0xb1e6b092, 0xb1e6b092) == 0xa06a2517
    ensures Flat(0xa06a2517, 0xa06a2517) == 0xed627dae
  {
    hide Flat;
    FlatOf(0xb1e6b092, 0xb1e6b092, 0x1eb014d8, 0x8816eaf2, 0x533b85da,
           0x2da721a4, 0xc01df89f, 0x20754fa0, 0x6da5b38c);
    FlatOf(0xa06a2517, 0xa06a2517, 0x8373efe2, 0x4e87f0bb, 0x5cfdedf4,
           0x13146ee2, 0x5eea55b2, 0xbb428015, 0x1bdec6eb);
  }

  lemma Squares4()
    ensures Flat(0xed627dae, 0xed627dae) == 0x88d14467
    ensures Flat(0x88d14467, 0x88d14467) == 0xd7bbfe6a
  {
    hide Flat;
    FlatOf(0xed627dae, 0xed627dae, 0x3183ec92, 0x1e307184, 0xeacb7748,
           0xd7862165, 0x81d8485d, 0xa4ada4ae, 0x7a2289f1);
    FlatOf(0x88d14467, 0x88d14467, 0xd35e25bf, 0x5b0df038, 0x2859b56e,
           0xd059211d, 0x5b3372ff, 0xb43a552d, 0xe8ebf8a5);
  }

  lemma Squares5()
    ensures Flat(0xd7bbfe6a, 0xd7bbfe6a) == 0xec447f11
    ensures Flat(0xec447f11, 0xec447f11) == 0x8e7ea170
  {
    hide Flat;
    FlatOf(0xd7bbfe6a, 0xd7bbfe6a, 0xadb033b8, 0xc5178b8d, 0x93cce816,
           0xe6d91417, 0x87eb8ad7, 0x2eaa6940, 0xa3dc8891);
    FlatOf(0xec447f11, 0xec447f11, 0x6a5c648d, 0x9363a3f9, 0xc4f2291b,
           0xcd61e292, 0x98adbb28, 0x40adad7a, 0x9b1f55b0);
  }

  lemma Squares6()
    ensures Flat(0x8e7ea170, 0x8e7ea170) == 0x6427800e
    ensures Flat(0x6427800e, 0x6427800e) == 0x4d47bae0
  {
    hide Flat;
    FlatOf(0x8e7ea170, 0x8e7ea170, 0x508b0f9d, 0x8eee64f6, 0x5450b94d,
           0xf60f0579, 0x2608d82, 0xe84c0c71, 0x78040484);
    FlatOf(0x6427800e, 0x6427800e, 0xe7dc0a87, 0x733bca89, 0x9417004e,
           0x9586ee18, 0x7c4621ac, 0x733bca89, 0xd7bcbfdd);
  }

  lemma Squares7()
    ensures Flat(0x4d47bae0, 0x4d47bae0) == 0x09fe548f
    ensures Flat(0x09fe548f, 0x09fe548f) == 0x83852d0f
  {
    hide Flat;
    FlatOf(0x4d47bae0, 0x4d47bae0, 0xa047a5c2, 0x75cae439, 0x5f7042ec,
           0xbbe3d6cc, 0xaf59a17c, 0x7a50501e, 0x67147321);
    FlatOf(0x09fe548f, 0x09fe548f, 0x7d0e60e5, 0xd01d1897, 0x6ebb1bff,
           0x473ed69e, 0xb2a96733, 0xfc859d7b, 0x8a9701d9);
  }

  lemma Squares8()
    ensures Flat(0x83852d0f, 0x83852d0f) == 0x30362f1a
    ensures Flat(0x30362f1a, 0x30362f1a) == 0x7b5a9cc3
  {
    hide Flat;
    FlatOf(0x83852d0f, 0x83852d0f, 0x903c98bc, 0xc247c33f, 0xb6a46afe,
           0x55ec7205, 0x6b491e3e, 0x19212bda, 0x17b268fb);
    FlatOf(0x30362f1a, 0x30362f1a, 0xfd52cf55, 0x1bfcf7b4, 0xcc178b62,
           0x916f8c95, 0x30e06b37, 0x6277c6dc, 0xb8a2bdbd);
  }

  lemma Squares9()
    ensures Flat(0x7b5a9cc3, 0x7b5a9cc3) == 0x31fec169
    ensures Flat(0x31fec169, 0x31fec169) == 0x9fec022a
  {
    hide Flat;
    FlatOf(0x7b5a9cc3, 0x7b5a9cc3, 0x216c996, 0x196e20b8, 0xc5a3559e,
           0x3a64b615, 0xb206f068, 0x6dc23631, 0xd45eb125);
    FlatOf(0x31fec169, 0x31fec169, 0x345f273d, 0x585c1336, 0xcfe2c98a,
           0x2f4c4755, 0xf8ba019e, 0x30c68ff8, 0x78dccb19);
  }

  lemma Squares10()
    ensures Flat(0x9fec022a, 0x9fec022a) == 0x6c8dedc4
    ensures Flat(0x6c8dedc4, 0x6c8dedc4) == 0x15d6874d
  {
    hide Flat;
    FlatOf(0x9fec022a, 0x9fec022a, 0xdb2425d4, 0x816532e8, 0xae500f78,
           0xfd3a47eb, 0x2b1ebf40, 0xd4d33723, 0x6e7a224c);
    FlatOf(0x6c8dedc4, 0x6c8dedc4, 0x9c658b44, 0x712de002, 0xee7f4ccc,
           0x657b5d79, 0x3ea95ef6, 0x9d85f556, 0xd3817194);
  }

  lemma Squares11()
    ensures Flat(0x15d6874d, 0x15d6874d) == 0x5fde7a4e
    ensures Flat(0x5fde7a4e, 0x5fde7a4e) == 0xbad90e37
  {
    hide Flat;
    FlatOf(0x15d6874d, 0x15d6874d, 0x878ebaa, 0x360b321d, 0x633067eb,
           0x875af905, 0xc8939c47, 0x8ba57fc, 0x18ad48f0);
    FlatOf(0x5fde7a4e, 0x5fde7a4e, 0x913bb2ed, 0xde2aa577, 0xcebfce3a,
           0x98071500, 0xf687f957, 0x4476e3a1, 0x902f01c1);
  }

  lemma Squares12()
    ensures Flat(0xbad90e37, 0xbad90e37) == 0x2e4e5eef
    ensures Flat(0x2e4e5eef, 0x2e4e5eef) == 0x4eaba214
  {
    hide Flat;
    FlatOf(0xbad90e37, 0xbad90e37, 0xb8077c01, 0x77bf37ea, 0x40a8b451,
           0x6e7c57ac, 0xdc9b8619, 0x60a82fd8, 0xfc01a082);
    FlatOf(0x2e4e5eef, 0x2e4e5eef, 0x309bb1b7, 0x5535bd9e, 0x17e28bfe,
           0xb26c0fdc, 0xed6087d6, 0xfe9f6265, 0xef38487b);
  }

  lemma Squares13()
    ensures Flat(0x4eaba214, 0x4eaba214) == 0xa8a472c0
    ensures Flat(0xa8a472c0, 0xa8a472c0) == 0x429a969e
  {
    hide Flat;
    FlatOf(0x4eaba214, 0x4eaba214, 0x1a947fdf, 0x16765b3a, 0xc61aafe9,
           0xeb912b3f, 0x4e74cde5, 0x50dbfdf2, 0x5d9a69e8);
    FlatOf(0xa8a472c0, 0xa8a472c0, 0x9bcc66c2, 0x75f16ffa, 0x5d1dea6d,
           0x8807295c, 0x49ee8f00, 0x1d58acb9, 0x9e2b9c7b);
  }

  lemma Squares14()
    ensures Flat(0x429a969e, 0x429a969e) == 0x148d302a
    ensures Flat(0x148d302a, 0x148d302a) == 0xc40ba6d0
  {
    hide Flat;
    FlatOf(0x429a969e, 0x429a969e, 0x17f524d5, 0xf6aed37f, 0xc04cc27e,
           0x7e99d81b, 0xc5906160, 0x4b73e2a7, 0xe4f76bf6);
    FlatOf(0x148d302a, 0x148d302a, 0xdbaf44e6, 0x49b2e809, 0x79950a4c,
           0x1f82dfe0, 0x28c64b69, 0x56e8865b, 0xa5a7b402);
  }

  lemma Squares15()
    ensures Flat(0xc40ba6d0, 0xc40ba6d0) == 0xc4e22c3c
    ensures Flat(0xc4e22c3c, 0xc4e22c3c) == 0x40000000
  {
    hide Flat;
    FlatOf(0xc40ba6d0, 0xc40ba6d0, 0x8617d972, 0xbe8d07c9, 0xe206f713,
           0x4d96abae, 0x2c3416b, 0xa4f876f9, 0x2f4fb000);
    FlatOf(0xc4e22c3c, 0xc4e22c3c, 0x2fab9eab, 0x412bd1fe, 0x5a44f4ca,
           0xbec93b, 0x9a96b67d, 0xe65e84ab, 0x3c76fbed);
  }

  lemma FlatSquares(k: nat)
    requires k < 32
    ensures Flat(X2N[k], X2N[k]) == X2N[if k < 31 then k + 1 else 0]
  {
    hide Flat;
    Squares0();
    Squares1();
    Squares2();
    Squares3();
    Squares4();
    Squares5();
    Squares6();
    Squares7();
    Squares8();
    Squares9();
    Squares10();
    Squares11();
    Squares12();
    Squares13();
    Squares14();
    Squares15();
  }

  /** Squaring goes round the table. */
  lemma Squared(k: nat)
    requires k < 32
    ensures Mul(X2N[k], X2N[k]) == X2N[if k < 31 then k + 1 else 0]
  {
    hide Flat, Mul;
    MulFlat(X2N[k], X2N[k]);
    FlatSquares(k);
  }
}
