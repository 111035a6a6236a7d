/**
 The CRC register as the remainder of a division of polynomials over GF(2).

 A polynomial is the set of the exponents whose coefficient is one.
 */
module CrcDivision {
  import opened Bits
  import opened CrcSpec
  import opened CrcAlgebra

  type Poly = set<nat>

  // ---------- polynomials ----------

  function Sum(p: Poly, q: Poly): Poly {
    (p - q) + (q - p)
  }

  /** x p(x) */
  function TimesOneX(p: Poly): Poly {
    set e | e in p :: e + 1
  }

  /** x^n p(x) */
  function Raise(p: Poly, n: nat): Poly
    decreases n
  {
    if n == 0 then p else Raise(TimesOneX(p), n - 1)
  }

  ghost predicate Below(p: Poly, n: nat) {
    forall e :: e in p ==> e < n
  }

  lemma SumLaws(p: Poly, q: Poly, r: Poly)
    ensures Sum(p, q) == Sum(q, p) && Sum(p, {}) == p && Sum(p, p) == {}
    ensures Sum(Sum(p, q), r) == Sum(p, Sum(q, r))
  {
  }

  lemma SumSwap(p: Poly, q: Poly, r: Poly, s: Poly)
    ensures Sum(Sum(p, q), Sum(r, s)) == Sum(Sum(p, r), Sum(q, s))
  {
    hide Sum;
    SumLaws(p, q, Sum(r, s));
    SumLaws(q, r, s);
    SumLaws(r, q, s);
    SumLaws(p, r, Sum(q, s));
  }

  lemma TimesOneXSum(p: Poly, q: Poly)
    ensures TimesOneX(Sum(p, q)) == Sum(TimesOneX(p), TimesOneX(q))
  {
    forall e ensures e in TimesOneX(Sum(p, q)) <==> e in Sum(TimesOneX(p), TimesOneX(q)) {
      assert e in TimesOneX(p) <==> e - 1 in p;
      assert e in TimesOneX(q) <==> e - 1 in q;
      assert e in TimesOneX(Sum(p, q)) <==> e - 1 in Sum(p, q);
    }
  }

  lemma {:induction false} RaiseSum(p: Poly, q: Poly, n: nat)
    ensures Raise(Sum(p, q), n) == Sum(Raise(p, n), Raise(q, n))
    decreases n
  {
    hide Sum, TimesOneX;
    if n > 0 {
      TimesOneXSum(p, q);
      RaiseSum(TimesOneX(p), TimesOneX(q), n - 1);
    }
  }

  lemma {:induction false} RaisePlus(p: Poly, m: nat, n: nat)
    ensures Raise(p, m + n) == Raise(Raise(p, m), n)
    decreases m
  {
    hide TimesOneX;
    if m > 0 {
      RaisePlus(TimesOneX(p), m - 1, n);
    }
  }

  // ---------- the divisor ----------

  /** p(x), of degree 32. */
  const DIVISOR: Poly := {0, 1, 2, 4, 5, 7, 8, 10, 11, 12, 16, 22, 23, 26, 32}

  /** q(x) p(x), the coefficients of q(x) being given from the highest down. */
  function Product(q: seq<bool>): Poly {
    if q == [] then {}
    else
      var p := TimesOneX(Product(q[..|q| - 1]));
      if q[|q| - 1] then Sum(p, DIVISOR) else p
  }

  /** p and q leave the same remainder: they differ by a multiple of p(x). */
  ghost predicate Congruent(p: Poly, q: Poly) {
    exists c :: Sum(p, q) == Product(c)
  }

  lemma ProductNext(q: seq<bool>, b: bool)
    ensures Product(q + [b]) == Sum(TimesOneX(Product(q)), if b then DIVISOR else {})
  {
    hide TimesOneX;
    assert (q + [b])[..|q|] == q;
    var p := TimesOneX(Product(q));
    SumLaws(p, {}, {});
  }

  lemma NoProduct()
    ensures Product([]) == {} && TimesOneX({}) == {}
  {
  }

  lemma {:induction false} LeadingZero(q: seq<bool>)
    ensures Product([false] + q) == Product(q)
    decreases |q|
  {
    hide Product, TimesOneX, Sum;
    NoProduct();
    SumLaws({}, {}, {});
    if q == [] {
      assert [false] + q == [] + [false];
      ProductNext([], false);
    } else {
      var n := |q| - 1;
      LeadingZero(q[..n]);
      ProductNext(q[..n], q[n]);
      ProductNext([false] + q[..n], q[n]);
      assert q == q[..n] + [q[n]];
      assert [false] + q == [false] + q[..n] + [q[n]];
    }
  }

  /** A quotient of any greater length. */
  lemma {:induction false} Padded(q: seq<bool>, n: nat) returns (r: seq<bool>)
    requires |q| <= n
    ensures |r| == n && Product(r) == Product(q)
    decreases n - |q|
  {
    if |q| == n {
      r := q;
    } else {
      LeadingZero(q);
      r := Padded([false] + q, n);
    }
  }

  lemma {:induction false} ProductSum(q: seq<bool>, r: seq<bool>) returns (s: seq<bool>)
    requires |q| == |r|
    ensures Product(s) == Sum(Product(q), Product(r))
    decreases |q|
  {
    hide Product, TimesOneX, Sum;
    NoProduct();
    SumLaws({}, {}, {});
    if q == [] {
      s := [];
    } else {
      var n := |q| - 1;
      var t := ProductSum(q[..n], r[..n]);
      assert q == q[..n] + [q[n]] && r == r[..n] + [r[n]];
      ProductNext(q[..n], q[n]);
      ProductNext(r[..n], r[n]);
      ProductNext(t, q[n] != r[n]);
      var x, y := if q[n] then DIVISOR else {}, if r[n] then DIVISOR else {};
      SumLaws(x, y, {});
      SumLaws(DIVISOR, {}, {});
      TimesOneXSum(Product(q[..n]), Product(r[..n]));
      SumSwap(TimesOneX(Product(q[..n])), x, TimesOneX(Product(r[..n])), y);
      s := t + [q[n] != r[n]];
    }
  }

  // ---------- congruence ----------

  lemma CongruentSame(p: Poly)
    ensures Congruent(p, p)
  {
    SumLaws(p, p, p);
    NoProduct();
  }

  /** p differs from q by q(x) p(x) with the quotient c. */
  lemma CongruentBy(p: Poly, q: Poly, c: seq<bool>)
    requires p == Sum(q, Product(c))
    ensures Congruent(p, q)
  {
    hide Sum, Product;
    SumLaws(q, Product(c), q);
    SumLaws(Product(c), q, q);
    SumLaws(Product(c), {}, {});
    SumLaws(q, q, q);
  }

  lemma CongruentSum(p: Poly, q: Poly, r: Poly, s: Poly)
    requires Congruent(p, q) && Congruent(r, s)
    ensures Congruent(Sum(p, r), Sum(q, s))
  {
    hide Sum, Product;
    var c :| Sum(p, q) == Product(c);
    var d :| Sum(r, s) == Product(d);
    var n := if |c| < |d| then |d| else |c|;
    var c' := Padded(c, n);
    var d' := Padded(d, n);
    var e := ProductSum(c', d');
    SumSwap(p, r, q, s);
  }

  lemma CongruentTrans(p: Poly, q: Poly, r: Poly)
    requires Congruent(p, q) && Congruent(q, r)
    ensures Congruent(p, r)
  {
    hide Sum, Congruent;
    CongruentSum(p, q, q, r);
    SumLaws(q, r, r);
    CongruentSame(q);
    CongruentSum(Sum(p, q), Sum(q, r), q, q);
    Cancel(p, q);
    Cancel(r, q);
    SumLaws(q, r, {});
  }

  lemma Cancel(p: Poly, q: Poly)
    ensures Sum(Sum(p, q), q) == p
  {
  }

  lemma CongruentTimesX(p: Poly, q: Poly)
    requires Congruent(p, q)
    ensures Congruent(TimesOneX(p), TimesOneX(q))
  {
    hide Sum, Product, TimesOneX;
    var c :| Sum(p, q) == Product(c);
    TimesOneXSum(p, q);
    ProductNext(c, false);
    SumLaws(TimesOneX(Product(c)), {}, {});
  }

  lemma {:induction false} CongruentRaise(p: Poly, q: Poly, n: nat)
    requires Congruent(p, q)
    ensures Congruent(Raise(p, n), Raise(q, n))
    decreases n
  {
    hide Congruent, TimesOneX;
    if n > 0 {
      CongruentTimesX(p, q);
      CongruentRaise(TimesOneX(p), TimesOneX(q), n - 1);
    }
  }

  /** The greatest exponent. */
  ghost predicate Degree(p: Poly, n: nat) {
    n in p && Below(p, n + 1)
  }

  /** A multiple of p(x) is zero or has degree 32 at least. */
  lemma {:induction false} ProductDegree(q: seq<bool>) returns (n: nat)
    ensures Product(q) == {} || (n >= 32 && Degree(Product(q), n))
    decreases |q|
  {
    hide Product, TimesOneX, Sum, Degree, DIVISOR;
    n := 32;
    NoProduct();
    if q != [] {
      var k := |q| - 1;
      var m := ProductDegree(q[..k]);
      var p := Product(q[..k]);
      assert q == q[..k] + [q[k]];
      ProductNext(q[..k], q[k]);
      DivisorDegree();
      if p == {} {
        SumLaws(DIVISOR, {}, {});
        SumLaws({}, {}, {});
      } else {
        n := m + 1;
        RaisedDegree(p, m);
        SumDegree(TimesOneX(p), m + 1, if q[k] then DIVISOR else {});
      }
    }
  }

  lemma DivisorDegree()
    ensures Degree(DIVISOR, 32)
    ensures forall n: nat :: n > 32 ==> Below(DIVISOR, n) && Below({}, n)
  {
  }

  lemma RaisedDegree(p: Poly, m: nat)
    requires Degree(p, m)
    ensures Degree(TimesOneX(p), m + 1)
  {
  }

  lemma SumDegree(p: Poly, n: nat, q: Poly)
    requires Degree(p, n) && Below(q, n)
    ensures Degree(Sum(p, q), n)
  {
  }

  /** There is only one remainder. */
  lemma RemainderUnique(p: Poly, q: Poly)
    requires Congruent(p, q) && Below(p, 32) && Below(q, 32)
    ensures p == q
  {
    var c :| Sum(p, q) == Product(c);
    var n := ProductDegree(c);
    assert Below(Sum(p, q), 32);
    Cancel(p, q);
    SumLaws(q, {}, {});
  }

  // ---------- the register ----------

  predicate Odd(r: bv64) {
    r & 1 == 1
  }

  /** The polynomial in the low n bits of r, its highest power in the lowest bit. */
  function PolyOf(r: bv64, n: nat): Poly
    decreases n
  {
    if n == 0 then {} else (if Odd(r) then {n - 1} else {}) + PolyOf(Half(r), n - 1)
  }

  lemma {:induction false} PolyOfBelow(r: bv64, n: nat)
    ensures Below(PolyOf(r, n), n)
    decreases n
  {
    if n > 0 {
      PolyOfBelow(Half(r), n - 1);
    }
  }

  lemma {:induction false} PolyOfSum(a: bv64, b: bv64, n: nat)
    ensures PolyOf(Add(a, b), n) == Sum(PolyOf(a, n), PolyOf(b, n))
    decreases n
  {
    hide Add;
    if n > 0 {
      HalfAdd(a, b);
      OddAdd(a, b);
      PolyOfBelow(Half(a), n - 1);
      PolyOfBelow(Half(b), n - 1);
      PolyOfSum(Half(a), Half(b), n - 1);
    }
  }

  /** r has no bits beyond the low n. */
  predicate Narrow(r: bv64, n: nat)
    decreases n
  {
    if n == 0 then r == 0 else Narrow(Half(r), n - 1)
  }

  /** A zero above the highest bit makes every power one greater. */
  lemma {:induction false} Widen(r: bv64, n: nat)
    requires Narrow(r, n)
    ensures PolyOf(r, n + 1) == TimesOneX(PolyOf(r, n))
    decreases n
  {
    hide TimesOneX, PolyOf;
    NoProduct();
    PolyOfFirst(r, n + 1);
    if n == 0 {
      PolyOfNone(r);
      PolyOfNone(Half(r));
    } else {
      PolyOfFirst(r, n);
      Widen(Half(r), n - 1);
      TimesOneXUnion(if Odd(r) then {n - 1} else {}, PolyOf(Half(r), n - 1));
      TimesOneXPower(n - 1);
    }
  }

  lemma PolyOfNone(r: bv64)
    ensures PolyOf(r, 0) == {}
  {
  }

  lemma PolyOfFirst(r: bv64, n: nat)
    requires n > 0
    ensures PolyOf(r, n) == (if Odd(r) then {n - 1} else {}) + PolyOf(Half(r), n - 1)
  {
  }

  lemma TimesOneXUnion(p: Poly, q: Poly)
    ensures TimesOneX(p + q) == TimesOneX(p) + TimesOneX(q)
  {
  }

  lemma TimesOneXPower(n: nat)
    ensures TimesOneX({n}) == {n + 1}
  {
  }

  lemma {:induction false} WidenBy(r: bv64, n: nat, k: nat)
    requires Narrow(r, n)
    ensures PolyOf(r, n + k) == Raise(PolyOf(r, n), k)
    decreases k
  {
    hide TimesOneX, PolyOf;
    if k > 0 {
      Widen(r, n);
      NarrowNext(r, n);
      WidenBy(r, n + 1, k - 1);
    }
  }

  lemma {:induction false} NarrowNext(r: bv64, n: nat)
    requires Narrow(r, n)
    ensures Narrow(r, n + 1)
    decreases n
  {
    if n > 0 {
      NarrowNext(Half(r), n - 1);
    } else {
      assert Half(0) == 0;
    }
  }

  /** n ones. */
  function Ones(n: nat): bv64
    requires n <= 32
    decreases 32 - n
  {
    if n == 32 then ONES else Half(Ones(n + 1))
  }

  lemma SomeOnes()
    ensures Ones(31) == 0x7fff_ffff && Ones(8) == 0xff && Ones(0) == 0
  {
    assert Ones(24) == 0xff_ffff;
    assert Ones(16) == 0xffff;
  }

  lemma {:induction false} NarrowIf(r: bv64, n: nat)
    requires n <= 32 && AtMost(r, Ones(n))
    ensures Narrow(r, n)
    decreases n
  {
    hide Ones, Half, AtMost;
    if n == 0 {
      SomeOnes();
      AtMostZero(r);
    } else {
      FewerOnes(n);
      ShiftMono(r, Ones(n));
      NarrowIf(Half(r), n - 1);
    }
  }

  lemma FewerOnes(n: nat)
    requires 0 < n <= 32
    ensures Ones(n - 1) == Half(Ones(n))
  {
  }

  lemma ShiftMono(a: bv64, b: bv64)
    requires AtMost(a, b)
    ensures AtMost(Half(a), Half(b))
  {
  }

  lemma AtMostZero(a: bv64)
    requires AtMost(a, 0)
    ensures a == 0
  {
  }

  lemma PolyIs()
    ensures PolyOf(POLY, 32) == DIVISOR - {32}
  {
    PolyNext();
    assert PolyOf(0xedb8_8320, 32) == {26} + PolyOf(0xed_b883, 24);
  }

  lemma PolyNext()
    ensures PolyOf(0xed_b883, 24) == {0, 1, 2, 4, 5, 7, 8, 10, 11, 12, 16, 22, 23}
  {
    PolyHigh();
    assert PolyOf(0xed_b883, 24) == {16, 22, 23} + PolyOf(0xedb8, 16);
  }

  lemma PolyHigh()
    ensures PolyOf(0xedb8, 16) == {0, 1, 2, 4, 5, 7, 8, 10, 11, 12}
  {
    assert PolyOf(0xed, 8) == {0, 1, 2, 4, 5, 7};
    assert PolyOf(0xedb8, 16) == {8, 10, 11, 12} + PolyOf(0xed, 8);
  }

  /** One step of the register divides: x r(x) is the new register, and once more p(x) if a one was shifted out. */
  lemma StepDivides(r: bv64)
    requires r <= ONES
    ensures Congruent(TimesOneX(PolyOf(r, 32)), PolyOf(TimesX(r), 32))
  {
    hide TimesOneX, PolyOf, Product, DIVISOR, Congruent, Sum, Half, Odd, Add;
    var p := PolyOf(Half(r), 32);
    HalfNarrow(r);
    Widen(Half(r), 31);
    PolyOfFirst(r, 32);
    StepIs(r);
    NoProduct();
    TimesOneXUnion(if Odd(r) then {31} else {}, PolyOf(Half(r), 31));
    if Odd(r) {
      TimesOneXPower(31);
      PolyOfSum(Half(r), POLY, 32);
      PolyIs();
      PolyOfBelow(Half(r), 32);
      ShiftedOut(p);
      OnceDivisor();
      CongruentBy({32} + p, Sum(p, DIVISOR - {32}), [true]);
    } else {
      NoneUnion(p);
      CongruentSame(p);
    }
  }

  lemma NoneUnion(p: Poly)
    ensures {} + p == p
  {
  }

  lemma StepIs(r: bv64)
    ensures TimesX(r) == if Odd(r) then Add(Half(r), POLY) else Half(r)
  {
  }

  lemma HalfNarrow(r: bv64)
    requires r <= ONES
    ensures Narrow(Half(r), 31)
  {
    SomeOnes();
    NarrowIf(Half(r), 31);
  }

  lemma ShiftedOut(p: Poly)
    requires Below(p, 32)
    ensures {32} + p == Sum(Sum(p, DIVISOR - {32}), DIVISOR)
  {
  }

  lemma OnceDivisor()
    ensures Product([true]) == DIVISOR
  {
    hide DIVISOR;
    NoProduct();
    assert [] + [true] == [true];
    ProductNext([], true);
    SumLaws({}, DIVISOR, {});
    SumLaws(DIVISOR, {}, {});
  }

  lemma {:induction false} StepsDivide(r: bv64, n: nat)
    requires r <= ONES
    ensures Congruent(Raise(PolyOf(r, 32), n), PolyOf(TimesXn(r, n), 32))
    decreases n
  {
    hide TimesOneX, PolyOf, Congruent, TimesX;
    if n == 0 {
      CongruentSame(PolyOf(r, 32));
    } else {
      StepDivides(r);
      StepSmall(r);
      CongruentRaise(TimesOneX(PolyOf(r, 32)), PolyOf(TimesX(r), 32), n - 1);
      StepsDivide(TimesX(r), n - 1);
      CongruentTrans(Raise(PolyOf(r, 32), n), Raise(PolyOf(TimesX(r), 32), n - 1), PolyOf(TimesXn(r, n), 32));
    }
  }

  lemma StepSmall(r: bv64)
    requires r <= ONES
    ensures TimesX(r) <= ONES
  {
  }

  // ---------- the message ----------

  /** A byte, its lowest bit being the first and so the highest power. */
  function BytePoly(b: byte): Poly {
    PolyOf(Word(b), 8)
  }

  /** A message, its first bit being the highest power. */
  function MessagePoly(data: seq<byte>): Poly {
    if data == [] then {}
    else Sum(Raise(MessagePoly(data[..|data| - 1]), 8), BytePoly(data[|data| - 1]))
  }

  /** What is divided: the first register x^n, n being the bits of the message, and the message x^32. */
  function Dividend(r: bv64, data: seq<byte>): Poly {
    Sum(Raise(PolyOf(r, 32), 8 * |data|), Raise(MessagePoly(data), 32))
  }

  /** rem is what the division of p by p(x) leaves. */
  ghost predicate Remainder(p: Poly, rem: Poly) {
    Congruent(p, rem) && Below(rem, 32)
  }

  lemma WordPoly(b: byte)
    ensures PolyOf(Word(b), 32) == Raise(BytePoly(b), 24)
  {
    hide Word, PolyOf, Raise;
    SomeOnes();
    NarrowIf(Word(b), 8);
    WidenBy(Word(b), 8, 24);
  }

  /** A byte goes in at x^24 and is moved up by eight. */
  lemma FeedDivides(r: bv64, b: byte)
    requires r <= ONES
    ensures Congruent(Sum(Raise(PolyOf(r, 32), 8), Raise(BytePoly(b), 32)), PolyOf(Feed(r, b), 32))
  {
    hide PolyOf, Congruent, TimesXn, Raise, Sum, Word, BytePoly, Add;
    PolyOfSum(r, Word(b), 32);
    WordPoly(b);
    RaiseSum(PolyOf(r, 32), PolyOf(Word(b), 32), 8);
    RaisePlus(BytePoly(b), 24, 8);
    AddWordSmall(r, b);
    StepsDivide(Add(r, Word(b)), 8);
  }

  lemma AddWordSmall(r: bv64, b: byte)
    requires r <= ONES
    ensures Add(r, Word(b)) <= ONES
  {
    AddSmall(r, Word(b));
  }

  /** One more byte in the message moves what is divided up by eight. */
  lemma DividendNext(r: bv64, data: seq<byte>, b: byte)
    ensures Dividend(r, data + [b]) == Sum(Raise(Dividend(r, data), 8), Raise(BytePoly(b), 32))
  {
    hide PolyOf, Raise, Sum, BytePoly, MessagePoly;
    var a, m := Raise(PolyOf(r, 32), 8 * |data|), MessagePoly(data);
    MessageNext(data, b);
    RaisePlus(PolyOf(r, 32), 8 * |data|, 8);
    RaiseSum(Raise(m, 8), BytePoly(b), 32);
    RaisePlus(m, 8, 32);
    RaisePlus(m, 32, 8);
    RaiseSum(a, Raise(m, 32), 8);
    SumLaws(Raise(a, 8), Raise(Raise(m, 32), 8), Raise(BytePoly(b), 32));
  }

  lemma MessageNext(data: seq<byte>, b: byte)
    ensures MessagePoly(data + [b]) == Sum(Raise(MessagePoly(data), 8), BytePoly(b))
  {
    hide Raise, Sum, BytePoly;
    assert (data + [b])[..|data|] == data;
  }

  /** The register is what the division leaves. */
  lemma {:induction false} RegisterDivides(r: bv64, data: seq<byte>)
    requires r <= ONES
    ensures Congruent(Dividend(r, data), PolyOf(Register(r, data), 32))
    decreases |data|
  {
    hide PolyOf, Congruent, Raise, Sum, BytePoly, MessagePoly, Feed, Dividend;
    if data == [] {
      NoMessage(r);
      CongruentSame(PolyOf(r, 32));
    } else {
      var n := |data| - 1;
      var q, b := Register(r, data[..n]), data[n];
      assert data == data[..n] + [b];
      RegisterDivides(r, data[..n]);
      RegisterSmall(r, data[..n]);
      RegisterConcat(r, data[..n], [b]);
      RegisterOne(q, b);
      DividendNext(r, data[..n], b);
      FeedDivides(q, b);
      CongruentRaise(Dividend(r, data[..n]), PolyOf(q, 32), 8);
      CongruentSame(Raise(BytePoly(b), 32));
      CongruentSum(Raise(Dividend(r, data[..n]), 8), Raise(PolyOf(q, 32), 8),
                   Raise(BytePoly(b), 32), Raise(BytePoly(b), 32));
      CongruentTrans(Dividend(r, data), Sum(Raise(PolyOf(q, 32), 8), Raise(BytePoly(b), 32)), PolyOf(Feed(q, b), 32));
    }
  }

  lemma RegisterOne(r: bv64, b: byte)
    ensures Register(r, [b]) == Feed(r, b)
  {
    hide Feed;
    assert [b][1..] == [];
  }

  lemma NoMessage(r: bv64)
    ensures Dividend(r, []) == PolyOf(r, 32) && Register(r, []) == r
  {
    hide PolyOf, Sum;
    NothingRaised(32);
    SumLaws(PolyOf(r, 32), {}, {});
  }

  lemma {:induction false} NothingRaised(n: nat)
    ensures Raise({}, n) == {}
    decreases n
  {
    hide TimesOneX;
    NoProduct();
    if n > 0 {
      NothingRaised(n - 1);
    }
  }

  /**
   A CRC, complemented, is the one remainder that the division by p(x) leaves of the message times
   x^32 and the complement of the first CRC times x^n.
   */
  lemma CrcIsRemainder(crc: bv32, data: seq<byte>)
    ensures Remainder(Dividend(ToRegister(crc), data), PolyOf(ToRegister(Crc(crc, data)), 32))
    ensures forall rem :: Remainder(Dividend(ToRegister(crc), data), rem) ==>
            rem == PolyOf(ToRegister(Crc(crc, data)), 32)
  {
    hide PolyOf, Dividend, Congruent, Register, ToRegister, FromRegister, Below;
    var p, r := Dividend(ToRegister(crc), data), Register(ToRegister(crc), data);
    ToRegisterSmall(crc);
    RegisterSmall(ToRegister(crc), data);
    FromToRegister(r);
    RegisterDivides(ToRegister(crc), data);
    PolyOfBelow(r, 32);
    forall rem | Remainder(p, rem) ensures rem == PolyOf(r, 32) {
      CongruentBack(p, rem);
      CongruentTrans(rem, p, PolyOf(r, 32));
      RemainderUnique(rem, PolyOf(r, 32));
    }
  }

  lemma CongruentBack(p: Poly, q: Poly)
    requires Congruent(p, q)
    ensures Congruent(q, p)
  {
    hide Sum;
    SumLaws(p, q, q);
  }
}
