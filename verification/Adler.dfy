/**
 adler32.c: the checksum with the modulo taken as seldom as 32-bit sums allow, the modulo without
 division, and the combination of checksums.
 */
module Adler {
  import opened Bits
  import opened AdlerSpec
  import opened Cost

  const NMAX := 5552

  // ---------- sums without reduction ----------

  function Plain(d: seq<byte>): nat {
    if d == [] then 0 else d[0] + Plain(d[1..])
  }

  lemma TimesNext(n: nat, x: nat)
    ensures Times(n + 1, x) == Times(n, x) + x && Times(0, x) == 0
  {
  }

  /** The sum of the sums of all beginnings. */
  function Double(d: seq<byte>): nat {
    if d == [] then 0 else Times(|d|, d[0]) + Double(d[1..])
  }

  lemma ModAdd(x: int, y: int)
    ensures (x % BASE + y) % BASE == (x + y) % BASE
  {
  }

  /** The definition, in closed form. */
  lemma {:induction false} SumsClosed(a: nat, b: nat, d: seq<byte>)
    requires d == [] ==> a < BASE && b < BASE
    ensures Sums(a, b, d).0 == (a + Plain(d)) % BASE
    ensures Sums(a, b, d).1 == (b + Times(|d|, a) + Double(d)) % BASE
    decreases |d|
  {
    hide Times, Sums, Plain, Double;
    PlainDouble(d);
    if d == [] {
      TimesNext(0, a);
      NoSums(a, b);
    } else {
      var n, x := |d| - 1, a + d[0];
      var a' := x % BASE;
      SumsStep(a, b, d);
      ghost var p, q := Plain(d[1..]), Double(d[1..]);
      SumsClosed(a', (b + a') % BASE, d[1..]);
      ModAdd(x, p);
      ClosedStep(a, b, d[0], n, a', q);
    }
  }

  lemma PlainDouble(d: seq<byte>)
    ensures Plain(d) == if d == [] then 0 else d[0] + Plain(d[1..])
    ensures Double(d) == if d == [] then 0 else Times(|d|, d[0]) + Double(d[1..])
  {
    hide Times;
  }

  lemma SumsStep(a: nat, b: nat, d: seq<byte>)
    requires d != []
    ensures var a' := (a + d[0]) % BASE; Sums(a, b, d) == Sums(a', (b + a') % BASE, d[1..])
  {
  }

  lemma ClosedStep(a: nat, b: nat, c: nat, n: nat, a': nat, r: nat)
    requires a' == (a + c) % BASE
    ensures ((b + a') % BASE + Times(n, a') + r) % BASE == (b + Times(n + 1, a) + (Times(n + 1, c) + r)) % BASE
  {
    hide Times;
    var q := (a + c) / BASE;
    TimesNext(n, a);
    TimesNext(n, c);
    TimesSplit(n, a, c, a', q);
    ModAdd(b + a', Times(n, a') + r);
    ModMultiple(b + a' + Times(n, a') + r, q + Times(n, q));
  }

  lemma TimesSplit(n: nat, a: nat, c: nat, a': nat, q: nat)
    requires a + c == a' + q * BASE
    ensures Times(n, a) + Times(n, c) == Times(n, a') + Times(n, q) * BASE
  {
    calc {
      n * a + n * c;
      n * (a + c);
      n * (a' + q * BASE);
      n * a' + n * (q * BASE);
      n * a' + n * q * BASE;
    }
  }

  lemma ModMultiple(x: int, q: int)
    ensures (x + q * BASE) % BASE == x % BASE
  {
  }

  // ---------- the modulo without division ----------

  /** CHOP: 65536 is 15 modulo BASE. */
  function Chop(a: nat): nat {
    a % 65536 + 15 * (a / 65536)
  }

  lemma ChopMod(a: nat)
    ensures Chop(a) % BASE == a % BASE
  {
    var q := a / 65536;
    assert a == a % 65536 + 15 * q + q * BASE;
    ModMultiple(Chop(a), q);
  }

  method Mod28(a: nat) returns (r: nat)
    requires a < 0x1000_0000
    ensures r == a % BASE
  {
    ChopMod(a);
    r := Chop(a);
    if r >= BASE {
      r := r - BASE;
    }
  }

  method Mod(a: u32) returns (r: nat)
    ensures r == a % BASE
  {
    ChopMod(a);
    r := Mod28(Chop(a));
  }

  lemma ChopLess(a: nat, q: nat)
    requires a < q * 65536
    ensures Chop(a) < 65536 + 15 * q
  {
  }

  /** 2^32 is 225 more than a multiple of BASE. */
  lemma HighPart(a: nat, low: nat, tmp: nat)
    requires a == 0x1_0000_0000 * tmp + low
    ensures (low + 225 * tmp) % BASE == a % BASE
  {
    assert a == low + 225 * tmp + tmp * 65551 * BASE;
    ModMultiple(low + 225 * tmp, tmp * 65551);
  }

  /** MOD63 */
  method Mod63(a: nat) returns (r: nat)
    requires a < 0x8000_0000_0000_0000
    ensures r == a % BASE
  {
    hide Chop;
    var tmp := a / 0x1_0000_0000;
    var low := a % 0x1_0000_0000;
    HighPart(a, low, tmp);
    r := low + 225 * tmp;
    ChopMod(r);
    ChopLess(r, 0x72_0000);
    ChopMod(Chop(r));
    ChopLess(Chop(r), 1712);
    r := Chop(Chop(r));
    if r >= BASE {
      r := r - BASE;
    }
  }

  // ---------- how many bytes before a modulo ----------

  function Tri(n: nat): nat {
    if n == 0 then 0 else n + Tri(n - 1)
  }

  lemma {:induction false} TriClosed(n: nat)
    ensures 2 * Tri(n) == n * (n + 1)
  {
    if n > 0 {
      TriClosed(n - 1);
    }
  }

  lemma {:induction false} TriMono(m: nat, n: nat)
    requires m <= n
    ensures Tri(m) <= Tri(n)
    decreases n
  {
    if m < n {
      TriMono(m, n - 1);
    }
  }

  lemma {:induction false} SumBounds(d: seq<byte>)
    ensures Plain(d) <= 255 * |d| && Double(d) <= 255 * Tri(|d|)
    decreases |d|
  {
    hide Times;
    if d != [] {
      SumBounds(d[1..]);
      Scale(|d|, d[0]);
    }
  }

  lemma Scale(n: nat, x: byte)
    ensures Times(n, x) <= 255 * n
  {
  }

  /** The largest second sum after n bytes. */
  function Largest(n: nat): nat {
    255 * Tri(n) + (n + 1) * (BASE - 1)
  }

  /** NMAX is the largest n for which the sums fit 32 bits. */
  lemma NmaxLargest(n: nat)
    ensures Largest(n) < 0x1_0000_0000 <==> n <= NMAX
  {
    TriClosed(NMAX);
    TriClosed(NMAX + 1);
    if n <= NMAX {
      TriMono(n, NMAX);
    } else {
      TriMono(NMAX + 1, n);
    }
  }

  /** After NMAX bytes there is room even for sums that were not reduced at first. */
  lemma RoomToSpare(n: nat)
    requires n <= NMAX
    ensures 255 * Tri(n) + (n + 1) * 65535 < 0x1_0000_0000
  {
    hide Tri;
    TriClosed(NMAX);
    TriMono(n, NMAX);
  }

  lemma FitsInWord(a: nat, b: nat, d: seq<byte>)
    requires a < 65536 && b < 65536 && |d| <= NMAX
    ensures a + Plain(d) < 0x1_0000_0000 && b + Times(|d|, a) + Double(d) < 0x1_0000_0000
  {
    hide Times, Tri;
    SumBounds(d);
    RoomToSpare(|d|);
    ScaleBy(|d|, a);
  }

  lemma ScaleBy(n: nat, a: nat)
    requires a < 65536
    ensures Times(n, a) <= n * 65535
  {
    var d := 65535 - a;
    TimesSum(n, a, d);
  }

  lemma TimesSum(n: nat, a: nat, d: nat)
    ensures n * (a + d) == Times(n, a) + Times(n, d)
  {
  }

  // ---------- the checksum ----------

  lemma {:induction false} Append(d: seq<byte>, x: byte)
    ensures Plain(d + [x]) == Plain(d) + x && Double(d + [x]) == Double(d) + Plain(d) + x
    decreases |d|
  {
    hide Times;
    if d == [] {
      assert d + [x] == [x];
      assert [x][1..] == [];
      TimesNext(0, x);
    } else {
      Append(d[1..], x);
      assert (d + [x])[1..] == d[1..] + [x];
      TimesNext(|d|, d[0]);
    }
  }

  /** DO1 */
  method Do1(a: nat, b: nat, buf: seq<byte>, i: nat, adler: u32, sum2: u32) returns (adler': u32, sum2': u32)
    requires a < 65536 && b < 65536 && i < |buf| <= NMAX
    requires adler == a + Plain(buf[..i]) && sum2 == b + Times(i, a) + Double(buf[..i])
    ensures adler' == a + Plain(buf[..i + 1]) && sum2' == b + Times(i + 1, a) + Double(buf[..i + 1])
  {
    hide Times, Plain, Double;
    Append(buf[..i], buf[i]);
    assert buf[..i + 1] == buf[..i] + [buf[i]];
    TimesNext(i, a);
    FitsInWord(a, b, buf[..i + 1]);
    adler' := adler + buf[i];
    sum2' := sum2 + adler';
  }

  /** Up to NMAX bytes, sixteen at a time and then singly, without a modulo. */
  method Accumulate(a: nat, b: nat, buf: seq<byte>) returns (adler: u32, sum2: u32)
    requires a < 65536 && b < 65536 && |buf| <= NMAX
    ensures adler == a + Plain(buf) && sum2 == b + Times(|buf|, a) + Double(buf)
  {
    hide Times;
    TimesNext(0, a);
    adler, sum2 := a, b;
    var i := 0;
    while |buf| - i >= 16
      invariant 0 <= i <= |buf| && adler == a + Plain(buf[..i]) && sum2 == b + Times(i, a) + Double(buf[..i])
    {
      var end := i + 16;
      while i < end
        invariant 0 <= i <= end <= |buf| && adler == a + Plain(buf[..i]) && sum2 == b + Times(i, a) + Double(buf[..i])
      {
        adler, sum2 := Do1(a, b, buf, i, adler, sum2);
        i := i + 1;
      }
    }
    while i < |buf|
      invariant 0 <= i <= |buf| && adler == a + Plain(buf[..i]) && sum2 == b + Times(i, a) + Double(buf[..i])
    {
      adler, sum2 := Do1(a, b, buf, i, adler, sum2);
      i := i + 1;
    }
    assert buf[..i] == buf;
  }

  lemma Pieces(a: nat, b: nat, d: seq<byte>, i: nat)
    requires i <= |d|
    ensures Sums(a, b, d) == Sums(Sums(a, b, d[..i]).0, Sums(a, b, d[..i]).1, d[i..])
  {
    hide Sums;
    SumsConcat(a, b, d[..i], d[i..]);
    assert d[..i] + d[i..] == d;
  }

  /** A checksum by its two sums. */
  lemma AdlerIs(adler: u32, d: seq<byte>)
    ensures var (x, y) := Sums(adler % 65536, adler / 65536, d);
            Adler32(adler, d) == x + y * 65536 && x < 65536 && y < 65536
  {
    hide Sums;
  }

  /** A single byte is added with one subtraction for each sum. */
  predicate OneFits(adler: u32, x: byte) {
    adler / 65536 + (adler % 65536 + x) % BASE < 2 * BASE
  }

  /** When the sums reduced seldom are the sums reduced at every byte. */
  predicate Exact(adler: u32, buf: seq<byte>) {
    (buf == [] ==> Reduced(adler)) && (|buf| == 1 ==> OneFits(adler, buf[0]))
  }

  /** Always, from a checksum value. */
  lemma ReducedExact(adler: u32, buf: seq<byte>)
    requires Reduced(adler)
    ensures Exact(adler, buf)
  {
  }

  /** 256 bytes 255 and one of 239. */
  const HEAVY: seq<byte> := seq(256, _ => 255) + [239]

  lemma {:induction false} PlainRepeat(n: nat)
    ensures Plain(seq(n, _ => 255) + [239]) == 255 * n + 239
  {
    var d := seq(n, _ => 255) + [239];
    if n == 0 {
      assert d == [239] && d[1..] == [];
    } else {
      assert d[1..] == seq(n - 1, _ => 255) + [239];
      PlainRepeat(n - 1);
    }
  }

  /**
   A zero byte after the sums 65520 and 65535 leaves the second one unreduced; no byte leaves both as they are, and so
   does combining with nothing.  Combining 65535 with the checksum of bytes that sum to 65519 needs a subtraction more
   than there is.
   */
  lemma NotExact()
    ensures !OneFits(0xffff_fff0, 0) && !Exact(0xffff_ffff, []) && !Combines(65535, Adler32(1, []), 0)
    ensures Plain(HEAVY) == 65519 && !Combines(65535, Adler32(1, HEAVY), |HEAVY|)
  {
    hide Times, Sums, Plain, Double;
    assert Adler32(1, []) == 1 by {
      NoSums(1, 0);
    }
    PlainRepeat(256);
    SumsClosed(1, 0, HEAVY);
    assert Adler32(1, HEAVY) % 65536 == 65520;
  }

  /** adler32_z: the sums reduced once in NMAX bytes are the sums reduced at every byte. */
  method Adler32Z(adler: u32, given: Option<seq<byte>>) returns (r: u32)
    ensures given.None? ==> r == 1
    ensures given.Some? ==>
      var buf := given.value;
      (r == Adler32(adler, buf) <==> Exact(adler, buf)) && (Reduced(r) <==> |buf| == 1 ==> OneFits(adler, buf[0]))
  {
    hide Sums, Adler32, Reduced;
    if given.None? {
      return 1;
    }
    var buf := given.value;
    var a, b := adler % 65536, adler / 65536;
    AdlerIs(adler, buf);
    var x, y;
    if |buf| == 1 {
      x, y := OneByte(a, b, buf);
    } else if |buf| < 16 {
      x, y := FewBytes(a, b, buf);
    } else {
      x, y := ManyBytes(a, b, buf);
    }
    r := x + y * 65536;
    Halves(x, y, Sums(a, b, buf).0, Sums(a, b, buf).1);
    if buf == [] {
      NoSums(a, b);
      Halves(a, b, a, b);
    }
  }

  /** A checksum tells its halves. */
  lemma Halves(x: nat, y: nat, x': nat, y': nat)
    requires x < 65536 && y < 65536 && x' < 65536 && y' < 65536
    ensures x + y * 65536 == x' + y' * 65536 <==> x == x' && y == y'
    ensures Reduced(x + y * 65536) <==> x < BASE && y < BASE
  {
  }

  method OneByte(a: nat, b: nat, buf: seq<byte>) returns (x: nat, y: nat)
    requires a < 65536 && b < 65536 && |buf| == 1
    ensures x == Sums(a, b, buf).0 < BASE && y < 65536
    ensures y == Sums(a, b, buf).1 <==> b + (a + buf[0]) % BASE < 2 * BASE
    ensures y < BASE <==> b + (a + buf[0]) % BASE < 2 * BASE
  {
    x := a + buf[0];
    if x >= BASE {
      x := x - BASE;
    }
    y := b + x;
    if y >= BASE {
      y := y - BASE;
    }
    assert Sums(x, (b + x) % BASE, buf[1..]) == (x, (b + x) % BASE);
  }

  method FewBytes(a: nat, b: nat, buf: seq<byte>) returns (x: nat, y: nat)
    requires a < 65536 && b < 65536 && |buf| < 16
    ensures x < BASE && y < BASE && (buf == [] ==> x == a % BASE && y == b % BASE)
    ensures buf != [] ==> (x, y) == Sums(a, b, buf)
  {
    hide Sums, Times;
    x, y := Accumulate(a, b, buf);
    if buf != [] {
      SumsClosed(a, b, buf);
    } else {
      TimesNext(0, a);
    }
    ShortBounds(a, b, buf);
    if x >= BASE {
      x := x - BASE;
    }
    y := Mod28(y);
  }

  method ManyBytes(a: nat, b: nat, buf: seq<byte>) returns (x: nat, y: nat)
    requires a < 65536 && b < 65536 && buf != []
    ensures (x, y) == Sums(a, b, buf) && x < BASE && y < BASE
  {
    hide Sums;
    x, y := a, b;
    var rest := buf;
    while |rest| >= NMAX
      invariant x < 65536 && y < 65536 && Sums(a, b, buf) == Sums(x, y, rest)
      invariant rest == [] ==> x < BASE && y < BASE
      decreases |rest|
    {
      x, y := Reduce(x, y, rest, NMAX);
      rest := rest[NMAX..];
    }
    if |rest| > 0 {
      Nothing(rest);
      x, y := Reduce(x, y, rest, |rest|);
      rest := [];
    }
    NoSums(x, y);
  }

  lemma NoSums(x: nat, y: nat)
    ensures Sums(x, y, []) == (x, y)
  {
  }

  lemma Nothing(d: seq<byte>)
    ensures d[|d|..] == []
  {
  }

  /** A run of n bytes and the modulo after it. */
  method Reduce(a: nat, b: nat, buf: seq<byte>, n: nat) returns (x: nat, y: nat)
    requires a < 65536 && b < 65536 && 0 < n <= |buf| && n <= NMAX
    ensures x < BASE && y < BASE && Sums(a, b, buf) == Sums(x, y, buf[n..])
  {
    hide Sums, Times;
    var p, q := Accumulate(a, b, buf[..n]);
    SumsClosed(a, b, buf[..n]);
    Pieces(a, b, buf, n);
    x := Mod(p);
    y := Mod(q);
  }

  lemma ShortBounds(a: nat, b: nat, d: seq<byte>)
    requires a < 65536 && b < 65536 && |d| < 16
    ensures a + Plain(d) < 2 * BASE && b + Times(|d|, a) + Double(d) < 0x1000_0000
  {
    hide Times;
    SumBounds(d);
    TriMono(|d|, 15);
    TriClosed(15);
    ScaleBy(|d|, a);
    ScaleUp(|d|);
  }

  lemma ScaleUp(n: nat)
    requires n < 16
    ensures n * 65535 <= 15 * 65535
  {
  }

  // ---------- combination ----------

  /** Subtracting BASE as often as reduced sums can need. */
  method Below(sum1: nat, sum2: nat) returns (x: nat, y: nat)
    ensures x == if sum1 < 3 * BASE then sum1 % BASE else sum1 - 2 * BASE
    ensures y == if sum2 < 4 * BASE then sum2 % BASE else sum2 - 3 * BASE
  {
    x, y := sum1, sum2;
    if x >= BASE {
      x := x - BASE;
    }
    if x >= BASE {
      x := x - BASE;
    }
    if y >= 2 * BASE {
      y := y - 2 * BASE;
    }
    if y >= BASE {
      y := y - BASE;
    }
  }

  /** The bits of both, where at most the lowest bit of the upper half meets one of the lower. */
  function Joined(x: nat, y: nat): nat {
    if x < 65536 then x + y * 65536 else x - 65536 + (y + 1 - y % 2) * 65536
  }

  /** When two checksums combine to the checksum of both pieces. */
  predicate Combines(adler1: u32, adler2: u32, len2: nat) {
    var a1, b1, a2, b2, rem := adler1 % 65536, adler1 / 65536, adler2 % 65536, adler2 / 65536, len2 % BASE;
    if len2 == 0 then Reduced(adler1)
    else a1 + a2 <= 2 * BASE && Times(rem, a1) % BASE + b1 + b2 - rem < 3 * BASE
  }

  /** Always, if they are checksum values. */
  lemma ReducedCombines(adler1: u32, adler2: u32, len2: nat)
    requires Reduced(adler1) && Reduced(adler2)
    ensures Combines(adler1, adler2, len2)
  {
    hide Times;
  }

  /** adler32_combine_: the checksum of two pieces together. */
  method Adler32Combine(adler1: u32, adler2: u32, len2: int) returns (r: nat)
    requires len2 < 0x8000_0000_0000_0000
    ensures len2 < 0 ==> r == 0xffff_ffff
    ensures forall a: nat, x: seq<byte>, y: seq<byte> ::
              Adler32(a, x) == adler1 && Adler32(1, y) == adler2 && |y| == len2 ==>
                (r == Adler32(a, x + y) <==> Combines(adler1, adler2, len2))
    ensures len2 >= 0 && Reduced(adler1) && Reduced(adler2) ==> Reduced(r)
  {
    hide Adler32, Sums, Times;
    if len2 < 0 {
      return 0xffff_ffff;
    }
    var rem := Mod63(len2);
    var a1, b1, a2, b2 := adler1 % 65536, adler1 / 65536, adler2 % 65536, adler2 / 65536;
    ProductFits(rem, a1);
    var product := Mod(Times(rem, a1));
    var x1, x2 := Below(a1 + a2 + BASE - 1, product + b1 + b2 + BASE - rem);
    r := Joined(x1, x2);
    if Reduced(adler1) && Reduced(adler2) {
      ReducedParts(x1, x2);
    }
    forall a: nat, x: seq<byte>, y: seq<byte> |
      Adler32(a, x) == adler1 && Adler32(1, y) == adler2 && |y| == len2
      ensures r == Adler32(a, x + y) <==> Combines(adler1, adler2, len2)
    {
      AdlerConcat(a, x, y);
      Joins(adler1, adler2, y, rem, r);
    }
  }

  /** What was computed is the checksum exactly when no sum needed another subtraction. */
  lemma Joins(adler1: u32, adler2: u32, y: seq<byte>, rem: nat, r: nat)
    requires Adler32(1, y) == adler2 && rem == |y| % BASE
    requires var s1, s2 := FirstOf(adler1, adler2), SecondOf(adler1, adler2, rem);
             r == Joined(if s1 < 3 * BASE then s1 % BASE else s1 - 2 * BASE,
                         if s2 < 4 * BASE then s2 % BASE else s2 - 3 * BASE)
    ensures r == Adler32(adler1, y) <==> Combines(adler1, adler2, |y|)
  {
    hide Adler32, Sums, Times;
    var a1, b1, a2, b2 := adler1 % 65536, adler1 / 65536, adler2 % 65536, adler2 / 65536;
    Second(y);
    CombinedSums(a1, b1, a2, b2, |y|, rem, Plain(y), Double(y));
    if y == [] {
      NoSums(a1, b1);
      AdlerIs(adler1, y);
      TimesNext(0, a1);
    } else {
      Combined(adler1, y);
    }
  }

  function FirstOf(adler1: u32, adler2: u32): nat {
    adler1 % 65536 + adler2 % 65536 + BASE - 1
  }

  function SecondOf(adler1: u32, adler2: u32, rem: nat): nat
    requires rem < BASE
  {
    Times(rem, adler1 % 65536) % BASE + adler1 / 65536 + adler2 / 65536 + BASE - rem
  }

  lemma ProductFits(x: nat, y: nat)
    requires x < BASE && y < 65536
    ensures Times(x, y) < 0x1_0000_0000
  {
    hide Times;
    ScaleBy(x, y);
    Bounded(Times(x, y), x);
  }

  lemma Bounded(p: nat, x: nat)
    requires x < BASE && p <= x * 65535
    ensures p < 0x1_0000_0000
  {
  }

  lemma ReducedParts(a: nat, b: nat)
    requires a < BASE && b < BASE
    ensures (a + b * 65536) % 65536 == a && (a + b * 65536) / 65536 == b
  {
  }

  /** A checksum continued over some bytes, in closed form. */
  lemma Combined(adler1: u32, y: seq<byte>)
    requires y == [] ==> Reduced(adler1)
    ensures Adler32(adler1, y) == (adler1 % 65536 + Plain(y)) % BASE
              + (adler1 / 65536 + Times(|y|, adler1 % 65536) + Double(y)) % BASE * 65536
  {
    hide Sums, Adler32, Times;
    AdlerIs(adler1, y);
    SumsClosed(adler1 % 65536, adler1 / 65536, y);
  }

  /** A checksum from its initial value. */
  lemma Second(y: seq<byte>)
    ensures Adler32(1, y) % 65536 == (1 + Plain(y)) % BASE && Adler32(1, y) / 65536 == (|y| + Double(y)) % BASE
    ensures y == [] ==> Adler32(1, y) == 1
  {
    hide Sums, Adler32, Times;
    TimesOne(|y|);
    Combined(1, y);
    ReducedParts((1 + Plain(y)) % BASE, (|y| + Double(y)) % BASE);
  }

  lemma TimesOne(n: nat)
    ensures Times(n, 1) == n
  {
  }

  lemma FirstSum(a1: nat, a2: nat, s: nat)
    requires a2 == (1 + s) % BASE
    ensures (a1 + a2 + BASE - 1) % BASE == (a1 + s) % BASE
  {
    ModAdd(1 + s, a1 + BASE - 1);
    ModMultiple(a1 + s, 1);
  }

  /** With ra and na standing for rem * a1 and n * a1. */
  lemma SecondSum(b1: nat, b2: nat, n: nat, rem: nat, p: nat, q: nat, ra: nat, na: nat, qa: nat)
    requires n == q * BASE + rem && b2 == (n + p) % BASE && na == ra + qa * BASE
    ensures (ra % BASE + b1 + b2 + BASE - rem) % BASE == (b1 + na + p) % BASE
  {
    ModAdd(ra, b1 + b2 + BASE - rem);
    ModAdd(n + p, ra + b1 + BASE - rem);
    ModMultiple(ra + b1 + p, q + 1);
    ModMultiple(ra + b1 + p, qa);
  }

  lemma Product(n: nat, a: nat, q: nat, rem: nat)
    requires n == q * BASE + rem
    ensures Times(n, a) == Times(rem, a) + Times(q, a) * BASE
  {
    calc {
      n * a;
      (q * BASE + rem) * a;
      q * BASE * a + rem * a;
      q * a * BASE + rem * a;
    }
  }

  lemma CombinedSums(a1: nat, b1: nat, a2: nat, b2: nat, n: nat, rem: nat, s: nat, p: nat)
    requires rem == n % BASE && a2 == (1 + s) % BASE && b2 == (n + p) % BASE
    ensures (a1 + a2 + BASE - 1) % BASE == (a1 + s) % BASE
    ensures (Times(rem, a1) % BASE + b1 + b2 + BASE - rem) % BASE == (b1 + Times(n, a1) + p) % BASE
  {
    hide Times;
    FirstSum(a1, a2, s);
    Product(n, a1, n / BASE, rem);
    SecondSum(b1, b2, n, rem, p, n / BASE, Times(rem, a1), Times(n, a1), Times(n / BASE, a1));
  }
}
