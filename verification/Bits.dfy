/**
 Bit strings and the numbers that carry them.

 A DEFLATE stream is a sequence of bits, least significant bit of each byte first.
 The decoder holds a stretch of it in an integer accumulator.  Shifts and masks are
 written here as recursions on the shift count (`Shr`, `Shl`, `Low`), so that every
 lemma below needs only linear arithmetic.
 */
module Bits {

  type byte = x: int | 0 <= x < 256
  type u32 = x: int | 0 <= x < 0x1_0000_0000

  datatype Option<T> = None | Some(value: T)

  /** 1 << n */
  function Pow2(n: nat): (r: nat)
    ensures r >= 1
  {
    if n == 0 then 1 else 2 * Pow2(n - 1)
  }

  /** h >> n */
  function Shr(h: nat, n: nat): nat {
    if n == 0 then h else Shr(h / 2, n - 1)
  }

  /** h << n */
  function Shl(h: nat, n: nat): nat {
    if n == 0 then h else 2 * Shl(h, n - 1)
  }

  /** h & ((1 << n) - 1) */
  function Low(h: nat, n: nat): nat {
    if n == 0 then 0 else h % 2 + 2 * Low(h / 2, n - 1)
  }

  /** Bit i of h. */
  predicate Bit(h: nat, i: nat) {
    Shr(h, i) % 2 == 1
  }

  lemma {:induction false} Pow2Mono(a: nat, b: nat)
    requires a <= b
    ensures Pow2(a) <= Pow2(b)
    ensures a < b ==> 2 * Pow2(a) <= Pow2(b)
  {
    if a < b {
      Pow2Mono(a, b - 1);
    }
  }

  lemma {:induction false} ShlPow2(a: nat, b: nat)
    ensures Shl(Pow2(a), b) == Pow2(a + b)
  {
    if b > 0 {
      ShlPow2(a, b - 1);
    }
  }

  lemma {:induction false} ShlAdd(x: nat, y: nat, n: nat)
    ensures Shl(x + y, n) == Shl(x, n) + Shl(y, n)
    ensures Shl(1, n) == Pow2(n) && Shl(0, n) == 0
  {
    if n > 0 {
      ShlAdd(x, y, n - 1);
    }
  }

  lemma ShlZero(n: nat)
    ensures Shl(0, n) == 0
  {
    ShlAdd(0, 0, n);
  }

  lemma PowPositive(n: nat)
    ensures Pow2(n) >= 1
  {
  }

  lemma EightPower()
    ensures Pow2(8) == 256
  {
  }

  lemma ShlNone(x: nat)
    ensures Shl(x, 0) == x
  {
  }

  lemma {:induction false} ShlMono(x: nat, y: nat, n: nat)
    requires x <= y
    ensures Shl(x, n) <= Shl(y, n)
    ensures x < y ==> Shl(x, n) + Pow2(n) <= Shl(y, n)
  {
    if n > 0 {
      ShlMono(x, y, n - 1);
    }
  }

  lemma {:induction false} ShlShl(x: nat, a: nat, b: nat)
    ensures Shl(Shl(x, a), b) == Shl(x, a + b)
  {
    if b > 0 {
      ShlShl(x, a, b - 1);
    }
  }

  lemma {:induction false} ShrShr(h: nat, a: nat, b: nat)
    ensures Shr(Shr(h, a), b) == Shr(h, a + b)
  {
    if a > 0 {
      ShrShr(h / 2, a - 1, b);
    }
  }

  /** A right shift picks the aligned block of 2^n values that holds h. */
  lemma {:induction false} ShrInterval(h: nat, n: nat, q: nat)
    ensures Shr(h, n) == q <==> Shl(q, n) <= h < Shl(q, n) + Pow2(n)
  {
    if n > 0 {
      ShrInterval(h / 2, n - 1, q);
    }
  }

  /** Low part and shifted part make up the number. */
  lemma {:induction false} Split(h: nat, n: nat)
    ensures h == Low(h, n) + Shl(Shr(h, n), n)
    ensures Low(h, n) < Pow2(n)
  {
    if n > 0 {
      Split(h / 2, n - 1);
    }
  }

  /** Placing b above an n-bit value. */
  lemma {:induction false} Append(h: nat, n: nat, b: nat)
    requires h < Pow2(n)
    ensures Low(h + Shl(b, n), n) == h
    ensures Shr(h + Shl(b, n), n) == b
  {
    if n > 0 {
      Append(h / 2, n - 1, b);
      assert (h + Shl(b, n)) / 2 == h / 2 + Shl(b, n - 1);
    }
  }

  lemma LowOfSmall(h: nat, n: nat)
    requires h < Pow2(n)
    ensures Low(h, n) == h && Shr(h, n) == 0
  {
    Append(h, n, 0);
    ShlAdd(0, 0, n);
  }

  lemma {:induction false} LowLow(h: nat, m: nat, n: nat)
    requires m <= n
    ensures Low(Low(h, n), m) == Low(h, m)
  {
    if m > 0 {
      LowLow(h / 2, m - 1, n - 1);
    }
  }

  /** The low m + n bits: the low m bits, then the low n of the rest. */
  lemma {:induction false} LowSplit(h: nat, m: nat, n: nat)
    ensures Low(h, m + n) == Low(h, m) + Shl(Low(Shr(h, m), n), m)
    ensures Shr(Low(h, m + n), m) == Low(Shr(h, m), n)
  {
    if m > 0 {
      LowSplit(h / 2, m - 1, n);
      assert Low(h, m + n) / 2 == Low(h / 2, m + n - 1);
    }
  }

  // ---------- single bits ----------

  lemma BitOfShift(h: nat, n: nat, i: nat)
    ensures Bit(Shr(h, n), i) == Bit(h, n + i)
  {
    ShrShr(h, n, i);
  }

  lemma {:induction false} BitOfLow(h: nat, n: nat, i: nat)
    requires i < n
    ensures Bit(Low(h, n), i) == Bit(h, i)
  {
    if i > 0 {
      BitOfLow(h / 2, n - 1, i - 1);
    }
  }

  // ---------- numbers as bit sequences ----------

  /** The low n bits of h, least significant first. */
  function ToBits(h: nat, n: nat): (bs: seq<bool>)
    ensures |bs| == n
  {
    seq(n, i requires 0 <= i < n => Bit(h, i))
  }

  /** The number whose bits, least significant first, are bs. */
  function ToInt(bs: seq<bool>): (v: nat)
  {
    if |bs| == 0 then 0 else (if bs[0] then 1 else 0) + 2 * ToInt(bs[1..])
  }

  /** The number whose bits, most significant first, are bs. */
  function MsbInt(bs: seq<bool>): (v: nat)
  {
    if |bs| == 0 then 0
    else 2 * MsbInt(bs[..|bs| - 1]) + (if bs[|bs| - 1] then 1 else 0)
  }

  /** The low n bits of c, most significant first. */
  function MsbBits(c: nat, n: nat): (bs: seq<bool>)
    ensures |bs| == n
  {
    seq(n, i requires 0 <= i < n => Bit(c, n - 1 - i))
  }

  lemma ToBitsTail(h: nat, n: nat)
    requires n > 0
    ensures ToBits(h, n)[1..] == ToBits(h / 2, n - 1)
    ensures ToBits(h, n)[0] == (h % 2 == 1)
  {
    forall i | 0 <= i < n - 1 ensures ToBits(h, n)[1..][i] == ToBits(h / 2, n - 1)[i] {
      BitOfShift(h, 1, i);
    }
  }

  lemma {:induction false} ToIntToBits(h: nat, n: nat)
    ensures ToInt(ToBits(h, n)) == Low(h, n)
  {
    if n > 0 {
      ToIntToBits(h / 2, n - 1);
      ToBitsTail(h, n);
    }
  }

  lemma {:induction false} ToBitsToInt(bs: seq<bool>)
    ensures ToBits(ToInt(bs), |bs|) == bs
    ensures ToInt(bs) < Pow2(|bs|)
  {
    if |bs| > 0 {
      hide ToBits;
      var n := ToInt(bs);
      ToBitsToInt(bs[1..]);
      assert n / 2 == ToInt(bs[1..]) && (n % 2 == 1) == bs[0];
      ToBitsTail(n, |bs|);
      assert bs == [bs[0]] + bs[1..];
    }
  }

  lemma ToBitsInjective(g: nat, h: nat, n: nat)
    ensures ToBits(g, n) == ToBits(h, n) <==> Low(g, n) == Low(h, n)
  {
    ToIntToBits(g, n);
    ToIntToBits(h, n);
    if Low(g, n) == Low(h, n) {
      ToBitsToInt(ToBits(g, n));
      ToBitsToInt(ToBits(h, n));
    }
  }

  lemma {:induction false} MsbIntMsbBits(c: nat, n: nat)
    requires c < Pow2(n)
    ensures MsbInt(MsbBits(c, n)) == c
  {
    if n > 0 {
      MsbIntMsbBits(c / 2, n - 1);
      var bs := MsbBits(c, n);
      assert bs[..n - 1] == MsbBits(c / 2, n - 1) by {
        forall i | 0 <= i < n - 1 ensures bs[i] == MsbBits(c / 2, n - 1)[i] {
          BitOfShift(c, 1, n - 2 - i);
        }
      }
      assert bs[n - 1] == Bit(c, 0);
    }
  }

  lemma {:induction false} MsbIntInjective(a: seq<bool>, b: seq<bool>)
    requires |a| == |b|
    ensures MsbInt(a) == MsbInt(b) <==> a == b
  {
    var n := |a|;
    if n > 0 && MsbInt(a) == MsbInt(b) {
      MsbIntInjective(a[..n - 1], b[..n - 1]);
      assert a == a[..n - 1] + [a[n - 1]];
      assert b == b[..n - 1] + [b[n - 1]];
    }
  }

  /** Dropping the later bits of an MSB-first string shifts its value right. */
  lemma {:induction false} MsbIntPrefix(bs: seq<bool>, m: nat)
    requires m <= |bs|
    ensures MsbInt(bs[..m]) == Shr(MsbInt(bs), |bs| - m)
    ensures MsbInt(bs) < Pow2(|bs|)
  {
    var n := |bs|;
    if n > 0 {
      var lo := bs[..n - 1];
      if m == n {
        MsbIntPrefix(lo, n - 1);
        assert bs[..m] == bs;
      } else {
        MsbIntPrefix(lo, m);
        assert lo[..m] == bs[..m];
      }
    }
  }

  // ---------- the bit accumulator ----------

  /** Appending a byte above the n bits held. */
  lemma PushByte(h: nat, n: nat, b: byte)
    requires h < Pow2(n)
    ensures ToBits(h + Shl(b, n), n + 8) == ToBits(h, n) + ToBits(b, 8)
    ensures h + Shl(b, n) < Pow2(n + 8)
  {
    var v := h + Shl(b, n);
    Append(h, n, b);
    forall i | 0 <= i < n + 8 ensures ToBits(v, n + 8)[i] == (ToBits(h, n) + ToBits(b, 8))[i] {
      if i < n {
        BitOfLow(v, n, i);
      } else {
        BitOfShift(v, n, i - n);
      }
    }
    ShlMono(b + 1, 256, n);
    ShlAdd(b, 1, n);
    assert Pow2(8) == 256;
    ShlPow2(8, n);
  }

  /** Shifting k bits out of the n bits held. */
  lemma ShiftOut(h: nat, n: nat, k: nat)
    requires k <= n && h < Pow2(n)
    ensures ToBits(Shr(h, k), n - k) == ToBits(h, n)[k..]
    ensures Shr(h, k) < Pow2(n - k)
  {
    forall i | 0 <= i < n - k ensures ToBits(Shr(h, k), n - k)[i] == ToBits(h, n)[k..][i] {
      BitOfShift(h, k, i);
    }
    LowOfSmall(h, n);
    ShrShr(h, k, n - k);
    ShrInterval(Shr(h, k), n - k, 0);
    ShlAdd(0, 0, n - k);
  }

  /** The low k bits are the first k bits of the sequence. */
  lemma LowBits(h: nat, n: nat, k: nat)
    requires k <= n
    ensures ToBits(h, n)[..k] == ToBits(h, k)
    ensures ToInt(ToBits(h, n)[..k]) == Low(h, k)
    ensures Low(h, k) < Pow2(k)
  {
    assert ToBits(h, n)[..k] == ToBits(h, k);
    ToIntToBits(h, k);
    Split(h, k);
  }

  // ---------- byte strings as bit sequences ----------

  function BytesBits(bs: seq<byte>): (r: seq<bool>)
    ensures |r| == 8 * |bs|
  {
    if bs == [] then [] else ToBits(bs[0], 8) + BytesBits(bs[1..])
  }

  lemma NoBitsAt(h: nat)
    ensures ToBits(h, 0) == []
  {
  }

  lemma {:induction false} BytesBitsConcat(a: seq<byte>, b: seq<byte>)
    ensures BytesBits(a + b) == BytesBits(a) + BytesBits(b)
    decreases |a|
  {
    hide ToBits;
    if a == [] {
      assert a + b == b;
    } else {
      BytesBitsConcat(a[1..], b);
      assert (a + b)[1..] == a[1..] + b && (a + b)[0] == a[0];
      assert BytesBits(a + b) == ToBits(a[0], 8) + BytesBits(a[1..] + b);
    }
  }

  lemma BytesBitsDrop(a: seq<byte>, k: nat)
    requires k <= |a|
    ensures BytesBits(a[k..]) == BytesBits(a)[8 * k..]
  {
    BytesBitsConcat(a[..k], a[k..]);
    assert a[..k] + a[k..] == a;
  }
}
