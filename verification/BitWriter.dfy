/**
 The bit buffer of deflate: bits go into a 16-bit buffer, least significant first, and on to the
 pending bytes two at a time.
 */
module BitWriter {
  import opened Bits

  const BUF_SIZE := 16

  /** Appending m bits above the n bits held. */
  lemma PushBits(h: nat, n: nat, b: nat, m: nat)
    requires h < Pow2(n) && b < Pow2(m)
    ensures ToBits(h + Shl(b, n), n + m) == ToBits(h, n) + ToBits(b, m)
    ensures h + Shl(b, n) < Pow2(n + m)
  {
    hide Pow2, Shl, Shr, Low;
    var v := h + Shl(b, n);
    Append(h, n, b);
    forall i | 0 <= i < n + m ensures ToBits(v, n + m)[i] == (ToBits(h, n) + ToBits(b, m))[i] {
      if i < n {
        BitOfLow(v, n, i);
      } else {
        BitOfShift(v, n, i - n);
      }
    }
    ShlMono(b + 1, Pow2(m), n);
    ShlAdd(b, 1, n);
    ShlPow2(m, n);
  }

  datatype Writer = Writer(pending: seq<byte>, buf: nat, valid: nat) {

    ghost predicate Ok() {
      valid <= BUF_SIZE && buf < Pow2(valid)
    }

    /** All bits written. */
    ghost function Bits(): seq<bool> {
      BytesBits(pending) + ToBits(buf, valid)
    }
  }

  lemma TwoBytes(x: nat)
    requires x < 65536
    ensures ToBits(x, 16) == BytesBits([x % 256, x / 256])
  {
    hide ToBits, Shl, Pow2;
    assert Pow2(8) == 256 by {
      EightPower();
    }
    ShlEight(x / 256);
    PushBits(x % 256, 8, x / 256, 8);
    assert [x % 256, x / 256][1..] == [x / 256];
    assert BytesBits([x / 256]) == ToBits(x / 256, 8) + BytesBits([]);
  }

  lemma ShlEight(x: nat)
    ensures Shl(x, 8) == 256 * x
  {
    assert Shl(x, 1) == 2 * x;
    assert Shl(x, 3) == 8 * x;
    assert Shl(x, 5) == 32 * x;
    assert Shl(x, 7) == 128 * x;
  }

  lemma SixteenPower()
    ensures Pow2(16) == 65536
  {
    hide Pow2;
    EightPower();
    ShlPow2(8, 8);
    ShlEight(256);
  }

  /** put_short */
  method PutShort(pending: seq<byte>, x: nat) returns (pending': seq<byte>)
    requires x < 65536
    ensures |pending'| == |pending| + 2 && BytesBits(pending') == BytesBits(pending) + ToBits(x, 16)
  {
    hide ToBits, BytesBits;
    TwoBytes(x);
    BytesBitsConcat(pending, [x % 256, x / 256]);
    pending' := pending + [x % 256, x / 256];
  }

  /** send_bits: the bits of value follow all written before. */
  method SendBits(w: Writer, value: nat, length: nat) returns (w': Writer)
    requires w.Ok() && length <= BUF_SIZE && value < Pow2(length)
    ensures w'.Ok() && w'.Bits() == w.Bits() + ToBits(value, length)
  {
    hide ToBits, BytesBits, Pow2, Shl, Shr, Low;
    if w.valid > BUF_SIZE - length {
      var k := BUF_SIZE - w.valid;
      var low := Low(value, k);
      LowBits(value, length, k);
      LowBits(low, k, k);
      LowSame(value, k);
      ShiftOut(value, length, k);
      PushBits(w.buf, w.valid, low, k);
      SixteenPower();
      var pending := PutShort(w.pending, w.buf + Shl(low, w.valid));
      w' := Writer(pending, Shr(value, k), w.valid + length - BUF_SIZE);
      var all := ToBits(value, length);
      assert all == all[..k] + all[k..];
      assert w'.Bits() == BytesBits(w.pending) + (ToBits(w.buf, w.valid) + ToBits(low, k)) + all[k..];
    } else {
      PushBits(w.buf, w.valid, value, length);
      w' := w.(buf := w.buf + Shl(value, w.valid), valid := w.valid + length);
      assert w'.Bits() == BytesBits(w.pending) + (ToBits(w.buf, w.valid) + ToBits(value, length));
    }
  }

  lemma LowSame(value: nat, k: nat)
    ensures ToBits(Low(value, k), k) == ToBits(value, k)
  {
    hide Low;
    forall i | 0 <= i < k ensures ToBits(Low(value, k), k)[i] == ToBits(value, k)[i] {
      BitOfLow(value, k, i);
    }
  }

  /** bi_flush: at most seven bits remain in the buffer. */
  method Flush(w: Writer) returns (w': Writer)
    requires w.Ok()
    ensures w'.Ok() && w'.Bits() == w.Bits() && w'.valid < 8 && |w.pending| <= |w'.pending| && (w.valid < 8 ==> w' == w)
  {
    hide ToBits, Pow2, Shr, Low, Shl;
    w' := w;
    if w.valid == 16 {
      SixteenPower();
      var pending := PutShort(w.pending, w.buf);
      NoBits();
      w' := Writer(pending, 0, 0);
      assert w'.Bits() == BytesBits(pending) + [];
    } else if w.valid >= 8 {
      EightPower();
      LowBits(w.buf, w.valid, 8);
      LowSame(w.buf, 8);
      ShiftOut(w.buf, w.valid, 8);
      var b := Low(w.buf, 8);
      BytesBitsConcat(w.pending, [b]);
      assert BytesBits([b]) == ToBits(b, 8) + BytesBits([]);
      w' := Writer(w.pending + [b], Shr(w.buf, 8), w.valid - 8);
      var all := ToBits(w.buf, w.valid);
      assert all == all[..8] + all[8..];
      assert w'.Bits() == BytesBits(w.pending) + (all[..8] + all[8..]);
    }
  }

  lemma NoBits()
    ensures ToBits(0, 0) == [] && Pow2(0) == 1
  {
  }

  /** bi_windup: on to the next byte boundary. */
  method Windup(w: Writer) returns (w': Writer)
    requires w.Ok()
    ensures w'.valid == 0 && w'.buf == 0 && w'.Ok()
    ensures w.Bits() <= w'.Bits() && |w'.Bits()| < |w.Bits()| + 8 && |w'.Bits()| % 8 == 0
  {
    hide ToBits, Pow2;
    NoBits();
    var pending := w.pending;
    if w.valid > 8 {
      Padded(w.buf, w.valid, 16);
      SixteenPower();
      pending := PutShort(w.pending, w.buf);
    } else if w.valid > 0 {
      Padded(w.buf, w.valid, 8);
      EightPower();
      BytesBitsConcat(w.pending, [w.buf]);
      assert BytesBits([w.buf]) == ToBits(w.buf, 8) + BytesBits([]);
      pending := w.pending + [w.buf];
    } else {
      NoBitsAt(w.buf);
    }
    w' := Writer(pending, 0, 0);
    assert w'.Bits() == BytesBits(pending);
  }

  /** Zero bits above make up a larger field. */
  lemma Padded(h: nat, n: nat, m: nat)
    requires h < Pow2(n) && n <= m
    ensures ToBits(h, n) <= ToBits(h, m) && h < Pow2(m)
  {
    hide Pow2, Low, Shr;
    LowBits(h, m, n);
    Pow2Mono(n, m);
  }
}
