/**
 What the formats say of the tables and constants that reader, writer and reference decoder share: each is stated
 here from the text of RFC 1951 and RFC 1952, not from the code.
 */
module FormatLaws {
  import opened Bits
  import opened Canonical
  import opened TableSpec
  import opened Rfc1951
  import opened Wrapper
  import opened GzipSpec
  import AdlerSpec
  import CrcSpec
  import BackFindings
  import Inftrees

  // ---------- section 3.2.7 of RFC 1951: code lengths ----------

  /** Lengths of the code length code come for 16, 17, 18, 0, and then outwards from 8: 8, 7, 9, 6, ... 1, 15. */
  lemma PlacedLaw(got: seq<nat>)
    requires |got| == 19
    ensures var cl := Placed(got);
            && cl[16] == got[0] && cl[17] == got[1] && cl[18] == got[2] && cl[0] == got[3]
            && (forall j :: 0 <= j < 8 ==> cl[8 + j] == got[4 + 2 * j])
            && (forall j :: 0 <= j < 7 ==> cl[7 - j] == got[5 + 2 * j])
  {
  }

  /** Those not given are zero, and any number of them may be given. */
  lemma PlacedShort(got: seq<nat>)
    requires |got| <= 19
    ensures Placed(got) == Placed(got + Repeat(0, 19 - |got|))
  {
    var all := got + Repeat(0, 19 - |got|);
    forall i | 0 <= i < 19 ensures Placed(got)[i] == Placed(all)[i] {
      assert PLACE[i] < |got| ==> all[PLACE[i]] == got[PLACE[i]];
    }
  }

  /** A length is repeated 3 to 6 times by 16, and zero 3 to 10 times by 17 and 11 to 138 times by 18. */
  lemma RepeatLaw(n: nat)
    ensures RepeatBase(16) <= n < RepeatBase(16) + Pow2(RepeatBits(16)) <==> 3 <= n <= 6
    ensures RepeatBase(17) <= n < RepeatBase(17) + Pow2(RepeatBits(17)) <==> 3 <= n <= 10
    ensures RepeatBase(18) <= n < RepeatBase(18) + Pow2(RepeatBits(18)) <==> 11 <= n <= 138
  {
    assert Pow2(2) == 4 && Pow2(3) == 8 && Pow2(7) == 128;
  }

  // ---------- what is no block ----------

  /** Of the two bits after the first, low bit first: stored, fixed codes, own codes, and no fourth type. */
  lemma BlockTypes(w: nat, bits: seq<bool>, out: seq<byte>)
    requires |bits| >= 3
    ensures bits[1] && bits[2] ==> Blocks(w, false, bits, out) == Corrupt(out)
    ensures !bits[1] && !bits[2] ==> Blocks(w, false, bits, out) == Stored(w, bits[0], bits[3..], out)
    ensures bits[1] && !bits[2] ==>
      Blocks(w, false, bits, out) == Codes(w, bits[0], FIXED_LENS, FIXED_DISTS, bits[3..], out)
    ensures !bits[1] && bits[2] ==> Blocks(w, false, bits, out) == Dynamic(w, bits[0], bits[3..], out)
  {
    hide Stored, Codes, Dynamic, FIXED_LENS, FIXED_DISTS;
    var t := bits[1..3];
    assert t[1..] == [bits[2]] && [bits[2]][1..] == [];
    assert ToInt([bits[2]]) == if bits[2] then 1 else 0;
  }

  /** A stored block begins with its length and the complement of that. */
  lemma StoredLengths(w: nat, last: bool, bits: seq<bool>, out: seq<byte>)
    requires |bits| % 8 == 0 && |bits| >= 32
    ensures Stored(w, last, bits, out) ==
            if bits[16..32] == Flipped(bits[..16]) then Copy(w, last, ToInt(bits[..16]), bits[32..], out)
            else Corrupt(out)
  {
    hide ToInt, Copy;
    var a, b := bits[..16], bits[16..32];
    assert Align(bits) == bits;
    Complement(a, b);
    assert Pow2(16) == 65536 by {
      assert Pow2(8) == 256;
    }
  }

  function Flipped(bits: seq<bool>): (r: seq<bool>)
    ensures |r| == |bits|
  {
    seq(|bits|, i requires 0 <= i < |bits| => !bits[i])
  }

  lemma {:induction false} Complement(a: seq<bool>, b: seq<bool>)
    requires |a| == |b|
    ensures ToInt(a) + ToInt(b) + 1 == Pow2(|a|) <==> b == Flipped(a)
  {
    hide Pow2;
    FlippedSum(a);
    if ToInt(a) + ToInt(b) + 1 == Pow2(|a|) {
      ToBitsToInt(b);
      ToBitsToInt(Flipped(a));
    }
  }

  lemma {:induction false} FlippedSum(a: seq<bool>)
    ensures ToInt(a) + ToInt(Flipped(a)) + 1 == Pow2(|a|)
    decreases |a|
  {
    if a != [] {
      FlippedSum(a[1..]);
      assert Flipped(a)[1..] == Flipped(a[1..]);
    }
  }

  /** At most 286 codes for literals and lengths and 30 for distances. */
  lemma CountLimits(w: nat, last: bool, bits: seq<bool>, out: seq<byte>)
    requires |bits| >= 14
    ensures var nlen, ndist, ncode := 257 + ToInt(bits[..5]), 1 + ToInt(bits[5..10]), 4 + ToInt(bits[10..14]);
            Dynamic(w, last, bits, out) ==
            if nlen > 286 || ndist > 30 then Corrupt(out)
            else CodeLenLens(w, last, nlen, ndist, ncode, [], bits[14..], out)
  {
    hide CodeLenLens, ToInt;
  }

  /** A length repeated before there is one, or beyond the last, is an error. */
  lemma RepeatErrors(w: nat, last: bool, nlen: nat, ndist: nat, cl: seq<nat>, lens: seq<nat>, bits: seq<bool>,
        out: seq<byte>, s: nat, rest: seq<bool>)
    requires |lens| < nlen + ndist && ReadSymbol(cl, bits) == Sym(s, rest) && 16 <= s && |rest| >= RepeatBits(s)
    requires (s == 16 && lens == []) || |lens| + RepeatBase(s) + ToInt(rest[..RepeatBits(s)]) > nlen + ndist
    ensures CodeLens(w, last, nlen, ndist, cl, lens, bits, out) == Corrupt(out)
  {
    hide ReadSymbol, ToInt, RepeatBits, RepeatBase;
  }

  /** So is a code without an end of the block, or one that cannot be used. */
  lemma TableErrors(w: nat, last: bool, ll: seq<nat>, dl: seq<nat>, bits: seq<bool>, out: seq<byte>)
    requires |ll| >= 257 && ValidLens(ll) && ValidLens(dl)
    ensures Tables(w, last, |ll|, ll + dl, bits, out) ==
            if ll[256] == 0 || Refused(LENS, ll) || Refused(DISTS, dl) then Corrupt(out)
            else Codes(w, last, ll, dl, bits, out)
  {
    hide Codes, Refused;
    assert (ll + dl)[..|ll|] == ll && (ll + dl)[|ll|..] == dl;
  }

  /** Symbols 286 and 287, distance codes 30 and 31 and distances before the beginning are errors. */
  lemma SymbolErrors(w: nat, last: bool, ll: seq<nat>, dl: seq<nat>, len: nat, bits: seq<bool>, out: seq<byte>, s: nat,
        rest: seq<bool>)
    ensures ReadSymbol(ll, bits) == Sym(s, rest) && s >= 286 ==> Codes(w, last, ll, dl, bits, out) == Corrupt(out)
    ensures ReadSymbol(dl, bits) == Sym(s, rest) && s >= 30 ==> Dist(w, last, ll, dl, len, bits, out) == Corrupt(out)
    ensures s > |out| ==> Match(w, last, ll, dl, len, s, bits, out) == Corrupt(out)
  {
    hide ReadSymbol, LenExt, DistExt;
  }

  /** Lengths make no usable code unless they are complete, or none, or, but for code lengths, a lone bit. */
  lemma RefusedLaw(kind: Kind, lens: seq<nat>)
    requires ValidLens(lens)
    ensures Refused(kind, lens) <==>
            !(Kraft(lens) == Pow2(MAXBITS) || NoSymbols(lens) || (kind != CODES && LoneBit(lens)))
  {
    hide Kraft, Pow2, LoneBit, AtMostOneBit;
    if NoSymbols(lens) {
      Inftrees.NoSymbolsKraft(lens);
      PowPositive(MAXBITS);
    }
    LoneIs(lens);
    IsLone(lens);
    hide NoSymbols;
  }

  lemma LoneIs(lens: seq<nat>)
    requires ValidLens(lens)
    ensures LoneBit(lens) ==> AtMostOneBit(lens) && !NoSymbols(lens) && Kraft(lens) < Pow2(MAXBITS)
  {
    hide Kraft, Pow2, Count;
    if LoneBit(lens) {
      var i :| 0 <= i < |lens| && lens[i] == 1 && forall j :: 0 <= j < |lens| && j != i ==> lens[j] == 0;
      OneCounted(lens, i);
      OneBits(lens);
      Halves();
    }
  }

  lemma IsLone(lens: seq<nat>)
    requires ValidLens(lens)
    ensures AtMostOneBit(lens) && !NoSymbols(lens) && Kraft(lens) < Pow2(MAXBITS) ==> LoneBit(lens)
  {
    hide Kraft, Pow2, Count;
    if AtMostOneBit(lens) && !NoSymbols(lens) && Kraft(lens) < Pow2(MAXBITS) {
      OneBits(lens);
      Halves();
      Multiples(Count(lens, 1), Pow2(MAXBITS - 1));
      var i :| 0 <= i < |lens| && lens[i] != 0;
      OnlyOne(lens, i);
    }
  }

  lemma Multiples(n: nat, p: nat)
    ensures n >= 2 ==> n * p >= 2 * p
  {
    if n >= 2 {
      assert n * p == 2 * p + (n - 2) * p;
    }
  }

  /** One symbol, and its code has one bit. */
  ghost predicate LoneBit(lens: seq<nat>) {
    exists i :: 0 <= i < |lens| && lens[i] == 1 && forall j :: 0 <= j < |lens| && j != i ==> lens[j] == 0
  }

  lemma Halves()
    ensures Pow2(MAXBITS) == 2 * Pow2(MAXBITS - 1) && Pow2(MAXBITS - 1) > 0
  {
  }

  lemma {:induction false} OneBits(lens: seq<nat>)
    requires ValidLens(lens)
    ensures AtMostOneBit(lens) ==> Kraft(lens) == Count(lens, 1) * Pow2(MAXBITS - 1)
    decreases |lens|
  {
    hide Pow2;
    if lens != [] {
      var n := |lens| - 1;
      OneBits(lens[..n]);
    }
  }

  lemma {:induction false} OneCounted(lens: seq<nat>, i: nat)
    requires i < |lens| && lens[i] == 1 && forall j :: 0 <= j < |lens| && j != i ==> lens[j] == 0
    ensures Count(lens, 1) == 1
    decreases |lens|
  {
    var n := |lens| - 1;
    if i < n {
      OneCounted(lens[..n], i);
    } else {
      NoneCounted(lens[..n]);
    }
  }

  lemma {:induction false} NoneCounted(lens: seq<nat>)
    requires NoSymbols(lens)
    ensures Count(lens, 1) == 0
    decreases |lens|
  {
    if lens != [] {
      NoneCounted(lens[..|lens| - 1]);
    }
  }

  lemma {:induction false} OnlyOne(lens: seq<nat>, i: nat)
    requires AtMostOneBit(lens) && i < |lens| && lens[i] == 1 && Count(lens, 1) < 2
    ensures forall j :: 0 <= j < |lens| && j != i ==> lens[j] == 0
    decreases |lens|
  {
    var n := |lens| - 1;
    if i < n {
      SomeCounted(lens[..n], i);
      OnlyOne(lens[..n], i);
      forall j | 0 <= j < |lens| && j != i ensures lens[j] == 0 {
        assert j < n ==> lens[..n][j] == lens[j];
      }
    } else {
      forall j | 0 <= j < n ensures lens[j] == 0 {
        if lens[j] == 1 {
          SomeCounted(lens[..n], j);
        }
      }
    }
  }

  lemma {:induction false} SomeCounted(lens: seq<nat>, i: nat)
    requires i < |lens| && lens[i] == 1
    ensures Count(lens, 1) >= 1
    decreases |lens|
  {
    if i < |lens| - 1 {
      SomeCounted(lens[..|lens| - 1], i);
    }
  }

  // ---------- section 3.2.5 of RFC 1951: lengths and distances ----------

  /** Length codes begin at 3 and leave nothing out; four in turn have one extra bit more, and 258 has its own. */
  lemma LengthLaw(i: nat)
    requires i < 28
    ensures LBASE[0] == 3 && LBASE[28] == 258 && LEXT[28] % 16 == 0
    ensures LEXT[i] % 16 == if i < 8 then 0 else i / 4 - 1
    ensures LBASE[i] + Pow2(LEXT[i] % 16) == if i < 27 then LBASE[i + 1] else 259
  {
    assert Pow2(0) == 1 && Pow2(1) == 2 && Pow2(2) == 4 && Pow2(3) == 8 && Pow2(4) == 16 && Pow2(5) == 32;
  }

  /** Distance codes begin at 1 and leave nothing out up to 32768; two in turn have one extra bit more. */
  lemma DistanceLaw(i: nat)
    requires i < 30
    ensures DBASE[0] == 1 && DEXT[i] % 16 == if i < 4 then 0 else i / 2 - 1
    ensures DBASE[i] + Pow2(DEXT[i] % 16) == if i < 29 then DBASE[i + 1] else 32769
  {
    hide Pow2;
    Powers();
    if i < 8 {
      FirstDistances(i);
    } else if i < 16 {
      MoreDistances(i);
    } else {
      LastDistances(i);
    }
  }

  lemma Powers()
    ensures Pow2(0) == 1 && Pow2(1) == 2 && Pow2(2) == 4 && Pow2(3) == 8 && Pow2(4) == 16 && Pow2(5) == 32
    ensures Pow2(6) == 64 && Pow2(7) == 128 && Pow2(8) == 256 && Pow2(9) == 512 && Pow2(10) == 1024
    ensures Pow2(11) == 2048 && Pow2(12) == 4096 && Pow2(13) == 8192
  {
  }

  lemma FirstDistances(i: nat)
    requires i < 8
    ensures DEXT[i] % 16 == if i < 4 then 0 else i / 2 - 1
    ensures DBASE[i] + Pow2(DEXT[i] % 16) == DBASE[i + 1]
  {
    hide Pow2;
    Powers();
  }

  lemma MoreDistances(i: nat)
    requires 8 <= i < 16
    ensures DEXT[i] % 16 == i / 2 - 1
    ensures DBASE[i] + Pow2(DEXT[i] % 16) == DBASE[i + 1]
  {
    hide Pow2;
    Powers();
  }

  lemma LastDistances(i: nat)
    requires 16 <= i < 30
    ensures DEXT[i] % 16 == i / 2 - 1
    ensures DBASE[i] + Pow2(DEXT[i] % 16) == if i < 29 then DBASE[i + 1] else 32769
  {
    hide Pow2;
    Powers();
  }

  // ---------- section 3.2.6 of RFC 1951: the fixed codes ----------

  /** Eight bits from 00110000 on, nine from 110010000, seven from 0000000 and eight from 11000000. */
  lemma FixedLaw(s: nat)
    requires s < 288
    ensures FIXED_LENS[s] == if s < 144 then 8 else if s < 256 then 9 else if s < 280 then 7 else 8
    ensures CodeOf(FIXED_LENS, s) ==
            if s < 144 then 0x30 + s else if s < 256 then 0x190 + s - 144 else if s < 280 then s - 256
            else 0xc0 + s - 280
  {
    hide Count, NextCode, Repeat;
    FixedParts(s);
    FixedNext();
    var a, b, c := Repeat(8, 144), Repeat(9, 112), Repeat(7, 24);
    if s < 144 {
      CountRun([], 8, s, 8);
    } else if s < 256 {
      CountRun([], 8, 144, 9);
      CountRun(a, 9, s - 144, 9);
    } else if s < 280 {
      CountRun([], 8, 144, 7);
      CountRun(a, 9, 112, 7);
      CountRun(a + b, 7, s - 256, 7);
    } else {
      CountRun([], 8, 144, 8);
      CountRun(a, 9, 112, 8);
      CountRun(a + b, 7, 24, 8);
      CountRun(a + b + c, 8, s - 280, 8);
    }
  }

  lemma FixedParts(s: nat)
    requires s < 288
    ensures |FIXED_LENS| == 288
    ensures FIXED_LENS[s] == if s < 144 then 8 else if s < 256 then 9 else if s < 280 then 7 else 8
    ensures [] + Repeat(8, 144) == Repeat(8, 144) && Count([], 7) == Count([], 8) == Count([], 9) == 0
    ensures FIXED_LENS[..s] ==
            if s < 144 then [] + Repeat(8, s) else if s < 256 then Repeat(8, 144) + Repeat(9, s - 144)
            else if s < 280 then Repeat(8, 144) + Repeat(9, 112) + Repeat(7, s - 256)
            else Repeat(8, 144) + Repeat(9, 112) + Repeat(7, 24) + Repeat(8, s - 280)
  {
  }

  lemma CountRun(a: seq<nat>, x: nat, n: nat, l: nat)
    ensures Count(a + Repeat(x, n), l) == Count(a, l) + if x == l then n else 0
  {
    hide Count;
    BackFindings.CountAdd(a, x, n, l);
  }

  lemma FixedNext()
    ensures NextCode(FIXED_LENS, 7) == 0 && NextCode(FIXED_LENS, 8) == 0x30 && NextCode(FIXED_LENS, 9) == 0x190
  {
    hide Count, FIXED_LENS;
    BackFindings.NextFixed(7);
    BackFindings.CountFixed(7);
    BackFindings.CountFixed(8);
    assert NextCode(FIXED_LENS, 8) == 48;
  }

  // ---------- section 8.2 of RFC 1950: Adler-32 ----------

  /** Both sums are taken modulo 65521. */
  lemma AdlerLaw(a: nat, b: nat, x: byte, rest: seq<byte>)
    ensures var a' := (a + x) % 65521;
            AdlerSpec.Sums(a, b, [x] + rest) == AdlerSpec.Sums(a', (b + a') % 65521, rest)
    ensures AdlerSpec.Sums(a, b, []) == (a, b)
  {
    var data := [x] + rest;
    assert data[1..] == rest && data[0] == x;
  }

  // ---------- RFC 1950 and RFC 1952: the trailers ----------

  /** After a zlib stream only the Adler-32 of the output, high byte first, is accepted. */
  lemma ZlibTrailer(wrap: nat, bits: seq<bool>, out: seq<byte>, rest: seq<bool>)
    requires wrap != 0 && Verify(wrap)
    ensures Trailer(wrap, 0, bits, out) == Finished(out, rest) <==>
            bits == BytesBits(Msb4(AdlerSpec.Adler32(1, out))) + rest
  {
    hide ToInt, BytesBits, Swap32, Msb4, AdlerSpec.Adler32;
    var v := AdlerSpec.Adler32(1, out);
    Swapped(v);
    Word32(Swap32(v), rest);
    if Trailer(wrap, 0, bits, out) == Finished(out, rest) {
      var x := ToInt(bits[..32]);
      assert Swap32(x) == v && bits[32..] == rest;
      ToBitsToInt(bits[..32]);
      ThirtyTwo();
      Swapped(x);
      AsBits(x);
      assert bits == bits[..32] + bits[32..];
    }
  }

  lemma ThirtyTwo()
    ensures Pow2(32) == 0x1_0000_0000
  {
    assert Pow2(8) == 256 && Pow2(16) == 65536 && Pow2(24) == 0x100_0000;
  }

  lemma AsBits(v: nat)
    requires v < 0x1_0000_0000
    ensures BytesBits(Bytes4(v)) == ToBits(v, 32)
  {
    hide ToInt, BytesBits, ToBits, Bytes4;
    Word32(v, []);
    var b := BytesBits(Bytes4(v));
    assert b + [] == b && b[..32] == b;
    ToBitsToInt(b);
  }

  /** After a gzip stream only the CRC-32 of the output and its length modulo 2^32, low byte first, are accepted. */
  lemma GzipTrailer(wrap: nat, flags: int, bits: seq<bool>, out: seq<byte>, rest: seq<bool>)
    requires wrap != 0 && Verify(wrap) && flags != 0
    ensures Trailer(wrap, flags, bits, out) == Finished(out, rest) <==>
            bits == BytesBits(Bytes4(CrcSpec.Crc32(0, out))) + BytesBits(Bytes4(|out| % 0x1_0000_0000)) + rest
  {
    hide ToInt, BytesBits, Bytes4, CrcSpec.Crc32;
    var v, n := CrcSpec.Crc32(0, out), |out| % 0x1_0000_0000;
    var a, b := BytesBits(Bytes4(v)), BytesBits(Bytes4(n));
    assert a + b + rest == a + (b + rest);
    Word32(v, b + rest);
    Word32(n, rest);
    if Trailer(wrap, flags, bits, out) == Finished(out, rest) {
      var r := bits[32..];
      assert ToInt(bits[..32]) == v && ToInt(r[..32]) == n && r[32..] == rest;
      ToBitsToInt(bits[..32]);
      ToBitsToInt(r[..32]);
      AsBits(v);
      AsBits(n);
      assert bits == bits[..32] + (r[..32] + r[32..]);
    }
  }

  // ---------- what may come ----------

  /** Bit 0 of wrap allows zlib, bit 1 gzip, and bit 2 has check values verified. */
  lemma WrapLaw(wrap: nat)
    ensures Zlib(wrap) == Bit(wrap, 0) && Gzip(wrap) == Bit(wrap, 1) && Verify(wrap) == Bit(wrap, 2)
  {
    hide Shr;
    ShrFive(wrap);
  }

  // ---------- section 2.2 of RFC 1950: the header ----------

  /**
   Of two bytes that are not those of gzip, or where gzip is not allowed: the method is 8, the window no larger than 32K
   and than the one asked for, the two are a multiple of 31, and bit 5 of the second calls for a dictionary; all
   else is an error.
   */
  lemma ZlibHeaderLaw(wrap: nat, win: Win, head: Saved, cmf: byte, flg: byte, rest: seq<bool>)
    requires wrap != 0 && !(Gzip(wrap) && cmf == 0x1f && flg == 0x8b)
    ensures var h := if head.Header? then Header(head.h.(done := -1)) else head;
            var size := cmf / 16 + 8;
            Head(wrap, win, head, BytesBits([cmf, flg]) + rest) ==
            if !Zlib(wrap) || cmf % 16 != 8 || size > 15 || (win.bits != 0 && size > win.bits) ||
                 (256 * cmf + flg) % 31 != 0 then Result(h, Corrupt([]))
            else if flg / 32 % 2 == 1 then DictId(h, rest)
            else Body(wrap, Win(if win.bits == 0 then size else win.bits, win.wide), 0, h, rest)
  {
    hide ToInt, BytesBits, Flags, DictId, Body, CrcSpec.Crc32;
    var v := cmf + 256 * flg;
    TwoParts(v, cmf, flg);
    assert Bytes2(v) == [cmf, flg];
    Word16(v, rest);
  }

  lemma TwoParts(v: nat, x: byte, y: byte)
    requires v == x + 256 * y
    ensures v % 256 == x && v / 256 == y && v % 16 == x % 16 && v / 16 % 16 == x / 16 && v / 0x2000 % 2 == y / 32 % 2
    ensures v % 256 * 256 + v / 256 == 256 * x + y && (v == 0x8b1f <==> x == 0x1f && y == 0x8b)
  {
    assert v / 16 == x / 16 + 16 * y;
    assert v / 0x2000 == y / 32;
  }

  // ---------- section 2.3.1 of RFC 1952: the flags ----------

  /** The method is 8; bits 0 to 4 are FTEXT, FHCRC, FEXTRA, FNAME and FCOMMENT, and those above are reserved. */
  lemma FlagLaw(wrap: nat, win: Win, check: u32, head: Saved, cm: byte, flg: byte, rest: seq<bool>)
    ensures var v := 8 + 256 * flg;
            && HasHcrc(v) == Bit(flg, 1) && HasExtra(v) == Bit(flg, 2)
            && HasName(v) == Bit(flg, 3) && HasComment(v) == Bit(flg, 4)
    ensures Flags(wrap, win, check, head, BytesBits([cm, flg]) + rest) ==
            if cm != 8 || Bit(flg, 5) || Bit(flg, 6) || Bit(flg, 7) then Result(head, Corrupt([]))
            else Time(wrap, win, 8 + 256 * flg, HeaderCrc(wrap, 8 + 256 * flg, check, [8, flg]),
                      if head.Header? then Header(head.h.(text := Bit(flg, 0))) else head, rest)
  {
    hide ToInt, BytesBits, Time, HeaderCrc, Bit, HasHcrc, HasExtra, HasName, HasComment;
    var v := cm + 256 * flg;
    FlagsAre(flg);
    FlagParts(v, cm, flg);
    Word16(v, rest);
  }

  lemma FlagsAre(flg: byte)
    ensures var v := 8 + 256 * flg;
            && HasHcrc(v) == Bit(flg, 1) && HasExtra(v) == Bit(flg, 2)
            && HasName(v) == Bit(flg, 3) && HasComment(v) == Bit(flg, 4)
    ensures Bit(flg, 0) == (flg % 2 == 1) && (Bit(flg, 5) || Bit(flg, 6) || Bit(flg, 7) <==> flg / 32 != 0)
  {
    hide Bit;
    FlagBit(flg);
  }

  lemma FlagParts(v: nat, cm: byte, flg: byte)
    requires v == cm + 256 * flg
    ensures v % 256 == cm && v / 256 == flg && v / 0x2000 == flg / 32 && Bytes2(v) == [cm, flg] && v < 65536
  {
    assert v % 256 == cm && v / 256 == flg;
  }

  lemma FlagBit(flg: byte)
    ensures Bit(flg, 0) == (flg % 2 == 1) && Bit(flg, 1) == (flg / 2 % 2 == 1) && Bit(flg, 2) == (flg / 4 % 2 == 1)
    ensures Bit(flg, 3) == (flg / 8 % 2 == 1) && Bit(flg, 4) == (flg / 16 % 2 == 1)
    ensures Bit(flg, 5) || Bit(flg, 6) || Bit(flg, 7) <==> flg / 32 != 0
  {
    hide Shr;
    ShrFive(flg);
    ShrNext(flg, 5);
    ShrNext(flg, 6);
    TopBits(flg / 32);
  }

  lemma TopBits(q: nat)
    requires q < 8
    ensures q % 2 == 1 || q / 2 % 2 == 1 || q / 2 / 2 % 2 == 1 <==> q != 0
  {
  }

  lemma ShrFive(h: nat)
    ensures Shr(h, 0) == h && Shr(h, 1) == h / 2 && Shr(h, 2) == h / 4 && Shr(h, 3) == h / 8 && Shr(h, 4) == h / 16
    ensures Shr(h, 5) == h / 32
  {
    hide Shr;
    ShrNext(h, 0);
    ShrNext(h, 1);
    ShrNext(h, 2);
    ShrNext(h, 3);
    ShrNext(h, 4);
  }

  lemma ShrNext(h: nat, n: nat)
    ensures Shr(h, 0) == h && Shr(h, n + 1) == Shr(h, n) / 2
  {
    ShrShr(h, n, 1);
    assert Shr(Shr(h, n), 1) == Shr(Shr(h, n) / 2, 0);
  }
}
