/**
 Streams worked out from the RFCs, and what they decode to.  The decoders of Rfc1951 and Wrapper are what all else is
 proved against; here they are given bytes that no function of the model has made.
 */
module KnownStreams {
  import opened Bits
  import opened Canonical
  import opened TableSpec
  import opened Tokens
  import opened Rfc1951
  import opened Encoding
  import opened InflateSteps
  import opened BlockSpec
  import DynamicSpec
  import BackFindings
  import BitWriter
  import FormatLaws
  import StaticTrees
  import TableFill
  import Fixed

  // ---------- a stream as a number ----------

  /** A byte before bytes that are the number v. */
  lemma Byte(x: byte, rest: seq<byte>, v: nat, n: nat)
    requires BytesBits(rest) == ToBits(v, n)
    ensures BytesBits([x] + rest) == ToBits(x + 256 * v, 8 + n)
  {
    hide ToBits, ToInt;
    assert Pow2(8) == 256;
    var u := x + 256 * v;
    Took(u, 8 + n, 8, x, v);
    assert ([x] + rest)[1..] == rest;
    assert ToBits(u, 8 + n) == ToBits(u, 8 + n)[..8] + ToBits(u, 8 + n)[8..];
  }

  lemma FourBytes(a: byte, b: byte, c: byte, d: byte, rest: seq<byte>, v: nat, n: nat)
    requires BytesBits(rest) == ToBits(v, n)
    ensures BytesBits([a, b, c, d] + rest) ==
            ToBits(a + 0x100 * b + 0x1_0000 * c + 0x100_0000 * d + 0x1_0000_0000 * v, 32 + n)
  {
    hide ToBits, BytesBits;
    Byte(d, rest, v, n);
    Byte(c, [d] + rest, d + 0x100 * v, n + 8);
    Byte(b, [c] + ([d] + rest), c + 0x100 * (d + 0x100 * v), n + 16);
    Byte(a, [b] + ([c] + ([d] + rest)), b + 0x100 * (c + 0x100 * (d + 0x100 * v)), n + 24);
    assert [a, b, c, d] + rest == [a] + ([b] + ([c] + ([d] + rest)));
  }

  lemma NoBytes()
    ensures BytesBits([]) == ToBits(0, 0)
  {
    NoBitsAt(0);
  }

  /** The next k bits, and what is left. */
  lemma Took(v: nat, n: nat, k: nat, x: nat, v': nat)
    requires k <= n && x < Pow2(k) && v == x + Pow2(k) * v'
    ensures ToInt(ToBits(v, n)[..k]) == x && ToBits(v, n)[..k] == ToBits(x, k) &&
            ToBits(v, n)[k..] == ToBits(v', n - k)
  {
    hide Shl, Low;
    ShlTimes(v', k);
    Append(x, k, v');
    LowBits(v, n, k);
    LowOfSmall(x, k);
    ToBitsInjective(v, x, k);
    forall i | 0 <= i < n - k ensures ToBits(v, n)[k..][i] == ToBits(v', n - k)[i] {
      BitOfShift(v, k, i);
    }
  }

  lemma {:induction false} ShlTimes(v: nat, n: nat)
    ensures Shl(v, n) == Pow2(n) * v
  {
    if n > 0 {
      ShlTimes(v, n - 1);
    }
  }

  /** The n bits of c in the other order, after those of done. */
  function Turned(c: nat, n: nat, done: nat): nat
    decreases n
  {
    if n == 0 then done else Turned(c / 2, n - 1, 2 * done + c % 2)
  }

  lemma {:induction false} TurnedIs(c: nat, n: nat, done: nat)
    ensures Turned(c, n, done) == Shl(done, n) + TableFill.Rev(c, n) && TableFill.Rev(c, n) < Pow2(n)
    decreases n
  {
    if n > 0 {
      TurnedIs(c / 2, n - 1, 2 * done + c % 2);
      TableFill.RevSplit(c, n);
      ShlAdd(2 * done, c % 2, n - 1);
      ShlShl(done, 1, n - 1);
      assert Shl(done, 1) == 2 * Shl(done, 0);
      ShlTimes(c % 2, n - 1);
    } else {
      assert MsbBits(c, 0) == [];
    }
  }

  /** The next bits are the code of s, which is x in the order of a stream. */
  lemma Reads(lens: seq<nat>, s: nat, v: nat, n: nat, x: nat, v': nat)
    requires Fits(lens) && Coded(lens, s) && lens[s] <= n
    requires x == Turned(CodeOf(lens, s), lens[s], 0) && v == x + Pow2(lens[s]) * v'
    ensures ReadSymbol(lens, ToBits(v, n)) == Sym(s, ToBits(v', n - lens[s]))
  {
    hide Fits, ReadSymbol, ToBits, MsbBits, CodeOf, Turned, Shl, Pow2;
    var k, c := lens[s], CodeOf(lens, s);
    TurnedIs(c, k, 0);
    ShlZero(k);
    Took(v, n, k, x, v');
    ToBitsToInt(MsbBits(c, k));
    assert ToBits(v, n) == CodeBits(lens, s) + ToBits(v, n)[k..];
    ReadBack(lens, s, ToBits(v, n)[k..]);
  }

  // ---------- steps of the decoder ----------

  lemma TakesByte(w: nat, ll: seq<nat>, dl: seq<nat>, s: byte, v: nat, n: nat, out: seq<byte>, x: nat, v': nat)
    requires Fits(ll) && Coded(ll, s) && ll[s] <= n
    requires x == Turned(CodeOf(ll, s), ll[s], 0) && v == x + Pow2(ll[s]) * v'
    ensures Codes(w, true, ll, dl, ToBits(v, n), out) == Codes(w, true, ll, dl, ToBits(v', n - ll[s]), out + [s])
  {
    hide Fits, ReadSymbol, ToBits, CodeOf, Turned, Pow2, Blocks, LenExt;
    Reads(ll, s, v, n, x, v');
  }

  lemma TakesEnd(w: nat, ll: seq<nat>, dl: seq<nat>, v: nat, n: nat, out: seq<byte>, x: nat, v': nat)
    requires Fits(ll) && Coded(ll, 256) && ll[256] <= n
    requires x == Turned(CodeOf(ll, 256), ll[256], 0) && v == x + Pow2(ll[256]) * v'
    ensures Codes(w, true, ll, dl, ToBits(v, n), out) == Finished(out, Align(ToBits(v', n - ll[256])))
  {
    hide Fits, ReadSymbol, ToBits, CodeOf, Turned, Pow2, LenExt;
    Reads(ll, 256, v, n, x, v');
  }

  /** A length: its code is x, and its extra bits are e. */
  lemma TakesLength(w: nat, ll: seq<nat>, dl: seq<nat>, s: nat, v: nat, n: nat, out: seq<byte>, x: nat, v': nat,
        e: nat, v'': nat)
    requires Fits(ll) && Coded(ll, s) && 257 <= s <= 285 && ll[s] + LEXT[s - 257] % 16 <= n
    requires x == Turned(CodeOf(ll, s), ll[s], 0) && v == x + Pow2(ll[s]) * v'
    requires e < Pow2(LEXT[s - 257] % 16) && v' == e + Pow2(LEXT[s - 257] % 16) * v''
    ensures Codes(w, true, ll, dl, ToBits(v, n), out) ==
            Dist(w, true, ll, dl, LBASE[s - 257] + e, ToBits(v'', n - ll[s] - LEXT[s - 257] % 16), out)
  {
    hide Fits, ReadSymbol, ToBits, CodeOf, Turned, Pow2, Blocks, Dist, LBASE, LEXT, ToInt;
    Reads(ll, s, v, n, x, v');
    TableSizes();
    Took(v', n - ll[s], LEXT[s - 257] % 16, e, v'');
  }

  /** A distance: its code is x, and its extra bits are e. */
  lemma TakesDistance(w: nat, ll: seq<nat>, dl: seq<nat>, s: nat, v: nat, n: nat, len: nat, out: seq<byte>, x: nat,
        v': nat, e: nat, v'': nat)
    requires Fits(dl) && Coded(dl, s) && s <= 29 && dl[s] + DEXT[s] % 16 <= n
    requires x == Turned(CodeOf(dl, s), dl[s], 0) && v == x + Pow2(dl[s]) * v'
    requires e < Pow2(DEXT[s] % 16) && v' == e + Pow2(DEXT[s] % 16) * v''
    ensures Dist(w, true, ll, dl, len, ToBits(v, n), out) ==
            Match(w, true, ll, dl, len, DBASE[s] + e, ToBits(v'', n - dl[s] - DEXT[s] % 16), out)
  {
    hide Fits, ReadSymbol, ToBits, CodeOf, Turned, Pow2, Match, DBASE, DEXT, ToInt;
    Reads(dl, s, v, n, x, v');
    TableSizes();
    Took(v', n - dl[s], DEXT[s] % 16, e, v'');
  }

  /** The three bits before a last block. */
  lemma Opens(w: nat, v: nat, n: nat, out: seq<byte>, kind: nat, v': nat)
    requires n >= 3 && kind < 4 && v == 1 + 2 * kind + 8 * v'
    ensures Blocks(w, false, ToBits(v, n), out) ==
            var rest := ToBits(v', n - 3);
            if kind == 0 then Stored(w, true, rest, out)
            else if kind == 1 then Codes(w, true, FIXED_LENS, FIXED_DISTS, rest, out)
            else if kind == 2 then Dynamic(w, true, rest, out)
            else Corrupt(out)
  {
    hide Stored, Codes, Dynamic, ToBits, FIXED_LENS, FIXED_DISTS, ToInt;
    assert Pow2(1) == 2 && Pow2(2) == 4 && Pow2(3) == 8;
    var b := ToBits(v, n);
    Took(v, n, 1, 1, kind + 4 * v');
    Took(kind + 4 * v', n - 1, 2, kind, v');
    ToBitsTail(v, n);
    assert b[1..3] == b[1..][..2] && b[3..] == b[1..][2..];
  }

  // ---------- the codes ----------

  /** A code within a run of equal lengths. */
  lemma InRun(a: seq<nat>, l: nat, n: nat, b: seq<nat>, j: nat)
    requires j < n
    ensures var lens := a + Repeat(l, n) + b;
            |a| + j < |lens| && lens[|a| + j] == l && CodeOf(lens, |a| + j) == NextCode(lens, l) + Count(a, l) + j
  {
    hide NextCode, Count;
    var lens := a + Repeat(l, n) + b;
    assert lens[..|a| + j] == a + Repeat(l, j);
    FormatLaws.CountRun(a, l, j, l);
  }

  // ---------- a block with the fixed codes ----------

  const FIXED_STREAM: seq<byte> := [0x4b, 0x4c, 0x4a, 0x4c, 0x4c, 0x4a, 0x44, 0x26, 0x01]

  lemma FixedNumber()
    ensures BytesBits(FIXED_STREAM) == ToBits(0x126444a4c4c4a4c4b, 72)
  {
    hide BytesBits, ToBits;
    NoBytes();
    assert FIXED_STREAM[8..] == [0x01] + [];
    Byte(0x01, [], 0x0, 0);
    assert FIXED_STREAM[4..] == [0x4c, 0x4a, 0x44, 0x26] + FIXED_STREAM[8..];
    FourBytes(0x4c, 0x4a, 0x44, 0x26, FIXED_STREAM[8..], 0x1, 8);
    assert FIXED_STREAM == [0x4b, 0x4c, 0x4a, 0x4c] + FIXED_STREAM[4..];
    FourBytes(0x4b, 0x4c, 0x4a, 0x4c, FIXED_STREAM[4..], 0x126444a4c, 40);
  }

  /** A string of twelve bytes from six back has these twice more. */
  lemma Copied(w: nat, ll: seq<nat>, dl: seq<nat>, six: seq<byte>, bits: seq<bool>)
    requires w >= 6 && |six| == 6
    ensures Match(w, true, ll, dl, 12, 6, bits, six) == Codes(w, true, ll, dl, bits, six + six + six)
  {
    hide Codes;
    var text := six + six + six;
    assert Repeats(text, 6, 6, 12);
    CopyReproduces(text, 6, 6, 12);
    assert text[..6] == six && text[..18] == text;
  }

  lemma FixedCodes()
    ensures |FIXED_LENS| == 288 && Fits(FIXED_LENS) && |FIXED_DISTS| == 32 && Fits(FIXED_DISTS)
    ensures FIXED_LENS[97] == 8 && CodeOf(FIXED_LENS, 97) == 145 && FIXED_LENS[98] == 8 && CodeOf(FIXED_LENS, 98) == 146
    ensures FIXED_LENS[256] == 7 && CodeOf(FIXED_LENS, 256) == 0 && FIXED_LENS[265] == 7 && CodeOf(FIXED_LENS, 265) == 9
    ensures FIXED_DISTS[4] == 5 && CodeOf(FIXED_DISTS, 4) == 4
  {
    hide FIXED_LENS, CodeOf, Fits;
    FixedFits();
    Fixed.FixedUsable();
    StaticTrees.FlatCode(32, 4);
    FormatLaws.FixedLaw(97);
    FormatLaws.FixedLaw(98);
    FormatLaws.FixedLaw(256);
    FormatLaws.FixedLaw(265);
  }

  lemma TurnedNext(c: nat, n: nat, done: nat)
    ensures Turned(c, 0, done) == done && Turned(c, n + 1, done) == Turned(c / 2, n, 2 * done + c % 2)
  {
  }

  lemma TurnedThree(c: nat, done: nat)
    ensures Turned(c, 1, done) == 2 * done + c % 2 && Turned(c, 2, done) == 4 * done + 2 * (c % 2) + c / 2 % 2
    ensures Turned(c, 3, done) == 8 * done + 4 * (c % 2) + 2 * (c / 2 % 2) + c / 2 / 2 % 2
  {
    hide Turned;
    TurnedNext(c, 0, done);
    TurnedNext(c, 1, done);
    TurnedNext(c, 2, done);
    TurnedNext(c / 2, 0, 2 * done + c % 2);
    TurnedNext(c / 2, 1, 2 * done + c % 2);
    TurnedNext(c / 2 / 2, 0, 4 * done + 2 * (c % 2) + c / 2 % 2);
    TurnedNext(c / 2 / 2, 0, 2 * (2 * done + c % 2) + c / 2 % 2);
    TurnedNext(c / 2, 0, 2 * done + c % 2);
    TurnedNext(c / 2 / 2 / 2, 0, 8 * done + 4 * (c % 2) + 2 * (c / 2 % 2) + c / 2 / 2 % 2);
  }

  /** Three bits at a time. */
  lemma TurnedOn(c: nat, n: nat, done: nat)
    ensures Turned(c, n + 3, done) ==
            Turned(c / 2 / 2 / 2, n, 8 * done + 4 * (c % 2) + 2 * (c / 2 % 2) + c / 2 / 2 % 2)
  {
    hide Turned;
    TurnedNext(c, n + 2, done);
    TurnedNext(c / 2, n + 1, 2 * done + c % 2);
    TurnedNext(c / 2 / 2, n, 2 * (2 * done + c % 2) + c / 2 % 2);
  }

  lemma TurnedCodes()
    ensures Turned(145, 8, 0) == 0x89 && Turned(146, 8, 0) == 0x49
    ensures Turned(0, 7, 0) == 0 && Turned(9, 7, 0) == 0x48 && Turned(4, 5, 0) == 4
  {
    hide Turned;
    TurnedOn(145, 5, 0);
    TurnedOn(18, 2, 4);
    TurnedThree(2, 34);
    TurnedOn(146, 5, 0);
    TurnedOn(18, 2, 2);
    TurnedThree(2, 18);
    TurnedOn(0, 4, 0);
    TurnedOn(0, 1, 0);
    TurnedThree(0, 0);
    TurnedOn(9, 4, 0);
    TurnedOn(1, 1, 4);
    TurnedThree(0, 36);
    TurnedOn(4, 2, 0);
    TurnedThree(0, 1);
  }

  lemma FixedText(w: nat)
    requires w >= 6
    ensures Codes(w, true, FIXED_LENS, FIXED_DISTS, ToBits(0x24c8894989894989, 69), []) ==
            Finished([97, 98, 97, 97, 98, 97, 97, 98, 97, 97, 98, 97, 97, 98, 97, 97, 98, 97], [])
  {
    hide FIXED_LENS, FIXED_DISTS, CodeOf, Fits, ToBits, Codes, Dist, Match, LBASE, DBASE, LEXT, DEXT, Turned, Pow2;
    var ll, dl := FIXED_LENS, FIXED_DISTS;
    FixedCodes();
    TurnedCodes();
    FewCodes();
    Powers();
    var o: seq<byte> := [];
    TakesByte(w, ll, dl, 97, 0x24c8894989894989, 69, o, 0x89, 0x24c88949898949);
    o := o + [97];
    TakesByte(w, ll, dl, 98, 0x24c88949898949, 61, o, 0x49, 0x24c889498989);
    o := o + [98];
    TakesByte(w, ll, dl, 97, 0x24c889498989, 53, o, 0x89, 0x24c8894989);
    o := o + [97];
    TakesByte(w, ll, dl, 97, 0x24c8894989, 45, o, 0x89, 0x24c88949);
    o := o + [97];
    TakesByte(w, ll, dl, 98, 0x24c88949, 37, o, 0x49, 0x24c889);
    o := o + [98];
    TakesByte(w, ll, dl, 97, 0x24c889, 29, o, 0x89, 0x24c8);
    o := o + [97];
    TakesLength(w, ll, dl, 265, 0x24c8, 21, o, 0x48, 0x49, 1, 0x24);
    TakesDistance(w, ll, dl, 4, 0x24, 13, 12, o, 4, 1, 1, 0);
    Copied(w, ll, dl, o, ToBits(0, 7));
    TakesEnd(w, ll, dl, 0, 7, o + o + o, 0, 0);
    NoBitsAt(0);
    assert o == [97, 98, 97, 97, 98, 97];
  }

  lemma Powers()
    ensures Pow2(1) == 2 && Pow2(2) == 4 && Pow2(3) == 8 && Pow2(5) == 32 && Pow2(7) == 128 && Pow2(8) == 256
  {
  }

  lemma FewCodes()
    ensures |LBASE| == |LEXT| == 31 && |DBASE| == |DEXT| == 32
    ensures LBASE[8] == 11 && LEXT[8] % 16 == 1 && DBASE[4] == 5 && DEXT[4] % 16 == 1
  {
  }

  /** A block with the fixed codes: the six bytes abaaba, and a string of twelve from six back. */
  lemma FixedStream(w: nat)
    requires w >= 6
    ensures Blocks(w, false, BytesBits(FIXED_STREAM), []) ==
            Finished([97, 98, 97, 97, 98, 97, 97, 98, 97, 97, 98, 97, 97, 98, 97, 97, 98, 97], [])
  {
    hide Blocks, BytesBits, ToBits, Codes, FIXED_LENS, FIXED_DISTS;
    FixedNumber();
    Opens(w, 0x126444a4c4c4a4c4b, 72, [], 1, 0x24c8894989894989);
    FixedText(w);
  }

  // ---------- a stored block ----------

  const STORED_STREAM: seq<byte> := [0x01, 0x03, 0x00, 0xfc, 0xff, 0x61, 0x62, 0x63]

  lemma StoredNumber()
    ensures BytesBits(STORED_STREAM) == ToBits(0x636261fffc000301, 64)
  {
    hide BytesBits, ToBits;
    NoBytes();
    assert STORED_STREAM[4..] == [0xff, 0x61, 0x62, 0x63] + [];
    FourBytes(0xff, 0x61, 0x62, 0x63, [], 0x0, 0);
    assert STORED_STREAM == [0x01, 0x03, 0x00, 0xfc] + STORED_STREAM[4..];
    FourBytes(0x01, 0x03, 0x00, 0xfc, STORED_STREAM[4..], 0x636261ff, 32);
  }

  /** One byte is copied. */
  lemma TakesCopy(w: nat, len: nat, v: nat, n: nat, out: seq<byte>, x: byte, v': nat)
    requires len > 0 && n >= 8 && v == x + 256 * v'
    ensures Copy(w, true, len, ToBits(v, n), out) == Copy(w, true, len - 1, ToBits(v', n - 8), out + [x])
  {
    hide ToBits, ToInt, Blocks;
    assert Pow2(8) == 256;
    Took(v, n, 8, x, v');
  }

  /** The bytes abc, stored. */
  lemma StoredStream(w: nat)
    ensures Blocks(w, false, BytesBits(STORED_STREAM), []) == Finished([97, 98, 99], [])
  {
    hide Blocks, BytesBits, ToBits, ToInt, Copy, Pow2;
    StoredNumber();
    Opens(w, 0x636261fffc000301, 64, [], 0, 0xc6c4c3fff800060);
    Powers();
    BitWriter.SixteenPower();
    Took(0xc6c4c3fff800060, 61, 5, 0, 0x636261fffc0003);
    var b := ToBits(0x636261fffc0003, 56);
    Took(0x636261fffc0003, 56, 16, 3, 0x636261fffc);
    Took(0x636261fffc, 40, 16, 0xfffc, 0x636261);
    assert b[16..32] == b[16..][..16] && b[32..] == b[16..][16..];
    var o: seq<byte> := [];
    TakesCopy(w, 3, 0x636261, 24, o, 97, 0x6362);
    o := o + [97];
    TakesCopy(w, 2, 0x6362, 16, o, 98, 0x63);
    o := o + [98];
    TakesCopy(w, 1, 0x63, 8, o, 99, 0);
    o := o + [99];
    CopyDone(w, true, ToBits(0, 0), o);
    BlocksEnd(w, ToBits(0, 0), o);
    NoBitsAt(0);
  }

  // ---------- a block with codes of its own ----------

  const DYNAMIC_STREAM: seq<byte> :=
    [0x4d, 0xc5, 0x27, 0x01, 0x00, 0x00, 0x00, 0xc3, 0x30, 0xad, 0x3b, 0xfe, 0x35, 0x94, 0x96, 0x24, 0xe9, 0x9e, 0x5a,
     0x00]

  lemma DynamicNumber()
    ensures BytesBits(DYNAMIC_STREAM) == ToBits(0x5a9ee924969435fe3bad30c30000000127c54d, 160)
  {
    hide BytesBits, ToBits;
    NoBytes();
    assert DYNAMIC_STREAM[16..] == [0xe9, 0x9e, 0x5a, 0x00] + [];
    FourBytes(0xe9, 0x9e, 0x5a, 0x00, [], 0x0, 0);
    assert DYNAMIC_STREAM[12..] == [0x35, 0x94, 0x96, 0x24] + DYNAMIC_STREAM[16..];
    FourBytes(0x35, 0x94, 0x96, 0x24, DYNAMIC_STREAM[16..], 0x5a9ee9, 32);
    assert DYNAMIC_STREAM[8..] == [0x30, 0xad, 0x3b, 0xfe] + DYNAMIC_STREAM[12..];
    FourBytes(0x30, 0xad, 0x3b, 0xfe, DYNAMIC_STREAM[12..], 0x5a9ee924969435, 64);
    assert DYNAMIC_STREAM[4..] == [0x00, 0x00, 0x00, 0xc3] + DYNAMIC_STREAM[8..];
    FourBytes(0x00, 0x00, 0x00, 0xc3, DYNAMIC_STREAM[8..], 0x5a9ee924969435fe3bad30, 96);
    assert DYNAMIC_STREAM == [0x4d, 0xc5, 0x27, 0x01] + DYNAMIC_STREAM[4..];
    FourBytes(0x4d, 0xc5, 0x27, 0x01, DYNAMIC_STREAM[4..], 0x5a9ee924969435fe3bad30c3000000, 128);
  }

  /** Lengths of two bits for 17 and 18, and of three for 1, 2, 3 and 16. */
  const CL: seq<nat> := Repeat(0, 1) + Repeat(3, 3) + Repeat(0, 12) + Repeat(3, 1) + Repeat(2, 2)

  /** Of three bits for a, b, c and d, and of two for the end of the block and the lengths 11 and 12. */
  const LL: seq<nat> := Repeat(0, 97) + Repeat(3, 4) + Repeat(0, 155) + Repeat(2, 1) + Repeat(0, 8) + Repeat(2, 1)

  /** Of one bit for the distances 5 and 6, and 7 and 8. */
  const DL: seq<nat> := Repeat(0, 4) + Repeat(1, 2)

  lemma {:induction false} KraftZeros(lens: seq<nat>, n: nat)
    requires ValidLens(lens)
    ensures ValidLens(lens + Repeat(0, n)) && Kraft(lens + Repeat(0, n)) == Kraft(lens)
    decreases n
  {
    if n == 0 {
      assert lens + Repeat(0, 0) == lens;
    } else {
      KraftZeros(lens, n - 1);
      assert (lens + Repeat(0, n))[..|lens| + n - 1] == lens + Repeat(0, n - 1);
    }
  }

  lemma Weights()
    ensures Pow2(12) == 4096 && Pow2(13) == 8192 && Pow2(14) == 16384 && Pow2(15) == 32768
  {
    assert Pow2(10) == 1024;
  }

  lemma Nothing(lens: seq<nat>)
    ensures Kraft([]) == 0 && Count([], 1) == 0 && Count([], 2) == 0 && Count([], 3) == 0
    ensures NextCode(lens, 1) == 0 && NextCode(lens, 2) == 2 * Count(lens, 1)
    ensures NextCode(lens, 3) == 2 * (2 * Count(lens, 1) + Count(lens, 2))
  {
    hide Count;
    assert Count([], 1) == 0 && Count([], 2) == 0 && Count([], 3) == 0 by {
      BackFindings.NoneCounted(1);
      BackFindings.NoneCounted(2);
      BackFindings.NoneCounted(3);
    }
  }

  lemma NoLens()
    ensures ValidLens([])
  {
  }

  lemma ClCodes()
    ensures |CL| == 19 && ValidLens(CL) && Kraft(CL) == Pow2(MAXBITS)
    ensures CL[1] == 3 && CodeOf(CL, 1) == 4
    ensures CL[2] == 3 && CodeOf(CL, 2) == 5
    ensures CL[3] == 3 && CodeOf(CL, 3) == 6
    ensures CL[16] == 3 && CodeOf(CL, 16) == 7
    ensures CL[17] == 2 && CodeOf(CL, 17) == 0
    ensures CL[18] == 2 && CodeOf(CL, 18) == 1
  {
    hide Kraft, Count, NextCode, CodeOf, Repeat, ValidLens, Pow2;
    Weights();
    Nothing(CL);
    assert ValidLens([]) by {
      NoLens();
    }
    var p0 := [] + Repeat(0, 1);
    KraftZeros([], 1);
    FormatLaws.CountRun([], 0, 1, 1);
    FormatLaws.CountRun([], 0, 1, 2);
    FormatLaws.CountRun([], 0, 1, 3);
    var p1 := p0 + Repeat(3, 3);
    Fixed.KraftRepeat(p0, 3, 3);
    FormatLaws.CountRun(p0, 3, 3, 1);
    FormatLaws.CountRun(p0, 3, 3, 2);
    FormatLaws.CountRun(p0, 3, 3, 3);
    var p2 := p1 + Repeat(0, 12);
    KraftZeros(p1, 12);
    FormatLaws.CountRun(p1, 0, 12, 1);
    FormatLaws.CountRun(p1, 0, 12, 2);
    FormatLaws.CountRun(p1, 0, 12, 3);
    var p3 := p2 + Repeat(3, 1);
    Fixed.KraftRepeat(p2, 3, 1);
    FormatLaws.CountRun(p2, 3, 1, 1);
    FormatLaws.CountRun(p2, 3, 1, 2);
    FormatLaws.CountRun(p2, 3, 1, 3);
    var p4 := p3 + Repeat(2, 2);
    Fixed.KraftRepeat(p3, 2, 2);
    FormatLaws.CountRun(p3, 2, 2, 1);
    FormatLaws.CountRun(p3, 2, 2, 2);
    FormatLaws.CountRun(p3, 2, 2, 3);
    assert CL == p4;
    assert CL == p0 + Repeat(3, 3) + (Repeat(0, 12) + Repeat(3, 1) + Repeat(2, 2));
    InRun(p0, 3, 3, Repeat(0, 12) + Repeat(3, 1) + Repeat(2, 2), 0);
    InRun(p0, 3, 3, Repeat(0, 12) + Repeat(3, 1) + Repeat(2, 2), 1);
    InRun(p0, 3, 3, Repeat(0, 12) + Repeat(3, 1) + Repeat(2, 2), 2);
    assert CL == p2 + Repeat(3, 1) + (Repeat(2, 2));
    InRun(p2, 3, 1, Repeat(2, 2), 0);
    assert CL == p3 + Repeat(2, 2) + ([]);
    InRun(p3, 2, 2, [], 0);
    InRun(p3, 2, 2, [], 1);
  }

  lemma LlCodes()
    ensures |LL| == 266 && ValidLens(LL) && Kraft(LL) == Pow2(MAXBITS)
    ensures LL[97] == 3 && CodeOf(LL, 97) == 4
    ensures LL[98] == 3 && CodeOf(LL, 98) == 5
    ensures LL[99] == 3 && CodeOf(LL, 99) == 6
    ensures LL[100] == 3 && CodeOf(LL, 100) == 7
    ensures LL[256] == 2 && CodeOf(LL, 256) == 0
    ensures LL[265] == 2 && CodeOf(LL, 265) == 1
  {
    hide Kraft, Count, NextCode, CodeOf, Repeat, ValidLens, Pow2;
    Weights();
    Nothing(LL);
    assert ValidLens([]) by {
      NoLens();
    }
    var p0 := [] + Repeat(0, 97);
    KraftZeros([], 97);
    FormatLaws.CountRun([], 0, 97, 1);
    FormatLaws.CountRun([], 0, 97, 2);
    FormatLaws.CountRun([], 0, 97, 3);
    var p1 := p0 + Repeat(3, 4);
    Fixed.KraftRepeat(p0, 3, 4);
    FormatLaws.CountRun(p0, 3, 4, 1);
    FormatLaws.CountRun(p0, 3, 4, 2);
    FormatLaws.CountRun(p0, 3, 4, 3);
    var p2 := p1 + Repeat(0, 155);
    KraftZeros(p1, 155);
    FormatLaws.CountRun(p1, 0, 155, 1);
    FormatLaws.CountRun(p1, 0, 155, 2);
    FormatLaws.CountRun(p1, 0, 155, 3);
    var p3 := p2 + Repeat(2, 1);
    Fixed.KraftRepeat(p2, 2, 1);
    FormatLaws.CountRun(p2, 2, 1, 1);
    FormatLaws.CountRun(p2, 2, 1, 2);
    FormatLaws.CountRun(p2, 2, 1, 3);
    var p4 := p3 + Repeat(0, 8);
    KraftZeros(p3, 8);
    FormatLaws.CountRun(p3, 0, 8, 1);
    FormatLaws.CountRun(p3, 0, 8, 2);
    FormatLaws.CountRun(p3, 0, 8, 3);
    var p5 := p4 + Repeat(2, 1);
    Fixed.KraftRepeat(p4, 2, 1);
    FormatLaws.CountRun(p4, 2, 1, 1);
    FormatLaws.CountRun(p4, 2, 1, 2);
    FormatLaws.CountRun(p4, 2, 1, 3);
    assert LL == p5;
    assert LL == p0 + Repeat(3, 4) + (Repeat(0, 155) + Repeat(2, 1) + Repeat(0, 8) + Repeat(2, 1));
    InRun(p0, 3, 4, Repeat(0, 155) + Repeat(2, 1) + Repeat(0, 8) + Repeat(2, 1), 0);
    InRun(p0, 3, 4, Repeat(0, 155) + Repeat(2, 1) + Repeat(0, 8) + Repeat(2, 1), 1);
    InRun(p0, 3, 4, Repeat(0, 155) + Repeat(2, 1) + Repeat(0, 8) + Repeat(2, 1), 2);
    InRun(p0, 3, 4, Repeat(0, 155) + Repeat(2, 1) + Repeat(0, 8) + Repeat(2, 1), 3);
    assert LL == p2 + Repeat(2, 1) + (Repeat(0, 8) + Repeat(2, 1));
    InRun(p2, 2, 1, Repeat(0, 8) + Repeat(2, 1), 0);
    assert LL == p4 + Repeat(2, 1) + ([]);
    InRun(p4, 2, 1, [], 0);
  }

  lemma DlCodes()
    ensures |DL| == 6 && ValidLens(DL) && Kraft(DL) == Pow2(MAXBITS)
    ensures DL[4] == 1 && CodeOf(DL, 4) == 0
    ensures DL[5] == 1 && CodeOf(DL, 5) == 1
  {
    hide Kraft, Count, NextCode, CodeOf, Repeat, ValidLens, Pow2;
    Weights();
    Nothing(DL);
    assert ValidLens([]) by {
      NoLens();
    }
    var p0 := [] + Repeat(0, 4);
    KraftZeros([], 4);
    FormatLaws.CountRun([], 0, 4, 1);
    FormatLaws.CountRun([], 0, 4, 2);
    var p1 := p0 + Repeat(1, 2);
    Fixed.KraftRepeat(p0, 1, 2);
    FormatLaws.CountRun(p0, 1, 2, 1);
    FormatLaws.CountRun(p0, 1, 2, 2);
    assert DL == p1;
    assert DL == p0 + Repeat(1, 2) + ([]);
    InRun(p0, 1, 2, [], 0);
    InRun(p0, 1, 2, [], 1);
  }

  /** One length of the code length code. */
  lemma TakesThree(w: nat, nlen: nat, ndist: nat, ncode: nat, got: seq<nat>, v: nat, n: nat, x: nat, v': nat)
    requires |got| < ncode && n >= 3 && x < 8 && v == x + 8 * v'
    ensures CodeLenLens(w, true, nlen, ndist, ncode, got, ToBits(v, n), []) ==
            CodeLenLens(w, true, nlen, ndist, ncode, got + [x], ToBits(v', n - 3), [])
  {
    hide ToBits, ToInt, CodeLenLens;
    assert Pow2(3) == 8;
    Took(v, n, 3, x, v');
    DynamicSpec.LenLensStep(w, true, nlen, ndist, ncode, got, ToBits(v, n), []);
  }

  /** One code length. */
  lemma TakesLen(w: nat, nlen: nat, ndist: nat, cl: seq<nat>, lens: seq<nat>, s: nat, v: nat, n: nat, x: nat, v': nat)
    requires Fits(cl) && Coded(cl, s) && cl[s] <= n && s < 16 && |lens| < nlen + ndist
    requires x == Turned(CodeOf(cl, s), cl[s], 0) && v == x + Pow2(cl[s]) * v'
    ensures CodeLens(w, true, nlen, ndist, cl, lens, ToBits(v, n), []) ==
            CodeLens(w, true, nlen, ndist, cl, lens + [s], ToBits(v', n - cl[s]), [])
  {
    hide Fits, ReadSymbol, ToBits, CodeOf, Turned, Pow2, CodeLens;
    Reads(cl, s, v, n, x, v');
    CodeLensOne(w, true, nlen, ndist, cl, lens, ToBits(v, n), [], s, ToBits(v', n - cl[s]));
  }

  /** A repeated one: k extra bits are e, and the length is repeated m times. */
  lemma TakesRepeat(w: nat, nlen: nat, ndist: nat, cl: seq<nat>, lens: seq<nat>, s: nat, v: nat, n: nat, x: nat,
        v': nat, k: nat, e: nat, v'': nat, m: nat)
    requires Fits(cl) && Coded(cl, s) && 16 <= s <= 18 && (s == 16 ==> lens != [])
    requires x == Turned(CodeOf(cl, s), cl[s], 0) && v == x + Pow2(cl[s]) * v'
    requires k == RepeatBits(s) && cl[s] + k <= n && e < Pow2(k) && v' == e + Pow2(k) * v'' && m == RepeatBase(s) + e
    requires |lens| + m <= nlen + ndist
    ensures CodeLens(w, true, nlen, ndist, cl, lens, ToBits(v, n), []) ==
            CodeLens(w, true, nlen, ndist, cl, lens + Repeat(if s == 16 then lens[|lens| - 1] else 0, m),
                     ToBits(v'', n - cl[s] - k), [])
  {
    hide Fits, ReadSymbol, ToBits, CodeOf, Turned, Pow2, CodeLens, ToInt, RepeatBits;
    Reads(cl, s, v, n, x, v');
    Took(v', n - cl[s], k, e, v'');
    CodeLensMany(w, true, nlen, ndist, cl, lens, ToBits(v, n), [], s, ToBits(v', n - cl[s]));
  }

  lemma FirstThrees(w: nat)
    ensures CodeLenLens(w, true, 266, 6, 18, [], ToBits(0x2d4f74924b4a1aff1dd698618000000093, 143), []) ==
            CodeLenLens(w, true, 266, 6, 18, [3, 2, 2, 0, 0, 0, 0, 0, 0],
                        ToBits(0x5a9ee924969435fe3bad30c3000, 116), [])
  {
    hide CodeLenLens, ToBits;
    var got: seq<nat> := [];
    TakesThree(w, 266, 6, 18, got, 0x2d4f74924b4a1aff1dd698618000000093, 143, 3, 0x5a9ee924969435fe3bad30c3000000012);
    got := got + [3];
    TakesThree(w, 266, 6, 18, got, 0x5a9ee924969435fe3bad30c3000000012, 140, 2, 0xb53dd2492d286bfc775a618600000002);
    got := got + [2];
    TakesThree(w, 266, 6, 18, got, 0xb53dd2492d286bfc775a618600000002, 137, 2, 0x16a7ba4925a50d7f8eeb4c30c0000000);
    got := got + [2];
    TakesThree(w, 266, 6, 18, got, 0x16a7ba4925a50d7f8eeb4c30c0000000, 134, 0, 0x2d4f74924b4a1aff1dd698618000000);
    got := got + [0];
    TakesThree(w, 266, 6, 18, got, 0x2d4f74924b4a1aff1dd698618000000, 131, 0, 0x5a9ee924969435fe3bad30c3000000);
    got := got + [0];
    TakesThree(w, 266, 6, 18, got, 0x5a9ee924969435fe3bad30c3000000, 128, 0, 0xb53dd2492d286bfc775a618600000);
    got := got + [0];
    TakesThree(w, 266, 6, 18, got, 0xb53dd2492d286bfc775a618600000, 125, 0, 0x16a7ba4925a50d7f8eeb4c30c0000);
    got := got + [0];
    TakesThree(w, 266, 6, 18, got, 0x16a7ba4925a50d7f8eeb4c30c0000, 122, 0, 0x2d4f74924b4a1aff1dd698618000);
    got := got + [0];
    TakesThree(w, 266, 6, 18, got, 0x2d4f74924b4a1aff1dd698618000, 119, 0, 0x5a9ee924969435fe3bad30c3000);
    got := got + [0];
    assert got == [3, 2, 2, 0, 0, 0, 0, 0, 0];
  }

  lemma LastThrees(w: nat)
    ensures CodeLenLens(w, true, 266, 6, 18, [3, 2, 2, 0, 0, 0, 0, 0, 0],
                        ToBits(0x5a9ee924969435fe3bad30c3000, 116), []) ==
            CodeLenLens(w, true, 266, 6, 18, [3, 2, 2, 0, 0, 0, 0, 0, 0, 0, 0, 0, 0, 3, 0, 3, 0, 3],
                        ToBits(0xb53dd2492d286bfc775a, 89), [])
  {
    hide CodeLenLens, ToBits;
    var got: seq<nat> := [3, 2, 2, 0, 0, 0, 0, 0, 0];
    TakesThree(w, 266, 6, 18, got, 0x5a9ee924969435fe3bad30c3000, 116, 0, 0xb53dd2492d286bfc775a618600);
    got := got + [0];
    TakesThree(w, 266, 6, 18, got, 0xb53dd2492d286bfc775a618600, 113, 0, 0x16a7ba4925a50d7f8eeb4c30c0);
    got := got + [0];
    TakesThree(w, 266, 6, 18, got, 0x16a7ba4925a50d7f8eeb4c30c0, 110, 0, 0x2d4f74924b4a1aff1dd698618);
    got := got + [0];
    TakesThree(w, 266, 6, 18, got, 0x2d4f74924b4a1aff1dd698618, 107, 0, 0x5a9ee924969435fe3bad30c3);
    got := got + [0];
    TakesThree(w, 266, 6, 18, got, 0x5a9ee924969435fe3bad30c3, 104, 3, 0xb53dd2492d286bfc775a618);
    got := got + [3];
    TakesThree(w, 266, 6, 18, got, 0xb53dd2492d286bfc775a618, 101, 0, 0x16a7ba4925a50d7f8eeb4c3);
    got := got + [0];
    TakesThree(w, 266, 6, 18, got, 0x16a7ba4925a50d7f8eeb4c3, 98, 3, 0x2d4f74924b4a1aff1dd698);
    got := got + [3];
    TakesThree(w, 266, 6, 18, got, 0x2d4f74924b4a1aff1dd698, 95, 0, 0x5a9ee924969435fe3bad3);
    got := got + [0];
    TakesThree(w, 266, 6, 18, got, 0x5a9ee924969435fe3bad3, 92, 3, 0xb53dd2492d286bfc775a);
    got := got + [3];
    assert got == [3, 2, 2, 0, 0, 0, 0, 0, 0, 0, 0, 0, 0, 3, 0, 3, 0, 3];
  }

  lemma PlacedIs()
    ensures Placed([3, 2, 2, 0, 0, 0, 0, 0, 0, 0, 0, 0, 0, 3, 0, 3, 0, 3]) == CL
  {
  }

  lemma LensAre()
    ensures [] + Repeat(0, 97) + [3] + Repeat(3, 3) + Repeat(0, 138) + Repeat(0, 17) + [2] + Repeat(0, 8) + [2] +
            Repeat(0, 4) + [1] + [1] == LL + DL
  {
  }

  lemma LensRead(w: nat)
    ensures CodeLens(w, true, 266, 6, CL, [], ToBits(0xb53dd2492d286bfc775a, 89), []) ==
            CodeLens(w, true, 266, 6, CL, LL + DL, ToBits(0x5a9ee9, 32), [])
  {
    hide Fits, ReadSymbol, ToBits, CodeOf, Turned, Pow2, CodeLens, CL, LL, DL, Repeat;
    Powers();
    ClCodes();
    TurnedThree(0, 0);
    TurnedThree(1, 0);
    TurnedThree(4, 0);
    TurnedThree(5, 0);
    TurnedThree(6, 0);
    TurnedThree(7, 0);
    CodesFit();
    var lens: seq<nat> := [];
    TakesRepeat(w, 266, 6, CL, lens, 18, 0xb53dd2492d286bfc775a, 89, 2, 0x2d4f74924b4a1aff1dd6, 7, 86,
                0x5a9ee924969435fe3b, 97);
    lens := lens + Repeat(0, 97);
    TakesLen(w, 266, 6, CL, lens, 3, 0x5a9ee924969435fe3b, 80, 3, 0xb53dd2492d286bfc7);
    lens := lens + [3];
    TakesRepeat(w, 266, 6, CL, lens, 16, 0xb53dd2492d286bfc7, 77, 7, 0x16a7ba4925a50d7f8, 2, 0, 0x5a9ee924969435fe, 3);
    lens := lens + Repeat(3, 3);
    TakesRepeat(w, 266, 6, CL, lens, 18, 0x5a9ee924969435fe, 72, 2, 0x16a7ba4925a50d7f, 7, 127, 0x2d4f74924b4a1a, 138);
    lens := lens + Repeat(0, 138);
    TakesRepeat(w, 266, 6, CL, lens, 18, 0x2d4f74924b4a1a, 63, 2, 0xb53dd2492d286, 7, 6, 0x16a7ba4925a5, 17);
    lens := lens + Repeat(0, 17);
    TakesLen(w, 266, 6, CL, lens, 2, 0x16a7ba4925a5, 54, 5, 0x2d4f74924b4);
    lens := lens + [2];
    TakesRepeat(w, 266, 6, CL, lens, 17, 0x2d4f74924b4, 51, 0, 0xb53dd2492d, 3, 5, 0x16a7ba4925, 8);
    lens := lens + Repeat(0, 8);
    TakesLen(w, 266, 6, CL, lens, 2, 0x16a7ba4925, 46, 5, 0x2d4f74924);
    lens := lens + [2];
    TakesRepeat(w, 266, 6, CL, lens, 17, 0x2d4f74924, 43, 0, 0xb53dd249, 3, 1, 0x16a7ba49, 4);
    lens := lens + Repeat(0, 4);
    TakesLen(w, 266, 6, CL, lens, 1, 0x16a7ba49, 38, 1, 0x2d4f749);
    lens := lens + [1];
    TakesLen(w, 266, 6, CL, lens, 1, 0x2d4f749, 35, 1, 0x5a9ee9);
    lens := lens + [1];
    LensAre();
  }

  lemma DynamicText(w: nat)
    requires w >= 6
    ensures Codes(w, true, LL, DL, ToBits(0x5a9ee9, 32), []) ==
            Finished([97, 98, 99, 100, 97, 98, 97, 98, 99, 100, 97, 98, 97, 98, 99, 100, 97, 98], [])
  {
    hide Fits, CodeOf, ToBits, Codes, Dist, Match, LBASE, DBASE, LEXT, DEXT, Turned, Pow2, LL, DL;
    LlCodes();
    DlCodes();
    TurnedThree(0, 0);
    TurnedThree(1, 0);
    TurnedThree(4, 0);
    TurnedThree(5, 0);
    TurnedThree(6, 0);
    TurnedThree(7, 0);
    FewCodes();
    Powers();
    CodesFit();
    var o: seq<byte> := [];
    TakesByte(w, LL, DL, 97, 0x5a9ee9, 32, o, 1, 0xb53dd);
    o := o + [97];
    TakesByte(w, LL, DL, 98, 0xb53dd, 29, o, 5, 0x16a7b);
    o := o + [98];
    TakesByte(w, LL, DL, 99, 0x16a7b, 26, o, 3, 0x2d4f);
    o := o + [99];
    TakesByte(w, LL, DL, 100, 0x2d4f, 23, o, 7, 0x5a9);
    o := o + [100];
    TakesByte(w, LL, DL, 97, 0x5a9, 20, o, 1, 0xb5);
    o := o + [97];
    TakesByte(w, LL, DL, 98, 0xb5, 17, o, 5, 0x16);
    o := o + [98];
    TakesLength(w, LL, DL, 265, 0x16, 14, o, 2, 0x5, 1, 0x2);
    TakesDistance(w, LL, DL, 4, 0x2, 11, 12, o, 0, 0x1, 1, 0x0);
    Copied(w, LL, DL, o, ToBits(0x0, 9));
    TakesEnd(w, LL, DL, 0x0, 9, o + o + o, 0, 0x0);
    NoBitsAt(0);
    LastBits();
    assert o == [97, 98, 99, 100, 97, 98];
  }

  lemma LastBits()
    ensures Align(ToBits(0, 7)) == []
  {
  }

  lemma CodesFit()
    ensures Fits(CL) && Fits(LL) && Fits(DL)
  {
    hide CL, LL, DL, Kraft, Pow2, CodeOf;
    ClCodes();
    LlCodes();
    DlCodes();
  }

  /** A block with its own codes: the six bytes abcdab, and a string of twelve from six back. */
  lemma DynamicStream(w: nat)
    requires w >= 6
    ensures Blocks(w, false, BytesBits(DYNAMIC_STREAM), []) ==
            Finished([97, 98, 99, 100, 97, 98, 97, 98, 99, 100, 97, 98, 97, 98, 99, 100, 97, 98], [])
  {
    hide Blocks, BytesBits, ToBits, Codes, ToInt, CodeLenLens, CodeLens, Pow2, CL, LL, DL, Kraft, CodeOf, Placed;
    DynamicNumber();
    Opens(w, 0x5a9ee924969435fe3bad30c30000000127c54d, 160, [], 2, 0xb53dd2492d286bfc775a6186000000024f8a9);
    CountsRead(w);
    FirstThrees(w);
    LastThrees(w);
    PlacedIs();
    ClCodes();
    DynamicSpec.LenLensEnd(w, true, 266, 6, [3, 2, 2, 0, 0, 0, 0, 0, 0, 0, 0, 0, 0, 3, 0, 3, 0, 3],
                           ToBits(0xb53dd2492d286bfc775a, 89), []);
    LensRead(w);
    LlCodes();
    DlCodes();
    DynamicSpec.LensEnd(w, true, LL, DL, CL, ToBits(0x5a9ee9, 32), []);
    DynamicText(w);
  }

  /** 266 literal/length codes, 6 distance codes, and 18 lengths of the code length code. */
  lemma CountsRead(w: nat)
    ensures Dynamic(w, true, ToBits(0xb53dd2492d286bfc775a6186000000024f8a9, 157), []) ==
            CodeLenLens(w, true, 266, 6, 18, [], ToBits(0x2d4f74924b4a1aff1dd698618000000093, 143), [])
  {
    hide ToBits, ToInt, CodeLenLens;
    assert Pow2(5) == 32 && Pow2(4) == 16;
    var b := ToBits(0xb53dd2492d286bfc775a6186000000024f8a9, 157);
    Took(0xb53dd2492d286bfc775a6186000000024f8a9, 157, 5, 9, 0x5a9ee924969435fe3bad30c30000000127c5);
    Took(0x5a9ee924969435fe3bad30c30000000127c5, 152, 5, 5, 0x2d4f74924b4a1aff1dd698618000000093e);
    Took(0x2d4f74924b4a1aff1dd698618000000093e, 147, 4, 14, 0x2d4f74924b4a1aff1dd698618000000093);
    assert b[5..10] == b[5..][..5] && b[10..14] == b[5..][5..][..4] && b[14..] == b[5..][5..][4..];
  }
}
