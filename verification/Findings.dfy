/**
 Inputs at which the code does something that its comments, or the format, would not lead one to expect.
 */
module Findings {
  import opened Bits
  import opened Canonical
  import opened TableSpec
  import opened Tokens
  import opened Rfc1951
  import opened Encoding
  import opened BlockSpec
  import opened BitWriter
  import BlockWriter
  import Inftrees

  // ---------- a code length code without codes ----------

  lemma NoCodes(cl: seq<nat>, bits: seq<bool>)
    requires NoSymbols(cl)
    ensures ReadSymbol(cl, bits) == if bits == [] then NeedMore else NoCode
  {
  }

  /** Every bit is read as the length zero, and then there is no code for the end of the block. */
  lemma {:induction false} ReadAsZeros(w: nat, last: bool, nlen: nat, ndist: nat, cl: seq<nat>, lens: seq<nat>,
        bits: seq<bool>, out: seq<byte>)
    requires NoSymbols(cl) && NoSymbols(lens) && nlen >= 257 && |lens| <= nlen + ndist
    ensures CodeLens(w, last, nlen, ndist, cl, lens, bits, out) ==
            if |lens| + |bits| < nlen + ndist then Starved(out) else Corrupt(out)
    decreases |bits|
  {
    hide ReadSymbol, Codes;
    NoCodes(cl, bits);
    if |lens| < nlen + ndist && bits != [] {
      ReadAsZeros(w, last, nlen, ndist, cl, lens + [0], bits[1..], out);
    }
  }

  lemma ZerosPlaced(got: seq<nat>)
    requires NoSymbols(got)
    ensures NoSymbols(Placed(got)) && ValidLens(Placed(got)) && !Refused(CODES, Placed(got))
  {
    hide Kraft, Pow2;
    Inftrees.NoSymbolsKraft(Placed(got));
  }

  /** A block with such a code is refused, as soon as there is a bit for each of its code lengths. */
  lemma {:induction false} EmptyCodeRefused(w: nat, last: bool, nlen: nat, ndist: nat, ncode: nat, got: seq<nat>,
        bits: seq<bool>, out: seq<byte>)
    requires NoSymbols(got) && |got| <= ncode && nlen >= 257 && |bits| >= 3 * (ncode - |got|)
    requires forall i :: 0 <= i < 3 * (ncode - |got|) ==> !bits[i]
    ensures CodeLenLens(w, last, nlen, ndist, ncode, got, bits, out) ==
            if |bits| - 3 * (ncode - |got|) < nlen + ndist then Starved(out) else Corrupt(out)
    decreases ncode - |got|
  {
    hide CodeLens, Placed;
    if |got| >= ncode {
      ZerosPlaced(got);
      ReadAsZeros(w, last, nlen, ndist, Placed(got), [], bits, out);
    } else {
      ThreeZeros(bits);
      EmptyCodeRefused(w, last, nlen, ndist, ncode, got + [0], bits[3..], out);
    }
  }

  lemma ThreeZeros(bits: seq<bool>)
    requires |bits| >= 3 && !bits[0] && !bits[1] && !bits[2]
    ensures ToInt(bits[..3]) == 0
  {
    assert bits[..3][1..] == [false, false] && [false, false][1..] == [false] && [false][1..] == [];
    assert ToInt([false]) == 0;
  }

  // ---------- a stored block that is longer than with the fixed codes ----------

  function Literals(n: nat): seq<Token> {
    seq(n, _ => Lit(144))
  }

  lemma {:induction false} NineBits(n: nat)
    ensures AllCodable(FIXED_LENS, FIXED_DISTS, Literals(n))
    ensures |TokensBits(FIXED_LENS, FIXED_DISTS, Literals(n))| == 9 * n
    ensures Sane(Literals(n)) && Expand(Literals(n)) == seq(n, _ => 144)
  {
    hide CodeBits;
    var ts := Literals(n);
    FixedCodable(ts);
    if n > 0 {
      assert ts[..n - 1] == Literals(n - 1);
      NineBits(n - 1);
      assert FIXED_LENS[144] == 9;
    }
  }

  /** With Z_FIXED, fifteen such literals are stored in 155 bits; with the fixed codes they would take 145. */
  method StoredLonger() returns (w: Writer)
    ensures AllCodable(FIXED_LENS, FIXED_DISTS, Literals(15)) && Coded(FIXED_LENS, 256)
    ensures 3 + |CodedBits(FIXED_LENS, FIXED_DISTS, Literals(15))| == 145 && |w.Bits()| >= 155
  {
    hide TokensBits, BytesBits, ToBits, Expand, Emits, Codable, CodeBits, BlockWriter.Own.Ok;
    var ts := Literals(15);
    NineBits(15);
    FixedCodable(ts);
    assert FIXED_LENS[256] == 7;
    EmitsNothing(WINDOW);
    NothingYet();
    var st := BlockWriter.StaticInit();
    w := Writer([], 0, 0);
    assert [] + ts == ts && BytesBits([]) + w.Bits() == [];
    var data: seq<byte> := seq(15, _ => 144);
    assert Expand([]) + data == data;
    ghost var own;
    w, own := BlockWriter.FlushBlock(w, st, BlockWriter.Held(data), true, ts, false);
  }
}
