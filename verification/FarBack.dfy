/**
 Streams with a distance beyond a small window, within the output.
 */
module FarBack {
  import opened Bits
  import opened Canonical
  import opened Tokens
  import opened Rfc1951
  import opened Encoding
  import opened BlockSpec
  import opened BitWriter
  import BlockWriter
  import Wrapper
  import R = InflateRuns

  /** The tokens before the last, which reaches too far, are decoded, and that is where it ends. */
  lemma LastTooFar(w: nat, last: bool, ts: seq<Token>, t: Token, rest: seq<bool>)
    requires AllExpressible(ts) && Sane(ts) && Within(ts, w) && Expressible(t) && t.Str? &&
             w < t.dist <= |Expand(ts)|
    requires AllCodable(FIXED_LENS, FIXED_DISTS, ts) && Codable(FIXED_LENS, FIXED_DISTS, t)
    ensures Codes(w, last, FIXED_LENS, FIXED_DISTS,
                  TokensBits(FIXED_LENS, FIXED_DISTS, ts) + (TokenBits(FIXED_LENS, FIXED_DISTS, t) + rest), []) ==
            Beyond(Expand(ts))
  {
    hide Codes, Codable, Expand, FIXED_LENS, FIXED_DISTS, Fits, TokenBits;
    FixedFits();
    NoTokens();
    assert [] + ts == ts;
    TokensDecode(w, last, FIXED_LENS, FIXED_DISTS, [], ts, TokenBits(FIXED_LENS, FIXED_DISTS, t) + rest);
    StrReads(w, last, FIXED_LENS, FIXED_DISTS, t.len, t.dist, rest, Expand(ts));
  }

  /** So it is wherever that one comes. */
  lemma {:induction false} TooFar(w: nat, last: bool, ts: seq<Token>, k: nat, rest: seq<bool>)
    requires AllExpressible(ts) && Sane(ts) && k < |ts| && Within(ts[..k], w) && ts[k].Str? && ts[k].dist > w
    ensures AllCodable(FIXED_LENS, FIXED_DISTS, ts)
    ensures Codes(w, last, FIXED_LENS, FIXED_DISTS, TokensBits(FIXED_LENS, FIXED_DISTS, ts) + rest, []) ==
            Beyond(Expand(ts[..k]))
    decreases |ts|
  {
    hide Codes, Codable, Expand, FIXED_LENS, FIXED_DISTS, Fits, TokenBits;
    FixedCodable(ts);
    var n := |ts| - 1;
    var more := TokenBits(FIXED_LENS, FIXED_DISTS, ts[n]) + rest;
    assert TokensBits(FIXED_LENS, FIXED_DISTS, ts) + rest ==
           TokensBits(FIXED_LENS, FIXED_DISTS, ts[..n]) + more;
    SanePrefix(ts, n);
    if k < n {
      assert ts[..n][..k] == ts[..k];
      TooFar(w, last, ts[..n], k, more);
    } else {
      LastTooFar(w, last, ts[..n], ts[n], rest);
    }
  }

  lemma NoTokens()
    ensures Expand([]) == []
  {
  }

  /** So a block with the fixed codes decodes to them. */
  lemma BlockTooFar(w: nat, last: bool, ts: seq<Token>, k: nat, rest: seq<bool>)
    requires AllExpressible(ts) && Sane(ts) && k < |ts| && Within(ts[..k], w) && ts[k].Str? && ts[k].dist > w
    ensures AllCodable(FIXED_LENS, FIXED_DISTS, ts) && Coded(FIXED_LENS, 256)
    ensures Blocks(w, false, HeadBits(1, last) + CodedBits(FIXED_LENS, FIXED_DISTS, ts) + rest, []) ==
            Beyond(Expand(ts[..k]))
  {
    hide HeadBits, Codes, Dynamic, Stored, ToInt, Codable, Expand, FIXED_LENS, FIXED_DISTS, TokensBits, CodeBits;
    FixedCodable(ts);
    var r := CodeBits(FIXED_LENS, 256) + rest;
    var body := TokensBits(FIXED_LENS, FIXED_DISTS, ts) + r;
    assert HeadBits(1, last) + CodedBits(FIXED_LENS, FIXED_DISTS, ts) + rest == HeadBits(1, last) + body;
    HeadParts(1, last, body);
    TooFar(w, last, ts, k, r);
  }

  /** 300 literals and a match of them all. */
  function Tokens300(): seq<Token> {
    seq(300, _ => Lit(0)) + [Str(3, 300)]
  }

  lemma {:induction false} Literals(n: nat)
    ensures |Expand(seq(n, _ => Lit(0)))| == n
  {
    if n > 0 {
      var ts := seq(n, _ => Lit(0));
      assert ts[..n - 1] == seq(n - 1, _ => Lit(0));
      Literals(n - 1);
    }
  }

  lemma Tokens300Ok()
    ensures var ts := Tokens300();
            AllExpressible(ts) && Sane(ts) && |ts| == 301 && Within(ts[..300], 256) && ts[300] == Str(3, 300)
  {
    hide Expand;
    var ts := Tokens300();
    assert ts[..300] == seq(300, _ => Lit(0));
    Literals(300);
  }

  /** They make 303 bytes. */
  lemma Expand300()
    ensures |Expand(Tokens300())| == 303
  {
    hide Expand;
    Tokens300Ok();
    var ts := Tokens300();
    assert ts[..300] == seq(300, _ => Lit(0)) && ts == ts[..300] + [Str(3, 300)];
    Literals(300);
    ExpandNext(ts[..300], Str(3, 300));
  }

  /** A stream of one block with the fixed codes. */
  method FixedStream(ts: seq<Token>) returns (bytes: seq<byte>, ghost pad: seq<bool>)
    requires AllExpressible(ts) && Sane(ts) && Within(ts, WINDOW)
    ensures AllCodable(FIXED_LENS, FIXED_DISTS, ts) && Coded(FIXED_LENS, 256)
    ensures BytesBits(bytes) == HeadBits(1, true) + CodedBits(FIXED_LENS, FIXED_DISTS, ts) + pad
    ensures Ends(WINDOW, bytes, Expand(ts))
  {
    hide BytesBits, ToBits, Expand, FIXED_LENS, FIXED_DISTS, Emits, Ends, CodedBits, Codable, HeadBits, Sane;
    var st := BlockWriter.StaticInit();
    var w := Writer([], 0, 0);
    NothingYet();
    EmitsNothing(WINDOW);
    assert [] + ts == ts && BytesBits([]) + w.Bits() == [];
    var v := BlockWriter.StaticBlock(w, st, ts, true);
    BlockWriter.StaticAdds(WINDOW, w, v, ts, true, [], []);
    w := Windup(v);
    bytes := w.pending;
    pad := w.Bits()[|v.Bits()|..];
    assert w.Bits() == v.Bits() + pad;
    NoBitsAt(0);
    assert w.Bits() == BytesBits(bytes) && BytesBits([]) + v.Bits() == v.Bits();
    WholeEnds(WINDOW, v.Bits(), pad, bytes, Expand(ts));
    assert v.Bits() == HeadBits(1, true) + CodedBits(FIXED_LENS, FIXED_DISTS, ts);
  }

  /** A stream for which inflate, with a window of 256 bytes, gives two results. */
  method TwoResults() returns (bytes: seq<byte>, out: seq<byte>, out': seq<byte>)
    ensures Blocks(256, false, BytesBits(bytes), []).Beyond? && out != out'
  {
    hide Blocks, BytesBits, Expand, FIXED_LENS, FIXED_DISTS, Ends, Tokens300, CodedBits, Codable, Sane;
    var ts := Tokens300();
    Tokens300Ok();
    Expand300();
    ghost var pad;
    bytes, pad := FixedStream(ts);
    BlockTooFar(256, true, ts, 300, pad);
    EndsAt(WINDOW, WINDOW, bytes, Expand(ts), []);
    assert BytesBits(bytes) + [] == BytesBits(bytes);
    EightPower();
    out, out' := R.TwoWays(0, 8, Wrapper.NoHeader, bytes, 400);
  }
}
