/**
 What the bits of whole blocks, one after the other, mean to a decoder.
 */
module BlockSpec {
  import opened Bits
  import opened Canonical
  import opened Tokens
  import opened Rfc1951
  import opened Encoding
  import Fixed
  import InflateSteps

  const WINDOW := 32768

  /** However the stream goes on, these bits take a decoder with a window of w from its start to having produced out. */
  ghost predicate EmitsIn(w: nat, bits: seq<bool>, last: bool, out: seq<byte>) {
    forall rest: seq<bool> :: (|bits| + |rest|) % 8 == 0 ==>
        Blocks(w, false, bits + rest, []) == Blocks(w, last, rest, out)
  }

  /** So they do with any window from reach on. */
  ghost predicate Emits(reach: nat, bits: seq<bool>, last: bool, out: seq<byte>) {
    forall w :: w >= reach ==> EmitsIn(w, bits, last, out)
  }

  /** more takes a decoder from out to out'. */
  ghost predicate ContinuesIn(w: nat, before: nat, more: seq<bool>, last: bool, out: seq<byte>, out': seq<byte>) {
    forall rest: seq<bool> :: (before + |more| + |rest|) % 8 == 0 ==>
        Blocks(w, false, more + rest, out) == Blocks(w, last, rest, out')
  }

  ghost predicate Continues(reach: nat, before: nat, more: seq<bool>, last: bool, out: seq<byte>, out': seq<byte>) {
    forall w :: w >= reach ==> ContinuesIn(w, before, more, last, out, out')
  }

  lemma EmitsNothing(reach: nat)
    ensures Emits(reach, [], false, [])
  {
    hide Blocks;
    forall w, rest: seq<bool> ensures Blocks(w, false, [] + rest, []) == Blocks(w, false, rest, []) {
      assert [] + rest == rest;
    }
  }

  lemma EmitsMore(reach: nat, bits: seq<bool>, more: seq<bool>, last: bool, out: seq<byte>, out': seq<byte>)
    requires Emits(reach, bits, false, out) && Continues(reach, |bits|, more, last, out, out')
    ensures Emits(reach, bits + more, last, out')
  {
    hide EmitsIn, ContinuesIn;
    forall w | w >= reach ensures EmitsIn(w, bits + more, last, out') {
      EmitsMoreIn(w, bits, more, last, out, out');
    }
  }

  lemma EmitsMoreIn(w: nat, bits: seq<bool>, more: seq<bool>, last: bool, out: seq<byte>, out': seq<byte>)
    requires EmitsIn(w, bits, false, out) && ContinuesIn(w, |bits|, more, last, out, out')
    ensures EmitsIn(w, bits + more, last, out')
  {
    hide Blocks, ContinuesIn;
    var all := bits + more;
    forall rest: seq<bool> | (|all| + |rest|) % 8 == 0
      ensures Blocks(w, false, all + rest, []) == Blocks(w, last, rest, out')
    {
      assert all + rest == bits + (more + rest);
      EmitsAt(w, bits, false, out, more + rest);
      ContinuesAt(w, |bits|, more, last, out, out', rest);
    }
  }

  lemma ContinuesAt(w: nat, before: nat, more: seq<bool>, last: bool, out: seq<byte>, out': seq<byte>,
        rest: seq<bool>)
    requires ContinuesIn(w, before, more, last, out, out') && (before + |more| + |rest|) % 8 == 0
    ensures Blocks(w, false, more + rest, out) == Blocks(w, last, rest, out')
  {
    hide Blocks;
  }

  /** After the last block the stream ends at the next byte. */
  lemma EmitsAll(w: nat, bits: seq<bool>, pad: seq<bool>, out: seq<byte>, rest: seq<bool>)
    requires EmitsIn(w, bits, true, out) && |pad| < 8 && (|bits| + |pad|) % 8 == 0 && |rest| % 8 == 0
    ensures Blocks(w, false, bits + pad + rest, []) == Finished(out, rest)
  {
    hide Blocks, EmitsIn, Align;
    assert bits + pad + rest == bits + (pad + rest);
    EmitsAt(w, bits, true, out, pad + rest);
    BlocksEnd(w, pad + rest, out);
    Aligned(pad, rest);
  }

  lemma EmitsAt(w: nat, bits: seq<bool>, last: bool, out: seq<byte>, rest: seq<bool>)
    requires EmitsIn(w, bits, last, out) && (|bits| + |rest|) % 8 == 0
    ensures Blocks(w, false, bits + rest, []) == Blocks(w, last, rest, out)
  {
    hide Blocks;
  }

  lemma Aligned(pad: seq<bool>, rest: seq<bool>)
    requires |pad| < 8 && |rest| % 8 == 0
    ensures Align(pad + rest) == rest
  {
    var n := |pad + rest|;
    assert n == |pad| + 8 * (|rest| / 8);
    assert n % 8 == |pad|;
  }

  /** The bytes are a whole stream: followed by anything, they decode to data and leave what follows. */
  ghost predicate EndsIn(w: nat, bytes: seq<byte>, data: seq<byte>) {
    forall rest: seq<bool> :: |rest| % 8 == 0 ==>
        Blocks(w, false, BytesBits(bytes) + rest, []) == Finished(data, rest)
  }

  /** So they are to a decoder with any window from reach on. */
  ghost predicate Ends(reach: nat, bytes: seq<byte>, data: seq<byte>) {
    forall w :: w >= reach ==> EndsIn(w, bytes, data)
  }

  lemma EndsAt(reach: nat, w: nat, bytes: seq<byte>, data: seq<byte>, rest: seq<bool>)
    requires Ends(reach, bytes, data) && w >= reach && |rest| % 8 == 0
    ensures Blocks(w, false, BytesBits(bytes) + rest, []) == Finished(data, rest)
  {
    hide Blocks, BytesBits;
    assert EndsIn(w, bytes, data);
  }

  lemma EndsWider(reach: nat, reach': nat, bytes: seq<byte>, data: seq<byte>)
    requires Ends(reach, bytes, data) && reach <= reach'
    ensures Ends(reach', bytes, data)
  {
    hide EndsIn;
  }

  /** A last block that ends at a byte, perhaps by padding, ends the stream. */
  lemma WholeEnds(reach: nat, bits: seq<bool>, pad: seq<bool>, bytes: seq<byte>, out: seq<byte>)
    requires Emits(reach, bits, true, out) && |pad| < 8 && bits + pad == BytesBits(bytes)
    ensures Ends(reach, bytes, out)
  {
    hide EmitsIn, Blocks, BytesBits;
    forall w, rest: seq<bool> | w >= reach && |rest| % 8 == 0
      ensures Blocks(w, false, BytesBits(bytes) + rest, []) == Finished(out, rest)
    {
      assert EmitsIn(w, bits, true, out);
      EmitsAll(w, bits, pad, out, rest);
    }
  }

  /** The bytes end at a block, and decode to data. */
  ghost predicate Synced(reach: nat, bytes: seq<byte>, data: seq<byte>) {
    forall w :: w >= reach ==> SyncedIn(w, bytes, data)
  }

  ghost predicate SyncedIn(w: nat, bytes: seq<byte>, data: seq<byte>) {
    Blocks(w, false, BytesBits(bytes), []) == Starved(data)
  }

  lemma EmitsSynced(reach: nat, bytes: seq<byte>, out: seq<byte>)
    requires Emits(reach, BytesBits(bytes), false, out)
    ensures Synced(reach, bytes, out)
  {
    hide EmitsIn, BytesBits;
    forall w | w >= reach ensures SyncedIn(w, bytes, out) {
      assert EmitsIn(w, BytesBits(bytes), false, out);
      assert BytesBits(bytes) + [] == BytesBits(bytes);
      EmitsAt(w, BytesBits(bytes), false, out, []);
    }
  }

  // ---------- block headers ----------

  /** The three bits before a block. */
  function HeadBits(kind: nat, last: bool): seq<bool> {
    ToBits(2 * kind + if last then 1 else 0, 3)
  }

  lemma HeadParts(kind: nat, last: bool, rest: seq<bool>)
    requires kind <= 3
    ensures var b := HeadBits(kind, last) + rest; |b| >= 3 && b[0] == last && ToInt(b[1..3]) == kind && b[3..] == rest
  {
    hide ToBits, ToInt;
    var v := 2 * kind + if last then 1 else 0;
    var h := ToBits(v, 3);
    ToBitsTail(v, 3);
    assert (h + rest)[1..3] == h[1..] && (h + rest)[3..] == rest;
    ToIntToBits(kind, 2);
    LowOfSmall(kind, 2);
  }

  // ---------- stored blocks ----------

  /** A stored block from its padding on. */
  function StoredBits(pad: seq<bool>, data: seq<byte>): seq<bool>
    requires |data| <= 65535
  {
    pad + ToBits(|data|, 16) + ToBits(65535 - |data|, 16) + BytesBits(data)
  }

  lemma StoredDecodes(w: nat, last: bool, pad: seq<bool>, data: seq<byte>, rest: seq<bool>, out: seq<byte>)
    requires |pad| < 8 && |data| <= 65535 && |rest| % 8 == 0
    ensures Stored(w, last, StoredBits(pad, data) + rest, out) == Blocks(w, last, rest, out + data)
  {
    hide Blocks, ToBits, ToInt, BytesBits, Copy, Pow2;
    var len, nlen, body := ToBits(|data|, 16), ToBits(65535 - |data|, 16), BytesBits(data) + rest;
    var b := len + (nlen + body);
    assert StoredBits(pad, data) + rest == pad + b;
    assert (pad + b)[|pad|..] == b;
    assert Align(pad + b) == b;
    InflateSteps.Pow2Of16();
    ExtraBack(|data|, 16, nlen + body);
    ExtraBack(65535 - |data|, 16, body);
    assert b[16..32] == (nlen + body)[..16] && b[32..] == body;
    InflateSteps.CopyRun(w, last, |data|, data, rest, out);
    CopyDone(w, last, rest, out + data);
  }

  /** A stored block adds its bytes. */
  lemma StoredContinues(reach: nat, before: nat, last: bool, pad: seq<bool>, data: seq<byte>, out: seq<byte>)
    requires |pad| < 8 && |data| <= 65535 && (before + 3 + |pad|) % 8 == 0
    ensures Continues(reach, before, HeadBits(0, last) + StoredBits(pad, data), last, out, out + data)
  {
    hide Blocks, Stored, StoredBits;
    var more := HeadBits(0, last) + StoredBits(pad, data);
    StoredLength(pad, data);
    forall w, rest: seq<bool> | (before + |more| + |rest|) % 8 == 0
      ensures Blocks(w, false, more + rest, out) == Blocks(w, last, rest, out + data)
    {
      StoredBlock(w, before, last, pad, data, rest, out);
    }
  }

  lemma StoredLength(pad: seq<bool>, data: seq<byte>)
    requires |data| <= 65535
    ensures |StoredBits(pad, data)| == |pad| + 32 + 8 * |data|
  {
  }

  lemma StoredBlock(w: nat, before: nat, last: bool, pad: seq<bool>, data: seq<byte>, rest: seq<bool>,
        out: seq<byte>)
    requires |pad| < 8 && |data| <= 65535 && (before + 3 + |pad|) % 8 == 0
    requires (before + 3 + |StoredBits(pad, data)| + |rest|) % 8 == 0
    ensures Blocks(w, false, HeadBits(0, last) + StoredBits(pad, data) + rest, out) ==
            Blocks(w, last, rest, out + data)
  {
    hide Stored, StoredBits, HeadBits, Codes, Dynamic, ToInt;
    var body := StoredBits(pad, data) + rest;
    StoredLength(pad, data);
    assert |rest| % 8 == 0;
    assert HeadBits(0, last) + StoredBits(pad, data) + rest == HeadBits(0, last) + body;
    HeadParts(0, last, body);
    StoredDecodes(w, last, pad, data, rest, out);
  }

  // ---------- blocks with the fixed codes ----------

  lemma {:induction false} FixedCodable(ts: seq<Token>)
    requires forall i :: 0 <= i < |ts| ==> Expressible(ts[i])
    ensures AllCodable(FIXED_LENS, FIXED_DISTS, ts) && Coded(FIXED_LENS, 256)
  {
    hide LenCode, DistCode;
    Fixed.FixedUsable();
    forall i | 0 <= i < 288 ensures FIXED_LENS[i] > 0 {
    }
    forall i | 0 <= i < |ts| ensures Codable(FIXED_LENS, FIXED_DISTS, ts[i]) {
      assert Expressible(ts[i]);
    }
  }

  /** The format has lengths from 3 to 258 and distances to 32768. */
  predicate Expressible(t: Token) {
    t.Str? ==> 3 <= t.len <= 258 && 1 <= t.dist <= WINDOW
  }

  ghost predicate AllExpressible(ts: seq<Token>) {
    forall i :: 0 <= i < |ts| ==> Expressible(ts[i])
  }

  /** A block with the fixed codes adds what its tokens stand for. */
  lemma StaticContinues(reach: nat, at: nat, last: bool, before: seq<Token>, ts: seq<Token>)
    requires AllExpressible(ts) && Within(ts, reach) && Sane(before + ts)
    ensures AllCodable(FIXED_LENS, FIXED_DISTS, ts) && Coded(FIXED_LENS, 256)
    ensures Continues(reach, at, HeadBits(1, last) + CodedBits(FIXED_LENS, FIXED_DISTS, ts), last, Expand(before),
            Expand(before + ts))
  {
    hide Blocks, CodedBits, Codable, Expand, FIXED_LENS, FIXED_DISTS;
    FixedCodable(ts);
    var more := HeadBits(1, last) + CodedBits(FIXED_LENS, FIXED_DISTS, ts);
    forall w, rest: seq<bool> | w >= reach && (at + |more| + |rest|) % 8 == 0
      ensures Blocks(w, false, more + rest, Expand(before)) == Blocks(w, last, rest, Expand(before + ts))
    {
      StaticBlock(w, last, before, ts, rest);
    }
  }

  lemma StaticBlock(w: nat, last: bool, before: seq<Token>, ts: seq<Token>, rest: seq<bool>)
    requires AllExpressible(ts) && Within(ts, w) && Sane(before + ts) && AllCodable(FIXED_LENS, FIXED_DISTS, ts) &&
             Coded(FIXED_LENS, 256)
    ensures Blocks(w, false, HeadBits(1, last) + CodedBits(FIXED_LENS, FIXED_DISTS, ts) + rest, Expand(before)) ==
            Blocks(w, last, rest, Expand(before + ts))
  {
    hide CodedBits, HeadBits, Codes, Dynamic, Stored, ToInt, Codable, Expand, FIXED_LENS, FIXED_DISTS, Fits;
    var body := CodedBits(FIXED_LENS, FIXED_DISTS, ts) + rest;
    assert HeadBits(1, last) + CodedBits(FIXED_LENS, FIXED_DISTS, ts) + rest == HeadBits(1, last) + body;
    HeadParts(1, last, body);
    FixedFits();
    CodedDecodes(w, last, FIXED_LENS, FIXED_DISTS, before, ts, rest);
  }

  lemma FixedFits()
    ensures Fits(FIXED_LENS) && Fits(FIXED_DISTS)
  {
    hide FIXED_LENS, FIXED_DISTS, Kraft;
    Fixed.FixedUsable();
  }

  lemma NothingYet()
    ensures BytesBits([]) == [] && ToBits(0, 0) == [] && Expand([]) == [] && Pow2(0) == 1
  {
  }
}
