/**
 _tr_stored_block and _tr_flush_block: a block is written in one of the three forms of the
 format, and a decoder gets from it what its tokens stand for, whichever form it is.
 */
module BlockWriter {
  import opened Bits
  import opened Canonical
  import opened TableSpec
  import opened Tokens
  import opened Rfc1951
  import opened Encoding
  import opened BitWriter
  import opened Trees
  import opened BlockSpec
  import opened RunLengths
  import opened DynamicSpec
  import opened SendTrees
  import opened StaticTrees
  import opened Cost
  import opened BlockCost
  import Optimal
  import Shallow
  import Fixed
  import BT = BuildTree
  import BL = BitLengths
  import HT = HuffmanTree

  /** The tables of tr_static_init. */
  datatype Static = Static(lcodes: seq<nat>, dcodes: seq<nat>, lengthCode: seq<nat>, baseLength: seq<nat>,
        distCode: seq<nat>, baseDist: seq<nat>) {
    ghost predicate Ok() {
      Maps(lengthCode, baseLength, distCode, baseDist) && CodesOk(FIXED_LENS, lcodes) && CodesOk(STATIC_DISTS, dcodes)
    }
  }

  /** tr_static_init */
  method StaticInit() returns (st: Static)
    ensures st.Ok()
  {
    hide CodesOk, LenCode, DistCode, DCode, LBASE, DBASE;
    var lens, lcodes := StaticLengths();
    var dcodes := StaticDists();
    var lengthCode, baseLength := MakeLengthCodes();
    var distCode, baseDist := MakeDistCodes();
    TableSizes();
    st := Static(lcodes, dcodes, lengthCode[..], baseLength[..], distCode[..], baseDist[..]);
  }

  // ---------- stored ----------

  /** The beginning of a stored block: its head, the bits to the next byte, and the two lengths. */
  method StoredHead(w: Writer, length: nat, last: bool) returns (w': Writer, ghost pad: seq<bool>)
    requires w.Ok() && length <= 65535
    ensures w'.Ok() && w'.valid == 0 && w'.Bits() == BytesBits(w'.pending) && |pad| < 8 &&
            |w.Bits()| + 3 + |pad| + 32 == 8 * |w'.pending|
    ensures w'.Bits() == w.Bits() + HeadBits(0, last) + pad + ToBits(length, 16) + ToBits(65535 - length, 16)
  {
    hide ToBits, BytesBits, Pow2;
    w' := SendHead(w, 0, last);
    var v := Windup(w');
    pad := v.Bits()[|w'.Bits()|..];
    assert v.Bits() == w'.Bits() + pad;
    var pending := PutShort(v.pending, length);
    pending := PutShort(pending, 65535 - length);
    w' := v.(pending := pending);
    NoBitsAt(0);
    assert v.Bits() == BytesBits(v.pending);
    assert w'.Bits() == v.Bits() + ToBits(length, 16) + ToBits(65535 - length, 16);
  }

  /** A stored block after whole blocks. */
  lemma StoredEmits(reach: nat, pre: seq<bool>, last: bool, pad: seq<bool>, data: seq<byte>, out: seq<byte>)
    requires Emits(reach, pre, false, out) && |data| <= 65535 && |pad| < 8 && (|pre| + 3 + |pad|) % 8 == 0
    ensures Emits(reach, pre + HeadBits(0, last) + pad + ToBits(|data|, 16) + ToBits(65535 - |data|, 16) +
            BytesBits(data), last, out + data)
  {
    hide ToBits, BytesBits, Emits, Continues;
    var more := HeadBits(0, last) + StoredBits(pad, data);
    StoredContinues(reach, |pre|, last, pad, data, out);
    EmitsMore(reach, pre, more, last, out, out + data);
    assert pre + HeadBits(0, last) + pad + ToBits(|data|, 16) + ToBits(65535 - |data|, 16) + BytesBits(data) ==
        pre + more;
  }

  /** Between w and w' the bytes stand as a stored block, after the bits to the next byte. */
  ghost predicate StoresAfter(w: Writer, w': Writer, data: seq<byte>, last: bool, pad: seq<bool>) {
    |data| <= 65535 && |pad| < 8 && (|w.Bits()| + 3 + |pad|) % 8 == 0 &&
    w'.Bits() == w.Bits() + HeadBits(0, last) + pad + ToBits(|data|, 16) + ToBits(65535 - |data|, 16) +
                 BytesBits(data)
  }

  ghost predicate Stores(w: Writer, w': Writer, data: seq<byte>, last: bool) {
    exists pad :: StoresAfter(w, w', data, last, pad)
  }

  /** They are added to whatever was sent before. */
  lemma StoresAdd(reach: nat, w: Writer, w': Writer, data: seq<byte>, last: bool, sent: seq<byte>, out: seq<byte>)
    requires Stores(w, w', data, last) && Emits(reach, BytesBits(sent) + w.Bits(), false, out)
    ensures Emits(reach, BytesBits(sent) + w'.Bits(), last, out + data)
  {
    hide StoresAfter, BytesBits, Emits;
    var pad :| StoresAfter(w, w', data, last, pad);
    StoresAddAfter(reach, w, w', data, last, pad, sent, out);
  }

  lemma StoresAddAfter(reach: nat, w: Writer, w': Writer, data: seq<byte>, last: bool, pad: seq<bool>,
        sent: seq<byte>, out: seq<byte>)
    requires StoresAfter(w, w', data, last, pad) && Emits(reach, BytesBits(sent) + w.Bits(), false, out)
    ensures Emits(reach, BytesBits(sent) + w'.Bits(), last, out + data)
  {
    hide ToBits, BytesBits, Emits, HeadBits, Writer.Bits;
    var pre := BytesBits(sent) + w.Bits();
    StoredEmits(reach, pre, last, pad, data, out);
    assert BytesBits(sent) + w'.Bits() ==
           pre + HeadBits(0, last) + pad + ToBits(|data|, 16) + ToBits(65535 - |data|, 16) + BytesBits(data);
  }

  /** _tr_stored_block */
  method StoredBlock(w: Writer, data: seq<byte>, last: bool) returns (w': Writer)
    requires w.Ok() && |data| <= 65535
    ensures w'.Ok() && Stores(w, w', data, last) && w'.valid == 0
    ensures 35 + 8 * |data| <= |w'.Bits()| - |w.Bits()| < 43 + 8 * |data| && |w'.Bits()| == 8 * |w'.pending|
  {
    hide ToBits, BytesBits, HeadBits, Pow2;
    ghost var pad;
    w', pad := StoredHead(w, |data|, last);
    BytesBitsConcat(w'.pending, data);
    w' := w'.(pending := w'.pending + data);
    NoBitsAt(w'.buf);
    assert StoresAfter(w, w', data, last, pad);
  }

  /** The three bits that begin a block. */
  method SendHead(w: Writer, kind: nat, last: bool) returns (w': Writer)
    requires w.Ok() && kind <= 2
    ensures w'.Ok() && w'.Bits() == w.Bits() + HeadBits(kind, last) && |HeadBits(kind, last)| == 3
  {
    hide ToBits, BytesBits;
    assert Pow2(3) == 8;
    w' := SendBits(w, 2 * kind + if last then 1 else 0, 3);
  }

  // ---------- with the fixed codes ----------

  method StaticBlock(w: Writer, st: Static, ts: seq<Token>, last: bool) returns (w': Writer)
    requires w.Ok() && st.Ok() && AllExpressible(ts)
    ensures w'.Ok() && AllCodable(FIXED_LENS, FIXED_DISTS, ts) && Coded(FIXED_LENS, 256)
    ensures w'.Bits() == w.Bits() + HeadBits(1, last) + CodedBits(FIXED_LENS, FIXED_DISTS, ts)
    ensures |w'.Bits()| == |w.Bits()| + 3 + |CodedBits(FIXED_LENS, FIXED_DISTS, ts)|
  {
    hide Codable, TokensBits, CodesOk, FIXED_LENS, FIXED_DISTS, STATIC_DISTS, BytesBits, ToBits, LenCode, DistCode,
      DCode, HeadBits, CodeBits;
    FixedCodable(ts);
    SameTokens(ts);
    StaticValid();
    w' := SendHead(w, 1, last);
    w' := CompressBlock(w', ts, FIXED_LENS, st.lcodes, STATIC_DISTS, st.dcodes, st.lengthCode, st.baseLength,
        st.distCode, st.baseDist);
    assert w'.Bits() == w.Bits() + HeadBits(1, last) + CodedBits(FIXED_LENS, FIXED_DISTS, ts);
  }

  /** It adds what the tokens stand for to whatever was sent before. */
  lemma StaticAdds(reach: nat, w: Writer, w': Writer, ts: seq<Token>, last: bool, sent: seq<byte>, before: seq<Token>)
    requires AllExpressible(ts) && AllCodable(FIXED_LENS, FIXED_DISTS, ts) && Coded(FIXED_LENS, 256)
    requires w'.Bits() == w.Bits() + HeadBits(1, last) + CodedBits(FIXED_LENS, FIXED_DISTS, ts)
    requires Within(ts, reach) && Sane(before + ts) && Emits(reach, BytesBits(sent) + w.Bits(), false, Expand(before))
    ensures Emits(reach, BytesBits(sent) + w'.Bits(), last, Expand(before + ts))
  {
    hide Emits, Continues, Codable, CodedBits, Expand, FIXED_LENS, FIXED_DISTS, BytesBits, ToBits, HeadBits;
    var more := HeadBits(1, last) + CodedBits(FIXED_LENS, FIXED_DISTS, ts);
    var pre := BytesBits(sent) + w.Bits();
    assert BytesBits(sent) + w'.Bits() == pre + more;
    StaticContinues(reach, |pre|, last, before, ts);
    EmitsMore(reach, pre, more, last, Expand(before), Expand(before + ts));
  }

  lemma StaticValid()
    ensures ValidLens(FIXED_LENS) && ValidLens(STATIC_DISTS)
  {
  }

  // ---------- with codes of its own ----------

  /** _tr_tally: no count gets to 2^16. */
  method TallyOne(t: Token, st: Static, lfreq: array<nat>, dfreq: array<nat>, ghost n: nat)
    requires st.Ok() && Expressible(t) && lfreq != dfreq && lfreq.Length == 573 && dfreq.Length == 61 && n < 65534
    requires (forall s :: 0 <= s < 573 ==> lfreq[s] <= n + 1) && (forall s :: 0 <= s < 61 ==> dfreq[s] <= n)
    modifies lfreq, dfreq
    ensures lfreq[..] == Bump(old(lfreq[..]), LSym(t))
    ensures dfreq[..] == if t.Str? then Bump(old(dfreq[..]), DistCode(t.dist)) else old(dfreq[..])
    ensures (forall s :: 0 <= s < 573 ==> lfreq[s] <= n + 2) && (forall s :: 0 <= s < 61 ==> dfreq[s] <= n + 1)
  {
    hide CodesOk, LenCode, DistCode, DCode, LBASE, DBASE;
    match t {
      case Lit(b) =>
        lfreq[b] := HT.Sum16(lfreq[b], 1);
      case Str(len, dist) =>
        var s := 257 + st.lengthCode[len - 3];
        lfreq[s] := HT.Sum16(lfreq[s], 1);
        var e := DCode(st.distCode, dist - 1);
        dfreq[e] := HT.Sum16(dfreq[e], 1);
    }
  }

  /** _tr_tally over the tokens of a block, and the end of the block; counts have 16 bits. */
  method Tally(ts: seq<Token>, st: Static) returns (lfreq: array<nat>, dfreq: array<nat>)
    requires st.Ok() && AllExpressible(ts) && |ts| < 65535
    ensures fresh(lfreq) && fresh(dfreq) && lfreq != dfreq && lfreq.Length == 573 && dfreq.Length == 61
    ensures lfreq[..] == LTally(ts) && dfreq[..] == DTally(ts)
  {
    hide CodesOk, LenCode, DistCode, DCode, LBASE, DBASE, Static.Ok, LSym, Bump;
    lfreq := new nat[573](_ => 0);
    dfreq := new nat[61](_ => 0);
    lfreq[256] := 1;
    assert lfreq[..] == BL.Zeros(573)[256 := 1] && dfreq[..] == BL.Zeros(61);
    for n := 0 to |ts|
      invariant (forall s :: 0 <= s < 573 ==> lfreq[s] <= n + 1) && (forall s :: 0 <= s < 61 ==> dfreq[s] <= n)
      invariant lfreq[..] == LTally(ts[..n]) && dfreq[..] == DTally(ts[..n])
    {
      assert Expressible(ts[n]);
      assert ts[..n + 1][..n] == ts[..n];
      TallyOne(ts[n], st, lfreq, dfreq, n);
    }
    assert ts[..|ts|] == ts;
  }

  /** The codes of a block's own: for literals and lengths, for distances, and for the lengths of these. */
  datatype Own = Own(ll: seq<nat>, lcodes: seq<nat>, dl: seq<nat>, dcodes: seq<nat>, cl: seq<nat>, clcodes: seq<nat>,
        ncode: nat) {
    /** They can be sent, and the tokens can be written with them. */
    ghost predicate Ok(ts: seq<Token>) {
      && Sendable(ll, dl, cl, ncode) && CodesOk(ll, lcodes) && CodesOk(dl, dcodes) && CodesOk(cl, clcodes)
      && AllCodable(ll, dl, ts) && Coded(ll, 256)
    }

    /** The trees and the tokens. */
    ghost function Bits(ts: seq<Token>): seq<bool>
      requires Ok(ts)
    {
      TreesBits(ll, dl, cl, ncode) + CodedBits(ll, dl, ts)
    }

    ghost function Length(ts: seq<Token>): nat
      requires Ok(ts)
    {
      |TreesBits(ll, dl, cl, ncode)| + |CodedBits(ll, dl, ts)|
    }
  }

  method DynamicBlock(w: Writer, st: Static, own: Own, ts: seq<Token>, last: bool) returns (w': Writer)
    requires w.Ok() && st.Ok() && AllExpressible(ts) && own.Ok(ts)
    ensures w'.Ok() && w'.Bits() == w.Bits() + HeadBits(2, last) + own.Bits(ts)
    ensures |w'.Bits()| == |w.Bits()| + 3 + own.Length(ts)
  {
    hide Codable, TokensBits, CodesOk, BytesBits, ToBits, LenCode, DistCode, DCode, HeadBits, CodeBits, Sendable,
      TreesBits;
    var Own(ll, lcodes, dl, dcodes, cl, clcodes, ncode) := own;
    w' := SendHead(w, 2, last);
    w' := SendAllTrees(w', ll, dl, cl, clcodes, ncode);
    SendableValid(ll, dl, cl, ncode);
    w' := CompressBlock(w', ts, ll, lcodes, dl, dcodes, st.lengthCode, st.baseLength, st.distCode, st.baseDist);
    assert w'.Bits() == w.Bits() + HeadBits(2, last) + own.Bits(ts);
  }

  /** It adds what the tokens stand for to whatever was sent before. */
  lemma DynamicAdds(reach: nat, w: Writer, w': Writer, own: Own, ts: seq<Token>, last: bool, sent: seq<byte>,
        before: seq<Token>)
    requires AllExpressible(ts) && own.Ok(ts) && w'.Bits() == w.Bits() + HeadBits(2, last) + own.Bits(ts)
    requires Within(ts, reach) && Sane(before + ts) && Emits(reach, BytesBits(sent) + w.Bits(), false, Expand(before))
    ensures Emits(reach, BytesBits(sent) + w'.Bits(), last, Expand(before + ts))
  {
    hide Emits, Continues, Codable, CodedBits, CodesOk, Expand, BytesBits, ToBits, HeadBits, Sendable, TreesBits;
    var more := HeadBits(2, last) + TreesBits(own.ll, own.dl, own.cl, own.ncode) + CodedBits(own.ll, own.dl, ts);
    var pre := BytesBits(sent) + w.Bits();
    assert BytesBits(sent) + w'.Bits() == pre + more;
    DynamicContinues(reach, |pre|, last, own.ll, own.dl, own.cl, own.ncode, before, ts);
    EmitsMore(reach, pre, more, last, Expand(before), Expand(before + ts));
  }

  lemma SendableValid(ll: seq<nat>, dl: seq<nat>, cl: seq<nat>, ncode: nat)
    requires Sendable(ll, dl, cl, ncode)
    ensures ValidLens(ll) && ValidLens(dl)
  {
  }

  /** Whatever was counted has a code. */
  lemma TokensCoded(ll: seq<nat>, dl: seq<nat>, ts: seq<Token>)
    requires AllExpressible(ts)
    requires forall n :: 0 <= n < 286 && LTally(ts)[n] != 0 ==> n < |ll| && ll[n] > 0
    requires forall n :: 0 <= n < 30 && DTally(ts)[n] != 0 ==> n < |dl| && dl[n] > 0
    ensures AllCodable(ll, dl, ts) && Coded(ll, 256)
  {
    hide LenCode, DistCode, LTally, DTally;
    EndTallied(ts);
    forall i | 0 <= i < |ts| ensures Codable(ll, dl, ts[i]) {
      Tallied(ts, i);
    }
  }

  /** A code for the packed lengths. */
  ghost predicate BlOk(ll: seq<nat>, dl: seq<nat>, cl: seq<nat>, codes: seq<nat>, ncode: nat) {
    && Covers(cl, ncode) && 4 <= ncode && ValidLens(cl) && Kraft(cl) == Pow2(MAXBITS) &&
        (forall i :: 0 <= i < 19 ==> cl[i] <= 7)
    && CodesOk(cl, codes) && ItemsOk(cl, Packed(ll)) && ItemsOk(cl, Packed(dl))
  }

  lemma ItemsCounted(freq0: seq<nat>, freq: seq<nat>, lens: seq<nat>)
    requires Scanned(freq0, freq, Packed(lens)) && ValidLens(lens) && |freq| >= 19
    ensures forall i :: 0 <= i < |Packed(lens)| ==>
      ItemOk(Packed(lens)[i]) && Packed(lens)[i].s < |freq| && freq[Packed(lens)[i].s] != 0
  {
    hide Packed, Uses, ItemOk, Sensible;
    var items := Packed(lens);
    PackedSensible([], lens);
    forall i | 0 <= i < |items| ensures ItemOk(items[i]) && items[i].s < |freq| && freq[items[i].s] != 0 {
      ItemSymbol(items[i]);
      UsesIn(items, i);
    }
  }

  lemma ItemSymbol(i: Item)
    requires ItemOk(i)
    ensures i.s <= 18
  {
  }

  /** build_bl_tree */
  method BuildBlTree(ll: seq<nat>, dl: seq<nat>, opt0: int)
      returns (cl: seq<nat>, codes: seq<nat>, ncode: nat, opt: int)
    requires ValidLens(ll) && ValidLens(dl) && |ll| > 0 && ll[|ll| - 1] > 0
    ensures BlOk(ll, dl, cl, codes, ncode) && (ncode == 4 || cl[ORDER[ncode - 1]] > 0)
    ensures opt == opt0 + 14 + 3 * ncode + |ItemsBits(cl, Packed(ll))| + |ItemsBits(cl, Packed(dl))|
  {
    hide Packed, Uses, Scanned, Kraft, CodesOk, ItemOk, Pow2, ItemsBits, BL_DESC, BL.Desc.Ok, BL.Desc.Extra, BL.Costs,
      BT.Plain;
    Powers();
    DescsOk();
    PlainTrees();
    var freq := new nat[39](_ => 0);
    ghost var f0 := freq[..];
    ScanTree(ll, freq);
    ghost var f1 := freq[..];
    ScanTree(dl, freq);
    ghost var f2 := freq[..];
    var lens, none;
    lens, codes, cl, opt, none := BT.BuildTree(freq, BL_DESC, opt0, 0);
    ItemsCoded(f0, f1, f2, ll, dl, lens, cl);
    PackedCost(f0, f1, f2, ll, dl, cl);
    CostIs(f2, cl, opt - opt0, none);
    ghost var x := SomeLength(ll, |ll| - 1);
    Padded19(lens, cl, codes);
    ncode := LastSent(cl, Packed(ll)[x].s);
    codes := codes + BL.Zeros(19 - |lens|);
    opt := opt + 3 * ncode + 14;
  }

  lemma CostIs(f: seq<nat>, cl: seq<nat>, opt: int, stat: int)
    requires BL.Costs(f, cl, BL_DESC, opt, stat)
    ensures BL_DESC.Ok() && |cl| == 19 <= |f| && opt == Weighted(f, cl, cl, BL_DESC.Extras())
  {
  }

  /** The symbols that build_tree may make occur have no extra bits. */
  lemma PlainTrees()
    ensures L_DESC.Ok() && D_DESC.Ok() && BL_DESC.Ok() && BT.Plain(L_DESC) && BT.Plain(D_DESC) && BT.Plain(BL_DESC)
  {
  }

  lemma Padded19(lens: seq<nat>, cl: seq<nat>, codes: seq<nat>)
    requires |lens| <= |cl| == 19 && lens <= cl && BT.ZerosFrom(cl, |lens|) && ValidLens(lens) &&
             Kraft(lens) == Pow2(MAXBITS) && CodesOk(lens, codes)
    requires forall n :: 0 <= n < |lens| ==> lens[n] <= 7
    ensures ValidLens(cl) && Kraft(cl) == Pow2(MAXBITS) && CodesOk(cl, codes + BL.Zeros(19 - |lens|)) &&
            forall i :: 0 <= i < 19 ==> cl[i] <= 7
  {
    hide Kraft, CodesOk, Pow2;
    forall i | 0 <= i < 19 ensures cl[i] <= 7 {
      if i < |lens| {
        assert cl[i] == lens[i];
      }
    }
    assert cl[..|lens|] == lens;
    BT.Trimmed(cl, |lens|);
    BT.TrimmedCodes(cl, |lens|, codes);
  }

  lemma ItemsCoded(f0: seq<nat>, f1: seq<nat>, f2: seq<nat>, ll: seq<nat>, dl: seq<nat>, lens: seq<nat>, cl: seq<nat>)
    requires |f0| >= 19 && Scanned(f0, f1, Packed(ll)) && Scanned(f1, f2, Packed(dl)) && ValidLens(ll) && ValidLens(dl)
    requires lens <= cl && forall n :: 0 <= n < 19 && f2[n] != 0 ==> n < |lens| && lens[n] > 0
    ensures ItemsOk(cl, Packed(ll)) && ItemsOk(cl, Packed(dl))
  {
    hide Packed, Uses, ItemOk;
    ItemsCounted(f0, f1, ll);
    ItemsCounted(f1, f2, dl);
    forall i | 0 <= i < |Packed(ll)| ensures ItemOk(Packed(ll)[i]) && Coded(cl, Packed(ll)[i].s) {
      ItemSymbol(Packed(ll)[i]);
    }
    forall i | 0 <= i < |Packed(dl)| ensures ItemOk(Packed(dl)[i]) && Coded(cl, Packed(dl)[i].s) {
      ItemSymbol(Packed(dl)[i]);
    }
  }

  lemma ThreeOk(own: Own, ts: seq<Token>)
    requires 257 <= |own.ll| <= 286 && 1 <= |own.dl| <= 30 && ValidLens(own.ll) && ValidLens(own.dl) && own.ll[256] > 0
    requires Kraft(own.ll) == Pow2(MAXBITS) && Kraft(own.dl) == Pow2(MAXBITS) && CodesOk(own.ll, own.lcodes) &&
             CodesOk(own.dl, own.dcodes)
    requires AllCodable(own.ll, own.dl, ts) && BlOk(own.ll, own.dl, own.cl, own.clcodes, own.ncode)
    ensures own.Ok(ts)
  {
    hide Kraft, Packed, CodesOk, Codable, ItemsOk, Covers;
  }

  /**
   opt_len and static_len without the trees are the bits of the tokens with the block's own codes and with the fixed
   ones.
   */
  lemma TwoCosts(ts: seq<Token>, ll: seq<nat>, dl: seq<nat>, lfull: seq<nat>, dfull: seq<nat>, lo: int, ls: int, o: int,
        s: int)
    requires AllExpressible(ts) && AllCodable(ll, dl, ts) && Coded(ll, 256) && ll <= lfull && dl <= dfull
    requires BL.Costs(LTally(ts), lfull, L_DESC, lo, ls) && BL.Costs(DTally(ts), dfull, D_DESC, o - lo, s - ls)
    ensures o == |CodedBits(ll, dl, ts)| && AllCodable(FIXED_LENS, FIXED_DISTS, ts) && Coded(FIXED_LENS, 256)
    ensures s == |CodedBits(FIXED_LENS, FIXED_DISTS, ts)|
  {
    hide FIXED_LENS, FIXED_DISTS, STATIC_DISTS, TokensBits, CodeBits, LTally, DTally, Weighted, LenCode, DistCode,
      L_DESC, D_DESC, BL.Desc.Ok, BL.Desc.Extras;
    DescsOk();
    FixedCodable(ts);
    SameTokens(ts);
    forall i | 0 <= i < |ts| ensures Codable(lfull, dfull, ts[i]) {
      assert Codable(ll, dl, ts[i]);
    }
    TokensCost(ts, ll, dl, lfull, dfull, lfull, dfull);
    TokensCost(ts, FIXED_LENS, STATIC_DISTS, FIXED_LENS, STATIC_DISTS, lfull, dfull);
  }

  /** Codes that are as good as any are as good as the fixed ones. */
  lemma OwnShort(ts: seq<Token>, lfull: seq<nat>, dfull: seq<nat>, lo: int, ls: int, o: int, s: int)
    requires AllExpressible(ts) && BT.Least(LTally(ts), lfull, L_DESC) && BT.Least(DTally(ts), dfull, D_DESC)
    requires BL.Costs(LTally(ts), lfull, L_DESC, lo, ls) && BL.Costs(DTally(ts), dfull, D_DESC, o - lo, s - ls)
    ensures o <= s
  {
    hide FIXED_LENS, FIXED_DISTS, STATIC_DISTS, LTally, DTally, Weighted, BT.Least, Kraft, L_DESC, D_DESC, BL.Desc.Ok,
      BL.Desc.Extras, Pow2;
    DescsOk();
    FixedIsCode();
    NoLonger(LTally(ts), lfull, L_DESC, FIXED_LENS);
    NoLonger(DTally(ts), dfull, D_DESC, STATIC_DISTS);
  }

  lemma FixedIsCode()
    ensures ValidLens(FIXED_LENS) && Kraft(FIXED_LENS) <= Pow2(MAXBITS) && |FIXED_LENS| == 288 &&
            forall n :: 0 <= n < 288 ==> FIXED_LENS[n] > 0
    ensures ValidLens(STATIC_DISTS) && Kraft(STATIC_DISTS) <= Pow2(MAXBITS) && |STATIC_DISTS| == 30 &&
            forall n :: 0 <= n < 30 ==> STATIC_DISTS[n] > 0
  {
    hide Kraft, Pow2;
    Fixed.FixedUsable();
    KraftPart(FIXED_DISTS, 30);
    assert FIXED_DISTS[..30] == STATIC_DISTS;
    forall n | 0 <= n < 288 ensures FIXED_LENS[n] > 0 {
    }
  }

  /** The frequencies of a block do not wrap around; those of a short one make no high tree. */
  lemma TallySmall(ts: seq<Token>)
    requires AllExpressible(ts) && |ts| < 65535
    ensures Optimal.Sum(HT.Leaves(LTally(ts), 286), LTally(ts), 286) < 65536
    ensures Optimal.Sum(HT.Leaves(DTally(ts), 30), DTally(ts), 30) < 65536
    ensures |ts| < 2583 ==>
      && Optimal.Sum(HT.Leaves(LTally(ts), 286), LTally(ts), 286) < Shallow.Fibonacci(L_DESC.max + 1)
      && Optimal.Sum(HT.Leaves(DTally(ts), 30), DTally(ts), 30) < Shallow.Fibonacci(D_DESC.max + 1)
  {
    hide LTally, DTally, Optimal.Sum, AllOf;
    Shallow.Sixteen();
    TallyTotals(ts);
    SumIsAll(HT.Leaves(LTally(ts), 286), LTally(ts), 286);
    SumIsAll(HT.Leaves(DTally(ts), 30), DTally(ts), 30);
  }

  /** Lengths filled up with zeros. */
  function FilledUp(l: seq<nat>, n: nat): (p: seq<nat>)
    requires |l| <= n
    ensures |p| == n && l <= p && BT.ZerosFrom(p, |l|)
  {
    l + BL.Zeros(n - |l|)
  }

  /** The codes of a block are as good as any. */
  ghost predicate LeastFor(own: Own, ts: seq<Token>)
    requires AllExpressible(ts)
  {
    && |own.ll| <= 286 && |own.dl| <= 30
    && BT.Least(LTally(ts), FilledUp(own.ll, 286), L_DESC) && BT.Least(DTally(ts), FilledUp(own.dl, 30), D_DESC)
  }

  lemma FilledIs(l: seq<nat>, full: seq<nat>)
    requires l <= full && BT.ZerosFrom(full, |l|)
    ensures FilledUp(l, |full|) == full
  {
  }

  /**
   The codes of a block, and what the block takes with them and with the fixed codes.  Its own are no longer if the
   limit on their lengths is no hindrance; and always if there are fewer than 2583 tokens.
   */
  method BuildTrees(ts: seq<Token>, st: Static) returns (own: Own, opt: int, stat: int)
    requires st.Ok() && AllExpressible(ts) && |ts| < 65535
    ensures own.Ok(ts) && AllCodable(FIXED_LENS, FIXED_DISTS, ts) && Coded(FIXED_LENS, 256)
    ensures opt == own.Length(ts) && stat == |CodedBits(FIXED_LENS, FIXED_DISTS, ts)|
    ensures BT.Attainable(LTally(ts), L_DESC) && BT.Attainable(DTally(ts), D_DESC) ==>
            LeastFor(own, ts) && |CodedBits(own.ll, own.dl, ts)| <= stat
    ensures |ts| < 2583 ==> LeastFor(own, ts) && |CodedBits(own.ll, own.dl, ts)| <= stat
  {
    hide CodesOk, Kraft, Codable, BlOk, Pow2, Own.Ok, LTally, DTally, FIXED_LENS, FIXED_DISTS, STATIC_DISTS, L_DESC,
      D_DESC, BL.Costs, BL.Desc.Ok, BL.Desc.Extra, BT.Plain, BT.Least, BT.Attainable, Optimal.Sum, HT.Leaves,
      CodedBits, ItemsBits, Static.Ok, Shallow.Fibonacci;
    Powers();
    DescsOk();
    PlainTrees();
    TallySmall(ts);
    var lfreq, dfreq := Tally(ts, st);
    var ll, lcodes, lfull, lo, ls := BT.BuildTree(lfreq, L_DESC, 0, 0);
    var dl, dcodes, dfull;
    dl, dcodes, dfull, opt, stat := BT.BuildTree(dfreq, D_DESC, lo, ls);
    TokensCoded(ll, dl, ts);
    TwoCosts(ts, ll, dl, lfull, dfull, lo, ls, opt, stat);
    if BT.Least(LTally(ts), lfull, L_DESC) && BT.Least(DTally(ts), dfull, D_DESC) {
      OwnShort(ts, lfull, dfull, lo, ls, opt, stat);
    }
    var cl, clcodes, ncode;
    cl, clcodes, ncode, opt := BuildBlTree(ll, dl, opt);
    own := Own(ll, lcodes, dl, dcodes, cl, clcodes, ncode);
    FilledIs(ll, lfull);
    FilledIs(dl, dfull);
    ThreeOk(own, ts);
    OwnLength(own, ts);
  }

  lemma OwnLength(own: Own, ts: seq<Token>)
    requires own.Ok(ts)
    ensures own.Length(ts) == 14 + 3 * own.ncode + |ItemsBits(own.cl, Packed(own.ll))| +
            |ItemsBits(own.cl, Packed(own.dl))| +
                              |CodedBits(own.ll, own.dl, ts)|
  {
    hide Packed, CodesOk, Codable, ItemsBits, CodedBits, TreesBits, Sendable;
    TreesLength(own.ll, own.dl, own.cl, own.ncode);
  }

  lemma Powers()
    ensures Pow2(15) == 32768 && Pow2(7) == 128
  {
    assert Pow2(5) == 32;
    assert Pow2(10) == 1024;
  }

  // ---------- the choice ----------

  /** How a block is written: its bytes, or its tokens with the fixed codes or with codes of their own. */
  datatype Form = AsBytes(data: seq<byte>) | WithFixed | WithOwn

  /** The bytes of a block, unless the window no longer has them all. */
  datatype Buffer = Gone | Held(data: seq<byte>)

  /** Bits in whole bytes, with the three that begin a block. */
  function InBytes(bits: nat): nat {
    (bits + 3 + 7) / 8
  }

  /** The choice of _tr_flush_block, from opt_len and static_len; fixed is the strategy Z_FIXED. */
  function Choose(opt: nat, stat: nat, fixed: bool, buf: Buffer): Form {
    var statB := InBytes(stat);
    var optB := if statB <= InBytes(opt) || fixed then statB else InBytes(opt);
    if buf.Held? && |buf.data| + 4 <= optB then AsBytes(buf.data)
    else if statB == optB then WithFixed
    else WithOwn
  }

  /** The bits of a block without those that fill up a byte. */
  function SizeOf(form: Form, opt: nat, stat: nat): nat {
    match form
    case AsBytes(data) => 3 + 32 + 8 * |data|
    case WithFixed => 3 + stat
    case WithOwn => 3 + opt
  }

  /** The form may be chosen. */
  predicate Eligible(form: Form, fixed: bool, buf: Buffer) {
    match form
    case AsBytes(data) => buf == Held(data)
    case WithFixed => true
    case WithOwn => !fixed
  }

  /**
   No other form is shorter by more than 10 bits, or by a whole byte unless the block is stored; a stored block is
   longer than another would be just if the shorter of the codes, as bytes go, takes from 22 to 31 bits more than
   the data.
   */
  lemma ChoiceIsGood(opt: nat, stat: nat, fixed: bool, buf: Buffer, other: Form)
    requires Eligible(other, fixed, buf)
    ensures var f := Choose(opt, stat, fixed, buf);
            && Eligible(f, fixed, buf) && SizeOf(f, opt, stat) <= SizeOf(other, opt, stat) + 10
            && (!f.AsBytes? ==> SizeOf(f, opt, stat) < SizeOf(other, opt, stat) + 8)
            && (other.AsBytes? ==> SizeOf(f, opt, stat) <= SizeOf(other, opt, stat))
    ensures var m := if InBytes(stat) <= InBytes(opt) || fixed then stat else opt;
            buf.Held? ==> (Choose(opt, stat, fixed, buf).AsBytes? && 35 + 8 * |buf.data| > 3 + m <==>
                           8 * |buf.data| + 22 <= m < 8 * |buf.data| + 32)
  {
  }

  // ---------- any block ----------

  /** What some tokens before stand for can be followed by the block: its tokens and, if it has them, its bytes. */
  ghost predicate Precede(reach: nat, w: Writer, ts: seq<Token>, buf: Buffer, sent: seq<byte>, before: seq<Token>) {
    && Emits(reach, BytesBits(sent) + w.Bits(), false, Expand(before)) && Sane(before + ts) && Within(ts, reach)
    && (buf.Held? ==> Expand(before + ts) == Expand(before) + buf.data)
  }

  /** Then from w to w' the block is added, and the stream ends at a byte after the last one. */
  ghost predicate AddsTo(reach: nat, w: Writer, w': Writer, ts: seq<Token>, buf: Buffer, last: bool, sent: seq<byte>,
        before: seq<Token>) {
    Precede(reach, w, ts, buf, sent, before) ==>
      if last then Ends(reach, sent + w'.pending, Expand(before + ts))
      else Emits(reach, BytesBits(sent) + w'.Bits(), false, Expand(before + ts))
  }

  /** Whatever was sent before, and whatever it stands for. */
  ghost predicate Adds(w: Writer, w': Writer, ts: seq<Token>, buf: Buffer, last: bool) {
    forall reach, sent, before :: AddsTo(reach, w, w', ts, buf, last, sent, before)
  }

  lemma AddsAt(reach: nat, w: Writer, w': Writer, ts: seq<Token>, buf: Buffer, last: bool, sent: seq<byte>,
        before: seq<Token>)
    requires Adds(w, w', ts, buf, last) && Precede(reach, w, ts, buf, sent, before)
    ensures if last then Ends(reach, sent + w'.pending, Expand(before + ts))
            else Emits(reach, BytesBits(sent) + w'.Bits(), false, Expand(before + ts))
  {
    hide Emits, Ends, BytesBits, Expand, Precede;
    assert AddsTo(reach, w, w', ts, buf, last, sent, before);
  }

  /** The block in the form chosen, before the bits to the next byte. */
  ghost predicate InForm(form: Form, own: Own, w: Writer, v: Writer, ts: seq<Token>, last: bool)
    requires own.Ok(ts) && AllCodable(FIXED_LENS, FIXED_DISTS, ts) && Coded(FIXED_LENS, 256)
  {
    match form
    case AsBytes(data) => Stores(w, v, data, last)
    case WithFixed => v.Bits() == w.Bits() + HeadBits(1, last) + CodedBits(FIXED_LENS, FIXED_DISTS, ts)
    case WithOwn => v.Bits() == w.Bits() + HeadBits(2, last) + own.Bits(ts)
  }

  /** In any form the block is added to what was sent. */
  lemma FormAdds(reach: nat, form: Form, own: Own, w: Writer, v: Writer, ts: seq<Token>, buf: Buffer, last: bool,
        sent: seq<byte>, before: seq<Token>)
    requires own.Ok(ts) && AllCodable(FIXED_LENS, FIXED_DISTS, ts) && Coded(FIXED_LENS, 256) && AllExpressible(ts)
    requires InForm(form, own, w, v, ts, last) && (form.AsBytes? ==> buf == Held(form.data))
    requires Precede(reach, w, ts, buf, sent, before)
    ensures Emits(reach, BytesBits(sent) + v.Bits(), last, Expand(before + ts))
  {
    hide Emits, Expand, BytesBits, Own.Ok, Own.Bits, AllCodable, AllExpressible, CodedBits, FIXED_LENS, FIXED_DISTS,
      HeadBits, Sane, Within, Stores, ToBits;
    match form {
      case AsBytes(data) => StoresAdd(reach, w, v, data, last, sent, Expand(before));
      case WithFixed => StaticAdds(reach, w, v, ts, last, sent, before);
      case WithOwn => DynamicAdds(reach, w, v, own, ts, last, sent, before);
    }
  }

  /** With the bits to the next byte after the last block. */
  lemma FlushAdds(form: Form, own: Own, w: Writer, v: Writer, w': Writer, ts: seq<Token>, buf: Buffer, last: bool)
    requires own.Ok(ts) && AllCodable(FIXED_LENS, FIXED_DISTS, ts) && Coded(FIXED_LENS, 256) && AllExpressible(ts)
    requires InForm(form, own, w, v, ts, last) && (form.AsBytes? ==> buf == Held(form.data))
    requires if last then w'.valid == 0 && w'.buf == 0 && v.Bits() <= w'.Bits() && |w'.Bits()| < |v.Bits()| + 8 &&
                          |w'.Bits()| % 8 == 0
             else w' == v
    ensures Adds(w, w', ts, buf, last)
  {
    hide Emits, Ends, Expand, BytesBits, Own.Ok, AllCodable, AllExpressible, FIXED_LENS, FIXED_DISTS, Precede, InForm,
      ToBits;
    forall reach, sent, before ensures AddsTo(reach, w, w', ts, buf, last, sent, before) {
      if Precede(reach, w, ts, buf, sent, before) {
        FormAdds(reach, form, own, w, v, ts, buf, last, sent, before);
        if last {
          WoundUp(reach, sent, v, w', Expand(before + ts));
        }
      }
    }
  }

  /**
   _tr_flush_block: the block adds what its tokens stand for, whichever form is chosen, and takes as many bits as
   the choice reckoned with; after the last one the stream ends at a byte.  What is pending fits into four bytes a
   token, and four more.
   */
  method FlushBlock(w: Writer, st: Static, buf: Buffer, fixed: bool, ts: seq<Token>, last: bool)
      returns (w': Writer, ghost own: Own)
    requires w.Ok() && st.Ok() && AllExpressible(ts) && |ts| < 65535 && (buf.Held? ==> |buf.data| <= 65535)
    ensures w'.Ok() && Adds(w, w', ts, buf, last) && (last ==> w'.valid == 0)
    ensures own.Ok(ts) && AllCodable(FIXED_LENS, FIXED_DISTS, ts) && Coded(FIXED_LENS, 256)
    ensures var opt, stat := own.Length(ts), |CodedBits(FIXED_LENS, FIXED_DISTS, ts)|;
            var form := Choose(opt, stat, fixed, buf);
            0 <= |w'.Bits()| - |w.Bits()| - SizeOf(form, opt, stat) <= if form.AsBytes? || last then 7 else 0
    ensures w.pending == [] && w.valid < 8 ==> |w'.pending| <= 4 * (|ts| + 1)
  {
    hide BytesBits, ToBits, Static.Ok, AllExpressible, Own.Ok, Own.Bits, AllCodable, CodedBits, FIXED_LENS, FIXED_DISTS,
      HeadBits, Stores, Adds;
    var codes, opt, stat := BuildTrees(ts, st);
    own := codes;
    var form := Choose(opt, stat, fixed, buf);
    match form {
      case AsBytes(data) => w' := StoredBlock(w, data, last);
      case WithFixed => w' := StaticBlock(w, st, ts, last);
      case WithOwn => w' := DynamicBlock(w, st, codes, ts, last);
    }
    ghost var v := w';
    if last {
      w' := Windup(w');
    }
    FlushAdds(form, own, w, v, w', ts, buf, last);
    NoOverflow(w, w', ts, opt, stat, fixed, buf);
  }

  /** Whatever form is chosen takes little more than the fixed codes would. */
  lemma NoOverflow(w: Writer, w': Writer, ts: seq<Token>, opt: nat, stat: nat, fixed: bool, buf: Buffer)
    requires AllCodable(FIXED_LENS, FIXED_DISTS, ts) && Coded(FIXED_LENS, 256) &&
             stat == |CodedBits(FIXED_LENS, FIXED_DISTS, ts)|
    requires |w'.Bits()| <= |w.Bits()| + SizeOf(Choose(opt, stat, fixed, buf), opt, stat) + 7
    ensures w.pending == [] && w.valid < 8 ==> |w'.pending| <= 4 * (|ts| + 1)
  {
    hide BytesBits, ToBits, Codable, TokensBits, CodeBits, FIXED_DISTS;
    FixedLength(ts);
    assert FIXED_LENS[256] == 7;
  }

  /** The last block and the bits to the next byte make up a whole stream. */
  lemma WoundUp(reach: nat, sent: seq<byte>, v: Writer, w: Writer, out: seq<byte>)
    requires Emits(reach, BytesBits(sent) + v.Bits(), true, out) && w.valid == 0 && w.buf == 0
    requires v.Bits() <= w.Bits() && |w.Bits()| < |v.Bits()| + 8 && |w.Bits()| % 8 == 0
    ensures Ends(reach, sent + w.pending, out)
  {
    hide Emits, Ends, BytesBits, ToBits;
    ghost var bits := BytesBits(sent) + v.Bits();
    ghost var pad := w.Bits()[|v.Bits()|..];
    assert w.Bits() == v.Bits() + pad;
    NoBitsAt(0);
    assert w.Bits() == BytesBits(w.pending);
    BytesBitsConcat(sent, w.pending);
    assert BytesBits(sent + w.pending) == bits + pad;
    WholeEnds(reach, bits, pad, sent + w.pending, out);
  }
}
