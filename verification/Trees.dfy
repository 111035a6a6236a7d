/**
 trees.c: assigning codes, and writing blocks with them.
 */
module Trees {
  import opened Bits
  import opened Canonical
  import opened TableSpec
  import TF = TableFill
  import opened Tokens
  import opened Encoding
  import opened BitWriter

  // ---------- codes ----------

  lemma RevStep(c: nat, n: nat, r: nat)
    requires n > 0
    ensures Shl(r, n) + TF.Rev(c, n) == Shl(2 * r + c % 2, n - 1) + TF.Rev(c / 2, n - 1)
  {
    hide Shl, TF.Rev, Pow2;
    TF.RevSplit(c, n);
    ShlAdd(2 * r, c % 2, n - 1);
    ShlAdd(r, r, n - 1);
    ShlOnce(r, n);
    ShlAdd(0, 0, n - 1);
  }

  lemma ShlOnce(r: nat, n: nat)
    requires n > 0
    ensures Shl(r, n) == 2 * Shl(r, n - 1)
  {
  }

  lemma RevNone(c: nat)
    ensures TF.Rev(c, 0) == 0
  {
  }

  /** bi_reverse: res is kept shifted up by one, as it is in the loop. */
  method BiReverse(code: nat, len: nat) returns (r: nat)
    requires len >= 1
    ensures r == TF.Rev(code, len)
  {
    hide Shl, TF.Rev;
    var c, n, res := code, len, 0;
    ShlZero(len);
    while n > 0
      invariant 0 <= n <= len && res % 2 == 0
      invariant Shl(res / 2, n) + TF.Rev(c, n) == TF.Rev(code, len)
    {
      RevStep(c, n, res / 2);
      res := res + c % 2;
      c := c / 2;
      res := 2 * res;
      n := n - 1;
    }
    RevNone(c);
    ShlNone(res / 2);
    r := res / 2;
  }

  /** Each code is the canonical one, reversed for writing. */
  ghost predicate CodesOk(lens: seq<nat>, codes: seq<nat>) {
    |codes| == |lens| && forall n :: 0 <= n < |lens| && lens[n] > 0 ==> codes[n] == TF.Rev(CodeOf(lens, n), lens[n])
  }

  /** The first code of each length. */
  method FirstCodes(lens: seq<nat>, blCount: seq<nat>) returns (nextCode: array<nat>)
    requires |blCount| == 16 && blCount[0] == 0 && forall l :: 1 <= l <= 15 ==> blCount[l] == Count(lens, l)
    ensures fresh(nextCode) && nextCode.Length == 16 && forall l :: 1 <= l <= 15 ==> nextCode[l] == NextCode(lens, l)
  {
    hide Count, NextCode;
    nextCode := new nat[16](_ => 0);
    var code := 0;
    NextNone(lens);
    for bits := 1 to 16
      invariant code == NextCode(lens, bits - 1)
      invariant forall l :: 1 <= l < bits ==> nextCode[l] == NextCode(lens, l)
    {
      NextLevel(lens, bits);
      code := 2 * (code + blCount[bits - 1]);
      nextCode[bits] := code;
    }
  }

  lemma NextNone(lens: seq<nat>)
    ensures NextCode(lens, 0) == 0
  {
  }

  lemma NextLevel(lens: seq<nat>, l: nat)
    requires l > 0
    ensures NextCode(lens, l) == 2 * (NextCode(lens, l - 1) + if l == 1 then 0 else Count(lens, l - 1))
  {
    hide Count;
  }

  /** gen_codes: the code lengths fix the codes. */
  method GenCodes(lens: seq<nat>, blCount: seq<nat>) returns (codes: seq<nat>)
    requires ValidLens(lens) && |blCount| == 16 && blCount[0] == 0 && forall l :: 1 <= l <= 15 ==>
             blCount[l] == Count(lens, l)
    ensures CodesOk(lens, codes)
  {
    hide TF.Rev, Count, NextCode;
    var nextCode := FirstCodes(lens, blCount);
    codes := [];
    CountNone(lens);
    for n := 0 to |lens|
      invariant |codes| == n
      invariant forall l :: 1 <= l <= 15 ==> nextCode[l] == NextCode(lens, l) + Count(lens[..n], l)
      invariant forall i :: 0 <= i < n && lens[i] > 0 ==> codes[i] == TF.Rev(CodeOf(lens, i), lens[i])
    {
      var len := lens[n];
      forall l ensures Count(lens[..n + 1], l) == Count(lens[..n], l) + if len == l then 1 else 0 {
        CountNext(lens, n, l);
      }
      var c := 0;
      if len > 0 {
        c := BiReverse(nextCode[len], len);
        nextCode[len] := nextCode[len] + 1;
      }
      codes := codes + [c];
    }
  }

  lemma CountNone(lens: seq<nat>)
    ensures forall l :: Count(lens[..0], l) == 0
  {
    assert lens[..0] == [];
  }

  /** send_code: the code of symbol s, most significant bit first. */
  method SendCode(w: Writer, lens: seq<nat>, codes: seq<nat>, s: nat) returns (w': Writer)
    requires w.Ok() && CodesOk(lens, codes) && Coded(lens, s) && lens[s] <= 15
    ensures w'.Ok() && w'.Bits() == w.Bits() + CodeBits(lens, s)
  {
    hide ToBits, BytesBits, Pow2, CodeOf, MsbBits;
    ToBitsToInt(MsbBits(CodeOf(lens, s), lens[s]));
    w' := SendBits(w, codes[s], lens[s]);
  }

  // ---------- the tables for lengths and distances ----------

  lemma {:induction false} LastUnique(bases: seq<nat>, x: nat, i: nat, c: nat)
    requires c <= i < |bases| && bases[c] <= x && (c < i ==> x < bases[c + 1]) && bases[0] <= x
    requires forall j, k :: 0 <= j < k <= i ==> bases[j] < bases[k]
    ensures LastAtMost(bases, x, i) == c
    decreases i
  {
    if c < i {
      assert bases[c + 1] <= bases[i];
      LastUnique(bases, x, i - 1, c);
    }
  }

  lemma LenSorted()
    ensures forall j, k :: 0 <= j < k <= 28 ==> LBASE[j] < LBASE[k]
  {
  }

  lemma LenCodeIs(len: nat, c: nat)
    requires 3 <= len <= 258 && c <= 28 && LBASE[c] <= len && (c < 28 ==> len < LBASE[c + 1])
    ensures LenCode(len) == c
  {
    hide LBASE, LastAtMost;
    LenSorted();
    TableSizes();
    LastUnique(LBASE, len, 28, c);
  }

  /** The length part of tr_static_init: _length_code and base_length. */
  method MakeLengthCodes() returns (lengthCode: array<nat>, baseLength: array<nat>)
    ensures lengthCode.Length == 256 && forall n :: 0 <= n < 256 ==> lengthCode[n] == LenCode(n + 3)
    ensures baseLength.Length == 29 && forall c :: 0 <= c < 28 ==> baseLength[c] + 3 == LBASE[c]
  {
    hide LBASE, LEXT, LastAtMost, Pow2, LenCode;
    lengthCode := new nat[256](_ => 0);
    baseLength := new nat[29](_ => 0);
    LenEnds();
    TableSizes();
    var length := 0;
    for code := 0 to 28
      invariant length + 3 == if code == 28 then 259 else LBASE[code]
      invariant forall n :: 0 <= n < length && n < 255 ==> lengthCode[n] == LenCode(n + 3)
      invariant forall c :: 0 <= c < code ==> baseLength[c] + 3 == LBASE[c]
    {
      baseLength[code] := length;
      CodeSpan(code);
      for n := 0 to Pow2(LEXT[code] % 16)
        invariant length + 3 == LBASE[code] + n && 0 <= length <= 256
        invariant forall n :: 0 <= n < length && n < 255 ==> lengthCode[n] == LenCode(n + 3)
        invariant forall c :: 0 <= c <= code ==> baseLength[c] + 3 == LBASE[c]
      {
        if length < 255 {
          LenCodeIs(length + 3, code);
        }
        lengthCode[length] := code;
        length := length + 1;
      }
    }
    LenCodeIs(258, 28);
    lengthCode[255] := 28;
  }

  lemma LenEnds()
    ensures LBASE[0] == 3 && LBASE[27] == 227 && LBASE[28] == 258
  {
  }

  /** The lengths of a code end where those of the next begin, or at 258. */
  lemma CodeSpan(c: nat)
    requires c < 28
    ensures c < 27 ==> LBASE[c] + Pow2(LEXT[c] % 16) == LBASE[c + 1] <= 227
    ensures c == 27 ==> LBASE[c] + Pow2(LEXT[c] % 16) == 259
    ensures LBASE[c] >= 3
  {
    hide Pow2;
    SmallPowers();
    assert LEXT[c] == (if c < 8 then 16 else 15 + c / 4);
  }

  lemma DistSorted()
    ensures forall j, k :: 0 <= j < k <= 29 ==> DBASE[j] < DBASE[k]
  {
  }

  lemma DistCodeIs(dist: nat, c: nat)
    requires 1 <= dist <= 32768 && c <= 29 && DBASE[c] <= dist < DBASE[c] + Pow2(DEXT[c] % 16)
    ensures DistCode(dist) == c
  {
    hide DBASE, DEXT, LastAtMost, Pow2;
    DistSorted();
    TableSizes();
    FirstDist();
    if c < 16 {
      NextBase(c);
    } else if c < 29 {
      NextBaseHigh(c);
    }
    LastUnique(DBASE, dist, 29, c);
  }

  lemma FirstDist()
    ensures DBASE[0] == 1 && DBASE[16] == 257 && DBASE[29] + Pow2(DEXT[29] % 16) == 32769
  {
    hide Pow2;
    SmallPowers();
  }

  /** d_code: small distances directly, larger ones by their upper bits. */
  function DCode(distCode: seq<nat>, d: nat): nat
    requires |distCode| == 512 && d < 32768
  {
    if d < 256 then distCode[d] else distCode[256 + d / 128]
  }

  lemma HighDist(c: nat)
    requires 16 <= c < 30
    ensures (DBASE[c] - 1) % 128 == 0 && DEXT[c] % 16 >= 7 && Pow2(DEXT[c] % 16) == 128 * Pow2(DEXT[c] % 16 - 7)
    ensures DBASE[c] >= 257
  {
    hide Pow2;
    SmallPowers();
  }

  lemma LowDist(c: nat)
    requires c < 16
    ensures DBASE[c] + Pow2(DEXT[c] % 16) == DBASE[c + 1] <= 257 && DBASE[c] >= 1
  {
    hide DEXT, Pow2;
    NextBase(c);
    DistSorted();
    FirstDist();
  }

  /** The first 256 distances. */
  method MakeNearCodes(distCode: array<nat>, baseDist: array<nat>)
    requires distCode.Length == 512 && baseDist.Length == 30 && distCode != baseDist
    modifies distCode, baseDist
    ensures forall d :: 0 <= d < 256 ==> distCode[d] == DistCode(d + 1)
    ensures forall c :: 0 <= c < 16 ==> baseDist[c] + 1 == DBASE[c]
  {
    hide DBASE, DEXT, LastAtMost, Pow2, DistCode;
    FirstDist();
    TableSizes();
    var dist := 0;
    for code := 0 to 16
      invariant dist + 1 == DBASE[code] <= 257
      invariant forall d :: 0 <= d < dist ==> distCode[d] == DistCode(d + 1)
      invariant forall c :: 0 <= c < code ==> baseDist[c] + 1 == DBASE[c]
    {
      baseDist[code] := dist;
      LowDist(code);
      for n := 0 to Pow2(DEXT[code] % 16)
        invariant dist + 1 == DBASE[code] + n <= 257
        invariant forall d :: 0 <= d < dist ==> distCode[d] == DistCode(d + 1)
        invariant forall c :: 0 <= c <= code ==> baseDist[c] + 1 == DBASE[c]
      {
        DistCodeIs(dist + 1, code);
        distCode[dist] := code;
        dist := dist + 1;
      }
    }
  }

  /** All 128 distances of unit u have code c. */
  ghost predicate UnitOk(c: nat, u: nat) {
    c < 30 && DBASE[c] <= 128 * u + 1 && 128 * u + 128 < DBASE[c] + Pow2(DEXT[c] % 16)
  }

  lemma UnitCode(c: nat, u: nat, d: nat)
    requires UnitOk(c, u) && d / 128 == u && d < 32768
    ensures DistCode(d + 1) == c
  {
    hide DBASE, DEXT, Pow2, DistCode;
    DistCodeIs(d + 1, c);
  }

  /** The other distances, 128 at a time. */
  method MakeFarCodes(distCode: array<nat>, baseDist: array<nat>)
    requires distCode.Length == 512 && baseDist.Length == 30 && distCode != baseDist
    modifies distCode, baseDist
    ensures forall i :: 0 <= i < 256 ==> distCode[i] == old(distCode[i])
    ensures forall c :: 0 <= c < 16 ==> baseDist[c] == old(baseDist[c])
    ensures forall c :: 16 <= c < 30 ==> baseDist[c] + 1 == DBASE[c]
    ensures forall i :: 258 <= i < 512 ==> UnitOk(distCode[i], i - 256)
  {
    hide DBASE, DEXT, Pow2, UnitOk;
    FirstDist();
    TableSizes();
    var dist := 2;
    for code := 16 to 30
      invariant 2 <= dist <= 256 && 128 * dist + 1 == if code == 30 then 32769 else DBASE[code]
      invariant forall i :: 258 <= i < 256 + dist ==> UnitOk(distCode[i], i - 256)
      invariant forall i :: 0 <= i < 256 ==> distCode[i] == old(distCode[i])
      invariant forall c :: 0 <= c < 16 ==> baseDist[c] == old(baseDist[c])
      invariant forall c :: 16 <= c < code ==> baseDist[c] + 1 == DBASE[c]
    {
      baseDist[code] := 128 * dist;
      HighDist(code);
      FarSpan(code);
      var units := Pow2(DEXT[code] % 16 - 7);
      for n := 0 to units
        invariant 128 * dist + 1 == DBASE[code] + 128 * n && 2 <= dist <= 256
        invariant forall i :: 258 <= i < 256 + dist ==> UnitOk(distCode[i], i - 256)
        invariant forall i :: 0 <= i < 256 ==> distCode[i] == old(distCode[i])
        invariant forall c :: 0 <= c < 16 ==> baseDist[c] == old(baseDist[c])
        invariant forall c :: 16 <= c <= code ==> baseDist[c] + 1 == DBASE[c]
      {
        UnitIs(code, dist);
        distCode[256 + dist] := code;
        dist := dist + 1;
      }
    }
  }

  lemma UnitIs(c: nat, u: nat)
    requires c < 30 && DBASE[c] <= 128 * u + 1 && 128 * u + 128 < DBASE[c] + Pow2(DEXT[c] % 16)
    ensures UnitOk(c, u)
  {
  }

  lemma FarSpan(c: nat)
    requires 16 <= c < 30
    ensures c < 29 ==> DBASE[c] + Pow2(DEXT[c] % 16) == DBASE[c + 1]
    ensures DBASE[c] + Pow2(DEXT[c] % 16) <= 32769 && (c == 29 ==> DBASE[c] + Pow2(DEXT[c] % 16) == 32769)
  {
    hide Pow2;
    SmallPowers();
  }

  /** The distance part of tr_static_init: _dist_code and base_dist. */
  method MakeDistCodes() returns (distCode: array<nat>, baseDist: array<nat>)
    ensures distCode.Length == 512 && forall d :: 0 <= d < 32768 ==> DCode(distCode[..], d) == DistCode(d + 1)
    ensures baseDist.Length == 30 && forall c :: 0 <= c < 30 ==> baseDist[c] + 1 == DBASE[c]
  {
    hide DBASE, DEXT, Pow2, DistCode, UnitOk;
    distCode := new nat[512](_ => 0);
    baseDist := new nat[30](_ => 0);
    MakeNearCodes(distCode, baseDist);
    MakeFarCodes(distCode, baseDist);
    forall d | 0 <= d < 32768 ensures DCode(distCode[..], d) == DistCode(d + 1) {
      if d >= 256 {
        UnitCode(distCode[256 + d / 128], d / 128, d);
      }
    }
  }

  // ---------- blocks ----------

  /** The maps from lengths and distances to codes, and to the first length and distance of each code. */
  ghost predicate Maps(lengthCode: seq<nat>, baseLength: seq<nat>, distCode: seq<nat>, baseDist: seq<nat>) {
    && |lengthCode| == 256 && (forall n :: 0 <= n < 256 ==> lengthCode[n] == LenCode(n + 3))
    && |baseLength| == 29 && (forall c :: 0 <= c < 28 ==> baseLength[c] + 3 == LBASE[c])
    && |distCode| == 512 && (forall d :: 0 <= d < 32768 ==> DCode(distCode, d) == DistCode(d + 1))
    && |baseDist| == 30 && (forall c :: 0 <= c < 30 ==> baseDist[c] + 1 == DBASE[c])
  }

  /** The tables of a block: code lengths and codes, and the maps from lengths and distances to codes. */
  ghost predicate TablesOk(ll: seq<nat>, lcodes: seq<nat>, dl: seq<nat>, dcodes: seq<nat>,
                           lengthCode: seq<nat>, baseLength: seq<nat>, distCode: seq<nat>, baseDist: seq<nat>) {
    && ValidLens(ll) && ValidLens(dl) && CodesOk(ll, lcodes) && CodesOk(dl, dcodes)
    && Maps(lengthCode, baseLength, distCode, baseDist)
  }

  /** A code and the extra bits after it. */
  method SendBoth(w: Writer, lens: seq<nat>, codes: seq<nat>, s: nat, value: nat, extra: nat) returns (w': Writer)
    requires w.Ok() && CodesOk(lens, codes) && Coded(lens, s) && lens[s] <= 15 && extra <= 13 && value < Pow2(extra)
    ensures w'.Ok() && w'.Bits() == w.Bits() + (CodeBits(lens, s) + ToBits(value, extra))
  {
    hide CodeBits, ToBits, BytesBits, CodesOk;
    w' := SendCode(w, lens, codes, s);
    if extra != 0 {
      w' := SendBits(w', value, extra);
    } else {
      NoBitsAt(value);
    }
    assert w'.Bits() == w.Bits() + (CodeBits(lens, s) + ToBits(value, extra));
  }

  lemma ExtraSmall(i: nat, j: nat)
    requires i <= 28 && j <= 29
    ensures LEXT[i] % 16 <= 5 && DEXT[j] % 16 <= 13
  {
  }

  lemma LastLength()
    ensures LEXT[28] % 16 == 0 && LBASE[28] == 258
  {
  }

  lemma Code28(len: nat)
    requires 3 <= len <= 258 && LenCode(len) == 28
    ensures len == 258
  {
  }

  /** A literal, or a length and a distance. */
  method SendToken(w: Writer, t: Token, ll: seq<nat>, lcodes: seq<nat>, dl: seq<nat>, dcodes: seq<nat>,
                   lengthCode: seq<nat>, baseLength: seq<nat>, distCode: seq<nat>, baseDist: seq<nat>)
      returns (w': Writer)
    requires w.Ok() && TablesOk(ll, lcodes, dl, dcodes, lengthCode, baseLength, distCode, baseDist) &&
             Codable(ll, dl, t)
    ensures w'.Ok() && w'.Bits() == w.Bits() + TokenBits(ll, dl, t)
  {
    hide CodeBits, ToBits, BytesBits, CodesOk, LenCode, DistCode, LBASE, DBASE, LEXT, DEXT, Pow2, DCode;
    TableSizes();
    match t {
      case Lit(b) => w' := SendCode(w, ll, lcodes, b);
      case Str(len, dist) =>
        var i := lengthCode[len - 3];
        var j := DCode(distCode, dist - 1);
        LenFits(len);
        DistFits(dist);
        ExtraSmall(i, j);
        LastLength();
        var x: nat := if i == 28 then 0 else len - 3 - baseLength[i];
        if i == 28 {
          Code28(len);
        }
        w' := SendBoth(w, ll, lcodes, 257 + i, x, LEXT[i] % 16);
        w' := SendBoth(w', dl, dcodes, j, dist - 1 - baseDist[j], DEXT[j] % 16);
        assert w'.Bits() == w.Bits() + TokenBits(ll, dl, t);
    }
  }

  /** compress_block: the bits of the block's tokens and of the end of the block. */
  method CompressBlock(w: Writer, ts: seq<Token>, ll: seq<nat>, lcodes: seq<nat>, dl: seq<nat>, dcodes: seq<nat>,
                       lengthCode: seq<nat>, baseLength: seq<nat>, distCode: seq<nat>, baseDist: seq<nat>)
      returns (w': Writer)
    requires w.Ok() && TablesOk(ll, lcodes, dl, dcodes, lengthCode, baseLength, distCode, baseDist)
    requires AllCodable(ll, dl, ts) && Coded(ll, 256)
    ensures w'.Ok() && w'.Bits() == w.Bits() + CodedBits(ll, dl, ts)
  {
    hide CodeBits, ToBits, BytesBits, TokenBits, Codable;
    w' := w;
    assert ts[..0] == [];
    assert w.Bits() + [] == w.Bits();
    for sx := 0 to |ts|
      invariant w'.Ok() && w'.Bits() == w.Bits() + TokensBits(ll, dl, ts[..sx])
    {
      assert ts[..sx + 1][..sx] == ts[..sx];
      w' := SendToken(w', ts[sx], ll, lcodes, dl, dcodes, lengthCode, baseLength, distCode, baseDist);
      assert w'.Bits() == w.Bits() + TokensBits(ll, dl, ts[..sx + 1]);
    }
    assert ts[..|ts|] == ts;
    w' := SendCode(w', ll, lcodes, 256);
    assert w'.Bits() == w.Bits() + CodedBits(ll, dl, ts);
  }
}
