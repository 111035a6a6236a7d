/**
 Tokens as the bits of a block (section 3.2.3 of RFC 1951), and back.
 */
module Encoding {
  import opened Bits
  import opened Canonical
  import opened TableSpec
  import opened Lz77
  import opened Tokens
  import opened Rfc1951
  import Decode

  /** A code is read back as its symbol. */
  lemma ReadBack(lens: seq<nat>, s: nat, rest: seq<bool>)
    requires Fits(lens) && s < |lens| && lens[s] > 0
    ensures ReadSymbol(lens, CodeBits(lens, s) + rest) == Sym(s, rest)
  {
    hide Kraft, CodeBits;
    var b := CodeBits(lens, s) + rest;
    assert b[..lens[s]] == CodeBits(lens, s);
    assert StartsWith(lens, s, b);
    Decode.StartsUnique(lens, s, ReadSymbol(lens, b).s, b);
    assert b[lens[s]..] == rest;
  }

  // ---------- lengths and distances ----------

  /** The last of the codes up to i whose base is at most x. */
  function LastAtMost(bases: seq<nat>, x: nat, i: nat): (r: nat)
    requires i < |bases| && bases[0] <= x
    ensures r <= i && bases[r] <= x && (r < i ==> bases[r + 1] > x)
  {
    if i == 0 || bases[i] <= x then i else LastAtMost(bases, x, i - 1)
  }

  function LenCode(len: nat): (i: nat)
    requires 3 <= len <= 258
    ensures i <= 28
  {
    LastAtMost(LBASE, len, 28)
  }

  function DistCode(dist: nat): (j: nat)
    requires 1 <= dist <= 32768
    ensures j <= 29
  {
    LastAtMost(DBASE, dist, 29)
  }

  lemma LenFits(len: nat)
    requires 3 <= len <= 258
    ensures LBASE[LenCode(len)] <= len < LBASE[LenCode(len)] + Pow2(LEXT[LenCode(len)] % 16)
  {
    hide LastAtMost;
    assert Pow2(1) == 2 && Pow2(2) == 4 && Pow2(3) == 8 && Pow2(4) == 16 && Pow2(5) == 32;
  }

  lemma DistFits(dist: nat)
    requires 1 <= dist <= 32768
    ensures DBASE[DistCode(dist)] <= dist < DBASE[DistCode(dist)] + Pow2(DEXT[DistCode(dist)] % 16)
  {
    hide LastAtMost, Pow2;
    SmallPowers();
    var j := DistCode(dist);
    if j < 16 {
      NextBase(j);
    } else if j < 29 {
      NextBaseHigh(j);
    }
  }

  lemma SmallPowers()
    ensures Pow2(0) == 1 && Pow2(1) == 2 && Pow2(2) == 4 && Pow2(3) == 8 && Pow2(4) == 16 && Pow2(5) == 32 &&
            Pow2(6) == 64
    ensures Pow2(7) == 128 && Pow2(8) == 256 && Pow2(9) == 512 && Pow2(10) == 1024 && Pow2(11) == 2048 &&
            Pow2(12) == 4096 && Pow2(13) == 8192
  {
  }

  lemma NextBase(j: nat)
    requires j < 16
    ensures DBASE[j + 1] == DBASE[j] + Pow2(DEXT[j] % 16)
  {
    hide Pow2;
    SmallPowers();
  }

  lemma NextBaseHigh(j: nat)
    requires 16 <= j < 29
    ensures DBASE[j + 1] == DBASE[j] + Pow2(DEXT[j] % 16)
  {
    hide Pow2;
    SmallPowers();
  }

  // ---------- tokens ----------

  function TokenBits(ll: seq<nat>, dl: seq<nat>, t: Token): seq<bool>
    requires Codable(ll, dl, t)
  {
    match t
    case Lit(b) => CodeBits(ll, b)
    case Str(len, dist) =>
      var i, j := LenCode(len), DistCode(dist);
      CodeBits(ll, 257 + i) + ToBits(len - LBASE[i], LEXT[i] % 16) + CodeBits(dl, j) +
          ToBits(dist - DBASE[j], DEXT[j] % 16)
  }

  predicate Coded(lens: seq<nat>, s: nat) {
    s < |lens| && lens[s] > 0
  }

  /** The symbols of t have codes. */
  predicate Codable(ll: seq<nat>, dl: seq<nat>, t: Token) {
    match t
    case Lit(b) => Coded(ll, b)
    case Str(len, dist) =>
        3 <= len <= 258 && 1 <= dist <= 32768 && Coded(ll, 257 + LenCode(len)) && Coded(dl, DistCode(dist))
  }

  lemma ExtraBack(v: nat, n: nat, rest: seq<bool>)
    requires v < Pow2(n)
    ensures var b := ToBits(v, n) + rest; |b| >= n && ToInt(b[..n]) == v && b[n..] == rest
  {
    hide ToBits, ToInt;
    var b := ToBits(v, n) + rest;
    assert b[..n] == ToBits(v, n) && b[n..] == rest;
    ToIntToBits(v, n);
    LowOfSmall(v, n);
  }

  lemma LitDecodes(w: nat, last: bool, ll: seq<nat>, dl: seq<nat>, x: byte, rest: seq<bool>, out: seq<byte>)
    requires Fits(ll) && Coded(ll, x)
    ensures Codes(w, last, ll, dl, CodeBits(ll, x) + rest, out) == Codes(w, last, ll, dl, rest, out + [x])
  {
    hide CodeBits, Fits, ReadSymbol;
    ReadBack(ll, x, rest);
  }

  lemma LenDecodes(w: nat, last: bool, ll: seq<nat>, dl: seq<nat>, i: nat, rest: seq<bool>, out: seq<byte>)
    requires Fits(ll) && i <= 28 && Coded(ll, 257 + i)
    ensures Codes(w, last, ll, dl, CodeBits(ll, 257 + i) + rest, out) ==
            LenExt(w, last, ll, dl, LBASE[i], LEXT[i] % 16, rest, out)
  {
    hide CodeBits, Fits, ReadSymbol, LenExt, Blocks;
    ReadBack(ll, 257 + i, rest);
  }

  lemma LenExtDecodes(w: nat, last: bool, ll: seq<nat>, dl: seq<nat>, base: nat, extra: nat, v: nat, rest: seq<bool>,
        out: seq<byte>)
    requires v < Pow2(extra)
    ensures LenExt(w, last, ll, dl, base, extra, ToBits(v, extra) + rest, out) ==
            Dist(w, last, ll, dl, base + v, rest, out)
  {
    hide ToBits, ToInt, Pow2, Dist;
    ExtraBack(v, extra, rest);
  }

  lemma DistDecodes(w: nat, last: bool, ll: seq<nat>, dl: seq<nat>, len: nat, j: nat, rest: seq<bool>, out: seq<byte>)
    requires Fits(dl) && j <= 29 && Coded(dl, j)
    ensures Dist(w, last, ll, dl, len, CodeBits(dl, j) + rest, out) ==
            DistExt(w, last, ll, dl, len, DBASE[j], DEXT[j] % 16, rest, out)
  {
    hide CodeBits, Fits, ReadSymbol, DistExt;
    ReadBack(dl, j, rest);
  }

  lemma DistExtDecodes(w: nat, last: bool, ll: seq<nat>, dl: seq<nat>, len: nat, base: nat, extra: nat, v: nat,
        rest: seq<bool>, out: seq<byte>)
    requires v < Pow2(extra)
    ensures DistExt(w, last, ll, dl, len, base, extra, ToBits(v, extra) + rest, out) ==
            Match(w, last, ll, dl, len, base + v, rest, out)
  {
    hide ToBits, ToInt, Pow2, Match;
    ExtraBack(v, extra, rest);
  }

  /** A length and a distance are read back, wherever they lead. */
  lemma StrReads(w: nat, last: bool, ll: seq<nat>, dl: seq<nat>, len: nat, dist: nat, rest: seq<bool>, out: seq<byte>)
    requires Fits(ll) && Fits(dl) && Codable(ll, dl, Str(len, dist))
    ensures Codes(w, last, ll, dl, TokenBits(ll, dl, Str(len, dist)) + rest, out) ==
            Match(w, last, ll, dl, len, dist, rest, out)
  {
    hide CodeBits, Fits, ToBits, LenCode, DistCode, Codes, LenExt, Dist, DistExt, Match, Pow2, LBASE, DBASE, LEXT, DEXT;
    LenFits(len);
    DistFits(dist);
    TableSizes();
    var i, j := LenCode(len), DistCode(dist);
    var lb, lx, db, dx := LBASE[i], LEXT[i] % 16, DBASE[j], DEXT[j] % 16;
    var r3 := ToBits(dist - db, dx) + rest;
    var r2 := CodeBits(dl, j) + r3;
    var r1 := ToBits(len - lb, lx) + r2;
    assert TokenBits(ll, dl, Str(len, dist)) + rest == CodeBits(ll, 257 + i) + r1;
    LenDecodes(w, last, ll, dl, i, r1, out);
    LenExtDecodes(w, last, ll, dl, lb, lx, len - lb, r2, out);
    DistDecodes(w, last, ll, dl, len, j, r3, out);
    DistExtDecodes(w, last, ll, dl, len, db, dx, dist - db, rest, out);
  }

  lemma StrDecodes(w: nat, last: bool, ll: seq<nat>, dl: seq<nat>, len: nat, dist: nat, rest: seq<bool>, out: seq<byte>)
    requires Fits(ll) && Fits(dl) && Codable(ll, dl, Str(len, dist)) && 1 <= dist <= |out| && dist <= w
    ensures Codes(w, last, ll, dl, TokenBits(ll, dl, Str(len, dist)) + rest, out) ==
            Codes(w, last, ll, dl, rest, CopyMatch(out, dist, len))
  {
    hide Codes, Fits, TokenBits, Codable;
    StrReads(w, last, ll, dl, len, dist, rest, out);
  }

  lemma TableSizes()
    ensures |LBASE| == |LEXT| == 31 && |DBASE| == |DEXT| == 32
  {
  }

  // ---------- blocks ----------

  /** The bits of all tokens. */
  function TokensBits(ll: seq<nat>, dl: seq<nat>, ts: seq<Token>): seq<bool>
    requires forall i :: 0 <= i < |ts| ==> Codable(ll, dl, ts[i])
    decreases |ts|
  {
    if ts == [] then [] else TokensBits(ll, dl, ts[..|ts| - 1]) + TokenBits(ll, dl, ts[|ts| - 1])
  }

  /** Every distance is within the window. */
  ghost predicate Within(ts: seq<Token>, w: nat) {
    forall i :: 0 <= i < |ts| && ts[i].Str? ==> ts[i].dist <= w
  }

  ghost predicate AllCodable(ll: seq<nat>, dl: seq<nat>, ts: seq<Token>) {
    forall i :: 0 <= i < |ts| ==> Codable(ll, dl, ts[i])
  }

  lemma TokenDecodes(w: nat, last: bool, ll: seq<nat>, dl: seq<nat>, t: Token, rest: seq<bool>, out: seq<byte>)
    requires Fits(ll) && Fits(dl) && Codable(ll, dl, t) && (t.Str? ==> t.dist <= |out| && t.dist <= w)
    ensures Codes(w, last, ll, dl, TokenBits(ll, dl, t) + rest, out) == Codes(w, last, ll, dl, rest, Apply(out, t))
  {
    hide CodeBits, Fits, Codes;
    match t
    case Lit(b) => LitDecodes(w, last, ll, dl, b, rest, out);
    case Str(len, dist) => StrDecodes(w, last, ll, dl, len, dist, rest, out);
  }

  /** The bits of a block's tokens, after the tokens before it, decode to what they all stand for. */
  lemma {:induction false} TokensDecode(w: nat, last: bool, ll: seq<nat>, dl: seq<nat>, before: seq<Token>,
        ts: seq<Token>, rest: seq<bool>)
    requires Fits(ll) && Fits(dl) && AllCodable(ll, dl, ts) && Sane(before + ts) && Within(ts, w)
    ensures Codes(w, last, ll, dl, TokensBits(ll, dl, ts) + rest, Expand(before)) ==
            Codes(w, last, ll, dl, rest, Expand(before + ts))
    decreases |ts|
  {
    hide Fits, Codes, TokenBits, Codable, Expand;
    if ts == [] {
      assert before + ts == before;
      assert [] + rest == rest;
    } else {
      var n := |ts| - 1;
      var init, t, bs := ts[..n], ts[n], before + ts[..n];
      assert (before + ts)[..|bs|] == bs && (before + ts)[|bs|] == t;
      assert before + ts == bs + [t];
      SanePrefix(before + ts, |bs|);
      TokensDecode(w, last, ll, dl, before, init, TokenBits(ll, dl, t) + rest);
      assert TokensBits(ll, dl, ts) + rest == TokensBits(ll, dl, init) + (TokenBits(ll, dl, t) + rest);
      assert t.Str? ==> t.dist <= |Expand(bs)|;
      TokenDecodes(w, last, ll, dl, t, rest, Expand(bs));
      ExpandNext(bs, t);
    }
  }

  lemma SanePrefix(ts: seq<Token>, n: nat)
    requires Sane(ts) && n <= |ts|
    ensures Sane(ts[..n])
  {
    hide Expand;
    forall i | 0 <= i < n && ts[i].Str? ensures 1 <= ts[i].dist <= |Expand(ts[..n][..i])| {
      assert ts[..n][..i] == ts[..i];
    }
  }

  /** A block of tokens: a code for each, and the end-of-block code. */
  function CodedBits(ll: seq<nat>, dl: seq<nat>, ts: seq<Token>): seq<bool>
    requires (forall i :: 0 <= i < |ts| ==> Codable(ll, dl, ts[i])) && Coded(ll, 256)
  {
    TokensBits(ll, dl, ts) + CodeBits(ll, 256)
  }

  lemma CodedDecodes(w: nat, last: bool, ll: seq<nat>, dl: seq<nat>, before: seq<Token>, ts: seq<Token>,
        rest: seq<bool>)
    requires Fits(ll) && Fits(dl) && AllCodable(ll, dl, ts) && Coded(ll, 256) && Sane(before + ts) && Within(ts, w)
    ensures Codes(w, last, ll, dl, CodedBits(ll, dl, ts) + rest, Expand(before)) ==
            Blocks(w, last, rest, Expand(before + ts))
  {
    hide Fits, TokenBits, Codable, Expand, CodeBits, ReadSymbol, Blocks, LenExt;
    var r := CodeBits(ll, 256) + rest;
    assert CodedBits(ll, dl, ts) + rest == TokensBits(ll, dl, ts) + r;
    TokensDecode(w, last, ll, dl, before, ts, r);
    ReadBack(ll, 256, rest);
  }
}
