/**
 The symbols of a block lie in pending_buf, beyond what is written of it: a block with codes of its own does not
 overwrite those that are still to be read, if its codes are as good as any and the buffer is not small.

 Compared with a code that gives each symbol the shorter of its own and its fixed code, and one bit more, the first
 tokens of a block cannot take much more than with the fixed codes.  The last tokens have what the block saves.
 */
module Overlay {
  import opened Bits
  import opened Canonical
  import opened TableSpec
  import opened Tokens
  import opened Rfc1951
  import opened Encoding
  import opened RunLengths
  import opened DynamicSpec
  import opened BlockSpec
  import opened StaticTrees
  import opened Cost
  import opened BlockCost
  import opened BlockWriter
  import opened BitWriter
  import Trees
  import BL = BitLengths
  import BT = BuildTree
  import HT = HuffmanTree

  // ---------- a code out of two ----------

  /** One bit tells which of two codes is meant. */
  function Either(a: seq<nat>, b: seq<nat>): (w: seq<nat>)
    requires |a| <= |b|
    ensures |w| == |a|
  {
    seq(|a|, i requires 0 <= i < |a| => 1 + if 0 < a[i] < b[i] then a[i] else b[i])
  }

  lemma {:induction false} EitherKraft(a: seq<nat>, b: seq<nat>)
    requires |a| <= |b| && ValidLens(a) && ValidLens(b) && forall i :: 0 <= i < |b| ==> 0 < b[i] <= 9
    ensures ValidLens(Either(a, b)) && 2 * Kraft(Either(a, b)) <= Kraft(a) + Kraft(b)
    decreases |a|
  {
    hide Pow2, Kraft;
    var w := Either(a, b);
    if a == [] {
      assert a == w;
      NoKraft(w);
    } else {
      var n := |a| - 1;
      EitherKraft(a[..n], b[..n]);
      assert w[..n] == Either(a[..n], b[..n]);
      KraftPart(b, n + 1);
      assert b[..n + 1][..n] == b[..n];
      KraftLast(a);
      KraftLast(b[..n + 1]);
      KraftLast(w);
      Twice(MAXBITS - w[n]);
    }
  }

  lemma KraftLast(l: seq<nat>)
    requires ValidLens(l) && l != []
    ensures var n := |l| - 1; Kraft(l) == Kraft(l[..n]) + if l[n] == 0 then 0 else Pow2(MAXBITS - l[n])
  {
  }

  lemma NoKraft(l: seq<nat>)
    requires l == []
    ensures Kraft(l) == 0
  {
  }

  lemma Twice(n: nat)
    ensures Pow2(n + 1) == 2 * Pow2(n)
  {
  }

  /** A code that is as good as any is as good as this one. */
  lemma LeastOfBoth(f: seq<nat>, v: seq<nat>, d: BL.Desc, statics: seq<nat>)
    requires BT.Least(f, v, d) && ValidLens(v) && Kraft(v) <= Pow2(MAXBITS) && d.elems <= |statics|
    requires ValidLens(statics) && Kraft(statics) <= Pow2(MAXBITS)
    requires forall i :: 0 <= i < |statics| ==> 0 < statics[i] <= 9
    ensures Weighted(f, v, v, d.Extras()) <= Weighted(f, v, Either(v, statics), d.Extras())
  {
    hide Weighted, Kraft, Pow2;
    var w := Either(v, statics);
    EitherKraft(v, statics);
    BT.KraftCode(w, HT.Leaves(f, d.elems), MAXBITS);
    assert BT.AnyCode(w, f, d.elems, MAXBITS);
  }

  // ---------- tokens ----------

  /** The codes of a block; lfull and dfull are filled up with zeros. */
  datatype BlockCodes = BlockCodes(ll: seq<nat>, dl: seq<nat>, lfull: seq<nat>, dfull: seq<nat>) {
    ghost predicate Ok(ts: seq<Token>) {
      && |lfull| == 286 && |dfull| == 30 && ll <= lfull && dl <= dfull && Coded(ll, 256)
      && AllExpressible(ts) && AllCodable(ll, dl, ts)
    }

    /** One bit tells whether they or the fixed codes are used. */
    function WL(): (w: seq<nat>)
      requires |lfull| <= |FIXED_LENS|
    {
      Either(lfull, FIXED_LENS)
    }

    function WD(): (w: seq<nat>)
      requires |dfull| <= |STATIC_DISTS|
    {
      Either(dfull, STATIC_DISTS)
    }
  }

  lemma FixedSmall()
    ensures |FIXED_LENS| == 288 && |STATIC_DISTS| == 30 && FIXED_LENS[256] == 7
    ensures forall n :: 0 <= n < 288 ==> 0 < FIXED_LENS[n] <= 9
    ensures forall n :: 257 <= n < 286 ==> FIXED_LENS[n] <= 8
    ensures forall n :: 0 <= n < 30 ==> STATIC_DISTS[n] == 5
  {
  }

  /** A token, with either code and with both. */
  lemma TokenParts(c: BlockCodes, t: Token)
    requires |c.lfull| == 286 && |c.dfull| == 30 && c.ll <= c.lfull && c.dl <= c.dfull && Codable(c.ll, c.dl, t)
    ensures |FIXED_LENS| == 288 && |STATIC_DISTS| == 30
    ensures Codable(c.WL(), c.WD(), t) && Codable(FIXED_LENS, STATIC_DISTS, t)
    ensures var own, fix := |TokenBits(c.ll, c.dl, t)|, |TokenBits(FIXED_LENS, STATIC_DISTS, t)|;
            |TokenBits(c.WL(), c.WD(), t)| <= own + 2 && |TokenBits(c.WL(), c.WD(), t)| <= fix + 2 && fix <= own + 11
  {
    hide LenCode, DistCode, TokenBits, FIXED_LENS, STATIC_DISTS, L_DESC, D_DESC, BL.Desc.Ok, BL.Desc.Extra;
    FixedSmall();
    TokenLength(c.ll, c.dl, t);
    TokenLength(c.WL(), c.WD(), t);
    TokenLength(FIXED_LENS, STATIC_DISTS, t);
  }

  lemma EitherCodable(c: BlockCodes, ts: seq<Token>)
    requires c.Ok(ts)
    ensures |FIXED_LENS| == 288 && |STATIC_DISTS| == 30 && AllCodable(c.WL(), c.WD(), ts) &&
            AllCodable(FIXED_LENS, STATIC_DISTS, ts) && Coded(c.WL(), 256)
  {
    hide Codable, FIXED_LENS, STATIC_DISTS, TokenBits;
    FixedSmall();
    forall i | 0 <= i < |ts| ensures Codable(c.WL(), c.WD(), ts[i]) && Codable(FIXED_LENS, STATIC_DISTS, ts[i]) {
      TokenParts(c, ts[i]);
    }
  }

  /** The first k tokens at the fixed codes, and the others at their own, are an upper bound for the code out of two. */
  lemma {:induction false} Halves(c: BlockCodes, ts: seq<Token>, k: nat)
    requires c.Ok(ts) && k <= |ts|
    ensures |FIXED_LENS| == 288 && |STATIC_DISTS| == 30 && AllCodable(c.WL(), c.WD(), ts) &&
            AllCodable(FIXED_LENS, STATIC_DISTS, ts)
    ensures |TokensBits(c.WL(), c.WD(), ts)| + |TokensBits(c.ll, c.dl, ts[..k])| <=
            |TokensBits(FIXED_LENS, STATIC_DISTS, ts[..k])| + |TokensBits(c.ll, c.dl, ts)| + 2 * |ts|
    ensures |TokensBits(FIXED_LENS, STATIC_DISTS, ts)| + |TokensBits(c.ll, c.dl, ts[..k])| <=
            |TokensBits(FIXED_LENS, STATIC_DISTS, ts[..k])| + |TokensBits(c.ll, c.dl, ts)| + 11 * (|ts| - k)
    decreases |ts|
  {
    hide Codable, FIXED_LENS, STATIC_DISTS, TokenBits, BlockCodes.WL, BlockCodes.WD;
    EitherCodable(c, ts);
    if ts == [] {
    } else {
      var n := |ts| - 1;
      TokenParts(c, ts[n]);
      if k == |ts| {
        Halves(c, ts[..n], n);
        assert ts[..n][..n] == ts[..n] && ts[..k] == ts;
      } else {
        Halves(c, ts[..n], k);
        assert ts[..n][..k] == ts[..k];
      }
    }
  }

  /** What the codes must be: as good as any. */
  ghost predicate AsGood(c: BlockCodes, ts: seq<Token>)
    requires c.Ok(ts)
  {
    && BT.Least(LTally(ts), c.lfull, L_DESC) && BT.Least(DTally(ts), c.dfull, D_DESC)
    && ValidLens(c.lfull) && Kraft(c.lfull) <= Pow2(MAXBITS) && ValidLens(c.dfull) && Kraft(c.dfull) <= Pow2(MAXBITS)
  }

  /** So the block takes no more than with the code out of two. */
  lemma OwnLeast(c: BlockCodes, ts: seq<Token>)
    requires c.Ok(ts) && AsGood(c, ts)
    ensures |FIXED_LENS| == 288 && |STATIC_DISTS| == 30 && AllCodable(c.WL(), c.WD(), ts) && Coded(c.WL(), 256)
    ensures |CodedBits(c.ll, c.dl, ts)| <= |CodedBits(c.WL(), c.WD(), ts)|
  {
    hide Codable, FIXED_LENS, STATIC_DISTS, Weighted, CodedBits, LTally, DTally, L_DESC, D_DESC, BL.Desc.Ok,
      BL.Desc.Extras, Kraft, Pow2, BT.Least;
    DescsOk();
    EitherCodable(c, ts);
    FixedIsCode();
    FixedSmall();
    forall i | 0 <= i < |ts| ensures Codable(c.lfull, c.dfull, ts[i]) {
      FullCodable(c, ts[i]);
    }
    TokensCost(ts, c.ll, c.dl, c.lfull, c.dfull, c.lfull, c.dfull);
    TokensCost(ts, c.WL(), c.WD(), c.WL(), c.WD(), c.lfull, c.dfull);
    LeastOfBoth(LTally(ts), c.lfull, L_DESC, FIXED_LENS);
    LeastOfBoth(DTally(ts), c.dfull, D_DESC, STATIC_DISTS);
  }

  lemma FullCodable(c: BlockCodes, t: Token)
    requires c.ll <= c.lfull && c.dl <= c.dfull && Codable(c.ll, c.dl, t)
    ensures Codable(c.lfull, c.dfull, t)
  {
    hide LenCode, DistCode;
  }

  /** The first tokens take little more than with the fixed codes. */
  lemma EarlyTokens(c: BlockCodes, ts: seq<Token>, k: nat)
    requires c.Ok(ts) && AsGood(c, ts) && k <= |ts|
    ensures AllCodable(FIXED_LENS, STATIC_DISTS, ts)
    ensures |TokensBits(c.ll, c.dl, ts[..k])| <=
            |TokensBits(FIXED_LENS, STATIC_DISTS, ts[..k])| + 2 * |ts| + 1
  {
    hide Codable, FIXED_LENS, STATIC_DISTS, TokensBits, BT.Least, Kraft, Pow2, LTally, DTally, L_DESC, D_DESC;
    EitherCodable(c, ts);
    FixedSmall();
    Halves(c, ts, k);
    OwnLeast(c, ts);
  }

  // ---------- the header ----------

  lemma GroupLength(cl: seq<nat>, cur: nat, count: nat, prev: int)
    requires |cl| == 19 && (forall i :: 0 <= i < 19 ==> cl[i] <= 7) && cur < 16 && ItemsOk(cl, Group(cur, count, prev))
    ensures |ItemsBits(cl, Group(cur, count, prev))| <= 7 * count
  {
    hide CodeBits, ToBits;
    var g := Group(cur, count, prev);
    if count < MinCount(cur, prev) {
      Singles(cl, cur, count);
    } else if |g| == 2 {
      OneItem(cl, g[1]);
      assert g[1..] == [g[1]];
    } else {
      assert g[1..] == [];
    }
  }

  lemma {:induction false} Singles(cl: seq<nat>, cur: nat, count: nat)
    requires |cl| == 19 && (forall i :: 0 <= i < 19 ==> cl[i] <= 7) && cur < 16
    requires ItemsOk(cl, seq(count, _ => Item(cur, 0)))
    ensures |ItemsBits(cl, seq(count, _ => Item(cur, 0)))| <= 7 * count
  {
    hide CodeBits, ToBits;
    if count > 0 {
      var g := seq(count, _ => Item(cur, 0));
      assert g[1..] == seq(count - 1, _ => Item(cur, 0));
      Singles(cl, cur, count - 1);
    }
  }

  /** A length takes at most seven bits. */
  lemma {:induction false} PackLength(cl: seq<nat>, lens: seq<nat>, n: nat, count: nat, prev: int)
    requires |cl| == 19 && (forall i :: 0 <= i < 19 ==> cl[i] <= 7) && n <= |lens| && ValidLens(lens)
    requires ItemsOk(cl, Pack(lens, n, count, prev))
    ensures |ItemsBits(cl, Pack(lens, n, count, prev))| <= 7 * (count + |lens| - n)
    decreases |lens| - n
  {
    hide ItemsBits, Group, Coded, ItemOk;
    if n == |lens| {
      NoItems(cl);
    } else if GoesOn(lens, n, count, prev) {
      PackLength(cl, lens, n + 1, count + 1, prev);
    } else {
      var g, rest := Group(lens[n], count + 1, prev), Pack(lens, n + 1, 0, lens[n]);
      ItemsParts(cl, g, rest);
      ItemsBitsConcat(cl, g, rest);
      GroupLength(cl, lens[n], count + 1, prev);
      PackLength(cl, lens, n + 1, 0, lens[n]);
    }
  }

  lemma ItemsParts(cl: seq<nat>, a: seq<Item>, b: seq<Item>)
    requires ItemsOk(cl, a + b)
    ensures ItemsOk(cl, a) && ItemsOk(cl, b)
  {
    hide ItemOk, Coded;
    forall i | 0 <= i < |a| ensures ItemOk(a[i]) && Coded(cl, a[i].s) {
      assert (a + b)[i] == a[i];
    }
    forall i | 0 <= i < |b| ensures ItemOk(b[i]) && Coded(cl, b[i].s) {
      assert (a + b)[|a| + i] == b[i];
    }
  }

  lemma HeaderLength(ll: seq<nat>, dl: seq<nat>, cl: seq<nat>, ncode: nat)
    requires Sendable(ll, dl, cl, ncode)
    ensures |TreesBits(ll, dl, cl, ncode)| <= 2283
  {
    hide Pack, ItemOk, Coded, ToBits, ItemsBits, Refused, Kraft, TreesBits;
    TreesLength(ll, dl, cl, ncode);
    PackLength(cl, ll, 0, 0, -1);
    PackLength(cl, dl, 0, 0, -1);
  }

  // ---------- the overlay ----------

  /** What has been written when k tokens have been, without those bits that wait from the block before. */
  ghost function Ahead(own: Own, ts: seq<Token>, k: nat): nat
    requires own.Ok(ts) && k <= |ts|
  {
    3 + |TreesBits(own.ll, own.dl, own.cl, own.ncode)| + |TokensBits(own.ll, own.dl, ts[..k])|
  }

  lemma EarlyRoom(own: Own, c: BlockCodes, ts: seq<Token>, k: nat, litBufsize: nat)
    requires own.Ok(ts) && c.Ok(ts) && AsGood(c, ts) && c.ll == own.ll && c.dl == own.dl
    requires k <= |ts| < litBufsize && 7 * k + 2292 <= 6 * litBufsize
    ensures Ahead(own, ts, k) + 7 <= 8 * litBufsize + 24 * k
  {
    hide Codable, FIXED_LENS, FIXED_DISTS, STATIC_DISTS, TokensBits, TreesBits, Sendable, AsGood, TokenBits,
      Trees.CodesOk;
    FixedCodable(ts);
    SameTokens(ts[..k]);
    FixedLength(ts[..k]);
    EarlyTokens(c, ts, k);
    HeaderLength(own.ll, own.dl, own.cl, own.ncode);
  }

  lemma LateRoom(own: Own, c: BlockCodes, ts: seq<Token>, k: nat, litBufsize: nat, stat: nat)
    requires own.Ok(ts) && c.Ok(ts) && c.ll == own.ll && c.dl == own.dl
    requires AllCodable(FIXED_LENS, FIXED_DISTS, ts) && Coded(FIXED_LENS, 256)
    requires stat == |CodedBits(FIXED_LENS, FIXED_DISTS, ts)| && own.Length(ts) < stat
    requires k <= |ts| < litBufsize && 3 * litBufsize + 4 <= 4 * k
    ensures Ahead(own, ts, k) + 7 <= 8 * litBufsize + 24 * k
  {
    hide Codable, FIXED_LENS, FIXED_DISTS, STATIC_DISTS, TokensBits, TreesBits, Sendable, TokenBits, Trees.CodesOk;
    FixedSmall();
    SameTokens(ts);
    SameTokens(ts[..k]);
    FixedLength(ts[..k]);
    Halves(c, ts, k);
  }

  /** The codes of a block as BuildTrees gives them, filled up. */
  function CodesOf(own: Own): BlockCodes
    requires |own.ll| <= 286 && |own.dl| <= 30
  {
    BlockCodes(own.ll, own.dl, FilledUp(own.ll, 286), FilledUp(own.dl, 30))
  }

  lemma FilledCode(l: seq<nat>, n: nat)
    requires ValidLens(l) && |l| <= n
    ensures ValidLens(FilledUp(l, n)) && Kraft(FilledUp(l, n)) == Kraft(l)
  {
    hide Kraft;
    BT.Trimmed(FilledUp(l, n), |l|);
    assert FilledUp(l, n)[..|l|] == l;
  }

  lemma OwnCodes(own: Own, ts: seq<Token>)
    requires own.Ok(ts) && AllExpressible(ts) && LeastFor(own, ts)
    ensures |own.ll| <= 286 && |own.dl| <= 30 && CodesOf(own).Ok(ts) && AsGood(CodesOf(own), ts)
  {
    hide Codable, Kraft, BT.Least, LTally, DTally, L_DESC, D_DESC, Trees.CodesOk, ItemsOk;
    FilledCode(own.ll, 286);
    FilledCode(own.dl, 30);
  }

  /**
   A block for which its own codes were chosen: at every symbol, the bytes pending end before it.  The codes must be as
   good as any, which they are unless the limit on their lengths is a hindrance; memLevel 6 gives
   4096 symbols.
   */
  lemma NotOverwrittenByOwn(w: Writer, wk: Writer, last: bool, own: Own, ts: seq<Token>, k: nat, litBufsize: nat,
        fixed: bool, buf: Buffer)
    requires AllExpressible(ts) && own.Ok(ts) && LeastFor(own, ts) && k < |ts| < litBufsize && 3064 <= litBufsize
    requires AllCodable(FIXED_LENS, FIXED_DISTS, ts) && Coded(FIXED_LENS, 256)
    requires Choose(own.Length(ts), |CodedBits(FIXED_LENS, FIXED_DISTS, ts)|, fixed, buf) == WithOwn
    requires w.pending == [] && w.valid < 8
    requires wk.Bits() == w.Bits() + HeadBits(2, last) + TreesBits(own.ll, own.dl, own.cl, own.ncode) +
                          TokensBits(own.ll, own.dl, ts[..k])
    ensures |wk.pending| <= litBufsize + 3 * k
  {
    hide Codable, FIXED_LENS, FIXED_DISTS, TokensBits, TreesBits, Sendable, AsGood, LeastFor, Trees.CodesOk, ToBits,
      BytesBits, Own.Length, CodedBits;
    OwnCodes(own, ts);
    var c := CodesOf(own);
    if 7 * k + 2292 <= 6 * litBufsize {
      EarlyRoom(own, c, ts, k, litBufsize);
    } else {
      LateRoom(own, c, ts, k, litBufsize, |CodedBits(FIXED_LENS, FIXED_DISTS, ts)|);
    }
    assert |w.Bits()| < 8;
  }
}
