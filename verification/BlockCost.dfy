/**
 opt_len and static_len: what build_tree adds up from the frequencies is the number of bits that
 compress_block and send_all_trees write.
 */
module BlockCost {
  import opened Bits
  import opened Canonical
  import opened TableSpec
  import opened Tokens
  import opened Rfc1951
  import opened Encoding
  import opened RunLengths
  import opened DynamicSpec
  import opened BlockSpec
  import opened SendTrees
  import opened StaticTrees
  import opened Cost
  import opened BL = BitLengths
  import opened BitWriter
  import Trees
  import Optimal
  import BT = BuildTree
  import HT = HuffmanTree

  // ---------- the three trees ----------

  const EXTRA_LBITS: seq<nat> := [0, 0, 0, 0, 0, 0, 0, 0, 1, 1, 1, 1, 2, 2, 2, 2, 3, 3, 3, 3, 4, 4, 4, 4, 5, 5, 5, 5, 0]
  const EXTRA_DBITS: seq<nat> :=
    [0, 0, 0, 0, 1, 1, 2, 2, 3, 3, 4, 4, 5, 5, 6, 6, 7, 7, 8, 8, 9, 9, 10, 10, 11, 11, 12, 12, 13, 13]
  const EXTRA_BLBITS: seq<nat> := [0, 0, 0, 0, 0, 0, 0, 0, 0, 0, 0, 0, 0, 0, 0, 0, 2, 3, 7]

  const L_DESC: Desc := Desc(FIXED_LENS, EXTRA_LBITS, 257, 286, 15)
  const D_DESC: Desc := Desc(STATIC_DISTS, EXTRA_DBITS, 0, 30, 15)
  const BL_DESC: Desc := Desc([], EXTRA_BLBITS, 0, 19, 7)

  lemma DescsOk()
    ensures L_DESC.Ok() && D_DESC.Ok() && BL_DESC.Ok()
    ensures L_DESC.elems == 286 && D_DESC.elems == 30 && BL_DESC.elems == 19
    ensures L_DESC.max == 15 && D_DESC.max == 15 && BL_DESC.max == 7
    ensures L_DESC.statics == FIXED_LENS && D_DESC.statics == STATIC_DISTS && BL_DESC.statics == []
    ensures |FIXED_LENS| == 288 && |STATIC_DISTS| == 30
  {
  }

  /** The extra bits are those of the format. */
  lemma LengthExtra(s: nat)
    requires s < 286
    ensures L_DESC.Ok() && L_DESC.Extra(s) == if s <= 256 then 0 else LEXT[s - 257] % 16
  {
  }

  lemma DistExtra(j: nat)
    requires j <= 29
    ensures D_DESC.Ok() && D_DESC.Extra(j) == DEXT[j] % 16
  {
    hide EXTRA_DBITS, DEXT;
    DescsOk();
    if j < 16 {
      NearBits(j);
    } else {
      FarBits(j);
    }
  }

  lemma NearBits(j: nat)
    requires j < 16
    ensures |EXTRA_DBITS| == 30 && |DEXT| == 32 && EXTRA_DBITS[j] == DEXT[j] % 16
  {
  }

  lemma FarBits(j: nat)
    requires 16 <= j < 30
    ensures |EXTRA_DBITS| == 30 && |DEXT| == 32 && EXTRA_DBITS[j] == DEXT[j] % 16
  {
  }

  lemma RepeatExtra(s: nat)
    requires s <= 18
    ensures BL_DESC.Ok() && BL_DESC.Extra(s) == if s < 16 then 0 else RepeatBits(s)
  {
  }

  // ---------- symbols and extra bits of a block ----------

  function Bump(f: seq<nat>, s: nat): (r: seq<nat>)
    ensures |r| == |f|
  {
    if s < |f| then f[s := f[s] + 1] else f
  }

  function LSym(t: Token): (s: nat)
    requires Expressible(t)
    ensures s < 286
  {
    match t
    case Lit(b) => b
    case Str(len, _) => 257 + LenCode(len)
  }

  /** How often each literal, length and end of block occurs. */
  function LTally(ts: seq<Token>): (f: seq<nat>)
    requires forall i :: 0 <= i < |ts| ==> Expressible(ts[i])
    ensures |f| == 573
    decreases |ts|
  {
    if ts == [] then BL.Zeros(573)[256 := 1] else Bump(LTally(ts[..|ts| - 1]), LSym(ts[|ts| - 1]))
  }

  /** How often each distance occurs. */
  function DTally(ts: seq<Token>): (f: seq<nat>)
    requires forall i :: 0 <= i < |ts| ==> Expressible(ts[i])
    ensures |f| == 61
    decreases |ts|
  {
    if ts == [] then BL.Zeros(61)
    else
      var f, t := DTally(ts[..|ts| - 1]), ts[|ts| - 1];
      assert Expressible(t);
      if t.Str? then Bump(f, DistCode(t.dist)) else f
  }

  lemma {:induction false} EndTallied(ts: seq<Token>)
    requires AllExpressible(ts)
    ensures LTally(ts)[256] > 0
    decreases |ts|
  {
    if ts != [] {
      EndTallied(ts[..|ts| - 1]);
    }
  }

  /** Whatever occurs is counted. */
  lemma {:induction false} Tallied(ts: seq<Token>, i: nat)
    requires AllExpressible(ts) && i < |ts|
    ensures LTally(ts)[LSym(ts[i])] > 0 && (ts[i].Str? ==> DTally(ts)[DistCode(ts[i].dist)] > 0)
    decreases |ts|
  {
    hide LenCode, DistCode;
    var n := |ts| - 1;
    if i < n {
      Tallied(ts[..n], i);
    }
  }

  /** The lengths wl are those of the codes of ll. */
  ghost predicate Weighs(ll: seq<nat>, wl: seq<nat>, n: nat) {
    n <= |wl| && forall s :: 0 <= s < n && Coded(ll, s) ==> wl[s] == ll[s]
  }

  lemma TokenLength(ll: seq<nat>, dl: seq<nat>, t: Token)
    requires Codable(ll, dl, t)
    ensures Expressible(t) && L_DESC.Ok() && D_DESC.Ok()
    ensures |TokenBits(ll, dl, t)| == ll[LSym(t)] + L_DESC.Extra(LSym(t)) +
                                      if t.Str? then dl[DistCode(t.dist)] + D_DESC.Extra(DistCode(t.dist)) else 0
  {
    hide LenCode, DistCode, CodeBits, LEXT, DEXT, ToBits, Desc.Extra, L_DESC, D_DESC;
    TableSizes();
    DescsOk();
    LengthExtra(LSym(t));
    if t.Str? {
      DistExtra(DistCode(t.dist));
    }
  }

  /** One token more. */
  lemma NextCost(ts: seq<Token>, ll: seq<nat>, dl: seq<nat>, wl: seq<nat>, wd: seq<nat>, ul: seq<nat>, ud: seq<nat>)
    requires AllExpressible(ts) && ts != [] && |ul| == 286 && |ud| == 30 && Weighs(ll, wl, 286) && Weighs(dl, wd, 30)
    requires var t := ts[|ts| - 1]; Codable(ll, dl, t) && Codable(ul, ud, t)
    ensures L_DESC.Ok() && D_DESC.Ok()
    ensures Weighted(LTally(ts), ul, wl, L_DESC.Extras()) + Weighted(DTally(ts), ud, wd, D_DESC.Extras()) ==
            Weighted(LTally(ts[..|ts| - 1]), ul, wl, L_DESC.Extras()) +
                Weighted(DTally(ts[..|ts| - 1]), ud, wd, D_DESC.Extras()) +
            |TokenBits(ll, dl, ts[|ts| - 1])|
  {
    hide LenCode, DistCode, TokenBits, Weighted, L_DESC, D_DESC, Desc.Ok, Desc.Extra, Desc.Extras;
    DescsOk();
    var init, t := ts[..|ts| - 1], ts[|ts| - 1];
    TokenLength(ll, dl, t);
    OneMore(LTally(init), ul, wl, L_DESC.Extras(), LSym(t));
    if t.Str? {
      OneMore(DTally(init), ud, wd, D_DESC.Extras(), DistCode(t.dist));
    }
  }

  lemma EndCost(ll: seq<nat>, wl: seq<nat>, wd: seq<nat>, ul: seq<nat>, ud: seq<nat>)
    requires |ul| == 286 && |ud| == 30 && Weighs(ll, wl, 286) && |wd| >= 30 && Coded(ll, 256) && Coded(ul, 256)
    ensures L_DESC.Ok() && D_DESC.Ok()
    ensures Weighted(LTally([]), ul, wl, L_DESC.Extras()) + Weighted(DTally([]), ud, wd, D_DESC.Extras()) == ll[256]
  {
    hide Weighted, L_DESC, D_DESC, Desc.Ok, Desc.Extra, Desc.Extras;
    DescsOk();
    LengthExtra(256);
    Nothing(BL.Zeros(573), ul, wl, L_DESC.Extras());
    OneMore(BL.Zeros(573), ul, wl, L_DESC.Extras(), 256);
    Nothing(BL.Zeros(61), ud, wd, D_DESC.Extras());
  }

  /**
   The bits of a block's tokens and of its end, from the frequencies: u tells which symbols have a code in the
   block's own tree, w how long the codes used are.
   */
  lemma {:induction false} TokensCost(ts: seq<Token>, ll: seq<nat>, dl: seq<nat>, wl: seq<nat>, wd: seq<nat>,
        ul: seq<nat>, ud: seq<nat>)
    requires AllExpressible(ts) && |ul| == 286 && |ud| == 30 && Weighs(ll, wl, 286) && Weighs(dl, wd, 30)
    requires Coded(ll, 256) && Coded(ul, 256) && AllCodable(ll, dl, ts) && AllCodable(ul, ud, ts)
    ensures L_DESC.Ok() && D_DESC.Ok()
    ensures Weighted(LTally(ts), ul, wl, L_DESC.Extras()) + Weighted(DTally(ts), ud, wd, D_DESC.Extras()) ==
            |CodedBits(ll, dl, ts)|
    decreases |ts|
  {
    hide Codable, TokenBits, Weighted, L_DESC, D_DESC, Desc.Ok, Desc.Extras, LTally, DTally, CodeBits, Weighs;
    if ts == [] {
      WeighsSize(dl, wd, 30);
      EndCost(ll, wl, wd, ul, ud);
    } else {
      TokensCost(ts[..|ts| - 1], ll, dl, wl, wd, ul, ud);
      NextCost(ts, ll, dl, wl, wd, ul, ud);
    }
  }

  lemma WeighsSize(ll: seq<nat>, wl: seq<nat>, n: nat)
    requires Weighs(ll, wl, n)
    ensures |wl| >= n
  {
  }

  // ---------- the trees themselves ----------

  /** Packed lengths cost what their symbols do. */
  lemma {:induction false} ItemsCost(f0: seq<nat>, f1: seq<nat>, items: seq<Item>, cl: seq<nat>)
    requires |cl| == 19 <= |f0| && Scanned(f0, f1, items) && ItemsOk(cl, items)
    ensures BL_DESC.Ok()
    ensures Weighted(f1, cl, cl, BL_DESC.Extras()) == Weighted(f0, cl, cl, BL_DESC.Extras()) + |ItemsBits(cl, items)|
    decreases |items|
  {
    hide Weighted, ItemOk, BL_DESC, Desc.Ok, Desc.Extra, Desc.Extras, CodeBits;
    DescsOk();
    if items == [] {
      assert f1 == f0;
    } else {
      var i := items[0];
      ItemLength(cl, i);
      var g := f0[i.s := f0[i.s] + 1];
      forall s | 0 <= s < |f1| ensures f1[s] == g[s] + Uses(items[1..], s) {
      }
      OneMore(f0, cl, cl, BL_DESC.Extras(), i.s);
      ItemsCost(g, f1, items[1..], cl);
    }
  }

  lemma ItemLength(cl: seq<nat>, i: Item)
    requires |cl| == 19 && ItemOk(i) && Coded(cl, i.s)
    ensures BL_DESC.Ok() && |ItemBits(cl, i)| == cl[i.s] + BL_DESC.Extra(i.s)
  {
    hide CodeBits, ToBits, Desc.Extra, BL_DESC;
    RepeatExtra(i.s);
  }

  lemma {:induction false} OrderLength(cl: seq<nat>, n: nat)
    requires |cl| == 19 && n <= 19
    ensures |OrderBits(cl, n)| == 3 * n
  {
    hide ToBits;
    if n > 0 {
      OrderLength(cl, n - 1);
    }
  }

  /** The packed lengths of both codes. */
  lemma PackedCost(f0: seq<nat>, f1: seq<nat>, f2: seq<nat>, ll: seq<nat>, dl: seq<nat>, cl: seq<nat>)
    requires |cl| == 19 <= |f0| && Scanned(f0, f1, Packed(ll)) && Scanned(f1, f2, Packed(dl))
    requires ItemsOk(cl, Packed(ll)) && ItemsOk(cl, Packed(dl)) && forall i :: 0 <= i < 19 ==> f0[i] == 0
    ensures BL_DESC.Ok()
    ensures |f2| == |f0| && Weighted(f2, cl, cl, BL_DESC.Extras()) ==
            |ItemsBits(cl, Packed(ll))| + |ItemsBits(cl, Packed(dl))|
  {
    hide Weighted, Packed, ItemOk, BL_DESC, Desc.Ok, Desc.Extras, Coded, ItemsBits, Scanned;
    DescsOk();
    ScannedSize(f0, f1, Packed(ll));
    ScannedSize(f1, f2, Packed(dl));
    ItemsCost(f0, f1, Packed(ll), cl);
    ItemsCost(f1, f2, Packed(dl), cl);
    Nothing(f0, cl, cl, BL_DESC.Extras());
  }

  /** The header of a block with codes of its own. */
  lemma TreesLength(ll: seq<nat>, dl: seq<nat>, cl: seq<nat>, ncode: nat)
    requires Sendable(ll, dl, cl, ncode)
    ensures |TreesBits(ll, dl, cl, ncode)| == 14 + 3 * ncode + |ItemsBits(cl, Packed(ll))| + |ItemsBits(cl, Packed(dl))|
  {
    hide Packed, ItemOk, Coded, ToBits, ItemsBits, Refused, Kraft, OrderBits;
    OrderLength(cl, ncode);
  }

  lemma ScannedSize(f0: seq<nat>, f1: seq<nat>, items: seq<Item>)
    requires Scanned(f0, f1, items)
    ensures |f1| == |f0|
  {
  }

  // ---------- how long the fixed codes get ----------

  /** A literal takes at most 9 bits, a string at most 31. */
  lemma FixedToken(t: Token)
    requires Codable(FIXED_LENS, FIXED_DISTS, t)
    ensures |TokenBits(FIXED_LENS, FIXED_DISTS, t)| <= 31
  {
    hide LenCode, DistCode, CodeBits, ToBits;
    TableSizes();
    if t.Str? {
      Trees.ExtraSmall(LenCode(t.len), DistCode(t.dist));
    }
  }

  lemma {:induction false} FixedLength(ts: seq<Token>)
    requires AllCodable(FIXED_LENS, FIXED_DISTS, ts)
    ensures |TokensBits(FIXED_LENS, FIXED_DISTS, ts)| <= 31 * |ts|
    decreases |ts|
  {
    hide Codable, TokenBits, FIXED_LENS, FIXED_DISTS;
    if ts != [] {
      FixedLength(ts[..|ts| - 1]);
      FixedToken(ts[|ts| - 1]);
    }
  }

  /**
   sym_buf is overlaid on pending_buf, from byte litBufsize on, three bytes to a symbol.  With the fixed codes, when
   k symbols have been written, the bytes pending end before symbol k.
   */
  lemma NotOverwritten(w: Writer, wk: Writer, last: bool, ts: seq<Token>, k: nat, litBufsize: nat)
    requires AllCodable(FIXED_LENS, FIXED_DISTS, ts) && k < |ts| < litBufsize && 128 <= litBufsize
    requires w.pending == [] && w.valid < 8
    requires wk.Bits() == w.Bits() + HeadBits(1, last) + TokensBits(FIXED_LENS, FIXED_DISTS, ts[..k])
    ensures 8 * |wk.pending| + 132 <= 8 * (litBufsize + 3 * k)
  {
    hide Codable, TokenBits, FIXED_LENS, FIXED_DISTS, ToBits, BytesBits;
    FixedLength(ts[..k]);
  }

  // ---------- own codes against the fixed ones ----------

  /** All frequencies together. */
  function AllOf(f: seq<nat>, n: nat): nat
    requires n <= |f|
  {
    if n == 0 then 0 else AllOf(f, n - 1) + f[n - 1]
  }

  lemma {:induction false} AllBump(f: seq<nat>, s: nat, n: nat)
    requires n <= |f| && s < |f|
    ensures AllOf(Bump(f, s), n) == AllOf(f, n) + if s < n then 1 else 0
  {
    if n > 0 {
      AllBump(f, s, n - 1);
    }
  }

  lemma {:induction false} AllNone(k: nat, n: nat)
    requires n <= k
    ensures AllOf(BL.Zeros(k), n) == 0
  {
    if n > 0 {
      AllNone(k, n - 1);
    }
  }

  /** A symbol is counted for each token, and one for the end of the block. */
  lemma {:induction false} TallyTotals(ts: seq<Token>)
    requires AllExpressible(ts)
    ensures AllOf(LTally(ts), 286) == |ts| + 1 && AllOf(DTally(ts), 30) <= |ts|
    decreases |ts|
  {
    hide LenCode, DistCode, AllOf;
    if ts == [] {
      AllNone(573, 286);
      AllBump(BL.Zeros(573), 256, 286);
      assert BL.Zeros(573)[256 := 1] == Bump(BL.Zeros(573), 256);
      AllNone(61, 30);
    } else {
      var init, t := ts[..|ts| - 1], ts[|ts| - 1];
      TallyTotals(init);
      AllBump(LTally(init), LSym(t), 286);
      if t.Str? {
        AllBump(DTally(init), DistCode(t.dist), 30);
      }
    }
  }

  lemma {:induction false} SumIsAll(u: set<nat>, f: seq<nat>, n: nat)
    requires n <= |f|
    ensures Optimal.Sum(u, f, n) <= AllOf(f, n)
  {
    if n > 0 {
      SumIsAll(u, f, n - 1);
    }
  }

  /** The first codes of a code are one. */
  lemma {:induction false} KraftPart(w: seq<nat>, k: nat)
    requires ValidLens(w) && k <= |w|
    ensures ValidLens(w[..k]) && Kraft(w[..k]) <= Kraft(w)
    decreases |w|
  {
    if k < |w| {
      KraftPart(w[..|w| - 1], k);
      assert w[..|w| - 1][..k] == w[..k];
    } else {
      assert w[..k] == w;
    }
  }

  /** A code that is as good as any is no longer than the fixed one. */
  lemma NoLonger(f: seq<nat>, v: seq<nat>, d: Desc, statics: seq<nat>)
    requires BT.Least(f, v, d) && ValidLens(statics) && Kraft(statics) <= Pow2(MAXBITS) && d.elems <= |statics| &&
             forall n :: 0 <= n < |statics| ==> statics[n] > 0
    ensures Weighted(f, v, v, d.Extras()) <= Weighted(f, v, statics, d.Extras())
  {
    hide Weighted, Kraft, Pow2;
    var w := statics[..d.elems];
    KraftPart(statics, d.elems);
    BT.KraftCode(w, HT.Leaves(f, d.elems), MAXBITS);
    assert BT.AnyCode(w, f, d.elems, MAXBITS);
    Same(f, v, statics, f, w, d.Extras());
  }
}
