/**
 build_tree: from frequencies to a complete code, every symbol that occurs having one.
 */
module BuildTree {
  import opened Bits
  import opened Canonical
  import opened HuffmanTree
  import opened BitLengths
  import opened Cost
  import Optimal
  import Shallow
  import Trees

  // ---------- lengths beyond the largest code ----------

  ghost predicate ZerosFrom(v: seq<nat>, k: nat) {
    k <= |v| && forall i :: k <= i < |v| ==> v[i] == 0
  }

  lemma {:induction false} Trimmed(v: seq<nat>, k: nat)
    requires ZerosFrom(v, k) && ValidLens(v)
    ensures ValidLens(v[..k]) && Kraft(v[..k]) == Kraft(v) && forall l :: l >= 1 ==> Count(v[..k], l) == Count(v, l)
    decreases |v|
  {
    var n := |v| - 1;
    if k == |v| {
      assert v[..k] == v;
    } else {
      assert v[..n][..k] == v[..k];
      Trimmed(v[..n], k);
    }
  }

  lemma Used15(bl: seq<nat>, v: seq<nat>)
    requires Counts(bl, v) && ValidLens(v)
    ensures Kraft(v) == UsedOf(bl, MAXBITS)
  {
    CountsUsed(bl, v, MAXBITS);
    KraftUsed(v);
  }

  /** Every leaf has a length of at most max, nothing else has one, and the code is complete. */
  ghost predicate Lengths(v: seq<nat>, elems: nat, max: nat, leaves: set<nat>) {
    && |v| == elems && max <= MAXBITS && ValidLens(v) && Kraft(v) == Pow2(MAXBITS)
    && (forall n :: 0 <= n < elems ==> v[n] <= max && (v[n] > 0 <==> n in leaves))
  }

  /** No length above max is counted, so there is none. */
  lemma {:induction false} CountedLength(v: seq<nat>, n: nat)
    requires n < |v|
    ensures Count(v, v[n]) >= 1
    decreases |v|
  {
    if n < |v| - 1 {
      CountedLength(v[..|v| - 1], n);
    }
  }

  lemma LengthsAre(nodes: seq<nat>, dl: seq<nat>, elems: nat, max: nat, leaves: set<nat>, v: seq<nat>, bl: seq<nat>)
    requires |v| == elems <= |dl| && 1 <= max <= MAXBITS && ValidLens(v) && Counts(bl, v) &&
             UsedOf(bl, MAXBITS) == Pow2(MAXBITS)
    requires forall l :: max < l <= MAXBITS ==> bl[l] == 0
    requires (forall n :: n in leaves ==> n in nodes && n < elems) &&
             (forall n :: 0 <= n < elems && n !in leaves ==> v[n] == 0 && dl[n] == 0)
    requires forall q :: 0 <= q < |nodes| && nodes[q] < elems ==> v[nodes[q]] == dl[nodes[q]] >= 1
    ensures dl[..elems] == v && Lengths(v, elems, max, leaves)
  {
    hide Kraft, Count, UsedOf, Pow2;
    Used15(bl, v);
    LengthsShown(nodes, dl, elems, leaves, v);
    forall n | 0 <= n < elems ensures v[n] <= max && (v[n] > 0 <==> n in leaves) {
      if n in leaves {
        CountedLength(v, n);
      }
    }
  }

  /** gen_bitlen */
  method GenBitlen(heap: array<nat>, dl: array<nat>, freq: array<nat>, d: Desc, t: nat, maxCode: nat,
        ghost leaves: set<nat>)
      returns (blCount: array<nat>, opt: int, stat: int)
    requires heap != dl && dl != freq && heap.Length == HEAP_SIZE && 2 * t + 1 <= HEAP_SIZE
    requires d.Ok() && 2 * d.elems <= Pow2(d.max) && d.elems <= dl.Length && d.elems <= freq.Length
    requires Built(heap[HEAP_SIZE - 2 * t - 1..], dl[..], d.elems, t, leaves) && Largest(leaves, maxCode)
    requires forall n :: 0 <= n < d.elems && n !in leaves ==> dl[n] == 0
    modifies dl
    ensures fresh(blCount) && Counts(blCount[..], dl[..d.elems]) && Lengths(dl[..d.elems], d.elems, d.max, leaves)
    ensures Costs(freq[..], dl[..d.elems], d, opt, stat)
    ensures if NoneDeep(heap[HEAP_SIZE - 2 * t - 1..], d.elems, t, d.max) then
              Depths(heap[HEAP_SIZE - 2 * t - 1..], dl[..], d.elems, t, 2 * t + 1)
            else LongerLater(heap[HEAP_SIZE - 2 * t - 1..], dl[..d.elems], d.elems, 0, 0)
  {
    hide LongerLater, Built, FirstLens, Final, Giving, Overfull, Counts, Lengths, Pow2, Costs, Desc.Ok, Depths,
      NoneDeep, Listing, ValidLens, SumFrom, LeavesIn, UsedOf, Largest, Zeros;
    DescMax(d);
    var h0, elems, max := HEAP_SIZE - 2 * t - 1, d.elems, d.max;
    ghost var nodes, dl0 := heap[h0..], dl[..];
    BuiltIds(nodes, dl0, elems, t, leaves);
    BuiltSize(nodes, dl0, elems, t, leaves);
    BuiltOrder(nodes, dl0, elems, t, leaves);
    ghost var v;
    var over;
    blCount, over, opt, stat, v := FirstPass(heap, dl, freq, d, t, maxCode, leaves);
    FirstFacts(nodes, dl[..], elems, max, leaves, v, over, blCount[..]);
    LengthsShown(nodes, dl[..], elems, leaves, v);
    if over > 0 {
      Repair(blCount, max, over);
      GivingStarts(nodes, dl[..], elems, t, leaves, blCount[..]);
      RepairedFacts(blCount[..], max);
      opt, v := SecondPass(heap, dl, freq, d, t, maxCode, blCount, leaves, h0, opt, stat);
      FinalFacts(nodes, dl[..], elems, leaves, v, blCount[..]);
    } else {
      RepairedFacts(blCount[..], max);
    }
    LengthsAre(nodes, dl[..], elems, max, leaves, v, blCount[..]);
  }

  /** The lengths in v are those in dl. */
  lemma LengthsShown(nodes: seq<nat>, dl: seq<nat>, elems: nat, leaves: set<nat>, v: seq<nat>)
    requires |v| == elems <= |dl|
    requires (forall n :: n in leaves ==> n in nodes && n < elems) &&
             (forall n :: 0 <= n < elems && n !in leaves ==> v[n] == 0 && dl[n] == 0)
    requires forall q :: 0 <= q < |nodes| && nodes[q] < elems ==> v[nodes[q]] == dl[nodes[q]] >= 1
    ensures dl[..elems] == v && forall n :: n in leaves ==> dl[n] > 0
  {
    forall n | 0 <= n < elems ensures v[n] == dl[n] && (n in leaves ==> dl[n] > 0) {
      if n in leaves {
        var q :| 0 <= q < |nodes| && nodes[q] == n;
      }
    }
  }

  lemma BuiltOrder(nodes: seq<nat>, dl: seq<nat>, elems: nat, t: nat, leaves: set<nat>)
    requires Built(nodes, dl, elems, t, leaves)
    ensures Listing(nodes, elems, t) && t < elems && forall q :: 0 <= q < |nodes| ==> nodes[q] < |dl|
  {
    hide Internals;
    BuiltIds(nodes, dl, elems, t, leaves);
  }

  lemma FirstFacts(nodes: seq<nat>, dl: seq<nat>, elems: nat, max: nat, leaves: set<nat>, v: seq<nat>, over: nat,
        bl: seq<nat>)
    requires FirstLens(nodes, dl, elems, max, leaves, v, over, bl)
    ensures Overfull(bl, max, over) && Counts(bl, v) && ValidLens(v) && |v| == elems &&
            SumFrom(bl, 0) == LeavesIn(nodes, elems, |nodes|)
    ensures forall n :: 0 <= n < elems && n !in leaves ==> v[n] == 0
    ensures forall q :: 0 <= q < |nodes| && nodes[q] < elems ==> nodes[q] < |dl| && v[nodes[q]] == dl[nodes[q]] >= 1
  {
    hide Kraft, Count, UsedOf, Pow2, Shl, SumFrom, LeavesIn;
    Used15(bl, v);
  }

  lemma RepairedFacts(bl: seq<nat>, max: nat)
    requires Overfull(bl, max, 0)
    ensures |bl| == MAXBITS + 1 && bl[0] == 0 && UsedOf(bl, MAXBITS) == Pow2(MAXBITS) &&
            forall l :: max < l <= MAXBITS ==> bl[l] == 0
  {
    hide UsedOf, Pow2;
    ShlZero(MAXBITS - max);
  }

  lemma FinalFacts(nodes: seq<nat>, dl: seq<nat>, elems: nat, leaves: set<nat>, v: seq<nat>, bl: seq<nat>)
    requires Final(nodes, dl, elems, leaves, v, bl)
    ensures Counts(bl, v) && ValidLens(v) && |v| == elems
    ensures forall n :: 0 <= n < elems && n !in leaves ==> v[n] == 0
    ensures forall q :: 0 <= q < |nodes| && nodes[q] < elems ==> nodes[q] < |dl| && v[nodes[q]] == dl[nodes[q]] >= 1
  {
    hide Count;
  }

  // ---------- symbols that were made to occur ----------

  /** Two symbols alone have one bit each. */
  lemma TwoAlone(v: seq<nat>, elems: nat, max: nat, leaves: set<nat>)
    requires Lengths(v, elems, max, leaves) && |leaves| == 2 && forall n :: n in leaves ==> n < elems
    ensures forall n :: n in leaves ==> v[n] == 1
  {
    hide Kraft, Pow2;
    forall n | n in leaves ensures v[n] == 1 {
      var rest := leaves - {n};
      assert |rest| == 1 && rest != {};
      var m :| m in rest;
      assert |rest - {m}| == 0;
      assert leaves == {n, m};
      var z: seq<nat> := Zeros(elems);
      NoLens(elems);
      KraftPut(z, n, v[n]);
      KraftPut(z[n := v[n]], m, v[m]);
      assert v == z[n := v[n]][m := v[m]];
      HalfAndHalf(v[n], v[m]);
    }
  }

  lemma HalfAndHalf(a: nat, b: nat)
    requires 1 <= a <= MAXBITS && 1 <= b <= MAXBITS && Pow2(MAXBITS - a) + Pow2(MAXBITS - b) == Pow2(MAXBITS)
    ensures a == 1
  {
    hide Pow2;
    Doubled(MAXBITS);
    Doubled(MAXBITS - 1);
    Pow2Mono(MAXBITS - b, MAXBITS - 1);
    if a > 1 {
      Pow2Mono(MAXBITS - a, MAXBITS - 2);
      PowPositive(MAXBITS - 2);
    }
  }

  lemma CostsSame(f: seq<nat>, f': seq<nat>, v: seq<nat>, d: Desc, opt: int, stat: int)
    requires Costs(f, v, d, opt, stat) && |f'| >= d.elems && f'[..d.elems] == f[..d.elems]
    ensures Costs(f', v, d, opt, stat)
  {
    forall i | 0 <= i < |v| ensures f'[i] == f[i] {
      assert f'[..d.elems][i] == f[..d.elems][i];
    }
    Same(f, v, v, f', v, d.Extras());
    if d.statics != [] {
      Same(f, v, d.statics, f', d.statics, d.Extras());
    }
  }

  /** A symbol that occurs once does not occur. */
  lemma CostsDrop(f: seq<nat>, v: seq<nat>, d: Desc, opt: int, stat: int, n: nat)
    requires d.Ok() && n < d.elems && n < |f| && Costs(f[n := 1], v, d, opt, stat) && f[n] == 0 && v[n] == 1 &&
             d.Extra(n) == 0
    ensures Costs(f, v, d, opt - 1, stat - if d.statics == [] then 0 else d.statics[n])
  {
    hide Term;
    var g, x := f[n := 1], d.Extras();
    Point(g, v, v, f, v, v, x, n);
    OnceOrNever(1, 0);
    if d.statics != [] {
      Point(g, v, d.statics, f, v, d.statics, x, n);
      OnceOrNever(d.statics[n], 0);
    }
  }

  lemma OnceOrNever(l: nat, x: nat)
    ensures Term(1, 1, l, x) == l + x && Term(0, 1, l, x) == 0
  {
  }

  /** The symbols without extra bits among which one is made to occur. */
  predicate Plain(d: Desc)
    requires d.Ok()
  {
    3 <= d.elems && d.Extra(0) == 0 && d.Extra(1) == 0 && d.Extra(2) == 0
  }

  lemma FreeLess(f: seq<nat>, added: seq<nat>)
    requires Free(f, added) && added != []
    ensures var k := |added| - 1;
            Free(f, added[..k]) && added[k] < 3 && Force(f, added[..k])[added[k]] == 0 &&
            Force(f, added) == Force(f, added[..k])[added[k] := 1]
  {
    var k := |added| - 1;
    forall i | 0 <= i < k ensures added[..k][i] < 3 && Force(f, added[..k][..i])[added[..k][i]] == 0 {
      assert added[..k][..i] == added[..i];
    }
  }

  lemma {:induction false} CostsFree(f: seq<nat>, added: seq<nat>, v: seq<nat>, d: Desc, opt: int, stat: int)
    requires d.Ok() && Plain(d) && |f| >= d.elems && Free(f, added) && Costs(Force(f, added), v, d, opt, stat)
    requires forall k :: 0 <= k < |added| ==> v[added[k]] == 1
    ensures Costs(f, v, d, opt - |added|, stat - StaticOf(d.statics, added))
    decreases |added|
  {
    hide Costs, Free;
    if added != [] {
      var k := |added| - 1;
      FreeLess(f, added);
      CostsLength(Force(f, added), v, d, opt, stat);
      CostsDrop(Force(f, added[..k]), v, d, opt, stat, added[k]);
      CostsFree(f, added[..k], v, d, opt - 1, stat - if d.statics == [] then 0 else d.statics[added[k]]);
    }
  }

  lemma CostsLength(f: seq<nat>, v: seq<nat>, d: Desc, opt: int, stat: int)
    requires Costs(f, v, d, opt, stat)
    ensures |v| == d.elems <= |f|
  {
  }

  /** What was made to occur got one bit, and is not counted. */
  lemma NotCounted(f: seq<nat>, g: seq<nat>, added: seq<nat>, v: seq<nat>, d: Desc, leaves: set<nat>, opt: int,
        stat: int)
    requires d.Ok() && Plain(d) && |f| >= d.elems && |g| >= d.elems && Free(f, added) &&
             g[..d.elems] == Force(f, added)[..d.elems]
    requires Costs(g, v, d, opt, stat) && Lengths(v, d.elems, d.max, leaves) && leaves == Leaves(g, d.elems) &&
             (added != [] ==> |leaves| == 2)
    ensures Costs(f, v, d, opt - |added|, stat - StaticOf(d.statics, added))
  {
    hide Costs, Lengths;
    CostsSame(g, Force(f, added), v, d, opt, stat);
    CostsLength(g, v, d, opt, stat);
    if added != [] {
      TwoAlone(v, d.elems, d.max, leaves);
      forall k | 0 <= k < |added| ensures v[added[k]] == 1 {
        ForceSome(f, added, k);
        assert g[..d.elems][added[k]] == Force(f, added)[..d.elems][added[k]];
      }
    }
    CostsFree(f, added, v, d, opt, stat);
  }

  lemma {:induction false} ForceSome(f: seq<nat>, added: seq<nat>, k: nat)
    requires Free(f, added) && k < |added|
    ensures added[k] < |f| && Force(f, added)[added[k]] == 1
    decreases |added|
  {
    var m := |added| - 1;
    assert added[m] < 3;
    if k < m {
      forall i | 0 <= i < m ensures added[..m][i] < 3 && Force(f, added[..m][..i])[added[..m][i]] == 0 {
        assert added[..m][..i] == added[..i];
      }
      ForceSome(f, added[..m], k);
    }
  }

  // ---------- no better code ----------

  /** The lengths, at most top, of a prefix code for the symbols that occur. */
  ghost predicate AnyCode(w: seq<nat>, f: seq<nat>, elems: nat, top: nat) {
    |w| == elems <= |f| && Optimal.Code(Leaves(f, elems), w, top) && forall n :: n in Leaves(f, elems) ==> w[n] > 0
  }

  /** No prefix code takes fewer bits for the symbols, however long its codes. */
  ghost predicate Least(f: seq<nat>, v: seq<nat>, d: Desc) {
    && d.Ok() && |v| == d.elems <= |f|
    && forall w, top :: AnyCode(w, f, d.elems, top) ==>
        Weighted(f, v, v, d.Extras()) <= Weighted(f, v, w, d.Extras())
  }

  /** A code of at most max bits is as good as any. */
  ghost predicate Attainable(f: seq<nat>, d: Desc) {
    exists w :: AnyCode(w, f, d.elems, d.max) && Least(f, w, d)
  }

  /** What the symbols cost without their extra bits. */
  lemma {:induction false} WeightedPrice(f: seq<nat>, u: seq<nat>, l: seq<nat>, x: seq<nat>, g: seq<nat>,
        leaves: set<nat>, k: nat)
    requires Fit(f, u, l, x) && k <= |u| && k <= |g| && forall i :: 0 <= i < k ==>
      g[i] == Times(f[i], l[i]) && (i in leaves ==> u[i] > 0) && (f[i] != 0 ==> i in leaves)
    ensures Weighted(f, u[..k], l, x) == Optimal.Sum(leaves, g, k) + Weighted(f, u[..k], Zeros(|l|), x)
  {
    if k > 0 {
      WeightedPrice(f, u, l, x, g, leaves, k - 1);
      assert u[..k][..k - 1] == u[..k - 1];
      TermIs(f[k - 1], u[k - 1], l[k - 1], x[k - 1]);
      TermIs(f[k - 1], u[k - 1], 0, x[k - 1]);
      TimesAdd(f[k - 1], l[k - 1], x[k - 1]);
      NoTimes(l[k - 1] + x[k - 1]);
      NoTimes(x[k - 1]);
    }
  }

  /** The symbols that occur share no more than all symbols with a code. */
  lemma {:induction false} KraftCovers(w: seq<nat>, g: seq<nat>, leaves: set<nat>, k: nat)
    requires k <= |w| && k <= |g| && ValidLens(w) && forall i :: 0 <= i < k && i in leaves ==>
      w[i] > 0 && g[i] == Pow2(MAXBITS - w[i])
    ensures Optimal.Sum(leaves, g, k) <= Kraft(w[..k])
  {
    if k > 0 {
      KraftCovers(w, g, leaves, k - 1);
      assert w[..k][..k - 1] == w[..k - 1];
    }
  }

  /** The pairs that were merged, as far as the tree goes. */
  lemma GreedyTrim(f: seq<nat>, p: seq<nat>, leaves: set<nat>, elems: nat, ns: seq<nat>, ms: seq<nat>)
    requires Optimal.Greedy(f, p, leaves, elems, ns, ms)
    ensures Optimal.Greedy(f[..elems + |ns|], p, leaves, elems, ns, ms)
  {
    var g := f[..elems + |ns|];
    forall s | 0 <= s < |ns| ensures Optimal.GreedyAt(g, p, leaves, elems, ns, ms, s) {
      assert Optimal.GreedyAt(f, p, leaves, elems, ns, ms, s);
      Optimal.LiveInside(leaves, elems, ns, ms, s);
    }
  }

  lemma SonsOf(elems: nat, t: nat, s: nat)
    requires s < t
    ensures Father(elems, t, 2 * t - 2 * s) == elems + s && Father(elems, t, 2 * t - 2 * s - 1) == elems + s
  {
  }

  lemma DepthAt(nodes: seq<nat>, dl: seq<nat>, elems: nat, t: nat, q: nat)
    requires Depths(nodes, dl, elems, t, 2 * t + 1) && 1 <= q <= 2 * t
    ensures nodes[q] < |dl| && Father(elems, t, q) < elems + t <= |dl| && dl[nodes[q]] == dl[Father(elems, t, q)] + 1
  {
  }

  lemma DeeperIs(nodes: seq<nat>, dl: seq<nat>, f: seq<nat>, p: seq<nat>, elems: nat, t: nat, leaves: set<nat>,
        ns: seq<nat>, ms: seq<nat>)
    requires Merged(nodes, f, p, elems, t, leaves, ns, ms) && Depths(nodes, dl, elems, t, 2 * t + 1)
    requires forall q :: 0 <= q < |nodes| ==> nodes[q] < elems + t
    ensures elems + t <= |dl| && Optimal.Deeper(dl[..elems + t], elems, ns, ms)
  {
    hide Optimal.Live, Optimal.Greedy, Optimal.Sum, Father, Depths;
    DepthsSize(nodes, dl, elems, t);
    var l := dl[..elems + t];
    forall s | 0 <= s < t ensures ns[s] < |l| && ms[s] < |l| && l[ns[s]] == l[elems + s] + 1 &&
        l[ms[s]] == l[elems + s] + 1 {
      SonsOf(elems, t, s);
      DepthAt(nodes, dl, elems, t, 2 * t - 2 * s);
      DepthAt(nodes, dl, elems, t, 2 * t - 2 * s - 1);
    }
  }

  /** What is known of a tree when the frequencies have not wrapped around. */
  ghost predicate Grown(nodes: seq<nat>, f: seq<nat>, p: seq<nat>, elems: nat, t: nat, leaves: set<nat>, ns: seq<nat>,
        ms: seq<nat>) {
    && Merged(nodes, f, p, elems, t, leaves, ns, ms) && t >= 1 && elems + t <= |f| && leaves == Leaves(f, elems)
    && (forall q :: 0 <= q < |nodes| ==> nodes[q] < elems + t) && nodes[0] == elems + t - 1
    && Optimal.Sum(leaves, f, elems) < 65536
  }

  /** The price of the tree, against that of any code. */
  lemma TreeLeast(nodes: seq<nat>, dl: seq<nat>, f: seq<nat>, p: seq<nat>, elems: nat, t: nat, leaves: set<nat>,
        ns: seq<nat>, ms: seq<nat>, w: seq<nat>, top: nat)
    requires Grown(nodes, f, p, elems, t, leaves, ns, ms) && Depths(nodes, dl, elems, t, 2 * t + 1)
    requires AnyCode(w, f, elems, top)
    ensures elems + t <= |dl|
    ensures var g := f[..elems + t];
            Optimal.Price(leaves, g, dl[..elems + t]) <= Optimal.Price(leaves, g, w + Zeros(t))
  {
    hide Optimal.Greedy, Optimal.Live, Optimal.Deeper, Optimal.Code, Optimal.Price, AnyCode, Shallow.Occur;
    TreeIs(nodes, dl, f, p, elems, t, leaves, ns, ms);
    var g, l, l' := f[..elems + t], dl[..elems + t], w + Zeros(t);
    RootFree(g, l, elems + t - 1);
    Optimal.TreePrice(g, p, leaves, elems, ns, ms, 0, l);
    NoneMerged(leaves, elems, ns, ms);
    IsCode(w, f, elems, t, top);
    Optimal.NoCheaper(g, p, leaves, elems, ns, ms, 0, l', top, 0);
  }

  lemma TreeIs(nodes: seq<nat>, dl: seq<nat>, f: seq<nat>, p: seq<nat>, elems: nat, t: nat, leaves: set<nat>,
        ns: seq<nat>, ms: seq<nat>)
    requires Grown(nodes, f, p, elems, t, leaves, ns, ms) && Depths(nodes, dl, elems, t, 2 * t + 1)
    ensures elems + t <= |dl| && |ns| == |ms| == t && Optimal.Live(leaves, elems, ns, ms, t) == {elems + t - 1}
    ensures Optimal.Greedy(f[..elems + t], p, leaves, elems, ns, ms)
    ensures Optimal.Deeper(dl[..elems + t], elems, ns, ms) && dl[elems + t - 1] == 0
  {
    hide Optimal.Greedy, Optimal.Live, Optimal.Deeper, Shallow.Occur;
    GreedyTrim(f, p, leaves, elems, ns, ms);
    DeeperIs(nodes, dl, f, p, elems, t, leaves, ns, ms);
  }

  lemma IsCode(w: seq<nat>, f: seq<nat>, elems: nat, t: nat, top: nat)
    requires AnyCode(w, f, elems, top)
    ensures |w| == elems && Optimal.Code(Leaves(f, elems), w + Zeros(t), top)
  {
    hide Optimal.Sum, Optimal.Share;
    var l', leaves := w + Zeros(t), Leaves(f, elems);
    SumCut(leaves, Optimal.Shares(l', top), elems, elems + t);
    Optimal.SumSame(leaves, leaves, Optimal.Shares(w, top), Optimal.Shares(l', top), elems);
  }

  lemma NoneMerged(leaves: set<nat>, elems: nat, ns: seq<nat>, ms: seq<nat>)
    ensures Optimal.Live(leaves, elems, ns, ms, 0) == leaves
  {
  }

  lemma RootFree(f: seq<nat>, l: seq<nat>, root: nat)
    requires |f| == |l| && root < |l| && l[root] == 0
    ensures Optimal.Price({root}, f, l) == 0
  {
    hide Optimal.Sum;
    Optimal.SumIn({}, Optimal.Prods(f, l), |l|, root);
    NothingSums(Optimal.Prods(f, l), |l|);
    assert {} + {root} == {root};
  }

  lemma {:induction false} NothingSums(g: seq<nat>, n: nat)
    requires n <= |g|
    ensures Optimal.Sum({}, g, n) == 0
  {
    if n > 0 {
      NothingSums(g, n - 1);
    }
  }

  /** What two codes for the symbols cost, compared. */
  lemma Priced(f: seq<nat>, v: seq<nat>, w: seq<nat>, d: Desc, g: seq<nat>, l: seq<nat>, leaves: set<nat>)
    requires d.Ok() && |v| == |w| == d.elems <= |f| && d.elems <= |g| == |l| && Optimal.Inside(leaves, d.elems)
    requires forall n :: 0 <= n < d.elems ==> (n in leaves ==> v[n] > 0) && (f[n] != 0 ==> n in leaves)
    requires forall n :: 0 <= n < d.elems ==> l[n] == w[n] && g[n] == f[n]
    ensures Weighted(f, v, w, d.Extras()) ==
            Optimal.Price(leaves, g, l) + Weighted(f, v, Zeros(d.elems), d.Extras())
  {
    hide Times, Optimal.Sum, Weighted;
    var e := d.elems;
    SumCut(leaves, Optimal.Prods(g, l), e, |l|);
    WeightedPrice(f, v, w, d.Extras(), Optimal.Prods(g, l), leaves, e);
    assert v[..e] == v;
  }

  /** Unless lengths were cut or frequencies wrapped, the code is as good as any. */
  lemma LeastCode(nodes: seq<nat>, dl: seq<nat>, f: seq<nat>, p: seq<nat>, d: Desc, t: nat, leaves: set<nat>,
        ns: seq<nat>, ms: seq<nat>, v: seq<nat>)
    requires d.Ok() && Grown(nodes, f, p, d.elems, t, leaves, ns, ms) && Depths(nodes, dl, d.elems, t, 2 * t + 1)
    requires Lengths(v, d.elems, d.max, leaves) && d.elems <= |dl| && dl[..d.elems] == v
    ensures Least(f, v, d)
  {
    hide Grown, Depths, Kraft, Lengths, Times, Optimal.Sum, Optimal.Price, Optimal.Code, Weighted, Pow2;
    var x, e, n := d.Extras(), d.elems, d.elems + t;
    DepthsSize(nodes, dl, e, t);
    GrownLeaves(nodes, f, p, e, t, leaves, ns, ms);
    LengthsMask(v, e, d.max, leaves);
    var g, l := f[..n], dl[..n];
    forall w, top | AnyCode(w, f, e, top) ensures Weighted(f, v, v, x) <= Weighted(f, v, w, x) {
      TreeLeast(nodes, dl, f, p, e, t, leaves, ns, ms, w, top);
      var l' := w + Zeros(t);
      forall i | 0 <= i < e ensures l[i] == v[i] && l'[i] == w[i] && g[i] == f[i] {
        assert dl[..e][i] == dl[i];
      }
      Priced(f, v, v, d, g, l, leaves);
      Priced(f, v, w, d, g, l', leaves);
    }
  }

  lemma GrownLeaves(nodes: seq<nat>, f: seq<nat>, p: seq<nat>, elems: nat, t: nat, leaves: set<nat>, ns: seq<nat>,
        ms: seq<nat>)
    requires Grown(nodes, f, p, elems, t, leaves, ns, ms)
    ensures elems + t <= |f| && leaves == Leaves(f, elems)
  {
  }

  // ---------- when the limit is no hindrance ----------

  /** If the root is not too high, no leaf lies too deep. */
  lemma HeightLow(nodes: seq<nat>, f: seq<nat>, p: seq<nat>, elems: nat, t: nat, leaves: set<nat>, ns: seq<nat>,
        ms: seq<nat>, max: nat)
    requires Grown(nodes, f, p, elems, t, leaves, ns, ms)
    ensures elems + t <= |p| && (p[elems + t - 1] <= max ==> NoneDeep(nodes, elems, t, max))
  {
    hide Optimal.Live, Optimal.Sum, Father, Optimal.Lightest;
    if p[elems + t - 1] <= max {
      forall q | 1 <= q <= 2 * t ensures nodes[q] < |p| && Father(elems, t, q) < |p| &&
          p[nodes[q]] < p[Father(elems, t, q)] {
        var s := t - (q + 1) / 2;
        SonsOf(elems, t, s);
        assert Optimal.GreedyAt(f, p, leaves, elems, ns, ms, s);
        Optimal.LightestIn(Optimal.Live(leaves, elems, ns, ms, s), f, p, ns[s], ms[s]);
      }
      assert Lower(nodes, p, elems, t, max);
    }
  }

  /** Symbols that are few enough make no high tree. */
  lemma FewLow(nodes: seq<nat>, f: seq<nat>, p: seq<nat>, elems: nat, t: nat, leaves: set<nat>, ns: seq<nat>,
        ms: seq<nat>, max: nat)
    requires Grown(nodes, f, p, elems, t, leaves, ns, ms)
    requires Optimal.Sum(leaves, f, elems) < Shallow.Fibonacci(max + 1)
    ensures NoneDeep(nodes, elems, t, max)
  {
    hide Optimal.Live, Optimal.Sum, Optimal.Greedy, NoneDeep, Shallow.Fibonacci, Shallow.Occur;
    var root := elems + t - 1;
    Shallow.Heavy(f, p, leaves, elems, ns, ms, t, root);
    if p[root] > max {
      Shallow.FibonacciMono(max + 1, p[root]);
    }
    HeightLow(nodes, f, p, elems, t, leaves, ns, ms, max);
  }

  /** The depths of the nodes, whatever their number. */
  lemma TreeDepths(nodes: seq<nat>, dl0: seq<nat>, elems: nat, t: nat, leaves: set<nat>, i: nat) returns (dl: seq<nat>)
    requires Built(nodes, dl0, elems, t, leaves) && i <= 2 * t
    ensures |dl| == |dl0| && Depths(nodes, dl, elems, t, i + 1)
  {
    hide Built, Depths;
    BuiltRoot(nodes, dl0, elems, t, leaves);
    if i == 0 {
      DepthsStart(nodes, dl0, elems, t, leaves);
      dl := dl0[nodes[0] := 0];
    } else {
      var u := TreeDepths(nodes, dl0, elems, t, leaves, i - 1);
      DepthsAre(nodes, u, elems, t, i);
      DepthsNext(nodes, dl0, u, elems, t, leaves, i);
      dl := u[nodes[i] := u[Father(elems, t, i)] + 1];
    }
  }

  lemma DepthsAre(nodes: seq<nat>, dl: seq<nat>, elems: nat, t: nat, i: nat)
    requires Depths(nodes, dl, elems, t, i) && 1 <= i <= 2 * t
    ensures nodes[i] < |dl| && Father(elems, t, i) < |dl|
  {
  }

  /** If some code of at most max bits is as good as any, the tree is no higher than max. */
  lemma AttainedHeight(f: seq<nat>, p: seq<nat>, d: Desc, t: nat, leaves: set<nat>, ns: seq<nat>, ms: seq<nat>,
        dl: seq<nat>)
    requires d.Ok() && t >= 1 && d.elems + t <= |f| && d.elems + t <= |dl| && |ns| == |ms| == t
    requires leaves == Leaves(f, d.elems) && Attainable(f, d)
    requires Optimal.Greedy(f[..d.elems + t], p, leaves, d.elems, ns, ms)
    requires Optimal.Live(leaves, d.elems, ns, ms, t) == {d.elems + t - 1}
    requires Optimal.Deeper(dl[..d.elems + t], d.elems, ns, ms) && dl[d.elems + t - 1] == 0
    requires forall n :: n in leaves ==> dl[n] > 0
    ensures d.elems + t <= |p| && p[d.elems + t - 1] <= d.max
  {
    hide Least, AnyCode, Optimal.GreedyAt, Optimal.Live, Optimal.Deeper, Optimal.Code, Optimal.Price, Optimal.Within;
    var w :| AnyCode(w, f, d.elems, d.max) && Least(f, w, d);
    var e, n := d.elems, d.elems + t;
    var g, l, l' := f[..n], dl[..n], w + Zeros(t);
    RootFree(g, l, n - 1);
    Optimal.TreePrice(g, p, leaves, e, ns, ms, 0, l);
    NoneMerged(leaves, e, ns, ms);
    IsCode(w, f, e, t, d.max);
    NoDearer(f, p, w, d, t, leaves, ns, ms, dl);
    LeavesWithin(w, f, p, e, t, d.max, leaves, ns, ms);
    Optimal.NoCheaper(g, p, leaves, e, ns, ms, 0, l', d.max, d.max);
  }

  /** And then no leaf lies too deep. */
  lemma AttainedLow(nodes: seq<nat>, dl0: seq<nat>, f: seq<nat>, p: seq<nat>, d: Desc, t: nat, leaves: set<nat>,
        ns: seq<nat>, ms: seq<nat>)
    requires d.Ok() && Grown(nodes, f, p, d.elems, t, leaves, ns, ms) && Built(nodes, dl0, d.elems, t, leaves)
    requires Attainable(f, d)
    ensures NoneDeep(nodes, d.elems, t, d.max)
  {
    hide Grown, Built, NoneDeep, Depths, Attainable, Optimal.Greedy, Optimal.Live, Optimal.Deeper;
    var e := d.elems;
    BuiltRoot(nodes, dl0, e, t, leaves);
    var dl := TreeDepths(nodes, dl0, e, t, leaves, 2 * t);
    TreeIs(nodes, dl, f, p, e, t, leaves, ns, ms);
    GrownLeaves(nodes, f, p, e, t, leaves, ns, ms);
    HeightLow(nodes, f, p, e, t, leaves, ns, ms, d.max);
    LeavesDeep(nodes, dl0, dl, e, t, leaves);
    AttainedHeight(f, p, d, t, leaves, ns, ms, dl);
  }

  lemma LeavesDeep(nodes: seq<nat>, dl0: seq<nat>, dl: seq<nat>, elems: nat, t: nat, leaves: set<nat>)
    requires Built(nodes, dl0, elems, t, leaves) && Depths(nodes, dl, elems, t, 2 * t + 1)
    ensures forall n :: n in leaves ==> n < |dl| && dl[n] > 0
  {
    hide Built;
    BuiltIds(nodes, dl0, elems, t, leaves);
    BuiltRoot(nodes, dl0, elems, t, leaves);
    forall n | n in leaves ensures n < |dl| && dl[n] > 0 {
      BuiltSize(nodes, dl0, elems, t, leaves);
      var q :| 0 <= q < |nodes| && nodes[q] == n;
    }
  }

  lemma LeavesWithin(w: seq<nat>, f: seq<nat>, p: seq<nat>, elems: nat, t: nat, max: nat, leaves: set<nat>,
        ns: seq<nat>, ms: seq<nat>)
    requires AnyCode(w, f, elems, max) && leaves == Leaves(f, elems) && elems + t <= |f|
    requires Optimal.Greedy(f[..elems + t], p, leaves, elems, ns, ms)
    ensures |w| == elems && Optimal.Within(leaves, w + Zeros(t), p, max)
  {
    hide Optimal.Sum, Optimal.GreedyAt;
  }

  /** A code as good as any costs no more than the tree. */
  lemma NoDearer(f: seq<nat>, p: seq<nat>, w: seq<nat>, d: Desc, t: nat, leaves: set<nat>, ns: seq<nat>, ms: seq<nat>,
        dl: seq<nat>)
    requires d.Ok() && AnyCode(w, f, d.elems, d.max) && Least(f, w, d) && leaves == Leaves(f, d.elems)
    requires t >= 1 && d.elems + t <= |f| && d.elems + t <= |dl| && |ns| == |ms| == t
    requires Optimal.Greedy(f[..d.elems + t], p, leaves, d.elems, ns, ms)
    requires Optimal.Live(leaves, d.elems, ns, ms, t) == {d.elems + t - 1}
    requires Optimal.Deeper(dl[..d.elems + t], d.elems, ns, ms) && dl[d.elems + t - 1] == 0
    requires forall n :: n in leaves ==> dl[n] > 0
    ensures var g := f[..d.elems + t];
            Optimal.Price(leaves, g, w + Zeros(t)) <= Optimal.Price(leaves, g, dl[..d.elems + t])
  {
    hide Optimal.GreedyAt, Optimal.Live, Optimal.Deeper, Optimal.Price, Optimal.Sum, Weighted;
    var e, n := d.elems, d.elems + t;
    var g, l, l', z := f[..n], dl[..n], w + Zeros(t), dl[..e];
    Shallow.TreeCode(g, p, leaves, e, ns, ms, 0, l, n - 1);
    NoneMerged(leaves, e, ns, ms);
    CodeCut(leaves, l, p[n - 1], e);
    assert l[..e] == z;
    assert AnyCode(z, f, e, p[n - 1]);
    Priced(f, w, w, d, g, l', leaves);
    Priced(f, w, z, d, g, l, leaves);
  }

  lemma CodeCut(leaves: set<nat>, l: seq<nat>, top: nat, k: nat)
    requires Optimal.Code(leaves, l, top) && Optimal.Inside(leaves, k) && k <= |l|
    ensures Optimal.Code(leaves, l[..k], top)
  {
    hide Optimal.Sum, Optimal.Share, Pow2;
    SumCut(leaves, Optimal.Shares(l, top), k, |l|);
    Optimal.SumSame(leaves, leaves, Optimal.Shares(l, top), Optimal.Shares(l[..k], top), k);
  }

  lemma DepthsSize(nodes: seq<nat>, dl: seq<nat>, elems: nat, t: nat)
    requires Depths(nodes, dl, elems, t, 2 * t + 1)
    ensures elems + t <= |dl|
  {
  }

  lemma LengthsMask(v: seq<nat>, elems: nat, max: nat, leaves: set<nat>)
    requires Lengths(v, elems, max, leaves)
    ensures |v| == elems && forall n :: 0 <= n < elems ==> (v[n] > 0 <==> n in leaves)
  {
  }

  /** One bit for every symbol that occurs is as good as any code. */
  lemma {:induction false} OneBitLeast(f: seq<nat>, v: seq<nat>, w: seq<nat>, x: seq<nat>, k: nat)
    requires Fit(f, v, v, x) && Fit(f, v, w, x) && k <= |v| && forall n :: 0 <= n < k && f[n] != 0 ==>
      v[n] <= 1 && w[n] > 0
    ensures Weighted(f, v[..k], v, x) <= Weighted(f, v[..k], w, x)
  {
    hide Times;
    if k > 0 {
      OneBitLeast(f, v, w, x, k - 1);
      assert v[..k][..k - 1] == v[..k - 1];
      TermIs(f[k - 1], v[k - 1], v[k - 1], x[k - 1]);
      TermIs(f[k - 1], v[k - 1], w[k - 1], x[k - 1]);
      if f[k - 1] != 0 {
        Optimal.TimesMono(f[k - 1], v[k - 1] + x[k - 1], w[k - 1] + x[k - 1]);
      } else {
        NoTimes(v[k - 1] + x[k - 1]);
        NoTimes(w[k - 1] + x[k - 1]);
      }
    }
  }

  lemma NoTimes(a: nat)
    ensures Times(0, a) == 0
  {
  }

  /** A code for two symbols, one of which may have been made to occur. */
  lemma TwoLeast(f: seq<nat>, v: seq<nat>, d: Desc, leaves: set<nat>)
    requires d.Ok() && |f| >= d.elems && Lengths(v, d.elems, d.max, leaves) && |leaves| == 2 &&
             (forall n :: n in leaves ==> n < d.elems)
    requires forall n :: 0 <= n < d.elems && f[n] != 0 ==> n in leaves
    ensures Least(f, v, d)
  {
    hide Lengths, Weighted, Kraft, Pow2;
    TwoAlone(v, d.elems, d.max, leaves);
    LengthsMask(v, d.elems, d.max, leaves);
    forall w, top | AnyCode(w, f, d.elems, top) ensures Weighted(f, v, v, d.Extras()) <=
        Weighted(f, v, w, d.Extras()) {
      OneBitLeast(f, v, w, d.Extras(), d.elems);
      assert v[..d.elems] == v;
    }
  }

  /** The frequencies the tree is built from are the given ones, if none was made up. */
  lemma LeastSame(f: seq<nat>, g: seq<nat>, v: seq<nat>, d: Desc)
    requires Least(g, v, d) && |f| >= d.elems && f[..d.elems] == g[..d.elems]
    ensures Least(f, v, d)
  {
    hide Kraft, Pow2, Weighted;
    forall i | 0 <= i < d.elems ensures f[i] == g[i] {
      assert f[..d.elems][i] == g[..d.elems][i];
    }
    SameLeaves(f, g, d.elems);
    forall w, top | AnyCode(w, f, d.elems, top) ensures Weighted(f, v, v, d.Extras()) <=
        Weighted(f, v, w, d.Extras()) {
      assert AnyCode(w, g, d.elems, top);
      Same(g, v, v, f, v, d.Extras());
      Same(g, v, w, f, w, d.Extras());
    }
  }

  lemma NothingForced(f: seq<nat>)
    ensures Force(f, []) == f
  {
  }

  // ---------- more frequent, no longer ----------

  /** A symbol that occurs more often than another has no longer code. */
  ghost predicate Ordered(f: seq<nat>, v: seq<nat>) {
    |v| <= |f| && forall a, b :: 0 <= a < |v| && 0 <= b < |v| && f[a] > f[b] && v[b] > 0 ==> v[a] <= v[b]
  }

  function Weight(l: nat): nat
    requires l <= MAXBITS
  {
    if l == 0 then 0 else Pow2(MAXBITS - l)
  }

  lemma {:induction false} KraftPoint(v: seq<nat>, n: nat, x: nat)
    requires ValidLens(v) && n < |v| && x <= MAXBITS
    ensures ValidLens(v[n := x]) && Kraft(v[n := x]) + Weight(v[n]) == Kraft(v) + Weight(x)
    decreases |v|
  {
    hide Pow2;
    var k := |v| - 1;
    if n == k {
      assert v[n := x][..k] == v[..k];
    } else {
      KraftPoint(v[..k], n, x);
      assert v[n := x][..k] == v[..k][n := x];
    }
  }

  /** Two symbols exchange their lengths. */
  function Exchanged(v: seq<nat>, a: nat, b: nat): (w: seq<nat>)
    requires a < |v| && b < |v|
    ensures |w| == |v|
  {
    v[a := v[b]][b := v[a]]
  }

  lemma ExchangedKraft(v: seq<nat>, a: nat, b: nat)
    requires ValidLens(v) && a < |v| && b < |v| && a != b
    ensures ValidLens(Exchanged(v, a, b)) && Kraft(Exchanged(v, a, b)) == Kraft(v)
  {
    hide Kraft, Weight;
    KraftPoint(v, a, v[b]);
    KraftPoint(v[a := v[b]], b, v[a]);
  }

  lemma ExchangedCost(f: seq<nat>, v: seq<nat>, x: seq<nat>, a: nat, b: nat)
    requires |v| <= |f| && |v| <= |x| && a < |v| && b < |v| && f[a] > f[b] && v[a] > v[b] > 0
    ensures Weighted(f, v, Exchanged(v, a, b), x) < Weighted(f, v, v, x)
  {
    hide Weighted;
    var u := v[a := v[b]];
    Point(f, v, v, f, v, u, x, a);
    Point(f, v, u, f, v, Exchanged(v, a, b), x, b);
    Gain(f[a], f[b], v[a], v[b], x[a], x[b]);
  }

  lemma Gain(fa: nat, fb: nat, la: nat, lb: nat, xa: nat, xb: nat)
    requires fa > fb && la > lb
    ensures fa * (lb + xa) + fb * (la + xb) < fa * (la + xa) + fb * (lb + xb)
  {
    var d, e := fa - fb, la - lb;
    assert fa * (la + xa) == fa * (lb + xa) + fa * e;
    assert fb * (la + xb) == fb * (lb + xb) + fb * e;
    assert fa * e == fb * e + d * e;
    assert d * e > 0;
  }

  /** In a code that no other beats they do not gain by it. */
  lemma LeastOrdered(f: seq<nat>, v: seq<nat>, d: Desc, leaves: set<nat>)
    requires Least(f, v, d) && Lengths(v, d.elems, d.max, leaves) && Leaves(f, d.elems) <= leaves
    ensures Ordered(f, v)
  {
    hide Kraft, Weighted, Optimal.Code, Leaves, Exchanged, Pow2;
    LeavesAre(f, d.elems);
    forall a, b | 0 <= a < |v| && 0 <= b < |v| && f[a] > f[b] && v[b] > 0 ensures v[a] <= v[b] {
      if v[a] > v[b] {
        ExchangedKraft(v, a, b);
        var w := Exchanged(v, a, b);
        ExchangedLens(v, a, b);
        forall n | n in Leaves(f, d.elems) ensures n < |w| && 0 < w[n] <= MAXBITS {
          assert n in leaves && n < d.elems;
        }
        KraftCode(w, Leaves(f, d.elems), MAXBITS);
        assert AnyCode(w, f, d.elems, MAXBITS);
        ExtrasSize(d);
        ExchangedCost(f, v, d.Extras(), a, b);
      }
    }
  }

  lemma ExtrasSize(d: Desc)
    requires d.Ok()
    ensures |d.Extras()| == d.elems
  {
  }

  lemma ExchangedLens(v: seq<nat>, a: nat, b: nat)
    requires a < |v| && b < |v| && v[a] > 0 && v[b] > 0
    ensures forall n :: 0 <= n < |v| ==> (Exchanged(v, a, b)[n] > 0 <==> v[n] > 0)
  {
  }

  lemma OrderedSame(f: seq<nat>, g: seq<nat>, v: seq<nat>, elems: nat)
    requires Ordered(g, v) && |v| == elems <= |f| && forall i :: 0 <= i < elems ==> f[i] == g[i]
    ensures Ordered(f, v)
  {
  }

  /** Nor if lengths are given out from the lightest on. */
  lemma GivenOrdered(nodes: seq<nat>, dl: seq<nat>, f: seq<nat>, p: seq<nat>, elems: nat, t: nat, leaves: set<nat>,
        ns: seq<nat>, ms: seq<nat>, v: seq<nat>, max: nat)
    requires Built(nodes, dl, elems, t, leaves) && Merged(nodes, f, p, elems, t, leaves, ns, ms)
    requires Optimal.Sum(leaves, f, elems) < 65536 && LongerLater(nodes, v, elems, 0, 0) &&
             Lengths(v, elems, max, leaves)
    requires elems <= |f| && forall n :: 0 <= n < elems && f[n] != 0 ==> n in leaves
    ensures Ordered(f, v)
  {
    hide Built, Merged, Optimal.Sum, Kraft, Pow2;
    BuiltIds(nodes, dl, elems, t, leaves);
    BuiltSize(nodes, dl, elems, t, leaves);
    BuiltRoot(nodes, dl, elems, t, leaves);
    forall a, b | 0 <= a < |v| && 0 <= b < |v| && f[a] > f[b] && v[b] > 0 ensures v[a] <= v[b] {
      var q :| 0 <= q < |nodes| && nodes[q] == a;
      var r :| 0 <= r < |nodes| && nodes[r] == b;
      if r <= q {
        ListFalls(nodes, f, p, elems, t, leaves, ns, ms, r, q);
      }
    }
  }

  /** The code is as good as any, for the frequencies given, just if one of at most max bits is. */
  lemma LeastGiven(nodes: seq<nat>, dl0: seq<nat>, dl: seq<nat>, f: seq<nat>, g: seq<nat>, p: seq<nat>,
        added: seq<nat>, d: Desc, t: nat, ns: seq<nat>, ms: seq<nat>, v: seq<nat>)
    requires d.Ok() && |f| >= d.elems && |g| >= 2 * d.elems && g[..d.elems] == Force(f, added)[..d.elems]
    requires Built(nodes, dl0, d.elems, t, Leaves(g, d.elems)) &&
             Merged(nodes, g, p, d.elems, t, Leaves(g, d.elems), ns, ms)
    requires if NoneDeep(nodes, d.elems, t, d.max) then Depths(nodes, dl, d.elems, t, 2 * t + 1)
             else LongerLater(nodes, v, d.elems, 0, 0)
    requires Lengths(v, d.elems, d.max, Leaves(g, d.elems)) && |dl| >= d.elems && dl[..d.elems] == v
    requires (added != [] ==> |Leaves(g, d.elems)| == 2) && Leaves(f, d.elems) <= Leaves(g, d.elems)
    requires Optimal.Sum(Leaves(f, d.elems), f, d.elems) < 65536
    ensures Least(f, v, d) <==> Attainable(f, d)
    ensures Optimal.Sum(Leaves(f, d.elems), f, d.elems) < Shallow.Fibonacci(d.max + 1) ==> Least(f, v, d)
    ensures Ordered(f, v)
  {
    hide Ordered, LongerLater, Lengths, Merged, Depths, Built, NoneDeep, Force, Optimal.Sum, Least, Attainable, Grown,
      Shallow.Fibonacci, Leaves;
    var leaves := Leaves(g, d.elems);
    if Least(f, v, d) {
      AttainedBy(f, v, d, leaves);
    }
    LeavesAre(f, d.elems);
    BuiltIds(nodes, dl0, d.elems, t, leaves);
    BuiltSize(nodes, dl0, d.elems, t, leaves);
    if added != [] {
      TwoLeast(f, v, d, leaves);
      AttainedBy(f, v, d, leaves);
      LeastOrdered(f, v, d, leaves);
    } else {
      NothingForced(f);
      SameLeaves(f, g, d.elems);
      forall i | 0 <= i < d.elems ensures f[i] == g[i] {
        assert f[..d.elems][i] == g[..d.elems][i];
      }
      Optimal.SumSame(leaves, leaves, f, g, d.elems);
      IsGrown(nodes, dl0, g, p, d.elems, t, leaves, ns, ms);
      if Attainable(f, d) {
        AttainableSame(f, g, d);
        AttainedLow(nodes, dl0, g, p, d, t, leaves, ns, ms);
      }
      if Optimal.Sum(leaves, g, d.elems) < Shallow.Fibonacci(d.max + 1) {
        FewLow(nodes, g, p, d.elems, t, leaves, ns, ms, d.max);
      }
      if NoneDeep(nodes, d.elems, t, d.max) {
        LeastCode(nodes, dl, g, p, d, t, leaves, ns, ms, v);
        LeastSame(f, g, v, d);
        LeastOrdered(f, v, d, leaves);
      } else {
        LeavesAre(g, d.elems);
        GivenOrdered(nodes, dl0, g, p, d.elems, t, leaves, ns, ms, v, d.max);
        OrderedSame(f, g, v, d.elems);
      }
    }
  }

  lemma IsGrown(nodes: seq<nat>, dl0: seq<nat>, f: seq<nat>, p: seq<nat>, elems: nat, t: nat, leaves: set<nat>,
        ns: seq<nat>, ms: seq<nat>)
    requires Built(nodes, dl0, elems, t, leaves) && Merged(nodes, f, p, elems, t, leaves, ns, ms)
    requires leaves == Leaves(f, elems) && Optimal.Sum(leaves, f, elems) < 65536
    ensures Grown(nodes, f, p, elems, t, leaves, ns, ms)
  {
    hide Built, Optimal.Greedy, Optimal.Live, Optimal.Sum, Shallow.Occur;
    BuiltIds(nodes, dl0, elems, t, leaves);
    BuiltRoot(nodes, dl0, elems, t, leaves);
  }

  /** The code that was made is one of at most max bits. */
  lemma AttainedBy(f: seq<nat>, v: seq<nat>, d: Desc, leaves: set<nat>)
    requires d.Ok() && d.elems <= |f| && Lengths(v, d.elems, d.max, leaves) && Leaves(f, d.elems) <= leaves
    ensures Least(f, v, d) ==> Attainable(f, d)
  {
    hide Kraft, Least, Optimal.Code;
    DescMax(d);
    KraftCode(v, Leaves(f, d.elems), d.max);
    assert AnyCode(v, f, d.elems, d.max);
  }

  /** Lengths that satisfy Kraft's inequality are a prefix code. */
  lemma KraftCode(w: seq<nat>, leaves: set<nat>, top: nat)
    requires ValidLens(w) && Kraft(w) <= Pow2(MAXBITS) && top <= MAXBITS
    requires forall n :: n in leaves ==> n < |w| && 0 < w[n] <= top
    ensures Optimal.Code(leaves, w, top)
  {
    hide Kraft, Pow2, Optimal.Sum, Shl, ValidLens;
    KraftCovers(w, Optimal.Shares(w, MAXBITS), leaves, |w|);
    assert w[..|w|] == w;
    Optimal.SharesUp(leaves, w, top, MAXBITS, |w|);
    Unscaled(Optimal.Sum(leaves, Optimal.Shares(w, top), |w|), top);
  }

  lemma Unscaled(q: nat, top: nat)
    requires top <= MAXBITS && Shl(q, MAXBITS - top) <= Pow2(MAXBITS)
    ensures q <= Pow2(top)
  {
    hide Pow2, Shl;
    ShlPow2(top, MAXBITS - top);
    ShlAdd(Pow2(top), 1, MAXBITS - top);
    Optimal.ShlOne(MAXBITS - top);
    PowPositive(MAXBITS - top);
    if q > Pow2(top) {
      ShlMono(Pow2(top) + 1, q, MAXBITS - top);
    }
  }

  lemma AttainableSame(f: seq<nat>, g: seq<nat>, d: Desc)
    requires Attainable(f, d) && |f| >= d.elems && |g| >= d.elems && f[..d.elems] == g[..d.elems]
    ensures Attainable(g, d)
  {
    hide Optimal.Code, Least;
    var w :| AnyCode(w, f, d.elems, d.max) && Least(f, w, d);
    SameLeaves(f, g, d.elems);
    LeastSame(g, f, w, d);
    assert AnyCode(w, g, d.elems, d.max);
  }

  lemma BuiltRoot(nodes: seq<nat>, dl: seq<nat>, elems: nat, t: nat, leaves: set<nat>)
    requires Built(nodes, dl, elems, t, leaves)
    ensures t >= 1 && t < elems && |nodes| == 2 * t + 1 && nodes[0] == elems + t - 1
  {
  }

  /**
   build_tree: a complete code of at most max bits for all symbols that occur; full is lens and the
   zero lengths after it.  opt and stat grow by what the symbols cost with it and with the static code.  The
   code is as good as any prefix code just if one of at most max bits is; and always if the symbols are few.
   */
  method BuildTree(freq: array<nat>, d: Desc, opt0: int, stat0: int)
      returns (lens: seq<nat>, codes: seq<nat>, full: seq<nat>, opt: int, stat: int)
    requires d.Ok() && Plain(d) && 2 * d.elems < HEAP_SIZE && freq.Length >= 2 * d.elems && 2 * d.elems <= Pow2(d.max)
    modifies freq
    ensures 2 <= |lens| <= d.elems && ValidLens(lens) && Kraft(lens) == Pow2(MAXBITS) && Trees.CodesOk(lens, codes)
    ensures forall n :: 0 <= n < |lens| ==> lens[n] <= d.max
    ensures forall n :: 0 <= n < d.elems && old(freq[n]) != 0 ==> n < |lens| && lens[n] > 0
    ensures lens[|lens| - 1] > 0 && |full| == d.elems && lens <= full && ZerosFrom(full, |lens|)
    ensures Costs(old(freq[..]), full, d, opt - opt0, stat - stat0)
    ensures var f := old(freq[..]);
            var total := Optimal.Sum(Leaves(f, d.elems), f, d.elems);
            && (total < 65536 ==> (Least(f, full, d) <==> Attainable(f, d)))
            && (total < 65536 && total < Shallow.Fibonacci(d.max + 1) ==> Least(f, full, d))
            && (total < 65536 ==> Ordered(f, full))
  {
    hide Ordered, LongerLater, Built, Counts, Kraft, Trees.CodesOk, Pow2, Leaves, Costs, Desc.Ok, Plain, Free, Force,
      Merged, Depths, NoneDeep, Least, Attainable, Optimal.Sum, Shallow.Fibonacci, Lengths, ZerosFrom, ValidLens,
      Largest;
    PlainSize(d);
    var elems := d.elems;
    ghost var ns, ms, p;
    var heap, dl, t, maxCode, forcedOpt, forcedStat;
    ghost var added;
    heap, dl, t, maxCode, forcedOpt, forcedStat, added, ns, ms, p := BuildNodes(freq, elems, d.statics);
    ghost var leaves := Leaves(freq[..], elems);
    BuiltSize(heap[HEAP_SIZE - 2 * t - 1..], dl[..], elems, t, leaves);
    ghost var nodes, dl0 := heap[HEAP_SIZE - 2 * t - 1..], dl[..];
    var blCount, o, s := GenBitlen(heap, dl, freq, d, t, maxCode, leaves);
    ghost var v := dl[..elems];
    UpToLast(v, elems, d.max, leaves, maxCode, blCount[..]);
    lens, full := dl[..maxCode + 1], dl[..elems];
    opt, stat := opt0 + forcedOpt + o, stat0 + forcedStat + s;
    NotCounted(old(freq[..]), freq[..], added, v, d, leaves, o, s);
    assert lens == v[..maxCode + 1];
    LeavesAre(old(freq[..]), elems);
    codes := Trees.GenCodes(lens, blCount[..]);
    if Optimal.Sum(Leaves(old(freq[..]), elems), old(freq[..]), elems) < 65536 {
      LeastGiven(nodes, dl0, dl[..], old(freq[..]), freq[..], p, added, d, t, ns, ms, v);
    }
  }

  /** The lengths up to that of the last symbol are a code, and there is none after. */
  lemma UpToLast(v: seq<nat>, elems: nat, max: nat, leaves: set<nat>, maxCode: nat, bl: seq<nat>)
    requires Lengths(v, elems, max, leaves) && Largest(leaves, maxCode) && Counts(bl, v) &&
             forall n :: n in leaves ==> n < elems
    ensures maxCode < elems == |v| && ZerosFrom(v, maxCode + 1)
    ensures var lens := v[..maxCode + 1];
            && ValidLens(lens) && Kraft(lens) == Pow2(MAXBITS) && lens[maxCode] > 0
            && (forall n :: 0 <= n < |lens| ==> lens[n] <= max)
            && (forall n :: n in leaves ==> n < |lens| && lens[n] > 0)
            && |bl| == 16 && bl[0] == 0 && forall l :: 1 <= l <= 15 ==> bl[l] == Count(lens, l)
  {
    hide Counts, Kraft, Pow2, Count;
    Trimmed(v, maxCode + 1);
    TrimmedCounts(bl, v, maxCode + 1);
  }

  lemma PlainSize(d: Desc)
    requires d.Ok() && Plain(d)
    ensures 3 <= d.elems && (d.statics == [] || |d.statics| >= d.elems)
  {
  }

  lemma TrimmedCounts(bl: seq<nat>, v: seq<nat>, k: nat)
    requires Counts(bl, v) && k <= |v| && forall l :: l >= 1 ==> Count(v[..k], l) == Count(v, l)
    ensures |bl| == 16 && bl[0] == 0 && forall l :: 1 <= l <= 15 ==> bl[l] == Count(v[..k], l)
  {
    hide Count;
  }

  lemma LeavesAre(f: seq<nat>, elems: nat)
    requires elems <= |f|
    ensures forall n :: n in Leaves(f, elems) <==> 0 <= n < elems && f[n] != 0
  {
  }

  /** Zero lengths at the end change no code. */
  lemma {:induction false} TrimmedNext(v: seq<nat>, k: nat, l: nat)
    requires ZerosFrom(v, k) && ValidLens(v)
    ensures NextCode(v[..k], l) == NextCode(v, l)
  {
    hide Count;
    if l > 0 {
      Trimmed(v, k);
      TrimmedNext(v, k, l - 1);
    }
  }

  lemma TrimmedCodes(v: seq<nat>, k: nat, codes: seq<nat>)
    requires ZerosFrom(v, k) && ValidLens(v) && Trees.CodesOk(v[..k], codes)
    ensures Trees.CodesOk(v, codes + Zeros(|v| - k))
  {
    hide Count, NextCode;
    var all := codes + Zeros(|v| - k);
    forall n | 0 <= n < |v| && v[n] > 0 ensures all[n] == Trees.TF.Rev(CodeOf(v, n), v[n]) {
      TrimmedNext(v, k, v[n]);
      assert v[..k][..n] == v[..n] && v[..k][n] == v[n];
    }
  }
}
