/**
 gen_bitlen: code lengths from the tree, no longer than a limit, that make up a complete code.
 */
module BitLengths {
  import opened Bits
  import opened Canonical
  import opened HuffmanTree
  import opened Cost

  // ---------- descriptions of trees ----------

  /**
   static_tree_desc: static lengths (none for the code length code), extra bits from symbol base on, and the limits.
   */
  datatype Desc = Desc(statics: seq<nat>, extra: seq<nat>, base: nat, elems: nat, max: nat) {
    predicate Ok() {
      (statics == [] || |statics| >= elems) && base + |extra| >= elems && 1 <= max <= MAXBITS
    }

    function Extra(n: nat): nat
      requires Ok() && n < elems
    {
      if n >= base then extra[n - base] else 0
    }

    /** The extra bits of every symbol. */
    function Extras(): (x: seq<nat>)
      requires Ok()
      ensures |x| == elems && forall n :: 0 <= n < elems ==> x[n] == Extra(n)
    {
      seq(elems, n requires 0 <= n < elems => Extra(n))
    }
  }

  /** What the symbols cost at the lengths v. */
  ghost predicate Costs(f: seq<nat>, v: seq<nat>, d: Desc, opt: int, stat: int) {
    && d.Ok() && |v| == d.elems <= |f|
    && opt == Weighted(f, v, v, d.Extras())
    && stat == if d.statics == [] then 0 else Weighted(f, v, d.statics, d.Extras())
  }

  lemma NoCosts(f: seq<nat>, d: Desc)
    requires d.Ok() && d.elems <= |f|
    ensures Costs(f, Zeros(d.elems), d, 0, 0)
  {
    NoCodes(f, Zeros(d.elems), Zeros(d.elems), d.Extras());
    if d.statics != [] {
      NoCodes(f, Zeros(d.elems), d.statics, d.Extras());
    }
  }

  /** A length is given to a symbol, or changed. */
  lemma CostsPut(f: seq<nat>, v: seq<nat>, d: Desc, opt: int, stat: int, n: nat, bits: nat)
    requires Costs(f, v, d, opt, stat) && n < |v| && bits > 0
    ensures v[n] == 0 ==> Costs(f, v[n := bits], d, opt + Times(f[n], bits + d.Extra(n)),
                                stat + if d.statics == [] then 0 else Times(f[n], d.statics[n] + d.Extra(n)))
    ensures v[n] > 0 ==> Costs(f, v[n := bits], d, opt + Times(f[n], bits) - Times(f[n], v[n]), stat)
  {
    hide Times;
    var x, v' := d.Extras(), v[n := bits];
    Point(f, v, v, f, v', v', x, n);
    TermIs(f[n], v[n], v[n], x[n]);
    TermIs(f[n], bits, bits, x[n]);
    TimesAdd(f[n], bits, x[n]);
    TimesAdd(f[n], v[n], x[n]);
    if d.statics != [] {
      Point(f, v, d.statics, f, v', d.statics, x, n);
      TermIs(f[n], v[n], d.statics[n], x[n]);
      TermIs(f[n], bits, d.statics[n], x[n]);
    }
  }

  lemma TermIs(f: nat, u: nat, l: nat, x: nat)
    ensures Term(f, u, l, x) == if u > 0 then Times(f, l + x) else 0
  {
  }

  lemma TimesAdd(a: nat, b: nat, c: nat)
    ensures Times(a, b + c) == Times(a, b) + Times(a, c)
  {
  }

  // ---------- sums ----------

  function SumFrom(x: seq<nat>, k: nat): nat
    decreases |x| - k
  {
    if k >= |x| then 0 else x[k] + SumFrom(x, k + 1)
  }

  lemma {:induction false} SumPut(x: seq<nat>, k: nat, j: nat, v: nat)
    requires j < |x|
    ensures SumFrom(x[j := v], k) + (if j >= k then x[j] else 0) == SumFrom(x, k) + (if j >= k then v else 0)
    decreases |x| - k
  {
    if k < |x| {
      SumPut(x, k + 1, j, v);
    }
  }

  lemma {:induction false} KraftPut(v: seq<nat>, n: nat, b: nat)
    requires n < |v| && v[n] == 0 && 1 <= b <= MAXBITS && ValidLens(v)
    ensures ValidLens(v[n := b]) && Kraft(v[n := b]) == Kraft(v) + Pow2(MAXBITS - b)
    decreases |v|
  {
    hide Pow2;
    var m := |v| - 1;
    var v' := v[n := b];
    if n == m {
      assert v'[..m] == v[..m];
    } else {
      assert v'[..m] == v[..m][n := b];
      KraftPut(v[..m], n, b);
    }
  }

  lemma {:induction false} CountPut(v: seq<nat>, n: nat, b: nat, l: nat)
    requires n < |v|
    ensures Count(v[n := b], l) + (if v[n] == l then 1 else 0) == Count(v, l) + (if b == l then 1 else 0)
    decreases |v|
  {
    var m := |v| - 1;
    var v' := v[n := b];
    if n == m {
      assert v'[..m] == v[..m];
    } else {
      assert v'[..m] == v[..m][n := b];
      CountPut(v[..m], n, b, l);
    }
  }

  // ---------- the first pass ----------

  /** The weight of a son of a node of length len. */
  function SonWeight(len: nat, max: nat): nat
    requires max <= MAXBITS
  {
    Pow2(MAXBITS - if len + 1 > max then max else len + 1)
  }

  function Twice(b: bool): nat {
    if b then 2 else 0
  }

  /**
   Up to place i the nodes have their lengths, from there on their fathers; x is the weight of the sons of each inner
   node, and y marks those of greatest length.
   */
  ghost predicate Passed(nodes: seq<nat>, dl: seq<nat>, elems: nat, t: nat, max: nat, i: nat, x: seq<nat>,
        y: seq<nat>) {
    && 1 <= max <= MAXBITS && |nodes| == 2 * t + 1 && 1 <= i <= 2 * t + 1 && |x| == |y| == t
    && (forall q :: 0 <= q <= 2 * t ==> nodes[q] < |dl| && nodes[q] < elems + t)
    && (forall q :: 0 <= q < i ==> dl[nodes[q]] <= max)
    && (forall q :: 0 <= q < i && nodes[q] >= elems ==>
                      x[nodes[q] - elems] == 2 * SonWeight(dl[nodes[q]], max) &&
                          y[nodes[q] - elems] == Twice(dl[nodes[q]] == max))
    && (forall q :: i <= q <= 2 * t ==> dl[nodes[q]] == Father(elems, t, q))
    && (forall q :: i <= q <= 2 * t && nodes[q] >= elems ==> x[nodes[q] - elems] == 0 && y[nodes[q] - elems] == 0)
  }

  /** The pairs before place i, and half a pair. */
  function PairSum(x: seq<nat>, t: nat, i: nat): nat
    requires |x| == t && 1 <= i <= 2 * t + 1
  {
    var c := (i - 1) / 2;
    SumFrom(x, t - c) + if (i - 1) % 2 == 1 then x[t - 1 - c] / 2 else 0
  }

  /** One son more. */
  lemma PairNext(x: seq<nat>, t: nat, i: nat)
    requires |x| == t && 1 <= i <= 2 * t && x[t - 1 - (i - 1) / 2] % 2 == 0
    ensures PairSum(x, t, i + 1) == PairSum(x, t, i) + x[t - 1 - (i - 1) / 2] / 2
  {
  }

  lemma PairPut(x: seq<nat>, t: nat, i: nat, s: nat, v: nat)
    requires |x| == t && 1 <= i <= 2 * t + 1 && s < t && s < t - 1 - (i - 1) / 2
    ensures PairSum(x[s := v], t, i) == PairSum(x, t, i)
  {
    SumPut(x, t - (i - 1) / 2, s, v);
  }

  lemma PairAll(x: seq<nat>, t: nat)
    requires |x| == t
    ensures PairSum(x, t, 2 * t + 1) == SumFrom(x, 0)
  {
  }

  /** The weights so far: leaves, and sons yet to come, against what has been handed down from the root. */
  ghost predicate Balanced(v: seq<nat>, x: seq<nat>, y: seq<nat>, t: nat, max: nat, i: nat, over: nat) {
    && ValidLens(v) && 1 <= max <= MAXBITS && |x| == |y| == t && 1 <= i <= 2 * t + 1
    && 2 * Kraft(v) + 2 * SumFrom(x, 0) == 2 * PairSum(x, t, i) + 2 * Pow2(MAXBITS) + Shl(SumFrom(y, 0), MAXBITS - max)
    && over == PairSum(y, t, i)
    && 2 * Count(v, max) + SumFrom(y, 0) >= 2 * over + Twice(SumFrom(y, 0) > 0)
    && SumFrom(y, 0) % 2 == 0
  }

  function Zeros(n: nat): (z: seq<nat>)
    ensures |z| == n
  {
    seq(n, _ => 0)
  }

  lemma {:induction false} SumZeros(n: nat, k: nat)
    ensures SumFrom(Zeros(n), k) == 0
    decreases n - k
  {
    if k < n {
      SumZeros(n, k + 1);
    }
  }

  lemma {:induction false} NoLens(n: nat)
    ensures ValidLens(Zeros(n)) && Kraft(Zeros(n)) == 0 && forall l :: l >= 1 ==> Count(Zeros(n), l) == 0
  {
    if n > 0 {
      assert Zeros(n)[..n - 1] == Zeros(n - 1);
      NoLens(n - 1);
    }
  }

  lemma Doubled(n: nat)
    requires n > 0
    ensures Pow2(n) == 2 * Pow2(n - 1)
  {
  }

  /** The sons of a node weigh as much as the node, or more by the least weight if their length is cut. */
  lemma SonsWeigh(len: nat, max: nat)
    requires len <= max <= MAXBITS
    ensures 2 * SonWeight(len, max) == Pow2(MAXBITS - len) + if len == max then Pow2(MAXBITS - max) else 0
  {
    hide Pow2;
    if len < max {
      Doubled(MAXBITS - len);
    }
  }

  lemma RootBalanced(elems: nat, t: nat, max: nat)
    requires t >= 1 && 1 <= max <= MAXBITS
    ensures var x, y := Zeros(t)[t - 1 := 2 * SonWeight(0, max)], Zeros(t);
            Balanced(Zeros(elems), x, y, t, max, 1, 0)
  {
    hide Pow2, Kraft, Count;
    NoLens(elems);
    SumZeros(t, 0);
    SumPut(Zeros(t), 0, t - 1, 2 * SonWeight(0, max));
    SonsWeigh(0, max);
    ShlZero(MAXBITS - max);
  }

  lemma LeafBalanced(v: seq<nat>, x: seq<nat>, y: seq<nat>, t: nat, max: nat, i: nat, over: nat, n: nat, f: nat,
        bits: nat)
    requires Balanced(v, x, y, t, max, i, over) && i <= 2 * t && n < |v| && v[n] == 0 && f <= max
    requires bits == (if f + 1 > max then max else f + 1)
    requires x[t - 1 - (i - 1) / 2] == 2 * SonWeight(f, max) && y[t - 1 - (i - 1) / 2] == Twice(f == max)
    ensures Balanced(v[n := bits], x, y, t, max, i + 1, over + if f + 1 > max then 1 else 0)
  {
    hide Pow2, Kraft, Count, Shl, PairSum, SumFrom;
    PairNext(x, t, i);
    PairNext(y, t, i);
    KraftPut(v, n, bits);
    CountPut(v, n, bits, max);
  }

  lemma InnerBalanced(v: seq<nat>, x: seq<nat>, y: seq<nat>, t: nat, max: nat, i: nat, over: nat, s: nat, f: nat,
        bits: nat)
    requires Balanced(v, x, y, t, max, i, over) && i <= 2 * t && f <= max && s < t && s < t - 1 - (i - 1) / 2
    requires bits == (if f + 1 > max then max else f + 1) && x[s] == 0 && y[s] == 0
    requires x[t - 1 - (i - 1) / 2] == 2 * SonWeight(f, max) && y[t - 1 - (i - 1) / 2] == Twice(f == max)
    ensures Balanced(v, x[s := 2 * SonWeight(bits, max)], y[s := Twice(bits == max)], t, max, i + 1,
            over + if f + 1 > max then 1 else 0)
  {
    hide Pow2, Kraft, Count, Shl, PairSum;
    var x', y' := x[s := 2 * SonWeight(bits, max)], y[s := Twice(bits == max)];
    PairNext(x, t, i);
    PairNext(y, t, i);
    PairPut(x, t, i, s, 2 * SonWeight(bits, max));
    PairPut(y, t, i, s, Twice(bits == max));
    PairNext(x', t, i);
    PairNext(y', t, i);
    SumPut(x, 0, s, 2 * SonWeight(bits, max));
    SumPut(y, 0, s, Twice(bits == max));
    SonsWeigh(bits, max);
    ShlAdd(SumFrom(y, 0), Twice(bits == max), MAXBITS - max);
    ShlTwo(MAXBITS - max);
    ShlZero(MAXBITS - max);
    SumAtLeast(y, t - 1 - (i - 1) / 2);
  }

  lemma ShlTwo(n: nat)
    ensures Shl(2, n) == 2 * Pow2(n)
  {
    ShlPow2(1, n);
    Doubled(n + 1);
    assert Pow2(1) == 2;
  }

  lemma {:induction false} SumAtLeast(y: seq<nat>, j: nat)
    requires j < |y|
    ensures SumFrom(y, 0) >= y[j]
  {
    SumTail(y, 0, j);
  }

  lemma {:induction false} SumTail(y: seq<nat>, k: nat, j: nat)
    requires k <= j < |y|
    ensures SumFrom(y, k) >= y[j]
    decreases j - k
  {
    if k < j {
      SumTail(y, k + 1, j);
    }
  }

  // ---------- where nodes are listed ----------

  lemma Distinct(nodes: seq<nat>, s: set<nat>, i: nat, j: nat)
    requires multiset(nodes) == multiset(s) && i < j < |nodes|
    ensures nodes[i] != nodes[j]
  {
    var a, b, c := nodes[..i], nodes[i + 1..j], nodes[j + 1..];
    assert nodes == a + [nodes[i]] + b + [nodes[j]] + c;
    assert nodes[i] == nodes[j] ==> multiset(nodes)[nodes[i]] >= 2;
  }

  lemma BuiltIds(nodes: seq<nat>, dl: seq<nat>, elems: nat, t: nat, leaves: set<nat>)
    requires Built(nodes, dl, elems, t, leaves)
    ensures forall i, j :: 0 <= i < j < |nodes| ==> nodes[i] != nodes[j]
    ensures forall i :: 0 <= i < |nodes| ==> nodes[i] < elems + t && (nodes[i] < elems ==> nodes[i] in leaves)
    ensures forall n :: n in leaves || elems <= n < elems + t ==> n in nodes
  {
    hide Internals;
    var ids := leaves + Internals(elems, t);
    forall i, j | 0 <= i < j < |nodes| ensures nodes[i] != nodes[j] {
      Distinct(nodes, ids, i, j);
    }
    forall i | 0 <= i < |nodes| ensures nodes[i] < elems + t && (nodes[i] < elems ==> nodes[i] in leaves) {
      assert nodes[i] in multiset(ids);
      InternalsAre(elems, t, nodes[i]);
    }
    forall n | n in leaves || elems <= n < elems + t ensures n in nodes {
      InternalsAre(elems, t, n);
      assert n in multiset(nodes);
    }
  }

  /** Fathers come first. */
  lemma FatherBefore(nodes: seq<nat>, dl: seq<nat>, elems: nat, t: nat, leaves: set<nat>, i: nat) returns (q: nat)
    requires Built(nodes, dl, elems, t, leaves) && 1 <= i <= 2 * t
    ensures q < i && nodes[q] == Father(elems, t, i)
  {
    hide Internals;
    BuiltIds(nodes, dl, elems, t, leaves);
    var f := Father(elems, t, i);
    assert f in nodes;
    q :| 0 <= q < |nodes| && nodes[q] == f;
  }

  ghost predicate Listing(nodes: seq<nat>, elems: nat, t: nat) {
    && (forall i, j :: 0 <= i < j < |nodes| ==> nodes[i] != nodes[j])
    && (forall i :: 1 <= i <= 2 * t && i < |nodes| && nodes[i] >= elems ==> i < 2 * t - 1 - 2 * (nodes[i] - elems))
  }

  lemma PassedLeaf(nodes: seq<nat>, dl: seq<nat>, elems: nat, t: nat, max: nat, i: nat, x: seq<nat>, y: seq<nat>,
        bits: nat)
    requires Passed(nodes, dl, elems, t, max, i, x, y) && Listing(nodes, elems, t) && i <= 2 * t && nodes[i] < elems &&
             bits <= max
    ensures Passed(nodes, dl[nodes[i] := bits], elems, t, max, i + 1, x, y)
  {
    hide SonWeight, Twice, Father;
  }

  lemma PassedInner(nodes: seq<nat>, dl: seq<nat>, elems: nat, t: nat, max: nat, i: nat, x: seq<nat>, y: seq<nat>,
        bits: nat)
    requires Passed(nodes, dl, elems, t, max, i, x, y) && Listing(nodes, elems, t) && i <= 2 * t && nodes[i] >= elems &&
             bits <= max
    ensures nodes[i] - elems < t
    ensures var s := nodes[i] - elems;
            Passed(nodes, dl[nodes[i] := bits], elems, t, max, i + 1, x[s := 2 * SonWeight(bits, max)],
                y[s := Twice(bits == max)])
  {
    hide SonWeight, Twice, Father;
  }

  lemma PassedRoot(nodes: seq<nat>, dl: seq<nat>, elems: nat, t: nat, max: nat, leaves: set<nat>)
    requires Built(nodes, dl, elems, t, leaves) && 1 <= max <= MAXBITS
    ensures Listing(nodes, elems, t) && nodes[0] < |dl|
    ensures Passed(nodes, dl[nodes[0] := 0], elems, t, max, 1, Zeros(t)[t - 1 := 2 * SonWeight(0, max)], Zeros(t))
  {
    hide SonWeight, Father, Internals;
    BuiltIds(nodes, dl, elems, t, leaves);
  }

  /** v holds the lengths of the leaves listed before place i. */
  ghost predicate Viewed(v: seq<nat>, nodes: seq<nat>, dl: seq<nat>, elems: nat, leaves: set<nat>, i: nat) {
    && |v| == elems && i <= |nodes| && (forall q :: 0 <= q < |nodes| ==> nodes[q] < |dl|)
    && (forall q :: 0 <= q < i && nodes[q] < elems ==> v[nodes[q]] == dl[nodes[q]] >= 1)
    && (forall q :: i <= q < |nodes| && nodes[q] < elems ==> v[nodes[q]] == 0)
    && (forall n :: 0 <= n < elems && n !in leaves ==> v[n] == 0)
  }

  lemma ViewedNext(v: seq<nat>, nodes: seq<nat>, dl: seq<nat>, elems: nat, t: nat, leaves: set<nat>, i: nat, bits: nat)
    requires Viewed(v, nodes, dl, elems, leaves, i) && Listing(nodes, elems, t) && i < |nodes| && bits >= 1
    requires nodes[i] < elems ==> nodes[i] in leaves
    ensures nodes[i] < elems ==> Viewed(v[nodes[i] := bits], nodes, dl[nodes[i] := bits], elems, leaves, i + 1)
    ensures nodes[i] >= elems ==> Viewed(v, nodes, dl[nodes[i] := bits], elems, leaves, i + 1)
  {
  }

  /** bl counts the lengths in v. */
  ghost predicate Counts(bl: seq<nat>, v: seq<nat>) {
    |bl| == MAXBITS + 1 && bl[0] == 0 && forall l :: 1 <= l <= MAXBITS ==> bl[l] == Count(v, l)
  }

  lemma CountsNext(bl: seq<nat>, v: seq<nat>, n: nat, bits: nat)
    requires Counts(bl, v) && n < |v| && v[n] == 0 && 1 <= bits <= MAXBITS
    ensures Counts(bl[bits := bl[bits] + 1], v[n := bits])
  {
    hide Count;
    var bl', v' := bl[bits := bl[bits] + 1], v[n := bits];
    forall l | 1 <= l <= MAXBITS ensures bl'[l] == Count(v', l) {
      CountPut(v, n, bits, l);
    }
  }

  /** What the first pass knows at place i. */
  ghost predicate Passing(nodes: seq<nat>, dl: seq<nat>, elems: nat, t: nat, max: nat, leaves: set<nat>, i: nat,
                          x: seq<nat>, y: seq<nat>, v: seq<nat>, over: nat, bl: seq<nat>) {
    && Passed(nodes, dl, elems, t, max, i, x, y) && Listing(nodes, elems, t)
    && Balanced(v, x, y, t, max, i, over) && Viewed(v, nodes, dl, elems, leaves, i) && Counts(bl, v)
    && (forall l :: max < l <= MAXBITS ==> bl[l] == 0) && SumFrom(bl, 0) == LeavesIn(nodes, elems, i)
  }

  /** The number of leaves before place i. */
  function LeavesIn(nodes: seq<nat>, elems: nat, i: nat): (n: nat)
    requires i <= |nodes|
    ensures n <= i
  {
    if i == 0 then 0 else LeavesIn(nodes, elems, i - 1) + if nodes[i - 1] < elems then 1 else 0
  }

  /** The father of the node at place i has its length. */
  lemma FatherPassed(nodes: seq<nat>, dl0: seq<nat>, dl: seq<nat>, elems: nat, t: nat, max: nat, leaves: set<nat>,
        i: nat, x: seq<nat>, y: seq<nat>)
    requires Built(nodes, dl0, elems, t, leaves) && Passed(nodes, dl, elems, t, max, i, x, y) && i <= 2 * t
    ensures nodes[i] < |dl| && dl[nodes[i]] < |dl| && dl[dl[nodes[i]]] <= max
    ensures x[t - 1 - (i - 1) / 2] == 2 * SonWeight(dl[dl[nodes[i]]], max) &&
            y[t - 1 - (i - 1) / 2] == Twice(dl[dl[nodes[i]]] == max)
    ensures dl[nodes[i]] == Father(elems, t, i) && (nodes[i] < elems ==> nodes[i] in leaves)
    ensures nodes[i] >= elems ==>
      nodes[i] - elems < t - 1 - (i - 1) / 2 && x[nodes[i] - elems] == 0 && y[nodes[i] - elems] == 0
  {
    hide SonWeight, Internals;
    var q := FatherBefore(nodes, dl0, elems, t, leaves, i);
    BuiltIds(nodes, dl0, elems, t, leaves);
    assert nodes[q] >= elems;
  }

  lemma PassingNext(nodes: seq<nat>, dl0: seq<nat>, dl: seq<nat>, elems: nat, t: nat, max: nat, leaves: set<nat>,
        i: nat,
                    x: seq<nat>, y: seq<nat>, v: seq<nat>, over: nat, bl: seq<nat>)
      returns (x': seq<nat>, y': seq<nat>, v': seq<nat>)
    requires Built(nodes, dl0, elems, t, leaves) && Passing(nodes, dl, elems, t, max, leaves, i, x, y, v, over, bl) &&
             i <= 2 * t
    ensures nodes[i] < |dl| && dl[nodes[i]] < |dl| && dl[dl[nodes[i]]] <= max <= MAXBITS < |bl| &&
            (nodes[i] < elems ==> nodes[i] in leaves)
    ensures dl[nodes[i]] == Father(elems, t, i)
    ensures var f := dl[dl[nodes[i]]];
            var bits := if f + 1 > max then max else f + 1;
            Passing(nodes, dl[nodes[i] := bits], elems, t, max, leaves, i + 1, x', y', v',
                over + (if f + 1 > max then 1 else 0),
                    if nodes[i] < elems then bl[bits := bl[bits] + 1] else bl) &&
            |v| == elems && (if nodes[i] < elems then v[nodes[i]] == 0 && v' == v[nodes[i] := bits] else v' == v)
  {
    hide Passed, Listing, Balanced, Viewed, Counts, Built, SonWeight, Twice, SumFrom;
    PassedSize(nodes, dl, elems, t, max, i, x, y);
    FatherPassed(nodes, dl0, dl, elems, t, max, leaves, i, x, y);
    var n, f := nodes[i], dl[dl[nodes[i]]];
    var bits := if f + 1 > max then max else f + 1;
    ViewedSize(v, nodes, dl, elems, leaves, i);
    ViewedNext(v, nodes, dl, elems, t, leaves, i, bits);
    if n < elems {
      PassedLeaf(nodes, dl, elems, t, max, i, x, y, bits);
      LeafBalanced(v, x, y, t, max, i, over, n, f, bits);
      CountsNext(bl, v, n, bits);
      x', y', v' := x, y, v[n := bits];
    } else {
      PassedInner(nodes, dl, elems, t, max, i, x, y, bits);
      InnerBalanced(v, x, y, t, max, i, over, n - elems, f, bits);
      x', y', v' := x[n - elems := 2 * SonWeight(bits, max)], y[n - elems := Twice(bits == max)], v;
    }
    CountsSize(bl, v);
    SumPut(bl, 0, bits, bl[bits] + 1);
  }

  lemma CountsSize(bl: seq<nat>, v: seq<nat>)
    requires Counts(bl, v)
    ensures |bl| == MAXBITS + 1
  {
  }

  lemma PassedSize(nodes: seq<nat>, dl: seq<nat>, elems: nat, t: nat, max: nat, i: nat, x: seq<nat>, y: seq<nat>)
    requires Passed(nodes, dl, elems, t, max, i, x, y)
    ensures |nodes| == 2 * t + 1 && |x| == |y| == t && 1 <= max <= MAXBITS
  {
  }

  lemma ViewedSize(v: seq<nat>, nodes: seq<nat>, dl: seq<nat>, elems: nat, leaves: set<nat>, i: nat)
    requires Viewed(v, nodes, dl, elems, leaves, i)
    ensures |v| == elems && (i < |nodes| && nodes[i] < elems ==> v[nodes[i]] == 0)
  {
  }

  lemma PassingStarts(nodes: seq<nat>, dl: seq<nat>, elems: nat, t: nat, max: nat, leaves: set<nat>)
    requires Built(nodes, dl, elems, t, leaves) && 1 <= max <= MAXBITS
    ensures nodes[0] < |dl|
    ensures Passing(nodes, dl[nodes[0] := 0], elems, t, max, leaves, 1, Zeros(t)[t - 1 := 2 * SonWeight(0, max)],
            Zeros(t), Zeros(elems), 0, Zeros(16))
  {
    hide Passed, Balanced, SonWeight, Internals;
    PassedRoot(nodes, dl, elems, t, max, leaves);
    RootBalanced(elems, t, max);
    BuiltIds(nodes, dl, elems, t, leaves);
    NoLens(elems);
    SumZeros(16, 0);
    assert LeavesIn(nodes, elems, 1) == 0;
  }

  /** What the first pass comes to. */
  ghost predicate FirstLens(nodes: seq<nat>, dl: seq<nat>, elems: nat, max: nat, leaves: set<nat>, v: seq<nat>,
        over: nat, bl: seq<nat>) {
    && 1 <= max <= MAXBITS && Viewed(v, nodes, dl, elems, leaves, |nodes|) && ValidLens(v) && Counts(bl, v)
    && (forall l :: max < l <= MAXBITS ==> bl[l] == 0) && SumFrom(bl, 0) == LeavesIn(nodes, elems, |nodes|)
    && 2 * Kraft(v) == 2 * Pow2(MAXBITS) + Shl(over, MAXBITS - max) && over % 2 == 0 &&
        2 * bl[max] >= over + Twice(over > 0)
  }

  lemma PassedAll(nodes: seq<nat>, dl: seq<nat>, elems: nat, t: nat, max: nat, leaves: set<nat>, x: seq<nat>,
        y: seq<nat>, v: seq<nat>, over: nat, bl: seq<nat>)
    requires Passing(nodes, dl, elems, t, max, leaves, 2 * t + 1, x, y, v, over, bl)
    ensures FirstLens(nodes, dl, elems, max, leaves, v, over, bl)
  {
    hide SumFrom, PairSum, Pow2, Kraft, Shl, SonWeight, LeavesIn;
    PairAll(x, t);
    PairAll(y, t);
  }

  /** Up to place i, every node but the root is one deeper than its father. */
  ghost predicate Depths(nodes: seq<nat>, dl: seq<nat>, elems: nat, t: nat, i: nat) {
    && |nodes| == 2 * t + 1 && 1 <= i <= 2 * t + 1 && (forall q :: 0 <= q <= 2 * t ==> nodes[q] < |dl|) &&
        elems + t <= |dl|
    && dl[nodes[0]] == 0 && forall q :: 1 <= q < i ==> dl[nodes[q]] == dl[Father(elems, t, q)] + 1
  }

  lemma DepthsStart(nodes: seq<nat>, dl: seq<nat>, elems: nat, t: nat, leaves: set<nat>)
    requires Built(nodes, dl, elems, t, leaves)
    ensures nodes[0] < |dl| && Depths(nodes, dl[nodes[0] := 0], elems, t, 1)
  {
    hide Internals;
    BuiltIds(nodes, dl, elems, t, leaves);
  }

  lemma DepthsNext(nodes: seq<nat>, dl0: seq<nat>, dl: seq<nat>, elems: nat, t: nat, leaves: set<nat>, i: nat)
    requires Built(nodes, dl0, elems, t, leaves) && Depths(nodes, dl, elems, t, i) && i <= 2 * t
    ensures Depths(nodes, dl[nodes[i] := dl[Father(elems, t, i)] + 1], elems, t, i + 1)
  {
    hide Built;
    BuiltIds(nodes, dl0, elems, t, leaves);
    var dl' := dl[nodes[i] := dl[Father(elems, t, i)] + 1];
    forall q | 1 <= q < i + 1 ensures dl'[nodes[q]] == dl'[Father(elems, t, q)] + 1 {
      var r := FatherBefore(nodes, dl0, elems, t, leaves, q);
      assert nodes[r] != nodes[i];
    }
  }

  /** p gives every node a height above its sons', and the root none above max. */
  ghost predicate Lower(nodes: seq<nat>, p: seq<nat>, elems: nat, t: nat, max: nat) {
    && |nodes| == 2 * t + 1 && (forall q :: 0 <= q <= 2 * t ==> nodes[q] < |p|) && elems + t <= |p|
    && p[nodes[0]] <= max && forall q :: 1 <= q <= 2 * t ==> p[nodes[q]] < p[Father(elems, t, q)]
  }

  /** No leaf of the tree lies deeper than max. */
  ghost predicate NoneDeep(nodes: seq<nat>, elems: nat, t: nat, max: nat) {
    exists p :: Lower(nodes, p, elems, t, max)
  }

  /** A node is no deeper than its height leaves room for. */
  lemma {:induction false} DepthHeight(nodes: seq<nat>, dl0: seq<nat>, dl: seq<nat>, p: seq<nat>, elems: nat, t: nat,
        max: nat, leaves: set<nat>, i: nat, q: nat)
    requires Built(nodes, dl0, elems, t, leaves) && Depths(nodes, dl, elems, t, i) && Lower(nodes, p, elems, t, max)
    requires q < i
    ensures dl[nodes[q]] + p[nodes[q]] <= max
    decreases q
  {
    hide Built, Father;
    if q > 0 {
      var r := FatherBefore(nodes, dl0, elems, t, leaves, q);
      DepthHeight(nodes, dl0, dl, p, elems, t, max, leaves, i, r);
    }
  }

  /** As long as no length was cut, lengths are depths; one is cut only if a leaf lies too deep. */
  ghost predicate Uncut(nodes: seq<nat>, dl: seq<nat>, elems: nat, t: nat, max: nat, i: nat, over: nat) {
    if over == 0 then Depths(nodes, dl, elems, t, i) && forall q :: 0 <= q < i ==> dl[nodes[q]] <= max
    else !NoneDeep(nodes, elems, t, max)
  }

  lemma UncutNext(nodes: seq<nat>, dl0: seq<nat>, dl: seq<nat>, elems: nat, t: nat, max: nat, leaves: set<nat>,
        i: nat, over: nat)
    requires Built(nodes, dl0, elems, t, leaves) && Uncut(nodes, dl, elems, t, max, i, over) && 1 <= i <= 2 * t
    requires |nodes| == 2 * t + 1 && nodes[i] < |dl| && Father(elems, t, i) < |dl|
    ensures var bits := dl[Father(elems, t, i)] + 1;
            if bits > max then Uncut(nodes, dl[nodes[i] := max], elems, t, max, i + 1, over + 1)
            else Uncut(nodes, dl[nodes[i] := bits], elems, t, max, i + 1, over)
  {
    hide Built, Father, NoneDeep;
    BuiltIds(nodes, dl0, elems, t, leaves);
    if over == 0 {
      var r := FatherBefore(nodes, dl0, elems, t, leaves, i);
      if dl[nodes[r]] + 1 > max {
        assert !NoneDeep(nodes, elems, t, max) by {
          forall p ensures !Lower(nodes, p, elems, t, max) {
            if Lower(nodes, p, elems, t, max) {
              DepthHeight(nodes, dl0, dl, p, elems, t, max, leaves, i, r);
            }
          }
          NotLow(nodes, elems, t, max);
        }
      } else {
        DepthsNext(nodes, dl0, dl, elems, t, leaves, i);
      }
    }
  }

  lemma NotLow(nodes: seq<nat>, elems: nat, t: nat, max: nat)
    requires forall p :: !Lower(nodes, p, elems, t, max)
    ensures !NoneDeep(nodes, elems, t, max)
  {
  }

  /** If no length was cut, no leaf lies too deep. */
  lemma UncutLow(nodes: seq<nat>, dl0: seq<nat>, dl: seq<nat>, elems: nat, t: nat, max: nat, leaves: set<nat>)
    requires Built(nodes, dl0, elems, t, leaves) && Uncut(nodes, dl, elems, t, max, 2 * t + 1, 0)
    ensures NoneDeep(nodes, elems, t, max)
  {
    hide Built;
    var p := seq(|dl|, i requires 0 <= i < |dl| => if dl[i] <= max then max - dl[i] else 0);
    forall q | 1 <= q <= 2 * t ensures p[nodes[q]] < p[Father(elems, t, q)] {
      var r := FatherBefore(nodes, dl0, elems, t, leaves, q);
    }
    assert Lower(nodes, p, elems, t, max);
  }

  /** All that the first pass knows at place i. */
  ghost predicate FirstAt(nodes: seq<nat>, dl: seq<nat>, f: seq<nat>, d: Desc, t: nat, leaves: set<nat>, i: nat,
                          x: seq<nat>, y: seq<nat>, v: seq<nat>, over: nat, bl: seq<nat>, opt: int, stat: int) {
    && Passing(nodes, dl, d.elems, t, d.max, leaves, i, x, y, v, over, bl) && Costs(f, v, d, opt, stat)
    && Uncut(nodes, dl, d.elems, t, d.max, i, over)
  }

  lemma FirstNext(nodes: seq<nat>, dl0: seq<nat>, dl: seq<nat>, f: seq<nat>, d: Desc, t: nat, leaves: set<nat>, i: nat,
                  x: seq<nat>, y: seq<nat>, v: seq<nat>, over: nat, bl: seq<nat>, opt: int, stat: int)
      returns (x': seq<nat>, y': seq<nat>, v': seq<nat>)
    requires Built(nodes, dl0, d.elems, t, leaves) &&
             FirstAt(nodes, dl, f, d, t, leaves, i, x, y, v, over, bl, opt, stat)
    requires i <= 2 * t && i < |nodes| && d.Ok() && d.elems <= |f|
    ensures var n := nodes[i];
            && n < |dl| && dl[n] < |dl| && dl[dl[n]] <= d.max <= MAXBITS < |bl| && (n < d.elems ==> n in leaves)
            && var bits := dl[dl[n]] + 1;
               var cut := bits > d.max;
               var b := if cut then d.max else bits;
               if n < d.elems then
                 FirstAt(nodes, dl[n := b], f, d, t, leaves, i + 1, x', y', v', over + (if cut then 1 else 0),
                     bl[b := bl[b] + 1],
                         opt + Times(f[n], b + d.Extra(n)), stat + if d.statics == [] then 0
                             else Times(f[n], StaticLen(d, n) + d.Extra(n)))
               else
                 FirstAt(nodes, dl[n := b], f, d, t, leaves, i + 1, x', y', v', over + (if cut then 1 else 0), bl, opt,
                     stat)
  {
    hide Passing, Built, Costs, Uncut, Times, Desc.Extra, Father;
    DescMax(d);
    x', y', v' := PassingNext(nodes, dl0, dl, d.elems, t, d.max, leaves, i, x, y, v, over, bl);
    FatherKnown(nodes, dl0, dl, d.elems, t, d.max, leaves, i, x, y, v, over, bl);
    UncutNext(nodes, dl0, dl, d.elems, t, d.max, leaves, i, over);
    if nodes[i] < d.elems {
      CostsPut(f, v, d, opt, stat, nodes[i], if dl[dl[nodes[i]]] + 1 > d.max then d.max else dl[dl[nodes[i]]] + 1);
    }
  }

  lemma FatherKnown(nodes: seq<nat>, dl0: seq<nat>, dl: seq<nat>, elems: nat, t: nat, max: nat, leaves: set<nat>,
        i: nat, x: seq<nat>, y: seq<nat>, v: seq<nat>, over: nat, bl: seq<nat>)
    requires Built(nodes, dl0, elems, t, leaves) && Passing(nodes, dl, elems, t, max, leaves, i, x, y, v, over, bl)
    requires i <= 2 * t
    ensures |nodes| == 2 * t + 1 && 1 <= i && nodes[i] < |dl| && dl[nodes[i]] == Father(elems, t, i) < |dl|
  {
    hide Built, Balanced, Viewed, Counts, SumFrom, LeavesIn, Father, SonWeight;
    FatherPassed(nodes, dl0, dl, elems, t, max, leaves, i, x, y);
  }

  lemma FirstStarts(nodes: seq<nat>, dl: seq<nat>, f: seq<nat>, d: Desc, t: nat, leaves: set<nat>)
    requires Built(nodes, dl, d.elems, t, leaves) && d.Ok() && d.elems <= |f|
    ensures t >= 1 && |nodes| == 2 * t + 1 && nodes[0] < |dl| && d.max <= MAXBITS
    ensures FirstAt(nodes, dl[nodes[0] := 0], f, d, t, leaves, 1, Zeros(t)[t - 1 := 2 * SonWeight(0, d.max)], Zeros(t),
            Zeros(d.elems), 0, Zeros(16), 0, 0)
  {
    hide Passing, Built, Costs, SonWeight;
    DescMax(d);
    PassingStarts(nodes, dl, d.elems, t, d.max, leaves);
    BuiltSize(nodes, dl, d.elems, t, leaves);
    NoCosts(f, d);
    DepthsStart(nodes, dl, d.elems, t, leaves);
  }

  lemma FirstEnds(nodes: seq<nat>, dl0: seq<nat>, dl: seq<nat>, f: seq<nat>, d: Desc, t: nat, leaves: set<nat>,
                  x: seq<nat>, y: seq<nat>, v: seq<nat>, over: nat, bl: seq<nat>, opt: int, stat: int)
    requires Built(nodes, dl0, d.elems, t, leaves)
    requires FirstAt(nodes, dl, f, d, t, leaves, 2 * t + 1, x, y, v, over, bl, opt, stat)
    ensures FirstLens(nodes, dl, d.elems, d.max, leaves, v, over, bl) && Costs(f, v, d, opt, stat)
    ensures over == 0 ==> Depths(nodes, dl, d.elems, t, 2 * t + 1)
    ensures over == 0 <==> NoneDeep(nodes, d.elems, t, d.max)
  {
    hide Passing, Costs, Depths, FirstLens, NoneDeep, Built;
    PassedAll(nodes, dl, d.elems, t, d.max, leaves, x, y, v, over, bl);
    if over == 0 {
      UncutLow(nodes, dl0, dl, d.elems, t, d.max, leaves);
    }
  }

  /** The first pass of gen_bitlen; over counts the lengths that were cut. */
  method FirstPass(heap: array<nat>, dl: array<nat>, freq: array<nat>, d: Desc, t: nat, maxCode: nat,
        ghost leaves: set<nat>)
      returns (blCount: array<nat>, over: nat, opt: int, stat: int, ghost v: seq<nat>)
    requires heap != dl && dl != freq && heap.Length == HEAP_SIZE && 2 * t + 1 <= HEAP_SIZE && d.Ok() &&
             d.elems <= freq.Length
    requires Built(heap[HEAP_SIZE - 2 * t - 1..], dl[..], d.elems, t, leaves) && Largest(leaves, maxCode)
    modifies dl
    ensures fresh(blCount) && blCount.Length == MAXBITS + 1
    ensures FirstLens(heap[HEAP_SIZE - 2 * t - 1..], dl[..], d.elems, d.max, leaves, v, over, blCount[..])
    ensures forall n :: 0 <= n < dl.Length && n !in heap[HEAP_SIZE - 2 * t - 1..] ==> dl[n] == old(dl[n])
    ensures Costs(freq[..], v, d, opt, stat)
    ensures over == 0 ==> Depths(heap[HEAP_SIZE - 2 * t - 1..], dl[..], d.elems, t, 2 * t + 1)
    ensures over == 0 <==> NoneDeep(heap[HEAP_SIZE - 2 * t - 1..], d.elems, t, d.max)
  {
    hide FirstAt, NoneDeep, Built, FirstLens, SonWeight, Costs, Desc.Ok, Desc.Extra, Depths, Times, StaticLen;
    var h0 := HEAP_SIZE - 2 * t - 1;
    ghost var nodes, dl0 := heap[h0..], dl[..];
    blCount := new nat[MAXBITS + 1](_ => 0);
    over, opt, stat := 0, 0, 0;
    FirstStarts(nodes, dl0, freq[..], d, t, leaves);
    BuiltSize(nodes, dl0, d.elems, t, leaves);
    assert blCount[..] == Zeros(16);
    dl[heap[h0]] := 0;
    assert dl[..] == dl0[nodes[0] := 0];
    ghost var x, y := Zeros(t)[t - 1 := 2 * SonWeight(0, d.max)], Zeros(t);
    v := Zeros(d.elems);
    for h := h0 + 1 to HEAP_SIZE
      invariant heap[h0..] == nodes
      invariant FirstAt(nodes, dl[..], freq[..], d, t, leaves, h - h0, x, y, v, over, blCount[..], opt, stat)
      invariant forall n :: 0 <= n < dl.Length && n !in nodes ==> dl[n] == dl0[n]
    {
      var n := heap[h];
      assert n == nodes[h - h0];
      ghost var u, b := dl[..], blCount[..];
      x, y, v := FirstNext(nodes, dl0, u, freq[..], d, t, leaves, h - h0, x, y, v, over, b, opt, stat);
      var bits: nat := dl[dl[n]] + 1;
      if bits > d.max {
        bits, over := d.max, over + 1;
      }
      dl[n] := bits;
      assert dl[..] == u[n := bits];
      if n <= maxCode {
        blCount[bits] := blCount[bits] + 1;
        assert blCount[..] == b[bits := b[bits] + 1];
        opt := opt + Times(freq[n], bits + d.Extra(n));
        if d.statics != [] {
          stat := stat + Times(freq[n], StaticLen(d, n) + d.Extra(n));
        }
      }
    }
    FirstEnds(nodes, dl0, dl[..], freq[..], d, t, leaves, x, y, v, over, blCount[..], opt, stat);
  }

  lemma DescMax(d: Desc)
    requires d.Ok()
    ensures 1 <= d.max <= MAXBITS
  {
  }

  function StaticLen(d: Desc, n: nat): nat
    requires d.Ok() && d.statics != [] && n < d.elems
  {
    d.statics[n]
  }

  lemma BuiltSize(nodes: seq<nat>, dl: seq<nat>, elems: nat, t: nat, leaves: set<nat>)
    requires Built(nodes, dl, elems, t, leaves)
    ensures t >= 1 && |nodes| == 2 * t + 1 && forall n :: n in leaves ==> n < elems
  {
  }

  // ---------- lengths that are too large ----------

  /** Used, from the counts alone. */
  function UsedOf(bl: seq<nat>, l: nat): nat
    requires l < |bl|
  {
    if l == 0 then 0 else 2 * UsedOf(bl, l - 1) + bl[l]
  }

  lemma {:induction false} CountsUsed(bl: seq<nat>, v: seq<nat>, l: nat)
    requires Counts(bl, v) && l <= MAXBITS
    ensures UsedOf(bl, l) == Used(v, l)
  {
    hide Count;
    if l > 0 {
      CountsUsed(bl, v, l - 1);
      UsedStep(v, l);
    }
  }

  lemma {:induction false} UsedUp(bl: seq<nat>, l: nat, n: nat)
    requires 1 <= l < |bl| && n < |bl|
    ensures UsedOf(bl[l := bl[l] + 1], n) == UsedOf(bl, n) + if l <= n then Pow2(n - l) else 0
  {
    if n > 0 {
      UsedUp(bl, l, n - 1);
    }
  }

  lemma UsedDown(bl: seq<nat>, l: nat, n: nat)
    requires 1 <= l < |bl| && n < |bl| && bl[l] > 0
    ensures UsedOf(bl, n) == UsedOf(bl[l := bl[l] - 1], n) + if l <= n then Pow2(n - l) else 0
  {
    var down := bl[l := bl[l] - 1];
    UsedUp(down, l, n);
    assert down[l := down[l] + 1] == bl;
  }

  /** One leaf of length b and one of the greatest length become two of length b + 1. */
  function Moved(bl: seq<nat>, max: nat, b: nat): (r: seq<nat>)
    requires 1 <= b < max < |bl| && bl[b] > 0 && bl[max] > 0
    ensures |r| == |bl|
  {
    var c := bl[b := bl[b] - 1];
    var d := c[b + 1 := c[b + 1] + 2];
    d[max := d[max] - 1]
  }

  lemma MovedUsed(bl: seq<nat>, max: nat, b: nat)
    requires 1 <= b < max <= MAXBITS && |bl| == MAXBITS + 1 && bl[b] > 0 && bl[max] > 0
    ensures UsedOf(Moved(bl, max, b), MAXBITS) + Pow2(MAXBITS - max) == UsedOf(bl, MAXBITS)
    ensures SumFrom(Moved(bl, max, b), 0) == SumFrom(bl, 0)
  {
    hide Pow2, UsedOf, SumFrom;
    var c := bl[b := bl[b] - 1];
    var d1 := c[b + 1 := c[b + 1] + 1];
    var d := c[b + 1 := c[b + 1] + 2];
    assert d == d1[b + 1 := d1[b + 1] + 1];
    UsedDown(bl, b, MAXBITS);
    UsedUp(c, b + 1, MAXBITS);
    UsedUp(d1, b + 1, MAXBITS);
    UsedDown(d, max, MAXBITS);
    Doubled(MAXBITS - b);
    SumPut(bl, 0, b, bl[b] - 1);
    SumPut(c, 0, b + 1, c[b + 1] + 2);
    SumPut(d, 0, max, d[max] - 1);
  }

  /** While over nodes are too deep, the leaves weigh too much by half as many of the least weight. */
  ghost predicate Overfull(bl: seq<nat>, max: nat, over: nat) {
    && |bl| == MAXBITS + 1 && 1 <= max <= MAXBITS && bl[0] == 0 && (forall l :: max < l <= MAXBITS ==> bl[l] == 0)
    && 2 * UsedOf(bl, MAXBITS) == 2 * Pow2(MAXBITS) + Shl(over, MAXBITS - max) && over % 2 == 0 &&
        2 * bl[max] >= over + Twice(over > 0)
  }

  lemma MovedOverfull(bl: seq<nat>, max: nat, b: nat, over: nat)
    requires Overfull(bl, max, over) && over > 0 && 1 <= b < max && bl[b] > 0
    ensures bl[max] > 0 && Overfull(Moved(bl, max, b), max, over - 2)
  {
    hide Pow2, UsedOf, Shl;
    MovedUsed(bl, max, b);
    ShlAdd(over - 2, 2, MAXBITS - max);
    ShlTwo(MAXBITS - max);
  }

  lemma {:induction false} OnlyMax(bl: seq<nat>, max: nat, l: nat)
    requires |bl| == MAXBITS + 1 && 1 <= max <= MAXBITS && l <= MAXBITS && forall k :: 1 <= k <= MAXBITS && k != max ==>
             bl[k] == 0
    ensures UsedOf(bl, l) == if l < max then 0 else Shl(bl[max], l - max)
  {
    if l > 0 {
      OnlyMax(bl, max, l - 1);
    }
  }

  /** There is a leaf to move. */
  lemma SomeShorter(bl: seq<nat>, max: nat, over: nat)
    requires Overfull(bl, max, over) && over > 0 && SumFrom(bl, 0) <= Pow2(max)
    ensures exists b :: 1 <= b < max && bl[b] > 0
  {
    hide Pow2, SumFrom, Shl;
    SumAtLeast(bl, max);
    ShlMono(bl[max], Pow2(max), MAXBITS - max);
    ShlPow2(max, MAXBITS - max);
    ShlAdd(over - 2, 2, MAXBITS - max);
    ShlTwo(MAXBITS - max);
    PowPositive(MAXBITS - max);
    if forall b :: 1 <= b < max ==> bl[b] == 0 {
      OnlyMax(bl, max, MAXBITS);
      assert false;
    }
  }

  /** The greatest length below b that a leaf has, if there is one. */
  function LastBelow(bl: seq<nat>, b: nat): (l: nat)
    requires b <= |bl|
    ensures l > 0 ==> l < b && bl[l] > 0
  {
    if b <= 1 then 0 else if bl[b - 1] > 0 then b - 1 else LastBelow(bl, b - 1)
  }

  lemma {:induction false} LastBelowIs(bl: seq<nat>, b: nat, k: nat)
    requires k < b <= |bl| && 1 <= k && bl[k] > 0 && forall l :: k < l < b ==> bl[l] == 0
    ensures LastBelow(bl, b) == k
    decreases b
  {
    if k < b - 1 {
      LastBelowIs(bl, b - 1, k);
    }
  }

  /** One leaf after the other that is too deep goes where the longest that can give way was. */
  function Repaired(bl: seq<nat>, max: nat, over: nat): seq<nat>
    requires max < |bl|
    decreases over
  {
    var b := LastBelow(bl, max);
    if over < 2 || b == 0 || bl[max] == 0 then bl else Repaired(Moved(bl, max, b), max, over - 2)
  }

  /** Moves leaves down the tree until none is too deep. */
  method Repair(blCount: array<nat>, max: nat, over0: nat)
    requires blCount.Length == MAXBITS + 1 && Overfull(blCount[..], max, over0) &&
             SumFrom(blCount[..], 0) <= Pow2(max) && over0 > 0
    modifies blCount
    ensures Overfull(blCount[..], max, 0) && SumFrom(blCount[..], 0) == old(SumFrom(blCount[..], 0))
    ensures max <= MAXBITS && blCount[..] == Repaired(old(blCount[..]), max, over0)
  {
    hide Overfull, SumFrom, UsedOf, Pow2, LastBelow;
    var over := over0;
    OverfullSize(blCount[..], max, over);
    while over > 0
      invariant Overfull(blCount[..], max, over) && SumFrom(blCount[..], 0) == old(SumFrom(blCount[..], 0))
      invariant Repaired(blCount[..], max, over) == Repaired(old(blCount[..]), max, over0)
    {
      ghost var bl := blCount[..];
      SomeShorter(bl, max, over);
      OverfullSize(bl, max, over);
      ghost var k :| 1 <= k < max && bl[k] > 0;
      var bits := max - 1;
      while blCount[bits] == 0
        invariant k <= bits < max && blCount[..] == bl && forall l :: bits < l < max ==> bl[l] == 0
        decreases bits
      {
        bits := bits - 1;
      }
      LastBelowIs(bl, max, bits);
      MovedOverfull(bl, max, bits, over);
      MovedUsed(bl, max, bits);
      blCount[bits] := blCount[bits] - 1;
      blCount[bits + 1] := blCount[bits + 1] + 2;
      blCount[max] := blCount[max] - 1;
      assert blCount[..] == Moved(bl, max, bits);
      over := over - 2;
    }
  }

  lemma OverfullSize(bl: seq<nat>, max: nat, over: nat)
    requires Overfull(bl, max, over)
    ensures 1 <= max <= MAXBITS && over % 2 == 0
  {
  }

  // ---------- the second pass ----------

  /** v holds the lengths of the leaves listed from place h on. */
  ghost predicate Reviewed(v: seq<nat>, nodes: seq<nat>, dl: seq<nat>, elems: nat, leaves: set<nat>, h: nat) {
    && |v| == elems && h <= |nodes| && (forall q :: 0 <= q < |nodes| ==> nodes[q] < |dl|)
    && (forall q :: h <= q < |nodes| && nodes[q] < elems ==> v[nodes[q]] == dl[nodes[q]] >= 1)
    && (forall q :: 0 <= q < h && nodes[q] < elems ==> v[nodes[q]] == 0)
    && (forall n :: 0 <= n < elems && n !in leaves ==> v[n] == 0)
  }

  lemma ReviewedNext(v: seq<nat>, nodes: seq<nat>, dl: seq<nat>, elems: nat, t: nat, leaves: set<nat>, h: nat,
        bits: nat)
    requires Reviewed(v, nodes, dl, elems, leaves, h) && Listing(nodes, elems, t) && h > 0 && bits >= 1
    requires nodes[h - 1] < elems ==> nodes[h - 1] in leaves
    ensures nodes[h - 1] < elems ==>
      v[nodes[h - 1]] == 0 && Reviewed(v[nodes[h - 1] := bits], nodes, dl[nodes[h - 1] := bits], elems, leaves, h - 1)
    ensures nodes[h - 1] >= elems ==> Reviewed(v, nodes, dl, elems, leaves, h - 1)
  {
  }

  lemma {:induction false} SumMono(a: seq<nat>, b: seq<nat>, k: nat)
    requires |a| == |b| && forall i :: 0 <= i < |a| ==> a[i] <= b[i]
    ensures SumFrom(a, k) <= SumFrom(b, k)
    decreases |a| - k
  {
    if k < |a| {
      SumMono(a, b, k + 1);
    }
  }

  lemma SumLess(a: seq<nat>, b: seq<nat>, j: nat)
    requires |a| == |b| && (forall i :: 0 <= i < |a| ==> a[i] <= b[i]) && j < |a| && a[j] < b[j]
    ensures SumFrom(a, 0) < SumFrom(b, 0)
  {
    SumMono(a[j := a[j] + 1], b, 0);
    SumPut(a, 0, j, a[j] + 1);
  }

  /** Lengths above bits are all given out, and all but n of length bits. */
  ghost predicate GivenOut(bl: seq<nat>, out: seq<nat>, bits: nat, n: nat) {
    && |bl| == |out| == MAXBITS + 1 && 1 <= bits <= MAXBITS && n <= bl[bits] && bl[0] == 0
    && (forall l :: bits < l <= MAXBITS ==> out[l] == bl[l]) && out[bits] == bl[bits] - n &&
        (forall l :: 0 <= l < bits ==> out[l] == 0)
  }

  ghost predicate Giving(nodes: seq<nat>, dl: seq<nat>, elems: nat, t: nat, leaves: set<nat>, h: nat, v: seq<nat>,
        out: seq<nat>, bl: seq<nat>) {
    && Listing(nodes, elems, t) && Reviewed(v, nodes, dl, elems, leaves, h) && Counts(out, v) && ValidLens(v)
    && SumFrom(bl, 0) == SumFrom(out, 0) + LeavesIn(nodes, elems, h)
    && (forall q :: 0 <= q < |nodes| && nodes[q] < elems ==> nodes[q] in leaves)
  }

  lemma GivingStarts(nodes: seq<nat>, dl: seq<nat>, elems: nat, t: nat, leaves: set<nat>, bl: seq<nat>)
    requires Listing(nodes, elems, t) &&
             (forall q :: 0 <= q < |nodes| ==> nodes[q] < |dl| && (nodes[q] < elems ==> nodes[q] in leaves))
    requires SumFrom(bl, 0) == LeavesIn(nodes, elems, |nodes|)
    ensures Giving(nodes, dl, elems, t, leaves, |nodes|, Zeros(elems), Zeros(16), bl)
  {
    hide LeavesIn, Kraft;
    NoLens(elems);
    SumZeros(16, 0);
  }

  lemma GivingNext(nodes: seq<nat>, dl: seq<nat>, elems: nat, t: nat, leaves: set<nat>, h: nat, v: seq<nat>,
        out: seq<nat>, bl: seq<nat>, bits: nat, n: nat)
    requires Giving(nodes, dl, elems, t, leaves, h, v, out, bl) && GivenOut(bl, out, bits, n) && n > 0
    ensures 0 < h <= |nodes| && nodes[h - 1] < |dl| && |v| == elems && (nodes[h - 1] < elems ==> nodes[h - 1] in leaves)
    ensures nodes[h - 1] >= elems ==> Giving(nodes, dl, elems, t, leaves, h - 1, v, out, bl)
    ensures var m := nodes[h - 1];
            m < elems ==> Giving(nodes, dl[m := bits], elems, t, leaves, h - 1, v[m := bits],
                out[bits := out[bits] + 1], bl) &&
                          GivenOut(bl, out[bits := out[bits] + 1], bits, n - 1)
  {
    hide SumFrom, Count;
    SumLess(out, bl, bits);
    ReviewedNext(v, nodes, dl, elems, t, leaves, h, bits);
    SumPut(out, 0, bits, out[bits] + 1);
    if nodes[h - 1] < elems {
      CountsNext(out, v, nodes[h - 1], bits);
    }
  }

  /** The lengths of the leaves, all given out. */
  ghost predicate Final(nodes: seq<nat>, dl: seq<nat>, elems: nat, leaves: set<nat>, v: seq<nat>, bl: seq<nat>) {
    Reviewed(v, nodes, dl, elems, leaves, 0) && Counts(bl, v) && ValidLens(v)
  }

  lemma {:induction false} NoLeafBefore(nodes: seq<nat>, elems: nat, h: nat, q: nat)
    requires q < h <= |nodes| && LeavesIn(nodes, elems, h) == 0
    ensures nodes[q] >= elems
    decreases h
  {
    if q < h - 1 {
      NoLeafBefore(nodes, elems, h - 1, q);
    }
  }

  lemma GivenAll(nodes: seq<nat>, dl: seq<nat>, elems: nat, t: nat, leaves: set<nat>, h: nat, v: seq<nat>,
        out: seq<nat>, bl: seq<nat>)
    requires Giving(nodes, dl, elems, t, leaves, h, v, out, bl) && GivenOut(bl, out, 1, 0)
    ensures Final(nodes, dl, elems, leaves, v, bl)
  {
    hide SumFrom, LeavesIn, Count;
    assert out == bl;
    forall q | 0 <= q < h ensures nodes[q] >= elems {
      NoLeafBefore(nodes, elems, h, q);
    }
  }

  /** From place h on, no leaf has a shorter length than one listed before it, and none has less than bits. */
  ghost predicate LongerLater(nodes: seq<nat>, v: seq<nat>, elems: nat, h: nat, bits: nat) {
    && |v| == elems && (forall q :: h <= q < |nodes| && nodes[q] < elems ==> v[nodes[q]] >= bits)
    && forall q, r :: h <= q < r < |nodes| && nodes[q] < elems && nodes[r] < elems ==> v[nodes[q]] <= v[nodes[r]]
  }

  lemma LongerNext(nodes: seq<nat>, v: seq<nat>, elems: nat, t: nat, h: nat, bits: nat)
    requires LongerLater(nodes, v, elems, h, bits) && Listing(nodes, elems, t) && 0 < h <= |nodes|
    ensures if nodes[h - 1] < elems then LongerLater(nodes, v[nodes[h - 1] := bits], elems, h - 1, bits)
            else LongerLater(nodes, v, elems, h - 1, bits)
  {
  }

  lemma LongerDown(nodes: seq<nat>, v: seq<nat>, elems: nat, h: nat, bits: nat, less: nat)
    requires LongerLater(nodes, v, elems, h, bits) && less <= bits
    ensures LongerLater(nodes, v, elems, h, less)
  {
  }

  /** With all leaves given out, the places before h do not matter. */
  lemma LongerAll(nodes: seq<nat>, dl: seq<nat>, elems: nat, t: nat, leaves: set<nat>, h: nat, v: seq<nat>,
        out: seq<nat>, bl: seq<nat>)
    requires Giving(nodes, dl, elems, t, leaves, h, v, out, bl) && GivenOut(bl, out, 1, 0)
    requires LongerLater(nodes, v, elems, h, 0)
    ensures LongerLater(nodes, v, elems, 0, 0)
  {
    hide SumFrom, LeavesIn, Count;
    assert out == bl;
    forall q | 0 <= q < h ensures nodes[q] >= elems {
      NoLeafBefore(nodes, elems, h, q);
    }
  }

  lemma GivingListing(nodes: seq<nat>, dl: seq<nat>, elems: nat, t: nat, leaves: set<nat>, h: nat, v: seq<nat>,
        out: seq<nat>, bl: seq<nat>)
    requires Giving(nodes, dl, elems, t, leaves, h, v, out, bl)
    ensures Listing(nodes, elems, t) && h <= |nodes| && |v| == elems
  {
  }

  /** The second pass of gen_bitlen: lengths are given out from the least frequent leaves on. */
  method SecondPass(heap: array<nat>, dl: array<nat>, freq: array<nat>, d: Desc, ghost t: nat, maxCode: nat,
        blCount: array<nat>, ghost leaves: set<nat>, h0: nat, opt0: int, ghost stat: int)
      returns (opt: int, ghost v: seq<nat>)
    requires heap != dl && heap != blCount && dl != blCount && dl != freq && h0 <= heap.Length == HEAP_SIZE && d.Ok() &&
             blCount.Length == MAXBITS + 1
    requires Giving(heap[h0..], dl[..], d.elems, t, leaves, HEAP_SIZE - h0, Zeros(d.elems), Zeros(16), blCount[..])
    requires Largest(leaves, maxCode) && (forall n :: n in leaves ==> n < d.elems) && blCount[0] == 0 &&
             forall l :: d.max < l <= MAXBITS ==> blCount[l] == 0
    requires d.elems <= dl.Length && d.elems <= freq.Length && Costs(freq[..], dl[..d.elems], d, opt0, stat) &&
             forall n :: n in leaves ==> dl[n] > 0
    modifies dl
    ensures Final(heap[h0..], dl[..], d.elems, leaves, v, blCount[..]) && LongerLater(heap[h0..], v, d.elems, 0, 0)
    ensures forall n :: 0 <= n < dl.Length && n !in heap[h0..] ==> dl[n] == old(dl[n])
    ensures Costs(freq[..], dl[..d.elems], d, opt, stat)
  {
    hide Giving, Final, Costs, Desc.Ok, LongerLater, Listing, GivenOut, Times, Zeros;
    DescMax(d);
    var elems := d.elems;
    ghost var nodes, bl, dl0 := heap[h0..], blCount[..], dl[..];
    ghost var out := Zeros(16);
    v, opt := Zeros(elems), opt0;
    assert LongerLater(nodes, v, elems, HEAP_SIZE - h0, d.max) by {
      LongerNone(nodes, v, elems, d.max);
    }
    GivenStart(bl, d.max);
    var h := HEAP_SIZE;
    var bits: nat := d.max;
    while bits != 0
      invariant 0 <= bits <= d.max && h0 <= h <= HEAP_SIZE && heap[h0..] == nodes && blCount[..] == bl
      invariant Giving(nodes, dl[..], elems, t, leaves, h - h0, v, out, bl)
      invariant if bits == 0 then GivenOut(bl, out, 1, 0) else GivenOut(bl, out, bits, bl[bits])
      invariant LongerLater(nodes, v, elems, h - h0, bits)
      invariant forall n :: 0 <= n < dl.Length && n !in nodes ==> dl[n] == dl0[n]
      invariant Costs(freq[..], dl[..elems], d, opt, stat) && forall n :: n in leaves ==> dl[n] > 0
      decreases bits
    {
      var n := blCount[bits];
      while n != 0
        invariant h0 <= h <= HEAP_SIZE && heap[h0..] == nodes && blCount[..] == bl
        invariant Giving(nodes, dl[..], elems, t, leaves, h - h0, v, out, bl) && GivenOut(bl, out, bits, n)
        invariant LongerLater(nodes, v, elems, h - h0, bits)
        invariant forall n :: 0 <= n < dl.Length && n !in nodes ==> dl[n] == dl0[n]
        invariant Costs(freq[..], dl[..elems], d, opt, stat) && forall n :: n in leaves ==> dl[n] > 0
        decreases h
      {
        ghost var u := dl[..];
        GivingNext(nodes, u, elems, t, leaves, h - h0, v, out, bl, bits, n);
        GivingListing(nodes, u, elems, t, leaves, h - h0, v, out, bl);
        GivenSize(bl, out, bits, n);
        LongerNext(nodes, v, elems, t, h - h0, bits);
        h := h - 1;
        var m := heap[h];
        assert m == nodes[h - h0];
        if m <= maxCode {
          CostsPut(freq[..], u[..elems], d, opt, stat, m, bits);
          if dl[m] != bits {
            opt := opt + Times(freq[m], bits) - Times(freq[m], dl[m]);
            dl[m] := bits;
          }
          assert dl[..] == u[m := bits] && dl[..elems] == u[..elems][m := bits];
          v, out := v[m := bits], out[bits := out[bits] + 1];
          n := n - 1;
        }
      }
      LongerDown(nodes, v, elems, h - h0, bits, bits - 1);
      GivenDown(bl, out, bits);
      bits := bits - 1;
    }
    GivenAll(nodes, dl[..], elems, t, leaves, h - h0, v, out, bl);
    LongerAll(nodes, dl[..], elems, t, leaves, h - h0, v, out, bl);
  }

  lemma GivenStart(bl: seq<nat>, bits: nat)
    requires |bl| == MAXBITS + 1 && 1 <= bits <= MAXBITS && bl[0] == 0 && forall l :: bits < l <= MAXBITS ==> bl[l] == 0
    ensures GivenOut(bl, Zeros(16), bits, bl[bits])
  {
  }

  lemma GivenDown(bl: seq<nat>, out: seq<nat>, bits: nat)
    requires GivenOut(bl, out, bits, 0)
    ensures if bits == 1 then GivenOut(bl, out, 1, 0) else bits < |bl| && GivenOut(bl, out, bits - 1, bl[bits - 1])
  {
  }

  lemma GivenSize(bl: seq<nat>, out: seq<nat>, bits: nat, n: nat)
    requires GivenOut(bl, out, bits, n)
    ensures 1 <= bits <= MAXBITS && |out| == MAXBITS + 1
  {
  }

  lemma LongerNone(nodes: seq<nat>, v: seq<nat>, elems: nat, bits: nat)
    requires |v| == elems
    ensures LongerLater(nodes, v, elems, |nodes|, bits)
  {
  }
}
