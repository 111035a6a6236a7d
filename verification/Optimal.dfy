/**
 Huffman's merge is optimal: whatever lengths a prefix code gives the nodes, merging the two of
 least weight loses nothing.
 */
module Optimal {
  import opened Bits
  import opened Cost
  import opened HuffmanHeap

  // ---------- sums over some of the nodes ----------

  /** The sum of g over the members of u below n. */
  ghost function Sum(u: set<nat>, g: seq<nat>, n: nat): nat
    requires n <= |g|
  {
    if n == 0 then 0 else Sum(u, g, n - 1) + if n - 1 in u then g[n - 1] else 0
  }

  lemma {:induction false} SumPut(u: set<nat>, g: seq<nat>, n: nat, i: nat, v: nat)
    requires n <= |g| && i < |g|
    ensures Sum(u, g[i := v], n) + (if i < n && i in u then g[i] else 0) ==
            Sum(u, g, n) + (if i < n && i in u then v else 0)
  {
    if n > 0 {
      SumPut(u, g, n - 1, i, v);
    }
  }

  lemma {:induction false} SumIn(u: set<nat>, g: seq<nat>, n: nat, i: nat)
    requires n <= |g| && i < n && i !in u
    ensures Sum(u + {i}, g, n) == Sum(u, g, n) + g[i]
  {
    if i < n - 1 {
      SumIn(u, g, n - 1, i);
    } else {
      SumSame(u + {i}, u, g, g, n - 1);
    }
  }

  lemma {:induction false} SumSame(u: set<nat>, u': set<nat>, g: seq<nat>, g': seq<nat>, n: nat)
    requires n <= |g| && n <= |g'| && forall i :: 0 <= i < n ==> (i in u <==> i in u') && (i in u ==> g[i] == g'[i])
    ensures Sum(u, g, n) == Sum(u', g', n)
  {
    if n > 0 {
      SumSame(u, u', g, g', n - 1);
    }
  }

  lemma SumOut(u: set<nat>, g: seq<nat>, n: nat, i: nat)
    requires n <= |g| && i < n && i in u
    ensures Sum(u, g, n) == Sum(u - {i}, g, n) + g[i]
  {
    SumIn(u - {i}, g, n, i);
    assert u - {i} + {i} == u;
  }

  // ---------- weights and shares ----------

  /** What each node costs. */
  function Prods(f: seq<nat>, l: seq<nat>): (r: seq<nat>)
    requires |f| == |l|
    ensures |r| == |f| && forall i :: 0 <= i < |f| ==> r[i] == Times(f[i], l[i])
  {
    seq(|f|, i requires 0 <= i < |f| => Times(f[i], l[i]))
  }

  /** Each node's share of 2^top codes of top bits. */
  function Shares(l: seq<nat>, top: nat): (r: seq<nat>)
    ensures |r| == |l| && forall i :: 0 <= i < |l| ==> r[i] == Share(l[i], top)
  {
    seq(|l|, i requires 0 <= i < |l| => Share(l[i], top))
  }

  function Share(len: nat, top: nat): nat {
    if len <= top then Pow2(top - len) else 0
  }

  ghost predicate Inside(u: set<nat>, n: nat) {
    forall i :: i in u ==> i < n
  }

  /** The lengths are those of a prefix code for the nodes of u (Kraft). */
  ghost predicate Code(u: set<nat>, l: seq<nat>, top: nat) {
    && Inside(u, |l|) && (forall i :: i in u ==> l[i] <= top)
    && Sum(u, Shares(l, top), |l|) <= Pow2(top)
  }

  ghost function Price(u: set<nat>, f: seq<nat>, l: seq<nat>): nat
    requires |f| == |l|
  {
    Sum(u, Prods(f, l), |l|)
  }

  // ---------- changing lengths ----------

  lemma TimesMono(a: nat, x: nat, y: nat)
    requires x <= y
    ensures Times(a, x) <= Times(a, y)
  {
  }

  /** The smaller weight with the larger length. */
  lemma Rearranged(a: nat, b: nat, x: nat, y: nat)
    requires a <= b && x <= y
    ensures Times(a, y) + Times(b, x) <= Times(a, x) + Times(b, y)
  {
    assert (b - a) * (y - x) >= 0;
  }

  lemma RearrangedLess(a: nat, b: nat, x: nat, y: nat)
    requires a < b && x < y
    ensures Times(a, y) + Times(b, x) < Times(a, x) + Times(b, y)
  {
    assert (b - a) * (y - x) > 0;
  }

  lemma SwapCode(u: set<nat>, l: seq<nat>, top: nat, i: nat, j: nat)
    requires Code(u, l, top) && i in u && j in u
    ensures Code(u, l[i := l[j]][j := l[i]], top)
  {
    hide Sum, Share, Pow2;
    var g := Shares(l, top);
    var l' := l[i := l[j]][j := l[i]];
    assert Shares(l', top) == g[i := g[j]][j := g[i]];
    SumPut(u, g, |l|, i, g[j]);
    SumPut(u, g[i := g[j]], |l|, j, g[i]);
  }

  lemma SwapPrice(u: set<nat>, f: seq<nat>, l: seq<nat>, i: nat, j: nat)
    requires |f| == |l| && Inside(u, |l|) && i in u && j in u && f[i] <= f[j] && l[i] <= l[j]
    ensures Price(u, f, l[i := l[j]][j := l[i]]) <= Price(u, f, l)
    ensures f[i] < f[j] && l[i] < l[j] ==> Price(u, f, l[i := l[j]][j := l[i]]) < Price(u, f, l)
  {
    hide Sum, Times;
    var g := Prods(f, l);
    var l' := l[i := l[j]][j := l[i]];
    var a, b := Times(f[i], l[j]), Times(f[j], l[i]);
    if i == j {
      assert l' == l;
    } else {
      assert Prods(f, l') == g[i := a][j := b];
      SumPut(u, g, |l|, i, a);
      SumPut(u, g[i := a], |l|, j, b);
      Rearranged(f[i], f[j], l[i], l[j]);
      if f[i] < f[j] && l[i] < l[j] {
        RearrangedLess(f[i], f[j], l[i], l[j]);
      }
    }
  }

  /** Shares of codes of d bits. */
  lemma {:induction false} SharesUp(u: set<nat>, l: seq<nat>, d: nat, top: nat, n: nat)
    requires n <= |l| && d <= top && forall i :: 0 <= i < n && i in u ==> l[i] <= d
    ensures Sum(u, Shares(l, top), n) == Shl(Sum(u, Shares(l, d), n), top - d)
  {
    hide Pow2, Shl;
    if n > 0 {
      SharesUp(u, l, d, top, n - 1);
      if n - 1 in u {
        ShlPow2(d - l[n - 1], top - d);
        ShlAdd(Sum(u, Shares(l, d), n - 1), Pow2(d - l[n - 1]), top - d);
      }
    } else {
      ShlAdd(0, 0, top - d);
    }
  }

  /** A code longer than all others can be cut to the longest of them. */
  lemma CutCode(u: set<nat>, l: seq<nat>, top: nat, i: nat, d: nat)
    requires Code(u, l, top) && i in u && d <= l[i] && forall j :: j in u && j != i ==> l[j] <= d
    ensures Code(u, l[i := d], top)
  {
    hide Sum, Pow2, Shl;
    var l', rest, n := l[i := d], u - {i}, |l|;
    SumOut(u, Shares(l, top), n, i);
    SumOut(u, Shares(l', top), n, i);
    SumSame(rest, rest, Shares(l, top), Shares(l', top), n);
    SharesUp(rest, l, d, top, n);
    var q := Sum(rest, Shares(l, d), n);
    ShlPow2(d, top - d);
    if q >= Pow2(d) {
      ShlMono(Pow2(d), q, top - d);
      assert false;
    }
    ShlMono(q + 1, Pow2(d), top - d);
    ShlAdd(q, 1, top - d);
    ShlOne(top - d);
  }

  lemma ShlOne(n: nat)
    ensures Shl(1, n) == Pow2(n)
  {
    ShlPow2(0, n);
    assert Pow2(0) == 1;
  }

  lemma CutPrice(u: set<nat>, f: seq<nat>, l: seq<nat>, i: nat, d: nat)
    requires |f| == |l| && Inside(u, |l|) && i in u && d <= l[i]
    ensures Price(u, f, l[i := d]) <= Price(u, f, l)
  {
    hide Sum, Times;
    var g := Prods(f, l);
    assert Prods(f, l[i := d]) == g[i := Times(f[i], d)];
    SumPut(u, g, |l|, i, Times(f[i], d));
    TimesMono(f[i], d, l[i]);
  }

  // ---------- merging ----------

  lemma Longest(u: set<nat>, l: seq<nat>, n: nat, some: nat) returns (x: nat)
    requires n <= |l| && some in u && some < n
    ensures x in u && x < n && forall i :: 0 <= i < n && i in u ==> l[i] <= l[x]
  {
    x := some;
    var k := 0;
    while k < n
      invariant k <= n && x in u && x < n && forall i :: 0 <= i < k && i in u ==> l[i] <= l[x]
    {
      if k in u && l[k] > l[x] {
        x := k;
      }
      k := k + 1;
    }
  }

  /** The two lightest nodes, the lower one first where the weight is the same. */
  ghost predicate Lightest(u: set<nat>, f: seq<nat>, p: seq<nat>, n: nat, m: nat) {
    && n in u && m in u && n != m && Inside(u, |f|) && Smaller(f, p, n, m)
    && forall x :: x in u && x != n ==> Smaller(f, p, m, x)
  }

  /** With the lengths of l, no node has anything below it deeper than max. */
  ghost predicate Within(u: set<nat>, l: seq<nat>, p: seq<nat>, max: nat) {
    forall x :: x in u ==> x < |l| && x < |p| && l[x] + p[x] <= max
  }

  /** If the first of two nodes gets the greater length, nothing gets deeper unless it gets cheaper. */
  lemma SwapWithin(u: set<nat>, f: seq<nat>, p: seq<nat>, l: seq<nat>, i: nat, j: nat, max: nat)
    requires |f| == |l| && Inside(u, |l|) && i in u && j in u && Smaller(f, p, i, j) && l[i] <= l[j]
    ensures var l' := l[i := l[j]][j := l[i]];
            Within(u, l, p, max) && Price(u, f, l') == Price(u, f, l) ==> Within(u, l', p, max)
  {
    hide Price;
    SwapPrice(u, f, l, i, j);
  }

  /** They can be given the same length, and no other is longer; nothing gets deeper unless it gets cheaper. */
  lemma Level(u: set<nat>, f: seq<nat>, p: seq<nat>, l: seq<nat>, top: nat, n: nat, m: nat, max: nat)
      returns (l': seq<nat>)
    requires |f| == |l| && Code(u, l, top) && Lightest(u, f, p, n, m)
    ensures |l'| == |l| && Code(u, l', top) && l'[n] == l'[m] && Price(u, f, l') <= Price(u, f, l)
    ensures Within(u, l, p, max) && Price(u, f, l') == Price(u, f, l) ==> Within(u, l', p, max)
  {
    hide Sum, Prods, Shares, Price;
    var x := Longest(u, l, |l|, n);
    var l1 := LongestFirst(u, f, p, l, top, n, x, max);
    var y := Longest(u - {n}, l1, |l|, m);
    var l2 := LongestFirst(u, f, p, l1, top, m, y, max);
    CutCode(u, l2, top, n, l2[m]);
    CutPrice(u, f, l2, n, l2[m]);
    l' := l2[n := l2[m]];
  }

  lemma LongestFirst(u: set<nat>, f: seq<nat>, p: seq<nat>, l: seq<nat>, top: nat, n: nat, x: nat, max: nat)
      returns (l': seq<nat>)
    requires |f| == |l| && Code(u, l, top) && n in u && x in u && l[n] <= l[x] && (n == x || Smaller(f, p, n, x))
    ensures l' == l[n := l[x]][x := l[n]] && Code(u, l', top) && Price(u, f, l') <= Price(u, f, l)
    ensures Within(u, l, p, max) && Price(u, f, l') == Price(u, f, l) ==> Within(u, l', p, max)
  {
    hide Sum, Prods, Shares, Price;
    l' := l[n := l[x]][x := l[n]];
    SwapCode(u, l, top, n, x);
    if n == x {
      assert l' == l;
    } else {
      SwapPrice(u, f, l, n, x);
      SwapWithin(u, f, p, l, n, x, max);
    }
  }

  /** Their father gets a length one less. */
  lemma Father(u: set<nat>, f: seq<nat>, l: seq<nat>, top: nat, n: nat, m: nat, node: nat)
    requires |f| == |l| && Code(u, l, top) && n in u && m in u && n != m && l[n] == l[m] && node < |l| && node !in u &&
             f[node] == f[n] + f[m]
    ensures l[n] >= 1
    ensures var u', l' := u - {n, m} + {node}, l[node := l[n] - 1];
            Code(u', l', top) && Price(u, f, l) == Price(u', f, l') + f[node]
  {
    hide Sum, Pow2, Times;
    var rest, size := u - {n, m}, |l|;
    assert rest == u - {n} - {m};
    SumOut(u, Shares(l, top), size, n);
    SumOut(u - {n}, Shares(l, top), size, m);
    SumOut(u, Prods(f, l), size, n);
    SumOut(u - {n}, Prods(f, l), size, m);
    if l[n] == 0 {
      assert false;
    }
    var l' := l[node := l[n] - 1];
    HalfShares(l[n], top);
    SumSame(rest, rest, Shares(l, top), Shares(l', top), size);
    SumSame(rest, rest, Prods(f, l), Prods(f, l'), size);
    SumIn(rest, Shares(l', top), size, node);
    SumIn(rest, Prods(f, l'), size, node);
    OneLess(f[n], f[m], l[n]);
  }

  lemma HalfShares(len: nat, top: nat)
    requires 1 <= len <= top
    ensures Share(len - 1, top) == 2 * Share(len, top)
  {
  }

  lemma OneLess(a: nat, b: nat, len: nat)
    requires len >= 1
    ensures Times(a, len) + Times(b, len) == Times(a + b, len - 1) + (a + b)
  {
  }

  // ---------- all merges ----------

  /** The nodes that have no father when s pairs have been merged. */
  ghost function Live(leaves: set<nat>, elems: nat, ns: seq<nat>, ms: seq<nat>, s: nat): set<nat>
    requires s <= |ns| && s <= |ms|
  {
    if s == 0 then leaves else Live(leaves, elems, ns, ms, s - 1) - {ns[s - 1], ms[s - 1]} + {elems + s - 1}
  }

  /** p tells how high the nodes are; at every step the two lightest were merged. */
  ghost predicate Greedy(f: seq<nat>, p: seq<nat>, leaves: set<nat>, elems: nat, ns: seq<nat>, ms: seq<nat>) {
    && |ns| == |ms| && elems + |ns| <= |f| && elems + |ns| <= |p| && Inside(leaves, elems)
    && (forall n :: n in leaves ==> p[n] == 0)
    && forall s :: 0 <= s < |ns| ==> GreedyAt(f, p, leaves, elems, ns, ms, s)
  }

  ghost predicate GreedyAt(f: seq<nat>, p: seq<nat>, leaves: set<nat>, elems: nat, ns: seq<nat>, ms: seq<nat>, s: nat) {
    && s < |ns| && s < |ms| && elems + s < |f| && elems + s < |p|
    && Lightest(Live(leaves, elems, ns, ms, s), f, p, ns[s], ms[s])
    && f[elems + s] == f[ns[s]] + f[ms[s]] && p[elems + s] == Higher(p[ns[s]], p[ms[s]]) + 1
  }

  function Higher(a: nat, b: nat): nat {
    if a >= b then a else b
  }

  /** The weights of the fathers from s on. */
  function Fathers(f: seq<nat>, elems: nat, t: nat, s: nat): nat
    requires elems + t <= |f|
    decreases t - s
  {
    if s >= t then 0 else f[elems + s] + Fathers(f, elems, t, s + 1)
  }

  lemma {:induction false} LiveInside(leaves: set<nat>, elems: nat, ns: seq<nat>, ms: seq<nat>, s: nat)
    requires s <= |ns| && s <= |ms| && Inside(leaves, elems)
    ensures Inside(Live(leaves, elems, ns, ms, s), elems + s)
  {
    if s > 0 {
      LiveInside(leaves, elems, ns, ms, s - 1);
    }
  }

  /** No code is cheaper than the fathers weigh together; and one that is as cheap is no lower than the tree. */
  lemma {:induction false} NoCheaper(f: seq<nat>, p: seq<nat>, leaves: set<nat>, elems: nat, ns: seq<nat>,
        ms: seq<nat>, s: nat, l: seq<nat>, top: nat, max: nat)
    requires Greedy(f, p, leaves, elems, ns, ms) && s <= |ns| && |l| == |f| &&
             Code(Live(leaves, elems, ns, ms, s), l, top)
    ensures var u := Live(leaves, elems, ns, ms, s);
            && Price(u, f, l) >= Fathers(f, elems, |ns|, s)
            && (Price(u, f, l) == Fathers(f, elems, |ns|, s) && Within(u, l, p, max) ==>
                forall root :: root in Live(leaves, elems, ns, ms, |ns|) ==> root < |p| && p[root] <= max)
    decreases |ns| - s
  {
    hide Sum, Price, Code, Lightest, Higher;
    if s < |ns| {
      assert GreedyAt(f, p, leaves, elems, ns, ms, s);
      var u, node := Live(leaves, elems, ns, ms, s), elems + s;
      LiveInside(leaves, elems, ns, ms, s);
      LightestIn(u, f, p, ns[s], ms[s]);
      var l1 := Level(u, f, p, l, top, ns[s], ms[s], max);
      Father(u, f, l1, top, ns[s], ms[s], node);
      var l2 := l1[node := l1[ns[s]] - 1];
      FatherWithin(u, l1, p, ns[s], ms[s], node, max);
      NoCheaper(f, p, leaves, elems, ns, ms, s + 1, l2, top, max);
    }
  }

  lemma FatherWithin(u: set<nat>, l: seq<nat>, p: seq<nat>, n: nat, m: nat, node: nat, max: nat)
    requires n in u && m in u && Inside(u, |l|) && l[n] == l[m] >= 1 && node < |l| && node < |p| && n < |p| && m < |p|
    requires p[node] == Higher(p[n], p[m]) + 1
    ensures Within(u, l, p, max) ==> Within(u - {n, m} + {node}, l[node := l[n] - 1], p, max)
  {
  }

  lemma LightestIn(u: set<nat>, f: seq<nat>, p: seq<nat>, n: nat, m: nat)
    requires Lightest(u, f, p, n, m)
    ensures n in u && m in u && n != m && Inside(u, |f|) && n < |p| && m < |p|
  {
  }

  /** Sons are one deeper than their father. */
  ghost predicate Deeper(l: seq<nat>, elems: nat, ns: seq<nat>, ms: seq<nat>) {
    && |ns| == |ms| && elems + |ns| <= |l|
    && forall s :: 0 <= s < |ns| ==>
        ns[s] < |l| && ms[s] < |l| && l[ns[s]] == l[elems + s] + 1 && l[ms[s]] == l[elems + s] + 1
  }

  /** With the depths in the tree as lengths, the price is what the fathers weigh. */
  lemma {:induction false} TreePrice(f: seq<nat>, p: seq<nat>, leaves: set<nat>, elems: nat, ns: seq<nat>,
        ms: seq<nat>, s: nat, l: seq<nat>)
    requires Greedy(f, p, leaves, elems, ns, ms) && Deeper(l, elems, ns, ms) && s <= |ns| && |l| == |f|
    requires Price(Live(leaves, elems, ns, ms, |ns|), f, l) == 0
    ensures Price(Live(leaves, elems, ns, ms, s), f, l) == Fathers(f, elems, |ns|, s)
    decreases |ns| - s
  {
    hide Sum, Times, Lightest;
    if s < |ns| {
      assert GreedyAt(f, p, leaves, elems, ns, ms, s);
      var u, node, size, g := Live(leaves, elems, ns, ms, s), elems + s, |l|, Prods(f, l);
      var n, m := ns[s], ms[s];
      LiveInside(leaves, elems, ns, ms, s);
      LightestIn(u, f, p, n, m);
      TreePrice(f, p, leaves, elems, ns, ms, s + 1, l);
      SumOut(u, g, size, n);
      SumOut(u - {n}, g, size, m);
      assert u - {n} - {m} == u - {n, m};
      SumIn(u - {n, m}, g, size, node);
      OneLess(f[n], f[m], l[n]);
    }
  }
}
