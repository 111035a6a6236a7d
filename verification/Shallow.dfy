/**
 How high the tree of Huffman's merge is: no higher than that of any code that is as cheap, since the lower
 of two nodes of the same weight is merged first; and a high tree is heavy.
 */
module Shallow {
  import opened Bits
  import opened Optimal

  // ---------- a high tree is heavy ----------

  /** 1, 2, 3, 5, 8, ... */
  function Fibonacci(n: nat): (r: nat)
    ensures r >= 1
  {
    if n < 2 then n + 1 else Fibonacci(n - 1) + Fibonacci(n - 2)
  }

  lemma {:induction false} FibonacciMono(a: nat, b: nat)
    requires a <= b
    ensures Fibonacci(a) <= Fibonacci(b)
    decreases b
  {
    if a < b {
      FibonacciMono(a, b - 1);
    }
  }

  lemma Eight()
    ensures Fibonacci(8) == 55
  {
  }

  lemma Sixteen()
    ensures Fibonacci(16) == 2584
  {
    Eight();
    assert Fibonacci(9) == 89;
    assert Fibonacci(12) == 377;
  }

  /** Every node without a father is a leaf or the father of an earlier pair. */
  lemma {:induction false} LiveNode(leaves: set<nat>, elems: nat, ns: seq<nat>, ms: seq<nat>, s: nat, x: nat)
    requires s <= |ns| && s <= |ms| && x in Live(leaves, elems, ns, ms, s)
    ensures x in leaves || elems <= x < elems + s
  {
    if s > 0 && x != elems + s - 1 {
      LiveNode(leaves, elems, ns, ms, s - 1, x);
    }
  }

  /** What is left after a merge weighs no less than what was merged. */
  lemma {:induction false} LaterHeavier(f: seq<nat>, p: seq<nat>, leaves: set<nat>, elems: nat, ns: seq<nat>,
        ms: seq<nat>, r: nat, s: nat, x: nat)
    requires Greedy(f, p, leaves, elems, ns, ms) && r < s <= |ns| && x in Live(leaves, elems, ns, ms, s)
    ensures x < |f| && ms[r] < |f| && ns[r] < |f| && f[ns[r]] <= f[ms[r]] <= f[x]
    decreases s, 0
  {
    assert GreedyAt(f, p, leaves, elems, ns, ms, s - 1);
    assert GreedyAt(f, p, leaves, elems, ns, ms, r);
    if r < s - 1 {
      if x == elems + s - 1 {
        LaterHeavier(f, p, leaves, elems, ns, ms, r, s - 1, ns[s - 1]);
      } else {
        LaterHeavier(f, p, leaves, elems, ns, ms, r, s - 1, x);
      }
    }
  }

  ghost predicate Occur(f: seq<nat>, leaves: set<nat>) {
    forall n :: n in leaves ==> n < |f| && f[n] >= 1
  }

  /** A node of height h weighs at least the h-th Fibonacci number. */
  lemma {:induction false} Heavy(f: seq<nat>, p: seq<nat>, leaves: set<nat>, elems: nat, ns: seq<nat>, ms: seq<nat>,
        s: nat, x: nat)
    requires Greedy(f, p, leaves, elems, ns, ms) && Occur(f, leaves) && s <= |ns| && x in Live(leaves, elems, ns, ms, s)
    ensures x < |f| && x < |p| && f[x] >= Fibonacci(p[x])
    decreases s, 0
  {
    hide Live;
    LiveNode(leaves, elems, ns, ms, s, x);
    if x !in leaves {
      var r := x - elems;
      assert GreedyAt(f, p, leaves, elems, ns, ms, r);
      Sons(f, p, leaves, elems, ns, ms, r);
      if p[x] > 1 {
        if p[ns[r]] >= p[ms[r]] {
          Taller(f, p, leaves, elems, ns, ms, r, ns[r], ms[r]);
        } else {
          Taller(f, p, leaves, elems, ns, ms, r, ms[r], ns[r]);
        }
      } else {
        FibonacciMono(0, p[ns[r]]);
        FibonacciMono(0, p[ms[r]]);
      }
    }
  }

  lemma {:induction false} Sons(f: seq<nat>, p: seq<nat>, leaves: set<nat>, elems: nat, ns: seq<nat>, ms: seq<nat>,
        r: nat)
    requires Greedy(f, p, leaves, elems, ns, ms) && Occur(f, leaves) && r < |ns|
    ensures ns[r] < |f| && ns[r] < |p| && ms[r] < |f| && ms[r] < |p|
    ensures f[ns[r]] >= Fibonacci(p[ns[r]]) && f[ms[r]] >= Fibonacci(p[ms[r]])
    decreases r, 1
  {
    hide Live;
    assert GreedyAt(f, p, leaves, elems, ns, ms, r);
    Heavy(f, p, leaves, elems, ns, ms, r, ns[r]);
    Heavy(f, p, leaves, elems, ns, ms, r, ms[r]);
  }

  /** x is the taller son of a pair, and y, though lower, weighs as much as the heavier son of x. */
  lemma {:induction false} Taller(f: seq<nat>, p: seq<nat>, leaves: set<nat>, elems: nat, ns: seq<nat>, ms: seq<nat>,
        r: nat, x: nat, y: nat)
    requires Greedy(f, p, leaves, elems, ns, ms) && Occur(f, leaves) && r < |ns|
    requires x in Live(leaves, elems, ns, ms, r) && y in Live(leaves, elems, ns, ms, r) && x < |p| && p[x] >= 1
    ensures y < |f| && f[y] >= Fibonacci(p[x] - 1)
    decreases r, 2
  {
    hide Live;
    LiveNode(leaves, elems, ns, ms, r, x);
    var q := x - elems;
    assert GreedyAt(f, p, leaves, elems, ns, ms, q);
    Sons(f, p, leaves, elems, ns, ms, q);
    LaterHeavier(f, p, leaves, elems, ns, ms, q, r, y);
  }

  // ---------- the tree ----------

  /** A leaf of the tree is no deeper than the root is high. */
  lemma {:induction false} TreeWithin(f: seq<nat>, p: seq<nat>, leaves: set<nat>, elems: nat, ns: seq<nat>,
        ms: seq<nat>, s: nat, l: seq<nat>, root: nat)
    requires Greedy(f, p, leaves, elems, ns, ms) && Deeper(l, elems, ns, ms) && s <= |ns| && |l| == |f|
    requires Live(leaves, elems, ns, ms, |ns|) == {root} && root < |l| && root < |p| && l[root] == 0
    ensures Within(Live(leaves, elems, ns, ms, s), l, p, p[root])
    decreases |ns| - s
  {
    if s < |ns| {
      assert GreedyAt(f, p, leaves, elems, ns, ms, s);
      TreeWithin(f, p, leaves, elems, ns, ms, s + 1, l, root);
    }
  }

  /** The depths of the leaves are the lengths of a prefix code. */
  lemma {:induction false} TreeCode(f: seq<nat>, p: seq<nat>, leaves: set<nat>, elems: nat, ns: seq<nat>,
        ms: seq<nat>, s: nat, l: seq<nat>, root: nat)
    requires Greedy(f, p, leaves, elems, ns, ms) && Deeper(l, elems, ns, ms) && s <= |ns| && |l| == |f|
    requires Live(leaves, elems, ns, ms, |ns|) == {root} && root < |l| && root < |p| && l[root] == 0
    ensures Code(Live(leaves, elems, ns, ms, s), l, p[root])
    decreases |ns| - s
  {
    hide Sum, Pow2, Lightest;
    var top, size := p[root], |l|;
    TreeWithin(f, p, leaves, elems, ns, ms, s, l, root);
    var g := Shares(l, top);
    if s < |ns| {
      assert GreedyAt(f, p, leaves, elems, ns, ms, s);
      var u, node, n, m := Live(leaves, elems, ns, ms, s), elems + s, ns[s], ms[s];
      LiveInside(leaves, elems, ns, ms, s);
      LightestIn(u, f, p, n, m);
      TreeCode(f, p, leaves, elems, ns, ms, s + 1, l, root);
      SumOut(u, g, size, n);
      SumOut(u - {n}, g, size, m);
      assert u - {n} - {m} == u - {n, m};
      SumIn(u - {n, m}, g, size, node);
      HalfShares(l[n], top);
    } else {
      RootShare(g, root, size);
    }
  }

  lemma RootShare(g: seq<nat>, root: nat, n: nat)
    requires root < n <= |g|
    ensures Sum({root}, g, n) == g[root]
  {
    hide Sum;
    SumIn({}, g, n, root);
    NoSum(g, n);
    assert {} + {root} == {root};
  }

  lemma {:induction false} NoSum(g: seq<nat>, n: nat)
    requires n <= |g|
    ensures Sum({}, g, n) == 0
  {
    if n > 0 {
      NoSum(g, n - 1);
    }
  }
}
