/**
 What a block costs: the bits of its symbols, from how often each occurs.
 */
module Cost {
  /** a b, kept apart from the other arithmetic. */
  function Times(a: nat, b: nat): (r: nat) {
    a * b
  }

  /** f symbols of length l with x extra bits, if there is a code. */
  function Term(f: nat, u: nat, l: nat, x: nat): (c: int)
    ensures c >= 0
  {
    if u > 0 then f * (l + x) else 0
  }

  predicate Fit(f: seq<nat>, u: seq<nat>, l: seq<nat>, x: seq<nat>) {
    |u| <= |f| && |u| <= |l| && |u| <= |x|
  }

  /** All symbols with a code in u, at the lengths l. */
  function Weighted(f: seq<nat>, u: seq<nat>, l: seq<nat>, x: seq<nat>): (c: int)
    requires Fit(f, u, l, x)
    ensures c >= 0
    decreases |u|
  {
    if u == [] then 0
    else var n := |u| - 1; Weighted(f, u[..n], l, x) + Term(f[n], u[n], l[n], x[n])
  }

  /** The two agree for all symbols but n. */
  ghost predicate AgreeBut(f: seq<nat>, u: seq<nat>, l: seq<nat>, f': seq<nat>, u': seq<nat>, l': seq<nat>, n: int) {
    && |u| == |u'| <= |f| && |u| <= |f'| && |u| <= |l| && |u| <= |l'|
    && forall i :: 0 <= i < |u| && i != n ==> f'[i] == f[i] && u'[i] == u[i] && l'[i] == l[i]
  }

  lemma {:induction false} Same(f: seq<nat>, u: seq<nat>, l: seq<nat>, f': seq<nat>, l': seq<nat>, x: seq<nat>)
    requires Fit(f, u, l, x) && AgreeBut(f, u, l, f', u, l', -1)
    ensures Weighted(f', u, l', x) == Weighted(f, u, l, x)
    decreases |u|
  {
    hide Term;
    if u != [] {
      Same(f, u[..|u| - 1], l, f', l', x);
    }
  }

  /** Changing one symbol changes its term. */
  lemma {:induction false} Point(f: seq<nat>, u: seq<nat>, l: seq<nat>, f': seq<nat>, u': seq<nat>, l': seq<nat>,
        x: seq<nat>, n: nat)
    requires Fit(f, u, l, x) && AgreeBut(f, u, l, f', u', l', n) && n < |u|
    ensures Weighted(f', u', l', x) + Term(f[n], u[n], l[n], x[n]) ==
            Weighted(f, u, l, x) + Term(f'[n], u'[n], l'[n], x[n])
    decreases |u|
  {
    hide Term;
    var k := |u| - 1;
    if n == k {
      assert u'[..k] == u[..k];
      Same(f, u[..k], l, f', l', x);
    } else {
      Point(f, u[..k], l, f', u'[..k], l', x, n);
    }
  }

  /** A symbol occurs once more. */
  lemma OneMore(f: seq<nat>, u: seq<nat>, l: seq<nat>, x: seq<nat>, n: nat)
    requires Fit(f, u, l, x) && n < |u| && u[n] > 0
    ensures Weighted(f[n := f[n] + 1], u, l, x) == Weighted(f, u, l, x) + l[n] + x[n]
  {
    Point(f, u, l, f[n := f[n] + 1], u, l, x, n);
    Distributes(f[n], l[n] + x[n]);
  }

  lemma Distributes(a: nat, b: nat)
    ensures (a + 1) * b == a * b + b
  {
  }

  /** Nothing occurs. */
  lemma {:induction false} Nothing(f: seq<nat>, u: seq<nat>, l: seq<nat>, x: seq<nat>)
    requires Fit(f, u, l, x) && forall i :: 0 <= i < |u| ==> f[i] == 0
    ensures Weighted(f, u, l, x) == 0
    decreases |u|
  {
    if u != [] {
      Nothing(f, u[..|u| - 1], l, x);
    }
  }

  /** No symbol has a code. */
  lemma {:induction false} NoCodes(f: seq<nat>, u: seq<nat>, l: seq<nat>, x: seq<nat>)
    requires Fit(f, u, l, x) && forall i :: 0 <= i < |u| ==> u[i] == 0
    ensures Weighted(f, u, l, x) == 0
    decreases |u|
  {
    if u != [] {
      NoCodes(f, u[..|u| - 1], l, x);
    }
  }
}
