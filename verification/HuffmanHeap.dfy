/**
 The heap with which trees.c picks the least frequent nodes: heap[1..len], the sons of heap[n]
 being heap[2n] and heap[2n + 1].
 */
module HuffmanHeap {

  /** smaller: by frequency, then by depth. */
  predicate Smaller(f: seq<nat>, d: seq<nat>, n: nat, m: nat) {
    n < |f| && m < |f| && n < |d| && m < |d| && (f[n] < f[m] || (f[n] == f[m] && d[n] <= d[m]))
  }

  /** All nodes of the heap have a frequency and a depth. */
  ghost predicate Nodes(f: seq<nat>, d: seq<nat>, a: seq<nat>, len: nat) {
    len < |a| && forall i :: 1 <= i <= len ==> a[i] < |f| && a[i] < |d|
  }

  /** No son from k on comes before its father. */
  ghost predicate Heap(f: seq<nat>, d: seq<nat>, a: seq<nat>, len: nat, k: nat) {
    len < |a| && forall i :: 2 <= i <= len && i / 2 >= k ==> Smaller(f, d, a[i / 2], a[i])
  }

  lemma SmallerTotal(f: seq<nat>, d: seq<nat>, n: nat, m: nat)
    requires n < |f| && m < |f| && n < |d| && m < |d|
    ensures Smaller(f, d, n, m) || Smaller(f, d, m, n)
  {
  }

  lemma SmallerTrans(f: seq<nat>, d: seq<nat>, n: nat, m: nat, l: nat)
    requires Smaller(f, d, n, m) && Smaller(f, d, m, l)
    ensures Smaller(f, d, n, l)
  {
  }

  /** The first node of a heap comes before all others. */
  lemma {:induction false} FirstLeast(f: seq<nat>, d: seq<nat>, a: seq<nat>, len: nat, i: nat)
    requires Nodes(f, d, a, len) && Heap(f, d, a, len, 1) && 1 <= i <= len
    ensures Smaller(f, d, a[1], a[i])
    decreases i
  {
    if i > 1 {
      FirstLeast(f, d, a, len, i / 2);
      assert Smaller(f, d, a[i / 2], a[i]);
      SmallerTrans(f, d, a[1], a[i / 2], a[i]);
    }
  }

  /**
   While v moves down: there is a hole at k, all else is in order, and so it would be with any of the hole's sons in it.
   */
  ghost predicate Hole(f: seq<nat>, d: seq<nat>, a: seq<nat>, len: nat, k0: nat, k: nat, v: nat) {
    && len < |a| && 1 <= k0 <= k <= len
    && (forall i :: 2 <= i <= len && i / 2 >= k0 && i / 2 != k && i != k ==> Smaller(f, d, a[i / 2], a[i]))
    && (k > k0 ==> k / 2 >= k0 && Smaller(f, d, a[k / 2], v) && forall i :: 2 <= i <= len && i / 2 == k ==>
        Smaller(f, d, a[k / 2], a[i]))
  }

  lemma HoleDown(f: seq<nat>, d: seq<nat>, a: seq<nat>, len: nat, k0: nat, k: nat, v: nat, j: nat)
    requires Hole(f, d, a, len, k0, k, v) && Nodes(f, d, a, len) && 2 <= j <= len && j / 2 == k && v < |f| && v < |d|
    requires forall i :: 2 <= i <= len && i / 2 == k ==> Smaller(f, d, a[j], a[i])
    requires !Smaller(f, d, v, a[j])
    ensures Hole(f, d, a[k := a[j]], len, k0, j, v) && Nodes(f, d, a[k := a[j]], len)
  {
    hide Smaller;
    var b := a[k := a[j]];
    SmallerTotal(f, d, v, a[j]);
    forall i | 2 <= i <= len && i / 2 >= k0 && i / 2 != j && i != j ensures Smaller(f, d, b[i / 2], b[i]) {
      if i == k {
        assert Smaller(f, d, a[k / 2], a[j]);
      }
    }
    forall i | 2 <= i <= len && i / 2 == j ensures Smaller(f, d, b[j / 2], b[i]) {
      assert Smaller(f, d, a[i / 2], a[i]);
    }
  }

  lemma HoleFilled(f: seq<nat>, d: seq<nat>, a: seq<nat>, len: nat, k0: nat, k: nat, v: nat)
    requires Hole(f, d, a, len, k0, k, v)
    requires forall i :: 2 <= i <= len && i / 2 == k ==> Smaller(f, d, v, a[i])
    ensures Heap(f, d, a[k := v], len, k0)
  {
    hide Smaller;
    var b := a[k := v];
    forall i | 2 <= i <= len && i / 2 >= k0 ensures Smaller(f, d, b[i / 2], b[i]) {
      if i == k {
        assert k > k0;
      } else if i / 2 != k {
        assert Smaller(f, d, a[i / 2], a[i]);
      }
    }
  }

  lemma Swap(s: seq<nat>, k: nat, j: nat, v: nat)
    requires k < |s| && j < |s|
    ensures multiset(s[k := s[j]][j := v]) == multiset(s[k := v])
  {
    var t := s[k := v];
    assert s[k := s[j]][j := v] == if k == j then t else t[k := t[j]][j := t[k]];
  }

  lemma NodeAt(f: seq<nat>, d: seq<nat>, a: seq<nat>, len: nat, i: nat)
    requires Nodes(f, d, a, len) && 1 <= i <= len
    ensures len < |a| && a[i] < |f| && a[i] < |d|
  {
  }

  lemma HoleBegins(f: seq<nat>, d: seq<nat>, a: seq<nat>, len: nat, k: nat)
    requires Heap(f, d, a, len, k + 1) && 1 <= k <= len
    ensures Hole(f, d, a, len, k, k, a[k])
  {
    hide Smaller;
  }

  lemma SonsAfter(f: seq<nat>, d: seq<nat>, a: seq<nat>, len: nat, k: nat, j: nat, v: nat)
    requires len < |a| && j < |a| && Smaller(f, d, v, a[j])
    requires forall i :: 2 <= i <= len && i / 2 == k ==> Smaller(f, d, a[j], a[i])
    ensures forall i :: 2 <= i <= len && i / 2 == k ==> Smaller(f, d, v, a[i])
  {
  }

  lemma NodesPut(f: seq<nat>, d: seq<nat>, a: seq<nat>, len: nat, k: nat, v: nat)
    requires Nodes(f, d, a, len) && k < |a| && v < |f| && v < |d|
    ensures Nodes(f, d, a[k := v], len)
  {
  }

  /** The smaller son of k. */
  method SmallerSon(heap: array<nat>, len: nat, freq: array<nat>, depth: array<nat>, k: nat) returns (j: nat)
    requires Nodes(freq[..], depth[..], heap[..], len) && 1 <= k && 2 * k <= len
    ensures 2 <= j <= len && j / 2 == k
    ensures forall i :: 2 <= i <= len && i / 2 == k ==> Smaller(freq[..], depth[..], heap[j], heap[i])
  {
    j := 2 * k;
    if j < len && Smaller(freq[..], depth[..], heap[j + 1], heap[j]) {
      j := j + 1;
    }
  }

  /** pqdownheap: heap[k] moves down to where it belongs. */
  method PqDownHeap(heap: array<nat>, len: nat, freq: array<nat>, depth: array<nat>, k: nat)
    requires heap != freq && heap != depth && Nodes(freq[..], depth[..], heap[..], len) && 1 <= k <= len
    requires Heap(freq[..], depth[..], heap[..], len, k + 1)
    modifies heap
    ensures Nodes(freq[..], depth[..], heap[..], len) && Heap(freq[..], depth[..], heap[..], len, k)
    ensures multiset(heap[1..len + 1]) == multiset(old(heap[1..len + 1]))
    ensures heap[0] == old(heap[0]) && heap[len + 1..] == old(heap[len + 1..])
  {
    hide Smaller, Nodes, Hole, Heap;
    NodeAt(freq[..], depth[..], heap[..], len, k);
    var v := heap[k];
    var x := k;
    HoleBegins(freq[..], depth[..], heap[..], len, k);
    assert heap[1..len + 1][x - 1 := v] == heap[1..len + 1];
    while 2 * x <= len
      invariant k <= x <= len && Nodes(freq[..], depth[..], heap[..], len) &&
                Hole(freq[..], depth[..], heap[..], len, k, x, v)
      invariant multiset(heap[1..len + 1][x - 1 := v]) == multiset(old(heap[1..len + 1]))
      invariant heap[0] == old(heap[0]) && heap[len + 1..] == old(heap[len + 1..])
    {
      var j := SmallerSon(heap, len, freq, depth, x);
      if Smaller(freq[..], depth[..], v, heap[j]) {
        SonsAfter(freq[..], depth[..], heap[..], len, x, j, v);
        break;
      }
      HoleDown(freq[..], depth[..], heap[..], len, k, x, v, j);
      Swap(heap[1..len + 1], x - 1, j - 1, v);
      ghost var a := heap[..];
      heap[x] := heap[j];
      assert heap[..] == a[x := a[j]];
      assert heap[1..len + 1] == a[1..len + 1][x - 1 := a[j]];
      x := j;
    }
    HoleFilled(freq[..], depth[..], heap[..], len, k, x, v);
    ghost var a := heap[..];
    heap[x] := v;
    assert heap[..] == a[x := v];
    assert heap[1..len + 1] == a[1..len + 1][x - 1 := v];
    NodesPut(freq[..], depth[..], a, len, x, v);
  }
}
