/**
 build_tree up to the point where every node has its father: the nodes are listed from
 heap[heap_max] on, each after its father, brothers side by side.
 */
module HuffmanTree {
  import opened HuffmanHeap
  import Optimal
  import Shallow

  const HEAP_SIZE := 573   // 2 * L_CODES + 1

  ghost function Internals(elems: nat, t: nat): set<nat> {
    if t == 0 then {} else Internals(elems, t - 1) + {elems + t - 1}
  }

  ghost function Leaves(freq: seq<nat>, elems: nat): set<nat>
    requires elems <= |freq|
  {
    set n | 0 <= n < elems && freq[n] != 0
  }

  // ---------- merging ----------

  /**
   t pairs have been merged: the pair of father elems + s is listed at HEAP_SIZE - 2 - 2s, after its father if that is
   listed.
   */
  ghost predicate Merging(a: seq<nat>, len: nat, dl: seq<nat>, elems: nat, t: nat, leaves: set<nat>) {
    && |a| == HEAP_SIZE && |dl| >= 2 * elems && 1 <= len && len + t <= elems && 2 * elems < HEAP_SIZE
    && (forall n :: n in leaves ==> n < elems)
    && multiset(a[1..len + 1]) + multiset(a[HEAP_SIZE - 2 * t..]) == multiset(leaves + Internals(elems, t))
    && (forall s :: 0 <= s < t ==> Pair(a, dl, elems, s))
    && (forall h :: HEAP_SIZE - 2 * t <= h < HEAP_SIZE ==> Listed(a, elems, h))
  }

  ghost predicate Pair(a: seq<nat>, dl: seq<nat>, elems: nat, s: nat) {
    && |a| == HEAP_SIZE && 2 * s + 2 <= HEAP_SIZE
    && a[HEAP_SIZE - 1 - 2 * s] < |dl| && dl[a[HEAP_SIZE - 1 - 2 * s]] == elems + s
    && a[HEAP_SIZE - 2 - 2 * s] < |dl| && dl[a[HEAP_SIZE - 2 - 2 * s]] == elems + s
  }

  ghost predicate Listed(a: seq<nat>, elems: nat, h: nat) {
    |a| == HEAP_SIZE && h < HEAP_SIZE && a[h] < 2 * elems && (a[h] >= elems ==> 2 * (a[h] - elems) < HEAP_SIZE - 2 - h)
  }

  /** The first of len nodes has left the heap. */
  ghost predicate Removed(a: seq<nat>, b: seq<nat>, len: nat) {
    && 2 <= len < |a| == |b|
    && multiset(a[1..len + 1]) == multiset(b[1..len]) + multiset{a[1]} && b[len + 1..] == a[len + 1..]
  }

  /** x and y have been listed, and node put in the place of the first of len nodes. */
  ghost predicate Replaced(a: seq<nat>, b: seq<nat>, len: nat, t: nat, x: nat, y: nat, node: nat) {
    && |a| == |b| == HEAP_SIZE && 1 <= len && len + 2 * t + 3 < HEAP_SIZE
    && var c := a[HEAP_SIZE - 1 - 2 * t := x][HEAP_SIZE - 2 - 2 * t := y][1 := node];
       multiset(b[1..len + 1]) == multiset(c[1..len + 1]) && b[len + 1..] == c[len + 1..]
  }

  /** pqremove: the least frequent node leaves the heap. */
  method PqRemove(heap: array<nat>, len: nat, freq: array<nat>, depth: array<nat>) returns (n: nat)
    requires heap != freq && heap != depth && Nodes(freq[..], depth[..], heap[..], len) && 2 <= len
    requires Heap(freq[..], depth[..], heap[..], len, 1)
    modifies heap
    ensures n == old(heap[1]) && Nodes(freq[..], depth[..], heap[..], len - 1) &&
            Heap(freq[..], depth[..], heap[..], len - 1, 1)
    ensures Removed(old(heap[..]), heap[..], len)
    ensures forall i :: 1 <= i < len ==> Smaller(freq[..], depth[..], n, heap[i])
  {
    hide Smaller, Nodes, Heap, Removed;
    ghost var a := heap[..];
    NodesSize(freq[..], depth[..], a, len);
    n := heap[1];
    heap[1] := heap[len];
    ghost var b := a[1 := a[len]];
    assert heap[..] == b;
    LastFirst(freq[..], depth[..], a, len);
    PqDownHeap(heap, len - 1, freq, depth, 1);
    IsRemoved(a, heap[..], len);
    AllAfter(freq[..], depth[..], a, len, heap[..]);
  }

  lemma RemoveFirst(a: seq<nat>, len: nat)
    requires 2 <= len < |a|
    ensures multiset(a[1..len + 1]) == multiset(a[1 := a[len]][1..len]) + multiset{a[1]}
  {
    assert a[1..len + 1] == [a[1]] + a[2..len] + [a[len]];
    assert a[1 := a[len]][1..len] == [a[len]] + a[2..len];
  }

  lemma IsRemoved(a: seq<nat>, b: seq<nat>, len: nat)
    requires 2 <= len < |a| == |b| &&
      var c := a[1 := a[len]]; multiset(b[1..len]) == multiset(c[1..len]) && b[len..] == c[len..]
    ensures Removed(a, b, len)
  {
    RemoveFirst(a, len);
    assert b[len + 1..] == b[len..][1..] && a[len + 1..] == a[len..][1..];
  }

  lemma NodesSize(f: seq<nat>, d: seq<nat>, a: seq<nat>, len: nat)
    requires Nodes(f, d, a, len)
    ensures len < |a|
  {
  }

  lemma LastFirst(f: seq<nat>, d: seq<nat>, a: seq<nat>, len: nat)
    requires Nodes(f, d, a, len) && Heap(f, d, a, len, 1) && 2 <= len
    ensures Nodes(f, d, a[1 := a[len]], len - 1) && Heap(f, d, a[1 := a[len]], len - 1, 2)
  {
    hide Smaller;
  }

  lemma AllAfter(f: seq<nat>, d: seq<nat>, a: seq<nat>, len: nat, b: seq<nat>)
    requires Nodes(f, d, a, len) && Heap(f, d, a, len, 1) && 2 <= len < |b|
    requires Removed(a, b, len)
    ensures forall i :: 1 <= i < len ==> Smaller(f, d, a[1], b[i])
  {
    hide Smaller;
    forall i | 1 <= i < len ensures Smaller(f, d, a[1], b[i]) {
      assert b[1..len][i - 1] == b[i];
      assert b[i] in multiset(a[1..len + 1]);
      var j :| 0 <= j < len && a[1..len + 1][j] == b[i];
      FirstLeast(f, d, a, len, j + 1);
    }
  }

  lemma {:induction false} InternalsAre(elems: nat, t: nat, n: nat)
    ensures n in Internals(elems, t) <==> elems <= n < elems + t
    decreases t
  {
    if t > 0 {
      InternalsAre(elems, t - 1, n);
    }
  }

  /** The heap and the list between them hold each node once. */
  lemma OnceEach(a: seq<nat>, len: nat, dl: seq<nat>, elems: nat, t: nat, leaves: set<nat>, x: nat)
    requires Merging(a, len, dl, elems, t, leaves)
    ensures multiset(a[1..len + 1])[x] + multiset(a[HEAP_SIZE - 2 * t..])[x] <= 1
    ensures x in a[1..len + 1] || x in a[HEAP_SIZE - 2 * t..] ==> x < elems + t
  {
    hide Pair, Listed, Internals;
    InternalsAre(elems, t, x);
    var live, list := multiset(a[1..len + 1]), multiset(a[HEAP_SIZE - 2 * t..]);
    assert (live + list)[x] == multiset(leaves + Internals(elems, t))[x];
    if x in a[1..len + 1] || x in a[HEAP_SIZE - 2 * t..] {
      assert x in live + list;
    }
  }

  /**
   What a step of the merge does to the heap array: n has left, m is listed after it, their father takes m's place.
   */
  ghost predicate Step(a: seq<nat>, b: seq<nat>, len: nat, t: nat, n: nat, m: nat, node: nat) {
    && |a| == |b| == HEAP_SIZE && 2 <= len && len + 2 * t + 2 < HEAP_SIZE
    && multiset(a[1..len + 1]) + multiset{node} == multiset(b[1..len]) + multiset{n, m}
    && n in a[1..len + 1] && m in a[1..len + 1] && b[HEAP_SIZE - 1 - 2 * t] == n && b[HEAP_SIZE - 2 - 2 * t] == m
    && b[HEAP_SIZE - 2 * t..] == a[HEAP_SIZE - 2 * t..]
  }

  lemma StepFresh(a: seq<nat>, b: seq<nat>, len: nat, dl: seq<nat>, elems: nat, t: nat, leaves: set<nat>, n: nat,
        m: nat)
    requires Merging(a, len, dl, elems, t, leaves) && Step(a, b, len, t, n, m, elems + t)
    ensures n != m && n < elems + t && m < elems + t && n !in a[HEAP_SIZE - 2 * t..] && m !in a[HEAP_SIZE - 2 * t..]
  {
    hide Merging;
    var live, list := multiset(a[1..len + 1]), multiset(a[HEAP_SIZE - 2 * t..]);
    OnceEach(a, len, dl, elems, t, leaves, n);
    OnceEach(a, len, dl, elems, t, leaves, m);
    assert (live + multiset{elems + t})[n] == (multiset(b[1..len]) + multiset{n, m})[n];
    assert (live + multiset{elems + t})[m] == (multiset(b[1..len]) + multiset{n, m})[m];
  }

  lemma StepIds(a: seq<nat>, b: seq<nat>, len: nat, dl: seq<nat>, elems: nat, t: nat, leaves: set<nat>, n: nat, m: nat)
    requires Merging(a, len, dl, elems, t, leaves) && Step(a, b, len, t, n, m, elems + t)
    ensures multiset(b[1..len]) + multiset(b[HEAP_SIZE - 2 * (t + 1)..]) == multiset(leaves + Internals(elems, t + 1))
  {
    hide Pair, Listed, Internals;
    var node, ids := elems + t, leaves + Internals(elems, t);
    InternalsAre(elems, t, node);
    NextInternal(elems, t, leaves);
    OneMore(ids, node);
    var tail := b[HEAP_SIZE - 2 * t..];
    assert b[HEAP_SIZE - 2 * (t + 1)..] == [m, n] + tail;
    MovedOver(multiset(a[1..len + 1]), multiset(b[1..len]), multiset(tail), multiset{node}, multiset{n, m});
  }

  lemma MovedOver(live: multiset<nat>, live': multiset<nat>, list: multiset<nat>, added: multiset<nat>,
        moved: multiset<nat>)
    requires live + added == live' + moved
    ensures live' + (moved + list) == live + list + added
  {
    assert live' + (moved + list) == (live' + moved) + list;
  }

  lemma NextInternal(elems: nat, t: nat, leaves: set<nat>)
    ensures leaves + Internals(elems, t + 1) == leaves + Internals(elems, t) + {elems + t}
  {
  }

  lemma OneMore(ids: set<nat>, x: nat)
    requires x !in ids
    ensures multiset(ids + {x}) == multiset(ids) + multiset{x}
  {
  }

  lemma StepPairs(a: seq<nat>, b: seq<nat>, len: nat, dl: seq<nat>, elems: nat, t: nat, leaves: set<nat>, n: nat,
        m: nat)
    requires Merging(a, len, dl, elems, t, leaves) && Step(a, b, len, t, n, m, elems + t)
    ensures n < |dl| && m < |dl|
    ensures var dl' := dl[n := elems + t][m := elems + t]; forall s :: 0 <= s < t + 1 ==> Pair(b, dl', elems, s)
    ensures forall h :: HEAP_SIZE - 2 * (t + 1) <= h < HEAP_SIZE ==> Listed(b, elems, h)
  {
    StepFresh(a, b, len, dl, elems, t, leaves, n, m);
    var dl' := dl[n := elems + t][m := elems + t];
    forall h: nat | HEAP_SIZE - 2 * t <= h < HEAP_SIZE ensures b[h] == a[h] && a[h] != n && a[h] != m &&
        Listed(b, elems, h) {
      var k := h - (HEAP_SIZE - 2 * t);
      assert b[HEAP_SIZE - 2 * t..][k] == a[HEAP_SIZE - 2 * t..][k];
      assert Listed(a, elems, h);
    }
    forall s | 0 <= s < t + 1 ensures Pair(b, dl', elems, s) {
      if s < t {
        assert Pair(a, dl, elems, s);
      }
    }
  }

  lemma Stepped(a: seq<nat>, b: seq<nat>, len: nat, dl: seq<nat>, elems: nat, t: nat, leaves: set<nat>, n: nat, m: nat)
    requires Merging(a, len, dl, elems, t, leaves) && Step(a, b, len, t, n, m, elems + t)
    ensures n < |dl| && m < |dl| && Merging(b, len - 1, dl[n := elems + t][m := elems + t], elems, t + 1, leaves)
  {
    hide Pair, Listed, Internals;
    StepIds(a, b, len, dl, elems, t, leaves, n, m);
    StepPairs(a, b, len, dl, elems, t, leaves, n, m);
  }

  /** Changing what no node of the heap has. */
  lemma HeapOther(f: seq<nat>, d: seq<nat>, f': seq<nat>, d': seq<nat>, a: seq<nat>, len: nat, k: nat, node: nat)
    requires Nodes(f, d, a, len) && Heap(f, d, a, len, k) && |f'| == |f| && |d'| == |d| && 1 <= k
    requires forall i :: 1 <= i <= len ==> a[i] < node
    requires forall n :: 0 <= n < |f| && n != node ==> f'[n] == f[n]
    requires forall n :: 0 <= n < |d| && n != node ==> d'[n] == d[n]
    ensures Nodes(f', d', a, len) && Heap(f', d', a, len, k)
  {
    forall i | 2 <= i <= len && i / 2 >= k ensures Smaller(f', d', a[i / 2], a[i]) {
      assert Smaller(f, d, a[i / 2], a[i]);
    }
  }

  lemma HeapPut(f: seq<nat>, d: seq<nat>, a: seq<nat>, len: nat, b: seq<nat>, node: nat)
    requires Nodes(f, d, a, len) && Heap(f, d, a, len, 1) && node < |f| && node < |d| && |b| == |a| && 1 <= len
    requires b[1] == node && forall i :: 2 <= i <= len ==> b[i] == a[i]
    ensures Nodes(f, d, b, len) && Heap(f, d, b, len, 2)
  {
    hide Smaller;
  }

  lemma MergingSize(a: seq<nat>, len: nat, dl: seq<nat>, elems: nat, t: nat, leaves: set<nat>)
    requires Merging(a, len, dl, elems, t, leaves)
    ensures |a| == HEAP_SIZE && |dl| >= 2 * elems && 1 <= len && len + t <= elems && 2 * elems < HEAP_SIZE
    ensures forall i :: 1 <= i <= len ==> a[i] < elems + t && (a[i] < elems ==> a[i] in leaves)
  {
    hide Internals, Pair, Listed;
    forall i | 1 <= i <= len ensures a[i] < elems + t && (a[i] < elems ==> a[i] in leaves) {
      assert a[1..len + 1][i - 1] == a[i];
      assert a[i] in multiset(a[1..len + 1]) + multiset(a[HEAP_SIZE - 2 * t..]);
      InternalsAre(elems, t, a[i]);
    }
  }

  lemma StepIs(a: seq<nat>, a1: seq<nat>, b: seq<nat>, len: nat, t: nat, node: nat)
    requires Removed(a, a1, len) && Replaced(a1, b, len - 1, t, a[1], a1[1], node)
    ensures Step(a, b, len, t, a[1], a1[1], node)
  {
    var n, m := a[1], a1[1];
    var a2 := a1[HEAP_SIZE - 1 - 2 * t := n][HEAP_SIZE - 2 - 2 * t := m][1 := node];
    assert a1[1..len] == [m] + a1[2..len];
    assert a2[1..len] == [node] + a1[2..len];
    assert a[1..len + 1][0] == n;
    assert m in multiset(a[1..len + 1]);
    var h := HEAP_SIZE - 2 * t;
    assert b[h..] == b[len..][h - len..];
    assert a[h..] == a[len + 1..][h - len - 1..];
    assert b[h - 1] == b[len..][h - 1 - len] && b[h - 2] == b[len..][h - 2 - len];
    assert b[h..] == a[h..];
  }

  /** Frequencies are 16 bits wide. */
  function Sum16(x: nat, y: nat): nat {
    (x + y) % 65536
  }

  /** Depths are eight bits wide. */
  function Above(x: nat, y: nat): nat {
    (Optimal.Higher(x, y) + 1) % 256
  }

  /** x and y are listed and get node as their father, which takes their place in the heap. */
  method Join(heap: array<nat>, freq: array<nat>, depth: array<nat>, dl: array<nat>, x: nat, y: nat, node: nat, t: nat)
    requires heap != freq && heap != depth && heap != dl && freq != depth && freq != dl && depth != dl
    requires heap.Length == HEAP_SIZE && 2 * t + 3 < HEAP_SIZE && x < node && y < node
    requires node < freq.Length && node < depth.Length && node < dl.Length
    modifies heap, freq, depth, dl
    ensures heap[..] == old(heap[..])[HEAP_SIZE - 1 - 2 * t := x][HEAP_SIZE - 2 - 2 * t := y][1 := node]
    ensures freq[..] == old(freq[..])[node := Sum16(old(freq[x]), old(freq[y]))]
    ensures depth[..] == old(depth[..])[node := Above(old(depth[x]), old(depth[y]))]
    ensures dl[..] == old(dl[..])[x := node][y := node]
  {
    heap[HEAP_SIZE - 1 - 2 * t] := x;
    heap[HEAP_SIZE - 2 - 2 * t] := y;
    freq[node] := Sum16(freq[x], freq[y]);
    depth[node] := Above(depth[x], depth[y]);
    dl[x] := node;
    dl[y] := node;
    heap[1] := node;
  }

  /** The father is put where it belongs. */
  method PqReplace(heap: array<nat>, len: nat, freq: array<nat>, depth: array<nat>, dl: array<nat>, x: nat, y: nat,
        node: nat, t: nat)
    requires heap != freq && heap != depth && heap != dl && freq != depth && freq != dl && depth != dl
    requires heap.Length == HEAP_SIZE && 2 * t + 3 < HEAP_SIZE && x < node && y < node && 1 <= len < HEAP_SIZE
    requires node < freq.Length && node < depth.Length && node < dl.Length
    requires Nodes(freq[..], depth[..], heap[..], len) && Heap(freq[..], depth[..], heap[..], len, 1)
    requires len + 2 * t + 3 < HEAP_SIZE && forall i :: 1 <= i <= len ==> heap[i] < node
    modifies heap, freq, depth, dl
    ensures Nodes(freq[..], depth[..], heap[..], len) && Heap(freq[..], depth[..], heap[..], len, 1)
    ensures Replaced(old(heap[..]), heap[..], len, t, x, y, node)
    ensures freq[..] == old(freq[..])[node := Sum16(old(freq[x]), old(freq[y]))]
    ensures depth[..] == old(depth[..])[node := Above(old(depth[x]), old(depth[y]))]
    ensures dl[..] == old(dl[..])[x := node][y := node]
  {
    hide Smaller, Nodes, Heap, Sum16, Above;
    ghost var a, f, d := heap[..], freq[..], depth[..];
    Join(heap, freq, depth, dl, x, y, node, t);
    ghost var a2 := heap[..];
    HeapOther(f, d, freq[..], depth[..], a, len, 1, node);
    HeapPut(freq[..], depth[..], a, len, a2, node);
    PqDownHeap(heap, len, freq, depth, 1);
  }

  /** One round of the merge: the two least frequent nodes get a father. */
  method MergeOne(heap: array<nat>, len: nat, freq: array<nat>, depth: array<nat>, dl: array<nat>, elems: nat, t: nat,
        ghost leaves: set<nat>)
      returns (ghost n: nat, ghost m: nat)
    requires heap != freq && heap != depth && heap != dl && freq != depth && freq != dl && depth != dl
    requires freq.Length >= 2 * elems && depth.Length >= 2 * elems && 2 <= len
    requires Merging(heap[..], len, dl[..], elems, t, leaves)
    requires Nodes(freq[..], depth[..], heap[..], len) && Heap(freq[..], depth[..], heap[..], len, 1)
    modifies heap, freq, depth, dl
    ensures Merging(heap[..], len - 1, dl[..], elems, t + 1, leaves)
    ensures Nodes(freq[..], depth[..], heap[..], len - 1) && Heap(freq[..], depth[..], heap[..], len - 1, 1)
    ensures (n < elems ==> n in leaves) && (m < elems ==> m in leaves)
    ensures n < elems + t && m < elems + t && freq[..elems + t] == old(freq[..elems + t]) &&
            dl[..] == old(dl[..])[n := elems + t][m := elems + t]
    ensures depth[..elems + t] == old(depth[..elems + t]) && depth[elems + t] == Above(depth[n], depth[m])
    ensures Smaller(old(freq[..]), old(depth[..]), n, m)
    ensures forall x :: x in old(heap[1..len + 1]) && x != n ==> Smaller(old(freq[..]), old(depth[..]), m, x)
    ensures freq[elems + t] == Sum16(freq[n], freq[m]) && Step(old(heap[..]), heap[..], len, t, n, m, elems + t)
  {
    hide Smaller, Nodes, Heap, Merging, Step, Pair, Listed, Sum16, Above, Removed, Replaced;
    ghost var a, f, d, l := heap[..], freq[..], depth[..], dl[..];
    var node := elems + t;
    MergingSize(a, len, l, elems, t, leaves);
    var x := PqRemove(heap, len, freq, depth);
    var y := heap[1];
    ghost var a1 := heap[..];
    n, m := x, y;
    OthersAfter(f, d, a, a1, len);
    LeastBelow(a, a1, len, node, elems, leaves);
    PqReplace(heap, len - 1, freq, depth, dl, x, y, node, t);
    ghost var b := heap[..];
    StepIs(a, a1, b, len, t, node);
    Stepped(a, b, len, l, elems, t, leaves, a[1], a1[1]);
  }

  lemma OthersAfter(f: seq<nat>, d: seq<nat>, a: seq<nat>, a1: seq<nat>, len: nat)
    requires 2 <= len < |a| && len < |a1| && Nodes(f, d, a1, len - 1) && Heap(f, d, a1, len - 1, 1)
    requires Removed(a, a1, len)
    ensures forall x :: x in a[1..len + 1] && x != a[1] ==> Smaller(f, d, a1[1], x)
  {
    hide Smaller;
    forall x | x in a[1..len + 1] && x != a[1] ensures Smaller(f, d, a1[1], x) {
      assert x in multiset(a[1..len + 1]);
      assert x in a1[1..len];
      var j :| 0 <= j < len - 1 && a1[1..len][j] == x;
      FirstLeast(f, d, a1, len - 1, j + 1);
    }
  }

  lemma LeastBelow(a: seq<nat>, a1: seq<nat>, len: nat, node: nat, elems: nat, leaves: set<nat>)
    requires 2 <= len < |a| && len < |a1| && forall i :: 1 <= i <= len ==>
      a[i] < node && (a[i] < elems ==> a[i] in leaves)
    requires Removed(a, a1, len)
    ensures forall i :: 1 <= i < len ==> a1[i] < node && (a1[i] < elems ==> a1[i] in leaves)
  {
    forall i | 1 <= i < len ensures a1[i] < node && (a1[i] < elems ==> a1[i] in leaves) {
      assert a1[1..len][i - 1] == a1[i];
      assert a1[i] in multiset(a[1..len + 1]);
      var j :| 0 <= j < len && a[1..len + 1][j] == a1[i];
    }
  }

  // ---------- which nodes were merged ----------

  /**
   ns and ms are the pairs merged so far, listed as they were; what is in the heap has no father yet.  Unless
   frequencies wrapped around, they were the two lightest each time, and the heap weighs what the leaves did.
   */
  ghost predicate History(a: seq<nat>, len: nat, f: seq<nat>, d: seq<nat>, elems: nat, leaves: set<nat>, ns: seq<nat>,
        ms: seq<nat>, total: nat) {
    var t := |ns|;
    && |ms| == t && elems + t <= |f| && |a| == HEAP_SIZE && 2 * t <= HEAP_SIZE && len < HEAP_SIZE &&
        Optimal.Inside(leaves, elems)
    && Heaped(a, len, Optimal.Live(leaves, elems, ns, ms, t)) && MergedAtEnd(a, ns, ms)
    && (total < 65536 ==>
        Optimal.Greedy(f, d, leaves, elems, ns, ms) && Shallow.Occur(f, leaves) &&
        Optimal.Sum(Optimal.Live(leaves, elems, ns, ms, t), f, |f|) == total)
  }

  /** The heap holds the nodes of live. */
  ghost predicate Heaped(a: seq<nat>, len: nat, live: set<nat>) {
    len < |a| && multiset(a[1..len + 1]) == multiset(live)
  }

  /** The nodes merged are at the other end. */
  ghost predicate MergedAtEnd(a: seq<nat>, ns: seq<nat>, ms: seq<nat>) {
    forall s :: 0 <= s < |ns| ==> ListedAs(a, ns, ms, s)
  }

  ghost predicate ListedAs(a: seq<nat>, ns: seq<nat>, ms: seq<nat>, s: nat) {
    && |a| == HEAP_SIZE && s < |ns| && s < |ms| && 2 * s + 2 <= HEAP_SIZE
    && ns[s] == a[HEAP_SIZE - 1 - 2 * s] && ms[s] == a[HEAP_SIZE - 2 - 2 * s]
  }

  lemma {:induction false} LivePrefix(leaves: set<nat>, elems: nat, ns: seq<nat>, ms: seq<nat>, n: nat, m: nat, s: nat)
    requires s <= |ns| && s <= |ms|
    ensures Optimal.Live(leaves, elems, ns + [n], ms + [m], s) == Optimal.Live(leaves, elems, ns, ms, s)
  {
    if s > 0 {
      LivePrefix(leaves, elems, ns, ms, n, m, s - 1);
    }
  }

  /** Two members of a set give way to a new one. */
  lemma SetMoves(live: set<nat>, n: nat, m: nat, node: nat, b: multiset<nat>)
    requires n in live && m in live && n != m && node !in live && multiset(live) + multiset{node} == b + multiset{n, m}
    ensures b == multiset(live - {n, m} + {node})
  {
    var r := multiset(live - {n, m} + {node});
    forall x ensures b[x] == r[x] {
      assert (multiset(live) + multiset{node})[x] == (b + multiset{n, m})[x];
    }
  }

  /** What a merge does to the nodes without a father. */
  lemma HistoryLive(a: seq<nat>, b: seq<nat>, len: nat, elems: nat, leaves: set<nat>, ns: seq<nat>, ms: seq<nat>,
        n: nat, m: nat)
    requires |ns| == |ms| && Optimal.Inside(leaves, elems) && n != m
    requires Heaped(a, len, Optimal.Live(leaves, elems, ns, ms, |ns|))
    requires Step(a, b, len, |ns|, n, m, elems + |ns|)
    ensures var t := |ns|; var live := Optimal.Live(leaves, elems, ns, ms, t);
            && n in live && m in live && elems + t !in live && Optimal.Inside(live, elems + t)
            && (forall x :: x in live ==> x in a[1..len + 1])
            && Optimal.Live(leaves, elems, ns + [n], ms + [m], t + 1) == live - {n, m} + {elems + t}
            && Heaped(b, len - 1, live - {n, m} + {elems + t})
  {
    var t := |ns|;
    var live := Optimal.Live(leaves, elems, ns, ms, t);
    Optimal.LiveInside(leaves, elems, ns, ms, t);
    LivePrefix(leaves, elems, ns, ms, n, m, t);
    SameMembers(a[1..len + 1], live);
    SetMoves(live, n, m, elems + t, multiset(b[1..len]));
  }

  lemma SameMembers(s: seq<nat>, u: set<nat>)
    requires multiset(s) == multiset(u)
    ensures forall x :: x in s <==> x in u
  {
    forall x ensures x in s <==> x in u {
      assert x in multiset(s) <==> x in multiset(u);
    }
  }

  lemma HistoryListed(a: seq<nat>, b: seq<nat>, len: nat, ns: seq<nat>, ms: seq<nat>, n: nat, m: nat, node: nat)
    requires |ns| == |ms| && Step(a, b, len, |ns|, n, m, node) && MergedAtEnd(a, ns, ms)
    ensures MergedAtEnd(b, ns + [n], ms + [m])
    ensures |b| == HEAP_SIZE && 2 * |ns| + 2 <= HEAP_SIZE && 2 <= len
  {
    var t := |ns|;
    forall s | 0 <= s < t + 1 ensures ListedAs(b, ns + [n], ms + [m], s) {
      if s < t {
        assert ListedAs(a, ns, ms, s);
        var h := HEAP_SIZE - 2 * t;
        assert b[h..][2 * t - 1 - 2 * s] == a[h..][2 * t - 1 - 2 * s] &&
            b[h..][2 * t - 2 - 2 * s] == a[h..][2 * t - 2 - 2 * s];
      }
    }
  }

  /** Earlier merges stay as they were. */
  lemma GreedyKept(f: seq<nat>, f': seq<nat>, d: seq<nat>, d': seq<nat>, leaves: set<nat>, elems: nat, ns: seq<nat>,
        ms: seq<nat>, n: nat, m: nat, s: nat)
    requires Optimal.GreedyAt(f, d, leaves, elems, ns, ms, s) && Grown(f, f', elems + |ns|) &&
             Grown(d, d', elems + |ns|) && |ns| == |ms|
    requires Optimal.Inside(leaves, elems)
    ensures Optimal.GreedyAt(f', d', leaves, elems, ns + [n], ms + [m], s)
  {
    LivePrefix(leaves, elems, ns, ms, n, m, s);
    Optimal.LiveInside(leaves, elems, ns, ms, s);
  }

  /** Only what comes at k, or later, has changed. */
  ghost predicate Grown(f: seq<nat>, f': seq<nat>, k: nat) {
    k < |f| == |f'| && forall i :: 0 <= i < k ==> f'[i] == f[i]
  }

  /** Nodes that weigh less than 2^16 are not so high that eight bits could not tell. */
  lemma NotSoHigh(h: nat)
    requires Shallow.Fibonacci(h) < 65536
    ensures h < 23
  {
    if h >= 23 {
      Shallow.FibonacciMono(23, h);
      TwentyThree();
    }
  }

  lemma TwentyThree()
    ensures Shallow.Fibonacci(23) >= 65536
  {
    assert Shallow.Fibonacci(8) == 55;
    assert Shallow.Fibonacci(9) == 89;
    assert Shallow.Fibonacci(16) >= 2584;
  }

  /** The two lightest were merged, and nothing was lost. */
  lemma GreedyNext(f: seq<nat>, f': seq<nat>, d: seq<nat>, d': seq<nat>, leaves: set<nat>, elems: nat, ns: seq<nat>,
        ms: seq<nat>, total: nat, n: nat, m: nat)
    requires |ns| == |ms| && Grown(f, f', elems + |ns|) && Grown(d, d', elems + |ns|) &&
             Optimal.Inside(leaves, elems) && total < 65536
    requires Optimal.Greedy(f, d, leaves, elems, ns, ms) && Shallow.Occur(f, leaves) &&
             Optimal.Sum(Optimal.Live(leaves, elems, ns, ms, |ns|), f, |f|) == total
    requires var t := |ns|; var live := Optimal.Live(leaves, elems, ns, ms, t);
             && n in live && m in live && n != m && elems + t !in live && Optimal.Inside(live, elems + t)
             && Optimal.Live(leaves, elems, ns + [n], ms + [m], t + 1) == live - {n, m} + {elems + t}
             && f'[elems + t] == Sum16(f'[n], f'[m]) && d'[elems + t] == Above(d'[n], d'[m])
             && Smaller(f, d, n, m) && forall x :: x in live && x != n ==> Smaller(f, d, m, x)
    ensures Optimal.Greedy(f', d', leaves, elems, ns + [n], ms + [m]) && Shallow.Occur(f', leaves)
    ensures Optimal.Sum(Optimal.Live(leaves, elems, ns + [n], ms + [m], |ns| + 1), f', |f|) == total
  {
    hide Optimal.Sum, Shallow.Fibonacci;
    var t, node, size := |ns|, elems + |ns|, |f|;
    var live := Optimal.Live(leaves, elems, ns, ms, t);
    Optimal.SumOut(live, f, size, n);
    Optimal.SumOut(live - {n}, f, size, m);
    assert live - {n} - {m} == live - {n, m};
    Optimal.SumSame(live - {n, m}, live - {n, m}, f, f', size);
    Optimal.SumIn(live - {n, m}, f', size, node);
    Shallow.Heavy(f, d, leaves, elems, ns, ms, t, n);
    Shallow.Heavy(f, d, leaves, elems, ns, ms, t, m);
    NotSoHigh(d[n]);
    NotSoHigh(d[m]);
    forall s | 0 <= s < t + 1 ensures Optimal.GreedyAt(f', d', leaves, elems, ns + [n], ms + [m], s) {
      if s < t {
        assert Optimal.GreedyAt(f, d, leaves, elems, ns, ms, s);
        GreedyKept(f, f', d, d', leaves, elems, ns, ms, n, m, s);
      } else {
        LivePrefix(leaves, elems, ns, ms, n, m, t);
      }
    }
  }

  lemma HistoryNext(a: seq<nat>, b: seq<nat>, len: nat, f: seq<nat>, f': seq<nat>, d: seq<nat>, d': seq<nat>,
        elems: nat, leaves: set<nat>, ns: seq<nat>, ms: seq<nat>, total: nat, n: nat, m: nat)
    requires History(a, len, f, d, elems, leaves, ns, ms, total) && n != m && Grown(f, f', elems + |ns|) &&
             Grown(d, d', elems + |ns|)
    requires Step(a, b, len, |ns|, n, m, elems + |ns|)
    requires Smaller(f, d, n, m) && forall x :: x in a[1..len + 1] && x != n ==> Smaller(f, d, m, x)
    requires n < elems + |ns| && m < elems + |ns| && f'[elems + |ns|] == Sum16(f'[n], f'[m]) &&
             d'[elems + |ns|] == Above(d'[n], d'[m])
    ensures History(b, len - 1, f', d', elems, leaves, ns + [n], ms + [m], total)
  {
    hide Optimal.Greedy, Optimal.Sum, Optimal.Live, Heaped, MergedAtEnd, Shallow.Occur, Smaller, Sum16, Above, Step;
    HistoryLive(a, b, len, elems, leaves, ns, ms, n, m);
    HistoryListed(a, b, len, ns, ms, n, m, elems + |ns|);
    var live := Optimal.Live(leaves, elems, ns, ms, |ns|);
    forall x | x in live && x != n ensures Smaller(f, d, m, x) {
      assert x in a[1..len + 1];
    }
    if total < 65536 {
      GreedyNext(f, f', d, d', leaves, elems, ns, ms, total, n, m);
    }
  }

  lemma HistoryStarts(a: seq<nat>, len: nat, f: seq<nat>, d: seq<nat>, elems: nat, maxCode: int)
    requires Gathered(a, len, f, elems, maxCode) && |a| == HEAP_SIZE && elems <= |d|
    requires forall n :: 0 <= n < elems && f[n] != 0 ==> d[n] == 0
    ensures History(a, len, f, d, elems, Leaves(f, elems), [], [], Optimal.Sum(Leaves(f, elems), f, |f|))
  {
  }

  // ---------- the whole tree ----------

  /** nodes lists a tree of the leaves: the root first, brothers side by side, each pair after its father. */
  ghost predicate Built(nodes: seq<nat>, dl: seq<nat>, elems: nat, t: nat, leaves: set<nat>) {
    && t >= 1 && |nodes| == 2 * t + 1 && nodes[0] == elems + t - 1 && |dl| >= 2 * elems && t < elems
    && (forall n :: n in leaves ==> n < elems)
    && multiset(nodes) == multiset(leaves + Internals(elems, t))
    && (forall i :: 1 <= i <= 2 * t ==> nodes[i] < |dl| && dl[nodes[i]] == Father(elems, t, i))
    && (forall i :: 1 <= i <= 2 * t && nodes[i] >= elems ==> i < 2 * t - 1 - 2 * (nodes[i] - elems))
  }

  /** The father of the node at place i. */
  function Father(elems: nat, t: nat, i: nat): nat
    requires 1 <= i <= 2 * t
  {
    elems + t - 1 - (i - 1) / 2
  }

  lemma MergedAll(a: seq<nat>, dl: seq<nat>, elems: nat, t: nat, leaves: set<nat>)
    requires Merging(a, 1, dl, elems, t, leaves) && t >= 1
    ensures Built(a[HEAP_SIZE - 2 * t - 1 := a[1]][HEAP_SIZE - 2 * t - 1..], dl, elems, t, leaves)
  {
    hide Internals;
    var h := HEAP_SIZE - 2 * t - 1;
    var nodes := a[h := a[1]][h..];
    assert nodes == a[1..2] + a[h + 1..];
    assert multiset(nodes) == multiset(a[1..2]) + multiset(a[h + 1..]);
    RootIs(a, dl, elems, t, leaves);
    forall i | 1 <= i <= 2 * t
      ensures nodes[i] < |dl| && dl[nodes[i]] == Father(elems, t, i)
      ensures nodes[i] >= elems ==> i < 2 * t - 1 - 2 * (nodes[i] - elems)
    {
      assert nodes[i] == a[h + i];
      assert Pair(a, dl, elems, t - 1 - (i - 1) / 2);
      assert Listed(a, elems, h + i);
    }
  }

  lemma RootIs(a: seq<nat>, dl: seq<nat>, elems: nat, t: nat, leaves: set<nat>)
    requires Merging(a, 1, dl, elems, t, leaves) && t >= 1
    ensures a[1] == elems + t - 1
  {
    hide Internals, Pair;
    var root := elems + t - 1;
    InternalsAre(elems, t, root);
    var list := a[HEAP_SIZE - 2 * t..];
    assert root in multiset(a[1..2]) + multiset(list);
    forall k | 0 <= k < |list| ensures list[k] != root {
      assert Listed(a, elems, HEAP_SIZE - 2 * t + k);
    }
    assert root in a[1..2];
  }

  /** maxCode is the largest of the leaves, or there is none. */
  ghost predicate Largest(leaves: set<nat>, maxCode: int) {
    maxCode >= -1 && (forall n :: n in leaves ==> n <= maxCode) && (maxCode >= 0 ==> maxCode in leaves) &&
        (maxCode == -1 ==> leaves == {})
  }

  /** The symbols that occur are the leaves; the others get no code. */
  method InitHeap(freq: array<nat>, depth: array<nat>, dl: array<nat>, heap: array<nat>, elems: nat)
      returns (len: nat, maxCode: int)
    requires heap != freq && heap != depth && heap != dl && freq != depth && freq != dl && depth != dl
    requires heap.Length == HEAP_SIZE && 2 * elems < HEAP_SIZE
    requires freq.Length >= 2 * elems && depth.Length >= 2 * elems && dl.Length >= 2 * elems
    modifies depth, dl, heap
    ensures Gathered(heap[..], len, freq[..], elems, maxCode)
    ensures forall n :: 0 <= n < elems && n !in Leaves(freq[..], elems) ==> dl[n] == 0
    ensures forall n :: 0 <= n < elems && freq[n] != 0 ==> depth[n] == 0
  {
    hide Gathered, Leaves;
    len, maxCode := 0, -1;
    ghost var f := freq[..];
    GatherNone(heap[..], f);
    for n := 0 to elems
      invariant len <= n && Gathered(heap[..], len, f, n, maxCode)
      invariant forall i :: 0 <= i < n && i !in Leaves(f, n) ==> dl[i] == 0
      invariant forall i :: 0 <= i < n && freq[i] != 0 ==> depth[i] == 0
    {
      NextLeaf(f, n);
      ghost var a := heap[..];
      GatherNext(a, len, f, n, maxCode);
      if freq[n] != 0 {
        len, maxCode := len + 1, n;
        heap[len] := n;
        assert heap[..] == a[len := n];
        depth[n] := 0;
      } else {
        dl[n] := 0;
      }
    }
  }

  lemma GatherNone(a: seq<nat>, f: seq<nat>)
    requires |a| > 0
    ensures Gathered(a, 0, f, 0, -1)
  {
    assert a[1..1] == [];
  }

  lemma GatherNext(a: seq<nat>, len: nat, f: seq<nat>, n: nat, maxCode: int)
    requires Gathered(a, len, f, n, maxCode) && n < |f| && n + 1 < |a|
    ensures f[n] != 0 ==> Gathered(a[len + 1 := n], len + 1, f, n + 1, n)
    ensures f[n] == 0 ==> Gathered(a, len, f, n + 1, maxCode)
  {
    NextLeaf(f, n);
    assert a[len + 1 := n][1..len + 2] == a[1..len + 1] + [n];
  }

  lemma NextLeaf(f: seq<nat>, n: nat)
    requires n < |f|
    ensures Leaves(f, n + 1) == if f[n] != 0 then Leaves(f, n) + {n} else Leaves(f, n)
    ensures n !in Leaves(f, n)
    ensures f[n] != 0 ==> multiset(Leaves(f, n + 1)) == multiset(Leaves(f, n)) + multiset{n}
  {
  }

  /** The heap holds the symbols that occur, of which maxCode is the largest. */
  ghost predicate Gathered(a: seq<nat>, len: nat, f: seq<nat>, elems: nat, maxCode: int) {
    && elems <= |f| && len <= elems && len < |a|
    && multiset(a[1..len + 1]) == multiset(Leaves(f, elems)) && Largest(Leaves(f, elems), maxCode)
  }

  /** A symbol that does not occur: the one after the largest, or 0. */
  function FreeSymbol(maxCode: int): nat
    requires maxCode >= -1
  {
    if maxCode < 2 then maxCode + 1 else 0
  }

  lemma FreeIsFree(a: seq<nat>, len: nat, f: seq<nat>, elems: nat, maxCode: int)
    requires Gathered(a, len, f, elems, maxCode) && len < 2
    ensures maxCode >= -1 && FreeSymbol(maxCode) !in Leaves(f, elems)
  {
    assert len == 1 ==> a[1..len + 1] == [a[1]];
    assert maxCode in Leaves(f, elems) ==> maxCode in multiset(a[1..len + 1]);
    assert 0 in Leaves(f, elems) ==> 0 in multiset(a[1..len + 1]);
  }

  lemma GatherMore(a: seq<nat>, len: nat, f: seq<nat>, elems: nat, maxCode: int)
    requires Gathered(a, len, f, elems, maxCode) && len < 2 && 3 <= elems && elems < |a|
    ensures maxCode >= -1
    ensures var node := FreeSymbol(maxCode);
            Gathered(a[len + 1 := node], len + 1, f[node := 1], elems, if maxCode < 2 then maxCode + 1 else maxCode)
    ensures Leaves(f, elems) <= Leaves(f[FreeSymbol(maxCode) := 1], elems)
  {
    FreeIsFree(a, len, f, elems, maxCode);
    var node := FreeSymbol(maxCode);
    AddLeaf(f, elems, node);
    assert a[len + 1 := node][1..len + 2] == a[1..len + 1] + [node];
  }

  /** The symbols in added are taken to occur once. */
  function Force(f: seq<nat>, added: seq<nat>): (r: seq<nat>)
    ensures |r| == |f|
    decreases |added|
  {
    if added == [] then f
    else
      var k := |added| - 1;
      var g := Force(f, added[..k]);
      if added[k] < |f| then g[added[k] := 1] else g
  }

  /** Until then they did not occur. */
  ghost predicate Free(f: seq<nat>, added: seq<nat>) {
    |f| >= 3 && forall k :: 0 <= k < |added| ==> added[k] < 3 && Force(f, added[..k])[added[k]] == 0
  }

  /** What they would cost with the static code. */
  function StaticOf(statics: seq<nat>, added: seq<nat>): int {
    if added == [] || statics == [] then 0
    else
      var k := |added| - 1;
      StaticOf(statics, added[..k]) + if added[k] < |statics| then statics[added[k]] else 0
  }

  lemma ForceNext(f: seq<nat>, added: seq<nat>, node: nat)
    requires Free(f, added) && node < 3 && Force(f, added)[node] == 0
    ensures Free(f, added + [node]) && Force(f, added + [node]) == Force(f, added)[node := 1]
  {
    var more := added + [node];
    assert more[..|added|] == added;
    forall k | 0 <= k < |more| ensures more[k] < 3 && Force(f, more[..k])[more[k]] == 0 {
      if k < |added| {
        assert more[..k] == added[..k];
      }
    }
  }

  lemma StaticNext(statics: seq<nat>, added: seq<nat>, node: nat)
    requires node < |statics|
    ensures StaticOf(statics, added + [node]) == StaticOf(statics, added) + statics[node]
  {
    assert (added + [node])[..|added|] == added;
  }

  /** At least two symbols get a code. */
  method ForceTwo(freq: array<nat>, depth: array<nat>, heap: array<nat>, elems: nat, statics: seq<nat>, len0: nat,
        maxCode0: int)
      returns (len: nat, maxCode: int, opt: int, stat: int, ghost added: seq<nat>)
    requires heap != freq && heap != depth && freq != depth && (statics == [] || |statics| >= elems)
    requires heap.Length == HEAP_SIZE && 3 <= elems && 2 * elems < HEAP_SIZE && freq.Length >= 2 * elems &&
             depth.Length >= 2 * elems
    requires Gathered(heap[..], len0, freq[..], elems, maxCode0)
    requires forall n :: 0 <= n < elems && freq[n] != 0 ==> depth[n] == 0
    modifies freq, depth, heap
    ensures forall n :: 0 <= n < elems && freq[n] != 0 ==> depth[n] == 0
    ensures 2 <= len && Gathered(heap[..], len, freq[..], elems, maxCode) && maxCode >= 1
    ensures Leaves(old(freq[..]), elems) <= Leaves(freq[..], elems)
    ensures freq[..] == Force(old(freq[..]), added) && Free(old(freq[..]), added) && opt == -|added| &&
            stat == -StaticOf(statics, added) && (added != [] ==> len == 2)
  {
    hide Gathered, Leaves, Force, Free, StaticOf;
    len, maxCode, opt, stat, added := len0, maxCode0, 0, 0, [];
    NoneForced(freq[..], statics);
    while len < 2
      invariant Gathered(heap[..], len, freq[..], elems, maxCode) &&
                Leaves(old(freq[..]), elems) <= Leaves(freq[..], elems)
      invariant freq[..] == Force(old(freq[..]), added) && Free(old(freq[..]), added) && opt == -|added| &&
                stat == -StaticOf(statics, added) && (added != [] ==> len <= 2)
      invariant forall n :: 0 <= n < elems && freq[n] != 0 ==> depth[n] == 0
    {
      ghost var f, a := freq[..], heap[..];
      GatherMore(a, len, f, elems, maxCode);
      var node := FreeSymbol(maxCode);
      FreeNode(a, len, f, elems, maxCode);
      if maxCode < 2 {
        maxCode := maxCode + 1;
      }
      len := len + 1;
      heap[len] := node;
      assert heap[..] == a[len := node];
      freq[node] := 1;
      assert freq[..] == f[node := 1];
      depth[node] := 0;
      opt := opt - 1;
      ForceNext(old(freq[..]), added, node);
      if statics != [] {
        stat := stat - statics[node];
        StaticNext(statics, added, node);
      } else {
        NoStatic(added + [node]);
        NoStatic(added);
      }
      added := added + [node];
    }
    TwoLargest(freq[..], heap[..], elems, len, maxCode);
  }

  lemma NoneForced(f: seq<nat>, statics: seq<nat>)
    requires |f| >= 3
    ensures Force(f, []) == f && Free(f, []) && StaticOf(statics, []) == 0
  {
  }

  lemma NoStatic(added: seq<nat>)
    ensures StaticOf([], added) == 0
  {
  }

  lemma FreeNode(a: seq<nat>, len: nat, f: seq<nat>, elems: nat, maxCode: int)
    requires Gathered(a, len, f, elems, maxCode) && len < 2 && 3 <= elems
    ensures maxCode >= -1 && FreeSymbol(maxCode) < 3 && f[FreeSymbol(maxCode)] == 0
  {
    FreeIsFree(a, len, f, elems, maxCode);
  }

  lemma AddLeaf(f: seq<nat>, elems: nat, node: nat)
    requires node < elems <= |f| && node !in Leaves(f, elems)
    ensures Leaves(f[node := 1], elems) == Leaves(f, elems) + {node}
    ensures multiset(Leaves(f[node := 1], elems)) == multiset(Leaves(f, elems)) + multiset{node}
  {
    assert Leaves(f[node := 1], elems) == Leaves(f, elems) + {node};
    OneMore(Leaves(f, elems), node);
  }

  lemma TwoLargest(f: seq<nat>, a: seq<nat>, elems: nat, len: nat, maxCode: int)
    requires Gathered(a, len, f, elems, maxCode) && 2 <= len
    ensures maxCode >= 1
  {
    var s, ls := a[1..len + 1], Leaves(f, elems);
    assert s[0] in multiset(ls) && s[1] in multiset(ls);
    TwoOf(s);
  }

  lemma TwoOf(s: seq<nat>)
    requires |s| >= 2
    ensures s[0] == s[1] ==> multiset(s)[s[0]] >= 2
  {
    assert s == [s[0], s[1]] + s[2..];
  }

  /** All the nodes in the order of a heap. */
  method Heapify(heap: array<nat>, len: nat, freq: array<nat>, depth: array<nat>)
    requires heap != freq && heap != depth && Nodes(freq[..], depth[..], heap[..], len) && 2 <= len
    modifies heap
    ensures Nodes(freq[..], depth[..], heap[..], len) && Heap(freq[..], depth[..], heap[..], len, 1)
    ensures multiset(heap[1..len + 1]) == multiset(old(heap[1..len + 1]))
  {
    hide Smaller;
    var n := len / 2;
    while n >= 1
      invariant 0 <= n <= len / 2 && Nodes(freq[..], depth[..], heap[..], len) &&
                Heap(freq[..], depth[..], heap[..], len, n + 1)
      invariant multiset(heap[1..len + 1]) == multiset(old(heap[1..len + 1]))
    {
      PqDownHeap(heap, len, freq, depth, n);
      n := n - 1;
    }
  }

  lemma MergingStarts(a: seq<nat>, len: nat, dl: seq<nat>, elems: nat, f: seq<nat>, d: seq<nat>, maxCode: int)
    requires |a| == HEAP_SIZE && |dl| >= 2 * elems && 1 <= len && 2 * elems < HEAP_SIZE && elems <= |d|
    requires Gathered(a, len, f, elems, maxCode)
    ensures Merging(a, len, dl, elems, 0, Leaves(f, elems)) && Nodes(f, d, a, len)
  {
    var ls := Leaves(f, elems);
    assert a[HEAP_SIZE..] == [];
    assert ls + Internals(elems, 0) == ls;
    forall i | 1 <= i <= len ensures a[i] < elems {
      assert a[1..len + 1][i - 1] == a[i];
      assert a[i] in multiset(ls);
    }
  }

  lemma SameLeaves(f: seq<nat>, g: seq<nat>, elems: nat)
    requires elems <= |f| && elems <= |g| && f[..elems] == g[..elems]
    ensures Leaves(f, elems) == Leaves(g, elems)
  {
    forall n | 0 <= n < elems ensures f[n] == g[n] {
      assert f[..elems][n] == g[..elems][n];
    }
  }

  /** Merging until one node is left. */
  method MergeAll(heap: array<nat>, len0: nat, freq: array<nat>, depth: array<nat>, dl: array<nat>, elems: nat,
        ghost leaves: set<nat>, ghost total: nat)
      returns (t: nat, ghost ns: seq<nat>, ghost ms: seq<nat>)
    requires heap != freq && heap != depth && heap != dl && freq != depth && freq != dl && depth != dl
    requires freq.Length >= 2 * elems && depth.Length >= 2 * elems && 2 <= len0
    requires Merging(heap[..], len0, dl[..], elems, 0, leaves)
    requires Nodes(freq[..], depth[..], heap[..], len0) && Heap(freq[..], depth[..], heap[..], len0, 1)
    requires forall n :: 0 <= n < elems && n < dl.Length && n !in leaves ==> dl[n] == 0
    requires History(heap[..], len0, freq[..], depth[..], elems, leaves, [], [], total)
    modifies heap, freq, depth, dl
    ensures t >= 1 && Merging(heap[..], 1, dl[..], elems, t, leaves) && freq[..elems] == old(freq[..elems])
    ensures forall n :: 0 <= n < elems && n < dl.Length && n !in leaves ==> dl[n] == 0
    ensures |ns| == t && History(heap[..], 1, freq[..], depth[..], elems, leaves, ns, ms, total)
  {
    hide Merging, Nodes, Heap, Smaller, History, Step, Sum16, Above, Grown;
    var len := len0;
    t, ns, ms := 0, [], [];
    while len >= 2
      invariant 1 <= len && (t == 0 ==> len >= 2) && Merging(heap[..], len, dl[..], elems, t, leaves)
      invariant Nodes(freq[..], depth[..], heap[..], len) && Heap(freq[..], depth[..], heap[..], len, 1)
      invariant freq[..elems] == old(freq[..elems])
      invariant forall n :: 0 <= n < elems && n < dl.Length && n !in leaves ==> dl[n] == 0
      invariant |ns| == t && History(heap[..], len, freq[..], depth[..], elems, leaves, ns, ms, total)
    {
      ghost var f, a, l, d := freq[..], heap[..], dl[..], depth[..];
      MergingSize(heap[..], len, dl[..], elems, t, leaves);
      ghost var n, m := MergeOne(heap, len, freq, depth, dl, elems, t, leaves);
      StepFresh(a, heap[..], len, l, elems, t, leaves, n, m);
      IsGrown(f, freq[..], elems + t);
      IsGrown(d, depth[..], elems + t);
      HistoryNext(a, heap[..], len, f, freq[..], d, depth[..], elems, leaves, ns, ms, total, n, m);
      assert freq[..elems] == freq[..elems + t][..elems] && f[..elems] == f[..elems + t][..elems];
      len, t, ns, ms := len - 1, t + 1, ns + [n], ms + [m];
    }
  }

  lemma IsGrown(f: seq<nat>, f': seq<nat>, k: nat)
    requires k < |f| == |f'| && f'[..k] == f[..k]
    ensures Grown(f, f', k)
  {
    forall i | 0 <= i < k ensures f'[i] == f[i] {
      assert f'[..k][i] == f[..k][i];
    }
  }

  /** build_tree as far as the fathers; t is the number of inner nodes. */
  method BuildNodes(freq: array<nat>, elems: nat, statics: seq<nat>)
      returns (heap: array<nat>, dl: array<nat>, t: nat, maxCode: nat, opt: int, stat: int, ghost added: seq<nat>,
          ghost ns: seq<nat>, ghost ms: seq<nat>, ghost p: seq<nat>)
    requires 3 <= elems && 2 * elems < HEAP_SIZE && freq.Length >= 2 * elems && (statics == [] || |statics| >= elems)
    modifies freq
    ensures fresh(heap) && fresh(dl) && heap != dl && heap.Length == dl.Length == HEAP_SIZE && 2 * t + 1 < HEAP_SIZE &&
            maxCode >= 1
    ensures Built(heap[HEAP_SIZE - 2 * t - 1..], dl[..], elems, t, Leaves(freq[..], elems))
    ensures Leaves(old(freq[..]), elems) <= Leaves(freq[..], elems) && Largest(Leaves(freq[..], elems), maxCode)
    ensures forall n :: 0 <= n < elems && n !in Leaves(freq[..], elems) ==> dl[n] == 0
    ensures freq[..elems] == Force(old(freq[..]), added)[..elems] && Free(old(freq[..]), added)
    ensures opt == -|added| && stat == -StaticOf(statics, added) && (added != [] ==> |Leaves(freq[..], elems)| == 2)
    ensures Merged(heap[HEAP_SIZE - 2 * t - 1..], freq[..], p, elems, t, Leaves(freq[..], elems), ns, ms)
  {
    hide Merging, Built, Nodes, Heap, Leaves, Force, Free, StaticOf, History, Merged, Gathered, Optimal.Sum;
    heap := new nat[HEAP_SIZE](_ => 0);
    dl := new nat[HEAP_SIZE](_ => 0);
    var depth := new nat[HEAP_SIZE](_ => 0);
    var len, max := InitHeap(freq, depth, dl, heap, elems);
    len, max, opt, stat, added := ForceTwo(freq, depth, heap, elems, statics, len, max);
    maxCode := max;
    ghost var leaves := Leaves(freq[..], elems);
    GatheredSize(heap[..], len, freq[..], elems, max);
    MergingStarts(heap[..], len, dl[..], elems, freq[..], depth[..], max);
    ghost var a := heap[..];
    Heapify(heap, len, freq, depth);
    GatheredAgain(a, heap[..], len, freq[..], elems, max);
    MergingStarts(heap[..], len, dl[..], elems, freq[..], depth[..], max);
    HistoryStarts(heap[..], len, freq[..], depth[..], elems, max);
    ghost var f := freq[..];
    t, ns, ms := MergeAll(heap, len, freq, depth, dl, elems, leaves, Optimal.Sum(leaves, freq[..], freq.Length));
    MergingSize(heap[..], 1, dl[..], elems, t, leaves);
    MergedAll(heap[..], dl[..], elems, t, leaves);
    RootIs(heap[..], dl[..], elems, t, leaves);
    ghost var b := heap[..];
    heap[HEAP_SIZE - 2 * t - 1] := heap[1];
    assert heap[..] == b[HEAP_SIZE - 2 * t - 1 := b[1]];
    SameLeaves(f, freq[..], elems);
    p := depth[..];
    AllMerged(b, f, freq[..], p, elems, t, leaves, ns, ms);
    assert heap[HEAP_SIZE - 2 * t - 1..] == heap[..][HEAP_SIZE - 2 * t - 1..];
  }

  /**
   The pairs as they are listed; if the frequencies add up to less than 2^16, the two lightest were merged each time.
   */
  ghost predicate Merged(nodes: seq<nat>, f: seq<nat>, p: seq<nat>, elems: nat, t: nat, leaves: set<nat>,
        ns: seq<nat>, ms: seq<nat>) {
    && |ns| == |ms| == t && |nodes| == 2 * t + 1 && elems <= |f| &&
        Optimal.Live(leaves, elems, ns, ms, t) == {elems + t - 1}
    && (forall s :: 0 <= s < t ==> ns[s] == nodes[2 * t - 2 * s] && ms[s] == nodes[2 * t - 2 * s - 1])
    && (Optimal.Sum(leaves, f, elems) < 65536 ==>
        Optimal.Greedy(f, p, leaves, elems, ns, ms) && Shallow.Occur(f, leaves) &&
        elems + t <= |f| && f[elems + t - 1] == Optimal.Sum(leaves, f, elems))
  }

  /** The nodes merged later are no lighter. */
  lemma NextHeavier(f: seq<nat>, p: seq<nat>, leaves: set<nat>, elems: nat, ns: seq<nat>, ms: seq<nat>, s: nat)
    requires Optimal.Greedy(f, p, leaves, elems, ns, ms) && s + 1 < |ns|
    ensures ns[s + 1] < |f| && ms[s] < |f| && f[ms[s]] <= f[ns[s + 1]]
  {
    assert Optimal.GreedyAt(f, p, leaves, elems, ns, ms, s) && Optimal.GreedyAt(f, p, leaves, elems, ns, ms, s + 1);
  }

  lemma {:induction false} Heavier(f: seq<nat>, p: seq<nat>, leaves: set<nat>, elems: nat, ns: seq<nat>, ms: seq<nat>,
        s: nat, s': nat)
    requires Optimal.Greedy(f, p, leaves, elems, ns, ms) && s <= s' < |ns|
    ensures ns[s] < |f| && ms[s] < |f| && ns[s'] < |f| && ms[s'] < |f|
    ensures f[ns[s]] <= f[ms[s]] <= f[ms[s']] && f[ns[s]] <= f[ns[s']] && (s < s' ==> f[ms[s]] <= f[ns[s']])
    decreases s' - s
  {
    assert Optimal.GreedyAt(f, p, leaves, elems, ns, ms, s) && Optimal.GreedyAt(f, p, leaves, elems, ns, ms, s');
    if s < s' {
      hide Optimal.Greedy, Optimal.GreedyAt;
      Heavier(f, p, leaves, elems, ns, ms, s + 1, s');
      NextHeavier(f, p, leaves, elems, ns, ms, s);
    }
  }

  /** Nodes are listed from the heaviest to the lightest. */
  lemma ListFalls(nodes: seq<nat>, f: seq<nat>, p: seq<nat>, elems: nat, t: nat, leaves: set<nat>, ns: seq<nat>,
        ms: seq<nat>, q: nat, r: nat)
    requires Merged(nodes, f, p, elems, t, leaves, ns, ms) && Optimal.Sum(leaves, f, elems) < 65536
    requires 1 <= q <= r <= 2 * t
    ensures nodes[q] < |f| && nodes[r] < |f| && f[nodes[r]] <= f[nodes[q]]
  {
    hide Optimal.Greedy, Optimal.Sum, Optimal.Live, Shallow.Occur;
    var a, b := (2 * t - r) / 2, (2 * t - q) / 2;
    assert 2 * t - 2 * a - 1 <= r <= 2 * t - 2 * a && 2 * t - 2 * b - 1 <= q <= 2 * t - 2 * b;
    assert ns[a] == nodes[2 * t - 2 * a] && ms[a] == nodes[2 * t - 2 * a - 1];
    assert ns[b] == nodes[2 * t - 2 * b] && ms[b] == nodes[2 * t - 2 * b - 1];
    Heavier(f, p, leaves, elems, ns, ms, a, b);
  }

  lemma AllMerged(b: seq<nat>, f0: seq<nat>, f: seq<nat>, p: seq<nat>, elems: nat, t: nat, leaves: set<nat>,
        ns: seq<nat>, ms: seq<nat>)
    requires History(b, 1, f, p, elems, leaves, ns, ms, Optimal.Sum(leaves, f0, |f0|)) && |ns| == t && t >= 1 &&
             2 * t + 1 < HEAP_SIZE
    requires b[1] == elems + t - 1 && elems <= |f0| && elems <= |f| && f[..elems] == f0[..elems] &&
             Optimal.Inside(leaves, elems)
    ensures Merged(b[HEAP_SIZE - 2 * t - 1 := b[1]][HEAP_SIZE - 2 * t - 1..], f, p, elems, t, leaves, ns, ms)
  {
    hide Optimal.Greedy, Optimal.Sum, Shallow.Occur;
    var live := Optimal.Live(leaves, elems, ns, ms, t);
    assert b[1..2] == [b[1]];
    forall x ensures x in live <==> x == b[1] {
      assert x in multiset(live) <==> x in multiset(b[1..2]);
    }
    assert live == {elems + t - 1};
    forall s | 0 <= s < t ensures ns[s] == b[HEAP_SIZE - 1 - 2 * s] && ms[s] == b[HEAP_SIZE - 2 - 2 * s] {
      assert ListedAs(b, ns, ms, s);
    }
    SumCut(leaves, f0, elems, |f0|);
    forall i | 0 <= i < elems ensures f0[i] == f[i] {
      assert f[..elems][i] == f0[..elems][i];
    }
    Optimal.SumSame(leaves, leaves, f0, f, elems);
    Shallow.RootShare(f, elems + t - 1, |f|);
  }

  lemma {:induction false} SumCut(u: set<nat>, g: seq<nat>, k: nat, n: nat)
    requires Optimal.Inside(u, k) && k <= n <= |g|
    ensures Optimal.Sum(u, g, n) == Optimal.Sum(u, g, k)
    decreases n
  {
    if k < n {
      SumCut(u, g, k, n - 1);
    }
  }

  lemma GatheredAgain(a: seq<nat>, b: seq<nat>, len: nat, f: seq<nat>, elems: nat, maxCode: int)
    requires Gathered(a, len, f, elems, maxCode) && |b| == |a| && multiset(b[1..len + 1]) == multiset(a[1..len + 1])
    ensures Gathered(b, len, f, elems, maxCode)
  {
  }

  lemma GatheredSize(a: seq<nat>, len: nat, f: seq<nat>, elems: nat, maxCode: int)
    requires Gathered(a, len, f, elems, maxCode)
    ensures |Leaves(f, elems)| == len
  {
    assert |multiset(a[1..len + 1])| == len;
  }
}
