/**
 scan_tree, send_tree and send_all_trees: the header of a dynamic block is written.
 */
module SendTrees {
  import opened Bits
  import opened Canonical
  import opened TableSpec
  import opened Rfc1951
  import opened Encoding
  import opened BitWriter
  import opened RunLengths
  import opened DynamicSpec
  import opened Trees

  // ---------- scan_tree ----------

  /** How often symbol s occurs in items. */
  function Uses(items: seq<Item>, s: nat): (n: nat)
    decreases |items|
  {
    if items == [] then 0 else (if items[0].s == s then 1 else 0) + Uses(items[1..], s)
  }

  lemma {:induction false} UsesConcat(a: seq<Item>, b: seq<Item>, s: nat)
    ensures Uses(a + b, s) == Uses(a, s) + Uses(b, s)
    decreases |a|
  {
    if a == [] {
      assert a + b == b;
    } else {
      assert (a + b)[1..] == a[1..] + b;
      UsesConcat(a[1..], b, s);
    }
  }

  lemma {:induction false} UsesSame(cur: nat, count: nat, s: nat)
    ensures Uses(seq(count, _ => Item(cur, 0)), s) == if s == cur then count else 0
    decreases count
  {
    if count > 0 {
      assert seq(count, _ => Item(cur, 0))[1..] == seq(count - 1, _ => Item(cur, 0));
      UsesSame(cur, count - 1, s);
    }
  }

  lemma {:induction false} UsesIn(items: seq<Item>, i: nat)
    requires i < |items|
    ensures Uses(items, items[i].s) > 0
    decreases |items|
  {
    if i > 0 {
      UsesIn(items[1..], i - 1);
    }
  }

  lemma UsesOne(i: Item, s: nat)
    ensures Uses([i], s) == if i.s == s then 1 else 0
  {
    assert [i][1..] == [];
  }

  lemma UsesTwo(i: Item, j: Item, s: nat)
    ensures Uses([i, j], s) == (if i.s == s then 1 else 0) + if j.s == s then 1 else 0
  {
    assert [i, j][1..] == [j];
    UsesOne(j, s);
  }

  /** freq counts the symbols of items over what was counted before. */
  ghost predicate Scanned(freq0: seq<nat>, freq: seq<nat>, items: seq<Item>) {
    |freq| == |freq0| && forall s :: 0 <= s < |freq| ==> freq[s] == freq0[s] + Uses(items, s)
  }

  lemma GroupUses(cur: nat, count: nat, prev: int, s: nat)
    requires cur <= 15
    ensures Uses(Group(cur, count, prev), s) ==
            if count < MinCount(cur, prev) then (if s == cur then count else 0)
            else if cur != 0 then (if cur != prev && s == cur then 1 else 0) + (if s == 16 then 1 else 0)
            else if s == (if count <= 10 then 17 else 18) then 1 else 0
  {
    hide Uses;
    var g := Group(cur, count, prev);
    if count < MinCount(cur, prev) {
      UsesSame(cur, count, s);
    } else if cur != 0 && cur != prev {
      UsesTwo(g[0], g[1], s);
    } else {
      UsesOne(g[0], s);
    }
  }

  /** The symbols of one group are counted. */
  method ScanGroup(freq: array<nat>, cur: nat, count: nat, prev: int)
    requires freq.Length >= 19 && cur <= 15
    modifies freq
    ensures Scanned(old(freq[..]), freq[..], Group(cur, count, prev))
  {
    hide Uses, Group;
    if count < MinCount(cur, prev) {
      freq[cur] := freq[cur] + count;
    } else if cur != 0 {
      if cur != prev {
        freq[cur] := freq[cur] + 1;
      }
      freq[16] := freq[16] + 1;
    } else if count <= 10 {
      freq[17] := freq[17] + 1;
    } else {
      freq[18] := freq[18] + 1;
    }
    forall s | 0 <= s < freq.Length ensures freq[..][s] == old(freq[..])[s] + Uses(Group(cur, count, prev), s) {
      GroupUses(cur, count, prev, s);
    }
  }

  /** scan_tree: counts the symbols that the packed lengths are sent with. */
  method ScanTree(lens: seq<nat>, freq: array<nat>)
    requires freq.Length >= 19 && ValidLens(lens)
    modifies freq
    ensures Scanned(old(freq[..]), freq[..], Packed(lens))
  {
    hide Group, MaxCount, Uses;
    var prev: int, count: nat := -1, 0;
    ghost var done: seq<Item> := [];
    ScannedNone(freq[..]);
    for n := 0 to |lens|
      invariant done + Pack(lens, n, count, prev) == Packed(lens) && Scanned(old(freq[..]), freq[..], done)
    {
      var cur := lens[n];
      count := count + 1;
      if count < MaxCount(cur, prev) && n + 1 < |lens| && lens[n + 1] == cur {
        continue;
      }
      ghost var g, f := Group(cur, count, prev), freq[..];
      assert done + (g + Pack(lens, n + 1, 0, cur)) == done + g + Pack(lens, n + 1, 0, cur);
      ScanGroup(freq, cur, count, prev);
      ScannedMore(old(freq[..]), f, freq[..], done, g);
      done := done + g;
      count, prev := 0, cur;
    }
    assert done + [] == done;
  }

  lemma ScannedNone(freq: seq<nat>)
    ensures Scanned(freq, freq, [])
  {
  }

  lemma ScannedMore(f0: seq<nat>, f1: seq<nat>, f2: seq<nat>, a: seq<Item>, b: seq<Item>)
    requires Scanned(f0, f1, a) && Scanned(f1, f2, b)
    ensures Scanned(f0, f2, a + b)
  {
    hide Uses;
    forall s | 0 <= s < |f2| ensures f2[s] == f0[s] + Uses(a + b, s) {
      UsesConcat(a, b, s);
    }
  }

  // ---------- send_tree ----------

  /** A symbol of the code length code, and a repeat count after it. */
  method SendItem(w: Writer, i: Item, cl: seq<nat>, codes: seq<nat>) returns (w': Writer)
    requires w.Ok() && CodesOk(cl, codes) && ValidLens(cl) && Coded(cl, i.s) && ItemOk(i)
    ensures w'.Ok() && w'.Bits() == w.Bits() + ItemBits(cl, i)
  {
    hide CodeBits, ToBits, BytesBits, CodesOk, Pow2;
    w' := SendCode(w, cl, codes, i.s);
    if i.s >= 16 {
      w' := SendBits(w', i.v, RepeatBits(i.s));
    }
    assert w'.Bits() == w.Bits() + ItemBits(cl, i);
  }

  /** Equal lengths one by one. */
  method SendEach(w: Writer, cur: nat, count: nat, cl: seq<nat>, codes: seq<nat>) returns (w': Writer)
    requires w.Ok() && CodesOk(cl, codes) && ValidLens(cl) && cur <= 15 && (count > 0 ==> Coded(cl, cur))
    ensures w'.Ok() && w'.Bits() == w.Bits() + ItemsBits(cl, seq(count, _ => Item(cur, 0)))
  {
    hide ItemBits, BytesBits, ToBits, CodesOk, Coded;
    w' := w;
    var n := 0;
    assert seq(0, _ => Item(cur, 0)) == [];
    while n < count
      invariant n <= count && w'.Ok() && w'.Bits() == w.Bits() + ItemsBits(cl, seq(n, _ => Item(cur, 0)))
    {
      w' := SendItem(w', Item(cur, 0), cl, codes);
      ghost var some := seq(n, _ => Item(cur, 0));
      assert seq(n + 1, _ => Item(cur, 0)) == some + [Item(cur, 0)];
      ItemsBitsConcat(cl, some, [Item(cur, 0)]);
      OneItem(cl, Item(cur, 0));
      n := n + 1;
      assert w'.Bits() == w.Bits() + ItemsBits(cl, seq(n, _ => Item(cur, 0)));
    }
  }

  /** The symbols of one group are sent. */
  method SendGroup(w: Writer, cur: nat, count: nat, prev: int, cl: seq<nat>, codes: seq<nat>) returns (w': Writer)
    requires w.Ok() && CodesOk(cl, codes) && ValidLens(cl) && cur <= 15 && count > 0 &&
             ItemsOk(cl, Group(cur, count, prev))
    ensures w'.Ok() && w'.Bits() == w.Bits() + ItemsBits(cl, Group(cur, count, prev))
  {
    hide ItemBits, BytesBits, ToBits, CodesOk, Coded, ItemOk, ItemsBits;
    ghost var g := Group(cur, count, prev);
    if count < MinCount(cur, prev) {
      assert Coded(cl, g[0].s);
      w' := SendEach(w, cur, count, cl, codes);
    } else if cur != 0 {
      w' := w;
      var n := count;
      if cur != prev {
        assert g == [g[0]] + [g[1]];
        ItemsBitsConcat(cl, [g[0]], [g[1]]);
        OneItem(cl, g[0]);
        OneItem(cl, g[1]);
        w' := SendItem(w', Item(cur, 0), cl, codes);
        n := n - 1;
      } else {
        OneItem(cl, g[0]);
      }
      assert Coded(cl, g[|g| - 1].s) && ItemOk(g[|g| - 1]);
      w' := SendItem(w', Item(16, n - 3), cl, codes);
      assert w'.Bits() == w.Bits() + ItemsBits(cl, g);
    } else {
      OneItem(cl, g[0]);
      if count <= 10 {
        w' := SendItem(w, Item(17, count - 3), cl, codes);
      } else {
        w' := SendItem(w, Item(18, count - 11), cl, codes);
      }
    }
  }

  /** send_tree: the packed lengths are sent. */
  method SendTree(w: Writer, lens: seq<nat>, cl: seq<nat>, codes: seq<nat>) returns (w': Writer)
    requires w.Ok() && CodesOk(cl, codes) && ValidLens(cl) && ValidLens(lens) && ItemsOk(cl, Packed(lens))
    ensures w'.Ok() && w'.Bits() == w.Bits() + ItemsBits(cl, Packed(lens))
  {
    hide Group, MaxCount, ItemsBits, ItemBits, BytesBits, ToBits, CodesOk, Coded, ItemOk;
    var prev: int, count: nat := -1, 0;
    ghost var done: seq<Item> := [];
    w' := w;
    NoItems(cl);
    for n := 0 to |lens|
      invariant done + Pack(lens, n, count, prev) == Packed(lens) && ItemsOk(cl, done)
      invariant w'.Ok() && w'.Bits() == w.Bits() + ItemsBits(cl, done)
    {
      var cur := lens[n];
      count := count + 1;
      if count < MaxCount(cur, prev) && n + 1 < |lens| && lens[n + 1] == cur {
        continue;
      }
      ghost var g := Group(cur, count, prev);
      assert done + (g + Pack(lens, n + 1, 0, cur)) == done + g + Pack(lens, n + 1, 0, cur);
      CodedParts(cl, done, g, Pack(lens, n + 1, 0, cur));
      ItemsBitsConcat(cl, done, g);
      w' := SendGroup(w', cur, count, prev, cl, codes);
      assert w'.Bits() == w.Bits() + ItemsBits(cl, done + g);
      done := done + g;
      count, prev := 0, cur;
    }
    assert done + [] == done;
  }

  lemma CodedParts(cl: seq<nat>, a: seq<Item>, b: seq<Item>, c: seq<Item>)
    requires ItemsOk(cl, a + b + c)
    ensures ItemsOk(cl, a) && ItemsOk(cl, b) && ItemsOk(cl, a + b)
  {
    hide Coded, ItemOk;
    var ab, all := a + b, a + b + c;
    forall i | 0 <= i < |ab| ensures Coded(cl, ab[i].s) && ItemOk(ab[i]) {
      assert all[i] == ab[i];
    }
    forall i | 0 <= i < |a| ensures Coded(cl, a[i].s) && ItemOk(a[i]) {
      assert ab[i] == a[i];
    }
    forall i | 0 <= i < |b| ensures Coded(cl, b[i].s) && ItemOk(b[i]) {
      assert ab[|a| + i] == b[i];
    }
  }

  // ---------- send_all_trees ----------

  /** Without a symbol for a length, there are only zeros. */
  lemma {:induction false} OnlyZeros(got: seq<nat>, items: seq<Item>)
    requires NoSymbols(got) && forall i :: 0 <= i < |items| ==> items[i].s == 0 || items[i].s >= 16
    ensures NoSymbols(Unpack(got, items))
    decreases |items|
  {
    if items != [] {
      OnlyZeros(got + Adds(got, items[0]), items[1..]);
    }
  }

  lemma SomeLength(lens: seq<nat>, j: nat) returns (i: nat)
    requires ValidLens(lens) && j < |lens| && lens[j] > 0
    ensures i < |Packed(lens)| && 1 <= Packed(lens)[i].s <= 15
  {
    hide Unpack, Packed;
    PackedUnpacks([], lens);
    assert [] + lens == lens;
    var items := Packed(lens);
    if forall i :: 0 <= i < |items| ==> items[i].s == 0 || items[i].s >= 16 {
      OnlyZeros([], items);
    }
    i :| 0 <= i < |items| && 1 <= items[i].s <= 15;
  }

  /**
   The last length of the code length code that has to be sent; some length has a code, so that at least four are sent.
   */
  method LastSent(cl: seq<nat>, ghost x: nat) returns (n: nat)
    requires |cl| == 19 && 1 <= x <= 15 && cl[x] > 0
    ensures 4 <= n && Covers(cl, n) && (n == 4 || cl[ORDER[n - 1]] > 0)
  {
    var i := 18;
    OrderInside();
    LengthsLast(x);
    while i >= 3 && cl[ORDER[i]] == 0
      invariant PLACE[x] <= i <= 18 && forall k :: i < k < 19 ==> cl[ORDER[k]] == 0
    {
      i := i - 1;
    }
    n := i + 1;
  }

  lemma LengthsLast(x: nat)
    requires 1 <= x <= 15
    ensures 3 <= PLACE[x] < 19 && ORDER[PLACE[x]] == x
  {
  }

  /** The counts. */
  method SendCounts(w: Writer, nlen: nat, ndist: nat, ncode: nat) returns (w': Writer)
    requires w.Ok() && 257 <= nlen <= 286 && 1 <= ndist <= 30 && 4 <= ncode <= 19
    ensures w'.Ok() && w'.Bits() == w.Bits() + CountsBits(nlen, ndist, ncode)
  {
    hide ToBits, BytesBits;
    assert Pow2(5) == 32 && Pow2(4) == 16;
    w' := SendBits(w, nlen - 257, 5);
    w' := SendBits(w', ndist - 1, 5);
    w' := SendBits(w', ncode - 4, 4);
    assert w'.Bits() == w.Bits() + CountsBits(nlen, ndist, ncode);
  }

  /** The lengths of the code length code. */
  method SendOrder(w: Writer, cl: seq<nat>, ncode: nat) returns (w': Writer)
    requires w.Ok() && |cl| == 19 && ncode <= 19 && forall i :: 0 <= i < 19 ==> cl[i] <= 7
    ensures w'.Ok() && w'.Bits() == w.Bits() + OrderBits(cl, ncode)
  {
    hide ToBits, BytesBits, ORDER;
    OrderInside();
    w' := w;
    for rank := 0 to ncode
      invariant w'.Ok() && w'.Bits() == w.Bits() + OrderBits(cl, rank)
    {
      assert Pow2(3) == 8;
      w' := SendBits(w', cl[ORDER[rank]], 3);
      assert w'.Bits() == w.Bits() + OrderBits(cl, rank + 1);
    }
  }

  /** send_all_trees */
  method SendAllTrees(w: Writer, ll: seq<nat>, dl: seq<nat>, cl: seq<nat>, codes: seq<nat>, ncode: nat)
      returns (w': Writer)
    requires w.Ok() && Sendable(ll, dl, cl, ncode) && CodesOk(cl, codes)
    ensures w'.Ok() && w'.Bits() == w.Bits() + TreesBits(ll, dl, cl, ncode)
  {
    hide ToBits, BytesBits, CountsBits, OrderBits, ItemsBits, Packed, CodesOk, Covers;
    CoversSize(cl, ncode);
    w' := SendCounts(w, |ll|, |dl|, ncode);
    w' := SendOrder(w', cl, ncode);
    w' := SendTree(w', ll, cl, codes);
    w' := SendTree(w', dl, cl, codes);
    assert w'.Bits() == w.Bits() + TreesBits(ll, dl, cl, ncode);
  }
}
