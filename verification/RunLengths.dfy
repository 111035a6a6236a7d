/**
 The code lengths of a dynamic block, run-length coded as scan_tree and send_tree do
 (section 3.2.7 of RFC 1951), and back.
 */
module RunLengths {
  import opened Bits
  import opened Canonical
  import opened Rfc1951

  /** A symbol of the code length code, and the value of the extra bits after it. */
  datatype Item = Item(s: nat, v: nat)

  predicate ItemOk(i: Item) {
    i.s <= 18 && (i.s >= 16 ==> i.v < Pow2(RepeatBits(i.s)))
  }

  /** What an item adds to the lengths got before it. */
  function Adds(got: seq<nat>, i: Item): seq<nat> {
    if i.s < 16 then [i.s]
    else Repeat(if i.s == 16 && got != [] then got[|got| - 1] else 0, RepeatBase(i.s) + i.v)
  }

  function Unpack(got: seq<nat>, items: seq<Item>): seq<nat>
    decreases |items|
  {
    if items == [] then got else Unpack(got + Adds(got, items[0]), items[1..])
  }

  lemma {:induction false} UnpackConcat(got: seq<nat>, a: seq<Item>, b: seq<Item>)
    ensures Unpack(got, a + b) == Unpack(Unpack(got, a), b)
    decreases |a|
  {
    if a == [] {
      assert a + b == b;
    } else {
      assert (a + b)[1..] == a[1..] + b;
      UnpackConcat(got + Adds(got, a[0]), a[1..], b);
    }
  }

  // ---------- packing ----------

  /** The longest and shortest run of length cur, after length prev, that is given by a repeat count. */
  function MaxCount(cur: nat, prev: int): nat {
    if cur == 0 then 138 else if cur == prev then 6 else 7
  }

  function MinCount(cur: nat, prev: int): nat {
    if cur == 0 || cur == prev then 3 else 4
  }

  /** The items for count lengths cur. */
  function Group(cur: nat, count: nat, prev: int): seq<Item> {
    if count < MinCount(cur, prev) then seq(count, _ => Item(cur, 0))
    else if cur != 0 then
      if cur != prev then [Item(cur, 0), Item(16, count - 4)] else [Item(16, count - 3)]
    else if count <= 10 then [Item(17, count - 3)]
    else [Item(18, count - 11)]
  }

  /** The run goes on. */
  predicate GoesOn(lens: seq<nat>, n: nat, count: nat, prev: int)
    requires n < |lens|
  {
    count + 1 < MaxCount(lens[n], prev) && n + 1 < |lens| && lens[n + 1] == lens[n]
  }

  /** The items from length n on, when the count lengths before it are in the same run. */
  function Pack(lens: seq<nat>, n: nat, count: nat, prev: int): seq<Item>
    requires n <= |lens|
    decreases |lens| - n
  {
    if n == |lens| then []
    else if GoesOn(lens, n, count, prev) then Pack(lens, n + 1, count + 1, prev)
    else Group(lens[n], count + 1, prev) + Pack(lens, n + 1, 0, lens[n])
  }

  /** The items of a tree. */
  function Packed(lens: seq<nat>): seq<Item> {
    Pack(lens, 0, 0, -1)
  }

  /** prev is the last of the lengths got so far, or there is none. */
  ghost predicate Follows(got: seq<nat>, prev: int) {
    prev >= 0 ==> got != [] && got[|got| - 1] == prev
  }

  lemma {:induction false} Explicit(got: seq<nat>, cur: nat, count: nat)
    requires cur < 16
    ensures Unpack(got, seq(count, _ => Item(cur, 0))) == got + Repeat(cur, count)
    decreases count
  {
    var items := seq(count, _ => Item(cur, 0));
    if count == 0 {
      assert items == [] && got + Repeat(cur, count) == got;
    } else {
      assert items[1..] == seq(count - 1, _ => Item(cur, 0));
      Explicit(got + [cur], cur, count - 1);
      assert got + [cur] + Repeat(cur, count - 1) == got + Repeat(cur, count);
    }
  }

  lemma UnpackOne(got: seq<nat>, i: Item)
    ensures Unpack(got, [i]) == got + Adds(got, i)
  {
    assert [i][1..] == [];
  }

  lemma UnpackTwo(got: seq<nat>, i: Item, j: Item)
    ensures Unpack(got, [i, j]) == got + Adds(got, i) + Adds(got + Adds(got, i), j)
  {
    assert [i, j][1..] == [j];
    UnpackOne(got + Adds(got, i), j);
  }

  lemma GroupUnpacks(got: seq<nat>, cur: nat, count: nat, prev: int)
    requires cur < 16 && 1 <= count <= MaxCount(cur, prev) && Follows(got, prev)
    ensures Unpack(got, Group(cur, count, prev)) == got + Repeat(cur, count)
  {
    hide Unpack;
    if count < MinCount(cur, prev) {
      Explicit(got, cur, count);
    } else if cur != 0 && cur != prev {
      UnpackTwo(got, Item(cur, 0), Item(16, count - 4));
      assert [cur] + Repeat(cur, count - 1) == Repeat(cur, count);
      assert got + [cur] + Repeat(cur, count - 1) == got + Repeat(cur, count);
    } else {
      UnpackOne(got, Group(cur, count, prev)[0]);
    }
  }

  /** The count lengths before n are as that at n. */
  ghost predicate SameRun(lens: seq<nat>, n: nat, count: nat)
    requires n <= |lens|
  {
    count <= n && (n < |lens| ==> lens[n - count..n] == Repeat(lens[n], count)) && (n == |lens| ==> count == 0)
  }

  lemma RunStep(lens: seq<nat>, n: nat, count: nat)
    requires n < |lens| && SameRun(lens, n, count)
    ensures lens[n - count..n + 1] == Repeat(lens[n], count + 1)
    ensures n + 1 < |lens| && lens[n + 1] == lens[n] ==> SameRun(lens, n + 1, count + 1)
  {
    assert lens[n - count..n + 1] == lens[n - count..n] + [lens[n]];
    assert Repeat(lens[n], count + 1) == Repeat(lens[n], count) + [lens[n]];
  }

  lemma {:induction false} PackUnpacks(got: seq<nat>, lens: seq<nat>, n: nat, count: nat, prev: int)
    requires n <= |lens| && SameRun(lens, n, count) && Follows(got, prev) && ValidLens(lens)
    requires n < |lens| ==> count < MaxCount(lens[n], prev)
    ensures Unpack(got, Pack(lens, n, count, prev)) == got + lens[n - count..]
    decreases |lens| - n
  {
    hide Unpack, Group, MaxCount;
    if n == |lens| {
      UnpackNone(got);
      assert got + lens[n - count..] == got;
    } else if GoesOn(lens, n, count, prev) {
      RunStep(lens, n, count);
      PackUnpacks(got, lens, n + 1, count + 1, prev);
    } else {
      RunStep(lens, n, count);
      var cur := lens[n];
      GroupUnpacks(got, cur, count + 1, prev);
      UnpackConcat(got, Group(cur, count + 1, prev), Pack(lens, n + 1, 0, cur));
      CountPositive(lens, n + 1, cur);
      var got' := got + Repeat(cur, count + 1);
      assert SameRun(lens, n + 1, 0) by {
        assert lens[n + 1 - 0..n + 1] == [];
      }
      PackUnpacks(got', lens, n + 1, 0, cur);
      assert got + lens[n - count..] == got' + lens[n + 1..];
    }
  }

  lemma UnpackNone(got: seq<nat>)
    ensures Unpack(got, []) == got
  {
  }

  lemma CountPositive(lens: seq<nat>, n: nat, prev: int)
    ensures n < |lens| ==> 0 < MaxCount(lens[n], prev)
  {
  }

  /** Packing loses nothing, whatever lengths were packed before. */
  lemma PackedUnpacks(got: seq<nat>, lens: seq<nat>)
    requires ValidLens(lens)
    ensures Unpack(got, Packed(lens)) == got + lens
  {
    hide Unpack, Pack;
    CountPositive(lens, 0, -1);
    assert lens[0 - 0..0] == [];
    PackUnpacks(got, lens, 0, 0, -1);
    assert lens[0 - 0..] == lens;
  }

  // ---------- what a run becomes ----------

  lemma {:induction false} PackFrom(lens: seq<nat>, k: nat, n: nat, count: nat, prev: int)
    requires k <= n <= |lens|
    ensures Pack(lens, n, count, prev) == Pack(lens[k..], n - k, count, prev)
    decreases |lens| - n
  {
    hide Group, MaxCount;
    if n < |lens| {
      assert lens[k..][n - k] == lens[n] && (n + 1 < |lens| ==> lens[k..][n + 1 - k] == lens[n + 1]);
      if GoesOn(lens, n, count, prev) {
        PackFrom(lens, k, n + 1, count + 1, prev);
      } else {
        PackFrom(lens, k, n + 1, 0, lens[n]);
      }
    }
  }

  /** As many as a repeat count can give make one group, and the rest go on after it. */
  lemma {:induction false} PackRun(x: nat, m: nat, n: nat, count: nat, prev: int)
    requires n < m && count < MaxCount(x, prev)
    ensures var max := MaxCount(x, prev);
            Pack(Repeat(x, m), n, count, prev) ==
            if count + m - n <= max then Group(x, count + m - n, prev)
            else Group(x, max, prev) + Pack(Repeat(x, m + count - n - max), 0, 0, x)
    decreases m - n
  {
    hide Group, MaxCount;
    var lens := Repeat(x, m);
    if GoesOn(lens, n, count, prev) {
      PackRun(x, m, n + 1, count + 1, prev);
    } else if n + 1 < m {
      PackFrom(lens, n + 1, n + 1, 0, x);
      assert lens[n + 1..] == Repeat(x, m - n - 1);
    } else {
      assert Pack(lens, n + 1, 0, x) == [];
      assert Group(x, count + 1, prev) + [] == Group(x, count + 1, prev);
    }
  }

  /** Zeros: up to two as they are, up to ten by 17, and up to 138 at a time by 18. */
  lemma ZerosPacked(n: nat)
    ensures Packed(Repeat(0, n)) ==
            if n < 3 then seq(n, _ => Item(0, 0))
            else if n <= 10 then [Item(17, n - 3)]
            else if n <= 138 then [Item(18, n - 11)]
            else [Item(18, 127)] + Packed(Repeat(0, n - 138))
  {
    if n == 0 {
      assert Repeat(0, 0) == [];
    } else {
      PackRun(0, n, 0, 0, -1);
      if n > 138 {
        ZeroBefore(n - 138);
      }
    }
  }

  /** It makes no difference to a zero what was before. */
  lemma ZeroBefore(n: nat)
    requires n > 0
    ensures Pack(Repeat(0, n), 0, 0, 0) == Pack(Repeat(0, n), 0, 0, -1)
  {
    hide Pack;
    PackRun(0, n, 0, 0, 0);
    PackRun(0, n, 0, 0, -1);
  }

  /** Another length: once, and then up to six times at a time by 16 if that is three or more. */
  lemma OthersPacked(x: nat, n: nat)
    requires 0 < x < 16
    ensures Packed(Repeat(x, n)) ==
            if n < 4 then seq(n, _ => Item(x, 0))
            else if n <= 7 then [Item(x, 0), Item(16, n - 4)]
            else [Item(x, 0), Item(16, 3)] + Pack(Repeat(x, n - 7), 0, 0, x)
    ensures Pack(Repeat(x, n), 0, 0, x) ==
            if n < 3 then seq(n, _ => Item(x, 0))
            else if n <= 6 then [Item(16, n - 3)]
            else [Item(16, 3)] + Pack(Repeat(x, n - 6), 0, 0, x)
  {
    hide Pack;
    if n == 0 {
      NothingPacked(x);
    } else {
      PackRun(x, n, 0, 0, -1);
      PackRun(x, n, 0, 0, x);
    }
  }

  lemma NothingPacked(x: nat)
    ensures Pack(Repeat(x, 0), 0, 0, -1) == [] && Pack(Repeat(x, 0), 0, 0, x) == []
  {
  }
}
