/**
 The header of a dynamic block: counts, the code length code, and the packed code lengths.
 */
module DynamicSpec {
  import opened Bits
  import opened Canonical
  import opened TableSpec
  import opened Tokens
  import opened Rfc1951
  import opened Encoding
  import opened RunLengths
  import opened BlockSpec
  import InflateSteps

  // ---------- items ----------

  function ItemBits(cl: seq<nat>, i: Item): seq<bool>
    requires Coded(cl, i.s)
  {
    CodeBits(cl, i.s) + if i.s < 16 then [] else ToBits(i.v, RepeatBits(i.s))
  }

  ghost predicate ItemsOk(cl: seq<nat>, items: seq<Item>) {
    forall i :: 0 <= i < |items| ==> ItemOk(items[i]) && Coded(cl, items[i].s)
  }

  function ItemsBits(cl: seq<nat>, items: seq<Item>): seq<bool>
    requires forall i :: 0 <= i < |items| ==> Coded(cl, items[i].s)
    decreases |items|
  {
    if items == [] then [] else ItemBits(cl, items[0]) + ItemsBits(cl, items[1..])
  }

  lemma NoItems(cl: seq<nat>)
    ensures ItemsBits(cl, []) == []
  {
  }

  lemma OneItem(cl: seq<nat>, i: Item)
    requires Coded(cl, i.s)
    ensures ItemsBits(cl, [i]) == ItemBits(cl, i)
  {
    hide ItemBits;
    assert [i][1..] == [];
    assert ItemsBits(cl, []) == [];
  }

  lemma {:induction false} ItemsBitsConcat(cl: seq<nat>, a: seq<Item>, b: seq<Item>)
    requires (forall i :: 0 <= i < |a| ==> Coded(cl, a[i].s)) && (forall i :: 0 <= i < |b| ==> Coded(cl, b[i].s))
    ensures ItemsBits(cl, a + b) == ItemsBits(cl, a) + ItemsBits(cl, b)
    decreases |a|
  {
    hide ItemBits, Coded;
    if a == [] {
      assert a + b == b;
    } else {
      assert (a + b)[1..] == a[1..] + b;
      ItemsBitsConcat(cl, a[1..], b);
    }
  }

  lemma ItemDecodes(w: nat, last: bool, nlen: nat, ndist: nat, cl: seq<nat>, got: seq<nat>, i: Item, rest: seq<bool>,
        out: seq<byte>)
    requires Fits(cl) && Coded(cl, i.s) && ItemOk(i) && |got + Adds(got, i)| <= nlen + ndist &&
             (i.s == 16 ==> got != [])
    ensures CodeLens(w, last, nlen, ndist, cl, got, ItemBits(cl, i) + rest, out) ==
            CodeLens(w, last, nlen, ndist, cl, got + Adds(got, i), rest, out)
  {
    hide CodeLens, Fits, CodeBits, ToBits, ToInt, ReadSymbol, Pow2;
    var r := (if i.s < 16 then [] else ToBits(i.v, RepeatBits(i.s))) + rest;
    assert ItemBits(cl, i) + rest == CodeBits(cl, i.s) + r;
    ReadBack(cl, i.s, r);
    if i.s < 16 {
      assert r == rest;
      InflateSteps.CodeLensOne(w, last, nlen, ndist, cl, got, ItemBits(cl, i) + rest, out, i.s, r);
    } else {
      ExtraBack(i.v, RepeatBits(i.s), rest);
      InflateSteps.CodeLensMany(w, last, nlen, ndist, cl, got, ItemBits(cl, i) + rest, out, i.s, r);
    }
  }

  /** Each repeat of the last length has one to repeat. */
  ghost predicate Sensible(got: seq<nat>, items: seq<Item>)
    decreases |items|
  {
    items != [] ==> (items[0].s == 16 ==> got != []) && Sensible(got + Adds(got, items[0]), items[1..])
  }

  lemma {:induction false} UnpackGrows(got: seq<nat>, items: seq<Item>)
    ensures |got| <= |Unpack(got, items)|
    decreases |items|
  {
    if items != [] {
      UnpackGrows(got + Adds(got, items[0]), items[1..]);
    }
  }

  lemma {:induction false} ItemsDecode(w: nat, last: bool, nlen: nat, ndist: nat, cl: seq<nat>, got: seq<nat>,
        items: seq<Item>, rest: seq<bool>, out: seq<byte>)
    requires Fits(cl) && ItemsOk(cl, items) && |Unpack(got, items)| <= nlen + ndist && Sensible(got, items)
    ensures CodeLens(w, last, nlen, ndist, cl, got, ItemsBits(cl, items) + rest, out) ==
            CodeLens(w, last, nlen, ndist, cl, Unpack(got, items), rest, out)
    decreases |items|
  {
    hide CodeLens, Fits, ItemBits, Adds, ItemOk, Coded;
    if items == [] {
      assert ItemsBits(cl, items) + rest == rest;
    } else {
      var got' := got + Adds(got, items[0]);
      UnpackGrows(got', items[1..]);
      var r := ItemsBits(cl, items[1..]) + rest;
      assert ItemsBits(cl, items) + rest == ItemBits(cl, items[0]) + r;
      ItemDecodes(w, last, nlen, ndist, cl, got, items[0], r, out);
      ItemsDecode(w, last, nlen, ndist, cl, got', items[1..], rest, out);
    }
  }

  // ---------- packed lengths are sensible ----------

  lemma {:induction false} SensibleConcat(got: seq<nat>, a: seq<Item>, b: seq<Item>)
    requires Sensible(got, a) && Sensible(Unpack(got, a), b)
    ensures Sensible(got, a + b)
    decreases |a|
  {
    if a == [] {
      assert a + b == b;
    } else {
      assert (a + b)[1..] == a[1..] + b;
      SensibleConcat(got + Adds(got, a[0]), a[1..], b);
    }
  }

  lemma {:induction false} SensiblePlain(got: seq<nat>, items: seq<Item>)
    requires forall i :: 0 <= i < |items| ==> items[i].s != 16
    ensures Sensible(got, items)
    decreases |items|
  {
    if items != [] {
      SensiblePlain(got + Adds(got, items[0]), items[1..]);
    }
  }

  lemma SensibleOne(got: seq<nat>, i: Item)
    requires i.s == 16 ==> got != []
    ensures Sensible(got, [i])
  {
    assert [i][1..] == [];
  }

  lemma GroupSensible(got: seq<nat>, cur: nat, count: nat, prev: int)
    requires cur < 16 && 1 <= count <= MaxCount(cur, prev) && Follows(got, prev)
    ensures Sensible(got, Group(cur, count, prev))
    ensures forall i :: 0 <= i < |Group(cur, count, prev)| ==> ItemOk(Group(cur, count, prev)[i])
  {
    hide Sensible;
    assert Pow2(2) == 4 && Pow2(3) == 8 && Pow2(7) == 128;
    var g := Group(cur, count, prev);
    if count >= MinCount(cur, prev) && cur != 0 && cur != prev {
      SensibleOne(got, g[0]);
      SensibleOne(got + [cur], g[1]);
      UnpackOne(got, g[0]);
      SensibleConcat(got, [g[0]], [g[1]]);
      assert g == [g[0]] + [g[1]];
    } else if count >= MinCount(cur, prev) {
      SensibleOne(got, g[0]);
    } else {
      SensiblePlain(got, g);
    }
  }

  lemma {:induction false} PackSensible(got: seq<nat>, lens: seq<nat>, n: nat, count: nat, prev: int)
    requires n <= |lens| && SameRun(lens, n, count) && Follows(got, prev) && ValidLens(lens)
    requires n < |lens| ==> count < MaxCount(lens[n], prev)
    ensures Sensible(got, Pack(lens, n, count, prev))
    ensures forall i :: 0 <= i < |Pack(lens, n, count, prev)| ==> ItemOk(Pack(lens, n, count, prev)[i])
    decreases |lens| - n
  {
    hide Unpack, Group, MaxCount, Sensible, ItemOk;
    if n == |lens| {
      SensiblePlain(got, []);
    } else if GoesOn(lens, n, count, prev) {
      RunStep(lens, n, count);
      PackSensible(got, lens, n + 1, count + 1, prev);
    } else {
      var cur := lens[n];
      GroupSensible(got, cur, count + 1, prev);
      GroupUnpacks(got, cur, count + 1, prev);
      CountPositive(lens, n + 1, cur);
      assert lens[n + 1 - 0..n + 1] == [];
      PackSensible(got + Repeat(cur, count + 1), lens, n + 1, 0, cur);
      SensibleConcat(got, Group(cur, count + 1, prev), Pack(lens, n + 1, 0, cur));
    }
  }

  lemma PackedSensible(got: seq<nat>, lens: seq<nat>)
    requires ValidLens(lens)
    ensures Sensible(got, Packed(lens))
    ensures forall i :: 0 <= i < |Packed(lens)| ==> ItemOk(Packed(lens)[i])
  {
    hide Sensible, Pack, ItemOk;
    CountPositive(lens, 0, -1);
    assert lens[0 - 0..0] == [];
    PackSensible(got, lens, 0, 0, -1);
  }

  // ---------- the code length code ----------

  /** The first n of the lengths of the code length code, in ORDER. */
  function OrderBits(cl: seq<nat>, n: nat): seq<bool>
    requires |cl| == 19 && n <= 19
  {
    if n == 0 then [] else OrderBits(cl, n - 1) + ToBits(cl[ORDER[n - 1]], 3)
  }

  function InOrderOf(cl: seq<nat>, n: nat): (r: seq<nat>)
    requires |cl| == 19 && n <= 19
    ensures |r| == n
  {
    seq(n, i requires 0 <= i < n => cl[ORDER[i]])
  }

  lemma {:induction false} OrderDecodes(w: nat, last: bool, nlen: nat, ndist: nat, ncode: nat, cl: seq<nat>, n: nat,
        rest: seq<bool>, out: seq<byte>)
    requires |cl| == 19 && n <= ncode <= 19 && forall i :: 0 <= i < 19 ==> cl[i] <= 7
    ensures CodeLenLens(w, last, nlen, ndist, ncode, [], OrderBits(cl, n) + rest, out) ==
            CodeLenLens(w, last, nlen, ndist, ncode, InOrderOf(cl, n), rest, out)
    decreases n
  {
    hide CodeLenLens, ToBits, ToInt, ORDER;
    OrderInside();
    if n == 0 {
      assert OrderBits(cl, 0) + rest == rest;
      assert InOrderOf(cl, 0) == [];
    } else {
      var x := cl[ORDER[n - 1]];
      assert OrderBits(cl, n) + rest == OrderBits(cl, n - 1) + (ToBits(x, 3) + rest);
      OrderDecodes(w, last, nlen, ndist, ncode, cl, n - 1, ToBits(x, 3) + rest, out);
      assert Pow2(3) == 8;
      ExtraBack(x, 3, rest);
      LenLensStep(w, last, nlen, ndist, ncode, InOrderOf(cl, n - 1), ToBits(x, 3) + rest, out);
      assert InOrderOf(cl, n) == InOrderOf(cl, n - 1) + [x];
    }
  }

  lemma OrderInside()
    ensures |ORDER| == 19 && forall i :: 0 <= i < 19 ==> ORDER[i] < 19
  {
  }

  lemma LenLensStep(w: nat, last: bool, nlen: nat, ndist: nat, ncode: nat, got: seq<nat>, bits: seq<bool>,
        out: seq<byte>)
    requires |got| < ncode && |bits| >= 3
    ensures CodeLenLens(w, last, nlen, ndist, ncode, got, bits, out) ==
            CodeLenLens(w, last, nlen, ndist, ncode, got + [ToInt(bits[..3])], bits[3..], out)
  {
    hide ToInt, CodeLens;
  }

  /** The lengths not sent are zero. */
  ghost predicate Covers(cl: seq<nat>, ncode: nat) {
    |cl| == 19 && ncode <= 19 && forall i :: ncode <= i < 19 ==> cl[ORDER[i]] == 0
  }

  lemma PlacedBack(cl: seq<nat>, ncode: nat)
    requires Covers(cl, ncode)
    ensures Placed(InOrderOf(cl, ncode)) == cl
  {
    forall i | 0 <= i < 19 ensures Placed(InOrderOf(cl, ncode))[i] == cl[i] {
      assert ORDER[PLACE[i]] == i;
    }
  }

  // ---------- the header ----------

  /** What a dynamic block can be sent with. */
  ghost predicate Sendable(ll: seq<nat>, dl: seq<nat>, cl: seq<nat>, ncode: nat) {
    && 257 <= |ll| <= 286 && 1 <= |dl| <= 30 && ValidLens(ll) && ValidLens(dl) && ll[256] > 0
    && !Refused(LENS, ll) && !Refused(DISTS, dl)
    && Covers(cl, ncode) && 4 <= ncode && ValidLens(cl) && !Refused(CODES, cl) &&
        (forall i :: 0 <= i < 19 ==> cl[i] <= 7)
    && ItemsOk(cl, Packed(ll)) && ItemsOk(cl, Packed(dl))
  }

  ghost function CountsBits(nlen: nat, ndist: nat, ncode: nat): seq<bool>
    requires nlen >= 257 && ndist >= 1 && ncode >= 4
  {
    ToBits(nlen - 257, 5) + ToBits(ndist - 1, 5) + ToBits(ncode - 4, 4)
  }

  ghost function TreesBits(ll: seq<nat>, dl: seq<nat>, cl: seq<nat>, ncode: nat): seq<bool>
    requires Sendable(ll, dl, cl, ncode)
  {
    CountsBits(|ll|, |dl|, ncode) + OrderBits(cl, ncode) + (ItemsBits(cl, Packed(ll)) + ItemsBits(cl, Packed(dl)))
  }

  lemma CountsDecode(w: nat, last: bool, nlen: nat, ndist: nat, ncode: nat, rest: seq<bool>, out: seq<byte>)
    requires 257 <= nlen <= 286 && 1 <= ndist <= 30 && 4 <= ncode <= 19
    ensures Dynamic(w, last, CountsBits(nlen, ndist, ncode) + rest, out) ==
            CodeLenLens(w, last, nlen, ndist, ncode, [], rest, out)
  {
    hide ToBits, ToInt, CodeLenLens;
    var a, b, c := ToBits(nlen - 257, 5), ToBits(ndist - 1, 5), ToBits(ncode - 4, 4);
    assert Pow2(5) == 32 && Pow2(4) == 16;
    ToInts(nlen - 257, ndist - 1, ncode - 4);
    ThreeParts(a, b, c, rest);
  }

  lemma ToInts(x: nat, y: nat, z: nat)
    requires x < Pow2(5) && y < Pow2(5) && z < Pow2(4)
    ensures ToInt(ToBits(x, 5)) == x && ToInt(ToBits(y, 5)) == y && ToInt(ToBits(z, 4)) == z
  {
    ToIntToBits(x, 5);
    LowOfSmall(x, 5);
    ToIntToBits(y, 5);
    LowOfSmall(y, 5);
    ToIntToBits(z, 4);
    LowOfSmall(z, 4);
  }

  lemma ThreeParts(a: seq<bool>, b: seq<bool>, c: seq<bool>, rest: seq<bool>)
    requires |a| == |b| == 5 && |c| == 4
    ensures
      var bits := a + b + c + rest;
      |bits| >= 14 && bits[..5] == a && bits[5..10] == b && bits[10..14] == c &&
      bits[14..] == rest
  {
  }

  /** The header of a dynamic block gives the decoder the codes it was made from. */
  lemma TreesDecode(w: nat, last: bool, ll: seq<nat>, dl: seq<nat>, cl: seq<nat>, ncode: nat, rest: seq<bool>,
        out: seq<byte>)
    requires Sendable(ll, dl, cl, ncode)
    ensures Dynamic(w, last, TreesBits(ll, dl, cl, ncode) + rest, out) == Codes(w, last, ll, dl, rest, out)
  {
    hide CountsBits, OrderBits, ItemsBits, Dynamic, CodeLenLens, CodeLens, Codes, Packed, Placed, Covers, Unpack,
      ItemsOk, Tables, ValidLens, Refused;
    var items := Packed(ll) + Packed(dl);
    CoversSize(cl, ncode);
    PackedOk(ll, dl, cl, ncode);
    ItemsBitsConcat(cl, Packed(ll), Packed(dl));
    var r2 := ItemsBits(cl, items) + rest;
    var r1 := OrderBits(cl, ncode) + r2;
    assert TreesBits(ll, dl, cl, ncode) + rest == CountsBits(|ll|, |dl|, ncode) + r1;
    CountsDecode(w, last, |ll|, |dl|, ncode, r1, out);
    OrderDecodes(w, last, |ll|, |dl|, ncode, cl, ncode, r2, out);
    PlacedBack(cl, ncode);
    LenLensEnd(w, last, |ll|, |dl|, InOrderOf(cl, ncode), r2, out);
    ItemsDecode(w, last, |ll|, |dl|, cl, [], items, rest, out);
    LensEnd(w, last, ll, dl, cl, rest, out);
  }

  lemma CoversSize(cl: seq<nat>, ncode: nat)
    requires Covers(cl, ncode)
    ensures |cl| == 19 && ncode <= 19
  {
  }

  lemma PackedOk(ll: seq<nat>, dl: seq<nat>, cl: seq<nat>, ncode: nat)
    requires Sendable(ll, dl, cl, ncode)
    ensures Fits(cl) && ItemsOk(cl, Packed(ll)) && ItemsOk(cl, Packed(dl)) && ItemsOk(cl, Packed(ll) + Packed(dl))
    ensures Sensible([], Packed(ll) + Packed(dl)) && Unpack([], Packed(ll) + Packed(dl)) == ll + dl
    ensures forall i :: 0 <= i < |Packed(ll)| ==> Coded(cl, Packed(ll)[i].s)
    ensures forall i :: 0 <= i < |Packed(dl)| ==> Coded(cl, Packed(dl)[i].s)
    ensures forall i :: 0 <= i < |Packed(ll) + Packed(dl)| ==> Coded(cl, (Packed(ll) + Packed(dl))[i].s)
  {
    hide Packed, Unpack, Sensible, Kraft, Pow2;
    PackedSensible([], ll);
    PackedSensible(ll, dl);
    PackedUnpacks([], ll);
    assert [] + ll == ll;
    PackedUnpacks(ll, dl);
    SensibleConcat([], Packed(ll), Packed(dl));
    UnpackConcat([], Packed(ll), Packed(dl));
  }

  lemma LenLensEnd(w: nat, last: bool, nlen: nat, ndist: nat, got: seq<nat>, bits: seq<bool>, out: seq<byte>)
    requires ValidLens(Placed(got)) && !Refused(CODES, Placed(got))
    ensures CodeLenLens(w, last, nlen, ndist, |got|, got, bits, out) ==
            CodeLens(w, last, nlen, ndist, Placed(got), [], bits, out)
  {
    hide CodeLens, ValidLens, Refused, Placed;
  }

  lemma LensEnd(w: nat, last: bool, ll: seq<nat>, dl: seq<nat>, cl: seq<nat>, bits: seq<bool>, out: seq<byte>)
    requires 257 <= |ll| && ValidLens(ll) && ValidLens(dl) && ll[256] > 0 && !Refused(LENS, ll) && !Refused(DISTS, dl)
    ensures CodeLens(w, last, |ll|, |dl|, cl, ll + dl, bits, out) == Codes(w, last, ll, dl, bits, out)
  {
    hide Codes, Refused, ReadSymbol;
    var lens := ll + dl;
    assert lens[..|ll|] == ll && lens[|ll|..] == dl;
  }

  // ---------- the block ----------

  /** A dynamic block adds what its tokens stand for. */
  lemma DynamicContinues(reach: nat, at: nat, last: bool, ll: seq<nat>, dl: seq<nat>, cl: seq<nat>, ncode: nat,
        before: seq<Token>, ts: seq<Token>)
    requires Sendable(ll, dl, cl, ncode) && AllCodable(ll, dl, ts) && Coded(ll, 256) && AllExpressible(ts) &&
             Within(ts, reach) && Sane(before + ts)
    ensures Continues(reach, at, HeadBits(2, last) + TreesBits(ll, dl, cl, ncode) + CodedBits(ll, dl, ts), last,
            Expand(before), Expand(before + ts))
  {
    hide Blocks, CodedBits, Codable, Expand, TreesBits, Sendable;
    var more := HeadBits(2, last) + TreesBits(ll, dl, cl, ncode) + CodedBits(ll, dl, ts);
    forall w, rest: seq<bool> | w >= reach && (at + |more| + |rest|) % 8 == 0
      ensures Blocks(w, false, more + rest, Expand(before)) == Blocks(w, last, rest, Expand(before + ts))
    {
      DynamicBlock(w, last, ll, dl, cl, ncode, before, ts, rest);
    }
  }

  lemma DynamicBlock(w: nat, last: bool, ll: seq<nat>, dl: seq<nat>, cl: seq<nat>, ncode: nat, before: seq<Token>,
        ts: seq<Token>, rest: seq<bool>)
    requires Sendable(ll, dl, cl, ncode) && AllCodable(ll, dl, ts) && Coded(ll, 256) && AllExpressible(ts) &&
             Within(ts, w) && Sane(before + ts)
    ensures Blocks(w, false, HeadBits(2, last) + TreesBits(ll, dl, cl, ncode) + CodedBits(ll, dl, ts) + rest,
            Expand(before)) ==
            Blocks(w, last, rest, Expand(before + ts))
  {
    hide CodedBits, HeadBits, Codes, Dynamic, Stored, ToInt, Codable, Expand, TreesBits, Sendable, Fits;
    var r := CodedBits(ll, dl, ts) + rest;
    var body := TreesBits(ll, dl, cl, ncode) + r;
    assert HeadBits(2, last) + TreesBits(ll, dl, cl, ncode) + CodedBits(ll, dl, ts) + rest == HeadBits(2, last) + body;
    HeadParts(2, last, body);
    TreesDecode(w, last, ll, dl, cl, ncode, r, Expand(before));
    SendableFits(ll, dl, cl, ncode);
    CodedDecodes(w, last, ll, dl, before, ts, rest);
  }

  lemma SendableFits(ll: seq<nat>, dl: seq<nat>, cl: seq<nat>, ncode: nat)
    requires Sendable(ll, dl, cl, ncode)
    ensures Fits(ll) && Fits(dl)
  {
    hide Kraft, Pow2, ItemsOk, Covers;
  }
}
