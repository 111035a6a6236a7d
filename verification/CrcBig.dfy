/**
 The braided CRC on a big-endian machine: the same words and CRCs with their bytes swapped.  And crc32_z, which goes
 either way.
 */
module CrcBig {
  import opened Bits
  import opened CrcSpec
  import opened CrcAlgebra
  import opened Crc32
  import opened CrcBraid

  // ---------- swapped words ----------

  lemma PartsAdd(a: bv64, b: bv64)
    ensures LowByte(Add(a, b)) == Add(LowByte(a), LowByte(b)) && Down8(Add(a, b)) == Add(Down8(a), Down8(b))
    ensures LowByte(0) == 0 && Down8(0) == 0
  {
  }

  /** Swapping is linear. */
  lemma {:induction false} SwapAdd(a: bv64, b: bv64, w: nat)
    ensures Swap(Add(a, b), w) == Add(Swap(a, w), Swap(b, w)) && Swap(0, w) == 0
    decreases w
  {
    hide Add, LowByte, Down8, UpN;
    PartsAdd(a, b);
    AddZero(0);
    if w > 0 {
      UpNAdd(LowByte(a), LowByte(b), w - 1);
      SwapAdd(Down8(a), Down8(b), w - 1);
      AddSwap(UpN(LowByte(a), w - 1), UpN(LowByte(b), w - 1), Swap(Down8(a), w - 1), Swap(Down8(b), w - 1));
    }
  }

  lemma {:induction false} DownAdd(a: bv64, b: bv64, k: nat)
    ensures Down(Add(a, b), k) == Add(Down(a, k), Down(b, k)) && Down(0, k) == 0
  {
    hide Add, Down8, LowByte;
    if k > 0 {
      DownAdd(a, b, k - 1);
      PartsAdd(Down(a, k - 1), Down(b, k - 1));
    }
  }

  lemma {:induction false} DownDown(x: bv64, k: nat)
    ensures Down(Down8(x), k) == Down(x, k + 1)
  {
    hide Down8;
    if k > 0 {
      DownDown(x, k - 1);
    }
  }

  lemma ByteParts(x: bv64)
    ensures LowByte(x) <= 0xff && Down8(LowByte(x)) == 0 && LowByte(LowByte(x)) == LowByte(x)
  {
  }

  /** A byte put up j places and taken down k. */
  lemma {:induction false} DownUpN(b: bv64, j: nat, k: nat)
    requires b <= 0xff && k <= j <= 7
    ensures Down(UpN(b, j), k) == UpN(b, j - k) && (k < j ==> LowByte(Down(UpN(b, j), k)) == 0)
  {
    hide Down8, Up8, LowByte, AtMost;
    if k > 0 {
      DownUpN(b, j, k - 1);
      UpNBound(b, j - k);
      UpDownIs(UpN(b, j - k));
    }
    if k < j {
      UpNBound(b, j - k - 1);
      UpDownIs(UpN(b, j - k - 1));
    }
  }

  lemma SwapStep(x: bv64, w: nat)
    requires w > 0
    ensures Swap(x, w) == Add(UpN(LowByte(x), w - 1), Swap(Down8(x), w - 1))
  {
  }

  /** What is k places up in a swapped word. */
  lemma SwapDownK(x: bv64, k: nat, w: nat)
    requires k < w <= 8
    ensures Down(Swap(x, w), k) == Add(UpN(LowByte(x), w - 1 - k), Down(Swap(Down8(x), w - 1), k))
  {
    hide Add, Down8, Up8, LowByte, UpN, Down, Swap;
    SwapStep(x, w);
    ByteParts(x);
    DownAdd(UpN(LowByte(x), w - 1), Swap(Down8(x), w - 1), k);
    DownUpN(LowByte(x), w - 1, k);
  }

  lemma NoSwap(x: bv64)
    ensures Swap(x, 0) == 0 && Down(0, 0) == 0
  {
  }

  lemma NoneDown(x: bv64)
    ensures Down(x, 0) == x
  {
  }

  lemma DownNext(x: bv64, k: nat)
    ensures Down(x, k + 1) == Down8(Down(x, k))
  {
  }

  /** There is nothing above its w bytes. */
  lemma {:induction false} SwapAbove(x: bv64, w: nat)
    requires w <= 8
    ensures Down(Swap(x, w), w) == 0
    decreases w
  {
    hide Add, Down8, Up8, LowByte, UpN, Down, Swap;
    if w == 0 {
      NoSwap(x);
    } else {
      SwapAbove(Down8(x), w - 1);
      SwapDownK(x, w - 1, w);
      UpNone(LowByte(x));
      AddZero(LowByte(x));
      ByteParts(x);
      DownNext(Swap(x, w), w - 1);
    }
  }

  /** The bytes of a swapped word are the other way round. */
  lemma {:induction false} SwapByte(x: bv64, k: nat, w: nat)
    requires k < w <= 8
    ensures LowByte(Down(Swap(x, w), k)) == LowByte(Down(x, w - 1 - k))
    decreases w
  {
    hide Add, Down8, Up8, LowByte, UpN, Down, Swap;
    var b, s := LowByte(x), Swap(Down8(x), w - 1);
    SwapDownK(x, k, w);
    ByteParts(x);
    if k == w - 1 {
      SwapAbove(Down8(x), w - 1);
      UpNone(b);
      AddZero(b);
      NoneDown(x);
    } else {
      SwapByte(Down8(x), k, w - 1);
      PartsAdd(UpN(b, w - 1 - k), Down(s, k));
      DownUpN(b, w - 1 - k, 0);
      NoneDown(UpN(b, w - 1 - k));
      AddZero(LowByte(Down(s, k)));
      DownDown(x, w - 2 - k);
    }
  }

  /** Words with the same bytes are the same. */
  lemma {:induction false} SumSame(x: bv64, y: bv64, k: nat, w: nat)
    requires forall j :: 0 <= j < w ==> LowByte(Down(x, j)) == LowByte(Down(y, j))
    ensures Sum(x, k, 0, w) == Sum(y, k, 0, w)
    decreases w - k
  {
    hide Add, Down, LowByte, UpN, TimesXn;
    if k < w {
      SumSame(x, y, k + 1, w);
    }
  }

  lemma SameBytes(x: bv64, y: bv64, w: nat)
    requires Size(w) && Fits(x, w) && Fits(y, w)
    requires forall j :: 0 <= j < w ==> LowByte(Down(x, j)) == LowByte(Down(y, j))
    ensures x == y
  {
    hide Add, Down8, LowByte, TimesXn, Fits, Sum;
    SumSame(x, y, 0, w);
    SumIs(x, 0, 0, w);
    SumIs(y, 0, 0, w);
    UpNone(x);
    UpNone(y);
    TimesXnNone(x);
    TimesXnNone(y);
  }

  lemma SwapFits(x: bv64, w: nat)
    requires Size(w)
    ensures Fits(Swap(x, w), w)
  {
    hide Down8, Swap, Down16, Down32;
    SwapAbove(x, w);
    var y := Swap(x, w);
    if w == 4 {
      DownTwo(y, 0);
      DownTwo(y, 2);
      Down32Is(y);
      SmallIf(y);
    }
  }

  lemma SmallIf(x: bv64)
    requires Down32(x) == 0
    ensures x <= ONES
  {
  }

  lemma SwapTwice(x: bv64, w: nat)
    requires Size(w) && Fits(x, w)
    ensures Swap(Swap(x, w), w) == x
  {
    hide Swap, Down, LowByte, Fits;
    var y := Swap(x, w);
    SwapFits(y, w);
    forall j | 0 <= j < w ensures LowByte(Down(Swap(y, w), j)) == LowByte(Down(x, j)) {
      SwapByte(y, j, w);
      SwapByte(x, w - 1 - j, w);
    }
    SameBytes(Swap(y, w), x, w);
  }

  /** x & 0xffffffff */
  function Low32(x: bv64): bv64 {
    x & 0xffff_ffff
  }

  /** What a word of w bytes keeps of x. */
  function Keep(x: bv64, w: nat): bv64 {
    if w == 8 then x else Low32(x)
  }

  /** A word without its highest byte, swapped, is shifted up. */
  lemma {:induction false} SwapShort(y: bv64, n: nat)
    requires Down(y, n) == 0
    ensures Swap(y, n + 1) == Up8(Swap(y, n))
    decreases n
  {
    hide Add, Down8, Up8, LowByte;
    Up8Add(0, 0);
    AddZero(0);
    PartsAdd(0, 0);
    UpNAdd(0, 0, n);
    if n > 0 {
      DownDown(y, n - 1);
      SwapShort(Down8(y), n - 1);
      Up8Add(UpN(LowByte(y), n - 1), Swap(Down8(y), n - 1));
    }
  }

  lemma Low32Add(p: bv64, q: bv64)
    ensures Low32(Add(p, q)) == Add(Low32(p), Low32(q))
  {
  }

  lemma Low32Small(q: bv64)
    requires q <= ONES
    ensures Low32(q) == q
  {
  }

  lemma KeepAdd(p: bv64, q: bv64, w: nat)
    requires Size(w) && Fits(q, w) && Keep(p, w) == 0
    ensures Keep(Add(p, q), w) == q
  {
    hide Add, Low32;
    Low32Add(p, q);
    AddZero(q);
    if w == 4 {
      Low32Small(q);
    }
  }

  lemma UpOut(b: bv64, w: nat)
    requires Size(w) && b <= 0xff
    ensures Keep(UpN(b, w), w) == 0
  {
    hide Up8, Low32;
    UpNSteps(b);
    UpOutIs(b);
  }

  lemma UpNSteps(b: bv64)
    ensures UpN(b, 4) == Up8(Up8(Up8(Up8(b)))) && UpN(b, 8) == Up8(Up8(Up8(Up8(UpN(b, 4)))))
  {
    hide Up8;
    assert UpN(b, 1) == Up8(b);
    assert UpN(b, 2) == Up8(UpN(b, 1)) && UpN(b, 3) == Up8(UpN(b, 2));
    assert UpN(b, 5) == Up8(UpN(b, 4)) && UpN(b, 6) == Up8(UpN(b, 5)) && UpN(b, 7) == Up8(UpN(b, 6));
  }

  lemma UpOutIs(b: bv64)
    requires b <= 0xff
    ensures var u := Up8(Up8(Up8(Up8(b)))); Low32(u) == 0 && Up8(Up8(Up8(Up8(u)))) == 0
  {
  }

  lemma SwapDown(x: bv64, w: nat)
    requires Size(w) && Fits(x, w)
    ensures Swap(Down8(x), w) == Keep(Up8(Swap(x, w)), w)
  {
    hide Add, Down8, Up8, LowByte, Keep, Fits;
    var b, s := LowByte(x), Swap(Down8(x), w - 1);
    ByteParts(x);
    DownAll(x, w);
    DownDown(x, w - 1);
    SwapShort(Down8(x), w - 1);
    Up8Add(UpN(b, w - 1), s);
    UpOut(b, w);
    SwapFits(Down8(x), w);
    KeepAdd(UpN(b, w), Up8(s), w);
  }

  lemma IndexSame(x: bv64, y: bv64)
    requires LowByte(x) == LowByte(y)
    ensures Index(x) == Index(y)
  {
  }

  // ---------- big-endian words ----------

  /** crc_word_big: what crc_word computes, swapped. */
  method CrcWordBig(big: seq<bv64>, ghost t: seq<bv64>, data: bv64, w: nat, ghost x: bv64) returns (crc: bv64)
    requires TableOk(t) && big == SwapAll(t, w) && Size(w) && Fits(x, w) && data == Swap(x, w)
    ensures crc == Swap(TimesXn(x, 8 * w), w) && TimesXn(x, 8 * w) <= ONES
  {
    hide TimesXn, Add, Down8, Up8, Index, LowByte, Swap, Down, Keep, Fits;
    crc := data;
    TimesXnNone(x);
    for k := 0 to w
      invariant crc == Swap(TimesXn(x, 8 * k), w)
    {
      ghost var y := TimesXn(x, 8 * k);
      FitsOn(x, 8 * k, w);
      TableLookup(t, y);
      TimesXnPlus(x, 8 * k, 8);
      SwapByte(y, w - 1, w);
      NoneDown(y);
      IndexSame(Down(crc, w - 1), y);
      SwapDown(y, w);
      SwapAdd(Down8(y), t[Index(y)], w);
      crc := Add(Keep(Up8(crc), w), big[Index(Down(crc, w - 1))]);
    }
    if w == 8 {
      WordSmall(x);
    } else {
      SmallWord(x, w);
    }
  }

  lemma SmallWord(x: bv64, w: nat)
    requires w != 8 && Fits(x, w)
    ensures TimesXn(x, 32) <= ONES
  {
    hide TimesXn;
    TimesXnSmall(x, 32);
  }

  /** One word of one braid, from its other end: what BraidWord computes, swapped. */
  method BraidWordBig(big: seq<seq<bv64>>, ghost t: seq<seq<bv64>>, w: nat, ghost m: nat, word: bv64, ghost x: bv64)
      returns (crc: bv64)
    requires BraidOk(t, w, m) && BigOk(big, t, w) && Fits(x, w) && word == Swap(x, w)
    ensures crc == Swap(TimesXn(x, 8 * m), w)
  {
    hide TimesXn, UpN, Index, LowByte, Add, Down8, Down, BraidOk, Fits, Swap;
    BraidSize(t, w, m);
    crc := 0;
    SwapAdd(0, 0, w);
    for k := 0 to w
      invariant crc == Swap(Sum(x, w - k, m, w), w)
    {
      var j := w - 1 - k;
      SwapByte(x, k, w);
      IndexSame(Down(word, k), Down(x, j));
      BraidLookup(t, w, m, j, Down(x, j));
      ghost var term := TimesXn(UpN(LowByte(Down(x, j)), j), 8 * m);
      assert big[k] == SwapAll(t[j], w);
      SwapAdd(term, Sum(x, j + 1, m, w), w);
      AddComm(crc, Swap(term, w));
      crc := Add(crc, big[k][Index(Down(word, k))]);
    }
    SumIs(x, 0, m, w);
    NoneDown(x);
    UpNone(x);
  }

  /** A block: each braid takes its word. */
  method TakeBlockBig(big: seq<seq<bv64>>, ghost t: seq<seq<bv64>>, w: nat, ghost m: nat, crcs: seq<bv64>,
        ws: seq<bv64>, ghost xs: seq<bv64>, ghost ys: seq<bv64>)
      returns (crcs': seq<bv64>)
    requires BraidOk(t, w, m) && BigOk(big, t, w) && |xs| == |ys| && AllFit(xs, w) && AllFit(ys, w)
    requires crcs == SwapAll(xs, w) && ws == SwapAll(ys, w)
    ensures crcs' == SwapAll(ShiftedOn(Sums(xs, ys), 8 * m), w)
  {
    hide TimesXn, Add, BraidOk, BigOk, Fits, Swap;
    var n := |crcs|;
    SumsFit(xs, ys, w);
    crcs' := crcs;
    for j := 0 to n
      invariant |crcs'| == n && forall i :: j <= i < n ==> crcs'[i] == crcs[i]
      invariant forall i :: 0 <= i < j ==> crcs'[i] == Swap(TimesXn(Add(xs[i], ys[i]), 8 * m), w)
    {
      assert Fits(Sums(xs, ys)[j], w);
      SwapAdd(xs[j], ys[j], w);
      var crc := BraidWordBig(big, t, w, m, Add(crcs[j], ws[j]), Add(xs[j], ys[j]));
      crcs' := crcs'[j := crc];
    }
    assert crcs' == SwapAll(ShiftedOn(Sums(xs, ys), 8 * m), w);
  }

  /** The last block: the braids are combined while taking their words. */
  method LastBlockBig(table: seq<bv64>, ghost t: seq<bv64>, crcs: seq<bv64>, ws: seq<bv64>, w: nat,
        ghost xs: seq<bv64>, ghost ys: seq<bv64>)
      returns (comb: bv64)
    requires TableOk(t) && table == SwapAll(t, w) && Size(w) && |xs| == |ys| && AllFit(xs, w) && AllFit(ys, w)
    requires crcs == SwapAll(xs, w) && ws == SwapAll(ys, w)
    ensures comb == Swap(Fold(0, Sums(xs, ys), w), w) && Fold(0, Sums(xs, ys), w) <= ONES
  {
    hide TimesXn, Add, TableOk, Swap;
    ghost var zs := Sums(xs, ys);
    SumsFit(xs, ys, w);
    SwapAdd(0, 0, w);
    comb := 0;
    ghost var c: bv64 := 0;
    for j := 0 to |ws|
      invariant comb == Swap(c, w) && Fold(0, zs, w) == Fold(c, zs[j..], w) && c <= ONES
    {
      assert zs[j..][0] == zs[j] && zs[j..][1..] == zs[j + 1..];
      AddComm(zs[j], c);
      FitsAdd(zs[j], c, w);
      SwapAdd(xs[j], ys[j], w);
      SwapAdd(zs[j], c, w);
      comb := CrcWordBig(table, t, Add(Add(crcs[j], ws[j]), comb), w, Add(zs[j], c));
      c := TimesXn(Add(zs[j], c), 8 * w);
    }
  }

  lemma Parted(ws: seq<bv64>, xs: seq<bv64>, w: nat, n: nat)
    requires ws == SwapAll(xs, w) && AllFit(xs, w) && n <= |xs|
    ensures ws[..n] == SwapAll(xs[..n], w) && ws[n..] == SwapAll(xs[n..], w) && AllFit(xs[..n], w) && AllFit(xs[n..], w)
  {
    hide Swap, Fits;
  }

  lemma StartFits(crc: bv64, n: nat, w: nat)
    requires crc <= ONES
    ensures AllFit([crc] + Zeros(n), w) && [Swap(crc, w)] + Zeros(n) == SwapAll([crc] + Zeros(n), w)
  {
    hide Swap;
    SwapAdd(0, 0, w);
  }

  /** All blocks. */
  method TakeBlocksBig(table: seq<bv64>, big: seq<seq<bv64>>, ghost t: seq<bv64>, ghost tt: seq<seq<bv64>>, w: nat,
        n: nat, crc: bv64, words: seq<bv64>, blks: nat, ghost ys: seq<bv64>)
      returns (crc': bv64)
    requires TableOk(t) && table == SwapAll(t, w) && n >= 1 && BraidOk(tt, w, w * n) && BigOk(big, tt, w)
    requires blks >= 1 && |words| == blks * n && words == SwapAll(ys, w) && crc <= ONES && AllFit(ys, w)
    ensures crc' == Fold(crc, ys, w)
  {
    hide TimesXn, Add, TableOk, BraidOk, BigOk, Fold, Braided, Swap, AllFit, SwapAll;
    BraidSize(tt, w, w * n);
    ghost var xs := [crc] + Zeros(n - 1);
    var crcs := [Swap(crc, w)] + Zeros(n - 1);
    StartFits(crc, n - 1, w);
    BraidStart(crc, n, w);
    var rest, b := words, blks;
    ghost var r, left := crc, ys;
    while b > 1
      invariant |xs| == n && Braided(xs, r, w) && Fold(r, left, w) == Fold(crc, ys, w)
      invariant b >= 1 && |rest| == b * n && AllFit(xs, w) && AllFit(left, w)
      invariant crcs == SwapAll(xs, w) && rest == SwapAll(left, w)
    {
      OneLess(b, n);
      var ws := rest[..n];
      ghost var zs := left[..n];
      Parted(rest, left, w, n);
      BraidNext(xs, r, zs, w);
      FoldConcat(r, zs, left[n..], w);
      assert zs + left[n..] == left;
      SumsFit(xs, zs, w);
      ShiftedOnFit(Sums(xs, zs), 8 * (w * n), w);
      crcs := TakeBlockBig(big, tt, w, w * n, crcs, ws, xs, zs);
      xs := ShiftedOn(Sums(xs, zs), 8 * (w * n));
      r, left, rest, b := Fold(r, zs, w), left[n..], rest[n..], b - 1;
    }
    BraidBlock(xs, r, left, w);
    crc' := LastBlockBig(table, t, crcs, rest, w, xs, left);
    SwapTwice(Fold(crc, ys, w), w);
    crc' := Swap(crc', w);
  }

  // ---------- crc32_z ----------

  /** All tables, for words of w bytes and n braids. */
  datatype Tables = Tables(table: seq<bv64>, bigTable: seq<bv64>, braid: seq<seq<bv64>>, bigBraid: seq<seq<bv64>>) {
    ghost predicate Ok(w: nat, n: nat) {
      && Size(w) && n >= 1 && TableOk(table) && bigTable == SwapAll(table, w)
      && BraidOk(braid, w, w * n) && BigOk(bigBraid, braid, w)
    }
  }

  /** make_crc_table: all tables, for n braids of words of w bytes. */
  method MakeTables(w: nat, n: nat) returns (t: Tables)
    requires Size(w) && n >= 1
    ensures t.Ok(w, n)
  {
    hide TableOk, BraidOk, BigOk, Swap;
    var table := MakeCrcTable();
    var x2n := MakeX2nTable();
    assert w <= w * n;
    var ltl, big := Braid(x2n[..], w, w * n);
    t := Tables(table[..], SwapAll(table[..], w), ltl, big);
  }

  lemma RegisterSplit(r: bv64, buf: seq<byte>, i: nat)
    requires i <= |buf|
    ensures Register(r, buf) == Register(Register(r, buf[..i]), buf[i..])
  {
    hide Register;
    RegisterConcat(r, buf[..i], buf[i..]);
    assert buf[..i] + buf[i..] == buf;
  }

  lemma BlockCount(len: nat, w: nat, n: nat, blks: nat)
    requires n >= 1 && Size(w) && len >= w * n && blks == len / (w * n)
    ensures blks >= 1 && w * (blks * n) <= len && blks * n >= 0
  {
    assert blks * (w * n) <= len;
    assert blks * (w * n) == w * (blks * n);
  }

  /** crc32_z with n braids of words of w bytes, on a machine of either order, buf being at address addr. */
  method Crc32Z(t: Tables, w: nat, n: nat, bigEndian: bool, crc: bv32, given: Option<seq<byte>>, addr: nat)
      returns (crc': bv32)
    requires t.Ok(w, n)
    ensures crc' == match given case None => 0 case Some(buf) => Crc(crc, buf)
  {
    hide Register, TableOk, BraidOk, BigOk, FromRegister, ToRegister, Fold, Words, AllFit, Swap;
    if given.None? {
      return 0;
    }
    var buf := given.value;
    var r := ToRegister(crc);
    ToRegisterSmall(crc);
    var rest := buf;
    if |buf| >= w * n + w - 1 {
      var head := (w - addr % w) % w;
      RegisterSplit(r, rest, head);
      RegisterSmall(r, rest[..head]);
      r := CrcBytes(t.table, r, rest[..head]);
      rest := rest[head..];
      var blks := |rest| / (w * n);
      BlockCount(|rest|, w, n, blks);
      var body := rest[..w * (blks * n)];
      RegisterSplit(r, rest, |body|);
      FoldRegister(r, body, w, blks * n);
      WordsFit(body, w, blks * n);
      var words := Words(body, w, blks * n);
      if bigEndian {
        r := TakeBlocksBig(t.bigTable, t.bigBraid, t.table, t.braid, w, n, r, SwapAll(words, w), blks, words);
      } else {
        r := TakeBlocks(t.table, t.braid, w, n, r, words, blks);
      }
      rest := rest[|body|..];
    }
    r := CrcBytes(t.table, r, rest);
    crc' := FromRegister(r);
  }
}
