/**
 The braided CRC of crc32.c: n interleaved CRCs of every n-th word, combined in the last block.  Words have w bytes,
 four or eight; m is the number of bytes of a block, w n.
 */
module CrcBraid {
  import opened Bits
  import opened CrcSpec
  import opened CrcAlgebra
  import opened CrcMul
  import opened Crc32

  // ---------- a byte in place k of a word ----------

  /** x << 8k */
  function UpN(x: bv64, k: nat): bv64 {
    if k == 0 then x else Up8(UpN(x, k - 1))
  }

  /** x >> 8k */
  function Down(x: bv64, k: nat): bv64 {
    if k == 0 then x else Down8(Down(x, k - 1))
  }

  lemma FillBounds(p: bv64, t: bv64)
    requires AtMost(p, t) && AtMost(t, 0xff_ffff_ffff_ffff)
    ensures AtMost(Up8(p), Fill(t))
  {
  }

  lemma {:induction false} UpNBound(x: bv64, k: nat)
    requires x <= 0xff && k <= 6
    ensures AtMost(UpN(x, k), Top(k + 1)) && AtMost(UpN(x, k), 0xff_ffff_ffff_ffff)
  {
    hide Up8, AtMost, Fill;
    if k == 0 {
      TopOne(x);
    } else {
      UpNBound(x, k - 1);
      AtMostItself(Top(k));
      TopSmall(k, Top(k));
      FillBounds(UpN(x, k - 1), Top(k));
    }
    TopSmall(k + 1, UpN(x, k));
  }

  lemma TopOne(x: bv64)
    requires x <= 0xff
    ensures AtMost(x, Top(1))
  {
    assert Top(1) == 0xff;
  }

  /** Shifting out j bytes below it moves a byte down j places. */
  lemma {:induction false} UpNDown(x: bv64, k: nat, j: nat)
    requires x <= 0xff && k + j <= 7
    ensures TimesXn(UpN(x, k + j), 8 * j) == UpN(x, k)
    decreases j
  {
    hide Up8, TimesXn, AtMost, Fill;
    if j == 0 {
      TimesXnNone(UpN(x, k));
    } else {
      UpNBound(x, k + j - 1);
      UpDown(UpN(x, k + j - 1));
      UpNDown(x, k, j - 1);
      TimesXnPlus(UpN(x, k + j), 8, 8 * (j - 1));
    }
  }

  /** So byte k of a word, m bytes on, can be had from the top byte of a 32-bit word. */
  lemma ByteTerm(x: bv64, k: nat, m: nat)
    requires x <= 0xff && k < 8 && k <= m
    ensures TimesXn(UpN(x, k), 8 * m) == TimesXn(UpN(x, 3), 8 * (m + 3 - k))
  {
    hide TimesXn, UpN;
    if k <= 3 {
      UpNDown(x, k, 3 - k);
      TimesXnPlus(UpN(x, 3), 8 * (3 - k), 8 * m);
    } else {
      UpNDown(x, 3, k - 3);
      TimesXnPlus(UpN(x, k), 8 * (k - 3), 8 * (m + 3 - k));
    }
  }

  lemma Up8Add(a: bv64, b: bv64)
    ensures Up8(Add(a, b)) == Add(Up8(a), Up8(b)) && Up8(0) == 0
  {
  }

  lemma {:induction false} UpNAdd(a: bv64, b: bv64, k: nat)
    ensures UpN(Add(a, b), k) == Add(UpN(a, k), UpN(b, k)) && UpN(0, k) == 0
  {
    hide Up8, Add;
    if k > 0 {
      UpNAdd(a, b, k - 1);
      Up8Add(UpN(a, k - 1), UpN(b, k - 1));
    }
  }

  lemma {:induction false} UpNUp(z: bv64, k: nat)
    ensures UpN(Up8(z), k) == UpN(z, k + 1)
  {
    hide Up8;
    if k > 0 {
      UpNUp(z, k - 1);
    }
  }

  function Down16(x: bv64): bv64 {
    x >> 16
  }

  function Down32(x: bv64): bv64 {
    x >> 32
  }

  lemma Down16Is(x: bv64)
    ensures Down8(Down8(x)) == Down16(x)
  {
  }

  lemma Down32Is(x: bv64)
    ensures Down16(Down16(x)) == Down32(x)
  {
  }

  lemma Down64Is(x: bv64)
    ensures Down32(Down32(x)) == 0
  {
  }

  lemma DownTwo(x: bv64, k: nat)
    ensures Down(x, k + 2) == Down16(Down(x, k))
  {
    hide Down8, Down16;
    Down16Is(Down(x, k));
  }

  lemma DownAll(x: bv64, w: nat)
    requires Size(w) && Fits(x, w)
    ensures Down(x, w) == 0
  {
    hide Down8, Down16, Down32;
    DownTwo(x, 0);
    DownTwo(x, 2);
    Down32Is(x);
    if w == 4 {
      DownSmall(x);
    } else {
      DownTwo(x, 4);
      DownTwo(x, 6);
      Down32Is(Down(x, 4));
      Down64Is(x);
    }
  }

  lemma DownSmall(x: bv64)
    requires x <= ONES
    ensures Down32(x) == 0
  {
  }

  /** The sum over the bytes of a word from place k up. */
  function Sum(x: bv64, k: nat, m: nat, w: nat): bv64
    decreases w - k
  {
    if k >= w then 0 else Add(TimesXn(UpN(LowByte(Down(x, k)), k), 8 * m), Sum(x, k + 1, m, w))
  }

  lemma {:induction false} SumIs(x: bv64, k: nat, m: nat, w: nat)
    requires Size(w) && Fits(x, w) && k <= w
    ensures Sum(x, k, m, w) == TimesXn(UpN(Down(x, k), k), 8 * m)
    decreases w - k
  {
    hide Add, TimesXn, LowByte, Up8, Down8, Fits;
    if k == w {
      DownAll(x, w);
      UpNAdd(0, 0, w);
      TimesXnAdd(0, 0, 8 * m);
    } else {
      var v := Down(x, k);
      SumIs(x, k + 1, m, w);
      SplitLow(v);
      UpNAdd(LowByte(v), Up8(Down8(v)), k);
      UpNUp(Down8(v), k);
      TimesXnAdd(UpN(LowByte(v), k), UpN(Down8(v), k + 1), 8 * m);
    }
  }

  // ---------- the tables ----------

  /** Each byte, in the top place, m steps on. */
  ghost predicate RowOk(row: seq<bv64>, m: nat) {
    |row| == 256 && forall i: byte :: row[i] == TimesXn(UpN(Word(i), 3), m)
  }

  ghost predicate BraidOk(t: seq<seq<bv64>>, w: nat, m: nat) {
    Size(w) && w <= m && |t| == w && forall k :: 0 <= k < w ==> RowOk(t[k], 8 * (m + 3 - k))
  }

  lemma TopByte(w: bv64)
    requires w <= 0xff
    ensures UpN(w, 3) <= ONES && (w != 0 ==> UpN(w, 3) != 0)
  {
    hide Up8;
    assert UpN(w, 1) == Up8(w);
    assert UpN(w, 2) == Up8(Up8(w));
    assert UpN(w, 3) == Up8(Up8(Up8(w)));
    TopByteIs(w);
  }

  lemma TopByteIs(w: bv64)
    requires w <= 0xff
    ensures Up8(Up8(Up8(w))) <= ONES && (w != 0 ==> Up8(Up8(Up8(w))) != 0)
  {
  }

  lemma WordZero(i: byte)
    ensures Word(i) == 0 <==> i == 0
  {
    ByteRound(i as bv8);
  }

  lemma NoByte(m: nat)
    ensures TimesXn(UpN(Word(0), 3), m) == 0
  {
    hide TimesXn, Word;
    WordZero(0);
    UpNAdd(0, 0, 3);
    TimesXnAdd(0, 0, m);
  }

  /** The entries for one place. */
  method BraidRow(x2n: seq<bv64>, m: nat) returns (row: array<bv64>)
    requires x2n == X2N
    ensures fresh(row) && RowOk(row[..], m)
  {
    hide TimesXn, UpN, Word, Mul, X2N, Power;
    var p := X2nmodp(x2n, m, 0);
    assert Shl(m, 0) == m;
    row := new bv64[256];
    row[0] := 0;
    NoByte(m);
    for i := 1 to 256
      invariant forall j: byte :: j < i ==> row[j] == TimesXn(UpN(Word(j), 3), m)
    {
      WordZero(i);
      TopByte(Word(i));
      var q := Multmodp(UpN(Word(i), 3), p);
      MulComm(UpN(Word(i), 3), p);
      MulPower(m, UpN(Word(i), 3));
      row[i] := q;
    }
  }

  /** byte_swap: the lowest of w bytes becomes the highest, and so on. */
  function Swap(x: bv64, w: nat): bv64 {
    if w == 0 then 0 else Add(UpN(LowByte(x), w - 1), Swap(Down8(x), w - 1))
  }

  function SwapAll(row: seq<bv64>, w: nat): (r: seq<bv64>)
    ensures |r| == |row| && forall i :: 0 <= i < |row| ==> r[i] == Swap(row[i], w)
  {
    seq(|row|, i requires 0 <= i < |row| => Swap(row[i], w))
  }

  /** The big-endian tables are the others, back to front, with their bytes swapped. */
  ghost predicate BigOk(big: seq<seq<bv64>>, ltl: seq<seq<bv64>>, w: nat) {
    |big| == |ltl| == w && forall k :: 0 <= k < w ==> big[w - 1 - k] == SwapAll(ltl[k], w)
  }

  /** braid */
  method Braid(x2n: seq<bv64>, w: nat, m: nat) returns (ltl: seq<seq<bv64>>, big: seq<seq<bv64>>)
    requires x2n == X2N && Size(w) && w <= m
    ensures BraidOk(ltl, w, m) && BigOk(big, ltl, w)
  {
    hide RowOk, X2N, Swap;
    ltl, big := [], [];
    for k := 0 to w
      invariant |ltl| == |big| == k && forall j :: 0 <= j < k ==> RowOk(ltl[j], 8 * (m + 3 - j))
      invariant forall j :: 0 <= j < k ==> big[k - 1 - j] == SwapAll(ltl[j], w)
    {
      var row := BraidRow(x2n, 8 * (m + 3 - k));
      ltl, big := ltl + [row[..]], [SwapAll(row[..], w)] + big;
    }
  }

  lemma BraidLookup(t: seq<seq<bv64>>, w: nat, m: nat, k: nat, v: bv64)
    requires BraidOk(t, w, m) && k < w
    ensures |t| == w && |t[k]| == 256 && t[k][Index(v)] == TimesXn(UpN(LowByte(v), k), 8 * m)
  {
    hide TimesXn, UpN, Word, Index, LowByte;
    var i := Index(v);
    assert RowOk(t[k], 8 * (m + 3 - k));
    IndexWord(v);
    ByteTerm(Word(i), k, m);
  }

  /** One word of one braid: lookups for its bytes carry it past the words of the other braids and its own. */
  method BraidWord(t: seq<seq<bv64>>, w: nat, m: nat, word: bv64) returns (crc: bv64)
    requires BraidOk(t, w, m) && Fits(word, w)
    ensures crc == TimesXn(word, 8 * m)
  {
    hide TimesXn, UpN, Index, LowByte, Add, Down8, BraidOk, Fits;
    BraidSize(t, w, m);
    SumIs(word, 0, m, w);
    UpNone(word);
    UpNone(LowByte(word));
    BraidLookup(t, w, m, 0, word);
    crc := t[0][Index(word)];
    var v := word;
    for k := 1 to w
      invariant v == Down(word, k - 1) && Add(crc, Sum(word, k, m, w)) == TimesXn(word, 8 * m)
    {
      v := Down8(v);
      BraidLookup(t, w, m, k, v);
      AddAssoc(crc, t[k][Index(v)], Sum(word, k + 1, m, w));
      crc := Add(crc, t[k][Index(v)]);
    }
    AddZero(crc);
  }

  lemma BraidSize(t: seq<seq<bv64>>, w: nat, m: nat)
    requires BraidOk(t, w, m)
    ensures Size(w) && w <= m && |t| == w
  {
  }

  lemma UpNone(x: bv64)
    ensures UpN(x, 0) == x
  {
  }

  // ---------- words in sequence ----------

  /** The register after whole words. */
  function Fold(r: bv64, ws: seq<bv64>, w: nat): bv64
    decreases |ws|
  {
    if ws == [] then r else Fold(TimesXn(Add(r, ws[0]), 8 * w), ws[1..], w)
  }

  /** k little-endian words from bytes. */
  function Words(bs: seq<byte>, w: nat, k: nat): (ws: seq<bv64>)
    requires Size(w) && |bs| >= w * k
    ensures |ws| == k
    decreases k
  {
    if k == 0 then []
    else
      OneLess(k, w);
      [Pack(bs[..w])] + Words(bs[w..], w, k - 1)
  }

  /** All of them are words. */
  ghost predicate AllFit(ws: seq<bv64>, w: nat) {
    forall i :: 0 <= i < |ws| ==> Fits(ws[i], w)
  }

  lemma PackFits(bs: seq<byte>, w: nat)
    requires Size(w) && |bs| == w
    ensures Fits(Pack(bs), w)
  {
    hide Pack;
    PackSmall(bs);
    assert Top(4) == ONES;
  }

  lemma {:induction false} WordsFit(bs: seq<byte>, w: nat, k: nat)
    requires Size(w) && |bs| >= w * k
    ensures AllFit(Words(bs, w, k), w)
    decreases k
  {
    hide Pack, Fits;
    if k > 0 {
      OneLess(k, w);
      PackFits(bs[..w], w);
      WordsFit(bs[w..], w, k - 1);
    }
  }

  lemma {:induction false} FoldRegister(r: bv64, bs: seq<byte>, w: nat, k: nat)
    requires Size(w) && |bs| == w * k
    ensures Register(r, bs) == Fold(r, Words(bs, w, k), w)
    decreases k
  {
    hide Pack, TimesXn, Add, Feed;
    if k > 0 {
      OneLess(k, w);
      FeedWord(r, bs[..w]);
      RegisterConcat(r, bs[..w], bs[w..]);
      assert bs[..w] + bs[w..] == bs;
      FoldRegister(Register(r, bs[..w]), bs[w..], w, k - 1);
    }
  }

  lemma {:induction false} FoldConcat(r: bv64, xs: seq<bv64>, ys: seq<bv64>, w: nat)
    ensures Fold(r, xs + ys, w) == Fold(Fold(r, xs, w), ys, w)
    decreases |xs|
  {
    hide TimesXn, Add;
    if xs == [] {
      assert xs + ys == ys;
    } else {
      FoldConcat(TimesXn(Add(r, xs[0]), 8 * w), xs[1..], ys, w);
      assert (xs + ys)[1..] == xs[1..] + ys;
    }
  }

  function Sums(xs: seq<bv64>, ys: seq<bv64>): (zs: seq<bv64>)
    requires |xs| == |ys|
    ensures |zs| == |xs| && forall i :: 0 <= i < |xs| ==> zs[i] == Add(xs[i], ys[i])
  {
    seq(|xs|, i requires 0 <= i < |xs| => Add(xs[i], ys[i]))
  }

  /** Folding is linear. */
  lemma {:induction false} FoldAdd(a: bv64, b: bv64, xs: seq<bv64>, ys: seq<bv64>, w: nat)
    requires |xs| == |ys|
    ensures Fold(Add(a, b), Sums(xs, ys), w) == Add(Fold(a, xs, w), Fold(b, ys, w))
    decreases |xs|
  {
    hide TimesXn, Add;
    if xs != [] {
      AddSwap(a, b, xs[0], ys[0]);
      TimesXnAdd(Add(a, xs[0]), Add(b, ys[0]), 8 * w);
      FoldAdd(TimesXn(Add(a, xs[0]), 8 * w), TimesXn(Add(b, ys[0]), 8 * w), xs[1..], ys[1..], w);
      assert Sums(xs, ys)[1..] == Sums(xs[1..], ys[1..]);
    }
  }

  function Zeros(n: nat): (zs: seq<bv64>)
    ensures |zs| == n && forall i :: 0 <= i < n ==> zs[i] == 0
  {
    seq(n, _ => 0)
  }

  lemma {:induction false} FoldZeros(r: bv64, n: nat, w: nat)
    ensures Fold(r, Zeros(n), w) == TimesXn(r, 8 * (w * n))
    decreases n
  {
    hide TimesXn, Add;
    if n == 0 {
      TimesXnNone(r);
    } else {
      OneLess(n, w);
      AddZero(r);
      FoldZeros(TimesXn(r, 8 * w), n - 1, w);
      assert Zeros(n)[1..] == Zeros(n - 1);
      TimesXnPlus(r, 8 * w, 8 * (w * (n - 1)));
    }
  }

  function ShiftedOn(xs: seq<bv64>, m: nat): (zs: seq<bv64>)
    ensures |zs| == |xs| && forall i :: 0 <= i < |xs| ==> zs[i] == TimesXn(xs[i], m)
  {
    seq(|xs|, i requires 0 <= i < |xs| => TimesXn(xs[i], m))
  }

  lemma {:induction false} FoldShifted(r: bv64, xs: seq<bv64>, m: nat, w: nat)
    ensures Fold(TimesXn(r, m), ShiftedOn(xs, m), w) == TimesXn(Fold(r, xs, w), m)
    decreases |xs|
  {
    hide TimesXn, Add;
    if xs != [] {
      TimesXnAdd(r, xs[0], m);
      TimesXnPlus(Add(r, xs[0]), m, 8 * w);
      TimesXnPlus(Add(r, xs[0]), 8 * w, m);
      FoldShifted(TimesXn(Add(r, xs[0]), 8 * w), xs[1..], m, w);
      assert ShiftedOn(xs, m)[1..] == ShiftedOn(xs[1..], m);
    }
  }

  // ---------- braids ----------

  /** The CRCs of the braids stand for the register r: folded as words they come to r, a block on. */
  ghost predicate Braided(crcs: seq<bv64>, r: bv64, w: nat) {
    Fold(0, crcs, w) == TimesXn(r, 8 * (w * |crcs|))
  }

  lemma BraidStart(r: bv64, n: nat, w: nat)
    requires n >= 1
    ensures Braided([r] + Zeros(n - 1), r, w)
  {
    hide TimesXn, Add;
    var crcs := [r] + Zeros(n - 1);
    assert crcs[1..] == Zeros(n - 1);
    AddZero(r);
    OneLess(n, w);
    FoldZeros(TimesXn(r, 8 * w), n - 1, w);
    TimesXnPlus(r, 8 * w, 8 * (w * (n - 1)));
  }

  /** Adding a block of words to the braids is folding them into the register. */
  lemma BraidBlock(crcs: seq<bv64>, r: bv64, ws: seq<bv64>, w: nat)
    requires Braided(crcs, r, w) && |ws| == |crcs|
    ensures Fold(0, Sums(crcs, ws), w) == Fold(r, ws, w)
  {
    hide TimesXn, Add, Fold;
    var n := |ws|;
    AddZero(0);
    AddZero(r);
    FoldAdd(0, 0, crcs, ws, w);
    FoldZeros(r, n, w);
    FoldAdd(r, 0, Zeros(n), ws, w);
    forall i | 0 <= i < n ensures Sums(Zeros(n), ws)[i] == ws[i] {
      AddZero(ws[i]);
    }
    assert Sums(Zeros(n), ws) == ws;
  }

  lemma BraidNext(crcs: seq<bv64>, r: bv64, ws: seq<bv64>, w: nat)
    requires Braided(crcs, r, w) && |ws| == |crcs|
    ensures Braided(ShiftedOn(Sums(crcs, ws), 8 * (w * |crcs|)), Fold(r, ws, w), w)
  {
    hide TimesXn, Add, Fold;
    BraidBlock(crcs, r, ws, w);
    TimesXnAdd(0, 0, 8 * (w * |crcs|));
    FoldShifted(0, Sums(crcs, ws), 8 * (w * |crcs|), w);
  }

  lemma SumsFit(crcs: seq<bv64>, ws: seq<bv64>, w: nat)
    requires |ws| == |crcs| && AllFit(crcs, w) && AllFit(ws, w)
    ensures AllFit(Sums(crcs, ws), w)
  {
    hide Add, Fits;
    forall i | 0 <= i < |ws| ensures Fits(Sums(crcs, ws)[i], w) {
      FitsAdd(crcs[i], ws[i], w);
    }
  }

  lemma ShiftedOnFit(xs: seq<bv64>, m: nat, w: nat)
    requires AllFit(xs, w)
    ensures AllFit(ShiftedOn(xs, m), w)
  {
    hide TimesXn, Fits;
    forall i | 0 <= i < |xs| ensures Fits(ShiftedOn(xs, m)[i], w) {
      FitsOn(xs[i], m, w);
    }
  }

  /** A block: each braid takes its word. */
  method TakeBlock(t: seq<seq<bv64>>, w: nat, m: nat, crcs: seq<bv64>, ws: seq<bv64>) returns (crcs': seq<bv64>)
    requires |ws| == |crcs| && BraidOk(t, w, m) && AllFit(crcs, w) && AllFit(ws, w)
    ensures crcs' == ShiftedOn(Sums(crcs, ws), 8 * m) && AllFit(crcs', w)
  {
    hide TimesXn, Add, BraidOk, Fits;
    var n := |crcs|;
    SumsFit(crcs, ws, w);
    crcs' := crcs;
    for j := 0 to n
      invariant |crcs'| == n && forall i :: j <= i < n ==> crcs'[i] == crcs[i]
      invariant forall i :: 0 <= i < j ==> crcs'[i] == TimesXn(Add(crcs[i], ws[i]), 8 * m)
    {
      assert Fits(Sums(crcs, ws)[j], w);
      var crc := BraidWord(t, w, m, Add(crcs[j], ws[j]));
      crcs' := crcs'[j := crc];
    }
    ShiftedOnFit(Sums(crcs, ws), 8 * m, w);
    assert crcs' == ShiftedOn(Sums(crcs, ws), 8 * m);
  }

  /** The last block: the braids are combined while taking their words. */
  method LastBlock(table: seq<bv64>, crcs: seq<bv64>, ws: seq<bv64>, w: nat) returns (crc: bv64)
    requires TableOk(table) && |ws| == |crcs| && Size(w) && AllFit(crcs, w) && AllFit(ws, w)
    ensures crc == Fold(0, Sums(crcs, ws), w) && crc <= ONES
  {
    hide TimesXn, Add, TableOk;
    ghost var zs := Sums(crcs, ws);
    SumsFit(crcs, ws, w);
    crc := 0;
    for j := 0 to |ws|
      invariant Fold(0, zs, w) == Fold(crc, zs[j..], w) && crc <= ONES
    {
      assert zs[j..][0] == zs[j] && zs[j..][1..] == zs[j + 1..];
      AddComm(Add(crcs[j], ws[j]), crc);
      FitsAdd(zs[j], crc, w);
      crc := CrcWord(table, Add(Add(crcs[j], ws[j]), crc), w);
    }
  }

  /** All blocks: the result is that of taking the words one after another. */
  method TakeBlocks(table: seq<bv64>, t: seq<seq<bv64>>, w: nat, n: nat, crc: bv64, words: seq<bv64>, blks: nat)
      returns (crc': bv64)
    requires TableOk(table) && n >= 1 && BraidOk(t, w, w * n) && blks >= 1 && |words| == blks * n
    requires crc <= ONES && AllFit(words, w)
    ensures crc' == Fold(crc, words, w) && crc' <= ONES
  {
    hide TimesXn, Add, TableOk, BraidOk, Fold, Braided;
    BraidSize(t, w, w * n);
    var crcs := [crc] + Zeros(n - 1);
    BraidStart(crc, n, w);
    var rest, b := words, blks;
    ghost var r := crc;
    while b > 1
      invariant |crcs| == n && Braided(crcs, r, w) && Fold(r, rest, w) == Fold(crc, words, w)
      invariant b >= 1 && |rest| == b * n && AllFit(crcs, w) && AllFit(rest, w)
    {
      OneLess(b, n);
      var ws := rest[..n];
      BraidNext(crcs, r, ws, w);
      FoldConcat(r, ws, rest[n..], w);
      assert ws + rest[n..] == rest;
      crcs := TakeBlock(t, w, w * n, crcs, ws);
      r, rest, b := Fold(r, ws, w), rest[n..], b - 1;
    }
    BraidBlock(crcs, r, rest, w);
    crc' := LastBlock(table, crcs, rest, w);
  }

  lemma OneLess(b: nat, n: nat)
    requires b >= 1
    ensures b * n == (b - 1) * n + n && (b - 1) * n >= 0 && n * b == n * (b - 1) + n && n * (b - 1) >= 0
  {
  }
}
