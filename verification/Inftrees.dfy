/**
 inflate_table: builds the two-level decoding table of a canonical Huffman code.
 */
module Inftrees {
  import opened Bits
  import opened Canonical
  import opened TableSpec
  import opened TableFill
  import Enough

  // ---------- lengths: counting, bounding, checking, sorting ----------

  method CountLengths(lens: seq<nat>) returns (count: array<nat>)
    requires ValidLens(lens)
    ensures fresh(count) && count.Length == MAXBITS + 1
    ensures forall l :: 0 <= l <= MAXBITS ==> count[l] == Count(lens, l)
  {
    count := new nat[MAXBITS + 1](_ => 0);
    var sym := 0;
    while sym < |lens|
      invariant 0 <= sym <= |lens|
      invariant forall l :: 0 <= l <= MAXBITS ==> count[l] == Count(lens[..sym], l)
    {
      assert lens[..sym + 1][..sym] == lens[..sym];
      count[lens[sym]] := count[lens[sym]] + 1;
      sym := sym + 1;
    }
    assert lens[..sym] == lens;
  }

  /** The longest and shortest code lengths in use; max is zero when there are none. */
  method Bounds(lens: seq<nat>, count: array<nat>) returns (min: nat, max: nat)
    requires ValidLens(lens) && count.Length == MAXBITS + 1
    requires forall l :: 0 <= l <= MAXBITS ==> count[l] == Count(lens, l)
    ensures max <= MAXBITS
    ensures forall l :: max < l <= MAXBITS ==> Count(lens, l) == 0
    ensures max == 0 <==> NoSymbols(lens)
    ensures max > 0 ==> Count(lens, max) > 0
    ensures max <= 1 <==> AtMostOneBit(lens)
    ensures max > 0 ==> 1 <= min <= max && Count(lens, min) > 0
    ensures forall l :: 1 <= l < min ==> Count(lens, l) == 0
    ensures forall i :: 0 <= i < |lens| ==> lens[i] <= max && (lens[i] == 0 || min <= lens[i])
  {
    max := MAXBITS;
    while max >= 1 && count[max] == 0
      invariant 0 <= max <= MAXBITS
      invariant forall l :: max < l <= MAXBITS ==> Count(lens, l) == 0
    {
      max := max - 1;
    }
    forall i | 0 <= i < |lens| ensures lens[i] <= max {
      RankBelowCount(lens, i);
    }
    if max > 0 {
      var s := SymAt(lens, max, 0);
    }
    min := 1;
    while min < max && count[min] == 0
      invariant 1 <= min && (max > 0 ==> min <= max)
      invariant forall l :: 1 <= l < min ==> Count(lens, l) == 0
    {
      min := min + 1;
    }
    forall i | 0 <= i < |lens| && lens[i] > 0 ensures min <= lens[i] {
      RankBelowCount(lens, i);
    }
  }

  /** left is what remains of the code space; negative as soon as it is over-subscribed. */
  method CodeSpace(lens: seq<nat>, count: array<nat>) returns (left: int)
    requires ValidLens(lens) && count.Length == MAXBITS + 1
    requires forall l :: 0 <= l <= MAXBITS ==> count[l] == Count(lens, l)
    ensures left < 0 <==> Kraft(lens) > Pow2(MAXBITS)
    ensures left >= 0 ==> left == Pow2(MAXBITS) - Kraft(lens)
  {
    KraftUsed(lens);
    left := 1;
    var len: nat := 1;
    while len <= MAXBITS
      invariant 1 <= len <= MAXBITS + 1
      invariant left == Pow2(len - 1) - Used(lens, len - 1) && left >= 0
    {
      UsedStep(lens, len);
      left := 2 * left;
      left := left - count[len];
      if left < 0 {
        Oversubscribed(lens, len);
        return;
      }
      len := len + 1;
    }
  }

  /** Too many codes up to some length are too many codes. */
  lemma Oversubscribed(lens: seq<nat>, l: nat)
    requires ValidLens(lens) && 1 <= l <= MAXBITS && Used(lens, l) > Pow2(l)
    ensures Kraft(lens) > Pow2(MAXBITS)
  {
    hide Used, Pow2;
    LevelMono(lens, l, MAXBITS);
    ShlMono(Pow2(l), Used(lens, l), MAXBITS - l);
    ShlPow2(l, MAXBITS - l);
    KraftUsed(lens);
  }

  lemma OffsStep(lens: seq<nat>, l: nat)
    ensures Offs(lens, l + 1) == if l == 0 then 0 else Offs(lens, l) + Count(lens, l)
  {
    hide Count;
  }

  method Offsets(lens: seq<nat>, count: array<nat>) returns (offs: array<nat>)
    requires count.Length == MAXBITS + 1
    requires forall l :: 0 <= l <= MAXBITS ==> count[l] == Count(lens, l)
    ensures fresh(offs) && offs.Length == MAXBITS + 1
    ensures forall l :: 1 <= l <= MAXBITS ==> offs[l] == Offs(lens, l)
  {
    hide Count, Offs;
    offs := new nat[MAXBITS + 1](_ => 0);
    var len: nat := 1;
    OffsStep(lens, 0);
    while len < MAXBITS
      invariant 1 <= len <= MAXBITS
      invariant forall l :: 1 <= l <= len ==> offs[l] == Offs(lens, l)
    {
      OffsStep(lens, len);
      offs[len + 1] := offs[len] + count[len];
      len := len + 1;
    }
  }

  /** Sorts the coded symbols by length, keeping symbol order within a length. */
  method SortSymbols(lens: seq<nat>, count: array<nat>, work: array<nat>)
    requires ValidLens(lens) && count.Length == MAXBITS + 1 && work.Length >= |lens|
    requires count != work
    requires forall l :: 0 <= l <= MAXBITS ==> count[l] == Count(lens, l)
    modifies work
    ensures Offs(lens, MAXBITS + 1) <= |lens|
    ensures InOrder(lens, work[..Offs(lens, MAXBITS + 1)])
  {
    var offs := Offsets(lens, count);
    var sym: nat := 0;
    while sym < |lens|
      invariant 0 <= sym <= |lens|
      invariant Advanced(lens, offs[..], sym)
      invariant AllPlaced(lens, work[..], sym)
    {
      ghost var w, o := work[..], offs[..];
      if lens[sym] != 0 {
        SlotInside(lens, lens[sym], Count(lens[..sym], lens[sym]), sym);
        work[offs[lens[sym]]] := sym;
        offs[lens[sym]] := offs[lens[sym]] + 1;
      }
      sym := sym + 1;
      PlaceNext(lens, w, work[..], sym);
      Advance(lens, o, offs[..], sym);
    }
    PlacedInOrder(lens, work[..]);
  }

  /** Each offset has moved past the symbols of its length among the first sym. */
  ghost predicate Advanced(lens: seq<nat>, o: seq<nat>, sym: nat)
    requires sym <= |lens|
  {
    |o| == MAXBITS + 1 &&
    forall l: nat {:trigger o[l]} :: 1 <= l <= MAXBITS ==> o[l] == Offs(lens, l) + Count(lens[..sym], l)
  }

  lemma Advance(lens: seq<nat>, o0: seq<nat>, o1: seq<nat>, sym: nat)
    requires ValidLens(lens) && 1 <= sym <= |lens| && Advanced(lens, o0, sym - 1)
    requires var l := lens[sym - 1]; o1 == if l == 0 then o0 else o0[l := o0[l] + 1]
    ensures Advanced(lens, o1, sym)
  {
    assert lens[..sym][..sym - 1] == lens[..sym - 1];
  }

  /** The symbol of length l and rank r is in its slot. */
  ghost predicate AllPlaced(lens: seq<nat>, w: seq<nat>, sym: nat)
    requires sym <= |lens|
  {
    forall l: nat, r: nat {:trigger InPlace(lens, w, l, r)} ::
      1 <= l <= MAXBITS && r < Count(lens[..sym], l) ==> InPlace(lens, w, l, r)
  }

  lemma SlotInside(lens: seq<nat>, l: nat, r: nat, sym: nat)
    requires sym < |lens| && lens[sym] == l && 1 <= l <= MAXBITS && r == Count(lens[..sym], l)
    ensures r < Count(lens, l) && Offs(lens, l) + r < |lens|
    ensures SymAt(lens, l, r) == sym
  {
    RankBelowCount(lens, sym);
    OffsMono(lens, l + 1, MAXBITS + 1);
    CodedBound(lens, MAXBITS + 1);
    RankInjective(lens, sym, SymAt(lens, l, r));
  }

  lemma SlotsDistinct(lens: seq<nat>, l: nat, r: nat, l': nat, r': nat)
    requires 1 <= l <= MAXBITS && 1 <= l' <= MAXBITS
    requires r < Count(lens, l) && r' < Count(lens, l')
    requires Offs(lens, l) + r == Offs(lens, l') + r'
    ensures l == l' && r == r'
  {
    if l < l' {
      OffsMono(lens, l, l');
    } else if l' < l {
      OffsMono(lens, l', l);
    }
  }

  lemma PlaceNext(lens: seq<nat>, w0: seq<nat>, w1: seq<nat>, sym: nat)
    requires ValidLens(lens) && 1 <= sym <= |lens| && AllPlaced(lens, w0, sym - 1)
    requires var s := sym - 1;
             var i := Offs(lens, lens[s]) + Count(lens[..s], lens[s]);
             if lens[s] == 0 then w1 == w0 else i < |w0| && w1 == w0[i := s]
    ensures AllPlaced(lens, w1, sym)
  {
    hide Offs, SymAt, Count;
    var s := sym - 1;
    forall l: nat, r: nat | 1 <= l <= MAXBITS && r < Count(lens[..sym], l) ensures InPlace(lens, w1, l, r) {
      CountNext(lens, s, l);
      if lens[s] == l && r == Count(lens[..s], l) {
        SlotInside(lens, l, r, s);
      } else {
        assert InPlace(lens, w0, l, r);
        if lens[s] != 0 {
          SlotInside(lens, lens[s], Count(lens[..s], lens[s]), s);
          if Offs(lens, l) + r == Offs(lens, lens[s]) + Count(lens[..s], lens[s]) {
            SlotsDistinct(lens, l, r, lens[s], Count(lens[..s], lens[s]));
          }
        }
      }
    }
  }

  lemma PlacedInOrder(lens: seq<nat>, w: seq<nat>)
    requires AllPlaced(lens, w, |lens|) && |lens| <= |w|
    ensures Offs(lens, MAXBITS + 1) <= |lens|
    ensures InOrder(lens, w[..Offs(lens, MAXBITS + 1)])
  {
    hide SymAt, Offs;
    CodedBound(lens, MAXBITS + 1);
    assert lens[..|lens|] == lens;
    var v := w[..Offs(lens, MAXBITS + 1)];
    forall l: nat, r: nat | 1 <= l <= MAXBITS && r < Count(lens, l) ensures InPlace(lens, v, l, r) {
      assert InPlace(lens, w, l, r);
      OffsMono(lens, l, MAXBITS + 1);
    }
  }

  lemma {:induction false} CodedBound(lens: seq<nat>, m: nat)
    ensures Offs(lens, m) <= |lens|
  {
    if lens == [] {
      OffsEmpty(m);
    } else {
      var n := |lens| - 1;
      CodedBound(lens[..n], m);
      OffsAppend(lens, m);
    }
  }

  lemma {:induction false} OffsEmpty(m: nat)
    ensures Offs([], m) == 0
  {
    if m > 1 {
      OffsEmpty(m - 1);
    }
  }

  lemma {:induction false} OffsAppend(lens: seq<nat>, m: nat)
    requires lens != []
    ensures Offs(lens, m) == Offs(lens[..|lens| - 1], m) + if 1 <= lens[|lens| - 1] < m then 1 else 0
  {
    if m > 1 {
      OffsAppend(lens, m - 1);
    }
  }

  // ---------- remaining codes of each length ----------

  /** Codes of length l at positions k and later. */
  function Remain(lens: seq<nat>, l: nat, k: nat): nat {
    var a, b := Offs(lens, l), Offs(lens, l) + Count(lens, l);
    if k <= a then Count(lens, l) else if k < b then b - k else 0
  }

  ghost predicate CountsLeft(lens: seq<nat>, c: seq<nat>, k: nat) {
    |c| == MAXBITS + 1 &&
    forall l: nat {:trigger c[l]} :: 1 <= l <= MAXBITS ==> c[l] == Remain(lens, l, k)
  }

  /** Taking the code at position k off the counts. */
  lemma TakeCode(lens: seq<nat>, w: seq<nat>, k: nat, c: seq<nat>)
    requires ValidLens(lens) && InOrder(lens, w) && k < |w| && CountsLeft(lens, c, k)
    ensures w[k] < |lens| && 1 <= lens[w[k]] <= MAXBITS && c[lens[w[k]]] > 0
    ensures CountsLeft(lens, c[lens[w[k]] := c[lens[w[k]]] - 1], k + 1)
    ensures c[lens[w[k]]] > 1 ==> k + 1 < |w| && w[k + 1] < |lens| && lens[w[k + 1]] == lens[w[k]]
    ensures c[lens[w[k]]] == 1 && k + 1 < |w| ==> w[k + 1] < |lens| && lens[w[k + 1]] > lens[w[k]]
    ensures c[lens[w[k]]] == 1 && k + 1 == |w| ==> forall l :: lens[w[k]] < l <= MAXBITS ==> Count(lens, l) == 0
  {
    hide Count, SymAt;
    SymbolAt(lens, w, k);
    var s, m := w[k], lens[w[k]];
    RankBelowCount(lens, s);
    assert c[m] == Remain(lens, m, k);
    OffsMono(lens, m + 1, MAXBITS + 1);
    forall l: nat | 1 <= l <= MAXBITS && l != m ensures Remain(lens, l, k) == Remain(lens, l, k + 1) {
      if l < m {
        OffsMono(lens, l, m);
      } else {
        OffsMono(lens, m, l);
      }
    }
    if k + 1 < |w| {
      SymbolAt(lens, w, k + 1);
      RankBelowCount(lens, w[k + 1]);
      PositionsOrdered(lens, w, k, k + 1);
      OffsMono(lens, m, lens[w[k + 1]]);
    } else {
      forall l: nat | m < l <= MAXBITS ensures Count(lens, l) == 0 {
        OffsMono(lens, m, l);
        OffsMono(lens, l, MAXBITS + 1);
      }
    }
  }

  // ---------- filling ----------

  /** Copies here to every entry, among the 2^curr at off, whose low n index bits are idx. */
  method Replicate(table: array<Code>, off: nat, curr: nat, n: nat, idx: nat, here: Code)
    requires n <= curr && idx < Pow2(n) && off + Pow2(curr) <= table.Length
    modifies table
    ensures Copied(old(table[..]), table[..], off, curr, n, idx, here)
  {
    hide Low, Shr, Shl, Pow2;
    ghost var t0 := table[..];
    var incr := Pow2(n);
    var fill := Pow2(curr);
    ghost var m: nat := Pow2(curr - n);
    ShlPow2(curr - n, n);
    ShlAdd(0, 0, n);
    CopyNone(t0, off, curr, n, idx, here);
    while true
      invariant 0 < m && fill == Shl(m, n) && fill <= Pow2(curr)
      invariant CopiedFrom(t0, table[..], off, curr, n, idx, here, m)
      decreases m
    {
      ghost var t := table[..];
      m := m - 1;
      ShlAdd(m, 1, n);
      fill := fill - incr;
      table[off + idx + fill] := here;
      CopyOne(t0, t, table[..], off, curr, n, idx, here, m);
      if fill == 0 {
        break;
      }
    }
    if m > 0 {
      ShlMono(0, m, n);
    }
  }

  /** The copies from the m-th on have been made. */
  ghost predicate CopiedFrom(t0: seq<Code>, t1: seq<Code>, off: nat, curr: nat, n: nat, idx: nat, here: Code, m: nat) {
    && |t1| == |t0| && off + Pow2(curr) <= |t0|
    && forall i: nat {:trigger t1[i]} :: i < |t0| ==>
         t1[i] == if off <= i < off + Pow2(curr) && Low(i - off, n) == idx && Shr(i - off, n) >= m then here else t0[i]
  }

  lemma CopyOne(t0: seq<Code>, t: seq<Code>, t1: seq<Code>, off: nat, curr: nat, n: nat, idx: nat, here: Code, m: nat)
    requires CopiedFrom(t0, t, off, curr, n, idx, here, m + 1)
    requires idx < Pow2(n) && idx + Shl(m, n) < Pow2(curr)
    requires t1 == t[off + idx + Shl(m, n) := here]
    ensures CopiedFrom(t0, t1, off, curr, n, idx, here, m)
  {
    hide Low, Shr, Shl, Pow2;
    Append(idx, n, m);
    var x := off + idx + Shl(m, n);
    forall i: nat | i < |t0|
      ensures t1[i] == if off <= i < off + Pow2(curr) && Low(i - off, n) == idx &&
              Shr(i - off, n) >= m then here else t0[i]
    {
      assert t[i] == if off <= i < off + Pow2(curr) && Low(i - off, n) == idx &&
          Shr(i - off, n) >= m + 1 then here else t0[i];
      if off <= i {
        Split(i - off, n);
      }
    }
  }

  lemma CopyNone(t0: seq<Code>, off: nat, curr: nat, n: nat, idx: nat, here: Code)
    requires n <= curr && off + Pow2(curr) <= |t0|
    ensures CopiedFrom(t0, t0, off, curr, n, idx, here, Pow2(curr - n))
  {
    hide Low, Shr, Pow2;
    forall x: nat | x < Pow2(curr) ensures Shr(x, n) < Pow2(curr - n) {
      ShiftOut(x, curr, n);
    }
  }

  /**
   Index bits of the sub-table opened for the code at position k: just enough for every code through
   its slot.  Of these there are m, at least one at the greatest length that the sub-table has.
   */
  method SubtableBits(lens: seq<nat>, count: array<nat>, ghost w: seq<nat>, ghost k: nat, len: nat, root: nat, max: nat)
      returns (curr: nat, ghost m: nat)
    requires Complete(lens) && InOrder(lens, w) && OpensSlot(lens, w, k, root) && len == lens[w[k]]
    requires count.Length == MAXBITS + 1 && CountsLeft(lens, count[..], k)
    requires len <= max <= MAXBITS && Count(lens, max) > 0 && forall l :: max < l <= MAXBITS ==> Count(lens, l) == 0
    ensures 0 < curr && len <= root + curr <= max
    ensures Covered(lens, w, k, root, curr)
    ensures m >= Pow2(len - root) + (root + curr - len) && SubtableEnd(lens, w, k, root, curr, m)
  {
    hide Shl, Shr, Pow2, InOrder, Slot, Count, NextCode, Start, Remain, Kraft, SubtableEnd, Covered;
    ghost var p := Shr(Start(lens, w[k]), MAXBITS - root);
    ghost var end := Shl(p + 1, MAXBITS - root);
    curr := len - root;
    var left: int := Pow2(curr);
    OpensAligned(lens, w, k, root);
    ShlAdd(p, 1, MAXBITS - root);
    ShlPow2(curr, MAXBITS - len);
    ghost var taken: nat := 0;
    while curr + root < max
      invariant len <= curr + root <= max
      invariant left > 0
      invariant Shl(left, MAXBITS - (curr + root)) + LevelBase(lens, w, k, curr + root) == end
      invariant taken + left >= Pow2(len - root) + (root + curr - len) &&
                k + taken == LevelFrom(lens, w, k, curr + root)
      decreases max - curr
    {
      ghost var l, c := curr + root, count[curr + root];
      LevelTop(lens, w, k, l, c);
      LevelCodes(lens, w, k, l, c);
      ghost var left0: nat := left;
      left := left - count[curr + root];
      if left <= 0 {
        ShlMono(left0, c, MAXBITS - l);
        CoveredBelow(lens, w, k, root, curr);
        m := taken + left0;
        EndsWithin(lens, w, k, root, curr, taken, left0, c);
        return;
      }
      ShlAdd(left, c, MAXBITS - l);
      ShlDouble(left, MAXBITS - (l + 1));
      taken := taken + c;
      curr := curr + 1;
      left := 2 * left;
    }
    CoveredMax(lens, w, k, root, curr);
    ghost var left0: nat := left;
    m := taken + left0;
    LevelCodes(lens, w, k, max, count[max]);
    RemainLast(lens, w, k, max);
    LastLevel(lens, w, k, root, curr, left0, count[max]);
    EndsWithin(lens, w, k, root, curr, taken, left0, count[max]);
  }

  /** The first position not before k that may have a code of length l or more. */
  ghost function LevelFrom(lens: seq<nat>, w: seq<nat>, k: nat, l: nat): nat
    requires k < |w| && w[k] < |lens| && lens[w[k]] <= l <= MAXBITS + 1
  {
    if l == lens[w[k]] then k else Offs(lens, l)
  }

  lemma LevelCodes(lens: seq<nat>, w: seq<nat>, k: nat, l: nat, c: nat)
    requires ValidLens(lens) && InOrder(lens, w) && k < |w| && w[k] < |lens| && 0 < lens[w[k]] <= l <= MAXBITS
    requires c == Remain(lens, l, k)
    ensures LevelFrom(lens, w, k, l) + c == LevelFrom(lens, w, k, l + 1) <= |w|
  {
    hide Shl, InOrder, Count, NextCode;
    SymbolAt(lens, w, k);
    RankBelowCount(lens, w[k]);
    OffsMono(lens, lens[w[k]], l);
    OffsMono(lens, l + 1, MAXBITS + 1);
    InOrderSize(lens, w);
  }

  lemma InOrderSize(lens: seq<nat>, w: seq<nat>)
    requires InOrder(lens, w)
    ensures |w| == Offs(lens, MAXBITS + 1)
  {
  }

  /**
   The m codes from position k on are those through its slot, and the next is at least as long as the sub-table allows.
   */
  ghost predicate SubtableEnd(lens: seq<nat>, w: seq<nat>, k: nat, root: nat, curr: nat, m: nat) {
    && ValidLens(lens) && k < k + m <= |w| && w[k] < |lens| && root <= MAXBITS
    && (k + m < |w| ==> w[k + m] < |lens| && lens[w[k + m]] >= root + curr)
    && Enough.Place(lens, w, k + m) == Shl(Shr(Start(lens, w[k]), MAXBITS - root) + 1, MAXBITS - root)
  }

  lemma {:induction false} PlaceRun(lens: seq<nat>, w: seq<nat>, i: nat, n: nat, l: nat)
    requires ValidLens(lens) && InOrder(lens, w) && i + n <= |w| && 1 <= l <= MAXBITS
    requires forall j :: i <= j < i + n ==> w[j] < |lens| && lens[w[j]] == l
    ensures (i < |w| ==> w[i] < |lens|) && (i + n < |w| ==> w[i + n] < |lens|)
    ensures Enough.Place(lens, w, i + n) == Enough.Place(lens, w, i) + Shl(n, MAXBITS - l)
    decreases n
  {
    hide InOrder, Enough.Place, Pow2, Shl;
    if i < |w| {
      SymbolAt(lens, w, i);
    }
    if n == 0 {
      ShlAdd(0, 0, MAXBITS - l);
    } else {
      PlaceRun(lens, w, i, n - 1, l);
      Enough.PlaceNext(lens, w, i + n - 1);
      ShlAdd(n - 1, 1, MAXBITS - l);
      ShlPow2(0, MAXBITS - l);
      PowZero();
    }
  }

  /** The codes of one length. */
  lemma LevelLens(lens: seq<nat>, w: seq<nat>, l: nat, j: nat)
    requires InOrder(lens, w) && 1 <= l <= MAXBITS && Offs(lens, l) <= j < Offs(lens, l) + Count(lens, l)
    ensures j < |w| && w[j] < |lens| && lens[w[j]] == l
  {
    hide Offs, Count;
    assert InPlace(lens, w, l, j - Offs(lens, l));
  }

  lemma LevelStart(lens: seq<nat>, w: seq<nat>, k: nat, l: nat)
    requires ValidLens(lens) && InOrder(lens, w) && k < |w| && w[k] < |lens| && 0 < lens[w[k]] <= l <= MAXBITS &&
             Remain(lens, l, k) > 0
    ensures LevelFrom(lens, w, k, l) < |w| && w[LevelFrom(lens, w, k, l)] < |lens|
    ensures Enough.Place(lens, w, LevelFrom(lens, w, k, l)) == LevelBase(lens, w, k, l)
  {
    hide Shl, InOrder, Count, NextCode, Offs;
    if l > lens[w[k]] {
      var j := Offs(lens, l);
      LevelLens(lens, w, l, j);
      SymbolAt(lens, w, j);
    }
  }

  /** The codes of length l from position k on. */
  lemma LevelIs(lens: seq<nat>, w: seq<nat>, k: nat, l: nat, n: nat)
    requires ValidLens(lens) && InOrder(lens, w) && k < |w| && w[k] < |lens| && 0 < lens[w[k]] <= l <= MAXBITS &&
             0 < n <= Remain(lens, l, k)
    ensures LevelFrom(lens, w, k, l) + n <= |w|
    ensures LevelFrom(lens, w, k, l) + n < |w| ==>
      w[LevelFrom(lens, w, k, l) + n] < |lens| && lens[w[LevelFrom(lens, w, k, l) + n]] >= l
    ensures Enough.Place(lens, w, LevelFrom(lens, w, k, l) + n) == LevelBase(lens, w, k, l) + Shl(n, MAXBITS - l)
  {
    hide Shl, InOrder, Count, NextCode, Offs, Enough.Place, LevelBase;
    var i := LevelFrom(lens, w, k, l);
    LevelCodes(lens, w, k, l, Remain(lens, l, k));
    SymbolAt(lens, w, k);
    RankBelowCount(lens, w[k]);
    OffsMono(lens, lens[w[k]], l);
    forall j | i <= j < i + n ensures w[j] < |lens| && lens[w[j]] == l {
      LevelLens(lens, w, l, j);
    }
    PlaceRun(lens, w, i, n, l);
    LevelStart(lens, w, k, l);
    Enough.PlaceNext(lens, w, i + n - 1);
  }

  lemma EndsWithin(lens: seq<nat>, w: seq<nat>, k: nat, root: nat, curr: nat, taken: nat, left: nat, c: nat)
    requires ValidLens(lens) && InOrder(lens, w) && k < |w| && w[k] < |lens| &&
             root < lens[w[k]] <= root + curr <= MAXBITS
    requires c == Remain(lens, root + curr, k) && k + taken == LevelFrom(lens, w, k, root + curr) && 0 < left <= c
    requires Shl(left, MAXBITS - (curr + root)) + LevelBase(lens, w, k, curr + root) ==
             Shl(Shr(Start(lens, w[k]), MAXBITS - root) + 1, MAXBITS - root)
    ensures SubtableEnd(lens, w, k, root, curr, taken + left)
  {
    hide Shl, Shr, InOrder, Count, NextCode, Offs, Enough.Place, LevelBase, Start, Remain;
    LevelIs(lens, w, k, root + curr, left);
  }

  /** At the greatest length a complete code has as many codes as are wanted. */
  lemma LastLevel(lens: seq<nat>, w: seq<nat>, k: nat, root: nat, curr: nat, left: nat, c: nat)
    requires Complete(lens) && InOrder(lens, w) && k < |w| && w[k] < |lens| &&
             root < lens[w[k]] <= root + curr <= MAXBITS
    requires c == Remain(lens, root + curr, k) && c > 0 && forall l :: root + curr < l <= MAXBITS ==>
             Count(lens, l) == 0
    requires Shl(left, MAXBITS - (curr + root)) + LevelBase(lens, w, k, curr + root) ==
             Shl(Shr(Start(lens, w[k]), MAXBITS - root) + 1, MAXBITS - root)
    ensures left <= c
  {
    hide Shl, Shr, InOrder, Count, NextCode, Enough.Place, LevelBase, Start, Remain, Kraft, Pow2;
    var l := root + curr;
    LevelIs(lens, w, k, l, c);
    LevelCodes(lens, w, k, l, c);
    NoneBeyond(lens, l + 1);
    InOrderSize(lens, w);
    Enough.PlaceEnd(lens, w);
    SlotEnds(lens, w[k], root);
    ShlAdd(c, 1, MAXBITS - l);
    ShlPow2(0, MAXBITS - l);
    PowZero();
    PowPositive(MAXBITS - l);
    if left > c {
      ShlMono(c + 1, left, MAXBITS - l);
    }
  }

  lemma RemainLast(lens: seq<nat>, w: seq<nat>, k: nat, max: nat)
    requires ValidLens(lens) && InOrder(lens, w) && k < |w| && w[k] < |lens| && lens[w[k]] <= max <= MAXBITS &&
             Count(lens, max) > 0
    ensures Remain(lens, max, k) > 0
  {
    hide InOrder, Count, Offs;
    SymbolAt(lens, w, k);
    RankBelowCount(lens, w[k]);
    OffsMono(lens, lens[w[k]], max);
  }

  lemma {:induction false} NoneBeyond(lens: seq<nat>, l: nat)
    requires 1 <= l <= MAXBITS + 1 && forall k :: l <= k <= MAXBITS ==> Count(lens, k) == 0
    ensures Offs(lens, MAXBITS + 1) == Offs(lens, l)
    decreases MAXBITS + 1 - l
  {
    hide Count;
    if l <= MAXBITS {
      NoneBeyond(lens, l + 1);
    }
  }

  /** A slot lies within the code space. */
  lemma SlotEnds(lens: seq<nat>, s: nat, root: nat)
    requires Fits(lens) && s < |lens| && root < lens[s]
    ensures Shl(Shr(Start(lens, s), MAXBITS - root) + 1, MAXBITS - root) <= Pow2(MAXBITS)
  {
    hide Shl, Shr, Pow2, Start, Kraft;
    var p := Shr(Start(lens, s), MAXBITS - root);
    IntervalInLevel(lens, s);
    PowPositive(MAXBITS - lens[s]);
    ShrInterval(Start(lens, s), MAXBITS - root, p);
    ShlPow2(root, MAXBITS - root);
    if p >= Pow2(root) {
      ShlMono(Pow2(root), p, MAXBITS - root);
    }
    ShlMono(p + 1, Pow2(root), MAXBITS - root);
  }

  /** Where the remaining codes of length l begin. */
  ghost function LevelBase(lens: seq<nat>, w: seq<nat>, k: nat, l: nat): nat
    requires k < |w| && w[k] < |lens| && lens[w[k]] <= l <= MAXBITS
  {
    if l == lens[w[k]] then Start(lens, w[k]) else Shl(NextCode(lens, l), MAXBITS - l)
  }

  lemma LevelTop(lens: seq<nat>, w: seq<nat>, k: nat, l: nat, c: nat)
    requires ValidLens(lens) && InOrder(lens, w) && k < |w| && w[k] < |lens| && 0 < lens[w[k]] <= l <= MAXBITS
    requires c == Remain(lens, l, k)
    ensures LevelBase(lens, w, k, l) + Shl(c, MAXBITS - l) == Shl(Used(lens, l), MAXBITS - l)
    ensures l < MAXBITS ==> LevelBase(lens, w, k, l + 1) == Shl(Used(lens, l), MAXBITS - l)
  {
    hide Shl, InOrder, Count, NextCode;
    SymbolAt(lens, w, k);
    var m := lens[w[k]];
    RankBelowCount(lens, w[k]);
    if l == m {
      ShlAdd(CodeOf(lens, w[k]), c, MAXBITS - l);
    } else {
      OffsMono(lens, m, l);
      ShlAdd(NextCode(lens, l), c, MAXBITS - l);
    }
    if l < MAXBITS {
      UsedStep(lens, l + 1);
      ShlDouble(Used(lens, l), MAXBITS - (l + 1));
    }
  }

  /** Every code from position k on that goes through the slot of k fits a sub-table of curr bits. */
  ghost predicate Covered(lens: seq<nat>, w: seq<nat>, k: nat, root: nat, curr: nat) {
    && k < |w| && w[k] < |lens|
    && forall j: nat {:trigger w[j]} ::
         k <= j < |w| && w[j] < |lens| && root < lens[w[j]] && Slot(lens, w[j], root) == Slot(lens, w[k], root)
         ==> lens[w[j]] <= root + curr
  }

  lemma CoveredMax(lens: seq<nat>, w: seq<nat>, k: nat, root: nat, curr: nat)
    requires ValidLens(lens) && k < |w| && w[k] < |lens|
    requires forall l :: root + curr < l <= MAXBITS ==> Count(lens, l) == 0
    ensures Covered(lens, w, k, root, curr)
  {
    forall j: nat | k <= j < |w| && w[j] < |lens| ensures lens[w[j]] <= root + curr {
      RankBelowCount(lens, w[j]);
    }
  }

  lemma CoveredBelow(lens: seq<nat>, w: seq<nat>, k: nat, root: nat, curr: nat)
    requires Fits(lens) && InOrder(lens, w) && OpensSlot(lens, w, k, root) && root + curr <= MAXBITS && 0 < root + curr
    requires Shl(Shr(Start(lens, w[k]), MAXBITS - root) + 1, MAXBITS - root)
          <= Shl(Used(lens, root + curr), MAXBITS - (root + curr))
    ensures Covered(lens, w, k, root, curr)
  {
    hide Shl, Shr, Pow2, InOrder, Slot, Count, NextCode, Used;
    var p := Shr(Start(lens, w[k]), MAXBITS - root);
    SymbolAt(lens, w, k);
    forall j: nat | k <= j < |w| && w[j] < |lens| && root + curr < lens[w[j]]
      ensures Slot(lens, w[j], root) != Slot(lens, w[k], root)
    {
      SymbolAt(lens, w, j);
      IntervalInLevel(lens, w[j]);
      LevelMono(lens, root + curr, lens[w[j]]);
      SameSlot(lens, w[j], w[k], root);
      ShrInterval(Start(lens, w[j]), MAXBITS - root, p);
      ShlAdd(p, 1, MAXBITS - root);
    }
  }

  /** The table entry for a symbol, chosen as the code type asks. */
  method MakeEntry(kind: Kind, sym: nat, n: nat) returns (here: Code)
    requires sym < MaxSyms(kind)
    ensures here == SymCode(kind, sym, n)
  {
    var match_ := if kind == CODES then 20 else if kind == LENS then 257 else 0;
    if sym + 1 < match_ {
      here := Code(0, n, sym);
    } else if sym >= match_ {
      if kind == LENS {
        here := Code(LEXT[sym - match_], n, LBASE[sym - match_]);
      } else {
        here := Code(DEXT[sym - match_], n, DBASE[sym - match_]);
      }
    } else {
      here := Code(32 + 64, n, 0);
    }
  }

  const NO_SLOT: nat := 0xffff_ffff   // (unsigned)(-1)

  /**
   The state of filling before the code at position k is entered: the table being filled is at
   next and has curr index bits; drop is zero while that is the root table, and root once it is
   the sub-table of slot low.
   */
  ghost predicate Filling(t: seq<Code>, root: nat, kind: Kind, lens: seq<nat>, w: seq<nat>, k: nat,
                          next: nat, curr: nat, low: nat, drop: nat)
  {
    && k < |w| && w[k] < |lens| && |lens| <= MaxSyms(kind) && Pow2(root) <= |t|
    && next + Pow2(curr) <= |t|
    && Entered(t, root, kind, lens, w, k)
    && Linked(t, root, lens, w, k, next, curr, low)
    && (drop == 0 ==> lens[w[k]] <= root && next == 0 && curr == root)
    && (drop != 0 ==> drop == root && InSubtable(t, root, lens, w, k, next, curr, low))
  }

  ghost predicate InSubtable(t: seq<Code>, root: nat, lens: seq<nat>, w: seq<nat>, k: nat, next: nat, curr: nat,
        low: nat)
    requires k < |w| && w[k] < |lens| && Pow2(root) <= |t|
  {
    && root < lens[w[k]] && low == Slot(lens, w[k], root) && low < Pow2(root)
    && Pow2(root) <= next && 0 < curr < 16
    && t[low] == Code(curr, root, next)
    && Covered(lens, w, k, root, curr)
  }

  lemma EnterNext(t0: seq<Code>, t1: seq<Code>, root: nat, kind: Kind, lens: seq<nat>, w: seq<nat>, k: nat,
                  next: nat, curr: nat, low: nat, drop: nat)
    requires Fits(lens) && InOrder(lens, w) && Filling(t0, root, kind, lens, w, k, next, curr, low, drop)
    requires drop <= lens[w[k]]
    requires Copied(t0, t1, next, curr, lens[w[k]] - drop, Shr(Huff(lens, w[k]), drop),
             SymCode(kind, w[k], lens[w[k]] - drop))
    ensures Entered(t1, root, kind, lens, w, k + 1)
    ensures Linked(t1, root, lens, w, k + 1, next, curr, low)
    ensures drop != 0 ==> t1[low] == t0[low]
  {
    hide Low, Shl, Pow2, InOrder, Fits, SymCode, Matches, Huff, EntryOk, Copied, Entered, LinkOk;
    SymbolAt(lens, w, k);
    if drop == 0 {
      EnterShort(t0, t1, root, kind, lens, w, k);
      forall j: nat | j < k ensures w[j] < |lens| && lens[w[j]] <= root {
        PositionsOrdered(lens, w, j, k);
      }
    } else {
      EnterLong(t0, t1, root, kind, lens, w, k, next, curr, low);
    }
  }

  /** The next code goes into the same table. */
  lemma SameTable(t0: seq<Code>, t1: seq<Code>, root: nat, kind: Kind, lens: seq<nat>, w: seq<nat>, k: nat,
                  next: nat, curr: nat, low: nat, drop: nat)
    requires Filling(t0, root, kind, lens, w, k, next, curr, low, drop)
    requires |t1| == |t0| && k + 1 < |w| && w[k + 1] < |lens| && lens[w[k]] <= lens[w[k + 1]]
    requires Entered(t1, root, kind, lens, w, k + 1)
    requires Linked(t1, root, lens, w, k + 1, next, curr, low)
    requires drop != 0 ==> t1[low] == t0[low]
    requires lens[w[k + 1]] <= root || (drop != 0 && Slot(lens, w[k + 1], root) == low)
    ensures Filling(t1, root, kind, lens, w, k + 1, next, curr, low, drop)
  {
    hide Slot, Pow2, Entered, Linked;
    if drop != 0 {
      assert lens[w[k + 1]] > root;
      assert Covered(lens, w, k + 1, root, curr);
      assert InSubtable(t1, root, lens, w, k + 1, next, curr, low);
    }
  }

  /** The next code opens a sub-table at the end of the current table. */
  lemma NewTable(t0: seq<Code>, t1: seq<Code>, root: nat, kind: Kind, lens: seq<nat>, w: seq<nat>, k: nat,
                 next: nat, curr: nat, low: nat, curr': nat)
    requires Fits(lens) && InOrder(lens, w) && |lens| <= MaxSyms(kind) && Pow2(root) <= |t0|
    requires OpensSlot(lens, w, k, root)
    requires Entered(t0, root, kind, lens, w, k) && Linked(t0, root, lens, w, k, next, curr, low)
    requires Pow2(root) <= next + Pow2(curr) && next + Pow2(curr) + Pow2(curr') <= |t0|
    requires 0 < root && 0 < curr' < 16 && Covered(lens, w, k, root, curr')
    requires Slot(lens, w[k], root) < Pow2(root)
    requires t1 == t0[Slot(lens, w[k], root) := Code(curr', root, next + Pow2(curr))]
    ensures Filling(t1, root, kind, lens, w, k, next + Pow2(curr), curr', Slot(lens, w[k], root), root)
  {
    hide Slot, Pow2, Entered, Linked;
    OpenTable(t0, t1, root, kind, lens, w, k, next, curr, low, next + Pow2(curr), curr');
  }

  lemma CopiedSlice(a0: seq<Code>, a1: seq<Code>, base: nat, next: nat, curr: nat, n: nat, idx: nat, here: Code)
    requires base <= |a0| && Copied(a0, a1, base + next, curr, n, idx, here)
    ensures Copied(a0[base..], a1[base..], next, curr, n, idx, here)
    ensures forall i :: 0 <= i < base || base + next + Pow2(curr) <= i < |a0| ==> a1[i] == a0[i]
  {
    hide Low, Pow2;
    var t0, t1 := a0[base..], a1[base..];
    forall i: nat | i < |t0|
      ensures t1[i] == if next <= i < next + Pow2(curr) && Low(i - next, n) == idx then here else t0[i]
    {
      assert t1[i] == a1[base + i] && base + i - (base + next) == i - next;
    }
  }

  /** Table space in use: LENS and DISTS tables are checked against their limits. */
  predicate Room(kind: Kind, used: nat) {
    match kind
    case CODES => true
    case LENS => used <= ENOUGH_LENS
    case DISTS => used <= ENOUGH_DISTS
  }

  /** Table space provided: the root table if that is all there is, otherwise the limit for the kind. */
  ghost predicate HasRoom(kind: Kind, base: nat, length: nat, root: nat, max: nat) {
    || (max <= root && base + Pow2(root) <= length)
    || (kind == LENS && base + ENOUGH_LENS <= length)
    || (kind == DISTS && base + ENOUGH_DISTS <= length)
  }

  /** When space may run out: the root table is over the limit, or there are sub-tables. */
  predicate MayOverflow(kind: Kind, root: nat, max: nat) {
    kind != CODES && (!Room(kind, Pow2(root)) || root < max)
  }

  lemma RoomInside(kind: Kind, base: nat, length: nat, root: nat, max: nat, used: nat)
    requires HasRoom(kind, base, length, root, max) && Room(kind, used)
    requires used == Pow2(root) || root < max
    ensures base + used <= length
  {
  }

  lemma StartFilling(t: seq<Code>, root: nat, kind: Kind, lens: seq<nat>, w: seq<nat>)
    requires Fits(lens) && |lens| <= MaxSyms(kind) && InOrder(lens, w) && |w| > 0 && Pow2(root) <= |t|
    requires w[0] < |lens| && lens[w[0]] <= root
    ensures Filling(t, root, kind, lens, w, 0, 0, root, NO_SLOT, 0)
    ensures Huff(lens, w[0]) == 0
  {
    hide Shl, Pow2, InOrder;
    SymbolAt(lens, w, 0);
    Adjacent(lens, w, 0);
    var l := lens[w[0]];
    ShrShl(CodeOf(lens, w[0]), MAXBITS - l);
    ShlAdd(0, 0, MAXBITS - l);
    ShrShl(0, MAXBITS - l);
    ShlAdd(0, 0, l);
    RevExtend(0, 0, l);
  }

  lemma IndexFits(t: seq<Code>, root: nat, kind: Kind, lens: seq<nat>, w: seq<nat>, k: nat,
                  next: nat, curr: nat, low: nat, drop: nat)
    requires Fits(lens) && InOrder(lens, w) && Filling(t, root, kind, lens, w, k, next, curr, low, drop)
    ensures w[k] < MaxSyms(kind) && drop <= lens[w[k]] && lens[w[k]] - drop <= curr
    ensures Shr(Huff(lens, w[k]), drop) < Pow2(lens[w[k]] - drop)
  {
    hide Shr, Pow2, InOrder, Entered, Linked, Slot, Huff;
    SymbolAt(lens, w, k);
    HuffRead(lens, w[k]);
    ShiftOut(Huff(lens, w[k]), lens[w[k]], drop);
  }

  /** What the counts say about the code after position k. */
  lemma AfterCode(lens: seq<nat>, w: seq<nat>, k: nat, c: seq<nat>, max: nat)
    requires Fits(lens) && InOrder(lens, w) && k < |w| && CountsLeft(lens, c, k)
    requires max <= MAXBITS && Count(lens, max) > 0 && forall l :: max < l <= MAXBITS ==> Count(lens, l) == 0
    ensures w[k] < |lens| && 1 <= lens[w[k]] <= max && |c| == MAXBITS + 1 && c[lens[w[k]]] > 0
    ensures CountsLeft(lens, c[lens[w[k]] := c[lens[w[k]]] - 1], k + 1)
    ensures c[lens[w[k]]] == 1 ==> (lens[w[k]] == max <==> k + 1 == |w|)
    ensures c[lens[w[k]]] > 1 ==> k + 1 < |w|
    ensures k + 1 < |w| ==>
      && w[k + 1] < |lens|
      && lens[w[k]] <= lens[w[k + 1]] <= max
      && (c[lens[w[k]]] > 1 ==> lens[w[k + 1]] == lens[w[k]])
      && Huff(lens, w[k + 1]) == RevNext(CodeOf(lens, w[k]), lens[w[k]])
  {
    hide Count, InOrder, Huff, CodeOf, RevNext;
    TakeCode(lens, w, k, c);
    SymbolAt(lens, w, k);
    RankBelowCount(lens, w[k]);
    if k + 1 < |w| {
      SymbolAt(lens, w, k + 1);
      RankBelowCount(lens, w[k + 1]);
      PositionsOrdered(lens, w, k, k + 1);
      Adjacent(lens, w, k + 1);
      NextHuff(lens, w[k], w[k + 1]);
    }
  }

  lemma Opens(t: seq<Code>, root: nat, kind: Kind, lens: seq<nat>, w: seq<nat>, k: nat,
              next: nat, curr: nat, low: nat, drop: nat)
    requires 0 < k < |w| && w[k] < |lens| && Filling(t, root, kind, lens, w, k - 1, next, curr, low, drop)
    requires root < lens[w[k]] && Slot(lens, w[k], root) != low
    ensures OpensSlot(lens, w, k, root)
  {
  }

  lemma SlotBelow(huff: nat, root: nat)
    requires root <= MAXBITS
    ensures Low(huff, root) != NO_SLOT
  {
    hide Low;
    Split(huff, root);
    Pow2Mono(root, MAXBITS);
    assert Pow2(15) == 32768;
  }

  /** Few enough symbols for the space that is reserved. */
  predicate EnoughFor(kind: Kind, n: nat, root: nat) {
    (kind == LENS && n <= 286 && root == 9) || (kind == DISTS && n <= 30 && root == 6)
  }

  /**
   The space used at position sym: the table being filled ends at position stop, and k0 codes fit the
   root index.
   */
  ghost predicate Tracked(lens: seq<nat>, w: seq<nat>, root: nat, sym: nat, stop: nat, k0: nat, low: nat, drop: nat,
        used: nat) {
    && sym <= stop <= |w| && k0 <= stop && Enough.ShortOnes(lens, w, root, k0)
    && (drop == 0 ==> stop == k0)
    && (drop != 0 ==> forall j :: sym <= j < stop ==>
        w[j] < |lens| && root < lens[w[j]] && Slot(lens, w[j], root) == low)
    && (stop < |w| ==> w[stop] < |lens| && root < lens[w[stop]] && (drop != 0 ==> Slot(lens, w[stop], root) != low) &&
                       Enough.Budget(used, root, stop - k0, lens[w[stop]] - root))
  }

  lemma {:induction false} PlaceMono(lens: seq<nat>, w: seq<nat>, i: nat, j: nat)
    requires ValidLens(lens) && InOrder(lens, w) && i <= j <= |w|
    ensures (i < |w| ==> w[i] < |lens|) && (j < |w| ==> w[j] < |lens|)
    ensures Enough.Place(lens, w, i) <= Enough.Place(lens, w, j) &&
            (i < j ==> Enough.Place(lens, w, i) < Enough.Place(lens, w, j))
    decreases j - i
  {
    hide InOrder, Enough.Place, Pow2;
    if i < j {
      Enough.PlaceNext(lens, w, i);
      PowPositive(MAXBITS - lens[w[i]]);
      PlaceMono(lens, w, i + 1, j);
    } else if j < |w| {
      SymbolAt(lens, w, j);
    }
  }

  lemma {:induction false} LensMono(lens: seq<nat>, w: seq<nat>, i: nat, j: nat)
    requires ValidLens(lens) && InOrder(lens, w) && i <= j < |w|
    ensures w[i] < |lens| && w[j] < |lens| && lens[w[i]] <= lens[w[j]] <= MAXBITS && 0 < lens[w[i]]
    decreases j - i
  {
    hide InOrder;
    SymbolAt(lens, w, i);
    if i < j {
      Enough.PlaceNext(lens, w, i);
      LensMono(lens, w, i + 1, j);
    }
  }

  /** The codes of a sub-table, and no others, go through its slot. */
  lemma SubtableSlots(lens: seq<nat>, w: seq<nat>, k: nat, root: nat, curr: nat, m: nat, j: nat)
    requires Complete(lens) && InOrder(lens, w) && OpensSlot(lens, w, k, root) &&
             SubtableEnd(lens, w, k, root, curr, m) && k <= j <= k + m && j < |w|
    ensures w[j] < |lens| && root < lens[w[j]] && (Slot(lens, w[j], root) == Slot(lens, w[k], root) <==> j < k + m)
  {
    hide InOrder, Slot, Pow2, Shl, Shr, Start, Kraft;
    var p := Shr(Start(lens, w[k]), MAXBITS - root);
    OpensAligned(lens, w, k, root);
    PlaceMono(lens, w, k, j);
    PlaceMono(lens, w, j, k + m);
    LensMono(lens, w, k, j);
    SameSlot(lens, w[j], w[k], root);
    ShrInterval(Start(lens, w[j]), MAXBITS - root, p);
    ShlAdd(p, 1, MAXBITS - root);
    ShlPow2(0, MAXBITS - root);
    assert Pow2(0) == 1 by {
      PowZero();
    }
  }

  lemma PowZero()
    ensures Pow2(0) == 1
  {
  }

  /** A new sub-table keeps within the space. */
  lemma TrackOpen(kind: Kind, lens: seq<nat>, w: seq<nat>, root: nat, k: nat, k0: nat, low: nat, drop: nat, used: nat,
        curr: nat, m: nat)
    requires Complete(lens) && InOrder(lens, w) && OpensSlot(lens, w, k, root) && SubtableEnd(lens, w, k, root, curr, m)
    requires Tracked(lens, w, root, k, k, k0, low, drop, used) && root > 0 && lens[w[k]] <= root + curr <= MAXBITS
    requires m >= Pow2(lens[w[k]] - root) + (root + curr - lens[w[k]])
    ensures Tracked(lens, w, root, k, k + m, k0, Slot(lens, w[k], root), root, used + Pow2(curr))
    ensures EnoughFor(kind, |lens|, root) ==> Room(kind, used + Pow2(curr))
  {
    hide InOrder, Slot, Pow2, Kraft, Enough.Budget, SubtableEnd, OpensSlot, Room;
    OpensInside(lens, w, k, root);
    EndInside(lens, w, k, root, curr, m);
    var d := lens[w[k]] - root;
    Enough.BudgetNext(used, root, k - k0, d, curr, m);
    forall j | k <= j < k + m ensures w[j] < |lens| && root < lens[w[j]] &&
        Slot(lens, w[j], root) == Slot(lens, w[k], root) {
      SubtableSlots(lens, w, k, root, curr, m, j);
    }
    if k + m < |w| {
      SubtableSlots(lens, w, k, root, curr, m, k + m);
      Enough.BudgetGrows(used + Pow2(curr), root, k + m - k0, curr, lens[w[k + m]] - root);
    }
    if EnoughFor(kind, |lens|, root) {
      CodedWithin(lens, w);
      Enough.FewLong(lens, w, root, k0);
      Enough.BudgetEnough(used + Pow2(curr), root, k + m - k0, curr);
      RoomIs(kind, used + Pow2(curr));
    }
  }

  lemma OpensInside(lens: seq<nat>, w: seq<nat>, k: nat, root: nat)
    requires OpensSlot(lens, w, k, root)
    ensures 1 <= k < |w| && w[k] < |lens| && root < lens[w[k]]
  {
  }

  lemma EndInside(lens: seq<nat>, w: seq<nat>, k: nat, root: nat, curr: nat, m: nat)
    requires SubtableEnd(lens, w, k, root, curr, m)
    ensures k < k + m <= |w| && (k + m < |w| ==> w[k + m] < |lens| && lens[w[k + m]] >= root + curr)
  {
  }

  lemma CodedWithin(lens: seq<nat>, w: seq<nat>)
    requires InOrder(lens, w)
    ensures |w| <= |lens|
  {
    CodedBound(lens, MAXBITS + 1);
  }

  lemma RoomIs(kind: Kind, used: nat)
    ensures Room(kind, used) <==> (kind == LENS ==> used <= ENOUGH_LENS) && (kind == DISTS ==> used <= ENOUGH_DISTS)
  {
  }

  /**
   Opens a sub-table, past the current table, for the code at position k; there is space for it unless there are too
   many symbols.
   */
  method OpenSubtable(kind: Kind, lens: seq<nat>, table: array<Code>, base: nat, count: array<nat>, ghost w: seq<nat>,
        ghost k: nat, huff: nat, len: nat, root: nat, max: nat, next: nat, curr: nat, used: nat, ghost low: nat,
        ghost k0: nat, ghost drop: nat)
      returns (ok: bool, curr': nat, next': nat, used': nat, ghost stop: nat)
    requires Complete(lens) && |lens| <= MaxSyms(kind) && InOrder(lens, w) && OpensSlot(lens, w, k, root)
    requires count.Length == MAXBITS + 1 && CountsLeft(lens, count[..], k)
    requires len == lens[w[k]] && huff == Huff(lens, w[k]) && 0 < root < len <= max <= MAXBITS && Count(lens, max) > 0
    requires forall l :: max < l <= MAXBITS ==> Count(lens, l) == 0
    requires HasRoom(kind, base, table.Length, root, max)
    requires used == next + Pow2(curr) && Pow2(root) <= used && base + used <= table.Length
    requires Entered(table[base..], root, kind, lens, w, k) && Linked(table[base..], root, lens, w, k, next, curr, low)
    requires Tracked(lens, w, root, k, k, k0, low, drop, used)
    modifies table
    ensures !ok ==> MayOverflow(kind, root, max) && !EnoughFor(kind, |lens|, root)
    ensures forall i :: 0 <= i < base || base + used <= i < table.Length ==> table[i] == old(table[i])
    ensures ok ==>
      && next' == used && used' == next' + Pow2(curr') && base + used' <= table.Length && Room(kind, used')
      && Filling(table[base..], root, kind, lens, w, k, next', curr', Low(huff, root), root)
      && k < stop && Tracked(lens, w, root, k, stop, k0, Low(huff, root), root, used')
  {
    hide Low, Shr, Shl, Covered, Entered, Linked, CodeOf, Fits, InOrder, Pow2, InSubtable, CountsLeft, Filling, Tracked,
      SubtableEnd, Kraft, Room, EnoughFor;
    ghost var t := table[base..];
    ghost var m;
    CompleteFits(lens);
    curr', m := SubtableBits(lens, count, w, k, len, root, max);
    TrackOpen(kind, lens, w, root, k, k0, low, drop, used, curr', m);
    EndInside(lens, w, k, root, curr', m);
    stop := k + m;
    next' := next + Pow2(curr);
    used' := used + Pow2(curr');
    ok := Room(kind, used');
    RoomIs(kind, used');
    if ok {
      RoomInside(kind, base, table.Length, root, max, used');
      Split(huff, root);
      table[base + Low(huff, root)] := Code(curr', root, next');
      assert table[base..] == t[Low(huff, root) := Code(curr', root, next')];
      NewTable(t, table[base..], root, kind, lens, w, k, next, curr, low, curr');
    }
  }

  lemma CompleteFits(lens: seq<nat>)
    ensures Complete(lens) ==> Fits(lens)
    ensures Fits(lens) ==> ValidLens(lens)
  {
  }

  lemma RootRoom(kind: Kind, n: nat, root: nat)
    ensures EnoughFor(kind, n, root) ==> Room(kind, Pow2(root))
    ensures !Room(kind, Pow2(root)) ==> kind != CODES
  {
    hide Pow2;
    Enough.RootSizes();
  }

  lemma {:induction false} FindShort(lens: seq<nat>, w: seq<nat>, root: nat, k: nat) returns (k0: nat)
    requires ValidLens(lens) && InOrder(lens, w) && k <= |w| && forall j :: 0 <= j < k ==>
      w[j] < |lens| && lens[w[j]] <= root
    ensures k <= k0 && Enough.ShortOnes(lens, w, root, k0)
    decreases |w| - k
  {
    hide InOrder;
    k0 := k;
    if k < |w| {
      SymbolAt(lens, w, k);
      if lens[w[k]] <= root {
        k0 := FindShort(lens, w, root, k + 1);
      }
    }
  }

  lemma TrackStart(lens: seq<nat>, w: seq<nat>, root: nat) returns (k0: nat)
    requires ValidLens(lens) && InOrder(lens, w) && |w| > 0 && w[0] < |lens| && lens[w[0]] <= root
    ensures 0 < k0 && Tracked(lens, w, root, 0, k0, k0, NO_SLOT, 0, Pow2(root))
  {
    hide InOrder, Pow2, Slot, Enough.Budget;
    k0 := FindShort(lens, w, root, 1);
    if k0 < |w| {
      Enough.BudgetStarts(root, lens[w[k0]] - root);
    }
  }

  lemma TrackSame(lens: seq<nat>, w: seq<nat>, root: nat, sym: nat, stop: nat, k0: nat, low: nat, drop: nat, used: nat)
    requires Tracked(lens, w, root, sym, stop, k0, low, drop, used) && sym < stop
    ensures Tracked(lens, w, root, sym + 1, stop, k0, low, drop, used)
  {
    hide Slot, Enough.Budget, Enough.ShortOnes;
  }

  /** The next code opens a sub-table just when the current table ends. */
  lemma TrackCases(lens: seq<nat>, w: seq<nat>, root: nat, sym: nat, stop: nat, k0: nat, low: nat, drop: nat, used: nat)
    requires Tracked(lens, w, root, sym, stop, k0, low, drop, used) && sym < |w| && w[sym] < |lens|
    requires drop == 0 ==> low == NO_SLOT && Slot(lens, w[sym], root) != NO_SLOT
    ensures sym == stop <==> lens[w[sym]] > root && Slot(lens, w[sym], root) != low
  {
    hide Slot, Enough.Budget;
  }

  /** Enters one code into the current table, and steps to the next code. */
  method EnterCode(kind: Kind, lens: seq<nat>, table: array<Code>, base: nat, symbol: nat, huff: nat, len: nat,
        root: nat,
                   next: nat, curr: nat, drop: nat, ghost w: seq<nat>, ghost sym: nat, ghost low: nat)
      returns (huff': nat)
    requires Fits(lens) && InOrder(lens, w) && base + next + Pow2(curr) <= table.Length && sym < |w| &&
             symbol == w[sym] < |lens|
    requires Filling(table[base..], root, kind, lens, w, sym, next, curr, low, drop) && len == lens[w[sym]] &&
             huff == Huff(lens, w[sym])
    modifies table
    ensures Entered(table[base..], root, kind, lens, w, sym + 1) &&
            Linked(table[base..], root, lens, w, sym + 1, next, curr, low)
    ensures drop != 0 ==> low < table.Length - base && table[base..][low] == old(table[base..][low])
    ensures huff' == RevNext(CodeOf(lens, w[sym]), len)
    ensures forall i :: 0 <= i < base || base + next + Pow2(curr) <= i < table.Length ==> table[i] == old(table[i])
  {
    hide Low, Shr, Shl, Covered, Entered, Linked, Copied, CodeOf, Fits, InOrder, Pow2, SymCode, RevNext;
    ghost var a0 := table[..];
    IndexFits(table[base..], root, kind, lens, w, sym, next, curr, low, drop);
    var here := MakeEntry(kind, symbol, len - drop);
    Replicate(table, base + next, curr, len - drop, Shr(huff, drop), here);
    CopiedSlice(a0, table[..], base, next, curr, len - drop, Shr(huff, drop), here);
    EnterNext(a0[base..], table[base..], root, kind, lens, w, sym, next, curr, low, drop);
    SymbolAt(lens, w, sym);
    CodeFits(lens, w[sym]);
    huff' := BackIncrement(huff, len, CodeOf(lens, w[sym]));
  }

  /** Enters all codes; huff returns as what follows the last code, zero if that was all ones. */
  method FillTable(kind: Kind, lens: seq<nat>, table: array<Code>, base: nat, work: array<nat>, count: array<nat>,
                   root: nat, min: nat, max: nat, ghost w: seq<nat>)
      returns (ret: int, used: nat, next: nat, len: nat, drop: nat, huff: nat, ghost curr: nat, ghost low: nat)
    requires Fits(lens) && |lens| <= MaxSyms(kind) && InOrder(lens, w) && 0 < |w| <= work.Length && w == work[..|w|]
    requires Complete(lens) || max <= root
    requires count != work && count.Length == MAXBITS + 1 && CountsLeft(lens, count[..], 0)
    requires w[0] < |lens| && min == lens[w[0]] && 0 < min <= root <= max <= MAXBITS
    requires Count(lens, max) > 0 && forall l :: max < l <= MAXBITS ==> Count(lens, l) == 0
    requires HasRoom(kind, base, table.Length, root, max)
    modifies table, count
    ensures ret == 0 || (ret == 1 && MayOverflow(kind, root, max) && !EnoughFor(kind, |lens|, root))
    ensures forall i :: 0 <= i < base ==> table[i] == old(table[i])
    ensures ret == 0 ==>
      && used == next + Pow2(curr) && Pow2(root) <= used && base + used <= table.Length && Room(kind, used)
      && Entered(table[base..], root, kind, lens, w, |w|)
      && Linked(table[base..], root, lens, w, |w|, next, curr, low)
      && w[|w| - 1] < |lens| && len == lens[w[|w| - 1]] && huff == RevNext(CodeOf(lens, w[|w| - 1]), len)
      && (max <= root ==> next == 0 && drop == 0 && curr == root)
    ensures ret == 0 ==> forall i :: base + used <= i < table.Length ==> table[i] == old(table[i])
  {
    hide Low, Shr, Shl, Covered, Entered, Linked, Copied, CodeOf, Fits, InOrder, Pow2, SymCode, InSubtable, CountsLeft,
      RevNext, HasRoom,
      Tracked, EnoughFor, Room, Complete;
    var sym: nat := 0;
    huff, len := 0, min;
    next, drop := 0, 0;
    var currBits, slot := root, NO_SLOT;
    used := Pow2(root);
    curr, low := currBits, slot;
    ret := 0;
    RootRoom(kind, |lens|, root);
    if !Room(kind, used) {
      ret := 1;
      return;
    }
    RoomInside(kind, base, table.Length, root, max, used);
    StartFilling(table[base..], root, kind, lens, w);
    CompleteFits(lens);
    ghost var k0 := TrackStart(lens, w, root);
    ghost var stop := k0;
    while true
      invariant currBits == curr && slot == low
      invariant Filling(table[base..], root, kind, lens, w, sym, next, curr, low, drop)
      invariant len == lens[w[sym]] && huff == Huff(lens, w[sym])
      invariant used == next + Pow2(curr) && Pow2(root) <= used && base + used <= table.Length && Room(kind, used)
      invariant CountsLeft(lens, count[..], sym)
      invariant sym < stop && Tracked(lens, w, root, sym, stop, k0, low, drop, used)
      invariant drop == 0 ==> slot == NO_SLOT
      invariant max <= root ==> drop == 0
      invariant forall i :: 0 <= i < base || base + used <= i < table.Length ==> table[i] == old(table[i])
      decreases |w| - sym
    {
      ghost var a0, c0 := table[..], count[..];
      AfterCode(lens, w, sym, c0, max);
      huff := EnterCode(kind, lens, table, base, work[sym], huff, len, root, next, currBits, drop, w, sym, low);
      ghost var t1 := table[base..];
      TrackSame(lens, w, root, sym, stop, k0, low, drop, used);
      sym := sym + 1;
      count[len] := count[len] - 1;
      if count[len] == 0 {
        if len == max {
          break;
        }
        len := lens[work[sym]];
      }
      SlotBelow(huff, root);
      TrackCases(lens, w, root, sym, stop, k0, low, drop, used);
      if len > root && Low(huff, root) != slot {
        Opens(a0[base..], root, kind, lens, w, sym, next, curr, low, drop);
        ghost var drop0 := drop;
        if drop == 0 {
          drop := root;
        }
        var ok;
        ok, currBits, next, used, stop := OpenSubtable(kind, lens, table, base, count, w, sym, huff, len, root, max,
            next, currBits, used, low, k0, drop0);
        if !ok {
          ret := 1;
          return;
        }
        slot := Low(huff, root);
        curr, low := currBits, slot;
      } else {
        SameTable(a0[base..], t1, root, kind, lens, w, sym - 1, next, curr, low, drop);
      }
    }
  }

  // ---------- the finished table ----------

  /** A table holding all codes of a complete set decodes it. */
  lemma FilledComplete(t: seq<Code>, used: nat, root: nat, kind: Kind, lens: seq<nat>, w: seq<nat>,
                       next: nat, curr: nat, low: nat)
    requires Complete(lens) && |lens| <= MaxSyms(kind) && InOrder(lens, w) && 1 <= root <= MAXBITS
    requires used == next + Pow2(curr) && Pow2(root) <= used <= |t|
    requires Entered(t, root, kind, lens, w, |w|) && Linked(t, root, lens, w, |w|, next, curr, low)
    ensures Decodes(t[..used], root, kind, lens)
  {
    hide Low, Shr, Shl, Pow2, Huff, SymCode, InOrder, Matches, Kraft;
    var u := t[..used];
    forall s: nat, h: nat | Matches(lens, s, h) ensures Resolved(u, root, kind, lens, s, h) {
      ResolvedAt(t, used, root, kind, lens, w, next, curr, low, s, h);
    }
    forall h: nat ensures !Unmatched(lens, h) {
      var s := CompleteCovers(lens, h);
    }
    forall i: nat | i < Pow2(root) && IsLink(u[i]) ensures u[i].bits == root && u[i].val + Pow2(u[i].op) <= |u| {
      var s := CompleteCovers(lens, i);
      ResolvedAt(t, used, root, kind, lens, w, next, curr, low, s, i);
      LowOfSmall(i, root);
    }
  }

  ghost predicate Resolved(u: seq<Code>, root: nat, kind: Kind, lens: seq<nat>, s: nat, h: nat)
    requires Pow2(root) <= |u|
  {
    s < |lens| <= MaxSyms(kind) && Lookup(u, root, h) == SymCode(kind, s, lens[s])
  }

  lemma ResolvedAt(t: seq<Code>, used: nat, root: nat, kind: Kind, lens: seq<nat>, w: seq<nat>,
                   next: nat, curr: nat, low: nat, s: nat, h: nat)
    requires Fits(lens) && |lens| <= MaxSyms(kind) && InOrder(lens, w)
    requires used == next + Pow2(curr) && Pow2(root) <= used <= |t|
    requires Entered(t, root, kind, lens, w, |w|) && Linked(t, root, lens, w, |w|, next, curr, low)
    requires Matches(lens, s, h)
    ensures Resolved(t[..used], root, kind, lens, s, h)
    ensures Low(h, root) < Pow2(root)
    ensures var e := t[Low(h, root)]; IsLink(e) ==> e.bits == root && e.val + Pow2(e.op) <= used
  {
    hide Low, Shr, Shl, Pow2, Huff, InOrder, Entered, Linked, CodeOf, Kraft, SymCode, EntryOk, Lookup;
    var k := PositionOf(lens, w, s);
    EnteredAt(t, root, kind, lens, w, k, h);
    Split(h, root);
    if root < lens[s] {
      LinkedAt(t, root, lens, w, k, next, curr, low);
      LinkSlot(lens, s, h, root);
      LongResolved(t, used, root, kind, lens, s, h);
    } else {
      ShortResolved(t, used, root, kind, lens, s, h);
    }
  }

  lemma ShortResolved(t: seq<Code>, used: nat, root: nat, kind: Kind, lens: seq<nat>, s: nat, h: nat)
    requires s < |lens| <= MaxSyms(kind) && lens[s] <= root && Pow2(root) <= used <= |t|
    requires EntryOk(t, root, kind, lens, s, h)
    ensures Resolved(t[..used], root, kind, lens, s, h)
    ensures Low(h, root) < Pow2(root) && !IsLink(t[Low(h, root)])
  {
    hide Low, Shr, Pow2, SymCode;
    Split(h, root);
  }

  lemma LongResolved(t: seq<Code>, used: nat, root: nat, kind: Kind, lens: seq<nat>, s: nat, h: nat)
    requires s < |lens| <= MaxSyms(kind) && root < lens[s] && Pow2(root) <= used <= |t|
    requires EntryOk(t, root, kind, lens, s, h) && Low(h, root) < |t|
    requires var e := t[Low(h, root)]; e.val + Pow2(e.op) <= used
    ensures Resolved(t[..used], root, kind, lens, s, h)
  {
    hide Low, Shr, Pow2;
    Split(h, root);
    Split(Shr(h, root), t[Low(h, root)].op);
  }

  lemma EnteredAt(t: seq<Code>, root: nat, kind: Kind, lens: seq<nat>, w: seq<nat>, k: nat, h: nat)
    requires |lens| <= MaxSyms(kind) && Pow2(root) <= |t| && Entered(t, root, kind, lens, w, |w|)
    requires k < |w| && Matches(lens, w[k], h)
    ensures EntryOk(t, root, kind, lens, w[k], h)
  {
  }

  lemma LinkedAt(t: seq<Code>, root: nat, lens: seq<nat>, w: seq<nat>, k: nat, next: nat, curr: nat, low: nat)
    requires Pow2(root) <= |t| && Linked(t, root, lens, w, |w|, next, curr, low)
    requires k < |w| && w[k] < |lens| && root < lens[w[k]]
    ensures LinkOk(t, root, lens, w[k], next, curr, low)
  {
  }

  /** The table of a lone one-bit code, its other entry marked invalid. */
  lemma FilledSingle(t0: seq<Code>, t: seq<Code>, kind: Kind, lens: seq<nat>, w: seq<nat>)
    requires Fits(lens) && |lens| <= MaxSyms(kind) && InOrder(lens, w)
    requires |w| == 1 && w[0] < |lens| && lens[w[0]] == 1
    requires 2 <= |t0| && Pow2(1) <= |t0| && Entered(t0, 1, kind, lens, w, 1) && t == t0[1 := INVALID]
    ensures Decodes(t[..2], 1, kind, lens)
    ensures Flat(t[..2], 1)
  {
    hide InOrder, SymCode, Kraft, Entered, Low, Shr, Matches, Huff, CodeOf, Start;
    var u, s := t[..2], w[0];
    LoneHuff(lens, w);
    assert Pow2(1) == 2;
    forall h: nat ensures Matches(lens, s, h) <==> h % 2 == 0 {
      OneBit(h);
      MatchesDef(lens, s, h);
    }
    forall s': nat, h: nat | Matches(lens, s', h) ensures Resolved(u, 1, kind, lens, s', h) {
      MatchesDef(lens, s', h);
      var k := PositionOf(lens, w, s');
      EnteredAt(t0, 1, kind, lens, w, 0, h);
      OneBit(h);
    }
    EnteredAt(t0, 1, kind, lens, w, 0, 0);
    forall h: nat | Unmatched(lens, h) ensures Lookup(u, 1, h) == INVALID {
      OneBit(h);
      assert !Matches(lens, s, h);
    }
    OneBit(0);
  }

  lemma MatchesDef(lens: seq<nat>, s: nat, h: nat)
    ensures Matches(lens, s, h) <==> s < |lens| && lens[s] > 0 && Low(h, lens[s]) == Huff(lens, s)
  {
  }

  lemma LoneHuff(lens: seq<nat>, w: seq<nat>)
    requires ValidLens(lens) && InOrder(lens, w) && |w| > 0 && w[0] < |lens| && lens[w[0]] == 1
    ensures CodeOf(lens, w[0]) == 0 && Huff(lens, w[0]) == 0
  {
    hide InOrder, CodeOf;
    Adjacent(lens, w, 0);
    ShrShl(CodeOf(lens, w[0]), MAXBITS - 1);
    ShlAdd(0, 0, MAXBITS - 1);
    ShrShl(0, MAXBITS - 1);
    MsbBitsSplit(0, 1);
    ToIntAppend(MsbBits(0, 0), false);
  }

  lemma OneBit(h: nat)
    ensures Low(h, 1) == h % 2 && Low(h, 1) < 2
  {
    assert Low(h / 2, 0) == 0;
  }

  /** One coded symbol, of one bit, is the only incomplete set that is let through. */
  lemma LoneCode(lens: seq<nat>, w: seq<nat>)
    requires ValidLens(lens) && InOrder(lens, w) && AtMostOneBit(lens) && |w| > 0
    requires Kraft(lens) < Pow2(MAXBITS)
    ensures |w| == 1 && w[0] < |lens| && lens[w[0]] == 1
    ensures CodeOf(lens, w[0]) == 0
  {
    hide InOrder, CodeOf, Kraft, Count, Shl, Start;
    SymbolAt(lens, w, 0);
    LoneHuff(lens, w);
    Adjacent(lens, w, 0);
    if |w| > 1 {
      SymbolAt(lens, w, 1);
      Adjacent(lens, w, 1);
      IntervalInLevel(lens, w[1]);
    }
  }

  lemma AfterLoneCode()
    ensures RevNext(0, 1) == 1
  {
    assert Pow2(1) == 2;
    MsbBitsSplit(1, 1);
    ToIntAppend(MsbBits(0, 0), true);
    assert Pow2(0) == 1;
  }

  lemma {:induction false} NoSymbolsKraft(lens: seq<nat>)
    requires ValidLens(lens) && NoSymbols(lens)
    ensures Kraft(lens) == 0
  {
    if lens != [] {
      NoSymbolsKraft(lens[..|lens| - 1]);
    }
  }

  lemma NoCodeTable(t: seq<Code>, kind: Kind, lens: seq<nat>)
    requires NoSymbols(lens) && |lens| <= MaxSyms(kind) && t == [INVALID, INVALID]
    ensures Decodes(t, 1, kind, lens) && Flat(t, 1)
  {
    assert Pow2(1) == 2;
    forall h: nat ensures Lookup(t, 1, h) == INVALID {
      OneBit(h);
    }
  }

  lemma FirstCode(lens: seq<nat>, w: seq<nat>, min: nat)
    requires InOrder(lens, w) && 1 <= min <= MAXBITS && Count(lens, min) > 0
    requires forall l :: 1 <= l < min ==> Count(lens, l) == 0
    ensures |w| > 0 && w[0] < |lens| && lens[w[0]] == min
  {
    hide InOrder;
    var s := SymAt(lens, min, 0);
    var k := PositionOf(lens, w, s);
    SymbolAt(lens, w, 0);
    RankBelowCount(lens, w[0]);
    if k > 0 {
      PositionsOrdered(lens, w, 0, k);
    }
  }

  lemma AllLeft(lens: seq<nat>, c: seq<nat>)
    requires |c| == MAXBITS + 1 && forall l :: 0 <= l <= MAXBITS ==> c[l] == Count(lens, l)
    ensures CountsLeft(lens, c, 0)
  {
  }

  /** Sorts the symbols and fills the tables, the set of lengths having been checked. */
  method BuildTable(kind: Kind, lens: seq<nat>, table: array<Code>, base: nat, work: array<nat>, count: array<nat>,
                    root: nat, min: nat, max: nat)
      returns (ret: int, next: nat)
    requires Fits(lens) && |lens| <= MaxSyms(kind) && |lens| <= work.Length
    requires Complete(lens) || (AtMostOneBit(lens) && max == 1)
    requires count != work && count.Length == MAXBITS + 1 && forall l :: 0 <= l <= MAXBITS ==>
             count[l] == Count(lens, l)
    requires 0 < min <= root <= max <= MAXBITS && Count(lens, min) > 0 && Count(lens, max) > 0
    requires forall l :: max < l <= MAXBITS || 1 <= l < min ==> Count(lens, l) == 0
    requires HasRoom(kind, base, table.Length, root, max)
    modifies table, work, count
    ensures ret == 0 || (ret == 1 && MayOverflow(kind, root, max) && !EnoughFor(kind, |lens|, root))
    ensures ret == 0 ==> base <= next <= table.Length && Decodes(table[base..next], root, kind, lens)
    ensures ret == 0 && AllWithin(lens, root) ==> Flat(table[base..next], root)
    ensures ret == 0 && max <= root ==> next == base + Pow2(root)
    ensures ret == 0 ==> Room(kind, next - base)
    ensures forall i :: 0 <= i < base ==> table[i] == old(table[i])
    ensures ret == 0 ==> forall i :: next <= i < table.Length ==> table[i] == old(table[i])
  {
    hide Shl, Shr, Low, Decodes, Flat, AllWithin, Kraft, Count, Offs, InOrder, Entered, Linked, CodeOf, RevNext,
      ValidLens, HasRoom, CountsLeft, AtMostOneBit;
    SortSymbols(lens, count, work);
    ghost var w := work[..Offs(lens, MAXBITS + 1)];
    FirstCode(lens, w, min);
    var used, len, drop, huff;
    ghost var curr, low;
    AllLeft(lens, count[..]);
    ret, used, next, len, drop, huff, curr, low := FillTable(kind, lens, table, base, work, count, root, min, max, w);
    if ret == 1 {
      return;
    }
    ghost var t := table[base..];
    AfterLast(lens, w);
    if huff != 0 {
      table[base + next + huff] := Code(64, len - drop, 0);
    }
    Filled(t, table[base..], used, root, kind, lens, w, next, curr, low, huff);
    assert table[base..][..used] == table[base..base + used];
    next := base + used;
  }

  /**
   Table space for the code of lens: its root table if no code is longer than bits, otherwise the limit for the kind.
   */
  ghost predicate SpaceFor(kind: Kind, lens: seq<nat>, base: nat, length: nat, bits: nat) {
    || (1 <= bits && base + Pow2(bits) <= length && AllWithin(lens, bits))
    || (kind == LENS && base + ENOUGH_LENS <= length)
    || (kind == DISTS && base + ENOUGH_DISTS <= length)
  }

  /** The root index has as many bits as asked for, or as few as the longest or as many as the shortest code. */
  ghost predicate RootFits(lens: seq<nat>, bits: nat, root: nat) {
    && (root > bits ==> forall i :: 0 <= i < |lens| && lens[i] > 0 ==> root <= lens[i])
    && (root < bits ==> AllWithin(lens, root))
  }

  /** min <= root <= max, and as near to bits as that allows. */
  lemma RootChosen(kind: Kind, lens: seq<nat>, base: nat, length: nat, bits: nat, min: nat, max: nat, root: nat)
    requires 0 < min <= max && Count(lens, max) > 0
    requires forall i :: 0 <= i < |lens| ==> lens[i] <= max && (lens[i] == 0 || min <= lens[i])
    requires root == if bits > max then max else if bits < min then min else bits
    requires SpaceFor(kind, lens, base, length, bits)
    ensures RootFits(lens, bits, root) && HasRoom(kind, base, length, root, max)
    ensures root < max <==> !AllWithin(lens, root)
  {
    hide Pow2, Count;
    var longest := SymAt(lens, max, 0);
    if root <= bits {
      Pow2Mono(root, bits);
    }
  }

  /**
   Builds, at table[base..], the decoding table of the canonical code of lens.  bits is the wanted
   number of root index bits, root the actual one, next the first free entry after the table.
   */
  method InflateTable(kind: Kind, lens: seq<nat>, table: array<Code>, base: nat, bits: nat, work: array<nat>)
      returns (ret: int, next: nat, root: nat)
    requires ValidLens(lens) && |lens| <= MaxSyms(kind) && |lens| <= work.Length
    requires SpaceFor(kind, lens, base, table.Length, bits)
    modifies table, work
    ensures ret == -1 || ret == 0 || ret == 1
    ensures ret == -1 <==> Refused(kind, lens)
    ensures ret == 1 ==>
      kind != CODES && (!Room(kind, Pow2(root)) || !AllWithin(lens, root)) && !EnoughFor(kind, |lens|, bits)
    ensures ret == 0 ==> base <= next <= table.Length && Decodes(table[base..next], root, kind, lens)
    ensures ret == 0 && AllWithin(lens, root) ==> Flat(table[base..next], root)
    ensures ret != -1 && !NoSymbols(lens) ==> RootFits(lens, bits, root)
    ensures ret == 0 && !NoSymbols(lens) && AllWithin(lens, root) ==> next == base + Pow2(root)
    ensures ret == 0 ==> Room(kind, next - base)
    ensures forall i :: 0 <= i < base ==> table[i] == old(table[i])
    ensures ret == 0 ==> forall i :: next <= i < table.Length ==> table[i] == old(table[i])
  {
    hide Shl, Shr, Low, Decodes, Flat, Kraft, Count, Offs, ValidLens, RootFits, AllWithin, Pow2, HasRoom;
    next := base;
    root := bits;
    var count := CountLengths(lens);
    var min, max := Bounds(lens, count);
    if root > max {
      root := max;
    }
    if max == 0 {
      SpaceForTwo(kind, lens, base, table.Length, bits);
      table[base] := INVALID;
      table[base + 1] := INVALID;
      next := base + 2;
      root := 1;
      ret := 0;
      NoSymbolsKraft(lens);
      NoCodeTable(table[base..next], kind, lens);
      return;
    }
    if root < min {
      root := min;
    }
    RootChosen(kind, lens, base, table.Length, bits, min, max, root);
    var left := CodeSpace(lens, count);
    if left < 0 || (left > 0 && (kind == CODES || max != 1)) {
      ret := -1;
      return;
    }
    RootStays(kind, lens, bits, min, max, root);
    ret, next := BuildTable(kind, lens, table, base, work, count, root, min, max);
  }

  lemma {:induction false} LongKraft(lens: seq<nat>, min: nat, unit: nat)
    requires ValidLens(lens) && 1 <= min <= MAXBITS && unit == Pow2(MAXBITS - min) && forall i :: 0 <= i < |lens| ==>
             lens[i] == 0 || min <= lens[i]
    requires unit <= 32 || unit <= 256
    ensures unit <= 32 ==> Kraft(lens) <= 32 * |lens|
    ensures unit <= 256 ==> Kraft(lens) <= 256 * |lens|
    decreases |lens|
  {
    hide Pow2;
    if lens != [] {
      var l := lens[|lens| - 1];
      LongKraft(lens[..|lens| - 1], min, unit);
      if l > 0 {
        Pow2Mono(MAXBITS - l, MAXBITS - min);
      }
    }
  }

  /** With so few symbols a complete code has some that fit the root index asked for. */
  lemma RootStays(kind: Kind, lens: seq<nat>, bits: nat, min: nat, max: nat, root: nat)
    requires ValidLens(lens) && 1 <= min <= max <= MAXBITS &&
             (forall i :: 0 <= i < |lens| ==> lens[i] == 0 || min <= lens[i])
    requires Complete(lens) || max == 1
    requires root == if bits > max then max else if bits < min then min else bits
    ensures EnoughFor(kind, |lens|, bits) ==> EnoughFor(kind, |lens|, root) || !MayOverflow(kind, root, max)
  {
    hide Kraft, Pow2;
    if EnoughFor(kind, |lens|, bits) && root != bits {
      Enough.RootSizes();
      Enough.HalfSlots();
      if bits < min {
        Pow2Mono(MAXBITS - min, MAXBITS - bits - 1);
        LongKraft(lens, min, Pow2(MAXBITS - min));
        assert false;
      } else {
        Pow2Mono(root, bits);
      }
    }
  }

  lemma SpaceForTwo(kind: Kind, lens: seq<nat>, base: nat, length: nat, bits: nat)
    requires SpaceFor(kind, lens, base, length, bits)
    ensures base + 2 <= length
  {
    if 1 <= bits {
      Pow2Mono(1, bits);
    }
  }

  /** What is left after the last code: nothing, or the other one-bit string. */
  lemma AfterLast(lens: seq<nat>, w: seq<nat>)
    requires Fits(lens) && InOrder(lens, w) && |w| > 0 && (Complete(lens) || AtMostOneBit(lens))
    ensures w[|w| - 1] < |lens| && lens[w[|w| - 1]] > 0
    ensures Complete(lens) ==> RevNext(CodeOf(lens, w[|w| - 1]), lens[w[|w| - 1]]) == 0
    ensures !Complete(lens) ==> |w| == 1 && lens[w[0]] == 1 && RevNext(CodeOf(lens, w[0]), lens[w[0]]) == 1
  {
    hide InOrder, CodeOf, RevNext, Kraft;
    SymbolAt(lens, w, |w| - 1);
    if Complete(lens) {
      LastFinish(lens, w);
      LastHuff(lens, w[|w| - 1]);
    } else {
      LoneCode(lens, w);
      AfterLoneCode();
    }
  }

  /** Codes no longer than the root index need no sub-tables. */
  lemma FilledFlat(t: seq<Code>, used: nat, root: nat, kind: Kind, lens: seq<nat>, w: seq<nat>)
    requires Complete(lens) && |lens| <= MaxSyms(kind) && InOrder(lens, w) && AllWithin(lens, root)
    requires Pow2(root) <= used <= |t| && Entered(t, root, kind, lens, w, |w|)
    ensures Flat(t[..used], root)
  {
    hide Low, Pow2, InOrder, Matches, Kraft, Entered;
    var u := t[..used];
    forall i: nat | i < Pow2(root) ensures !IsLink(u[i]) {
      var s := CompleteCovers(lens, i);
      MatchesDef(lens, s, i);
      var k := PositionOf(lens, w, s);
      EnteredAt(t, root, kind, lens, w, k, i);
      LowOfSmall(i, root);
    }
  }

  /** The finished table, in the two cases that get this far. */
  lemma Filled(t0: seq<Code>, t: seq<Code>, used: nat, root: nat, kind: Kind, lens: seq<nat>, w: seq<nat>,
               next: nat, curr: nat, low: nat, huff: nat)
    requires ValidLens(lens) && |lens| <= MaxSyms(kind) && InOrder(lens, w) && |w| > 0 && 1 <= root <= MAXBITS
    requires Complete(lens) || (Fits(lens) && AtMostOneBit(lens) && root == 1 && next == 0 && curr == 1)
    requires used == next + Pow2(curr) && Pow2(root) <= used <= |t0|
    requires Entered(t0, root, kind, lens, w, |w|) && Linked(t0, root, lens, w, |w|, next, curr, low)
    requires w[|w| - 1] < |lens| && huff == RevNext(CodeOf(lens, w[|w| - 1]), lens[w[|w| - 1]])
    requires huff == 0 ==> t == t0
    requires huff != 0 ==> next + huff < |t0| && t == t0[next + huff := INVALID]
    ensures Decodes(t[..used], root, kind, lens)
    ensures AllWithin(lens, root) ==> Flat(t[..used], root)
  {
    hide InOrder, Entered, Linked, CodeOf, RevNext, Decodes, Kraft, AllWithin;
    AfterLast(lens, w);
    if Complete(lens) {
      if AllWithin(lens, root) {
        FilledFlat(t, used, root, kind, lens, w);
      }
      FilledComplete(t, used, root, kind, lens, w, next, curr, low);
    } else {
      assert Pow2(1) == 2;
      FilledSingle(t0, t, kind, lens, w);
    }
  }
}
