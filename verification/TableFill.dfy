/**
 The invariant of table filling: what is in the table after the first k codes have been
 entered, and why entering the next code or opening a new sub-table keeps it.
 All lemmas are about table contents as values.
 */
module TableFill {
  import opened Bits
  import opened Canonical
  import opened TableSpec

  // ---------- stepping through the codes, bit-reversed ----------

  lemma MsbBitsSplit(c: nat, n: nat)
    requires n > 0
    ensures MsbBits(c, n) == MsbBits(c / 2, n - 1) + [c % 2 == 1]
  {
    forall i | 0 <= i < n - 1 ensures MsbBits(c, n)[i] == MsbBits(c / 2, n - 1)[i] {
      BitOfShift(c, 1, n - 2 - i);
    }
    assert MsbBits(c, n)[n - 1] == Bit(c, 0);
  }

  lemma {:induction false} ToIntAppend(bs: seq<bool>, b: bool)
    ensures ToInt(bs + [b]) == ToInt(bs) + if b then Pow2(|bs|) else 0
  {
    if |bs| == 0 {
      assert bs + [b] == [b];
      assert [b][1..] == [];
    } else {
      ToIntAppend(bs[1..], b);
      assert (bs + [b])[1..] == bs[1..] + [b];
    }
  }

  /** Code c of n bits, reversed into the accumulator's bit order. */
  function Rev(c: nat, n: nat): nat {
    ToInt(MsbBits(c, n))
  }

  lemma RevSplit(c: nat, n: nat)
    requires n > 0
    ensures Rev(c, n) == Rev(c / 2, n - 1) + if c % 2 == 1 then Pow2(n - 1) else 0
    ensures Rev(c / 2, n - 1) < Pow2(n - 1)
    ensures Bit(Rev(c, n), n - 1) == (c % 2 == 1)
    ensures Low(Rev(c, n), n - 1) == Rev(c / 2, n - 1)
  {
    MsbBitsSplit(c, n);
    ToIntAppend(MsbBits(c / 2, n - 1), c % 2 == 1);
    ToBitsToInt(MsbBits(c / 2, n - 1));
    var b := c % 2;
    ShlAdd(0, 0, n - 1);
    Append(Rev(c / 2, n - 1), n - 1, b);
  }

  /** Lengthening a code by zero bits leaves the reversed code as it is. */
  lemma {:induction false} RevExtend(c: nat, n: nat, d: nat)
    ensures Rev(Shl(c, d), n + d) == Rev(c, n)
  {
    if d > 0 {
      RevExtend(c, n, d - 1);
      RevSplit(Shl(c, d), n + d);
    }
  }

  /** The reversed successor of code c, zero when c is all ones. */
  function RevNext(c: nat, n: nat): nat {
    if c + 1 < Pow2(n) then Rev(c + 1, n) else 0
  }

  /** Increments the n-bit code c held bit-reversed in huff. */
  method BackIncrement(huff: nat, n: nat, ghost c: nat) returns (r: nat)
    requires c < Pow2(n) && huff == Rev(c, n)
    ensures r == RevNext(c, n)
  {
    hide Low, Shr, ToInt, MsbBits, ToBits;
    var m: nat := n;   // the bit under test is m - 1
    ghost var x: nat := c;
    ToBitsToInt(MsbBits(c, n));
    LowOfSmall(huff, n);
    while m > 0 && Bit(huff, m - 1)
      invariant m <= n && x < Pow2(m)
      invariant Low(huff, m) == Rev(x, m)
      invariant RevNext(x, m) == RevNext(c, n)
    {
      BitOfLow(huff, m, m - 1);
      RevSplit(x, m);
      LowLow(huff, m - 1, m);
      if x + 1 < Pow2(m) {
        RevSplit(x + 1, m);
      }
      x := x / 2;
      m := m - 1;
    }
    if m > 0 {
      BitOfLow(huff, m, m - 1);
      RevSplit(x, m);
      RevSplit(x + 1, m);
      LowLow(huff, m - 1, m);
      r := Low(huff, m - 1) + Pow2(m - 1);
    } else {
      r := 0;
    }
  }

  lemma ShrShl(x: nat, n: nat)
    ensures Shr(Shl(x, n), n) == x
  {
    Append(0, n, x);
  }

  lemma ScaledPow2(c: nat, l: nat)
    requires l <= MAXBITS
    ensures Shl(c + 1, MAXBITS - l) == Shl(c, MAXBITS - l) + Pow2(MAXBITS - l)
    ensures Shl(c + 1, MAXBITS - l) < Pow2(MAXBITS) <==> c + 1 < Pow2(l)
  {
    hide Shl, Pow2;
    ShlAdd(c, 1, MAXBITS - l);
    ShlPow2(l, MAXBITS - l);
    if c + 1 < Pow2(l) {
      ShlMono(c + 1, Pow2(l), MAXBITS - l);
    } else {
      ShlMono(Pow2(l), c + 1, MAXBITS - l);
    }
  }

  lemma ScaledEqual(c: nat, l: nat, d: nat, m: nat)
    requires l <= m <= MAXBITS && Shl(c, MAXBITS - l) == Shl(d, MAXBITS - m)
    ensures d == Shl(c, m - l)
  {
    ShlShl(c, m - l, MAXBITS - m);
    ShrShl(d, MAXBITS - m);
    ShrShl(Shl(c, m - l), MAXBITS - m);
  }

  /** The successor of one code is, reversed, the code that begins where it ends. */
  lemma NextHuff(lens: seq<nat>, s: nat, t: nat)
    requires Fits(lens) && s < |lens| && t < |lens| && 0 < lens[s] <= lens[t]
    requires Finish(lens, s) == Start(lens, t)
    ensures Huff(lens, t) == RevNext(CodeOf(lens, s), lens[s])
  {
    hide Shl, Pow2, CodeOf, MsbBits;
    var l, c, m := lens[s], CodeOf(lens, s), lens[t];
    IntervalInLevel(lens, t);
    ScaledPow2(c, l);
    assert c + 1 < Pow2(l);
    ScaledEqual(c + 1, l, CodeOf(lens, t), m);
    RevExtend(c + 1, l, m - l);
    assert Rev(CodeOf(lens, t), m) == Rev(c + 1, l);
  }

  /** The last code of a complete set is all ones. */
  lemma LastHuff(lens: seq<nat>, s: nat)
    requires Complete(lens) && s < |lens| && 0 < lens[s] && Finish(lens, s) == Kraft(lens)
    ensures RevNext(CodeOf(lens, s), lens[s]) == 0
  {
    ScaledPow2(CodeOf(lens, s), lens[s]);
  }

  // ---------- root prefixes of long codes ----------

  lemma {:induction false} ShrMono(x: nat, y: nat, n: nat)
    requires x <= y
    ensures Shr(x, n) <= Shr(y, n)
  {
    if n > 0 {
      ShrMono(x / 2, y / 2, n - 1);
    }
  }

  /** The root-table index a code of length at least root goes through. */
  function Slot(lens: seq<nat>, s: nat, root: nat): nat
    requires s < |lens|
  {
    Low(Huff(lens, s), root)
  }

  lemma SlotPrefix(lens: seq<nat>, s: nat, root: nat)
    requires Fits(lens) && s < |lens| && root <= lens[s] && lens[s] > 0
    ensures Read(Huff(lens, s), root) == Shr(Start(lens, s), MAXBITS - root)
  {
    hide Shl, Shr, Pow2, CodeOf, Huff, Read, Kraft;
    var l := lens[s];
    HuffRead(lens, s);
    ReadPrefix(Huff(lens, s), root, l);
    ShrShl(CodeOf(lens, s), MAXBITS - l);
    ShrShr(Start(lens, s), MAXBITS - l, l - root);
  }

  lemma SameSlot(lens: seq<nat>, s: nat, t: nat, root: nat)
    requires Fits(lens) && s < |lens| && t < |lens|
    requires root <= lens[s] && root <= lens[t] && lens[s] > 0 && lens[t] > 0
    ensures Slot(lens, s, root) == Slot(lens, t, root)
       <==> Shr(Start(lens, s), MAXBITS - root) == Shr(Start(lens, t), MAXBITS - root)
  {
    SlotPrefix(lens, s, root);
    SlotPrefix(lens, t, root);
    ReadLow(Huff(lens, s), Huff(lens, t), root);
  }

  /** An interval of a long code stays within the block of its root prefix. */
  lemma WithinBlock(lens: seq<nat>, s: nat, root: nat)
    requires ValidLens(lens) && s < |lens| && root <= lens[s]
    ensures Finish(lens, s) <= Shl(Shr(Start(lens, s), MAXBITS - root) + 1, MAXBITS - root)
  {
    hide Shl, Shr, Pow2, CodeOf;
    var l, c := lens[s], CodeOf(lens, s);
    ShrShl(c, MAXBITS - l);
    ShrShr(Start(lens, s), MAXBITS - l, l - root);
    var q := Shr(c, l - root);
    ShrInterval(c, l - root, q);
    ShlAdd(q, 1, l - root);
    ShlMono(c + 1, Shl(q + 1, l - root), MAXBITS - l);
    ShlAdd(c, 1, MAXBITS - l);
    ShlShl(q + 1, l - root, MAXBITS - l);
  }

  /** Does the code at position k open a new sub-table? */
  ghost predicate OpensSlot(lens: seq<nat>, w: seq<nat>, k: nat, root: nat) {
    && 1 <= k < |w| && w[k - 1] < |lens| && w[k] < |lens|
    && root < lens[w[k]]
    && (lens[w[k - 1]] <= root || Slot(lens, w[k - 1], root) != Slot(lens, w[k], root))
  }

  /** Where a slot opens, its block of codes begins. */
  lemma OpensAligned(lens: seq<nat>, w: seq<nat>, k: nat, root: nat)
    requires Fits(lens) && InOrder(lens, w) && OpensSlot(lens, w, k, root)
    ensures Start(lens, w[k]) == Shl(Shr(Start(lens, w[k]), MAXBITS - root), MAXBITS - root)
  {
    hide Shr, Shl, Pow2, InOrder, CodeOf, Slot;
    var s, t := w[k], w[k - 1];
    SymbolAt(lens, w, k);
    SymbolAt(lens, w, k - 1);
    Adjacent(lens, w, k);
    var p := Shr(Start(lens, s), MAXBITS - root);
    if lens[t] <= root {
      var m, c := lens[t], CodeOf(lens, t);
      ShlAdd(c, 1, MAXBITS - m);
      ShlShl(c + 1, root - m, MAXBITS - root);
      ShrShl(Shl(c + 1, root - m), MAXBITS - root);
    } else {
      SameSlot(lens, s, t, root);
      WithinBlock(lens, t, root);
      var q := Shr(Start(lens, t), MAXBITS - root);
      ShrMono(Start(lens, t), Start(lens, s), MAXBITS - root);
      ShrInterval(Start(lens, s), MAXBITS - root, p);
      ShlMono(q + 1, p, MAXBITS - root);
    }
  }

  /** A slot that opens is new: no earlier code goes through it. */
  lemma OpensFresh(lens: seq<nat>, w: seq<nat>, k: nat, root: nat, j: nat)
    requires Fits(lens) && InOrder(lens, w) && OpensSlot(lens, w, k, root) && j < k
    ensures w[j] < |lens|
    ensures root < lens[w[j]] ==> Slot(lens, w[j], root) != Slot(lens, w[k], root)
  {
    SymbolAt(lens, w, j);
    SymbolAt(lens, w, k);
    if root < lens[w[j]] {
      Ordered'(lens, w, j, k);
      WithinBlock(lens, w[j], root);
      OpensAligned(lens, w, k, root);
      SameSlot(lens, w[j], w[k], root);
      var q := Shr(Start(lens, w[j]), MAXBITS - root);
      ShrInterval(Start(lens, w[j]), MAXBITS - root, q);
      ShlMono(q, q, MAXBITS - root);
    }
  }

  lemma Ordered'(lens: seq<nat>, w: seq<nat>, j: nat, k: nat)
    requires ValidLens(lens) && InOrder(lens, w) && j < k < |w|
    ensures w[j] < |lens| && w[k] < |lens| && lens[w[j]] > 0
    ensures lens[w[j]] <= lens[w[k]]
    ensures Finish(lens, w[j]) <= Start(lens, w[k])
    ensures w[j] != w[k]
  {
    SymbolAt(lens, w, j);
    PositionsOrdered(lens, w, j, k);
    Ordered(lens, w[j], w[k]);
  }

  // ---------- table contents ----------

  /** The stream h, which starts with the code of s, is resolved. */
  ghost predicate EntryOk(t: seq<Code>, root: nat, kind: Kind, lens: seq<nat>, s: nat, h: nat)
    requires s < |lens| && s < MaxSyms(kind) && Pow2(root) <= |t|
  {
    Split(h, root);
    var e := t[Low(h, root)];
    if lens[s] <= root then
      e == SymCode(kind, s, lens[s])
    else
      Split(Shr(h, root), e.op);
      && IsLink(e) && e.bits == root && e.val + Pow2(e.op) <= |t|
      && t[e.val + Low(Shr(h, root), e.op)] == SymCode(kind, s, lens[s] - root)
  }

  /** The first k codes are in the table. */
  ghost predicate Entered(t: seq<Code>, root: nat, kind: Kind, lens: seq<nat>, w: seq<nat>, k: nat)
    requires k <= |w| && |lens| <= MaxSyms(kind) && Pow2(root) <= |t|
  {
    forall j: nat, h: nat {:trigger Matches(lens, w[j], h)} ::
      j < k && Matches(lens, w[j], h) ==> EntryOk(t, root, kind, lens, w[j], h)
  }

  /** The long code s goes through a link; current links lead to the table at next, older ones below it. */
  ghost predicate LinkOk(t: seq<Code>, root: nat, lens: seq<nat>, s: nat, next: nat, curr: nat, low: nat)
    requires s < |lens| && Pow2(root) <= |t|
  {
    Split(Huff(lens, s), root);
    var lo := Slot(lens, s, root);
    var e := t[lo];
    && IsLink(e) && e.bits == root && Pow2(root) <= e.val && lens[s] - root <= e.op
    && (if lo == low then e.val == next && e.op == curr else e.val + Pow2(e.op) <= next)
  }

  ghost predicate Linked(t: seq<Code>, root: nat, lens: seq<nat>, w: seq<nat>, k: nat, next: nat, curr: nat, low: nat)
    requires k <= |w| && Pow2(root) <= |t|
  {
    forall j: nat {:trigger w[j]} :: j < k && w[j] < |lens| && root < lens[w[j]] ==>
      LinkOk(t, root, lens, w[j], next, curr, low)
  }

  /** here has been copied to the entries at off whose low n index bits are idx. */
  ghost predicate Copied(t0: seq<Code>, t1: seq<Code>, off: nat, curr: nat, n: nat, idx: nat, here: Code) {
    && |t1| == |t0| && off + Pow2(curr) <= |t0|
    && forall i: nat {:trigger t1[i]} :: i < |t0| ==>
         t1[i] == if off <= i < off + Pow2(curr) && Low(i - off, n) == idx then here else t0[i]
  }

  lemma EnterShort(t0: seq<Code>, t1: seq<Code>, root: nat, kind: Kind, lens: seq<nat>, w: seq<nat>, k: nat)
    requires Fits(lens) && InOrder(lens, w) && |lens| <= MaxSyms(kind) && k < |w|
    requires w[k] < |lens| && 0 < lens[w[k]] <= root && Pow2(root) <= |t0|
    requires Entered(t0, root, kind, lens, w, k)
    requires Copied(t0, t1, 0, root, lens[w[k]], Huff(lens, w[k]), SymCode(kind, w[k], lens[w[k]]))
    ensures Entered(t1, root, kind, lens, w, k + 1)
  {
    hide Low, Shr, Shl, Pow2, Huff, SymCode, InOrder;
    var s := w[k];
    forall j: nat, h: nat | j < k + 1 && Matches(lens, w[j], h) ensures EntryOk(t1, root, kind, lens, w[j], h) {
      Split(h, root);
      LowLow(h, lens[s], root);
      if j < k {
        assert EntryOk(t0, root, kind, lens, w[j], h);
        Ordered'(lens, w, j, k);
        if Matches(lens, s, h) {
          PrefixFree(lens, s, w[j], h);
        }
      }
    }
  }

  lemma LinkSlot(lens: seq<nat>, s: nat, h: nat, root: nat)
    requires Fits(lens) && Matches(lens, s, h) && root < lens[s]
    ensures Low(h, root) == Slot(lens, s, root)
    ensures Low(Shr(h, root), lens[s] - root) == Shr(Huff(lens, s), root)
  {
    HuffRead(lens, s);
    LowLow(h, root, lens[s]);
    LowSplit(h, root, lens[s] - root);
  }

  lemma EnterLong(t0: seq<Code>, t1: seq<Code>, root: nat, kind: Kind, lens: seq<nat>, w: seq<nat>, k: nat,
                  next: nat, curr: nat, low: nat)
    requires Fits(lens) && InOrder(lens, w) && |lens| <= MaxSyms(kind) && k < |w|
    requires w[k] < |lens| && root < lens[w[k]] <= root + curr && curr < 16 && low == Slot(lens, w[k], root)
    requires Pow2(root) <= next && next + Pow2(curr) <= |t0|
    requires low < Pow2(root) && t0[low] == Code(curr, root, next)
    requires Entered(t0, root, kind, lens, w, k) && Linked(t0, root, lens, w, k, next, curr, low)
    requires Copied(t0, t1, next, curr, lens[w[k]] - root, Shr(Huff(lens, w[k]), root),
                    SymCode(kind, w[k], lens[w[k]] - root))
    ensures Entered(t1, root, kind, lens, w, k + 1)
    ensures Linked(t1, root, lens, w, k + 1, next, curr, low)
    ensures t1[low] == t0[low]
  {
    hide Low, Shr, Shl, Pow2, Huff, SymCode, InOrder;
    var s := w[k];
    forall j: nat | j < k + 1 && w[j] < |lens| && root < lens[w[j]]
      ensures LinkOk(t1, root, lens, w[j], next, curr, low)
    {
      Split(Huff(lens, w[j]), root);
      if j < k {
        assert LinkOk(t0, root, lens, w[j], next, curr, low);
      }
    }
    forall j: nat, h: nat | j < k + 1 && Matches(lens, w[j], h) ensures EntryOk(t1, root, kind, lens, w[j], h) {
      if j < k {
        Ordered'(lens, w, j, k);
        assert EntryOk(t0, root, kind, lens, w[j], h);
        if root < lens[w[j]] {
          assert LinkOk(t0, root, lens, w[j], next, curr, low);
          KeepLong(t0, t1, root, kind, lens, s, w[j], next, curr, low, h);
        } else {
          Split(h, root);
        }
      } else {
        NewLong(t0, t1, root, kind, lens, s, next, curr, low, h);
      }
    }
  }

  /** The long code s, once entered, is found. */
  lemma NewLong(t0: seq<Code>, t1: seq<Code>, root: nat, kind: Kind, lens: seq<nat>, s: nat,
                next: nat, curr: nat, low: nat, h: nat)
    requires Fits(lens) && |lens| <= MaxSyms(kind) && s < |lens|
    requires root < lens[s] <= root + curr && 0 < curr < 16 && low == Slot(lens, s, root)
    requires Pow2(root) <= next && next + Pow2(curr) <= |t0|
    requires low < Pow2(root) && t0[low] == Code(curr, root, next)
    requires Matches(lens, s, h)
    requires Copied(t0, t1, next, curr, lens[s] - root, Shr(Huff(lens, s), root), SymCode(kind, s, lens[s] - root))
    ensures EntryOk(t1, root, kind, lens, s, h)
  {
    hide Low, Shr, Shl, Pow2, Matches, Huff;
    Split(h, root);
    LinkSlot(lens, s, h, root);
    assert t1[low] == t0[low];
    Split(Shr(h, root), curr);
    LowLow(Shr(h, root), lens[s] - root, curr);
    var i := next + Low(Shr(h, root), curr);
    assert Low(i - next, lens[s] - root) == Shr(Huff(lens, s), root);
    assert t1[i] == SymCode(kind, s, lens[s] - root);
  }

  lemma JoinMatch(lens: seq<nat>, s: nat, h: nat, root: nat)
    requires s < |lens| && root < lens[s]
    requires Low(h, root) == Slot(lens, s, root)
    requires Low(Shr(h, root), lens[s] - root) == Shr(Huff(lens, s), root)
    ensures Matches(lens, s, h)
  {
    LowSplit(h, root, lens[s] - root);
    Split(Huff(lens, s), root);
  }

  /** Entering the long code s does not disturb the long code u. */
  lemma KeepLong(t0: seq<Code>, t1: seq<Code>, root: nat, kind: Kind, lens: seq<nat>, s: nat, u: nat,
                 next: nat, curr: nat, low: nat, h: nat)
    requires Fits(lens) && |lens| <= MaxSyms(kind) && s < |lens| && s != u
    requires root < lens[s] <= root + curr && curr < 16 && low == Slot(lens, s, root)
    requires Pow2(root) <= next && next + Pow2(curr) <= |t0|
    requires Matches(lens, u, h) && root < lens[u]
    requires EntryOk(t0, root, kind, lens, u, h) && LinkOk(t0, root, lens, u, next, curr, low)
    requires Copied(t0, t1, next, curr, lens[s] - root, Shr(Huff(lens, s), root), SymCode(kind, s, lens[s] - root))
    ensures EntryOk(t1, root, kind, lens, u, h)
  {
    hide Low, Shr, Shl, Pow2, Matches, Huff, Slot, SymCode, Start, Fits;
    var n := lens[s] - root;
    Split(h, root);
    LinkSlot(lens, u, h, root);
    var e := t0[Low(h, root)];
    assert t1[Low(h, root)] == e;
    Split(Shr(h, root), e.op);
    var i := e.val + Low(Shr(h, root), e.op);
    if Low(h, root) == low && Low(i - next, n) == Shr(Huff(lens, s), root) {
      // the same sub-table entry: then h would start with the code of s as well
      assert e.val == next && e.op == curr;
      assert i - next == Low(Shr(h, root), curr);
      LowLow(Shr(h, root), n, curr);
      JoinMatch(lens, s, h, root);
      PrefixFree(lens, s, u, h);
    }
    assert t1[i] == t0[i];
  }

  /** Opening a sub-table for the code at position k keeps the codes entered before. */
  lemma OpenTable(t0: seq<Code>, t1: seq<Code>, root: nat, kind: Kind, lens: seq<nat>, w: seq<nat>, k: nat,
                  next: nat, curr: nat, low: nat, next': nat, curr': nat)
    requires Fits(lens) && InOrder(lens, w) && |lens| <= MaxSyms(kind) && Pow2(root) <= |t0|
    requires OpensSlot(lens, w, k, root)
    requires next' == next + Pow2(curr) && Pow2(root) <= next'
    requires Slot(lens, w[k], root) < Pow2(root)
    requires t1 == t0[Slot(lens, w[k], root) := Code(curr', root, next')]
    requires Entered(t0, root, kind, lens, w, k) && Linked(t0, root, lens, w, k, next, curr, low)
    ensures Entered(t1, root, kind, lens, w, k)
    ensures Linked(t1, root, lens, w, k, next', curr', Slot(lens, w[k], root))
  {
    hide Low, Shr, Shl, Pow2, Huff, SymCode, Fits, InOrder;
    var s := w[k];
    var lo := Slot(lens, s, root);
    SymbolAt(lens, w, k);
    forall j: nat | j < k && w[j] < |lens| && root < lens[w[j]]
      ensures LinkOk(t1, root, lens, w[j], next', curr', lo)
    {
      OpensFresh(lens, w, k, root, j);
      assert LinkOk(t0, root, lens, w[j], next, curr, low);
      Split(Huff(lens, w[j]), root);
    }
    forall j: nat, h: nat | j < k && Matches(lens, w[j], h) ensures EntryOk(t1, root, kind, lens, w[j], h) {
      assert EntryOk(t0, root, kind, lens, w[j], h);
      Split(h, root);
      OpensFresh(lens, w, k, root, j);
      if root < lens[w[j]] {
        assert LinkOk(t0, root, lens, w[j], next, curr, low);
        LinkSlot(lens, w[j], h, root);
        Split(Shr(h, root), t0[Low(h, root)].op);
      } else if Low(h, root) == lo {
        // a short code that led here would be a prefix of the code of s
        HuffRead(lens, s);
        LowLow(h, lens[w[j]], root);
        LowLow(Huff(lens, s), lens[w[j]], root);
        LowOfSmall(Huff(lens, s), lens[s]);
        assert Matches(lens, w[j], Huff(lens, s)) && Matches(lens, s, Huff(lens, s));
        PrefixFree(lens, s, w[j], Huff(lens, s));
        Ordered'(lens, w, j, k);
      }
    }
  }
}
