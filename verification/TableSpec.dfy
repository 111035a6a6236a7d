/**
 Two-level decoding tables: what an entry means, what a lookup returns, and what it is
 for a table to decode a canonical code.
 */
module TableSpec {
  import opened Bits
  import opened Canonical

  /** A decoding table entry: operation, bits of code it accounts for, value. */
  datatype Code = Code(op: nat, bits: nat, val: nat)

  datatype Kind = CODES | LENS | DISTS

  const ENOUGH_LENS := 852
  const ENOUGH_DISTS := 592

  const LBASE: seq<nat> :=
    [3, 4, 5, 6, 7, 8, 9, 10, 11, 13, 15, 17, 19, 23, 27, 31,
     35, 43, 51, 59, 67, 83, 99, 115, 131, 163, 195, 227, 258, 0, 0]
  const LEXT: seq<nat> :=
    [16, 16, 16, 16, 16, 16, 16, 16, 17, 17, 17, 17, 18, 18, 18, 18,
     19, 19, 19, 19, 20, 20, 20, 20, 21, 21, 21, 21, 16, 203, 77]
  const DBASE: seq<nat> :=
    [1, 2, 3, 4, 5, 7, 9, 13, 17, 25, 33, 49, 65, 97, 129, 193,
     257, 385, 513, 769, 1025, 1537, 2049, 3073, 4097, 6145,
     8193, 12289, 16385, 24577, 0, 0]
  const DEXT: seq<nat> :=
    [16, 16, 16, 16, 17, 17, 18, 18, 19, 19, 20, 20, 21, 21, 22, 22,
     23, 23, 24, 24, 25, 25, 26, 26, 27, 27,
     28, 28, 29, 29, 64, 64]

  /** The number of symbols the base and extra tables cover. */
  function MaxSyms(kind: Kind): nat {
    match kind
    case CODES => 19
    case LENS => 288
    case DISTS => 32
  }

  /** The entry for symbol s with n bits still to drop. */
  function SymCode(kind: Kind, s: nat, n: nat): (e: Code)
    requires s < MaxSyms(kind)
    ensures e.op == 0 || e.op >= 16
  {
    match kind
    case CODES => Code(0, n, s)
    case LENS =>
      if s < 256 then Code(0, n, s)
      else if s == 256 then Code(96, n, 0)
      else Code(LEXT[s - 257], n, LBASE[s - 257])
    case DISTS => Code(DEXT[s], n, DBASE[s])
  }

  const INVALID := Code(64, 1, 0)

  /** The entry points to a sub-table of 2^op entries at val. */
  predicate IsLink(e: Code) {
    0 < e.op < 16
  }

  /** The entry found for the stream held in h, in at most two steps; bits is the total to drop. */
  function Lookup(t: seq<Code>, root: nat, h: nat): Code
    requires Pow2(root) <= |t|
  {
    Split(h, root);
    var e := t[Low(h, root)];
    Split(Shr(h, e.bits), e.op);
    if IsLink(e) && e.val + Pow2(e.op) <= |t| then
      var e2 := t[e.val + Low(Shr(h, e.bits), e.op)];
      Code(e2.op, e.bits + e2.bits, e2.val)
    else e
  }

  ghost predicate LinksInside(t: seq<Code>, root: nat) {
    Pow2(root) <= |t| &&
    forall i :: 0 <= i < Pow2(root) && IsLink(t[i]) ==>
                  t[i].bits == root && t[i].val + Pow2(t[i].op) <= |t|
  }

  /** Lookups in t resolve every stream as the canonical code of lens does. */
  ghost predicate Decodes(t: seq<Code>, root: nat, kind: Kind, lens: seq<nat>) {
    && |lens| <= MaxSyms(kind)
    && 1 <= root <= MAXBITS
    && LinksInside(t, root)
    && (forall s: nat, h: nat :: Matches(lens, s, h) ==> Lookup(t, root, h) == SymCode(kind, s, lens[s]))
    && (forall h: nat :: Unmatched(lens, h) ==> Lookup(t, root, h) == INVALID)
  }

  /** The table has no sub-tables. */
  ghost predicate Flat(t: seq<Code>, root: nat) {
    Pow2(root) <= |t| && forall i :: 0 <= i < Pow2(root) ==> !IsLink(t[i])
  }

  ghost predicate Unmatched(lens: seq<nat>, h: nat) {
    forall s: nat :: !Matches(lens, s, h)
  }

  /** No symbol longer than one bit. */
  predicate AtMostOneBit(lens: seq<nat>) {
    forall i :: 0 <= i < |lens| ==> lens[i] <= 1
  }

  ghost predicate AllWithin(lens: seq<nat>, root: nat) {
    forall i :: 0 <= i < |lens| ==> lens[i] <= root
  }

  predicate NoSymbols(lens: seq<nat>) {
    forall i :: 0 <= i < |lens| ==> lens[i] == 0
  }

  /** The sets of lengths that are refused: over-subscribed, or incomplete and not a lone 1-bit code. */
  ghost predicate Refused(kind: Kind, lens: seq<nat>)
    requires ValidLens(lens)
  {
    || Kraft(lens) > Pow2(MAXBITS)
    || (Kraft(lens) < Pow2(MAXBITS) && !NoSymbols(lens) && (kind.CODES? || !AtMostOneBit(lens)))
  }

  // ---------- symbols in code order ----------

  /** Position of the first symbol of length l when sorted by (length, symbol). */
  function Offs(lens: seq<nat>, l: nat): nat {
    if l <= 1 then 0 else Offs(lens, l - 1) + Count(lens, l - 1)
  }

  lemma {:induction false} OffsMono(lens: seq<nat>, l: nat, m: nat)
    requires l <= m
    ensures Offs(lens, l) <= Offs(lens, m)
    ensures 1 <= l < m ==> Offs(lens, l) + Count(lens, l) <= Offs(lens, m)
  {
    if l < m {
      OffsMono(lens, l, m - 1);
    }
  }

  /** w has symbol r of length l where the order by (length, symbol) puts it. */
  ghost predicate InPlace(lens: seq<nat>, w: seq<nat>, l: nat, r: nat) {
    r < Count(lens, l) && Offs(lens, l) + r < |w| && w[Offs(lens, l) + r] == SymAt(lens, l, r)
  }

  /** w lists the coded symbols in order of (length, symbol). */
  ghost predicate InOrder(lens: seq<nat>, w: seq<nat>) {
    && |w| == Offs(lens, MAXBITS + 1)
    && forall l: nat, r: nat {:trigger InPlace(lens, w, l, r)} :: 1 <= l <= MAXBITS && r < Count(lens, l) ==>
        InPlace(lens, w, l, r)
  }

  /** The length and rank at position k. */
  lemma {:induction false} AtPosition(lens: seq<nat>, w: seq<nat>, k: nat, m: nat)
    requires InOrder(lens, w) && m <= MAXBITS + 1 && k < Offs(lens, m)
    ensures k < |w| && w[k] < |lens| && 1 <= lens[w[k]] < m
    ensures k == Offs(lens, lens[w[k]]) + Count(lens[..w[k]], lens[w[k]])
  {
    OffsMono(lens, m, MAXBITS + 1);
    if k < Offs(lens, m - 1) {
      AtPosition(lens, w, k, m - 1);
    } else {
      var l, r := m - 1, k - Offs(lens, m - 1);
      assert InPlace(lens, w, l, r);
    }
  }

  lemma SymbolAt(lens: seq<nat>, w: seq<nat>, k: nat)
    requires InOrder(lens, w) && k < |w|
    ensures w[k] < |lens| && 1 <= lens[w[k]] <= MAXBITS
    ensures k == Offs(lens, lens[w[k]]) + Count(lens[..w[k]], lens[w[k]])
  {
    AtPosition(lens, w, k, MAXBITS + 1);
  }

  /** Every coded symbol has its position. */
  lemma PositionOf(lens: seq<nat>, w: seq<nat>, s: nat) returns (k: nat)
    requires InOrder(lens, w) && s < |lens| && 1 <= lens[s] <= MAXBITS
    ensures k < |w| && w[k] == s
  {
    var l, r := lens[s], Count(lens[..s], lens[s]);
    RankBelowCount(lens, s);
    k := Offs(lens, l) + r;
    assert InPlace(lens, w, l, r);
    RankInjective(lens, s, w[k]);
  }

  /** Order of positions is order of codes. */
  lemma PositionsOrdered(lens: seq<nat>, w: seq<nat>, j: nat, k: nat)
    requires InOrder(lens, w) && j < k < |w|
    ensures w[j] < |lens| && w[k] < |lens|
    ensures Before(lens, w[j], w[k])
  {
    SymbolAt(lens, w, j);
    SymbolAt(lens, w, k);
    if lens[w[k]] < lens[w[j]] {
      RankBelowCount(lens, w[k]);
      OffsMono(lens, lens[w[k]], lens[w[j]]);
    } else if lens[w[k]] == lens[w[j]] && w[k] <= w[j] {
      CountPrefix(lens, w[k], w[j], lens[w[j]]);
    }
  }

  lemma {:induction false} EmptyLevels(lens: seq<nat>, l: nat, m: nat)
    requires 1 <= l <= m <= MAXBITS
    requires Offs(lens, m) == Offs(lens, l)
    ensures Shl(NextCode(lens, m), MAXBITS - m) == Shl(NextCode(lens, l), MAXBITS - l)
  {
    if l < m {
      OffsMono(lens, l, m - 1);
      EmptyLevels(lens, l, m - 1);
      ShlDouble(NextCode(lens, m - 1), MAXBITS - m);
    }
  }

  /** The codes of neighbouring positions are adjacent; the first is zero. */
  lemma Adjacent(lens: seq<nat>, w: seq<nat>, k: nat)
    requires ValidLens(lens) && InOrder(lens, w) && k < |w|
    ensures w[k] < |lens|
    ensures k == 0 ==> Start(lens, w[k]) == 0
    ensures k > 0 ==> w[k - 1] < |lens| && Start(lens, w[k]) == Finish(lens, w[k - 1])
  {
    hide Shl, Pow2, InOrder, Count, Offs, CodeOf, Start, Finish;
    SymbolAt(lens, w, k);
    if k == 0 {
      StartsAtZero(lens, w[k]);
    } else {
      SymbolAt(lens, w, k - 1);
      PositionsOrdered(lens, w, k - 1, k);
      if lens[w[k - 1]] < lens[w[k]] {
        NextLonger(lens, w[k - 1], w[k]);
      } else {
        NextSameLength(lens, w[k - 1], w[k]);
      }
    }
  }

  lemma StartsAtZero(lens: seq<nat>, s: nat)
    requires s < |lens| && 1 <= lens[s] <= MAXBITS && Offs(lens, lens[s]) + Count(lens[..s], lens[s]) == 0
    ensures Start(lens, s) == 0
  {
    hide Shl, Pow2, Count;
    EmptyLevels(lens, 1, lens[s]);
    ShlAdd(0, 0, MAXBITS - lens[s]);
    ShlAdd(0, 0, MAXBITS - 1);
  }

  lemma NextSameLength(lens: seq<nat>, t: nat, s: nat)
    requires s < |lens| && t < |lens| && lens[t] == lens[s] <= MAXBITS
    requires Count(lens[..s], lens[s]) == Count(lens[..t], lens[t]) + 1
    ensures Start(lens, s) == Finish(lens, t)
  {
    hide Shl, Pow2, Count, NextCode;
    ShlAdd(CodeOf(lens, t), 1, MAXBITS - lens[t]);
  }

  /** The first code of a length starts where the last code of the length before it ends. */
  lemma NextLonger(lens: seq<nat>, t: nat, s: nat)
    requires ValidLens(lens) && s < |lens| && t < |lens| && 1 <= lens[t] < lens[s] <= MAXBITS
    requires Offs(lens, lens[s]) + Count(lens[..s], lens[s]) == Offs(lens, lens[t]) + Count(lens[..t], lens[t]) + 1
    ensures Start(lens, s) == Finish(lens, t)
  {
    hide Shl, Pow2, Count, NextCode;
    var m, l := lens[t], lens[s];
    ShlAdd(CodeOf(lens, t), 1, MAXBITS - m);
    RankBelowCount(lens, t);
    OffsMono(lens, m, m + 1);
    OffsMono(lens, m + 1, l);
    ShlDouble(Used(lens, m), MAXBITS - (m + 1));
    EmptyLevels(lens, m + 1, l);
    UsedStep(lens, m + 1);
  }

  lemma {:induction false} EmptyAbove(lens: seq<nat>, m: nat, n: nat)
    requires 1 <= m <= n <= MAXBITS
    requires Offs(lens, m + 1) == Offs(lens, n + 1)
    ensures Shl(Used(lens, m), MAXBITS - m) == Shl(Used(lens, n), MAXBITS - n)
  {
    if m < n {
      OffsMono(lens, m + 1, n);
      EmptyAbove(lens, m, n - 1);
      UsedStep(lens, n);
      ShlDouble(Used(lens, n - 1), MAXBITS - n);
    }
  }

  /** The last code ends at the Kraft sum. */
  lemma LastFinish(lens: seq<nat>, w: seq<nat>)
    requires ValidLens(lens) && InOrder(lens, w) && |w| > 0
    ensures w[|w| - 1] < |lens|
    ensures Finish(lens, w[|w| - 1]) == Kraft(lens)
  {
    SymbolAt(lens, w, |w| - 1);
    LastSymbol(lens, w[|w| - 1], MAXBITS);
  }

  lemma LastSymbol(lens: seq<nat>, t: nat, top: nat)
    requires ValidLens(lens) && t < |lens| && 1 <= lens[t] && top == MAXBITS
    requires Offs(lens, lens[t]) + Count(lens[..t], lens[t]) + 1 == Offs(lens, top + 1)
    ensures Finish(lens, t) == Kraft(lens)
  {
    var m := lens[t];
    RankBelowCount(lens, t);
    OffsMono(lens, m + 1, top + 1);
    assert Offs(lens, m + 1) == Offs(lens, m) + Count(lens, m);
    ShlAdd(CodeOf(lens, t), 1, top - m);
    EmptyAbove(lens, m, top);
    KraftUsed(lens);
  }
}
