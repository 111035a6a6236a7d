/**
 Canonical Huffman codes, as section 3.2.2 of RFC 1951 assigns them from code lengths.

 A code of length l is read as the interval of 15-bit strings it is a prefix of:
 `Start(s) <= w < Finish(s)`.  Canonical assignment lays these intervals end to end
 in order of (length, symbol); prefix-freeness and completeness follow from that.
 */
module Canonical {
  import opened Bits

  const MAXBITS := 15

  ghost predicate ValidLens(lens: seq<nat>) {
    forall i :: 0 <= i < |lens| ==> lens[i] <= MAXBITS
  }

  /** The number of symbols of code length l (RFC: bl_count). */
  function Count(lens: seq<nat>, l: nat): (c: nat)
    ensures c <= |lens|
  {
    if lens == [] then 0
    else Count(lens[..|lens| - 1], l) + (if lens[|lens| - 1] == l then 1 else 0)
  }

  /** The smallest code of length l (RFC: next_code). */
  function NextCode(lens: seq<nat>, l: nat): nat {
    if l == 0 then 0
    else 2 * (NextCode(lens, l - 1) + if l == 1 then 0 else Count(lens, l - 1))
  }

  /** The code of symbol s, as a number of lens[s] bits. */
  function CodeOf(lens: seq<nat>, s: nat): nat
    requires s < |lens|
  {
    NextCode(lens, lens[s]) + Count(lens[..s], lens[s])
  }

  /** The code of symbol s in stream order: most significant bit first (RFC section 3.1.1). */
  function CodeBits(lens: seq<nat>, s: nat): (bs: seq<bool>)
    requires s < |lens|
    ensures |bs| == lens[s]
  {
    MsbBits(CodeOf(lens, s), lens[s])
  }

  /** The Kraft sum, scaled so that a complete code weighs exactly 2^15. */
  function Kraft(lens: seq<nat>): nat
    requires ValidLens(lens)
  {
    if lens == [] then 0
    else
      var l := lens[|lens| - 1];
      Kraft(lens[..|lens| - 1]) + if l == 0 then 0 else Pow2(MAXBITS - l)
  }

  // ---------- levels ----------

  /** Codes of length l in use, counting the extensions of shorter codes. */
  function Used(lens: seq<nat>, l: nat): nat {
    if l == 0 then 0 else NextCode(lens, l) + Count(lens, l)
  }

  lemma {:induction false} UsedStep(lens: seq<nat>, l: nat)
    requires l > 0
    ensures NextCode(lens, l) == 2 * Used(lens, l - 1)
  {
  }

  lemma {:induction false} LevelMono(lens: seq<nat>, l: nat, m: nat)
    requires l <= m <= MAXBITS
    ensures Shl(Used(lens, l), MAXBITS - l) <= Shl(Used(lens, m), MAXBITS - m)
    ensures l < m ==> Shl(Used(lens, l), MAXBITS - l) <= Shl(NextCode(lens, m), MAXBITS - m)
  {
    if l < m {
      LevelMono(lens, l, m - 1);
      ShlDouble(Used(lens, m - 1), MAXBITS - m);
      ShlMono(NextCode(lens, m), Used(lens, m), MAXBITS - m);
    }
  }

  lemma {:induction false} ShlDouble(x: nat, n: nat)
    ensures Shl(2 * x, n) == Shl(x, n + 1)
  {
    ShlShl(x, 1, n);
    assert Shl(x, 1) == 2 * Shl(x, 0);
  }

  lemma {:induction false} UsedAppend(lens: seq<nat>, x: nat, l: nat)
    requires x <= MAXBITS && l <= MAXBITS
    ensures Used(lens + [x], l) == Used(lens, l) + if 1 <= x <= l then Pow2(l - x) else 0
  {
    if l > 0 {
      UsedAppend(lens, x, l - 1);
      UsedStep(lens, l);
      UsedStep(lens + [x], l);
      assert (lens + [x])[..|lens|] == lens;
    }
  }

  /** The RFC recurrence computes the Kraft sum. */
  lemma {:induction false} KraftUsed(lens: seq<nat>)
    requires ValidLens(lens)
    ensures Kraft(lens) == Used(lens, MAXBITS)
  {
    if lens == [] {
      UsedEmpty(MAXBITS);
    } else {
      var n := |lens| - 1;
      KraftUsed(lens[..n]);
      UsedAppend(lens[..n], lens[n], MAXBITS);
      assert lens == lens[..n] + [lens[n]];
    }
  }

  lemma {:induction false} UsedEmpty(l: nat)
    ensures Used([], l) == 0
  {
    if l > 0 {
      UsedEmpty(l - 1);
    }
  }

  // ---------- ranks ----------

  lemma {:induction false} CountPrefix(lens: seq<nat>, s: nat, t: nat, l: nat)
    requires s <= t <= |lens|
    ensures Count(lens[..s], l) <= Count(lens[..t], l)
    ensures s < t && lens[s] == l ==> Count(lens[..s], l) < Count(lens[..t], l)
  {
    if s < t {
      CountPrefix(lens, s, t - 1, l);
      assert lens[..t][..t - 1] == lens[..t - 1];
    }
  }

  lemma RankBelowCount(lens: seq<nat>, s: nat)
    requires s < |lens|
    ensures Count(lens[..s], lens[s]) < Count(lens, lens[s])
  {
    CountPrefix(lens, s, |lens|, lens[s]);
    assert lens[..|lens|] == lens;
  }

  /** Among symbols of one length, the rank tells the symbol. */
  lemma RankInjective(lens: seq<nat>, s: nat, t: nat)
    requires s < |lens| && t < |lens| && lens[s] == lens[t]
    requires Count(lens[..s], lens[s]) == Count(lens[..t], lens[t])
    ensures s == t
  {
    if s < t {
      CountPrefix(lens, s, t, lens[s]);
    } else if t < s {
      CountPrefix(lens, t, s, lens[s]);
    }
  }

  /** The symbol of length l and rank r. */
  function SymAt(lens: seq<nat>, l: nat, r: nat): (s: nat)
    requires r < Count(lens, l)
    ensures s < |lens| && lens[s] == l && Count(lens[..s], l) == r
  {
    var n := |lens| - 1;
    if lens[n] == l && r == Count(lens[..n], l) then n
    else
      var s := SymAt(lens[..n], l, r);
      assert lens[..n][..s] == lens[..s];
      s
  }

  // ---------- code intervals ----------

  function Start(lens: seq<nat>, s: nat): nat
    requires s < |lens| && lens[s] <= MAXBITS
  {
    Shl(CodeOf(lens, s), MAXBITS - lens[s])
  }

  function Finish(lens: seq<nat>, s: nat): nat
    requires s < |lens| && lens[s] <= MAXBITS
  {
    Start(lens, s) + Pow2(MAXBITS - lens[s])
  }

  /** An over-subscribed set of lengths has no prefix code. */
  ghost predicate Fits(lens: seq<nat>) {
    ValidLens(lens) && Kraft(lens) <= Pow2(MAXBITS)
  }

  ghost predicate Complete(lens: seq<nat>) {
    ValidLens(lens) && Kraft(lens) == Pow2(MAXBITS)
  }

  lemma IntervalInLevel(lens: seq<nat>, s: nat)
    requires ValidLens(lens) && s < |lens| && lens[s] > 0
    ensures var l := lens[s];
            Shl(NextCode(lens, l), MAXBITS - l) <= Start(lens, s)
            && Finish(lens, s) <= Shl(Used(lens, l), MAXBITS - l)
            && Finish(lens, s) <= Kraft(lens)
  {
    hide Pow2, NextCode, Shl, Kraft, Count;
    var l := lens[s];
    ShlNone(Used(lens, MAXBITS));
    RankBelowCount(lens, s);
    ShlMono(NextCode(lens, l), CodeOf(lens, s), MAXBITS - l);
    ShlMono(CodeOf(lens, s) + 1, Used(lens, l), MAXBITS - l);
    ShlAdd(CodeOf(lens, s), 1, MAXBITS - l);
    LevelMono(lens, l, MAXBITS);
    KraftUsed(lens);
  }

  /** Shorter codes come first; within a length, smaller symbols come first. */
  ghost predicate Before(lens: seq<nat>, s: nat, t: nat)
    requires s < |lens| && t < |lens|
  {
    lens[s] < lens[t] || (lens[s] == lens[t] && s < t)
  }

  lemma Ordered(lens: seq<nat>, s: nat, t: nat)
    requires ValidLens(lens) && s < |lens| && t < |lens| && lens[s] > 0
    requires Before(lens, s, t)
    ensures Finish(lens, s) <= Start(lens, t)
  {
    IntervalInLevel(lens, s);
    IntervalInLevel(lens, t);
    if lens[s] < lens[t] {
      LevelMono(lens, lens[s], lens[t]);
    } else {
      CountPrefix(lens, s, t, lens[s]);
      ShlMono(CodeOf(lens, s) + 1, CodeOf(lens, t), MAXBITS - lens[s]);
      ShlAdd(CodeOf(lens, s), 1, MAXBITS - lens[s]);
    }
  }

  lemma CodeFits(lens: seq<nat>, s: nat)
    requires Fits(lens) && s < |lens| && lens[s] > 0
    ensures CodeOf(lens, s) < Pow2(lens[s])
  {
    hide Shl, Pow2, NextCode, Count;
    IntervalInLevel(lens, s);
    var l := lens[s];
    if CodeOf(lens, s) >= Pow2(l) {
      ShlMono(Pow2(l), CodeOf(lens, s), MAXBITS - l);
      ShlPow2(l, MAXBITS - l);
    }
  }

  // ---------- matching ----------

  /** The first n stream bits of h, read as a number, first bit most significant. */
  function Read(h: nat, n: nat): nat {
    MsbInt(ToBits(h, n))
  }

  /** The code as it sits in the low bits of the accumulator (bit-reversed). */
  function Huff(lens: seq<nat>, s: nat): nat
    requires s < |lens|
  {
    ToInt(CodeBits(lens, s))
  }

  /** The stream held in h starts with the code of s. */
  predicate Matches(lens: seq<nat>, s: nat, h: nat) {
    s < |lens| && lens[s] > 0 && Low(h, lens[s]) == Huff(lens, s)
  }

  lemma ReadPrefix(h: nat, m: nat, n: nat)
    requires m <= n
    ensures Read(h, m) == Shr(Read(h, n), n - m)
    ensures Read(h, n) < Pow2(n)
  {
    MsbIntPrefix(ToBits(h, n), m);
    LowBits(h, n, m);
  }

  lemma ReadLow(g: nat, h: nat, n: nat)
    ensures Read(g, n) == Read(h, n) <==> Low(g, n) == Low(h, n)
  {
    MsbIntInjective(ToBits(g, n), ToBits(h, n));
    ToBitsInjective(g, h, n);
  }

  lemma HuffRead(lens: seq<nat>, s: nat)
    requires Fits(lens) && s < |lens| && lens[s] > 0
    ensures Huff(lens, s) < Pow2(lens[s])
    ensures ToBits(Huff(lens, s), lens[s]) == CodeBits(lens, s)
    ensures Read(Huff(lens, s), lens[s]) == CodeOf(lens, s)
  {
    ToBitsToInt(CodeBits(lens, s));
    CodeFits(lens, s);
    MsbIntMsbBits(CodeOf(lens, s), lens[s]);
  }

  /** Starting with a code is lying in its interval. */
  lemma MatchesInterval(lens: seq<nat>, s: nat, h: nat)
    requires Fits(lens) && s < |lens| && lens[s] > 0
    ensures Matches(lens, s, h) <==> Start(lens, s) <= Read(h, MAXBITS) < Finish(lens, s)
  {
    hide Shl, Shr, Pow2, Low, CodeOf, Huff, Read, Kraft;
    var l := lens[s];
    HuffRead(lens, s);
    LowOfSmall(Huff(lens, s), l);
    ReadLow(h, Huff(lens, s), l);
    ReadPrefix(h, l, MAXBITS);
    ShrInterval(Read(h, MAXBITS), MAXBITS - l, CodeOf(lens, s));
  }

  /** Starting with a code, in terms of bit sequences. */
  lemma MatchesBits(lens: seq<nat>, s: nat, h: nat, n: nat)
    requires Fits(lens) && s < |lens| && 0 < lens[s] <= n
    ensures Matches(lens, s, h) <==> CodeBits(lens, s) <= ToBits(h, n)
  {
    var l := lens[s];
    HuffRead(lens, s);
    LowOfSmall(Huff(lens, s), l);
    ToBitsInjective(h, Huff(lens, s), l);
    LowBits(h, n, l);
  }

  /** No stream starts with two codes. */
  lemma PrefixFree(lens: seq<nat>, s: nat, t: nat, h: nat)
    requires Fits(lens) && Matches(lens, s, h) && Matches(lens, t, h)
    ensures s == t
  {
    MatchesInterval(lens, s, h);
    MatchesInterval(lens, t, h);
    if s != t {
      if Before(lens, s, t) {
        Ordered(lens, s, t);
      } else {
        Ordered(lens, t, s);
      }
    }
  }

  /** Every point below the Kraft sum lies in the interval of some symbol. */
  lemma {:induction false} FindSym(lens: seq<nat>, w: nat, l: nat) returns (s: nat)
    requires ValidLens(lens) && l <= MAXBITS
    requires w < Shl(Used(lens, l), MAXBITS - l)
    ensures s < |lens| && 0 < lens[s] <= l && Start(lens, s) <= w < Finish(lens, s)
  {
    if l == 0 {
      ShlAdd(0, 0, MAXBITS);
    } else if w < Shl(Used(lens, l - 1), MAXBITS - (l - 1)) {
      s := FindSym(lens, w, l - 1);
    } else {
      ShlDouble(Used(lens, l - 1), MAXBITS - l);
      assert Shl(NextCode(lens, l), MAXBITS - l) <= w;
      var c := Shr(w, MAXBITS - l);
      ShrInterval(w, MAXBITS - l, c);
      if c < NextCode(lens, l) {
        ShlMono(c, NextCode(lens, l), MAXBITS - l);
      }
      if c >= Used(lens, l) {
        ShlMono(Used(lens, l), c, MAXBITS - l);
      }
      s := SymAt(lens, l, c - NextCode(lens, l));
    }
  }

  /** With a complete code every stream starts with a code. */
  lemma CompleteCovers(lens: seq<nat>, h: nat) returns (s: nat)
    requires Complete(lens)
    ensures Matches(lens, s, h)
  {
    KraftUsed(lens);
    ReadPrefix(h, 0, MAXBITS);
    s := FindSym(lens, Read(h, MAXBITS), MAXBITS);
    MatchesInterval(lens, s, h);
  }

  lemma CountNext(lens: seq<nat>, s: nat, l: nat)
    requires s < |lens|
    ensures Count(lens[..s + 1], l) == Count(lens[..s], l) + if lens[s] == l then 1 else 0
  {
    assert lens[..s + 1][..s] == lens[..s];
  }
}
