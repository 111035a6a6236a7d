/**
 The fixed codes as tr_static_init makes them.
 */
module StaticTrees {
  import opened Bits
  import opened Canonical
  import opened TableSpec
  import TF = TableFill
  import opened Tokens
  import opened Rfc1951
  import opened Encoding
  import opened BitLengths
  import opened Trees

  /** The 30 distance codes that are used. */
  const STATIC_DISTS: seq<nat> := Repeat(5, 30)

  lemma CountsAppend(bl: seq<nat>, lens: seq<nat>, l: nat)
    requires Counts(bl, lens) && 1 <= l <= MAXBITS
    ensures Counts(bl[l := bl[l] + 1], lens + [l])
  {
    assert (lens + [l])[..|lens|] == lens;
  }

  /** Symbols up to end get length l. */
  method Extend(lens0: seq<nat>, bl0: seq<nat>, end: nat, l: nat) returns (lens: seq<nat>, bl: seq<nat>)
    requires Counts(bl0, lens0) && |lens0| <= end && 1 <= l <= MAXBITS
    ensures lens == lens0 + Repeat(l, end - |lens0|) && Counts(bl, lens)
  {
    hide Counts;
    lens, bl := lens0, bl0;
    CountsSize(bl, lens);
    while |lens| < end
      invariant |lens0| <= |lens| <= end && lens == lens0 + Repeat(l, |lens| - |lens0|) && Counts(bl, lens)
    {
      CountsSize(bl, lens);
      CountsAppend(bl, lens, l);
      bl, lens := bl[l := bl[l] + 1], lens + [l];
    }
  }

  lemma NoCounts()
    ensures Counts(Zeros(16), [])
  {
  }

  /** static_ltree */
  method StaticLengths() returns (lens: seq<nat>, codes: seq<nat>)
    ensures lens == FIXED_LENS && CodesOk(lens, codes)
  {
    hide CodesOk, Counts;
    NoCounts();
    var bl := Zeros(16);
    lens, bl := Extend([], bl, 144, 8);
    lens, bl := Extend(lens, bl, 256, 9);
    lens, bl := Extend(lens, bl, 280, 7);
    lens, bl := Extend(lens, bl, 288, 8);
    assert lens == FIXED_LENS;
    CountsAre(bl, lens);
    codes := GenCodes(lens, bl);
  }

  lemma CountsAre(bl: seq<nat>, lens: seq<nat>)
    requires Counts(bl, lens)
    ensures |bl| == 16 && bl[0] == 0 && forall l :: 1 <= l <= 15 ==> bl[l] == Count(lens, l)
  {
  }

  lemma {:induction false} FlatCount(n: nat, l: nat)
    ensures Count(Repeat(5, n), l) == if l == 5 then n else 0
  {
    if n > 0 {
      assert Repeat(5, n)[..n - 1] == Repeat(5, n - 1);
      FlatCount(n - 1, l);
    }
  }

  lemma {:induction false} FlatNext(n: nat, l: nat)
    requires l <= 5
    ensures NextCode(Repeat(5, n), l) == 0
  {
    if l > 0 {
      FlatNext(n, l - 1);
      FlatCount(n, l - 1);
    }
  }

  /** When all codes have 5 bits, each is its symbol. */
  lemma FlatCode(n: nat, j: nat)
    requires j < n
    ensures CodeOf(Repeat(5, n), j) == j
  {
    hide Count, NextCode;
    FlatNext(n, 5);
    assert Repeat(5, n)[..j] == Repeat(5, j);
    FlatCount(j, 5);
  }

  /** static_dtree */
  method StaticDists() returns (codes: seq<nat>)
    ensures CodesOk(STATIC_DISTS, codes)
  {
    hide TF.Rev, CodeOf;
    codes := [];
    for n := 0 to 30
      invariant |codes| == n && forall i :: 0 <= i < n ==> codes[i] == TF.Rev(CodeOf(STATIC_DISTS, i), 5)
    {
      FlatCode(30, n);
      var c := BiReverse(n, 5);
      codes := codes + [c];
    }
  }

  // ---------- the same bits ----------

  lemma SameDist(j: nat)
    requires j < 30
    ensures CodeBits(STATIC_DISTS, j) == CodeBits(FIXED_DISTS, j)
  {
    hide CodeOf, MsbBits;
    FlatCode(30, j);
    FlatCode(32, j);
  }

  lemma SameToken(t: Token)
    requires Codable(FIXED_LENS, FIXED_DISTS, t)
    ensures Codable(FIXED_LENS, STATIC_DISTS, t) &&
            TokenBits(FIXED_LENS, STATIC_DISTS, t) == TokenBits(FIXED_LENS, FIXED_DISTS, t)
  {
    hide CodeBits, FIXED_LENS, LenCode, DistCode, LBASE, DBASE, LEXT, DEXT, ToBits;
    if t.Str? {
      SameDist(DistCode(t.dist));
    }
  }

  lemma {:induction false} SameTokens(ts: seq<Token>)
    requires AllCodable(FIXED_LENS, FIXED_DISTS, ts)
    ensures AllCodable(FIXED_LENS, STATIC_DISTS, ts) &&
            TokensBits(FIXED_LENS, STATIC_DISTS, ts) == TokensBits(FIXED_LENS, FIXED_DISTS, ts)
    decreases |ts|
  {
    hide Codable, TokenBits, FIXED_LENS, FIXED_DISTS, STATIC_DISTS;
    if ts != [] {
      SameTokens(ts[..|ts| - 1]);
      SameToken(ts[|ts| - 1]);
    }
  }
}
