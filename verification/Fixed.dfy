/** The decoding tables of the fixed codes, built as fixedtables() does on first use. */
module Fixed {
  import opened Bits
  import opened Canonical
  import opened TableSpec
  import opened Rfc1951
  import opened Decode
  import Inftrees

  lemma {:induction false} KraftRepeat(lens: seq<nat>, l: nat, n: nat)
    requires ValidLens(lens) && 0 < l <= MAXBITS
    ensures ValidLens(lens + Repeat(l, n))
    ensures Kraft(lens + Repeat(l, n)) == Kraft(lens) + n * Pow2(MAXBITS - l)
    decreases n
  {
    hide Pow2;
    var all := lens + Repeat(l, n);
    if n == 0 {
      assert all == lens;
    } else {
      var init := lens + Repeat(l, n - 1);
      KraftRepeat(lens, l, n - 1);
      assert all == init + [l];
      KraftAppend(init, l);
      Distribute(n, Pow2(MAXBITS - l));
    }
  }

  lemma KraftAppend(init: seq<nat>, l: nat)
    requires ValidLens(init) && 0 < l <= MAXBITS
    ensures ValidLens(init + [l]) && Kraft(init + [l]) == Kraft(init) + Pow2(MAXBITS - l)
  {
    hide Pow2;
    assert (init + [l])[..|init|] == init;
  }

  lemma Distribute(n: nat, p: nat)
    requires n > 0
    ensures n * p == (n - 1) * p + p
  {
  }

  /** The fixed codes are complete. */
  lemma FixedUsable()
    ensures Usable(LENS, FIXED_LENS) && Usable(DISTS, FIXED_DISTS)
    ensures |FIXED_LENS| == 288 && |FIXED_DISTS| == 32
    ensures forall i :: 0 <= i < |FIXED_LENS| ==> FIXED_LENS[i] <= 9
    ensures forall i :: 0 <= i < |FIXED_DISTS| ==> FIXED_DISTS[i] <= 5
  {
    hide Kraft;
    var a := [] + Repeat(8, 144);
    var b := a + Repeat(9, 112);
    var c := b + Repeat(7, 24);
    KraftRepeat([], 8, 144);
    KraftRepeat(a, 9, 112);
    KraftRepeat(b, 7, 24);
    KraftRepeat(c, 8, 8);
    KraftRepeat([], 5, 32);
    KraftEmpty();
    assert FIXED_LENS == c + Repeat(8, 8);
    assert FIXED_DISTS == [] + Repeat(5, 32);
    assert Pow2(7) == 128 && Pow2(6) == 64 && Pow2(8) == 256 && Pow2(10) == 1024 && Pow2(15) == 32768;
  }

  lemma KraftEmpty()
    ensures Kraft([]) == 0
  {
  }

  /** A code with a symbol of exactly n bits and none longer gets a root table of n bits. */
  lemma RootIs(lens: seq<nat>, n: nat, root: nat, i: nat, j: nat)
    requires i < |lens| && j < |lens| && 0 < lens[i] <= n && lens[j] == n && AllWithin(lens, n)
    requires Inftrees.RootFits(lens, n, root)
    ensures root == n
  {
  }

  method FixedTables() returns (lencode: seq<Code>, lenbits: nat, distcode: seq<Code>, distbits: nat)
    ensures Decodes(lencode, lenbits, LENS, FIXED_LENS) && Usable(LENS, FIXED_LENS)
    ensures Decodes(distcode, distbits, DISTS, FIXED_DISTS) && Usable(DISTS, FIXED_DISTS)
  {
    hide Decodes, Flat, Refused, Pow2, Inftrees.RootFits;
    FixedUsable();
    FixedSizes();
    var fixed := new Code[544](_ => INVALID);
    var work := new nat[288](_ => 0);
    var lens, dists := FIXED_LENS, FIXED_DISTS;
    var ret, next;
    ret, next, lenbits := Inftrees.InflateTable(LENS, lens, fixed, 0, 9, work);
    RootIs(lens, 9, lenbits, 0, 144);
    lencode := fixed[..next];
    var base := next;
    ret, next, distbits := Inftrees.InflateTable(DISTS, dists, fixed, base, 5, work);
    RootIs(dists, 5, distbits, 0, 0);
    distcode := fixed[base..next];
  }

  lemma FixedSizes()
    ensures Pow2(9) == 512 && Pow2(5) == 32
    ensures FIXED_LENS[0] == 8 && FIXED_LENS[144] == 9 && FIXED_DISTS[0] == 5
  {
  }
}
