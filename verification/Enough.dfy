/**
 Why the decoding tables never outgrow their space (ENOUGH_LENS, ENOUGH_DISTS).

 Every entry of a sub-table beyond one for each code it resolves is due to codes of different
 lengths in it.  Codes being sorted by length, a sub-table that goes from length root + d to length
 root + c uses up all lengths in between, so that the entries beyond one for each code add up to no
 more than those of a single sub-table of the longest codes.  The space reserved is one entry short
 of what that gives, but the parity of the number of codes rules that case out.
 */
module Enough {
  import opened Bits
  import opened Canonical
  import opened TableSpec

  /**
   used entries for the root table and for sub-tables with n codes, the next code or the last one being d bits longer
   than the root index.
   */
  ghost predicate Budget(used: nat, root: nat, n: nat, d: nat) {
    && d >= 1 && used <= Pow2(root) + n + Pow2(d) - d - 1
    && (used == Pow2(root) + n + Pow2(d) - d - 1 ==> n % 2 == (d - 1) % 2)
  }

  lemma {:induction false} PowAbove(d: nat)
    requires d >= 1
    ensures Pow2(d) >= d + 1 && (d >= 2 ==> Pow2(d) >= d + 2) && Pow2(d) % 2 == 0
    decreases d
  {
    if d >= 2 {
      PowAbove(d - 1);
    }
  }

  lemma BudgetStarts(root: nat, d: nat)
    requires d >= 1
    ensures Budget(Pow2(root), root, 0, d)
  {
    hide Pow2;
    PowAbove(d);
  }

  lemma {:induction false} BudgetGrows(used: nat, root: nat, n: nat, d: nat, e: nat)
    requires Budget(used, root, n, d) && d <= e
    ensures Budget(used, root, n, e)
    decreases e
  {
    if d < e {
      BudgetGrows(used, root, n, d, e - 1);
      PowAbove(e - 1);
    }
  }

  /** A sub-table of c bits for m codes: as many as a tree needs that has no leaf above depth d and one at depth c. */
  lemma BudgetNext(used: nat, root: nat, n: nat, d: nat, c: nat, m: nat)
    requires Budget(used, root, n, d) && d <= c && m >= Pow2(d) + c - d
    ensures Budget(used + Pow2(c), root, n + m, c)
  {
    hide Pow2;
    PowAbove(d);
  }

  // ---------- how many codes are longer than the root index ----------

  /** Where the code at position j begins; the end of all codes after the last. */
  ghost function Place(lens: seq<nat>, w: seq<nat>, j: nat): nat
    requires ValidLens(lens) && (j < |w| ==> w[j] < |lens|)
  {
    if j < |w| then Start(lens, w[j]) else Kraft(lens)
  }

  lemma PlaceNext(lens: seq<nat>, w: seq<nat>, j: nat)
    requires ValidLens(lens) && InOrder(lens, w) && j < |w|
    ensures w[j] < |lens| && 1 <= lens[w[j]] <= MAXBITS &&
            (j + 1 < |w| ==> w[j + 1] < |lens| && lens[w[j]] <= lens[w[j + 1]])
    ensures Place(lens, w, j + 1) == Place(lens, w, j) + Pow2(MAXBITS - lens[w[j]])
    ensures j == 0 ==> Place(lens, w, j) == 0
  {
    hide InOrder, Start, Kraft, Pow2;
    SymbolAt(lens, w, j);
    Adjacent(lens, w, j);
    if j + 1 < |w| {
      Adjacent(lens, w, j + 1);
      SymbolAt(lens, w, j + 1);
      PositionsOrdered(lens, w, j, j + 1);
      FinishIs(lens, w[j]);
    } else {
      LastFinish(lens, w);
      FinishIs(lens, w[j]);
    }
  }

  lemma FinishIs(lens: seq<nat>, s: nat)
    requires s < |lens| && lens[s] <= MAXBITS
    ensures Finish(lens, s) == Start(lens, s) + Pow2(MAXBITS - lens[s])
  {
  }

  /** Codes longer than the root index take at most half a slot each. */
  lemma {:induction false} LongCodes(lens: seq<nat>, w: seq<nat>, j: nat, root: nat, half: nat)
    requires ValidLens(lens) && InOrder(lens, w) && j <= |w| && root < MAXBITS && half == Pow2(MAXBITS - root - 1)
    requires j < |w| ==> w[j] < |lens| && lens[w[j]] > root
    requires root == 9 || root == 6
    ensures Kraft(lens) <= Place(lens, w, j) + (if root == 9 then 32 else 256) * (|w| - j)
    decreases |w| - j
  {
    hide InOrder, Kraft, Pow2, Place;
    if j < |w| {
      PlaceNext(lens, w, j);
      Pow2Mono(MAXBITS - lens[w[j]], MAXBITS - root - 1);
      LongCodes(lens, w, j + 1, root, half);
      HalfSlots();
    } else {
      PlaceEnd(lens, w);
    }
  }

  lemma PlaceEnd(lens: seq<nat>, w: seq<nat>)
    requires ValidLens(lens)
    ensures Place(lens, w, |w|) == Kraft(lens)
  {
  }

  lemma HalfSlots()
    ensures Pow2(5) == 32 && Pow2(8) == 256 && Pow2(13) == 8192 && Pow2(14) == 16384 && Pow2(15) == 32768
  {
  }

  /** The number of codes that fit the root index. */
  ghost predicate ShortOnes(lens: seq<nat>, w: seq<nat>, root: nat, k0: nat) {
    && k0 <= |w| && (forall j :: 0 <= j < k0 ==> w[j] < |lens| && lens[w[j]] <= root)
    && (k0 < |w| ==> w[k0] < |lens| && lens[w[k0]] > root)
  }

  /** With long codes, some codes have to be short. */
  lemma FewLong(lens: seq<nat>, w: seq<nat>, root: nat, k0: nat)
    requires Complete(lens) && InOrder(lens, w) && |w| <= |lens| && ShortOnes(lens, w, root, k0) && k0 < |w|
    requires (root == 9 && |lens| <= 286) || (root == 6 && |lens| <= 30)
    ensures |w| - k0 <= if root == 9 then 284 else 27
  {
    hide InOrder, Kraft, Pow2, Place;
    HalfSlots();
    LongCodes(lens, w, k0, root, Pow2(MAXBITS - root - 1));
    if k0 <= 2 {
      FirstPlaces(lens, w, k0);
    }
  }

  /** The first codes: one takes at most half of all, two that are not all take at most three quarters. */
  lemma FirstPlaces(lens: seq<nat>, w: seq<nat>, k0: nat)
    requires Complete(lens) && InOrder(lens, w) && k0 < |w| && k0 <= 2
    ensures w[k0] < |lens| && Place(lens, w, k0) <= if k0 == 0 then 0 else if k0 == 1 then 16384 else 24576
  {
    hide InOrder, Kraft, Pow2, Place;
    HalfSlots();
    PlaceNext(lens, w, 0);
    if k0 >= 1 {
      PlaceNext(lens, w, 1);
      Pow2Mono(MAXBITS - lens[w[0]], 14);
    }
    if k0 == 2 {
      PlaceNext(lens, w, 2);
      Pow2Mono(MAXBITS - lens[w[1]], 14);
      PlaceWithin(lens, w, 3);
      PowPositive(MAXBITS - lens[w[2]]);
      if lens[w[1]] > 1 {
        Pow2Mono(MAXBITS - lens[w[1]], 13);
      }
    }
  }

  lemma {:induction false} PlaceWithin(lens: seq<nat>, w: seq<nat>, j: nat)
    requires Complete(lens) && InOrder(lens, w) && j <= |w|
    ensures (j < |w| ==> w[j] < |lens|) && Place(lens, w, j) <= Pow2(MAXBITS)
    decreases |w| - j
  {
    hide InOrder, Kraft, Pow2, Place;
    if j < |w| {
      PlaceNext(lens, w, j);
      PlaceWithin(lens, w, j + 1);
    } else {
      PlaceEnd(lens, w);
    }
  }

  /** The space is enough. */
  lemma BudgetEnough(used: nat, root: nat, n: nat, c: nat)
    requires Budget(used, root, n, c) && root + c <= MAXBITS && ((root == 9 && n <= 284) || (root == 6 && n <= 27))
    ensures used <= if root == 9 then ENOUGH_LENS else ENOUGH_DISTS
  {
    hide Pow2;
    BudgetGrows(used, root, n, c, MAXBITS - root);
    assert Pow2(6) == 64 && Pow2(9) == 512 by {
      RootSizes();
    }
  }

  lemma RootSizes()
    ensures Pow2(6) == 64 && Pow2(9) == 512
  {
  }
}
