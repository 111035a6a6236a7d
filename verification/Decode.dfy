/**
 Reading one code from the bit accumulator: what a table lookup says about the bit sequence.
 */
module Decode {
  import opened Bits
  import opened Canonical
  import opened TableSpec
  import opened Rfc1951

  /** A set of lengths inflate_table accepts. */
  ghost predicate Usable(kind: Kind, lens: seq<nat>) {
    ValidLens(lens) && |lens| <= MaxSyms(kind) && !Refused(kind, lens)
  }

  /** An empty code, a lone one-bit code, or a complete code. */
  lemma UsableCases(kind: Kind, lens: seq<nat>)
    requires Usable(kind, lens)
    ensures Fits(lens)
    ensures Complete(lens) || AtMostOneBit(lens)
  {
  }

  /** A code that starts a bit sequence is the one that is read. */
  lemma StartsUnique(lens: seq<nat>, s: nat, t: nat, b: seq<bool>)
    requires Fits(lens) && StartsWith(lens, s, b) && StartsWith(lens, t, b)
    ensures s == t
  {
    hide Kraft, CodeBits;
    var m := if lens[s] < lens[t] then lens[t] else lens[s];
    var h := ToInt(b[..m]);
    ToBitsToInt(b[..m]);
    MatchesBits(lens, s, h, m);
    MatchesBits(lens, t, h, m);
    PrefixFree(lens, s, t, h);
  }

  lemma MatchStarts(lens: seq<nat>, s: nat, hold: nat, bits: nat, b: seq<bool>)
    requires Fits(lens) && Matches(lens, s, hold) && lens[s] <= bits && ToBits(hold, bits) <= b
    ensures ReadSymbol(lens, b) == Sym(s, b[lens[s]..])
  {
    hide Kraft, CodeBits;
    MatchesBits(lens, s, hold, bits);
    assert StartsWith(lens, s, b);
    StartsUnique(lens, s, ReadSymbol(lens, b).s, b);
  }

  /** The accumulator decides the symbol: a lookup whose bits are all held is what is read. */
  lemma LookupReads(t: seq<Code>, root: nat, kind: Kind, lens: seq<nat>, hold: nat, bits: nat, b: seq<bool>)
    requires Decodes(t, root, kind, lens) && Usable(kind, lens)
    requires hold < Pow2(bits) && ToBits(hold, bits) <= b
    requires Lookup(t, root, hold).bits <= bits
    ensures var e := Lookup(t, root, hold);
            match ReadSymbol(lens, b)
            case Sym(s, rest) => s < MaxSyms(kind) && e == SymCode(kind, s, e.bits) && 0 < e.bits <= MAXBITS &&
                rest == b[e.bits..]
            case NoCode => e == INVALID && (kind == CODES ==> NoSymbols(lens))
            case NeedMore => false
  {
    hide Kraft, CodeBits, Lookup, Matches, SymCode;
    var e := Lookup(t, root, hold);
    UsableCases(kind, lens);
    if s: nat :| Matches(lens, s, hold) {
      MatchedBits(lens, s, hold);
      assert e == SymCode(kind, s, lens[s]);
      SymCodeBits(kind, s, lens[s]);
      MatchStarts(lens, s, hold, bits, b);
    } else {
      assert Unmatched(lens, hold);
      if Complete(lens) {
        var s := CompleteCovers(lens, hold);
      }
      NothingStarts(lens, hold, bits, b);
    }
  }

  lemma MatchedBits(lens: seq<nat>, s: nat, h: nat)
    requires Matches(lens, s, h)
    ensures s < |lens| && lens[s] > 0
  {
  }

  lemma SymCodeBits(kind: Kind, s: nat, n: nat)
    requires s < MaxSyms(kind)
    ensures SymCode(kind, s, n).bits == n
  {
  }

  lemma NothingStarts(lens: seq<nat>, hold: nat, bits: nat, b: seq<bool>)
    requires Fits(lens) && AtMostOneBit(lens) && Unmatched(lens, hold)
    requires 1 <= bits && ToBits(hold, bits) <= b
    ensures ReadSymbol(lens, b) == NoCode
  {
    hide Kraft, CodeBits, Matches;
    if s: nat :| StartsWith(lens, s, b) {
      MatchesBits(lens, s, hold, bits);
    }
  }

  lemma BeginsMatch(lens: seq<nat>, s: nat, hold: nat, bits: nat)
    requires Fits(lens) && Matches(lens, s, hold) && bits < lens[s]
    ensures Begins(lens, s, ToBits(hold, bits))
  {
    hide Kraft, CodeBits, ToBits;
    MatchesBits(lens, s, hold, lens[s]);
    LowBits(hold, lens[s], bits);
  }

  /** A lookup that wants more bits than are held: no code is complete, and one may still be coming. */
  lemma LookupStarves(t: seq<Code>, root: nat, kind: Kind, lens: seq<nat>, hold: nat, bits: nat)
    requires Decodes(t, root, kind, lens) && Usable(kind, lens)
    requires hold < Pow2(bits) && Lookup(t, root, hold).bits > bits
    ensures ReadSymbol(lens, ToBits(hold, bits)) == NeedMore
  {
    hide Kraft, CodeBits, Lookup, Matches, SymCode;
    UsableCases(kind, lens);
    var b := ToBits(hold, bits);
    if u: nat :| StartsWith(lens, u, b) {
      MatchesBits(lens, u, hold, bits);
      SymCodeBits(kind, u, lens[u]);
      assert false;
    }
    if s: nat :| Matches(lens, s, hold) {
      MatchedBits(lens, s, hold);
      SymCodeBits(kind, s, lens[s]);
      BeginsMatch(lens, s, hold, bits);
    } else {
      assert Unmatched(lens, hold);
    }
  }

  lemma ShortMatch(lens: seq<nat>, s: nat, g: nat, h: nat, b: nat)
    requires AtMostOneBit(lens) && Matches(lens, s, g) && b >= 1 && Low(g, b) == Low(h, b)
    ensures Matches(lens, s, h)
  {
    LowLow(g, 1, b);
    LowLow(h, 1, b);
  }

  /** A lookup is settled by the bits it accounts for. */
  lemma LookupStable(t: seq<Code>, root: nat, kind: Kind, lens: seq<nat>, g: nat, h: nat, b: nat)
    requires Decodes(t, root, kind, lens) && Usable(kind, lens)
    requires Low(g, b) == Low(h, b) && Lookup(t, root, h).bits <= b
    ensures Lookup(t, root, g) == Lookup(t, root, h)
  {
    hide Kraft, Lookup, SymCode, Huff, Low;
    UsableCases(kind, lens);
    if s: nat :| Matches(lens, s, h) {
      SymCodeBits(kind, s, lens[s]);
      LowLow(g, lens[s], b);
      LowLow(h, lens[s], b);
      assert Matches(lens, s, g);
    } else {
      assert Unmatched(lens, h);
      if Complete(lens) {
        var s := CompleteCovers(lens, h);
      }
      if s: nat :| Matches(lens, s, g) {
        ShortMatch(lens, s, g, h, b);
      }
      assert Unmatched(lens, g);
    }
  }

  /** No code is longer than MAXBITS. */
  lemma LookupBits(t: seq<Code>, root: nat, kind: Kind, lens: seq<nat>, h: nat)
    requires Decodes(t, root, kind, lens) && ValidLens(lens)
    ensures 0 < Lookup(t, root, h).bits <= MAXBITS
  {
    hide Lookup, SymCode;
    if s: nat :| Matches(lens, s, h) {
      SymCodeBits(kind, s, lens[s]);
    } else {
      assert Unmatched(lens, h);
    }
  }

  /** What the first entry says about the whole lookup. */
  lemma FirstEntry(t: seq<Code>, root: nat, kind: Kind, lens: seq<nat>, h: nat)
    requires Decodes(t, root, kind, lens)
    ensures Pow2(root) <= |t| && Low(h, root) < |t|
    ensures var e := t[Low(h, root)];
            if IsLink(e) then
              && e.bits == root
              && e.val + Low(Shr(h, root), e.op) < |t|
              && var e2 := t[e.val + Low(Shr(h, root), e.op)];
                 Lookup(t, root, h) == Code(e2.op, root + e2.bits, e2.val)
            else Lookup(t, root, h) == e
  {
    hide Low, Shr, Matches, SymCode;
    Split(h, root);
    Split(Shr(h, root), t[Low(h, root)].op);
  }
}
