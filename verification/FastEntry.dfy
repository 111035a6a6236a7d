/**
 What inflate_fast may rely on at its entry.  Its documentation says that fewer than eight bits are
 held.  That is so whenever a step of inflate leads to LEN, but not where a call resumes in the
 middle of a code.
 */
module FastEntry {
  import opened Bits
  import opened Canonical
  import opened TableSpec
  import opened Rfc1951
  import opened Decode
  import opened InflateState
  import opened InflateLoop
  import opened Inflate
  import opened Encoding
  import Wrapper
  import Fixed

  /** A whole byte or more of a literal/length code has been read, but not all of the code. */
  ghost predicate MidCode(s: State, p: Past) {
    s.r.bits >= 8 && exists sym: nat :: Begins(p.ll, sym, ToBits(s.r.hold, s.r.bits))
  }

  /** At rest in LEN eight bits or more are held just in the middle of a code that is longer. */
  lemma HeldInLen(s: State, p: Past)
    requires Sound(s, p) && s.mode == LEN
    ensures s.r.bits >= 8 <==> MidCode(s, p)
    ensures s.r.bits < MAXBITS || s.r.bits < 8
  {
    hide Lookup, Kraft, CodeBits, ToBits, Matches, SymCode, MeaningOf, Counted;
    var hold, bits := s.r.hold, s.r.bits;
    if bits >= 8 {
      LookupBits(s.lencode, s.lenbits, LENS, p.ll, hold);
      UsableCases(LENS, p.ll);
      SomeMatch(s.lencode, s.lenbits, LENS, p.ll, hold);
      var sym: nat :| Matches(p.ll, sym, hold);
      MatchedBits(p.ll, sym, hold);
      SymCodeBits(LENS, sym, p.ll[sym]);
      BeginsMatch(p.ll, sym, hold, bits);
    }
  }

  lemma SomeMatch(t: seq<Code>, root: nat, kind: Kind, lens: seq<nat>, h: nat)
    requires Decodes(t, root, kind, lens) && Lookup(t, root, h).bits > 1
    ensures !Unmatched(lens, h)
  {
    hide Lookup;
  }

  /**
   In every call, inflate_fast is entered with eight bits or more only at the first step, and then just if the call
   before ended in the middle of a code.
   */
  lemma FastEntries(tr: seq<Moment>, a: Moment, b: Moment, stop: Stop, flush: Flush, f: seq<bool>)
    requires Trace(tr, a, b, stop, flush, f) && Sound(a.s, a.p)
    ensures forall i :: 0 <= i < |tr| && Fast(tr[i].s) ==> (tr[i].s.r.bits >= 8 <==> i == 0 && MidCode(a.s, a.p))
  {
    hide Sound, MidCode;
    forall i | 0 <= i < |tr| && Fast(tr[i].s) ensures tr[i].s.r.bits >= 8 <==> i == 0 && MidCode(a.s, a.p) {
      if i == 0 {
        HeldInLen(a.s, a.p);
      } else {
        FewAfter(tr[i - 1], tr[i], flush, f);
      }
    }
  }

  lemma FewAfter(a: Moment, b: Moment, flush: Flush, f: seq<bool>)
    requires Goes(a, b, Go, flush, f) && b.s.mode == LEN
    ensures b.s.r.bits < 8
  {
    hide Sound, Frame, Moves, Agrees, Meaning, Exactly;
  }

  // ---------- an input ----------

  lemma {:induction false} CountRepeat(lens: seq<nat>, x: nat, n: nat, l: nat)
    ensures Canonical.Count(lens + Repeat(x, n), l) == Canonical.Count(lens, l) + if x == l then n else 0
    decreases n
  {
    if n == 0 {
      assert lens + Repeat(x, 0) == lens;
    } else {
      var init := lens + Repeat(x, n - 1);
      assert lens + Repeat(x, n) == init + [x];
      assert (init + [x])[..|init|] == init;
      CountRepeat(lens, x, n - 1, l);
    }
  }

  lemma FixedCounts(l: nat)
    ensures Canonical.Count(FIXED_LENS, l) == (if l == 7 then 24 else 0) + (if l == 8 then 152 else 0) + if l == 9 then
            112 else 0
    ensures Canonical.Count(FIXED_LENS[..144], l) == if l == 8 then 144 else 0
  {
    hide Canonical.Count;
    var a := [] + Repeat(8, 144);
    var b := a + Repeat(9, 112);
    var c := b + Repeat(7, 24);
    CountRepeat([], 8, 144, l);
    CountRepeat(a, 9, 112, l);
    CountRepeat(b, 7, 24, l);
    CountRepeat(c, 8, 8, l);
    CountNothing(l);
    assert FIXED_LENS == c + Repeat(8, 8);
    assert FIXED_LENS[..144] == a;
  }

  lemma CountNothing(l: nat)
    ensures Canonical.Count([], l) == 0
  {
  }

  lemma {:induction false} FixedNext(l: nat)
    requires l <= 9
    ensures NextCode(FIXED_LENS, l) == if l <= 7 then 0 else if l == 8 then 48 else 400
  {
    hide Canonical.Count, FIXED_LENS;
    if l > 0 {
      FixedNext(l - 1);
      FixedCounts(l - 1);
    }
  }

  /** The code of literal 144 is 110010000. */
  lemma Code144()
    ensures |FIXED_LENS| == 288 && FIXED_LENS[144] == 9
    ensures CodeBits(FIXED_LENS, 144) == [true, true, false, false, true, false, false, false, false]
  {
    hide Canonical.Count, NextCode;
    FixedNext(9);
    FixedCounts(9);
    Bits400();
  }

  lemma Bits400()
    ensures MsbBits(400, 9) == [true, true, false, false, true, false, false, false, false]
  {
    assert Shr(400, 0) == 400 && Shr(400, 1) == 200 && Shr(400, 2) == 100 && Shr(400, 3) == 50 && Shr(400, 4) == 25;
    assert Shr(25, 1) == 12 && Shr(25, 2) == 6 && Shr(25, 3) == 3 && Shr(25, 4) == 1;
    forall i | 5 <= i <= 8 ensures Shr(400, i) == Shr(25, i - 4) {
      ShrShr(400, 4, i - 4);
    }
    var b := MsbBits(400, 9);
    assert b[0] == Bit(400, 8) && b[1] == Bit(400, 7) && b[2] == Bit(400, 6) && b[3] == Bit(400, 5) &&
        b[4] == Bit(400, 4);
    assert b[5] == Bit(400, 3) && b[6] == Bit(400, 2) && b[7] == Bit(400, 1) && b[8] == Bit(400, 0);
  }

  /** Five literals 144 and the beginning of a sixth, in a block with the fixed codes. */
  const BYTES: seq<byte> := [0x9b, 0x30, 0x61, 0xc2, 0x84, 0x09, 0x13]

  const CODE: seq<bool> := [true, true, false, false, true, false, false, false, false]

  /** n literals, and the beginning of another. */
  ghost function Literals(n: nat): (b: seq<bool>)
    ensures |b| == 9 * n + 8
  {
    if n == 0 then CODE[..8] else CODE + Literals(n - 1)
  }

  lemma ByteBits(v: byte, b: seq<bool>)
    requires |b| == 8 && ToInt(b) == v
    ensures BytesBits([v]) == b
  {
    hide ToBits;
    ToBitsToInt(b);
    assert [v][1..] == [];
    assert BytesBits([v]) == ToBits(v, 8) + BytesBits([]);
  }

  function Value(b: seq<bool>): nat
    requires |b| == 8
  {
    (if b[0] then 1 else 0) + (if b[1] then 2 else 0) + (if b[2] then 4 else 0) + (if b[3] then 8 else 0) +
    (if b[4] then 16 else 0) + (if b[5] then 32 else 0) + (if b[6] then 64 else 0) + (if b[7] then 128 else 0)
  }

  lemma Int4(b: seq<bool>)
    requires |b| >= 4
    ensures ToInt(b) == (if b[0] then 1 else 0) + (if b[1] then 2 else 0) + (if b[2] then 4 else 0) +
                        (if b[3] then 8 else 0) + 16 * ToInt(b[4..])
  {
    var c, d, e := b[1..], b[2..], b[3..];
    assert c[1..] == d && d[1..] == e && e[1..] == b[4..];
    assert ToInt(e) == (if b[3] then 1 else 0) + 2 * ToInt(b[4..]);
    assert ToInt(c) == (if b[1] then 1 else 0) + 2 * ToInt(d);
  }

  lemma Int8(b: seq<bool>)
    requires |b| == 8
    ensures ToInt(b) == Value(b)
  {
    hide ToInt;
    Int4(b);
    Int4(b[4..]);
    assert b[4..][4..] == [];
    IntNone();
  }

  lemma IntNone()
    ensures ToInt([]) == 0
  {
  }

  lemma TheBytes()
    ensures BytesBits([0x9b]) == [true, true, false] + CODE[..5]
    ensures BytesBits([0x30]) == CODE[5..] + CODE[..4]
    ensures BytesBits([0x61]) == CODE[4..] + CODE[..3]
    ensures BytesBits([0xc2]) == CODE[3..] + CODE[..2]
    ensures BytesBits([0x84]) == CODE[2..] + CODE[..1]
    ensures BytesBits([0x09]) == CODE[1..]
    ensures BytesBits([0x13]) == CODE[..8]
  {
    hide BytesBits, ToInt;
    IsByte(0x9b, [true, true, false, true, true, false, false, true]);
    IsByte(0x30, [false, false, false, false, true, true, false, false]);
    IsByte(0x61, [true, false, false, false, false, true, true, false]);
    IsByte(0xc2, [false, true, false, false, false, false, true, true]);
    IsByte(0x84, [false, false, true, false, false, false, false, true]);
    IsByte(0x09, [true, false, false, true, false, false, false, false]);
    IsByte(0x13, [true, true, false, false, true, false, false, false]);
  }

  lemma IsByte(v: byte, b: seq<bool>)
    requires |b| == 8
    ensures Value(b) == v ==> BytesBits([v]) == b
  {
    hide BytesBits, ToInt;
    Int8(b);
    if Value(b) == v {
      ByteBits(v, b);
    }
  }

  lemma TheBits()
    ensures BytesBits(BYTES) == [true, true, false] + Literals(5)
  {
    hide BytesBits, Literals;
    TheBytes();
    SevenBytes();
    Parts(CODE);
    FiveLiterals();
  }

  lemma FiveLiterals()
    ensures Literals(5) == CODE + (CODE + (CODE + (CODE + (CODE + CODE[..8]))))
  {
    assert Literals(3) == CODE + (CODE + (CODE + CODE[..8]));
  }

  lemma Parts(c: seq<bool>)
    requires |c| == 9
    ensures [true, true, false] + c[..5] + (c[5..] + c[..4]) + (c[4..] + c[..3]) + (c[3..] + c[..2]) +
            (c[2..] + c[..1]) + c[1..] + c[..8] ==
            [true, true, false] + (c + (c + (c + (c + (c + c[..8])))))
  {
    assert c[..5] + c[5..] == c && c[..4] + c[4..] == c && c[..3] + c[3..] == c && c[..2] + c[2..] == c &&
           c[..1] + c[1..] == c;
  }

  lemma SevenBytes()
    ensures BytesBits(BYTES) == BytesBits([0x9b]) + BytesBits([0x30]) + BytesBits([0x61]) + BytesBits([0xc2]) +
            BytesBits([0x84]) + BytesBits([0x09]) + BytesBits([0x13])
  {
    hide BytesBits;
    assert BYTES[..1] == [0x9b] && BYTES[..7] == BYTES;
    BytesBitsConcat(BYTES[..1], [BYTES[1]]);
    assert BYTES[..1] + [BYTES[1]] == BYTES[..2];
    BytesBitsConcat(BYTES[..2], [BYTES[2]]);
    assert BYTES[..2] + [BYTES[2]] == BYTES[..3];
    BytesBitsConcat(BYTES[..3], [BYTES[3]]);
    assert BYTES[..3] + [BYTES[3]] == BYTES[..4];
    BytesBitsConcat(BYTES[..4], [BYTES[4]]);
    assert BYTES[..4] + [BYTES[4]] == BYTES[..5];
    BytesBitsConcat(BYTES[..5], [BYTES[5]]);
    assert BYTES[..5] + [BYTES[5]] == BYTES[..6];
    BytesBitsConcat(BYTES[..6], [BYTES[6]]);
    assert BYTES[..6] + [BYTES[6]] == BYTES[..7];
  }

  /** Eight bits of the code are not enough. */
  lemma Needs9()
    ensures ReadSymbol(FIXED_LENS, CODE[..8]) == NeedMore
  {
    hide CodeBits, FIXED_LENS, Kraft;
    Code144();
    var b := CODE[..8];
    assert Begins(FIXED_LENS, 144, b);
    if u: nat :| StartsWith(FIXED_LENS, u, b) {
      Fixed.FixedUsable();
      UsableCases(LENS, FIXED_LENS);
      StartsUnique(FIXED_LENS, u, 144, b + [false]);
      assert false;
    }
  }

  /** LEN after n literals. */
  ghost predicate AfterLiterals(m: Moment, n: nat) {
    && n <= 5 && m.s.r.Ok() && m.s.mode == LEN && m.p.ll == FIXED_LENS && m.s.left == 5 - n
    && m.s.r.Avail() == Literals(5 - n)
  }

  /** The steps up to the first literal. */
  lemma ToFirst(tr: seq<Moment>, a: Moment, b: Moment, stop: Stop)
    requires Trace(tr, a, b, stop, NO_FLUSH, []) && stop != Go
    requires a.s.mode == HEAD && a.s.wrap == 0 && !a.s.last && a.s.left == 5 && a.s.r.Ok() &&
             a.s.r.Avail() == BytesBits(BYTES)
    ensures |tr| > 3 && AfterLiterals(tr[3], 0)
  {
    hide Stepped, BytesBits, ToBits, FIXED_LENS, FIXED_DISTS, Literals;
    TheBits();
    assert Goes(tr[0], if |tr| > 1 then tr[1] else b, if |tr| > 1 then Go else stop, NO_FLUSH, []);
    var bits := BytesBits(BYTES);
    assert bits + [] == bits;
    Kind1(bits);
    assert Goes(tr[1], if |tr| > 2 then tr[2] else b, if |tr| > 2 then Go else stop, NO_FLUSH, []);
    assert |tr| > 2;
    assert Goes(tr[2], if |tr| > 3 then tr[3] else b, if |tr| > 3 then Go else stop, NO_FLUSH, []);
    assert tr[3].s.r.Avail() + [] == tr[3].s.r.Avail();
  }

  lemma Kind1(b: seq<bool>)
    requires |b| >= 3 && b[1] && !b[2]
    ensures ToInt(b[1..3]) == 1
  {
    assert b[1..3] == [true, false];
    assert [true, false][1..] == [false] && [false][1..] == [];
    assert ToInt([false]) == 0;
  }

  /** A literal is two steps. */
  lemma TwoSteps(l: Moment, m: Moment, r: Moment, stop: Stop, stop': Stop, n: nat)
    requires AfterLiterals(l, n) && n < 5 && Goes(l, m, stop, NO_FLUSH, [])
    ensures stop == Go && (Goes(m, r, stop', NO_FLUSH, []) ==> stop' == Go && AfterLiterals(r, n + 1))
  {
    hide Stepped, ToBits, BytesBits, FIXED_LENS, ReadSymbol, CodeBits, FixedTaken, TypeTaken, Fits, Kraft, Usable;
    Code144();
    Fixed.FixedUsable();
    UsableCases(LENS, FIXED_LENS);
    ReadBack(FIXED_LENS, 144, Literals(4 - n));
    assert l.s.r.Avail() + [] == l.s.r.Avail() && m.s.r.Avail() + [] == m.s.r.Avail();
  }

  lemma {:induction false} Onward(tr: seq<Moment>, a: Moment, b: Moment, stop: Stop, n: nat)
    requires Trace(tr, a, b, stop, NO_FLUSH, []) && stop != Go && |tr| > 3 && AfterLiterals(tr[3], 0) && n <= 5
    ensures |tr| > 3 + 2 * n && AfterLiterals(tr[3 + 2 * n], n)
  {
    hide Goes, AfterLiterals;
    if n > 0 {
      Onward(tr, a, b, stop, n - 1);
      var k := 1 + 2 * n;
      var m, s := if |tr| > k + 1 then tr[k + 1] else b, if |tr| > k + 1 then Go else stop;
      var r, t := if |tr| > k + 2 then tr[k + 2] else b, if |tr| > k + 2 then Go else stop;
      assert Goes(tr[k], m, s, NO_FLUSH, []);
      TwoSteps(tr[k], m, r, s, t, n - 1);
      assert Goes(m, r, t, NO_FLUSH, []);
    }
  }

  /** All input is used then, and eight bits are held. */
  lemma ThenEight(tr: seq<Moment>, a: Moment, b: Moment, stop: Stop)
    requires Trace(tr, a, b, stop, NO_FLUSH, []) && stop != Go && |tr| > 13 && AfterLiterals(tr[13], 5)
    ensures b.s.mode == LEN && b.s.r.bits == 8
  {
    hide Stepped, ToBits, BytesBits, FIXED_LENS, ReadSymbol;
    var m := tr[13];
    Needs9();
    assert m.s.r.Avail() == CODE[..8] && m.s.r.Avail() + [] == m.s.r.Avail();
    assert Goes(m, if |tr| > 14 then tr[14] else b, if |tr| > 14 then Go else stop, NO_FLUSH, []);
    assert |tr| == 14;
    assert b.s.r.input[b.s.r.next..] == [];
  }

  lemma Started(s: State)
    requires s == Loaded(Initial(0, 15, Wrapper.NoHeader), BYTES, 5)
    ensures s.mode == HEAD && s.wrap == 0 && !s.last && s.left == 5 && s.r.Ok() && s.r.Avail() == BytesBits(BYTES)
  {
    hide BytesBits;
    assert BYTES[0..] == BYTES && ToBits(0, 0) + BytesBits(BYTES) == BytesBits(BYTES);
  }

  /**
   Seven bytes, with room for five, leave eight bits held; if the next call brings six more and has room for 258, it
   enters inflate_fast with them.  tr are the moments of that call.
   */
  method EightHeld(more: seq<byte>, room: nat) returns (st: Stream, ghost tr: seq<Moment>)
    requires |more| >= 6 && room >= 258
    ensures |tr| >= 1 && Fast(tr[0].s) && tr[0].s.r.bits == 8 && tr[0].s.r.input == more && tr[0].s.left == room
  {
    hide Stepped, Goes, Sound, BytesBits, ToBits, Stream.Rest, Stream.Valid, Agrees, Initial;
    st := new Stream(0, 15, Wrapper.NoHeader, false);
    var out, used, ret;
    ghost var end, stop;
    ghost var a := Moment(Loaded(st.s, BYTES, 5), st.past);
    Started(a.s);
    out, used, ret, tr, end, stop := st.Inflate(BYTES, 5, NO_FLUSH, []);
    ToFirst(tr, a, end, stop);
    Onward(tr, a, end, stop, 5);
    ThenEight(tr, a, end, stop);
    out, used, ret, tr, end, stop := st.Inflate(more, room, NO_FLUSH, []);
  }
}
