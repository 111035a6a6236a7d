/**
 inflate_fast: the loop over literals and strings, and the return of unused bytes.
 */
module InflateFast {
  import opened Bits
  import opened TableSpec
  import opened Lz77
  import opened Rfc1951
  import opened Wrapper
  import opened Decode
  import opened Registers
  import opened InflateSteps
  import opened InflateMatch
  import opened InflateState
  import opened InflateBlocks
  import opened InflateCodes
  import opened FastSteps

  lemma LowPart(h: nat, n: nat, k: nat)
    requires k <= n
    ensures ToBits(Low(h, k), k) == ToBits(h, n)[..k] && Low(h, k) < Pow2(k)
  {
    hide ToBits, Low, Pow2, ToInt;
    LowBits(h, n, k);
    ToBitsToInt(ToBits(h, n)[..k]);
  }

  /** The unread input is what remains of the bits that were available, after whole bytes. */
  lemma InputSuffix(r0: Regs, q: nat)
    requires r0.Ok() && r0.next <= q <= |r0.input|
    ensures r0.Unread() >= 8 * (|r0.input| - q)
    ensures r0.Avail()[r0.Unread() - 8 * (|r0.input| - q)..] == BytesBits(r0.input[q..])
  {
    hide ToBits, BytesBits, Pow2;
    BytesBitsDrop(r0.input[r0.next..], q - r0.next);
    assert r0.input[r0.next..][q - r0.next..] == r0.input[q..];
    var k := r0.bits + 8 * (q - r0.next);
    assert r0.Avail()[k..] == BytesBits(r0.input[r0.next..])[8 * (q - r0.next)..];
  }

  /** Returns unused whole bytes to the input: never more than were taken, if enough bits were used. */
  method GiveBack(r: Regs, ghost r0: Regs, ghost n: nat) returns (r': Regs)
    requires Spent(r0, r, n) && n + 7 >= r0.bits
    ensures r'.Ok() && r'.input == r.input && r'.bits == r.bits % 8 && r0.next <= r'.next
    ensures r'.Unread() == r.Unread() && r'.Avail() == r.Avail()
  {
    hide ToBits, BytesBits, Pow2, Low;
    var len := r.bits / 8;
    var j := r.bits - 8 * len;
    LowPart(r.hold, r.bits, j);
    var q := r.next - len;
    r' := Regs(r.input, q, Low(r.hold, j), j);
    InputSuffix(r0, q);
    DropDrop(r0.Avail(), n, j);
    assert r.Avail()[..j] == ToBits(r.hold, r.bits)[..j];
    assert r.Avail() == r.Avail()[..j] + r.Avail()[j..];
  }

  /** What an iteration may change. */
  ghost predicate FastFrame(s: State, s': State) {
    && s' == s.(mode := s'.mode, r := s'.r, output := s'.output, left := s'.left)
    && s.output <= s'.output && s'.left + |s'.output| == s.left + |s.output|
    && (s'.mode == LEN || s'.mode == TYPE || s'.mode == BAD)
  }

  /** The state within the loop: more bits may be held than the other modes allow. */
  ghost predicate FastOk(s: State, p: Past) {
    s.r.Ok() && s.r.bits <= 30 && Counted(s, p) && CodesOk(s, p)
  }

  /** One literal, or one length and distance. */
  method FastStep(s: State, window: array<byte>, wsize: nat, whave: nat, wnext: nat, ghost p: Past, ghost f: seq<bool>)
      returns (s': State, ghost n: nat)
    requires FastOk(s, p) && s.mode == LEN && s.r.next + 6 <= |s.r.input| && s.left >= 258
    requires HistoryOk(window[..], wsize, whave, wnext, p.hist) && Room(s, p, wsize)
    ensures FastFrame(s, s') && FastOk(s', p) && Spent(s.r, s'.r, n) && n >= 1
    ensures Pow2(s.lenbits) <= |s.lencode| && (Lean(s.r, s.lencode, s.lenbits) ==> s.r.bits < 8 || n > s.r.bits)
    ensures Agrees(Meaning(s, p, f), Meaning(s', p, f), false)
  {
    hide HeaderMeaning, HeaderOk, EndMeaning, EndOk, After, ToBits, Pow2, BytesBits, Verify, CheckOf,
      DynamicOk, Lean, LeanItem, AllWithin, Decodes, Usable, Blocks, Stored, Copy, Dynamic, CodeLenLens, CodeLens,
      Codes, LenExt, Dist, DistExt, Match, Listed, Spent, HistoryOk, LenIs, PairRead;
    ghost var w, o := WinOf(s, p).Span(), Made(s, p);
    AfterOther(s.wrap, s.flags, Corrupt(o));
    var r, c;
    r, c, n := FastLen(s.r, s.lencode, s.lenbits, s.last, p.ll, p.dl, w, o, f);
    SpentOk(s.r, r, n);
    if c.Length? {
      var good, r', len, dist, n' := FastPair(r, c.base, c.extra, s.distcode, s.distbits, s.last, p.ll, p.dl, w, o, f);
      SpentOk(r, r', n');
      SpentTrans(s.r, r, r', n, n');
      n := n + n';
      s' := FastString(s, r', good, len, dist, window, wsize, whave, wnext, p, f);
    } else {
      s' := s.(r := r, output := if c.Literal? then s.output + [c.b] else s.output,
        left := if c.Literal? then s.left - 1 else s.left,
        mode := if c.Literal? then LEN else if c.EndOfBlock? then TYPE else BAD);
      assert c.Literal? ==> Made(s', p) == o + [c.b];
      if c == BadLen {
        AtBad(s', p, r.Avail() + f);
      }
    }
  }

  method FastString(s: State, r: Regs, coded: bool, len: nat, dist: nat,
                    window: array<byte>, wsize: nat, whave: nat, wnext: nat, ghost p: Past, ghost f: seq<bool>)
      returns (s': State)
    requires FastOk(s, p) && s.mode == LEN && s.left >= 258 && r.Ok() && r.bits <= 30
    requires HistoryOk(window[..], wsize, whave, wnext, p.hist) && Room(s, p, wsize)
    requires coded ==> 3 <= len <= 258 && dist >= 1
    requires Codes(WinOf(s, p).Span(), s.last, p.ll, p.dl, s.r.Avail() + f, Made(s, p)) ==
             if coded then Match(WinOf(s, p).Span(), s.last, p.ll, p.dl, len, dist, r.Avail() + f, Made(s, p))
                 else Corrupt(Made(s, p))
    ensures FastFrame(s, s') && FastOk(s', p) && s'.r == r
    ensures Agrees(Meaning(s, p, f), Meaning(s', p, f), false)
  {
    hide HeaderMeaning, HeaderOk, EndMeaning, EndOk, After, ToBits, Pow2, BytesBits, Verify, CheckOf,
      DynamicOk, Lean, LeanItem, AllWithin, Decodes, Usable, Blocks, Stored, Copy, Dynamic, CodeLenLens, CodeLens,
      Codes, LenExt, Dist, DistExt, Match, Listed, HistoryOk, CopyMatch;
    ghost var w, o := WinOf(s, p).Span(), Made(s, p);
    AfterOther(s.wrap, s.flags, Corrupt(o));
    AfterOther(s.wrap, s.flags, Beyond(Made(s, p)));
    s' := s.(r := r, mode := BAD);
    AtBad(s', p, r.Avail() + f);
    if coded {
      HaveBound(window[..], wsize, whave, wnext, p.hist);
      NoHistory(window[..], wsize, whave, wnext, p.hist);
      var good, output := FastCopy(window, wsize, whave, wnext, len, dist, s.output, p.hist);
      if good {
        MatchStep(w, s.last, p.ll, p.dl, len, dist, r.Avail() + f, o, len);
        MatchPrefix(p.hist, s.output, output, dist, len);
        s' := s.(r := r, output := output, left := s.left - len);
      } else {
        MatchTooFar(w, s.last, p.ll, p.dl, len, dist, r.Avail() + f, o, wsize, p.hist, s.output);
      }
    }
  }

  /** The loop: t is reached from s by using n bits, among them more than all but seven of those held at first. */
  method Loop(s: State, window: array<byte>, wsize: nat, whave: nat, wnext: nat, ghost p: Past, ghost f: seq<bool>)
      returns (t: State, ghost n: nat)
    requires FastOk(s, p) && s.mode == LEN && Lean(s.r, s.lencode, s.lenbits)
    requires s.r.next + 6 <= |s.r.input| && s.left >= 258
    requires HistoryOk(window[..], wsize, whave, wnext, p.hist) && Room(s, p, wsize)
    ensures FastFrame(s, t) && FastOk(t, p) && Spent(s.r, t.r, n) && n >= 1 && n + 7 >= s.r.bits
    ensures Agrees(Meaning(s, p, f), Meaning(t, p, f), false)
    ensures t.mode == LEN ==> t.r.next + 6 > |t.r.input| || t.left < 258
  {
    hide HeaderMeaning, HeaderOk, EndMeaning, EndOk, After, ToBits, Pow2, BytesBits, Verify, CheckOf, CodesOk,
      DynamicOk, Lean, LeanItem, AllWithin, Decodes, Usable, Blocks, Stored, Copy, Dynamic, CodeLenLens, CodeLens,
      Codes, LenExt, Dist, DistExt, Match, Listed, Spent, HistoryOk, Lookup, Counted, Sound, MeaningOf;
    SpentNothing(s.r);
    t, n := s, 0;
    while t.mode == LEN && t.r.next + 6 <= |t.r.input| && t.left >= 258
      invariant FastFrame(s, t) && FastOk(t, p) && Spent(s.r, t.r, n)
      invariant t == s || (n + 7 >= s.r.bits && n >= 1)
      invariant Agrees(Meaning(s, p, f), Meaning(t, p, f), false)
      decreases t.r.Unread()
    {
      ghost var u, n1 := t, n;
      t, n1 := FastStep(t, window, wsize, whave, wnext, p, f);
      SpentOk(u.r, t.r, n1);
      SpentTrans(s.r, u.r, t.r, n, n1);
      n := n + n1;
    }
  }

  /** inflate_fast: decodes as long as it safely can, then returns the bytes it did not use. */
  method Run(s: State, window: array<byte>, wsize: nat, whave: nat, wnext: nat, ghost p: Past, flush: Flush,
        ghost f: seq<bool>)
      returns (s': State)
    requires Sound(s, p) && s.mode == LEN && s.r.next + 6 <= |s.r.input| && s.left >= 258
    requires HistoryOk(window[..], wsize, whave, wnext, p.hist) && Room(s, p, wsize)
    ensures Stepped(s, p, s', p, Go, flush, f)
    ensures s.r.next <= s'.r.next && s'.r.bits < 8 && (s'.mode == LEN || s'.mode == TYPE || s'.mode == BAD)
  {
    hide HeaderMeaning, HeaderOk, EndMeaning, EndOk, After, ToBits, Pow2, BytesBits, Verify, CheckOf,
      DynamicOk, LeanItem, AllWithin, Decodes, Usable, Blocks, Stored, Copy, Dynamic, CodeLenLens, CodeLens, Codes,
      LenExt, Dist, DistExt, Match, Listed, Spent, HistoryOk, Lookup;
    var t, n := Loop(s, window, wsize, whave, wnext, p, f);
    SpentOk(s.r, t.r, n);
    var r := GiveBack(t.r, s.r, n);
    SameMeaning(t, p, t.(r := r), p, r.Avail() + f);
    s' := t.(r := r);
    if s'.mode == BAD {
      AtBad(s', p, r.Avail() + f);
    }
  }

  lemma SpentNothing(r: Regs)
    requires r.Ok()
    ensures Spent(r, r, 0)
  {
  }
}
