/**
 The steps of inflate in the codes of a block, one code at a time.
 */
module InflateCodes {
  import opened Bits
  import opened TableSpec
  import opened Lz77
  import opened Rfc1951
  import opened Wrapper
  import opened Decode
  import opened Registers
  import opened InflateSteps
  import opened InflateMatch
  import opened InflateState
  import opened InflateBlocks

  /** LEN_ */
  method EnterLen(s: State, ghost p: Past, flush: Flush, ghost f: seq<bool>) returns (stop: Stop, s': State)
    requires Sound(s, p) && s.mode == LEN_
    ensures Stepped(s, p, s', p, stop, flush, f) && stop == Go && s' == s.(mode := LEN)
  {
    hide HeaderMeaning, HeaderOk, EndMeaning, EndOk, After, ToBits, Pow2, BytesBits, Verify, CheckOf,
      DynamicOk, LeanItem, AllWithin, Decodes, Usable, Blocks, Stored, Copy, Dynamic, CodeLenLens, CodeLens, Codes,
      LenExt, Dist, DistExt, Match, Listed;
    stop, s' := Go, s.(mode := LEN);
  }

  /** LEN: a literal/length code. */
  method DoLen(s: State, ghost p: Past, flush: Flush, ghost f: seq<bool>) returns (stop: Stop, s': State)
    requires Sound(s, p) && s.mode == LEN
    ensures Stepped(s, p, s', p, stop, flush, f)
    ensures s.r.Ok() && s'.r.Ok() && LenTaken(s, p, s', stop, f)
  {
    hide HeaderMeaning, HeaderOk, EndMeaning, EndOk, After, ToBits, Pow2, BytesBits, Verify, CheckOf,
      DynamicOk, Lean, LeanItem, AllWithin, Decodes, Usable, Blocks, Stored, Copy, Dynamic, CodeLenLens, CodeLens,
      Codes, LenExt, Dist, DistExt, Match, Listed, Stepped, AfterLen, Counted;
    ghost var w, o := WinOf(s, p).Span(), Made(s, p);
    AfterOther(s.wrap, s.flags, Starved(o));
    AfterOther(s.wrap, s.flags, Corrupt(o));
    var more, r, c := StepLen(s.r, s.lencode, s.lenbits, s.last, p.ll, p.dl, w, o, f);
    if more {
      stop, s' := LenRead(s, p, r, c, flush, f);
    } else {
      Waits(s, p, r, flush, f);
      stop, s' := NeedInput, s.(r := r);
    }
  }

  method LenRead(s: State, ghost p: Past, r: Regs, c: LenCode, flush: Flush, ghost f: seq<bool>)
      returns (stop: Stop, s': State)
    requires Sound(s, p) && s.mode == LEN
    requires r.Ok() && r.input == s.r.input && r.bits < 8 && r.Unread() < s.r.Unread()
    requires c.Length? ==> 3 <= c.base && c.extra <= 5
    requires Codes(WinOf(s, p).Span(), s.last, p.ll, p.dl, s.r.Avail() + f, Made(s, p)) ==
             AfterLen(c, WinOf(s, p).Span(), s.last, p.ll, p.dl, r.Avail() + f, Made(s, p))
    ensures Stepped(s, p, s', p, stop, flush, f) && stop == Go && s' == AfterLenState(s, r, c)
  {
    hide HeaderMeaning, HeaderOk, EndMeaning, EndOk, After, ToBits, Pow2, BytesBits, Verify, CheckOf,
      DynamicOk, Lean, LeanItem, AllWithin, Decodes, Usable, Blocks, Stored, Copy, Dynamic, CodeLenLens, CodeLens,
      Codes, LenExt, Dist, DistExt, Match, Listed;
    AfterOther(s.wrap, s.flags, Corrupt(Made(s, p)));
    s' := AfterLenState(s, r, c);
    stop := Go;
    assert c.Literal? ==> 0 <= c.b < 256;
    if c == BadLen {
      AtBad(s', p, r.Avail() + f);
    }
  }

  function AfterLenState(s: State, r: Regs, c: LenCode): State {
    match c
    case Literal(b) => s.(r := r, length := b, mode := LIT)
    case Length(base, extra) => s.(r := r, length := base, extra := extra, mode := LENEXT)
    case EndOfBlock => s.(r := r, mode := TYPE)
    case BadLen => s.(r := r, mode := BAD)
  }

  /** LENEXT */
  method DoLenExt(s: State, ghost p: Past, flush: Flush, ghost f: seq<bool>) returns (stop: Stop, s': State)
    requires Sound(s, p) && s.mode == LENEXT
    ensures Stepped(s, p, s', p, stop, flush, f)
  {
    hide HeaderMeaning, HeaderOk, EndMeaning, EndOk, After, ToBits, Pow2, BytesBits, Verify, CheckOf,
      DynamicOk, LeanItem, AllWithin, Decodes, Usable, Blocks, Stored, Copy, Dynamic, CodeLenLens, CodeLens, Codes,
      LenExt, Dist, DistExt, Match, Listed;
    ghost var w, o := WinOf(s, p).Span(), Made(s, p);
    AfterOther(s.wrap, s.flags, Starved(o));
    AfterOther(s.wrap, s.flags, Corrupt(o));
    var more, r, length := StepLenExt(s.r, s.length, s.extra, s.last, p.ll, p.dl, w, o, f);
    if more {
      stop, s' := Go, s.(r := r, length := length, mode := DIST);
    } else {
      Waits(s, p, r, flush, f);
      stop, s' := NeedInput, s.(r := r);
    }
  }

  /** DIST: a distance code. */
  method DoDist(s: State, ghost p: Past, flush: Flush, ghost f: seq<bool>) returns (stop: Stop, s': State)
    requires Sound(s, p) && s.mode == DIST
    ensures Stepped(s, p, s', p, stop, flush, f)
  {
    hide HeaderMeaning, HeaderOk, EndMeaning, EndOk, After, ToBits, Pow2, BytesBits, Verify, CheckOf,
      DynamicOk, Lean, LeanItem, AllWithin, Decodes, Usable, Blocks, Stored, Copy, Dynamic, CodeLenLens, CodeLens,
      Codes, LenExt, Dist, DistExt, Match, Listed, Stepped;
    ghost var w, o := WinOf(s, p).Span(), Made(s, p);
    AfterOther(s.wrap, s.flags, Starved(o));
    var more, r, c := StepDist(s.r, s.distcode, s.distbits, s.length, s.last, p.ll, p.dl, w, o, f);
    if more && c.BadDist? {
      stop, s' := Go, s.(r := r, mode := BAD);
      BlockBad(s, p, r, flush, f);
    } else if more {
      stop, s' := Go, s.(r := r, offset := c.base, extra := c.extra, mode := DISTEXT);
      DistRead(s, p, r, c.base, c.extra, flush, f);
    } else {
      Waits(s, p, r, flush, f);
      stop, s' := NeedInput, s.(r := r);
    }
  }

  lemma DistRead(s: State, p: Past, r: Regs, base: nat, extra: nat, flush: Flush, f: seq<bool>)
    requires Sound(s, p) && s.mode == DIST && r.Ok() && r.input == s.r.input && r.bits < 8 && r.Unread() < s.r.Unread()
    requires 1 <= base && extra <= 13 && base + Pow2(extra) <= 32769
    requires Dist(WinOf(s, p).Span(), s.last, p.ll, p.dl, s.length, s.r.Avail() + f, Made(s, p)) ==
             DistExt(WinOf(s, p).Span(), s.last, p.ll, p.dl, s.length, base, extra, r.Avail() + f, Made(s, p))
    ensures Stepped(s, p, s.(r := r, offset := base, extra := extra, mode := DISTEXT), p, Go, flush, f)
  {
    hide HeaderMeaning, HeaderOk, EndMeaning, EndOk, After, ToBits, Pow2, BytesBits, Verify, CheckOf,
      DynamicOk, Lean, LeanItem, AllWithin, Decodes, Usable, Blocks, Stored, Copy, Dynamic, CodeLenLens, CodeLens,
      Codes, LenExt, Dist, DistExt, Match, Listed;
  }

  /** DISTEXT */
  method DoDistExt(s: State, ghost p: Past, flush: Flush, ghost f: seq<bool>) returns (stop: Stop, s': State)
    requires Sound(s, p) && s.mode == DISTEXT
    ensures Stepped(s, p, s', p, stop, flush, f)
  {
    hide HeaderMeaning, HeaderOk, EndMeaning, EndOk, After, ToBits, Pow2, BytesBits, Verify, CheckOf,
      DynamicOk, Lean, LeanItem, AllWithin, Decodes, Usable, Blocks, Stored, Copy, Dynamic, CodeLenLens, CodeLens,
      Codes, LenExt, Dist, DistExt, Match, Listed, Size, Wrapper.Trailer, ToInt, Regs.Avail;
    ghost var w, o := WinOf(s, p).Span(), Made(s, p);
    AfterOther(s.wrap, s.flags, Starved(o));
    AfterOther(s.wrap, s.flags, Corrupt(o));
    var more, r, offset := StepDistExt(s.r, s.length, s.offset, s.extra, s.last, p.ll, p.dl, w, o, f);
    if more {
      stop, s' := Go, s.(r := r, offset := offset, mode := MATCH);
    } else {
      Waits(s, p, r, flush, f);
      stop, s' := NeedInput, s.(r := r);
    }
  }

  /** LIT */
  lemma LitIsByte(s: State, p: Past)
    requires Sound(s, p) && s.mode == LIT
    ensures s.length < 256
  {
    hide HeaderMeaning, HeaderOk, EndMeaning, EndOk, After, ToBits, Pow2, BytesBits, Verify, CheckOf,
      DynamicOk, LeanItem, AllWithin, Decodes, Usable, Blocks, Stored, Copy, Dynamic, CodeLenLens, CodeLens, Codes,
      LenExt, Dist, DistExt, Match, Listed;
  }

  method DoLit(s: State, ghost p: Past, flush: Flush, ghost f: seq<bool>) returns (stop: Stop, s': State)
    requires Sound(s, p) && s.mode == LIT && s.left > 0 && s.length < 256
    ensures Stepped(s, p, s', p, stop, flush, f)
    ensures stop == Go && s' == s.(output := s.output + [s.length], left := s.left - 1, mode := LEN)
  {
    hide HeaderMeaning, HeaderOk, EndMeaning, EndOk, After, ToBits, Pow2, BytesBits, Verify, CheckOf,
      DynamicOk, LeanItem, AllWithin, Decodes, Usable, Blocks, Stored, Copy, Dynamic, CodeLenLens, CodeLens, Codes,
      LenExt, Dist, DistExt, Match, Listed;
    stop, s' := Go, s.(output := s.output + [s.length], left := s.left - 1, mode := LEN);
    assert Made(s, p) + [s.length] == Made(s', p);
  }

  /** MATCH: copies as much of the string as lies together and fits. */
  method DoMatch(s: State, window: array<byte>, wsize: nat, whave: nat, wnext: nat,
                 ghost p: Past, flush: Flush, ghost f: seq<bool>) returns (stop: Stop, s': State)
    requires Sound(s, p) && s.mode == MATCH && s.left > 0
    requires HistoryOk(window[..], wsize, whave, wnext, p.hist) && Room(s, p, wsize)
    ensures Stepped(s, p, s', p, stop, flush, f)
  {
    hide HeaderMeaning, HeaderOk, EndMeaning, EndOk, After, ToBits, Pow2, BytesBits, Verify, CheckOf,
      DynamicOk, LeanItem, AllWithin, Decodes, Usable, Blocks, Stored, Copy, Dynamic, CodeLenLens, CodeLens, Codes,
      LenExt, Dist, DistExt, Match, Listed, HistoryOk, CopyMatch, Stepped;
    ghost var w, o := WinOf(s, p).Span(), Made(s, p);
    HaveBound(window[..], wsize, whave, wnext, p.hist);
    var good, output, n := StepMatch(window, wsize, whave, wnext, s.length, s.offset, s.output, s.left, p.hist);
    if good {
      MatchPrefix(p.hist, s.output, output, s.offset, n);
      stop, s' := Go, s.(output := output, left := s.left - n, length := s.length - n, mode := if s.length == n then LEN
          else MATCH);
      WithinSpan(s, p, window[..], wsize, whave, wnext);
      MatchCopied(s, p, output, n, flush, f);
    } else {
      NoHistory(window[..], wsize, whave, wnext, p.hist);
      MatchTooFar(w, s.last, p.ll, p.dl, s.length, s.offset, s.r.Avail() + f, o, wsize, p.hist, s.output);
      stop, s' := Go, s.(mode := BAD);
      MatchBad(s, p, flush, f);
    }
  }

  /** With room for one byte, a distance that is accepted is within the window. */
  lemma WithinSpan(s: State, p: Past, win: seq<byte>, wsize: nat, whave: nat, wnext: nat)
    requires HistoryOk(win, wsize, whave, wnext, p.hist) && Room(s, p, wsize) && 1 <= s.offset <= |s.output| + whave
    ensures Tight(s) && s.left > 0 ==> s.offset <= WinOf(s, p).Span()
  {
    hide Pow2;
    HaveBound(win, wsize, whave, wnext, p.hist);
    NoHistory(win, wsize, whave, wnext, p.hist);
  }

  lemma MatchCopied(s: State, p: Past, output: seq<byte>, n: nat, flush: Flush, f: seq<bool>)
    requires Sound(s, p) && s.mode == MATCH && 0 < n <= s.left && n <= s.length && s.offset <= |Made(s, p)|
    requires Tight(s) ==> s.offset <= WinOf(s, p).Span()
    requires |output| == |s.output| + n && s.output <= output && p.hist + output == CopyMatch(Made(s, p), s.offset, n)
    ensures Stepped(s, p, s.(output := output, left := s.left - n, length := s.length - n, mode := if s.length == n then
            LEN else MATCH), p, Go, flush, f)
  {
    hide HeaderMeaning, HeaderOk, EndMeaning, EndOk, After, ToBits, Pow2, BytesBits, Verify, CheckOf,
      DynamicOk, LeanItem, AllWithin, Decodes, Usable, Blocks, Stored, Copy, Dynamic, CodeLenLens, CodeLens, Codes,
      LenExt, Dist, DistExt, Match, Listed, CopyMatch;
    MatchStep(WinOf(s, p).Span(), s.last, p.ll, p.dl, s.length, s.offset, s.r.Avail() + f, Made(s, p), n);
    AfterOther(s.wrap, s.flags, Beyond(Made(s, p)));
  }

  lemma MatchBad(s: State, p: Past, flush: Flush, f: seq<bool>)
    requires Sound(s, p) && s.mode == MATCH
    requires Match(WinOf(s, p).Span(), s.last, p.ll, p.dl, s.length, s.offset, s.r.Avail() + f,
             Made(s, p)) in {Corrupt(Made(s, p)), Beyond(Made(s, p))}
    ensures Stepped(s, p, s.(mode := BAD), p, Go, flush, f)
  {
    hide HeaderMeaning, HeaderOk, EndMeaning, EndOk, After, ToBits, Pow2, BytesBits, Verify, CheckOf,
      DynamicOk, LeanItem, AllWithin, Decodes, Usable, Blocks, Stored, Copy, Dynamic, CodeLenLens, CodeLens, Codes,
      LenExt, Dist, DistExt, Match, Listed, CopyMatch;
    AfterOther(s.wrap, s.flags, Beyond(Made(s, p)));
    AfterOther(s.wrap, s.flags, Corrupt(Made(s, p)));
    AtBad(s.(mode := BAD), p, s.r.Avail() + f);
  }

  lemma NoHistory(win: seq<byte>, wsize: nat, whave: nat, wnext: nat, hist: seq<byte>)
    requires HistoryOk(win, wsize, whave, wnext, hist)
    ensures wsize == 0 ==> hist == []
  {
  }

  lemma MatchPrefix(hist: seq<byte>, output: seq<byte>, output': seq<byte>, dist: nat, n: nat)
    requires 1 <= dist <= |hist + output| && hist + output' == CopyMatch(hist + output, dist, n)
    ensures output <= output'
  {
    forall i | 0 <= i < |output| ensures output'[i] == output[i] {
      CopyAt(hist + output, dist, n, |hist| + i);
      assert (hist + output')[|hist| + i] == output'[i];
    }
  }
}
