/**
 The steps of inflate in the blocks.
 */
module InflateBlocks {
  import opened Bits
  import opened Canonical
  import opened TableSpec
  import opened Rfc1951
  import opened Wrapper
  import opened Decode
  import opened Registers
  import opened InflateSteps
  import opened InflateState
  import Fixed

  lemma AfterFinished(wrap: nat, flags: int, o: seq<byte>, rest: seq<bool>)
    ensures After(wrap, flags, Finished(o, rest)) == Wrapper.Trailer(wrap, flags, rest, o)
  {
  }

  lemma AfterOther(wrap: nat, flags: int, o: Outcome)
    requires !o.Finished?
    ensures After(wrap, flags, o) == o
  {
  }

  /** TYPE, TYPEDO: the three bits that begin a block, or the end of the blocks. */
  method DoType(s: State, ghost p: Past, flush: Flush, ghost f: seq<bool>)
      returns (stop: Stop, s': State, ghost p': Past)
    requires Sound(s, p) && (s.mode == TYPE || s.mode == TYPEDO) && MayBegin(s, flush) && |f| % 8 == 0
    ensures Stepped(s, p, s', p', stop, flush, f)
    ensures s.r.Ok() && s'.r.Ok() && (!s.last ==> TypeTaken(s, p, s', p', stop, flush, f))
  {
    hide HeaderMeaning, HeaderOk, EndMeaning, EndOk, After, ToBits, Pow2, BytesBits, Verify, CheckOf, CodesOk,
      DynamicOk, Lean, LeanItem, AllWithin, Decodes, Usable, Blocks, Stored, Copy, Dynamic, CodeLenLens, CodeLens,
      Codes, LenExt, Dist, DistExt, Match, Listed, Stepped, Counted, FixedTaken, ToInt, Align;
    p' := p;
    ghost var w, o := WinOf(s, p).Span(), Made(s, p);
    AfterOther(s.wrap, s.flags, Starved(o));
    AfterOther(s.wrap, s.flags, Corrupt(o));
    var more, r, last, to := StepType(s.r, s.last, w, o, f);
    if more && to == ToFixed {
      stop, s', p' := StartFixed(s, p, r, last, flush, f);
    } else if more {
      stop, s' := StartOther(s, p, r, last, to, flush, f);
    } else {
      Waits(s, p, r, flush, f);
      stop, s' := NeedInput, s.(r := r);
    }
  }

  ghost function AfterType(to: Next, w: nat, last: bool, b: seq<bool>, o: seq<byte>): Outcome {
    match to
    case Trailer => Finished(o, b)
    case ToStored => Stored(w, last, b, o)
    case ToFixed => Codes(w, last, FIXED_LENS, FIXED_DISTS, b, o)
    case ToDynamic => Dynamic(w, last, b, o)
    case Invalid => Corrupt(o)
  }

  method StartOther(s: State, ghost p: Past, r: Regs, last: bool, to: Next, flush: Flush, ghost f: seq<bool>)
      returns (stop: Stop, s': State)
    requires Sound(s, p) && (s.mode == TYPE || s.mode == TYPEDO) && MayBegin(s, flush) && to != ToFixed
    requires r.Ok() && r.input == s.r.input && r.bits < 8 && r.Unread() <= s.r.Unread()
    requires if to == Trailer then r.bits == 0 else r.Unread() < s.r.Unread()
    requires Blocks(WinOf(s, p).Span(), s.last, s.r.Avail() + f, Made(s, p)) ==
             AfterType(to, WinOf(s, p).Span(), last, r.Avail() + f, Made(s, p))
    ensures Stepped(s, p, s', p, stop, flush, f) && stop == Go && s'.r == r
  {
    hide HeaderMeaning, HeaderOk, EndMeaning, EndOk, After, ToBits, Pow2, BytesBits, Verify, CheckOf, CodesOk,
      DynamicOk, Lean, LeanItem, AllWithin, Decodes, Usable, Blocks, Stored, Copy, Dynamic, CodeLenLens, CodeLens,
      Codes, LenExt, Dist, DistExt, Match, Listed;
    AfterOther(s.wrap, s.flags, Corrupt(Made(s, p)));
    AfterFinished(s.wrap, s.flags, Made(s, p), r.Avail() + f);
    stop, s' := Go, s.(r := r, last := last,
      mode := match to case Trailer => CHECK case ToStored => STORED case ToDynamic => TABLE case _ => BAD);
    if to == Trailer {
      AtCheck(s', p, r.Avail() + f);
    } else if to == Invalid {
      AtBad(s', p, r.Avail() + f);
    }
  }

  /** A fixed block: its codes are given by the format. */
  method StartFixed(s: State, ghost p: Past, r: Regs, last: bool, flush: Flush, ghost f: seq<bool>)
      returns (stop: Stop, s': State, ghost p': Past)
    requires Sound(s, p) && (s.mode == TYPE || s.mode == TYPEDO) && MayBegin(s, flush)
    requires r.Ok() && r.input == s.r.input && r.bits < 8 && r.Unread() < s.r.Unread()
    requires Blocks(WinOf(s, p).Span(), s.last, s.r.Avail() + f, Made(s, p)) ==
             Codes(WinOf(s, p).Span(), last, FIXED_LENS, FIXED_DISTS, r.Avail() + f, Made(s, p))
    ensures Stepped(s, p, s', p', stop, flush, f)
    ensures s'.r.Ok() && FixedTaken(s, p, s', p', stop, flush, last, r.Avail() + f, f) && stop != NeedInput
  {
    hide HeaderMeaning, HeaderOk, EndMeaning, EndOk, After, ToBits, Pow2, BytesBits, Verify, CheckOf,
      DynamicOk, LeanItem, AllWithin, Decodes, Usable, Blocks, Stored, Copy, Dynamic, CodeLenLens, CodeLens, Codes,
      LenExt, Dist, DistExt, Match, Listed;
    var lencode, lenbits, distcode, distbits := Fixed.FixedTables();
    TableSize(lencode, lenbits, LENS, FIXED_LENS);
    TableSize(distcode, distbits, DISTS, FIXED_DISTS);
    p' := p.(ll := FIXED_LENS, dl := FIXED_DISTS);
    s' := s.(r := r, last := last, lencode := lencode, lenbits := lenbits, distcode := distcode, distbits := distbits,
        mode := LEN_);
    stop := if flush == TREES then AtBoundary else Go;
  }

  lemma TableSize(t: seq<Code>, root: nat, kind: Kind, lens: seq<nat>)
    requires Decodes(t, root, kind, lens)
    ensures Pow2(root) <= |t|
  {
  }

  method DoStored(s: State, ghost p: Past, flush: Flush, ghost f: seq<bool>) returns (stop: Stop, s': State)
    requires Sound(s, p) && s.mode == STORED && |f| % 8 == 0
    ensures Stepped(s, p, s', p, stop, flush, f)
  {
    hide HeaderMeaning, HeaderOk, EndMeaning, EndOk, After, ToBits, Pow2, BytesBits, Verify, CheckOf, CodesOk,
      DynamicOk, Lean, LeanItem, AllWithin, Decodes, Usable, Blocks, Stored, Copy, Dynamic, CodeLenLens, CodeLens,
      Codes, LenExt, Dist, DistExt, Match, Listed, Stepped;
    ghost var w, o := WinOf(s, p).Span(), Made(s, p);
    AfterOther(s.wrap, s.flags, Starved(o));
    var more, r, good, length := StepStored(s.r, s.last, w, o, f);
    if more && good {
      stop := if flush == TREES then AtBoundary else Go;
      s' := s.(r := r, length := length, mode := COPY_);
      StoredRead(s, p, r, length, flush, f);
    } else if more {
      stop, s' := Go, s.(r := r, mode := BAD);
      BlockBad(s, p, r, flush, f);
    } else {
      stop, s' := NeedInput, s.(r := r);
      StoredWaits(s, p, r, flush, f);
    }
  }

  lemma StoredRead(s: State, p: Past, r: Regs, length: nat, flush: Flush, f: seq<bool>)
    requires Sound(s, p) && s.mode == STORED && r.Ok() && r.input == s.r.input && r.bits == 0 &&
             r.Unread() < s.r.Unread()
    requires Stored(WinOf(s, p).Span(), s.last, s.r.Avail() + f, Made(s, p)) ==
             Copy(WinOf(s, p).Span(), s.last, length, r.Avail() + f, Made(s, p))
    ensures Stepped(s, p, s.(r := r, length := length, mode := COPY_), p, if flush == TREES then AtBoundary
            else Go, flush, f)
  {
    hide HeaderMeaning, HeaderOk, EndMeaning, EndOk, After, ToBits, Pow2, BytesBits, Verify, CheckOf, CodesOk,
      DynamicOk, Lean, LeanItem, AllWithin, Decodes, Usable, Blocks, Stored, Copy, Dynamic, CodeLenLens, CodeLens,
      Codes, LenExt, Dist, DistExt, Match, Listed;
  }

  lemma StoredWaits(s: State, p: Past, r: Regs, flush: Flush, f: seq<bool>)
    requires Sound(s, p) && s.mode == STORED && r.Ok() && r.input == s.r.input && r.Unread() <= s.r.Unread() &&
             r.next == |r.input|
    requires r.bits < 8 || (r.bits % 8 == 0 && r.bits < 32)
    requires Stored(WinOf(s, p).Span(), s.last, s.r.Avail() + f, Made(s, p)) ==
             Stored(WinOf(s, p).Span(), s.last, r.Avail() + f, Made(s, p))
    requires Stored(WinOf(s, p).Span(), s.last, r.Avail(), Made(s, p)) == Starved(Made(s, p))
    ensures Stepped(s, p, s.(r := r), p, NeedInput, flush, f)
  {
    hide HeaderMeaning, HeaderOk, EndMeaning, EndOk, After, ToBits, Pow2, BytesBits, Verify, CheckOf, CodesOk,
      DynamicOk, Lean, LeanItem, AllWithin, Decodes, Usable, Blocks, Stored, Copy, Dynamic, CodeLenLens, CodeLens,
      Codes, LenExt, Dist, DistExt, Match, Listed;
    AfterOther(s.wrap, s.flags, Starved(Made(s, p)));
    assert r.Avail() + [] == r.Avail();
  }

  method DoCopy(s: State, ghost p: Past, flush: Flush, ghost f: seq<bool>) returns (stop: Stop, s': State)
    requires Sound(s, p) && (s.mode == COPY_ || s.mode == COPY)
    ensures Stepped(s, p, s', p, stop, flush, f)
  {
    hide HeaderMeaning, HeaderOk, EndMeaning, EndOk, After, ToBits, Pow2, BytesBits, Verify, CheckOf, CodesOk,
      DynamicOk, Lean, LeanItem, AllWithin, Decodes, Usable, Blocks, Stored, Copy, Dynamic, CodeLenLens, CodeLens,
      Codes, LenExt, Dist, DistExt, Match, Listed, Stepped;
    ghost var w, o := WinOf(s, p).Span(), Made(s, p);
    var more, r, data := StepCopy(s.r, s.last, s.length, s.left, w, o, f);
    if s.length == 0 {
      stop, s' := Go, s.(mode := TYPE);
      CopiedAll(s, p, flush, f);
    } else if more {
      stop, s' := Go, s.(r := r, output := s.output + data, left := s.left - |data|, length := s.length - |data|,
          mode := COPY);
      CopiedSome(s, p, r, data, flush, f);
    } else {
      stop, s' := if s.left == 0 then NeedSpace else NeedInput, s.(r := r, mode := COPY);
      assert o + data == o;
      CopyWaits(s, p, r, flush, f);
    }
  }

  lemma CopiedAll(s: State, p: Past, flush: Flush, f: seq<bool>)
    requires Sound(s, p) && (s.mode == COPY_ || s.mode == COPY) && s.length == 0
    ensures Stepped(s, p, s.(mode := TYPE), p, Go, flush, f)
  {
    hide HeaderMeaning, HeaderOk, EndMeaning, EndOk, After, ToBits, Pow2, BytesBits, Verify, CheckOf, CodesOk,
      DynamicOk, Lean, LeanItem, AllWithin, Decodes, Usable, Blocks, Stored, Copy, Dynamic, CodeLenLens, CodeLens,
      Codes, LenExt, Dist, DistExt, Match, Listed;
    CopyDone(WinOf(s, p).Span(), s.last, s.r.Avail() + f, Made(s, p));
  }

  lemma CopiedSome(s: State, p: Past, r: Regs, data: seq<byte>, flush: Flush, f: seq<bool>)
    requires Sound(s, p) && (s.mode == COPY_ || s.mode == COPY) && 0 < |data| <= s.length && |data| <= s.left
    requires r.Ok() && r.input == s.r.input && r.bits == 0 && r.Unread() == s.r.Unread() - 8 * |data|
    requires Copy(WinOf(s, p).Span(), s.last, s.length, s.r.Avail() + f, Made(s, p)) ==
             Copy(WinOf(s, p).Span(), s.last, s.length - |data|, r.Avail() + f, Made(s, p) + data)
    ensures Stepped(s, p, s.(r := r, output := s.output + data, left := s.left - |data|, length := s.length - |data|,
            mode := COPY), p, Go, flush, f)
  {
    hide HeaderMeaning, HeaderOk, EndMeaning, EndOk, After, ToBits, Pow2, BytesBits, Verify, CheckOf, CodesOk,
      DynamicOk, Lean, LeanItem, AllWithin, Decodes, Usable, Blocks, Stored, Copy, Dynamic, CodeLenLens, CodeLens,
      Codes, LenExt, Dist, DistExt, Match, Listed;
    assert Made(s, p) + data == p.hist + (s.output + data);
  }

  lemma CopyWaits(s: State, p: Past, r: Regs, flush: Flush, f: seq<bool>)
    requires Sound(s, p) && (s.mode == COPY_ || s.mode == COPY) && r.Ok() && r.input == s.r.input && r.bits == 0 &&
             r.Unread() == s.r.Unread()
    requires Copy(WinOf(s, p).Span(), s.last, s.length, s.r.Avail() + f, Made(s, p)) ==
             Copy(WinOf(s, p).Span(), s.last, s.length, r.Avail() + f, Made(s, p))
    requires s.left == 0 || (r.next == |r.input| &&
             Copy(WinOf(s, p).Span(), s.last, s.length, r.Avail(), Made(s, p)) == Starved(Made(s, p)))
    ensures Stepped(s, p, s.(r := r, mode := COPY), p, if s.left == 0 then NeedSpace else NeedInput, flush, f)
  {
    hide HeaderMeaning, HeaderOk, EndMeaning, EndOk, After, ToBits, Pow2, BytesBits, Verify, CheckOf, CodesOk,
      DynamicOk, Lean, LeanItem, AllWithin, Decodes, Usable, Blocks, Stored, Copy, Dynamic, CodeLenLens, CodeLens,
      Codes, LenExt, Dist, DistExt, Match, Listed;
    AfterOther(s.wrap, s.flags, Starved(Made(s, p)));
    assert r.Avail() + [] == r.Avail();
  }

  method DoTable(s: State, ghost p: Past, flush: Flush, ghost f: seq<bool>) returns (stop: Stop, s': State)
    requires Sound(s, p) && s.mode == TABLE
    ensures Stepped(s, p, s', p, stop, flush, f)
  {
    hide HeaderMeaning, HeaderOk, EndMeaning, EndOk, After, ToBits, Pow2, BytesBits, Verify, CheckOf, CodesOk,
      Lean, LeanItem, Decodes, Usable, Blocks, Stored, Copy, Dynamic, CodeLenLens, CodeLens, Codes, LenExt,
      Dist, DistExt, Match, Stepped;
    ghost var w, o := WinOf(s, p).Span(), Made(s, p);
    AfterOther(s.wrap, s.flags, Starved(o));
    var more, r, good, nlen, ndist, ncode := StepTable(s.r, s.last, w, o, f);
    if more && good {
      s' := s.(r := r, nlen := nlen, ndist := ndist, ncode := ncode, have := 0, mode := LENLENS);
      stop := Go;
      TableRead(s, p, r, nlen, ndist, ncode, flush, f);
    } else if more {
      stop, s' := Go, s.(r := r, mode := BAD);
      BlockBad(s, p, r, flush, f);
    } else {
      Waits(s, p, r, flush, f);
      stop, s' := NeedInput, s.(r := r);
    }
  }

  lemma TableRead(s: State, p: Past, r: Regs, nlen: nat, ndist: nat, ncode: nat, flush: Flush, f: seq<bool>)
    requires Sound(s, p) && s.mode == TABLE && 257 <= nlen <= 286 && 1 <= ndist <= 30 && 4 <= ncode <= 19
    requires r.Ok() && r.input == s.r.input && r.bits < 8 && r.Unread() < s.r.Unread()
    requires Dynamic(WinOf(s, p).Span(), s.last, s.r.Avail() + f, Made(s, p)) ==
             CodeLenLens(WinOf(s, p).Span(), s.last, nlen, ndist, ncode, [], r.Avail() + f, Made(s, p))
    ensures Stepped(s, p, s.(r := r, nlen := nlen, ndist := ndist, ncode := ncode, have := 0, mode := LENLENS), p, Go,
            flush, f)
  {
    hide HeaderMeaning, HeaderOk, EndMeaning, EndOk, After, ToBits, Pow2, BytesBits, Verify, CheckOf, CodesOk,
      Lean, LeanItem, Decodes, Usable, Blocks, Stored, Copy, Dynamic, CodeLenLens, CodeLens, Codes, LenExt,
      Dist, DistExt, Match;
  }

  /** What is not a block of the format. */
  lemma BlockBad(s: State, p: Past, r: Regs, flush: Flush, f: seq<bool>)
    requires Sound(s, p) && s.mode.InBlocks() && r.Ok() && r.input == s.r.input && r.Unread() <= s.r.Unread()
    requires BlockMeaning(s, p, s.r.Avail() + f) == Corrupt(Made(s, p)) && MayBegin(s, flush)
    ensures Stepped(s, p, s.(r := r, mode := BAD), p, Go, flush, f)
  {
    hide HeaderMeaning, HeaderOk, EndMeaning, EndOk, BlockMeaning, ToBits, BytesBits, Verify, CheckOf, CodesOk,
      DynamicOk, Lean, LeanItem, AllWithin, After;
    AfterOther(s.wrap, s.flags, Corrupt(Made(s, p)));
    AtBad(s.(r := r, mode := BAD), p, r.Avail() + f);
  }

  lemma LenLensDone(w: nat, last: bool, nlen: nat, ndist: nat, ncode: nat, got: seq<nat>, b: seq<bool>, o: seq<byte>)
    requires |got| >= ncode && AllWithin(Placed(got), 7)
    ensures CodeLenLens(w, last, nlen, ndist, ncode, got, b, o) ==
            if Refused(CODES, Placed(got)) then Corrupt(o) else CodeLens(w, last, nlen, ndist, Placed(got), [], b, o)
  {
    hide Placed, CodeLens, Refused;
  }

  /** LENLENS: the lengths of the code length code, and its table. */
  method DoLenLens(s: State, ghost p: Past, flush: Flush, ghost f: seq<bool>)
      returns (stop: Stop, s': State, ghost p': Past)
    requires Sound(s, p) && s.mode == LENLENS
    ensures Stepped(s, p, s', p', stop, flush, f)
  {
    hide HeaderMeaning, HeaderOk, EndMeaning, EndOk, After, ToBits, Pow2, BytesBits, Verify, CheckOf, CodesOk,
      Lean, LeanItem, AllWithin, Decodes, Usable, Blocks, Stored, Copy, Dynamic, CodeLenLens, CodeLens, Codes,
      LenExt, Dist, DistExt, Match, Listed, Refused, Placed;
    ghost var w, o := WinOf(s, p).Span(), Made(s, p);
    AfterOther(s.wrap, s.flags, Starved(o));
    AfterOther(s.wrap, s.flags, Corrupt(o));
    p' := p;
    var more, r, have, lens := StepLenLens(s.r, s.last, s.nlen, s.ndist, s.ncode, s.have, s.lens, w, o, f);
    if more {
      stop, s', p' := LenLensRead(s, p, r, lens, flush, f);
    } else {
      stop, s' := NeedInput, s.(r := r, have := have, lens := lens);
      assert r.Avail() + [] == r.Avail();
    }
  }

  method LenLensRead(s: State, ghost p: Past, r: Regs, lens: seq<nat>, flush: Flush, ghost f: seq<bool>)
      returns (stop: Stop, s': State, ghost p': Past)
    requires Sound(s, p) && s.mode == LENLENS
    requires r.Ok() && r.input == s.r.input && r.bits < 8 && r.Unread() <= s.r.Unread()
    requires |lens| == |s.lens| && AllWithin(Listed(lens, s.ncode), 7)
    requires CodeLenLens(WinOf(s, p).Span(), s.last, s.nlen, s.ndist, s.ncode, Listed(s.lens, s.have), s.r.Avail() + f,
             Made(s, p)) ==
             CodeLenLens(WinOf(s, p).Span(), s.last, s.nlen, s.ndist, s.ncode, Listed(lens, s.ncode), r.Avail() + f,
                 Made(s, p))
    ensures Stepped(s, p, s', p', stop, flush, f)
  {
    hide HeaderMeaning, HeaderOk, EndMeaning, EndOk, After, ToBits, Pow2, BytesBits, Verify, CheckOf, CodesOk,
      Lean, AllWithin, Decodes, Usable, Blocks, Stored, Copy, Dynamic, CodeLenLens, CodeLens, Codes, LenExt, Dist,
      DistExt, Match, Listed, Refused, Placed, ItemBits;
    ghost var w, o := WinOf(s, p).Span(), Made(s, p);
    AfterOther(s.wrap, s.flags, Starved(o));
    AfterOther(s.wrap, s.flags, Corrupt(o));
    var lens' := ZeroRest(lens, s.ncode);
    ghost var cl := lens'[..19];
    LenLensDone(w, s.last, s.nlen, s.ndist, s.ncode, Listed(lens, s.ncode), r.Avail() + f, o);
    var good, lencode, lenbits := CodeLenTable(lens'[..19]);
    stop, p' := Go, p.(cl := cl);
    s' := s.(r := r, lens := lens', lencode := lencode, lenbits := lenbits, have := 0, mode := if good then CODELENS
        else BAD);
    if good {
      TableSize(lencode, lenbits, CODES, cl);
      assert lens'[..0] == [];
      NothingSmall();
    } else {
      AtBad(s', p', r.Avail() + f);
    }
  }

  lemma NothingSmall()
    ensures AllWithin([], 15)
  {
  }

  /** CODELENS: the lengths of the two codes, and their tables. */
  method DoCodeLens(s: State, ghost p: Past, flush: Flush, ghost f: seq<bool>)
      returns (stop: Stop, s': State, ghost p': Past)
    requires Sound(s, p) && s.mode == CODELENS
    ensures Stepped(s, p, s', p', stop, flush, f)
  {
    hide Stepped, HeaderMeaning, HeaderOk, EndMeaning, EndOk, After, ToBits, Pow2, BytesBits, Verify, CheckOf, CodesOk,
      Lean, LeanItem, AllWithin, Decodes, Usable, Blocks, Stored, Copy, Dynamic, CodeLenLens, CodeLens, Codes,
      LenExt, Dist, DistExt, Match, Listed;
    ghost var w, o := WinOf(s, p).Span(), Made(s, p);
    p' := p;
    var item, r, have, lens := StepCodeLens(s.r, s.lencode, s.lenbits, s.have, s.lens, s.nlen, s.ndist, s.last, p.cl, w,
        o, f);
    if item == Read {
      stop, s', p' := CodeLensRead(s, p, r, lens, flush, f);
    } else {
      stop, s' := CodeLensEnd(s, p, item, r, have, lens, flush, f);
    }
  }

  method CodeLensEnd(s: State, ghost p: Past, item: Item, r: Regs, have: nat, lens: seq<nat>, flush: Flush,
        ghost f: seq<bool>)
      returns (stop: Stop, s': State)
    requires Sound(s, p) && s.mode == CODELENS && item != Read
    requires r.Ok() && r.input == s.r.input && r.Unread() <= s.r.Unread() && |lens| == 320 &&
             have <= s.nlen + s.ndist && AllWithin(lens[..have], 15)
    requires var w, o := WinOf(s, p).Span(), Made(s, p);
             && (item == Wanting ==>
                 r.bits <= 24 && LeanItem(r, s.lencode, s.lenbits) && r.next == |r.input| && have < s.nlen + s.ndist &&
                 CodeLens(w, s.last, s.nlen, s.ndist, p.cl, lens[..have], r.Avail(), o) == Starved(o) &&
                 CodeLens(w, s.last, s.nlen, s.ndist, p.cl, s.lens[..s.have], s.r.Avail() + f, o) ==
                     CodeLens(w, s.last, s.nlen, s.ndist, p.cl, lens[..have], r.Avail() + f, o))
             && (item == Wrong ==>
                 CodeLens(w, s.last, s.nlen, s.ndist, p.cl, s.lens[..s.have], s.r.Avail() + f, o) == Corrupt(o))
    ensures Stepped(s, p, s', p, stop, flush, f)
  {
    hide HeaderMeaning, HeaderOk, EndMeaning, EndOk, After, ToBits, Pow2, BytesBits, Verify, CheckOf, CodesOk,
      Lean, LeanItem, AllWithin, Decodes, Usable, Blocks, Stored, Copy, Dynamic, CodeLenLens, CodeLens, Codes,
      LenExt, Dist, DistExt, Match, Listed;
    ghost var o := Made(s, p);
    AfterOther(s.wrap, s.flags, Starved(o));
    AfterOther(s.wrap, s.flags, Corrupt(o));
    if item == Wrong {
      stop, s' := Go, s.(r := r, lens := lens, have := have, mode := BAD);
      AtBad(s', p, r.Avail() + f);
    } else {
      stop, s' := NeedInput, s.(r := r, have := have, lens := lens);
      assert r.Avail() + [] == r.Avail();
    }
  }

  method CodeLensRead(s: State, ghost p: Past, r: Regs, lens: seq<nat>, flush: Flush, ghost f: seq<bool>)
      returns (stop: Stop, s': State, ghost p': Past)
    requires Sound(s, p) && s.mode == CODELENS
    requires r.Ok() && r.input == s.r.input && r.bits < 8 && r.Unread() <= s.r.Unread()
    requires |lens| == 320 && s.nlen + s.ndist <= 320 && AllWithin(lens[..s.nlen + s.ndist], 15)
    requires CodeLens(WinOf(s, p).Span(), s.last, s.nlen, s.ndist, p.cl, s.lens[..s.have], s.r.Avail() + f,
             Made(s, p)) ==
             CodeLens(WinOf(s, p).Span(), s.last, s.nlen, s.ndist, p.cl, lens[..s.nlen + s.ndist], r.Avail() + f,
             Made(s, p))
    ensures Stepped(s, p, s', p', stop, flush, f)
  {
    hide HeaderMeaning, HeaderOk, EndMeaning, EndOk, After, ToBits, Pow2, BytesBits, Verify, CheckOf, LeanItem,
      AllWithin, Decodes, Usable, Blocks, Stored, Copy, Dynamic, CodeLenLens, CodeLens, Codes, LenExt, Dist,
      DistExt, Match, Listed, Refused, ValidLens;
    ghost var w, o := WinOf(s, p).Span(), Made(s, p);
    AfterOther(s.wrap, s.flags, Starved(o));
    AfterOther(s.wrap, s.flags, Corrupt(o));
    var all := lens[..s.nlen + s.ndist];
    SmallValid(all);
    CodeLensDone(w, s.last, s.nlen, s.ndist, p.cl, all, r.Avail() + f, o);
    var good, lencode, lenbits, distcode, distbits := BuildTables(all, s.nlen);
    p' := p.(ll := all[..s.nlen], dl := all[s.nlen..]);
    if good {
      TableSize(lencode, lenbits, LENS, p'.ll);
      TableSize(distcode, distbits, DISTS, p'.dl);
    }
    stop := if good && flush == TREES then AtBoundary else Go;
    s' := s.(r := r, lens := lens, have := s.nlen + s.ndist, lencode := lencode, lenbits := lenbits,
      distcode := distcode, distbits := distbits, mode := if good then LEN_ else BAD);
    if !good {
      AtBad(s', p', r.Avail() + f);
    }
  }

  lemma SmallValid(lens: seq<nat>)
    requires AllWithin(lens, 15)
    ensures ValidLens(lens)
  {
  }
}
