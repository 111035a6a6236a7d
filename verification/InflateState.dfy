/**
 The state of an inflate stream while a call is under way, and what it means: at every mode, what
 the rest of the stream will decode to.
 */
module InflateState {
  import opened Bits
  import opened TableSpec
  import opened Rfc1951
  import opened Wrapper
  import opened Decode
  import opened Registers
  import opened InflateSteps
  import opened InflateHeader

  datatype Mode =
    | HEAD | FLAGS | TIME | OS | EXLEN | EXTRA | NAME | COMMENT | HCRC | DICTID | DICT
    | TYPE | TYPEDO | STORED | COPY_ | COPY | TABLE | LENLENS | CODELENS
    | LEN_ | LEN | LENEXT | DIST | DISTEXT | MATCH | LIT
    | CHECK | LENGTH | DONE | BAD
  {
    predicate InHeader() {
      Rank() >= 20
    }

    predicate Ended() {
      Rank() <= 4
    }

    predicate InBlocks() {
      4 < Rank() < 20
    }

    /** Orders the modes so that a step that uses no input and makes no output goes down. */
    function Rank(): nat {
      match this
      case HEAD => 30 case FLAGS => 29 case TIME => 28 case OS => 27 case EXLEN => 26 case EXTRA => 25
      case NAME => 24 case COMMENT => 23 case HCRC => 22 case DICTID => 21 case DICT => 20
      case COPY_ => 19 case COPY => 18 case TYPE => 17 case TYPEDO => 16 case STORED => 15 case TABLE => 14
      case LENLENS => 13 case CODELENS => 12 case LEN_ => 11 case LEN => 10 case LENEXT => 9 case DIST => 8
      case DISTEXT => 7 case MATCH => 6 case LIT => 5 case CHECK => 4 case LENGTH => 3 case DONE => 2 case BAD => 1
    }
  }

  datatype Flush = NO_FLUSH | BLOCK | TREES | FINISH

  /**
   output is what this call has produced and left the room there still is; out is the room there was
   at the start of the call, or when the output was last counted in check and total.
   */
  datatype State = State(
    mode: Mode, r: Regs, output: seq<byte>, left: nat, out: nat,
    last: bool, wrap: nat, flags: int, check: u32, total: nat, head: Saved, wbits: nat,
    length: nat, offset: nat, extra: nat,
    lencode: seq<Code>, lenbits: nat, distcode: seq<Code>, distbits: nat,
    ncode: nat, nlen: nat, ndist: nat, have: nat, lens: seq<nat>)

  /**
   What a proof remembers: the output of earlier calls, whether the reference decoder has a wide window, and the
   lengths the code tables were built from.
   */
  datatype Past = Past(hist: seq<byte>, wide: bool, cl: seq<nat>, ll: seq<nat>, dl: seq<nat>)

  // ---------- meaning ----------

  /** All output so far. */
  ghost function Made(s: State, p: Past): seq<byte> {
    p.hist + s.output
  }

  /** The window of the reference decoder. */
  ghost function WinOf(s: State, p: Past): Win {
    Win(s.wbits, p.wide)
  }

  /** What a stream still in its header decodes to, b being the bits to come. */
  ghost function HeaderMeaning(s: State, p: Past, b: seq<bool>): Result {
    match s.mode
    case HEAD => Head(s.wrap, WinOf(s, p), s.head, b)
    case FLAGS => Flags(s.wrap, WinOf(s, p), s.check, s.head, b)
    case TIME => Time(s.wrap, WinOf(s, p), s.flags, s.check, s.head, b)
    case OS => Os(s.wrap, WinOf(s, p), s.flags, s.check, s.head, b)
    case EXLEN => ExLen(s.wrap, WinOf(s, p), s.flags, s.check, s.head, b)
    case EXTRA => Extra(s.wrap, WinOf(s, p), s.flags, s.check, s.head, s.length, b)
    case NAME => NameStart(s.wrap, WinOf(s, p), s.flags, s.check, s.head, b)
    case COMMENT => CommentStart(s.wrap, WinOf(s, p), s.flags, s.check, s.head, b)
    case HCRC => Hcrc(s.wrap, WinOf(s, p), s.flags, s.check, s.head, b)
    case DICTID => DictId(s.head, b)
    case _ => Result(s.head, NeedsDict(s.check))
  }

  /** What the blocks that remain decode to. */
  ghost function BlockMeaning(s: State, p: Past, b: seq<bool>): Outcome {
    var w, o := WinOf(s, p).Span(), Made(s, p);
    match s.mode
    case STORED => Stored(w, s.last, b, o)
    case COPY_ => Copy(w, s.last, s.length, b, o)
    case COPY => Copy(w, s.last, s.length, b, o)
    case TABLE => Dynamic(w, s.last, b, o)
    case LENLENS =>
      if s.have <= 19 <= |s.lens| then
        CodeLenLens(w, s.last, s.nlen, s.ndist, s.ncode, Listed(s.lens, s.have), b, o)
      else
        Beyond(o)
    case CODELENS =>
      if s.have <= |s.lens| then CodeLens(w, s.last, s.nlen, s.ndist, p.cl, s.lens[..s.have], b, o) else Beyond(o)
    case LEN_ => Codes(w, s.last, p.ll, p.dl, b, o)
    case LEN => Codes(w, s.last, p.ll, p.dl, b, o)
    case LENEXT => LenExt(w, s.last, p.ll, p.dl, s.length, s.extra, b, o)
    case DIST => Dist(w, s.last, p.ll, p.dl, s.length, b, o)
    case DISTEXT => DistExt(w, s.last, p.ll, p.dl, s.length, s.offset, s.extra, b, o)
    case MATCH => Match(w, s.last, p.ll, p.dl, s.length, s.offset, b, o)
    case LIT => if s.length < 256 then Codes(w, s.last, p.ll, p.dl, b, o + [s.length]) else Beyond(o)
    case _ => Blocks(w, s.last, b, o)
  }

  /** What the end of a stream decodes to, its blocks being done. */
  ghost function EndMeaning(s: State, p: Past, b: seq<bool>): Outcome {
    match s.mode
    case CHECK => Wrapper.Trailer(s.wrap, s.flags, b, Made(s, p))
    case LENGTH => Size(s.wrap, s.flags, b, Made(s, p))
    case DONE => Finished(Made(s, p), b)
    case _ => Corrupt(Made(s, p))
  }

  /** What the whole stream decodes to, given the bits to come. */
  ghost function MeaningOf(s: State, p: Past, b: seq<bool>): Result {
    if s.mode.InHeader() then HeaderMeaning(s, p, b)
    else if s.mode.InBlocks() then Result(s.head, After(s.wrap, s.flags, BlockMeaning(s, p, b)))
    else Result(s.head, EndMeaning(s, p, b))
  }

  /** f being the bits that will follow the input of this call. */
  ghost function Meaning(s: State, p: Past, f: seq<bool>): Result
    requires s.r.Ok()
  {
    MeaningOf(s, p, s.r.Avail() + f)
  }

  // ---------- invariant ----------

  /** Both code tables decode the codes they were built from. */
  ghost predicate CodesOk(s: State, p: Past) {
    && Decodes(s.lencode, s.lenbits, LENS, p.ll) && Usable(LENS, p.ll) && Pow2(s.lenbits) <= |s.lencode|
    && Decodes(s.distcode, s.distbits, DISTS, p.dl) && Usable(DISTS, p.dl) && Pow2(s.distbits) <= |s.distcode|
  }

  /** Nothing was output yet, and the accumulator holds less than n bits, in whole bytes. */
  ghost predicate Early(s: State, p: Past, n: nat) {
    p.hist == [] && s.output == [] && !s.last && s.r.bits % 8 == 0 && s.r.bits < n && s.wrap > 0
  }

  /** A gzip header is being read. */
  ghost predicate EarlyGzip(s: State, p: Past, n: nat) {
    Early(s, p, n) && s.flags != 0
  }

  ghost predicate HeaderOk(s: State, p: Past) {
    match s.mode
    case HEAD =>
      && p.hist == [] && s.output == [] && !s.last && ExtraEmpty(s.head)
      && (if s.wrap == 0 then s.r.bits == 0 && s.flags == -1 else Early(s, p, 16))
    case FLAGS => Early(s, p, 16) && ExtraEmpty(s.head)
    case TIME => EarlyGzip(s, p, 32) && ExtraEmpty(s.head)
    case OS => EarlyGzip(s, p, 16) && ExtraEmpty(s.head)
    case EXLEN => EarlyGzip(s, p, 16) && ExtraEmpty(s.head) && (!HasExtra(s.flags) ==> s.r.bits == 0)
    case EXTRA => EarlyGzip(s, p, 8) && ExtraOk(s.head, s.length) && (!HasExtra(s.flags) ==> s.length == 0)
    case NAME => EarlyGzip(s, p, 8)
    case COMMENT => EarlyGzip(s, p, 8)
    case HCRC => EarlyGzip(s, p, 16) && (!HasHcrc(s.flags) ==> s.r.bits == 0)
    case DICTID => Early(s, p, 32)
    case _ => Early(s, p, 8)
  }

  ghost predicate BlockOk(s: State, p: Past) {
    match s.mode
    case STORED => s.r.bits < 8 || (s.r.bits % 8 == 0 && s.r.bits < 32)
    case COPY_ => s.r.bits == 0
    case COPY => s.r.bits == 0
    case TABLE => s.r.bits < 14
    case LENLENS => s.r.bits < 8 && DynamicOk(s) && s.have <= s.ncode <= 19 && AllWithin(Listed(s.lens, s.have), 7)
    case CODELENS =>
      && s.r.bits <= 24 && DynamicOk(s) && s.have < s.nlen + s.ndist && AllWithin(s.lens[..s.have], 15)
      && Decodes(s.lencode, s.lenbits, CODES, p.cl) && Usable(CODES, p.cl) && LeanItem(s.r, s.lencode, s.lenbits)
    case LEN_ => CodesOk(s, p) && s.r.bits < 8
    case LEN => CodesOk(s, p) && s.r.bits <= 24 && Lean(s.r, s.lencode, s.lenbits)
    case LENEXT => CodesOk(s, p) && s.r.bits < 8 && s.length >= 3 && s.extra <= 5
    case DIST => CodesOk(s, p) && s.r.bits <= 24 && s.length >= 3 && Lean(s.r, s.distcode, s.distbits)
    case DISTEXT =>
      && CodesOk(s, p) && s.length >= 3 && (s.r.bits < 8 || s.r.bits < s.extra)
      && s.offset >= 1 && s.extra <= 13 && s.offset + Pow2(s.extra) <= 32769
    case MATCH => CodesOk(s, p) && s.r.bits < 8 && s.length >= 1 && 1 <= s.offset <= 32768
    case LIT => CodesOk(s, p) && s.r.bits < 8 && s.length < 256
    case _ => s.r.bits < 8
  }

  ghost predicate EndOk(s: State) {
    match s.mode
    case CHECK => s.r.bits % 8 == 0 && s.r.bits < 32 && (s.wrap == 0 ==> s.r.bits == 0)
    case LENGTH =>
      && s.r.bits % 8 == 0 && s.r.bits < 32 && (s.wrap == 0 || s.flags == 0 ==> s.r.bits == 0)
      && (s.wrap > 0 ==> s.out == s.left)
    case _ => true
  }

  /** At each mode; between the bits already used and the bits needed next no whole spare byte is held. */
  ghost predicate ModeOk(s: State, p: Past) {
    if s.mode.InHeader() then HeaderOk(s, p) else if s.mode.InBlocks() then BlockOk(s, p) else EndOk(s)
  }

  ghost predicate DynamicOk(s: State) {
    |s.lens| == 320 && 257 <= s.nlen <= 286 && 1 <= s.ndist <= 30
  }

  /** total and check account for all output but the last out - left bytes. */
  ghost predicate Counted(s: State, p: Past) {
    && s.left <= s.out <= s.left + |s.output|
    && s.total == |Made(s, p)| - (s.out - s.left)
    && (s.mode.InHeader() || s.mode.InBlocks() || s.mode == CHECK ==> s.out == s.left + |s.output|)
    && (s.mode == LENGTH ==> s.out == s.left + |s.output| || s.r.next > 0)
    && ((s.mode.InBlocks() || s.mode == CHECK) && Verify(s.wrap) ==> s.check == CheckOf(s.flags, p.hist))
  }

  ghost predicate Sound(s: State, p: Past) {
    s.r.Ok() && |s.lens| == 320 && Counted(s, p) && ModeOk(s, p)
  }

  // ---------- steps ----------

  /** Why a call is left, if it is. */
  datatype Stop = Go | NeedInput | NeedSpace | AtBoundary | AtEnd

  /**
   The stream still means the same; if it reaches beyond the window, then only where there is room for one byte, or
   until that is refused.
   */
  ghost predicate Agrees(m: Result, m': Result, tight: bool) {
    m' == m || (m.outcome.Beyond? && (tight ==> m' == Strict(m)))
  }

  /** A stream that reaches beyond the window, if that is an error. */
  ghost function Strict(m: Result): Result {
    if m.outcome.Beyond? then Result(m.head, Corrupt(m.outcome.out)) else m
  }

  /** Whether the call has room for one byte at most. */
  ghost predicate Tight(s: State) {
    s.left + |s.output| <= 1
  }

  /** The size of the window that inflate has; a wide one is for a call before which there was no output. */
  ghost predicate Room(s: State, p: Past, wsize: nat) {
    (wsize != 0 ==> wsize == Pow2(s.wbits)) && (p.wide ==> p.hist == [])
  }

  /** What a step does not touch. */
  ghost predicate Frame(s: State, p: Past, s': State, p': Past) {
    && s'.r.input == s.r.input && p'.hist == p.hist && p'.wide == p.wide && s.output <= s'.output
    && s'.left + |s'.output| == s.left + |s.output| && s'.wrap == s.wrap
    && (!s.mode.InHeader() ==> s'.wbits == s.wbits && s'.head == s.head && !s'.mode.InHeader())
    && (s.mode.Ended() ==> s'.mode.Ended())
  }

  /** Where Z_BLOCK and Z_TREES stop: between blocks, and Z_TREES at the data of a block too. */
  ghost predicate Halts(s: State, s': State, stop: Stop, flush: Flush) {
    && (s.mode == TYPE && (flush == BLOCK || flush == TREES) ==> stop == AtBoundary && s' == s)
    && (s'.mode != s.mode && (s'.mode == LEN_ || s'.mode == COPY_) ==>
        stop == if flush == TREES then AtBoundary else Go)
  }

  /** The next block may be begun. */
  predicate MayBegin(s: State, flush: Flush) {
    s.mode == TYPE ==> flush != BLOCK && flush != TREES
  }

  /** A step goes down in input, room or rank, or says why not. */
  ghost predicate Moves(s: State, s': State, stop: Stop, flush: Flush) {
    && s'.r.Unread() <= s.r.Unread() && Halts(s, s', stop, flush)
    && match stop
       case Go => s'.r.Unread() < s.r.Unread() || s'.left < s.left ||
           (s'.left == s.left && s'.mode.Rank() < s.mode.Rank())
       case NeedInput => s'.r.next == |s'.r.input|
       case NeedSpace => s'.left == 0
       case AtBoundary => (flush == BLOCK || flush == TREES) && (s'.mode == TYPE || s'.mode == LEN_ || s'.mode == COPY_)
       case AtEnd => s'.mode == DONE || s'.mode == BAD || s'.mode == DICT
  }

  ghost predicate Starves(s: State, p: Past)
    requires s.r.Ok()
  {
    Meaning(s, p, []) == Result(s.head, Starved(Made(s, p)))
  }

  ghost predicate Stepped(s: State, p: Past, s': State, p': Past, stop: Stop, flush: Flush, f: seq<bool>) {
    && s.r.Ok() && Sound(s', p') && Frame(s, p, s', p') && Moves(s, s', stop, flush)
    && Agrees(Meaning(s, p, f), Meaning(s', p', f), Tight(s))
    && (stop == NeedInput ==> Starves(s', p'))
    && (stop == Go && s'.mode == LEN ==> s'.r.bits < 8)
  }

  /** Whether LEN goes on with inflate_fast. */
  predicate Fast(s: State) {
    s.mode == LEN && s.r.next + 6 <= |s.r.input| && s.left >= 258
  }

  /** What a step does to a raw stream of literals with the fixed codes, exactly. */
  ghost predicate Exactly(s: State, p: Past, s': State, p': Past, stop: Stop, flush: Flush, f: seq<bool>)
    requires s.r.Ok() && s'.r.Ok()
  {
    match s.mode
    case HEAD => s.wrap == 0 ==> stop == Go && s' == s.(mode := TYPEDO) && p' == p
    case TYPEDO => !s.last ==> TypeTaken(s, p, s', p', stop, flush, f)
    case LEN_ => stop == Go && s' == s.(mode := LEN) && p' == p
    case LEN => !Fast(s) ==> p' == p && LenTaken(s, p, s', stop, f)
    case LIT =>
      s.left > 0 && s.length < 256 ==>
      stop == Go && p' == p && s' == s.(output := s.output + [s.length], left := s.left - 1, mode := LEN)
    case _ => true
  }

  /** The head of a block. */
  ghost predicate TypeTaken(s: State, p: Past, s': State, p': Past, stop: Stop, flush: Flush, f: seq<bool>)
    requires s.r.Ok() && s'.r.Ok()
  {
    var b := s.r.Avail() + f;
    if stop == NeedInput then |s.r.Avail()| < 3
    else |b| >= 3 && (ToInt(b[1..3]) == 1 ==> FixedTaken(s, p, s', p', stop, flush, b[0], b[3..], f))
  }

  ghost predicate FixedTaken(s: State, p: Past, s': State, p': Past, stop: Stop, flush: Flush, last: bool,
        rest: seq<bool>, f: seq<bool>)
    requires s'.r.Ok()
  {
    && s' == s.(mode := LEN_, last := last, r := s'.r, lencode := s'.lencode, lenbits := s'.lenbits,
                distcode := s'.distcode, distbits := s'.distbits)
    && s'.r.Avail() + f == rest && s'.r.bits < 8 && p' == p.(ll := FIXED_LENS, dl := FIXED_DISTS)
    && (flush != TREES ==> stop == Go)
  }

  /** A literal, or the beginning of a code. */
  ghost predicate LenTaken(s: State, p: Past, s': State, stop: Stop, f: seq<bool>)
    requires s.r.Ok() && s'.r.Ok()
  {
    if stop == NeedInput then
      ReadSymbol(p.ll, s.r.Avail()) == NeedMore && s' == s.(r := s'.r) && s'.r.Avail() == s.r.Avail() &&
      s'.r.next == |s'.r.input|
    else
      var sym := ReadSymbol(p.ll, s.r.Avail() + f);
      stop == Go && sym != NeedMore &&
      (sym.Sym? && sym.s < 256 ==> s' == s.(r := s'.r, length := sym.s, mode := LIT) && s'.r.Avail() + f == sym.rest)
  }

  /** What a stream means does not depend on how much of it was delivered, or where its input lies. */
  lemma SameMeaning(s: State, p: Past, t: State, q: Past, b: seq<bool>)
    requires t == s.(mode := t.mode, r := t.r, output := t.output, left := t.left, out := t.out, total := t.total,
                     check := t.check)
    requires q == p.(hist := q.hist) && Made(t, q) == Made(s, p)
    requires (t.mode == s.mode || (s.mode == TYPE && t.mode == TYPEDO)) && (s.mode.InHeader() ==> t.check == s.check)
    ensures MeaningOf(t, q, b) == MeaningOf(s, p, b)
  {
    hide Head, Flags, Time, Os, ExLen, Extra, NameStart, CommentStart, Hcrc, DictId, After, Pow2,
      Blocks, Stored, Copy, Dynamic, CodeLenLens, CodeLens, Codes, LenExt, Dist, DistExt, Match, Listed,
      Wrapper.Trailer, Size;
  }

  /** At the start of a block. */
  lemma AtType(s: State, p: Past, b: seq<bool>)
    requires s.mode == TYPE || s.mode == TYPEDO
    ensures MeaningOf(s, p, b) ==
            Result(s.head, After(s.wrap, s.flags, Blocks(WinOf(s, p).Span(), s.last, b, Made(s, p))))
    ensures ModeOk(s, p) == (s.r.bits < 8)
  {
    hide After, Blocks, Pow2;
  }

  /** After the last block. */
  lemma AtCheck(s: State, p: Past, b: seq<bool>)
    requires s.mode == CHECK
    ensures MeaningOf(s, p, b) == Result(s.head, Wrapper.Trailer(s.wrap, s.flags, b, Made(s, p)))
    ensures ModeOk(s, p) == (s.r.bits % 8 == 0 && s.r.bits < 32 && (s.wrap == 0 ==> s.r.bits == 0))
  {
    hide Wrapper.Trailer;
  }

  /** After an error. */
  lemma AtBad(s: State, p: Past, b: seq<bool>)
    requires s.mode == BAD
    ensures MeaningOf(s, p, b) == Result(s.head, Corrupt(Made(s, p))) && ModeOk(s, p)
  {
  }

  /** Waiting for input with a few more bits held. */
  lemma Waits(s: State, p: Past, r: Regs, flush: Flush, f: seq<bool>)
    requires Sound(s, p) && Pulled(s.r, r) && r.next == |r.input| && ModeOk(s.(r := r), p) && MayBegin(s, flush)
    requires MeaningOf(s, p, r.Avail()) == Result(s.head, Starved(Made(s, p)))
    ensures Stepped(s, p, s.(r := r), p, NeedInput, flush, f)
  {
    hide MeaningOf, ModeOk, ToBits, BytesBits, CheckOf, Verify;
    SameMeaning(s, p, s.(r := r), p, r.Avail());
    SameMeaning(s, p, s.(r := r), p, s.r.Avail() + f);
    assert r.Avail() + [] == r.Avail();
  }

  // ---------- header steps ----------

  lemma RawHead(win: Win, head: Saved, b: seq<bool>)
    ensures Head(0, win, head, b) == Body(0, win, -1, head, b) && !Verify(0)
  {
  }

  method DoRaw(s: State, ghost p: Past, flush: Flush, ghost f: seq<bool>) returns (stop: Stop, s': State)
    requires Sound(s, p) && s.mode == HEAD && s.wrap == 0
    ensures Stepped(s, p, s', p, stop, flush, f) && stop == Go && s' == s.(mode := TYPEDO)
  {
    hide BlockMeaning, BlockOk, EndMeaning, EndOk, Head, Flags, Time, Os, ExLen, Extra, NameStart,
      CommentStart, Hcrc, DictId, After, ToBits, Pow2, BytesBits, Verify, CheckOf, ExtraEmpty, ExtraOk,
      HasExtra, HasHcrc;
    RawHead(WinOf(s, p), s.head, s.r.Avail() + f);
    stop, s' := Go, s.(mode := TYPEDO);
    AtType(s', p, s'.r.Avail() + f);
  }

  method DoHead(s: State, ghost p: Past, flush: Flush, ghost f: seq<bool>) returns (stop: Stop, s': State)
    requires Sound(s, p) && s.mode == HEAD && s.wrap > 0
    ensures Stepped(s, p, s', p, stop, flush, f)
  {
    hide BlockMeaning, BlockOk, EndMeaning, EndOk, Head, Flags, Time, Os, ExLen, Extra, NameStart,
      CommentStart, Hcrc, DictId, After, ToBits, Pow2, BytesBits, Verify, CheckOf, ExtraOk, HasExtra, HasHcrc;
    var more, r, to, wbits, head, check := StepHead(s.r, s.wrap, s.wbits, p.wide, s.head, f);
    if more {
      stop, s' := Go, s.(r := r, wbits := wbits, head := head, check := check,
        flags := if to == ToGzip then s.flags else 0,
        mode := match to case ToGzip => FLAGS case ToZlib => TYPE case ToDict => DICTID case BadHead => BAD);
      if to == ToZlib {
        AtType(s', p, r.Avail() + f);
      } else if to == BadHead {
        AtBad(s', p, r.Avail() + f);
      }
    } else {
      stop, s' := NeedInput, s.(r := r);
      assert r.Avail() + [] == r.Avail();
    }
  }

  method DoFlags(s: State, ghost p: Past, flush: Flush, ghost f: seq<bool>) returns (stop: Stop, s': State)
    requires Sound(s, p) && s.mode == FLAGS
    ensures Stepped(s, p, s', p, stop, flush, f)
  {
    hide BlockMeaning, BlockOk, EndMeaning, EndOk, Head, Flags, Time, Os, ExLen, Extra, NameStart,
      CommentStart, Hcrc, DictId, After, ToBits, Pow2, BytesBits, Verify, CheckOf, ExtraOk, HasExtra, HasHcrc;
    var more, r, good, flags, head, check := StepFlags(s.r, s.wrap, WinOf(s, p), s.check, s.head, f);
    if more {
      stop, s' := Go, s.(r := r, flags := flags, head := head, check := check, mode := if good then TIME else BAD);
      if !good {
        AtBad(s', p, r.Avail() + f);
      }
    } else {
      stop, s' := NeedInput, s.(r := r);
      assert r.Avail() + [] == r.Avail();
    }
  }

  method DoTime(s: State, ghost p: Past, flush: Flush, ghost f: seq<bool>) returns (stop: Stop, s': State)
    requires Sound(s, p) && s.mode == TIME
    ensures Stepped(s, p, s', p, stop, flush, f)
  {
    hide BlockMeaning, BlockOk, EndMeaning, EndOk, Head, Flags, Time, Os, ExLen, Extra, NameStart,
      CommentStart, Hcrc, DictId, After, ToBits, Pow2, BytesBits, Verify, CheckOf, ExtraOk, HasExtra, HasHcrc;
    var more, r, head, check := StepTime(s.r, s.wrap, WinOf(s, p), s.flags, s.check, s.head, f);
    if more {
      stop, s' := Go, s.(r := r, head := head, check := check, mode := OS);
    } else {
      stop, s' := NeedInput, s.(r := r);
      assert r.Avail() + [] == r.Avail();
    }
  }

  method DoOs(s: State, ghost p: Past, flush: Flush, ghost f: seq<bool>) returns (stop: Stop, s': State)
    requires Sound(s, p) && s.mode == OS
    ensures Stepped(s, p, s', p, stop, flush, f)
  {
    hide BlockMeaning, BlockOk, EndMeaning, EndOk, Head, Flags, Time, Os, ExLen, Extra, NameStart,
      CommentStart, Hcrc, DictId, After, ToBits, Pow2, BytesBits, Verify, CheckOf, ExtraOk, HasExtra, HasHcrc;
    var more, r, head, check := StepOs(s.r, s.wrap, WinOf(s, p), s.flags, s.check, s.head, f);
    if more {
      stop, s' := Go, s.(r := r, head := head, check := check, mode := EXLEN);
    } else {
      stop, s' := NeedInput, s.(r := r);
      assert r.Avail() + [] == r.Avail();
    }
  }

  method DoExLen(s: State, ghost p: Past, flush: Flush, ghost f: seq<bool>) returns (stop: Stop, s': State)
    requires Sound(s, p) && s.mode == EXLEN
    ensures Stepped(s, p, s', p, stop, flush, f)
  {
    hide BlockMeaning, BlockOk, EndMeaning, EndOk, Head, Flags, Time, Os, ExLen, Extra, NameStart,
      CommentStart, Hcrc, DictId, After, ToBits, Pow2, BytesBits, Verify, CheckOf, ExtraOk, HasExtra, HasHcrc,
      ExtraEmpty;
    var more, r, head, check, length := StepExLen(s.r, s.wrap, WinOf(s, p), s.flags, s.check, s.head, f);
    if more {
      stop, s' := Go, s.(r := r, head := head, check := check, length := length, mode := EXTRA);
    } else {
      stop, s' := NeedInput, s.(r := r);
      assert r.Avail() + [] == r.Avail();
    }
  }

  method DoExtra(s: State, ghost p: Past, flush: Flush, ghost f: seq<bool>) returns (stop: Stop, s': State)
    requires Sound(s, p) && s.mode == EXTRA
    ensures Stepped(s, p, s', p, stop, flush, f)
  {
    hide BlockMeaning, BlockOk, EndMeaning, EndOk, Head, Flags, Time, Os, ExLen, Extra, NameStart,
      CommentStart, Hcrc, DictId, After, ToBits, Pow2, BytesBits, Verify, CheckOf, ExtraOk, HasExtra, HasHcrc,
      ExtraEmpty;
    var more, r, head, check, length := StepExtra(s.r, s.wrap, WinOf(s, p), s.flags, s.check, s.head, s.length, f);
    if more {
      ExtraDone(s.wrap, WinOf(s, p), s.flags, check, head, r.Avail() + f);
      stop, s' := Go, s.(r := r, head := head, check := check, length := 0, mode := NAME);
    } else {
      stop, s' := NeedInput, s.(r := r, head := head, check := check, length := length);
      assert r.Avail() + [] == r.Avail();
    }
  }

  method DoName(s: State, ghost p: Past, flush: Flush, ghost f: seq<bool>) returns (stop: Stop, s': State)
    requires Sound(s, p) && s.mode == NAME
    ensures Stepped(s, p, s', p, stop, flush, f)
  {
    hide BlockMeaning, BlockOk, EndMeaning, EndOk, Head, Flags, Time, Os, ExLen, Extra, NameStart,
      CommentStart, Hcrc, DictId, After, ToBits, Pow2, BytesBits, Verify, CheckOf, ExtraOk, HasExtra, HasHcrc,
      ExtraEmpty;
    var more, r, head, check := StepName(s.r, s.wrap, WinOf(s, p), s.flags, s.check, s.head, f);
    if more {
      stop, s' := Go, s.(r := r, head := head, check := check, mode := COMMENT);
    } else {
      stop, s' := NeedInput, s.(r := r, head := head, check := check);
      assert r.Avail() + [] == r.Avail();
    }
  }

  method DoComment(s: State, ghost p: Past, flush: Flush, ghost f: seq<bool>) returns (stop: Stop, s': State)
    requires Sound(s, p) && s.mode == COMMENT
    ensures Stepped(s, p, s', p, stop, flush, f)
  {
    hide BlockMeaning, BlockOk, EndMeaning, EndOk, Head, Flags, Time, Os, ExLen, Extra, NameStart,
      CommentStart, Hcrc, DictId, After, ToBits, Pow2, BytesBits, Verify, CheckOf, ExtraOk, HasExtra, HasHcrc,
      ExtraEmpty;
    var more, r, head, check := StepComment(s.r, s.wrap, WinOf(s, p), s.flags, s.check, s.head, f);
    if more {
      stop, s' := Go, s.(r := r, head := head, check := check, mode := HCRC);
    } else {
      stop, s' := NeedInput, s.(r := r, head := head, check := check);
      assert r.Avail() + [] == r.Avail();
    }
  }

  lemma CheckStart(flags: int)
    requires flags != 0
    ensures CheckOf(flags, []) == 0
  {
  }

  method DoHcrc(s: State, ghost p: Past, flush: Flush, ghost f: seq<bool>) returns (stop: Stop, s': State)
    requires Sound(s, p) && s.mode == HCRC
    ensures Stepped(s, p, s', p, stop, flush, f)
  {
    hide BlockMeaning, BlockOk, EndMeaning, EndOk, Head, Flags, Time, Os, ExLen, Extra, NameStart,
      CommentStart, Hcrc, DictId, After, ToBits, Pow2, BytesBits, Verify, CheckOf, ExtraOk, HasExtra, HasHcrc,
      ExtraEmpty;
    CheckStart(s.flags);
    var more, r, good, head := StepHcrc(s.r, s.wrap, WinOf(s, p), s.flags, s.check, s.head, f);
    if more {
      stop, s' := Go, s.(r := r, head := head, check := 0, mode := if good then TYPE else BAD);
      if good {
        AtType(s', p, r.Avail() + f);
      } else {
        AtBad(s', p, r.Avail() + f);
      }
    } else {
      stop, s' := NeedInput, s.(r := r);
      assert r.Avail() + [] == r.Avail();
    }
  }

  method DoDictId(s: State, ghost p: Past, flush: Flush, ghost f: seq<bool>) returns (stop: Stop, s': State)
    requires Sound(s, p) && s.mode == DICTID
    ensures Stepped(s, p, s', p, stop, flush, f)
  {
    hide BlockMeaning, BlockOk, EndMeaning, EndOk, Head, Flags, Time, Os, ExLen, Extra, NameStart,
      CommentStart, Hcrc, DictId, After, ToBits, Pow2, BytesBits, Verify, CheckOf, ExtraOk, HasExtra, HasHcrc,
      ExtraEmpty;
    var more, r, id := StepDictId(s.r, s.head, f);
    if more {
      stop, s' := Go, s.(r := r, check := id, mode := DICT);
    } else {
      stop, s' := NeedInput, s.(r := r);
      assert r.Avail() + [] == r.Avail();
    }
  }

  // ---------- trailer steps ----------

  /** Brings total and check up to date with the output. */
  method Count(s: State, ghost p: Past) returns (s': State)
    requires s.left <= s.out <= s.left + |s.output| && s.total == |Made(s, p)| - (s.out - s.left)
    ensures s' == s.(total := s'.total, check := s'.check, out := s.left) && s'.total == |Made(s, p)|
    ensures s.out == s.left ==> s'.check == s.check
    ensures s.out - s.left == |s.output| && Verify(s.wrap) && s.check == CheckOf(s.flags, p.hist) ==>
      s'.check == CheckOf(s.flags, Made(s, p))
  {
    hide Verify, CheckOf, UpdateCheck;
    var n := s.out - s.left;
    s' := s.(total := s.total + n, out := s.left);
    if Verify(s.wrap) && n > 0 {
      s' := s'.(check := UpdateCheck(s.flags, s.check, s.output[|s.output| - n..]));
      assert n == |s.output| ==> s.output[|s.output| - n..] == s.output;
    }
    CheckAll(s.flags, p.hist, s.output);
    assert p.hist + [] == p.hist;
  }

  method DoCheck(s: State, ghost p: Past, flush: Flush, ghost f: seq<bool>) returns (stop: Stop, s': State)
    requires Sound(s, p) && s.mode == CHECK
    ensures Stepped(s, p, s', p, stop, flush, f)
  {
    hide MeaningOf, HeaderOk, BlockOk, ToBits, BytesBits, Verify, CheckOf, Wrapper.Trailer, Size, Stepped;
    if s.wrap == 0 {
      stop, s' := Go, s.(mode := LENGTH);
      NoCheck(s, p, flush, f);
      return;
    }
    var t := Count(s, p);
    var more, r, good := StepCheck(s.r, s.wrap, s.flags, t.check, Made(s, p), f);
    AtCheck(s, p, r.Avail());
    if more {
      stop, s' := Go, t.(r := r, mode := if good then LENGTH else BAD);
      CheckRead(s, p, t, r, good, flush, f);
    } else {
      Waits(s, p, r, flush, f);
      stop, s' := NeedInput, s.(r := r);
    }
  }

  /** A raw stream has no check value. */
  lemma NoCheck(s: State, p: Past, flush: Flush, f: seq<bool>)
    requires Sound(s, p) && s.mode == CHECK && s.wrap == 0
    ensures Stepped(s, p, s.(mode := LENGTH), p, Go, flush, f)
  {
    hide HeaderMeaning, HeaderOk, BlockMeaning, BlockOk, Size, After, ToBits, Pow2, BytesBits, Verify, CheckOf;
  }

  lemma CheckRead(s: State, p: Past, t: State, r: Regs, good: bool, flush: Flush, f: seq<bool>)
    requires Sound(s, p) && s.mode == CHECK && s.wrap > 0
    requires t == s.(total := t.total, check := t.check, out := s.left) && t.total == |Made(s, p)|
    requires r.Ok() && r.input == s.r.input && r.Unread() <= s.r.Unread() && r.bits == 0 && r.next > 0
    requires Wrapper.Trailer(s.wrap, s.flags, s.r.Avail() + f, Made(s, p)) ==
             if good then Size(s.wrap, s.flags, r.Avail() + f, Made(s, p)) else Corrupt(Made(s, p))
    ensures Stepped(s, p, t.(r := r, mode := if good then LENGTH else BAD), p, Go, flush, f)
  {
    hide HeaderMeaning, HeaderOk, BlockMeaning, BlockOk, Wrapper.Trailer, Size, After, ToBits, Pow2, BytesBits,
      Verify, CheckOf;
  }

  method DoLength(s: State, ghost p: Past, flush: Flush, ghost f: seq<bool>) returns (stop: Stop, s': State)
    requires Sound(s, p) && s.mode == LENGTH
    ensures Stepped(s, p, s', p, stop, flush, f)
  {
    hide MeaningOf, HeaderOk, BlockOk, ToBits, BytesBits, Verify, CheckOf, Size, Stepped;
    if s.wrap == 0 || s.flags == 0 {
      stop, s' := Go, s.(mode := DONE);
      NoLength(s, p, flush, f);
      return;
    }
    var more, r, good := StepLength(s.r, s.wrap, s.flags, s.total, Made(s, p), f);
    AtLength(s, p, r.Avail());
    if more {
      stop, s' := Go, s.(r := r, mode := if good then DONE else BAD);
      LengthRead(s, p, r, good, flush, f);
    } else {
      Waits(s, p, r, flush, f);
      stop, s' := NeedInput, s.(r := r);
    }
  }

  lemma AtLength(s: State, p: Past, bits: seq<bool>)
    requires s.mode == LENGTH
    ensures MeaningOf(s, p, bits) == Result(s.head, Size(s.wrap, s.flags, bits, Made(s, p)))
  {
    hide HeaderMeaning, BlockMeaning, Size;
  }

  lemma NoLength(s: State, p: Past, flush: Flush, f: seq<bool>)
    requires Sound(s, p) && s.mode == LENGTH && (s.wrap == 0 || s.flags == 0)
    ensures Stepped(s, p, s.(mode := DONE), p, Go, flush, f)
  {
    hide HeaderMeaning, HeaderOk, BlockMeaning, BlockOk, Wrapper.Trailer, After, ToBits, Pow2, BytesBits, Verify,
      CheckOf;
  }

  lemma LengthRead(s: State, p: Past, r: Regs, good: bool, flush: Flush, f: seq<bool>)
    requires Sound(s, p) && s.mode == LENGTH
    requires r.Ok() && r.input == s.r.input && r.Unread() <= s.r.Unread() && r.bits == 0
    requires Size(s.wrap, s.flags, s.r.Avail() + f, Made(s, p)) ==
             if good then Finished(Made(s, p), r.Avail() + f) else Corrupt(Made(s, p))
    ensures Stepped(s, p, s.(r := r, mode := if good then DONE else BAD), p, Go, flush, f)
  {
    hide HeaderMeaning, HeaderOk, BlockMeaning, BlockOk, Wrapper.Trailer, Size, After, ToBits, Pow2, BytesBits,
      Verify, CheckOf;
  }
}
