/**
 A compressor over any number of calls: the input comes to it as it may, blocks are written as
 they fill up, and what is written decodes to the input.
 */
module Compressor {
  import opened Bits
  import opened Lz77
  import opened DeflateMatch
  import opened DeflateWindow
  import opened Deflate
  import opened Tokens
  import opened BitWriter
  import opened BlockSpec
  import opened InputSums
  import opened DeflateWrap
  import GzipWriter
  import BlockWriter
  import Encoding
  import Rfc1951
  import Canonical
  import FormatLaws

  // ---------- what has been written ----------

  /**
   What a stream has come to: the bytes delivered, the writer with those pending, where in the window
   the current block begins, and whether the last block is written.
   */
  datatype Output = Output(sent: seq<byte>, w: Writer, blockStart: int, finished: bool) {
    ghost function Bits(): seq<bool> {
      BytesBits(sent) + w.Bits()
    }
  }

  /** What is delivered and pending decodes to done, and is a whole stream when the last block is written. */
  ghost predicate Stands(reach: nat, o: Output, done: seq<byte>) {
    && o.w.Ok()
    && if o.finished then o.w.valid == 0 && Ends(reach, o.sent + o.w.pending, done)
       else Emits(reach, o.Bits(), false, done)
  }

  /** All tokens but the last symNext are written. */
  ghost predicate Written(reach: nat, o: Output, tokens: seq<Token>, symNext: nat, base: nat) {
    && symNext <= |tokens|
    && var done := Expand(tokens[..|tokens| - symNext]);
       base + o.blockStart == |done| && Stands(reach, o, done)
  }

  lemma WrittenMore(reach: nat, o: Output, tokens: seq<Token>, symNext: nat, more: seq<Token>, base: nat)
    requires Written(reach, o, tokens, symNext, base)
    ensures Written(reach, o, tokens + more, symNext + |more|, base)
  {
    hide Emits, Expand, Ends;
    var n := |tokens| - symNext;
    assert (tokens + more)[..n] == tokens[..n];
  }

  lemma WrittenSlide(reach: nat, o: Output, tokens: seq<Token>, symNext: nat, base: nat, d: nat)
    requires Written(reach, o, tokens, symNext, base)
    ensures Written(reach, o.(blockStart := o.blockStart - d), tokens, symNext, base + d)
  {
    hide Emits, Expand, Ends;
  }

  lemma NothingWritten(reach: nat, o: Output, base: int)
    requires o.w.Ok() && !o.finished && o.w.valid == 0 && o.w.pending == [] && o.sent == [] && base + o.blockStart == 0
    requires base >= 0
    ensures Written(reach, o, [], 0, base)
  {
    hide Emits, ToBits;
    NoBitsAt(o.w.buf);
    assert BytesBits([]) == [];
    assert o.Bits() == [];
    EmitsNothing(reach);
    assert Expand([][..0]) == [];
  }

  // ---------- from the last full flush on ----------

  /** What follows the first mark bytes. */
  ghost function Since(o: Output, mark: nat): Output
    requires mark <= |o.sent| + |o.w.pending|
  {
    if mark <= |o.sent| then o.(sent := o.sent[mark..])
    else o.(sent := [], w := o.w.(pending := o.w.pending[mark - |o.sent|..]))
  }

  lemma SinceBits(o: Output, mark: nat)
    requires mark <= |o.sent| + |o.w.pending| && o.w.Ok()
    ensures Since(o, mark).Bits() == o.Bits()[8 * mark..] && Since(o, mark).w.Ok()
    ensures Since(o, mark).sent + Since(o, mark).w.pending == (o.sent + o.w.pending)[mark..]
  {
    hide ToBits, BytesBits;
    var p := Since(o, mark);
    var rest := ToBits(o.w.buf, o.w.valid);
    var all := o.sent + o.w.pending;
    assert p.sent + p.w.pending == all[mark..];
    BytesBitsConcat(o.sent, o.w.pending);
    BytesBitsConcat(p.sent, p.w.pending);
    BytesBitsDrop(all, mark);
    assert o.Bits() == BytesBits(all) + rest && p.Bits() == BytesBits(p.sent + p.w.pending) + rest;
  }

  /** Only what is written counts, not what of it is delivered. */
  lemma SinceSame(reach: nat, o: Output, o': Output, mark: nat, done: seq<byte>)
    requires mark <= |o.sent| + |o.w.pending| && mark <= |o'.sent| + |o'.w.pending| && o.w.Ok() && o'.w.Ok()
    requires Stands(reach, Since(o, mark), done) && o'.Bits() == o.Bits() && o'.finished == o.finished
    requires o.finished ==> o'.w.valid == 0 && o'.sent + o'.w.pending == o.sent + o.w.pending
    ensures Stands(reach, Since(o', mark), done)
  {
    hide Emits, Ends, BytesBits, ToBits;
    SinceBits(o, mark);
    SinceBits(o', mark);
  }

  /** What is written decodes from the beginning on, and from the last full flush on. */
  ghost predicate Resumable(reach: nat, o: Output, mark: nat, tokens: seq<Token>, symNext: nat, k: Known) {
    && Written(reach, o, tokens, symNext, k.base)
    && mark <= |o.sent| + |o.w.pending| && k.floor <= k.base && k.cut + symNext <= |tokens|
    && Written(reach, Since(o, mark), tokens[k.cut..], symNext, k.base - k.floor)
  }

  lemma ResumableMore(reach: nat, o: Output, mark: nat, s: Cursor, k: Known, s': Cursor, k': Known)
    requires Resumable(reach, o, mark, s.tokens, s.symNext, k) && Added(s, s')
    requires k'.base == k.base && k'.floor == k.floor && k'.cut == k.cut
    ensures Resumable(reach, o, mark, s'.tokens, s'.symNext, k')
  {
    hide Written, Since;
    var more := s'.tokens[|s.tokens|..];
    assert s'.tokens == s.tokens + more && s'.tokens[k.cut..] == s.tokens[k.cut..] + more;
    WrittenMore(reach, o, s.tokens, s.symNext, more, k.base);
    WrittenMore(reach, Since(o, mark), s.tokens[k.cut..], s.symNext, more, k.base - k.floor);
  }

  lemma ResumableSlide(reach: nat, o: Output, mark: nat, tokens: seq<Token>, symNext: nat, k: Known, k': Known)
    requires Resumable(reach, o, mark, tokens, symNext, k) && k'.base >= k.base && k'.floor == k.floor &&
             k'.cut == k.cut
    ensures Resumable(reach, o.(blockStart := o.blockStart - (k'.base - k.base)), mark, tokens, symNext, k')
  {
    hide Written;
    var d := k'.base - k.base;
    WrittenSlide(reach, o, tokens, symNext, k.base, d);
    WrittenSlide(reach, Since(o, mark), tokens[k.cut..], symNext, k.base - k.floor, d);
    assert Since(o.(blockStart := o.blockStart - d), mark) == Since(o, mark).(blockStart := o.blockStart - d);
  }

  lemma ResumableStart(reach: nat, o: Output, k: Known)
    requires o == Output([], Writer([], 0, 0), 0, false) && k.base == 0 && k.floor == 0 && k.cut == 0
    ensures Resumable(reach, o, 0, [], 0, k)
  {
    hide Written, Since;
    NoBits();
    NothingWritten(reach, o, 0);
    ResumableNow(reach, o, [], k);
  }

  /** At a full flush nothing is written since. */
  lemma ResumableNow(reach: nat, o: Output, tokens: seq<Token>, k: Known)
    requires Written(reach, o, tokens, 0, k.base) && !o.finished && o.w.valid == 0 && o.blockStart == 0
    requires k.floor == k.base && k.cut == |tokens|
    ensures Resumable(reach, o, |o.sent| + |o.w.pending|, tokens, 0, k)
  {
    hide Emits, Expand, Ends, ToBits;
    var mark := |o.sent| + |o.w.pending|;
    SinceBits(o, mark);
    assert (o.sent + o.w.pending)[mark..] == [] && tokens[k.cut..] == [];
    NothingWritten(reach, Since(o, mark), 0);
  }

  /** flush_pending: as many whole bytes as there is room for. */
  method FlushPending(ghost reach: nat, o: Output, avail: nat, ghost done: seq<byte>) returns (o': Output, avail': nat)
    requires Stands(reach, o, done)
    ensures Stands(reach, o', done) && o'.blockStart == o.blockStart && o'.finished == o.finished && o.sent <= o'.sent
    ensures |o'.sent| - |o.sent| == avail - avail' && avail' <= avail && (o'.w.pending == [] || avail' == 0)
    ensures o'.w.valid < 8 && (o.w.valid == 0 ==> o'.w.valid == 0)
    ensures |o'.w.Bits()| == |o.w.Bits()| - 8 * (avail - avail') && (o.w.pending != [] && avail > 0 ==> avail' < avail)
    ensures o'.Bits() == o.Bits() && |o.sent| + |o.w.pending| <= |o'.sent| + |o'.w.pending|
    ensures o.w.valid == 0 ==> o'.sent + o'.w.pending == o.sent + o.w.pending
  {
    hide Emits, Ends, BytesBits, ToBits;
    var w := BitWriter.Flush(o.w);
    var len := if |w.pending| > avail then avail else |w.pending|;
    var now, later := w.pending[..len], w.pending[len..];
    o', avail' := o.(sent := o.sent + now, w := w.(pending := later)), avail - len;
    Delivered(reach, o, w, now, later, done);
  }

  /** Delivering bytes changes nothing of what is written. */
  lemma Delivered(reach: nat, o: Output, w: Writer, now: seq<byte>, later: seq<byte>, done: seq<byte>)
    requires Stands(reach, o, done) && w.Ok() && w.Bits() == o.w.Bits() && w.pending == now + later &&
             (o.w.valid < 8 ==> w == o.w)
    ensures var o' := o.(sent := o.sent + now, w := w.(pending := later));
            Stands(reach, o', done) && |o'.w.Bits()| == |o.w.Bits()| - 8 * |now| && o'.Bits() == o.Bits() &&
            o'.sent + later == o.sent + w.pending
  {
    hide Emits, Ends, BytesBits, ToBits;
    var o' := o.(sent := o.sent + now, w := w.(pending := later));
    BytesBitsConcat(now, later);
    BytesBitsConcat(o.sent, now);
    assert o'.Bits() == BytesBits(o.sent) + w.Bits();
    assert o.sent + w.pending == o'.sent + later;
  }

  /** What the tokens that are written stand for. */
  ghost function Done(tokens: seq<Token>, symNext: nat): seq<byte>
    requires symNext <= |tokens|
  {
    Expand(tokens[..|tokens| - symNext])
  }

  lemma ResumableStands(reach: nat, o: Output, mark: nat, tokens: seq<Token>, symNext: nat, k: Known)
    ensures Resumable(reach, o, mark, tokens, symNext, k) <==>
            && symNext <= |tokens| && k.base + o.blockStart == |Done(tokens, symNext)|
            && Stands(reach, o, Done(tokens, symNext))
            && mark <= |o.sent| + |o.w.pending| && k.floor <= k.base && k.cut + symNext <= |tokens|
            && k.base - k.floor + o.blockStart == |Done(tokens[k.cut..], symNext)|
            && Stands(reach, Since(o, mark), Done(tokens[k.cut..], symNext))
  {
    hide Stands, Expand;
  }

  /** flush_pending, between blocks or within one. */
  method FlushWritten(ghost reach: nat, o: Output, avail: nat, ghost mark: nat, ghost tokens: seq<Token>,
        ghost symNext: nat, ghost k: Known)
      returns (o': Output, avail': nat)
    requires Resumable(reach, o, mark, tokens, symNext, k)
    ensures Resumable(reach, o', mark, tokens, symNext, k) && o'.blockStart == o.blockStart &&
            o'.finished == o.finished && o.sent <= o'.sent
    ensures o'.Bits() == o.Bits() && (o.w.valid == 0 ==> |o'.sent| + |o'.w.pending| == |o.sent| + |o.w.pending|)
    ensures |o'.sent| - |o.sent| == avail - avail' && avail' <= avail && (o'.w.pending == [] || avail' == 0)
    ensures o'.w.valid < 8 && (o.w.valid == 0 ==> o'.w.valid == 0)
    ensures |o'.w.Bits()| == |o.w.Bits()| - 8 * (avail - avail') && (o.w.pending != [] && avail > 0 ==> avail' < avail)
  {
    hide Stands, Resumable, Done, BytesBits, ToBits, Writer.Bits, Output.Bits, Since;
    ResumableStands(reach, o, mark, tokens, symNext, k);
    o', avail' := FlushPending(reach, o, avail, Done(tokens, symNext));
    StandsParts(reach, o, Done(tokens, symNext));
    StandsParts(reach, o', Done(tokens, symNext));
    SinceSame(reach, o, o', mark, Done(tokens[k.cut..], symNext));
    assert o.w.valid == 0 ==> |o'.sent + o'.w.pending| == |o.sent + o.w.pending|;
    ResumableStands(reach, o', mark, tokens, symNext, k);
  }

  lemma StandsParts(reach: nat, o: Output, done: seq<byte>)
    requires Stands(reach, o, done)
    ensures o.w.Ok() && (o.finished ==> o.w.valid == 0)
  {
    hide Emits, Ends;
  }

  // ---------- a block ----------

  lemma ApplyExtends(out: seq<byte>, t: Token)
    ensures out <= Apply(out, t)
  {
    if t.Str? && 1 <= t.dist <= |out| {
      CopyPrefix(out, t.dist, t.len);
    }
  }

  lemma {:induction false} ExpandExtends(ts: seq<Token>, n: nat)
    requires n <= |ts|
    ensures Expand(ts[..n]) <= Expand(ts)
    decreases |ts|
  {
    if n == |ts| {
      assert ts[..n] == ts;
    } else {
      var m := |ts| - 1;
      ExpandExtends(ts[..m], n);
      assert ts[..m][..n] == ts[..n];
      ApplyExtends(Expand(ts[..m]), ts[m]);
    }
  }

  /** The end of what the tokens stand for: the byte held back by deflate_slow is not among it. */
  function End(s: Cursor): int {
    s.strstart - if s.matchAvailable then 1 else 0
  }

  ghost predicate Covered(c: Config, s: Cursor, k: Known) {
    End(s) >= 0 && Encodes(c, s.tokens, k, k.base + End(s))
  }

  /** The bytes of the current block, if the window still has them all. */
  lemma BlockBytes(reach: nat, c: Config, win: seq<byte>, s: Cursor, k: Known, o: Output)
    requires Mirrors(win, s, k) && Covered(c, s, k) && Written(reach, o, s.tokens, s.symNext, k.base) &&
             o.blockStart >= 0
    ensures o.blockStart <= End(s) <= |win|
    ensures var n := |s.tokens| - s.symNext; Expand(s.tokens) == Expand(s.tokens[..n]) + win[o.blockStart..End(s)]
  {
    hide Emits, Expand, Ends;
    var n := |s.tokens| - s.symNext;
    ExpandExtends(s.tokens, n);
    var a, b := Expand(s.tokens[..n]), Expand(s.tokens);
    assert b == k.data[..k.base + End(s)];
    assert a == b[..|a|];
    assert |a| == k.base + o.blockStart;
    forall i | 0 <= i < End(s) ensures win[i] == k.data[k.base + i] {
      MirrorsAt(win, s, k, i);
    }
    assert b[|a|..] == win[o.blockStart..End(s)];
  }

  lemma BlockTokens(c: Config, s: Cursor, k: Known)
    requires c.Ok() && Covered(c, s, k) && s.symNext <= |s.tokens|
    ensures
      var n := |s.tokens| - s.symNext;
      AllExpressible(s.tokens[n..]) && Encoding.Within(s.tokens[n..], c.wSize) &&
      Sane(s.tokens[..n] + s.tokens[n..]) &&
      s.tokens[..n] + s.tokens[n..] == s.tokens
  {
    hide Expand;
    var n := |s.tokens| - s.symNext;
    assert s.tokens[..n] + s.tokens[n..] == s.tokens;
    forall i | n <= i < |s.tokens| ensures Expressible(s.tokens[i]) && (s.tokens[i].Str? ==>
        s.tokens[i].dist <= c.wSize) {
      assert TokenOk(c, s.tokens[i]);
    }
  }

  /** The cursor and the data as if the last full flush had been the beginning. */
  ghost function CursorSince(s: Cursor, k: Known): Cursor
    requires k.cut <= |s.tokens|
  {
    s.(tokens := s.tokens[k.cut..])
  }

  ghost function KnownSince(k: Known): Known
    requires k.floor <= k.base && k.floor <= |k.data|
  {
    k.(data := k.data[k.floor..], base := k.base - k.floor, floor := 0, cut := 0)
  }

  lemma CoveredSince(c: Config, win: seq<byte>, s: Cursor, k: Known)
    requires Mirrors(win, s, k) && Covered(c, s, k)
    ensures k.cut <= |s.tokens| && k.floor <= k.base && k.floor <= |k.data|
    ensures Mirrors(win, CursorSince(s, k), KnownSince(k)) && Covered(c, CursorSince(s, k), KnownSince(k))
  {
    hide Spells;
    var s', k' := CursorSince(s, k), KnownSince(k);
    assert s'.tokens[0..] == s'.tokens && k'.data[0..] == k'.data;
    assert k.data[k.floor..][k.base - k.floor..] == k.data[k.base..];
  }

  /** The bytes of a block, if the window still has them all. */
  function BufferOf(win: seq<byte>, blockStart: int, end: int): BlockWriter.Buffer
    requires blockStart <= end <= |win|
  {
    if blockStart >= 0 then BlockWriter.Held(win[blockStart..end]) else BlockWriter.Gone
  }

  lemma BlockBuffer(reach: nat, c: Config, win: seq<byte>, s: Cursor, k: Known, o: Output)
    requires Mirrors(win, s, k) && Covered(c, s, k) && Written(reach, o, s.tokens, s.symNext, k.base)
    ensures o.blockStart <= End(s) <= |win|
  {
    hide Emits, Expand, Ends, Encodes;
    if o.blockStart >= 0 {
      BlockBytes(reach, c, win, s, k, o);
    }
  }

  /** The block that is written is added to what was there. */
  lemma BlockAdded(c: Config, win: seq<byte>, s: Cursor, k: Known, o: Output, w: Writer, last: bool)
    requires c.Ok() && Mirrors(win, s, k) && Covered(c, s, k) && Written(c.wSize, o, s.tokens, s.symNext, k.base)
    requires !o.finished && o.blockStart <= End(s) <= |win| && w.Ok() && (last ==> w.valid == 0)
    requires BlockWriter.Adds(o.w, w, s.tokens[|s.tokens| - s.symNext..], BufferOf(win, o.blockStart, End(s)), last)
    ensures Written(c.wSize, o.(w := w, blockStart := End(s), finished := last), s.tokens, 0, k.base)
  {
    hide Emits, Expand, Ends, Mirrors, Encodes, Sane, AllExpressible, Encoding.Within, BlockWriter.Adds, Writer.Bits,
      Writer.Ok;
    var n := |s.tokens| - s.symNext;
    var ts, before := s.tokens[n..], s.tokens[..n];
    BlockTokens(c, s, k);
    if o.blockStart >= 0 {
      BlockBytes(c.wSize, c, win, s, k, o);
    }
    BlockWriter.AddsAt(c.wSize, o.w, w, ts, BufferOf(win, o.blockStart, End(s)), last, o.sent, before);
    WrittenNow(c.wSize, c, s, k, o.(w := w, blockStart := End(s), finished := last));
  }

  /** So it is to what was there since the last full flush. */
  lemma BlockResumes(c: Config, win: seq<byte>, s: Cursor, k: Known, o: Output, mark: nat, w: Writer, last: bool)
    requires c.Ok() && Mirrors(win, s, k) && Covered(c, s, k) && Resumable(c.wSize, o, mark, s.tokens, s.symNext, k)
    requires !o.finished && o.w.pending == [] && o.blockStart <= End(s) <= |win| && w.Ok() && (last ==> w.valid == 0)
    requires BlockWriter.Adds(o.w, w, s.tokens[|s.tokens| - s.symNext..], BufferOf(win, o.blockStart, End(s)), last)
    ensures Resumable(c.wSize, o.(w := w, blockStart := End(s), finished := last), mark, s.tokens, 0, k)
  {
    hide Written, Mirrors, Covered, BlockWriter.Adds, Writer.Bits, Writer.Ok;
    BlockAdded(c, win, s, k, o, w, last);
    CoveredSince(c, win, s, k);
    var s', k' := CursorSince(s, k), KnownSince(k);
    assert s'.tokens[|s'.tokens| - s.symNext..] == s.tokens[|s.tokens| - s.symNext..];
    BlockAdded(c, win, s', k', Since(o, mark), w, last);
    var o' := o.(w := w, blockStart := End(s), finished := last);
    assert Since(o', mark) == Since(o, mark).(w := w, blockStart := End(s), finished := last);
  }

  /**
   FLUSH_BLOCK_ONLY: the block is written, and fits into pending_buf, which has four bytes for each of symEnd + 1
   symbols.
   */
  method WriteBlock(c: Config, st: BlockWriter.Static, window: array<byte>, s: Cursor, o: Output, last: bool,
        ghost k: Known, ghost mark: nat) returns (o': Output)
    requires c.Ok() && st.Ok() && Mirrors(window[..], s, k) && Covered(c, s, k) &&
             Resumable(c.wSize, o, mark, s.tokens, s.symNext, k)
    requires !o.finished && s.symNext <= c.symEnd && End(s) <= 65535 && o.w.pending == [] && o.w.valid < 8
    ensures Resumable(c.wSize, o', mark, s.tokens, 0, k) && o'.finished == last && o'.sent == o.sent
    ensures |o'.w.pending| <= 4 * (c.symEnd + 1)
  {
    hide Emits, Expand, Ends, Mirrors, Encodes, Sane, AllExpressible, BlockWriter.Static.Ok, BlockWriter.Own.Ok,
      BlockWriter.Choose, BlockWriter.SizeOf, BlockWriter.Adds, Covered;
    var n := |s.tokens| - s.symNext;
    BlockTokens(c, s, k);
    BlockBuffer(c.wSize, c, window[..], s, k, o);
    var buf := BlockWriter.Gone;
    if o.blockStart >= 0 {
      buf := BlockWriter.Held(window[o.blockStart..End(s)]);
    }
    assert buf == BufferOf(window[..], o.blockStart, End(s));
    var w, own := BlockWriter.FlushBlock(o.w, st, buf, c.fixed, s.tokens[n..], last);
    o' := o.(w := w, blockStart := End(s), finished := last);
    BlockResumes(c, window[..], s, k, o, mark, w, last);
  }

  lemma WrittenNow(reach: nat, c: Config, s: Cursor, k: Known, o: Output)
    requires Covered(c, s, k) && o.w.Ok() && o.blockStart == End(s)
    requires if o.finished then o.w.valid == 0 &&
             Ends(reach, o.sent + o.w.pending, Expand(s.tokens)) else Emits(reach, o.Bits(), false, Expand(s.tokens))
    ensures Written(reach, o, s.tokens, 0, k.base)
  {
    hide Emits, Expand, Ends;
    assert s.tokens[..|s.tokens|] == s.tokens;
  }

  // ---------- a flush ----------

  /** A flush that is not the end. */
  predicate Flushes(flush: Flush) {
    flush != NO_FLUSH && flush != FINISH
  }

  /**
   The empty block after the last block of a flush: none for Z_BLOCK; ten bits with the fixed codes for
   Z_PARTIAL_FLUSH; and else a stored block, which ends at a byte.
   */
  ghost predicate MarkBits(flush: Flush, before: seq<bool>, after: seq<bool>) {
    if flush == BLOCK then after == before
    else if flush == PARTIAL_FLUSH then after == before + ToBits(2, 3) + ToBits(0, 7)
    else exists pad :: StoredMark(before, after, pad)
  }

  ghost predicate StoredMark(before: seq<bool>, after: seq<bool>, pad: seq<bool>) {
    |pad| < 8 && (|before| + 3 + |pad|) % 8 == 0 && after == before + ToBits(0, 3) + pad + ToBits(0, 16) +
        ToBits(65535, 16)
  }

  /**
   What has come of a flush that is through: the bytes delivered decode to all data; or those bits of them do that
   come before the empty block; or they do with those that make no byte yet.
   */
  ghost predicate Flushed(flush: Flush, reach: nat, o: Output, data: seq<byte>) {
    match flush
    case NO_FLUSH | FINISH => true
    case SYNC_FLUSH | FULL_FLUSH => Synced(reach, o.sent, data)
    case PARTIAL_FLUSH => exists n :: 0 <= n <= 8 * |o.sent| && Emits(reach, BytesBits(o.sent)[..n], false, data)
    case BLOCK => o.w.pending == [] && o.w.valid < 8 && Emits(reach, o.Bits(), false, data)
  }

  lemma FlushThrough(flush: Flush, reach: nat, before: Output, o: Output, data: seq<byte>)
    requires Flushes(flush) && Stands(reach, before, data) && Stands(reach, o, data) && !before.finished && !o.finished
    requires MarkBits(flush, before.Bits(), o.Bits()) && o.w.pending == [] && o.w.valid < 8
    requires flush == SYNC_FLUSH || flush == FULL_FLUSH ==> o.w.valid == 0
    ensures Flushed(flush, reach, o, data)
  {
    hide Emits, Synced, Ends, ToBits;
    if flush == PARTIAL_FLUSH {
      var n := |before.Bits()|;
      assert o.Bits() == BytesBits(o.sent) + ToBits(o.w.buf, o.w.valid);
      assert o.Bits()[..n] == before.Bits();
      assert BytesBits(o.sent)[..n] == o.Bits()[..n];
    } else if flush != BLOCK {
      SyncedAt(reach, o, data);
    }
  }

  // ---------- the compressor ----------

  /** Between the steps of the function that the level selects. */
  ghost predicate LoopOk(lazy: bool, c: Config, s: Cursor, k: Known) {
    if lazy then SlowOk(c, s, k) else FastOk(c, s, k)
  }

  lemma LoopStart(lazy: bool, c: Config, s: Cursor, k: Known)
    requires c.Ok() && s == Cursor(0, 0, 0, 0, 0, 0, 2, 2, false, [], [], 0) && k == Known([], 0, {}, 0, 0, 0)
    ensures LoopOk(lazy, c, s, k)
  {
    SpellsNothing(c);
    assert s.tokens[0..] == [] && k.data[0..] == [];
  }

  lemma LoopCovered(lazy: bool, c: Config, s: Cursor, k: Known)
    requires LoopOk(lazy, c, s, k)
    ensures Covered(c, s, k)
  {
    hide Encodes, Near;
  }

  lemma LoopScalars(lazy: bool, c: Config, s: Cursor, k: Known, symNext: nat, insert: nat, input: seq<byte>)
    requires LoopOk(lazy, c, s, k)
    ensures LoopOk(lazy, c, s.(symNext := symNext, insert := insert, input := input), k)
  {
    hide Encodes, Near;
  }

  /** The values of zlib.h. */
  function FlushValue(flush: Flush): nat {
    match flush
    case NO_FLUSH => 0
    case PARTIAL_FLUSH => 1
    case SYNC_FLUSH => 2
    case FULL_FLUSH => 3
    case FINISH => 4
    case BLOCK => 5
  }

  /** RANK */
  function Rank(flush: Flush): int {
    2 * FlushValue(flush) - if FlushValue(flush) > 4 then 9 else 0
  }

  /** It puts the flushes in order of what they do; -2, which stands for a call that ran out of room, is below all. */
  lemma RankOrder()
    ensures -2 < Rank(NO_FLUSH) < Rank(BLOCK) < Rank(PARTIAL_FLUSH) < Rank(SYNC_FLUSH) < Rank(FULL_FLUSH) < Rank(FINISH)
  {
  }

  /** A call with nothing to do: nothing pending, no input, and a flush that does no more than the one before. */
  predicate Useless(pending: seq<byte>, data: seq<byte>, input: seq<byte>, flush: Flush, lastRank: int) {
    pending == [] && data == [] && input == [] && flush != FINISH && Rank(flush) <= lastRank
  }

  /** What is remembered of the flush of a call: nothing if it ran out of room. */
  function Remembered(flush: Flush, ret: Ret, avail: nat): int {
    if ret == OK && avail == 0 then -2 else Rank(flush)
  }

  class Deflater {
    const c: Config
    const lazy: bool
    const top: GzipWriter.Writer
    const st: BlockWriter.Static
    const window: array<byte>
    const head: array<nat>
    const prev: array<nat>
    var s: Cursor
    var o: Output
    var sums: Sums
    var tail: Part
    var lastRank: int         // of the flush of the last call, or -2

    ghost var k: Known
    ghost var fed: seq<byte>   // all input given so far
    ghost var mark: nat        // how much of the output was written up to the last full flush

    ghost predicate Valid()
      reads this, window, head, prev
    {
      && head != prev && st.Ok() && c.Ok() && LoopOk(lazy, c, s, k) && Kept(c, window[..], head[..], prev[..], s, k)
      && k.data + s.input == fed && sums == SumsOf(c.wrap, k.data)
      && Resumable(c.wSize, o, mark, s.tokens, s.symNext, k) && o.w.valid < 8
      && (o.finished ==> s.input == [] && s.lookahead == 0 && s.symNext == 0 && Expand(s.tokens) == fed)
    }

    /** Between calls: the current block is not full. */
    ghost predicate Ready()
      reads this, window, head, prev
    {
      Valid() && (!o.finished ==> s.symNext < c.symEnd)
    }

    /** The header comes before all of the blocks, and the trailer after them. */
    ghost predicate Wrapped()
      reads this, top
    {
      && top.Ready() && (!top.Done() ==> o.sent == [] && o.w.pending == [] && !o.finished)
      && TailOk(c.wrap, tail, o.finished && o.w.pending == [], fed)
    }

    /** pending_buf, which is the header's until that is out. */
    function Waiting(): seq<byte>
      reads this, top
    {
      if top.Done() then o.w.pending else top.pending
    }

    /** All bytes delivered. */
    function Out(): seq<byte>
      reads this, top
    {
      top.sent + o.sent + tail.sent
    }

    /** How much of the header is still to be delivered. */
    function Above(): int
      reads this, top
    {
      |top.heading.Bytes()| - |top.sent|
    }

    /** Bytes yet to be covered by tokens, but for one that is held back. */
    function Total(): nat
      reads this
    {
      s.lookahead + |s.input|
    }

    /** deflateInit2 and lm_init */
    constructor (config: Config, slow: bool, header: GzipWriter.Writer, tables: BlockWriter.Static)
      requires config.Ok() && tables.Ok() && header.Ready() && header.sent == []
      ensures Ready() && Wrapped() && c == config && lazy == slow && top == header
      ensures fed == [] && Out() == [] && !o.finished && mark == 0 && k.floor == 0
      ensures fresh(window) && fresh(head) && fresh(prev)
    {
      hide Kept, Resumable, LoopOk, BlockWriter.Static.Ok, GzipWriter.Writer.Ready, GzipWriter.Writer.Done, SumsOf,
        TailBytes, Expand;
      c, lazy, top, st := config, slow, header, tables;
      window := new byte[2 * config.wSize](_ => 0);
      head := new nat[Pow2(config.hashBits)](_ => 0);
      prev := new nat[config.wSize](_ => 0);
      s := Cursor(0, 0, 0, 0, 0, 0, 2, 2, false, [], [], 0);
      o := Output([], Writer([], 0, 0), 0, false);
      sums, tail := Start(config.wrap), NONE_YET;
      lastRank := -4;
      k, fed, mark := Known([], 0, {}, 0, 0, 0), [], 0;
      new;
      StartKept(c, window[..], head[..], prev[..], s, [], 0);
      ResumableStart(c.wSize, o, k);
      LoopStart(lazy, c, s, k);
      CountedNone(c.wrap);
    }

    /** The caller gives more input. */
    method Feed(data: seq<byte>)
      requires Valid() && (o.finished ==> data == [])
      modifies this`s, this`fed
      ensures Valid() && fed == old(fed) + data && s == old(s).(input := old(s).input + data)
    {
      hide Kept, Resumable, LoopOk, BlockWriter.Static.Ok;
      LoopScalars(lazy, c, s, k, s.symNext, s.insert, s.input + data);
      KeptOther(c, window[..], head[..], prev[..], s, k, s.(input := s.input + data));
      s := s.(input := s.input + data);
      fed := fed + data;
      assert k.data + s.input == fed;
    }

    /** At least MIN_LOOKAHEAD bytes to look at, if there is the input. */
    method Fill()
      requires Valid() && !o.finished && s.lookahead < MIN_LOOKAHEAD
      modifies this`s, this`k, this`o, this`sums, window, head, prev
      ensures Valid() && !o.finished && o.sent == old(o.sent) && o.w == old(o.w) && s.tokens == old(s.tokens) &&
              s.symNext == old(s.symNext)
      ensures (s.lookahead >= MIN_LOOKAHEAD || s.input == []) && s.strstart + MIN_LOOKAHEAD <= 2 * c.wSize
      ensures k.floor == old(k.floor)
      ensures Total() == old(Total())
    {
      hide Kept, Resumable, LoopOk, Advanced, BlockWriter.Static.Ok;
      KeptParts(c, window[..], head[..], prev[..], s, k);
      var s', t', k' := FillWindow(c, window, head, prev, s, sums, k);
      KeptParts(c, window[..], head[..], prev[..], s', k');
      SameTotal(s, k, s', k');
      LoopAdvanced(lazy, c, s, k, s', k');
      AdvancedParts(s, k, s', k');
      ResumableSlide(c.wSize, o, mark, s.tokens, s.symNext, k, k');
      o := o.(blockStart := o.blockStart - (s.strstart - s'.strstart));
      s, sums, k := s', t', k';
    }

    /** FLUSH_BLOCK: the block is written, and what there is room for delivered. */
    method FlushBlock(last: bool, avail: nat) returns (avail': nat)
      requires Valid() && !o.finished && s.symNext <= c.symEnd && End(s) <= 65535 && o.w.pending == []
      requires last ==> s.input == [] && s.lookahead == 0 && Expand(s.tokens) == fed
      modifies this`s, this`o
      ensures Valid() && s == old(s).(symNext := 0) && o.finished == last && old(o.sent) <= o.sent
      ensures avail' <= avail && |o.sent| - old(|o.sent|) == avail - avail' && (o.w.pending == [] || avail' == 0)
    {
      hide Kept, Resumable, LoopOk, Covered, BlockWriter.Static.Ok, Expand;
      KeptParts(c, window[..], head[..], prev[..], s, k);
      LoopCovered(lazy, c, s, k);
      o := WriteBlock(c, st, window, s, o, last, k, mark);
      LoopScalars(lazy, c, s, k, 0, s.insert, s.input);
      KeptOther(c, window[..], head[..], prev[..], s, k, s.(symNext := 0));
      s := s.(symNext := 0);
      o, avail' := FlushWritten(c.wSize, o, avail, mark, s.tokens, 0, k);
    }

    /** The end of a call at the end of the input: all tokens are written. */
    method EndBlock(flush: Flush, avail: nat) returns (state: BlockState, avail': nat)
      requires Valid() && !o.finished && s.lookahead == 0 && s.input == [] && s.symNext <= c.symEnd &&
               s.strstart <= 65535 && o.w.pending == []
      requires Expand(s.tokens) == fed
      modifies this`s, this`o
      ensures Valid() && s == old(s).(symNext := 0, insert := s.insert) && o.finished == (flush == FINISH) &&
              old(o.sent) <= o.sent
      ensures
        if flush == FINISH then state == FinishDone || state == FinishStarted
        else state == NeedMore || state == BlockDone
      ensures state == NeedMore || state == FinishStarted ==> avail' == 0
      ensures state == FinishDone || (state == BlockDone && avail > 0) ==> avail' > 0
      ensures avail' <= avail && |o.sent| - old(|o.sent|) == avail - avail' &&
              (state == FinishDone || state == BlockDone ==> o.w.pending == [])
      ensures flush != FINISH && old(s.symNext) == 0 ==> o == old(o)
    {
      hide Kept, Resumable, LoopOk, BlockWriter.Static.Ok, Expand;
      var insert := if s.strstart < MIN_MATCH - 1 then s.strstart else MIN_MATCH - 1;
      KeptInsert(c, window[..], head[..], prev[..], s, k, insert);
      LoopScalars(lazy, c, s, k, s.symNext, insert, s.input);
      s := s.(insert := insert);
      if flush == FINISH {
        avail' := FlushBlock(true, avail);
        state := if avail' == 0 then FinishStarted else FinishDone;
      } else if s.symNext > 0 {
        avail' := FlushBlock(false, avail);
        state := if avail' == 0 then NeedMore else BlockDone;
      } else {
        state, avail' := BlockDone, avail;
      }
    }

    /**
     A step of deflate_fast or deflate_slow, and a new block if this one is full.  It is taken only with MIN_LOOKAHEAD
     bytes to look at, or in a flush when all input was read.
     */
    method Step(ghost flush: Flush, avail: nat) returns (flushed: bool, avail': nat)
      requires Ready() && !o.finished && s.lookahead > 0 && s.strstart + MIN_LOOKAHEAD <= 2 * c.wSize &&
               o.w.pending == []
      requires s.lookahead >= MIN_LOOKAHEAD || (s.input == [] && flush != NO_FLUSH)
      modifies this`s, this`k, this`o, head, prev
      ensures old(s.strstart + MAX_MATCH) <= window.Length && (lazy && old(s.matchAvailable) ==> old(s.strstart) > 0)
      ensures if lazy then SlowStepped(c, window[..], old(s), old(k), s, k)
              else FastStepped(c, window[..], old(s), old(k), s, k)
      ensures flushed <==> old(s.symNext) + |s.tokens| - old(|s.tokens|) == c.symEnd
      ensures Ready() && !o.finished && Total() < old(Total()) && old(o.sent) <= o.sent && fed == old(fed)
      ensures avail' <= avail && |o.sent| - old(|o.sent|) == avail - avail' && (!flushed ==> avail' == avail)
      ensures (o.w.pending == [] || (flushed && avail' == 0)) && k.floor == old(k.floor)
    {
      hide Kept, Resumable, LoopOk, BlockWriter.Static.Ok, Expand, SlowStepped, FastStepped;
      ghost var s0, k0 := s, k;
      LoopIs(lazy, c, s, k);
      if lazy {
        var s', k' := SlowStep(c, window, head, prev, s, k);
        s, k := s', k';
      } else {
        var s', k' := FastStep(c, window, head, prev, s, k);
        s, k := s', k';
      }
      LoopIs(lazy, c, s, k);
      ResumableMore(c.wSize, o, mark, s0, k0, s, k);
      ghost var s1 := s;
      flushed, avail' := s.symNext == c.symEnd, avail;
      if flushed {
        avail' := FlushBlock(false, avail);
        SteppedSame(lazy, c, window[..], s0, k0, s1, k, s);
      }
    }

    /**
     deflate_fast, or deflate_slow: tokens for the input, as long as there is enough of it and room for the blocks.
     */
    method Run(flush: Flush, avail: nat) returns (state: BlockState, avail': nat)
      requires Ready() && !o.finished && o.w.pending == []
      modifies this`s, this`k, this`o, this`sums, window, head, prev
      ensures Ready() && fed == old(fed) && old(o.sent) <= o.sent && avail' <= avail &&
              |o.sent| - old(|o.sent|) == avail - avail'
      ensures if state == NeedMore || state == BlockDone then !o.finished else o.finished && flush == FINISH
      ensures (flush == FINISH ==> state != BlockDone) && (flush == NO_FLUSH ==> state == NeedMore)
      ensures state == NeedMore && flush != NO_FLUSH ==> avail' == 0
      ensures state == NeedMore && flush == FINISH ==> Total() < old(Total())
      ensures state == NeedMore ==> avail' == 0 || s.input == []
      ensures state == FinishStarted ==> avail' == 0
      ensures state == FinishDone || (state == BlockDone && avail > 0) ==> avail' > 0
      ensures (state == FinishDone || state == BlockDone ==> o.w.pending == []) && k.floor == old(k.floor)
      ensures state != NeedMore ==>
        s.input == [] && s.lookahead == 0 && !s.matchAvailable && s.symNext == 0 && Expand(s.tokens) == fed
    {
      hide Kept, Resumable, LoopOk, BlockWriter.Static.Ok, Expand;
      avail' := avail;
      while true
        invariant Ready() && fed == old(fed) && !o.finished && old(o.sent) <= o.sent && Total() <= old(Total())
        invariant avail' <= avail && |o.sent| - old(|o.sent|) == avail - avail' && o.w.pending == []
        invariant (avail > 0 ==> avail' > 0) && k.floor == old(k.floor)
        decreases Total()
      {
        if s.lookahead < MIN_LOOKAHEAD {
          Fill();
          if s.lookahead < MIN_LOOKAHEAD && flush == NO_FLUSH {
            return NeedMore, avail';
          }
          if s.lookahead == 0 {
            break;
          }
        } else {
          RoomToSearch(c, window[..], head[..], prev[..], s, k);
        }
        var flushed;
        flushed, avail' := Step(flush, avail');
        if flushed && avail' == 0 {
          return NeedMore, avail';
        }
      }
      HoldBack();
      state, avail' := EndBlock(flush, avail');
    }

    /**
     What follows the last block of a flush: an empty block with the fixed codes, an empty stored block, or nothing.
     */
    method Mark(flush: Flush, avail: nat) returns (avail': nat)
      requires Flushes(flush) && Ready() && !o.finished && s.lookahead == 0 && s.input == [] && !s.matchAvailable &&
               s.symNext == 0 && Expand(s.tokens) == fed && o.w.pending == []
      modifies this`s, this`k, this`o, this`mark, head
      ensures Ready() && !o.finished && fed == old(fed) && Total() == old(Total()) && old(o.sent) <= o.sent
      ensures avail' <= avail && |o.sent| - old(|o.sent|) == avail - avail' && (o.w.pending == [] || avail' == 0)
      ensures Flushes(flush) && avail' > 0 ==> Flushed(flush, c.wSize, o, fed)
      ensures if flush == FULL_FLUSH then mark == |o.sent| + |o.w.pending| && k.floor == |fed|
              else mark == old(mark) && k.floor == old(k.floor)
      ensures MarkBits(flush, old(o.Bits()), o.Bits())
    {
      hide Kept, Resumable, LoopOk, BlockWriter.Static.Ok, Expand, Ends, Flushed, Writer.Bits, Writer.Ok, MarkBits,
        Done, Stands;
      MarkNone(o.Bits());
      DoneAll(s.tokens);
      ResumableStands(c.wSize, o, mark, s.tokens, 0, k);
      ghost var o0 := o;
      ResumableOk(c.wSize, o, mark, s.tokens, 0, k);
      if flush == PARTIAL_FLUSH {
        o := AlignMark(st, o);
        IdleIs(o0, o);
        IdleResumes(c.wSize, o0, o, mark, s.tokens, k);
      } else if flush != BLOCK {
        o := SyncMark(o);
        IdleIs(o0, o);
        IdleResumes(c.wSize, o0, o, mark, s.tokens, k);
        MarkSame(flush, o0.Bits(), o.Bits());
        if flush == FULL_FLUSH {
          Forget();
        }
      }
      o, avail' := FlushWritten(c.wSize, o, avail, mark, s.tokens, 0, k);
      if Flushes(flush) && avail' > 0 {
        ResumableStands(c.wSize, o, mark, s.tokens, 0, k);
        FlushThrough(flush, c.wSize, o0, o, fed);
      }
    }

    /** After a full flush nothing before it is matched: what follows decodes by itself. */
    method Forget()
      requires Ready() && !o.finished && s.lookahead == 0 && s.input == [] && !s.matchAvailable && s.symNext == 0 &&
               Expand(s.tokens) == fed && o.w.valid == 0
      modifies this`s, this`k, this`o, this`mark, head
      ensures Ready() && !o.finished && fed == old(fed) && s == old(s).(strstart := 0, insert := 0) &&
              o == old(o).(blockStart := 0)
      ensures mark == |o.sent| + |o.w.pending| && k.floor == |fed|
    {
      hide Kept, LoopOk, BlockWriter.Static.Ok, Expand, Ends, Emits, Since, Writer.Bits, Writer.Ok;
      SizedKept(c, window[..], head[..], prev[..], s, k);
      ghost var s0, k0, o0 := s, k, o;
      for i := 0 to head.Length
        invariant s == s0 && k == k0 && o == o0 && forall j :: 0 <= j < i ==> head[j] == 0
      {
        head[i] := 0;
      }
      ghost var t := s.(strstart := 0, insert := 0);
      StartKept(c, window[..], head[..], prev[..], t, k.data, |s.tokens|);
      LoopForgets(lazy, c, s, k);
      assert s.tokens[..|s.tokens|] == s.tokens && k.data + s.input == k.data;
      k := Known(k.data, |k.data|, {}, 0, |k.data|, |s.tokens|);
      s := s.(strstart := 0, insert := 0);
      o := o.(blockStart := 0);
      mark := |o.sent| + |o.w.pending|;
      ResumableNow(c.wSize, o, s.tokens, k);
    }

    /** The part of deflate() that compresses. */
    method Work(flush: Flush, avail: nat) returns (more: bool, avail': nat)
      requires Ready() && !o.finished && o.w.pending == []
      modifies this`s, this`k, this`o, this`sums, this`lastRank, this`mark, window, head, prev
      ensures Ready() && fed == old(fed) && old(o.sent) <= o.sent && avail' <= avail &&
              |o.sent| - old(|o.sent|) == avail - avail'
      ensures (o.finished ==> flush == FINISH) && (more && flush == FINISH ==> o.finished && o.w.pending == [])
      ensures !more && flush == FINISH ==> avail' == 0 && (o.finished || Total() < old(Total()))
      ensures lastRank == if !more && avail' == 0 then -2 else old(lastRank)
      ensures more && flush != FINISH ==> avail' > 0
      ensures Flushes(flush) && avail' > 0 ==> Flushed(flush, c.wSize, o, fed)
      ensures flush == FULL_FLUSH && avail' > 0 ==> mark == |o.sent| && k.floor == |fed|
      ensures flush != FULL_FLUSH ==> mark == old(mark) && k.floor == old(k.floor)
      ensures avail' > 0 ==> s.input == []
    {
      hide Kept, Resumable, LoopOk, BlockWriter.Static.Ok, Expand, Ends, Flushed;
      var state;
      state, avail' := Run(flush, avail);
      more := state == BlockDone || state == FinishDone;
      if state == BlockDone {
        avail' := Mark(flush, avail');
        more := avail' > 0;
      }
      if !more && avail' == 0 {
        lastRank := -2;
      }
    }

    /** There is something to compress, or a flush to be made. */
    predicate Busy(data: seq<byte>, flush: Flush)
      reads this
    {
      !o.finished && (s.input + data != [] || s.lookahead != 0 || flush != NO_FLUSH)
    }

    /**
     deflate() between header and trailer, with nothing pending.  After a sync flush that is through, the bytes
     delivered decode to all input; at the end they are a whole stream for it.  Asked to finish, it uses all the room
     there is, or comes to the end.
     */
    method Blocks(data: seq<byte>, flush: Flush, avail: nat) returns (ret: Ret, avail': nat)
      requires Ready() && o.w.pending == [] && (o.finished ==> flush == FINISH && data == [])
      modifies this`s, this`k, this`o, this`sums, this`fed, this`lastRank, this`mark, window, head, prev
      ensures Ready() && fed == old(fed) + data && (ret == OK || ret == STREAM_END)
      ensures old(o.sent) <= o.sent && avail' <= avail && |o.sent| - old(|o.sent|) == avail - avail'
      ensures (old(o.finished) ==> o.finished) && (o.finished ==> old(o.finished) || flush == FINISH)
      ensures ret == STREAM_END ==> flush == FINISH && o.finished && o.w.pending == [] && Ends(c.wSize, o.sent, fed)
      ensures ret == OK && flush == FINISH ==> avail' == 0
      ensures ret == OK && Flushes(flush) && avail' > 0 ==> Flushed(flush, c.wSize, o, fed)
      ensures ret == OK && flush == FINISH && data == [] ==>
        Nearer(old(o.finished), old(Total()), old(|o.w.Bits()|), o.finished, Total(), |o.w.Bits()|)
      ensures lastRank == if old(Busy(data, flush)) && ret == OK && avail' == 0 then -2 else old(lastRank)
      ensures avail > 0 && !old(Busy(data, flush)) ==> avail' > 0
      ensures ret == OK && flush == FULL_FLUSH && avail' > 0 ==> mark == |o.sent| && k.floor == |fed|
      ensures flush != FULL_FLUSH ==> mark == old(mark) && k.floor == old(k.floor)
      ensures ret == OK && avail' > 0 ==> s.input == []
    {
      hide Kept, Resumable, LoopOk, BlockWriter.Static.Ok, Expand, Ends, Flushed;
      avail' := avail;
      assert fed + [] == fed;
      if !o.finished {
        Feed(data);
        if s.input != [] || s.lookahead != 0 || flush != NO_FLUSH {
          var go;
          go, avail' := Work(flush, avail);
          if !go {
            return OK, avail';
          }
        }
      }
      ResumableAll(c.wSize, o, mark, s.tokens, s.symNext, k);
      ret := if flush == FINISH then STREAM_END else OK;
    }

    /** All of deflate() before the trailer, when the header is out. */
    method Body(data: seq<byte>, flush: Flush, avail: nat) returns (ret: Ret, avail': nat)
      requires Ready()
      modifies this`s, this`k, this`o, this`sums, this`fed, this`lastRank, this`mark, window, head, prev
      ensures Ready() && fed == old(fed) + if (ret == OK || ret == STREAM_END) && !old(o.finished) then data else []
      ensures old(o.sent) <= o.sent && avail' <= avail && |o.sent| - old(|o.sent|) == avail - avail'
      ensures (old(o.finished) ==> o.finished) && (o.finished ==> old(o.finished) || flush == FINISH)
      ensures ret == STREAM_END ==> flush == FINISH && o.finished && o.w.pending == [] && Ends(c.wSize, o.sent, fed)
      ensures ret == OK && flush == FINISH ==> avail' == 0
      ensures ret == OK && Flushes(flush) && avail' > 0 ==> Flushed(flush, c.wSize, o, fed)
      ensures ret == STREAM_ERROR <==> old(o.finished) && flush != FINISH
      ensures avail == 0 ==> ret == BUF_ERROR || ret == STREAM_ERROR
      ensures ret == BUF_ERROR <==>
        && ret != STREAM_ERROR
        && (|| avail == 0 || Useless(old(o.w.pending), data, old(s.input), flush, old(lastRank))
            || (old(o.finished) && data != [] && avail' > 0))
      ensures lastRank == if avail == 0 || ret == STREAM_ERROR then old(lastRank) else Remembered(flush, ret, avail')
      ensures ret == OK && flush == FULL_FLUSH && avail' > 0 ==> mark == |o.sent| && k.floor == |fed|
      ensures flush != FULL_FLUSH ==> mark == old(mark) && k.floor == old(k.floor)
      ensures ret == OK && flush == FINISH && data == [] ==>
        Nearer(old(o.finished), old(Total()), old(|o.w.Bits()|), o.finished, Total(), |o.w.Bits()|)
      ensures ret == OK && avail' > 0 ==> s.input == []
    {
      hide Kept, Resumable, LoopOk, BlockWriter.Static.Ok, Expand, Ends, Flushed;
      avail' := avail;
      if o.finished && flush != FINISH {
        return STREAM_ERROR, avail';
      }
      if avail == 0 {
        return BUF_ERROR, avail';
      }
      var go;
      go, ret, avail' := Begin(data, flush, avail);
      if go {
        ret, avail' := Blocks(data, flush, avail');
      }
    }

    /** All of deflate() before the trailer, as long as the header is not out; it may go on without any room. */
    method Opening(data: seq<byte>, flush: Flush, avail: nat) returns (ret: Ret, avail': nat)
      requires Ready() && Wrapped() && !top.Done()
      modifies this`s, this`k, this`o, this`sums, this`fed, this`lastRank, this`mark, window, head, prev, top
      ensures Ready() && top.Ready() && old(top.sent) <= top.sent
      ensures !top.Done() ==> o.sent == [] && o.w.pending == [] && !o.finished
      ensures fed == old(fed) + if ret == OK || ret == STREAM_END then data else []
      ensures avail' <= avail && |top.sent| + |o.sent| - old(|top.sent|) == avail - avail'
      ensures o.finished ==> flush == FINISH
      ensures ret == STREAM_END ==>
        flush == FINISH && o.finished && o.w.pending == [] && Ends(c.wSize, o.sent, fed) && top.Done()
      ensures ret == OK && flush == FINISH ==> avail' == 0
      ensures ret == OK && Flushes(flush) && avail' > 0 ==>
        Flushed(flush, c.wSize, o, fed) && top.Done()
      ensures ret != STREAM_ERROR && (avail == 0 ==> ret == BUF_ERROR)
      ensures ret == BUF_ERROR <==> avail == 0 || Useless(old(top.pending), data, old(s.input), flush, old(lastRank))
      ensures avail == 0 ==> lastRank == old(lastRank)
      ensures avail > 0 ==> lastRank == Rank(flush) || (lastRank == -2 && ret == OK && avail' == 0)
      ensures avail > 0 && ret == OK && avail' == 0 && (!top.Done() || old(Busy(data, flush))) ==> lastRank == -2
      ensures ret == OK && flush == FINISH && data == [] ==> top.Done() || Above() < old(Above())
      ensures ret == OK && flush == FULL_FLUSH && avail' > 0 ==> mark == |o.sent| && k.floor == |fed|
      ensures flush != FULL_FLUSH ==> mark == old(mark) && k.floor == old(k.floor)
      ensures ret == OK && avail' > 0 ==> s.input == []
    {
      hide GzipWriter.Writer.Ready, GzipWriter.Heading.Bytes, Kept, Resumable, LoopOk, BlockWriter.Static.Ok, Expand,
        Ends, Flushed, TailOk, Rank, BytesBits, ToBits, Nearer, Writer.Bits, Writer.Ok, SumsOf;
      avail' := avail;
      assert fed + [] == fed && s.input + [] == s.input;
      if avail == 0 {
        return BUF_ERROR, avail';
      }
      var go;
      go, ret, avail' := BeginHeader(data, flush, avail);
      if go {
        ret, avail' := Blocks(data, flush, avail');
      }
    }

    /** The beginning of deflate() as long as the header is not out: as much of it as there is room for goes first. */
    method BeginHeader(data: seq<byte>, flush: Flush, avail: nat) returns (go: bool, ret: Ret, avail': nat)
      requires Ready() && Wrapped() && !top.Done() && avail > 0
      modifies this`s, this`fed, this`lastRank, top
      ensures Ready() && top.Ready() && old(top.sent) <= top.sent && avail' <= avail &&
              |top.sent| - old(|top.sent|) == avail - avail'
      ensures go ==> top.Done() && s == old(s) && fed == old(fed) && lastRank == Rank(flush)
      ensures !go && ret == BUF_ERROR <==> Useless(old(top.pending), data, old(s.input), flush, old(lastRank))
      ensures !go ==> if ret == OK then avail' == 0 && fed == old(fed) + data && lastRank == -2
                      else ret == BUF_ERROR && fed == old(fed) && lastRank == Rank(flush)
    {
      hide GzipWriter.Writer.Ready, GzipWriter.Heading.Bytes, Kept, Resumable, LoopOk, BlockWriter.Static.Ok, Expand,
        Ends, Flushed, TailOk, Rank, BytesBits, ToBits, Writer.Bits, Writer.Ok, SumsOf;
      go, ret, avail' := false, OK, avail;
      var oldRank := lastRank;
      lastRank := Rank(flush);
      if top.pending == [] && data == [] && s.input == [] && Rank(flush) <= oldRank && flush != FINISH {
        return false, BUF_ERROR, avail';
      }
      var full;
      full, avail' := top.Header(avail);
      if full {
        lastRank := -2;
        Feed(data);
      }
      go := !full;
    }

    /** The sums are those of all input. */
    lemma SumsAtEnd()
      requires Valid() && o.finished
      ensures sums == SumsOf(c.wrap, fed)
    {
      hide Kept, Resumable, LoopOk, BlockWriter.Static.Ok, SumsOf;
      assert k.data + [] == k.data;
    }

    /** All of deflate() before the trailer. */
    method UpToTrailer(data: seq<byte>, flush: Flush, avail: nat) returns (ret: Ret, avail': nat)
      requires Ready() && Wrapped() && !tail.written
      modifies this`s, this`k, this`o, this`sums, this`fed, this`lastRank, this`mark, window, head, prev, top
      ensures Ready() && Wrapped()
      ensures fed == old(fed) + if (ret == OK || ret == STREAM_END) && !old(o.finished) then data else []
      ensures old(top.sent + o.sent) <= top.sent + o.sent && avail' <= avail &&
              |top.sent + o.sent| - old(|top.sent + o.sent|) == avail - avail'
      ensures (old(o.finished) ==> o.finished) && (o.finished ==> old(o.finished) || flush == FINISH)
      ensures ret == STREAM_END ==>
        flush == FINISH && o.finished && o.w.pending == [] && Ends(c.wSize, o.sent, fed) &&
        top.sent == top.heading.Bytes()
      ensures ret == OK && flush == FINISH ==> avail' == 0
      ensures ret == OK && Flushes(flush) && avail' > 0 ==>
        Flushed(flush, c.wSize, o, fed) && top.sent == top.heading.Bytes()
      ensures ret == STREAM_ERROR <==> old(o.finished) && flush != FINISH
      ensures avail == 0 ==> ret == BUF_ERROR || ret == STREAM_ERROR
      ensures ret == BUF_ERROR <==>
        && ret != STREAM_ERROR
        && (|| avail == 0 || Useless(old(Waiting()), data, old(s.input), flush, old(lastRank))
            || (old(o.finished) && data != [] && avail' > 0))
      ensures ret == OK && flush == FULL_FLUSH && avail' > 0 ==> mark == |o.sent| && k.floor == |fed|
      ensures flush != FULL_FLUSH ==> mark == old(mark) && k.floor == old(k.floor)
      ensures ret == OK && flush == FINISH && data == [] ==>
        Shrinks(tail, old(top.Done()), old(Above()), old(o.finished), old(Total()), old(|o.w.Bits()|),
                tail, top.Done(), Above(), o.finished, Total(), |o.w.Bits()|)
      ensures ret == OK && avail' > 0 ==> s.input == []
    {
      hide GzipWriter.Writer.Ready, GzipWriter.Heading.Bytes, Kept, Resumable, LoopOk, BlockWriter.Static.Ok, Expand,
        Ends, Flushed, SumsOf, TailBytes, Nearer;
      GzipWriter.SentPrefix(top);
      if top.Done() {
        ret, avail' := Body(data, flush, avail);
      } else {
        ret, avail' := Opening(data, flush, avail);
        assert old(top.sent + o.sent) == old(top.sent);
      }
      GzipWriter.SentPrefix(top);
    }

    /** deflate: the header, the blocks, and after the last of them the trailer. */
    method Deflate(data: seq<byte>, flush: Flush, avail: nat) returns (ret: Ret, avail': nat)
      requires Ready() && Wrapped()
      modifies this`s, this`k, this`o, this`sums, this`tail, this`fed, this`lastRank, this`mark, window, head, prev, top
      ensures Ready() && Wrapped()
      ensures fed == old(fed) + if (ret == OK || ret == STREAM_END) && !old(o.finished) then data else []
      ensures old(Out()) <= Out() && avail' <= avail && |Out()| - old(|Out()|) == avail - avail'
      ensures (old(o.finished) ==> o.finished) && (o.finished ==> old(o.finished) || flush == FINISH)
      ensures ret == STREAM_END ==>
        flush == FINISH && o.finished && Whole(c.wSize, c.wrap, top.heading.Bytes(), o.sent, Out(), fed)
      ensures ret == OK && flush == FINISH ==> avail' == 0
      ensures ret == OK && Flushes(flush) && avail' > 0 ==>
        Flushed(flush, c.wSize, o, fed) && Out() == top.heading.Bytes() + o.sent
      ensures ret == STREAM_ERROR <==> old(o.finished) && flush != FINISH
      ensures avail == 0 ==> ret == BUF_ERROR || ret == STREAM_ERROR
      ensures ret == BUF_ERROR <==>
        && ret != STREAM_ERROR
        && (|| avail == 0 || Useless(old(Waiting()), data, old(s.input), flush, old(lastRank))
            || (old(o.finished) && data != [] && avail' > 0))
      ensures ret == OK && flush == FULL_FLUSH && avail' > 0 ==> mark == |o.sent| && k.floor == |fed|
      ensures flush != FULL_FLUSH ==> mark == old(mark) && k.floor == old(k.floor)
      ensures ret == STREAM_END ==>
        mark <= |o.sent| && k.floor <= |fed| && Ends(c.wSize, o.sent[mark..], fed[k.floor..])
      ensures ret == OK && flush == FINISH && data == [] ==>
        Shrinks(old(tail), old(top.Done()), old(Above()), old(o.finished), old(Total()), old(|o.w.Bits()|),
                tail, top.Done(), Above(), o.finished, Total(), |o.w.Bits()|)
      ensures ret == OK && avail' > 0 ==> s.input == []
    {
      hide GzipWriter.Writer.Ready, GzipWriter.Heading.Bytes, Kept, Resumable, LoopOk, BlockWriter.Static.Ok, Expand,
        Ends, Flushed, SumsOf, TailBytes, Nearer, Shrinks,
        Whole;
      if tail.written {
        tail, ret, avail' := Again(c.wrap, tail, data, flush, avail, fed);
        assert fed + [] == fed;
        if ret == STREAM_END {
          AllOut();
          AllSince();
        }
        TailShrinks(old(tail), top.Done(), Above(), o.finished, Total(), |o.w.Bits()|, tail);
        return;
      }
      ret, avail' := UpToTrailer(data, flush, avail);
      assert top.sent + o.sent + [] == top.sent + o.sent;
      if ret == STREAM_END && c.wrap > 0 {
        SumsAtEnd();
        tail, avail' := Put(TailBytes(c.wrap, sums), avail');
        ret := if tail.pending == [] then STREAM_END else OK;
        TailBegins(old(tail), old(top.Done()), old(Above()), old(o.finished), old(Total()), old(|o.w.Bits()|),
          tail, top.Done(), Above(), o.finished, Total(), |o.w.Bits()|);
      }
      if ret == STREAM_END {
        AllOut();
        AllSince();
      }
    }

    /** And what came after the last full flush is a stream by itself. */
    lemma AllSince()
      requires Ready() && o.finished && o.w.pending == []
      ensures mark <= |o.sent| && k.floor <= |fed| && Ends(c.wSize, o.sent[mark..], fed[k.floor..])
    {
      hide Kept, BlockWriter.Static.Ok, Expand, Ends, Emits, SumsOf, Encodes;
      KeptParts(c, window[..], head[..], prev[..], s, k);
      LoopCovered(lazy, c, s, k);
      SinceAll(c, window[..], s, k, o, mark);
      assert k.data + [] == k.data;
    }

    /** When the last block and the trailer are out, so is all. */
    lemma AllOut()
      requires Ready() && Wrapped() && o.finished && o.w.pending == []
      requires c.wrap > 0 ==> tail.written && tail.pending == []
      ensures Whole(c.wSize, c.wrap, top.heading.Bytes(), o.sent, Out(), fed)
    {
      hide GzipWriter.Writer.Ready, GzipWriter.Heading.Bytes, Kept, LoopOk, BlockWriter.Static.Ok, Expand, Ends,
        SumsOf, TailBytes, Resumable;
      ResumableAll(c.wSize, o, mark, s.tokens, s.symNext, k);
      NoTail(SumsOf(c.wrap, fed));
      GzipWriter.SentPrefix(top);
      assert tail.sent + [] == tail.sent;
    }

    /** The beginning of deflate(): what is pending goes first, and a call that can do nothing is an error. */
    method Begin(data: seq<byte>, flush: Flush, avail: nat) returns (go: bool, ret: Ret, avail': nat)
      requires Ready() && avail > 0 && (o.finished ==> flush == FINISH)
      modifies this`s, this`o, this`fed, this`lastRank
      ensures Ready() && old(o.sent) <= o.sent && avail' <= avail && |o.sent| - old(|o.sent|) == avail - avail' &&
              o.finished == old(o.finished)
      ensures fed == old(fed) + if !go && ret == OK && !o.finished then data else []
      ensures go ==>
        avail' > 0 && o.w.pending == [] && (o.finished ==> data == []) && Total() == old(Total()) &&
        |o.w.Bits()| <= old(|o.w.Bits()|)
      ensures !go ==> if ret == OK then avail' == 0 && Total() <= old(Total()) + |data| &&
              |o.w.Bits()| < old(|o.w.Bits()|)
                      else ret == BUF_ERROR && (if flush == FINISH then o.finished && data != [] &&
                          avail' > 0 else data == [] || o.finished)
      ensures !go && ret == BUF_ERROR <==>
        || Useless(old(o.w.pending), data, old(s.input), flush, old(lastRank))
        || (o.finished && data != [] && avail' > 0)
      ensures lastRank == if go then Rank(flush) else Remembered(flush, ret, avail')
    {
      hide Kept, Resumable, LoopOk, BlockWriter.Static.Ok, Expand, Ends, Flushed, Rank, BytesBits, ToBits;
      go, ret, avail' := false, OK, avail;
      var oldRank := lastRank;
      lastRank := Rank(flush);
      if o.w.pending != [] {
        o, avail' := FlushWritten(c.wSize, o, avail, mark, s.tokens, s.symNext, k);
        if avail' == 0 {
          lastRank := -2;
          if !o.finished {
            Feed(data);
          }
          return;
        }
      } else if data == [] && s.input == [] && Rank(flush) <= oldRank && flush != FINISH {
        ret := BUF_ERROR;
        return;
      }
      if o.finished && data != [] {
        ret := BUF_ERROR;
        return;
      }
      go := true;
    }

    /** At the end of deflate_slow the byte that was held back is emitted. */
    method HoldBack()
      requires Ready() && !o.finished && s.lookahead == 0 && s.input == []
      modifies this`s
      ensures Valid() && s.symNext <= c.symEnd && s.lookahead == 0 && s.input == [] && s.strstart == old(s.strstart)
      ensures Expand(s.tokens) == fed && !s.matchAvailable
    {
      hide Kept, Resumable, Expand, BlockWriter.Static.Ok;
      ghost var s0 := s;
      if lazy {
        s := LastLiteral(c, window, s, k, head[..], prev[..]);
        ResumableMore(c.wSize, o, mark, s0, k, s, k);
      } else {
        FastAll(c, window[..], head[..], prev[..], s, k);
      }
      assert k.data + s.input == k.data;
    }
  }

  /** What is left of a stream shrinks: the trailer, or else the header, or else what the blocks are to hold. */
  ghost predicate Shrinks(tail: Part, headed: bool, above: int, finished: bool, total: nat, pending: nat,
      tail': Part, headed': bool, above': int, finished': bool, total': nat, pending': nat)
  {
    if tail.written || tail'.written then
      tail'.written && (tail.written ==> |tail'.pending| < |tail.pending| && headed' == headed && above' == above &&
                                         finished' == finished && total' == total && pending' == pending)
    else if headed then headed' && above' == above && Nearer(finished, total, pending, finished', total', pending')
    else headed' || above' < above
  }

  lemma TailShrinks(tail: Part, headed: bool, above: int, finished: bool, total: nat, pending: nat, tail': Part)
    requires tail.written && tail'.written
    ensures |tail'.pending| < |tail.pending| ==>
      Shrinks(tail, headed, above, finished, total, pending, tail', headed, above, finished, total, pending)
  {
  }

  lemma TailBegins(tail: Part, headed: bool, above: int, finished: bool, total: nat, pending: nat,
      tail': Part, headed': bool, above': int, finished': bool, total': nat, pending': nat)
    requires !tail.written && tail'.written
    ensures Shrinks(tail, headed, above, finished, total, pending, tail', headed', above', finished', total', pending')
  {
  }

  /** Finishing comes nearer: the last block is written, or there is less to compress, or less to deliver. */
  ghost predicate Nearer(finished: bool, total: nat, pending: nat, finished': bool, total': nat, pending': nat) {
    (!finished && finished') || (finished == finished' && (total' < total || (total' == total && pending' < pending)))
  }

  lemma ResumableAll(reach: nat, o: Output, mark: nat, tokens: seq<Token>, symNext: nat, k: Known)
    requires Resumable(reach, o, mark, tokens, symNext, k)
    ensures o.finished && symNext == 0 && o.w.pending == [] ==> Ends(reach, o.sent, Expand(tokens))
    ensures !o.finished && symNext == 0 && o.w.valid == 0 && o.w.pending == [] ==> Synced(reach, o.sent, Expand(tokens))
  {
    hide Expand, Emits, Ends;
    assert o.w.pending == [] ==> o.sent + o.w.pending == o.sent;
    if symNext == 0 {
      assert tokens[..|tokens|] == tokens;
      if !o.finished && o.w.valid == 0 && o.w.pending == [] {
        SyncedAt(reach, o, Expand(tokens));
      }
    }
  }

  lemma SinceAll(c: Config, win: seq<byte>, s: Cursor, k: Known, o: Output, mark: nat)
    requires Mirrors(win, s, k) && Covered(c, s, k) && Resumable(c.wSize, o, mark, s.tokens, 0, k)
    requires o.finished && o.w.pending == [] && Expand(s.tokens) == k.data
    ensures mark <= |o.sent| && k.floor <= |k.data| && Ends(c.wSize, o.sent[mark..], k.data[k.floor..])
  {
    hide Expand, Ends, Emits;
    var ts := s.tokens[k.cut..];
    assert ts[..|ts|] == ts && o.sent[mark..] + [] == o.sent[mark..];
    assert k.data[..k.base + End(s)] == k.data;
    assert k.data[k.floor..][..k.base + End(s) - k.floor] == k.data[k.floor..];
  }

  lemma SyncedAt(reach: nat, o: Output, out: seq<byte>)
    requires o.w.valid == 0 && o.w.pending == [] && Emits(reach, o.Bits(), false, out)
    ensures Synced(reach, o.sent, out)
  {
    hide Emits, Synced;
    NoBitsAt(o.w.buf);
    assert o.Bits() == BytesBits(o.sent);
    EmitsSynced(reach, o.sent, out);
  }

  /** From o to o' an empty block is added, whatever was there. */
  ghost predicate Idle(o: Output, o': Output) {
    o' == o.(w := o'.w) && forall reach, sent, done ::
      Stands(reach, o.(sent := sent), done) ==> Stands(reach, o'.(sent := sent), done)
  }

  lemma IdleAt(o: Output, o': Output, reach: nat, sent: seq<byte>, done: seq<byte>)
    requires Idle(o, o') && Stands(reach, o.(sent := sent), done)
    ensures Stands(reach, o'.(sent := sent), done)
  {
    hide Stands;
  }

  lemma IdleStands(reach: nat, o: Output, o': Output, done: seq<byte>)
    requires Idle(o, o') && Stands(reach, o, done)
    ensures o' == o.(w := o'.w) && Stands(reach, o', done)
  {
    hide Stands;
    assert o.(sent := o.sent) == o && o'.(sent := o.sent) == o';
    IdleAt(o, o', reach, o.sent, done);
  }

  /** So what is written decodes to the same. */
  lemma IdleResumes(reach: nat, o: Output, o': Output, mark: nat, tokens: seq<Token>, k: Known)
    requires Resumable(reach, o, mark, tokens, 0, k) && Idle(o, o') && o.w.pending == []
    ensures Resumable(reach, o', mark, tokens, 0, k)
  {
    hide Stands, Resumable, Done, Idle, Writer.Bits, Writer.Ok;
    ResumableStands(reach, o, mark, tokens, 0, k);
    IdleIs(o, o');
    assert o.(sent := o.sent) == o && o'.(sent := o.sent) == o';
    IdleAt(o, o', reach, o.sent, Done(tokens, 0));
    IdleAt(o, o', reach, o.sent[mark..], Done(tokens[k.cut..], 0));
    ResumableStands(reach, o', mark, tokens, 0, k);
  }

  lemma IdleIs(o: Output, o': Output)
    requires Idle(o, o')
    ensures o' == o.(w := o'.w)
  {
    hide Stands;
  }

  lemma MarkNone(bits: seq<bool>)
    ensures MarkBits(BLOCK, bits, bits)
  {
  }

  lemma MarkSame(flush: Flush, before: seq<bool>, after: seq<bool>)
    requires MarkBits(SYNC_FLUSH, before, after) && flush != BLOCK && flush != PARTIAL_FLUSH
    ensures MarkBits(flush, before, after)
  {
  }

  lemma DoneAll(tokens: seq<Token>)
    ensures Done(tokens, 0) == Expand(tokens)
  {
    hide Expand;
    assert tokens[..|tokens|] == tokens;
  }

  lemma StoredMarks(o: Output, w: Writer)
    requires BlockWriter.Stores(o.w, w, [], false)
    ensures MarkBits(SYNC_FLUSH, o.Bits(), o.(w := w).Bits()) && MarkBits(FULL_FLUSH, o.Bits(), o.(w := w).Bits())
  {
    hide ToBits, Writer.Bits;
    var pad :| BlockWriter.StoresAfter(o.w, w, [], false, pad);
    assert BytesBits([]) == [] && HeadBits(0, false) == ToBits(0, 3);
    assert StoredMark(o.Bits(), o.(w := w).Bits(), pad);
  }

  lemma FixedMarks(o: Output, w: Writer)
    requires Encoding.AllCodable(Rfc1951.FIXED_LENS, Rfc1951.FIXED_DISTS, []) && Encoding.Coded(Rfc1951.FIXED_LENS, 256)
    requires w.Bits() == o.w.Bits() + HeadBits(1, false) +
             Encoding.CodedBits(Rfc1951.FIXED_LENS, Rfc1951.FIXED_DISTS, [])
    ensures MarkBits(PARTIAL_FLUSH, o.Bits(), o.(w := w).Bits())
  {
    hide ToBits, Writer.Bits, Canonical.CodeOf, Rfc1951.FIXED_LENS, Rfc1951.FIXED_DISTS;
    EndCode();
    assert HeadBits(1, false) == ToBits(2, 3);
    assert o.(w := w).Bits() == o.Bits() + ToBits(2, 3) + ToBits(0, 7);
  }

  /** The end of a block has the code of seven zeros. */
  lemma EndCode()
    ensures Encoding.AllCodable(Rfc1951.FIXED_LENS, Rfc1951.FIXED_DISTS, []) && Encoding.Coded(Rfc1951.FIXED_LENS, 256)
    ensures Encoding.CodedBits(Rfc1951.FIXED_LENS, Rfc1951.FIXED_DISTS, []) == ToBits(0, 7)
  {
    hide Canonical.CodeOf, Rfc1951.FIXED_LENS, Rfc1951.FIXED_DISTS;
    FormatLaws.FixedParts(256);
    FormatLaws.FixedLaw(256);
    forall i | 0 <= i < 7 ensures MsbBits(0, 7)[i] == ToBits(0, 7)[i] {
      NoBit(i);
      NoBit(6 - i);
    }
    assert MsbBits(0, 7) == ToBits(0, 7);
  }

  lemma {:induction false} NoBit(i: nat)
    ensures !Bit(0, i)
  {
    if i > 0 {
      NoBit(i - 1);
    }
  }

  /** A sync flush ends with an empty stored block. */
  method SyncMark(o: Output) returns (o': Output)
    requires o.w.Ok() && !o.finished
    ensures Idle(o, o') && o'.w.valid == 0 && MarkBits(SYNC_FLUSH, o.Bits(), o'.Bits())
  {
    hide Emits, Ends, BlockWriter.Stores, MarkBits, Writer.Bits;
    var w := BlockWriter.StoredBlock(o.w, [], false);
    o' := o.(w := w);
    StoredMarks(o, w);
    forall reach, sent, done | Stands(reach, o.(sent := sent), done) ensures Stands(reach, o'.(sent := sent), done) {
      BlockWriter.StoresAdd(reach, o.w, w, [], false, sent, done);
      assert done + [] == done;
    }
  }

  /** _tr_align: a partial flush ends with an empty block with the fixed codes. */
  method AlignMark(st: BlockWriter.Static, o: Output) returns (o': Output)
    requires o.w.Ok() && !o.finished && st.Ok()
    ensures Idle(o, o') && MarkBits(PARTIAL_FLUSH, o.Bits(), o'.Bits())
  {
    hide Expand, Emits, Ends, BlockWriter.Static.Ok, Sane, Lits, MarkBits, Writer.Bits;
    var w := BlockWriter.StaticBlock(o.w, st, [], false);
    o' := o.(w := w);
    FixedMarks(o, w);
    forall reach, sent, done | Stands(reach, o.(sent := sent), done) ensures Stands(reach, o'.(sent := sent), done) {
      var tokens := Lits(done);
      LitsExpand(done);
      assert tokens + [] == tokens;
      BlockWriter.StaticAdds(reach, o.w, w, [], false, sent, tokens);
    }
  }

  /** A literal for each byte. */
  function Lits(data: seq<byte>): seq<Token> {
    seq(|data|, i requires 0 <= i < |data| => Lit(data[i]))
  }

  lemma {:induction false} LitsExpand(data: seq<byte>)
    ensures Expand(Lits(data)) == data && Sane(Lits(data))
    decreases |data|
  {
    if data != [] {
      var n := |data| - 1;
      LitsExpand(data[..n]);
      assert Lits(data)[..n] == Lits(data[..n]);
      assert data == data[..n] + [data[n]];
    }
  }

  lemma ResumableOk(reach: nat, o: Output, mark: nat, tokens: seq<Token>, symNext: nat, k: Known)
    requires Resumable(reach, o, mark, tokens, symNext, k)
    ensures o.w.Ok()
  {
    hide Expand, Emits, Ends;
  }

  lemma SizedKept(c: Config, win: seq<byte>, head: seq<nat>, prev: seq<nat>, s: Cursor, k: Known)
    requires Kept(c, win, head, prev, s, k)
    ensures Sized(c, win, head, prev) && |k.data| == k.base + s.Valid()
  {
  }

  /** With nothing held back, the tokens stand for the data wherever the window is. */
  lemma LoopForgets(lazy: bool, c: Config, s: Cursor, k: Known)
    requires LoopOk(lazy, c, s, k) && !s.matchAvailable && |k.data| == k.base + s.strstart
    ensures LoopOk(lazy, c, s.(strstart := 0, insert := 0), Known(k.data, |k.data|, {}, 0, |k.data|, |s.tokens|))
  {
    hide Expand;
    SpellsNothing(c);
    assert s.tokens[|s.tokens|..] == [] && k.data[|k.data|..] == [];
  }

  lemma SpellsNothing(c: Config)
    ensures Spells(c, [], [], 0)
  {
  }

  /** Writing the block changes nothing that a step is about. */
  lemma SteppedSame(lazy: bool, c: Config, win: seq<byte>, s: Cursor, k: Known, s': Cursor, k': Known, t: Cursor)
    requires s.strstart + MAX_MATCH <= |win| && (lazy && s.matchAvailable ==> s.strstart > 0)
    requires t == s'.(symNext := t.symNext)
    requires if lazy then SlowStepped(c, win, s, k, s', k') else FastStepped(c, win, s, k, s', k')
    ensures if lazy then SlowStepped(c, win, s, k, t, k') else FastStepped(c, win, s, k, t, k')
  {
    hide SlowFound, FastFound, FastSpan, Span;
  }

  lemma LoopIs(lazy: bool, c: Config, s: Cursor, k: Known)
    ensures LoopOk(lazy, c, s, k) <==> if lazy then SlowOk(c, s, k) else FastOk(c, s, k)
  {
  }

  /** At the end of deflate_slow the byte that was held back is emitted. */
  method LastLiteral(c: Config, window: array<byte>, s: Cursor, ghost k: Known, ghost head: seq<nat>,
        ghost prev: seq<nat>) returns (s': Cursor)
    requires Kept(c, window[..], head, prev, s, k) && SlowOk(c, s, k) && s.lookahead == 0
    ensures Kept(c, window[..], head, prev, s', k) && SlowOk(c, s', k) && s'.lookahead == 0 && s'.input == s.input &&
            s'.strstart == s.strstart
    ensures Expand(s'.tokens) == k.data && Added(s, s') && !s'.matchAvailable
  {
    hide Kept, PendingDist, Spells, Near;
    KeptParts(c, window[..], head, prev, s, k);
    s' := s;
    if s.matchAvailable {
      s' := EmitLiteral(c, window, s, k, k.base + s.strstart - 1, s.strstart - 1);
      s' := s'.(matchAvailable := false);
      KeptOther(c, window[..], head, prev, s, k, s');
    }
    SpellsIn(c, s'.tokens, k.data, k.base + s.strstart);
    assert k.data[..k.base + s.strstart] == k.data;
  }

  lemma AdvancedParts(s: Cursor, k: Known, s': Cursor, k': Known)
    requires Advanced(s, k, s', k')
    ensures k'.data + s'.input == k.data + s.input && s'.tokens == s.tokens && s'.symNext == s.symNext
    ensures k'.base >= k.base && s.strstart - s'.strstart == k'.base - k.base && k'.floor == k.floor && k'.cut == k.cut
  {
    var m := |s.input| - |s'.input|;
    assert s.input == s.input[..m] + s'.input;
  }

  lemma LoopAdvanced(lazy: bool, c: Config, s: Cursor, k: Known, s': Cursor, k': Known)
    requires LoopOk(lazy, c, s, k) && Advanced(s, k, s', k') && (s.strstart >= 1 ==> s'.strstart >= 1) &&
             s'.lookahead >= s.lookahead
    ensures LoopOk(lazy, c, s', k')
  {
    hide SlowOk, FastOk, Advanced;
    if lazy {
      SlowAdvanced(c, s, k, s', k');
    } else {
      FastAdvanced(c, s, k, s', k');
    }
  }

  // ---------- whole runs ----------

  /** One call: what is given, the flush, and the room for output. */
  datatype Call = Call(data: seq<byte>, flush: Flush, avail: nat)

  /** All that is taken: a call without room takes nothing. */
  function AllInput(calls: seq<Call>): seq<byte>
    decreases |calls|
  {
    if calls == [] then [] else AllInput(calls[..|calls| - 1]) + Taken(calls[|calls| - 1])
  }

  function Taken(call: Call): seq<byte> {
    if call.avail > 0 then call.data else []
  }

  /** The room of the calls that finish. */
  function FinishRoom(calls: seq<Call>): nat
    decreases |calls|
  {
    if calls == [] then 0
    else FinishRoom(calls[..|calls| - 1]) + if calls[|calls| - 1].flush == FINISH then calls[|calls| - 1].avail else 0
  }

  lemma CallsNext(calls: seq<Call>, i: nat)
    requires i < |calls|
    ensures AllInput(calls[..i + 1]) == AllInput(calls[..i]) + Taken(calls[i])
    ensures FinishRoom(calls[..i + 1]) == FinishRoom(calls[..i]) + if calls[i].flush == FINISH then calls[i].avail
            else 0
  {
    assert calls[..i + 1][..i] == calls[..i];
  }

  lemma NoCalls(calls: seq<Call>)
    ensures AllInput(calls[..0]) == [] && FinishRoom(calls[..0]) == 0
  {
  }

  /** Finishing may take any number of calls, which are then the last, and give no more input. */
  ghost predicate Orderly(calls: seq<Call>) {
    forall i, j :: 0 <= i < j < |calls| && calls[i].flush == FINISH ==> calls[j].flush == FINISH && calls[j].data == []
  }

  /** Finishing was asked for before the i-th call. */
  ghost predicate Asked(calls: seq<Call>, i: nat)
    requires i <= |calls|
  {
    exists j :: 0 <= j < i && calls[j].flush == FINISH
  }

  lemma AskedNext(calls: seq<Call>, i: nat)
    requires Orderly(calls) && i < |calls|
    ensures Asked(calls, i) ==> calls[i].flush == FINISH && calls[i].data == []
    ensures Asked(calls, i + 1) <==> Asked(calls, i) || calls[i].flush == FINISH
  {
  }

  /** A stream for data: header, blocks and trailer. */
  ghost predicate Whole(reach: nat, wrap: nat, header: seq<byte>, body: seq<byte>, bytes: seq<byte>, data: seq<byte>) {
    Ends(reach, body, data) && bytes == header + body + TailBytes(wrap, SumsOf(wrap, data))
  }

  /** Compresses in the given calls: either the stream has come to its end, or all room for finishing it was used. */
  method DeflateInCalls(c: Config, lazy: bool, heading: GzipWriter.Heading, calls: seq<Call>)
      returns (d: Deflater, ended: bool)
    requires c.Ok() && heading.Ok() && Orderly(calls)
    ensures fresh(d) && fresh(d.window) && fresh(d.head) && fresh(d.prev) && fresh(d.top)
    ensures d.Ready() && d.fed == AllInput(calls) && d.Wrapped() && d.c == c && d.top.heading == heading
    ensures ended ==> d.o.finished && Whole(c.wSize, c.wrap, heading.Bytes(), d.o.sent, d.Out(), AllInput(calls))
    ensures !ended ==> |d.Out()| >= FinishRoom(calls)
  {
    hide GzipWriter.Writer.Ready, GzipWriter.Heading.Bytes, Ends, SumsOf, TailBytes, BlockWriter.Static.Ok, Flushed,
      Kept, Resumable, LoopOk, Expand, AllInput, FinishRoom,
      Orderly, Asked;
    var st := BlockWriter.StaticInit();
    var top := new GzipWriter.Writer(heading, 4 * (c.symEnd + 1));
    d := new Deflater(c, lazy, top, st);
    ended := false;
    NoCalls(calls);
    for i := 0 to |calls|
      invariant fresh(d) && fresh(d.window) && fresh(d.head) && fresh(d.prev) && fresh(d.top) && d.Ready() &&
                d.Wrapped() && d.fed == AllInput(calls[..i])
      invariant d.c == c && d.top.heading == heading && (d.o.finished ==> Asked(calls, i))
      invariant ended ==> d.o.finished && Whole(c.wSize, c.wrap, heading.Bytes(), d.o.sent, d.Out(), d.fed)
      invariant !ended ==> |d.Out()| >= FinishRoom(calls[..i])
    {
      CallsNext(calls, i);
      AskedNext(calls, i);
      var call := calls[i];
      if !ended {
        ghost var before := d.fed;
        var ret, left := d.Deflate(call.data, call.flush, call.avail);
        ended := ret == STREAM_END;
        assert before + [] == before;
        assert d.fed == before + Taken(call);
      } else {
        assert d.fed + [] == d.fed;
      }
    }
    assert calls[..|calls|] == calls;
  }

  /**
   Repeating the last call, with whatever room, comes to the end: all that was given then decodes from all that was
   delivered.
   */
  method Compress(c: Config, lazy: bool, heading: GzipWriter.Heading, calls: seq<Call>)
      returns (bytes: seq<byte>, ghost body: seq<byte>)
    requires c.Ok() && heading.Ok() && Orderly(calls)
    ensures Whole(c.wSize, c.wrap, heading.Bytes(), body, bytes, AllInput(calls))
  {
    hide GzipWriter.Writer.Ready, GzipWriter.Heading.Bytes, Ends, SumsOf, TailBytes, BlockWriter.Static.Ok, Flushed,
      Kept, Resumable, LoopOk, Expand, AllInput;
    var d, ended := DeflateInCalls(c, lazy, heading, calls);
    GzipWriter.SentPrefix(d.top);
    while !ended
      invariant fresh(d) && fresh(d.window) && fresh(d.head) && fresh(d.prev) && fresh(d.top)
      invariant d.Ready() && d.Wrapped() && d.fed == AllInput(calls) && d.c == c &&
                d.top.heading == heading && d.Above() >= 0
      invariant ended ==> Whole(c.wSize, c.wrap, heading.Bytes(), d.o.sent, d.Out(), d.fed)
      decreases if ended then 0 else 1, if d.tail.written then 0 else 1, if d.top.Done() then 0 else 1, d.Above(),
                if d.o.finished then 0 else 1, d.Total(), |d.o.w.Bits()|, |d.tail.pending|
    {
      var room: nat :| room > 0;
      var ret, left := d.Deflate([], FINISH, room);
      ended := ret == STREAM_END;
      assert d.fed + [] == d.fed;
      GzipWriter.SentPrefix(d.top);
    }
    bytes, body := d.Out(), d.o.sent;
  }
}
