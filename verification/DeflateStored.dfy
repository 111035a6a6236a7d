/**
 deflate_stored: level 0, where the input is copied into stored blocks, directly if there is room
 for a large block, and by way of the window and pending_buf if not.
 */
module DeflateStored {
  import opened Bits
  import opened BitWriter
  import opened BlockSpec
  import opened Deflate
  import opened Compressor
  import opened InputSums
  import opened DeflateWrap
  import GzipWriter
  import BlockWriter

  const MAX_STORED := 65535

  function Min(a: int, b: int): int {
    if a > b then b else a
  }

  /** The bytes before the data of a stored block, when valid bits wait for a byte. */
  function HeadBytes(valid: nat): nat {
    (valid + 42) / 8
  }

  // ---------- direct blocks ----------

  /** A dummy block of no bytes, into which the true length is put. */
  method PatchedHead(w: Writer, length: nat, last: bool) returns (w': Writer, ghost pad: seq<bool>)
    requires w.Ok() && length <= MAX_STORED && w.pending == [] && w.valid < 8
    ensures w'.Ok() && w'.valid == 0 && w'.Bits() == BytesBits(w'.pending) && |pad| < 8 &&
            |w'.pending| == HeadBytes(w.valid)
    ensures w'.Bits() == w.Bits() + HeadBits(0, last) + pad + ToBits(length, 16) + ToBits(MAX_STORED - length, 16)
    ensures (|w.Bits()| + 3 + |pad|) % 8 == 0
  {
    hide ToBits, BytesBits, HeadBits, Pow2;
    w', pad := BlockWriter.StoredHead(w, 0, last);
    var p := w'.pending;
    var n := |p| - 4;
    ghost var front := w.Bits() + HeadBits(0, last) + pad;
    assert |w.Bits()| == w.valid;
    BytesBitsConcat(p[..n], p[n..]);
    assert p[..n] + p[n..] == p;
    assert |BytesBits(p[..n])| == |front|;
    assert BytesBits(p)[..|front|] == front && BytesBits(p)[..|front|] == BytesBits(p[..n]);
    var lens := [length % 256, length / 256, 255 - length % 256, 255 - length / 256];
    LengthBytes(length);
    BytesBitsConcat(p[..n], lens);
    w' := w'.(pending := p[..n] + lens);
    NoBitsAt(w'.buf);
    assert w'.Bits() == BytesBits(p[..n] + lens);
  }

  /** A length and its complement, byte by byte. */
  lemma LengthBytes(length: nat)
    requires length <= MAX_STORED
    ensures length / 256 < 256 && BytesBits([length % 256, length / 256, 255 - length % 256, 255 - length / 256]) ==
            ToBits(length, 16) + ToBits(MAX_STORED - length, 16)
  {
    hide ToBits, BytesBits;
    TwoBytes(length);
    TwoBytes(MAX_STORED - length);
    var a, b := [length % 256, length / 256], [255 - length % 256, 255 - length / 256];
    assert (MAX_STORED - length) % 256 == 255 - length % 256 && (MAX_STORED - length) / 256 == 255 - length / 256;
    BytesBitsConcat(a, b);
    assert a + b == [length % 256, length / 256, 255 - length % 256, 255 - length / 256];
  }

  /** What is written decodes to done, and what of it came after the last full flush to done from since on. */
  ghost predicate Holds(o: Output, mark: nat, done: seq<byte>, since: nat) {
    && Stands(0, o, done) && mark <= |o.sent| + |o.w.pending| && since <= |done|
    && Stands(0, Since(o, mark), done[since..])
  }

  lemma HoldsParts(o: Output, mark: nat, done: seq<byte>, since: nat)
    requires Holds(o, mark, done, since)
    ensures Stands(0, o, done) && o.w.Ok() && mark <= |o.sent| + |o.w.pending| && since <= |done|
  {
    hide Emits, Ends, Since;
  }

  lemma HoldsAnywhere(o: Output, mark: nat, done: seq<byte>, since: nat, blockStart: int)
    requires Holds(o, mark, done, since)
    ensures Holds(o.(blockStart := blockStart), mark, done, since)
  {
    hide Stands;
    StandsAnywhere(0, o, blockStart, done);
    StandsAnywhere(0, Since(o, mark), blockStart, done[since..]);
    assert Since(o.(blockStart := blockStart), mark) == Since(o, mark).(blockStart := blockStart);
  }

  /** flush_pending */
  method FlushHeld(o: Output, avail: nat, ghost mark: nat, ghost done: seq<byte>, ghost since: nat)
      returns (o': Output, avail': nat)
    requires Holds(o, mark, done, since)
    ensures Holds(o', mark, done, since) && o'.blockStart == o.blockStart && o'.finished == o.finished &&
            o.sent <= o'.sent
    ensures |o'.sent| - |o.sent| == avail - avail' && avail' <= avail && (o'.w.pending == [] || avail' == 0)
    ensures o'.w.valid < 8 && (o.w.valid == 0 ==> o'.w.valid == 0)
    ensures |o'.w.Bits()| == |o.w.Bits()| - 8 * (avail - avail') && (o.w.pending != [] && avail > 0 ==> avail' < avail)
    ensures o'.Bits() == o.Bits() && (o.w.valid == 0 ==> |o'.sent| + |o'.w.pending| == |o.sent| + |o.w.pending|)
  {
    hide Stands, BytesBits, ToBits, Writer.Bits, Output.Bits, Since;
    o', avail' := FlushPending(0, o, avail, done);
    StandsParts(0, o, done);
    StandsParts(0, o', done);
    SinceSame(0, o, o', mark, done[since..]);
    assert o.w.valid == 0 ==> |o'.sent + o'.w.pending| == |o.sent + o.w.pending|;
  }

  /** An empty block, and nothing since. */
  lemma HoldsIdle(o: Output, o': Output, mark: nat, done: seq<byte>, since: nat)
    requires Holds(o, mark, done, since) && Idle(o, o') && o.w.pending == []
    ensures Holds(o', mark, done, since) && o' == o.(w := o'.w)
  {
    hide Stands, Idle;
    IdleStands(0, o, o', done);
    IdleAt(o, o', 0, o.sent[mark..], done[since..]);
  }

  lemma HoldsNow(o: Output, mark: nat, done: seq<byte>, since: nat)
    requires Holds(o, mark, done, since) && !o.finished && o.w.valid == 0
    ensures Holds(o, |o.sent| + |o.w.pending|, done, |done|)
  {
    hide Emits, Ends, ToBits;
    var now := |o.sent| + |o.w.pending|;
    SinceBits(o, now);
    assert (o.sent + o.w.pending)[now..] == [] && done[|done|..] == [];
    NothingWritten(0, Since(o, now).(blockStart := 0), 0);
    StandsAnywhere(0, Since(o, now), 0, []);
  }

  /** The bytes go out after those of the head. */
  lemma DirectAdds(reach: nat, o: Output, w: Writer, pad: seq<bool>, block: seq<byte>, last: bool, done: seq<byte>)
    requires Stands(reach, o, done) && !o.finished && |block| <= MAX_STORED && |pad| < 8 &&
             (|o.Bits()| + 3 + |pad|) % 8 == 0
    requires BytesBits(w.pending) == o.w.Bits() + HeadBits(0, last) + pad + ToBits(|block|, 16) +
             ToBits(65535 - |block|, 16)
    ensures Stands(reach, Output(o.sent + w.pending + block, Writer([], 0, 0), o.blockStart, last), done + block)
  {
    hide Emits, Ends, ToBits, BytesBits, HeadBits;
    var o' := Output(o.sent + w.pending + block, Writer([], 0, 0), o.blockStart, last);
    BlockWriter.StoredEmits(reach, o.Bits(), last, pad, block, done);
    NoBits();
    BytesBitsConcat(o.sent + w.pending, block);
    BytesBitsConcat(o.sent, w.pending);
    assert o'.Bits() == BytesBits(o'.sent);
    assert o'.Bits() == o.Bits() + HeadBits(0, last) + pad + ToBits(|block|, 16) + ToBits(65535 - |block|, 16) +
        BytesBits(block);
    if last {
      assert o'.Bits() + [] == BytesBits(o'.sent) && o'.sent + [] == o'.sent;
      WholeEnds(reach, o'.Bits(), [], o'.sent, done + block);
    }
  }

  /** A block that goes out at once, head and bytes. */
  method DirectBlock(o: Output, block: seq<byte>, last: bool, ghost mark: nat, ghost done: seq<byte>, ghost since: nat)
      returns (o': Output)
    requires Holds(o, mark, done, since) && !o.finished && o.w.pending == [] && o.w.valid < 8 && |block| <= MAX_STORED
    ensures Holds(o', mark, done + block, since) && o'.finished == last && o'.w.pending == [] && o'.w.valid == 0 &&
            o'.blockStart == o.blockStart
    ensures o.sent <= o'.sent && |o'.sent| == |o.sent| + HeadBytes(o.w.valid) + |block|
  {
    hide Stands, ToBits, BytesBits, HeadBits;
    HoldsParts(o, mark, done, since);
    var w, pad := PatchedHead(o.w, |block|, last);
    o' := Output(o.sent + w.pending + block, Writer([], 0, 0), o.blockStart, last);
    DirectAdds(0, o, w, pad, block, last, done);
    DirectAdds(0, Since(o, mark), w, pad, block, last, done[since..]);
    assert (done + block)[since..] == done[since..] + block;
    assert o'.sent[mark..] == o.sent[mark..] + w.pending + block;
  }

  // ---------- the window ----------

  /** The window begins with the end of data, at least min(w, |data| - since) bytes of it. */
  ghost predicate Shows(win: seq<byte>, wSize: nat, strstart: nat, data: seq<byte>, since: nat) {
    && |win| == 2 * wSize && strstart <= 2 * wSize && since + strstart <= |data|
    && win[..strstart] == data[|data| - strstart..] && strstart >= Min(|data| - since, wSize)
  }

  /** The upper half of the window takes the place of the lower. */
  method SlideDown(window: array<byte>, wSize: nat, strstart: nat) returns (strstart': nat)
    requires window.Length == 2 * wSize && wSize <= strstart <= 2 * wSize
    modifies window
    ensures strstart' == strstart - wSize && window[..strstart'] == old(window[wSize..strstart])
  {
    strstart' := strstart - wSize;
    forall i | 0 <= i < strstart' {
      window[i] := window[wSize + i];
    }
  }

  method CopyTo(window: array<byte>, at: nat, bytes: seq<byte>)
    requires at + |bytes| <= window.Length
    modifies window
    ensures window[..at + |bytes|] == old(window[..at]) + bytes
  {
    forall i | 0 <= i < |bytes| {
      window[at + i] := bytes[i];
    }
  }

  /** Bytes come after what the window shows of data. */
  lemma ShowsMore(win: seq<byte>, wSize: nat, strstart: nat, data: seq<byte>, since: nat, bytes: seq<byte>)
    requires |win| == 2 * wSize && strstart + |bytes| <= 2 * wSize && since + strstart <= |data|
    requires win[..strstart + |bytes|] == data[|data| - strstart..] + bytes &&
             strstart + |bytes| >= Min(|data| + |bytes| - since, wSize)
    ensures Shows(win, wSize, strstart + |bytes|, data + bytes, since)
  {
    var all, n := data + bytes, strstart + |bytes|;
    assert all[|all| - n..] == data[|data| - strstart..] + bytes;
  }

  /** What is left after a slide. */
  lemma ShowsUpper(win: seq<byte>, wSize: nat, strstart: nat, data: seq<byte>, since: nat)
    requires Shows(win, wSize, strstart, data, since) && wSize <= strstart
    ensures win[wSize..strstart] == data[|data| - (strstart - wSize)..]
  {
    assert win[wSize..strstart] == win[..strstart][wSize..];
  }

  /** The window shows only the bytes that come after data. */
  lemma ShowsLate(win: seq<byte>, wSize: nat, data: seq<byte>, since: nat, bytes: seq<byte>)
    requires |win| == 2 * wSize && |bytes| >= wSize && win[..wSize] == bytes[|bytes| - wSize..] && since <= |data|
    ensures Shows(win, wSize, wSize, data + bytes, since)
  {
    var all := data + bytes;
    assert all[|all| - wSize..] == bytes[|bytes| - wSize..];
  }

  lemma ShowsIs(win: seq<byte>, wSize: nat, strstart: nat, data: seq<byte>, since: nat)
    requires Shows(win, wSize, strstart, data, since)
    ensures |win| == 2 * wSize && strstart <= 2 * wSize && since + strstart <= |data|
    ensures win[..strstart] == data[|data| - strstart..] && strstart >= Min(|data| - since, wSize)
  {
  }

  /** Bytes that did not pass through the window are put into it, the last w_size of them at most. */
  method KeepCopied(window: array<byte>, wSize: nat, strstart: nat, copied: seq<byte>, ghost data: seq<byte>,
        ghost since: nat)
      returns (strstart': nat)
    requires Shows(window[..], wSize, strstart, data, since) && wSize > 0 && copied != []
    modifies window
    ensures Shows(window[..], wSize, strstart', data + copied, since)
  {
    hide Shows;
    ghost var win := window[..];
    ShowsIs(win, wSize, strstart, data, since);
    var used := |copied|;
    if used >= wSize {
      CopyTo(window, 0, copied[used - wSize..]);
      strstart' := wSize;
      assert window[..][..wSize] == window[..wSize];
      ShowsLate(window[..], wSize, data, since, copied);
    } else {
      strstart' := strstart;
      if 2 * wSize - strstart <= used {
        ShowsUpper(win, wSize, strstart, data, since);
        strstart' := SlideDown(window, wSize, strstart);
        assert window[..strstart'] == win[wSize..strstart];
      }
      assert window[..strstart'] == data[|data| - strstart'..];
      CopyTo(window, strstart', copied);
      assert window[..][..strstart' + used] == window[..strstart' + used];
      ShowsMore(window[..], wSize, strstart', data, since, copied);
      strstart' := strstart' + used;
    }
  }

  // ---------- level 0 ----------

  class Storer {
    const wSize: nat
    const pendingSize: nat
    const wrap: nat
    const top: GzipWriter.Writer
    const st: BlockWriter.Static
    const window: array<byte>
    var strstart: nat
    var o: Output
    var input: seq<byte>       // what the caller has yet to see taken
    var sums: Sums
    var tail: Part
    var lastRank: int

    ghost var data: seq<byte>  // all input taken
    ghost var since: nat       // where in it the last full flush was
    ghost var mark: nat        // and how much of the output was written then

    ghost predicate Valid()
      reads this, window
    {
      && 512 <= wSize <= 32768 && 512 <= pendingSize && st.Ok() && sums == SumsOf(wrap, data)
      && Shows(window[..], wSize, strstart, data, since) && 0 <= o.blockStart <= strstart
      && Holds(o, mark, data[..|data| - strstart + o.blockStart], since) && o.w.valid < 8
      && (o.finished ==> input == [] && o.blockStart == strstart)
    }

    /** All input given. */
    ghost function Fed(): seq<byte>
      reads this
    {
      data + input
    }

    /** The header comes before all of the blocks, and the trailer after them. */
    ghost predicate Wrapped()
      reads this, top
    {
      && top.Ready() && (!top.Done() ==> o.sent == [] && o.w.pending == [] && !o.finished)
      && TailOk(wrap, tail, o.finished && o.w.pending == [], Fed())
    }

    /** pending_buf, which is the header's until that is out. */
    function Waiting(): seq<byte>
      reads this, top
    {
      if top.Done() then o.w.pending else top.pending
    }

    /** All bytes delivered. */
    function Out(): seq<byte>
      reads this, top
    {
      top.sent + o.sent + tail.sent
    }

    /** How much of the header is still to be delivered. */
    function Above(): int
      reads this, top
    {
      |top.heading.Bytes()| - |top.sent|
    }

    constructor (size: nat, pending: nat, wrapper: nat, header: GzipWriter.Writer, tables: BlockWriter.Static)
      requires 512 <= size <= 32768 && 512 <= pending && tables.Ok() && header.Ready() && header.sent == []
      ensures Valid() && Wrapped() && fresh(window) && wrap == wrapper && top == header
      ensures Fed() == [] && Out() == [] && !o.finished && o.w.pending == []
    {
      wSize, pendingSize, wrap, top, st := size, pending, wrapper, header, tables;
      sums, tail := Start(wrapper), NONE_YET;
      window := new byte[2 * size](_ => 0);
      strstart, o, input, lastRank := 0, Output([], Writer([], 0, 0), 0, false), [], -4;
      data, since, mark := [], 0, 0;
      new;
      NoBits();
      assert o.Bits() == [];
      EmitsNothing(0);
      CountedNone(wrap);
    }

    /**
     Large blocks go from the window and the input to the output directly, and small ones when flushing if they hold
     all there is.  What comes directly from the input is returned.
     */
    method Direct(flush: Flush, avail: nat) returns (avail': nat, last: bool, copied: seq<byte>)
      requires Valid() && !o.finished && o.w.pending == []
      modifies this`o, this`input, this`sums
      ensures Copying(old(input), copied) && o.finished == last && o.w.pending == []
      ensures avail' <= avail && old(o.sent) <= o.sent && |o.sent| - old(|o.sent|) == avail - avail'
      ensures last ==> flush == FINISH && Total() == 0
      ensures Total() <= old(Total())
      ensures !last && flush != NO_FLUSH ==> Tight(flush, avail', o.w.valid, Total(), Min(pendingSize - 5, wSize))
      ensures !last ==> Scant(avail', o.w.valid, Total(), Min(pendingSize - 5, wSize))
    {
      hide Holds, Shows, SumsOf, BlockWriter.Static.Ok, DirectLength, HeadBytes, Tight, Scant;
      var minBlock := Min(pendingSize - 5, wSize);
      avail', last, copied := avail, false, [];
      NothingCopied();
      while !last
        invariant Copying(old(input), copied) && o.finished == last && o.w.pending == []
        invariant avail' <= avail && old(o.sent) <= o.sent && |o.sent| - old(|o.sent|) == avail - avail'
        invariant (last ==> flush == FINISH && Total() == 0) && Total() <= old(Total())
        decreases avail', !last
      {
        DirectFits(flush, avail', o.w.valid, Total(), minBlock);
        var len := DirectLength(flush, avail', o.w.valid, Total(), minBlock);
        if len < 0 {
          break;
        }
        last := flush == FINISH && len == Total();
        var room := avail' - HeadBytes(o.w.valid) - len;
        copied := CopyOut(len, last, old(input), copied);
        avail' := room;
      }
    }

    /** While blocks go out directly: copied is what they took of the input given, the window having none left then. */
    ghost predicate Copying(given: seq<byte>, copied: seq<byte>)
      reads this, window
    {
      && Shows(window[..], wSize, strstart, data, since) && given == copied + input &&
          (copied != [] ==> o.blockStart == strstart)
      && 0 <= o.blockStart <= strstart && Holds(o, mark, data[..|data| - strstart + o.blockStart] + copied, since)
      && o.w.valid < 8 && sums == SumsOf(wrap, data + copied)
    }

    lemma NothingCopied()
      requires Valid()
      ensures Copying(input, [])
    {
      hide Holds, SumsOf;
      assert data + [] == data;
      assert data[..|data| - strstart + o.blockStart] + [] == data[..|data| - strstart + o.blockStart];
    }

    /** One block of len bytes: first what is left in the window. */
    method CopyOut(len: nat, last: bool, ghost given: seq<byte>, copied: seq<byte>) returns (copied': seq<byte>)
      requires Copying(given, copied) && !o.finished && o.w.pending == [] && len <= Total() && len <= MAX_STORED
      modifies this`o, this`input, this`sums
      ensures Copying(given, copied') && o.finished == last && o.w.pending == [] && Total() == old(Total()) - len
      ensures old(o.sent) <= o.sent && |o.sent| == old(|o.sent|) + HeadBytes(old(o.w.valid)) + len
    {
      hide Holds, Shows, HeadBytes, SumsOf, Counted;
      ShowsIs(window[..], wSize, strstart, data, since);
      var left := strstart - o.blockStart;
      var fromWindow := Min(left, len);
      var fromInput := len - fromWindow;
      var block := window[o.blockStart..o.blockStart + fromWindow] + input[..fromInput];
      assert window[o.blockStart..o.blockStart + fromWindow] == window[..][o.blockStart..o.blockStart + fromWindow];
      ghost var done := data[..|data| - strstart + o.blockStart] + copied;
      var at := o.blockStart;
      o := DirectBlock(o, block, last, mark, done, since);
      HoldsAnywhere(o, mark, done + block, since, at + fromWindow);
      o := o.(blockStart := at + fromWindow);
      BlockData(window[..], wSize, strstart, data, since, at, fromWindow, copied, input, fromInput);
      assert copied + input == (copied + input[..fromInput]) + input[fromInput..];
      CountedMore(wrap, data + copied, input[..fromInput]);
      assert data + copied + input[..fromInput] == data + (copied + input[..fromInput]);
      sums := Counted(wrap, sums, input[..fromInput]);
      copied', input := copied + input[..fromInput], input[fromInput..];
    }

    /** What is still to be written. */
    function Total(): int
      reads this
    {
      strstart - o.blockStart + |input|
    }

    /** The window takes what input it can. */
    method Refill()
      requires Valid() && !o.finished
      modifies this`strstart, this`o, this`input, this`sums, this`data, window
      ensures Valid() && Fed() == old(Fed()) && Total() == old(Total()) && o == old(o).(blockStart := o.blockStart)
      ensures input == [] || strstart - o.blockStart >= wSize
    {
      hide Holds, Shows, SumsOf, Counted, BlockWriter.Static.Ok;
      ShowsIs(window[..], wSize, strstart, data, since);
      ghost var done := data[..|data| - strstart + o.blockStart];
      ghost var o0 := o;
      var start, n := FillWindow(window, wSize, strstart, o.blockStart, input, data, since);
      ShowsIs(window[..], wSize, start, data + input[..n], since);
      assert input[..n] + input[n..] == input;
      o := o.(blockStart := o.blockStart + start - strstart - n);
      HoldsAnywhere(o0, mark, done, since, o.blockStart);
      assert (data + input[..n])[..|data| + n - start + o.blockStart] == done;
      assert Fed() == data + input[..n] + input[n..];
      CountedMore(wrap, data, input[..n]);
      sums := Counted(wrap, sums, input[..n]);
      strstart, data, input := start, data + input[..n], input[n..];
    }

    /** A block of what is in the window goes to pending_buf, if there is enough of it, or if it is all and flushing. */
    method Pending(flush: Flush, avail: nat) returns (last: bool, avail': nat)
      requires Valid() && !o.finished && o.w.pending == [] && (input == [] || strstart - o.blockStart >= wSize)
      requires flush != NO_FLUSH ==>
        Tight(flush, avail, o.w.valid, Total(), Min(pendingSize - 5, wSize)) && (Total() > 0 || flush == FINISH)
      requires Scant(avail, o.w.valid, Total(), Min(pendingSize - 5, wSize))
      modifies this`o
      ensures Valid() && o.finished == last && (last ==> flush == FINISH) && old(o.sent) <= o.sent
      ensures avail' <= avail && |o.sent| - old(|o.sent|) == avail - avail' && (o.w.pending == [] || avail' == 0)
      ensures (flush != NO_FLUSH ==> avail' == 0) && (avail' > 0 ==> input == [])
      ensures Total() <= old(Total()) && (flush == FINISH && !last ==> Total() < old(Total()))
    {
      hide Holds, Shows, SumsOf, BlockWriter.Static.Ok, BytesBits, ToBits, PendingLength, HeadBytes, Tight, Scant,
        Writer.Bits, Writer.Ok, Output.Bits;
      avail', last := avail, false;
      PendingFits(flush, avail, o.w.valid, strstart - o.blockStart, |input|, pendingSize, wSize);
      var len := PendingLength(flush, o.w.valid, strstart - o.blockStart, |input|, pendingSize, wSize);
      if len >= 0 {
        last := flush == FINISH && input == [] && len == strstart - o.blockStart;
        ShowsIs(window[..], wSize, strstart, data, since);
        ghost var done, done' := data[..|data| - strstart + o.blockStart],
              data[..|data| - strstart + o.blockStart + len];
        ShowsBlock(window[..], wSize, strstart, data, since, o.blockStart, len);
        assert window[o.blockStart..o.blockStart + len] == window[..][o.blockStart..o.blockStart + len];
        o := PendingBlock(o, window[o.blockStart..o.blockStart + len], last, pendingSize, mark, done, since);
        o, avail' := FlushHeld(o, avail, mark, done', since);
      }
    }

    /** deflate_stored */
    method Run(flush: Flush, avail: nat) returns (state: BlockState, avail': nat)
      requires Valid() && !o.finished && o.w.pending == []
      modifies this`strstart, this`o, this`input, this`sums, this`data, window
      ensures Valid() && Fed() == old(Fed()) && old(o.sent) <= o.sent && avail' <= avail &&
              |o.sent| - old(|o.sent|) == avail - avail'
      ensures if state == NeedMore || state == BlockDone then !o.finished else o.finished && flush == FINISH
      ensures (flush == FINISH ==> state != BlockDone) && (flush == NO_FLUSH ==> state == NeedMore)
      ensures flush != NO_FLUSH && (state == NeedMore || state == FinishStarted) ==> avail' == 0
      ensures state == NeedMore && flush == FINISH ==> Total() < old(Total())
      ensures state == FinishDone || state == BlockDone ==> o.w.pending == []
      ensures state != NeedMore ==> input == [] && o.blockStart == strstart
      ensures o.w.pending == [] || avail' == 0
      ensures avail' > 0 ==> input == []
    {
      hide Holds, Shows, SumsOf, BlockWriter.Static.Ok;
      ghost var total := Total();
      ShowsIs(window[..], wSize, strstart, data, since);
      var last, copied;
      avail', last, copied := Direct(flush, avail);
      Keep(copied, old(input));
      if last {
        return FinishDone, avail';
      }
      if flush != NO_FLUSH && flush != FINISH && input == [] && strstart == o.blockStart {
        return BlockDone, avail';
      }
      Refill();
      last, avail' := Pending(flush, avail');
      state := if last then FinishStarted else NeedMore;
    }

    /** What was copied past the window is put into it. */
    method Keep(copied: seq<byte>, ghost given: seq<byte>)
      requires 512 <= wSize <= 32768 && 512 <= pendingSize && st.Ok() && Copying(given, copied)
      requires o.finished ==> Total() == 0
      modifies this`strstart, this`o, this`data, window
      ensures Valid() && Fed() == old(data) + given && o == old(o).(blockStart := o.blockStart)
      ensures strstart - o.blockStart == old(strstart - o.blockStart)
    {
      hide Holds, Shows, SumsOf, BlockWriter.Static.Ok;
      ShowsIs(window[..], wSize, strstart, data, since);
      assert data[..|data| - strstart + o.blockStart] + [] == data[..|data| - strstart + o.blockStart];
      assert data + (copied + input) == data + copied + input;
      if copied != [] {
        assert data[..|data|] == data;
        var start := KeepCopied(window, wSize, strstart, copied, data, since);
        ShowsIs(window[..], wSize, start, data + copied, since);
        HoldsAnywhere(o, mark, data + copied, since, start);
        strstart, o, data := start, o.(blockStart := start), data + copied;
        assert data[..|data|] == data;
      } else {
        assert data + copied == data;
      }
    }

    /**
     What follows a flush: an empty block with the fixed codes, an empty stored block, or nothing; a full flush empties
     the window.
     */
    method Mark(flush: Flush, avail: nat) returns (avail': nat)
      requires Flushes(flush) && Valid() && !o.finished && Total() == 0 && o.w.pending == []
      modifies this`o, this`strstart, this`since, this`mark
      ensures if flush == FULL_FLUSH then strstart == 0 && since == |Fed()| && mark == |o.sent| + |o.w.pending|
              else strstart == old(strstart) && since == old(since) && mark == old(mark)
      ensures MarkBits(flush, old(o.Bits()), o.Bits())
      ensures Valid() && !o.finished && Fed() == old(Fed()) && Total() == 0 && old(o.sent) <= o.sent
      ensures avail' <= avail && |o.sent| - old(|o.sent|) == avail - avail' && (o.w.pending == [] || avail' == 0)
      ensures Flushes(flush) && avail' > 0 ==> Flushed(flush, 0, o, Fed())
    {
      hide Holds, Shows, SumsOf, BlockWriter.Static.Ok, Flushed, Idle, MarkBits, Writer.Bits;
      MarkNone(o.Bits());
      ShowsIs(window[..], wSize, strstart, data, since);
      assert data[..|data|] == data && data + input == data;
      HoldsParts(o, mark, data, since);
      ghost var o0 := o;
      if flush == PARTIAL_FLUSH {
        o := AlignMark(st, o);
        HoldsIdle(o0, o, mark, data, since);
      } else if flush != BLOCK {
        o := SyncMark(o);
        HoldsIdle(o0, o, mark, data, since);
        MarkSame(flush, o0.Bits(), o.Bits());
        if flush == FULL_FLUSH {
          HoldsNow(o, mark, data, since);
          ShowsNothing(window[..], wSize, data);
          strstart, since, mark := 0, |data|, |o.sent| + |o.w.pending|;
          HoldsAnywhere(o, mark, data, since, 0);
          o := o.(blockStart := 0);
        }
      }
      o, avail' := FlushHeld(o, avail, mark, data, since);
      if avail' > 0 {
        HoldsParts(o, mark, data, since);
        FlushThrough(flush, 0, o0, o, data);
      }
    }

    /** There is something to store, or a flush to be made. */
    predicate Busy(given: seq<byte>, flush: Flush)
      reads this
    {
      !o.finished && (input + given != [] || flush != NO_FLUSH)
    }

    /** deflate() between header and trailer at level 0: the contract of Compressor.Deflater.Blocks. */
    method Blocks(given: seq<byte>, flush: Flush, avail: nat) returns (ret: Ret, avail': nat)
      requires Valid() && o.w.pending == [] && (o.finished ==> flush == FINISH && given == [])
      modifies this`strstart, this`o, this`input, this`sums, this`data, this`since, this`mark, this`lastRank, window
      ensures Valid() && Fed() == old(Fed()) + given && (ret == OK || ret == STREAM_END)
      ensures old(o.sent) <= o.sent && avail' <= avail && |o.sent| - old(|o.sent|) == avail - avail'
      ensures (old(o.finished) ==> o.finished) && (o.finished ==> old(o.finished) || flush == FINISH)
      ensures ret == STREAM_END ==> flush == FINISH && o.finished && o.w.pending == [] && Ends(0, o.sent, Fed())
      ensures ret == OK && flush == FINISH ==> avail' == 0
      ensures ret == OK && Flushes(flush) && avail' > 0 ==> Flushed(flush, 0, o, Fed())
      ensures ret == OK && flush == FINISH && given == [] ==>
        Nearer(old(o.finished), old(Total()), old(|o.w.Bits()|), o.finished, Total(), |o.w.Bits()|)
      ensures lastRank == if old(Busy(given, flush)) && ret == OK && avail' == 0 then -2 else old(lastRank)
      ensures avail > 0 && !old(Busy(given, flush)) ==> avail' > 0
      ensures ret == OK && flush == FULL_FLUSH && avail' > 0 ==> mark == |o.sent| && since == |Fed()|
      ensures flush != FULL_FLUSH ==> mark == old(mark) && since == old(since)
      ensures ret == OK && avail' > 0 ==> input == []
    {
      hide Holds, Shows, SumsOf, BlockWriter.Static.Ok, Flushed, Ends;
      avail' := avail;
      assert Fed() + [] == Fed();
      if !o.finished {
        Feed(given);
        if input != [] || flush != NO_FLUSH {
          var go;
          go, avail' := Work(flush, avail);
          if !go {
            return OK, avail';
          }
        }
      }
      Delivered();
      ret := if flush == FINISH then STREAM_END else OK;
    }

    /** All of deflate() before the trailer, when the header is out: the contract of Compressor.Deflater.Body. */
    method Body(given: seq<byte>, flush: Flush, avail: nat) returns (ret: Ret, avail': nat)
      requires Valid()
      modifies this`strstart, this`o, this`input, this`sums, this`data, this`since, this`mark, this`lastRank, window
      ensures Valid() && Fed() == old(Fed()) + if (ret == OK || ret == STREAM_END) &&
              !old(o.finished) then given else []
      ensures old(o.sent) <= o.sent && avail' <= avail && |o.sent| - old(|o.sent|) == avail - avail'
      ensures (old(o.finished) ==> o.finished) && (o.finished ==> old(o.finished) || flush == FINISH)
      ensures ret == STREAM_END ==> flush == FINISH && o.finished && o.w.pending == [] && Ends(0, o.sent, Fed())
      ensures ret == OK && flush == FINISH ==> avail' == 0
      ensures ret == OK && Flushes(flush) && avail' > 0 ==> Flushed(flush, 0, o, Fed())
      ensures ret == STREAM_ERROR <==> old(o.finished) && flush != FINISH
      ensures avail == 0 ==> ret == BUF_ERROR || ret == STREAM_ERROR
      ensures ret == BUF_ERROR <==>
        && ret != STREAM_ERROR
        && (|| avail == 0 || Useless(old(o.w.pending), given, old(input), flush, old(lastRank))
            || (old(o.finished) && given != [] && avail' > 0))
      ensures lastRank == if avail == 0 || ret == STREAM_ERROR then old(lastRank) else Remembered(flush, ret, avail')
      ensures ret == OK && flush == FINISH && given == [] ==>
        Nearer(old(o.finished), old(Total()), old(|o.w.Bits()|), o.finished, Total(), |o.w.Bits()|)
      ensures ret == OK && flush == FULL_FLUSH && avail' > 0 ==> mark == |o.sent| && since == |Fed()|
      ensures flush != FULL_FLUSH ==> mark == old(mark) && since == old(since)
      ensures ret == OK && avail' > 0 ==> input == []
    {
      hide Holds, Shows, SumsOf, BlockWriter.Static.Ok, Flushed, Ends;
      avail' := avail;
      assert Fed() + [] == Fed();
      if o.finished && flush != FINISH {
        return STREAM_ERROR, avail';
      }
      if avail == 0 {
        return BUF_ERROR, avail';
      }
      var go;
      go, ret, avail' := Begin(given, flush, avail);
      if go {
        ret, avail' := Blocks(given, flush, avail');
      }
    }

    /** All of deflate() before the trailer, as long as the header is not out; it may go on without any room. */
    method Opening(given: seq<byte>, flush: Flush, avail: nat) returns (ret: Ret, avail': nat)
      requires Valid() && Wrapped() && !top.Done()
      modifies this`strstart, this`o, this`input, this`sums, this`data, this`since, this`mark, this`lastRank
      modifies window, top
      ensures Valid() && top.Ready() && old(top.sent) <= top.sent
      ensures !top.Done() ==> o.sent == [] && o.w.pending == [] && !o.finished
      ensures Fed() == old(Fed()) + if ret == OK || ret == STREAM_END then given else []
      ensures avail' <= avail && |top.sent| + |o.sent| - old(|top.sent|) == avail - avail'
      ensures o.finished ==> flush == FINISH
      ensures ret == STREAM_END ==>
        flush == FINISH && o.finished && o.w.pending == [] && Ends(0, o.sent, Fed()) && top.Done()
      ensures ret == OK && flush == FINISH ==> avail' == 0
      ensures ret == OK && Flushes(flush) && avail' > 0 ==>
        Flushed(flush, 0, o, Fed()) && top.Done()
      ensures ret != STREAM_ERROR && (avail == 0 ==> ret == BUF_ERROR)
      ensures ret == BUF_ERROR <==> avail == 0 || Useless(old(top.pending), given, old(input), flush, old(lastRank))
      ensures avail == 0 ==> lastRank == old(lastRank)
      ensures avail > 0 ==> lastRank == Rank(flush) || (lastRank == -2 && ret == OK && avail' == 0)
      ensures avail > 0 && ret == OK && avail' == 0 && (!top.Done() || old(Busy(given, flush))) ==> lastRank == -2
      ensures ret == OK && flush == FINISH && given == [] ==> top.Done() || Above() < old(Above())
      ensures ret == OK && flush == FULL_FLUSH && avail' > 0 ==> mark == |o.sent| && since == |Fed()|
      ensures flush != FULL_FLUSH ==> mark == old(mark) && since == old(since)
      ensures ret == OK && avail' > 0 ==> input == []
    {
      hide GzipWriter.Writer.Ready, GzipWriter.Heading.Bytes, Holds, Shows, SumsOf, BlockWriter.Static.Ok, Flushed,
        Ends, TailOk, Rank, BytesBits, ToBits;
      avail' := avail;
      assert Fed() + [] == Fed() && input + [] == input;
      if avail == 0 {
        return BUF_ERROR, avail';
      }
      var oldRank := lastRank;
      lastRank := Rank(flush);
      if top.pending == [] && given == [] && input == [] && Rank(flush) <= oldRank && flush != FINISH {
        return BUF_ERROR, avail';
      }
      var full;
      full, avail' := top.Header(avail);
      if full {
        lastRank := -2;
        Feed(given);
        return OK, avail';
      }
      ret, avail' := Blocks(given, flush, avail');
    }

    /** The sums are those of all input. */
    lemma SumsAtEnd()
      requires Valid() && o.finished
      ensures sums == SumsOf(wrap, Fed())
    {
      hide Holds, Shows, SumsOf, BlockWriter.Static.Ok;
      assert data + [] == data;
    }

    /** All of deflate() before the trailer. */
    method UpToTrailer(given: seq<byte>, flush: Flush, avail: nat) returns (ret: Ret, avail': nat)
      requires Valid() && Wrapped() && !tail.written
      modifies this`strstart, this`o, this`input, this`sums, this`data, this`since, this`mark, this`lastRank
      modifies window, top
      ensures Valid() && Wrapped()
      ensures Fed() == old(Fed()) + if (ret == OK || ret == STREAM_END) && !old(o.finished) then given else []
      ensures old(top.sent + o.sent) <= top.sent + o.sent && avail' <= avail &&
              |top.sent + o.sent| - old(|top.sent + o.sent|) == avail - avail'
      ensures (old(o.finished) ==> o.finished) && (o.finished ==> old(o.finished) || flush == FINISH)
      ensures ret == STREAM_END ==>
        flush == FINISH && o.finished && o.w.pending == [] && Ends(0, o.sent, Fed()) && top.sent == top.heading.Bytes()
      ensures ret == OK && flush == FINISH ==> avail' == 0
      ensures ret == OK && Flushes(flush) && avail' > 0 ==>
        Flushed(flush, 0, o, Fed()) && top.sent == top.heading.Bytes()
      ensures ret == STREAM_ERROR <==> old(o.finished) && flush != FINISH
      ensures avail == 0 ==> ret == BUF_ERROR || ret == STREAM_ERROR
      ensures ret == BUF_ERROR <==>
        && ret != STREAM_ERROR
        && (|| avail == 0 || Useless(old(Waiting()), given, old(input), flush, old(lastRank))
            || (old(o.finished) && given != [] && avail' > 0))
      ensures ret == OK && flush == FINISH && given == [] ==>
        Shrinks(tail, old(top.Done()), old(Above()), old(o.finished), old(Total()), old(|o.w.Bits()|),
                tail, top.Done(), Above(), o.finished, Total(), |o.w.Bits()|)
      ensures ret == OK && flush == FULL_FLUSH && avail' > 0 ==> mark == |o.sent| && since == |Fed()|
      ensures flush != FULL_FLUSH ==> mark == old(mark) && since == old(since)
      ensures ret == OK && avail' > 0 ==> input == []
    {
      hide GzipWriter.Writer.Ready, GzipWriter.Heading.Bytes, Holds, Shows, SumsOf, TailBytes, BlockWriter.Static.Ok,
        Flushed, Ends, Nearer;
      GzipWriter.SentPrefix(top);
      if top.Done() {
        ret, avail' := Body(given, flush, avail);
      } else {
        ret, avail' := Opening(given, flush, avail);
        assert old(top.sent + o.sent) == old(top.sent);
      }
      GzipWriter.SentPrefix(top);
    }

    /** deflate at level 0: the contract of Compressor.Deflater.Deflate. */
    method Deflate(given: seq<byte>, flush: Flush, avail: nat) returns (ret: Ret, avail': nat)
      requires Valid() && Wrapped()
      modifies this, window, top
      ensures Valid() && Wrapped()
      ensures Fed() == old(Fed()) + if (ret == OK || ret == STREAM_END) && !old(o.finished) then given else []
      ensures old(Out()) <= Out() && avail' <= avail && |Out()| - old(|Out()|) == avail - avail'
      ensures (old(o.finished) ==> o.finished) && (o.finished ==> old(o.finished) || flush == FINISH)
      ensures ret == STREAM_END ==>
        flush == FINISH && o.finished && Whole(0, wrap, top.heading.Bytes(), o.sent, Out(), Fed())
      ensures ret == OK && flush == FINISH ==> avail' == 0
      ensures ret == OK && Flushes(flush) && avail' > 0 ==>
        Flushed(flush, 0, o, Fed()) && Out() == top.heading.Bytes() + o.sent
      ensures ret == STREAM_ERROR <==> old(o.finished) && flush != FINISH
      ensures avail == 0 ==> ret == BUF_ERROR || ret == STREAM_ERROR
      ensures ret == BUF_ERROR <==>
        && ret != STREAM_ERROR
        && (|| avail == 0 || Useless(old(Waiting()), given, old(input), flush, old(lastRank))
            || (old(o.finished) && given != [] && avail' > 0))
      ensures ret == OK && flush == FINISH && given == [] ==>
        Total() >= 0 &&
        Shrinks(old(tail), old(top.Done()), old(Above()), old(o.finished), old(Total()), old(|o.w.Bits()|),
                tail, top.Done(), Above(), o.finished, Total(), |o.w.Bits()|)
      ensures ret == OK && flush == FULL_FLUSH && avail' > 0 ==> mark == |o.sent| && since == |Fed()|
      ensures flush != FULL_FLUSH ==> mark == old(mark) && since == old(since)
      ensures ret == STREAM_END ==>
        mark <= |o.sent| && since <= |Fed()| && Ends(0, o.sent[mark..], Fed()[since..])
      ensures ret == OK && avail' > 0 ==> input == []
    {
      hide GzipWriter.Writer.Ready, GzipWriter.Heading.Bytes, Holds, Shows, BlockWriter.Static.Ok, Ends, Flushed,
        SumsOf, TailBytes, Nearer, Shrinks, Whole, Rank, Writer.Bits, Writer.Ok, BytesBits, ToBits;
      if tail.written {
        tail, ret, avail' := Again(wrap, tail, given, flush, avail, Fed());
        assert Fed() + [] == Fed();
        if ret == STREAM_END {
          AllOut();
          AllSince();
        }
        TailShrinks(old(tail), top.Done(), Above(), o.finished, Total(), |o.w.Bits()|, tail);
        return;
      }
      ret, avail' := UpToTrailer(given, flush, avail);
      assert top.sent + o.sent + [] == top.sent + o.sent;
      if ret == STREAM_END && wrap > 0 {
        SumsAtEnd();
        tail, avail' := Put(TailBytes(wrap, sums), avail');
        ret := if tail.pending == [] then STREAM_END else OK;
        TailBegins(old(tail), old(top.Done()), old(Above()), old(o.finished), old(Total()), old(|o.w.Bits()|),
          tail, top.Done(), Above(), o.finished, Total(), |o.w.Bits()|);
      }
      if ret == STREAM_END {
        AllOut();
        AllSince();
      }
    }

    /** And what came after the last full flush is a stream by itself. */
    lemma AllSince()
      requires Valid() && o.finished && o.w.pending == []
      ensures mark <= |o.sent| && since <= |Fed()| && Ends(0, o.sent[mark..], Fed()[since..])
    {
      hide Ends, Emits, SumsOf, BlockWriter.Static.Ok;
      ShowsIs(window[..], wSize, strstart, data, since);
      assert data[..|data|] == data && data + [] == data && o.sent[mark..] + [] == o.sent[mark..];
    }

    /** When the last block and the trailer are out, so is all. */
    lemma AllOut()
      requires Valid() && Wrapped() && o.finished && o.w.pending == []
      requires wrap > 0 ==> tail.written && tail.pending == []
      ensures Whole(0, wrap, top.heading.Bytes(), o.sent, Out(), Fed())
    {
      hide GzipWriter.Writer.Ready, GzipWriter.Heading.Bytes, Holds, Shows, BlockWriter.Static.Ok, Ends, SumsOf,
        TailBytes;
      Delivered();
      NoTail(SumsOf(wrap, Fed()));
      GzipWriter.SentPrefix(top);
      assert tail.sent + [] == tail.sent;
    }

    /** The caller gives more input. */
    method Feed(given: seq<byte>)
      requires Valid() && (o.finished ==> given == [])
      modifies this`input
      ensures Valid() && input == old(input) + given && Fed() == old(Fed()) + given
    {
      hide Holds, Shows, SumsOf, BlockWriter.Static.Ok;
      assert data + (input + given) == data + input + given;
      input := input + given;
    }

    /** The beginning of deflate(): what is pending goes first, and a call that can do nothing is an error. */
    method Begin(given: seq<byte>, flush: Flush, avail: nat) returns (go: bool, ret: Ret, avail': nat)
      requires Valid() && avail > 0 && (o.finished ==> flush == FINISH)
      modifies this`o, this`input, this`lastRank
      ensures Valid() && old(o.sent) <= o.sent && avail' <= avail && |o.sent| - old(|o.sent|) == avail - avail' &&
              o.finished == old(o.finished)
      ensures Fed() == old(Fed()) + if !go && ret == OK && !o.finished then given else []
      ensures go ==>
        avail' > 0 && o.w.pending == [] && (o.finished ==> given == []) && Total() == old(Total()) &&
        |o.w.Bits()| <= old(|o.w.Bits()|)
      ensures !go ==> if ret == OK then avail' == 0 && Total() <= old(Total()) + |given| &&
              |o.w.Bits()| < old(|o.w.Bits()|)
                      else ret == BUF_ERROR && (if flush == FINISH then o.finished && given != [] &&
                          avail' > 0 else given == [] || o.finished)
      ensures !go && ret == BUF_ERROR <==>
        || Useless(old(o.w.pending), given, old(input), flush, old(lastRank))
        || (o.finished && given != [] && avail' > 0)
      ensures lastRank == if go then Rank(flush) else Remembered(flush, ret, avail')
    {
      hide Holds, Shows, SumsOf, BlockWriter.Static.Ok, Rank, BytesBits, ToBits;
      go, ret, avail' := false, OK, avail;
      var oldRank := lastRank;
      lastRank := Rank(flush);
      assert Fed() + [] == Fed();
      if o.w.pending != [] {
        ShowsIs(window[..], wSize, strstart, data, since);
        o, avail' := FlushHeld(o, avail, mark, data[..|data| - strstart + o.blockStart], since);
        if avail' == 0 {
          lastRank := -2;
          if !o.finished {
            Feed(given);
          }
          return;
        }
      } else if given == [] && input == [] && Rank(flush) <= oldRank && flush != FINISH {
        ret := BUF_ERROR;
        return;
      }
      if o.finished && given != [] {
        ret := BUF_ERROR;
        return;
      }
      go := true;
    }

    /** The part of deflate() that writes blocks. */
    method Work(flush: Flush, avail: nat) returns (more: bool, avail': nat)
      requires Valid() && !o.finished && o.w.pending == []
      modifies this`strstart, this`o, this`input, this`sums, this`data, this`since, this`mark, this`lastRank, window
      ensures Valid() && Fed() == old(Fed()) && old(o.sent) <= o.sent && avail' <= avail &&
              |o.sent| - old(|o.sent|) == avail - avail'
      ensures (o.finished ==> flush == FINISH) && (more && flush == FINISH ==> o.finished && o.w.pending == [])
      ensures !more && flush == FINISH ==> avail' == 0 && (o.finished || Total() < old(Total()))
      ensures lastRank == if !more && avail' == 0 then -2 else old(lastRank)
      ensures more && flush != FINISH ==> avail' > 0
      ensures Flushes(flush) && avail' > 0 ==> Flushed(flush, 0, o, Fed())
      ensures flush == FULL_FLUSH && avail' > 0 ==> mark == |o.sent| && since == |Fed()|
      ensures flush != FULL_FLUSH ==> mark == old(mark) && since == old(since)
      ensures avail' > 0 ==> input == []
    {
      hide Holds, Shows, SumsOf, BlockWriter.Static.Ok, Flushed, MarkBits, BytesBits, ToBits, Writer.Bits;
      var state;
      state, avail' := Run(flush, avail);
      more := state == BlockDone || state == FinishDone;
      if state == BlockDone {
        avail' := Mark(flush, avail');
        more := avail' > 0;
      }
      if !more && avail' == 0 {
        lastRank := -2;
      }
    }

    lemma TotalNatural()
      requires Valid()
      ensures Total() >= 0
    {
      hide Holds, Shows, SumsOf, BlockWriter.Static.Ok;
    }

    lemma Delivered()
      requires Valid()
      ensures o.finished && o.w.pending == [] ==> Ends(0, o.sent, Fed())
    {
      hide Ends, Emits;
      ShowsIs(window[..], wSize, strstart, data, since);
      assert data[..|data|] == data && data + [] == data && o.sent + [] == o.sent;
    }
  }

  lemma ShowsNothing(win: seq<byte>, wSize: nat, data: seq<byte>)
    requires |win| == 2 * wSize
    ensures Shows(win, wSize, 0, data, |data|)
  {
  }

  // ---------- whole runs ----------

  /** Stores in the given calls: either the stream has come to its end, or all room for finishing it was used. */
  method StoreInCalls(wSize: nat, pendingSize: nat, wrap: nat, heading: GzipWriter.Heading, calls: seq<Call>)
      returns (d: Storer, ended: bool)
    requires 512 <= wSize <= 32768 && 512 <= pendingSize && heading.Ok() && Orderly(calls)
    ensures fresh(d) && fresh(d.window) && fresh(d.top)
    ensures d.Valid() && d.Wrapped() && d.Fed() == AllInput(calls) && d.wrap == wrap && d.top.heading == heading
    ensures ended ==> d.o.finished && Whole(0, wrap, heading.Bytes(), d.o.sent, d.Out(), AllInput(calls))
    ensures !ended ==> |d.Out()| >= FinishRoom(calls)
  {
    hide GzipWriter.Writer.Ready, GzipWriter.Heading.Bytes, Ends, SumsOf, TailBytes, BlockWriter.Static.Ok, Flushed,
      Holds, Shows, Storer.Valid, AllInput, FinishRoom,
      Orderly, Asked;
    var st := BlockWriter.StaticInit();
    var top := new GzipWriter.Writer(heading, pendingSize);
    d := new Storer(wSize, pendingSize, wrap, top, st);
    ended := false;
    NoCalls(calls);
    for i := 0 to |calls|
      invariant fresh(d) && fresh(d.window) && fresh(d.top)
      invariant d.Valid() && d.Wrapped() && d.Fed() == AllInput(calls[..i])
      invariant d.wrap == wrap && d.top.heading == heading && (d.o.finished ==> Asked(calls, i))
      invariant ended ==> d.o.finished && Whole(0, wrap, heading.Bytes(), d.o.sent, d.Out(), d.Fed())
      invariant !ended ==> |d.Out()| >= FinishRoom(calls[..i])
    {
      CallsNext(calls, i);
      AskedNext(calls, i);
      var call := calls[i];
      if !ended {
        ghost var before := d.Fed();
        var ret, left := d.Deflate(call.data, call.flush, call.avail);
        ended := ret == STREAM_END;
        assert before + [] == before;
        assert d.Fed() == before + Taken(call);
      } else {
        assert d.Fed() + [] == d.Fed();
      }
    }
    assert calls[..|calls|] == calls;
  }

  /**
   Repeating the last call, with whatever room, comes to the end: all that was given then decodes from all that was
   delivered.
   */
  method Store(wSize: nat, pendingSize: nat, wrap: nat, heading: GzipWriter.Heading, calls: seq<Call>)
      returns (bytes: seq<byte>, ghost body: seq<byte>)
    requires 512 <= wSize <= 32768 && 512 <= pendingSize && heading.Ok() && Orderly(calls)
    ensures Whole(0, wrap, heading.Bytes(), body, bytes, AllInput(calls))
  {
    hide GzipWriter.Writer.Ready, GzipWriter.Heading.Bytes, Ends, SumsOf, TailBytes, BlockWriter.Static.Ok, Flushed,
      Holds, Shows, Storer.Valid, AllInput;
    var d, ended := StoreInCalls(wSize, pendingSize, wrap, heading, calls);
    d.TotalNatural();
    GzipWriter.SentPrefix(d.top);
    while !ended
      invariant fresh(d) && fresh(d.window) && fresh(d.top) && d.Valid() && d.Wrapped() && d.Fed() == AllInput(calls) &&
                d.Total() >= 0 && d.Above() >= 0
      invariant ended ==> Whole(0, wrap, heading.Bytes(), d.o.sent, d.Out(), d.Fed())
      decreases if ended then 0 else 1, if d.tail.written then 0 else 1, if d.top.Done() then 0 else 1, d.Above(),
                if d.o.finished then 0 else 1, d.Total(), |d.o.w.Bits()|, |d.tail.pending|
    {
      var room: nat :| room > 0;
      var ret, left := d.Deflate([], FINISH, room);
      ended := ret == STREAM_END;
      d.TotalNatural();
      assert d.Fed() + [] == d.Fed();
      GzipWriter.SentPrefix(d.top);
    }
    bytes, body := d.Out(), d.o.sent;
  }

  /** Output runs short: there is no room for a head, or not for all there is nor for a block worth while. */
  predicate Tight(flush: Flush, avail: nat, valid: nat, all: int, minBlock: int) {
    || avail < HeadBytes(valid)
    || (flush != FINISH && all == 0)
    || (avail - HeadBytes(valid) < all && avail - HeadBytes(valid) < minBlock)
  }

  /** There is too little for a block worth while, or no room for one. */
  predicate Scant(avail: nat, valid: nat, all: int, minBlock: int) {
    all < minBlock || avail < HeadBytes(valid) + minBlock
  }

  /** How long a block can go out directly, or -1. */
  function DirectLength(flush: Flush, avail: nat, valid: nat, all: int, minBlock: int): int {
    var head := HeadBytes(valid);
    if avail < head then -1
    else
      var len := Min(Min(MAX_STORED, all), avail - head);
      if len < minBlock && ((len == 0 && flush != FINISH) || flush == NO_FLUSH || len != all) then -1 else len
  }

  lemma DirectFits(flush: Flush, avail: nat, valid: nat, all: int, minBlock: int)
    requires all >= 0 && valid < 8 && 0 <= minBlock <= 32768
    ensures var len := DirectLength(flush, avail, valid, all, minBlock);
            if len < 0 then
              Scant(avail, valid, all, minBlock) && (flush != NO_FLUSH ==> Tight(flush, avail, valid, all, minBlock))
            else len <= all && len <= MAX_STORED && 0 < HeadBytes(valid) + len <= avail
  {
  }

  /** A block of n bytes, of all there are, has room with its head. */
  predicate HasRoom(n: int, valid: nat, all: int, room: int) {
    0 <= n <= all && n <= 65535 && HeadBytes(valid) + n <= room
  }

  /**
   A block goes out directly just if it is the longest that has room, and worth while: not too short, unless it is
   all there is and a flush asks for it.
   */
  lemma DirectIs(flush: Flush, avail: nat, valid: nat, all: int, minBlock: int, n: nat)
    requires all >= 0
    ensures DirectLength(flush, avail, valid, all, minBlock) == n <==>
            && HasRoom(n, valid, all, avail) && !HasRoom(n + 1, valid, all, avail)
            && (n >= minBlock || (flush != NO_FLUSH && n == all && (n > 0 || flush == FINISH)))
  {
  }

  /** How long a block goes to pending_buf, or -1. */
  function PendingLength(flush: Flush, valid: nat, left: int, input: nat, pendingSize: nat, wSize: nat): int {
    var have := Min(pendingSize - HeadBytes(valid), MAX_STORED);
    var minBlock := Min(have, wSize);
    if left >= minBlock || ((left > 0 || flush == FINISH) && flush != NO_FLUSH && input == 0 && left <= have) then
        Min(left, have) else -1
  }

  /** It has room in pending_buf; and when flushing with little room for output there is one, which uses the room up. */
  lemma PendingFits(flush: Flush, avail: nat, valid: nat, left: int, input: nat, pendingSize: nat, wSize: nat)
    requires 512 <= wSize <= 32768 && 512 <= pendingSize && valid < 8 && 0 <= left && (input == 0 || left >= wSize)
    requires flush != NO_FLUSH ==>
      Tight(flush, avail, valid, left + input, Min(pendingSize - 5, wSize)) && (left + input > 0 || flush == FINISH)
    ensures var len := PendingLength(flush, valid, left, input, pendingSize, wSize);
            && (len >= 0 ==> len <= left && len <= MAX_STORED && HeadBytes(valid) + len <= pendingSize)
            && (flush != NO_FLUSH ==> len >= 0 && HeadBytes(valid) + len >= avail)
            && (input > 0 && Scant(avail, valid, left + input, Min(pendingSize - 5, wSize)) ==>
                  len >= 0 && HeadBytes(valid) + len >= avail)
            && (flush == FINISH && len == 0 ==> left == 0 && input == 0)
  {
  }

  /**
   A block goes to pending_buf just if it is the longest that has room there, and the window holds enough for it, or
   all there is and a flush asks for it.
   */
  lemma PendingIs(flush: Flush, valid: nat, left: int, input: nat, pendingSize: nat, wSize: nat, n: nat)
    requires left >= 0 && HeadBytes(valid) <= pendingSize
    ensures PendingLength(flush, valid, left, input, pendingSize, wSize) == n <==>
            && HasRoom(n, valid, left, pendingSize) && !HasRoom(n + 1, valid, left, pendingSize)
            && (|| left >= wSize || left >= 65535 || HeadBytes(valid) + left >= pendingSize
                || (flush != NO_FLUSH && input == 0 && (left > 0 || flush == FINISH)))
  {
  }

  /** Part of a block is in the window. */
  lemma ShowsBlock(win: seq<byte>, wSize: nat, strstart: nat, data: seq<byte>, since: nat, at: nat, n: nat)
    requires Shows(win, wSize, strstart, data, since) && at + n <= strstart
    ensures var base := |data| - strstart;
            data[..base + at] + win[at..at + n] == data[..base + at + n]
  {
    var base := |data| - strstart;
    var a, b := win[at..at + n], data[base + at..base + at + n];
    forall i | 0 <= i < n ensures a[i] == b[i] {
      assert win[..strstart][at + i] == data[base..][at + i];
    }
  }

  /** A block made of what is left in the window, and of input. */
  lemma BlockData(win: seq<byte>, wSize: nat, strstart: nat, data: seq<byte>, since: nat, at: nat, fromWindow: nat,
                  copied: seq<byte>, input: seq<byte>, fromInput: nat)
    requires Shows(win, wSize, strstart, data, since) && at + fromWindow <= strstart && fromInput <= |input|
    requires (copied != [] ==> at == strstart) && (fromInput > 0 ==> at + fromWindow == strstart)
    ensures var base := |data| - strstart;
            data[..base + at] + copied + (win[at..at + fromWindow] + input[..fromInput]) ==
            data[..base + at + fromWindow] + (copied + input[..fromInput])
  {
    ShowsBlock(win, wSize, strstart, data, since, at, fromWindow);
  }

  /** Where the block begins is not part of what is written. */
  lemma StandsAnywhere(reach: nat, o: Output, blockStart: int, done: seq<byte>)
    ensures Stands(reach, o, done) == Stands(reach, o.(blockStart := blockStart), done)
  {
    hide Emits, Ends;
    assert o.Bits() == o.(blockStart := blockStart).Bits();
  }

  /**
   The window takes what input it can, sliding first if it is too full and the block does not begin in its lower half.
   */
  method FillWindow(window: array<byte>, wSize: nat, strstart: nat, blockStart: nat, input: seq<byte>,
        ghost data: seq<byte>, ghost since: nat)
      returns (strstart': nat, n: nat)
    requires Shows(window[..], wSize, strstart, data, since) && wSize > 0 && blockStart <= strstart
    modifies window
    ensures n <= |input| && Shows(window[..], wSize, strstart', data + input[..n], since)
    ensures 0 <= blockStart + strstart' - strstart - n <= strstart'
    ensures n < |input| ==> strstart - blockStart + n >= wSize
  {
    hide Shows;
    ghost var win := window[..];
    ShowsIs(win, wSize, strstart, data, since);
    var have := 2 * wSize - strstart;
    strstart' := strstart;
    if |input| > have && blockStart >= wSize {
      ShowsUpper(win, wSize, strstart, data, since);
      strstart' := SlideDown(window, wSize, strstart);
      assert window[..strstart'] == win[wSize..strstart];
      have := have + wSize;
    }
    n := Min(have, |input|);
    assert window[..strstart'] == data[|data| - strstart'..];
    CopyTo(window, strstart', input[..n]);
    assert window[..][..strstart' + n] == window[..strstart' + n];
    ShowsMore(window[..], wSize, strstart', data, since, input[..n]);
    strstart' := strstart' + n;
  }

  /** _tr_stored_block: into pending_buf, which has room for it. */
  method PendingBlock(o: Output, block: seq<byte>, last: bool, pendingSize: nat, ghost mark: nat,
        ghost done: seq<byte>, ghost since: nat)
      returns (o': Output)
    requires Holds(o, mark, done, since) && !o.finished && o.w.pending == [] && o.w.valid < 8
    requires |block| <= MAX_STORED && HeadBytes(o.w.valid) + |block| <= pendingSize
    ensures Holds(o', mark, done + block, since) && o'.finished == last && o'.w.valid == 0 && o'.sent == o.sent &&
            o'.blockStart == o.blockStart + |block|
    ensures |o'.w.pending| == HeadBytes(o.w.valid) + |block| <= pendingSize && |o'.w.Bits()| == 8 * |o'.w.pending|
  {
    hide Stands, BytesBits, ToBits, BlockWriter.Stores;
    HoldsParts(o, mark, done, since);
    var w := BlockWriter.StoredBlock(o.w, block, last);
    o' := o.(w := w, blockStart := o.blockStart + |block|, finished := last);
    PendingAdds(0, o, w, block, last, done);
    PendingAdds(0, Since(o, mark), w, block, last, done[since..]);
    assert (done + block)[since..] == done[since..] + block;
  }

  lemma PendingAdds(reach: nat, o: Output, w: Writer, block: seq<byte>, last: bool, done: seq<byte>)
    requires Stands(reach, o, done) && !o.finished && BlockWriter.Stores(o.w, w, block, last) && w.Ok() && w.valid == 0
    ensures Stands(reach, o.(w := w, blockStart := o.blockStart + |block|, finished := last), done + block)
  {
    hide Emits, Ends, BytesBits, ToBits, BlockWriter.Stores;
    BlockWriter.StoresAdd(reach, o.w, w, block, last, o.sent, done);
    if last {
      NoBitsAt(w.buf);
      BytesBitsConcat(o.sent, w.pending);
      assert w.Bits() == BytesBits(w.pending);
      assert BytesBits(o.sent) + w.Bits() == BytesBits(o.sent + w.pending);
      WholeEnds(reach, BytesBits(o.sent) + w.Bits(), [], o.sent + w.pending, done + block);
    }
  }
}
