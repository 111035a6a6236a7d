/**
 Whole runs of inflate: however the input and the room for output are cut into calls, the result
 is what the whole input decodes to.
 */
module InflateRuns {
  import opened Bits
  import opened Rfc1951
  import opened Rfc1951Facts
  import opened Wrapper
  import opened Registers
  import opened InflateSteps
  import opened InflateHeader
  import opened InflateState
  import opened Inflate
  import opened Windows
  import InflateMatch

  // ---------- output only grows ----------

  lemma BlockMeaningExtends(s: State, p: Past, b: seq<bool>)
    requires Sound(s, p) && s.mode.InBlocks()
    ensures Extends(WinOf(s, p).Span(), BlockMeaning(s, p, b), Made(s, p))
  {
    hide Blocks, Stored, Copy, Dynamic, CodeLenLens, CodeLens, Codes, LenExt, Dist, DistExt, Match, Extends,
      Pow2, CheckOf, Verify, Lean, LeanItem, CodesOk, Listed;
    var w, o := WinOf(s, p).Span(), Made(s, p);
    match s.mode
    case TYPE => BlocksExtends(w, s.last, b, o);
    case TYPEDO => BlocksExtends(w, s.last, b, o);
    case STORED => StoredExtends(w, s.last, b, o);
    case COPY_ => CopyExtends(w, s.last, s.length, b, o);
    case COPY => CopyExtends(w, s.last, s.length, b, o);
    case TABLE => DynamicExtends(w, s.last, b, o);
    case LENLENS => CodeLenLensExtends(w, s.last, s.nlen, s.ndist, s.ncode, Listed(s.lens, s.have), b, o);
    case CODELENS => CodeLensExtends(w, s.last, s.nlen, s.ndist, p.cl, s.lens[..s.have], b, o);
    case LEN_ => CodesExtends(w, s.last, p.ll, p.dl, b, o);
    case LEN => CodesExtends(w, s.last, p.ll, p.dl, b, o);
    case LENEXT => LenExtExtends(w, s.last, p.ll, p.dl, s.length, s.extra, b, o);
    case DIST => DistExtends(w, s.last, p.ll, p.dl, s.length, b, o);
    case DISTEXT => DistExtExtends(w, s.last, p.ll, p.dl, s.length, s.offset, s.extra, b, o);
    case MATCH => MatchExtends(w, s.last, p.ll, p.dl, s.length, s.offset, b, o);
    case LIT =>
      CodesExtends(w, s.last, p.ll, p.dl, b, o + [s.length]);
      ExtendsMore(w, BlockMeaning(s, p, b), o, o + [s.length]);
  }

  /** All output so far is the beginning of whatever the stream decodes to. */
  lemma MeaningExtends(s: State, p: Past, b: seq<bool>)
    requires Sound(s, p) && !s.mode.InHeader()
    ensures Extends(WinOf(s, p).Span(), MeaningOf(s, p, b).outcome, Made(s, p))
  {
    hide BlockMeaning, After, Wrapper.Trailer, Size, Pow2, CheckOf, Verify;
    if s.mode.InBlocks() {
      BlockMeaningExtends(s, p, b);
      AfterExtends(WinOf(s, p).Span(), s.wrap, s.flags, BlockMeaning(s, p, b), Made(s, p));
    } else {
      TrailerExtends(WinOf(s, p).Span(), s.wrap, s.flags, b, Made(s, p));
    }
  }

  // ---------- runs ----------

  /** A call: the new input it brings, the room for output, and the flush argument. */
  datatype Call = Call(data: seq<byte>, avail: nat, flush: Flush)

  /** All input of the calls. */
  function Fed(calls: seq<Call>): seq<byte> {
    if calls == [] then [] else calls[0].data + Fed(calls[1..])
  }

  lemma FedBits(unread: seq<byte>, calls: seq<Call>)
    requires calls != []
    ensures BytesBits(unread) + BytesBits(Fed(calls)) == BytesBits(unread + calls[0].data) + BytesBits(Fed(calls[1..]))
  {
    hide BytesBits;
    BytesBitsConcat(unread, calls[0].data);
    BytesBitsConcat(calls[0].data, Fed(calls[1..]));
  }

  /** What a run has come to, against m, what the whole input decodes to. */
  ghost predicate Conforms(m: Result, ret: Ret, head: Saved, out: seq<byte>, rest: seq<bool>, starving: bool) {
    match ret
    case STREAM_END => m == Result(head, Finished(out, rest))
    case DATA_ERROR => m == Result(head, Corrupt(out))
    case NEED_DICT => m.outcome.NeedsDict? && out == []
    case _ =>
      if starving then m == Result(head, Starved(out))
      else (m.outcome.NeedsDict? && out == []) || Extends(32768, m.outcome, out)
  }

  ghost predicate Matches(ret: Ret, mode: Mode) {
    (ret == STREAM_END <==> mode == DONE) && (ret == DATA_ERROR <==> mode == BAD) &&
        (ret == NEED_DICT <==> mode == DICT)
  }

  lemma Concludes(s: State, p: Past, m: Result, b: seq<bool>, ret: Ret, starving: bool, tight: bool)
    requires Sound(s, p) && AtRest(s) && Agrees(m, MeaningOf(s, p, b), tight) && Matches(ret, s.mode)
    requires starving ==> (ret == OK || ret == BUF_ERROR) && MeaningOf(s, p, b) == Result(s.head, Starved(p.hist))
    ensures !m.outcome.Beyond? || tight ==> Conforms(Strict(m), ret, s.head, p.hist, b, starving)
  {
    hide BlockMeaning, BlockOk, Head, Flags, Time, Os, ExLen, Extra, NameStart, CommentStart, Hcrc, DictId,
      After, Pow2, CheckOf, Verify, ToBits, BytesBits, Wrapper.Trailer, Size;
    assert Made(s, p) == p.hist;
    if !s.mode.InHeader() {
      MeaningExtends(s, p, b);
    } else {
      HeaderQuiet(s, p);
    }
  }

  /** What is known between calls; rest is what will be given, and tight if no call had room for two bytes. */
  ghost predicate Underway(st: Stream, m: Result, ret: Ret, unread: seq<byte>, rest: seq<byte>, starving: bool,
        tight: bool)
    reads st, st.window
  {
    && st.Valid() && !st.past.wide && Matches(ret, st.s.mode)
    && Agrees(m, st.Rest(BytesBits(unread) + BytesBits(rest)), tight)
    && (starving ==>
        (ret == OK || ret == BUF_ERROR) && unread == [] && st.Rest([]) == Result(st.s.head, Starved(st.past.hist)))
  }

  lemma AgreesTrans(m: Result, m': Result, m'': Result, tight: bool, tight': bool)
    requires Agrees(m, m', tight) && Agrees(m', m'', tight')
    ensures Agrees(m, m'', tight && tight')
  {
  }

  /** One call of a run. */
  method NextCall(st: Stream, unread: seq<byte>, calls: seq<Call>, ghost m: Result, ghost ret0: Ret,
        ghost starving0: bool, ghost tight: bool)
      returns (last: seq<byte>, ret: Ret, unread': seq<byte>, starving: bool)
    requires calls != [] && Underway(st, m, ret0, unread, Fed(calls), starving0, tight)
    modifies st, st.window
    ensures Underway(st, m, ret, unread', Fed(calls[1..]), starving, tight && calls[0].avail <= 1)
    ensures (st.window == old(st.window) || fresh(st.window)) && st.past.hist == old(st.past.hist) + last
    ensures HadEnough(calls[0], |last|, ret, starving) && |last| <= calls[0].avail
  {
    hide MeaningOf, BytesBits, ToBits, Sound, Fed, InflateMatch.HistoryOk, Stream.Valid, Stream.Rest, Agrees;
    FedBits(unread, calls);
    var input, call := unread + calls[0].data, calls[0];
    ghost var f, before := BytesBits(Fed(calls[1..])), st.Rest(BytesBits(unread) + BytesBits(Fed(calls)));
    var used;
    ghost var tr, end, stop;
    last, used, ret, tr, end, stop := st.Inflate(input, call.avail, call.flush, f);
    unread' := input[used..];
    AgreesTrans(m, before, st.Rest(BytesBits(unread') + f), tight, call.avail <= 1);
    starving := (ret == OK || ret == BUF_ERROR) && |last| < call.avail && !Pausing(call);
  }

  method Begin(wrap: nat, wbits: nat, head: Saved, ghost fed: seq<byte>) returns (st: Stream)
    requires ExtraEmpty(head)
    ensures fresh(st) && fresh(st.window) && st.past.hist == []
    ensures Underway(st, Head(wrap, Win(wbits, false), head, BytesBits(fed)), OK, [], fed, false, true)
  {
    hide Head, MeaningOf, BytesBits, ToBits, Sound, InflateMatch.HistoryOk, Stream.Valid, Stream.Rest;
    st := new Stream(wrap, wbits, head, false);
    NoInput();
    assert BytesBits([]) + BytesBits(fed) == BytesBits(fed);
  }

  /** No call has room for two bytes. */
  ghost predicate Narrow(calls: seq<Call>) {
    forall i :: 0 <= i < |calls| ==> calls[i].avail <= 1
  }

  /** The stream after the given calls, and how much had come out before the last of them. */
  method RunCalls(wrap: nat, wbits: nat, head: Saved, calls: seq<Call>)
      returns (st: Stream, out: seq<byte>, ret: Ret, unread: seq<byte>, starving: bool, before: nat)
    requires ExtraEmpty(head)
    ensures fresh(st) && fresh(st.window) && st.past.hist == out && before <= |out|
    ensures Underway(st, Head(wrap, Win(wbits, false), head, BytesBits(Fed(calls))), ret, unread, [], starving,
            Narrow(calls))
    ensures calls != [] ==> HadEnough(calls[|calls| - 1], |out| - before, ret, starving)
    ensures calls != [] ==> |out| - before <= calls[|calls| - 1].avail
  {
    hide Head, MeaningOf, BytesBits, ToBits, Sound, Fed, InflateMatch.HistoryOk, Stream.Valid, Stream.Rest, Underway,
      HadEnough;
    ghost var m := Head(wrap, Win(wbits, false), head, BytesBits(Fed(calls)));
    st := Begin(wrap, wbits, head, Fed(calls));
    out, unread, ret, starving, before := [], [], OK, false, 0;
    var i := 0;
    assert calls[0..] == calls;
    while i < |calls|
      invariant 0 <= i <= |calls| && fresh(st) && fresh(st.window) && st.past.hist == out && before <= |out|
      invariant Underway(st, m, ret, unread, Fed(calls[i..]), starving, Narrow(calls[..i]))
      invariant i > 0 ==> HadEnough(calls[i - 1], |out| - before, ret, starving) && |out| - before <= calls[i - 1].avail
    {
      assert calls[i..][0] == calls[i] && calls[i..][1..] == calls[i + 1..];
      var more;
      more, ret, unread, starving := NextCall(st, unread, calls[i..], m, ret, starving, Narrow(calls[..i]));
      NarrowNext(calls, i);
      out, before, i := out + more, |out|, i + 1;
    }
    assert calls[|calls|..] == [] && calls[..|calls|] == calls;
    NothingFed();
  }

  lemma NarrowNext(calls: seq<Call>, i: nat)
    requires i < |calls|
    ensures Narrow(calls[..i + 1]) == (Narrow(calls[..i]) && calls[i].avail <= 1)
  {
    if Narrow(calls[..i + 1]) {
      assert calls[..i + 1][i].avail <= 1;
      forall j | 0 <= j < i ensures calls[..i][j].avail <= 1 {
        assert calls[..i + 1][j].avail <= 1;
      }
    }
  }

  /** A call that wrote n bytes, if it left room and was not to stop early, used up the input. */
  predicate HadEnough(call: Call, n: nat, ret: Ret, starving: bool) {
    n < call.avail && !Pausing(call) && (ret == OK || ret == BUF_ERROR) ==> starving
  }

  lemma NothingFed()
    ensures Fed([]) == []
  {
  }

  /**
   Inflates in the given calls.  Unless a distance reaches beyond a window smaller than 32K, the
   output, the header and the result depend only on all the input together, not on how it or the
   room for output was divided.  If none of the calls has room for two bytes, such a distance is refused.  Before the
   last call there were before bytes of output; if that call left room, the input was not enough.
   */
  method InflateInCalls(wrap: nat, wbits: nat, head: Saved, calls: seq<Call>)
      returns (out: seq<byte>, ret: Ret, head': Saved, unread: seq<byte>, starving: bool, before: nat,
          ghost held: seq<bool>)
    requires ExtraEmpty(head)
    ensures var m := Head(wrap, Win(wbits, false), head, BytesBits(Fed(calls)));
            !m.outcome.Beyond? || Narrow(calls) ==>
              Conforms(Strict(m), ret, head', out, held + BytesBits(unread), starving)
    ensures wbits >= 15 ==> !Head(wrap, Win(wbits, false), head, BytesBits(Fed(calls))).outcome.Beyond?
    ensures before <= |out| && (starving ==> unread == [])
    ensures calls != [] ==> HadEnough(calls[|calls| - 1], |out| - before, ret, starving)
    ensures calls != [] ==> |out| - before <= calls[|calls| - 1].avail
  {
    hide Head, MeaningOf, BytesBits, ToBits, Conforms, Sound, Fed, InflateMatch.HistoryOk;
    ghost var m := Head(wrap, Win(wbits, false), head, BytesBits(Fed(calls)));
    HeadWithin(wrap, wbits, head, BytesBits(Fed(calls)));
    var st;
    st, out, ret, unread, starving, before := RunCalls(wrap, wbits, head, calls);
    head', held := st.s.head, ToBits(st.s.r.hold, st.s.r.bits);
    NoInput();
    assert held + [] == held && BytesBits(unread) + BytesBits([]) == BytesBits(unread);
    Concludes(st.s, st.past, m, held + BytesBits(unread), ret, starving, Narrow(calls));
  }

  /**
   Inflates in one call: distances may reach back to the beginning of the output, whatever the size of the window.
   */
  method InflateOnce(wrap: nat, wbits: nat, head: Saved, call: Call)
      returns (out: seq<byte>, ret: Ret, head': Saved, unread: seq<byte>, starving: bool, ghost held: seq<bool>)
    requires ExtraEmpty(head)
    ensures Conforms(Head(wrap, Win(wbits, true), head, BytesBits(call.data)), ret, head', out,
            held + BytesBits(unread), starving)
    ensures HadEnough(call, |out|, ret, starving) && |out| <= call.avail
  {
    hide Head, MeaningOf, BytesBits, ToBits, Conforms, Sound, InflateMatch.HistoryOk;
    ghost var m := Head(wrap, Win(wbits, true), head, BytesBits(call.data));
    HeadWithin(wrap, wbits, head, BytesBits(call.data));
    var st := new Stream(wrap, wbits, head, true);
    assert BytesBits(call.data) + [] == BytesBits(call.data);
    var used;
    ghost var tr, end, stop;
    out, used, ret, tr, end, stop := st.Inflate(call.data, call.avail, call.flush, []);
    unread := call.data[used..];
    assert BytesBits(unread) + [] == BytesBits(unread);
    starving := (ret == OK || ret == BUF_ERROR) && |out| < call.avail && !Pausing(call);
    head', held := st.s.head, ToBits(st.s.r.hold, st.s.r.bits);
    NoInput();
    assert held + [] == held && [] + out == out;
    Concludes(st.s, st.past, m, held + BytesBits(unread), ret, starving, false);
  }

  /** How much output the input has. */
  ghost function OutputOf(m: Result): nat {
    if m.outcome.NeedsDict? then 0 else |m.outcome.out|
  }

  /** If a distance reaches beyond the window, there is to be room for one byte at a time. */
  ghost predicate Definite(m: Result, tight: bool) {
    !m.outcome.Beyond? || tight
  }

  lemma StillLess(m: Result, ret: Ret, head: Saved, out: seq<byte>, rest: seq<bool>)
    requires Conforms(Strict(m), ret, head, out, rest, false) && (ret == OK || ret == BUF_ERROR)
    ensures |out| <= OutputOf(m)
  {
  }

  /** A call that gives room, but no more input. */
  method CallOn(st: Stream, unread: seq<byte>, room: nat, ghost m: Result, ghost ret0: Ret, ghost tight: bool)
      returns (last: seq<byte>, ret: Ret, unread': seq<byte>, starving: bool)
    requires Underway(st, m, ret0, unread, [], false, tight) && Definite(m, tight) && room > 0 && (tight ==> room == 1)
    modifies st, st.window
    ensures (st.window == old(st.window) || fresh(st.window)) && st.past.hist == old(st.past.hist) + last
    ensures Underway(st, m, ret, unread', [], starving, tight)
    ensures (ret == OK || ret == BUF_ERROR) && !starving ==> |last| == room && |st.past.hist| <= OutputOf(m)
  {
    hide MeaningOf, BytesBits, ToBits, Conforms, Sound, Fed, InflateMatch.HistoryOk, Stream.Valid, Stream.Rest, Agrees;
    var call := Call([], room, NO_FLUSH);
    NothingFed();
    OnlyOne(call);
    last, ret, unread', starving := NextCall(st, unread, [call], m, ret0, false, tight);
    assert [call][1..] == [];
    TightOnly(st, m, ret, unread', starving, tight, room);
    if ret == OK || ret == BUF_ERROR {
      Settles(st, m, unread', ret, false, tight);
      StillLess(m, ret, st.s.head, st.past.hist, ToBits(st.s.r.hold, st.s.r.bits) + BytesBits(unread'));
    }
  }

  lemma OnlyOne(call: Call)
    ensures Fed([call]) == call.data
  {
    assert [call][1..] == [];
  }

  lemma TightOnly(st: Stream, m: Result, ret: Ret, unread: seq<byte>, starving: bool, tight: bool, room: nat)
    requires Underway(st, m, ret, unread, [], starving, tight && room <= 1) && (tight ==> room == 1)
    ensures Underway(st, m, ret, unread, [], starving, tight) && Underway(st, m, ret, unread, [], false, tight)
  {
    hide Stream.Valid, Stream.Rest, BytesBits;
  }

  lemma Settles(st: Stream, m: Result, unread: seq<byte>, ret: Ret, starving: bool, tight: bool)
    requires Underway(st, m, ret, unread, [], starving, tight) && Definite(m, tight)
    ensures Conforms(Strict(m), ret, st.s.head, st.past.hist,
            ToBits(st.s.r.hold, st.s.r.bits) + BytesBits(unread), starving)
  {
    hide MeaningOf, BytesBits, ToBits, Conforms, Sound, InflateMatch.HistoryOk;
    NoInput();
    assert BytesBits(unread) + BytesBits([]) == BytesBits(unread);
    Concludes(st.s, st.past, m, ToBits(st.s.r.hold, st.s.r.bits) + BytesBits(unread), ret, starving, tight);
  }

  /**
   When all input has been given, calling on with whatever room, until there is an end, an error, a dictionary
   wanted, or room left, brings out all that the input decodes to.  With room for one byte at a time a distance beyond
   the window is an error.
   */
  method InflateAll(wrap: nat, wbits: nat, head: Saved, calls: seq<Call>, bytewise: bool)
      returns (out: seq<byte>, ret: Ret, head': Saved, unread: seq<byte>, ghost held: seq<bool>)
    requires ExtraEmpty(head) && (bytewise ==> Narrow(calls))
    requires wbits >= 15 || Definite(Head(wrap, Win(wbits, false), head, BytesBits(Fed(calls))), bytewise)
    ensures Conforms(Strict(Head(wrap, Win(wbits, false), head, BytesBits(Fed(calls)))), ret, head', out,
            held + BytesBits(unread), ret == OK || ret == BUF_ERROR)
  {
    hide Head, MeaningOf, BytesBits, ToBits, Conforms, Sound, Fed, InflateMatch.HistoryOk, OutputOf, Stream.Valid,
      Underway, Strict, Agrees, Narrow;
    ghost var m := Head(wrap, Win(wbits, false), head, BytesBits(Fed(calls)));
    HeadWithin(wrap, wbits, head, BytesBits(Fed(calls)));
    var st, starving, before;
    st, out, ret, unread, starving, before := RunCalls(wrap, wbits, head, calls);
    Loosened(st, m, ret, unread, starving, Narrow(calls), bytewise);
    while (ret == OK || ret == BUF_ERROR) && !starving
      invariant fresh(st) && fresh(st.window) && st.past.hist == out
      invariant Underway(st, m, ret, unread, [], starving, bytewise)
      decreases if (ret == OK || ret == BUF_ERROR) && !starving then 1 else 0, OutputOf(m) - |out|
    {
      var room: nat :| room > 0 && (bytewise ==> room == 1);
      var more;
      more, ret, unread, starving := CallOn(st, unread, room, m, ret, bytewise);
      out := out + more;
    }
    head', held := st.s.head, ToBits(st.s.r.hold, st.s.r.bits);
    Settles(st, m, unread, ret, starving, bytewise);
    NotStarving(st, m, ret, unread, starving, bytewise);
  }

  lemma Loosened(st: Stream, m: Result, ret: Ret, unread: seq<byte>, starving: bool, tight: bool, tight': bool)
    requires Underway(st, m, ret, unread, [], starving, tight) && (tight' ==> tight)
    ensures Underway(st, m, ret, unread, [], starving, tight')
  {
    hide Stream.Valid, Stream.Rest, BytesBits;
  }

  lemma NotStarving(st: Stream, m: Result, ret: Ret, unread: seq<byte>, starving: bool, tight: bool)
    requires Underway(st, m, ret, unread, [], starving, tight)
    ensures starving ==> ret == OK || ret == BUF_ERROR
  {
    hide Stream.Valid, Stream.Rest, BytesBits;
  }

  // ---------- when the division matters ----------

  /** What came to an end with a full window and with the small one. */
  lemma Differ(n: Result, v: Result, bits: nat, ret: Ret, head: Saved, out: seq<byte>, rest: seq<bool>, ret': Ret,
        head': Saved, out': seq<byte>, rest': seq<bool>)
    requires Related(bits, n, v)
    requires Conforms(v, ret, head, out, rest, ret == OK || ret == BUF_ERROR)
    requires Conforms(Strict(n), ret', head', out', rest', ret' == OK || ret' == BUF_ERROR)
    ensures out == out' <==> !n.outcome.Beyond?
  {
  }

  /**
   All in one call, or byte by byte: the output is the same if and only if no distance reaches beyond the window.
   */
  method TwoWays(wrap: nat, wbits: nat, head: Saved, data: seq<byte>, room: nat)
      returns (out: seq<byte>, out': seq<byte>)
    requires ExtraEmpty(head) && room > OutputOf(Head(wrap, Win(wbits, true), head, BytesBits(data)))
    ensures out == out' <==> !Head(wrap, Win(wbits, false), head, BytesBits(data)).outcome.Beyond?
  {
    hide Head, BytesBits, Conforms, Fed;
    ghost var n, v := Head(wrap, Win(wbits, false), head, BytesBits(data)),
                      Head(wrap, Win(wbits, true), head, BytesBits(data));
    HeadWithin(wrap, wbits, head, BytesBits(data));
    var ret, head1, unread, starving, ret', head2, unread';
    ghost var held, held';
    out, ret, head1, unread, starving, held := InflateOnce(wrap, wbits, head, Call(data, room, NO_FLUSH));
    Enough(v, ret, head1, out, held + BytesBits(unread), starving, room);
    OnlyOne(Call(data, 1, NO_FLUSH));
    out', ret', head2, unread', held' := InflateAll(wrap, wbits, head, [Call(data, 1, NO_FLUSH)], true);
    Differ(n, v, wbits, ret, head1, out, held + BytesBits(unread), ret', head2, out', held' + BytesBits(unread'));
  }

  lemma Enough(v: Result, ret: Ret, head: Saved, out: seq<byte>, rest: seq<bool>, starving: bool, room: nat)
    requires Conforms(v, ret, head, out, rest, starving) && room > OutputOf(v) && !v.outcome.Beyond?
    requires HadEnough(Call([], room, NO_FLUSH), |out|, ret, starving)
    ensures Conforms(v, ret, head, out, rest, ret == OK || ret == BUF_ERROR)
  {
  }

  /** Whether the call may stop between blocks or at their headers. */
  predicate Pausing(call: Call) {
    call.flush == BLOCK || call.flush == TREES
  }

  lemma NoInput()
    ensures BytesBits([]) == [] && BytesBits(Fed([])) == []
  {
  }
}
