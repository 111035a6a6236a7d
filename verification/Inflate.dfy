/**
 inflate: a stream that is decoded in any number of calls.
 */
module Inflate {
  import opened Bits
  import opened TableSpec
  import opened Rfc1951
  import opened Wrapper
  import opened Registers
  import opened InflateHeader
  import opened InflateMatch
  import opened InflateState
  import Window
  import opened InflateLoop

  datatype Ret = OK | STREAM_END | NEED_DICT | DATA_ERROR | BUF_ERROR

  lemma NoBytes(r: Regs)
    requires r.Ok() && r.next == |r.input|
    ensures r.Avail() == ToBits(r.hold, r.bits)
  {
    hide ToBits, Pow2;
  }

  /** The state between calls: no input, no output. */
  function Parked(s: State): State {
    s.(r := Regs([], 0, s.r.hold, s.r.bits), output := [], left := 0, out := 0)
  }

  /** The state at the start of a call. */
  function Loaded(s: State, input: seq<byte>, avail: nat): State {
    s.(r := Regs(input, 0, s.r.hold, s.r.bits), left := avail, out := avail, mode := if s.mode == TYPE then TYPEDO
        else s.mode)
  }

  ghost predicate AtRest(s: State) {
    s.r.input == [] && s.r.next == 0 && s.output == [] && s.left == 0 && s.out == 0
  }

  lemma LoadedSound(s: State, p: Past, input: seq<byte>, avail: nat)
    requires Sound(s, p) && AtRest(s)
    ensures Sound(Loaded(s, input, avail), p)
  {
    hide CheckOf, Pow2, Decodes, Verify, ExtraOk, ExtraEmpty, HasExtra, HasHcrc;
  }

  lemma LoadedMeaning(s: State, p: Past, input: seq<byte>, avail: nat, f: seq<bool>)
    requires Sound(s, p) && AtRest(s) && Loaded(s, input, avail).r.Ok()
    ensures Meaning(Loaded(s, input, avail), p, f) ==
            MeaningOf(s, p, ToBits(s.r.hold, s.r.bits) + (BytesBits(input) + f))
  {
    hide MeaningOf, ToBits, BytesBits, ModeOk;
    var t := Loaded(s, input, avail);
    SameMeaning(s, p, t, p, t.r.Avail() + f);
    assert input[0..] == input;
    assert t.r.Avail() + f == ToBits(s.r.hold, s.r.bits) + (BytesBits(input) + f);
  }

  lemma LoadedWindow(s: State, p: Past, input: seq<byte>, avail: nat, win: seq<byte>, wsize: nat, whave: nat,
        wnext: nat, kept: seq<byte>)
    requires Sound(s, p) && HistoryOk(win, wsize, whave, wnext, kept) && Room(s, p, wsize)
    requires (s.mode.InHeader() ==> wsize == 0) && (!s.mode.Ended() ==> kept == p.hist)
    ensures WindowOk(Loaded(s, input, avail), p, win, wsize, whave, wnext)
  {
    hide HistoryOk, Pow2;
    if s.mode.InHeader() {
      HeaderQuiet(s, p);
    }
  }

  /** Parking a state that has counted its output. */
  lemma ParkedSound(s: State, p: Past, t: State)
    requires Sound(s, p) && t == s.(total := t.total, check := t.check, out := s.left) && t.total == |Made(s, p)|
    requires s.out - s.left == |s.output| && Verify(s.wrap) && s.check == CheckOf(s.flags, p.hist) ==>
      t.check == CheckOf(s.flags, Made(s, p))
    ensures Sound(Parked(t), p.(hist := Made(s, p)))
  {
    hide CheckOf, Pow2, Decodes, Verify, ExtraOk, ExtraEmpty, HasExtra, HasHcrc;
  }

  lemma ParkedMeaning(s: State, p: Past, t: State)
    requires t == s.(total := t.total, check := t.check, out := s.left) && (s.mode.InHeader() ==> t.check == s.check)
    ensures forall b :: MeaningOf(Parked(t), p.(hist := Made(s, p)), b) == MeaningOf(s, p, b)
  {
    hide MeaningOf;
    assert Made(Parked(t), p.(hist := Made(s, p))) == Made(s, p);
    forall b ensures MeaningOf(Parked(t), p.(hist := Made(s, p)), b) == MeaningOf(s, p, b) {
      SameMeaning(s, p, Parked(t), p.(hist := Made(s, p)), b);
    }
  }

  /** Unless the stream has ended, all output of the call is still to be counted; in the header there is none. */
  lemma Uncounted(s: State, p: Past)
    requires Sound(s, p)
    ensures 0 <= s.out - s.left <= |s.output| && (!s.mode.Ended() ==> s.out - s.left == |s.output|)
    ensures s.mode.InHeader() ==> s.output == [] && s.out == s.left && !s.mode.Ended()
    ensures s.mode != DONE && s.mode != BAD ==> s.out - s.left == |s.output| || s.r.next > 0
  {
    hide Pow2, CheckOf, Verify;
  }

  /** The counts and the check value take in the output; what is kept between calls means the same. */
  method PutAway(u: State, ghost p: Past) returns (v: State)
    requires Sound(u, p)
    ensures Sound(v, p.(hist := Made(u, p))) && AtRest(v)
    ensures v.mode == u.mode && v.head == u.head && v.r.hold == u.r.hold && v.r.bits == u.r.bits && v.wrap == u.wrap &&
            v.wbits == u.wbits && v.total == |Made(u, p)|
    ensures forall b :: MeaningOf(v, p.(hist := Made(u, p)), b) == MeaningOf(u, p, b)
  {
    hide Pow2, MeaningOf, ModeOk, CheckOf, Verify;
    var c := Count(u, p);
    if u.mode.InHeader() {
      HeaderQuiet(u, p);
    }
    ParkedSound(u, p, c);
    ParkedMeaning(u, p, c);
    v := Parked(c);
  }

  /** The state of a new stream. */
  function Initial(wrap: nat, wbits: nat, head: Saved): State {
    State(HEAD, Regs([], 0, 0, 0), [], 0, 0, false, wrap, -1, 0, 0, head, wbits, 0, 0, 0,
          [], 0, [], 0, 0, 0, 0, 0, seq(320, _ => 0))
  }

  /** What a call returns; idle if it used no input and made no output. */
  function Verdict(mode: Mode, idle: bool, flush: Flush): (ret: Ret)
    ensures (ret == STREAM_END <==> mode == DONE) && (ret == DATA_ERROR <==> mode == BAD) &&
            (ret == NEED_DICT <==> mode == DICT)
    ensures ret == BUF_ERROR <==> mode != DONE && mode != BAD && mode != DICT && (flush == FINISH || idle)
  {
    match mode
    case DONE => STREAM_END
    case BAD => DATA_ERROR
    case DICT => NEED_DICT
    case _ => if idle || flush == FINISH then BUF_ERROR else OK
  }

  class Stream {
    var s: State
    var window: array<byte>
    var wsize: nat
    var whave: nat
    var wnext: nat

    ghost var past: Past           // all output so far, and the codes in use
    ghost var inWindow: seq<byte>  // what has been written to the window

    ghost predicate Valid()
      reads this, window
    {
      && Sound(s, past) && AtRest(s)
      && HistoryOk(window[..], wsize, whave, wnext, inWindow)
      && (wsize != 0 ==> wsize == Pow2(s.wbits))
      && (s.mode.InHeader() ==> wsize == 0)
      && (!s.mode.Ended() ==> inWindow == past.hist)
    }

    /** What the stream decodes to if the bits f follow. */
    ghost function Rest(f: seq<bool>): Result
      reads this
    {
      MeaningOf(s, past, ToBits(s.r.hold, s.r.bits) + f)
    }

    /** inflateInit2, with the header to be filled in. */
    constructor (wrap: nat, wbits: nat, head: Saved, ghost wide: bool)
      requires ExtraEmpty(head)
      ensures Valid() && past.hist == [] && past.wide == wide && fresh(window)
      ensures s == Initial(wrap, wbits, head)
      ensures forall f :: Rest(f) == Head(wrap, Win(wbits, wide), head, f)
    {
      s := Initial(wrap, wbits, head);
      window := new byte[0];
      wsize, whave, wnext := 0, 0, 0;
      past, inWindow := Past([], wide, [], [], []), [];
      new;
      forall f ensures Rest(f) == Head(wrap, Win(wbits, wide), head, f) {
        assert ToBits(0, 0) + f == f;
      }
    }

    /** updatewindow, making the window if there is none yet. */
    method KeepWindow(data: seq<byte>, wbits: nat)
      requires HistoryOk(window[..], wsize, whave, wnext, inWindow) && (wsize != 0 ==> wsize == Pow2(wbits))
      modifies this`window, this`wsize, this`whave, this`wnext, this`inWindow, window
      ensures HistoryOk(window[..], wsize, whave, wnext, inWindow) && wsize == Pow2(wbits)
      ensures inWindow == old(inWindow) + data
      ensures window == old(window) || fresh(window)
    {
      hide Pow2;
      if wsize == 0 {
        wsize, wnext, whave := Pow2(wbits), 0, 0;
        window := new byte[Pow2(wbits)];
      }
      whave, wnext := Window.UpdateWindow(window, whave, wnext, data, inWindow);
      inWindow := inWindow + data;
    }

    /** The window takes in the output, if it is needed. */
    method KeepOutput(u: State, flush: Flush, ghost p: Past)
      requires HistoryOk(window[..], wsize, whave, wnext, inWindow) && Sound(u, p)
      requires (wsize != 0 ==> wsize == Pow2(u.wbits)) && (u.mode.InHeader() ==> wsize == 0)
      requires !u.mode.Ended() ==> inWindow == p.hist
      modifies this`window, this`wsize, this`whave, this`wnext, this`inWindow, window
      ensures HistoryOk(window[..], wsize, whave, wnext, inWindow) && (window == old(window) || fresh(window))
      ensures (wsize != 0 ==> wsize == Pow2(u.wbits)) && (u.mode.InHeader() ==> wsize == 0)
      ensures !u.mode.Ended() ==> inWindow == Made(u, p)
    {
      hide HistoryOk, Pow2, Sound;
      Uncounted(u, p);
      var n := u.out - u.left;
      var data := u.output[|u.output| - n..];
      assert p.hist + [] == p.hist;
      if wsize != 0 || (n > 0 && u.mode != BAD && (!u.mode.Ended() || flush != FINISH)) {
        KeepWindow(data, u.wbits);
      }
    }

    /** inf_leave: the window, the counts and the check value take in the output; the rest is put away. */
    method Leave(u: State, flush: Flush, ghost p: Past)
      requires Valid() && Sound(u, p)
      requires (wsize != 0 ==> wsize == Pow2(u.wbits)) && (u.mode.InHeader() ==> wsize == 0)
      requires !u.mode.Ended() ==> inWindow == p.hist
      modifies this, window
      ensures Valid() && (window == old(window) || fresh(window))
      ensures s.mode == u.mode && s.head == u.head && s.r.hold == u.r.hold && s.r.bits == u.r.bits && s.wrap == u.wrap
      ensures s.wbits == u.wbits && past == p.(hist := Made(u, p)) && s.total == |Made(u, p)|
      ensures forall b :: Rest(b) == MeaningOf(u, p, ToBits(u.r.hold, u.r.bits) + b)
    {
      hide HistoryOk, Pow2, MeaningOf, Sound, AtRest;
      KeepOutput(u, flush, p);
      s := PutAway(u, p);
      past := p.(hist := Made(u, p));
    }

    /** The part of a call between LOAD and inf_leave. */
    method Decode(input: seq<byte>, avail: nat, flush: Flush, ghost f: seq<bool>)
        returns (stop: Stop, u: State, ghost p: Past, ghost tr: seq<Moment>)
      requires Valid() && |f| % 8 == 0 && (past.wide ==> past.hist == [])
      ensures Sound(u, p) && u.r.next <= |input| && u.left + |u.output| == avail && p.hist == past.hist &&
              p.wide == past.wide
      ensures Trace(tr, Moment(Loaded(s, input, avail), past), Moment(u, p), stop, flush, f)
      ensures (wsize != 0 ==> wsize == Pow2(u.wbits)) && (u.mode.InHeader() ==> wsize == 0)
      ensures !u.mode.Ended() ==> inWindow == past.hist
      ensures Agrees(Rest(BytesBits(input) + f),
              MeaningOf(u, p, ToBits(u.r.hold, u.r.bits) + (BytesBits(input[u.r.next..]) + f)), avail <= 1)
      ensures match stop
              case Go => false
              case NeedInput => u.r.next == |input| &&
                  MeaningOf(u, p, ToBits(u.r.hold, u.r.bits) + []) == Result(u.head, Starved(Made(u, p)))
              case NeedSpace => u.left == 0
              case AtBoundary => (flush == BLOCK || flush == TREES) &&
                  (u.mode == TYPE || u.mode == LEN_ || u.mode == COPY_)
              case AtEnd => u.mode == DONE || u.mode == BAD || u.mode == DICT
    {
      hide HistoryOk, Pow2, MeaningOf, ModeOk, CheckOf, Verify, ToBits, BytesBits, Counted, WindowOk, Trace;
      var t := Loaded(s, input, avail);
      LoadedSound(s, past, input, avail);
      LoadedMeaning(s, past, input, avail, f);
      LoadedWindow(s, past, input, avail, window[..], wsize, whave, wnext, inWindow);
      stop, u, p, tr := InflateLoop.Run(t, window, wsize, whave, wnext, past, flush, f);
      assert u.r.Avail() + f == ToBits(u.r.hold, u.r.bits) + (BytesBits(input[u.r.next..]) + f);
      if stop == NeedInput {
        NoBytes(u.r);
      }
    }

    /**
     inflate: decodes from input into at most avail bytes.  Whatever follows (f), the stream means
     the same after the call, with the unused input, as before it.  tr are the moments the call goes through, as far as
     end.
     */
    method Inflate(input: seq<byte>, avail: nat, flush: Flush, ghost f: seq<bool>)
        returns (output: seq<byte>, used: nat, ret: Ret, ghost tr: seq<Moment>, ghost end: Moment, ghost stop: Stop)
      requires Valid() && |f| % 8 == 0 && (past.wide ==> past.hist == [])
      modifies this, window
      ensures Valid() && (window == old(window) || fresh(window))
      ensures used <= |input| && |output| <= avail && past.hist == old(past.hist) + output &&
              past.wide == old(past.wide)
      ensures Agrees(old(Rest(BytesBits(input) + f)), Rest(BytesBits(input[used..]) + f), avail <= 1)
      ensures Trace(tr, Moment(Loaded(old(s), input, avail), old(past)), end, stop, flush, f) && stop != Go
      ensures s.mode == end.s.mode && s.r.hold == end.s.r.hold && s.r.bits == end.s.r.bits
      ensures ret == STREAM_END <==> s.mode == DONE
      ensures ret == DATA_ERROR <==> s.mode == BAD
      ensures ret == NEED_DICT <==> s.mode == DICT
      ensures ret == BUF_ERROR <==>
        && s.mode != DONE && s.mode != BAD && s.mode != DICT
        && (flush == FINISH || (used == 0 && output == []))
      ensures ret == OK || ret == BUF_ERROR ==>
        || (used == |input| && Rest([]) == Result(s.head, Starved(past.hist)))
        || |output| == avail
        || ((flush == BLOCK || flush == TREES) && (s.mode == TYPE || s.mode == LEN_ || s.mode == COPY_))
    {
      hide MeaningOf, ToBits, BytesBits, Sound, Rest, Valid, Pow2, ModeOk, Trace, Loaded, HistoryOk, Verdict;
      var why, u;
      ghost var p;
      why, u, p, tr := Decode(input, avail, flush, f);
      end, stop := Moment(u, p), why;
      used, output := u.r.next, u.output;
      ret := Verdict(u.mode, used == 0 && u.out == u.left, flush);
      Uncounted(u, p);
      Leave(u, flush, p);
    }
  }

  lemma HeaderQuiet(s: State, p: Past)
    requires Sound(s, p) && s.mode.InHeader()
    ensures s.output == [] && s.out == s.left && p.hist == []
  {
  }
}
