/**
 inflate: the loop over the modes.
 */
module InflateLoop {
  import opened Bits
  import opened InflateMatch
  import opened InflateState
  import opened InflateBlocks
  import opened InflateCodes
  import InflateFast

  /** The window, as far as the mode needs it. */
  ghost predicate WindowOk(s: State, p: Past, win: seq<byte>, wsize: nat, whave: nat, wnext: nat) {
    && Room(s, p, wsize)
    && (s.mode.InHeader() ==> wsize == 0 && p.hist == [])
    && (!s.mode.Ended() ==> HistoryOk(win, wsize, whave, wnext, p.hist))
  }

  lemma WindowKept(s: State, p: Past, s': State, p': Past, win: seq<byte>, wsize: nat, whave: nat, wnext: nat)
    requires WindowOk(s, p, win, wsize, whave, wnext) && Frame(s, p, s', p')
    ensures WindowOk(s', p', win, wsize, whave, wnext)
  {
    hide HistoryOk, Pow2;
  }

  lemma FrameTrans(s: State, p: Past, t: State, q: Past, u: State, r: Past)
    requires Frame(s, p, t, q) && Frame(t, q, u, r)
    ensures Frame(s, p, u, r)
  {
  }

  /** Staying as it is. */
  lemma Rests(s: State, p: Past, stop: Stop, flush: Flush, f: seq<bool>)
    requires Sound(s, p) && stop != NeedInput && stop != Go && Moves(s, s, stop, flush)
    ensures Stepped(s, p, s, p, stop, flush, f)
  {
    hide MeaningOf, ModeOk, Counted, ToBits, BytesBits;
  }

  /** One pass through the switch. */
  method Step(s: State, window: array<byte>, wsize: nat, whave: nat, wnext: nat, ghost p: Past, flush: Flush,
        ghost f: seq<bool>)
      returns (stop: Stop, s': State, ghost p': Past)
    requires Sound(s, p) && WindowOk(s, p, window[..], wsize, whave, wnext) && |f| % 8 == 0
    ensures Stepped(s, p, s', p', stop, flush, f)
    ensures s.r.Ok() && s'.r.Ok() && Exactly(s, p, s', p', stop, flush, f)
  {
    hide Stepped, Sound, MeaningOf, HistoryOk, Starves;
    p' := p;
    if s.mode.InHeader() {
      stop, s' := HeaderStep(s, p, flush, f);
    } else if s.mode.Ended() {
      stop, s' := TrailerStep(s, p, flush, f);
    } else {
      stop, s', p' := BlockStep(s, window, wsize, whave, wnext, p, flush, f);
    }
  }

  method HeaderStep(s: State, ghost p: Past, flush: Flush, ghost f: seq<bool>) returns (stop: Stop, s': State)
    requires Sound(s, p) && s.mode.InHeader()
    ensures Stepped(s, p, s', p, stop, flush, f)
    ensures s.r.Ok() && s'.r.Ok() && Exactly(s, p, s', p, stop, flush, f)
  {
    hide Stepped, Sound, MeaningOf, Frame, Starves;
    match s.mode {
      case HEAD =>
        if s.wrap == 0 {
          stop, s' := DoRaw(s, p, flush, f);
        } else {
          stop, s' := DoHead(s, p, flush, f);
        }
      case FLAGS => stop, s' := DoFlags(s, p, flush, f);
      case TIME => stop, s' := DoTime(s, p, flush, f);
      case OS => stop, s' := DoOs(s, p, flush, f);
      case EXLEN => stop, s' := DoExLen(s, p, flush, f);
      case EXTRA => stop, s' := DoExtra(s, p, flush, f);
      case NAME => stop, s' := DoName(s, p, flush, f);
      case COMMENT => stop, s' := DoComment(s, p, flush, f);
      case HCRC => stop, s' := DoHcrc(s, p, flush, f);
      case DICTID => stop, s' := DoDictId(s, p, flush, f);
      case _ =>
        Rests(s, p, AtEnd, flush, f);
        stop, s' := AtEnd, s;
    }
    RegsOk(s, p, s', p, stop, flush, f);
  }

  method TrailerStep(s: State, ghost p: Past, flush: Flush, ghost f: seq<bool>) returns (stop: Stop, s': State)
    requires Sound(s, p) && s.mode.Ended()
    ensures Stepped(s, p, s', p, stop, flush, f)
    ensures s.r.Ok() && s'.r.Ok() && Exactly(s, p, s', p, stop, flush, f)
  {
    hide Stepped, Sound, MeaningOf, Frame, Starves;
    match s.mode {
      case CHECK => stop, s' := DoCheck(s, p, flush, f);
      case LENGTH => stop, s' := DoLength(s, p, flush, f);
      case _ =>
        Rests(s, p, AtEnd, flush, f);
        stop, s' := AtEnd, s;
    }
    RegsOk(s, p, s', p, stop, flush, f);
  }

  method BlockStep(s: State, window: array<byte>, wsize: nat, whave: nat, wnext: nat, ghost p: Past, flush: Flush,
        ghost f: seq<bool>)
      returns (stop: Stop, s': State, ghost p': Past)
    requires Sound(s, p) && s.mode.InBlocks() && |f| % 8 == 0
    requires HistoryOk(window[..], wsize, whave, wnext, p.hist) && Room(s, p, wsize)
    ensures Stepped(s, p, s', p', stop, flush, f)
    ensures s.r.Ok() && s'.r.Ok() && Exactly(s, p, s', p', stop, flush, f)
  {
    hide Stepped, Sound, MeaningOf, Frame, Starves, HistoryOk;
    p' := p;
    match s.mode {
      case TYPE =>
        if flush == BLOCK || flush == TREES {
          Rests(s, p, AtBoundary, flush, f);
          stop, s' := AtBoundary, s;
        } else {
          stop, s', p' := DoType(s, p, flush, f);
        }
      case TYPEDO => stop, s', p' := DoType(s, p, flush, f);
      case STORED => stop, s' := DoStored(s, p, flush, f);
      case COPY_ => stop, s' := DoCopy(s, p, flush, f);
      case COPY => stop, s' := DoCopy(s, p, flush, f);
      case TABLE => stop, s' := DoTable(s, p, flush, f);
      case LENLENS => stop, s', p' := DoLenLens(s, p, flush, f);
      case CODELENS => stop, s', p' := DoCodeLens(s, p, flush, f);
      case _ => stop, s' := CodeStep(s, window, wsize, whave, wnext, p, flush, f);
    }
    RegsOk(s, p, s', p', stop, flush, f);
  }

  method CodeStep(s: State, window: array<byte>, wsize: nat, whave: nat, wnext: nat, ghost p: Past, flush: Flush,
        ghost f: seq<bool>)
      returns (stop: Stop, s': State)
    requires Sound(s, p) && 4 < s.mode.Rank() <= 11
    requires HistoryOk(window[..], wsize, whave, wnext, p.hist) && Room(s, p, wsize)
    ensures Stepped(s, p, s', p, stop, flush, f)
    ensures s.r.Ok() && s'.r.Ok() && Exactly(s, p, s', p, stop, flush, f)
  {
    hide Stepped, Sound, MeaningOf, Frame, Starves, HistoryOk;
    match s.mode {
      case LEN_ => stop, s' := EnterLen(s, p, flush, f);
      case LENEXT => stop, s' := DoLenExt(s, p, flush, f);
      case DIST => stop, s' := DoDist(s, p, flush, f);
      case DISTEXT => stop, s' := DoDistExt(s, p, flush, f);
      case MATCH =>
        if s.left == 0 {
          Rests(s, p, NeedSpace, flush, f);
          stop, s' := NeedSpace, s;
        } else {
          stop, s' := DoMatch(s, window, wsize, whave, wnext, p, flush, f);
        }
      case LIT =>
        if s.left == 0 {
          Rests(s, p, NeedSpace, flush, f);
          stop, s' := NeedSpace, s;
        } else {
          LitIsByte(s, p);
          stop, s' := DoLit(s, p, flush, f);
        }
      case _ => stop, s' := LenStep(s, window, wsize, whave, wnext, p, flush, f);
    }
    RegsOk(s, p, s', p, stop, flush, f);
  }

  method LenStep(s: State, window: array<byte>, wsize: nat, whave: nat, wnext: nat, ghost p: Past, flush: Flush,
        ghost f: seq<bool>)
      returns (stop: Stop, s': State)
    requires Sound(s, p) && s.mode == LEN
    requires HistoryOk(window[..], wsize, whave, wnext, p.hist) && Room(s, p, wsize)
    ensures Stepped(s, p, s', p, stop, flush, f)
    ensures s.r.Ok() && s'.r.Ok() && Exactly(s, p, s', p, stop, flush, f)
  {
    hide Stepped, Sound, MeaningOf, Frame, Starves, HistoryOk, Moves,
      Agrees;
    if Fast(s) {
      stop := Go;
      s' := InflateFast.Run(s, window, wsize, whave, wnext, p, flush, f);
    } else {
      stop, s' := DoLen(s, p, flush, f);
    }
    RegsOk(s, p, s', p, stop, flush, f);
  }

  lemma SoundOk(s: State, p: Past)
    requires Sound(s, p)
    ensures s.r.Ok() && s.left <= s.out
  {
  }

  /** What a run of steps, the last of which stopped for the given reason, does. */
  ghost predicate Ran(s: State, p: Past, s': State, p': Past, stop: Stop, flush: Flush, f: seq<bool>)
    requires s.r.Ok()
  {
    && Sound(s', p') && Frame(s, p, s', p') && s'.r.Unread() <= s.r.Unread()
    && Agrees(Meaning(s, p, f), Meaning(s', p', f), Tight(s))
    && (stop == NeedInput ==> s'.r.next == |s'.r.input| && Starves(s', p'))
    && (stop == NeedSpace ==> s'.left == 0)
    && (stop == AtBoundary ==>
        (flush == BLOCK || flush == TREES) && (s'.mode == TYPE || s'.mode == LEN_ || s'.mode == COPY_))
    && (stop == AtEnd ==> s'.mode == DONE || s'.mode == BAD || s'.mode == DICT)
  }

  lemma RanNothing(s: State, p: Past, flush: Flush, f: seq<bool>)
    requires Sound(s, p)
    ensures Ran(s, p, s, p, Go, flush, f)
  {
    hide MeaningOf, ModeOk, Counted, ToBits, BytesBits;
  }

  lemma RanStep(s: State, p: Past, t: State, q: Past, u: State, r: Past, stop: Stop, flush: Flush, f: seq<bool>)
    requires s.r.Ok() && Ran(s, p, t, q, Go, flush, f) && t.r.Ok() && Stepped(t, q, u, r, stop, flush, f)
    ensures Ran(s, p, u, r, stop, flush, f)
    ensures u.left <= t.left
    ensures stop == Go ==>
      u.r.Unread() < t.r.Unread() || u.left < t.left || (u.left == t.left && u.mode.Rank() < t.mode.Rank())
  {
    hide MeaningOf, ModeOk, Counted, ToBits, BytesBits;
    FrameTrans(s, p, t, q, u, r);
  }

  /** A state and what a proof remembers at it. */
  datatype Moment = Moment(s: State, p: Past)

  ghost predicate Goes(a: Moment, b: Moment, stop: Stop, flush: Flush, f: seq<bool>) {
    && a.s.r.Ok() && b.s.r.Ok() && Stepped(a.s, a.p, b.s, b.p, stop, flush, f)
    && Exactly(a.s, a.p, b.s, b.p, stop, flush, f)
  }

  /** tr are the moments before each step of a run, the last of which led to b. */
  ghost predicate Trace(tr: seq<Moment>, a: Moment, b: Moment, stop: Stop, flush: Flush, f: seq<bool>) {
    && |tr| >= 1 && tr[0] == a && Goes(tr[|tr| - 1], b, stop, flush, f)
    && forall i :: 0 <= i < |tr| - 1 ==> Goes(tr[i], tr[i + 1], Go, flush, f)
  }

  /** With Z_BLOCK or Z_TREES a call gets no further than the end of a block, and with Z_TREES the data of one. */
  lemma StopsAtBoundary(tr: seq<Moment>, a: Moment, b: Moment, stop: Stop, flush: Flush, f: seq<bool>, i: nat)
    requires Trace(tr, a, b, stop, flush, f) && i < |tr| && (flush == BLOCK || flush == TREES)
    ensures tr[i].s.mode == TYPE ==> i == |tr| - 1 && stop == AtBoundary && b.s == tr[i].s
    ensures flush == TREES && (tr[i].s.mode == LEN_ || tr[i].s.mode == COPY_) ==>
      forall j :: 0 <= j <= i ==> tr[j].s.mode == tr[i].s.mode
  {
    hide Goes;
    if i < |tr| - 1 {
      GoesOn(tr[i], tr[i + 1], Go, flush, f);
    } else {
      GoesOn(tr[i], b, stop, flush, f);
    }
    if i > 0 {
      GoesOn(tr[i - 1], tr[i], Go, flush, f);
      StopsAtBoundary(tr, a, b, stop, flush, f, i - 1);
    }
  }

  lemma GoesOn(a: Moment, b: Moment, stop: Stop, flush: Flush, f: seq<bool>)
    requires Goes(a, b, stop, flush, f)
    ensures Halts(a.s, b.s, stop, flush)
  {
    hide MeaningOf, Sound, Exactly, Agrees, Starves;
  }

  lemma TraceMore(tr: seq<Moment>, a: Moment, b: Moment, c: Moment, stop: Stop, flush: Flush, f: seq<bool>)
    requires if tr == [] then b == a else Trace(tr, a, b, Go, flush, f)
    requires Goes(b, c, stop, flush, f)
    ensures Trace(tr + [b], a, c, stop, flush, f)
  {
    hide Goes;
    var more := tr + [b];
    forall i | 0 <= i < |more| - 1 ensures Goes(more[i], more[i + 1], Go, flush, f) {
      if i < |tr| - 1 {
        assert Goes(tr[i], tr[i + 1], Go, flush, f);
      }
    }
  }

  /** The loop: runs until the call must be left.  It ends: each step uses input, makes output, or goes down in rank. */
  method Run(s: State, window: array<byte>, wsize: nat, whave: nat, wnext: nat, ghost p: Past, flush: Flush,
        ghost f: seq<bool>)
      returns (stop: Stop, s': State, ghost p': Past, ghost tr: seq<Moment>)
    requires Sound(s, p) && WindowOk(s, p, window[..], wsize, whave, wnext) && |f| % 8 == 0
    ensures s.r.Ok() && stop != Go && Ran(s, p, s', p', stop, flush, f)
    ensures Trace(tr, Moment(s, p), Moment(s', p'), stop, flush, f)
  {
    hide Stepped, Sound, MeaningOf, Ran, WindowOk, Starves, Exactly, Trace;
    stop, s', p', tr := Go, s, p, [];
    RanNothing(s, p, flush, f);
    SoundOk(s, p);
    while stop == Go
      invariant s'.r.Ok() && Sound(s', p') && Ran(s, p, s', p', stop, flush, f)
      invariant stop == Go ==> WindowOk(s', p', window[..], wsize, whave, wnext)
      invariant
        if tr == [] then stop == Go && s' == s && p' == p
        else Trace(tr, Moment(s, p), Moment(s', p'), stop, flush, f)
      decreases if stop == Go then 1 else 0, s'.r.Unread(), s'.left, s'.mode.Rank()
    {
      ghost var t, q := s', p';
      stop, s', p' := Step(s', window, wsize, whave, wnext, p', flush, f);
      RanStep(s, p, t, q, s', p', stop, flush, f);
      SteppedOk(t, q, s', p', stop, flush, f);
      SoundOk(s', p');
      WindowKept(t, q, s', p', window[..], wsize, whave, wnext);
      TraceMore(tr, Moment(s, p), Moment(t, q), Moment(s', p'), stop, flush, f);
      tr := tr + [Moment(t, q)];
    }
  }

  lemma RegsOk(s: State, p: Past, s': State, p': Past, stop: Stop, flush: Flush, f: seq<bool>)
    requires Stepped(s, p, s', p', stop, flush, f)
    ensures s.r.Ok() && s'.r.Ok()
  {
    hide Agrees, Meaning, Moves, ModeOk, Counted;
  }

  lemma SteppedOk(s: State, p: Past, s': State, p': Past, stop: Stop, flush: Flush, f: seq<bool>)
    requires s.r.Ok() && Stepped(s, p, s', p', stop, flush, f)
    ensures Sound(s', p') && Frame(s, p, s', p') && s'.r.Unread() <= s.r.Unread()
  {
  }
}
