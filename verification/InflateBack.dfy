/**
 inflateBack: a decoder whose window is also its output buffer, handed to out() whenever it is full.
 */
module InflateBack {
  import opened Bits
  import opened TableSpec
  import opened Rfc1951
  import opened Rfc1951Facts
  import opened Decode
  import opened Registers
  import opened InflateSteps
  import opened Openings
  import opened Readings
  import opened BackInput
  import opened BackSpec
  import FastSteps
  import InflateFast
  import InflateBlocks
  import Fixed

  // ---------- the window ----------

  class Ring {
    const window: array<byte>
    var left: nat            // room in the window, at its end
    var whave: nat           // all of the window, once it has been full; before, the output when inflate_fast began
    var outs: nat            // how many more calls of out() will succeed
    var sent: seq<byte>      // what out() took

    ghost var made: seq<byte>  // all output
    ghost const takes: nat     // how many calls of out() succeed

    ghost function Output(): Out
      requires left <= window.Length
      reads this, window
    {
      Out(made, window[..], window.Length - left, whave == window.Length)
    }

    ghost predicate Valid()
      reads this, window
    {
      && left <= window.Length && whave <= window.Length
      && Output().Ok() && made == sent + window[..window.Length - left] && takes <= outs + |sent|
    }

    /** out() has failed. */
    ghost predicate Refused()
      reads this
    {
      takes <= |sent|
    }

    lemma Bounds()
      requires Valid()
      ensures 0 < window.Length && left <= window.Length && whave <= window.Length && Output().Fits() && Output().Ok()
      ensures Output().all == made && Output().pos == window.Length - left && |Output().win| == window.Length
    {
    }

    constructor (buffer: array<byte>, takes: nat)
      requires buffer.Length > 0
      ensures Valid() && window == buffer && this.takes == takes && Output() == Out([], buffer[..], 0, false)
    {
      window, left, whave, outs, sent, made := buffer, buffer.Length, 0, takes, [], [];
      this.takes := takes;
      new;
      assert buffer[..0] == [];
    }

    /** ROOM: a full window is written out. */
    method Room() returns (ok: bool)
      requires Valid()
      modifies this`left, this`whave, this`outs, this`sent
      ensures old(sent) <= sent <= made
      ensures if ok then Valid() && left > 0 && Output() == old(Output()).Roomed()
              else left == window.Length && sent < made && Refused()
    {
      RoomedOk(Output());
      ok := true;
      if left == 0 {
        left, whave := window.Length, window.Length;
        ok := outs > 0;
        if ok {
          outs, sent := outs - 1, sent + window[..];
          assert window[..window.Length] == window[..];
          assert window[..0] == [];
        }
      }
    }

    /** The byte at the write position. */
    method Put(b: byte)
      requires Valid() && left > 0
      modifies this`left, this`made, window
      ensures Valid() && left == old(left) - 1 && made == old(made) + [b] && sent == old(sent)
      ensures old(Output()).Fits() && Output() == old(Output()).Put(b)
    {
      hide Out.Ok;
      ghost var o := Output();
      Bounds();
      PutOk(o, b);
      var pos := window.Length - left;
      ghost var head := window[..pos];
      window[pos] := b;
      left := left - 1;
      made := made + [b];
      assert window[..pos + 1] == head + [b];
      assert Output() == o.Put(b) by {
        assert window[..] == o.win[pos := b];
      }
    }

    /** The test of a distance, one code at a time. */
    method Reaches(dist: nat) returns (good: bool)
      requires Valid()
      ensures good <==> dist <= |made| && dist <= window.Length
    {
      good := dist <= window.Length - if whave < window.Length then left else 0;
    }

    /** Where the byte dist places back is. */
    lemma At(dist: nat)
      requires Valid() && dist > 0 && left > 0
      ensures Output().Fits()
      ensures var pos := window.Length - left;
              dist <= pos + window.Length ==>
              Output().Back(dist) == window[if dist <= pos then pos - dist else pos + window.Length - dist]
    {
      hide Valid, Out.Ok;
      Bounds();
      var pos := window.Length - left;
      if dist <= pos + window.Length {
        var k := if dist <= pos then pos - dist else pos + window.Length - dist;
        assert Output().Roomed() == Output() && Output().From(dist) == k;
        assert Output().win[k] == window[k];
      }
    }

    method CopyByte(dist: nat, from: nat)
      requires Valid() && dist > 0 && left > 0
      requires var pos := window.Length - left;
               if dist <= pos then from == pos - dist else from == pos + window.Length - dist
      modifies this`left, this`made, window
      ensures Valid() && left == old(left) - 1 && sent == old(sent)
      ensures old(Output()).Fits() && Output() == old(Output()).Put(old(Output()).Back(dist))
    {
      hide Valid, Out.Ok, Out.Put, Out.Back;
      At(dist);
      Bounds();
      Put(window[from]);
    }

    /** Bytes of a string that lie together. */
    method CopyPiece(dist: nat, from: nat, n: nat)
      requires Valid() && dist > 0 && 0 < n <= left
      requires var pos := window.Length - left;
               if dist <= pos then from == pos - dist
               else from == pos + window.Length - dist && n <= dist - pos
      modifies this`left, this`made, window
      ensures Valid() && left == old(left) - n && sent == old(sent)
      ensures old(Output()).Fits() && Output() == old(Output()).Copied(dist, n)
    {
      hide Valid, Output, Out.Ok, Out.Copied, Out.Back, Out.Put, Out.Fits;
      Bounds();
      ghost var o := Output();
      var i := 0;
      while i < n
        invariant i <= n && left <= window.Length && left == old(left) - i && sent == old(sent)
        invariant Valid() && Output().Fits() && Output().Copied(dist, n - i) == o.Copied(dist, n)
      {
        CopiedFirst(Output(), dist, n - i);
        CopyByte(dist, from + i);
        Bounds();
        i := i + 1;
      }
      CopiedNone(Output(), dist);
    }

    /** A piece of a match: as much of it as lies together, the window being written out first if it is full. */
    method CopySome(dist: nat, length: nat) returns (ok: bool, n: nat)
      requires Valid() && 1 <= dist <= window.Length && length > 0
      modifies this`left, this`whave, this`outs, this`sent, this`made, window
      ensures old(Output()).Fits()
      ensures if ok then Valid() && 0 < n <= length && Output() == old(Output()).Copied(dist, n)
              else left == window.Length && sent < made == old(made) && Refused()
    {
      hide Valid, Out.Ok, Out.Copied;
      Bounds();
      ghost var o := Output();
      n := 0;
      ok := Room();
      if ok {
        Bounds();
        var pos := window.Length - left;
        var copy := window.Length - dist;
        var from;
        if copy < left {
          from := pos + copy;
          copy := left - copy;
        } else {
          from := pos - dist;
          copy := left;
        }
        n := if copy > length then length else copy;
        RoomedCopied(o, dist, n);
        CopyPiece(dist, from, n);
      }
    }

    /** The match is copied in pieces. */
    method CopyString(dist: nat, length: nat) returns (ok: bool)
      requires Valid() && 1 <= dist <= window.Length && length > 0
      modifies this`left, this`whave, this`outs, this`sent, this`made, window
      ensures old(Output()).Fits()
      ensures if ok then Valid() && Output() == old(Output()).Copied(dist, length)
              else left == window.Length && sent < old(Output()).Copied(dist, length).all && Refused()
    {
      hide Valid, Out.Ok, Out.Copied;
      Bounds();
      ghost var o := Output();
      ok := true;
      var rest: nat := length;
      while rest != 0
        invariant Valid() && rest <= length && left <= window.Length && Output().Fits()
        invariant Output().Copied(dist, rest) == o.Copied(dist, length)
        decreases rest
      {
        ghost var o1 := Output();
        var n;
        ok, n := CopySome(dist, rest);
        if !ok {
          CopiedGrows(o1, dist, rest);
          return;
        }
        Bounds();
        CopiedSplit(o1, dist, n, rest - n);
        rest := rest - n;
      }
      CopiedNone(Output(), dist);
    }

    /** A literal. */
    method Literal(x: byte) returns (ok: bool)
      requires Valid()
      modifies this`left, this`whave, this`outs, this`sent, this`made, window
      ensures left <= window.Length && old(Output()).Fits()
      ensures if ok then Valid() && Output() == old(Output()).Put(x)
              else sent <= old(Output()).Put(x).all && Refused()
    {
      hide Valid, Out.Ok, Out.Put;
      Bounds();
      RoomedPut(Output(), x);
      ok := Room();
      if ok {
        Bounds();
        Put(x);
        Bounds();
      }
    }

    /** A string, if it is within reach. */
    method Match(dist: nat, length: nat) returns (good: bool, ok: bool)
      requires Valid() && dist > 0 && length > 0
      modifies this`left, this`whave, this`outs, this`sent, this`made, window
      ensures left <= window.Length && old(Output()).Fits()
      ensures good <==> Accepts(Mark([], old(Output()), Slow), dist)
      ensures !good ==> ok && Valid() && Output() == old(Output())
      ensures good ==>
        if ok then Valid() && Output() == old(Output()).Copied(dist, length)
        else sent <= old(Output()).Copied(dist, length).all && Refused()
    {
      hide Valid, Out.Ok, Out.Copied;
      Bounds();
      Distances(Mark([], Output(), Slow), dist);
      good := Reaches(dist);
      ok := true;
      if good {
        ok := CopyString(dist, length);
        if ok {
          Bounds();
        }
      }
    }

    /** The call of inflate_fast: the output so far is all in the window, until that has been full. */
    method Enter()
      requires Valid() && left > 0
      modifies this`whave
      ensures Valid() && Output() == old(Output()) && whave == if Output().lapped then window.Length else Output().pos
    {
      if whave < window.Length {
        whave := window.Length - left;
      }
    }

    /** A string, in inflate_fast: from the end of the window and then the output, or from the output. */
    method FastString(dist: nat, length: nat) returns (good: bool)
      requires Valid() && dist > 0 && 0 < length <= left
      modifies this`left, this`made, window
      ensures Valid() && sent == old(sent) && old(Output()).Fits()
      ensures good <==> dist <= old(Output()).pos + whave
      ensures Output() == if good then old(Output()).Copied(dist, length) else old(Output())
    {
      hide Valid, Out.Ok, Out.Copied;
      Bounds();
      ghost var o := Output();
      var op := window.Length - left;
      var rest := length;
      good := true;
      if dist > op {
        op := dist - op;
        if op > whave {
          return false;
        }
        var n := if op < length then op else length;
        CopyPiece(dist, window.Length - op, n);
        rest := length - n;
        CopiedSplit(o, dist, n, rest);
      }
      if rest > 0 {
        CopyPiece(dist, window.Length - left - dist, rest);
      } else {
        Bounds();
        CopiedNone(Output(), dist);
      }
    }

    /** Bytes of a stored block, as many as there is room for. */
    method PutAll(data: seq<byte>)
      requires Valid() && |data| <= left
      modifies this`left, this`made, window
      ensures Valid() && left == old(left) - |data| && sent == old(sent)
      ensures old(Output()).Fits() && Output() == old(Output()).PutAll(data)
    {
      hide Valid, Out.Ok;
      Bounds();
      ghost var o := Output();
      var i := 0;
      while i < |data|
        invariant i <= |data| && Valid() && left == old(left) - i && sent == old(sent)
        invariant Output().Fits() && Output().PutAll(data[i..]) == o.PutAll(data)
      {
        Put(data[i]);
        Bounds();
        i := i + 1;
      }
    }

    /** inf_leave: what is left in the window is written out. */
    method Leave() returns (ok: bool)
      requires Valid()
      modifies this`outs, this`sent
      ensures if ok then sent == made else sent == old(sent) < made && Refused()
    {
      ok := true;
      if left < window.Length {
        ok := outs > 0;
        if ok {
          outs, sent := outs - 1, sent + window[..window.Length - left];
        }
      } else {
        assert window[..0] == [];
      }
    }
  }

  // ---------- the codes of a block ----------

  datatype Status = Working | NoInput | NoOutput | Faulty

  /** What a block's codes are found with. */
  datatype CodeTables = CodeTables(lencode: seq<Code>, lenbits: nat, distcode: seq<Code>, distbits: nat)

  ghost predicate TablesOk(t: CodeTables, ll: seq<nat>, dl: seq<nat>) {
    && Decodes(t.lencode, t.lenbits, LENS, ll) && Usable(LENS, ll) && Pow2(t.lenbits) <= |t.lencode|
    && Decodes(t.distcode, t.distbits, DISTS, dl) && Usable(DISTS, dl) && Pow2(t.distbits) <= |t.distcode|
  }

  /** What was read. */
  datatype Got = GotByte(x: byte) | GotString(len: nat, dist: nat) | GotEnd | GotBad | GotShort {

    ghost function With(rest: seq<bool>): Reading {
      match this
      case GotByte(x) => Byte(x, rest)
      case GotString(len, dist) => String(len, dist, rest)
      case GotEnd => End(rest)
      case GotBad => NoSuch
      case GotShort => Short
    }
  }

  /** LEN, a byte at a time: a literal, a string, or the end of the block. */
  method SlowCode(r: Regs, t: CodeTables, ghost ll: seq<nat>, ghost dl: seq<nat>) returns (got: Got, r': Regs)
    requires r.Ok() && r.bits < 8 && TablesOk(t, ll, dl)
    ensures r'.Ok() && r'.input == r.input && ReadingAt(ll, dl, r.Avail()) == got.With(r'.Avail())
    ensures got.GotShort? ==> r'.next == |r'.input|
    ensures !got.GotShort? && !got.GotBad? ==> r'.bits < 8 && r'.Unread() < r.Unread()
  {
    hide ToBits, BytesBits, Decodes, Usable, Pow2, ReadSymbol, ToInt, DistAt, LenIs, ReadingAt, Fetched, Codes,
      Blocks, LenExt;
    assert r.Avail() + [] == r.Avail();
    var more, c;
    more, r', c := StepLen(r, t.lencode, t.lenbits, false, ll, dl, 0, [], []);
    if !more {
      ShortOf(ll, dl, r.Avail());
      return GotShort, r';
    }
    assert r'.Avail() + [] == r'.Avail();
    LenFound(ll, dl, r.Avail(), c, r'.Avail(), 0);
    match c {
      case Literal(x) =>
        got := GotByte(x);
      case EndOfBlock =>
        got := GotEnd;
      case BadLen =>
        got := GotBad;
      case Length(base, extra) =>
        got, r' := SlowPair(r', t, base, extra, ll, dl);
    }
  }

  /** The rest of a string: its length and its distance. */
  method SlowPair(r: Regs, t: CodeTables, base: nat, extra: nat, ghost ll: seq<nat>, ghost dl: seq<nat>)
      returns (got: Got, r': Regs)
    requires r.Ok() && r.bits < 8 && TablesOk(t, ll, dl) && extra <= 5
    ensures r'.Ok() && r'.input == r.input
    ensures got.GotShort? ==> r'.next == |r'.input|
    ensures !got.GotShort? && !got.GotBad? ==> r'.bits < 8 && r'.Unread() < r.Unread()
    ensures got.With(r'.Avail()) ==
            var b := r.Avail();
            if |b| < extra then Short else DistAt(dl, base + ToInt(b[..extra]), b[extra..])
  {
    hide ToBits, BytesBits, Decodes, Usable, Pow2, ReadSymbol, ToInt, DistAt, DistIs, DistFetched, LenExt, Dist,
      DistExt, Match;
    assert r.Avail() + [] == r.Avail();
    var more, length, c, offset;
    more, r', length := StepLenExt(r, base, extra, false, ll, dl, 0, [], []);
    if !more {
      return GotShort, r';
    }
    assert r'.Avail() + [] == r'.Avail();
    ghost var b := r'.Avail();
    more, r', c := StepDist(r', t.distcode, t.distbits, length, false, ll, dl, 0, [], []);
    if !more {
      DistShortOf(dl, length, b);
      return GotShort, r';
    }
    assert r'.Avail() + [] == r'.Avail();
    DistFound(dl, length, b, c, r'.Avail(), 0);
    if c.BadDist? {
      return GotBad, r';
    }
    more, r', offset := StepDistExt(r', length, c.base, c.extra, false, ll, dl, 0, [], []);
    assert r'.Avail() + [] == r'.Avail();
    got := if more then GotString(length, offset) else GotShort;
  }

  /** In inflate_fast: with six bytes of input no end of it need be looked for. */
  method FastCode(r: Regs, t: CodeTables, ghost ll: seq<nat>, ghost dl: seq<nat>)
      returns (got: Got, r': Regs, ghost n: nat)
    requires r.Ok() && r.bits <= 30 && r.next + 6 <= |r.input| && TablesOk(t, ll, dl)
    ensures FastSteps.Spent(r, r', n) && n >= 1 && r'.bits <= 30 && !got.GotShort?
    ensures r'.Ok() && r'.input == r.input && r'.Unread() < r.Unread()
    ensures ReadingAt(ll, dl, r.Avail()) == got.With(r'.Avail())
    ensures r'.next == r.next + Fetched(ll, dl, r.Avail(), r.bits)
    ensures got.GotString? ==> 3 <= got.len <= 258 && 1 <= got.dist
  {
    hide ToBits, BytesBits, Decodes, Usable, Pow2, ReadSymbol, ToInt, DistAt, DistFetched, FastSteps.Spent, LenIs,
      ReadingAt, Fetched, Codes, Blocks, LenExt, Match;
    assert r.Avail() + [] == r.Avail();
    var c;
    r', c, n := FastSteps.FastLen(r, t.lencode, t.lenbits, false, ll, dl, 0, [], []);
    FastSteps.SpentOk(r, r', n);
    assert r'.Avail() + [] == r'.Avail();
    LenFound(ll, dl, r.Avail(), c, r'.Avail(), r.bits);
    match c {
      case Literal(x) =>
        got := GotByte(x);
      case EndOfBlock =>
        got := GotEnd;
      case BadLen =>
        got := GotBad;
      case Length(base, extra) =>
        ghost var r1, n1 := r', n;
        var good, len, dist;
        good, r', len, dist, n := FastSteps.FastPair(r', base, extra, t.distcode, t.distbits, false, ll, dl, 0, [], []);
        FastSteps.SpentOk(r1, r', n);
        FastSteps.SpentTrans(r, r1, r', n1, n);
        n := n1 + n;
        assert r'.Avail() + [] == r'.Avail();
        got := if good then GotString(len, dist) else GotBad;
    }
  }

  /** What was decided, and what it left: f is the fate of the block from where decoding was. */
  ghost predicate Meets(st: Status, f: Fate, b: seq<bool>, out: Out, sent: seq<byte>) {
    match st
    case Working => f == Ends(b, out)
    case NoInput => f == Lacks(out.all)
    case NoOutput => sent <= f.All()
    case Faulty => f == Fails(out.all)
  }

  /** What a code calls for. */
  method UseCode(ring: Ring, got: Got, ghost rest: seq<bool>, pieces: seq<seq<byte>>, ghost ll: seq<nat>,
                 ghost dl: seq<nat>, ghost m: Mark)
      returns (st: Status, over: bool)
    requires ring.Valid() && ring.left <= ring.window.Length && m.out == ring.Output() && m.out.Fits()
    requires m.pace.Slow? && !Ample(pieces, m) && ReadingAt(ll, dl, m.b) == got.With(rest)
    modifies ring, ring.window
    ensures ring.left <= ring.window.Length && (if st == NoOutput then ring.Refused() else ring.Valid())
    ensures st == NoInput <==> got.GotShort?
    ensures st == Working ==> !got.GotBad?
    ensures var turn := Turned(pieces, ll, dl, m);
            if st == Working && !over then turn == Goes(Mark(rest, ring.Output(), Slow))
            else if st == NoOutput then turn.Goes? && ring.sent <= turn.m.out.all
            else turn.Stops? && Meets(st, turn.f, rest, ring.Output(), ring.sent)
  {
    hide Ring.Valid, ReadingAt, Ample, Out.Ok, Out.Copied, Out.Put, Turned, Ring.Output, Ring.Refused, Going;
    TurnedIs(pieces, ll, dl, m);
    GoingSlow(pieces, ll, dl, m);
    st, over := Working, false;
    match got {
      case GotByte(x) =>
        var ok := ring.Literal(x);
        st := if ok then Working else NoOutput;
      case GotEnd =>
        over := true;
      case GotBad =>
        st := Faulty;
      case GotShort =>
        st := NoInput;
      case GotString(len, dist) =>
        var good, ok := ring.Match(dist, len);
        st := if !good then Faulty else if ok then Working else NoOutput;
    }
  }

  /** What is left of a block: its fate is f, and it goes on one code at a time, or it has come to that. */
  ghost predicate Leads(st: Status, over: bool, f: Fate, pieces: seq<seq<byte>>, ll: seq<nat>, dl: seq<nat>,
        b: seq<bool>, out: Out, sent: seq<byte>) {
    if st == Working && !over then out.Fits() && f == Run(pieces, ll, dl, Mark(b, out, Slow))
    else Meets(st, f, b, out, sent)
  }

  /** LEN: one code. */
  method OneCode(ring: Ring, r: Regs, t: CodeTables, pieces: seq<seq<byte>>, ghost ll: seq<nat>, ghost dl: seq<nat>,
                 ghost f: Fate)
      returns (st: Status, r': Regs, over: bool)
    requires ring.Valid() && ring.left <= ring.window.Length && ring.Output().Fits() && TablesOk(t, ll, dl)
    requires r.Ok() && r.bits < 8 && !Ample(pieces, Mark(r.Avail(), ring.Output(), Slow))
    requires f == Run(pieces, ll, dl, Mark(r.Avail(), ring.Output(), Slow))
    modifies ring, ring.window
    ensures r'.Ok() && r'.input == r.input && ring.left <= ring.window.Length &&
            (if st == NoOutput then ring.Refused() else ring.Valid())
    ensures st == Working ==> r'.bits < 8 && r'.Unread() < r.Unread()
    ensures st == NoInput ==> r'.next == |r'.input|
    ensures Leads(st, over, f, pieces, ll, dl, r'.Avail(), ring.Output(), ring.sent)
  {
    hide Ring.Valid, TablesOk, ReadingAt, Ample, Turned, Ring.Output, Ring.Refused, Regs.Ok, Regs.Avail, Out.Fits, Run;
    ghost var m := Mark(r.Avail(), ring.Output(), Slow);
    var got;
    got, r' := SlowCode(r, t, ll, dl);
    st, over := UseCode(ring, got, r'.Avail(), pieces, ll, dl, m);
    RunStep(pieces, ll, dl, m);
    if st == NoOutput {
      RunGrows(pieces, ll, dl, Turned(pieces, ll, dl, m).m);
    }
  }

  /** Where inflate_fast is. */
  ghost function FastMark(ring: Ring, r: Regs, end: nat): (m: Mark)
    requires ring.left <= ring.window.Length && r.Ok()
    reads ring, ring.window
    ensures m.out == ring.Output()
  {
    var pace := if r.next + 6 <= end && ring.left >= 258 then Fast(r.next, end, ring.whave) else Slow;
    Mark(r.Avail(), ring.Output(), pace)
  }

  /** inflate_fast, one code. */
  method FastTurn(ring: Ring, r: Regs, t: CodeTables, pieces: seq<seq<byte>>, end: nat,
                  ghost ll: seq<nat>, ghost dl: seq<nat>)
      returns (st: Status, r': Regs, over: bool, ghost n: nat)
    requires ring.Valid() && ring.left <= ring.window.Length && ring.Output().Fits() && TablesOk(t, ll, dl)
    requires r.Ok() && r.bits <= 30 && r.input == Given(pieces)
    requires ring.left >= 258 && r.next + 6 <= end <= |r.input|
    modifies ring`left, ring`made, ring.window
    ensures ring.Valid() && ring.left <= ring.window.Length
    ensures FastSteps.Spent(r, r', n) && r'.Ok() && r'.bits <= 30 && r'.input == r.input && r'.Unread() < r.Unread()
    ensures var turn := Turned(pieces, ll, dl, old(FastMark(ring, r, end)));
            if st == Working && !over then turn == Goes(FastMark(ring, r', end))
            else (st == Working || st == Faulty) && turn.Stops? &&
                 Meets(st, turn.f, r'.Avail(), ring.Output(), ring.sent)
  {
    hide ToBits, BytesBits, Pow2, Ring.Valid, TablesOk, ReadingAt, Out.Ok, Out.Copied, Out.Put, Turned, Fetched, Given,
      FastSteps.Spent;
    ring.Bounds();
    ghost var m := FastMark(ring, r, end);
    TurnedIs(pieces, ll, dl, m);
    over := false;
    var got;
    got, r', n := FastCode(r, t, ll, dl);
    st := Working;
    match got {
      case GotByte(x) =>
        ring.Put(x);
        ring.Bounds();
      case GotEnd =>
        over := true;
      case GotBad =>
        st := Faulty;
      case GotString(len, dist) =>
        var good := ring.FastString(dist, len);
        ring.Bounds();
        if !good {
          st := Faulty;
        }
    }
  }

  /** The same, for the rest of the block: inflate_fast goes on, or the block leads to where it is. */
  method FastNext(ring: Ring, r: Regs, t: CodeTables, pieces: seq<seq<byte>>, end: nat,
                  ghost ll: seq<nat>, ghost dl: seq<nat>, ghost f: Fate)
      returns (on: bool, st: Status, r': Regs, over: bool, ghost n: nat)
    requires ring.Valid() && ring.left <= ring.window.Length && ring.Output().Fits() && TablesOk(t, ll, dl)
    requires r.Ok() && r.bits <= 30 && r.input == Given(pieces)
    requires ring.left >= 258 && r.next + 6 <= end <= |r.input| && f == Run(pieces, ll, dl, FastMark(ring, r, end))
    modifies ring`left, ring`made, ring.window
    ensures ring.Valid() && ring.left <= ring.window.Length && ring.Output().Fits() && (st == Working || st == Faulty)
    ensures FastSteps.Spent(r, r', n) && r'.Ok() && r'.bits <= 30 && r'.input == r.input && r'.Unread() < r.Unread()
    ensures on ==> ring.left >= 258 && r'.next + 6 <= end && f == Run(pieces, ll, dl, FastMark(ring, r', end))
    ensures !on ==> Leads(st, over, f, pieces, ll, dl, r'.Avail(), ring.Output(), ring.sent)
  {
    hide Ring.Valid, TablesOk, Turned, Run, Given, FastSteps.Spent, Meets, Regs.Ok, Regs.Avail, Out.Ok, Ring.Output;
    RunStep(pieces, ll, dl, FastMark(ring, r, end));
    st, r', over, n := FastTurn(ring, r, t, pieces, end, ll, dl);
    ring.Bounds();
    on := st == Working && !over && r'.next + 6 <= end && ring.left >= 258;
  }

  /** inflate_fast: decodes as long as it safely can, then returns the bytes it did not use. */
  method FastCodes(ring: Ring, r: Regs, t: CodeTables, pieces: seq<seq<byte>>, end: nat,
                   ghost ll: seq<nat>, ghost dl: seq<nat>, ghost f: Fate)
      returns (st: Status, r': Regs, over: bool)
    requires ring.Valid() && ring.left <= ring.window.Length && ring.Output().Fits() && TablesOk(t, ll, dl)
    requires r.Ok() && r.bits < 8 && r.input == Given(pieces)
    requires ring.left >= 258 && r.next + 6 <= end <= |r.input| && f == Run(pieces, ll, dl, FastMark(ring, r, end))
    modifies ring`left, ring`made, ring.window
    ensures ring.Valid() && ring.left <= ring.window.Length
    ensures r'.Ok() && r'.bits < 8 && r'.input == r.input && r'.Unread() < r.Unread()
    ensures st == Working || st == Faulty
    ensures Leads(st, over, f, pieces, ll, dl, r'.Avail(), ring.Output(), ring.sent)
  {
    hide Ring.Valid, TablesOk, Run, Given, FastSteps.Spent, Leads, Regs.Ok, Regs.Avail, Ring.Output, FastMark, Out.Fits;
    InflateFast.SpentNothing(r);
    var q := r;
    ghost var n := 0;
    while true
      invariant ring.Valid() && ring.left <= ring.window.Length && ring.Output().Fits()
      invariant q.Ok() && q.bits <= 30 && q.input == r.input && q.Unread() <= r.Unread()
      invariant FastSteps.Spent(r, q, n)
      invariant ring.left >= 258 && q.next + 6 <= end
      invariant f == Run(pieces, ll, dl, FastMark(ring, q, end))
      decreases q.Unread()
    {
      ghost var q1, n1 := q, 0;
      var on;
      on, st, q, over, n1 := FastNext(ring, q, t, pieces, end, ll, dl, f);
      FastSteps.SpentTrans(r, q1, q, n, n1);
      n := n + n1;
      if !on {
        break;
      }
    }
    r' := InflateFast.GiveBack(q, r, n);
  }

  /** LEN: the call of inflate_fast, where there is enough input in hand and enough room, or one code. */
  method SomeCodes(ring: Ring, r: Regs, t: CodeTables, pieces: seq<seq<byte>>, ghost ll: seq<nat>, ghost dl: seq<nat>,
                   ghost f: Fate)
      returns (st: Status, r': Regs, over: bool)
    requires ring.Valid() && ring.left <= ring.window.Length && ring.Output().Fits() && TablesOk(t, ll, dl)
    requires r.Ok() && r.bits < 8 && r.input == Given(pieces)
    requires f == Run(pieces, ll, dl, Mark(r.Avail(), ring.Output(), Slow))
    modifies ring, ring.window
    ensures r'.Ok() && r'.input == r.input && ring.left <= ring.window.Length &&
            (if st == NoOutput then ring.Refused() else ring.Valid())
    ensures st == Working ==> r'.bits < 8 && r'.Unread() < r.Unread()
    ensures st == NoInput ==> r'.next == |r'.input|
    ensures Leads(st, over, f, pieces, ll, dl, r'.Avail(), ring.Output(), ring.sent)
  {
    hide ToBits, BytesBits, Pow2, Ring.Valid, TablesOk, Turned, Run, Given, Hand, Regs.Ok, Regs.Avail, Out.Ok,
      Ring.Output, Ring.Refused, Ample, Entered, FastMark, Leads, Out.Fits;
    ring.Bounds();
    ghost var m := Mark(r.Avail(), ring.Output(), Slow);
    var have := Hand(pieces, r.next);
    AmpleIs(ring, r, pieces);
    if have >= 6 && ring.left >= 258 {
      ring.Enter();
      RunEnters(pieces, ll, dl, m);
      EnteredIs(ring, r, pieces);
      st, r', over := FastCodes(ring, r, t, pieces, r.next + have, ll, dl, f);
    } else {
      st, r', over := OneCode(ring, r, t, pieces, ll, dl, f);
    }
  }

  lemma AmpleIs(ring: Ring, r: Regs, pieces: seq<seq<byte>>)
    requires ring.left <= ring.window.Length && r.Ok() && r.bits < 8 && r.input == Given(pieces)
    ensures Ample(pieces, Mark(r.Avail(), ring.Output(), Slow)) <==> Hand(pieces, r.next) >= 6 && ring.left >= 258
    ensures BytesRead(pieces, r.Avail()) == r.next
  {
    hide ToBits, BytesBits, Pow2, Given, Hand;
  }

  lemma EnteredIs(ring: Ring, r: Regs, pieces: seq<seq<byte>>)
    requires ring.left <= ring.window.Length && r.Ok() && r.bits < 8 && r.input == Given(pieces)
    requires Ample(pieces, Mark(r.Avail(), ring.Output(), Slow))
    requires ring.whave == if ring.Output().lapped then ring.window.Length else ring.Output().pos
    ensures FastMark(ring, r, r.next + Hand(pieces, r.next)) ==
            var m := Mark(r.Avail(), ring.Output(), Slow); m.(pace := Entered(pieces, m))
  {
    hide ToBits, BytesBits, Pow2, Given, Hand;
    AmpleIs(ring, r, pieces);
  }

  /** The codes of a block, up to its end. */
  method AllCodes(ring: Ring, r: Regs, t: CodeTables, pieces: seq<seq<byte>>, ghost ll: seq<nat>, ghost dl: seq<nat>)
      returns (st: Status, r': Regs)
    requires ring.Valid() && ring.left <= ring.window.Length && ring.Output().Fits() && TablesOk(t, ll, dl)
    requires r.Ok() && r.bits < 8 && r.input == Given(pieces)
    modifies ring, ring.window
    ensures r'.Ok() && r'.input == r.input && ring.left <= ring.window.Length &&
            (if st == NoOutput then ring.Refused() else ring.Valid())
    ensures st == Working ==> r'.bits < 8 && r'.Unread() <= r.Unread()
    ensures st == NoInput ==> r'.next == |r'.input|
    ensures Meets(st, Run(pieces, ll, dl, Mark(r.Avail(), old(ring.Output()), Slow)), r'.Avail(), ring.Output(),
                  ring.sent)
  {
    hide ToBits, BytesBits, Pow2, Ring.Valid, TablesOk, Run, Given, Meets, Regs.Ok, Regs.Avail, Out.Ok, Ring.Output;
    ring.Bounds();
    ghost var f := Run(pieces, ll, dl, Mark(r.Avail(), ring.Output(), Slow));
    r' := r;
    while true
      invariant ring.Valid() && ring.left <= ring.window.Length && ring.Output().Fits()
      invariant r'.Ok() && r'.input == r.input && r'.bits < 8 && r'.Unread() <= r.Unread()
      invariant f == Run(pieces, ll, dl, Mark(r'.Avail(), ring.Output(), Slow))
      decreases r'.Unread()
    {
      var over;
      st, r', over := SomeCodes(ring, r', t, pieces, ll, dl, f);
      if st != Working || over {
        return;
      }
      ring.Bounds();
    }
  }

  // ---------- blocks ----------

  method CopyBytes(r: Regs, length: nat, n: nat) returns (r': Regs, data: seq<byte>)
    requires r.Ok() && r.bits == 0 && length > 0 && n > 0 && r.next < |r.input|
    ensures r'.Ok() && r'.bits == 0 && r'.input == r.input && 0 < |data| <= length && |data| <= n
    ensures r.Avail() == BytesBits(data) + r'.Avail() && r'.Unread() <= r.Unread()
  {
    hide ToBits, BytesBits, Copy, Pow2;
    assert r.Avail() + [] == r.Avail();
    var more;
    more, r', data := StepCopy(r, false, length, n, 0, [], []);
    assert r'.Avail() + [] == r'.Avail();
  }

  /** Stored bytes, as many as there are in hand and fit. */
  method StoredSome(ring: Ring, r: Regs, pieces: seq<seq<byte>>, length: nat, ghost f: Fate)
      returns (r': Regs, n: nat)
    requires ring.Valid() && 0 < ring.left <= ring.window.Length && ring.Output().Fits()
    requires r.Ok() && r.bits == 0 && r.input == Given(pieces) && length > 0 && r.next < |r.input|
    requires f == CopyFate(length, r.Avail(), ring.Output())
    modifies ring`left, ring`made, ring.window
    ensures r'.Ok() && r'.input == r.input && r'.bits == 0 && r'.Unread() <= r.Unread()
    ensures ring.Valid() && ring.left <= ring.window.Length && ring.Output().Fits()
    ensures 0 < n <= length && f == CopyFate(length - n, r'.Avail(), ring.Output())
  {
    hide BytesBits, CopyFate, Ring.Valid, Ring.Output, Regs.Ok, Regs.Avail, Given, Have, Out.Ok, Out.PutAll, Out.Fits;
    ring.Bounds();
    ghost var o := ring.Output();
    var have := Have(pieces, r.next);
    var data;
    r', data := CopyBytes(r, length, if have < ring.left then have else ring.left);
    CopyFateRun(length, data, r'.Avail(), o);
    ring.PutAll(data);
    ring.Bounds();
    n := |data|;
  }

  /** The same, the window being written out first if it is full. */
  method StoredTurn(ring: Ring, r: Regs, pieces: seq<seq<byte>>, length: nat, ghost f: Fate)
      returns (ok: bool, r': Regs, n: nat)
    requires ring.Valid() && ring.left <= ring.window.Length && ring.Output().Fits()
    requires r.Ok() && r.bits == 0 && r.input == Given(pieces) && length > 0 && r.next < |r.input|
    requires f == CopyFate(length, r.Avail(), ring.Output())
    modifies ring, ring.window
    ensures r'.Ok() && r'.input == r.input && r'.bits == 0 && r'.Unread() <= r.Unread()
    ensures ring.left <= ring.window.Length && ring.Output().Fits()
    ensures ok ==> ring.Valid() && 0 < n <= length && f == CopyFate(length - n, r'.Avail(), ring.Output())
    ensures !ok ==> r' == r && ring.Refused() && ring.sent <= f.All()
  {
    hide BytesBits, CopyFate, Ring.Valid, Ring.Refused, Regs.Ok, Regs.Avail, Given, Out.Ok;
    ring.Bounds();
    ghost var o := ring.Output();
    CopyFateRoomed(length, r.Avail(), o);
    CopyGrows(length, r.Avail(), o);
    r', n := r, 0;
    ok := ring.Room();
    if ok {
      r', n := StoredSome(ring, r, pieces, length, f);
    }
  }

  /** The bytes of a stored block. */
  method StoredBytes(ring: Ring, r: Regs, pieces: seq<seq<byte>>, length: nat, ghost f: Fate)
      returns (st: Status, r': Regs)
    requires ring.Valid() && ring.left <= ring.window.Length && ring.Output().Fits()
    requires r.Ok() && r.bits == 0 && r.input == Given(pieces)
    requires f == CopyFate(length, r.Avail(), ring.Output())
    modifies ring, ring.window
    ensures r'.Ok() && r'.input == r.input && ring.left <= ring.window.Length &&
            (if st == NoOutput then ring.Refused() else ring.Valid())
    ensures st == Working ==> r'.bits == 0 && r'.Unread() <= r.Unread()
    ensures st == NoInput ==> r'.next == |r'.input|
    ensures st == NoOutput ==> r'.next < |r'.input|
    ensures Meets(st, f, r'.Avail(), ring.Output(), ring.sent)
  {
    hide BytesBits, CopyFate, Ring.Valid, Given, Out.Ok, Regs.Ok, Ring.Output, Ring.Refused, Out.Fits;
    r' := r;
    var rest: nat := length;
    while rest != 0
      invariant ring.Valid() && ring.left <= ring.window.Length && ring.Output().Fits()
      invariant r'.Ok() && r'.input == r.input && r'.bits == 0 && r'.Unread() <= r.Unread()
      invariant f == CopyFate(rest, r'.Avail(), ring.Output())
      decreases rest
    {
      if r'.next == |r'.input| {
        CopyFateShort(rest, r'.Avail(), ring.Output());
        return NoInput, r';
      }
      var ok, n;
      ok, r', n := StoredTurn(ring, r', pieces, rest, f);
      if !ok {
        return NoOutput, r';
      }
      rest := rest - n;
    }
    CopyFateDone(r'.Avail(), ring.Output());
    st := Working;
  }

  /** The lengths of a stored block. */
  method StoredSizes(r: Regs) returns (more: bool, r': Regs, good: bool, length: nat)
    requires r.Ok() && r.bits < 8
    ensures r'.Ok() && r'.input == r.input
    ensures !more ==> |r.Avail()| < 32 && r'.next == |r'.input|
    ensures more ==> r'.bits == 0 && r'.Unread() < r.Unread() && SizesRead(Align(r.Avail()), good, length, r'.Avail())
  {
    hide ToBits, BytesBits, Pow2, Copy, Stored, Align, SizesRead;
    assert r.Avail() + [] == r.Avail();
    more, r', good, length := StepStored(r, false, 0, [], []);
    assert r'.Avail() + [] == r'.Avail();
  }

  /** STORED: the lengths, and the bytes. */
  method StoredBlock(ring: Ring, r: Regs, pieces: seq<seq<byte>>) returns (st: Status, r': Regs)
    requires ring.Valid() && ring.left <= ring.window.Length && ring.Output().Fits()
    requires r.Ok() && r.bits < 8 && r.input == Given(pieces)
    modifies ring, ring.window
    ensures r'.Ok() && r'.input == r.input && ring.left <= ring.window.Length &&
            (if st == NoOutput then ring.Refused() else ring.Valid())
    ensures st == Working ==> r'.bits < 8 && r'.Unread() < r.Unread()
    ensures st == NoInput ==> r'.next == |r'.input|
    ensures st == NoOutput ==> r'.next < |r'.input|
    ensures Meets(st, StoredFate(r.Avail(), old(ring.Output())), r'.Avail(), ring.Output(), ring.sent)
  {
    hide BytesBits, CopyFate, Ring.Valid, Given, Out.Ok, Regs.Ok, Regs.Avail, Ring.Output, Ring.Refused, Align,
      StoredFate, SizesRead;
    ghost var f := StoredFate(r.Avail(), ring.Output());
    var more, good, length;
    more, r', good, length := StoredSizes(r);
    if !more {
      StoredShort(r.Avail(), ring.Output());
      return NoInput, r';
    }
    StoredIs(r.Avail(), good, length, r'.Avail(), ring.Output());
    if !good {
      return Faulty, r';
    }
    st, r' := StoredBytes(ring, r', pieces, length, f);
  }

  /** TABLE: the header of a dynamic block. */
  method DynamicTables(r: Regs)
      returns (st: Status, r': Regs, t: CodeTables, ghost ll: seq<nat>, ghost dl: seq<nat>)
    requires r.Ok() && r.bits < 8
    ensures r'.Ok() && r'.input == r.input && st != NoOutput
    ensures st == NoInput ==> r'.next == |r'.input| && Open(r.Avail()) == Unready
    ensures st == Faulty ==> Open(r.Avail()) == Refusal
    ensures st == Working ==> r'.bits < 8 && r'.Unread() < r.Unread() && TablesOk(t, ll, dl)
    ensures st == Working ==> Open(r.Avail()) == Opened(ll, dl, r'.Avail())
  {
    hide ToBits, BytesBits, Open, OpenLenLens, OpenLens, Decodes, Usable, Pow2, AllWithin, Placed, Refused, LeanItem,
      Listed;
    st, t, ll, dl := NoInput, CodeTables([], 0, [], 0), [], [];
    assert r.Avail() + [] == r.Avail();
    var more, good, nlen, ndist, ncode;
    more, r', good, nlen, ndist, ncode := StepTable(r, false, 0, [], []);
    if !more {
      return;
    }
    assert r'.Avail() + [] == r'.Avail();
    if !good {
      return Faulty, r', t, ll, dl;
    }
    NothingListed();
    var have, lens;
    more, r', have, lens := StepLenLens(r', false, nlen, ndist, ncode, 0, Repeat(0, 320), 0, [], []);
    assert r'.Avail() + [] == r'.Avail();
    if !more {
      return;
    }
    ghost var got := Listed(lens, ncode);
    lens := ZeroRest(lens, ncode);
    OpenLenLensDone(nlen, ndist, ncode, got, r'.Avail());
    var code, bits;
    good, code, bits := CodeLenTable(lens[..19]);
    if !good {
      return Faulty, r', t, ll, dl;
    }
    st, r', t, ll, dl := CodeLengths(r', code, bits, lens, nlen, ndist, lens[..19]);
  }

  lemma NothingListed()
    ensures |Repeat(0, 320)| == 320 && Listed(Repeat(0, 320), 0) == [] && AllWithin(Listed(Repeat(0, 320), 0), 7)
  {
  }

  lemma OpenLenLensDone(nlen: nat, ndist: nat, ncode: nat, got: seq<nat>, b: seq<bool>)
    requires |got| == ncode && AllWithin(Placed(got), 7)
    ensures OpenLenLens(nlen, ndist, ncode, got, b) ==
            if Refused(CODES, Placed(got)) then Refusal else OpenLens(nlen, ndist, Placed(got), [], b)
  {
    hide OpenLens, Placed, Refused;
  }

  /** The lengths of both codes, and the tables for them. */
  method CodeLengths(r: Regs, code: seq<Code>, bits: nat, lens: seq<nat>, nlen: nat, ndist: nat,
                     ghost cl: seq<nat>)
      returns (st: Status, r': Regs, t: CodeTables, ghost ll: seq<nat>, ghost dl: seq<nat>)
    requires r.Ok() && r.bits < 8 && |lens| == 320 && 257 <= nlen <= 286 && 1 <= ndist <= 30
    requires Decodes(code, bits, CODES, cl) && Usable(CODES, cl)
    ensures r'.Ok() && r'.input == r.input && st != NoOutput && r'.Unread() <= r.Unread()
    ensures st == NoInput ==> r'.next == |r'.input| && OpenLens(nlen, ndist, cl, [], r.Avail()) == Unready
    ensures st == Faulty ==> OpenLens(nlen, ndist, cl, [], r.Avail()) == Refusal
    ensures st == Working ==> r'.bits < 8 && TablesOk(t, ll, dl)
    ensures st == Working ==> OpenLens(nlen, ndist, cl, [], r.Avail()) == Opened(ll, dl, r'.Avail())
  {
    hide ToBits, BytesBits, OpenLens, Decodes, Usable, Pow2, AllWithin, Refused, ItemBits;
    st, t, ll, dl := NoInput, CodeTables([], 0, [], 0), [], [];
    InflateBlocks.TableSize(code, bits, CODES, cl);
    InflateBlocks.NothingSmall();
    assert lens[..0] == [];
    assert r.Avail() + [] == r.Avail();
    var item, have, lens';
    item, r', have, lens' := StepCodeLens(r, code, bits, 0, lens, nlen, ndist, false, cl, 0, [], []);
    assert r'.Avail() + [] == r'.Avail();
    if item == Wanting {
      return;
    }
    if item == Wrong {
      return Faulty, r', t, ll, dl;
    }
    var all := lens'[..nlen + ndist];
    InflateBlocks.SmallValid(all);
    CodeLensDone(0, false, nlen, ndist, cl, all, r'.Avail(), []);
    var good, lencode, lenbits, distcode, distbits := BuildTables(all, nlen);
    if !good {
      return Faulty, r', t, ll, dl;
    }
    ll, dl := all[..nlen], all[nlen..];
    InflateBlocks.TableSize(lencode, lenbits, LENS, ll);
    InflateBlocks.TableSize(distcode, distbits, DISTS, dl);
    st, t := Working, CodeTables(lencode, lenbits, distcode, distbits);
  }

  /** A block with the fixed codes. */
  method FixedBlock(ring: Ring, r: Regs, pieces: seq<seq<byte>>) returns (st: Status, r': Regs)
    requires ring.Valid() && ring.left <= ring.window.Length && ring.Output().Fits()
    requires r.Ok() && r.bits < 8 && r.input == Given(pieces)
    modifies ring, ring.window
    ensures r'.Ok() && r'.input == r.input && ring.left <= ring.window.Length &&
            (if st == NoOutput then ring.Refused() else ring.Valid())
    ensures st == Working ==> r'.bits < 8 && r'.Unread() <= r.Unread()
    ensures st == NoInput ==> r'.next == |r'.input|
    ensures Meets(st, Run(pieces, FIXED_LENS, FIXED_DISTS, Mark(r.Avail(), old(ring.Output()), Slow)), r'.Avail(),
                  ring.Output(), ring.sent)
  {
    hide Run, Ring.Valid, Ring.Output, Decodes, Usable, Pow2, FIXED_LENS, FIXED_DISTS, Given, Out.Ok, Meets, Regs.Ok,
      Regs.Avail, Ring.Refused;
    var lencode, lenbits, distcode, distbits := Fixed.FixedTables();
    InflateBlocks.TableSize(lencode, lenbits, LENS, FIXED_LENS);
    InflateBlocks.TableSize(distcode, distbits, DISTS, FIXED_DISTS);
    var t := CodeTables(lencode, lenbits, distcode, distbits);
    st, r' := AllCodes(ring, r, t, pieces, FIXED_LENS, FIXED_DISTS);
  }

  /** A block with codes of its own. */
  method DynamicBlock(ring: Ring, r: Regs, pieces: seq<seq<byte>>) returns (st: Status, r': Regs)
    requires ring.Valid() && ring.left <= ring.window.Length && ring.Output().Fits()
    requires r.Ok() && r.bits < 8 && r.input == Given(pieces)
    modifies ring, ring.window
    ensures r'.Ok() && r'.input == r.input && ring.left <= ring.window.Length &&
            (if st == NoOutput then ring.Refused() else ring.Valid())
    ensures st == Working ==> r'.bits < 8 && r'.Unread() <= r.Unread()
    ensures st == NoInput ==> r'.next == |r'.input|
    ensures Meets(st, DynamicFate(pieces, r.Avail(), old(ring.Output())), r'.Avail(), ring.Output(), ring.sent)
  {
    hide Run, Ring.Valid, Ring.Output, Pow2, Given, Out.Ok, Regs.Ok, Regs.Avail, Ring.Refused, Open, TablesOk,
      DynamicFate;
    ring.Bounds();
    ghost var f := DynamicFate(pieces, r.Avail(), ring.Output());
    OpeningFate(pieces, r.Avail(), ring.Output());
    var t;
    ghost var ll, dl;
    st, r', t, ll, dl := DynamicTables(r);
    if st != Working {
      assert Meets(st, f, r'.Avail(), ring.Output(), ring.sent);
    } else {
      assert f == Run(pieces, ll, dl, Mark(r'.Avail(), ring.Output(), Slow));
      st, r' := AllCodes(ring, r', t, pieces, ll, dl);
    }
  }

  /** A block, whatever its kind. */
  method OneBlock(ring: Ring, r: Regs, pieces: seq<seq<byte>>, to: Next) returns (st: Status, r': Regs)
    requires ring.Valid() && ring.left <= ring.window.Length && ring.Output().Fits()
    requires r.Ok() && r.bits < 8 && r.input == Given(pieces) && to != Trailer
    modifies ring, ring.window
    ensures r'.Ok() && r'.input == r.input && ring.left <= ring.window.Length &&
            (if st == NoOutput then ring.Refused() else ring.Valid())
    ensures st == Working ==> r'.bits < 8 && r'.Unread() <= r.Unread()
    ensures st == NoInput ==> r'.next == |r'.input|
    ensures st == NoOutput && to == ToStored ==> r'.next < |r'.input|
    ensures Meets(st, BlockFate(pieces, to, r.Avail(), old(ring.Output())), r'.Avail(), ring.Output(), ring.sent)
  {
    hide Run, StoredFate, DynamicFate, Ring.Valid, Ring.Output, Pow2, FIXED_LENS, FIXED_DISTS, Given, Out.Ok, Regs.Ok,
      Regs.Avail, Ring.Refused;
    r' := r;
    match to {
      case ToStored =>
        st, r' := StoredBlock(ring, r, pieces);
      case ToFixed =>
        st, r' := FixedBlock(ring, r, pieces);
      case ToDynamic =>
        st, r' := DynamicBlock(ring, r, pieces);
      case Invalid =>
        ring.Bounds();
        st := Faulty;
    }
  }

  datatype Ret = STREAM_END | BUF_ERROR | DATA_ERROR

  function RetOf(x: Outcome): Ret {
    if x.Finished? then STREAM_END else if x.Starved? then BUF_ERROR else DATA_ERROR
  }

  /** The window at the beginning. */
  function Fresh(window: seq<byte>): Out {
    Out([], window, 0, false)
  }

  /** How the blocks end: x is what the stream comes to. */
  ghost predicate Concludes(st: Status, x: Outcome, b: seq<bool>, made: seq<byte>, sent: seq<byte>) {
    match st
    case Working => x == Finished(made, b)
    case NoInput => x == Starved(made)
    case NoOutput => !x.NeedsDict? && sent <= x.out
    case Faulty => x == Corrupt(made)
  }

  /** TYPE: the three bits that begin a block, or the end of the last one. */
  method OneType(r: Regs, last: bool) returns (more: bool, r': Regs, last': bool, to: Next)
    requires r.Ok() && r.bits < 8
    ensures r'.Ok() && r'.input == r.input && r'.bits < 8
    ensures !more ==> !last && |r.Avail()| < 3 && r'.next == |r'.input|
    ensures more && last ==> to == Trailer && r'.bits == 0 && r'.Avail() == Align(r.Avail())
    ensures more && !last ==> to != Trailer && r'.Unread() < r.Unread() && TypeRead(r.Avail(), last', to, r'.Avail())
  {
    hide BytesBits, ToBits, Pow2, Blocks, Stored, Codes, Dynamic, Align, FIXED_LENS, FIXED_DISTS, ToInt;
    assert r.Avail() + [] == r.Avail();
    more, r', last', to := StepType(r, last, 0, [], []);
    assert r'.Avail() + [] == r'.Avail();
    assert more && !last ==> to == KindOf(r.Avail());
  }

  /** All blocks.  A byte is wanted when in() has been asked for one that was not read. */
  method AllBlocks(ring: Ring, pieces: seq<seq<byte>>) returns (st: Status, r: Regs, wanted: bool)
    requires ring.Valid() && ring.left <= ring.window.Length && ring.Output().Fits()
    modifies ring, ring.window
    ensures r.Ok() && r.input == Given(pieces) && (if st == NoOutput then ring.Refused() else ring.Valid())
    ensures st == Working ==> r.bits == 0
    ensures wanted && r.next == |r.input| <==> st == NoInput
    ensures wanted ==> st == NoInput || st == NoOutput
    ensures Concludes(st, Stream(pieces, false, BytesBits(Given(pieces)), old(ring.Output())), r.Avail(), ring.made,
                      ring.sent)
  {
    hide BytesBits, ToBits, Ring.Valid, Ring.Output, Ring.Refused, Out.Ok, Pow2, Given, BlockFate, Stream, KindOf,
      Align, Regs.Ok, Regs.Avail;
    ring.Bounds();
    ghost var x := Stream(pieces, false, BytesBits(Given(pieces)), ring.Output());
    r, st, wanted := Regs(Given(pieces), 0, 0, 0), Working, false;
    var last := false;
    NoBits(Given(pieces));
    while true
      invariant ring.Valid() && ring.left <= ring.window.Length && ring.Output().Fits() && st == Working && !wanted
      invariant r.Ok() && r.input == Given(pieces) && r.bits < 8
      invariant x == Stream(pieces, last, r.Avail(), ring.Output())
      decreases r.Unread()
    {
      ring.Bounds();
      ghost var b, o := r.Avail(), ring.Output();
      StreamStep(pieces, last, b, o);
      var more, to;
      more, r, last, to := OneType(r, last);
      if !more {
        return NoInput, r, true;
      }
      if to == Trailer {
        return;
      }
      st, r := OneBlock(ring, r, pieces, to);
      StreamAfter(pieces, b, o);
      if st != NoOutput {
        ring.Bounds();
      }
      if st != Working {
        wanted := st == NoInput || (st == NoOutput && to == ToStored);
        return;
      }
    }
  }

  /** A block that ends leaves at least its output. */
  lemma StreamAfter(pieces: seq<seq<byte>>, b: seq<bool>, o: Out)
    requires o.Fits() && |b| >= 3
    ensures BlockFate(pieces, KindOf(b), b[3..], o).All() <= Stream(pieces, false, b, o).out
  {
    hide BlockFate, KindOf, Stream;
    StreamStep(pieces, false, b, o);
    var f := BlockFate(pieces, KindOf(b), b[3..], o);
    if f.Ends? {
      StreamGrows(pieces, b[0], f.b, f.out);
    }
  }

  lemma NoBits(input: seq<byte>)
    ensures Regs(input, 0, 0, 0).Ok() && Regs(input, 0, 0, 0).Avail() == BytesBits(input)
  {
    assert input[0..] == input;
  }

  lemma NoHeld(r: Regs)
    requires r.Ok() && r.bits == 0
    ensures r.Avail() == BytesBits(r.input[r.next..])
  {
  }

  /** What was returned and written is what the outcome v calls for. */
  predicate Decoded(v: Outcome, ret: Ret, sent: seq<byte>) {
    !v.NeedsDict? && ret == RetOf(v) && sent == v.out
  }

  /**
   inflateBack: what it writes and returns is what Stream says, unless out() fails, and then a beginning of it.  That is
   what the format says the input decodes to, a distance beyond the window being an error, just if nothing goes astray
   in inflate_fast.  rest is next_in and avail_in at the end: null if in() was called and gave nothing, otherwise the
   unread part of the last piece; in() is called no sooner than a byte is wanted.
   */
  method InflateBack(window: array<byte>, pieces: seq<seq<byte>>, takes: nat)
      returns (ret: Ret, sent: seq<byte>, rest: Option<seq<byte>>, calls: nat, failed: bool)
    requires window.Length > 0
    modifies window
    ensures var b, o := BytesBits(Given(pieces)), Fresh(old(window[..]));
            var x := Stream(pieces, false, b, o);
            if failed then ret != STREAM_END && sent <= x.out && takes <= |sent|
            else
              && ret == RetOf(x) && sent == x.out && (ret == BUF_ERROR ==> rest == None)
              && (x.Finished? ==> rest.Some? && x.rest == BytesBits(rest.value + Later(Unasked(pieces, calls))))
    ensures var b, o := BytesBits(Given(pieces)), Fresh(old(window[..]));
            var v := Blocks(window.Length, false, b, []);
            && (!failed ==> (Decoded(v, ret, sent) <==> !Astray(pieces, false, b, o)))
            && (failed && !Astray(pieces, false, b, o) ==> Extends(window.Length, v, sent))
            && (v.Finished? || v.Starved? ==> !Astray(pieces, false, b, o))
    ensures rest == None ==> ret == BUF_ERROR && calls == CallsToEnd(if pieces == [] then [] else pieces[1..])
    ensures rest.Some? && calls > 0 ==>
      && calls < |pieces| && |rest.value| <= |pieces[calls]| && (!failed ==> |rest.value| < |pieces[calls]|)
      && rest.value == pieces[calls][|pieces[calls]| - |rest.value|..]
  {
    hide Blocks, BytesBits, ToBits, Extends, Ring.Valid, Pow2, Given, Later, CallsToEnd, Stream, Astray, Ring.Output,
      Out.Ok;
    ghost var o := Fresh(window[..]);
    var ring := new Ring(window, takes);
    ring.Bounds();
    var st, r, wanted := AllBlocks(ring, pieces);
    calls, rest := InHand(pieces, r.next, wanted);
    ret := match st case Working => STREAM_END case Faulty => DATA_ERROR case _ => BUF_ERROR;
    failed := st == NoOutput;
    if st == Working {
      NoHeld(r);
    }
    if !failed {
      var ok := ring.Leave();
      if !ok {
        failed := true;
        if ret == STREAM_END {
          ret := BUF_ERROR;
        }
      }
    }
    sent := ring.sent;
    Faithful(window.Length, pieces, o, sent);
  }

  /** What StreamFaithful says of a whole stream. */
  lemma Faithful(w: nat, pieces: seq<seq<byte>>, o: Out, sent: seq<byte>)
    requires 0 < w == |o.win| && o == Fresh(o.win)
    ensures o.Fits()
    ensures var b := BytesBits(Given(pieces));
            var x, v := Stream(pieces, false, b, o), Blocks(w, false, b, []);
            && !v.NeedsDict?
            && (RetOf(x) == RetOf(v) && x.out == v.out && (x.Finished? ==> x == v) <==> !Astray(pieces, false, b, o))
            && (Astray(pieces, false, b, o) ==> (v.Corrupt? || v.Beyond?) && x.out != v.out)
            && (!Astray(pieces, false, b, o) && sent <= x.out ==> Extends(w, v, sent))
  {
    hide Blocks, BytesBits, Given, Stream, Astray;
    var b := BytesBits(Given(pieces));
    FreshOk(o);
    StreamFaithful(w, pieces, false, b, o);
    BlocksExtends(w, false, b, []);
  }

  lemma FreshOk(o: Out)
    requires 0 < |o.win| && o == Fresh(o.win)
    ensures o.Ok()
  {
  }
}
