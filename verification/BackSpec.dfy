/**
 inflateBack as a function of its input: what it writes and how it ends, byte for byte, also where it takes strings
 from outside the output.  And when it decodes as the format says: just if no string that inflate_fast takes reaches
 beyond the output or the window.
 */
module BackSpec {
  import opened Bits
  import opened Lz77
  import opened Rfc1951
  import opened InflateSteps
  import opened Openings
  import opened Readings
  import opened InflateBlocks
  import opened BackInput

  // ---------- the window ----------

  /** All output, and the window it goes through: pos is where the next byte goes. */
  datatype Out = Out(all: seq<byte>, win: seq<byte>, pos: nat, lapped: bool) {

    ghost predicate Fits() {
      0 < |win| && pos <= |win|
    }

    /** The window holds the end of the output. */
    ghost predicate Ok() {
      && Fits() && pos <= |all| && win[..pos] == all[|all| - pos..]
      && if !lapped then |all| == pos
         else |all| >= |win| + pos && win[pos..] == all[|all| - |win|..|all| - pos]
    }

    /** ROOM. */
    function Roomed(): Out {
      if pos == |win| then Out(all, win, 0, true) else this
    }

    function Put(x: byte): Out
      requires Fits()
    {
      var r := Roomed();
      Out(all + [x], r.win[r.pos := x], r.pos + 1, r.lapped)
    }

    /** Where the byte dist places back is looked for. */
    function From(dist: nat): nat {
      if dist <= pos then pos - dist else if dist <= pos + |win| then pos + |win| - dist else 0
    }

    function Back(dist: nat): byte
      requires Fits() && dist > 0
    {
      var r := Roomed();
      r.win[r.From(dist)]
    }

    function Copied(dist: nat, len: nat): (r: Out)
      requires Fits() && dist > 0
      ensures r.Fits() && |r.win| == |win| && |r.all| == |all| + len
      decreases len
    {
      if len == 0 then this else Put(Back(dist)).Copied(dist, len - 1)
    }

    function PutAll(data: seq<byte>): (r: Out)
      requires Fits()
      ensures r.Fits() && |r.win| == |win| && r.all == all + data
      decreases |data|
    {
      if data == [] then this else Put(data[0]).PutAll(data[1..])
    }
  }

  lemma RoomedOk(o: Out)
    requires o.Ok()
    ensures o.Roomed().Ok() && o.Roomed().pos < |o.win|
  {
    if o.pos == |o.win| {
      assert o.win[..o.pos] == o.win && o.win[..0] == [] && o.win[0..] == o.win;
    }
  }

  lemma PutOk(o: Out, x: byte)
    requires o.Ok()
    ensures o.Put(x).Ok()
  {
    hide Out.Ok;
    RoomedOk(o);
    PutRoomed(o.Roomed(), x);
  }

  lemma PutRoomed(o: Out, x: byte)
    requires o.Ok() && o.pos < |o.win|
    ensures o.Put(x).Ok()
  {
    var r := o.Put(x);
    assert r.win[..r.pos] == o.win[..o.pos] + [x];
    assert r.win[r.pos..] == o.win[o.pos..][1..];
  }

  /** Equal parts have equal bytes. */
  lemma PartAt(a: seq<byte>, i: nat, j: nat, b: seq<byte>, k: nat, l: nat, n: nat)
    requires i <= j <= |a| && k <= l <= |b| && a[i..j] == b[k..l] && n < j - i
    ensures k + n < l && a[i + n] == b[k + n]
  {
    assert a[i..j][n] == b[k..l][n];
  }

  /** What Ok says of the two parts of the window. */
  lemma WindowParts(o: Out)
    requires o.Ok() && o.pos < |o.win|
    ensures var n, w := |o.all|, |o.win|;
            && o.pos <= n && o.win[0..o.pos] == o.all[n - o.pos..n]
            && (n > o.pos ==> n - o.pos >= w && o.win[o.pos..w] == o.all[n - w..n - o.pos])
  {
    var n, w := |o.all|, |o.win|;
    assert o.win[0..o.pos] == o.win[..o.pos] && o.all[n - o.pos..n] == o.all[n - o.pos..];
    assert o.win[o.pos..w] == o.win[o.pos..];
  }

  /** A distance within the output and the window finds the byte it means. */
  lemma FromIs(o: Out, dist: nat)
    requires o.Ok() && o.pos < |o.win| && 1 <= dist <= |o.all| && dist <= |o.win|
    ensures o.From(dist) < |o.win| && o.win[o.From(dist)] == o.all[|o.all| - dist]
  {
    hide Out.Ok;
    WindowParts(o);
    var n, w := |o.all|, |o.win|;
    if dist <= o.pos {
      PartAt(o.win, 0, o.pos, o.all, n - o.pos, n, o.pos - dist);
    } else {
      PartAt(o.win, o.pos, w, o.all, n - w, n - o.pos, w - dist);
    }
  }

  lemma OkFits(o: Out)
    requires o.Ok()
    ensures o.Fits()
  {
  }

  lemma BackIs(o: Out, dist: nat)
    requires o.Ok() && 1 <= dist <= |o.all| && dist <= |o.win|
    ensures o.Back(dist) == o.all[|o.all| - dist]
  {
    hide Out.Ok;
    RoomedOk(o);
    OkFits(o);
    FromIs(o.Roomed(), dist);
  }

  lemma {:induction false} CopiedOk(o: Out, dist: nat, len: nat)
    requires o.Ok() && dist > 0
    ensures o.Copied(dist, len).Ok()
    ensures dist <= |o.all| && dist <= |o.win| ==> o.Copied(dist, len).all == CopyMatch(o.all, dist, len)
    decreases len
  {
    hide Out.Ok, Out.Back;
    OkFits(o);
    if len > 0 {
      var x := o.Back(dist);
      PutOk(o, x);
      CopiedOk(o.Put(x), dist, len - 1);
      if dist <= |o.all| && dist <= |o.win| {
        BackIs(o, dist);
      }
    }
  }

  lemma CopiedNone(o: Out, dist: nat)
    requires o.Fits() && dist > 0
    ensures o.Copied(dist, 0) == o
  {
  }

  lemma CopiedFirst(o: Out, dist: nat, n: nat)
    requires o.Fits() && dist > 0 && n > 0
    ensures o.Put(o.Back(dist)).Fits() && o.Copied(dist, n) == o.Put(o.Back(dist)).Copied(dist, n - 1)
  {
  }

  lemma {:induction false} CopiedGrows(o: Out, dist: nat, len: nat)
    requires o.Fits() && dist > 0
    ensures o.all <= o.Copied(dist, len).all
    decreases len
  {
    hide Out.Back;
    if len > 0 {
      CopiedGrows(o.Put(o.Back(dist)), dist, len - 1);
    }
  }

  /** A string may be copied in pieces. */
  lemma {:induction false} CopiedSplit(o: Out, dist: nat, m: nat, n: nat)
    requires o.Fits() && dist > 0
    ensures o.Copied(dist, m + n) == o.Copied(dist, m).Copied(dist, n)
    decreases m
  {
    hide Out.Back;
    if m > 0 {
      CopiedSplit(o.Put(o.Back(dist)), dist, m - 1, n);
    }
  }

  lemma RoomedPut(o: Out, x: byte)
    requires o.Fits()
    ensures o.Roomed().Fits() && o.Roomed().Put(x) == o.Put(x) && o.Put(x).all == o.all + [x]
  {
  }

  lemma RoomedCopied(o: Out, dist: nat, len: nat)
    requires o.Fits() && dist > 0 && len > 0
    ensures o.Roomed().Copied(dist, len) == o.Copied(dist, len)
  {
    assert o.Roomed().Put(o.Back(dist)) == o.Put(o.Back(dist));
  }

  // ---------- the codes of a block ----------

  /** How codes are read: one at a time, or by inflate_fast, with what it has fetched and may use. */
  datatype Pace = Slow | Fast(next: nat, end: nat, whave: nat)

  /** A point in a block: the bits left, the output, and how codes are read. */
  datatype Mark = Mark(b: seq<bool>, out: Out, pace: Pace)

  /** How a block ends: regularly, for want of input, or with an error. */
  datatype Fate = Ends(b: seq<bool>, out: Out) | Lacks(sofar: seq<byte>) | Fails(sofar: seq<byte>) {

    function All(): seq<byte> {
      if Ends? then out.all else sofar
    }
  }

  datatype Turn = Goes(m: Mark) | Stops(f: Fate)

  /** Bytes read, when less than a byte of them is held. */
  function BytesRead(pieces: seq<seq<byte>>, b: seq<bool>): int {
    |Given(pieces)| - |b| / 8
  }

  /** LEN: there is enough input in hand, and enough room, to call inflate_fast. */
  predicate Ample(pieces: seq<seq<byte>>, m: Mark) {
    BytesRead(pieces, m.b) >= 0 && Hand(pieces, BytesRead(pieces, m.b)) >= 6 && |m.out.win| - m.out.pos >= 258
  }

  /** The call: whave becomes the output there is, until the window has been full. */
  function Entered(pieces: seq<seq<byte>>, m: Mark): Pace
    requires Ample(pieces, m)
  {
    var n := BytesRead(pieces, m.b);
    Fast(n, n + Hand(pieces, n), if m.out.lapped then |m.out.win| else m.out.pos)
  }

  /** The test of a distance. */
  predicate Accepts(m: Mark, dist: nat) {
    if m.pace.Slow? then dist <= (if m.out.lapped then |m.out.win| else m.out.pos)
    else dist <= m.out.pos + m.pace.whave
  }

  /** inflate_fast goes on while there are six bytes of input and room for 258 of output. */
  ghost function Going(pieces: seq<seq<byte>>, ll: seq<nat>, dl: seq<nat>, m: Mark, out: Out): Pace {
    if m.pace.Slow? then Slow
    else
      var next := m.pace.next + Fetched(ll, dl, m.b, |m.b| - 8 * (|Given(pieces)| - m.pace.next));
      if next + 6 <= m.pace.end && |out.win| - out.pos >= 258 then m.pace.(next := next) else Slow
  }

  /** One code, or the call of inflate_fast. */
  ghost function Turned(pieces: seq<seq<byte>>, ll: seq<nat>, dl: seq<nat>, m: Mark): (r: Turn)
    requires m.out.Fits()
    ensures r.Goes? ==> r.m.out.Fits() && |r.m.out.win| == |m.out.win|
    ensures r.Goes? ==> |r.m.b| < |m.b| || (r.m.b == m.b && m.pace.Slow? && r.m.pace.Fast?)
    ensures r.Stops? ==> r.f.All() == m.out.all
    ensures r.Stops? && r.f.Ends? ==> r.f.out == m.out && |r.f.b| < |m.b|
  {
    if m.pace.Slow? && Ample(pieces, m) then Goes(m.(pace := Entered(pieces, m)))
    else
      var a := ReadingAt(ll, dl, m.b);
      ReadingBounds(ll, dl, m.b);
      if a.Short? then Stops(Lacks(m.out.all))
      else if a.NoSuch? then Stops(Fails(m.out.all))
      else if a.End? then Stops(Ends(a.rest, m.out))
      else if a.String? && !Accepts(m, a.dist) then Stops(Fails(m.out.all))
      else
        var out := if a.Byte? then m.out.Put(a.x) else m.out.Copied(a.dist, a.len);
        Goes(Mark(a.rest, out, Going(pieces, ll, dl, m, out)))
  }

  /** One code, whichever way it is read. */
  lemma TurnedIs(pieces: seq<seq<byte>>, ll: seq<nat>, dl: seq<nat>, m: Mark)
    requires m.out.Fits() && (m.pace.Slow? ==> !Ample(pieces, m))
    ensures var a, t := ReadingAt(ll, dl, m.b), Turned(pieces, ll, dl, m);
            && (a.String? ==> a.len >= 3 && a.dist >= 1)
            && t == if a.Short? then Stops(Lacks(m.out.all))
                    else if a.NoSuch? then Stops(Fails(m.out.all))
                    else if a.End? then Stops(Ends(a.rest, m.out))
                    else if a.Byte? then
                      Goes(Mark(a.rest, m.out.Put(a.x), Going(pieces, ll, dl, m, m.out.Put(a.x))))
                    else if !Accepts(m, a.dist) then Stops(Fails(m.out.all))
                    else
                      var out := m.out.Copied(a.dist, a.len);
                      Goes(Mark(a.rest, out, Going(pieces, ll, dl, m, out)))
  {
    hide ReadingAt, Accepts, Going, Ample, Out.Copied, Out.Put;
    ReadingBounds(ll, dl, m.b);
  }

  lemma GoingSlow(pieces: seq<seq<byte>>, ll: seq<nat>, dl: seq<nat>, m: Mark)
    requires m.pace.Slow?
    ensures forall out :: Going(pieces, ll, dl, m, out) == Slow
  {
  }

  ghost function Run(pieces: seq<seq<byte>>, ll: seq<nat>, dl: seq<nat>, m: Mark): (r: Fate)
    requires m.out.Fits()
    ensures r.Ends? ==> r.out.Fits() && |r.out.win| == |m.out.win| && |r.b| < |m.b|
    decreases |m.b|, if m.pace.Slow? then 1 else 0
  {
    var t := Turned(pieces, ll, dl, m);
    if t.Stops? then t.f else Run(pieces, ll, dl, t.m)
  }

  /** Nothing written is taken back. */
  lemma {:induction false} RunGrows(pieces: seq<seq<byte>>, ll: seq<nat>, dl: seq<nat>, m: Mark)
    requires m.out.Fits()
    ensures m.out.all <= Run(pieces, ll, dl, m).All()
    decreases |m.b|, if m.pace.Slow? then 1 else 0
  {
    hide Turned;
    var t := Turned(pieces, ll, dl, m);
    if t.Goes? {
      TurnGrows(pieces, ll, dl, m);
      RunGrows(pieces, ll, dl, t.m);
    }
  }

  lemma TurnGrows(pieces: seq<seq<byte>>, ll: seq<nat>, dl: seq<nat>, m: Mark)
    requires m.out.Fits() && Turned(pieces, ll, dl, m).Goes?
    ensures m.out.all <= Turned(pieces, ll, dl, m).m.out.all
  {
    hide ReadingAt, Out.Copied, Accepts, Going, Ample;
    var a := ReadingAt(ll, dl, m.b);
    ReadingBounds(ll, dl, m.b);
    if a.String? {
      CopiedGrows(m.out, a.dist, a.len);
    }
  }

  lemma RunStep(pieces: seq<seq<byte>>, ll: seq<nat>, dl: seq<nat>, m: Mark)
    requires m.out.Fits()
    ensures var t := Turned(pieces, ll, dl, m);
            Run(pieces, ll, dl, m) == if t.Stops? then t.f else Run(pieces, ll, dl, t.m)
  {
  }

  lemma RunEnters(pieces: seq<seq<byte>>, ll: seq<nat>, dl: seq<nat>, m: Mark)
    requires m.out.Fits() && m.pace.Slow? && Ample(pieces, m)
    ensures Run(pieces, ll, dl, m) == Run(pieces, ll, dl, m.(pace := Entered(pieces, m)))
  {
  }

  // ---------- strings from outside ----------

  /** A distance beyond the output, or beyond the window. */
  predicate TooFar(out: Out, dist: nat) {
    dist > |out.all| || dist > |out.win|
  }

  /** The next code is a string from too far back, and inflate_fast takes it. */
  ghost predicate StraysHere(ll: seq<nat>, dl: seq<nat>, m: Mark) {
    var a := ReadingAt(ll, dl, m.b);
    m.pace.Fast? && a.String? && Accepts(m, a.dist) && TooFar(m.out, a.dist)
  }

  ghost predicate Strays(pieces: seq<seq<byte>>, ll: seq<nat>, dl: seq<nat>, m: Mark)
    requires m.out.Fits()
    decreases |m.b|, if m.pace.Slow? then 1 else 0
  {
    var t := Turned(pieces, ll, dl, m);
    StraysHere(ll, dl, m) || (t.Goes? && Strays(pieces, ll, dl, t.m))
  }

  /** The output is in order, and inflate_fast knows how much there is. */
  ghost predicate Sound(m: Mark) {
    && m.out.Ok()
    && (m.pace.Fast? ==> |m.out.win| - m.out.pos >= 258 &&
                         if m.out.lapped then m.pace.whave == |m.out.win| else m.pace.whave <= m.out.pos)
  }

  /** What fate v, the outcome the format has, amounts to. */
  ghost predicate Agrees(w: nat, last: bool, f: Fate, v: Outcome) {
    match f
    case Ends(b, out) => out.Ok() && v == Blocks(w, last, b, out.all)
    case Lacks(all) => v == Starved(all)
    case Fails(all) => v == Corrupt(all) || v == Beyond(all)
  }

  /** The format refuses what f goes on with. */
  ghost predicate Exceeds(f: Fate, v: Outcome) {
    (v.Corrupt? || v.Beyond?) && v.out < f.All()
  }

  lemma {:induction false} CopiedStays(o: Out, dist: nat, len: nat)
    requires o.Fits() && dist > 0 && o.pos + len <= |o.win|
    ensures o.Copied(dist, len).pos == o.pos + len && o.Copied(dist, len).lapped == o.lapped
    decreases len
  {
    hide Out.Back;
    if len > 0 {
      CopiedStays(o.Put(o.Back(dist)), dist, len - 1);
    }
  }

  /** One code keeps the window in order. */
  lemma TurnSound(pieces: seq<seq<byte>>, ll: seq<nat>, dl: seq<nat>, m: Mark)
    requires Sound(m)
    ensures m.out.Fits()
    ensures var t := Turned(pieces, ll, dl, m); t.Goes? ==> Sound(t.m)
  {
    hide Out.Ok, ReadingAt, Fetched, Hand, Given, Out.Back;
    OkFits(m.out);
    var a := ReadingAt(ll, dl, m.b);
    ReadingBounds(ll, dl, m.b);
    if a.Byte? {
      PutOk(m.out, a.x);
    } else if a.String? {
      CopiedOk(m.out, a.dist, a.len);
      if m.pace.Fast? {
        CopiedStays(m.out, a.dist, a.len);
      }
    }
  }

  /** What the tests of distances come to. */
  lemma Distances(m: Mark, dist: nat)
    requires Sound(m)
    ensures m.pace.Slow? ==> (Accepts(m, dist) <==> !TooFar(m.out, dist))
    ensures m.pace.Fast? ==> (!TooFar(m.out, dist) ==> Accepts(m, dist))
  {
  }

  /** One code, in order: the format has the same rest. */
  lemma TurnAgrees(w: nat, last: bool, pieces: seq<seq<byte>>, ll: seq<nat>, dl: seq<nat>, m: Mark)
    requires Sound(m) && w == |m.out.win| && !StraysHere(ll, dl, m)
    ensures m.out.Fits()
    ensures var t, v := Turned(pieces, ll, dl, m), Codes(w, last, ll, dl, m.b, m.out.all);
            if t.Stops? then Agrees(w, last, t.f, v) else v == Codes(w, last, ll, dl, t.m.b, t.m.out.all)
  {
    hide Out.Ok, Codes, Blocks, ReadingAt, Fetched, Hand, Given, Accepts, Out.Copied, Out.Back, CopyMatch;
    OkFits(m.out);
    var a := ReadingAt(ll, dl, m.b);
    ReadingBounds(ll, dl, m.b);
    CodesReading(w, last, ll, dl, m.b, m.out.all);
    if a.String? {
      Distances(m, a.dist);
      CopiedOk(m.out, a.dist, a.len);
    }
  }

  /** One code from outside: the format stops here. */
  lemma TurnExceeds(w: nat, last: bool, pieces: seq<seq<byte>>, ll: seq<nat>, dl: seq<nat>, m: Mark)
    requires Sound(m) && w == |m.out.win| && StraysHere(ll, dl, m)
    ensures m.out.Fits()
    ensures var t, v := Turned(pieces, ll, dl, m), Codes(w, last, ll, dl, m.b, m.out.all);
            t.Goes? && m.out.all < t.m.out.all && (v == Corrupt(m.out.all) || v == Beyond(m.out.all))
  {
    hide Out.Ok, Codes, Blocks, ReadingAt, Fetched, Hand, Given, Accepts, Out.Copied, CopyMatch;
    OkFits(m.out);
    ReadingBounds(ll, dl, m.b);
    CopiedGrows(m.out, ReadingAt(ll, dl, m.b).dist, ReadingAt(ll, dl, m.b).len);
    CodesReading(w, last, ll, dl, m.b, m.out.all);
  }

  /** The codes of a block are what the format says, just if none of them strays. */
  lemma {:induction false} RunFaithful(w: nat, last: bool, pieces: seq<seq<byte>>, ll: seq<nat>, dl: seq<nat>, m: Mark)
    requires Sound(m) && w == |m.out.win|
    ensures m.out.Fits()
    ensures var f, v := Run(pieces, ll, dl, m), Codes(w, last, ll, dl, m.b, m.out.all);
            if Strays(pieces, ll, dl, m) then Exceeds(f, v) else Agrees(w, last, f, v)
    ensures var f := Run(pieces, ll, dl, m); f.Ends? ==> f.out.Ok()
    decreases |m.b|, if m.pace.Slow? then 1 else 0
  {
    hide Turned, Codes, Blocks, StraysHere, Out.Ok;
    SoundFits(m);
    var t := Turned(pieces, ll, dl, m);
    TurnSound(pieces, ll, dl, m);
    if StraysHere(ll, dl, m) {
      TurnExceeds(w, last, pieces, ll, dl, m);
    } else {
      TurnAgrees(w, last, pieces, ll, dl, m);
    }
    if t.Goes? {
      RunGrows(pieces, ll, dl, t.m);
      TurnGrows(pieces, ll, dl, m);
      RunFaithful(w, last, pieces, ll, dl, t.m);
    }
  }

  lemma SoundFits(m: Mark)
    requires Sound(m)
    ensures m.out.Fits() && m.out.Ok()
  {
  }

  // ---------- blocks ----------

  ghost function CopyFate(len: nat, b: seq<bool>, out: Out): (r: Fate)
    requires out.Fits()
    ensures r.Ends? ==> r.out.Fits() && |r.out.win| == |out.win| && |r.b| <= |b|
    decreases len
  {
    if len == 0 then Ends(b, out)
    else if |b| < 8 then Lacks(out.all)
    else
      ToBitsToInt(b[..8]);
      CopyFate(len - 1, b[8..], out.Put(ToInt(b[..8])))
  }

  ghost function StoredFate(b: seq<bool>, out: Out): (r: Fate)
    requires out.Fits()
    ensures r.Ends? ==> r.out.Fits() && |r.out.win| == |out.win| && |r.b| <= |b|
  {
    var a := Align(b);
    if |a| < 32 then Lacks(out.all)
    else if ToInt(a[..16]) + ToInt(a[16..32]) != 0xffff then Fails(out.all)
    else CopyFate(ToInt(a[..16]), a[32..], out)
  }

  lemma StoredShort(b: seq<bool>, out: Out)
    requires out.Fits() && |b| < 32
    ensures StoredFate(b, out) == Lacks(out.all)
  {
  }

  lemma StoredIs(b: seq<bool>, good: bool, length: nat, rest: seq<bool>, out: Out)
    requires out.Fits() && SizesRead(Align(b), good, length, rest)
    ensures StoredFate(b, out) == if good then CopyFate(length, rest, out) else Fails(out.all)
  {
    hide CopyFate, ToInt;
  }

  lemma {:induction false} CopyGrows(len: nat, b: seq<bool>, out: Out)
    requires out.Fits()
    ensures out.all <= CopyFate(len, b, out).All()
    decreases len
  {
    hide ToInt;
    if len > 0 && |b| >= 8 {
      ToBitsToInt(b[..8]);
      CopyGrows(len - 1, b[8..], out.Put(ToInt(b[..8])));
    }
  }

  lemma CopyFateDone(b: seq<bool>, out: Out)
    requires out.Fits()
    ensures CopyFate(0, b, out) == Ends(b, out)
  {
  }

  lemma CopyFateShort(len: nat, b: seq<bool>, out: Out)
    requires out.Fits() && len > 0 && |b| < 8
    ensures CopyFate(len, b, out) == Lacks(out.all)
  {
  }

  lemma CopyFateRoomed(len: nat, b: seq<bool>, out: Out)
    requires out.Fits() && len > 0 && |b| >= 8
    ensures out.Roomed().Fits() && CopyFate(len, b, out.Roomed()) == CopyFate(len, b, out)
  {
    hide ToInt;
    ToBitsToInt(b[..8]);
    RoomedPut(out, ToInt(b[..8]));
  }

  /** Stored bytes, any number at a time. */
  lemma {:induction false} CopyFateRun(len: nat, d: seq<byte>, rest: seq<bool>, out: Out)
    requires out.Fits() && |d| <= len
    ensures CopyFate(len, BytesBits(d) + rest, out) == CopyFate(len - |d|, rest, out.PutAll(d))
    decreases |d|
  {
    hide ToBits, ToInt, Out.Put;
    if d == [] {
      assert BytesBits(d) + rest == rest;
    } else {
      var b := BytesBits(d) + rest;
      assert b[..8] == ToBits(d[0], 8) && b[8..] == BytesBits(d[1..]) + rest;
      ToIntToBits(d[0], 8);
      assert Pow2(8) == 256;
      LowOfSmall(d[0], 8);
      RoomedPut(out, d[0]);
      PutFits(out, d[0]);
      CopyFateRun(len - 1, d[1..], rest, out.Put(d[0]));
    }
  }

  lemma PutFits(out: Out, x: byte)
    requires out.Fits()
    ensures out.Put(x).Fits() && |out.Put(x).win| == |out.win|
  {
  }

  ghost function DynamicFate(pieces: seq<seq<byte>>, b: seq<bool>, out: Out): (r: Fate)
    requires out.Fits()
    ensures r.Ends? ==> r.out.Fits() && |r.out.win| == |out.win| && |r.b| <= |b|
  {
    DynamicOpens(0, false, b, []);
    var a := Open(b);
    if a.Unready? then Lacks(out.all)
    else if a.Refusal? then Fails(out.all)
    else Run(pieces, a.ll, a.dl, Mark(a.rest, out, Slow))
  }

  lemma OpeningFate(pieces: seq<seq<byte>>, b: seq<bool>, out: Out)
    requires out.Fits()
    ensures DynamicFate(pieces, b, out) ==
            var a := Open(b);
            if a.Unready? then Lacks(out.all)
            else if a.Refusal? then Fails(out.all) else Run(pieces, a.ll, a.dl, Mark(a.rest, out, Slow))
  {
    hide Open, Run;
  }

  /** What a block of the kind to comes to. */
  ghost function BlockFate(pieces: seq<seq<byte>>, to: Next, b: seq<bool>, out: Out): (r: Fate)
    requires out.Fits()
    ensures r.Ends? ==> r.out.Fits() && |r.out.win| == |out.win| && |r.b| <= |b|
  {
    if to.ToStored? then StoredFate(b, out)
    else if to.ToFixed? then Run(pieces, FIXED_LENS, FIXED_DISTS, Mark(b, out, Slow))
    else if to.ToDynamic? then DynamicFate(pieces, b, out)
    else Fails(out.all)
  }

  ghost predicate BlockStrays(pieces: seq<seq<byte>>, to: Next, b: seq<bool>, out: Out)
    requires out.Fits()
  {
    if to.ToFixed? then Strays(pieces, FIXED_LENS, FIXED_DISTS, Mark(b, out, Slow))
    else
      var a := Open(b);
      to.ToDynamic? && a.Opened? && Strays(pieces, a.ll, a.dl, Mark(a.rest, out, Slow))
  }

  /** What inflateBack makes of a stream. */
  ghost function Stream(pieces: seq<seq<byte>>, last: bool, b: seq<bool>, out: Out): (x: Outcome)
    requires out.Fits()
    ensures x.Finished? || x.Starved? || x.Corrupt?
    decreases |b|
  {
    if last then Finished(out.all, Align(b))
    else if |b| < 3 then Starved(out.all)
    else
      var f := BlockFate(pieces, KindOf(b), b[3..], out);
      if f.Lacks? then Starved(f.sofar)
      else if f.Fails? then Corrupt(f.sofar)
      else Stream(pieces, b[0], f.b, f.out)
  }

  lemma BlockGrows(pieces: seq<seq<byte>>, to: Next, b: seq<bool>, out: Out)
    requires out.Fits()
    ensures out.all <= BlockFate(pieces, to, b, out).All()
  {
    hide Run, Open, CopyFate, ToInt, FIXED_LENS, FIXED_DISTS, Align;
    var a := Align(b);
    if to.ToStored? && |a| >= 32 {
      CopyGrows(ToInt(a[..16]), a[32..], out);
    } else if to.ToFixed? {
      RunGrows(pieces, FIXED_LENS, FIXED_DISTS, Mark(b, out, Slow));
    } else if to.ToDynamic? && Open(b).Opened? {
      RunGrows(pieces, Open(b).ll, Open(b).dl, Mark(Open(b).rest, out, Slow));
    }
  }

  lemma {:induction false} StreamGrows(pieces: seq<seq<byte>>, last: bool, b: seq<bool>, out: Out)
    requires out.Fits()
    ensures out.all <= Stream(pieces, last, b, out).out
    decreases |b|
  {
    hide BlockFate, KindOf, Align;
    if !last && |b| >= 3 {
      BlockGrows(pieces, KindOf(b), b[3..], out);
      var f := BlockFate(pieces, KindOf(b), b[3..], out);
      if f.Ends? {
        StreamGrows(pieces, b[0], f.b, f.out);
      }
    }
  }

  lemma StreamStep(pieces: seq<seq<byte>>, last: bool, b: seq<bool>, out: Out)
    requires out.Fits()
    ensures last ==> Stream(pieces, last, b, out) == Finished(out.all, Align(b))
    ensures !last && |b| < 3 ==> Stream(pieces, last, b, out) == Starved(out.all)
    ensures !last && |b| >= 3 ==>
      Stream(pieces, last, b, out) ==
      var f := BlockFate(pieces, KindOf(b), b[3..], out);
      if f.Lacks? then Starved(f.sofar) else if f.Fails? then Corrupt(f.sofar) else Stream(pieces, b[0], f.b, f.out)
  {
    hide BlockFate, KindOf, Align;
  }

  /** Some string that inflate_fast takes lies beyond the output or the window. */
  ghost predicate Astray(pieces: seq<seq<byte>>, last: bool, b: seq<bool>, out: Out)
    requires out.Fits()
    decreases |b|
  {
    && !last && |b| >= 3
    && (BlockStrays(pieces, KindOf(b), b[3..], out) ||
        var f := BlockFate(pieces, KindOf(b), b[3..], out);
        f.Ends? && Astray(pieces, b[0], f.b, f.out))
  }

  /** inflateBack tells a distance beyond the window as one beyond the output: both are data errors. */
  function Told(v: Outcome): Outcome {
    if v.Beyond? then Corrupt(v.out) else v
  }

  lemma {:induction false} CopyAgrees(w: nat, last: bool, len: nat, b: seq<bool>, out: Out)
    requires out.Ok()
    ensures out.Fits() && Agrees(w, last, CopyFate(len, b, out), Copy(w, last, len, b, out.all))
    decreases len
  {
    hide Out.Ok, Blocks, ToInt;
    OkFits(out);
    if len > 0 && |b| >= 8 {
      ToBitsToInt(b[..8]);
      PutOk(out, ToInt(b[..8]));
      CopyAgrees(w, last, len - 1, b[8..], out.Put(ToInt(b[..8])));
    }
  }

  lemma BlockFaithful(w: nat, last: bool, pieces: seq<seq<byte>>, to: Next, b: seq<bool>, out: Out)
    requires out.Ok() && w == |out.win| && to != Trailer
    ensures out.Fits()
    ensures var f, v := BlockFate(pieces, to, b, out), AfterType(to, w, last, b, out.all);
            if BlockStrays(pieces, to, b, out) then Exceeds(f, v) else Agrees(w, last, f, v)
    ensures var f := BlockFate(pieces, to, b, out); f.Ends? ==> f.out.Ok()
  {
    hide Out.Ok, Blocks, ToInt, Codes, Run, Strays, Copy, CopyFate, Dynamic, Open, FIXED_LENS, FIXED_DISTS;
    OkFits(out);
    if to.ToStored? {
      var a := Align(b);
      if |a| >= 32 {
        CopyAgrees(w, last, ToInt(a[..16]), a[32..], out);
      }
    } else if to.ToFixed? {
      RunFaithful(w, last, pieces, FIXED_LENS, FIXED_DISTS, Mark(b, out, Slow));
    } else if to.ToDynamic? {
      DynamicOpens(w, last, b, out.all);
      var a := Open(b);
      if a.Opened? {
        RunFaithful(w, last, pieces, a.ll, a.dl, Mark(a.rest, out, Slow));
      }
    }
  }

  lemma KindIs(w: nat, b: seq<bool>, o: seq<byte>)
    requires |b| >= 3
    ensures Blocks(w, false, b, o) == AfterType(KindOf(b), w, b[0], b[3..], o)
  {
    hide Stored, Codes, Dynamic, ToInt;
  }

  /**
   inflateBack decodes as the format says just if nothing strays; if something does, it goes on where the format has an
   error.
   */
  lemma {:induction false} StreamFaithful(w: nat, pieces: seq<seq<byte>>, last: bool, b: seq<bool>, out: Out)
    requires out.Ok() && w == |out.win|
    ensures out.Fits()
    ensures var x, v := Stream(pieces, last, b, out), Blocks(w, last, b, out.all);
            && (x == Told(v) <==> !Astray(pieces, last, b, out))
            && (Astray(pieces, last, b, out) ==> (v.Corrupt? || v.Beyond?) && v.out < x.out)
    decreases |b|
  {
    hide Out.Ok, ToInt, BlockFate, BlockStrays, AfterType, Stored, Codes, Dynamic, KindOf;
    OkFits(out);
    if !last && |b| >= 3 {
      KindIs(w, b, out.all);
      KindNot(b);
      BlockFaithful(w, b[0], pieces, KindOf(b), b[3..], out);
      var f := BlockFate(pieces, KindOf(b), b[3..], out);
      if f.Ends? {
        StreamGrows(pieces, b[0], f.b, f.out);
        StreamFaithful(w, pieces, b[0], f.b, f.out);
      }
    }
  }

  lemma KindNot(b: seq<bool>)
    requires |b| >= 3
    ensures KindOf(b) != Trailer
  {
  }

  // ---------- when nothing strays ----------

  /** inflate_fast is never called. */
  ghost predicate Unhurried(pieces: seq<seq<byte>>, w: nat) {
    w < 258 || forall i :: 0 <= i < |pieces| ==> |pieces[i]| < 6
  }

  lemma NotAmple(pieces: seq<seq<byte>>, m: Mark)
    requires Unhurried(pieces, |m.out.win|)
    ensures !Ample(pieces, m)
  {
    hide Given, Hand;
    var n := BytesRead(pieces, m.b);
    if n >= 0 && |m.out.win| >= 258 {
      HandWithin(pieces, n, 5);
    }
  }

  lemma {:induction false} RunUnhurried(pieces: seq<seq<byte>>, ll: seq<nat>, dl: seq<nat>, m: Mark)
    requires m.out.Fits() && m.pace.Slow? && Unhurried(pieces, |m.out.win|)
    ensures !Strays(pieces, ll, dl, m)
    ensures var f := Run(pieces, ll, dl, m); f.Ends? ==> |f.out.win| == |m.out.win|
    decreases |m.b|
  {
    hide Unhurried, ReadingAt, Ample, Accepts, Out.Copied, Out.Put;
    NotAmple(pieces, m);
    var t := Turned(pieces, ll, dl, m);
    if t.Goes? {
      RunUnhurried(pieces, ll, dl, t.m);
    }
  }

  /** With pieces shorter than six bytes, or a window of 256, every stream is decoded as the format says. */
  lemma {:induction false} UnhurriedFaithful(pieces: seq<seq<byte>>, last: bool, b: seq<bool>, out: Out)
    requires out.Fits() && Unhurried(pieces, |out.win|)
    ensures !Astray(pieces, last, b, out)
    decreases |b|
  {
    hide Unhurried, Run, Strays, Open, KindOf, StoredFate, FIXED_LENS, FIXED_DISTS;
    if !last && |b| >= 3 {
      RunUnhurried(pieces, FIXED_LENS, FIXED_DISTS, Mark(b[3..], out, Slow));
      var a := Open(b[3..]);
      if a.Opened? {
        RunUnhurried(pieces, a.ll, a.dl, Mark(a.rest, out, Slow));
      }
      var f := BlockFate(pieces, KindOf(b), b[3..], out);
      if f.Ends? {
        UnhurriedFaithful(pieces, b[0], f.b, f.out);
      }
    }
  }

  /** A stream that is as it should be, or the beginning of one, is decoded as the format says. */
  lemma RegularFaithful(w: nat, pieces: seq<seq<byte>>, last: bool, b: seq<bool>, out: Out)
    requires out.Ok() && w == |out.win|
    requires var v := Blocks(w, last, b, out.all); v.Finished? || v.Starved?
    ensures out.Fits() && Stream(pieces, last, b, out) == Blocks(w, last, b, out.all)
  {
    hide Blocks, Stream, Astray;
    StreamFaithful(w, pieces, last, b, out);
  }

  // ---------- when something does ----------

  /**
   A block that begins with a string from before all output, but no more than once again as far back, when there is
   input and room enough to call inflate_fast: the string is taken from the end of the window, which nothing was
   written to.
   */
  lemma EarlyStrays(pieces: seq<seq<byte>>, ll: seq<nat>, dl: seq<nat>, m: Mark)
    requires m.out.Ok() && m.pace.Slow? && Ample(pieces, m) && !m.out.lapped
    requires var a := ReadingAt(ll, dl, m.b); a.String? && m.out.pos < a.dist <= 2 * m.out.pos
    ensures m.out.Fits() && Strays(pieces, ll, dl, m)
    ensures var a := ReadingAt(ll, dl, m.b);
            m.out.Copied(a.dist, a.len).all <= Run(pieces, ll, dl, m).All()
  {
    hide ReadingAt, Out.Copied, Out.Put, Fetched, Ample, Hand, Given;
    var t := Turned(pieces, ll, dl, m);
    assert t == Goes(m.(pace := Entered(pieces, m)));
    assert StraysHere(ll, dl, t.m);
    var t2 := Turned(pieces, ll, dl, t.m);
    assert Run(pieces, ll, dl, m) == Run(pieces, ll, dl, t.m) == Run(pieces, ll, dl, t2.m);
    RunGrows(pieces, ll, dl, t2.m);
  }

  /** Later, in a window below 32K: a distance beyond the window, but not by more than pos, is taken for one less. */
  lemma LaterStrays(pieces: seq<seq<byte>>, ll: seq<nat>, dl: seq<nat>, m: Mark)
    requires m.out.Ok() && m.pace.Slow? && Ample(pieces, m) && m.out.lapped
    requires var a := ReadingAt(ll, dl, m.b); a.String? && |m.out.win| < a.dist <= |m.out.win| + m.out.pos
    ensures m.out.Fits() && Strays(pieces, ll, dl, m)
    ensures var a := ReadingAt(ll, dl, m.b);
            m.out.Back(a.dist) == m.out.all[|m.out.all| - (a.dist - |m.out.win|)]
  {
    hide ReadingAt, Out.Copied, Out.Put, Fetched, Ample, Hand, Given;
    var a := ReadingAt(ll, dl, m.b);
    var t := Turned(pieces, ll, dl, m);
    assert t == Goes(m.(pace := Entered(pieces, m)));
    assert StraysHere(ll, dl, t.m);
    AmpleRoom(pieces, m);
    FromIs(m.out, a.dist - |m.out.win|);
  }

  lemma AmpleRoom(pieces: seq<seq<byte>>, m: Mark)
    requires Ample(pieces, m)
    ensures |m.out.win| - m.out.pos >= 258
  {
  }

  // ---------- what straying depends on ----------

  /** The same but for the bytes. */
  predicate Alike(a: Out, b: Out) {
    |a.all| == |b.all| && |a.win| == |b.win| && a.pos == b.pos && a.lapped == b.lapped
  }

  predicate AlikeFates(f: Fate, g: Fate) {
    match f
    case Ends(b, out) => g.Ends? && g.b == b && Alike(out, g.out)
    case Lacks(_) => g.Lacks?
    case Fails(_) => g.Fails?
  }

  lemma {:induction false} CopiedAlike(a: Out, b: Out, dist: nat, len: nat)
    requires a.Fits() && Alike(a, b) && dist > 0
    ensures b.Fits() && Alike(a.Copied(dist, len), b.Copied(dist, len))
    decreases len
  {
    hide Out.Back;
    if len > 0 {
      CopiedAlike(a.Put(a.Back(dist)), b.Put(b.Back(dist)), dist, len - 1);
    }
  }

  lemma TurnAlike(pieces: seq<seq<byte>>, ll: seq<nat>, dl: seq<nat>, m: Mark, o: Out)
    requires m.out.Fits() && Alike(m.out, o)
    ensures o.Fits() && (StraysHere(ll, dl, m) <==> StraysHere(ll, dl, m.(out := o)))
    ensures var t, u := Turned(pieces, ll, dl, m), Turned(pieces, ll, dl, m.(out := o));
            if t.Stops? then u.Stops? && AlikeFates(t.f, u.f)
            else u.Goes? && u.m == t.m.(out := u.m.out) && Alike(t.m.out, u.m.out)
  {
    hide ReadingAt, Out.Copied, Fetched, Given, Hand;
    var a := ReadingAt(ll, dl, m.b);
    ReadingBounds(ll, dl, m.b);
    if a.String? {
      CopiedAlike(m.out, o, a.dist, a.len);
    }
  }

  lemma {:induction false} RunAlike(pieces: seq<seq<byte>>, ll: seq<nat>, dl: seq<nat>, m: Mark, o: Out)
    requires m.out.Fits() && Alike(m.out, o)
    ensures o.Fits() && (Strays(pieces, ll, dl, m) <==> Strays(pieces, ll, dl, m.(out := o)))
    ensures AlikeFates(Run(pieces, ll, dl, m), Run(pieces, ll, dl, m.(out := o)))
    decreases |m.b|, if m.pace.Slow? then 1 else 0
  {
    hide Turned, StraysHere, Alike;
    TurnAlike(pieces, ll, dl, m, o);
    var t, u := Turned(pieces, ll, dl, m), Turned(pieces, ll, dl, m.(out := o));
    if t.Goes? {
      RunAlike(pieces, ll, dl, t.m, u.m.out);
    }
  }

  lemma {:induction false} CopyAlike(len: nat, b: seq<bool>, out: Out, o: Out)
    requires out.Fits() && Alike(out, o)
    ensures o.Fits() && AlikeFates(CopyFate(len, b, out), CopyFate(len, b, o))
    decreases len
  {
    hide ToInt;
    if len > 0 && |b| >= 8 {
      ToBitsToInt(b[..8]);
      CopyAlike(len - 1, b[8..], out.Put(ToInt(b[..8])), o.Put(ToInt(b[..8])));
    }
  }

  lemma BlockAlike(pieces: seq<seq<byte>>, to: Next, b: seq<bool>, out: Out, o: Out)
    requires out.Fits() && Alike(out, o)
    ensures o.Fits() && (BlockStrays(pieces, to, b, out) <==> BlockStrays(pieces, to, b, o))
    ensures AlikeFates(BlockFate(pieces, to, b, out), BlockFate(pieces, to, b, o))
  {
    hide Run, Strays, Open, CopyFate, ToInt, FIXED_LENS, FIXED_DISTS, Align;
    var a := Align(b);
    if to.ToStored? && |a| >= 32 {
      CopyAlike(ToInt(a[..16]), a[32..], out, o);
    } else if to.ToFixed? {
      RunAlike(pieces, FIXED_LENS, FIXED_DISTS, Mark(b, out, Slow), o);
    } else if to.ToDynamic? && Open(b).Opened? {
      RunAlike(pieces, Open(b).ll, Open(b).dl, Mark(Open(b).rest, out, Slow), o);
    }
  }

  /** Whether something goes astray depends on the stream, how it is divided, and the size of the window only. */
  lemma {:induction false} AstrayAlike(pieces: seq<seq<byte>>, last: bool, b: seq<bool>, out: Out, o: Out)
    requires out.Fits() && Alike(out, o)
    ensures o.Fits() && (Astray(pieces, last, b, out) <==> Astray(pieces, last, b, o))
    decreases |b|
  {
    hide BlockFate, BlockStrays, KindOf, Alike;
    AlikeFits(out, o);
    if !last && |b| >= 3 {
      BlockAlike(pieces, KindOf(b), b[3..], out, o);
      var f, g := BlockFate(pieces, KindOf(b), b[3..], out), BlockFate(pieces, KindOf(b), b[3..], o);
      if f.Ends? {
        AstrayAlike(pieces, b[0], f.b, f.out, g.out);
      }
    }
  }

  lemma AlikeFits(a: Out, b: Out)
    requires a.Fits() && Alike(a, b)
    ensures b.Fits()
  {
  }
}
