/**
 A stream of thirteen bytes that inflateBack decodes in two ways, depending on how in() divides it: a literal in one
 block, and in the next a string from two bytes back.
 */
module BackFindings {
  import opened Bits
  import opened Canonical
  import opened Rfc1951
  import opened Encoding
  import opened InflateSteps
  import opened Readings
  import opened BackInput
  import opened BackSpec
  import BlockSpec
  import StaticTrees
  import InflateBack

  const STREAM: seq<byte> := [0x4a, 4, 12, 8, 1, 0, 0, 0, 0, 0, 0, 0, 0]

  // ---------- the fixed codes ----------

  lemma {:induction false} CountAdd(a: seq<nat>, x: nat, n: nat, l: nat)
    ensures Count(a + Repeat(x, n), l) == Count(a, l) + if x == l then n else 0
    decreases n
  {
    if n == 0 {
      assert a + Repeat(x, n) == a;
    } else {
      assert (a + Repeat(x, n))[..|a| + n - 1] == a + Repeat(x, n - 1);
      CountAdd(a, x, n - 1, l);
    }
  }

  lemma CountFixed(l: nat)
    ensures Count(FIXED_LENS, l) == if l == 7 then 24 else if l == 8 then 152 else if l == 9 then 112 else 0
  {
    hide Count, Repeat;
    var a := Repeat(8, 144);
    assert [] + a == a;
    assert Count([], l) == 0 by {
      NoneCounted(l);
    }
    CountAdd([], 8, 144, l);
    CountAdd(a, 9, 112, l);
    CountAdd(a + Repeat(9, 112), 7, 24, l);
    CountAdd(a + Repeat(9, 112) + Repeat(7, 24), 8, 8, l);
  }

  lemma NoneCounted(l: nat)
    ensures Count([], l) == 0
  {
  }

  lemma {:induction false} NextFixed(l: nat)
    requires l <= 7
    ensures NextCode(FIXED_LENS, l) == 0
  {
    hide FIXED_LENS, Count;
    if l > 0 {
      NextFixed(l - 1);
      CountFixed(l - 1);
    }
  }

  /** The codes of the letter a, of the end of a block, and of the length three. */
  lemma FixedCodes()
    ensures |FIXED_LENS| == 288 && FIXED_LENS[97] == 8 && FIXED_LENS[256] == 7 && FIXED_LENS[257] == 7
    ensures CodeOf(FIXED_LENS, 97) == 145 && CodeOf(FIXED_LENS, 256) == 0 && CodeOf(FIXED_LENS, 257) == 1
  {
    hide Count;
    NextFixed(7);
    CountFixed(7);
    assert NextCode(FIXED_LENS, 8) == 48;
    NoneCounted(7);
    NoneCounted(8);
    assert FIXED_LENS[..97] == [] + Repeat(8, 97);
    CountAdd([], 8, 97, 8);
    var a := Repeat(8, 144);
    assert [] + a == a;
    CountAdd([], 8, 144, 7);
    CountAdd(a, 9, 112, 7);
    assert FIXED_LENS[..256] == a + Repeat(9, 112);
    CountAdd(a + Repeat(9, 112), 7, 1, 7);
    assert FIXED_LENS[..257] == a + Repeat(9, 112) + Repeat(7, 1);
  }

  // ---------- the bits ----------

  ghost const A := CodeBits(FIXED_LENS, 97)
  ghost const END := CodeBits(FIXED_LENS, 256)
  ghost const THREE := CodeBits(FIXED_LENS, 257)
  ghost const TWO_BACK := CodeBits(FIXED_DISTS, 1)
  ghost const ZEROS := BytesBits(STREAM[5..])

  ghost const SECOND := THREE + (TWO_BACK + (END + ZEROS))
  ghost const FIRST := A + (END + ([true, true, false] + SECOND))

  lemma MsbOf(c: nat, n: nat)
    requires n > 0
    ensures MsbBits(c, n) == MsbBits(c / 2, n - 1) + [c % 2 == 1]
    ensures MsbBits(c, 0) == []
  {
    hide Bit;
    var r := MsbBits(c / 2, n - 1) + [c % 2 == 1];
    forall i | 0 <= i < n ensures MsbBits(c, n)[i] == r[i] {
      BitDown(c, n - 1 - i);
    }
  }

  lemma BitDown(c: nat, k: nat)
    ensures Bit(c, k) == if k == 0 then c % 2 == 1 else Bit(c / 2, k - 1)
  {
  }

  lemma CodesAre()
    ensures A == [true, false, false, true, false, false, false, true]
    ensures END == [false, false, false, false, false, false, false]
    ensures THREE == [false, false, false, false, false, false, true]
    ensures TWO_BACK == [false, false, false, false, true]
  {
    hide CodeOf, MsbBits, FIXED_LENS, FIXED_DISTS;
    FixedCodes();
    StaticTrees.FlatCode(32, 1);
    DistLens();
    MsbOf(145, 8);
    MsbOf(72, 7);
    MsbOf(36, 6);
    MsbOf(18, 5);
    MsbOf(9, 4);
    MsbOf(4, 3);
    MsbOf(2, 2);
    MsbOf(1, 1);
    MsbOf(1, 7);
    MsbOf(1, 5);
    MsbOf(0, 7);
    MsbOf(0, 6);
    MsbOf(0, 5);
    MsbOf(0, 4);
    MsbOf(0, 3);
    MsbOf(0, 2);
    MsbOf(0, 1);
  }

  lemma DistLens()
    ensures FIXED_DISTS == Repeat(5, 32) && FIXED_DISTS[1] == 5
  {
  }

  lemma LsbOf(h: nat, n: nat)
    requires n > 0
    ensures ToBits(h, n) == [h % 2 == 1] + ToBits(h / 2, n - 1)
    ensures ToBits(h, 0) == []
  {
    ToBitsTail(h, n);
  }

  lemma BytesAre()
    ensures ToBits(0x4a, 8) == [false, true, false, true, false, false, true, false]
    ensures ToBits(4, 8) == [false, false, true, false, false, false, false, false]
    ensures ToBits(12, 8) == [false, false, true, true, false, false, false, false]
    ensures ToBits(8, 8) == [false, false, false, true, false, false, false, false]
    ensures ToBits(1, 8) == [true, false, false, false, false, false, false, false]
  {
    hide ToBits;
    LsbOf(0x4a, 8);
    LsbOf(37, 7);
    LsbOf(18, 6);
    LsbOf(9, 5);
    LsbOf(4, 4);
    LsbOf(2, 3);
    LsbOf(1, 2);
    LsbOf(0, 1);
    LsbOf(4, 8);
    LsbOf(2, 7);
    LsbOf(1, 6);
    LsbOf(0, 5);
    LsbOf(0, 4);
    LsbOf(0, 3);
    LsbOf(0, 2);
    LsbOf(12, 8);
    LsbOf(6, 7);
    LsbOf(3, 6);
    LsbOf(1, 5);
    LsbOf(8, 8);
    LsbOf(4, 7);
    LsbOf(2, 6);
    LsbOf(1, 8);
    LsbOf(0, 7);
    LsbOf(0, 6);
  }

  lemma OneByte(x: byte, rest: seq<byte>)
    ensures BytesBits([x] + rest) == ToBits(x, 8) + BytesBits(rest)
  {
    hide ToBits;
    assert ([x] + rest)[1..] == rest;
  }

  lemma FiveBytes(rest: seq<byte>)
    ensures BytesBits([0x4a, 4, 12, 8, 1] + rest) ==
            ToBits(0x4a, 8) + (ToBits(4, 8) + (ToBits(12, 8) + (ToBits(8, 8) + (ToBits(1, 8) + BytesBits(rest)))))
  {
    hide ToBits, BytesBits;
    assert [0x4a, 4, 12, 8, 1] + rest == [0x4a] + ([4] + ([12] + ([8] + ([1] + rest))));
    OneByte(0x4a, [4] + ([12] + ([8] + ([1] + rest))));
    OneByte(4, [12] + ([8] + ([1] + rest)));
    OneByte(12, [8] + ([1] + rest));
    OneByte(8, [1] + rest);
    OneByte(1, rest);
  }

  /** The stream: two blocks, and bytes that are not part of it. */
  lemma StreamBits()
    ensures BytesBits(STREAM) == [false, true, false] + FIRST && |BytesBits(STREAM)| == 104
    ensures |FIRST| == 101 && |SECOND| == 83 && |ZEROS| == 64
  {
    hide ToBits, BytesBits;
    CodesAre();
    BytesAre();
    assert STREAM == [0x4a, 4, 12, 8, 1] + STREAM[5..];
    FiveBytes(STREAM[5..]);
  }

  // ---------- what is read ----------

  lemma ReadsByte(rest: seq<bool>)
    ensures ReadingAt(FIXED_LENS, FIXED_DISTS, A + rest) == Byte(97, rest)
  {
    hide CodeBits, FIXED_LENS, FIXED_DISTS, ReadSymbol, Fits, CodeOf;
    FixedCodes();
    BlockSpec.FixedFits();
    ReadBack(FIXED_LENS, 97, rest);
  }

  lemma ReadsEnd(rest: seq<bool>)
    ensures ReadingAt(FIXED_LENS, FIXED_DISTS, END + rest) == End(rest)
  {
    hide CodeBits, FIXED_LENS, FIXED_DISTS, ReadSymbol, Fits, CodeOf;
    FixedCodes();
    BlockSpec.FixedFits();
    ReadBack(FIXED_LENS, 256, rest);
  }

  lemma Symbols()
    ensures LenOf(257) == Length(3, 0) && DistOf(1) == Distance(2, 0) && ToInt([]) == 0
  {
  }

  lemma NoExtra(b: seq<bool>)
    ensures b[..0] == [] && b[0..] == b
  {
  }

  lemma ReadsString(rest: seq<bool>)
    ensures ReadingAt(FIXED_LENS, FIXED_DISTS, THREE + (TWO_BACK + rest)) == String(3, 2, rest)
  {
    hide CodeBits, FIXED_LENS, FIXED_DISTS, ReadSymbol, Fits, CodeOf, ReadingAt, DistAt, Fetched, DistFetched, LenOf,
      DistOf, ToInt;
    FixedCodes();
    BlockSpec.FixedFits();
    DistLens();
    Symbols();
    var b := TWO_BACK + rest;
    NoExtra(b);
    NoExtra(rest);
    ReadBack(FIXED_LENS, 257, b);
    LenFound(FIXED_LENS, FIXED_DISTS, THREE + b, Length(3, 0), b, 0);
    ReadBack(FIXED_DISTS, 1, rest);
    DistFound(FIXED_DISTS, 3, b, Distance(2, 0), rest, 0);
  }

  lemma Kinds(rest: seq<bool>)
    ensures KindOf([false, true, false] + rest) == ToFixed && KindOf([true, true, false] + rest) == ToFixed
    ensures ([false, true, false] + rest)[3..] == rest && ([true, true, false] + rest)[3..] == rest
  {
    hide ToInt;
    assert ([false, true, false] + rest)[1..3] == [true, false] && ([true, true, false] + rest)[1..3] == [true, false];
    OneOfTwo();
  }

  lemma OneOfTwo()
    ensures ToInt([true, false]) == 1
  {
    assert [true, false][1..] == [false] && [false][1..] == [];
    assert ToInt([false]) == 0;
  }

  // ---------- what the format says ----------

  /** The string begins before the output. */
  lemma FormatRefuses(w: nat)
    ensures Blocks(w, false, BytesBits(STREAM), []) == Corrupt([97])
  {
    hide Blocks, Codes, BytesBits, ReadingAt, KindOf, FIXED_LENS, FIXED_DISTS, FIRST, SECOND, A, END, THREE, TWO_BACK,
      ZEROS;
    StreamBits();
    var second := [true, true, false] + SECOND;
    Kinds(FIRST);
    KindIs(w, [false, true, false] + FIRST, []);
    Parts();
    ReadsByte(END + second);
    CodesReading(w, false, FIXED_LENS, FIXED_DISTS, FIRST, []);
    assert [] + [97] == [97];
    ReadsEnd(second);
    CodesReading(w, false, FIXED_LENS, FIXED_DISTS, END + second, [97]);
    Kinds(SECOND);
    KindIs(w, second, [97]);
    ReadsString(END + ZEROS);
    CodesReading(w, true, FIXED_LENS, FIXED_DISTS, SECOND, [97]);
  }

  lemma Parts()
    ensures FIRST == A + (END + ([true, true, false] + SECOND)) && SECOND == THREE + (TWO_BACK + (END + ZEROS))
  {
  }

  // ---------- what inflateBack does ----------

  lemma RunByte(pieces: seq<seq<byte>>, ll: seq<nat>, dl: seq<nat>, m: Mark) returns (p: Pace)
    requires m.out.Fits() && ReadingAt(ll, dl, m.b).Byte?
    ensures var a := ReadingAt(ll, dl, m.b);
            && m.out.Put(a.x).Fits() && |m.out.Put(a.x).win| == |m.out.win|
            && Run(pieces, ll, dl, m) == Run(pieces, ll, dl, Mark(a.rest, m.out.Put(a.x), p))
            && Strays(pieces, ll, dl, m) == Strays(pieces, ll, dl, Mark(a.rest, m.out.Put(a.x), p))
  {
    hide ReadingAt, Ample, Out.Put, Going;
    PutFits(m.out, ReadingAt(ll, dl, m.b).x);
    var m' := if m.pace.Slow? && Ample(pieces, m) then m.(pace := Entered(pieces, m)) else m;
    p := Going(pieces, ll, dl, m', m.out.Put(ReadingAt(ll, dl, m.b).x));
    ReadingBounds(ll, dl, m.b);
    var t := Turned(pieces, ll, dl, m');
    assert t.Goes? && t.m == Mark(ReadingAt(ll, dl, m.b).rest, m.out.Put(ReadingAt(ll, dl, m.b).x), p);
  }

  lemma RunEnd(pieces: seq<seq<byte>>, ll: seq<nat>, dl: seq<nat>, m: Mark)
    requires m.out.Fits() && ReadingAt(ll, dl, m.b).End?
    ensures Run(pieces, ll, dl, m) == Ends(ReadingAt(ll, dl, m.b).rest, m.out) && !Strays(pieces, ll, dl, m)
  {
    hide ReadingAt, Ample;
    ReadingBounds(ll, dl, m.b);
    var m' := if m.pace.Slow? && Ample(pieces, m) then m.(pace := Entered(pieces, m)) else m;
    assert Turned(pieces, ll, dl, m').Stops?;
  }

  /** A string that is taken from outside, when inflate_fast is called just before it. */
  lemma RunOutside(pieces: seq<seq<byte>>, ll: seq<nat>, dl: seq<nat>, m: Mark) returns (p: Pace)
    requires m.out.Ok() && m.pace.Slow? && Ample(pieces, m) && !m.out.lapped
    requires var a := ReadingAt(ll, dl, m.b); a.String? && 0 < m.out.pos < a.dist <= 2 * m.out.pos
    ensures m.out.Fits()
    ensures var a := ReadingAt(ll, dl, m.b);
            Run(pieces, ll, dl, m) == Run(pieces, ll, dl, Mark(a.rest, m.out.Copied(a.dist, a.len), p))
  {
    hide ReadingAt, Ample, Out.Copied, Going, Out.Ok;
    OkFits(m.out);
    var a := ReadingAt(ll, dl, m.b);
    ReadingBounds(ll, dl, m.b);
    var m' := m.(pace := Entered(pieces, m));
    p := Going(pieces, ll, dl, m', m.out.Copied(a.dist, a.len));
    var t := Turned(pieces, ll, dl, m');
    assert t.Goes? && t.m == Mark(a.rest, m.out.Copied(a.dist, a.len), p);
  }

  lemma OnePiece(b: seq<bool>, out: Out)
    requires |out.win| - out.pos >= 258 && 80 <= |b| <= 104
    ensures Given([STREAM]) == STREAM && Ample([STREAM], Mark(b, out, Slow))
  {
    assert [STREAM][1..] == [];
    assert Given([STREAM]) == STREAM + [] == STREAM;
  }

  /** The four bytes: two are what the window held at its end. */
  lemma FourBytes(window: seq<byte>)
    requires |window| >= 259
    ensures var o := InflateBack.Fresh(window).Put(97); var x := window[|window| - 1];
            && o.Ok() && o.pos == 1 && !o.lapped && |o.win| == |window| && o.all == [97]
            && o.Copied(2, 3).all == [97, x, 97, x]
  {
    var o := InflateBack.Fresh(window).Put(97);
    var x := window[|window| - 1];
    assert o.all == [97] && o.win == window[0 := 97];
    assert o.win[..1] == [97];
    var o1 := o.Put(o.Back(2));
    assert o.Back(2) == x && o1.win == o.win[1 := x];
    var o2 := o1.Put(o1.Back(2));
    assert o1.Back(2) == 97 && o2.win == o1.win[2 := 97];
    assert o2.Back(2) == x;
    assert o.Copied(2, 3) == o1.Copied(2, 2) == o2.Copied(2, 1) == o2.Put(x).Copied(2, 0);
  }

  /** The first block, in one piece or not. */
  lemma FirstBlock(pieces: seq<seq<byte>>, window: seq<byte>)
    requires |window| > 0
    ensures var o, second := InflateBack.Fresh(window), [true, true, false] + SECOND;
            && o.Put(97).Fits()
            && BlockFate(pieces, ToFixed, FIRST, o) == Ends(second, o.Put(97))
            && !BlockStrays(pieces, ToFixed, FIRST, o)
  {
    hide ReadingAt, Run, Strays, FIXED_LENS, FIXED_DISTS, FIRST, SECOND, A, END, Out.Put;
    var o, second := InflateBack.Fresh(window), [true, true, false] + SECOND;
    Parts();
    PutFits(o, 97);
    ReadsByte(END + second);
    ReadsEnd(second);
    var p := RunByte(pieces, FIXED_LENS, FIXED_DISTS, Mark(FIRST, o, Slow));
    RunEnd(pieces, FIXED_LENS, FIXED_DISTS, Mark(END + second, o.Put(97), p));
  }

  /** The second, when the stream comes in one piece. */
  lemma SecondBlock(window: seq<byte>)
    requires |window| >= 259
    ensures var o := InflateBack.Fresh(window).Put(97);
            && o.Fits() && BlockFate([STREAM], ToFixed, SECOND, o) == Ends(ZEROS, o.Copied(2, 3))
            && BlockStrays([STREAM], ToFixed, SECOND, o)
  {
    hide ReadingAt, Run, Strays, FIXED_LENS, FIXED_DISTS, SECOND, END, ZEROS, THREE, TWO_BACK, Out.Put, Out.Copied,
      Out.Ok, Ample;
    var o := InflateBack.Fresh(window).Put(97);
    StreamBits();
    Parts();
    FourBytes(window);
    OkFits(o);
    OnePiece(SECOND, o);
    ReadsString(END + ZEROS);
    ReadsEnd(ZEROS);
    var m := Mark(SECOND, o, Slow);
    EarlyStrays([STREAM], FIXED_LENS, FIXED_DISTS, m);
    var p := RunOutside([STREAM], FIXED_LENS, FIXED_DISTS, m);
    RunEnd([STREAM], FIXED_LENS, FIXED_DISTS, Mark(END + ZEROS, o.Copied(2, 3), p));
  }

  /**
   In one piece the stream is accepted, in any window above 258 bytes, and half of what it decodes to is what the
   window happened to hold at its end.
   */
  lemma InOnePiece(window: seq<byte>)
    requires |window| >= 259
    ensures var b, o, x := BytesBits(Given([STREAM])), InflateBack.Fresh(window), window[|window| - 1];
            && Astray([STREAM], false, b, o)
            && Stream([STREAM], false, b, o) == Finished([97, x, 97, x], BytesBits([0, 0, 0, 0, 0, 0, 0, 0]))
  {
    hide BlockFate, BlockStrays, BytesBits, FIRST, SECOND, Out.Put, Out.Copied, KindOf, Given, Out.Ok;
    var o := InflateBack.Fresh(window);
    var second := [true, true, false] + SECOND;
    StreamBits();
    FourBytes(window);
    OkFits(o.Put(97));
    OnePiece(SECOND, o.Put(97));
    Kinds(FIRST);
    Kinds(SECOND);
    FirstBlock([STREAM], window);
    SecondBlock(window);
    assert STREAM[5..] == [0, 0, 0, 0, 0, 0, 0, 0];
    assert Align(ZEROS) == ZEROS;
    var b := [false, true, false] + FIRST;
    assert Stream([STREAM], false, b, o) == Stream([STREAM], false, second, o.Put(97));
    assert Stream([STREAM], false, second, o.Put(97)) == Stream([STREAM], true, ZEROS, o.Put(97).Copied(2, 3));
    assert Astray([STREAM], false, second, o.Put(97));
  }

  /** In pieces of less than six bytes it is refused after the literal, as the format has it. */
  lemma InSmallPieces(pieces: seq<seq<byte>>, window: seq<byte>)
    requires Given(pieces) == STREAM && (forall i :: 0 <= i < |pieces| ==> |pieces[i]| < 6) && |window| > 0
    ensures InflateBack.Fresh(window).Fits()
    ensures Stream(pieces, false, BytesBits(STREAM), InflateBack.Fresh(window)) == Corrupt([97])
  {
    hide Blocks, BytesBits, Stream, Astray, Given;
    var o := InflateBack.Fresh(window);
    InflateBack.FreshOk(o);
    UnhurriedFaithful(pieces, false, BytesBits(STREAM), o);
    StreamFaithful(|window|, pieces, false, BytesBits(STREAM), o);
    FormatRefuses(|window|);
  }
}
