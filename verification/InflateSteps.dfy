/**
 The steps of inflate inside the blocks, one method for each case of the state machine that does
 more than move data.  Each says that what remained to be decoded before the step is what remains
 after it; f is any further input, o the output so far, w the window size.
 */
module InflateSteps {
  import opened Bits
  import opened Canonical
  import opened TableSpec
  import opened Rfc1951
  import opened Openings
  import opened Decode
  import opened Registers
  import Inftrees

  /** Where the type bits of a block lead. */
  datatype Next = Trailer | ToStored | ToFixed | ToDynamic | Invalid

  lemma BlockHeader(w: nat, b: seq<bool>, o: seq<byte>)
    requires |b| >= 3
    ensures var kind := ToInt(b[1..3]);
            Blocks(w, false, b, o) ==
            if kind == 0 then Stored(w, b[0], b[3..], o)
            else if kind == 1 then Codes(w, b[0], FIXED_LENS, FIXED_DISTS, b[3..], o)
            else if kind == 2 then Dynamic(w, b[0], b[3..], o)
            else Corrupt(o)
  {
  }

  lemma OneBitInt(b: seq<bool>)
    requires |b| >= 1
    ensures b[0] == (ToInt(b[..1]) == 1)
  {
    assert b[..1][1..] == [];
  }

  function KindOf(b: seq<bool>): Next
    requires |b| >= 3
  {
    match ToInt(b[1..3]) case 0 => ToStored case 1 => ToFixed case 2 => ToDynamic case _ => Invalid
  }

  /** The three bits: whether the block is the last, and its kind. */
  ghost predicate TypeRead(b: seq<bool>, last: bool, to: Next, rest: seq<bool>) {
    |b| >= 3 && last == b[0] && rest == b[3..] && to == KindOf(b)
  }

  /** TYPEDO: the three bits that begin a block, or the end of the last one. */
  method StepType(r: Regs, last: bool, ghost w: nat, ghost o: seq<byte>, ghost f: seq<bool>)
      returns (more: bool, r': Regs, last': bool, to: Next)
    requires r.Ok() && r.bits < 8 && |f| % 8 == 0
    ensures r'.Ok() && r'.input == r.input && r'.bits < 8
    ensures !more ==>
      Pulled(r, r') && last' == last && r'.next == |r'.input| && Blocks(w, last', r'.Avail(), o) == Starved(o)
    ensures more ==>
      Blocks(w, last, r.Avail() + f, o) ==
      match to
      case Trailer => Finished(o, r'.Avail() + f)
      case ToStored => Stored(w, last', r'.Avail() + f, o)
      case ToFixed => Codes(w, last', FIXED_LENS, FIXED_DISTS, r'.Avail() + f, o)
      case ToDynamic => Dynamic(w, last', r'.Avail() + f, o)
      case Invalid => Corrupt(o)
    ensures more ==> if to == Trailer then r'.bits == 0 && r'.next == r.next &&
            last' == last else r'.Unread() < r.Unread()
    ensures !more ==> !last && |r.Avail()| < 3
    ensures more && !last ==> TypeRead(r.Avail() + f, last', to, r'.Avail() + f)
    ensures last ==> more && to == Trailer && r'.Avail() + f == Align(r.Avail() + f)
  {
    hide ToBits, Pow2, Codes, Stored, Dynamic, Align;
    last', to := last, Trailer;
    if last {
      more := true;
      BlocksEnd(w, r.Avail() + f, o);
      r' := ByteBits(r, f);
      return;
    }
    more, r' := NeedBits(r, 3);
    if !more {
      return;
    }
    ghost var b := r.Avail() + f;
    var v, kind;
    v, r' := TakeBits(r', 1, f);
    OneBitInt(b);
    last' := v == 1;
    kind, r' := TakeBits(r', 2, f);
    assert b[1..][..2] == b[1..3] && b[1..][2..] == b[3..];
    BlockHeader(w, b, o);
    to := if kind == 0 then ToStored else if kind == 1 then ToFixed else if kind == 2 then ToDynamic else Invalid;
  }

  lemma StoredAligned(w: nat, last: bool, b: seq<bool>, o: seq<byte>)
    ensures Stored(w, last, b, o) == Stored(w, last, Align(b), o)
    ensures |Align(b)| % 8 == 0
  {
    hide Copy;
    assert |Align(b)| == |b| / 8 * 8;
  }

  lemma StoredHeader(w: nat, last: bool, b: seq<bool>, o: seq<byte>)
    ensures |b| < 32 ==> Stored(w, last, b, o) == Starved(o)
    ensures |b| >= 32 && |b| % 8 == 0 ==>
      Stored(w, last, b, o) ==
      if ToInt(b[..16]) + ToInt(b[16..32]) != 0xffff then Corrupt(o) else Copy(w, last, ToInt(b[..16]), b[32..], o)
  {
    hide Copy;
    if |b| % 8 == 0 {
      assert Align(b) == b;
    }
  }

  lemma Pow2Of16()
    ensures Pow2(15) == 32768 && Pow2(16) == 65536
  {
    assert Pow2(15) == 32768;
    assert Pow2(16) == 2 * Pow2(15);
  }

  /** The length and its complement, and what follows them. */
  ghost predicate SizesRead(b: seq<bool>, good: bool, length: nat, rest: seq<bool>) {
    && |b| >= 32 && length == ToInt(b[..16]) && rest == b[32..]
    && (good <==> length + ToInt(b[16..32]) == 0xffff)
  }

  /** STORED: the length of a stored block and its complement. */
  method StepStored(r: Regs, last: bool, ghost w: nat, ghost o: seq<byte>, ghost f: seq<bool>)
      returns (more: bool, r': Regs, good: bool, length: nat)
    requires r.Ok() && (r.bits < 8 || (r.bits % 8 == 0 && r.bits < 32)) && |f| % 8 == 0
    ensures r'.Ok() && r'.input == r.input && r'.Unread() <= r.Unread()
    ensures !more ==> r'.bits % 8 == 0 && r'.bits < 32 && r'.next == |r'.input|
    ensures !more ==>
      Stored(w, last, r.Avail() + f, o) == Stored(w, last, r'.Avail() + f, o) &&
      Stored(w, last, r'.Avail(), o) == Starved(o)
    ensures more ==> r'.bits == 0 && r'.Unread() < r.Unread()
    ensures more && good ==>
      length < 65536 && Stored(w, last, r.Avail() + f, o) == Copy(w, last, length, r'.Avail() + f, o)
    ensures more && !good ==> Stored(w, last, r.Avail() + f, o) == Corrupt(o)
    ensures !more ==> |r.Avail()| < 32
    ensures more ==> SizesRead(Align(r.Avail() + f), good, length, r'.Avail() + f)
  {
    hide ToBits, Pow2, Copy, Stored, Align;
    good, length := false, 0;
    StoredAligned(w, last, r.Avail() + f, o);
    r' := ByteBits(r, f);
    ghost var b := r'.Avail() + f;
    more, r' := NeedBits(r', 32);
    if !more {
      StoredHeader(w, last, r'.Avail(), o);
      return;
    }
    StoredHeader(w, last, b, o);
    var len, nlen;
    len, r' := TakeBits(r', 16, f);
    nlen, r' := TakeBits(r', 16, f);
    assert b[16..][..16] == b[16..32] && b[16..][16..] == b[32..];
    Pow2Of16();
    length := len;
    good := len == 0xffff - nlen;
  }

  /** Copying stored bytes, any number at a time. */
  lemma {:induction false} CopyRun(w: nat, last: bool, n: nat, d: seq<byte>, rest: seq<bool>, o: seq<byte>)
    requires |d| <= n
    ensures Copy(w, last, n, BytesBits(d) + rest, o) == Copy(w, last, n - |d|, rest, o + d)
    decreases |d|
  {
    hide Blocks, ToBits;
    if d == [] {
      assert BytesBits(d) + rest == rest && o + d == o;
    } else {
      var b := BytesBits(d) + rest;
      assert b[..8] == ToBits(d[0], 8) && b[8..] == BytesBits(d[1..]) + rest;
      ToIntToBits(d[0], 8);
      assert Pow2(8) == 256;
      LowOfSmall(d[0], 8);
      CopyRun(w, last, n - 1, d[1..], rest, o + [d[0]]);
      assert o + [d[0]] + d[1..] == o + d;
    }
  }

  lemma TakenBytes(r: Regs, n: nat, f: seq<bool>)
    requires r.Ok() && r.bits == 0 && n <= |r.input| - r.next
    ensures r.Avail() + f == BytesBits(r.input[r.next..r.next + n]) + (r.(next := r.next + n).Avail() + f)
  {
    hide ToBits, BytesBits;
    var data, others := r.input[r.next..r.next + n], r.input[r.next + n..];
    assert r.input[r.next..] == data + others;
    BytesBitsConcat(data, others);
  }

  /** COPY: as many stored bytes as input and output allow. */
  method StepCopy(r: Regs, last: bool, length: nat, left: nat, ghost w: nat, ghost o: seq<byte>, ghost f: seq<bool>)
      returns (more: bool, r': Regs, data: seq<byte>)
    requires r.Ok() && r.bits == 0
    ensures r'.Ok() && r'.bits == 0 && r'.input == r.input && |data| <= length && |data| <= left
    ensures Copy(w, last, length, r.Avail() + f, o) == Copy(w, last, length - |data|, r'.Avail() + f, o + data)
    ensures r.Avail() + f == BytesBits(data) + (r'.Avail() + f)
    ensures r'.Unread() == r.Unread() - 8 * |data|
    ensures more <==> length == 0 || |data| > 0
    ensures !more ==> left == 0 || (r'.next == |r'.input| && Copy(w, last, length, r'.Avail(), o) == Starved(o))
  {
    hide Blocks, Copy, ToBits, Pow2, BytesBits;
    r', data := r, [];
    var copy := length;
    if copy > 0 {
      if copy > |r.input| - r.next {
        copy := |r.input| - r.next;
      }
      if copy > left {
        copy := left;
      }
      if copy == 0 {
        more := false;
        assert o + data == o;
        if |r.input| == r.next {
          assert r.Avail() == [];
          CopyShort(w, last, length, r.Avail(), o);
        }
        return;
      }
      data := r.input[r.next..r.next + copy];
      r' := r.(next := r.next + copy);
      TakenBytes(r, copy, f);
      CopyRun(w, last, length, data, r'.Avail() + f, o);
    }
    more := true;
    assert data == [] ==> o + data == o;
  }

  /** TABLE: the sizes of the codes of a dynamic block. */
  method StepTable(r: Regs, last: bool, ghost w: nat, ghost o: seq<byte>, ghost f: seq<bool>)
      returns (more: bool, r': Regs, good: bool, nlen: nat, ndist: nat, ncode: nat)
    requires r.Ok() && r.bits < 14
    ensures r'.Ok() && r'.input == r.input
    ensures !more ==>
      Pulled(r, r') && r'.bits < 14 && r'.next == |r'.input| && Dynamic(w, last, r'.Avail(), o) == Starved(o)
    ensures more ==> r'.bits < 8 && r'.Unread() < r.Unread()
    ensures more && good ==> 257 <= nlen <= 286 && 1 <= ndist <= 30 && 4 <= ncode <= 19
    ensures more && good ==>
      Dynamic(w, last, r.Avail() + f, o) == CodeLenLens(w, last, nlen, ndist, ncode, [], r'.Avail() + f, o)
    ensures more && !good ==> Dynamic(w, last, r.Avail() + f, o) == Corrupt(o)
    ensures !more ==> Open(r.Avail()) == Unready
    ensures more ==>
      Open(r.Avail() + f) == if good then OpenLenLens(nlen, ndist, ncode, [], r'.Avail() + f) else Refusal
  {
    hide OpenLenLens;
    hide ToBits, CodeLenLens;
    good, nlen, ndist, ncode := false, 0, 0, 0;
    more, r' := NeedBits(r, 14);
    if !more {
      return;
    }
    ghost var b := r.Avail() + f;
    var v1, v2, v3;
    v1, r' := TakeBits(r', 5, f);
    v2, r' := TakeBits(r', 5, f);
    v3, r' := TakeBits(r', 4, f);
    assert b[5..][..5] == b[5..10] && b[5..][5..] == b[10..] && b[10..][..4] == b[10..14] && b[10..][4..] == b[14..];
    assert Pow2(5) == 32 && Pow2(4) == 16;
    nlen, ndist, ncode := v1 + 257, v2 + 1, v3 + 4;
    good := nlen <= 286 && ndist <= 30;
  }

  // ---------- code lengths ----------

  /** The first n code length code lengths, in the order they are given. */
  function Listed(lens: seq<nat>, n: nat): (got: seq<nat>)
    requires n <= 19 <= |lens|
    ensures |got| == n
  {
    seq(n, i requires 0 <= i < n => lens[ORDER[i]])
  }

  lemma OrderPlace(i: nat)
    requires i < 19
    ensures ORDER[i] < 19 && PLACE[i] < 19 && ORDER[PLACE[i]] == i && PLACE[ORDER[i]] == i
  {
  }

  lemma OrderDistinct(i: nat, j: nat)
    requires i < 19 && j < 19 && ORDER[i] == ORDER[j]
    ensures i == j
  {
    OrderPlace(i);
    OrderPlace(j);
  }

  /** Setting the next of the lengths. */
  lemma ListedNext(lens: seq<nat>, n: nat, x: nat)
    requires n < 19 <= |lens|
    ensures ORDER[n] < 19 && Listed(lens[ORDER[n] := x], n + 1) == Listed(lens, n) + [x]
  {
    OrderPlace(n);
    var l' := lens[ORDER[n] := x];
    forall i: nat | i < n ensures l'[ORDER[i]] == lens[ORDER[i]] {
      if ORDER[i] == ORDER[n] {
        OrderDistinct(i, n);
      }
    }
  }

  lemma LenLensStep(w: nat, last: bool, nlen: nat, ndist: nat, ncode: nat, got: seq<nat>, b: seq<bool>, o: seq<byte>)
    requires |got| < ncode
    ensures CodeLenLens(w, last, nlen, ndist, ncode, got, b, o) ==
            if |b| < 3 then Starved(o)
            else CodeLenLens(w, last, nlen, ndist, ncode, got + [ToInt(b[..3])], b[3..], o)
    ensures OpenLenLens(nlen, ndist, ncode, got, b) ==
            if |b| < 3 then Unready else OpenLenLens(nlen, ndist, ncode, got + [ToInt(b[..3])], b[3..])
  {
  }

  /** LENLENS: the code length code lengths. */
  method StepLenLens(r: Regs, last: bool, nlen: nat, ndist: nat, ncode: nat, have: nat, lens: seq<nat>,
                     ghost w: nat, ghost o: seq<byte>, ghost f: seq<bool>)
      returns (more: bool, r': Regs, have': nat, lens': seq<nat>)
    requires r.Ok() && r.bits < 8 && have <= ncode <= 19 <= |lens| && AllWithin(Listed(lens, have), 7)
    ensures r'.Ok() && r'.input == r.input && r'.bits < 8 && |lens'| == |lens| && have' <= ncode
    ensures AllWithin(Listed(lens', have'), 7)
    ensures CodeLenLens(w, last, nlen, ndist, ncode, Listed(lens, have), r.Avail() + f, o) ==
            CodeLenLens(w, last, nlen, ndist, ncode, Listed(lens', have'), r'.Avail() + f, o)
    ensures r'.Unread() <= r.Unread()
    ensures more ==> have' == ncode
    ensures !more ==> r'.next == |r'.input|
    ensures !more ==> CodeLenLens(w, last, nlen, ndist, ncode, Listed(lens', have'), r'.Avail(), o) == Starved(o)
    ensures OpenLenLens(nlen, ndist, ncode, Listed(lens, have), r.Avail() + f) ==
            OpenLenLens(nlen, ndist, ncode, Listed(lens', have'), r'.Avail() + f)
    ensures !more ==> OpenLenLens(nlen, ndist, ncode, Listed(lens', have'), r'.Avail()) == Unready
  {
    hide ToBits, Pow2, CodeLenLens, Listed, OpenLenLens;
    more, r', have', lens' := true, r, have, lens;
    while have' < ncode
      invariant r'.Ok() && r'.input == r.input && r'.bits < 8 && |lens'| == |lens| && have' <= ncode
      invariant AllWithin(Listed(lens', have'), 7)
      invariant CodeLenLens(w, last, nlen, ndist, ncode, Listed(lens, have), r.Avail() + f, o) ==
                CodeLenLens(w, last, nlen, ndist, ncode, Listed(lens', have'), r'.Avail() + f, o)
      invariant OpenLenLens(nlen, ndist, ncode, Listed(lens, have), r.Avail() + f) ==
                OpenLenLens(nlen, ndist, ncode, Listed(lens', have'), r'.Avail() + f)
      invariant r'.Unread() <= r.Unread()
      decreases ncode - have'
    {
      more, r' := NeedBits(r', 3);
      if !more {
        LenLensStep(w, last, nlen, ndist, ncode, Listed(lens', have'), r'.Avail(), o);
        return;
      }
      LenLensStep(w, last, nlen, ndist, ncode, Listed(lens', have'), r'.Avail() + f, o);
      var v;
      v, r' := TakeBits(r', 3, f);
      Pow2Of3();
      ListedNext(lens', have', v);
      lens' := lens'[ORDER[have'] := v];
      have' := have' + 1;
    }
  }

  lemma Pow2Of3()
    ensures Pow2(3) == 8
  {
  }

  /** The lengths not given are zero. */
  method ZeroRest(lens: seq<nat>, ncode: nat) returns (lens': seq<nat>)
    requires ncode <= 19 <= |lens| && AllWithin(Listed(lens, ncode), 7)
    ensures |lens'| == |lens| && lens'[..19] == Placed(Listed(lens, ncode)) && AllWithin(lens'[..19], 7)
  {
    hide Listed;
    lens' := lens;
    var have := ncode;
    ghost var got := Listed(lens, ncode);
    ghost var list := got;
    while have < 19
      invariant ncode <= have <= 19 && |lens'| == |lens|
      invariant list == Listed(lens', have) && list == got + Repeat(0, have - ncode)
    {
      ListedNext(lens', have, 0);
      lens' := lens'[ORDER[have] := 0];
      list := list + [0];
      have := have + 1;
    }
    ListedPlaced(lens', got);
  }

  lemma ListedPlaced(lens: seq<nat>, got: seq<nat>)
    requires |got| <= 19 <= |lens| && Listed(lens, 19) == got + Repeat(0, 19 - |got|)
    ensures lens[..19] == Placed(got)
    ensures AllWithin(got, 7) ==> AllWithin(lens[..19], 7)
  {
    forall i: nat | i < 19 ensures lens[i] == Placed(got)[i] {
      OrderPlace(i);
      assert Listed(lens, 19)[PLACE[i]] == lens[i];
    }
    if AllWithin(got, 7) {
      forall i: nat | i < 19 ensures lens[..19][i] <= 7 {
        assert lens[i] == Placed(got)[i];
      }
    }
  }

  /** The code length code is usable, or the block is not. */
  method CodeLenTable(lens: seq<nat>) returns (good: bool, lencode: seq<Code>, lenbits: nat)
    requires |lens| == 19 && AllWithin(lens, 7)
    ensures good <==> !Refused(CODES, lens)
    ensures good ==> Decodes(lencode, lenbits, CODES, lens) && Usable(CODES, lens) && Flat(lencode, lenbits)
  {
    hide Decodes, Refused;
    lencode, lenbits := [], 0;
    var codes := new Code[1444](_ => INVALID);
    var work := new nat[288](_ => 0);
    assert Pow2(7) == 128;
    var ret, next;
    ret, next, lenbits := Inftrees.InflateTable(CODES, lens, codes, 0, 7, work);
    good := ret == 0;
    if good {
      lencode := codes[..next];
      FlatCodes(lens, lenbits);
    }
  }

  lemma FlatCodes(lens: seq<nat>, root: nat)
    requires AllWithin(lens, 7) && (NoSymbols(lens) || Inftrees.RootFits(lens, 7, root))
    ensures AllWithin(lens, root)
  {
  }

  /** Bits of the item at the front: its code, and the repeat count after it. */
  ghost function ItemBits(t: seq<Code>, root: nat, hold: nat): nat
    requires Pow2(root) <= |t|
  {
    var e := Lookup(t, root, hold);
    e.bits + if e.val < 16 then 0 else RepeatBits(e.val)
  }

  /** A whole byte among the bits held is not spare: they do not yet make up the next item. */
  ghost predicate LeanItem(r: Regs, t: seq<Code>, root: nat) {
    Pow2(root) <= |t| && (r.bits < 8 || ItemBits(t, root, r.hold) > r.bits)
  }

  datatype Item = Wanting | Wrong | Read

  lemma CodeLensNoCode(w: nat, last: bool, nlen: nat, ndist: nat, cl: seq<nat>, lens: seq<nat>, b: seq<bool>,
        o: seq<byte>)
    requires |lens| < nlen + ndist && ReadSymbol(cl, b) == NoCode
    ensures b != []
    ensures CodeLens(w, last, nlen, ndist, cl, lens, b, o) == CodeLens(w, last, nlen, ndist, cl, lens + [0], b[1..], o)
    ensures OpenLens(nlen, ndist, cl, lens, b) == OpenLens(nlen, ndist, cl, lens + [0], b[1..])
  {
  }

  lemma CodeLensWanting(w: nat, last: bool, nlen: nat, ndist: nat, cl: seq<nat>, lens: seq<nat>, b: seq<bool>,
        o: seq<byte>)
    requires |lens| < nlen + ndist
    requires var q := ReadSymbol(cl, b); q == NeedMore || (q.Sym? && q.s >= 16 && |q.rest| < RepeatBits(q.s))
    ensures CodeLens(w, last, nlen, ndist, cl, lens, b, o) == Starved(o)
    ensures OpenLens(nlen, ndist, cl, lens, b) == Unready
  {
  }

  lemma CodeLensOne(w: nat, last: bool, nlen: nat, ndist: nat, cl: seq<nat>, lens: seq<nat>, b: seq<bool>, o: seq<byte>,
        s: nat, rest: seq<bool>)
    requires |lens| < nlen + ndist && ReadSymbol(cl, b) == Sym(s, rest) && s < 16
    ensures CodeLens(w, last, nlen, ndist, cl, lens, b, o) ==
            CodeLens(w, last, nlen, ndist, cl, lens + [s], rest, o)
    ensures OpenLens(nlen, ndist, cl, lens, b) == OpenLens(nlen, ndist, cl, lens + [s], rest)
  {
    hide ToInt, ReadSymbol, Tables, OpenTables, Repeat, RepeatBits, RepeatBase;
  }

  lemma CodeLensMany(w: nat, last: bool, nlen: nat, ndist: nat, cl: seq<nat>, lens: seq<nat>, b: seq<bool>,
        o: seq<byte>, s: nat, rest: seq<bool>)
    requires |lens| < nlen + ndist && ReadSymbol(cl, b) == Sym(s, rest) && s >= 16 && |rest| >= RepeatBits(s)
    ensures CodeLens(w, last, nlen, ndist, cl, lens, b, o) ==
            var n := RepeatBase(s) + ToInt(rest[..RepeatBits(s)]);
            if (s == 16 && lens == []) || |lens| + n > nlen + ndist then Corrupt(o)
            else CodeLens(w, last, nlen, ndist, cl, lens + Repeat(if s == 16 then lens[|lens| - 1] else 0, n),
                rest[RepeatBits(s)..], o)
    ensures OpenLens(nlen, ndist, cl, lens, b) ==
            var n := RepeatBase(s) + ToInt(rest[..RepeatBits(s)]);
            if (s == 16 && lens == []) || |lens| + n > nlen + ndist then Refusal
            else OpenLens(nlen, ndist, cl, lens + Repeat(if s == 16 then lens[|lens| - 1] else 0, n),
                rest[RepeatBits(s)..])
  {
    hide ToInt, ReadSymbol, Tables, OpenTables, Repeat, RepeatBits, RepeatBase;
  }

  /** CODELENS, one item: a length, or a repetition of lengths. */
  method CodeLenItem(r: Regs, t: seq<Code>, root: nat, lens: seq<nat>, nlen: nat, ndist: nat, last: bool,
                     ghost cl: seq<nat>, ghost w: nat, ghost o: seq<byte>, ghost f: seq<bool>)
      returns (item: Item, r': Regs, add: seq<nat>)
    requires r.Ok() && r.bits <= 24 && Decodes(t, root, CODES, cl) && Usable(CODES, cl) && LeanItem(r, t, root)
    requires |lens| < nlen + ndist && AllWithin(lens, 15)
    ensures r'.Ok() && r'.input == r.input
    ensures item == Wanting ==> Pulled(r, r') && r'.bits <= 24 && LeanItem(r', t, root) && r'.next == |r'.input|
    ensures item == Wanting ==> CodeLens(w, last, nlen, ndist, cl, lens, r'.Avail(), o) == Starved(o)
    ensures item == Wrong ==> CodeLens(w, last, nlen, ndist, cl, lens, r.Avail() + f, o) == Corrupt(o)
    ensures item == Read ==> 1 <= |add| && |lens| + |add| <= nlen + ndist && AllWithin(add, 15)
    ensures item == Read ==> r'.bits < 8
    ensures item == Read ==> CodeLens(w, last, nlen, ndist, cl, lens, r.Avail() + f, o) ==
                             CodeLens(w, last, nlen, ndist, cl, lens + add, r'.Avail() + f, o)
    ensures item == Wanting ==> OpenLens(nlen, ndist, cl, lens, r'.Avail()) == Unready
    ensures item == Wrong ==> OpenLens(nlen, ndist, cl, lens, r.Avail() + f) == Refusal
    ensures item == Read ==>
      OpenLens(nlen, ndist, cl, lens, r.Avail() + f) == OpenLens(nlen, ndist, cl, lens + add, r'.Avail() + f)
    ensures item != Wanting ==> r'.Unread() < r.Unread()
  {
    hide ToBits, Low, Shr, Decodes, Lookup, Usable, Pow2, ReadSymbol, CodeLens, OpenLens;
    item, add := Wanting, [];
    var ok, here;
    ok, r', here := FindCode(r, t, root, CODES, cl);
    CodeLength(t, root, CODES, cl, r'.hold);
    if !ok {
      LookupStarves(t, root, CODES, cl, r'.hold, r'.bits);
      assert r'.Avail() == ToBits(r'.hold, r'.bits);
      CodeLensWanting(w, last, nlen, ndist, cl, lens, r'.Avail(), o);
      return;
    }
    ghost var b := r.Avail() + f;
    ItemCode(t, root, cl, r', f, here);
    if here.val < 16 {
      r' := DropBits(r', here.bits);
      Skip(r.Avail(), f, here.bits);
      add := [here.val];
      item := Read;
      if ReadSymbol(cl, b) == NoCode {
        CodeLensNoCode(w, last, nlen, ndist, cl, lens, b, o);
      } else {
        CodeLensOne(w, last, nlen, ndist, cl, lens, b, o, here.val, b[here.bits..]);
      }
      return;
    }
    ghost var found := r';
    item, r', add := RepeatItem(r', t, root, here, lens, nlen, ndist, last, cl, w, o, f);
    if item == Wanting {
      PulledTrans(r, found, r');
    }
  }

  lemma RepeatWaits(r: Regs, t: seq<Code>, root: nat, here: Code, lens: seq<nat>, nlen: nat, ndist: nat, last: bool,
                    cl: seq<nat>, w: nat, o: seq<byte>)
    requires r.Ok() && Decodes(t, root, CODES, cl) && Usable(CODES, cl) && Pow2(root) <= |t|
    requires here == Lookup(t, root, r.hold) && here.val >= 16
    requires here.bits <= r.bits < here.bits + RepeatBits(here.val) && r.next == |r.input|
    requires |lens| < nlen + ndist
    ensures LeanItem(r, t, root) && CodeLens(w, last, nlen, ndist, cl, lens, r.Avail(), o) == Starved(o)
    ensures OpenLens(nlen, ndist, cl, lens, r.Avail()) == Unready
  {
    hide ToBits, Low, Shr, Decodes, Lookup, Usable, Pow2, ReadSymbol, CodeLens, OpenLens;
    ItemCode(t, root, cl, r, [], here);
    assert r.Avail() + [] == r.Avail();
    CodeLensWanting(w, last, nlen, ndist, cl, lens, r.Avail(), o);
  }

  /** The rest of an item that repeats lengths: its count. */
  method RepeatItem(r: Regs, t: seq<Code>, root: nat, here: Code, lens: seq<nat>, nlen: nat, ndist: nat, last: bool,
                    ghost cl: seq<nat>, ghost w: nat, ghost o: seq<byte>, ghost f: seq<bool>)
      returns (item: Item, r': Regs, add: seq<nat>)
    requires r.Ok() && r.bits <= 24 && Decodes(t, root, CODES, cl) && Usable(CODES, cl) && Pow2(root) <= |t|
    requires here == Lookup(t, root, r.hold) && here.bits <= r.bits && here.val >= 16
    requires r.bits < here.bits + 8 || r.bits < 8 || r.bits < here.bits + RepeatBits(here.val)
    requires |lens| < nlen + ndist && AllWithin(lens, 15)
    ensures r'.Ok() && r'.input == r.input
    ensures item == Wanting ==> Pulled(r, r') && r'.bits <= 24 && LeanItem(r', t, root) && r'.next == |r'.input|
    ensures item == Wanting ==> CodeLens(w, last, nlen, ndist, cl, lens, r'.Avail(), o) == Starved(o)
    ensures item == Wrong ==> CodeLens(w, last, nlen, ndist, cl, lens, r.Avail() + f, o) == Corrupt(o)
    ensures item == Read ==> 1 <= |add| && |lens| + |add| <= nlen + ndist && AllWithin(add, 15)
    ensures item == Read ==> r'.bits < 8
    ensures item == Read ==> CodeLens(w, last, nlen, ndist, cl, lens, r.Avail() + f, o) ==
                             CodeLens(w, last, nlen, ndist, cl, lens + add, r'.Avail() + f, o)
    ensures item == Wanting ==> OpenLens(nlen, ndist, cl, lens, r'.Avail()) == Unready
    ensures item == Wrong ==> OpenLens(nlen, ndist, cl, lens, r.Avail() + f) == Refusal
    ensures item == Read ==>
      OpenLens(nlen, ndist, cl, lens, r.Avail() + f) == OpenLens(nlen, ndist, cl, lens + add, r'.Avail() + f)
    ensures item != Wanting ==> r'.Unread() < r.Unread()
  {
    hide ToBits, Low, Shr, Decodes, Lookup, Usable, Pow2, ReadSymbol, CodeLens, LeanItem, Repeat, AllWithin, ToInt,
      OpenLens, Regs.Avail;
    item, add := Wanting, [];
    ghost var b := r.Avail() + f;
    ItemCode(t, root, cl, r, f, here);
    var k := RepeatBits(here.val);
    var ok, v;
    ok, r' := NeedBits(r, here.bits + k);
    SameLookup(t, root, cl, r, r');
    if !ok {
      RepeatWaits(r', t, root, here, lens, nlen, ndist, last, cl, w, o);
      return;
    }
    Skip(r.Avail(), f, here.bits);
    r' := DropBits(r', here.bits);
    v, r' := TakeBits(r', k, f);
    CodeLensMany(w, last, nlen, ndist, cl, lens, b, o, here.val, b[here.bits..]);
    var n := RepeatBase(here.val) + v;
    if (here.val == 16 && lens == []) || |lens| + n > nlen + ndist {
      item := Wrong;
      return;
    }
    add := Repeat(if here.val == 16 then lens[|lens| - 1] else 0, n);
    RepeatSmall(lens, here.val == 16, n);
    item := Read;
  }

  lemma RepeatSmall(lens: seq<nat>, again: bool, n: nat)
    requires AllWithin(lens, 15) && (again ==> lens != [])
    ensures AllWithin(Repeat(if again then lens[|lens| - 1] else 0, n), 15)
  {
  }

  lemma SameLookup(t: seq<Code>, root: nat, cl: seq<nat>, r: Regs, r': Regs)
    requires r.Ok() && Decodes(t, root, CODES, cl) && Usable(CODES, cl) && Pulled(r, r')
    requires Lookup(t, root, r.hold).bits <= r.bits
    ensures Lookup(t, root, r'.hold) == Lookup(t, root, r.hold)
  {
    hide ToBits, Low, Lookup, Pow2;
    LowOfSmall(r.hold, r.bits);
    LookupStable(t, root, CODES, cl, r'.hold, r.hold, r.bits);
  }

  /** What the entry found says about the symbol read. */
  lemma ItemCode(t: seq<Code>, root: nat, cl: seq<nat>, r: Regs, f: seq<bool>, here: Code)
    requires r.Ok() && Decodes(t, root, CODES, cl) && Usable(CODES, cl)
    requires here == Lookup(t, root, r.hold) && here.bits <= r.bits
    ensures here.val <= 18 && 0 < here.bits <= MAXBITS
    ensures ReadSymbol(cl, r.Avail() + f) == Sym(here.val, (r.Avail() + f)[here.bits..])
         || (ReadSymbol(cl, r.Avail() + f) == NoCode && here.val == 0 && here.bits == 1)
  {
    hide ToBits, Decodes, Lookup, Usable, Pow2, ReadSymbol;
    var b := r.Avail() + f;
    assert ToBits(r.hold, r.bits) <= b;
    LookupReads(t, root, CODES, cl, r.hold, r.bits, b);
  }

  /** Copies of one length, stored from index have on. */
  method FillLens(lens: seq<nat>, have: nat, add: seq<nat>) returns (lens': seq<nat>)
    requires have + |add| <= |lens|
    ensures |lens'| == |lens| && lens'[..have + |add|] == lens[..have] + add
  {
    lens' := lens;
    var i := 0;
    while i < |add|
      invariant 0 <= i <= |add| && |lens'| == |lens|
      invariant lens'[..have + i] == lens[..have] + add[..i]
    {
      ghost var l := lens';
      lens' := lens'[have + i := add[i]];
      assert lens'[..have + i + 1] == l[..have + i] + [add[i]];
      assert add[..i + 1] == add[..i] + [add[i]];
      i := i + 1;
    }
    assert add[..i] == add;
  }

  /** CODELENS: the literal/length and distance code lengths. */
  method StepCodeLens(r: Regs, t: seq<Code>, root: nat, have: nat, lens: seq<nat>, nlen: nat, ndist: nat, last: bool,
                      ghost cl: seq<nat>, ghost w: nat, ghost o: seq<byte>, ghost f: seq<bool>)
      returns (item: Item, r': Regs, have': nat, lens': seq<nat>)
    requires r.Ok() && r.bits <= 24 && Decodes(t, root, CODES, cl) && Usable(CODES, cl) && LeanItem(r, t, root)
    requires have <= nlen + ndist <= |lens| && AllWithin(lens[..have], 15)
    ensures r'.Ok() && r'.input == r.input && |lens'| == |lens| && have' <= nlen + ndist &&
            AllWithin(lens'[..have'], 15)
    ensures item == Wanting ==> r'.bits <= 24 && LeanItem(r', t, root) && r'.next == |r'.input| && have' < nlen + ndist
    ensures item == Wanting ==> CodeLens(w, last, nlen, ndist, cl, lens'[..have'], r'.Avail(), o) == Starved(o)
    ensures item == Wrong ==> CodeLens(w, last, nlen, ndist, cl, lens[..have], r.Avail() + f, o) == Corrupt(o)
    ensures item != Wrong ==> CodeLens(w, last, nlen, ndist, cl, lens[..have], r.Avail() + f, o) ==
                              CodeLens(w, last, nlen, ndist, cl, lens'[..have'], r'.Avail() + f, o)
    ensures item == Wanting ==> OpenLens(nlen, ndist, cl, lens'[..have'], r'.Avail()) == Unready
    ensures OpenLens(nlen, ndist, cl, lens[..have], r.Avail() + f) ==
            if item == Wrong then Refusal else OpenLens(nlen, ndist, cl, lens'[..have'], r'.Avail() + f)
    ensures item == Read ==> have' == nlen + ndist && (have < have' ==> r'.bits < 8) && (have == have' ==> r' == r)
    ensures r'.Unread() <= r.Unread()
  {
    hide ToBits, Low, Shr, Decodes, Lookup, Usable, Pow2, CodeLens, LeanItem, AllWithin, OpenLens;
    item, r', have', lens' := Read, r, have, lens;
    while have' < nlen + ndist
      invariant r'.Ok() && r'.input == r.input && |lens'| == |lens| && have <= have' <= nlen + ndist &&
                AllWithin(lens'[..have'], 15)
      invariant r'.bits <= 24 && LeanItem(r', t, root)
      invariant have < have' ==> r'.bits < 8
      invariant have == have' ==> r' == r
      invariant CodeLens(w, last, nlen, ndist, cl, lens[..have], r.Avail() + f, o) ==
                CodeLens(w, last, nlen, ndist, cl, lens'[..have'], r'.Avail() + f, o)
      invariant OpenLens(nlen, ndist, cl, lens[..have], r.Avail() + f) ==
                OpenLens(nlen, ndist, cl, lens'[..have'], r'.Avail() + f)
      invariant r'.Unread() <= r.Unread() && item == Read
      decreases nlen + ndist - have'
    {
      var add;
      item, r', add := CodeLenItem(r', t, root, lens'[..have'], nlen, ndist, last, cl, w, o, f);
      if item != Read {
        return;
      }
      LeanShort(r', t, root, cl);
      SmallConcat(lens'[..have'], add, 15);
      lens' := FillLens(lens', have', add);
      have' := have' + |add|;
    }
  }

  lemma LeanShort(r: Regs, t: seq<Code>, root: nat, cl: seq<nat>)
    requires r.bits < 8 && Decodes(t, root, CODES, cl)
    ensures LeanItem(r, t, root)
  {
  }

  lemma SmallConcat(a: seq<nat>, b: seq<nat>, k: nat)
    requires AllWithin(a, k) && AllWithin(b, k)
    ensures AllWithin(a + b, k)
  {
  }

  lemma CodeLensDone(w: nat, last: bool, nlen: nat, ndist: nat, cl: seq<nat>, lens: seq<nat>, b: seq<bool>,
        o: seq<byte>)
    requires |lens| == nlen + ndist && 257 <= nlen && ValidLens(lens)
    ensures CodeLens(w, last, nlen, ndist, cl, lens, b, o) ==
            if lens[256] == 0 || Refused(LENS, lens[..nlen]) || Refused(DISTS, lens[nlen..]) then Corrupt(o)
            else Codes(w, last, lens[..nlen], lens[nlen..], b, o)
    ensures OpenLens(nlen, ndist, cl, lens, b) ==
            if lens[256] == 0 || Refused(LENS, lens[..nlen]) || Refused(DISTS, lens[nlen..]) then Refusal
            else Opened(lens[..nlen], lens[nlen..], b)
  {
    hide Codes, Refused;
  }

  /** The decoding tables of a dynamic block: there is always room for them. */
  method BuildTables(lens: seq<nat>, nlen: nat)
      returns (good: bool, lencode: seq<Code>, lenbits: nat, distcode: seq<Code>, distbits: nat)
    requires 257 <= nlen <= 286 && nlen < |lens| <= nlen + 30 && ValidLens(lens)
    ensures good <==> lens[256] != 0 && !Refused(LENS, lens[..nlen]) && !Refused(DISTS, lens[nlen..])
    ensures good ==> Decodes(lencode, lenbits, LENS, lens[..nlen]) && Usable(LENS, lens[..nlen])
    ensures good ==> Decodes(distcode, distbits, DISTS, lens[nlen..]) && Usable(DISTS, lens[nlen..])
  {
    hide Decodes, Refused;
    lencode, lenbits, distcode, distbits, good := [], 0, [], 0, false;
    if lens[256] == 0 {
      return;
    }
    var codes := new Code[ENOUGH_LENS + ENOUGH_DISTS](_ => INVALID);
    var work := new nat[288](_ => 0);
    var ret, next;
    ret, next, lenbits := Inftrees.InflateTable(LENS, lens[..nlen], codes, 0, 9, work);
    if ret != 0 {
      return;
    }
    var base := next;
    lencode := codes[..base];
    ret, next, distbits := Inftrees.InflateTable(DISTS, lens[nlen..], codes, base, 6, work);
    if ret != 0 {
      return;
    }
    distcode := codes[base..next];
    good := true;
  }

  // ---------- compressed data ----------

  /** What a literal/length entry asks for. */
  datatype LenCode = Literal(b: byte) | Length(base: nat, extra: nat) | EndOfBlock | BadLen

  function ClassifyLen(here: Code): LenCode {
    if here.op == 0 then (if here.val < 256 then Literal(here.val) else BadLen)
    else if here.op / 32 % 2 == 1 then EndOfBlock
    else if here.op / 64 % 2 == 1 then BadLen
    else Length(here.val, here.op % 16)
  }

  /** What a literal/length symbol stands for (section 3.2.5 of RFC 1951). */
  function LenOf(s: nat): LenCode {
    if s < 256 then Literal(s)
    else if s == 256 then EndOfBlock
    else if s > 285 then BadLen
    else Length(LBASE[s - 257], LEXT[s - 257] % 16)
  }

  /** c is the literal/length code that the bits begin with, and rest what follows it. */
  ghost predicate LenIs(sym: Symbol, c: LenCode, rest: seq<bool>) {
    match sym
    case NeedMore => false
    case NoCode => c == BadLen
    case Sym(s, t) => rest == t && c == LenOf(s)
  }

  /** What is left to decode after a literal/length code. */
  ghost function AfterLen(c: LenCode, w: nat, last: bool, ll: seq<nat>, dl: seq<nat>, rest: seq<bool>,
        o: seq<byte>): Outcome {
    if c.Literal? then Codes(w, last, ll, dl, rest, o + [c.b])
    else if c.EndOfBlock? then Blocks(w, last, rest, o)
    else if c.BadLen? then Corrupt(o)
    else LenExt(w, last, ll, dl, c.base, c.extra, rest, o)
  }

  lemma ClassifyLenSym(s: nat, n: nat)
    requires s < 288
    ensures var c := ClassifyLen(SymCode(LENS, s, n));
            if s < 256 then c == Literal(s)
            else if s == 256 then c == EndOfBlock
            else if s > 285 then c == BadLen
            else c == Length(LBASE[s - 257], LEXT[s - 257] % 16) && 3 <= LBASE[s - 257] && LEXT[s - 257] % 16 <= 5 &&
                 LBASE[s - 257] + Pow2(LEXT[s - 257] % 16) <= 259
  {
    hide Pow2, LBASE, LEXT;
    LenTables();
    if 257 <= s <= 285 {
      LenRow(s - 257);
    }
  }

  lemma LenTables()
    ensures |LBASE| == 31 && |LEXT| == 31 && LEXT[29] == 203 && LEXT[30] == 77
  {
  }

  lemma LenRow(i: nat)
    requires i < 29
    ensures 16 <= LEXT[i] <= 21 && 3 <= LBASE[i] && LBASE[i] + Pow2(LEXT[i] % 16) <= 259
  {
    if i < 28 {
      LenRoom(i);
    }
  }

  lemma LenRoom(i: nat)
    requires i < 28
    ensures 16 <= LEXT[i] <= 21 && 3 <= LBASE[i] && LBASE[i] + Pow2(LEXT[i] % 16) <= 259
  {
    assert LEXT[i] == (if i < 8 then 16 else 15 + i / 4);
    assert LBASE[i] <= (if i < 24 then 115 else 227);
    assert Pow2(0) == 1 && Pow2(1) == 2 && Pow2(2) == 4;
    assert Pow2(3) == 8 && Pow2(4) == 16 && Pow2(5) == 32;
  }

  lemma CodesStep(w: nat, last: bool, ll: seq<nat>, dl: seq<nat>, b: seq<bool>, o: seq<byte>, here: Code,
        rest: seq<bool>)
    requires match ReadSymbol(ll, b)
             case Sym(s, t) => s < 288 && here == SymCode(LENS, s, here.bits) && rest == t
             case NoCode => here == INVALID
             case NeedMore => false
    ensures Codes(w, last, ll, dl, b, o) == AfterLen(ClassifyLen(here), w, last, ll, dl, rest, o)
    ensures LenIs(ReadSymbol(ll, b), ClassifyLen(here), rest)
    ensures ClassifyLen(here).Length? ==>
      3 <= ClassifyLen(here).base && ClassifyLen(here).extra <= 5 &&
          ClassifyLen(here).base + Pow2(ClassifyLen(here).extra) <= 259
  {
    hide Blocks, LenExt, SymCode, ClassifyLen, Pow2;
    match ReadSymbol(ll, b)
    case Sym(s, t) =>
      ClassifyLenSym(s, here.bits);
    case NoCode =>
      assert ClassifyLen(INVALID) == BadLen by {
        ClassifyInvalid();
      }
  }

  lemma ClassifyInvalid()
    ensures ClassifyLen(INVALID) == BadLen && ClassifyDist(INVALID) == BadDist
  {
  }

  lemma CodesShort(w: nat, last: bool, ll: seq<nat>, dl: seq<nat>, b: seq<bool>, o: seq<byte>)
    requires ReadSymbol(ll, b) == NeedMore
    ensures Codes(w, last, ll, dl, b, o) == Starved(o)
  {
  }

  /** LEN: a literal/length code. */
  method StepLen(r: Regs, t: seq<Code>, root: nat, last: bool, ghost ll: seq<nat>, ghost dl: seq<nat>,
                 ghost w: nat, ghost o: seq<byte>, ghost f: seq<bool>)
      returns (more: bool, r': Regs, c: LenCode)
    requires r.Ok() && r.bits <= 24 && Decodes(t, root, LENS, ll) && Usable(LENS, ll) && Pow2(root) <= |t| &&
             Lean(r, t, root)
    ensures r'.Ok() && r'.input == r.input
    ensures !more ==> Pulled(r, r') && r'.bits <= 24 && Lean(r', t, root) && r'.next == |r'.input|
    ensures !more ==> Codes(w, last, ll, dl, r'.Avail(), o) == Starved(o)
    ensures more ==> r'.bits < 8 && r'.Unread() < r.Unread()
    ensures more && c.Length? ==> 3 <= c.base && c.extra <= 5 && c.base + Pow2(c.extra) <= 259
    ensures more ==> Codes(w, last, ll, dl, r.Avail() + f, o) == AfterLen(c, w, last, ll, dl, r'.Avail() + f, o)
    ensures !more ==> ReadSymbol(ll, r.Avail()) == NeedMore
    ensures more ==> LenIs(ReadSymbol(ll, r.Avail() + f), c, r'.Avail() + f)
  {
    hide ToBits, Decodes, Lookup, Usable, Pow2, ReadSymbol, Codes, Blocks, LenExt, SymCode, ClassifyLen;
    c := BadLen;
    var here;
    more, r', here := ReadCode(r, t, root, LENS, ll, f);
    if !more {
      CodesShort(w, last, ll, dl, r'.Avail(), o);
      return;
    }
    c := ClassifyLen(here);
    CodesStep(w, last, ll, dl, r.Avail() + f, o, here, r'.Avail() + f);
  }

  /** n is the base and the value of the extra bits, and rest what follows them. */
  ghost predicate ExtraRead(b: seq<bool>, base: nat, extra: nat, n: nat, rest: seq<bool>) {
    |b| >= extra && n == base + ToInt(b[..extra]) && rest == b[extra..]
  }

  /** LENEXT: the extra bits of a length. */
  method StepLenExt(r: Regs, base: nat, extra: nat, last: bool, ghost ll: seq<nat>, ghost dl: seq<nat>,
                    ghost w: nat, ghost o: seq<byte>, ghost f: seq<bool>)
      returns (more: bool, r': Regs, length: nat)
    requires r.Ok() && r.bits < 8 && extra <= 5
    ensures r'.Ok() && r'.input == r.input && r'.bits < 8 && r'.Unread() <= r.Unread()
    ensures !more ==>
      Pulled(r, r') && r'.next == |r'.input| && LenExt(w, last, ll, dl, base, extra, r'.Avail(), o) == Starved(o)
    ensures more ==> base <= length < base + Pow2(extra)
    ensures more ==>
      LenExt(w, last, ll, dl, base, extra, r.Avail() + f, o) == Dist(w, last, ll, dl, length, r'.Avail() + f, o)
    ensures !more ==> |r.Avail()| < extra
    ensures more ==> ExtraRead(r.Avail() + f, base, extra, length, r'.Avail() + f)
  {
    hide ToBits, Pow2, Dist;
    length := 0;
    more, r' := NeedBits(r, extra);
    if !more {
      return;
    }
    var v;
    v, r' := TakeBits(r', extra, f);
    length := base + v;
  }

  /** What a distance entry asks for. */
  datatype DistCode = Distance(base: nat, extra: nat) | BadDist

  function ClassifyDist(here: Code): DistCode {
    if here.op / 64 % 2 == 1 then BadDist else Distance(here.val, here.op % 16)
  }

  /** What a distance symbol stands for (section 3.2.5 of RFC 1951). */
  function DistOf(s: nat): DistCode {
    if s > 29 then BadDist else Distance(DBASE[s], DEXT[s] % 16)
  }

  /** c is the distance code that the bits begin with, and rest what follows it. */
  ghost predicate DistIs(sym: Symbol, c: DistCode, rest: seq<bool>) {
    match sym
    case NeedMore => false
    case NoCode => c == BadDist
    case Sym(s, t) => rest == t && c == DistOf(s)
  }

  /** What is left to decode after a distance code. */
  ghost function AfterDist(c: DistCode, w: nat, last: bool, ll: seq<nat>, dl: seq<nat>, len: nat, rest: seq<bool>,
        o: seq<byte>): Outcome {
    if c.BadDist? then Corrupt(o) else DistExt(w, last, ll, dl, len, c.base, c.extra, rest, o)
  }

  lemma ClassifyDistSym(s: nat, n: nat)
    requires s < 32
    ensures var c := ClassifyDist(SymCode(DISTS, s, n));
            if s > 29 then c == BadDist
            else c == Distance(DBASE[s], DEXT[s] % 16) && 1 <= DBASE[s] && DEXT[s] % 16 <= 13 &&
                 DBASE[s] + Pow2(DEXT[s] % 16) <= 32769
  {
    hide Pow2, DBASE, DEXT;
    DistTables();
    if s <= 29 {
      DistRow(s);
    }
  }

  lemma DistTables()
    ensures |DBASE| == 32 && |DEXT| == 32 && DEXT[30] == 64 && DEXT[31] == 64
  {
  }

  lemma DistRow(i: nat)
    requires i < 30
    ensures 16 <= DEXT[i] <= 29 && 1 <= DBASE[i] && DBASE[i] + Pow2(DEXT[i] % 16) <= 32769
  {
    assert DEXT[i] == (if i < 4 then 16 else 15 + i / 2);
    assert DBASE[i] <= (if i < 28 then 12289 else 24577);
    DistPowers(DEXT[i] % 16);
  }

  lemma DistPowers(n: nat)
    requires n <= 13
    ensures Pow2(n) <= 8192 && (n <= 12 ==> Pow2(n) <= 4096)
  {
    assert Pow2(10) == 1024 && Pow2(11) == 2048 && Pow2(12) == 4096 && Pow2(13) == 8192;
    Pow2Mono(n, 13);
    if n <= 12 {
      Pow2Mono(n, 12);
    }
  }

  lemma DistStep(w: nat, last: bool, ll: seq<nat>, dl: seq<nat>, len: nat, b: seq<bool>, o: seq<byte>, here: Code,
        rest: seq<bool>)
    requires match ReadSymbol(dl, b)
             case Sym(s, t) => s < 32 && here == SymCode(DISTS, s, here.bits) && rest == t
             case NoCode => here == INVALID
             case NeedMore => false
    ensures Dist(w, last, ll, dl, len, b, o) ==
            AfterDist(ClassifyDist(here), w, last, ll, dl, len, rest, o)
    ensures DistIs(ReadSymbol(dl, b), ClassifyDist(here), rest)
    ensures ClassifyDist(here).Distance? ==>
      1 <= ClassifyDist(here).base && ClassifyDist(here).extra <= 13 &&
          ClassifyDist(here).base + Pow2(ClassifyDist(here).extra) <= 32769
  {
    hide DistExt, SymCode, ClassifyDist, Pow2;
    match ReadSymbol(dl, b)
    case Sym(s, t) =>
      ClassifyDistSym(s, here.bits);
    case NoCode =>
      ClassifyInvalid();
  }

  lemma DistShort(w: nat, last: bool, ll: seq<nat>, dl: seq<nat>, len: nat, b: seq<bool>, o: seq<byte>)
    requires ReadSymbol(dl, b) == NeedMore
    ensures Dist(w, last, ll, dl, len, b, o) == Starved(o)
  {
  }

  /** DIST: a distance code. */
  method StepDist(r: Regs, t: seq<Code>, root: nat, length: nat, last: bool, ghost ll: seq<nat>, ghost dl: seq<nat>,
                  ghost w: nat, ghost o: seq<byte>, ghost f: seq<bool>)
      returns (more: bool, r': Regs, c: DistCode)
    requires r.Ok() && r.bits <= 24 && Decodes(t, root, DISTS, dl) && Usable(DISTS, dl) && Pow2(root) <= |t| &&
             Lean(r, t, root)
    ensures r'.Ok() && r'.input == r.input
    ensures !more ==> Pulled(r, r') && r'.bits <= 24 && Lean(r', t, root) && r'.next == |r'.input|
    ensures !more ==> Dist(w, last, ll, dl, length, r'.Avail(), o) == Starved(o)
    ensures more ==> r'.bits < 8 && r'.Unread() < r.Unread()
    ensures more && c.Distance? ==> 1 <= c.base && c.extra <= 13 && c.base + Pow2(c.extra) <= 32769
    ensures more ==>
      Dist(w, last, ll, dl, length, r.Avail() + f, o) == AfterDist(c, w, last, ll, dl, length, r'.Avail() + f, o)
    ensures !more ==> ReadSymbol(dl, r.Avail()) == NeedMore
    ensures more ==> DistIs(ReadSymbol(dl, r.Avail() + f), c, r'.Avail() + f)
  {
    hide ToBits, Decodes, Lookup, Usable, Pow2, ReadSymbol, Dist, DistExt, SymCode, ClassifyDist;
    c := BadDist;
    var here;
    more, r', here := ReadCode(r, t, root, DISTS, dl, f);
    if !more {
      DistShort(w, last, ll, dl, length, r'.Avail(), o);
      return;
    }
    c := ClassifyDist(here);
    DistStep(w, last, ll, dl, length, r.Avail() + f, o, here, r'.Avail() + f);
  }

  /** DISTEXT: the extra bits of a distance. */
  method StepDistExt(r: Regs, length: nat, base: nat, extra: nat, last: bool, ghost ll: seq<nat>, ghost dl: seq<nat>,
                     ghost w: nat, ghost o: seq<byte>, ghost f: seq<bool>)
      returns (more: bool, r': Regs, offset: nat)
    requires r.Ok() && (r.bits < 8 || r.bits < extra) && extra <= 13
    ensures r'.Ok() && r'.input == r.input && r'.Unread() <= r.Unread()
    ensures !more ==> Pulled(r, r') && r'.bits < extra && r'.next == |r'.input|
    ensures !more ==> DistExt(w, last, ll, dl, length, base, extra, r'.Avail(), o) == Starved(o)
    ensures more ==> base <= offset < base + Pow2(extra) && r'.bits < 8
    ensures more ==>
      DistExt(w, last, ll, dl, length, base, extra, r.Avail() + f, o) ==
      Match(w, last, ll, dl, length, offset, r'.Avail() + f, o)
    ensures !more ==> |r.Avail()| < extra
    ensures more ==> ExtraRead(r.Avail() + f, base, extra, offset, r'.Avail() + f)
  {
    hide ToBits, Pow2, Match;
    offset := 0;
    more, r' := NeedBits(r, extra);
    if !more {
      return;
    }
    var v;
    v, r' := TakeBits(r', extra, f);
    offset := base + v;
  }
}
