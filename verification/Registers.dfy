/**
 The registers of inflate: the unread input and the bit accumulator, with the operations on them
 (PULLBYTE, NEEDBITS, BITS, DROPBITS, BYTEBITS, INITBITS) and the finding of a code.
 */
module Registers {
  import opened Bits
  import opened Canonical
  import opened TableSpec
  import opened Rfc1951
  import opened Decode

  /** next bytes of input have been pulled; hold has bits of them that are not yet used. */
  datatype Regs = Regs(input: seq<byte>, next: nat, hold: nat, bits: nat) {

    ghost predicate Ok() {
      hold < Pow2(bits) && bits <= 32 && next <= |input|
    }

    /** The bits held, then the unread input. */
    ghost function Avail(): (a: seq<bool>)
      requires Ok()
      ensures |a| == Unread()
    {
      ToBits(hold, bits) + BytesBits(input[next..])
    }

    /** How many bits that is. */
    function Unread(): int {
      8 * (|input| - next) + bits
    }
  }

  /** r' is r with perhaps some more bytes pulled. */
  ghost predicate Pulled(r: Regs, r': Regs)
    requires r.Ok()
  {
    && r'.Ok() && r'.input == r.input && r.next <= r'.next && r.bits <= r'.bits
    && r'.bits % 8 == r.bits % 8 && Low(r'.hold, r.bits) == r.hold
    && r'.Avail() == r.Avail()
  }

  lemma PulledSame(r: Regs)
    requires r.Ok()
    ensures Pulled(r, r)
  {
    hide Low, Pow2, ToBits;
    LowOfSmall(r.hold, r.bits);
  }

  lemma PulledTrans(r: Regs, s: Regs, t: Regs)
    requires r.Ok() && Pulled(r, s) && Pulled(s, t)
    ensures Pulled(r, t)
  {
    hide Low, Pow2, ToBits;
    LowLow(t.hold, r.bits, s.bits);
  }

  /** The low k of the bits available are the low k bits held. */
  lemma Peek(hold: nat, bits: nat, tail: seq<bool>, k: nat)
    requires k <= bits
    ensures (ToBits(hold, bits) + tail)[..k] == ToBits(hold, bits)[..k]
    ensures ToInt((ToBits(hold, bits) + tail)[..k]) == Low(hold, k) < Pow2(k)
  {
    hide ToBits;
    LowBits(hold, bits, k);
    assert (ToBits(hold, bits) + tail)[..k] == ToBits(hold, bits)[..k];
  }

  lemma Skip(a: seq<bool>, tail: seq<bool>, k: nat)
    requires k <= |a|
    ensures (a + tail)[k..] == a[k..] + tail
  {
  }

  method PullByte(r: Regs) returns (ok: bool, r': Regs)
    requires r.Ok() && r.bits <= 24
    ensures Pulled(r, r')
    ensures ok ==> r'.bits == r.bits + 8 && r'.next == r.next + 1
    ensures !ok ==> r'.next == |r'.input| && r' == r
  {
    hide ToBits, Pow2, Shl, Low;
    ok := r.next < |r.input|;
    r' := r;
    PulledSame(r);
    if ok {
      var b := r.input[r.next];
      PushByte(r.hold, r.bits, b);
      Append(r.hold, r.bits, b);
      assert r.input[r.next..][0] == b && r.input[r.next..][1..] == r.input[r.next + 1..];
      r' := r.(hold := r.hold + Shl(b, r.bits), bits := r.bits + 8, next := r.next + 1);
    }
  }

  /** NEEDBITS: at least n bits in the accumulator, if the input lasts. */
  method NeedBits(r: Regs, n: nat) returns (ok: bool, r': Regs)
    requires r.Ok() && n <= 32 && (n <= 24 || r.bits % 8 == n % 8)
    ensures Pulled(r, r')
    ensures ok ==> r'.bits >= n && (r'.bits == r.bits || r'.bits < n + 8)
    ensures !ok ==> r'.next == |r'.input| && r'.bits < n
  {
    hide ToBits, Pow2, Low;
    ok := true;
    r' := r;
    PulledSame(r);
    while r'.bits < n
      invariant Pulled(r, r')
      invariant r'.bits == r.bits || r'.bits < n + 8
      decreases n - r'.bits
    {
      ghost var s := r';
      ok, r' := PullByte(r');
      PulledTrans(r, s, r');
      if !ok {
        return;
      }
    }
  }

  /** DROPBITS */
  method DropBits(r: Regs, n: nat) returns (r': Regs)
    requires r.Ok() && n <= r.bits
    ensures r'.Ok() && r'.Avail() == r.Avail()[n..]
    ensures r'.input == r.input && r'.next == r.next && r'.bits == r.bits - n && r'.hold == Shr(r.hold, n)
  {
    hide ToBits, Pow2;
    ShiftOut(r.hold, r.bits, n);
    Skip(ToBits(r.hold, r.bits), BytesBits(r.input[r.next..]), n);
    r' := r.(hold := Shr(r.hold, n), bits := r.bits - n);
  }

  /** BITS then DROPBITS: the next n of the bits held. */
  method TakeBits(r: Regs, n: nat, ghost f: seq<bool>) returns (v: nat, r': Regs)
    requires r.Ok() && n <= r.bits
    ensures r'.Ok() && r'.input == r.input && r'.next == r.next && r'.bits == r.bits - n
    ensures v == ToInt((r.Avail() + f)[..n]) && v < Pow2(n)
    ensures r'.Avail() + f == (r.Avail() + f)[n..]
  {
    hide ToBits, Pow2;
    Peek(r.hold, r.bits, BytesBits(r.input[r.next..]) + f, n);
    assert r.Avail() + f == ToBits(r.hold, r.bits) + (BytesBits(r.input[r.next..]) + f);
    Skip(r.Avail(), f, n);
    v := Low(r.hold, n);
    r' := DropBits(r, n);
  }

  /** BYTEBITS: drops what remains of the current byte. */
  method ByteBits(r: Regs, ghost f: seq<bool>) returns (r': Regs)
    requires r.Ok() && |f| % 8 == 0
    ensures r'.Ok() && r'.Avail() + f == Align(r.Avail() + f)
    ensures r'.input == r.input && r'.next == r.next && r'.bits == r.bits - r.bits % 8
  {
    hide ToBits, Pow2;
    Skip(r.Avail(), f, r.bits % 8);
    r' := DropBits(r, r.bits % 8);
  }

  /** The whole accumulator, then INITBITS. */
  method TakeAll(r: Regs, ghost f: seq<bool>) returns (v: nat, r': Regs)
    requires r.Ok()
    ensures r'.Ok() && r'.input == r.input && r'.next == r.next && r'.bits == 0
    ensures v == r.hold && v == ToInt((r.Avail() + f)[..r.bits]) && v < Pow2(r.bits)
    ensures r'.Avail() + f == (r.Avail() + f)[r.bits..]
  {
    hide ToBits, Pow2;
    LowOfSmall(r.hold, r.bits);
    Peek(r.hold, r.bits, BytesBits(r.input[r.next..]) + f, r.bits);
    assert r.Avail() + f == ToBits(r.hold, r.bits) + (BytesBits(r.input[r.next..]) + f);
    v, r' := TakeBits(r, r.bits, f);
  }

  // ---------- codes ----------

  /** Without its last byte the accumulator was too short for the code it then seemed to begin with. */
  ghost predicate WasShort(t: seq<Code>, root: nat, hold: nat, bits: nat) {
    Pow2(root) <= |t| && bits >= 8 && Lookup(t, root, Low(hold, bits - 8)).bits > bits - 8
  }

  lemma JustEnough(t: seq<Code>, root: nat, kind: Kind, cls: seq<nat>, hold: nat, bits: nat)
    requires Decodes(t, root, kind, cls) && Usable(kind, cls) && WasShort(t, root, hold, bits)
    ensures bits < Lookup(t, root, hold).bits + 8
  {
    hide Lookup, Low;
    if Lookup(t, root, hold).bits <= bits - 8 {
      LowLow(hold, bits - 8, bits - 8);
      LookupStable(t, root, kind, cls, Low(hold, bits - 8), hold, bits - 8);
    }
  }

  lemma CodeLength(t: seq<Code>, root: nat, kind: Kind, cls: seq<nat>, hold: nat)
    requires Decodes(t, root, kind, cls) && Usable(kind, cls)
    ensures 0 < Lookup(t, root, hold).bits <= MAXBITS
  {
    LookupBits(t, root, kind, cls, hold);
  }

  /** The second lookup, in the sub-table a link leads to. */
  method FindSecond(r: Regs, t: seq<Code>, root: nat, link: Code, ghost kind: Kind, ghost cls: seq<nat>)
      returns (ok: bool, r': Regs, here: Code)
    requires r.Ok() && r.bits <= 24 && Decodes(t, root, kind, cls) && Usable(kind, cls)
    requires Low(r.hold, root) < |t| && link == t[Low(r.hold, root)] && IsLink(link) && link.bits <= r.bits
    ensures Pulled(r, r') && Pow2(root) <= |t|
    ensures ok ==> here == Lookup(t, root, r'.hold) && here.bits <= r'.bits
    ensures !ok ==> r'.next == |r'.input| && Lookup(t, root, r'.hold).bits > r'.bits
    ensures r' == r || WasShort(t, root, r'.hold, r'.bits)
  {
    hide ToBits, Low, Shr, Decodes, Lookup, Usable, Pow2, WasShort;
    FirstEntry(t, root, kind, cls, r.hold);
    here := t[link.val + Low(Shr(r.hold, link.bits), link.op)];
    ok := true;
    r' := r;
    PulledSame(r);
    while link.bits + here.bits > r'.bits
      invariant Pulled(r, r') && r'.bits <= 24
      invariant Low(r'.hold, root) < |t| && link == t[Low(r'.hold, root)] && link.bits == root <= r'.bits
      invariant link.val + Low(Shr(r'.hold, root), link.op) < |t|
      invariant here == t[link.val + Low(Shr(r'.hold, root), link.op)]
      invariant r' == r || WasShort(t, root, r'.hold, r'.bits)
      decreases |r'.input| - r'.next
    {
      FirstEntry(t, root, kind, cls, r'.hold);
      CodeLength(t, root, kind, cls, r'.hold);
      ghost var s := r';
      ok, r' := PullByte(r');
      PulledTrans(r, s, r');
      if !ok {
        return;
      }
      PulledShort(t, root, s, r');
      LowLow(r'.hold, root, s.bits);
      FirstEntry(t, root, kind, cls, r'.hold);
      here := t[link.val + Low(Shr(r'.hold, link.bits), link.op)];
    }
    FirstEntry(t, root, kind, cls, r'.hold);
    here := Code(here.op, link.bits + here.bits, here.val);
  }

  /** When a byte had to be pulled, the accumulator was too short without it. */
  lemma PulledShort(t: seq<Code>, root: nat, r: Regs, r': Regs)
    requires r.Ok() && Pulled(r, r') && r'.bits == r.bits + 8
    requires Pow2(root) <= |t| && Lookup(t, root, r.hold).bits > r.bits
    ensures WasShort(t, root, r'.hold, r'.bits)
  {
    hide Lookup, Low, ToBits, Pow2;
  }

  /** Pulls just enough bytes to find the code at the front of the accumulator. */
  method FindCode(r: Regs, t: seq<Code>, root: nat, ghost kind: Kind, ghost cls: seq<nat>)
      returns (ok: bool, r': Regs, here: Code)
    requires r.Ok() && r.bits <= 24 && Decodes(t, root, kind, cls) && Usable(kind, cls)
    ensures Pulled(r, r') && Pow2(root) <= |t|
    ensures ok ==> here == Lookup(t, root, r'.hold) && here.bits <= r'.bits && (r' == r || r'.bits < here.bits + 8)
    ensures !ok ==> r'.next == |r'.input| && Lookup(t, root, r'.hold).bits > r'.bits
  {
    hide ToBits, Low, Shr, Decodes, Lookup, Usable, Pow2, WasShort;
    FirstEntry(t, root, kind, cls, r.hold);
    here := t[Low(r.hold, root)];
    ok := true;
    r' := r;
    PulledSame(r);
    while here.bits > r'.bits
      invariant Pulled(r, r') && r'.bits <= 24
      invariant Low(r'.hold, root) < |t| && here == t[Low(r'.hold, root)]
      invariant r' == r || WasShort(t, root, r'.hold, r'.bits)
      decreases |r'.input| - r'.next
    {
      FirstEntry(t, root, kind, cls, r'.hold);
      CodeLength(t, root, kind, cls, r'.hold);
      ghost var s := r';
      ok, r' := PullByte(r');
      PulledTrans(r, s, r');
      if !ok {
        return;
      }
      PulledShort(t, root, s, r');
      FirstEntry(t, root, kind, cls, r'.hold);
      here := t[Low(r'.hold, root)];
    }
    FirstEntry(t, root, kind, cls, r'.hold);
    if IsLink(here) {
      ghost var s := r';
      ok, r', here := FindSecond(r', t, root, here, kind, cls);
      PulledTrans(r, s, r');
      if !ok {
        return;
      }
    }
    if r' != r {
      JustEnough(t, root, kind, cls, r'.hold, r'.bits);
    }
  }

  /** Held bits are lean when a whole byte among them is not spare: they do not yet make up the next code. */
  ghost predicate Lean(r: Regs, t: seq<Code>, root: nat)
    requires Pow2(root) <= |t|
  {
    r.bits < 8 || Lookup(t, root, r.hold).bits > r.bits
  }

  /** Reads the next code; fails, with the bits found so far held, when the input is used up. */
  method ReadCode(r: Regs, t: seq<Code>, root: nat, kind: Kind, ghost cls: seq<nat>, ghost f: seq<bool>)
      returns (ok: bool, r': Regs, here: Code)
    requires r.Ok() && r.bits <= 24 && Decodes(t, root, kind, cls) && Usable(kind, cls)
    requires Pow2(root) <= |t| && Lean(r, t, root)
    ensures r'.Ok() && r'.input == r.input && r.next <= r'.next
    ensures !ok ==> Pulled(r, r') && Lean(r', t, root) && r'.bits <= 24
    ensures !ok ==> r'.next == |r'.input| && ReadSymbol(cls, r'.Avail()) == NeedMore
    ensures ok ==> r'.bits < 8 && r'.Unread() < r.Unread()
    ensures ok ==> match ReadSymbol(cls, r.Avail() + f)
                   case Sym(s, rest) => s < MaxSyms(kind) && here == SymCode(kind, s, here.bits) &&
                       r'.Avail() + f == rest
                   case NoCode => here == INVALID && r'.Avail() + f == (r.Avail() + f)[1..]
                   case NeedMore => false
  {
    hide ToBits, Low, Shr, Decodes, Lookup, Usable, Pow2, SymCode, ReadSymbol;
    ok, r', here := FindCode(r, t, root, kind, cls);
    CodeLength(t, root, kind, cls, r'.hold);
    if !ok {
      LookupStarves(t, root, kind, cls, r'.hold, r'.bits);
      assert r'.Avail() == ToBits(r'.hold, r'.bits);
      return;
    }
    ghost var b := r.Avail() + f;
    assert ToBits(r'.hold, r'.bits) <= b;
    LookupReads(t, root, kind, cls, r'.hold, r'.bits, b);
    Skip(r.Avail(), f, here.bits);
    if r' == r {
      assert r'.bits < 8;
    }
    r' := DropBits(r', here.bits);
  }
}
