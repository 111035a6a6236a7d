/**
 The pieces of inflate_fast: decoding while there are at least six bytes of input and room for 258 bytes of
 output, so that neither need be checked within a length/distance pair.
 */
module FastSteps {
  import opened Bits
  import opened TableSpec
  import opened Lz77
  import opened Rfc1951
  import opened Decode
  import opened Window
  import opened Registers
  import opened InflateSteps
  import opened InflateMatch
  import opened Readings

  /** The bits available after using n of them. */
  ghost predicate Spent(r: Regs, r': Regs, n: nat) {
    && r.Ok() && r'.Ok() && r'.input == r.input && r.next <= r'.next
    && n <= r.Unread() && r'.Unread() == r.Unread() - n && r'.Avail() == r.Avail()[n..]
  }

  lemma SpentTrans(r: Regs, s: Regs, t: Regs, m: nat, n: nat)
    requires Spent(r, s, m) && Spent(s, t, n)
    ensures Spent(r, t, m + n)
  {
    hide ToBits, BytesBits, Pow2;
  }

  lemma PulledSpent(r: Regs, s: Regs)
    requires r.Ok() && Pulled(r, s)
    ensures Spent(r, s, 0)
  {
    hide ToBits, BytesBits, Pow2;
    assert |r.Avail()| == |s.Avail()|;
  }

  /** At least 15 bits, enough for any code, at the cost of at most two bytes. */
  method Refill(r: Regs) returns (r': Regs)
    requires r.Ok() && r.bits <= 30 && r.next + 2 <= |r.input|
    ensures Pulled(r, r')
    ensures if r.bits >= 15 then r' == r else r'.bits == r.bits + 16 && r'.next == r.next + 2
  {
    hide ToBits, BytesBits, Pow2, Low;
    r' := r;
    PulledSame(r);
    if r.bits < 15 {
      var ok, q;
      ok, q := PullByte(r);
      ok, r' := PullByte(q);
      PulledTrans(r, q, r');
    }
  }

  /** Looks up the next code, in one or two steps. */
  method FastCode(r: Regs, t: seq<Code>, root: nat, kind: Kind, ghost cls: seq<nat>, ghost f: seq<bool>)
      returns (r': Regs, here: Code, ghost n: nat)
    requires r.Ok() && 15 <= r.bits <= 30 && Decodes(t, root, kind, cls) && Usable(kind, cls)
    ensures 1 <= n <= 15 && Spent(r, r', n) && r'.next == r.next && r'.bits == r.bits - n
    ensures Pow2(root) <= |t| && n == Lookup(t, root, r.hold).bits
    ensures match ReadSymbol(cls, r.Avail() + f)
            case Sym(s, rest) => s < MaxSyms(kind) && here == SymCode(kind, s, here.bits) && r'.Avail() + f == rest
            case NoCode => here == INVALID
            case NeedMore => false
  {
    hide ToBits, BytesBits, Low, Shr, Decodes, Lookup, Usable, Pow2, SymCode, ReadSymbol, MaxSyms;
    FirstEntry(t, root, kind, cls, r.hold);
    CodeLength(t, root, kind, cls, r.hold);
    ghost var b := r.Avail() + f;
    assert ToBits(r.hold, r.bits) <= b;
    LookupReads(t, root, kind, cls, r.hold, r.bits, b);
    here := t[Low(r.hold, root)];
    n := Lookup(t, root, r.hold).bits;
    r' := DropBits(r, here.bits);
    if IsLink(here) {
      var first := here.bits;
      here := t[here.val + Low(r'.hold, here.op)];
      DropDrop(r.Avail(), first, here.bits);
      r' := DropBits(r', here.bits);
      here := Code(here.op, first + here.bits, here.val);
    }
    Skip(r.Avail(), f, n);
  }

  lemma DropDrop(a: seq<bool>, m: nat, n: nat)
    requires m + n <= |a|
    ensures a[m..][n..] == a[m + n..]
  {
  }

  /** n extra bits, pulling bytes as needed. */
  method TakeExtra(r: Regs, n: nat, ghost f: seq<bool>) returns (v: nat, r': Regs)
    requires r.Ok() && n <= 13 && r.bits <= 30
    requires r.next + (if r.bits >= n then 0 else if r.bits + 8 >= n then 1 else 2) <= |r.input|
    ensures Spent(r, r', n) && |r.Avail() + f| >= n
    ensures r'.next == r.next + if r.bits >= n then 0 else if r.bits + 8 >= n then 1 else 2
    ensures r'.bits == r.bits + 8 * (r'.next - r.next) - n
    ensures v == ToInt((r.Avail() + f)[..n]) && v < Pow2(n) && r'.Avail() + f == (r.Avail() + f)[n..]
  {
    hide ToBits, BytesBits, Pow2, Low, ToInt;
    var q := r;
    PulledSame(r);
    if q.bits < n {
      var ok;
      ok, q := PullByte(q);
      if q.bits < n {
        ghost var q1 := q;
        ok, q := PullByte(q);
        PulledTrans(r, q1, q);
      }
    }
    PulledSpent(r, q);
    v, r' := TakeBits(q, n, f);
    assert (q.Avail() + f)[n..] == q.Avail()[n..] + f;
    SameTail(r'.Avail(), q.Avail()[n..], f);
  }

  lemma SameTail(a: seq<bool>, b: seq<bool>, f: seq<bool>)
    requires a + f == b + f
    ensures a == b
  {
    assert |a| == |b|;
    assert a == (a + f)[..|a|];
    assert b == (b + f)[..|b|];
  }

  /** Copies a string from the window, from the output, or from one and then the other. */
  method FastCopy(window: array<byte>, wsize: nat, whave: nat, wnext: nat, len: nat, dist: nat,
                  output: seq<byte>, ghost hist: seq<byte>)
      returns (good: bool, output': seq<byte>)
    requires HistoryOk(window[..], wsize, whave, wnext, hist) && len > 0 && dist > 0
    ensures good <==> dist <= |output| + whave
    ensures !good ==> output' == output
    ensures good ==>
      |output'| == |output| + len && dist <= |hist + output| && hist + output' == CopyMatch(hist + output, dist, len)
  {
    hide Holds, CopyMatch;
    HaveBound(window[..], wsize, whave, wnext, hist);
    output', good := output, false;
    if dist <= |output| {
      output' := CopyFromOutput(output, dist, len, hist);
      good := true;
      return;
    }
    var op := dist - |output|;
    if op > whave {
      return;
    }
    good := true;
    var rest := len;
    if wnext == 0 || op <= wnext {
      var from := if wnext == 0 then wsize - op else wnext - op;
      var n := if op < len then op else len;
      output' := CopyFromWindow(window, from, n, output, dist, wsize, whave, wnext, hist);
      rest := len - n;
    } else {
      var from := wsize + wnext - op;
      var n := if op - wnext < len then op - wnext else len;
      output' := CopyFromWindow(window, from, n, output, dist, wsize, whave, wnext, hist);
      rest := len - n;
      if rest > 0 {
        var m := if wnext < rest then wnext else rest;
        output' := CopyFromWindow(window, 0, m, output', dist, wsize, whave, wnext, hist);
        CopySplit(hist + output, dist, n, m);
        rest := rest - m;
      }
    }
    if rest > 0 {
      CopySplit(hist + output, dist, len - rest, rest);
      output' := CopyFromOutput(output', dist, rest, hist);
    }
  }

  lemma LenExtIs(w: nat, last: bool, ll: seq<nat>, dl: seq<nat>, base: nat, extra: nat, b: seq<bool>, o: seq<byte>)
    requires |b| >= extra
    ensures LenExt(w, last, ll, dl, base, extra, b, o) == Dist(w, last, ll, dl, base + ToInt(b[..extra]), b[extra..], o)
  {
    hide Dist;
  }

  lemma DistExtIs(w: nat, last: bool, ll: seq<nat>, dl: seq<nat>, len: nat, base: nat, extra: nat, b: seq<bool>,
        o: seq<byte>)
    requires |b| >= extra
    ensures DistExt(w, last, ll, dl, len, base, extra, b, o) ==
            Match(w, last, ll, dl, len, base + ToInt(b[..extra]), b[extra..], o)
  {
    hide Match;
  }

  /** A distance: code and extra bits. */
  method FastDist(r: Regs, t: seq<Code>, root: nat, len: nat, last: bool,
                  ghost ll: seq<nat>, ghost dl: seq<nat>, ghost w: nat, ghost o: seq<byte>, ghost f: seq<bool>)
      returns (good: bool, r': Regs, dist: nat, ghost n: nat)
    requires r.Ok() && r.bits <= 30 && Decodes(t, root, DISTS, dl) && Usable(DISTS, dl)
    requires r.next + (if r.bits < 4 then 4 else 3) <= |r.input|
    ensures Spent(r, r', n) && r'.bits <= 30
    ensures Dist(w, last, ll, dl, len, r.Avail() + f, o) ==
            if good then Match(w, last, ll, dl, len, dist, r'.Avail() + f, o) else Corrupt(o)
    ensures good ==> 1 <= dist <= 32768
    ensures DistAt(dl, len, r.Avail() + f) == if good then String(len, dist, r'.Avail() + f) else NoSuch
    ensures r'.next == r.next + DistFetched(dl, r.Avail() + f, r.bits)
  {
    hide ToBits, BytesBits, Pow2, Low, ToInt, Decodes, Usable, Lookup, Spent, ClassifyDist, ReadSymbol, SymCode, Dist,
      DistExt, Match, Pulled, MaxSyms, DistIs, DistAt, DistFetched;
    Dists();
    var r1 := Refill(r);
    PulledSpent(r, r1);
    PulledOk(r, r1);
    var r2, here, n1 := FastCode(r1, t, root, DISTS, dl, f);
    SpentTrans(r, r1, r2, 0, n1);
    SpentOk(r1, r2, n1);
    DistStep(w, last, ll, dl, len, r1.Avail() + f, o, here, r2.Avail() + f);
    good, r', dist, n := false, r2, 0, n1;
    var c := ClassifyDist(here);
    DistFound(dl, len, r1.Avail() + f, c, r2.Avail() + f, r.bits);
    if c.Distance? {
      var v, r3 := TakeExtra(r2, c.extra, f);
      DistExtIs(w, last, ll, dl, len, c.base, c.extra, r2.Avail() + f, o);
      SpentTrans(r, r2, r3, n1, c.extra);
      good, r', dist, n := true, r3, c.base + v, n1 + c.extra;
    }
  }

  lemma Dists()
    ensures MaxSyms(DISTS) == 32 && MaxSyms(LENS) == 288
  {
  }

  lemma PulledOk(r: Regs, s: Regs)
    requires r.Ok() && Pulled(r, s)
    ensures s.Ok() && s.input == r.input && s.Avail() == r.Avail()
  {
  }

  lemma SpentOk(r: Regs, s: Regs, n: nat)
    requires Spent(r, s, n)
    ensures r.Ok() && s.Ok() && s.input == r.input && r.next <= s.next && s.Unread() == r.Unread() - n
  {
  }

  /** a is what a length code is followed by, and n bytes are fetched for it. */
  ghost predicate PairRead(dl: seq<nat>, b: seq<bool>, h: int, base: nat, extra: nat, a: Reading, n: int) {
    && |b| >= extra && a == DistAt(dl, base + ToInt(b[..extra]), b[extra..])
    && n == ExtraBytes(h, extra) + DistFetched(dl, b[extra..], h + 8 * ExtraBytes(h, extra) - extra)
  }

  /** A length's extra bits and a distance: with at most six bytes since the refill before the length code. */
  method FastPair(r: Regs, base: nat, extra: nat, t: seq<Code>, root: nat, last: bool,
                  ghost ll: seq<nat>, ghost dl: seq<nat>, ghost w: nat, ghost o: seq<byte>, ghost f: seq<bool>)
      returns (good: bool, r': Regs, len: nat, dist: nat, ghost n: nat)
    requires r.Ok() && r.bits <= 30 && Decodes(t, root, DISTS, dl) && Usable(DISTS, dl)
    requires 3 <= base && extra <= 5 && base + Pow2(extra) <= 259
    requires r.next + (if r.bits < 1 then 5 else 4) <= |r.input|
    ensures Spent(r, r', n) && r'.bits <= 30
    ensures LenExt(w, last, ll, dl, base, extra, r.Avail() + f, o) ==
            if good then Match(w, last, ll, dl, len, dist, r'.Avail() + f, o) else Corrupt(o)
    ensures good ==> 3 <= len <= 258 && 1 <= dist <= 32768
    ensures PairRead(dl, r.Avail() + f, r.bits, base, extra,
                     if good then String(len, dist, r'.Avail() + f) else NoSuch, r'.next - r.next)
  {
    hide ToBits, BytesBits, Pow2, ToInt, Decodes, Usable, Spent, LenExt, Dist, Match, DistAt, DistFetched;
    var v, r1 := TakeExtra(r, extra, f);
    SpentOk(r, r1, extra);
    LenExtIs(w, last, ll, dl, base, extra, r.Avail() + f, o);
    len := base + v;
    ghost var n1;
    good, r', dist, n1 := FastDist(r1, t, root, len, last, ll, dl, w, o, f);
    SpentTrans(r, r1, r', extra, n1);
    n := extra + n1;
  }

  /** The refill and the literal/length code. */
  method FastLen(r: Regs, t: seq<Code>, root: nat, last: bool,
                 ghost ll: seq<nat>, ghost dl: seq<nat>, ghost w: nat, ghost o: seq<byte>, ghost f: seq<bool>)
      returns (r': Regs, c: LenCode, ghost n: nat)
    requires r.Ok() && r.bits <= 30 && Decodes(t, root, LENS, ll) && Usable(LENS, ll) && r.next + 6 <= |r.input|
    ensures Spent(r, r', n) && 1 <= n && r'.bits <= 30 && r'.next + (if r'.bits < 1 then 5 else 4) <= |r.input|
    ensures Codes(w, last, ll, dl, r.Avail() + f, o) == AfterLen(c, w, last, ll, dl, r'.Avail() + f, o)
    ensures c.Length? ==> 3 <= c.base && c.extra <= 5 && c.base + Pow2(c.extra) <= 259
    ensures Pow2(root) <= |t| && (Lean(r, t, root) ==> r.bits < 8 || n > r.bits)
    ensures LenIs(ReadSymbol(ll, r.Avail() + f), c, r'.Avail() + f) && r'.next == r.next + RefillBytes(r.bits)
  {
    hide ToBits, BytesBits, Pow2, Low, Decodes, Usable, Lookup, Spent, ClassifyLen, ReadSymbol, SymCode, Codes,
      AfterLen, MaxSyms, LenIs;
    Dists();
    var r1 := Refill(r);
    PulledSpent(r, r1);
    var here;
    r', here, n := FastCode(r1, t, root, LENS, ll, f);
    SpentOk(r1, r', n);
    SpentTrans(r, r1, r', 0, n);
    CodesStep(w, last, ll, dl, r1.Avail() + f, o, here, r'.Avail() + f);
    c := ClassifyLen(here);
    if n <= r.bits {
      LowOfSmall(r.hold, r.bits);
      LookupStable(t, root, LENS, ll, r.hold, r1.hold, r.bits);
    }
  }
}
