/**
 Finding the next synchronization point of a damaged stream: syncsearch and inflateSync.
 */
module Sync {
  import opened Bits
  import opened Wrapper
  import opened Rfc1951
  import opened Registers
  import opened InflateState

  /** What an empty stored block ends in, after its header. */
  const PATTERN: seq<byte> := [0, 0, 0xff, 0xff]

  // ---------- the pattern ----------

  /** h ends in the first k bytes of the pattern. */
  predicate EndsIn(h: seq<byte>, k: nat)
    requires k <= 4
  {
    k <= |h| && h[|h| - k..] == PATTERN[..k]
  }

  /** The pattern ends after the first n bytes of h. */
  predicate EndsAt(h: seq<byte>, n: nat) {
    4 <= n <= |h| && h[n - 4..n] == PATTERN
  }

  /** k is the longest beginning of the pattern that h ends in, and the pattern was not met before the end of h. */
  ghost predicate Seen(h: seq<byte>, k: nat) {
    && k <= 4 && EndsIn(h, k)
    && (forall j: nat :: k < j <= 4 ==> !EndsIn(h, j))
    && (forall n: nat :: n < |h| ==> !EndsAt(h, n))
  }

  lemma NothingSeen()
    ensures Seen([], 0)
  {
  }

  lemma EndsInOne(h: seq<byte>, b: byte, k: nat)
    requires k < 4
    ensures EndsIn(h + [b], k + 1) <==> EndsIn(h, k) && b == PATTERN[k]
  {
    if k < |h| + 1 {
      var g := h + [b];
      assert g[|g| - (k + 1)..] == h[|h| - k..] + [b];
      assert PATTERN[..k + 1] == PATTERN[..k] + [PATTERN[k]];
      if EndsIn(g, k + 1) {
        assert (h[|h| - k..] + [b])[..k] == h[|h| - k..] && (h[|h| - k..] + [b])[k] == b;
      }
    }
  }

  lemma EndsAtPrefix(h: seq<byte>, t: seq<byte>, n: nat)
    requires n <= |h|
    ensures EndsAt(h + t, n) <==> EndsAt(h, n)
  {
    if n >= 4 {
      assert (h + t)[n - 4..n] == h[n - 4..n];
    }
  }

  lemma EndsAtEnd(h: seq<byte>)
    ensures EndsAt(h, |h|) <==> EndsIn(h, 4)
  {
    if |h| >= 4 {
      assert h[|h| - 4..|h|] == h[|h| - 4..];
    }
  }

  /** The state after one more byte. */
  function Next(got: nat, b: byte): nat
    requires got < 4
  {
    if b == (if got < 2 then 0 else 0xff) then got + 1 else if b != 0 then 0 else 4 - got
  }

  /** What a text that ends in the first got bytes of the pattern, and in no more, ends in. */
  lemma ShorterEnds(h: seq<byte>, got: nat, j: nat)
    requires got < 4 && j < 4 && Seen(h, got)
    ensures EndsIn(h, j) <==> j == got || j == 0 || (j == 1 && got == 2)
  {
    if j < got {
      var k := |h| - got;
      assert h[|h| - j..] == h[k..][got - j..];
      assert EndsIn(h, j) <==> PATTERN[..got][got - j..] == PATTERN[..j];
      PatternBorders(got, j);
    }
  }

  lemma PatternBorders(got: nat, j: nat)
    requires j < got < 4
    ensures PATTERN[..got][got - j..] == PATTERN[..j] <==> j == 0 || (j == 1 && got == 2)
  {
    if got == 3 && j == 1 {
      assert PATTERN[..3][2..][0] == 0xff;
    } else if got == 3 && j == 2 {
      assert PATTERN[..3][1..][1] == 0xff;
    } else if got == 2 && j == 1 {
      assert PATTERN[..2][1..] == [0] == PATTERN[..1];
    } else {
      assert PATTERN[..got][got..] == [] == PATTERN[..0];
    }
  }

  lemma EndsNext(h: seq<byte>, got: nat, b: byte, j: nat)
    requires got < 4 && j < 4 && Seen(h, got)
    ensures EndsIn(h + [b], j + 1) <==> (j == got || j == 0 || (j == 1 && got == 2)) && b == if j < 2 then 0 else 0xff
  {
    EndsInOne(h, b, j);
    ShorterEnds(h, got, j);
  }

  lemma LongestNext(g: seq<byte>, got: nat, b: byte)
    requires got < 4
    requires EndsIn(g, 1) <==> b == 0
    requires EndsIn(g, 2) <==> (got == 1 || got == 2) && b == 0
    requires EndsIn(g, 3) <==> got == 2 && b == 0xff
    requires EndsIn(g, 4) <==> got == 3 && b == 0xff
    ensures Next(got, b) <= 4 && EndsIn(g, Next(got, b))
    ensures forall j: nat :: Next(got, b) < j <= 4 ==> !EndsIn(g, j)
  {
    EndsInNothing(g);
    hide EndsIn;
    forall j: nat | Next(got, b) < j <= 4 ensures !EndsIn(g, j) {
      assert j == 1 || j == 2 || j == 3 || j == 4;
    }
  }

  lemma EndsInNothing(g: seq<byte>)
    ensures EndsIn(g, 0)
  {
  }

  /** One step keeps the longest beginning. */
  lemma SeenNext(h: seq<byte>, got: nat, b: byte)
    requires got < 4 && Seen(h, got)
    ensures Seen(h + [b], Next(got, b))
  {
    hide EndsAt, EndsIn, Next;
    var g := h + [b];
    EndsNext(h, got, b, 0);
    EndsNext(h, got, b, 1);
    EndsNext(h, got, b, 2);
    EndsNext(h, got, b, 3);
    LongestNext(g, got, b);
    EndsAtEnd(h);
    forall n: nat | n < |g| ensures !EndsAt(g, n) {
      EndsAtPrefix(h, [b], n);
    }
  }

  // ---------- syncsearch ----------

  /** Searches buf, h being what was searched before it and have the state after that. */
  method Search(have: nat, buf: seq<byte>, ghost h: seq<byte>) returns (have': nat, next: nat)
    requires Seen(h, have)
    ensures next <= |buf| && Seen(h + buf[..next], have') && (have' < 4 ==> next == |buf|)
  {
    hide Seen;
    have', next := have, 0;
    assert h + buf[..0] == h;
    while next < |buf| && have' < 4
      invariant next <= |buf| && Seen(h + buf[..next], have')
    {
      SeenNext(h + buf[..next], have', buf[next]);
      assert h + buf[..next + 1] == h + buf[..next] + [buf[next]];
      if buf[next] == if have' < 2 then 0 else 0xff {
        have' := have' + 1;
      } else if buf[next] != 0 {
        have' := 0;
      } else {
        have' := 4 - have';
      }
      next := next + 1;
    }
    AtMostFour(h + buf[..next], have');
  }

  lemma AtMostFour(h: seq<byte>, k: nat)
    requires Seen(h, k)
    ensures k <= 4
  {
  }

  /** The first place in h where the pattern ends. */
  ghost predicate First(h: seq<byte>, n: nat) {
    EndsAt(h, n) && forall m: nat :: m < n ==> !EndsAt(h, m)
  }

  ghost predicate Absent(h: seq<byte>) {
    forall n: nat :: !EndsAt(h, n)
  }

  /** The state says whether the pattern was found, and found at its first place. */
  lemma SeenMeans(h: seq<byte>, k: nat, t: seq<byte>)
    requires Seen(h, k)
    ensures k == 4 ==> First(h + t, |h|)
    ensures k < 4 ==> Absent(h)
  {
    hide EndsIn;
    EndsAtEnd(h);
    if k == 4 {
      EndsAtPrefix(h, t, |h|);
      forall m: nat | m < |h| ensures !EndsAt(h + t, m) {
        EndsAtPrefix(h, t, m);
      }
    }
  }

  // ---------- inflateSync ----------

  /** The n whole bytes held in an accumulator. */
  function HeldBytes(hold: nat, n: nat): (b: seq<byte>)
    ensures |b| == n
    decreases n
  {
    if n == 0 then [] else
      Split(hold, 8);
      assert Pow2(8) == 256;
      [Low(hold, 8)] + HeldBytes(Shr(hold, 8), n - 1)
  }

  /** They are the bits held, in order. */
  lemma {:induction false} HeldBits(hold: nat, n: nat)
    requires hold < Pow2(8 * n)
    ensures BytesBits(HeldBytes(hold, n)) == ToBits(hold, 8 * n)
    decreases n
  {
    hide ToBits, Low, Shr, Pow2;
    if n == 0 {
      assert ToBits(hold, 0) == [];
    } else {
      var b := HeldBytes(hold, n);
      ShiftOut(hold, 8 * n, 8);
      HeldBits(Shr(hold, 8), n - 1);
      assert b[1..] == HeldBytes(Shr(hold, 8), n - 1);
      LowBits(hold, 8 * n, 8);
      LowByte(hold);
      assert ToBits(hold, 8 * n) == ToBits(hold, 8 * n)[..8] + ToBits(hold, 8 * n)[8..];
    }
  }

  lemma HeldNext(hold: nat, n: nat)
    requires n > 0
    ensures Low(hold, 8) < 256 && HeldBytes(hold, n) == [Low(hold, 8)] + HeldBytes(Shr(hold, 8), n - 1)
  {
    hide Low, Shr;
    Split(hold, 8);
    EightPower();
  }

  lemma NoneHeld(hold: nat)
    ensures HeldBytes(hold, 0) == []
  {
  }

  lemma LowByte(hold: nat)
    ensures ToBits(Low(hold, 8), 8) == ToBits(hold, 8)
  {
    LowLow(hold, 8, 8);
    ToBitsInjective(Low(hold, 8), hold, 8);
  }

  /** The bits held, from the next byte boundary on. */
  lemma WholeBytes(hold: nat, bits: nat)
    requires hold < Pow2(bits)
    ensures BytesBits(HeldBytes(Shr(hold, bits % 8), bits / 8)) == ToBits(hold, bits)[bits % 8..]
  {
    hide ToBits, Shr, Pow2;
    ShiftOut(hold, bits, bits % 8);
    assert bits - bits % 8 == 8 * (bits / 8);
    HeldBits(Shr(hold, bits % 8), bits / 8);
  }

  /** The wrapper of a stream whose check value can no longer be compared. */
  function Unchecked(wrap: nat, flags: int): nat {
    if flags == -1 then 0 else if wrap / 4 % 2 == 1 then wrap - 4 else wrap
  }

  datatype Ret = OK | BUF_ERROR | DATA_ERROR

  /** The inflate state after a pattern was found, but for what no longer matters. */
  ghost function Restarted(s: State): State {
    s.(mode := TYPE, r := Regs([], 0, 0, 0), output := [], left := 0, out := 0, last := false, total := 0,
       wrap := Unchecked(s.wrap, s.flags), head := NoHeader)
  }

  /** The part of an inflate state that inflateSync works on. */
  class Resync {
    var syncing: bool      // mode is SYNC
    var have: nat
    var hold: nat
    var bits: nat
    var wrap: nat
    var flags: int

    ghost var seen: seq<byte>  // what the search under way has gone through

    ghost predicate Valid()
      reads this
    {
      bits <= 32 && hold < Pow2(bits) && (syncing ==> bits == 0 && have < 4 && Seen(seen, have))
    }

    /** The part of s it is. */
    ghost predicate Of(s: State)
      reads this
    {
      s.r.hold == hold && s.r.bits == bits && s.wrap == wrap && s.flags == flags
    }

    /** What a search goes through before new input. */
    ghost function Begun(): seq<byte>
      reads this
    {
      if syncing then seen else HeldBytes(Shr(hold, bits % 8), bits / 8)
    }

    constructor (hold: nat, bits: nat, wrap: nat, flags: int)
      requires bits <= 32 && hold < Pow2(bits)
      ensures Valid() && !syncing
      ensures this.hold == hold && this.bits == bits && this.wrap == wrap && this.flags == flags
    {
      this.syncing, this.have, this.hold, this.bits := false, 0, hold, bits;
      this.wrap, this.flags, this.seen := wrap, flags, [];
    }

    /** Empties the accumulator into at most four bytes. */
    method Drain() returns (buf: seq<byte>)
      requires Valid() && !syncing
      modifies this`hold, this`bits
      ensures Valid() && bits == 0 && |buf| <= 4 && buf == old(Begun())
    {
      hide Shr, Low, Pow2, HeldBytes;
      ShiftOut(hold, bits, bits % 8);
      ghost var n := bits / 8;
      hold := Shr(hold, bits % 8);
      bits := bits - bits % 8;
      buf := [];
      ghost var h0, n0 := hold, n;
      while bits >= 8
        invariant bits == 8 * n && n <= 4 && hold < Pow2(bits) && |buf| + n == n0 && n >= 0
        invariant HeldBytes(h0, n0) == buf + HeldBytes(hold, n)
      {
        Split(hold, 8);
        EightPower();
        ShiftOut(hold, bits, 8);
        HeldNext(hold, n);
        buf := buf + [Low(hold, 8)];
        hold := Shr(hold, 8);
        bits := bits - 8;
        n := n - 1;
      }
      NoneHeld(hold);
    }

    method InflateSync(input: seq<byte>) returns (ret: Ret, used: nat)
      requires Valid()
      modifies this
      ensures Valid() && used <= |input|
      ensures ret == BUF_ERROR <==> input == [] && old(bits) < 8
      ensures ret == BUF_ERROR ==> unchanged(this) && used == 0
      ensures ret == OK ==> First(old(Begun()) + input, |old(Begun())| + used)
      ensures ret == OK ==> !syncing && hold == 0 && bits == 0 && flags == old(flags)
      ensures ret == OK ==> wrap == Unchecked(old(wrap), old(flags)) && forall s | old(Of(s)) :: Of(Restarted(s))
      ensures ret == DATA_ERROR ==> Absent(old(Begun()) + input) && used == |input|
      ensures ret == DATA_ERROR ==>
        syncing && Begun() == old(Begun()) + input && wrap == old(wrap) && flags == old(flags)
    {
      hide Seen, First, Absent, HeldBytes, Shr;
      if input == [] && bits < 8 {
        return BUF_ERROR, 0;
      }
      ghost var begun := Begun();
      if !syncing {
        var buf := Drain();
        NothingSeen();
        var n;
        have, n := Search(0, buf, []);
        HeldAll(buf, have, n);
        syncing, seen := true, buf;
      }
      have, used := Search(have, input, seen);
      AtMostFour(begun + input[..used], have);
      SeenMeans(begun + input[..used], have, input[used..]);
      assert begun + input[..used] + input[used..] == begun + input;
      assert have < 4 ==> input[..used] == input;
      seen := begun + input[..used];
      if have < 4 {
        return DATA_ERROR, used;
      }
      wrap := Unchecked(wrap, flags);
      hold, bits, syncing := 0, 0, false;
      ret := OK;
    }
  }

  /** The accumulator is too short for the pattern to end in it before its last byte. */
  lemma HeldAll(buf: seq<byte>, have: nat, n: nat)
    requires |buf| <= 4 && n <= |buf| && Seen([] + buf[..n], have) && (have < 4 ==> n == |buf|)
    ensures n == |buf| && Seen(buf, have)
  {
    assert [] + buf[..n] == buf[..n];
    assert buf[..|buf|] == buf;
  }

  // ---------- calls together ----------

  function Concat(inputs: seq<seq<byte>>): seq<byte> {
    if inputs == [] then [] else inputs[0] + Concat(inputs[1..])
  }

  lemma {:induction false} ConcatNext(inputs: seq<seq<byte>>, i: nat)
    requires i < |inputs|
    ensures Concat(inputs[i..]) == inputs[i] + Concat(inputs[i + 1..])
  {
    assert inputs[i..][1..] == inputs[i + 1..];
  }

  /**
   Calls inflateSync until the pattern is found, or the input is used up.  However the input is
   divided, the first place where the pattern ends is found, counting from the byte boundary in the
   accumulator, and what follows it is left.
   */
  method SyncInCalls(hold: nat, bits: nat, wrap: nat, flags: int, inputs: seq<seq<byte>>)
      returns (found: bool, rest: seq<byte>)
    requires bits <= 32 && hold < Pow2(bits) && inputs != []
    ensures var all := HeldBytes(Shr(hold, bits % 8), bits / 8) + Concat(inputs);
            if found then |rest| <= |all| && rest == all[|all| - |rest|..] &&
                First(all, |all| - |rest|) else Absent(all)
  {
    hide First, Absent, Seen, HeldBytes, Shr, Pow2;
    var d := new Resync(hold, bits, wrap, flags);
    ghost var all := HeldBytes(Shr(hold, bits % 8), bits / 8) + Concat(inputs);
    found, rest := false, [];
    assert inputs[0..] == inputs;
    for i := 0 to |inputs|
      invariant d.Valid() && d.Begun() + Concat(inputs[i..]) == all && (i > 0 || d.syncing ==> Absent(d.Begun()))
    {
      ConcatNext(inputs, i);
      ghost var begun := d.Begun();
      var ret, used := d.InflateSync(inputs[i]);
      if ret == OK {
        rest := inputs[i][used..] + Concat(inputs[i + 1..]);
        found := true;
        FoundThere(begun, inputs[i], Concat(inputs[i + 1..]), used);
        return;
      }
      if ret == BUF_ERROR {
        NothingHeld(d.hold, d.bits);
        assert begun + inputs[i] == begun;
      }
      Regroup(begun, inputs[i], Concat(inputs[i + 1..]));
    }
    assert inputs[|inputs|..] == [];
    assert d.Begun() + [] == d.Begun();
  }

  lemma Regroup(a: seq<byte>, b: seq<byte>, c: seq<byte>)
    ensures a + b + c == a + (b + c)
  {
  }

  lemma FoundThere(begun: seq<byte>, input: seq<byte>, tail: seq<byte>, used: nat)
    requires used <= |input| && First(begun + input, |begun| + used)
    ensures var all, rest := begun + (input + tail), input[used..] + tail;
            |rest| <= |all| && rest == all[|all| - |rest|..] && First(all, |all| - |rest|)
  {
    hide First;
    FirstExtends(begun + input, tail, |begun| + used);
    Regroup(begun, input, tail);
  }

  lemma FirstExtends(h: seq<byte>, t: seq<byte>, n: nat)
    requires First(h, n)
    ensures First(h + t, n)
  {
    EndsAtPrefix(h, t, n);
    forall m: nat | m < n ensures !EndsAt(h + t, m) {
      EndsAtPrefix(h, t, m);
    }
  }

  lemma NothingHeld(hold: nat, bits: nat)
    requires bits < 8
    ensures HeldBytes(Shr(hold, bits % 8), bits / 8) == [] && Absent([])
  {
  }

  // ---------- starting over ----------

  /** It is sound whatever the check value, and reads blocks from the bytes after the pattern, without history. */
  lemma RestartedSound(s: State, p: Past, b: seq<bool>)
    requires |s.lens| == 320 && p.hist == []
    ensures Sound(Restarted(s), p)
    ensures var t := Restarted(s);
            MeaningOf(t, p, b) == Result(NoHeader, After(t.wrap, t.flags, Blocks(WinOf(s, p).Span(), false, b, [])))
  {
    hide Blocks, After, Pow2, CheckOf;
    AtType(Restarted(s), p, b);
  }
}
