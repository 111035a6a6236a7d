/**
 The steps of inflate in the zlib and gzip headers and in the trailer.
 */
module InflateHeader {
  import opened Bits
  import opened Rfc1951
  import opened Wrapper
  import opened Registers
  import CrcSpec

  lemma Pow2Sizes()
    ensures Pow2(8) == 256 && Pow2(16) == 65536 && Pow2(32) == 0x1_0000_0000
  {
    hide Shl;
    assert Pow2(8) == 256;
    Times256(256, 16);
    Times256(65536, 24);
    Times256(16777216, 32);
  }

  lemma Times256(x: nat, n: nat)
    requires n >= 8 && Pow2(n - 8) == x
    ensures Pow2(n) == 256 * x
  {
    assert Pow2(n - 6) == 4 * x;
    assert Pow2(n - 4) == 16 * x;
    assert Pow2(n - 2) == 64 * x;
  }

  // ---------- byte runs ----------

  function StoreAll(b: Buffer, d: seq<byte>): Buffer
    decreases |d|
  {
    if d == [] then b else StoreAll(Store(b, d[0]), d[1..])
  }

  /** Storing a run: as much of it as there is room for. */
  lemma {:induction false} StoreAllIs(b: Buffer, d: seq<byte>)
    requires b.Buf? && |b.data| <= b.max
    ensures StoreAll(b, d) == Buf(b.data + d[..if |d| <= b.max - |b.data| then |d| else b.max - |b.data|], b.max)
    decreases |d|
  {
    if d == [] {
      assert b.data + [] == b.data;
    } else {
      StoreAllIs(Store(b, d[0]), d[1..]);
      var room := b.max - |b.data|;
      if room > 0 {
        var k := if |d| <= room then |d| else room;
        assert d[..k] == [d[0]] + d[1..][..k - 1];
        assert b.data + [d[0]] + d[1..][..k - 1] == b.data + d[..k];
      } else {
        assert b.data + [] == b.data;
      }
    }
  }

  lemma {:induction false} StoreAllConcat(b: Buffer, c: seq<byte>, d: seq<byte>)
    ensures StoreAll(b, c + d) == StoreAll(StoreAll(b, c), d)
    decreases |c|
  {
    if c == [] {
      assert c + d == d;
    } else {
      StoreAllConcat(Store(b, c[0]), c[1..], d);
      assert (c + d)[1..] == c[1..] + d;
    }
  }

  lemma HeaderCrcConcat(wrap: nat, flags: int, check: u32, c: seq<byte>, d: seq<byte>)
    ensures HeaderCrc(wrap, flags, check, c + d) == HeaderCrc(wrap, flags, HeaderCrc(wrap, flags, check, c), d)
  {
    hide CrcSpec.Crc32;
    if HasHcrc(flags) && Verify(wrap) {
      CrcSpec.Crc32Concat(check, c, d);
    }
  }

  lemma FirstOfRun(d: seq<byte>, rest: seq<bool>)
    requires d != []
    ensures var b := BytesBits(d) + rest; |b| >= 8 && FirstByte(b) == d[0] && b[8..] == BytesBits(d[1..]) + rest
  {
    hide ToBits, ToInt, Low, Pow2, BytesBits;
    BytesBitsHead(d);
    SplitHead(ToBits(d[0], 8), BytesBits(d[1..]), rest);
    ByteRoundTrip(d[0]);
  }

  lemma BytesBitsHead(d: seq<byte>)
    requires d != []
    ensures BytesBits(d) == ToBits(d[0], 8) + BytesBits(d[1..])
  {
    hide ToBits;
  }

  lemma SplitHead(first: seq<bool>, others: seq<bool>, rest: seq<bool>)
    ensures (first + others + rest)[..|first|] == first && (first + others + rest)[|first|..] == others + rest
  {
  }

  lemma ByteRoundTrip(x: byte)
    ensures ToInt(ToBits(x, 8)) == x
  {
    hide ToBits, ToInt, Low;
    ToIntToBits(x, 8);
    assert Pow2(8) == 256;
    LowOfSmall(x, 8);
  }

  function WithExtra(head: Saved, b: Buffer): Saved {
    if head.Header? then Header(head.h.(extra := b)) else head
  }

  function WithName(head: Saved, b: Buffer): Saved {
    if head.Header? then Header(head.h.(name := b)) else head
  }

  function WithComment(head: Saved, b: Buffer): Saved {
    if head.Header? then Header(head.h.(comment := b)) else head
  }

  function ExtraOf(head: Saved): Buffer { if head.Header? then head.h.extra else Null }
  function NameOf(head: Saved): Buffer { if head.Header? then head.h.name else Null }
  function CommentOf(head: Saved): Buffer { if head.Header? then head.h.comment else Null }

  lemma {:induction false} ExtraRun(wrap: nat, win: Win, flags: int, check: u32, head: Saved, length: nat,
        d: seq<byte>, rest: seq<bool>)
    requires 0 < |d| <= length
    ensures Extra(wrap, win, flags, check, head, length, BytesBits(d) + rest) ==
            Extra(wrap, win, flags, HeaderCrc(wrap, flags, check, d), WithExtra(head, StoreAll(ExtraOf(head), d)),
                length - |d|, rest)
    decreases |d|
  {
    hide HeaderCrc, NameStart;
    FirstOfRun(d, rest);
    var c := HeaderCrc(wrap, flags, check, [d[0]]);
    var h := WithExtra(head, Store(ExtraOf(head), d[0]));
    if |d| == 1 {
      assert d == [d[0]];
      assert BytesBits(d[1..]) + rest == rest;
      assert StoreAll(ExtraOf(head), d) == StoreAll(Store(ExtraOf(head), d[0]), []);
    } else {
      ExtraRun(wrap, win, flags, c, h, length - 1, d[1..], rest);
      HeaderCrcConcat(wrap, flags, check, [d[0]], d[1..]);
      assert [d[0]] + d[1..] == d;
    }
  }

  /** A run of name bytes: all but the last are not zero. */
  ghost predicate Text(d: seq<byte>) {
    forall i :: 0 <= i < |d| - 1 ==> d[i] != 0
  }

  lemma {:induction false} NameRun(wrap: nat, win: Win, flags: int, check: u32, head: Saved, d: seq<byte>,
        rest: seq<bool>)
    requires d != [] && Text(d)
    ensures var c, h := HeaderCrc(wrap, flags, check, d), WithName(head, StoreAll(NameOf(head), d));
            Name(wrap, win, flags, check, head, BytesBits(d) + rest) ==
            if d[|d| - 1] == 0 then CommentStart(wrap, win, flags, c, h, rest)
                else Name(wrap, win, flags, c, h, rest)
    decreases |d|
  {
    hide HeaderCrc, CommentStart;
    FirstOfRun(d, rest);
    var c := HeaderCrc(wrap, flags, check, [d[0]]);
    var h := WithName(head, Store(NameOf(head), d[0]));
    if |d| == 1 {
      assert d == [d[0]];
      assert BytesBits(d[1..]) + rest == rest;
      assert StoreAll(NameOf(head), d) == StoreAll(Store(NameOf(head), d[0]), []);
    } else {
      NameRun(wrap, win, flags, c, h, d[1..], rest);
      HeaderCrcConcat(wrap, flags, check, [d[0]], d[1..]);
      assert [d[0]] + d[1..] == d;
    }
  }

  lemma {:induction false} CommentRun(wrap: nat, win: Win, flags: int, check: u32, head: Saved, d: seq<byte>,
        rest: seq<bool>)
    requires d != [] && Text(d)
    ensures var c, h := HeaderCrc(wrap, flags, check, d), WithComment(head, StoreAll(CommentOf(head), d));
            Comment(wrap, win, flags, check, head, BytesBits(d) + rest) ==
            if d[|d| - 1] == 0 then Hcrc(wrap, win, flags, c, h, rest) else Comment(wrap, win, flags, c, h, rest)
    decreases |d|
  {
    hide HeaderCrc, Hcrc;
    FirstOfRun(d, rest);
    var c := HeaderCrc(wrap, flags, check, [d[0]]);
    var h := WithComment(head, Store(CommentOf(head), d[0]));
    if |d| == 1 {
      assert d == [d[0]];
      assert BytesBits(d[1..]) + rest == rest;
      assert StoreAll(CommentOf(head), d) == StoreAll(Store(CommentOf(head), d[0]), []);
    } else {
      CommentRun(wrap, win, flags, c, h, d[1..], rest);
      HeaderCrcConcat(wrap, flags, check, [d[0]], d[1..]);
      assert [d[0]] + d[1..] == d;
    }
  }

  // ---------- the steps ----------

  /** NEEDBITS of whole bytes, then INITBITS: the next n bits as a number. */
  method NeedWord(r: Regs, n: nat, ghost f: seq<bool>) returns (ok: bool, v: nat, r': Regs)
    requires r.Ok() && r.bits % 8 == 0 && r.bits < n && n % 8 == 0 && n <= 32
    ensures r'.Ok() && r'.input == r.input && r'.Unread() <= r.Unread()
    ensures !ok ==> Pulled(r, r') && r'.bits < n && r'.next == |r'.input|
    ensures ok ==> r'.bits == 0 && r'.Unread() == r.Unread() - n && |r.Avail() + f| >= n
    ensures ok ==> v == ToInt((r.Avail() + f)[..n]) && v < Pow2(n)
    ensures ok ==> r'.Avail() + f == (r.Avail() + f)[n..]
  {
    hide ToBits, Pow2, ToInt;
    ok, r' := NeedBits(r, n);
    v := 0;
    if ok {
      assert r'.bits == n;
      v, r' := TakeAll(r', f);
    }
  }

  datatype HeadNext = ToGzip | ToZlib | ToDict | BadHead

  ghost function AfterHead(to: HeadNext, wrap: nat, win: Win, check: u32, head: Saved, b: seq<bool>): Result {
    match to
    case ToGzip => Flags(wrap, win, check, head, b)
    case ToZlib => Body(wrap, win, 0, head, b)
    case ToDict => DictId(head, b)
    case BadHead => Result(head, Corrupt([]))
  }

  /** HEAD: which wrapper it is, and the zlib header. */
  method StepHead(r: Regs, wrap: nat, wbits: nat, ghost wide: bool, head: Saved, ghost f: seq<bool>)
      returns (more: bool, r': Regs, to: HeadNext, wbits': nat, head': Saved, check: u32)
    requires r.Ok() && r.bits % 8 == 0 && r.bits < 16 && wrap > 0
    ensures r'.Ok() && r'.input == r.input && r'.Unread() <= r.Unread()
    ensures !more ==> Pulled(r, r') && r'.bits < 16 && r'.next == |r'.input| && head' == head && wbits' == wbits
    ensures !more ==> Head(wrap, Win(wbits, wide), head, r'.Avail()) == Result(head, Starved([]))
    ensures more ==> r'.bits == 0 && r'.Unread() < r.Unread()
    ensures more ==>
      Head(wrap, Win(wbits, wide), head, r.Avail() + f) ==
      AfterHead(to, wrap, Win(wbits', wide), check, head', r'.Avail() + f)
    ensures to == ToZlib ==> check == CheckOf(0, [])
    ensures to == ToGzip ==> head' == head
  {
    hide ToBits, Pow2, ToInt, Flags, Body, DictId, CrcSpec.Crc32;
    wbits', head', check, to := wbits, head, 1, BadHead;
    var hold;
    more, hold, r' := NeedWord(r, 16, f);
    if !more {
      return;
    }
    Pow2Sizes();
    if Gzip(wrap) && hold == 0x8b1f {
      if wbits == 0 {
        wbits' := 15;
      }
      check := CrcSpec.Crc32(0, Bytes2(hold));
      to := ToGzip;
      return;
    }
    if head.Header? {
      head' := Header(head.h.(done := -1));
    }
    if !Zlib(wrap) || (hold % 256 * 256 + hold / 256) % 31 != 0 || hold % 16 != 8 {
      return;
    }
    var len := hold / 16 % 16 + 8;
    if wbits == 0 {
      wbits' := len;
    }
    if len > 15 || len > wbits' {
      return;
    }
    to := if hold / 0x2000 % 2 == 1 then ToDict else ToZlib;
  }

  /** FLAGS */
  method StepFlags(r: Regs, wrap: nat, ghost win: Win, check: u32, head: Saved, ghost f: seq<bool>)
      returns (more: bool, r': Regs, good: bool, flags: nat, head': Saved, check': u32)
    requires r.Ok() && r.bits % 8 == 0 && r.bits < 16
    ensures r'.Ok() && r'.input == r.input && r'.Unread() <= r.Unread()
    ensures !more ==> Pulled(r, r') && r'.bits < 16 && r'.next == |r'.input| && head' == head && check' == check
    ensures !more ==> Flags(wrap, win, check, head, r'.Avail()) == Result(head, Starved([]))
    ensures more ==> r'.bits == 0 && r'.Unread() < r.Unread()
    ensures more ==> Flags(wrap, win, check, head, r.Avail() + f) ==
                     if good then Time(wrap, win, flags, check', head', r'.Avail() + f)
                         else Result(head', Corrupt([]))
    ensures more && good ==> flags != 0
    ensures ExtraOf(head') == ExtraOf(head)
  {
    hide ToBits, Pow2, ToInt, Time, HeaderCrc;
    head', check', good, flags := head, check, false, 0;
    var hold;
    more, hold, r' := NeedWord(r, 16, f);
    if !more {
      return;
    }
    Pow2Sizes();
    flags := hold;
    if flags % 256 != 8 || flags / 0x2000 != 0 {
      return;
    }
    if head.Header? {
      head' := Header(head.h.(text := hold / 256 % 2 == 1));
    }
    check' := HeaderCrc(wrap, flags, check, Bytes2(hold));
    good := true;
  }

  /** TIME */
  method StepTime(r: Regs, wrap: nat, ghost win: Win, flags: int, check: u32, head: Saved, ghost f: seq<bool>)
      returns (more: bool, r': Regs, head': Saved, check': u32)
    requires r.Ok() && r.bits % 8 == 0 && r.bits < 32
    ensures r'.Ok() && r'.input == r.input && r'.Unread() <= r.Unread()
    ensures !more ==> Pulled(r, r') && r'.bits < 32 && r'.next == |r'.input| && head' == head && check' == check
    ensures !more ==> Time(wrap, win, flags, check, head, r'.Avail()) == Result(head, Starved([]))
    ensures more ==> r'.bits == 0 && r'.Unread() < r.Unread()
    ensures more ==>
      Time(wrap, win, flags, check, head, r.Avail() + f) == Os(wrap, win, flags, check', head', r'.Avail() + f)
    ensures ExtraOf(head') == ExtraOf(head)
  {
    hide ToBits, Pow2, ToInt, Os, HeaderCrc;
    head', check' := head, check;
    var hold;
    more, hold, r' := NeedWord(r, 32, f);
    if more {
      if head.Header? {
        head' := Header(head.h.(time := hold));
      }
      check' := HeaderCrc(wrap, flags, check, Bytes4(hold));
    }
  }

  /** OS */
  method StepOs(r: Regs, wrap: nat, ghost win: Win, flags: int, check: u32, head: Saved, ghost f: seq<bool>)
      returns (more: bool, r': Regs, head': Saved, check': u32)
    requires r.Ok() && r.bits % 8 == 0 && r.bits < 16
    ensures r'.Ok() && r'.input == r.input && r'.Unread() <= r.Unread()
    ensures !more ==> Pulled(r, r') && r'.bits < 16 && r'.next == |r'.input| && head' == head && check' == check
    ensures !more ==> Os(wrap, win, flags, check, head, r'.Avail()) == Result(head, Starved([]))
    ensures more ==> r'.bits == 0 && r'.Unread() < r.Unread()
    ensures more ==>
      Os(wrap, win, flags, check, head, r.Avail() + f) == ExLen(wrap, win, flags, check', head', r'.Avail() + f)
    ensures ExtraOf(head') == ExtraOf(head)
  {
    hide ToBits, Pow2, ToInt, ExLen, HeaderCrc;
    head', check' := head, check;
    var hold;
    more, hold, r' := NeedWord(r, 16, f);
    if more {
      Pow2Sizes();
      if head.Header? {
        head' := Header(head.h.(xflags := hold % 256, os := hold / 256));
      }
      check' := HeaderCrc(wrap, flags, check, Bytes2(hold));
    }
  }

  function Least(a: int, b: int): int {
    if a < b then a else b
  }

  /** The extra buffer holds what has been read of the field, as far as there is room. */
  ghost predicate ExtraOk(head: Saved, length: nat) {
    head.Header? && head.h.extra.Buf? ==>
      && length <= head.h.extraLen
      && |head.h.extra.data| == Least(head.h.extraLen - length, head.h.extra.max)
  }

  /** Nothing is in the extra buffer yet. */
  ghost predicate ExtraEmpty(head: Saved) {
    head.Header? && head.h.extra.Buf? ==> head.h.extra.data == []
  }

  /** EXLEN */
  method StepExLen(r: Regs, wrap: nat, ghost win: Win, flags: int, check: u32, head: Saved, ghost f: seq<bool>)
      returns (more: bool, r': Regs, head': Saved, check': u32, length: nat)
    requires r.Ok() && r.bits % 8 == 0 && r.bits < 16 && ExtraEmpty(head) && (!HasExtra(flags) ==> r.bits == 0)
    ensures r'.Ok() && r'.input == r.input && r'.Unread() <= r.Unread()
    ensures !more ==>
      Pulled(r, r') && r'.bits < 16 && r'.next == |r'.input| && head' == head && check' == check && HasExtra(flags)
    ensures !more ==> ExLen(wrap, win, flags, check, head, r'.Avail()) == Result(head, Starved([]))
    ensures more ==> r'.bits == 0 && ExtraOk(head', length) && (!HasExtra(flags) ==> length == 0)
    ensures more ==> ExLen(wrap, win, flags, check, head, r.Avail() + f) ==
                     Extra(wrap, win, flags, check', head', length, r'.Avail() + f)
  {
    hide ToBits, Pow2, ToInt, Extra, HeaderCrc;
    head', check', length, more, r' := head, check, 0, true, r;
    if HasExtra(flags) {
      var hold;
      more, hold, r' := NeedWord(r, 16, f);
      if !more {
        return;
      }
      length := hold;
      if head.Header? {
        head' := Header(head.h.(extraLen := hold));
      }
      check' := HeaderCrc(wrap, flags, check, Bytes2(hold));
    } else if head.Header? {
      head' := Header(head.h.(extra := Null));
    }
  }

  lemma RunAvail(r: Regs, k: nat, f: seq<bool>)
    requires r.Ok() && r.bits == 0 && r.next + k <= |r.input|
    ensures r.(next := r.next + k).Ok() && r.(next := r.next + k).Unread() == r.Unread() - 8 * k
    ensures r.Avail() + f == BytesBits(r.input[r.next..r.next + k]) + (r.(next := r.next + k).Avail() + f)
  {
    hide ToBits, Pow2, BytesBits;
    var a, b := r.input[r.next..r.next + k], r.input[r.next + k..];
    BytesBitsConcat(a, b);
    assert a + b == r.input[r.next..];
    NoBitsAt(r.hold);
    assert r.Avail() == BytesBits(a) + BytesBits(b) && r.(next := r.next + k).Avail() == BytesBits(b);
  }

  lemma ExtraShort(wrap: nat, win: Win, flags: int, check: u32, head: Saved, length: nat, b: seq<bool>)
    requires length > 0 && |b| < 8
    ensures Extra(wrap, win, flags, check, head, length, b) == Result(head, Starved([]))
  {
  }

  /** Keeps what there is room for. */
  method SaveExtra(head: Saved, length: nat, data: seq<byte>) returns (head': Saved)
    requires ExtraOk(head, length) && |data| <= length
    ensures head' == WithExtra(head, StoreAll(ExtraOf(head), data)) && ExtraOk(head', length - |data|)
  {
    head' := head;
    if head.Header? && head.h.extra.Buf? {
      StoreAllIs(head.h.extra, data);
      var len := head.h.extraLen - length;
      if len < head.h.extra.max {
        var n := if len + |data| > head.h.extra.max then head.h.extra.max - len else |data|;
        head' := Header(head.h.(extra := Buf(head.h.extra.data + data[..n], head.h.extra.max)));
      } else {
        assert head.h.extra.data + data[..0] == head.h.extra.data;
      }
    } else {
      StoreNull(data);
    }
  }

  /** EXTRA: saves what there is room for. */
  method StepExtra(r: Regs, wrap: nat, ghost win: Win, flags: int, check: u32, head: Saved, length: nat,
        ghost f: seq<bool>)
      returns (more: bool, r': Regs, head': Saved, check': u32, length': nat)
    requires r.Ok() && r.bits == 0 && ExtraOk(head, length) && (!HasExtra(flags) ==> length == 0)
    ensures r'.Ok() && r'.input == r.input && r'.Unread() <= r.Unread() && r'.bits == 0
    ensures Extra(wrap, win, flags, check, head, length, r.Avail() + f) ==
            Extra(wrap, win, flags, check', head', length', r'.Avail() + f)
    ensures more ==> length' == 0
    ensures !more ==> r'.next == |r'.input| && ExtraOk(head', length') && HasExtra(flags)
    ensures !more ==> Extra(wrap, win, flags, check', head', length', r'.Avail()) == Result(head', Starved([]))
  {
    hide ToBits, Pow2, ToInt, Extra, HeaderCrc, ExtraOk, WithExtra, StoreAll, ExtraOf, BytesBits;
    head', check', length', r' := head, check, length, r;
    if HasExtra(flags) {
      var copy := length;
      if copy > |r.input| - r.next {
        copy := |r.input| - r.next;
      }
      if copy > 0 {
        var data := r.input[r.next..r.next + copy];
        RunAvail(r, copy, f);
        r' := r.(next := r.next + copy);
        ExtraRun(wrap, win, flags, check, head, length, data, r'.Avail() + f);
        head' := SaveExtra(head, length, data);
        check' := HeaderCrc(wrap, flags, check, data);
        length' := length - copy;
      }
    }
    more := length' == 0;
    if !more {
      ExtraShort(wrap, win, flags, check', head', length', r'.Avail());
    }
  }

  lemma {:induction false} StoreNull(d: seq<byte>)
    ensures StoreAll(Null, d) == Null
    decreases |d|
  {
    if d != [] {
      StoreNull(d[1..]);
    }
  }

  /** A zero-terminated field: reads to the zero or the end of the input, saving what there is room for. */
  method ScanText(r: Regs, buf: Buffer) returns (r': Regs, done: bool, data: seq<byte>, buf': Buffer)
    requires r.Ok() && r.bits == 0 && r.next < |r.input|
    ensures r.next < r'.next <= |r.input| && r' == r.(next := r'.next) && data == r.input[r.next..r'.next]
    ensures Text(data) && done == (data[|data| - 1] == 0) && (!done ==> r'.next == |r.input|)
    ensures buf' == StoreAll(buf, data)
  {
    var copy := 1;
    var len := r.input[r.next];
    buf' := Store(buf, len);
    while len != 0 && copy < |r.input| - r.next
      invariant 1 <= copy <= |r.input| - r.next && len == r.input[r.next + copy - 1]
      invariant Text(r.input[r.next..r.next + copy])
      invariant buf' == StoreAll(buf, r.input[r.next..r.next + copy])
      decreases |r.input| - copy
    {
      ghost var d := r.input[r.next..r.next + copy];
      len := r.input[r.next + copy];
      StoreAllConcat(buf, d, [len]);
      assert r.input[r.next..r.next + copy + 1] == d + [len];
      buf' := Store(buf', len);
      copy := copy + 1;
    }
    data := r.input[r.next..r.next + copy];
    r' := r.(next := r.next + copy);
    done := len == 0;
  }

  /** NAME */
  method StepName(r: Regs, wrap: nat, ghost win: Win, flags: int, check: u32, head: Saved, ghost f: seq<bool>)
      returns (more: bool, r': Regs, head': Saved, check': u32)
    requires r.Ok() && r.bits == 0
    ensures r'.Ok() && r'.input == r.input && r'.Unread() <= r.Unread() && r'.bits == 0
    ensures !more ==>
      r'.next == |r'.input| && NameStart(wrap, win, flags, check', head', r'.Avail()) == Result(head', Starved([]))
    ensures NameStart(wrap, win, flags, check, head, r.Avail() + f) ==
            if more then CommentStart(wrap, win, flags, check', head', r'.Avail() + f)
            else NameStart(wrap, win, flags, check', head', r'.Avail() + f)
  {
    hide ToBits, Pow2, ToInt, CommentStart, HeaderCrc, StoreAll;
    head', check', more, r' := head, check, true, r;
    if HasName(flags) {
      if r.next == |r.input| {
        more := false;
        return;
      }
      var data, name;
      r', more, data, name := ScanText(r, NameOf(head));
      RunAvail(r, |data|, f);
      NameRun(wrap, win, flags, check, head, data, r'.Avail() + f);
      head' := WithName(head, name);
      check' := HeaderCrc(wrap, flags, check, data);
    } else if head.Header? {
      head' := Header(head.h.(name := Null));
    }
  }

  /** COMMENT */
  method StepComment(r: Regs, wrap: nat, ghost win: Win, flags: int, check: u32, head: Saved, ghost f: seq<bool>)
      returns (more: bool, r': Regs, head': Saved, check': u32)
    requires r.Ok() && r.bits == 0
    ensures r'.Ok() && r'.input == r.input && r'.Unread() <= r.Unread() && r'.bits == 0
    ensures !more ==>
      r'.next == |r'.input| && CommentStart(wrap, win, flags, check', head', r'.Avail()) == Result(head', Starved([]))
    ensures CommentStart(wrap, win, flags, check, head, r.Avail() + f) ==
            if more then Hcrc(wrap, win, flags, check', head', r'.Avail() + f)
            else CommentStart(wrap, win, flags, check', head', r'.Avail() + f)
  {
    hide ToBits, Pow2, ToInt, Hcrc, HeaderCrc, StoreAll;
    head', check', more, r' := head, check, true, r;
    if HasComment(flags) {
      if r.next == |r.input| {
        more := false;
        return;
      }
      var data, comment;
      r', more, data, comment := ScanText(r, CommentOf(head));
      RunAvail(r, |data|, f);
      CommentRun(wrap, win, flags, check, head, data, r'.Avail() + f);
      head' := WithComment(head, comment);
      check' := HeaderCrc(wrap, flags, check, data);
    } else if head.Header? {
      head' := Header(head.h.(comment := Null));
    }
  }

  /** HCRC */
  method StepHcrc(r: Regs, wrap: nat, ghost win: Win, flags: int, check: u32, head: Saved, ghost f: seq<bool>)
      returns (more: bool, r': Regs, good: bool, head': Saved)
    requires r.Ok() && r.bits % 8 == 0 && r.bits < 16 && (!HasHcrc(flags) ==> r.bits == 0)
    ensures r'.Ok() && r'.input == r.input && r'.Unread() <= r.Unread()
    ensures !more ==> Pulled(r, r') && r'.bits < 16 && r'.next == |r'.input| && head' == head && HasHcrc(flags)
    ensures !more ==> Hcrc(wrap, win, flags, check, head, r'.Avail()) == Result(head, Starved([]))
    ensures more ==> r'.bits == 0
    ensures more ==> Hcrc(wrap, win, flags, check, head, r.Avail() + f) ==
                     if good then Body(wrap, win, flags, head', r'.Avail() + f) else Result(head', Corrupt([]))
  {
    hide ToBits, Pow2, ToInt, Body;
    head', good, more, r' := head, true, true, r;
    if HasHcrc(flags) {
      var hold;
      more, hold, r' := NeedWord(r, 16, f);
      if !more {
        return;
      }
      if Verify(wrap) && hold != check % 65536 {
        good := false;
        return;
      }
    }
    if head.Header? {
      head' := Header(head.h.(hcrc := HasHcrc(flags), done := 1));
    }
  }

  /** DICTID */
  method StepDictId(r: Regs, head: Saved, ghost f: seq<bool>) returns (more: bool, r': Regs, id: u32)
    requires r.Ok() && r.bits % 8 == 0 && r.bits < 32
    ensures r'.Ok() && r'.input == r.input && r'.Unread() <= r.Unread()
    ensures !more ==>
      Pulled(r, r') && r'.bits < 32 && r'.next == |r'.input| && DictId(head, r'.Avail()) == Result(head, Starved([]))
    ensures more ==> r'.bits == 0 && DictId(head, r.Avail() + f) == Result(head, NeedsDict(id))
  {
    hide ToBits, Pow2, ToInt;
    id := 0;
    var hold;
    more, hold, r' := NeedWord(r, 32, f);
    if more {
      id := Swap32(hold);
    }
  }

  // ---------- trailer ----------

  /** CHECK: compares check, of all output o, with the value that follows the blocks. */
  method StepCheck(r: Regs, wrap: nat, flags: int, check: u32, ghost o: seq<byte>, ghost f: seq<bool>)
      returns (more: bool, r': Regs, good: bool)
    requires r.Ok() && r.bits % 8 == 0 && r.bits < 32 && wrap > 0
    requires Verify(wrap) ==> check == CheckOf(flags, o)
    ensures r'.Ok() && r'.input == r.input && r'.Unread() <= r.Unread()
    ensures !more ==>
      Pulled(r, r') && r'.bits < 32 && r'.next == |r'.input| &&
      Wrapper.Trailer(wrap, flags, r'.Avail(), o) == Starved(o)
    ensures more ==> r'.bits == 0 && r'.next > r.next
    ensures more ==> Wrapper.Trailer(wrap, flags, r.Avail() + f, o) ==
                     if good then Size(wrap, flags, r'.Avail() + f, o) else Corrupt(o)
  {
    hide ToBits, Pow2, ToInt, Size, CheckOf;
    good := true;
    var hold;
    more, hold, r' := NeedWord(r, 32, f);
    if more {
      good := !Verify(wrap) || (if flags != 0 then hold else Swap32(hold)) == check;
    }
  }

  /** LENGTH: compares the output length, modulo 2^32, with the last word of a gzip stream. */
  method StepLength(r: Regs, wrap: nat, flags: int, total: nat, ghost o: seq<byte>, ghost f: seq<bool>)
      returns (more: bool, r': Regs, good: bool)
    requires r.Ok() && r.bits % 8 == 0 && r.bits < 32 && wrap > 0 && flags != 0 && total == |o|
    ensures r'.Ok() && r'.input == r.input && r'.Unread() <= r.Unread()
    ensures !more ==>
      Pulled(r, r') && r'.bits < 32 && r'.next == |r'.input| && Size(wrap, flags, r'.Avail(), o) == Starved(o)
    ensures more ==> r'.bits == 0
    ensures more ==> Size(wrap, flags, r.Avail() + f, o) ==
                     if good then Finished(o, r'.Avail() + f) else Corrupt(o)
  {
    hide ToBits, Pow2, ToInt;
    good := true;
    var hold;
    more, hold, r' := NeedWord(r, 32, f);
    if more {
      good := !Verify(wrap) || hold == total % 0x1_0000_0000;
    }
  }
}
