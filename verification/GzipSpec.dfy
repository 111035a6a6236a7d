/**
 The zlib and gzip wrappers as deflate writes them, and that they are read back
 (RFC 1950, RFC 1952).
 */
module GzipSpec {
  import opened Bits
  import opened Rfc1951
  import opened Wrapper
  import opened BitWriter
  import opened BlockSpec
  import opened InflateHeader
  import CrcSpec

  // ---------- words ----------

  /** Two bytes, low byte first. */
  lemma Word16(v: nat, rest: seq<bool>)
    requires v < 65536
    ensures var b := BytesBits(Bytes2(v)) + rest; |b| >= 16 && ToInt(b[..16]) == v && b[16..] == rest
  {
    hide ToBits, ToInt, BytesBits, Pow2;
    TwoBytes(v);
    SixteenPower();
    ToIntToBits(v, 16);
    LowOfSmall(v, 16);
    var b := BytesBits(Bytes2(v)) + rest;
    assert Bytes2(v) == [v % 256, v / 256];
    assert b[..16] == ToBits(v, 16) && b[16..] == rest;
  }

  lemma FourBytes(v: nat)
    requires v < 0x1_0000_0000
    ensures ToBits(v, 32) == BytesBits(Bytes4(v))
  {
    hide ToBits, BytesBits, Pow2, Shl;
    var lo, hi := v % 65536, v / 65536;
    SixteenPower();
    TwoBytes(lo);
    TwoBytes(hi);
    PushBits(lo, 16, hi, 16);
    ShlSixteen(hi);
    Halves(v);
    BytesBitsConcat([lo % 256, lo / 256], [hi % 256, hi / 256]);
    assert [lo % 256, lo / 256] + [hi % 256, hi / 256] == Bytes4(v);
  }

  lemma Halves(v: nat)
    requires v < 0x1_0000_0000
    ensures v % 65536 % 256 == v % 256 && v % 65536 / 256 == v / 256 % 256
    ensures v / 65536 % 256 == v / 65536 % 256 && v / 65536 / 256 == v / 16777216 % 256
  {
  }

  lemma ShlSixteen(x: nat)
    ensures Shl(x, 16) == 65536 * x
  {
    hide Shl;
    ShlShl(x, 8, 8);
    ShlEight(x);
    ShlEight(256 * x);
  }

  lemma Word32(v: nat, rest: seq<bool>)
    requires v < 0x1_0000_0000
    ensures var b := BytesBits(Bytes4(v)) + rest; |b| >= 32 && ToInt(b[..32]) == v && b[32..] == rest
  {
    hide ToBits, ToInt, BytesBits, Pow2;
    FourBytes(v);
    Pow2Sizes();
    ToIntToBits(v, 32);
    LowOfSmall(v, 32);
    var b := BytesBits(Bytes4(v)) + rest;
    assert b[..32] == ToBits(v, 32) && b[32..] == rest;
  }

  // ---------- zlib ----------

  /** The header: method and window size, then the level and what makes both a multiple of 31. */
  function ZlibHead(wbits: nat, level: nat): seq<byte>
    requires 8 <= wbits <= 15 && level <= 3
  {
    var h := (8 + 16 * (wbits - 8)) * 256 + 64 * level;
    var v := h + 31 - h % 31;
    [v / 256, v % 256]
  }

  lemma ZlibHeadParts(wbits: nat, level: nat)
    requires 8 <= wbits <= 15 && level <= 3
    ensures |ZlibHead(wbits, level)| == 2
    ensures var x: nat, y: nat := ZlibHead(wbits, level)[0], ZlibHead(wbits, level)[1];
            x == 8 + 16 * (wbits - 8) && y / 32 == 2 * level && (x * 256 + y) % 31 == 0
  {
    var top := 8 + 16 * (wbits - 8);
    var h := top * 256 + 64 * level;
    To31(h);
    var v := h + 31 - h % 31;
    assert 64 * level < v - top * 256 <= 64 * level + 31;
    LowPart(v, top, v - top * 256);
  }

  lemma To31(h: nat)
    ensures (h + 31 - h % 31) % 31 == 0
  {
    assert h + 31 - h % 31 == 31 * (h / 31 + 1);
  }

  lemma LowPart(v: nat, x: nat, y: nat)
    requires v == x * 256 + y && y < 256
    ensures v / 256 == x && v % 256 == y
  {
  }

  /** The window inflate uses: the one it was told, or the one the header tells. */
  function Chosen(iw: nat, wbits: nat): nat {
    if iw == 0 then wbits else iw
  }

  lemma ZlibHeadDecodes(wrap: nat, iw: nat, wbits: nat, level: nat, head: Saved, rest: seq<bool>)
    requires Zlib(wrap) && 8 <= wbits <= 15 && level <= 3 && (iw == 0 || wbits <= iw)
    ensures var h := if head.Header? then Header(head.h.(done := -1)) else head;
            Head(wrap, Win(iw, false), head, BytesBits(ZlibHead(wbits, level)) + rest) ==
                Body(wrap, Win(Chosen(iw, wbits), false), 0, h, rest)
  {
    hide ToInt, BytesBits, Body, Flags, DictId, CrcSpec.Crc32, ZlibHead;
    var b := ZlibHead(wbits, level);
    ZlibHeadParts(wbits, level);
    var x: nat, y: nat := b[0], b[1];
    ZlibFields(x + 256 * y, x, y, wbits, level);
    assert b == Bytes2(x + 256 * y);
    Word16(x + 256 * y, rest);
  }

  lemma ZlibFields(v: nat, b0: byte, b1: byte, wbits: nat, level: nat)
    requires v == b0 + 256 * b1 && 8 <= wbits <= 15 && b0 == 8 + 16 * (wbits - 8) && b1 / 32 == 2 * level
    ensures v != 0x8b1f && v % 256 == b0 && v / 256 == b1 && v % 16 == 8 && v / 16 % 16 + 8 == wbits &&
            v / 0x2000 % 2 == 0
  {
  }

  /** The check value, most significant byte first. */
  function Msb4(v: nat): seq<byte> {
    [v / 16777216 % 256, v / 65536 % 256, v / 256 % 256, v % 256]
  }

  lemma Swapped(v: nat)
    requires v < 0x1_0000_0000
    ensures Msb4(v) == Bytes4(Swap32(v)) && Swap32(Swap32(v)) == v && Swap32(v) < 0x1_0000_0000
  {
    hide Msb4;
    var a, b, c, d := v % 256, v / 256 % 256, v / 65536 % 256, v / 16777216 % 256;
    Digits(a, b, c, d);
    Digits(d, c, b, a);
    Combined(v);
    assert Msb4(v) == [d, c, b, a] by {
      MsbIs(v);
    }
  }

  lemma MsbIs(v: nat)
    ensures Msb4(v) == [v / 16777216 % 256, v / 65536 % 256, v / 256 % 256, v % 256]
  {
  }

  lemma Combined(v: nat)
    requires v < 0x1_0000_0000
    ensures v == v / 16777216 % 256 * 16777216 + v / 65536 % 256 * 65536 + v / 256 % 256 * 256 + v % 256
  {
    assert v / 65536 == v / 16777216 * 256 + v / 65536 % 256;
    assert v / 256 == v / 65536 * 256 + v / 256 % 256;
  }

  lemma Digits(a: nat, b: nat, c: nat, d: nat)
    requires a < 256 && b < 256 && c < 256 && d < 256
    ensures var w := a * 16777216 + b * 65536 + c * 256 + d;
            w % 256 == d && w / 256 % 256 == c && w / 65536 % 256 == b && w / 16777216 % 256 == a && w < 0x1_0000_0000
  {
    var w := a * 16777216 + b * 65536 + c * 256 + d;
    assert w / 256 == a * 65536 + b * 256 + c;
    assert w / 65536 == a * 256 + b;
    assert w / 16777216 == a;
  }

  lemma ZlibTail(wrap: nat, data: seq<byte>, rest: seq<bool>)
    requires wrap != 0
    ensures Trailer(wrap, 0, BytesBits(Msb4(CheckOf(0, data))) + rest, data) == Finished(data, rest)
  {
    hide ToInt, BytesBits, CheckOf, Swap32, Msb4;
    var v := CheckOf(0, data);
    Swapped(v);
    Word32(Swap32(v), rest);
  }

  /** A zlib stream around what deflate writes is read back, and nothing after it is touched. */
  lemma ZlibDecodes(wrap: nat, iw: nat, wbits: nat, level: nat, head: Saved, reach: nat, body: seq<byte>,
        data: seq<byte>, rest: seq<byte>)
    requires Zlib(wrap) && 8 <= wbits <= 15 && level <= 3 && (iw == 0 || wbits <= iw)
    requires Ends(reach, body, data) && reach <= Pow2(Chosen(iw, wbits))
    ensures var h := if head.Header? then Header(head.h.(done := -1)) else head;
            Head(wrap, Win(iw, false), head,
                 BytesBits(ZlibHead(wbits, level) + body + Msb4(CheckOf(0, data)) + rest)) ==
                Result(h, Finished(data, BytesBits(rest)))
  {
    hide ZlibHead, Msb4, CheckOf, Head, Blocks, BytesBits, Trailer, Ends, Pow2, Chosen;
    var a, z := ZlibHead(wbits, level), Msb4(CheckOf(0, data));
    var tail := BytesBits(z) + BytesBits(rest);
    BytesBitsConcat(a + body + z, rest);
    BytesBitsConcat(a + body, z);
    BytesBitsConcat(a, body);
    assert BytesBits(a + body + z + rest) == BytesBits(a) + (BytesBits(body) + tail);
    ZlibHeadDecodes(wrap, iw, wbits, level, head, BytesBits(body) + tail);
    EndsAt(reach, Pow2(Chosen(iw, wbits)), body, data, tail);
    ZlibTail(wrap, data, BytesBits(rest));
  }

  // ---------- gzip ----------

  /** What the caller wants in the header; name and comment are given without the zero that ends them. */
  datatype GzOut = GzOut(text: bool, time: nat, os: byte, extra: Option<seq<byte>>, name: Option<seq<byte>>,
        comment: Option<seq<byte>>, hcrc: bool) {
    ghost predicate Ok() {
      && time < 0x1_0000_0000 && (extra.Some? ==> |extra.value| <= 65535)
      && (name.Some? ==> NoZero(name.value)) && (comment.Some? ==> NoZero(comment.value))
    }

    /** The flag byte. */
    function Flags(): byte {
      (if text then 1 else 0) + (if hcrc then 2 else 0) + (if extra.Some? then 4 else 0) +
          (if name.Some? then 8 else 0) + (if comment.Some? then 16 else 0)
    }
  }

  ghost predicate NoZero(s: seq<byte>) {
    forall i :: 0 <= i < |s| ==> s[i] != 0
  }

  const MAGIC: seq<byte> := [31, 139]

  function ExtraBytes(h: GzOut): seq<byte> {
    if h.extra.Some? then Bytes2(|h.extra.value|) + h.extra.value else []
  }

  function TextBytes(s: Option<seq<byte>>): seq<byte> {
    if s.Some? then s.value + [0] else []
  }

  /** The first ten bytes. */
  function FixedBytes(h: GzOut, xfl: byte): seq<byte> {
    MAGIC + [8, h.Flags()] + Bytes4(h.time) + [xfl, h.os]
  }

  /** The header but for its check value. */
  function HeadBytes(h: GzOut, xfl: byte): seq<byte> {
    FixedBytes(h, xfl) + ExtraBytes(h) + TextBytes(h.name) + TextBytes(h.comment)
  }

  function GzipHead(h: GzOut, xfl: byte): seq<byte> {
    HeadBytes(h, xfl) + if h.hcrc then Bytes2(CrcSpec.Crc32(0, HeadBytes(h, xfl)) % 65536) else []
  }

  /** The flags as inflate keeps them. */
  function FlagWord(h: GzOut): nat {
    8 + 256 * h.Flags()
  }

  lemma FlagBits(h: GzOut)
    ensures
      var v := FlagWord(h);
      v % 256 == 8 && v / 0x2000 == 0 && v < 65536 && (v / 256 % 2 == 1) == h.text &&
      Bytes2(v) == [8, h.Flags()]
    ensures
      var v := FlagWord(h);
      HasHcrc(v) == h.hcrc && HasExtra(v) == h.extra.Some? && HasName(v) == h.name.Some? &&
      HasComment(v) == h.comment.Some?
  {
  }

  /** What inflateGetHeader reports of a header. */
  function Received(head: Saved, h: GzOut, xfl: byte): Saved {
    if head.NoHeader? then head
    else
      var g := head.h;
      Header(GzHeader(h.text, h.time, xfl, h.os, if h.extra.Some? then |h.extra.value| else g.extraLen,
                      if h.extra.Some? then StoreAll(g.extra, h.extra.value) else Null,
                      if h.name.Some? then StoreAll(g.name, h.name.value + [0]) else Null,
                      if h.comment.Some? then StoreAll(g.comment, h.comment.value + [0]) else Null, h.hcrc, 1))
  }

  // ---------- piece by piece ----------

  /** The running check value, kept up where inflate keeps it. */
  function Kept(wrap: nat, h: GzOut, bytes: seq<byte>): u32 {
    if h.hcrc && Verify(wrap) then CrcSpec.Crc32(0, bytes) else CrcSpec.Crc32(0, MAGIC)
  }

  lemma KeptNext(wrap: nat, h: GzOut, a: seq<byte>, b: seq<byte>)
    ensures HeaderCrc(wrap, FlagWord(h), Kept(wrap, h, a), b) == Kept(wrap, h, a + b)
  {
    hide CrcSpec.Crc32;
    FlagBits(h);
    if h.hcrc && Verify(wrap) {
      CrcSpec.Crc32Concat(0, a, b);
    }
  }

  lemma MagicDecodes(wrap: nat, iw: nat, head: Saved, rest: seq<bool>)
    requires Gzip(wrap)
    ensures Head(wrap, Win(iw, false), head, BytesBits(MAGIC) + rest) ==
            Flags(wrap, Win(Chosen(iw, 15), false), CrcSpec.Crc32(0, MAGIC), head, rest)
  {
    hide ToInt, BytesBits, Body, Wrapper.Flags, DictId, CrcSpec.Crc32;
    assert wrap != 0;
    assert MAGIC == Bytes2(0x8b1f);
    Word16(0x8b1f, rest);
  }

  function WithText(head: Saved, x: bool): Saved {
    if head.Header? then Header(head.h.(text := x)) else head
  }

  function WithTime(head: Saved, x: nat): Saved {
    if head.Header? then Header(head.h.(time := x)) else head
  }

  function WithOs(head: Saved, x: nat, y: nat): Saved {
    if head.Header? then Header(head.h.(xflags := x, os := y)) else head
  }

  function WithExtraLen(head: Saved, x: nat): Saved {
    if head.Header? then Header(head.h.(extraLen := x)) else head
  }

  lemma FixedDecodes(wrap: nat, iw: nat, h: GzOut, xfl: byte, head: Saved, rest: seq<bool>)
    requires Gzip(wrap) && h.Ok()
    ensures Head(wrap, Win(iw, false), head, BytesBits(FixedBytes(h, xfl)) + rest) ==
            ExLen(wrap, Win(Chosen(iw, 15), false), FlagWord(h), Kept(wrap, h, FixedBytes(h, xfl)),
                WithOs(WithTime(WithText(head, h.text), h.time), xfl, h.os), rest)
  {
    hide BytesBits, Head, Wrapper.Flags, Time, Os, ExLen, Kept, FlagWord, Bytes4, CrcSpec.Crc32;
    var f := FlagWord(h);
    FlagBits(h);
    var b1, b2, b3 := Bytes2(f), Bytes4(h.time), [xfl, h.os];
    BytesBitsConcat(MAGIC + b1 + b2, b3);
    BytesBitsConcat(MAGIC + b1, b2);
    BytesBitsConcat(MAGIC, b1);
    var r3 := BytesBits(b3) + rest;
    var r2 := BytesBits(b2) + r3;
    var r1 := BytesBits(b1) + r2;
    assert BytesBits(FixedBytes(h, xfl)) + rest == BytesBits(MAGIC) + r1;
    MagicDecodes(wrap, iw, head, r1);
    KeptFirst(wrap, h);
    FlagsDecodes(wrap, Win(Chosen(iw, 15), false), h, head, r2);
    TimeDecodes(wrap, Win(Chosen(iw, 15), false), h, MAGIC + b1, WithText(head, h.text), r3);
    OsDecodes(wrap, Win(Chosen(iw, 15), false), h, MAGIC + b1 + b2, xfl, WithTime(WithText(head, h.text), h.time),
      rest);
  }

  lemma KeptFirst(wrap: nat, h: GzOut)
    ensures Kept(wrap, h, MAGIC) == CrcSpec.Crc32(0, MAGIC)
  {
  }

  lemma FlagsDecodes(wrap: nat, win: Win, h: GzOut, head: Saved, rest: seq<bool>)
    ensures Flags(wrap, win, Kept(wrap, h, MAGIC), head, BytesBits(Bytes2(FlagWord(h))) + rest) ==
            Time(wrap, win, FlagWord(h), Kept(wrap, h, MAGIC + Bytes2(FlagWord(h))), WithText(head, h.text), rest)
  {
    hide ToInt, BytesBits, Time, Kept, FlagWord, HeaderCrc, Bytes2;
    FlagBits(h);
    Word16(FlagWord(h), rest);
    KeptNext(wrap, h, MAGIC, Bytes2(FlagWord(h)));
  }

  lemma TimeDecodes(wrap: nat, win: Win, h: GzOut, before: seq<byte>, head: Saved, rest: seq<bool>)
    requires h.Ok()
    ensures Time(wrap, win, FlagWord(h), Kept(wrap, h, before), head, BytesBits(Bytes4(h.time)) + rest) ==
            Os(wrap, win, FlagWord(h), Kept(wrap, h, before + Bytes4(h.time)), WithTime(head, h.time), rest)
  {
    hide ToInt, BytesBits, Os, Kept, FlagWord, HeaderCrc, Bytes4;
    Word32(h.time, rest);
    KeptNext(wrap, h, before, Bytes4(h.time));
  }

  lemma OsDecodes(wrap: nat, win: Win, h: GzOut, before: seq<byte>, xfl: byte, head: Saved, rest: seq<bool>)
    ensures Os(wrap, win, FlagWord(h), Kept(wrap, h, before), head, BytesBits([xfl, h.os]) + rest) ==
            ExLen(wrap, win, FlagWord(h), Kept(wrap, h, before + [xfl, h.os]), WithOs(head, xfl, h.os), rest)
  {
    hide ToInt, BytesBits, ExLen, Kept, FlagWord, HeaderCrc;
    var x: nat, y: nat := xfl, h.os;
    assert Bytes2(x + 256 * y) == [xfl, h.os];
    Word16(x + 256 * y, rest);
    KeptNext(wrap, h, before, [xfl, h.os]);
  }

  /** The saved header after the extra field. */
  function AfterExtra(head: Saved, h: GzOut): Saved {
    if h.extra.Some? then
      var g := WithExtraLen(head, |h.extra.value|);
      WithExtra(g, StoreAll(ExtraOf(g), h.extra.value))
    else WithExtra(head, Null)
  }

  lemma ExtraDecodes(wrap: nat, win: Win, h: GzOut, before: seq<byte>, head: Saved, rest: seq<bool>)
    requires h.Ok()
    ensures ExLen(wrap, win, FlagWord(h), Kept(wrap, h, before), head, BytesBits(ExtraBytes(h)) + rest) ==
            NameStart(wrap, win, FlagWord(h), Kept(wrap, h, before + ExtraBytes(h)), AfterExtra(head, h), rest)
  {
    hide ToInt, BytesBits, NameStart, Kept, FlagWord, HeaderCrc, Bytes2, Extra, StoreAll;
    FlagBits(h);
    if h.extra.Some? {
      var n, d := Bytes2(|h.extra.value|), h.extra.value;
      var r := BytesBits(d) + rest;
      BytesBitsConcat(n, d);
      assert BytesBits(ExtraBytes(h)) + rest == BytesBits(n) + r;
      Word16(|d|, r);
      KeptNext(wrap, h, before, n);
      var g := WithExtraLen(head, |d|);
      assert before + (n + d) == before + n + d;
      KeptNext(wrap, h, before + n, d);
      assert d == [] ==> before + n + d == before + n;
      ExtraField(wrap, win, FlagWord(h), Kept(wrap, h, before + n), g, d, rest);
    } else {
      NoBytesBits(rest);
      assert before + [] == before;
      ExtraDone(wrap, win, FlagWord(h), Kept(wrap, h, before), WithExtra(head, Null), rest);
    }
  }

  lemma NoBytesBits(rest: seq<bool>)
    ensures BytesBits([]) + rest == rest
  {
  }

  lemma ExtraField(wrap: nat, win: Win, flags: int, check: u32, head: Saved, d: seq<byte>, rest: seq<bool>)
    ensures Extra(wrap, win, flags, check, head, |d|, BytesBits(d) + rest) ==
            NameStart(wrap, win, flags, if d == [] then check
                else HeaderCrc(wrap, flags, check, d), WithExtra(head, StoreAll(ExtraOf(head), d)), rest)
  {
    hide NameStart, HeaderCrc, Extra;
    if d == [] {
      NoBytesBits(rest);
      ExtraDone(wrap, win, flags, check, head, rest);
    } else {
      ExtraRun(wrap, win, flags, check, head, |d|, d, rest);
      ExtraDone(wrap, win, flags, HeaderCrc(wrap, flags, check, d), WithExtra(head, StoreAll(ExtraOf(head), d)), rest);
    }
  }

  function AfterName(head: Saved, h: GzOut): Saved {
    if h.name.Some? then WithName(head, StoreAll(NameOf(head), h.name.value + [0])) else WithName(head, Null)
  }

  lemma NameDecodes(wrap: nat, win: Win, h: GzOut, before: seq<byte>, head: Saved, rest: seq<bool>)
    requires h.Ok()
    ensures NameStart(wrap, win, FlagWord(h), Kept(wrap, h, before), head, BytesBits(TextBytes(h.name)) + rest) ==
            CommentStart(wrap, win, FlagWord(h), Kept(wrap, h, before + TextBytes(h.name)), AfterName(head, h), rest)
  {
    hide BytesBits, CommentStart, Kept, FlagWord, HeaderCrc, Name, StoreAll;
    FlagBits(h);
    if h.name.Some? {
      var d := h.name.value + [0];
      NameRun(wrap, win, FlagWord(h), Kept(wrap, h, before), head, d, rest);
      KeptNext(wrap, h, before, d);
    } else {
      NoBytesBits(rest);
      assert before + [] == before;
    }
  }

  function AfterComment(head: Saved, h: GzOut): Saved {
    if h.comment.Some? then WithComment(head, StoreAll(CommentOf(head), h.comment.value + [0]))
        else WithComment(head, Null)
  }

  lemma CommentDecodes(wrap: nat, win: Win, h: GzOut, before: seq<byte>, head: Saved, rest: seq<bool>)
    requires h.Ok()
    ensures CommentStart(wrap, win, FlagWord(h), Kept(wrap, h, before), head, BytesBits(TextBytes(h.comment)) + rest) ==
            Hcrc(wrap, win, FlagWord(h), Kept(wrap, h, before + TextBytes(h.comment)), AfterComment(head, h), rest)
  {
    hide BytesBits, Hcrc, Kept, FlagWord, HeaderCrc, Comment, StoreAll;
    FlagBits(h);
    if h.comment.Some? {
      var d := h.comment.value + [0];
      CommentRun(wrap, win, FlagWord(h), Kept(wrap, h, before), head, d, rest);
      KeptNext(wrap, h, before, d);
    } else {
      NoBytesBits(rest);
      assert before + [] == before;
    }
  }

  function Done(head: Saved, h: GzOut): Saved {
    if head.Header? then Header(head.h.(hcrc := h.hcrc, done := 1)) else head
  }

  lemma HcrcDecodes(wrap: nat, win: Win, h: GzOut, before: seq<byte>, head: Saved, rest: seq<bool>)
    ensures var crc := if h.hcrc then Bytes2(CrcSpec.Crc32(0, before) % 65536) else [];
            Hcrc(wrap, win, FlagWord(h), Kept(wrap, h, before), head, BytesBits(crc) + rest) ==
                Body(wrap, win, FlagWord(h), Done(head, h), rest)
  {
    hide BytesBits, Body, FlagWord, CrcSpec.Crc32, ToInt, Bytes2;
    FlagBits(h);
    if h.hcrc {
      Word16(CrcSpec.Crc32(0, before) % 65536, rest);
    } else {
      NoBytesBits(rest);
    }
  }

  /**
   The header that deflate writes is the header that inflate reads, check value and all, whatever buffers the reader
   has.
   */
  lemma GzipHeadDecodes(wrap: nat, iw: nat, h: GzOut, xfl: byte, head: Saved, rest: seq<bool>)
    requires Gzip(wrap) && h.Ok()
    ensures Head(wrap, Win(iw, false), head, BytesBits(GzipHead(h, xfl)) + rest) ==
            Body(wrap, Win(Chosen(iw, 15), false), FlagWord(h), Received(head, h, xfl), rest)
  {
    hide BytesBits, Head, Body, ExLen, NameStart, CommentStart, Hcrc, Kept, FlagWord, FixedBytes, ExtraBytes, TextBytes,
      StoreAll, CrcSpec.Crc32, Bytes2;
    var a, b, c, d := FixedBytes(h, xfl), ExtraBytes(h), TextBytes(h.name), TextBytes(h.comment);
    var e := if h.hcrc then Bytes2(CrcSpec.Crc32(0, HeadBytes(h, xfl)) % 65536) else [];
    BytesBitsConcat(a + b + c + d, e);
    BytesBitsConcat(a + b + c, d);
    BytesBitsConcat(a + b, c);
    BytesBitsConcat(a, b);
    var r4 := BytesBits(e) + rest;
    var r3 := BytesBits(d) + r4;
    var r2 := BytesBits(c) + r3;
    var r1 := BytesBits(b) + r2;
    assert BytesBits(GzipHead(h, xfl)) + rest == BytesBits(a) + r1;
    var h0 := WithOs(WithTime(WithText(head, h.text), h.time), xfl, h.os);
    var h1 := AfterExtra(h0, h);
    var h2 := AfterName(h1, h);
    var h3 := AfterComment(h2, h);
    FixedDecodes(wrap, iw, h, xfl, head, r1);
    ExtraDecodes(wrap, Win(Chosen(iw, 15), false), h, a, h0, r2);
    NameDecodes(wrap, Win(Chosen(iw, 15), false), h, a + b, h1, r3);
    CommentDecodes(wrap, Win(Chosen(iw, 15), false), h, a + b + c, h2, r4);
    HcrcDecodes(wrap, Win(Chosen(iw, 15), false), h, a + b + c + d, h3, rest);
  }

  /** A reader with room for everything gets back what was given. */
  lemma AllReceived(g: GzHeader, h: GzOut, xfl: byte)
    requires g.extra.Buf? && g.extra.data == [] && (h.extra.Some? ==> g.extra.max >= |h.extra.value|)
    requires g.name.Buf? && g.name.data == [] && (h.name.Some? ==> g.name.max >= |h.name.value| + 1)
    requires g.comment.Buf? && g.comment.data == [] && (h.comment.Some? ==> g.comment.max >= |h.comment.value| + 1)
    ensures var r := Received(Header(g), h, xfl).h;
            && r.text == h.text && r.time == h.time && r.xflags == xfl && r.os == h.os && r.hcrc == h.hcrc &&
                r.done == 1
            && (h.extra.Some? ==> r.extraLen == |h.extra.value|) &&
                r.extra == (if h.extra.Some? then Buf(h.extra.value, g.extra.max) else Null)
            && r.name == (if h.name.Some? then Buf(h.name.value + [0], g.name.max) else Null)
            && r.comment == (if h.comment.Some? then Buf(h.comment.value + [0], g.comment.max) else Null)
  {
    hide StoreAll;
    if h.extra.Some? {
      StoredWhole(g.extra, h.extra.value);
    }
    if h.name.Some? {
      StoredWhole(g.name, h.name.value + [0]);
    }
    if h.comment.Some? {
      StoredWhole(g.comment, h.comment.value + [0]);
    }
  }

  lemma StoredWhole(b: Buffer, d: seq<byte>)
    requires b.Buf? && b.data == [] && b.max >= |d|
    ensures StoreAll(b, d) == Buf(d, b.max)
  {
    StoreAllIs(b, d);
    assert [] + d[..|d|] == d;
  }

  /** The trailer: check value and length, low bytes first. */
  function GzipTail(flags: nat, data: seq<byte>): seq<byte> {
    Bytes4(CheckOf(flags, data)) + Bytes4(|data| % 0x1_0000_0000)
  }

  lemma GzipTailDecodes(wrap: nat, flags: nat, data: seq<byte>, rest: seq<bool>)
    requires wrap != 0 && flags != 0
    ensures Trailer(wrap, flags, BytesBits(GzipTail(flags, data)) + rest, data) == Finished(data, rest)
  {
    hide ToInt, BytesBits, CheckOf, Bytes4;
    var a, b := Bytes4(CheckOf(flags, data)), Bytes4(|data| % 0x1_0000_0000);
    BytesBitsConcat(a, b);
    assert BytesBits(a + b) + rest == BytesBits(a) + (BytesBits(b) + rest);
    Word32(CheckOf(flags, data), BytesBits(b) + rest);
    Word32(|data| % 0x1_0000_0000, rest);
  }

  /** A gzip stream around what deflate writes is read back with its header, and nothing after it is touched. */
  lemma GzipDecodes(wrap: nat, iw: nat, h: GzOut, xfl: byte, head: Saved, reach: nat, body: seq<byte>,
        data: seq<byte>, rest: seq<byte>)
    requires Gzip(wrap) && h.Ok() && Ends(reach, body, data) && reach <= Pow2(Chosen(iw, 15))
    ensures Head(wrap, Win(iw, false), head, BytesBits(GzipHead(h, xfl) + body + GzipTail(FlagWord(h), data) + rest)) ==
            Result(Received(head, h, xfl), Finished(data, BytesBits(rest)))
  {
    hide GzipHead, GzipTail, Head, Blocks, BytesBits, Trailer, Ends, Received, Pow2, Chosen;
    var a, z := GzipHead(h, xfl), GzipTail(FlagWord(h), data);
    var tail := BytesBits(z) + BytesBits(rest);
    BytesBitsConcat(a + body + z, rest);
    BytesBitsConcat(a + body, z);
    BytesBitsConcat(a, body);
    assert BytesBits(a + body + z + rest) == BytesBits(a) + (BytesBits(body) + tail);
    GzipHeadDecodes(wrap, iw, h, xfl, head, BytesBits(body) + tail);
    EndsAt(reach, Pow2(Chosen(iw, 15)), body, data, tail);
    GzipTailDecodes(wrap, FlagWord(h), data, BytesBits(rest));
  }
}
