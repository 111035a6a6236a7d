/**
 The wrappers around a DEFLATE stream: zlib (RFC 1950) and gzip (RFC 1952), as recursive
 decoders over the bit sequence, in the same style as Rfc1951.

 wrap: bit 0 zlib allowed, bit 1 gzip allowed, bit 2 check values are verified; zero is a raw stream.
 flags: the gzip method and flags, zero for zlib, -1 for raw.
 */
module Wrapper {
  import opened Bits
  import opened Rfc1951
  import CrcSpec
  import AdlerSpec

  /** A receiving buffer: absent, or what has been stored of at most max bytes. */
  datatype Buffer = Null | Buf(data: seq<byte>, max: nat)

  /** Header information for the caller. */
  datatype GzHeader = GzHeader(text: bool, time: nat, xflags: nat, os: nat, extraLen: nat,
                               extra: Buffer, name: Buffer, comment: Buffer, hcrc: bool, done: int)

  datatype Saved = NoHeader | Header(h: GzHeader)

  /** What a whole stream decodes to: the saved header, and the outcome. */
  datatype Result = Result(head: Saved, outcome: Outcome)

  function Store(b: Buffer, x: byte): Buffer {
    if b.Buf? && |b.data| < b.max then Buf(b.data + [x], b.max) else b
  }

  predicate Zlib(wrap: nat) { wrap % 2 == 1 }
  predicate Gzip(wrap: nat) { wrap / 2 % 2 == 1 }
  predicate Verify(wrap: nat) { wrap / 4 % 2 == 1 }

  predicate HasHcrc(flags: int) { flags / 0x200 % 2 == 1 }
  predicate HasExtra(flags: int) { flags / 0x400 % 2 == 1 }
  predicate HasName(flags: int) { flags / 0x800 % 2 == 1 }
  predicate HasComment(flags: int) { flags / 0x1000 % 2 == 1 }

  /** The low two bytes of v, low byte first. */
  function Bytes2(v: nat): seq<byte> {
    [v % 256, v / 256 % 256]
  }

  function Bytes4(v: nat): seq<byte> {
    [v % 256, v / 256 % 256, v / 65536 % 256, v / 16777216 % 256]
  }

  function Swap32(v: nat): nat {
    v % 256 * 16777216 + v / 256 % 256 * 65536 + v / 65536 % 256 * 256 + v / 16777216 % 256
  }

  /** The header CRC, kept up only if there is one and it will be verified. */
  function HeaderCrc(wrap: nat, flags: int, check: u32, data: seq<byte>): u32 {
    if HasHcrc(flags) && Verify(wrap) then CrcSpec.Crc32(check, data) else check
  }

  // ---------- trailer ----------

  /** The check value of a stream's output. */
  function CheckOf(flags: int, out: seq<byte>): u32 {
    UpdateCheck(flags, if flags != 0 then 0 else 1, out)
  }

  /** A check value continued over more output. */
  function UpdateCheck(flags: int, check: u32, data: seq<byte>): u32 {
    if flags != 0 then CrcSpec.Crc32(check, data) else AdlerSpec.Adler32(check, data)
  }

  /** So a check value may be had piece by piece. */
  lemma CheckAll(flags: int, hist: seq<byte>, output: seq<byte>)
    ensures UpdateCheck(flags, CheckOf(flags, hist), output) == CheckOf(flags, hist + output)
  {
    hide CrcSpec.Crc32, AdlerSpec.Adler32;
    if flags != 0 {
      CrcSpec.Crc32Concat(0, hist, output);
    } else {
      AdlerSpec.AdlerConcat(1, hist, output);
    }
  }

  ghost function Trailer(wrap: nat, flags: int, bits: seq<bool>, out: seq<byte>): Outcome {
    if wrap == 0 then Size(wrap, flags, bits, out)
    else if |bits| < 32 then Starved(out)
    else
      var v := ToInt(bits[..32]);
      if Verify(wrap) && (if flags != 0 then v else Swap32(v)) != CheckOf(flags, out) then Corrupt(out)
      else Size(wrap, flags, bits[32..], out)
  }

  ghost function Size(wrap: nat, flags: int, bits: seq<bool>, out: seq<byte>): Outcome {
    if wrap == 0 || flags == 0 then Finished(out, bits)
    else if |bits| < 32 then Starved(out)
    else if Verify(wrap) && ToInt(bits[..32]) != |out| % 0x1_0000_0000 then Corrupt(out)
    else Finished(out, bits[32..])
  }

  /** The outcome of the blocks, followed by the trailer. */
  ghost function After(wrap: nat, flags: int, o: Outcome): Outcome {
    if o.Finished? then Trailer(wrap, flags, o.rest, o.out) else o
  }

  /**
   The window: its size as a power of two, zero to take what the header says.  If wide, distances may reach back as far
   as the format has them all the same.
   */
  datatype Win = Win(bits: nat, wide: bool) {
    function Span(): nat {
      if wide then 32768 else Pow2(bits)
    }

    function Or(len: nat): Win {
      if bits == 0 then Win(len, wide) else this
    }
  }

  /** The body: blocks, then trailer. */
  ghost function Body(wrap: nat, win: Win, flags: int, head: Saved, bits: seq<bool>): Result {
    Result(head, After(wrap, flags, Blocks(win.Span(), false, bits, [])))
  }

  // ---------- header ----------

  ghost function Head(wrap: nat, win: Win, head: Saved, bits: seq<bool>): Result {
    if wrap == 0 then Body(wrap, win, -1, head, bits)
    else if |bits| < 16 then Result(head, Starved([]))
    else
      var v, rest := ToInt(bits[..16]), bits[16..];
      if Gzip(wrap) && v == 0x8b1f then
        Flags(wrap, win.Or(15), CrcSpec.Crc32(0, Bytes2(v)), head, rest)
      else
        var h := if head.Header? then Header(head.h.(done := -1)) else head;
        var len := v / 16 % 16 + 8;
        var wb := win.Or(len);
        if !Zlib(wrap) || (v % 256 * 256 + v / 256) % 31 != 0 || v % 16 != 8 || len > 15 || len > wb.bits then
          Result(h, Corrupt([]))
        else if v / 0x2000 % 2 == 1 then DictId(h, rest)
        else Body(wrap, wb, 0, h, rest)
  }

  ghost function DictId(head: Saved, bits: seq<bool>): Result {
    if |bits| < 32 then Result(head, Starved([]))
    else Result(head, NeedsDict(Swap32(ToInt(bits[..32]))))
  }

  ghost function Flags(wrap: nat, win: Win, check: u32, head: Saved, bits: seq<bool>): Result {
    if |bits| < 16 then Result(head, Starved([]))
    else
      var v := ToInt(bits[..16]);
      if v % 256 != 8 || v / 0x2000 != 0 then Result(head, Corrupt([]))
      else
        var h := if head.Header? then Header(head.h.(text := v / 256 % 2 == 1)) else head;
        Time(wrap, win, v, HeaderCrc(wrap, v, check, Bytes2(v)), h, bits[16..])
  }

  ghost function Time(wrap: nat, win: Win, flags: int, check: u32, head: Saved, bits: seq<bool>): Result {
    if |bits| < 32 then Result(head, Starved([]))
    else
      var v := ToInt(bits[..32]);
      var h := if head.Header? then Header(head.h.(time := v)) else head;
      Os(wrap, win, flags, HeaderCrc(wrap, flags, check, Bytes4(v)), h, bits[32..])
  }

  ghost function Os(wrap: nat, win: Win, flags: int, check: u32, head: Saved, bits: seq<bool>): Result {
    if |bits| < 16 then Result(head, Starved([]))
    else
      var v := ToInt(bits[..16]);
      var h := if head.Header? then Header(head.h.(xflags := v % 256, os := v / 256)) else head;
      ExLen(wrap, win, flags, HeaderCrc(wrap, flags, check, Bytes2(v)), h, bits[16..])
  }

  ghost function ExLen(wrap: nat, win: Win, flags: int, check: u32, head: Saved, bits: seq<bool>): Result {
    if !HasExtra(flags) then
      var h := if head.Header? then Header(head.h.(extra := Null)) else head;
      Extra(wrap, win, flags, check, h, 0, bits)
    else if |bits| < 16 then Result(head, Starved([]))
    else
      var v := ToInt(bits[..16]);
      var h := if head.Header? then Header(head.h.(extraLen := v)) else head;
      Extra(wrap, win, flags, HeaderCrc(wrap, flags, check, Bytes2(v)), h, v, bits[16..])
  }

  function FirstByte(bits: seq<bool>): byte
    requires |bits| >= 8
  {
    ToBitsToInt(bits[..8]);
    ToInt(bits[..8])
  }

  /** length extra bytes still to come. */
  ghost function Extra(wrap: nat, win: Win, flags: int, check: u32, head: Saved, length: nat, bits: seq<bool>): Result
    decreases |bits|
  {
    if length == 0 then NameStart(wrap, win, flags, check, head, bits)
    else if |bits| < 8 then Result(head, Starved([]))
    else
      var b := FirstByte(bits);
      var h := if head.Header? then Header(head.h.(extra := Store(head.h.extra, b))) else head;
      Extra(wrap, win, flags, HeaderCrc(wrap, flags, check, [b]), h, length - 1, bits[8..])
  }

  ghost function NameStart(wrap: nat, win: Win, flags: int, check: u32, head: Saved, bits: seq<bool>): Result {
    if HasName(flags) then Name(wrap, win, flags, check, head, bits)
    else
      var h := if head.Header? then Header(head.h.(name := Null)) else head;
      CommentStart(wrap, win, flags, check, h, bits)
  }

  ghost function Name(wrap: nat, win: Win, flags: int, check: u32, head: Saved, bits: seq<bool>): Result
    decreases |bits|
  {
    if |bits| < 8 then Result(head, Starved([]))
    else
      var b := FirstByte(bits);
      var h := if head.Header? then Header(head.h.(name := Store(head.h.name, b))) else head;
      var c := HeaderCrc(wrap, flags, check, [b]);
      if b == 0 then CommentStart(wrap, win, flags, c, h, bits[8..])
      else Name(wrap, win, flags, c, h, bits[8..])
  }

  ghost function CommentStart(wrap: nat, win: Win, flags: int, check: u32, head: Saved, bits: seq<bool>): Result {
    if HasComment(flags) then Comment(wrap, win, flags, check, head, bits)
    else
      var h := if head.Header? then Header(head.h.(comment := Null)) else head;
      Hcrc(wrap, win, flags, check, h, bits)
  }

  ghost function Comment(wrap: nat, win: Win, flags: int, check: u32, head: Saved, bits: seq<bool>): Result
    decreases |bits|
  {
    if |bits| < 8 then Result(head, Starved([]))
    else
      var b := FirstByte(bits);
      var h := if head.Header? then Header(head.h.(comment := Store(head.h.comment, b))) else head;
      var c := HeaderCrc(wrap, flags, check, [b]);
      if b == 0 then Hcrc(wrap, win, flags, c, h, bits[8..])
      else Comment(wrap, win, flags, c, h, bits[8..])
  }

  ghost function Hcrc(wrap: nat, win: Win, flags: int, check: u32, head: Saved, bits: seq<bool>): Result {
    if HasHcrc(flags) && |bits| < 16 then Result(head, Starved([]))
    else if HasHcrc(flags) && Verify(wrap) && ToInt(bits[..16]) != check % 65536 then Result(head, Corrupt([]))
    else
      var h := if head.Header? then Header(head.h.(hcrc := HasHcrc(flags), done := 1)) else head;
      Body(wrap, win, flags, h, if HasHcrc(flags) then bits[16..] else bits)
  }

  lemma ExtraDone(wrap: nat, win: Win, flags: int, check: u32, head: Saved, b: seq<bool>)
    ensures Extra(wrap, win, flags, check, head, 0, b) == NameStart(wrap, win, flags, check, head, b)
  {
  }
}
