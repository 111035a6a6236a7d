/**
 Compressing in any number of calls, and decompressing the result in any number of others.
 */
module RoundTrip {
  import opened Bits
  import opened Rfc1951
  import opened Wrapper
  import opened BlockSpec
  import opened GzipSpec
  import opened DeflateWindow
  import opened DeflateWrap
  import opened InputSums
  import C = Compressor
  import I = Inflate
  import R = InflateRuns
  import S = InflateState
  import InflateHeader
  import opened GzipWriter
  import B = InflateBack
  import BI = BackInput
  import BS = BackSpec
  import DeflateStored

  /** How input is handed to inflate: how many bytes, the room for output, and the flush. */
  datatype Piece = Piece(n: nat, avail: nat, flush: S.Flush)

  /** The calls for bytes: the given pieces, and then one with the rest, and without room. */
  function Cut(bytes: seq<byte>, pieces: seq<Piece>): (calls: seq<R.Call>)
    decreases |pieces|
  {
    if pieces == [] then [R.Call(bytes, 0, S.NO_FLUSH)]
    else
      var n := if pieces[0].n < |bytes| then pieces[0].n else |bytes|;
      [R.Call(bytes[..n], pieces[0].avail, pieces[0].flush)] + Cut(bytes[n..], pieces[1..])
  }

  lemma {:induction false} CutFeeds(bytes: seq<byte>, pieces: seq<Piece>)
    ensures R.Fed(Cut(bytes, pieces)) == bytes
    decreases |pieces|
  {
    if pieces == [] {
      assert [R.Call(bytes, 0, S.NO_FLUSH)][1..] == [];
      assert bytes + R.Fed([]) == bytes;
    } else {
      var n := if pieces[0].n < |bytes| then pieces[0].n else |bytes|;
      var first, others := [R.Call(bytes[..n], pieces[0].avail, pieces[0].flush)], Cut(bytes[n..], pieces[1..]);
      CutFeeds(bytes[n..], pieces[1..]);
      assert (first + others)[1..] == others;
      assert bytes[..n] + bytes[n..] == bytes;
    }
  }

  /** Inflates a whole stream in any pieces, and then calling on with whatever room. */
  method Restore(wrap: nat, wbits: nat, head: Saved, bytes: seq<byte>, pieces: seq<Piece>, ghost h: Saved,
        ghost data: seq<byte>)
      returns (out: seq<byte>, ret: I.Ret, head': Saved)
    requires InflateHeader.ExtraEmpty(head)
    requires Head(wrap, Win(wbits, false), head, BytesBits(bytes)) == Result(h, Finished(data, []))
    ensures ret == I.STREAM_END && out == data && head' == h
  {
    hide Head, BytesBits, R.Fed, Cut;
    var calls := Cut(bytes, pieces);
    CutFeeds(bytes, pieces);
    var unread;
    ghost var held;
    out, ret, head', unread, held := R.InflateAll(wrap, wbits, head, calls, false);
  }

  /** deflate_stored, deflate_fast or deflate_slow, as the level selects. */
  datatype How = Stored | Fast | Slow

  /**
   Deflates in any calls, repeating the last until the stream ends; pending_buf has four bytes for each symbol of a
   block, and one more.
   */
  method Deflated(c: Config, how: How, heading: Heading, calls: seq<C.Call>)
      returns (bytes: seq<byte>, ghost body: seq<byte>)
    requires c.Ok() && heading.Ok() && C.Orderly(calls)
    ensures C.Whole(c.wSize, c.wrap, heading.Bytes(), body, bytes, C.AllInput(calls))
  {
    hide C.AllInput, Ends, TailBytes, SumsOf;
    if how == Stored {
      bytes, body := DeflateStored.Store(c.wSize, 4 * (c.symEnd + 1), c.wrap, heading, calls);
      EndsWider(0, c.wSize, body, C.AllInput(calls));
    } else {
      bytes, body := C.Compress(c, how == Slow, heading, calls);
    }
  }

  /** A raw stream, restored with the window it was made with, or a larger one. */
  method Raw(c: Config, how: How, calls: seq<C.Call>, wbits: nat, pieces: seq<Piece>)
      returns (out: seq<byte>, ret: I.Ret)
    requires c.Ok() && c.wrap == 0 && C.Orderly(calls) && c.wSize <= Pow2(wbits)
    ensures ret == I.STREAM_END && out == C.AllInput(calls)
  {
    hide Head, C.AllInput, Ends, BytesBits, Pow2, SumsOf;
    var bytes;
    ghost var body;
    bytes, body := Deflated(c, how, Plain([]), calls);
    ghost var data := C.AllInput(calls);
    assert [] + body + [] == body;
    RawDecodes(c.wSize, wbits, bytes, data);
    var head';
    out, ret, head' := Restore(0, wbits, NoHeader, bytes, pieces, NoHeader, data);
  }

  lemma RawDecodes(reach: nat, wbits: nat, bytes: seq<byte>, data: seq<byte>)
    requires Ends(reach, bytes, data) && reach <= Pow2(wbits)
    ensures Head(0, Win(wbits, false), NoHeader, BytesBits(bytes)) == Result(NoHeader, Finished(data, []))
  {
    hide Blocks, BytesBits, Ends, Pow2;
    EndsAt(reach, Pow2(wbits), bytes, data, []);
    assert BytesBits(bytes) + [] == BytesBits(bytes);
  }

  /** Bytes in pieces of one more than the given sizes, and the rest in one. */
  function Divided(bytes: seq<byte>, sizes: seq<nat>): seq<seq<byte>>
    decreases |bytes|
  {
    if bytes == [] then []
    else if sizes == [] || |bytes| <= sizes[0] then [bytes]
    else [bytes[..sizes[0] + 1]] + Divided(bytes[sizes[0] + 1..], sizes[1..])
  }

  lemma {:induction false} DividedGives(bytes: seq<byte>, sizes: seq<nat>)
    ensures BI.Later(Divided(bytes, sizes)) == bytes
    decreases |bytes|
  {
    var pieces := Divided(bytes, sizes);
    if bytes != [] {
      if sizes == [] || |bytes| <= sizes[0] {
        assert pieces[1..] == [] && bytes + [] == bytes;
      } else {
        var n := sizes[0] + 1;
        DividedGives(bytes[n..], sizes[1..]);
        assert pieces[1..] == Divided(bytes[n..], sizes[1..]) && bytes == bytes[..n] + bytes[n..];
      }
    }
  }

  /**
   A raw stream, restored by inflateBack with the window it was made with, or a larger one, in whatever pieces in()
   gives it, if out() takes all.
   */
  method Back(c: Config, how: How, calls: seq<C.Call>, window: array<byte>, sizes: seq<nat>, takes: nat)
      returns (out: seq<byte>, ret: B.Ret, failed: bool)
    requires c.Ok() && c.wrap == 0 && C.Orderly(calls) && c.wSize <= window.Length
    modifies window
    ensures !failed ==> ret == B.STREAM_END && out == C.AllInput(calls)
    ensures takes > |C.AllInput(calls)| ==> !failed
  {
    hide Blocks, C.AllInput, Ends, BytesBits, SumsOf, BI.Later, BS.Stream, BS.Astray;
    var bytes;
    ghost var body;
    bytes, body := Deflated(c, how, Plain([]), calls);
    assert [] + body + [] == body;
    EndsAt(c.wSize, window.Length, bytes, C.AllInput(calls), []);
    assert BytesBits(bytes) + [] == BytesBits(bytes);
    var pieces := [[]] + Divided(bytes, sizes);
    DividedGives(bytes, sizes);
    assert pieces[1..] == Divided(bytes, sizes) && [] + bytes == bytes;
    var rest, asked;
    ret, out, rest, asked, failed := B.InflateBack(window, pieces, takes);
  }

  /**
   A zlib stream, header and trailer delivered with the rest: inflate may be told the window, or a larger one, or to
   take what the header says.
   */
  method ZlibStream(c: Config, how: How, wbits: nat, level: nat, calls: seq<C.Call>, iw: nat, pieces: seq<Piece>)
      returns (out: seq<byte>, ret: I.Ret)
    requires c.Ok() && c.wrap == 1 && 8 <= wbits <= 15 && c.wSize == Pow2(wbits) && level <= 3 && C.Orderly(calls)
    requires iw == 0 || wbits <= iw
    ensures ret == I.STREAM_END && out == C.AllInput(calls)
  {
    hide Head, C.AllInput, Ends, BytesBits, ZlibHead, Msb4, CheckOf, Pow2, TailBytes, SumsOf;
    var bytes;
    ghost var body;
    ZlibHeadParts(wbits, level);
    bytes, body := Deflated(c, how, Plain(ZlibHead(wbits, level)), calls);
    ghost var data := C.AllInput(calls);
    TailIs(data, 1);
    Pow2Mono(wbits, Chosen(iw, wbits));
    ZlibDecodes(5, iw, wbits, level, NoHeader, c.wSize, body, data, []);
    assert bytes + [] == bytes;
    NoBits();
    var head';
    out, ret, head' := Restore(5, iw, NoHeader, bytes, pieces, NoHeader, data);
  }

  lemma NoBits()
    ensures BytesBits([]) == []
  {
  }

  /** A gzip stream: both the data and the header come back. */
  method Gunzip(c: Config, h: GzOut, xfl: byte, bytes: seq<byte>, ghost body: seq<byte>, ghost data: seq<byte>,
                head: Saved, iw: nat, pieces: seq<Piece>)
      returns (out: seq<byte>, ret: I.Ret, head': Saved)
    requires h.Ok() && InflateHeader.ExtraEmpty(head) && c.wSize <= Pow2(Chosen(iw, 15))
    requires C.Whole(c.wSize, 2, GzipHead(h, xfl), body, bytes, data)
    ensures ret == I.STREAM_END && out == data && head' == Received(head, h, xfl)
  {
    hide Head, Ends, BytesBits, GzipHead, GzipTail, Received, Pow2, TailBytes, SumsOf;
    TailIs(data, FlagWord(h));
    GzipDecodes(6, iw, h, xfl, head, c.wSize, body, data, []);
    assert bytes + [] == bytes;
    NoBits();
    out, ret, head' := Restore(6, iw, head, bytes, pieces, Received(head, h, xfl), data);
  }

  /** With a header of the caller's. */
  method GzipStream(c: Config, how: How, h: GzOut, xfl: byte, head: Saved, calls: seq<C.Call>, iw: nat,
                    pieces: seq<Piece>)
      returns (out: seq<byte>, ret: I.Ret, head': Saved)
    requires c.Ok() && c.wrap == 2 && h.Ok() && C.Orderly(calls) && InflateHeader.ExtraEmpty(head)
    requires c.wSize <= Pow2(Chosen(iw, 15))
    ensures ret == I.STREAM_END && out == C.AllInput(calls) && head' == Received(head, h, xfl)
  {
    hide C.AllInput, Ends, GzipHead, Received, Pow2, TailBytes, SumsOf;
    var bytes;
    ghost var body;
    bytes, body := Deflated(c, how, Gzip(h, xfl), calls);
    out, ret, head' := Gunzip(c, h, xfl, bytes, body, C.AllInput(calls), head, iw, pieces);
  }

  /** Without one: ten bytes. */
  method PlainGzipStream(c: Config, how: How, xfl: byte, os: byte, head: Saved, calls: seq<C.Call>, iw: nat,
                         pieces: seq<Piece>)
      returns (out: seq<byte>, ret: I.Ret, head': Saved)
    requires c.Ok() && c.wrap == 2 && C.Orderly(calls) && InflateHeader.ExtraEmpty(head)
    requires c.wSize <= Pow2(Chosen(iw, 15))
    ensures ret == I.STREAM_END && out == C.AllInput(calls) &&
            head' == Received(head, GzOut(false, 0, os, None, None, None, false), xfl)
  {
    hide C.AllInput, Ends, Received, Pow2, TailBytes, SumsOf;
    var h := GzOut(false, 0, os, None, None, None, false);
    var header := [31, 139, 8, 0, 0, 0, 0, 0, xfl, os];
    assert GzipHead(h, xfl) == header;
    var bytes;
    ghost var body;
    bytes, body := Deflated(c, how, Plain(header), calls);
    out, ret, head' := Gunzip(c, h, xfl, bytes, body, C.AllInput(calls), head, iw, pieces);
  }
}
