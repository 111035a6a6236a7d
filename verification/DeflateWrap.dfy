/**
 The trailer of a zlib or gzip stream as deflate writes it: once, through pending_buf, over as many calls as it takes.
 */
module DeflateWrap {
  import opened Bits
  import opened Wrapper
  import opened GzipSpec
  import opened Deflate
  import opened InputSums
  import AdlerSpec
  import CrcSpec

  /** A trailer: whether it is written, what of it is pending, and what was delivered. */
  datatype Part = Part(written: bool, pending: seq<byte>, sent: seq<byte>) {
    /** It is, or will be, these bytes. */
    ghost predicate Of(bytes: seq<byte>) {
      if written then sent + pending == bytes else pending == [] && sent == []
    }
  }

  const NONE_YET := Part(false, [], [])

  /** The trailer: the check value, high bytes first; or the check value and the length, low bytes first. */
  function TailBytes(wrap: nat, t: Sums): seq<byte> {
    if wrap == 0 then [] else if wrap == 2 then Bytes4(t.adler) + Bytes4(t.totalIn) else Msb4(t.adler)
  }

  /** It is what the formats ask for. */
  lemma TailIs(data: seq<byte>, flags: nat)
    requires flags != 0
    ensures TailBytes(1, SumsOf(1, data)) == Msb4(AdlerSpec.Adler32(1, data)) == Msb4(CheckOf(0, data))
    ensures TailBytes(2, SumsOf(2, data)) == GzipTail(flags, data) ==
            Bytes4(CrcSpec.Crc32(0, data)) + Bytes4(|data| % 0x1_0000_0000)
  {
    hide Msb4, Bytes4, AdlerSpec.Adler32, CrcSpec.Crc32;
  }

  lemma NoTail(t: Sums)
    ensures TailBytes(0, t) == []
  {
  }

  /** The trailer is written after the last block, and delivered in part or in full. */
  ghost predicate TailOk(wrap: nat, tail: Part, ended: bool, data: seq<byte>) {
    tail.Of(TailBytes(wrap, SumsOf(wrap, data))) && (tail.written ==> wrap != 0 && ended)
  }

  /** flush_pending */
  method FlushPart(part: Part, avail: nat) returns (part': Part, avail': nat)
    ensures part'.written == part.written && part'.sent + part'.pending == part.sent + part.pending &&
            part.sent <= part'.sent
    ensures avail' <= avail && |part'.sent| - |part.sent| == avail - avail' && (part'.pending == [] || avail' == 0)
    ensures |part.pending| - |part'.pending| == avail - avail'
  {
    var len := if |part.pending| > avail then avail else |part.pending|;
    assert part.pending == part.pending[..len] + part.pending[len..];
    part', avail' := part.(sent := part.sent + part.pending[..len], pending := part.pending[len..]), avail - len;
  }

  /** Bytes are put into pending_buf, which is empty, and what there is room for is delivered. */
  method Put(bytes: seq<byte>, avail: nat) returns (part: Part, avail': nat)
    ensures part.written && part.Of(bytes)
    ensures avail' <= avail && |part.sent| == avail - avail' && (part.pending == [] || avail' == 0)
  {
    assert [] + bytes == bytes;
    part, avail' := FlushPart(Part(true, bytes, []), avail);
  }

  /** A call after the trailer is written: what is pending goes, and more input is an error. */
  method Again(wrap: nat, tail: Part, given: seq<byte>, flush: Flush, avail: nat, ghost data: seq<byte>)
      returns (tail': Part, ret: Ret, avail': nat)
    requires TailOk(wrap, tail, true, data) && tail.written
    ensures TailOk(wrap, tail', true, data) && tail'.written && tail.sent <= tail'.sent
    ensures avail' <= avail && |tail'.sent| - |tail.sent| == avail - avail'
    ensures ret == STREAM_END ==> flush == FINISH && tail'.pending == []
    ensures ret == OK ==> flush == FINISH && avail' == 0 && |tail'.pending| < |tail.pending|
    ensures ret == STREAM_ERROR <==> flush != FINISH
    ensures ret == BUF_ERROR <==> flush == FINISH && (avail == 0 || (given != [] && avail' > 0))
  {
    hide TailBytes, SumsOf;
    tail', avail' := tail, avail;
    if flush != FINISH {
      return tail', STREAM_ERROR, avail';
    }
    if avail == 0 {
      return tail', BUF_ERROR, avail';
    }
    if tail.pending != [] {
      tail', avail' := FlushPart(tail, avail);
      if avail' == 0 {
        return tail', OK, avail';
      }
    }
    ret := if given != [] then BUF_ERROR else STREAM_END;
  }
}
