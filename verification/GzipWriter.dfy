/**
 The header states of deflate(): the header goes through a pending buffer, in any number of
 calls with any room for output, and comes out whole.
 */
module GzipWriter {
  import opened Bits
  import opened GzipSpec
  import opened Wrapper
  import CrcSpec

  /** What the header is: given bytes, none for a raw stream, or a gzip header with what the caller wants in it. */
  datatype Heading = Plain(bytes: seq<byte>) | Gzip(h: GzOut, xfl: byte) {
    ghost predicate Ok() {
      if Plain? then |bytes| <= 12 else h.Ok()
    }

    function Bytes(): seq<byte> {
      match this
      case Plain(bytes) => bytes
      case Gzip(h, xfl) => GzipHead(h, xfl)
    }
  }

  datatype Status = GZIP | EXTRA | NAME | COMMENT | HCRC | BUSY

  /** What has been put into the buffer before the bytes that gzindex counts. */
  function Before(h: GzOut, xfl: byte, st: Status): seq<byte> {
    match st
    case GZIP => []
    case EXTRA => FixedBytes(h, xfl) + if h.extra.Some? then Bytes2(|h.extra.value|) else []
    case NAME => FixedBytes(h, xfl) + ExtraBytes(h)
    case COMMENT => FixedBytes(h, xfl) + ExtraBytes(h) + TextBytes(h.name)
    case HCRC => HeadBytes(h, xfl)
    case BUSY => GzipHead(h, xfl)
  }

  /** The bytes that gzindex counts. */
  function Field(h: GzOut, st: Status): seq<byte> {
    match st
    case EXTRA => if h.extra.Some? then h.extra.value else []
    case NAME => TextBytes(h.name)
    case COMMENT => TextBytes(h.comment)
    case _ => []
  }

  /** One field after the other. */
  lemma NextField(h: GzOut, xfl: byte)
    ensures Before(h, xfl, EXTRA) + Field(h, EXTRA) == Before(h, xfl, NAME)
    ensures Before(h, xfl, NAME) + Field(h, NAME) == Before(h, xfl, COMMENT)
    ensures Before(h, xfl, COMMENT) + Field(h, COMMENT) == Before(h, xfl, HCRC)
  {
    hide FixedBytes, Bytes2;
    if h.extra.Some? {
      assert FixedBytes(h, xfl) + Bytes2(|h.extra.value|) + h.extra.value == FixedBytes(h, xfl) + ExtraBytes(h);
    }
  }

  const NO_HEADER := GzOut(false, 0, 0, None, None, None, false)

  class Writer {
    const heading: Heading
    const h: GzOut           // of a gzip header
    const xfl: byte
    const size: nat          // of the pending buffer
    var pending: seq<byte>
    var status: Status
    var gzindex: nat
    var adler: nat
    var sent: seq<byte>      // all bytes delivered

    ghost predicate Valid()
      reads this
    {
      && h.Ok() && 12 <= size && |pending| <= size && adler < 0x1_0000_0000 && gzindex <= |Field(h, status)|
      && match heading
         case Plain(bytes) =>
           |bytes| <= 12 && (status == GZIP || status == BUSY) && sent + pending == if status == BUSY then bytes else []
         case Gzip(h', xfl') =>
           h' == h && xfl' == xfl && sent + pending == Before(h, xfl, status) + Field(h, status)[..gzindex]
    }

    /** The check value of all bytes so far, but for those in the buffer from beg on. */
    ghost predicate Checked(beg: nat)
      reads this
    {
      beg <= |pending| && (heading.Gzip? && h.hcrc && status != BUSY && status != GZIP ==>
          adler == CrcSpec.Crc32(0, sent + pending[..beg]))
    }

    constructor (heading0: Heading, buffer: nat)
      requires heading0.Ok() && buffer >= 12
      ensures Ready() && heading == heading0 && sent == [] && pending == []
    {
      heading, size := heading0, buffer;
      h, xfl := if heading0.Gzip? then heading0.h else NO_HEADER, if heading0.Gzip? then heading0.xfl else 0;
      status := if heading0 == Plain([]) then BUSY else GZIP;
      pending, gzindex, adler, sent := [], 0, 0, [];
    }

    /** flush_pending */
    method FlushPending(avail: nat) returns (avail': nat)
      requires Valid() && Checked(|pending|)
      modifies this`pending, this`sent
      ensures Valid() && Checked(|pending|) && sent + pending == old(sent + pending) && old(sent) <= sent &&
              |pending| <= old(|pending|)
      ensures avail' <= avail && |sent| - old(|sent|) == avail - avail' && (pending == [] || avail' == 0)
    {
      var len := if |pending| > avail then avail else |pending|;
      hide CrcSpec.Crc32, Before, Field;
      ghost var all := sent + pending;
      assert pending[..|pending|] == pending;
      assert pending == pending[..len] + pending[len..];
      sent, pending, avail' := sent + pending[..len], pending[len..], avail - len;
      assert sent + pending == all && pending[..|pending|] == pending;
    }

    /** HCRC_UPDATE */
    method HcrcUpdate(beg: nat)
      requires Checked(beg) && adler < 0x1_0000_0000
      modifies this`adler
      ensures Checked(|pending|) && adler < 0x1_0000_0000
    {
      hide CrcSpec.Crc32;
      var part := pending[beg..];
      assert sent + pending[..beg] + part == sent + pending;
      assert pending[..|pending|] == pending;
      if h.hcrc && status != BUSY && status != GZIP {
        CrcSpec.Crc32Concat(0, sent + pending[..beg], part);
      }
      if h.hcrc && |pending| > beg {
        adler := CrcSpec.Crc32(adler, part);
      } else {
        assert beg == |pending| ==> pending[..beg] == pending;
      }
    }

    /** GZIP_STATE: the first ten bytes, and the length of the extra field. */
    method PutFixed()
      requires Valid() && status == GZIP && pending == [] && sent == [] && heading.Gzip?
      modifies this`pending, this`status, this`gzindex, this`adler
      ensures Valid() && Checked(|pending|) && status == EXTRA
    {
      hide CrcSpec.Crc32, Bytes2, Bytes4;
      adler := 0;
      pending := MAGIC + [8, h.Flags()] + Bytes4(h.time) + [xfl, h.os];
      if h.extra.Some? {
        pending := pending + Bytes2(|h.extra.value|);
      }
      assert pending == Before(h, xfl, EXTRA);
      FixedSize(h);
      if h.hcrc {
        adler := CrcSpec.Crc32(adler, pending);
      }
      gzindex, status := 0, EXTRA;
      assert sent + pending == pending && pending[..|pending|] == pending;
      assert Before(h, xfl, EXTRA) + Field(h, EXTRA)[..0] == Before(h, xfl, EXTRA);
    }

    /** EXTRA_STATE: the extra field, as much at a time as the buffer takes. */
    method PutExtra(avail: nat) returns (ok: bool, avail': nat)
      requires Valid() && Checked(|pending|) && status == EXTRA
      modifies this`pending, this`sent, this`status, this`gzindex, this`adler
      ensures Valid() && Checked(|pending|) &&
              (if ok then status == NAME && gzindex == 0 else status == EXTRA && avail' == 0)
      ensures old(sent) <= sent && avail' <= avail && |sent| - old(|sent|) == avail - avail'
    {
      hide CrcSpec.Crc32, Before;
      avail' := avail;
      NextField(h, xfl);
      if h.extra.Some? {
        var beg: nat := |pending|;
        var left: nat := |h.extra.value| - gzindex;
        while |pending| + left > size
          invariant Valid() && Checked(beg) && status == EXTRA && left == |h.extra.value| - gzindex
          invariant old(sent) <= sent && avail' <= avail && |sent| - old(|sent|) == avail - avail'
          invariant beg == |pending|
          decreases left, |pending|
        {
          var copy := size - |pending|;
          Append(h.extra.value[gzindex..gzindex + copy], copy);
          HcrcUpdate(beg);
          avail' := FlushPending(avail');
          if pending != [] {
            return false, avail';
          }
          beg, left := 0, left - copy;
        }
        Append(h.extra.value[gzindex..], left);
        HcrcUpdate(beg);
      }
      assert Field(h, EXTRA)[..gzindex] == Field(h, EXTRA);
      gzindex, status, ok := 0, NAME, true;
      assert Before(h, xfl, NAME) + Field(h, NAME)[..0] == Before(h, xfl, NAME);
    }

    /** NAME_STATE and COMMENT_STATE: a text byte by byte, up to the zero that ends it. */
    method PutText(avail: nat) returns (ok: bool, avail': nat)
      requires Valid() && Checked(|pending|) && (status == NAME || status == COMMENT)
      requires Field(h, status) != [] ==> gzindex < |Field(h, status)|
      modifies this`pending, this`sent, this`status, this`gzindex, this`adler
      ensures Valid() && Checked(|pending|) &&
              (ok ==> gzindex == 0 && status == if old(status) == NAME then COMMENT else HCRC)
      ensures !ok ==> status == old(status) && avail' == 0 && gzindex < |Field(h, status)|
      ensures old(sent) <= sent && avail' <= avail && |sent| - old(|sent|) == avail - avail'
    {
      hide CrcSpec.Crc32, Before, Field;
      avail' := avail;
      NextField(h, xfl);
      var text := Field(h, status);
      TextEnds(h, status);
      if text != [] {
        var beg: nat := |pending|;
        while true
          invariant Valid() && Checked(beg) && status == old(status) && gzindex < |text|
          invariant old(sent) <= sent && avail' <= avail && |sent| - old(|sent|) == avail - avail'
          decreases |text| - gzindex
        {
          if |pending| == size {
            HcrcUpdate(beg);
            avail' := FlushPending(avail');
            if pending != [] {
              return false, avail';
            }
            beg := 0;
          }
          var val := text[gzindex];
          PutByte(val, beg);
          if val == 0 {
            break;
          }
        }
        HcrcUpdate(beg);
      }
      assert text[..gzindex] == text;
      gzindex, status, ok := 0, if status == NAME then COMMENT else HCRC, true;
      assert Before(h, xfl, status) + Field(h, status)[..0] == Before(h, xfl, status);
    }

    /** put_byte */
    method PutByte(x: byte, ghost beg: nat)
      requires Valid() && |pending| < size && gzindex < |Field(h, status)| && x == Field(h, status)[gzindex] &&
               Checked(beg) && heading.Gzip?
      modifies this`pending, this`gzindex
      ensures Valid() && gzindex == old(gzindex) + 1 && pending == old(pending) + [x] && Checked(beg)
    {
      hide Before, Field, CrcSpec.Crc32;
      assert [x] == Field(h, status)[gzindex..gzindex + 1];
      Appended(sent, pending, [x], Before(h, xfl, status), Field(h, status), gzindex, 1);
      assert (pending + [x])[..beg] == pending[..beg];
      pending, gzindex := pending + [x], gzindex + 1;
    }

    /** HCRC_STATE: the check value of the header. */
    method PutHcrc(avail: nat) returns (ok: bool, avail': nat)
      requires Valid() && Checked(|pending|) && status == HCRC
      modifies this`pending, this`sent, this`status, this`gzindex, this`adler
      ensures Valid() && Checked(|pending|) && (if ok then status == BUSY else status == HCRC && avail' == 0)
      ensures old(sent) <= sent && avail' <= avail && |sent| - old(|sent|) == avail - avail'
    {
      hide CrcSpec.Crc32, Bytes2;
      avail' := avail;
      if h.hcrc {
        if |pending| + 2 > size {
          avail' := FlushPending(avail');
          if pending != [] {
            return false, avail';
          }
        }
        HcrcBytes(h, xfl, sent, pending, adler);
        pending := pending + [adler % 256, adler / 256 % 256];
        adler := 0;
      }
      status, gzindex, ok := BUSY, 0, true;
      assert pending[..|pending|] == pending;
    }

    /** Bytes of the field go into the buffer. */
    method Append(part: seq<byte>, n: nat)
      requires Valid() && |part| == n && |pending| + n <= size && gzindex + n <= |Field(h, status)| &&
               part == Field(h, status)[gzindex..gzindex + n]
      requires Checked(|pending|) && heading.Gzip?
      modifies this`pending, this`gzindex
      ensures Valid() && gzindex == old(gzindex) + n && pending == old(pending) + part && Checked(old(|pending|))
    {
      hide Before, Field, CrcSpec.Crc32;
      Appended(sent, pending, part, Before(h, xfl, status), Field(h, status), gzindex, n);
      pending, gzindex := pending + part, gzindex + n;
    }

    /** INIT_STATE, or GZIP_STATE without a header of the caller's. */
    method PutPlain()
      requires Valid() && status == GZIP && heading.Plain? && pending == []
      modifies this`pending, this`status
      ensures Valid() && Checked(|pending|) && status == BUSY && pending == heading.bytes
    {
      pending, status := heading.bytes, BUSY;
      assert sent + pending == heading.bytes;
    }

    /**
     The header states of one call, with room for avail bytes: the call is left only when there is no more room, and
     goes on with the blocks if the header is out.
     */
    method Header(avail: nat) returns (left: bool, avail': nat)
      requires Ready() && avail > 0
      modifies this`pending, this`sent, this`status, this`gzindex, this`adler
      ensures Ready() && old(sent) <= sent && avail' <= avail && |sent| - old(|sent|) == avail - avail'
      ensures if left then avail' == 0 else Done()
    {
      hide CrcSpec.Crc32, Before, Field;
      left, avail' := true, avail;
      if pending != [] {
        avail' := FlushPending(avail');
        if avail' == 0 {
          return;
        }
      }
      if heading.Plain? {
        if status == GZIP {
          PutPlain();
          avail' := FlushPending(avail');
        }
        left := pending != [];
        return;
      }
      if status == GZIP {
        PutFixed();
      }
      var ok;
      ok, avail' := PutFields(avail');
      if ok && status == HCRC {
        ok, avail' := PutHcrc(avail');
        if ok {
          avail' := FlushPending(avail');
        }
      }
      left := !ok || pending != [];
    }

    /** EXTRA_STATE, NAME_STATE and COMMENT_STATE, from where the last call stopped. */
    method PutFields(avail: nat) returns (ok: bool, avail': nat)
      requires Ready() && status != GZIP && heading.Gzip?
      modifies this`pending, this`sent, this`status, this`gzindex, this`adler
      ensures Ready() && (if ok then status == HCRC ||
              (status == old(status) == BUSY && pending == old(pending)) else avail' == 0)
      ensures old(sent) <= sent && avail' <= avail && |sent| - old(|sent|) == avail - avail'
    {
      hide CrcSpec.Crc32, Before, Field;
      ok, avail' := true, avail;
      if status == EXTRA {
        ok, avail' := PutExtra(avail');
        NoText();
      }
      if ok && status == NAME {
        ok, avail' := PutText(avail');
        NoText();
      }
      if ok && status == COMMENT {
        ok, avail' := PutText(avail');
      }
    }

    lemma NoText()
      ensures Field(h, status) != [] ==> 0 < |Field(h, status)|
    {
    }

    /** All of it is delivered. */
    predicate Done()
      reads this
    {
      status == BUSY && pending == []
    }

    /** Between calls. */
    ghost predicate Ready()
      reads this
    {
      && Valid() && Checked(|pending|) && (status == GZIP ==> pending == [] && sent == [])
      && ((status == NAME || status == COMMENT) && Field(h, status) != [] ==> gzindex < |Field(h, status)|)
    }
  }

  lemma Appended(sent: seq<byte>, pending: seq<byte>, part: seq<byte>, before: seq<byte>, field: seq<byte>, i: nat,
        n: nat)
    requires i + n <= |field| && sent + pending == before + field[..i] && part == field[i..i + n]
    ensures sent + (pending + part) == before + field[..i + n] && (pending + part)[..|pending|] == pending[..|pending|]
  {
    assert field[..i] + part == field[..i + n];
    assert sent + (pending + part) == sent + pending + part;
  }

  lemma TextEnds(h: GzOut, st: Status)
    requires h.Ok() && (st == NAME || st == COMMENT)
    ensures forall i :: 0 <= i < |Field(h, st)| ==> (Field(h, st)[i] == 0 <==> i == |Field(h, st)| - 1)
  {
  }

  lemma HcrcBytes(h: GzOut, xfl: byte, sent: seq<byte>, pending: seq<byte>, adler: nat)
    requires h.hcrc && sent + pending + [] == HeadBytes(h, xfl) + [] &&
             adler == CrcSpec.Crc32(0, sent + pending[..|pending|])
    ensures sent + (pending + [adler % 256, adler / 256 % 256]) == GzipHead(h, xfl)
  {
    hide CrcSpec.Crc32, HeadBytes;
    assert pending[..|pending|] == pending;
    assert sent + pending + [] == sent + pending && HeadBytes(h, xfl) + [] == HeadBytes(h, xfl);
    LowHalf(adler);
    assert sent + (pending + [adler % 256, adler / 256 % 256]) == sent + pending + [adler % 256, adler / 256 % 256];
  }

  lemma LowHalf(v: nat)
    ensures Bytes2(v % 65536) == [v % 256, v / 256 % 256]
  {
    var q, r := v / 65536, v % 65536;
    assert v == 65536 * q + r;
    assert v / 256 == 256 * q + r / 256;
    assert r / 256 < 256;
    assert v % 256 == r % 256;
    assert v / 256 % 256 == r / 256;
  }

  lemma FixedSize(h: GzOut)
    ensures |Bytes4(h.time)| == 4 && (h.extra.Some? ==> |Bytes2(|h.extra.value|)| == 2)
  {
  }

  /**
   The header in any number of calls: what comes out is the header or the beginning of it, and with room left it is all
   of it.
   */
  method HeaderInCalls(heading: Heading, size: nat, avails: seq<nat>) returns (w: Writer)
    requires heading.Ok() && size >= 12
    ensures fresh(w) && w.Ready() && w.heading == heading
    ensures w.sent <= heading.Bytes() && (w.Done() ==> w.sent == heading.Bytes())
    ensures |avails| > 0 && avails[|avails| - 1] > |heading.Bytes()| ==> w.Done()
  {
    hide CrcSpec.Crc32, GzipHead;
    w := new Writer(heading, size);
    var i := 0;
    while i < |avails|
      invariant i <= |avails| && fresh(w) && w.Ready() && w.heading == heading
      invariant i > 0 && avails[i - 1] > |heading.Bytes()| ==> w.Done()
    {
      if avails[i] > 0 {
        var left, room := w.Header(avails[i]);
        SentPrefix(w);
      }
      i := i + 1;
    }
    SentPrefix(w);
  }

  /** Calling on, with whatever room, brings out all of it. */
  method WholeHeader(heading: Heading, size: nat, avails: seq<nat>) returns (bytes: seq<byte>)
    requires heading.Ok() && size >= 12
    ensures bytes == heading.Bytes()
  {
    hide CrcSpec.Crc32, GzipHead;
    var w := HeaderInCalls(heading, size, avails);
    while !w.Done()
      invariant fresh(w) && w.Ready() && w.heading == heading && w.sent <= heading.Bytes() &&
                (w.Done() ==> w.sent == heading.Bytes())
      decreases !w.Done(), |heading.Bytes()| - |w.sent|
    {
      var room: nat :| room > 0;
      var left, room' := w.Header(room);
      SentPrefix(w);
    }
    bytes := w.sent;
  }

  lemma SentPrefix(w: Writer)
    requires w.Ready()
    ensures w.sent <= w.heading.Bytes() && (w.Done() ==> w.sent == w.heading.Bytes())
  {
    hide CrcSpec.Crc32, FixedBytes, Bytes2;
    if w.heading.Gzip? {
      NextField(w.h, w.xfl);
      var all := Before(w.h, w.xfl, w.status) + Field(w.h, w.status)[..w.gzindex];
      BeforePrefix(w.h, w.xfl, w.status, w.gzindex);
      assert w.sent <= all;
      if w.status == BUSY {
        assert all == GzipHead(w.h, w.xfl);
      }
    }
  }

  lemma BeforePrefix(h: GzOut, xfl: byte, st: Status, i: nat)
    requires i <= |Field(h, st)|
    ensures Before(h, xfl, st) + Field(h, st)[..i] <= GzipHead(h, xfl)
  {
    hide CrcSpec.Crc32, FixedBytes, Bytes2;
    NextField(h, xfl);
    var whole := Before(h, xfl, st) + Field(h, st);
    assert Before(h, xfl, st) + Field(h, st)[..i] <= whole;
    assert Before(h, xfl, EXTRA) <= Before(h, xfl, NAME) <= Before(h, xfl, COMMENT) <= Before(h, xfl,
        HCRC) <= GzipHead(h, xfl);
    assert whole <= GzipHead(h, xfl);
  }
}
