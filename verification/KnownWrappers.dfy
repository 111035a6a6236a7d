/**
 Whole streams in the two wrappers, worked out from RFC 1950 and RFC 1952, and what they decode to.
 */
module KnownWrappers {
  import opened Bits
  import opened Rfc1951
  import opened BlockSpec
  import opened Wrapper
  import opened GzipSpec
  import opened KnownStreams
  import AdlerSpec
  import CrcSpec
  import InflateHeader

  // ---------- the byte a ----------

  /** The block with the fixed codes for the byte a. */
  const BODY: seq<byte> := [0x4b, 0x04, 0x00]

  lemma BodyNumber(rest: seq<bool>)
    ensures BytesBits(BODY) + rest == ToBits(0x44b + 0x100_0000 * ToInt(rest), 24 + |rest|)
  {
    hide BytesBits, ToBits, ToInt, Pow2, BODY;
    BodyBytes();
    var u := 0x44b + 0x100_0000 * ToInt(rest);
    ToBitsToInt(rest);
    TwentyFour();
    Took(u, 24 + |rest|, 24, 0x44b, ToInt(rest));
    assert ToBits(u, 24 + |rest|) == ToBits(u, 24 + |rest|)[..24] + ToBits(u, 24 + |rest|)[24..];
  }

  lemma BodyBytes()
    ensures BytesBits(BODY) == ToBits(0x44b, 24)
  {
    hide BytesBits, ToBits;
    NoBytes();
    Byte(0, [], 0, 0);
    Byte(4, [0] + [], 0, 8);
    Byte(0x4b, [4] + ([0] + []), 4, 16);
    assert BODY == [0x4b] + ([4] + ([0] + []));
  }

  lemma TwentyFour()
    ensures Pow2(24) == 0x100_0000
  {
    assert Pow2(12) == 4096;
  }

  lemma BodyDecodes(w: nat, r: nat, n: nat)
    requires n % 8 == 0
    ensures Blocks(w, false, ToBits(0x44b + 0x100_0000 * r, 24 + n), []) == Finished([97], ToBits(r, n))
  {
    hide Blocks, ToBits, Codes, FIXED_LENS, FIXED_DISTS, Turned, Pow2, ToInt;
    Opens(w, 0x44b + 0x100_0000 * r, 24 + n, [], 1, 0x89 + 0x20_0000 * r);
    FixedCodes();
    TurnedCodes();
    Powers();
    TakesByte(w, FIXED_LENS, FIXED_DISTS, 97, 0x89 + 0x20_0000 * r, 21 + n, [], 0x89, 0x2000 * r);
    assert [] + [97] == [97];
    TakesEnd(w, FIXED_LENS, FIXED_DISTS, 0x2000 * r, 13 + n, [97], 0, 64 * r);
    assert Pow2(6) == 64 by {
      SixIs();
    }
    Took(64 * r, 6 + n, 6, 0, r);
  }

  lemma SixIs()
    ensures Pow2(6) == 64
  {
  }

  lemma BodyEnds()
    ensures Ends(0, BODY, [97])
  {
    hide Blocks, ToBits, BytesBits;
    forall w, rest: seq<bool> | |rest| % 8 == 0
      ensures Blocks(w, false, BytesBits(BODY) + rest, []) == Finished([97], rest)
    {
      BodyNumber(rest);
      BodyDecodes(w, ToInt(rest), |rest|);
      ToBitsToInt(rest);
    }
  }

  // ---------- zlib ----------

  const ZLIB: seq<byte> := [0x78, 0x9c, 0x4b, 0x04, 0x00, 0x00, 0x62, 0x00, 0x62]

  /** The byte a in a zlib stream: its Adler-32 is 00620062. */
  lemma ZlibStream(wrap: nat, head: Saved, bytes: seq<byte>)
    requires Zlib(wrap) && bytes == ZLIB
    ensures Head(wrap, Win(0, false), head, BytesBits(bytes)) ==
            Result(if head.Header? then Header(head.h.(done := -1)) else head, Finished([97], []))
  {
    hide Head, BytesBits, Ends, CheckOf, ZlibHead, Msb4, Pow2;
    BodyEnds();
    AdlerOfOne(97);
    ZlibDecodes(wrap, 0, 15, 2, head, 0, BODY, [97], []);
    assert ZlibHead(15, 2) == [0x78, 0x9c] && Msb4(0x0062_0062) == [0x00, 0x62, 0x00, 0x62] by {
      ZlibParts();
    }
    assert [0x78, 0x9c] + BODY + [0x00, 0x62, 0x00, 0x62] + [] == ZLIB;
    NoBytes();
    NoBitsAt(0);
  }

  lemma ZlibParts()
    ensures ZlibHead(15, 2) == [0x78, 0x9c] && Msb4(0x0062_0062) == [0x00, 0x62, 0x00, 0x62]
  {
  }

  lemma AdlerOfOne(b: byte)
    ensures CheckOf(0, [b]) == AdlerSpec.Adler32(1, [b]) == 0x1_0001 * (1 + b)
  {
    assert [b][1..] == [];
    assert AdlerSpec.Sums(1 + b, 1 + b, []) == (1 + b, 1 + b);
    assert AdlerSpec.Sums(1, 0, [b]) == AdlerSpec.Sums(1 + b, 1 + b, [b][1..]);
  }

  // ---------- gzip ----------

  /** A header with all that it may have: an extra field xyz, the name n, the comment c, and its own check value. */
  const OUT: GzOut := GzOut(true, 0x0102_0304, 3, Some([120, 121, 122]), Some([110]), Some([99]), true)

  /** Shifting one byte through the register. */
  lemma Shifted(r: bv64, b: byte, r': bv64, rest: seq<byte>)
    requires CrcSpec.Feed(r, b) == r'
    ensures CrcSpec.Register(r, [b] + rest) == CrcSpec.Register(r', rest)
  {
    hide CrcSpec.Feed;
    assert ([b] + rest)[1..] == rest;
  }

  lemma FirstBytes(rest: seq<byte>)
    ensures CrcSpec.Register(0xffffffff, [0x1f, 0x8b, 0x08, 0x1f, 0x04] + rest) == CrcSpec.Register(0x2511a2b4, rest)
  {
    hide CrcSpec.Register;
    Shifted(0xffffffff, 0x1f, 0xa0f51d87, [0x8b, 0x08, 0x1f, 0x04] + rest);
    assert [0x1f, 0x8b, 0x08, 0x1f, 0x04] + rest == [0x1f] + ([0x8b, 0x08, 0x1f, 0x04] + rest);
    Shifted(0xa0f51d87, 0x8b, 0x916b936, [0x08, 0x1f, 0x04] + rest);
    assert [0x8b, 0x08, 0x1f, 0x04] + rest == [0x8b] + ([0x08, 0x1f, 0x04] + rest);
    Shifted(0x916b936, 0x08, 0xc1680b12, [0x1f, 0x04] + rest);
    assert [0x08, 0x1f, 0x04] + rest == [0x08] + ([0x1f, 0x04] + rest);
    Shifted(0xc1680b12, 0x1f, 0x7e7014b6, [0x04] + rest);
    assert [0x1f, 0x04] + rest == [0x1f] + ([0x04] + rest);
    Shifted(0x7e7014b6, 0x04, 0x2511a2b4, rest);
  }

  lemma MiddleBytes(rest: seq<byte>)
    ensures CrcSpec.Register(0x2511a2b4, [0x03, 0x02, 0x01, 0x02, 0x03, 0x03, 0x00] + rest) ==
            CrcSpec.Register(0x88a08d5f, rest)
  {
    hide CrcSpec.Register;
    Shifted(0x2511a2b4, 0x03, 0x5520378d, [0x02, 0x01, 0x02, 0x03, 0x03, 0x00] + rest);
    assert [0x03, 0x02, 0x01, 0x02, 0x03, 0x03, 0x00] + rest == [0x03] + ([0x02, 0x01, 0x02, 0x03, 0x03, 0x00] + rest);
    Shifted(0x5520378d, 0x02, 0x7d52be86, [0x01, 0x02, 0x03, 0x03, 0x00] + rest);
    assert [0x02, 0x01, 0x02, 0x03, 0x03, 0x00] + rest == [0x02] + ([0x01, 0x02, 0x03, 0x03, 0x00] + rest);
    Shifted(0x7d52be86, 0x01, 0x73a1443d, [0x02, 0x03, 0x03, 0x00] + rest);
    assert [0x01, 0x02, 0x03, 0x03, 0x00] + rest == [0x01] + ([0x02, 0x03, 0x03, 0x00] + rest);
    Shifted(0x73a1443d, 0x02, 0xb6158c79, [0x03, 0x03, 0x00] + rest);
    assert [0x02, 0x03, 0x03, 0x00] + rest == [0x02] + ([0x03, 0x03, 0x00] + rest);
    Shifted(0xb6158c79, 0x03, 0xb0668dae, [0x03, 0x00] + rest);
    assert [0x03, 0x03, 0x00] + rest == [0x03] + ([0x03, 0x00] + rest);
    Shifted(0xb0668dae, 0x03, 0xa8d7b9d8, [0x00] + rest);
    assert [0x03, 0x00] + rest == [0x03] + ([0x00] + rest);
    Shifted(0xa8d7b9d8, 0x00, 0x88a08d5f, rest);
  }

  lemma LastBytes(rest: seq<byte>)
    ensures CrcSpec.Register(0x88a08d5f, [0x78, 0x79, 0x7a, 0x6e, 0x00, 0x63, 0x00] + rest) ==
            CrcSpec.Register(0xfa981d65, rest)
  {
    hide CrcSpec.Register;
    Shifted(0x88a08d5f, 0x78, 0xa58215e6, [0x79, 0x7a, 0x6e, 0x00, 0x63, 0x00] + rest);
    assert [0x78, 0x79, 0x7a, 0x6e, 0x00, 0x63, 0x00] + rest == [0x78] + ([0x79, 0x7a, 0x6e, 0x00, 0x63, 0x00] + rest);
    Shifted(0xa58215e6, 0x79, 0x60150cc0, [0x7a, 0x6e, 0x00, 0x63, 0x00] + rest);
    assert [0x79, 0x7a, 0x6e, 0x00, 0x63, 0x00] + rest == [0x79] + ([0x7a, 0x6e, 0x00, 0x63, 0x00] + rest);
    Shifted(0x60150cc0, 0x7a, 0x2bd44f9e, [0x6e, 0x00, 0x63, 0x00] + rest);
    assert [0x7a, 0x6e, 0x00, 0x63, 0x00] + rest == [0x7a] + ([0x6e, 0x00, 0x63, 0x00] + rest);
    Shifted(0x2bd44f9e, 0x6e, 0xbd962653, [0x00, 0x63, 0x00] + rest);
    assert [0x6e, 0x00, 0x63, 0x00] + rest == [0x6e] + ([0x00, 0x63, 0x00] + rest);
    Shifted(0xbd962653, 0x00, 0xf2df9668, [0x63, 0x00] + rest);
    assert [0x00, 0x63, 0x00] + rest == [0x00] + ([0x63, 0x00] + rest);
    Shifted(0xf2df9668, 0x63, 0x9720061e, [0x00] + rest);
    assert [0x63, 0x00] + rest == [0x63] + ([0x00] + rest);
    Shifted(0x9720061e, 0x00, 0xfa981d65, rest);
  }

  const HEAD: seq<byte> :=
    [0x1f, 0x8b, 0x08, 0x1f, 0x04, 0x03, 0x02, 0x01, 0x02, 0x03, 0x03, 0x00, 0x78, 0x79, 0x7a, 0x6e, 0x00, 0x63, 0x00]

  lemma CrcOfHead()
    ensures CrcSpec.Crc32(0, HEAD) % 65536 == 0xe29a
  {
    hide CrcSpec.Register;
    assert HEAD == [0x1f, 0x8b, 0x08, 0x1f, 0x04] +
                   [0x03, 0x02, 0x01, 0x02, 0x03, 0x03, 0x00, 0x78, 0x79, 0x7a, 0x6e, 0x00, 0x63, 0x00];
    FirstBytes([0x03, 0x02, 0x01, 0x02, 0x03, 0x03, 0x00, 0x78, 0x79, 0x7a, 0x6e, 0x00, 0x63, 0x00]);
    assert HEAD[5..] == [0x03, 0x02, 0x01, 0x02, 0x03, 0x03, 0x00] + [0x78, 0x79, 0x7a, 0x6e, 0x00, 0x63, 0x00];
    MiddleBytes([0x78, 0x79, 0x7a, 0x6e, 0x00, 0x63, 0x00]);
    assert HEAD[12..] == HEAD[12..] + [];
    LastBytes([]);
    RegisterEnd(0xfa981d65);
    assert CrcSpec.FromRegister(0xfa981d65) as nat == 0x567_e29a;
  }

  lemma RegisterEnd(r: bv64)
    ensures CrcSpec.Register(r, []) == r
  {
  }

  lemma HeadIs()
    ensures OUT.Ok() && HeadBytes(OUT, 2) == HEAD && GzipHead(OUT, 2) == HEAD + [0x9a, 0xe2]
  {
    hide CrcSpec.Crc32;
    CrcOfHead();
    assert OUT.Flags() == 0x1f;
    assert Bytes4(0x0102_0304) == [4, 3, 2, 1];
    assert FixedBytes(OUT, 2) == HEAD[..10];
    assert ExtraBytes(OUT) == HEAD[10..15];
    assert TextBytes(OUT.name) == HEAD[15..17] && TextBytes(OUT.comment) == HEAD[17..];
    assert HeadBytes(OUT, 2) == HEAD;
  }

  lemma CrcOfA()
    ensures CheckOf(1, [97]) == CrcSpec.Crc32(0, [97]) == 0xe8b7_be43
  {
    assert [97][1..] == [];
  }

  lemma TailOfA()
    ensures GzipTail(FlagWord(OUT), [97]) == [0x43, 0xbe, 0xb7, 0xe8, 1, 0, 0, 0]
  {
    hide CrcSpec.Crc32;
    CrcOfA();
  }

  const GZIP: seq<byte> :=
    [0x1f, 0x8b, 0x08, 0x1f, 0x04, 0x03, 0x02, 0x01, 0x02, 0x03, 0x03, 0x00, 0x78, 0x79, 0x7a, 0x6e, 0x00, 0x63, 0x00,
     0x9a, 0xe2, 0x4b, 0x04, 0x00, 0x43, 0xbe, 0xb7, 0xe8, 0x01, 0x00, 0x00, 0x00]

  lemma GzipParts()
    ensures HEAD + [0x9a, 0xe2] + BODY + [0x43, 0xbe, 0xb7, 0xe8, 1, 0, 0, 0] + [] == GZIP
  {
  }

  /** The byte a in a gzip stream with such a header, which is reported as it is: the CRC-32 is e8b7be43. */
  lemma GzipStream(wrap: nat, g: GzHeader, bytes: seq<byte>, n: nat)
    requires Gzip(wrap) && bytes == GZIP && g.extra == g.name == g.comment == Buf([], n) && n >= 3
    ensures Head(wrap, Win(0, false), Header(g), BytesBits(bytes)) ==
            Result(Header(GzHeader(true, 0x0102_0304, 2, 3, 3, Buf([120, 121, 122], n), Buf([110, 0], n),
                                   Buf([99, 0], n), true, 1)),
                   Finished([97], []))
  {
    hide Head, BytesBits, Ends, GzipHead, GzipTail, GzOut.Ok, InflateHeader.StoreAll, GZIP, HEAD, BODY, Pow2, FlagWord;
    BodyEnds();
    HeadIs();
    TailOfA();
    GzipDecodes(wrap, 0, OUT, 2, Header(g), 0, BODY, [97], []);
    StoredWhole(g.extra, [120, 121, 122]);
    StoredWhole(g.name, [110, 0]);
    StoredWhole(g.comment, [99, 0]);
    assert [110] + [0] == [110, 0] && [99] + [0] == [99, 0];
    NoBytes();
    NoBitsAt(0);
    GzipParts();
  }
}
