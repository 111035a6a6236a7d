/**
 The CRC-32 as a polynomial remainder, bit by bit.

 Polynomials over GF(2) are held reflected, x^0 in bit 31.  The register is 64 bits wide, the
 upper bits standing for negative powers of x, so that a whole word can be fed in at once.
 */
module CrcSpec {
  import opened Bits

  const POLY: bv64 := 0xedb8_8320   // p(x) reflected, with x^32 implied

  /** Adds polynomials. */
  function Add(a: bv64, b: bv64): bv64 {
    a ^ b
  }

  /** Multiplies by x modulo p(x). */
  function TimesX(r: bv64): bv64 {
    if r & 1 == 1 then (r >> 1) ^ POLY else r >> 1
  }

  /** Multiplies by x^n modulo p(x). */
  function TimesXn(r: bv64, n: nat): bv64
    decreases n
  {
    if n == 0 then r else TimesXn(TimesX(r), n - 1)
  }

  /** A byte as a word. */
  function Word(b: byte): (r: bv64)
    ensures r <= 0xff
  {
    (b as bv8) as bv64
  }

  /** Adds a byte and shifts it through, bit by bit. */
  function Feed(r: bv64, b: byte): bv64 {
    TimesXn(Add(r, Word(b)), 8)
  }

  /** The register after the bytes of data. */
  function Register(r: bv64, data: seq<byte>): bv64
    decreases |data|
  {
    if data == [] then r else Register(Feed(r, data[0]), data[1..])
  }

  const ONES: bv64 := 0xffff_ffff

  /** Pre- and post-conditioning: a CRC is the complement of the register. */
  function ToRegister(crc: bv32): bv64 {
    (crc as bv64) ^ ONES
  }

  function FromRegister(r: bv64): bv32 {
    ((r ^ ONES) & ONES) as bv32
  }

  lemma FromToRegister(r: bv64)
    requires r <= ONES
    ensures ToRegister(FromRegister(r)) == r
  {
  }

  lemma ToRegisterSmall(crc: bv32)
    ensures ToRegister(crc) <= ONES
    ensures FromRegister(ToRegister(crc)) == crc
  {
  }

  /** The CRC-32 of data continuing from crc. */
  function Crc(crc: bv32, data: seq<byte>): bv32 {
    FromRegister(Register(ToRegister(crc), data))
  }

  /** The same on numbers. */
  function Crc32(crc: nat, data: seq<byte>): (r: nat)
    requires crc < 0x1_0000_0000
    ensures r < 0x1_0000_0000
  {
    Crc(crc as bv32, data) as nat
  }

  lemma {:induction false} RegisterConcat(r: bv64, a: seq<byte>, b: seq<byte>)
    ensures Register(r, a + b) == Register(Register(r, a), b)
    decreases |a|
  {
    hide Feed;
    if a == [] {
      assert a + b == b;
    } else {
      RegisterConcat(Feed(r, a[0]), a[1..], b);
      assert (a + b)[1..] == a[1..] + b;
    }
  }

  lemma {:induction false} TimesXnSmall(r: bv64, n: nat)
    requires r <= ONES
    ensures TimesXn(r, n) <= ONES
    decreases n
  {
    if n > 0 {
      TimesXnSmall(TimesX(r), n - 1);
    }
  }

  lemma {:induction false} RegisterSmall(r: bv64, data: seq<byte>)
    requires r <= ONES
    ensures Register(r, data) <= ONES
    decreases |data|
  {
    hide Feed;
    if data != [] {
      FeedSmall(r, data[0]);
      RegisterSmall(Feed(r, data[0]), data[1..]);
    }
  }

  lemma FeedSmall(r: bv64, b: byte)
    requires r <= ONES
    ensures Feed(r, b) <= ONES
  {
    hide Word;
    TimesXnSmall(Add(r, Word(b)), 8);
  }

  /** CRCs may be computed piece by piece. */
  lemma CrcConcat(crc: bv32, a: seq<byte>, b: seq<byte>)
    ensures Crc(crc, a + b) == Crc(Crc(crc, a), b)
  {
    hide Register, ToRegister, FromRegister;
    var r := Register(ToRegister(crc), a);
    RegisterConcat(ToRegister(crc), a, b);
    ToRegisterSmall(crc);
    RegisterSmall(ToRegister(crc), a);
    FromToRegister(r);
  }

  lemma Crc32Concat(crc: nat, a: seq<byte>, b: seq<byte>)
    requires crc < 0x1_0000_0000
    ensures Crc32(crc, a + b) == Crc32(Crc32(crc, a), b)
  {
    hide Crc;
    CrcConcat(crc as bv32, a, b);
    var c := Crc(crc as bv32, a);
    assert (c as nat) as bv32 == c;
  }
}
