/** The Adler-32 checksum by its definition: two sums, reduced at every byte (section 8.2 of RFC 1950). */
module AdlerSpec {
  import opened Bits

  const BASE := 65521

  /** The two sums after the bytes of data. */
  function Sums(a: nat, b: nat, data: seq<byte>): (r: (nat, nat))
    ensures a < BASE && b < BASE ==> r.0 < BASE && r.1 < BASE
    ensures a < 65536 && b < 65536 ==> r.0 < 65536 && r.1 < 65536
    decreases |data|
  {
    if data == [] then (a, b)
    else
      var a' := (a + data[0]) % BASE;
      Sums(a', (b + a') % BASE, data[1..])
  }

  /** The checksum of data continuing from adler. */
  function Adler32(adler: nat, data: seq<byte>): (r: nat)
    ensures r < 0x1_0000_0000
  {
    var (a, b) := Sums(adler % 65536, adler / 65536 % 65536, data);
    b * 65536 + a
  }

  lemma {:induction false} SumsConcat(a: nat, b: nat, x: seq<byte>, y: seq<byte>)
    ensures Sums(a, b, x + y) == Sums(Sums(a, b, x).0, Sums(a, b, x).1, y)
    decreases |x|
  {
    if x == [] {
      assert x + y == y;
    } else {
      var a' := (a + x[0]) % BASE;
      SumsConcat(a', (b + a') % BASE, x[1..], y);
      assert (x + y)[1..] == x[1..] + y;
    }
  }

  /** A checksum value: both halves are reduced. */
  predicate Reduced(adler: nat) {
    adler % 65536 < BASE && adler / 65536 < BASE
  }

  /** Checksums may be computed piece by piece. */
  lemma AdlerConcat(adler: nat, x: seq<byte>, y: seq<byte>)
    ensures Adler32(adler, x + y) == Adler32(Adler32(adler, x), y)
  {
    hide Sums;
    SumsConcat(adler % 65536, adler / 65536 % 65536, x, y);
  }
}
