/**
 What deflate keeps of its input for the trailer: strm->adler and total_in, brought up to date by read_buf.
 */
module InputSums {
  import opened Bits
  import opened Wrapper

  /** The check value, and the low 32 bits of the length, which are all of it that is written. */
  datatype Sums = Sums(adler: u32, totalIn: u32)

  /** deflateResetKeep; wrap is 0 for a raw stream, 1 for zlib, 2 for gzip. */
  function Start(wrap: nat): Sums {
    Sums(if wrap == 2 then 0 else 1, 0)
  }

  /** read_buf: the check value goes on over the bytes read, as the wrapper asks. */
  function Counted(wrap: nat, t: Sums, bytes: seq<byte>): Sums {
    Sums(if wrap == 1 then UpdateCheck(0, t.adler, bytes) else if wrap == 2 then UpdateCheck(1, t.adler, bytes)
         else t.adler, (t.totalIn + |bytes|) % 0x1_0000_0000)
  }

  /** What they are of all input: the check value of its wrapper, and its length. */
  ghost function SumsOf(wrap: nat, data: seq<byte>): Sums {
    Sums(if wrap == 1 then CheckOf(0, data) else if wrap == 2 then CheckOf(1, data) else 1, |data| % 0x1_0000_0000)
  }

  lemma CountedMore(wrap: nat, data: seq<byte>, bytes: seq<byte>)
    ensures Counted(wrap, SumsOf(wrap, data), bytes) == SumsOf(wrap, data + bytes)
  {
    hide UpdateCheck, CheckOf;
    CheckAll(0, data, bytes);
    CheckAll(1, data, bytes);
  }

  lemma CountedNone(wrap: nat)
    ensures Start(wrap) == SumsOf(wrap, [])
  {
  }
}
