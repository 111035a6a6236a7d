/** LZ77 strings: copying a match one byte at a time. */
module Lz77 {
  import opened Bits

  /** Appends len bytes, each the one dist bytes back from the end at that time. */
  function CopyMatch(out: seq<byte>, dist: nat, len: nat): (r: seq<byte>)
    requires 1 <= dist <= |out|
    ensures |r| == |out| + len
    decreases len
  {
    if len == 0 then out else CopyMatch(out + [out[|out| - dist]], dist, len - 1)
  }

  /** A match may be copied in pieces. */
  lemma {:induction false} CopySplit(out: seq<byte>, dist: nat, m: nat, n: nat)
    requires 1 <= dist <= |out|
    ensures CopyMatch(out, dist, m + n) == CopyMatch(CopyMatch(out, dist, m), dist, n)
    decreases m
  {
    if m > 0 {
      CopySplit(out + [out[|out| - dist]], dist, m - 1, n);
    }
  }

  lemma CopyOneMore(out: seq<byte>, dist: nat, n: nat)
    requires 1 <= dist <= |out|
    ensures var x := CopyMatch(out, dist, n); CopyMatch(out, dist, n + 1) == x + [x[|x| - dist]]
  {
    CopySplit(out, dist, n, 1);
    var x := CopyMatch(out, dist, n);
    assert CopyMatch(x + [x[|x| - dist]], dist, 0) == x + [x[|x| - dist]];
  }

  /** What a copied match contains: the string dist bytes back, repeated if it overlaps itself. */
  lemma {:induction false} CopyAt(out: seq<byte>, dist: nat, len: nat, i: nat)
    requires 1 <= dist <= |out| && i < |out| + len
    ensures CopyMatch(out, dist, len)[i] == if i < |out| then out[i] else CopyMatch(out, dist, len)[i - dist]
    decreases len
  {
    if len > 0 {
      var o := out + [out[|out| - dist]];
      CopyAt(o, dist, len - 1, i);
      if i >= |out| {
        CopyAt(o, dist, len - 1, i - dist);
      }
    }
  }

  lemma CopyPrefix(out: seq<byte>, dist: nat, len: nat)
    requires 1 <= dist <= |out|
    ensures out <= CopyMatch(out, dist, len)
  {
    hide CopyMatch;
    forall i | 0 <= i < |out| ensures CopyMatch(out, dist, len)[i] == out[i] {
      CopyAt(out, dist, len, i);
    }
  }
}
