/** The tokens of deflate, and what they stand for. */
module Tokens {
  import opened Bits
  import opened Lz77

  /** What deflate emits: a byte, or a string that occurred before. */
  datatype Token = Lit(b: byte) | Str(len: nat, dist: nat)

  function Apply(out: seq<byte>, t: Token): seq<byte> {
    match t
    case Lit(b) => out + [b]
    case Str(len, dist) => if 1 <= dist <= |out| then CopyMatch(out, dist, len) else out
  }

  /** What tokens stand for. */
  function Expand(ts: seq<Token>): seq<byte>
    decreases |ts|
  {
    if ts == [] then [] else Apply(Expand(ts[..|ts| - 1]), ts[|ts| - 1])
  }

  lemma ExpandNext(ts: seq<Token>, t: Token)
    ensures Expand(ts + [t]) == Apply(Expand(ts), t)
  {
    assert (ts + [t])[..|ts|] == ts;
  }

  /** len bytes of data from pos on are as dist bytes before. */
  ghost predicate Repeats(data: seq<byte>, pos: nat, dist: nat, len: nat) {
    dist <= pos && pos + len <= |data| && forall j :: pos <= j < pos + len ==> data[j] == data[j - dist]
  }

  /** A match that agrees with the data reproduces it, also where it overlaps itself. */
  lemma {:induction false} CopyReproduces(data: seq<byte>, pos: nat, dist: nat, len: nat)
    requires 1 <= dist <= pos && pos + len <= |data|
    requires Repeats(data, pos, dist, len)
    ensures CopyMatch(data[..pos], dist, len) == data[..pos + len]
    decreases len
  {
    if len > 0 {
      CopyReproduces(data, pos, dist, len - 1);
      CopyOneMore(data[..pos], dist, len - 1);
      var x := data[..pos + len - 1];
      assert data[..pos + len] == x + [x[|x| - dist]];
    }
  }

  /** Every string token reaches back only into what came before it. */
  ghost predicate Sane(ts: seq<Token>) {
    forall i :: 0 <= i < |ts| && ts[i].Str? ==> 1 <= ts[i].dist <= |Expand(ts[..i])|
  }

  lemma SaneNext(ts: seq<Token>, t: Token)
    requires Sane(ts) && (t.Str? ==> 1 <= t.dist <= |Expand(ts)|)
    ensures Sane(ts + [t])
  {
    var us := ts + [t];
    forall i | 0 <= i < |us| && us[i].Str? ensures 1 <= us[i].dist <= |Expand(us[..i])| {
      assert us[..i] == ts[..i];
      assert i == |ts| ==> ts[..i] == ts;
    }
  }
}
