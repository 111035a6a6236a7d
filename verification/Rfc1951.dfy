/**
 The DEFLATE format as a recursive decoder over a bit sequence (section 3.2 of RFC 1951).

 Each function decodes from one point of the format to the end of the stream; `out` is what has
 been produced so far.  A point where the decoder may be interrupted has a function of its own,
 so that the rest of a stream has a meaning wherever decoding has got to.
 */
module Rfc1951 {
  import opened Bits
  import opened Canonical
  import opened TableSpec
  import opened Lz77

  datatype Outcome =
    | Finished(out: seq<byte>, rest: seq<bool>)   // end of the last block, at a byte boundary
    | Corrupt(out: seq<byte>)                     // not a DEFLATE stream
    | Starved(out: seq<byte>)                     // the bits end too early
    | Beyond(out: seq<byte>)                      // a distance within the output but beyond the window
    | NeedsDict(id: nat)                          // a preset dictionary is called for (zlib wrapper only)

  /** Result of reading one code. */
  datatype Symbol = Sym(s: nat, rest: seq<bool>) | NoCode | NeedMore

  ghost predicate StartsWith(lens: seq<nat>, s: nat, bits: seq<bool>) {
    s < |lens| && lens[s] > 0 && CodeBits(lens, s) <= bits
  }

  /** bits is a proper beginning of the code of s. */
  ghost predicate Begins(lens: seq<nat>, s: nat, bits: seq<bool>) {
    s < |lens| && lens[s] > |bits| && bits <= CodeBits(lens, s)
  }

  ghost function ReadSymbol(lens: seq<nat>, bits: seq<bool>): (r: Symbol)
    ensures r.Sym? ==> StartsWith(lens, r.s, bits) && r.rest == bits[lens[r.s]..] && |r.rest| < |bits|
    ensures r.NoCode? ==> bits != []
  {
    if exists s: nat :: StartsWith(lens, s, bits) then
      var s: nat :| StartsWith(lens, s, bits);
      Sym(s, bits[lens[s]..])
    else if bits == [] || exists s: nat :: Begins(lens, s, bits) then NeedMore
    else NoCode
  }

  /** Drops what remains of a byte; whole streams are made of bytes. */
  function Align(bits: seq<bool>): seq<bool> {
    bits[|bits| % 8..]
  }

  // ---------- blocks ----------

  ghost function Blocks(w: nat, last: bool, bits: seq<bool>, out: seq<byte>): Outcome
    decreases |bits|, 0
  {
    if last then Finished(out, Align(bits))
    else if |bits| < 3 then Starved(out)
    else
      var final, kind, rest := bits[0], ToInt(bits[1..3]), bits[3..];
      if kind == 0 then Stored(w, final, rest, out)
      else if kind == 1 then Codes(w, final, FIXED_LENS, FIXED_DISTS, rest, out)
      else if kind == 2 then Dynamic(w, final, rest, out)
      else Corrupt(out)
  }

  // ---------- stored blocks ----------

  ghost function Stored(w: nat, last: bool, bits: seq<bool>, out: seq<byte>): Outcome
    decreases |bits|, 0
  {
    var b := Align(bits);
    if |b| < 32 then Starved(out)
    else
      var len, nlen := ToInt(b[..16]), ToInt(b[16..32]);
      if len + nlen != 0xffff then Corrupt(out)
      else Copy(w, last, len, b[32..], out)
  }

  ghost function Copy(w: nat, last: bool, len: nat, bits: seq<bool>, out: seq<byte>): Outcome
    decreases |bits|, 1
  {
    if len == 0 then Blocks(w, last, bits, out)
    else if |bits| < 8 then Starved(out)
    else
      ToBitsToInt(bits[..8]);
      Copy(w, last, len - 1, bits[8..], out + [ToInt(bits[..8])])
  }

  // ---------- dynamic blocks ----------

  /** The order in which code length code lengths are given, and its inverse. */
  const ORDER: seq<nat> := [16, 17, 18, 0, 8, 7, 9, 6, 10, 5, 11, 4, 12, 3, 13, 2, 14, 1, 15]
  const PLACE: seq<nat> := [3, 17, 15, 13, 11, 9, 7, 5, 4, 6, 8, 10, 12, 14, 16, 18, 0, 1, 2]

  ghost function Dynamic(w: nat, last: bool, bits: seq<bool>, out: seq<byte>): Outcome
    decreases |bits|, 0
  {
    if |bits| < 14 then Starved(out)
    else
      var nlen, ndist, ncode := ToInt(bits[..5]) + 257, ToInt(bits[5..10]) + 1, ToInt(bits[10..14]) + 4;
      if nlen > 286 || ndist > 30 then Corrupt(out)
      else CodeLenLens(w, last, nlen, ndist, ncode, [], bits[14..], out)
  }

  /** The lengths of the code length code: got lists those read, in ORDER. */
  ghost function CodeLenLens(w: nat, last: bool, nlen: nat, ndist: nat, ncode: nat, got: seq<nat>,
                             bits: seq<bool>, out: seq<byte>): Outcome
    decreases |bits|, 2
  {
    if |got| >= ncode then
      var cl := Placed(got);
      if !ValidLens(cl) || Refused(CODES, cl) then Corrupt(out)
      else CodeLens(w, last, nlen, ndist, cl, [], bits, out)
    else if |bits| < 3 then Starved(out)
    else CodeLenLens(w, last, nlen, ndist, ncode, got + [ToInt(bits[..3])], bits[3..], out)
  }

  function Placed(got: seq<nat>): (cl: seq<nat>)
    ensures |cl| == 19
  {
    seq(19, i requires 0 <= i < 19 => if PLACE[i] < |got| then got[PLACE[i]] else 0)
  }

  /** Bits after a code length symbol, the base of the repeat count they give, and the length repeated. */
  function RepeatBits(s: nat): nat {
    if s == 16 then 2 else if s == 17 then 3 else 7
  }

  function RepeatBase(s: nat): nat {
    if s == 18 then 11 else 3
  }

  function Repeat(x: nat, n: nat): (r: seq<nat>)
    ensures |r| == n
  {
    seq(n, _ => x)
  }

  /** The literal/length and distance code lengths: lens lists those read so far. */
  ghost function CodeLens(w: nat, last: bool, nlen: nat, ndist: nat, cl: seq<nat>, lens: seq<nat>,
                          bits: seq<bool>, out: seq<byte>): Outcome
    decreases |bits|, 1
  {
    if |lens| >= nlen + ndist then Tables(w, last, nlen, lens, bits, out)
    else
      match ReadSymbol(cl, bits)
      case NeedMore => Starved(out)
      // a code without symbols reads as zeros
      case NoCode => CodeLens(w, last, nlen, ndist, cl, lens + [0], bits[1..], out)
      case Sym(s, rest) =>
        if s < 16 then CodeLens(w, last, nlen, ndist, cl, lens + [s], rest, out)
        else if |rest| < RepeatBits(s) then Starved(out)
        else if s == 16 && lens == [] then Corrupt(out)
        else
          var n := RepeatBase(s) + ToInt(rest[..RepeatBits(s)]);
          if |lens| + n > nlen + ndist then Corrupt(out)
          else
            var x := if s == 16 then lens[|lens| - 1] else 0;
            CodeLens(w, last, nlen, ndist, cl, lens + Repeat(x, n), rest[RepeatBits(s)..], out)
  }

  /** The two codes must be usable, and the first must have an end-of-block code. */
  ghost function Tables(w: nat, last: bool, nlen: nat, lens: seq<nat>, bits: seq<bool>, out: seq<byte>): Outcome
    decreases |bits|, 0, 1
  {
    if nlen < 257 || |lens| < nlen then Corrupt(out)
    else
      var ll, dl := lens[..nlen], lens[nlen..];
      if ll[256] == 0 || !ValidLens(lens) || Refused(LENS, ll) || Refused(DISTS, dl) then Corrupt(out)
      else Codes(w, last, ll, dl, bits, out)
  }

  // ---------- compressed data ----------

  /** The fixed codes (section 3.2.6). */
  const FIXED_LENS: seq<nat> := Repeat(8, 144) + Repeat(9, 112) + Repeat(7, 24) + Repeat(8, 8)
  const FIXED_DISTS: seq<nat> := Repeat(5, 32)

  ghost function Codes(w: nat, last: bool, ll: seq<nat>, dl: seq<nat>, bits: seq<bool>, out: seq<byte>): Outcome
    decreases |bits|, 0, 0
  {
    match ReadSymbol(ll, bits)
    case NeedMore => Starved(out)
    case NoCode => Corrupt(out)
    case Sym(s, rest) =>
      if s < 256 then Codes(w, last, ll, dl, rest, out + [s])
      else if s == 256 then Blocks(w, last, rest, out)
      else if s > 285 then Corrupt(out)
      else LenExt(w, last, ll, dl, LBASE[s - 257], LEXT[s - 257] % 16, rest, out)
  }

  ghost function LenExt(w: nat, last: bool, ll: seq<nat>, dl: seq<nat>, base: nat, extra: nat,
                        bits: seq<bool>, out: seq<byte>): Outcome
    decreases |bits|, 4
  {
    if |bits| < extra then Starved(out)
    else Dist(w, last, ll, dl, base + ToInt(bits[..extra]), bits[extra..], out)
  }

  ghost function Dist(w: nat, last: bool, ll: seq<nat>, dl: seq<nat>, len: nat, bits: seq<bool>,
        out: seq<byte>): Outcome
    decreases |bits|, 3
  {
    match ReadSymbol(dl, bits)
    case NeedMore => Starved(out)
    case NoCode => Corrupt(out)
    case Sym(s, rest) =>
      if s > 29 then Corrupt(out)
      else DistExt(w, last, ll, dl, len, DBASE[s], DEXT[s] % 16, rest, out)
  }

  ghost function DistExt(w: nat, last: bool, ll: seq<nat>, dl: seq<nat>, len: nat, base: nat, extra: nat,
                         bits: seq<bool>, out: seq<byte>): Outcome
    decreases |bits|, 2
  {
    if |bits| < extra then Starved(out)
    else Match(w, last, ll, dl, len, base + ToInt(bits[..extra]), bits[extra..], out)
  }

  ghost function Match(w: nat, last: bool, ll: seq<nat>, dl: seq<nat>, len: nat, dist: nat,
                       bits: seq<bool>, out: seq<byte>): Outcome
    decreases |bits|, 1
  {
    if dist == 0 || dist > |out| then Corrupt(out)
    else if dist > w then Beyond(out)
    else Codes(w, last, ll, dl, bits, CopyMatch(out, dist, len))
  }

  lemma CopyDone(w: nat, last: bool, b: seq<bool>, o: seq<byte>)
    ensures Copy(w, last, 0, b, o) == Blocks(w, last, b, o)
  {
  }

  lemma CopyShort(w: nat, last: bool, n: nat, b: seq<bool>, o: seq<byte>)
    requires n > 0 && |b| < 8
    ensures Copy(w, last, n, b, o) == Starved(o)
  {
  }

  lemma BlocksEnd(w: nat, b: seq<bool>, o: seq<byte>)
    ensures Blocks(w, true, b, o) == Finished(o, Align(b))
  {
  }
}
