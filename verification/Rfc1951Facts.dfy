/**
 What the format guarantees of every stream: output is only ever appended to, and with a full
 window no distance reaches beyond it.
 */
module Rfc1951Facts {
  import opened Bits
  import opened TableSpec
  import opened Lz77
  import opened Rfc1951
  import InflateSteps

  /** The outcome keeps out as the beginning of its output, and is within a window of at least 32K. */
  ghost predicate Extends(w: nat, o: Outcome, out: seq<byte>) {
    match o
    case Finished(x, _) => out <= x
    case Corrupt(x) => out <= x
    case Starved(x) => out <= x
    case Beyond(x) => w < 32768 && out <= x
    case NeedsDict(_) => false
  }

  /** v, the outcome with a full window, is n, or goes on where n reaches beyond its window. */
  ghost predicate Wider(n: Outcome, v: Outcome) {
    if n.Beyond? then Longer(v, n.out) else v == n
  }

  ghost predicate Longer(o: Outcome, out: seq<byte>) {
    match o
    case Finished(x, _) => out < x
    case Corrupt(x) => out < x
    case Starved(x) => out < x
    case _ => false
  }

  lemma ExtendsMore(w: nat, o: Outcome, out: seq<byte>, more: seq<byte>)
    requires Extends(w, o, more) && out <= more
    ensures Extends(w, o, out)
  {
  }

  lemma OutcomesExtend(w: nat, out: seq<byte>)
    ensures Extends(w, Corrupt(out), out) && Extends(w, Starved(out), out)
    ensures forall rest :: Extends(w, Finished(out, rest), out)
    ensures Wider(Corrupt(out), Corrupt(out)) && Wider(Starved(out), Starved(out))
    ensures forall rest :: Wider(Finished(out, rest), Finished(out, rest))
  {
  }

  lemma {:induction false} BlocksExtends(w: nat, last: bool, bits: seq<bool>, out: seq<byte>)
    ensures Extends(w, Blocks(w, last, bits, out), out)
    ensures Wider(Blocks(w, last, bits, out),
            Blocks(32768, last, bits, out))
    decreases |bits|, 0
  {
    hide Stored, Copy, Dynamic, CodeLenLens, CodeLens, Tables, Codes, LenExt, Dist, DistExt, Match, ToInt, ReadSymbol,
      Extends, Wider;
    OutcomesExtend(w, out);
    if !last && |bits| >= 3 {
      var final, kind, rest := bits[0], ToInt(bits[1..3]), bits[3..];
      if kind == 0 {
        StoredExtends(w, final, rest, out);
      } else if kind == 1 {
        CodesExtends(w, final, FIXED_LENS, FIXED_DISTS, rest, out);
      } else if kind == 2 {
        DynamicExtends(w, final, rest, out);
      }
    }
  }

  lemma {:induction false} StoredExtends(w: nat, last: bool, bits: seq<bool>, out: seq<byte>)
    ensures Extends(w, Stored(w, last, bits, out), out)
    ensures Wider(Stored(w, last, bits, out),
            Stored(32768, last, bits, out))
    decreases |bits|, 0
  {
    hide Blocks, Copy, Dynamic, CodeLenLens, CodeLens, Tables, Codes, LenExt, Dist, DistExt, Match, ToInt, ReadSymbol,
      Extends, Wider;
    OutcomesExtend(w, out);
    var b := Align(bits);
    if |b| >= 32 {
      var len := ToInt(b[..16]);
      CopyExtends(w, last, len, b[32..], out);
    }
  }

  lemma {:induction false} CopyExtends(w: nat, last: bool, len: nat, bits: seq<bool>, out: seq<byte>)
    ensures Extends(w, Copy(w, last, len, bits, out), out)
    ensures Wider(Copy(w, last, len, bits, out),
            Copy(32768, last, len, bits, out))
    decreases |bits|, 1
  {
    hide Blocks, Stored, Dynamic, CodeLenLens, CodeLens, Tables, Codes, LenExt, Dist, DistExt, Match, ToInt, ReadSymbol,
      Extends, Wider;
    OutcomesExtend(w, out);
    if len == 0 {
      BlocksExtends(w, last, bits, out);
    } else if |bits| >= 8 {
      ToBitsToInt(bits[..8]);
      assert Pow2(8) == 256;
      var x: byte := ToInt(bits[..8]);
      CopyExtends(w, last, len - 1, bits[8..], out + [x]);
      ExtendsMore(w, Copy(w, last, len - 1, bits[8..], out + [x]), out, out + [x]);
    }
  }

  lemma {:induction false} DynamicExtends(w: nat, last: bool, bits: seq<bool>, out: seq<byte>)
    ensures Extends(w, Dynamic(w, last, bits, out), out)
    ensures Wider(Dynamic(w, last, bits, out),
            Dynamic(32768, last, bits, out))
    decreases |bits|, 0
  {
    hide Blocks, Stored, Copy, CodeLenLens, CodeLens, Tables, Codes, LenExt, Dist, DistExt, Match, ToInt, ReadSymbol,
      Extends, Wider;
    OutcomesExtend(w, out);
    if |bits| >= 14 {
      var nlen, ndist, ncode := ToInt(bits[..5]) + 257, ToInt(bits[5..10]) + 1, ToInt(bits[10..14]) + 4;
      CodeLenLensExtends(w, last, nlen, ndist, ncode, [], bits[14..], out);
    }
  }

  lemma {:induction false} CodeLenLensExtends(w: nat, last: bool, nlen: nat, ndist: nat, ncode: nat, got: seq<nat>,
        bits: seq<bool>, out: seq<byte>)
    ensures Extends(w, CodeLenLens(w, last, nlen, ndist, ncode, got, bits, out), out)
    ensures Wider(CodeLenLens(w, last, nlen, ndist, ncode, got, bits, out),
            CodeLenLens(32768, last, nlen, ndist, ncode, got, bits, out))
    decreases |bits|, 2
  {
    hide Blocks, Stored, Copy, Dynamic, CodeLens, Tables, Codes, LenExt, Dist, DistExt, Match, ToInt, ReadSymbol,
      Extends, Wider;
    OutcomesExtend(w, out);
    if |got| >= ncode {
      CodeLensExtends(w, last, nlen, ndist, Placed(got), [], bits, out);
    } else if |bits| >= 3 {
      CodeLenLensExtends(w, last, nlen, ndist, ncode, got + [ToInt(bits[..3])], bits[3..], out);
    }
  }

  lemma {:induction false} CodeLensExtends(w: nat, last: bool, nlen: nat, ndist: nat, cl: seq<nat>, lens: seq<nat>,
        bits: seq<bool>, out: seq<byte>)
    ensures Extends(w, CodeLens(w, last, nlen, ndist, cl, lens, bits, out), out)
    ensures Wider(CodeLens(w, last, nlen, ndist, cl, lens, bits, out),
            CodeLens(32768, last, nlen, ndist, cl, lens, bits, out))
    decreases |bits|, 1
  {
    hide Blocks, Stored, Copy, Dynamic, CodeLenLens, Tables, Codes, LenExt, Dist, DistExt, Match, ToInt, ReadSymbol,
      Extends, Wider;
    OutcomesExtend(w, out);
    if |lens| >= nlen + ndist {
      TablesExtends(w, last, nlen, lens, bits, out);
    } else {
      match ReadSymbol(cl, bits)
      case NeedMore =>
      case NoCode => CodeLensExtends(w, last, nlen, ndist, cl, lens + [0], bits[1..], out);
      case Sym(s, rest) =>
        if s < 16 {
          CodeLensExtends(w, last, nlen, ndist, cl, lens + [s], rest, out);
        } else if |rest| >= RepeatBits(s) {
          var n := RepeatBase(s) + ToInt(rest[..RepeatBits(s)]);
          var x := if s == 16 && lens != [] then lens[|lens| - 1] else 0;
          CodeLensExtends(w, last, nlen, ndist, cl, lens + Repeat(x, n), rest[RepeatBits(s)..], out);
        }
    }
  }

  lemma {:induction false} TablesExtends(w: nat, last: bool, nlen: nat, lens: seq<nat>, bits: seq<bool>, out: seq<byte>)
    ensures Extends(w, Tables(w, last, nlen, lens, bits, out), out)
    ensures Wider(Tables(w, last, nlen, lens, bits, out),
            Tables(32768, last, nlen, lens, bits, out))
    decreases |bits|, 0, 1
  {
    hide Blocks, Stored, Copy, Dynamic, CodeLenLens, CodeLens, Codes, LenExt, Dist, DistExt, Match, ToInt, ReadSymbol,
      Extends, Wider;
    OutcomesExtend(w, out);
    if nlen >= 257 && |lens| >= nlen {
      CodesExtends(w, last, lens[..nlen], lens[nlen..], bits, out);
    }
  }

  lemma {:induction false} CodesExtends(w: nat, last: bool, ll: seq<nat>, dl: seq<nat>, bits: seq<bool>, out: seq<byte>)
    ensures Extends(w, Codes(w, last, ll, dl, bits, out), out)
    ensures Wider(Codes(w, last, ll, dl, bits, out),
            Codes(32768, last, ll, dl, bits, out))
    decreases |bits|, 0, 0
  {
    hide Blocks, Stored, Copy, Dynamic, CodeLenLens, CodeLens, Tables, LenExt, Dist, DistExt, Match, ToInt, ReadSymbol,
      Extends, Wider;
    OutcomesExtend(w, out);
    match ReadSymbol(ll, bits)
    case NeedMore =>
    case NoCode =>
    case Sym(s, rest) =>
      if s < 256 {
        CodesExtends(w, last, ll, dl, rest, out + [s]);
        ExtendsMore(w, Codes(w, last, ll, dl, rest, out + [s]), out, out + [s]);
      } else if s == 256 {
        BlocksExtends(w, last, rest, out);
      } else if s <= 285 {
        LenExtExtends(w, last, ll, dl, LBASE[s - 257], LEXT[s - 257] % 16, rest, out);
      }
  }

  lemma {:induction false} LenExtExtends(w: nat, last: bool, ll: seq<nat>, dl: seq<nat>, base: nat, extra: nat,
        bits: seq<bool>, out: seq<byte>)
    requires base >= 1
    ensures Extends(w, LenExt(w, last, ll, dl, base, extra, bits, out), out)
    ensures Wider(LenExt(w, last, ll, dl, base, extra, bits, out),
            LenExt(32768, last, ll, dl, base, extra, bits, out))
    decreases |bits|, 4
  {
    hide Blocks, Stored, Copy, Dynamic, CodeLenLens, CodeLens, Tables, Codes, Dist, DistExt, Match, ToInt, ReadSymbol,
      Extends, Wider;
    OutcomesExtend(w, out);
    if |bits| >= extra {
      DistExtends(w, last, ll, dl, base + ToInt(bits[..extra]), bits[extra..], out);
    }
  }

  lemma {:induction false} DistExtends(w: nat, last: bool, ll: seq<nat>, dl: seq<nat>, len: nat, bits: seq<bool>,
        out: seq<byte>)
    requires len >= 1
    ensures Extends(w, Dist(w, last, ll, dl, len, bits, out), out)
    ensures Wider(Dist(w, last, ll, dl, len, bits, out),
            Dist(32768, last, ll, dl, len, bits, out))
    decreases |bits|, 3
  {
    hide Blocks, Stored, Copy, Dynamic, CodeLenLens, CodeLens, Tables, Codes, LenExt, DistExt, Match, ToInt, ReadSymbol,
      Extends, Wider;
    OutcomesExtend(w, out);
    match ReadSymbol(dl, bits)
    case NeedMore =>
    case NoCode =>
    case Sym(s, rest) =>
      if s <= 29 {
        DistanceRange(s);
        DistExtExtends(w, last, ll, dl, len, DBASE[s], DEXT[s] % 16, rest, out);
      }
  }

  /** No distance is over 32K. */
  lemma DistanceRange(s: nat)
    requires s <= 29
    ensures DBASE[s] + Pow2(DEXT[s] % 16) <= 32769
  {
    hide InflateSteps.ClassifyDist, SymCode, Pow2;
    InflateSteps.ClassifyDistSym(s, 1);
  }

  lemma {:induction false} DistExtExtends(w: nat, last: bool, ll: seq<nat>, dl: seq<nat>, len: nat, base: nat,
        extra: nat, bits: seq<bool>, out: seq<byte>)
    requires base + Pow2(extra) <= 32769 && len >= 1
    ensures Extends(w, DistExt(w, last, ll, dl, len, base, extra, bits, out), out)
    ensures Wider(DistExt(w, last, ll, dl, len, base, extra, bits, out),
            DistExt(32768, last, ll, dl, len, base, extra, bits, out))
    decreases |bits|, 2
  {
    hide Blocks, Stored, Copy, Dynamic, CodeLenLens, CodeLens, Tables, Codes, LenExt, Dist, Match, ToInt, ReadSymbol,
      Extends, Wider;
    OutcomesExtend(w, out);
    if |bits| >= extra {
      ToBitsToInt(bits[..extra]);
      MatchExtends(w, last, ll, dl, len, base + ToInt(bits[..extra]), bits[extra..], out);
    }
  }

  lemma {:induction false} MatchExtends(w: nat, last: bool, ll: seq<nat>, dl: seq<nat>, len: nat, dist: nat,
        bits: seq<bool>, out: seq<byte>)
    requires dist <= 32768 && len >= 1
    ensures Extends(w, Match(w, last, ll, dl, len, dist, bits, out), out)
    ensures Wider(Match(w, last, ll, dl, len, dist, bits, out),
            Match(32768, last, ll, dl, len, dist, bits, out))
    decreases |bits|, 1
  {
    hide Blocks, Stored, Copy, Dynamic, CodeLenLens, CodeLens, Tables, Codes, LenExt, Dist, DistExt, ToInt, ReadSymbol,
      Extends, Wider;
    OutcomesExtend(w, out);
    if 1 <= dist <= |out| {
      var x := CopyMatch(out, dist, len);
      CopyPrefix(out, dist, len);
      if dist <= w {
        CodesExtends(w, last, ll, dl, bits, x);
        ExtendsMore(w, Codes(w, last, ll, dl, bits, x), out, x);
      } else {
        CodesExtends(32768, last, ll, dl, bits, x);
        BeyondSmall(w, out, Codes(32768, last, ll, dl, bits, x), x);
      }
    }
  }

  lemma BeyondSmall(w: nat, out: seq<byte>, v: Outcome, x: seq<byte>)
    requires w < 32768 && Extends(32768, v, x) && out < x
    ensures Extends(w, Beyond(out), out) && Wider(Beyond(out), v)
  {
  }
}
