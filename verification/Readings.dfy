/**
 What the bits of a block begin with: a literal, a string, or the end of the block, read as section 3.2.5 of RFC 1951
 has it; and how many bytes of input inflate_fast fetches for it.
 */
module Readings {
  import opened Bits
  import opened TableSpec
  import opened Rfc1951
  import opened InflateSteps

  datatype Reading =
    | Short                                           // the bits end too early
    | NoSuch                                          // no such code
    | Byte(x: byte, rest: seq<bool>)
    | End(rest: seq<bool>)
    | String(len: nat, dist: nat, rest: seq<bool>)

  ghost function DistAt(dl: seq<nat>, len: nat, b: seq<bool>): Reading {
    var sym := ReadSymbol(dl, b);
    if sym.NeedMore? then Short
    else if sym.NoCode? then NoSuch
    else
      var c := DistOf(sym.s);
      if c.BadDist? then NoSuch
      else if |sym.rest| < c.extra then Short
      else String(len, c.base + ToInt(sym.rest[..c.extra]), sym.rest[c.extra..])
  }

  ghost function ReadingAt(ll: seq<nat>, dl: seq<nat>, b: seq<bool>): Reading {
    var sym := ReadSymbol(ll, b);
    if sym.NeedMore? then Short
    else if sym.NoCode? then NoSuch
    else
      var c := LenOf(sym.s);
      if c.Literal? then Byte(c.b, sym.rest)
      else if c.EndOfBlock? then End(sym.rest)
      else if c.BadLen? then NoSuch
      else if |sym.rest| < c.extra then Short
      else DistAt(dl, c.base + ToInt(sym.rest[..c.extra]), sym.rest[c.extra..])
  }

  /** Reading takes at least a bit, and lengths and distances are what the format allows. */
  lemma ReadingBounds(ll: seq<nat>, dl: seq<nat>, b: seq<bool>)
    ensures var a := ReadingAt(ll, dl, b);
            && (a.Byte? || a.End? || a.String? ==> |a.rest| < |b|)
            && (a.String? ==> 3 <= a.len <= 258 && 1 <= a.dist <= 32768)
  {
    hide ToInt, Pow2, LBASE, LEXT, DBASE, DEXT;
    match ReadSymbol(ll, b)
    case NeedMore =>
    case NoCode =>
    case Sym(s, rest) =>
      if 257 <= s <= 285 {
        LenTables();
        LenRow(s - 257);
        var extra := LEXT[s - 257] % 16;
        if |rest| >= extra {
          ToBitsToInt(rest[..extra]);
          DistBounds(dl, LBASE[s - 257] + ToInt(rest[..extra]), rest[extra..]);
        }
      }
  }

  lemma DistBounds(dl: seq<nat>, len: nat, b: seq<bool>)
    ensures var a := DistAt(dl, len, b);
            !a.Byte? && !a.End? && (a.String? ==> a.len == len && |a.rest| < |b| && 1 <= a.dist <= 32768)
  {
    hide ToInt, Pow2, DBASE, DEXT;
    match ReadSymbol(dl, b)
    case NeedMore =>
    case NoCode =>
    case Sym(s, rest) =>
      if s <= 29 {
        DistTables();
        DistRow(s);
        var extra := DEXT[s] % 16;
        if |rest| >= extra {
          ToBitsToInt(rest[..extra]);
        }
      }
  }

  /** The format's decoder goes by these readings. */
  lemma CodesReading(w: nat, last: bool, ll: seq<nat>, dl: seq<nat>, b: seq<bool>, o: seq<byte>)
    ensures Codes(w, last, ll, dl, b, o) ==
            var a := ReadingAt(ll, dl, b);
            if a.Short? then Starved(o)
            else if a.NoSuch? then Corrupt(o)
            else if a.Byte? then Codes(w, last, ll, dl, a.rest, o + [a.x])
            else if a.End? then Blocks(w, last, a.rest, o)
            else Match(w, last, ll, dl, a.len, a.dist, a.rest, o)
  {
    hide Blocks, Match, DistAt, Dist, ToInt, LBASE, LEXT, ReadSymbol;
    LenTables();
    match ReadSymbol(ll, b)
    case NeedMore =>
    case NoCode =>
    case Sym(s, rest) =>
      if 257 <= s <= 285 {
        var base, extra := LBASE[s - 257], LEXT[s - 257] % 16;
        assert Codes(w, last, ll, dl, b, o) == LenExt(w, last, ll, dl, base, extra, rest, o);
        if |rest| >= extra {
          DistBounds(dl, base + ToInt(rest[..extra]), rest[extra..]);
          DistReading(w, last, ll, dl, base + ToInt(rest[..extra]), rest[extra..], o);
        }
      }
  }

  lemma DistReading(w: nat, last: bool, ll: seq<nat>, dl: seq<nat>, len: nat, b: seq<bool>, o: seq<byte>)
    ensures Dist(w, last, ll, dl, len, b, o) ==
            var a := DistAt(dl, len, b);
            if a.String? then Match(w, last, ll, dl, len, a.dist, a.rest, o)
            else if a.Short? then Starved(o) else Corrupt(o)
  {
    hide Match, Codes, Blocks, ToInt, DBASE, DEXT, ReadSymbol;
    DistTables();
  }

  // ---------- bytes fetched ----------

  /** Two bytes, unless there are bits enough for any code. */
  function RefillBytes(h: int): nat {
    if h < 15 then 2 else 0
  }

  /** Bytes for n extra bits, when h bits are held. */
  function ExtraBytes(h: int, n: nat): nat {
    if h >= n then 0 else if h + 8 >= n then 1 else 2
  }

  ghost function DistFetched(dl: seq<nat>, b: seq<bool>, h: int): nat {
    var a, sym := RefillBytes(h), ReadSymbol(dl, b);
    if !sym.Sym? || DistOf(sym.s).BadDist? then a
    else a + ExtraBytes(h + 8 * a - (|b| - |sym.rest|), DistOf(sym.s).extra)
  }

  /** What inflate_fast fetches for what b begins with, when h bits are held. */
  ghost function Fetched(ll: seq<nat>, dl: seq<nat>, b: seq<bool>, h: int): nat {
    var a, sym := RefillBytes(h), ReadSymbol(ll, b);
    if !sym.Sym? || !LenOf(sym.s).Length? || |sym.rest| < LenOf(sym.s).extra then a
    else
      var extra, h1 := LenOf(sym.s).extra, h + 8 * a - (|b| - |sym.rest|);
      var c := ExtraBytes(h1, extra);
      a + c + DistFetched(dl, sym.rest[extra..], h1 + 8 * c - extra)
  }

  lemma DistShortOf(dl: seq<nat>, len: nat, b: seq<bool>)
    requires ReadSymbol(dl, b) == NeedMore
    ensures DistAt(dl, len, b) == Short
  {
  }

  /** What a distance code leads to. */
  lemma DistFound(dl: seq<nat>, len: nat, b: seq<bool>, c: DistCode, rest: seq<bool>, h: int)
    requires DistIs(ReadSymbol(dl, b), c, rest)
    ensures DistAt(dl, len, b) ==
            if c.BadDist? then NoSuch
            else if |rest| < c.extra then Short else String(len, c.base + ToInt(rest[..c.extra]), rest[c.extra..])
    ensures DistFetched(dl, b, h) ==
            var a := RefillBytes(h);
            if c.BadDist? then a else a + ExtraBytes(h + 8 * a - (|b| - |rest|), c.extra)
  {
    hide ReadSymbol, ToInt, DistOf;
  }

  /** What a literal/length code leads to. */
  lemma LenFound(ll: seq<nat>, dl: seq<nat>, b: seq<bool>, c: LenCode, rest: seq<bool>, h: int)
    requires LenIs(ReadSymbol(ll, b), c, rest)
    ensures ReadingAt(ll, dl, b) ==
            if c.Literal? then Byte(c.b, rest)
            else if c.EndOfBlock? then End(rest)
            else if c.BadLen? then NoSuch
            else if |rest| < c.extra then Short
            else DistAt(dl, c.base + ToInt(rest[..c.extra]), rest[c.extra..])
    ensures Fetched(ll, dl, b, h) ==
            var a := RefillBytes(h);
            if !c.Length? || |rest| < c.extra then a
            else
              var h1 := h + 8 * a - (|b| - |rest|);
              a + ExtraBytes(h1, c.extra) +
              DistFetched(dl, rest[c.extra..], h1 + 8 * ExtraBytes(h1, c.extra) - c.extra)
  {
    hide ReadSymbol, ToInt, LenOf, DistAt, DistFetched;
  }

  lemma ShortOf(ll: seq<nat>, dl: seq<nat>, b: seq<bool>)
    requires ReadSymbol(ll, b) == NeedMore
    ensures ReadingAt(ll, dl, b) == Short
  {
  }
}
