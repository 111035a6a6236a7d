/**
 The header of a dynamic block: whether it opens a block, and with which codes (section 3.2.7 of RFC 1951).
 */
module Openings {
  import opened Bits
  import opened Canonical
  import opened TableSpec
  import opened Rfc1951

  datatype Opening =
    | Unready                                                 // the bits end too early
    | Refusal                                                 // no such block
    | Opened(ll: seq<nat>, dl: seq<nat>, rest: seq<bool>)

  ghost function OpenTables(nlen: nat, lens: seq<nat>, b: seq<bool>): Opening {
    if nlen < 257 || |lens| < nlen then Refusal
    else
      var ll, dl := lens[..nlen], lens[nlen..];
      if ll[256] == 0 || !ValidLens(lens) || Refused(LENS, ll) || Refused(DISTS, dl) then Refusal
      else Opened(ll, dl, b)
  }

  /** The rest of the code lengths, lens being those read. */
  ghost function OpenLens(nlen: nat, ndist: nat, cl: seq<nat>, lens: seq<nat>, b: seq<bool>): Opening
    decreases |b|
  {
    if |lens| >= nlen + ndist then OpenTables(nlen, lens, b)
    else
      var sym := ReadSymbol(cl, b);
      if sym.NeedMore? then Unready
      else if sym.NoCode? then OpenLens(nlen, ndist, cl, lens + [0], b[1..])
      else if sym.s < 16 then OpenLens(nlen, ndist, cl, lens + [sym.s], sym.rest)
      else if |sym.rest| < RepeatBits(sym.s) then Unready
      else
        var n := RepeatBase(sym.s) + ToInt(sym.rest[..RepeatBits(sym.s)]);
        if (sym.s == 16 && lens == []) || |lens| + n > nlen + ndist then Refusal
        else
          var x := if sym.s == 16 then lens[|lens| - 1] else 0;
          OpenLens(nlen, ndist, cl, lens + Repeat(x, n), sym.rest[RepeatBits(sym.s)..])
  }

  /** The rest of the code length code lengths, got being those read. */
  ghost function OpenLenLens(nlen: nat, ndist: nat, ncode: nat, got: seq<nat>, b: seq<bool>): Opening
    decreases |b|
  {
    if |got| >= ncode then
      var cl := Placed(got);
      if !ValidLens(cl) || Refused(CODES, cl) then Refusal else OpenLens(nlen, ndist, cl, [], b)
    else if |b| < 3 then Unready
    else OpenLenLens(nlen, ndist, ncode, got + [ToInt(b[..3])], b[3..])
  }

  ghost function Open(b: seq<bool>): Opening {
    if |b| < 14 then Unready
    else
      var nlen, ndist, ncode := ToInt(b[..5]) + 257, ToInt(b[5..10]) + 1, ToInt(b[10..14]) + 4;
      if nlen > 286 || ndist > 30 then Refusal else OpenLenLens(nlen, ndist, ncode, [], b[14..])
  }

  /** What is left to decode after a header. */
  ghost function AfterOpening(a: Opening, w: nat, last: bool, o: seq<byte>): Outcome {
    if a.Unready? then Starved(o) else if a.Refusal? then Corrupt(o) else Codes(w, last, a.ll, a.dl, a.rest, o)
  }

  /** The format's decoder goes by these openings. */
  lemma DynamicOpens(w: nat, last: bool, b: seq<bool>, o: seq<byte>)
    ensures Dynamic(w, last, b, o) == AfterOpening(Open(b), w, last, o)
    ensures Open(b).Opened? ==> |Open(b).rest| < |b|
  {
    hide OpenLenLens, CodeLenLens, ToInt;
    if |b| >= 14 {
      var nlen, ndist, ncode := ToInt(b[..5]) + 257, ToInt(b[5..10]) + 1, ToInt(b[10..14]) + 4;
      LenLensOpens(w, last, nlen, ndist, ncode, [], b[14..], o);
    }
  }

  lemma {:induction false} LenLensOpens(w: nat, last: bool, nlen: nat, ndist: nat, ncode: nat, got: seq<nat>,
        b: seq<bool>, o: seq<byte>)
    ensures CodeLenLens(w, last, nlen, ndist, ncode, got, b, o) ==
            AfterOpening(OpenLenLens(nlen, ndist, ncode, got, b), w, last, o)
    ensures var a := OpenLenLens(nlen, ndist, ncode, got, b); a.Opened? ==> |a.rest| <= |b|
    decreases |b|
  {
    hide OpenLens, CodeLens, ToInt, Placed, Refused, ValidLens;
    if |got| >= ncode {
      LensOpen(w, last, nlen, ndist, Placed(got), [], b, o);
    } else if |b| >= 3 {
      LenLensOpens(w, last, nlen, ndist, ncode, got + [ToInt(b[..3])], b[3..], o);
    }
  }

  lemma {:induction false} LensOpen(w: nat, last: bool, nlen: nat, ndist: nat, cl: seq<nat>, lens: seq<nat>,
        b: seq<bool>, o: seq<byte>)
    ensures CodeLens(w, last, nlen, ndist, cl, lens, b, o) ==
            AfterOpening(OpenLens(nlen, ndist, cl, lens, b), w, last, o)
    ensures var a := OpenLens(nlen, ndist, cl, lens, b); a.Opened? ==> |a.rest| <= |b|
    decreases |b|
  {
    hide OpenTables, Tables, ToInt, Repeat, RepeatBits, RepeatBase, ReadSymbol, Codes;
    if |lens| >= nlen + ndist {
      TablesOpen(w, last, nlen, lens, b, o);
    } else {
      var sym := ReadSymbol(cl, b);
      if sym.NoCode? {
        LensOpen(w, last, nlen, ndist, cl, lens + [0], b[1..], o);
      } else if sym.Sym? && sym.s < 16 {
        LensOpen(w, last, nlen, ndist, cl, lens + [sym.s], sym.rest, o);
      } else if sym.Sym? && |sym.rest| >= RepeatBits(sym.s) && !(sym.s == 16 && lens == []) {
        var n := RepeatBase(sym.s) + ToInt(sym.rest[..RepeatBits(sym.s)]);
        var x := if sym.s == 16 then lens[|lens| - 1] else 0;
        LensOpen(w, last, nlen, ndist, cl, lens + Repeat(x, n), sym.rest[RepeatBits(sym.s)..], o);
      }
    }
  }

  lemma TablesOpen(w: nat, last: bool, nlen: nat, lens: seq<nat>, b: seq<bool>, o: seq<byte>)
    ensures Tables(w, last, nlen, lens, b, o) == AfterOpening(OpenTables(nlen, lens, b), w, last, o)
    ensures OpenTables(nlen, lens, b).Opened? ==> OpenTables(nlen, lens, b).rest == b
  {
    hide Codes, Refused, ValidLens;
  }
}
