/**
 deflate_fast and deflate_slow: turning input into tokens.
 */
module Deflate {
  import opened Bits
  import opened DeflateHash
  import opened DeflateChains
  import opened DeflateMatch
  import opened DeflateWindow
  import opened Tokens

  const TOO_FAR := 4096

  // ---------- tokens ----------

  /** dist bytes before pos the data has the same len bytes as at pos, within the reach of a match. */
  ghost predicate MatchOk(c: Config, data: seq<byte>, pos: nat, dist: int, len: nat) {
    1 <= dist <= c.MaxDist() && dist <= pos && MIN_MATCH <= len <= MAX_MATCH && Repeats(data, pos, dist, len)
  }

  /** So it is, and not before the last full flush. */
  ghost predicate Near(c: Config, k: Known, pos: nat, dist: int, len: nat) {
    MatchOk(c, k.data, pos, dist, len) && dist <= pos - k.floor
  }

  /** Every string token is one that the format can express. */
  ghost predicate TokenOk(c: Config, t: Token) {
    t.Str? ==> MIN_MATCH <= t.len <= MAX_MATCH && 1 <= t.dist <= c.MaxDist()
  }

  /** The tokens stand for the first pos bytes. */
  ghost predicate Spells(c: Config, tokens: seq<Token>, data: seq<byte>, pos: nat) {
    pos <= |data| && Expand(tokens) == data[..pos] && Sane(tokens) && forall i :: 0 <= i < |tokens| ==>
        TokenOk(c, tokens[i])
  }

  lemma SpellsLit(c: Config, tokens: seq<Token>, data: seq<byte>, pos: nat)
    requires Spells(c, tokens, data, pos) && pos < |data|
    ensures Spells(c, tokens + [Lit(data[pos])], data, pos + 1)
  {
    ExpandNext(tokens, Lit(data[pos]));
    SaneNext(tokens, Lit(data[pos]));
    assert data[..pos + 1] == data[..pos] + [data[pos]];
  }

  lemma SpellsStr(c: Config, tokens: seq<Token>, data: seq<byte>, pos: nat, dist: nat, len: nat)
    requires Spells(c, tokens, data, pos) && MatchOk(c, data, pos, dist, len)
    ensures Spells(c, tokens + [Str(len, dist)], data, pos + len)
  {
    ExpandNext(tokens, Str(len, dist));
    SaneNext(tokens, Str(len, dist));
    CopyReproduces(data, pos, dist, len);
  }

  lemma SpellsMore(c: Config, tokens: seq<Token>, data: seq<byte>, data': seq<byte>, pos: nat)
    requires Spells(c, tokens, data, pos) && data <= data'
    ensures Spells(c, tokens, data', pos)
  {
    assert data'[..pos] == data[..pos];
  }

  /** The tokens stand for the first pos bytes, and those since the last full flush for the bytes since then. */
  ghost predicate Encodes(c: Config, tokens: seq<Token>, k: Known, pos: nat) {
    && Spells(c, tokens, k.data, pos) && k.cut <= |tokens| && k.floor <= pos
    && Spells(c, tokens[k.cut..], k.data[k.floor..], pos - k.floor)
  }

  lemma EncodesLit(c: Config, tokens: seq<Token>, k: Known, pos: nat)
    requires Encodes(c, tokens, k, pos) && pos < |k.data|
    ensures Encodes(c, tokens + [Lit(k.data[pos])], k, pos + 1)
  {
    hide Spells;
    SpellsIn(c, tokens, k.data, pos);
    SpellsLit(c, tokens, k.data, pos);
    SpellsLit(c, tokens[k.cut..], k.data[k.floor..], pos - k.floor);
    assert (tokens + [Lit(k.data[pos])])[k.cut..] == tokens[k.cut..] + [Lit(k.data[pos])];
  }

  lemma SpellsIn(c: Config, tokens: seq<Token>, data: seq<byte>, pos: nat)
    requires Spells(c, tokens, data, pos)
    ensures pos <= |data| && Expand(tokens) == data[..pos] && Sane(tokens)
  {
  }

  lemma EncodesStr(c: Config, tokens: seq<Token>, k: Known, pos: nat, dist: nat, len: nat)
    requires Encodes(c, tokens, k, pos) && Near(c, k, pos, dist, len)
    ensures Encodes(c, tokens + [Str(len, dist)], k, pos + len)
  {
    hide Spells;
    SpellsStr(c, tokens, k.data, pos, dist, len);
    SpellsIn(c, tokens, k.data, pos);
    MatchSince(c, k, pos, dist, len);
    SpellsStr(c, tokens[k.cut..], k.data[k.floor..], pos - k.floor, dist, len);
    assert (tokens + [Str(len, dist)])[k.cut..] == tokens[k.cut..] + [Str(len, dist)];
  }

  lemma MatchSince(c: Config, k: Known, pos: nat, dist: nat, len: nat)
    requires Near(c, k, pos, dist, len) && k.floor <= pos <= |k.data|
    ensures MatchOk(c, k.data[k.floor..], pos - k.floor, dist, len)
  {
    forall j | pos - k.floor <= j < pos - k.floor + len ensures k.data[k.floor..][j] == k.data[k.floor..][j - dist] {
      assert k.data[j + k.floor] == k.data[j + k.floor - dist];
    }
  }

  lemma EncodesMore(c: Config, tokens: seq<Token>, k: Known, k': Known, pos: nat)
    requires Encodes(c, tokens, k, pos) && k.data <= k'.data && k'.cut == k.cut && k'.floor == k.floor
    ensures Encodes(c, tokens, k', pos)
  {
    hide Spells;
    SpellsIn(c, tokens, k.data, pos);
    SpellsMore(c, tokens, k.data, k'.data, pos);
    SpellsMore(c, tokens[k.cut..], k.data[k.floor..], k'.data[k.floor..], pos - k.floor);
  }

  /** Other strings inserted, or the window elsewhere. */
  lemma EncodesSame(c: Config, tokens: seq<Token>, k: Known, k': Known, pos: nat)
    requires Encodes(c, tokens, k, pos) && k'.data == k.data && k'.cut == k.cut && k'.floor == k.floor
    ensures Encodes(c, tokens, k', pos)
  {
    hide Spells;
  }

  // ---------- finding a match ----------

  lemma FoundRepeats(win: seq<byte>, s: Cursor, k: Known, start: nat, b: nat, len: nat)
    requires Mirrors(win, s, k) && start < s.strstart && s.strstart + MAX_MATCH <= |win|
    requires Common(win, s.strstart, start, 0) == b && len <= b && len <= s.lookahead
    ensures Repeats(k.data, k.base + s.strstart, s.strstart - start, len) && k.floor <= k.base
  {
    hide Common;
    var n := s.Valid();
    forall i | 0 <= i < n ensures win[i] == k.data[k.base + i] {
      assert win[..n][i] == k.data[k.base..][i];
    }
    forall j | k.base + s.strstart <= j < k.base + s.strstart + len ensures k.data[j] ==
        k.data[j - (s.strstart - start)] {
      AgreeAt(win, s.strstart, start, b, j - k.base - s.strstart);
    }
  }

  function Limit(c: Config, s: Cursor): nat {
    if s.strstart > c.MaxDist() then s.strstart - c.MaxDist() else 0
  }

  function Chain(c: Config, prevLength: nat): nat {
    if prevLength >= c.goodMatch then c.maxChain / 4 else c.maxChain
  }

  function Nice(c: Config, s: Cursor): nat {
    if c.niceMatch > s.lookahead then s.lookahead else c.niceMatch
  }

  /**
   What the search for a match at strstart finds among the strings inserted: nothing if there is none with its hash that
   is near enough, and otherwise a length, which is no more than prevLength if there is no better one, and a place.
   */
  ghost function Search(c: Config, win: seq<byte>, s: Cursor, ins: set<nat>, prevLength: nat): Option<(nat, nat)>
    requires s.strstart + MAX_MATCH <= |win|
  {
    if s.lookahead < MIN_MATCH then None
    else
      var bits, at := c.hashBits, s.strstart;
      var h := Newest(bits, win, ins, HashAt(bits, win, at), at);
      NewestIs(bits, win, ins, HashAt(bits, win, at), at);
      if h == 0 || at - h > c.MaxDist() then None
      else
        var (b, m) := BestOf(bits, win, ins, at, Limit(c, s), Nice(c, s), h, Chain(c, prevLength), prevLength,
          s.matchStart);
        Some((if b <= s.lookahead then b else s.lookahead, m))
  }

  /** It may be done with the string at strstart already inserted. */
  lemma SearchIs(c: Config, win: seq<byte>, s: Cursor, ins: set<nat>, prevLength: nat, hashHead: nat)
    requires s.strstart + MAX_MATCH <= |win| && s.lookahead >= MIN_MATCH
    requires 0 < hashHead < s.strstart && s.strstart - hashHead <= c.MaxDist()
    requires hashHead == Newest(c.hashBits, win, ins, HashAt(c.hashBits, win, s.strstart), s.strstart)
    ensures var (b, m) := BestOf(c.hashBits, win, ins + {s.strstart}, s.strstart, Limit(c, s), Nice(c, s), hashHead,
              Chain(c, prevLength), prevLength, s.matchStart);
            Search(c, win, s, ins, prevLength) == Some((if b <= s.lookahead then b else s.lookahead, m))
  {
    hide BestOf, Newest, HashAt;
    BestBefore(c.hashBits, win, ins, s.strstart, s.strstart, Limit(c, s), Nice(c, s), hashHead, Chain(c, prevLength),
               prevLength, s.matchStart);
  }

  /** Anything longer than prevLength that the search finds is a match. */
  lemma FoundMatch(c: Config, win: seq<byte>, prev: seq<nat>, s: Cursor, prevLength: nat, hashHead: nat, k: Known,
        ins: set<nat>, b: nat, start: nat)
    requires c.Ok() && |prev| == c.wSize && Mirrors(win, s, k) && s.strstart + MAX_MATCH <= |win|
    requires PrevOk(c.hashBits, win, prev, ins, s.strstart + 1, s.Valid())
    requires hashHead in ins && hashHead < s.strstart && s.strstart - hashHead <= c.MaxDist() && prevLength >= 2
    requires (b, start) == Best(win, prev, s.strstart, Limit(c, s), Nice(c, s), hashHead, Chain(c, prevLength),
             prevLength, s.matchStart)
    ensures b >= prevLength
    ensures var len := if b <= s.lookahead then b else s.lookahead;
            len > prevLength ==> start < s.strstart && Near(c, k, k.base + s.strstart, s.strstart - start, len)
  {
    hide PrevOk, Best, Common, Mirrors, Repeats;
    BestSound(c.hashBits, win, prev, ins, s.strstart + 1, s.Valid(), s.strstart, Limit(c, s), Nice(c, s), hashHead,
              Chain(c, prevLength), prevLength, s.matchStart);
    BestLongest(win, prev, s.strstart, Limit(c, s), Nice(c, s), hashHead, Chain(c, prevLength), prevLength,
        s.matchStart, hashHead);
    var len := if b <= s.lookahead then b else s.lookahead;
    if len > prevLength {
      FoundRepeats(win, s, k, start, b, len);
    }
  }

  /** longest_match, called where there is a chain that is near enough. */
  method FindMatch(c: Config, window: array<byte>, prev: array<nat>, s: Cursor, prevLength: nat, hashHead: nat,
        ghost k: Known, ghost ins: set<nat>)
      returns (len: nat, start: nat)
    requires c.Ok() && window.Length == 2 * c.wSize && prev.Length == c.wSize && Mirrors(window[..], s, k)
    requires PrevOk(c.hashBits, window[..], prev[..], ins, s.strstart + 1, s.Valid()) && s.lookahead >= MIN_MATCH
    requires s.strstart + MIN_LOOKAHEAD <= 2 * c.wSize && 2 <= prevLength <= MAX_MATCH
    requires hashHead in ins && 0 < hashHead < s.strstart && s.strstart - hashHead <= c.MaxDist()
    requires HashAt(c.hashBits, window[..], hashHead) == HashAt(c.hashBits, window[..], s.strstart)
    ensures 2 <= len <= s.lookahead
    ensures len > prevLength ==> start < s.strstart && Near(c, k, k.base + s.strstart, s.strstart - start, len)
    ensures var (b, m) := BestOf(c.hashBits, window[..], ins, s.strstart, Limit(c, s), Nice(c, s), hashHead,
              Chain(c, prevLength), prevLength, s.matchStart);
            len == (if b <= s.lookahead then b else s.lookahead) && start == m
  {
    hide PrevOk, HashAt, Best, Near, BestOf;
    len, start := LongestMatch(window, prev, s.strstart, s.lookahead, c.MaxDist(), hashHead, c.maxChain, c.goodMatch,
                               c.niceMatch, prevLength, s.matchStart, c.hashBits, ins, s.Valid());
    ghost var (b, m) := Best(window[..], prev[..], s.strstart, Limit(c, s), Nice(c, s), hashHead, Chain(c, prevLength),
          prevLength, s.matchStart);
    FoundMatch(c, window[..], prev[..], s, prevLength, hashHead, k, ins, b, m);
    BestSame(c.hashBits, window[..], prev[..], ins, s.strstart + 1, s.Valid(), s.strstart, Limit(c, s), Nice(c, s),
             hashHead, Chain(c, prevLength), prevLength, s.matchStart);
  }

  // ---------- inserting strings ----------

  /** The strings inserted, none from front on, are in the chains, and the hash is ready for the string at at. */
  ghost predicate Ready3(c: Config, win: seq<byte>, head: seq<nat>, prev: seq<nat>, ins: set<nat>, front: nat,
        insH: nat, at: nat, n: nat) {
    && Sized(c, win, head, prev) && n <= |win| && Chains(c.hashBits, win, head, prev, ins, front, n)
    && front <= at && (front == 0 || front + 2 <= n)
    && (at + 2 <= n ==> Ready(c.hashBits, insH, win[at], win[at + 1]))
  }

  /** Inserts the strings from at on, up to before end. */
  method InsertRun(c: Config, window: array<byte>, head: array<nat>, prev: array<nat>, insH: nat, at: nat, end: nat,
                   ghost ins: set<nat>, ghost front: nat, ghost n: nat)
      returns (insH': nat, ghost ins': set<nat>, ghost front': nat)
    requires head != prev && Ready3(c, window[..], head[..], prev[..], ins, front, insH, at, n) && at <= end &&
             end + 2 <= n
    modifies head, prev
    ensures Ready3(c, window[..], head[..], prev[..], ins', front', insH', end, n) && ins' == ins + Span(at, end)
  {
    hide Chains, Ready, HashAt, Pow2;
    insH', ins', front' := insH, ins, front;
    var str := at;
    while str < end
      invariant at <= str <= end && Ready3(c, window[..], head[..], prev[..], ins', front', insH', str, n)
      invariant ins' == ins + Span(at, str)
    {
      var hashHead;
      insH', hashHead := InsertString(c, window, head, prev, str, insH', ins', front', n);
      ins', front' := ins' + {str}, str + 1;
      str := str + 1;
    }
  }

  lemma KeptReady(c: Config, win: seq<byte>, head: seq<nat>, prev: seq<nat>, s: Cursor, k: Known)
    requires Kept(c, win, head, prev, s, k) && s.lookahead >= MIN_MATCH
    ensures s.insert == 0 && Ready3(c, win, head, prev, k.ins, k.front, s.insH, s.strstart, s.Valid())
  {
    hide Chains, Ready, Pow2;
  }

  /** Moving on to t, for which the hash is ready or which has too little after it. */
  lemma ReadyKept(c: Config, win: seq<byte>, head: seq<nat>, prev: seq<nat>, s: Cursor, k: Known, t: Cursor,
        ins: set<nat>, front: nat, at: nat)
    requires Mirrors(win, s, k) && t.Valid() == s.Valid() && t.insert == 0 && at <= t.strstart
    requires Ready3(c, win, head, prev, ins, front, t.insH, at, s.Valid()) &&
             (t.lookahead >= MIN_MATCH ==> at == t.strstart)
    ensures Kept(c, win, head, prev, t, k.(ins := ins, front := front))
  {
    hide Chains, Ready, Pow2;
  }

  /** The beginning of a step: the string at strstart is inserted if there are three bytes of it. */
  method InsertHere(c: Config, window: array<byte>, head: array<nat>, prev: array<nat>, s: Cursor, ghost k: Known)
      returns (insH: nat, hashHead: nat, ghost ins: set<nat>, ghost front: nat)
    requires head != prev && Kept(c, window[..], head[..], prev[..], s, k)
    modifies head, prev
    ensures s.lookahead < MIN_MATCH ==>
      insH == s.insH && hashHead == 0 && ins == k.ins && front == k.front &&
          Kept(c, window[..], head[..], prev[..], s, k)
    ensures s.lookahead >= MIN_MATCH ==>
      s.insert == 0 && front == s.strstart + 1 &&
          Ready3(c, window[..], head[..], prev[..], ins, front, insH, s.strstart + 1, s.Valid())
    ensures hashHead != 0 ==>
      s.lookahead >= MIN_MATCH && s.Valid() <= window.Length && hashHead < s.strstart && hashHead in ins
    ensures hashHead != 0 ==> HashAt(c.hashBits, window[..], hashHead) == HashAt(c.hashBits, window[..], s.strstart)
    ensures s.lookahead >= MIN_MATCH ==>
      && ins == k.ins + {s.strstart} && s.strstart + 2 < window.Length
      && hashHead == Newest(c.hashBits, window[..], k.ins, HashAt(c.hashBits, window[..], s.strstart), s.strstart)
  {
    hide Chains, Ready, HashAt, Pow2, Kept, Newest;
    insH, hashHead, ins, front := s.insH, 0, k.ins, k.front;
    if s.lookahead >= MIN_MATCH {
      KeptReady(c, window[..], head[..], prev[..], s, k);
      InsertedBefore(c, window[..], head[..], prev[..], s, k);
      ChainsInserted(c, window[..], head[..], prev[..], k.ins, k.front, s.insH, s.strstart, s.Valid());
      insH, hashHead := InsertString(c, window, head, prev, s.strstart, s.insH, k.ins, k.front, s.Valid());
      ins, front := k.ins + {s.strstart}, s.strstart + 1;
      NewestSkip(c.hashBits, window[..], k.ins, HashAt(c.hashBits, window[..], s.strstart), k.front, s.strstart,
                 s.Valid());
    }
  }

  lemma ChainsInserted(c: Config, win: seq<byte>, head: seq<nat>, prev: seq<nat>, ins: set<nat>, front: nat, insH: nat,
        at: nat, n: nat)
    requires Ready3(c, win, head, prev, ins, front, insH, at, n)
    ensures Inserted(ins, front, n) && front <= at
  {
  }

  lemma InsertedBefore(c: Config, win: seq<byte>, head: seq<nat>, prev: seq<nat>, s: Cursor, k: Known)
    requires Kept(c, win, head, prev, s, k)
    ensures s.Valid() <= |win| && forall p :: p in k.ins ==> p < s.strstart && p + 2 < |win|
  {
  }

  // ---------- deflate_fast ----------

  /** Between the steps of deflate_fast. */
  ghost predicate FastOk(c: Config, s: Cursor, k: Known) {
    Encodes(c, s.tokens, k, k.base + s.strstart) && s.prevLength == 2 && s.matchLength < MIN_MATCH &&
        !s.matchAvailable
  }

  /** What deflate_fast goes by: a length, and a place for a length of three or more. */
  ghost function FastFound(c: Config, win: seq<byte>, s: Cursor, ins: set<nat>): (nat, nat)
    requires s.strstart + MAX_MATCH <= |win|
  {
    var f := Search(c, win, s, ins, 2);
    if f.Some? then f.value else (s.matchLength, 0)
  }

  /** The strings that a match adds, if it is short enough and not at the end of the input. */
  ghost function FastSpan(c: Config, s: Cursor, len: nat): set<nat> {
    Span(s.strstart + 1, if len <= c.maxLazy && s.lookahead - len >= MIN_MATCH then s.strstart + len else 0)
  }

  /** The string at strstart, if there are three bytes of it. */
  ghost function Here(s: Cursor): set<nat> {
    if s.lookahead >= MIN_MATCH then {s.strstart} else {}
  }

  /** A step of deflate_fast: a match, just if one of three bytes or more was found, or else the byte. */
  ghost predicate FastStepped(c: Config, win: seq<byte>, s: Cursor, k: Known, s': Cursor, k': Known)
    requires s.strstart + MAX_MATCH <= |win|
  {
    var (len, start) := FastFound(c, win, s, k.ins);
    if len >= MIN_MATCH then
      && start < s.strstart && s'.tokens == s.tokens + [Str(len, s.strstart - start)]
      && s'.strstart == s.strstart + len && s'.matchLength == 0 && k'.ins == k.ins + Here(s) + FastSpan(c, s, len)
    else
      && s'.tokens == s.tokens + [Lit(win[s.strstart])]
      && s'.strstart == s.strstart + 1 && s'.matchLength == len && k'.ins == k.ins + Here(s)
  }

  /** Past a byte that begins no string. */
  lemma KeptShort(c: Config, win: seq<byte>, head: seq<nat>, prev: seq<nat>, s: Cursor, k: Known, t: Cursor)
    requires Kept(c, win, head, prev, s, k) && 0 < s.lookahead < MIN_MATCH
    requires t.strstart == s.strstart + 1 && t.lookahead == s.lookahead - 1 && t.insert == s.insert
    ensures Kept(c, win, head, prev, t, k)
  {
    hide Chains, Ready, Pow2;
  }

  lemma MirrorsAt(win: seq<byte>, s: Cursor, k: Known, i: nat)
    requires Mirrors(win, s, k) && i < s.Valid()
    ensures win[i] == k.data[k.base + i]
  {
    assert win[..s.Valid()][i] == k.data[k.base..][i];
  }

  /** A literal: the byte at strstart. */
  method EmitLiteral(c: Config, window: array<byte>, s: Cursor, ghost k: Known, ghost pos: nat, at: nat)
      returns (s': Cursor)
    requires Mirrors(window[..], s, k) && at < s.Valid() && pos == k.base + at && Encodes(c, s.tokens, k, pos)
    ensures s' == s.(tokens := s.tokens + [Lit(window[at])], symNext := s.symNext + 1)
    ensures Encodes(c, s'.tokens, k, pos + 1)
  {
    hide Encodes;
    MirrorsAt(window[..], s, k, at);
    EncodesLit(c, s.tokens, k, pos);
    s' := s.(tokens := s.tokens + [Lit(window[at])], symNext := s.symNext + 1);
  }

  /** What a step keeps: the input and the place of the window in it; and it moves on. */
  ghost predicate Onward(s: Cursor, k: Known, s': Cursor, k': Known) {
    && s'.Valid() == s.Valid() && s'.input == s.input && s.strstart < s'.strstart <= s.strstart + MAX_MATCH
    && k'.data == k.data && k'.base == k.base && k'.floor == k.floor && k'.cut == k.cut && Added(s, s')
  }

  /** At most one token more. */
  ghost predicate Added(s: Cursor, s': Cursor) {
    s.tokens <= s'.tokens && |s'.tokens| - s'.symNext == |s.tokens| - s.symNext &&
        s.symNext <= s'.symNext <= s.symNext + 1
  }

  /** After a match: its strings are inserted if it is short enough, or else the hash is begun anew. */
  method FastMatch(c: Config, window: array<byte>, head: array<nat>, prev: array<nat>, s: Cursor, insH: nat, len: nat,
        start: nat,
                   ghost k: Known, ghost ins: set<nat>, ghost front: nat)
      returns (s': Cursor, ghost k': Known)
    requires head != prev && Ready3(c, window[..], head[..], prev[..], ins, front, insH, s.strstart + 1, s.Valid())
    requires Mirrors(window[..], s, k) && s.insert == 0 && s.lookahead >= MIN_MATCH && FastOk(c, s, k)
    requires s.strstart + MIN_LOOKAHEAD <= 2 * c.wSize && len <= s.lookahead
    requires start < s.strstart && Near(c, k, k.base + s.strstart, s.strstart - start, len)
    modifies head, prev
    ensures Kept(c, window[..], head[..], prev[..], s', k') && FastOk(c, s', k') && Onward(s, k, s', k')
    ensures s'.tokens == s.tokens + [Str(len, s.strstart - start)] && s'.strstart == s.strstart + len
    ensures s'.matchLength == 0 && k'.ins == ins + FastSpan(c, s, len)
  {
    hide Chains, Ready, HashAt, Pow2, Kept, Encodes, Repeats, Update;
    EncodesStr(c, s.tokens, k, k.base + s.strstart, s.strstart - start, len);
    s' := s.(tokens := s.tokens + [Str(len, s.strstart - start)], symNext := s.symNext + 1,
        matchStart := start % 0x1_0000_0000,
             matchLength := 0, lookahead := s.lookahead - len, strstart := s.strstart + len);
    var h;
    ghost var ins', front' := ins, front;
    if len <= c.maxLazy && s'.lookahead >= MIN_MATCH {
      h, ins', front' := InsertRun(c, window, head, prev, insH, s.strstart + 1, s'.strstart, ins, front, s.Valid());
    } else {
      h := Update(c.hashBits, window[s'.strstart], window[s'.strstart + 1]);
      ReadyAfterTwo(c.hashBits, window[s'.strstart], window[s'.strstart + 1]);
    }
    s' := s'.(insH := h);
    ReadyKept(c, window[..], head[..], prev[..], s, k, s', ins', front', s'.strstart);
    k' := k.(ins := ins', front := front');
    EncodesSame(c, s'.tokens, k, k', k.base + s'.strstart);
  }

  /** The search of deflate_fast. */
  method FastSearch(c: Config, window: array<byte>, head: array<nat>, prev: array<nat>, s: Cursor, insH: nat,
        hashHead: nat, ghost k: Known, ghost ins: set<nat>, ghost front: nat)
      returns (len: nat, start: nat)
    requires c.Ok() && window.Length == 2 * c.wSize && prev.Length == c.wSize && Mirrors(window[..], s, k)
    requires s.strstart + MIN_LOOKAHEAD <= 2 * c.wSize && s.matchLength < MIN_MATCH
    requires hashHead != 0 ==> s.lookahead >= MIN_MATCH && hashHead < s.strstart && hashHead in ins
    requires s.lookahead < MIN_MATCH ==> hashHead == 0
    requires s.lookahead >= MIN_MATCH ==>
      && ins == k.ins + {s.strstart} && front == s.strstart + 1
      && Ready3(c, window[..], head[..], prev[..], ins, front, insH, s.strstart + 1, s.Valid())
      && hashHead == Newest(c.hashBits, window[..], k.ins, HashAt(c.hashBits, window[..], s.strstart), s.strstart)
    requires hashHead != 0 ==> HashAt(c.hashBits, window[..], hashHead) == HashAt(c.hashBits, window[..], s.strstart)
    ensures (len, start) == FastFound(c, window[..], s, k.ins)
    ensures len >= MIN_MATCH ==>
      && s.lookahead >= MIN_MATCH && start < s.strstart && len <= s.lookahead
      && Near(c, k, k.base + s.strstart, s.strstart - start, len)
  {
    hide Ready3, HashAt, Pow2, Near, Mirrors, Search, BestOf, Newest;
    len, start := s.matchLength, 0;
    if s.lookahead >= MIN_MATCH && hashHead != 0 && s.strstart - hashHead <= c.MaxDist() {
      ChainsParts(c, window[..], head[..], prev[..], ins, front, insH, s.strstart + 1, s.Valid());
      MirrorsSize(window[..], s, k);
      len, start := FindMatch(c, window, prev, s, 2, hashHead, k, ins);
      SearchIs(c, window[..], s, k.ins, 2, hashHead);
    } else {
      NoSearch(c, window[..], s, k.ins, 2, hashHead);
    }
  }

  lemma MirrorsSize(win: seq<byte>, s: Cursor, k: Known)
    requires Mirrors(win, s, k)
    ensures s.Valid() <= |win|
  {
  }

  lemma NoSearch(c: Config, win: seq<byte>, s: Cursor, ins: set<nat>, prevLength: nat, hashHead: nat)
    requires s.strstart + MAX_MATCH <= |win|
    requires s.lookahead >= MIN_MATCH ==>
      && hashHead == Newest(c.hashBits, win, ins, HashAt(c.hashBits, win, s.strstart), s.strstart)
      && (hashHead == 0 || s.strstart - hashHead > c.MaxDist())
    ensures Search(c, win, s, ins, prevLength) == None
  {
    hide BestOf, Newest, HashAt;
  }

  /** One step of deflate_fast: a match if there is one, else a literal. */
  method FastStep(c: Config, window: array<byte>, head: array<nat>, prev: array<nat>, s: Cursor, ghost k: Known)
      returns (s': Cursor, ghost k': Known)
    requires head != prev && Kept(c, window[..], head[..], prev[..], s, k) && FastOk(c, s, k)
    requires s.lookahead > 0 && s.strstart + MIN_LOOKAHEAD <= 2 * c.wSize
    modifies head, prev
    ensures Kept(c, window[..], head[..], prev[..], s', k') && FastOk(c, s', k') && Onward(s, k, s', k')
    ensures s.strstart + MAX_MATCH <= window.Length && FastStepped(c, window[..], s, k, s', k')
  {
    hide Chains, Ready, HashAt, Pow2, Kept, Encodes, Near, Mirrors, Search, FastSpan;
    KeptParts(c, window[..], head[..], prev[..], s, k);
    var insH, hashHead, ins, front := InsertHere(c, window, head, prev, s, k);
    var len, start := FastSearch(c, window, head, prev, s, insH, hashHead, k, ins, front);
    if len >= MIN_MATCH {
      s', k' := FastMatch(c, window, head, prev, s, insH, len, start, k, ins, front);
    } else {
      s' := EmitLiteral(c, window, s, k, k.base + s.strstart, s.strstart);
      s' := s'.(strstart := s.strstart + 1, lookahead := s.lookahead - 1, insH := insH, matchLength := len);
      k' := k.(ins := ins, front := front);
      EncodesSame(c, s'.tokens, k, k', k.base + s'.strstart);
      if s.lookahead < MIN_MATCH {
        KeptShort(c, window[..], head[..], prev[..], s, k, s');
      } else {
        ReadyKept(c, window[..], head[..], prev[..], s, k, s', ins, front, s.strstart + 1);
      }
    }
  }

  lemma KeptParts(c: Config, win: seq<byte>, head: seq<nat>, prev: seq<nat>, s: Cursor, k: Known)
    requires Kept(c, win, head, prev, s, k)
    ensures c.Ok() && |win| == 2 * c.wSize && |prev| == c.wSize && Mirrors(win, s, k) && s.Valid() <= |win|
  {
  }

  lemma ChainsParts(c: Config, win: seq<byte>, head: seq<nat>, prev: seq<nat>, ins: set<nat>, front: nat, insH: nat,
        at: nat, n: nat)
    requires Ready3(c, win, head, prev, ins, front, insH, at, n)
    ensures PrevOk(c.hashBits, win, prev, ins, front, n)
  {
  }

  // ---------- deflate_slow ----------

  /**
   The distance of the match that is pending, if there is one: in 32 bits, which a slide of the window does not disturb.
   */
  function PendingDist(strstart: nat, matchStart: u32): nat {
    (strstart - 1 - matchStart) % 0x1_0000_0000
  }

  /**
   Between the steps of deflate_slow: with matchAvailable the byte before strstart, or a match that begins there, is
   still to be emitted.
   */
  ghost predicate SlowOk(c: Config, s: Cursor, k: Known) {
    && 2 <= s.matchLength <= MAX_MATCH && c.MaxDist() < 0x1_0000_0000
    && if s.matchAvailable then
         && k.base + s.strstart >= 1 && s.strstart >= 1 && Encodes(c, s.tokens, k, k.base + s.strstart - 1)
         && (s.matchLength >= MIN_MATCH ==>
               s.matchLength <= s.lookahead + 1 &&
               Near(c, k, k.base + s.strstart - 1, PendingDist(s.strstart, s.matchStart), s.matchLength))
       else s.matchLength == 2 && Encodes(c, s.tokens, k, k.base + s.strstart)
  }

  lemma Dist32(strstart: nat, start: nat, maxDist: nat)
    requires start < strstart && strstart - start <= maxDist < 0x1_0000_0000
    ensures PendingDist(strstart + 1, start % 0x1_0000_0000) == strstart - start
  {
    var q := start / 0x1_0000_0000;
    Around(strstart - start, q);
  }

  /** The previous match is emitted, and the strings in it inserted but for the last two of the input. */
  method EmitPrevious(c: Config, window: array<byte>, head: array<nat>, prev: array<nat>, s: Cursor, insH: nat,
                      ghost k: Known, ghost ins: set<nat>, ghost front: nat)
      returns (s': Cursor, ghost k': Known)
    requires head != prev && Mirrors(window[..], s, k) && SlowOk(c, s, k) && s.matchAvailable &&
             s.matchLength >= MIN_MATCH
    requires s.lookahead >= MIN_MATCH ==>
      s.insert == 0 && Ready3(c, window[..], head[..], prev[..], ins, front, insH, s.strstart + 1, s.Valid())
    requires s.lookahead < MIN_MATCH ==> Kept(c, window[..], head[..], prev[..], s, k)
    modifies head, prev
    ensures Kept(c, window[..], head[..], prev[..], s', k') && SlowOk(c, s', k') && Onward(s, k, s', k')
    ensures PendingEmitted(s, if s.lookahead >= MIN_MATCH then ins else k.ins, s', k')
  {
    hide Chains, Ready, HashAt, Pow2, Kept, Encodes, Repeats, PendingDist;
    var dist := PendingDist(s.strstart, s.matchStart);
    var n := s.matchLength - 1;
    EncodesStr(c, s.tokens, k, k.base + s.strstart - 1, dist, s.matchLength);
    var maxInsert := s.strstart + s.lookahead - MIN_MATCH;
    s' := s.(tokens := s.tokens + [Str(s.matchLength, dist)], symNext := s.symNext + 1, lookahead := s.lookahead - n,
             strstart := s.strstart + n, matchAvailable := false, matchLength := 2, prevLength := 0, insH := insH);
    if s.lookahead >= MIN_MATCH {
      var end := if s'.strstart <= maxInsert + 1 then s'.strstart else maxInsert + 1;
      var h, ins', front' := InsertRun(c, window, head, prev, insH, s.strstart + 1, end, ins, front, s.Valid());
      s' := s'.(insH := h);
      ReadyKept(c, window[..], head[..], prev[..], s, k, s', ins', front', end);
      k' := k.(ins := ins', front := front');
      EncodesSame(c, s'.tokens, k, k', k.base + s'.strstart);
    } else {
      KeptEnd(c, window[..], head[..], prev[..], s, k, s');
      k' := k;
    }
  }

  /** At the end of the input there is nothing more to insert. */
  lemma KeptEnd(c: Config, win: seq<byte>, head: seq<nat>, prev: seq<nat>, s: Cursor, k: Known, t: Cursor)
    requires Kept(c, win, head, prev, s, k) && s.lookahead < MIN_MATCH
    requires t.Valid() == s.Valid() && t.strstart >= s.strstart && t.insert == s.insert
    ensures Kept(c, win, head, prev, t, k)
  {
    hide Chains, Ready, Pow2;
  }

  /**
   What deflate_slow goes by: the length found, and where, if the pending match is not good enough already; short
   matches are not worth it with Z_FILTERED, nor one of three bytes from too far back.
   */
  ghost function SlowFound(c: Config, win: seq<byte>, s: Cursor, ins: set<nat>): (nat, u32)
    requires s.strstart + MAX_MATCH <= |win|
  {
    var f := if s.matchLength < c.maxLazy then Search(c, win, s, ins, s.matchLength) else None;
    if f.None? then (2, s.matchStart)
    else
      var (len, at) := f.value;
      var short := len <= 5 && (c.filtered || (len == MIN_MATCH && (s.strstart - at) % 0x1_0000_0000 > TOO_FAR));
      (if short then 2 else len, at % 0x1_0000_0000)
  }

  /** A match of three bytes is taken up to 4096 back, and with Z_FILTERED none of less than six. */
  lemma ShortMatches(c: Config, win: seq<byte>, s: Cursor, ins: set<nat>, len: nat, at: nat)
    requires s.strstart + MAX_MATCH <= |win| && s.matchLength < c.maxLazy && at < s.strstart < 0x1_0000_0000
    requires Search(c, win, s, ins, s.matchLength) == Some((len, at)) && len >= 3
    ensures SlowFound(c, win, s, ins) ==
            (if (c.filtered && len < 6) || (len == 3 && s.strstart > at + 4096) then 2 else len, at)
  {
    hide Search;
  }

  /** A match goes no further back than the window without what is kept for the lookahead. */
  lemma FarthestBack(c: Config)
    ensures c.MaxDist() == c.wSize - (258 + 3 + 1)
  {
  }

  /** The pending match is emitted just if there is one and nothing longer was found. */
  ghost predicate EmitsPending(c: Config, win: seq<byte>, s: Cursor, k: Known)
    requires s.strstart + MAX_MATCH <= |win|
  {
    s.matchAvailable && s.matchLength >= MIN_MATCH && SlowFound(c, win, s, k.ins).0 <= s.matchLength
  }

  /** The pending match is emitted, and the strings in it inserted but for the last two of the input. */
  ghost predicate PendingEmitted(s: Cursor, ins: set<nat>, s': Cursor, k': Known) {
    && s'.tokens == s.tokens + [Str(s.matchLength, PendingDist(s.strstart, s.matchStart))]
    && s'.strstart == s.strstart + s.matchLength - 1 && !s'.matchAvailable && s'.matchLength == 2
    && k'.ins == ins + Span(s.strstart + 1, if s'.strstart <= s.Valid() - 2 then s'.strstart else s.Valid() - 2)
  }

  /** A step of deflate_slow: the pending match, or the byte before strstart if it is held, or nothing yet. */
  ghost predicate SlowStepped(c: Config, win: seq<byte>, s: Cursor, k: Known, s': Cursor, k': Known)
    requires 0 < s.strstart + MAX_MATCH <= |win| && (s.matchAvailable ==> s.strstart > 0)
  {
    if EmitsPending(c, win, s, k) then PendingEmitted(s, k.ins + Here(s), s', k')
    else
      && s'.tokens == s.tokens + (if s.matchAvailable then [Lit(win[s.strstart - 1])] else [])
      && s'.strstart == s.strstart + 1 && s'.matchAvailable
      && (s'.matchLength, s'.matchStart) == SlowFound(c, win, s, k.ins) && k'.ins == k.ins + Here(s)
  }

  /** The search of deflate_slow: a match longer than the previous one, unless it is not worth it. */
  method SlowSearch(c: Config, window: array<byte>, head: array<nat>, prev: array<nat>, s: Cursor, insH: nat,
        hashHead: nat, ghost k: Known, ghost ins: set<nat>, ghost front: nat)
      returns (len: nat, start: u32)
    requires c.Ok() && window.Length == 2 * c.wSize && prev.Length == c.wSize && Mirrors(window[..], s, k) &&
             SlowOk(c, s, k)
    requires s.strstart + MIN_LOOKAHEAD <= 2 * c.wSize
    requires hashHead != 0 ==> s.lookahead >= MIN_MATCH && hashHead < s.strstart && hashHead in ins
    requires s.lookahead >= MIN_MATCH ==>
      && ins == k.ins + {s.strstart} && front == s.strstart + 1
      && Ready3(c, window[..], head[..], prev[..], ins, front, insH, s.strstart + 1, s.Valid())
      && hashHead == Newest(c.hashBits, window[..], k.ins, HashAt(c.hashBits, window[..], s.strstart), s.strstart)
    requires hashHead != 0 ==> HashAt(c.hashBits, window[..], hashHead) == HashAt(c.hashBits, window[..], s.strstart)
    ensures (len, start) == SlowFound(c, window[..], s, k.ins) && 2 <= len <= MAX_MATCH
    ensures len > s.matchLength ==>
      len <= s.lookahead && Near(c, k, k.base + s.strstart, PendingDist(s.strstart + 1, start), len)
  {
    hide Ready3, HashAt, Encodes, Repeats, PendingDist, Mirrors, Search, BestOf, Newest;
    len, start := 2, s.matchStart;
    if s.lookahead >= MIN_MATCH && hashHead != 0 && s.matchLength < c.maxLazy && s.strstart - hashHead <= c.MaxDist() {
      ChainsParts(c, window[..], head[..], prev[..], ins, front, insH, s.strstart + 1, s.Valid());
      MirrorsSize(window[..], s, k);
      var at;
      len, at := FindMatch(c, window, prev, s, s.matchLength, hashHead, k, ins);
      SearchIs(c, window[..], s, k.ins, s.matchLength, hashHead);
      start := at % 0x1_0000_0000;
      if len > s.matchLength {
        Dist32(s.strstart, at, c.MaxDist());
      }
      if len <= 5 && (c.filtered || (len == MIN_MATCH && (s.strstart - at) % 0x1_0000_0000 > TOO_FAR)) {
        len := 2;
      }
    } else if s.matchLength < c.maxLazy {
      NoSearch(c, window[..], s, k.ins, s.matchLength, hashHead);
    }
  }

  /** One step of deflate_slow: the previous match, or a literal, or nothing yet. */
  method SlowStep(c: Config, window: array<byte>, head: array<nat>, prev: array<nat>, s: Cursor, ghost k: Known)
      returns (s': Cursor, ghost k': Known)
    requires head != prev && Kept(c, window[..], head[..], prev[..], s, k) && SlowOk(c, s, k)
    requires s.lookahead > 0 && s.strstart + MIN_LOOKAHEAD <= 2 * c.wSize
    modifies head, prev
    ensures Kept(c, window[..], head[..], prev[..], s', k') && SlowOk(c, s', k') && Onward(s, k, s', k')
    ensures s.strstart + MAX_MATCH <= window.Length && (s.matchAvailable ==> s.strstart > 0)
    ensures SlowStepped(c, window[..], s, k, s', k')
  {
    hide Chains, Ready, HashAt, Pow2, Kept, Encodes, Near, Mirrors, PendingDist, SlowFound;
    KeptParts(c, window[..], head[..], prev[..], s, k);
    var insH, hashHead, ins, front := InsertHere(c, window, head, prev, s, k);
    var len, start := SlowSearch(c, window, head, prev, s, insH, hashHead, k, ins, front);
    if s.matchLength >= MIN_MATCH && len <= s.matchLength {
      s', k' := EmitPrevious(c, window, head, prev, s, insH, k, ins, front);
    } else {
      s' := s;
      if s.matchAvailable {
        s' := EmitLiteral(c, window, s, k, k.base + s.strstart - 1, s.strstart - 1);
      }
      s' := s'.(strstart := s.strstart + 1, lookahead := s.lookahead - 1, insH := insH, matchAvailable := true,
                prevLength := s.matchLength, prevMatch := s.matchStart, matchLength := len, matchStart := start);
      k' := k.(ins := ins, front := front);
      EncodesSame(c, s'.tokens, k, k', k.base + s.strstart);
      if len >= MIN_MATCH {
        NearMore(c, k, k', k.base + s.strstart, PendingDist(s.strstart + 1, start), len);
      }
      if s.lookahead < MIN_MATCH {
        KeptShort(c, window[..], head[..], prev[..], s, k, s');
      } else {
        ReadyKept(c, window[..], head[..], prev[..], s, k, s', ins, front, s.strstart + 1);
      }
    }
  }

  // ---------- the loops ----------

  datatype Flush = NO_FLUSH | PARTIAL_FLUSH | SYNC_FLUSH | FULL_FLUSH | FINISH | BLOCK

  datatype Ret = OK | STREAM_END | STREAM_ERROR | BUF_ERROR

  datatype BlockState = NeedMore | BlockDone | FinishStarted | FinishDone

  lemma FastAdvanced(c: Config, s: Cursor, k: Known, s': Cursor, k': Known)
    requires FastOk(c, s, k) && Advanced(s, k, s', k')
    ensures FastOk(c, s', k')
  {
    hide Encodes;
    EncodesMore(c, s.tokens, k, k', k.base + s.strstart);
  }

  lemma NearMore(c: Config, k: Known, k': Known, pos: nat, dist: int, len: nat)
    requires Near(c, k, pos, dist, len) && k.data <= k'.data && k'.floor == k.floor
    ensures Near(c, k', pos, dist, len)
  {
  }

  lemma DistSlides(strstart: nat, matchStart: u32, d: nat)
    requires d <= strstart
    ensures PendingDist(strstart - d, Sub32(matchStart, d)) == PendingDist(strstart, matchStart)
  {
    var q := (matchStart - d) / 0x1_0000_0000;
    Around(strstart - 1 - matchStart, q);
  }

  lemma SlowAdvanced(c: Config, s: Cursor, k: Known, s': Cursor, k': Known)
    requires SlowOk(c, s, k) && Advanced(s, k, s', k') && (s.strstart >= 1 ==> s'.strstart >= 1) &&
             s'.lookahead >= s.lookahead
    ensures SlowOk(c, s', k')
  {
    hide Encodes, Near, PendingDist, Sub32;
    if s.matchAvailable {
      EncodesMore(c, s.tokens, k, k', k.base + s.strstart - 1);
      DistSlides(s.strstart, s.matchStart, k'.base - k.base);
      if s.matchLength >= MIN_MATCH {
        NearMore(c, k, k', k.base + s.strstart - 1, PendingDist(s.strstart, s.matchStart), s.matchLength);
      }
    } else {
      EncodesMore(c, s.tokens, k, k', k.base + s.strstart);
    }
  }

  lemma StartKept(c: Config, win: seq<byte>, head: seq<nat>, prev: seq<nat>, s: Cursor, data: seq<byte>, cut: nat)
    requires Sized(c, win, head, prev) && (forall h :: 0 <= h < |head| ==> head[h] == 0)
    requires s.strstart == 0 && s.lookahead == 0 && s.insert == 0
    ensures Kept(c, win, head, prev, s, Known(data, |data|, {}, 0, |data|, cut))
  {
    hide HashAt, Pow2;
    assert win[..0] == data[|data|..];
  }

  /** At the end of the input the last two strings are left to be inserted when there is more. */
  lemma KeptInsert(c: Config, win: seq<byte>, head: seq<nat>, prev: seq<nat>, s: Cursor, k: Known, insert: nat)
    requires Kept(c, win, head, prev, s, k) && s.lookahead == 0 && insert == if s.strstart < 2 then s.strstart else 2
    ensures Kept(c, win, head, prev, s.(insert := insert), k)
  {
    hide Chains, Pow2;
  }

  lemma KeptOther(c: Config, win: seq<byte>, head: seq<nat>, prev: seq<nat>, s: Cursor, k: Known, t: Cursor)
    requires Kept(c, win, head, prev, s, k)
    requires t.strstart == s.strstart && t.lookahead == s.lookahead && t.insert == s.insert && t.insH == s.insH
    ensures Kept(c, win, head, prev, t, k)
  {
    hide Chains, Pow2, Ready;
  }

  /** Reading input takes from what is to come what it adds to what is here. */
  lemma SameTotal(s: Cursor, k: Known, s': Cursor, k': Known)
    requires Advanced(s, k, s', k') && |k.data| == k.base + s.Valid() && |k'.data| == k'.base + s'.Valid()
    ensures s'.lookahead + |s'.input| == s.lookahead + |s.input|
  {
  }

  /** With enough lookahead there is room to search without another look at the window. */
  lemma RoomToSearch(c: Config, win: seq<byte>, head: seq<nat>, prev: seq<nat>, s: Cursor, k: Known)
    requires Kept(c, win, head, prev, s, k) && s.lookahead >= MIN_LOOKAHEAD
    ensures s.strstart + MIN_LOOKAHEAD <= 2 * c.wSize
  {
  }

  lemma FastAll(c: Config, win: seq<byte>, head: seq<nat>, prev: seq<nat>, s: Cursor, k: Known)
    requires Kept(c, win, head, prev, s, k) && FastOk(c, s, k) && s.lookahead == 0
    ensures Expand(s.tokens) == k.data
  {
    assert k.data[..k.base + s.strstart] == k.data;
  }
}
