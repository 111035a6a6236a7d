/**
 The sliding window of deflate: reading input into it, moving it down, and inserting strings.
 */
module DeflateWindow {
  import opened Bits
  import opened DeflateHash
  import opened DeflateChains
  import opened DeflateMatch
  import opened Tokens
  import opened InputSums

  /** What deflateInit2 and the level fix. */
  datatype Config = Config(wSize: nat, hashBits: nat, maxChain: nat, goodMatch: nat, niceMatch: nat, maxLazy: nat,
                           filtered: bool, fixed: bool, symEnd: nat, wrap: nat)
  {
    predicate Ok() {
      512 <= wSize <= 32768 && hashBits >= 8 && 127 <= symEnd <= 32767 && wrap <= 2
    }

    function MaxDist(): int {
      wSize - MIN_LOOKAHEAD
    }
  }

  /** The rest of the state but for the tables; input is what the caller has yet to give. */
  datatype Cursor = Cursor(strstart: nat, lookahead: nat, insert: nat, insH: nat, matchStart: u32, prevMatch: u32,
                           matchLength: nat, prevLength: nat, matchAvailable: bool, input: seq<byte>,
                           tokens: seq<Token>, symNext: nat)
  {
    function Valid(): nat {
      strstart + lookahead
    }
  }

  /**
   What a proof remembers: all input read, how much of it has left the window, the strings inserted, and the end of
   these; and how much data, and how many tokens, there were at the last full flush.
   */
  datatype Known = Known(data: seq<byte>, base: nat, ins: set<nat>, front: nat, floor: nat, cut: nat)

  /** The window has the end of the data, none of it from before the last full flush. */
  ghost predicate Mirrors(win: seq<byte>, s: Cursor, k: Known) {
    s.Valid() <= |win| && |k.data| == k.base + s.Valid() && win[..s.Valid()] == k.data[k.base..] && k.floor <= k.base
  }

  /** The hash is ready for the string at strstart. */
  ghost predicate HashReady(c: Config, win: seq<byte>, s: Cursor) {
    s.lookahead >= MIN_MATCH && s.Valid() <= |win| ==> Ready(c.hashBits, s.insH, win[s.strstart], win[s.strstart + 1])
  }

  ghost predicate Sized(c: Config, win: seq<byte>, head: seq<nat>, prev: seq<nat>) {
    c.Ok() && |win| == 2 * c.wSize && |prev| == c.wSize && |head| == Pow2(c.hashBits)
  }

  ghost predicate InsertedOk(c: Config, win: seq<byte>, head: seq<nat>, prev: seq<nat>, s: Cursor, k: Known) {
    && Chains(c.hashBits, win, head, prev, k.ins, k.front, s.Valid())
    && k.front <= s.strstart - s.insert && (k.front == 0 || k.front + 2 <= s.Valid())
  }

  /** Strings are inserted in order, and all but the last few that have too little after them. */
  ghost predicate Kept(c: Config, win: seq<byte>, head: seq<nat>, prev: seq<nat>, s: Cursor, k: Known) {
    && Sized(c, win, head, prev) && Mirrors(win, s, k)
    && s.insert <= s.strstart && (s.insert == 0 || s.lookahead + s.insert < MIN_MATCH)
    && InsertedOk(c, win, head, prev, s, k) && HashReady(c, win, s)
  }

  // ---------- inserting ----------

  /** INSERT_STRING: returns the new hash and the string that was at the head of the chain. */
  method InsertString(c: Config, window: array<byte>, head: array<nat>, prev: array<nat>, str: nat, insH: nat,
                      ghost ins: set<nat>, ghost e: nat, ghost n: nat)
      returns (insH': nat, hashHead: nat)
    requires c.Ok() && head != prev && prev.Length == c.wSize
    requires Chains(c.hashBits, window[..], head[..], prev[..], ins, e, n) && e <= str && str + 3 <= n <= window.Length
    requires Ready(c.hashBits, insH, window[str], window[str + 1])
    modifies head, prev
    ensures Chains(c.hashBits, window[..], head[..], prev[..], ins + {str}, str + 1, n)
    ensures Ready(c.hashBits, insH', window[str + 1], window[str + 2])
    ensures hashHead != 0 ==>
      hashHead in ins && HashAt(c.hashBits, window[..], hashHead) == HashAt(c.hashBits, window[..], str)
    ensures hashHead == Newest(c.hashBits, window[..], ins, HashAt(c.hashBits, window[..], str), e)
  {
    hide Update, Hash, Ready, Place, PrevOk, Inserted, Pow2;
    ReadyHash(c.hashBits, insH, window[str], window[str + 1], window[str + 2]);
    ChainsInsert(c.hashBits, window[..], head[..], prev[..], ins, e, n, str);
    insH' := Update(c.hashBits, insH, window[str + 2]);
    hashHead := head[insH'];
    NewestIs(c.hashBits, window[..], ins, insH', e);
    ghost var heads: seq<nat>, links: seq<nat> := head[..], prev[..];
    prev[Place(str, c.wSize)] := hashHead;
    head[insH'] := str;
    assert head[..] == heads[insH' := str];
    assert prev[..] == links[Place(str, c.wSize) := heads[insH']];
  }

  // ---------- sliding ----------

  /** slide_hash, one table. */
  method SlideTable(table: array<nat>, wSize: nat)
    modifies table
    ensures table[..] == SlidAll(old(table[..]), wSize)
  {
    ghost var was := table[..];
    var n := table.Length;
    while n > 0
      invariant 0 <= n <= table.Length
      invariant forall i :: 0 <= i < n ==> table[i] == was[i]
      invariant forall i :: n <= i < table.Length ==> table[i] == Slid(was[i], wSize)
    {
      n := n - 1;
      var m := table[n];
      table[n] := if m >= wSize then m - wSize else 0;
    }
  }

  /** a - b in 32 bits */
  function Sub32(a: u32, b: nat): u32 {
    (a - b) % 0x1_0000_0000
  }

  /** Moves the upper half of the window down. */
  method MoveDown(window: array<byte>, wSize: nat, n: nat)
    requires window.Length == 2 * wSize && wSize <= n <= window.Length
    modifies window
    ensures Moved(old(window[..]), window[..], wSize, n)
  {
    forall i | 0 <= i < n - wSize {
      window[i] := window[i + wSize];
    }
  }

  ghost function SlidKnown(k: Known, w: nat): Known {
    Known(k.data, k.base + w, SlidSet(k.ins, w), Slid(k.front, w), k.floor, k.cut)
  }

  function SlidCursor(s: Cursor, w: nat): Cursor
    requires s.strstart >= w
  {
    s.(strstart := s.strstart - w, matchStart := Sub32(s.matchStart, w),
       insert := if s.insert > s.strstart - w then s.strstart - w else s.insert)
  }

  lemma MirrorsSlide(win: seq<byte>, win': seq<byte>, s: Cursor, k: Known, w: nat)
    requires Mirrors(win, s, k) && Moved(win, win', w, s.Valid()) && w <= s.strstart && |win'| == |win|
    ensures Mirrors(win', SlidCursor(s, w), SlidKnown(k, w))
  {
    var n, s', k' := s.Valid(), SlidCursor(s, w), SlidKnown(k, w);
    forall i | 0 <= i < n - w ensures win'[i] == k'.data[k'.base..][i] {
      assert win[..n][i + w] == k.data[k.base..][i + w];
    }
    assert win'[..n - w] == k'.data[k'.base..];
  }

  lemma KeptSlide(c: Config, win: seq<byte>, win': seq<byte>, head: seq<nat>, prev: seq<nat>, s: Cursor, k: Known)
    requires Kept(c, win, head, prev, s, k) && s.strstart >= c.wSize + c.MaxDist() &&
             Moved(win, win', c.wSize, s.Valid()) && |win'| == |win|
    ensures Kept(c, win', SlidAll(head, c.wSize), SlidAll(prev, c.wSize), SlidCursor(s, c.wSize), SlidKnown(k, c.wSize))
  {
    hide Chains, Ready, Pow2;
    var front := if k.front < c.wSize then c.wSize else k.front;
    ChainsMore(c.hashBits, win, win, head, prev, k.ins, k.front, front, s.Valid(), s.Valid());
    ChainsSlide(c.hashBits, win, win', head, prev, k.ins, front, s.Valid());
    MirrorsSlide(win, win', s, k, c.wSize);
    var i := s.strstart - c.wSize;
    if s.lookahead >= MIN_MATCH {
      assert win'[i] == win[s.strstart] && win'[i + 1] == win[s.strstart + 1];
    }
  }

  /** The window, with both tables, moved down by its size. */
  method Slide(c: Config, window: array<byte>, head: array<nat>, prev: array<nat>, s: Cursor, ghost k: Known)
      returns (s': Cursor)
    requires head != prev && Kept(c, window[..], head[..], prev[..], s, k) && s.strstart >= c.wSize + c.MaxDist()
    modifies window, head, prev
    ensures s' == SlidCursor(s, c.wSize) && Kept(c, window[..], head[..], prev[..], s', SlidKnown(k, c.wSize))
  {
    hide Kept, Pow2, SlidAll, Moved;
    KeptSizes(c, window[..], head[..], prev[..], s, k);
    ghost var win, heads, links := window[..], head[..], prev[..];
    MoveDown(window, c.wSize, s.Valid());
    SlideTable(head, c.wSize);
    SlideTable(prev, c.wSize);
    s' := SlidCursor(s, c.wSize);
    KeptSlide(c, win, window[..], heads, links, s, k);
  }

  // ---------- reading ----------

  /** read_buf */
  method ReadBuf(window: array<byte>, at: nat, input: seq<byte>, size: nat) returns (n: nat)
    requires at + size <= window.Length
    modifies window
    ensures n == if |input| > size then size else |input|
    ensures window[..] == old(window[..at]) + input[..n] + old(window[at + n..])
  {
    n := |input|;
    if n > size {
      n := size;
    }
    forall i | 0 <= i < n {
      window[at + i] := input[i];
    }
  }

  /** What holds before the hash is brought up to date with new input. */
  ghost predicate Held(c: Config, win: seq<byte>, head: seq<nat>, prev: seq<nat>, s: Cursor, k: Known) {
    && Sized(c, win, head, prev) && Mirrors(win, s, k) && s.insert <= s.strstart && InsertedOk(c, win, head, prev, s, k)
  }

  /** The strings from at on, up to before end. */
  ghost function Span(at: nat, end: int): set<nat>
    decreases end
  {
    if end <= at then {} else Span(at, end - 1) + {end - 1}
  }

  lemma SpanOne(at: nat, end: nat)
    requires at <= end
    ensures Span(at, end + 1) == Span(at, end) + {end}
  {
  }

  lemma SpanNone(at: nat)
    ensures Span(at, at) == {}
  {
  }

  /** As much of the input as there is room for. */
  function Fitting(c: Config, s: Cursor): int {
    if |s.input| > 2 * c.wSize - s.Valid() then 2 * c.wSize - s.Valid() else |s.input|
  }

  /** How many of the strings that could not be inserted yet still cannot. */
  function StillLeft(lookahead: nat, insert: nat): (left: nat)
    ensures left <= insert
  {
    if lookahead + insert < MIN_MATCH then insert else if lookahead >= 2 then 0 else 2 - lookahead
  }

  /** The window takes what input fits, and the sums go on over it. */
  method ReadInput(c: Config, window: array<byte>, head: array<nat>, prev: array<nat>, s: Cursor, t: Sums,
        ghost k: Known)
      returns (s': Cursor, t': Sums, ghost k': Known)
    requires Held(c, window[..], head[..], prev[..], s, k) && s.Valid() < 2 * c.wSize && s.input != []
    requires t == SumsOf(c.wrap, k.data)
    modifies window
    ensures Held(c, window[..], head[..], prev[..], s', k')
    ensures t' == SumsOf(c.wrap, k'.data)
    ensures var m := Fitting(c, s);
            s' == s.(lookahead := s.lookahead + m, input := s.input[m..]) && k' == k.(data := k.data + s.input[..m])
  {
    hide Chains, Pow2, SumsOf, Counted;
    ghost var win := window[..];
    var more := 2 * c.wSize - s.lookahead - s.strstart;
    var n := ReadBuf(window, s.Valid(), s.input, more);
    s' := s.(lookahead := s.lookahead + n, input := s.input[n..]);
    t' := Counted(c.wrap, t, s.input[..n]);
    k' := k.(data := k.data + s.input[..n]);
    CountedMore(c.wrap, k.data, s.input[..n]);
    assert window[..][..s.Valid()] == win[..s.Valid()];
    assert window[..][..s'.Valid()] == win[..s.Valid()] + s.input[..n];
    assert k'.data[k.base..] == k.data[k.base..] + s.input[..n];
    ChainsMore(c.hashBits, win, window[..], head[..], prev[..], k.ins, k.front, k.front, s.Valid(), s'.Valid());
  }

  lemma ReadyAfterTwo(bits: nat, x: byte, y: byte)
    ensures Ready(bits, Update(bits, x, y), x, y)
  {
  }

  /** Initialises the hash and inserts the strings that had too little after them before. */
  method Rehash(c: Config, window: array<byte>, head: array<nat>, prev: array<nat>, s: Cursor, ghost k: Known)
      returns (s': Cursor, ghost k': Known)
    requires head != prev && Held(c, window[..], head[..], prev[..], s, k)
    modifies head, prev
    ensures Kept(c, window[..], head[..], prev[..], s', k')
    ensures s' == s.(insH := s'.insH, insert := StillLeft(s.lookahead, s.insert))
    ensures s.insert <= s.strstart && k' == k.(ins := k'.ins, front := k'.front) &&
            k'.ins == k.ins + Span(s.strstart - s.insert, s.strstart - s'.insert)
  {
    hide Chains, Pow2, Ready, Update, HashAt, Span, Newest;
    s', k' := s, k;
    SpanNone(s.strstart - s.insert);
    if s.lookahead + s.insert >= MIN_MATCH {
      var str: nat := s.strstart - s.insert;
      var insH := Update(c.hashBits, window[str], window[str + 1]);
      ReadyAfterTwo(c.hashBits, window[str], window[str + 1]);
      var insert: nat := s.insert;
      while insert > 0
        invariant insert <= s.insert && str == s.strstart - insert && s.lookahead + insert >= MIN_MATCH
        invariant Chains(c.hashBits, window[..], head[..], prev[..], k'.ins, k'.front, s.Valid()) && k'.front <= str
        invariant k' == k.(ins := k'.ins, front := k'.front) && (k'.front == 0 || k'.front + 2 <= s.Valid())
        invariant k'.ins == k.ins + Span(s.strstart - s.insert, str)
        invariant Ready(c.hashBits, insH, window[str], window[str + 1])
      {
        var hashHead;
        insH, hashHead := InsertString(c, window, head, prev, str, insH, k'.ins, k'.front, s.Valid());
        k' := k'.(ins := k'.ins + {str}, front := str + 1);
        SpanOne(s.strstart - s.insert, str);
        str := str + 1;
        insert := insert - 1;
        if s.lookahead + insert < MIN_MATCH {
          break;
        }
      }
      s' := s.(insH := insH, insert := insert);
    }
  }

  // ---------- fill_window ----------

  /** The same place in the data, with more of it read. */
  ghost predicate Advanced(s: Cursor, k: Known, s': Cursor, k': Known) {
    && |s'.input| <= |s.input| && s'.input == s.input[|s.input| - |s'.input|..]
    && k'.data == k.data + s.input[..|s.input| - |s'.input|]
    && k.base <= k'.base && k'.base + s'.strstart == k.base + s.strstart && k'.floor == k.floor && k'.cut == k.cut
    && s'.matchStart == Sub32(s.matchStart, k'.base - k.base)
    && s' == s.(strstart := s'.strstart, lookahead := s'.lookahead, insert := s'.insert, insH := s'.insH,
                matchStart := s'.matchStart, input := s'.input)
  }

  lemma AdvancedTrans(s: Cursor, k: Known, t: Cursor, l: Known, u: Cursor, m: Known)
    requires Advanced(s, k, t, l) && Advanced(t, l, u, m)
    ensures Advanced(s, k, u, m)
  {
    hide Sub32;
    Sub32Twice(s.matchStart, l.base - k.base, m.base - l.base);
    var a, b := |s.input| - |t.input|, |t.input| - |u.input|;
    assert s.input[..a + b] == s.input[..a] + s.input[a..][..b];
    assert s.input[a..][b..] == s.input[a + b..];
  }

  lemma Sub32Twice(a: u32, b: nat, c: nat)
    ensures Sub32(Sub32(a, b), c) == Sub32(a, b + c)
  {
    var q := (a - b) / 0x1_0000_0000;
    Around(a - b - c, -q);
  }

  lemma Around(x: int, q: int)
    ensures (x + q * 0x1_0000_0000) % 0x1_0000_0000 == x % 0x1_0000_0000
  {
  }

  lemma AdvancedSlide(s: Cursor, k: Known, w: nat)
    requires w <= s.strstart
    ensures Advanced(s, k, SlidCursor(s, w), SlidKnown(k, w))
  {
  }

  lemma Sub32None(a: u32)
    ensures Sub32(a, 0) == a
  {
  }

  /**
   What fill_window does once: the window slides just if strstart is within MAX_DIST of its end, takes what fits, and
   the strings left over are inserted that have three bytes now.
   */
  ghost predicate FilledOnce(c: Config, s: Cursor, k: Known, s': Cursor, k': Known)
    requires c.Ok()
  {
    var slides := s.strstart >= c.wSize + c.MaxDist();
    var t, l := if slides then SlidCursor(s, c.wSize) else s, if slides then SlidKnown(k, c.wSize) else k;
    if s.input == [] then s' == t && k' == l else ReadMore(c, t, l, s', k')
  }

  /** Input is read, and the strings left over are inserted that have three bytes now. */
  ghost predicate ReadMore(c: Config, s: Cursor, k: Known, s': Cursor, k': Known) {
    var m := Fitting(c, s);
    && 0 <= m <= |s.input| && s.insert <= s.strstart && s'.insert <= s.strstart
    && s' == s.(lookahead := s.lookahead + m, input := s.input[m..], insH := s'.insH,
                insert := StillLeft(s.lookahead + m, s.insert))
    && k' == k.(data := k.data + s.input[..m], front := k'.front,
                ins := k.ins + Span(s.strstart - s.insert, s.strstart - s'.insert))
  }

  /** The part of fill_window that reads. */
  method ReadOn(c: Config, window: array<byte>, head: array<nat>, prev: array<nat>, s: Cursor, t: Sums, ghost k: Known)
      returns (s': Cursor, t': Sums, ghost k': Known)
    requires head != prev && Kept(c, window[..], head[..], prev[..], s, k) && s.Valid() < 2 * c.wSize && s.input != []
    requires t == SumsOf(c.wrap, k.data)
    modifies window, head, prev
    ensures t' == SumsOf(c.wrap, k'.data)
    ensures Kept(c, window[..], head[..], prev[..], s', k') && Advanced(s, k, s', k')
    ensures s'.lookahead >= s.lookahead && s'.strstart == s.strstart && |s'.input| < |s.input|
    ensures ReadMore(c, s, k, s', k')
  {
    hide Kept, Chains, Pow2, HashReady, Held, Mirrors, Advanced, SumsOf, Span, StillLeft;
    KeptHeld(c, window[..], head[..], prev[..], s, k);
    s', t', k' := ReadInput(c, window, head, prev, s, t, k);
    s', k' := Rehash(c, window, head, prev, s', k');
    AdvancedRead(s, k, s', k');
  }

  /** One pass of fill_window: slides if need be, and reads if there is input. */
  method FillOnce(c: Config, window: array<byte>, head: array<nat>, prev: array<nat>, s: Cursor, t: Sums,
        ghost k: Known)
      returns (s': Cursor, t': Sums, ghost k': Known)
    requires head != prev && Kept(c, window[..], head[..], prev[..], s, k) && s.lookahead < MIN_LOOKAHEAD
    requires t == SumsOf(c.wrap, k.data)
    modifies window, head, prev
    ensures t' == SumsOf(c.wrap, k'.data)
    ensures Kept(c, window[..], head[..], prev[..], s', k') && Advanced(s, k, s', k')
    ensures s'.strstart + MIN_LOOKAHEAD <= 2 * c.wSize
    ensures s'.lookahead >= s.lookahead && (s.strstart >= 1 ==> s'.strstart >= 1)
    ensures s.input != [] ==> |s'.input| < |s.input|
    ensures s.input == [] ==> s'.lookahead == s.lookahead
    ensures c.Ok() && FilledOnce(c, s, k, s', k')
  {
    hide Kept, Chains, Pow2, HashReady, Held, Mirrors, Advanced, SumsOf, ReadMore;
    s', t', k' := s, t, k;
    KeptSizes(c, window[..], head[..], prev[..], s, k);
    AdvancedNone(s, k);
    if s.strstart >= c.wSize + c.MaxDist() {
      s' := Slide(c, window, head, prev, s, k);
      k' := SlidKnown(k, c.wSize);
      AdvancedSlide(s, k, c.wSize);
    }
    if s'.input != [] {
      ghost var s0, l := s', k';
      s', t', k' := ReadOn(c, window, head, prev, s', t', k');
      AdvancedTrans(s, k, s0, l, s', k');
    }
  }

  lemma AdvancedNone(s: Cursor, k: Known)
    ensures Advanced(s, k, s, k)
  {
    Sub32None(s.matchStart);
  }

  /** fill_window: at least MIN_LOOKAHEAD bytes ahead, or all the input read; and room to search. */
  method FillWindow(c: Config, window: array<byte>, head: array<nat>, prev: array<nat>, s: Cursor, t: Sums,
        ghost k: Known)
      returns (s': Cursor, t': Sums, ghost k': Known)
    requires head != prev && Kept(c, window[..], head[..], prev[..], s, k) && s.lookahead < MIN_LOOKAHEAD
    requires t == SumsOf(c.wrap, k.data)
    modifies window, head, prev
    ensures t' == SumsOf(c.wrap, k'.data)
    ensures Kept(c, window[..], head[..], prev[..], s', k') && Advanced(s, k, s', k')
    ensures s'.lookahead >= MIN_LOOKAHEAD || s'.input == []
    ensures s'.strstart + MIN_LOOKAHEAD <= 2 * c.wSize
    ensures s'.lookahead >= s.lookahead && (s.strstart >= 1 ==> s'.strstart >= 1)
  {
    hide Kept, Advanced, SumsOf;
    s', t', k' := FillOnce(c, window, head, prev, s, t, k);
    while s'.lookahead < MIN_LOOKAHEAD && s'.input != []
      invariant Kept(c, window[..], head[..], prev[..], s', k') && Advanced(s, k, s', k')
      invariant t' == SumsOf(c.wrap, k'.data)
      invariant s'.strstart + MIN_LOOKAHEAD <= 2 * c.wSize
      invariant s'.lookahead >= s.lookahead && (s.strstart >= 1 ==> s'.strstart >= 1)
      decreases |s'.input|
    {
      ghost var s0, l := s', k';
      s', t', k' := FillOnce(c, window, head, prev, s', t', k');
      AdvancedTrans(s, k, s0, l, s', k');
    }
  }

  lemma AdvancedRead(t: Cursor, l: Known, s: Cursor, k: Known)
    requires |s.input| <= |t.input| && k.base == l.base && k.floor == l.floor && k.cut == l.cut
    requires var m := |t.input| - |s.input|;
             s == t.(lookahead := t.lookahead + m, input := t.input[m..], insH := s.insH, insert := s.insert) &&
             k.data == l.data + t.input[..m]
    ensures Advanced(t, l, s, k)
  {
    Sub32None(t.matchStart);
  }

  lemma KeptSizes(c: Config, win: seq<byte>, head: seq<nat>, prev: seq<nat>, s: Cursor, k: Known)
    requires Kept(c, win, head, prev, s, k)
    ensures c.Ok() && s.Valid() <= 2 * c.wSize == |win| && |prev| == c.wSize && |head| == Pow2(c.hashBits)
  {
  }

  lemma KeptHeld(c: Config, win: seq<byte>, head: seq<nat>, prev: seq<nat>, s: Cursor, k: Known)
    requires Kept(c, win, head, prev, s, k)
    ensures Held(c, win, head, prev, s, k)
  {
  }
}
