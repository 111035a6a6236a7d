/**
 longest_match: the search along a hash chain.
 */
module DeflateMatch {
  import opened Bits
  import opened DeflateHash
  import opened DeflateChains

  const MIN_MATCH := 3
  const MAX_MATCH := 258
  const MIN_LOOKAHEAD := 262

  // ---------- the simple search ----------

  /** The strings at s and m agree from their j-th to before their k-th byte. */
  ghost predicate Agree(win: seq<byte>, s: nat, m: nat, j: nat, k: nat) {
    m <= s && s + k <= |win| && forall i :: s + j <= i < s + k ==> win[i] == win[i - s + m]
  }

  /** How far the strings at s and m agree, from their k-th byte on and up to MAX_MATCH. */
  function Common(win: seq<byte>, s: nat, m: nat, k: nat): (r: nat)
    requires m <= s && s + MAX_MATCH <= |win| && k <= MAX_MATCH
    ensures k <= r <= MAX_MATCH && (r == MAX_MATCH || win[s + r] != win[m + r])
    ensures Agree(win, s, m, k, r)
    decreases MAX_MATCH - k
  {
    if k == MAX_MATCH || win[s + k] != win[m + k] then k else Common(win, s, m, k + 1)
  }

  /** --chain_length, which wraps around at zero. */
  function Less(chain: nat): nat {
    if chain == 0 then 0xffff_ffff else chain - 1
  }

  /** From cur back along the chain, the first string that agrees with the one at s for longest, and for how long. */
  function Best(win: seq<byte>, prev: seq<nat>, s: nat, limit: nat, nice: nat, cur: nat, chain: nat, best: nat,
        start: nat): (nat, nat)
    requires cur < s && s + MAX_MATCH <= |win| && |prev| > 0
    decreases cur
  {
    var len := Common(win, s, cur, 0);
    var next := prev[Place(cur, |prev|)];
    if len > best && len >= nice then (len, cur)
    else
      var (best', start') := if len > best then (len, cur) else (best, start);
      if limit < next < cur && Less(chain) != 0 then
        Best(win, prev, s, limit, nice, next, Less(chain), best', start')
      else (best', start')
  }

  /** On a good chain the search goes no further back than the limit, and finds what it says. */
  lemma {:induction false} BestSound(bits: nat, win: seq<byte>, prev: seq<nat>, ins: set<nat>, e: nat, n: nat,
                                     s: nat, limit: nat, nice: nat, cur: nat, chain: nat, best: nat, start: nat)
    requires PrevOk(bits, win, prev, ins, e, n) && cur in ins && cur < s && s + MAX_MATCH <= |win| &&
             limit + |prev| >= e
    ensures var (b, m) := Best(win, prev, s, limit, nice, cur, chain, best, start);
            (b, m) == (best, start) || (b > best && m < s && (m > limit || m == cur) && Common(win, s, m, 0) == b)
    decreases cur
  {
    hide Common, Place, HashAt;
    var len := Common(win, s, cur, 0);
    var next := prev[Place(cur, |prev|)];
    if !(len > best && len >= nice) && limit < next < cur && Less(chain) != 0 {
      if cur + |prev| >= e {
        LinkFacts(bits, win, next, ins, cur, n);
        if len > best {
          BestSound(bits, win, prev, ins, e, n, s, limit, nice, next, Less(chain), len, cur);
        } else {
          BestSound(bits, win, prev, ins, e, n, s, limit, nice, next, Less(chain), best, start);
        }
      }
    }
  }

  /** The strings the search may look at. */
  function Visited(prev: seq<nat>, limit: nat, cur: nat, chain: nat): seq<nat>
    requires |prev| > 0
    decreases cur
  {
    var next := prev[Place(cur, |prev|)];
    [cur] + if limit < next < cur && Less(chain) != 0 then Visited(prev, limit, next, Less(chain)) else []
  }

  /** No string it may look at agrees for longer, unless the match found was good enough to stop. */
  lemma {:induction false} BestLongest(win: seq<byte>, prev: seq<nat>, s: nat, limit: nat, nice: nat, cur: nat,
        chain: nat,
                                       best: nat, start: nat, c: nat)
    requires cur < s && s + MAX_MATCH <= |win| && |prev| > 0
    ensures var (b, m) := Best(win, prev, s, limit, nice, cur, chain, best, start);
            b >= best && ((b >= nice && b > best) ||
                (c in Visited(prev, limit, cur, chain) && c < s ==> Common(win, s, c, 0) <= b))
    decreases cur
  {
    hide Common, Place;
    var len := Common(win, s, cur, 0);
    var next := prev[Place(cur, |prev|)];
    if !(len > best && len >= nice) && limit < next < cur && Less(chain) != 0 {
      if len > best {
        BestLongest(win, prev, s, limit, nice, next, Less(chain), len, cur, c);
      } else {
        BestLongest(win, prev, s, limit, nice, next, Less(chain), best, start, c);
      }
    }
  }

  // ---------- the same, without the tables ----------

  /** The search among the strings that were inserted, from cur back, through those with its hash. */
  ghost function BestOf(bits: nat, win: seq<byte>, ins: set<nat>, s: nat, limit: nat, nice: nat, cur: nat, chain: nat,
        best: nat, start: nat): (nat, nat)
    requires cur < s && s + MAX_MATCH <= |win|
    decreases cur
  {
    var len := Common(win, s, cur, 0);
    var next := Newest(bits, win, ins, HashAt(bits, win, cur), cur);
    if len > best && len >= nice then (len, cur)
    else
      var (best', start') := if len > best then (len, cur) else (best, start);
      if limit < next < cur && Less(chain) != 0 then
        BestOf(bits, win, ins, s, limit, nice, next, Less(chain), best', start')
      else (best', start')
  }

  /** The links lead along just these. */
  lemma {:induction false} BestSame(bits: nat, win: seq<byte>, prev: seq<nat>, ins: set<nat>, e: nat, n: nat, s: nat,
        limit: nat, nice: nat, cur: nat, chain: nat, best: nat, start: nat)
    requires PrevOk(bits, win, prev, ins, e, n) && cur in ins && cur < s && s + MAX_MATCH <= |win|
    requires limit + |prev| >= e && cur + |prev| >= e
    ensures Best(win, prev, s, limit, nice, cur, chain, best, start) ==
            BestOf(bits, win, ins, s, limit, nice, cur, chain, best, start)
    decreases cur
  {
    hide Common, Place, HashAt, Newest;
    var len := Common(win, s, cur, 0);
    var next := prev[Place(cur, |prev|)];
    LinkFacts(bits, win, next, ins, cur, n);
    if !(len > best && len >= nice) && limit < next < cur && Less(chain) != 0 {
      if len > best {
        BestSame(bits, win, prev, ins, e, n, s, limit, nice, next, Less(chain), len, cur);
      } else {
        BestSame(bits, win, prev, ins, e, n, s, limit, nice, next, Less(chain), best, start);
      }
    }
  }

  /** One string more, at s or later, does not matter. */
  lemma {:induction false} BestBefore(bits: nat, win: seq<byte>, ins: set<nat>, str: nat, s: nat, limit: nat, nice: nat,
        cur: nat, chain: nat, best: nat, start: nat)
    requires cur < s <= str && s + MAX_MATCH <= |win|
    ensures BestOf(bits, win, ins + {str}, s, limit, nice, cur, chain, best, start) ==
            BestOf(bits, win, ins, s, limit, nice, cur, chain, best, start)
    decreases cur
  {
    hide Common, HashAt, Newest;
    var len := Common(win, s, cur, 0);
    NewestBefore(bits, win, ins, HashAt(bits, win, cur), cur, str);
    var next := Newest(bits, win, ins, HashAt(bits, win, cur), cur);
    if !(len > best && len >= nice) && limit < next < cur && Less(chain) != 0 {
      if len > best {
        BestBefore(bits, win, ins, str, s, limit, nice, next, Less(chain), len, cur);
      } else {
        BestBefore(bits, win, ins, str, s, limit, nice, next, Less(chain), best, start);
      }
    }
  }

  // ---------- how far it goes ----------

  /** How many strings are looked at, at most: a chain length of zero is as good as any. */
  function Strings(chain: nat): nat {
    if chain == 0 then 0x1_0000_0000 else chain
  }

  /** The string i links back from cur. */
  function Linked(prev: seq<nat>, cur: nat, i: nat): nat
    requires |prev| > 0
    decreases i
  {
    if i == 0 then cur else Linked(prev, prev[Place(cur, |prev|)], i - 1)
  }

  /** The first n links from cur go back, and not as far as the limit. */
  predicate Leads(prev: seq<nat>, limit: nat, cur: nat, n: nat)
    requires |prev| > 0
    decreases n
  {
    n > 0 ==> var next := prev[Place(cur, |prev|)]; limit < next < cur && Leads(prev, limit, next, n - 1)
  }

  lemma {:induction false} LeadsLess(prev: seq<nat>, limit: nat, cur: nat, m: nat, n: nat)
    requires |prev| > 0 && m <= n && Leads(prev, limit, cur, n)
    ensures Leads(prev, limit, cur, m)
    decreases m
  {
    if m > 0 {
      LeadsLess(prev, limit, prev[Place(cur, |prev|)], m - 1, n - 1);
    }
  }

  /** The strings the search may look at are the first ones of the chain, as many as it is told, or up to its end. */
  lemma {:induction false} VisitedAre(prev: seq<nat>, limit: nat, cur: nat, chain: nat)
    requires |prev| > 0
    ensures var v := Visited(prev, limit, cur, chain);
            && 1 <= |v| <= Strings(chain) && (forall i :: 0 <= i < |v| ==> v[i] == Linked(prev, cur, i))
            && Leads(prev, limit, cur, |v| - 1) && (|v| < Strings(chain) ==> !Leads(prev, limit, cur, |v|))
    decreases cur
  {
    hide Place;
    var next := prev[Place(cur, |prev|)];
    var v := Visited(prev, limit, cur, chain);
    if limit < next < cur && Less(chain) != 0 {
      VisitedAre(prev, limit, next, Less(chain));
      var u := Visited(prev, limit, next, Less(chain));
      assert v == [cur] + u;
      forall i | 0 <= i < |v| ensures v[i] == Linked(prev, cur, i) {
        if i > 0 {
          assert v[i] == u[i - 1];
        }
      }
    } else {
      assert v == [cur];
    }
  }

  /** Every string of the chain that is near enough, and not too many links back, is among them. */
  lemma {:induction false} Reached(prev: seq<nat>, limit: nat, cur: nat, chain: nat, i: nat)
    requires |prev| > 0 && i < Strings(chain) && Leads(prev, limit, cur, i)
    ensures i < |Visited(prev, limit, cur, chain)| && Visited(prev, limit, cur, chain)[i] == Linked(prev, cur, i)
  {
    hide Visited, Linked, Place;
    VisitedAre(prev, limit, cur, chain);
    var n := |Visited(prev, limit, cur, chain)|;
    if n <= i {
      LeadsLess(prev, limit, cur, n, i);
    }
  }

  /** None of the first strings of the chain, as many as it is told, agrees for longer than what is found, if that was
      not good enough to stop at. */
  lemma LongestInReach(win: seq<byte>, prev: seq<nat>, s: nat, limit: nat, nice: nat, cur: nat, chain: nat, best: nat,
        start: nat, i: nat)
    requires cur < s && s + MAX_MATCH <= |win| && |prev| > 0 && i < Strings(chain) && Leads(prev, limit, cur, i)
    ensures Linked(prev, cur, i) < s
    ensures var (b, m) := Best(win, prev, s, limit, nice, cur, chain, best, start);
            (b >= nice && b > best) || Common(win, s, Linked(prev, cur, i), 0) <= b
  {
    hide Best, Common, Visited, Linked, Leads, Strings;
    Reached(prev, limit, cur, chain, i);
    VisitedBelow(prev, limit, cur, chain, s);
    BestLongest(win, prev, s, limit, nice, cur, chain, best, start, Linked(prev, cur, i));
  }

  // ---------- what it finds ----------

  ghost predicate AllBelow(v: seq<nat>, s: nat) {
    forall i :: 0 <= i < |v| ==> v[i] < s
  }

  lemma {:induction false} VisitedBelow(prev: seq<nat>, limit: nat, cur: nat, chain: nat, s: nat)
    requires |prev| > 0 && cur < s
    ensures AllBelow(Visited(prev, limit, cur, chain), s)
    decreases cur
  {
    hide Place;
    var next := prev[Place(cur, |prev|)];
    if limit < next < cur && Less(chain) != 0 {
      VisitedBelow(prev, limit, next, Less(chain), s);
    }
  }

  /** For how long each of the strings agrees with the one at s. */
  function Lengths(win: seq<byte>, s: nat, v: seq<nat>): (l: seq<nat>)
    requires s + MAX_MATCH <= |win| && AllBelow(v, s)
    ensures |l| == |v|
  {
    if v == [] then [] else [Common(win, s, v[0], 0)] + Lengths(win, s, v[1..])
  }

  /** None is longer than best. */
  predicate NoneBetter(l: seq<nat>, best: nat) {
    forall i :: 0 <= i < |l| ==> l[i] <= best
  }

  /** The j-th is the first that is so long, none before was good enough, and unless it is none after is longer. */
  predicate FirstBest(l: seq<nat>, nice: nat, best: nat, j: nat) {
    && j < |l| && l[j] > best && (forall i :: 0 <= i < j ==> l[i] < l[j] && (l[i] <= best || l[i] < nice))
    && (l[j] >= nice || forall i :: j < i < |l| ==> l[i] <= l[j])
  }

  lemma FirstLater(l: seq<nat>, nice: nat, best: nat, j: nat)
    requires l != [] && (l[0] <= best || l[0] < nice)
    requires FirstBest(l[1..], nice, if l[0] > best then l[0] else best, j)
    ensures FirstBest(l, nice, best, j + 1)
  {
    var u := l[1..];
    assert l[j + 1] == u[j];
    forall i | 0 <= i < j + 1 ensures l[i] < l[j + 1] && (l[i] <= best || l[i] < nice) {
      if i > 0 {
        assert l[i] == u[i - 1];
      }
    }
    if l[j + 1] < nice {
      forall i | j + 1 < i < |l| ensures l[i] <= l[j + 1] {
        assert l[i] == u[i - 1];
      }
    }
  }

  lemma FirstNow(l: seq<nat>, nice: nat, best: nat)
    requires l != [] && NoneBetter(l[1..], if l[0] > best then l[0] else best)
    ensures if l[0] > best then FirstBest(l, nice, best, 0) else NoneBetter(l, best)
  {
    forall i | 0 < i < |l| ensures l[i] == l[1..][i - 1] {
    }
  }

  lemma LengthsTail(win: seq<byte>, s: nat, cur: nat, u: seq<nat>)
    requires s + MAX_MATCH <= |win| && AllBelow(u, s) && cur < s
    ensures AllBelow([cur] + u, s)
    ensures Lengths(win, s, [cur] + u)[0] == Common(win, s, cur, 0) &&
            Lengths(win, s, [cur] + u)[1..] == Lengths(win, s, u)
  {
    hide Common;
    BelowMore(cur, u, s);
    assert ([cur] + u)[1..] == u;
  }

  lemma BelowMore(cur: nat, u: seq<nat>, s: nat)
    requires AllBelow(u, s) && cur < s
    ensures AllBelow([cur] + u, s)
  {
  }

  /** Which string is found: what was had before, just if none is longer. */
  lemma {:induction false} BestIs(win: seq<byte>, prev: seq<nat>, s: nat, limit: nat, nice: nat, cur: nat, chain: nat,
        best: nat, start: nat) returns (found: bool, j: nat)
    requires cur < s && s + MAX_MATCH <= |win| && |prev| > 0
    ensures AllBelow(Visited(prev, limit, cur, chain), s)
    ensures var (b, m) := Best(win, prev, s, limit, nice, cur, chain, best, start);
            var v := Visited(prev, limit, cur, chain);
            var l := Lengths(win, s, v);
            if found then FirstBest(l, nice, best, j) && m == v[j] && b == l[j]
            else NoneBetter(l, best) && b == best && m == start
    decreases cur
  {
    hide Common, Place, Lengths, FirstBest, NoneBetter;
    VisitedBelow(prev, limit, cur, chain, s);
    var len := Common(win, s, cur, 0);
    var next := prev[Place(cur, |prev|)];
    var v := Visited(prev, limit, cur, chain);
    var on := limit < next < cur && Less(chain) != 0;
    var u := if on then Visited(prev, limit, next, Less(chain)) else [];
    assert v == [cur] + u;
    if on {
      VisitedBelow(prev, limit, next, Less(chain), s);
    }
    LengthsTail(win, s, cur, u);
    var l := Lengths(win, s, v);
    found, j := len > best, 0;
    if len > best && len >= nice {
      FirstAtOnce(l, nice, best);
    } else if !on {
      NoneLeft(l[1..], if len > best then len else best);
      FirstNow(l, nice, best);
    } else {
      var more, i := BestIs(win, prev, s, limit, nice, next, Less(chain), if len > best then len else best,
        if len > best then cur else start);
      if more {
        found, j := true, i + 1;
        FirstLater(l, nice, best, i);
        FirstInside(l[1..], nice, if len > best then len else best, i);
      } else {
        FirstNow(l, nice, best);
      }
    }
  }

  lemma FirstAtOnce(l: seq<nat>, nice: nat, best: nat)
    requires l != [] && l[0] > best && l[0] >= nice
    ensures FirstBest(l, nice, best, 0)
  {
  }

  lemma NoneLeft(l: seq<nat>, best: nat)
    requires l == []
    ensures NoneBetter(l, best)
  {
  }

  lemma FirstInside(l: seq<nat>, nice: nat, best: nat, j: nat)
    requires FirstBest(l, nice, best, j)
    ensures j < |l|
  {
  }

  // ---------- bytes that are not there ----------

  /** The windows agree on their first n bytes. */
  ghost predicate SameTo(win: seq<byte>, win': seq<byte>, n: nat) {
    |win| == |win'| && n <= |win| && win[..n] == win'[..n]
  }

  lemma SameAt(win: seq<byte>, win': seq<byte>, n: nat, i: nat)
    requires SameTo(win, win', n) && i < n
    ensures win[i] == win'[i]
  {
    assert win[i] == win[..n][i] && win'[i] == win'[..n][i];
  }

  /** Up to the end of the bytes that are there, the strings agree as far in both windows. */
  lemma CommonStep(win: seq<byte>, s: nat, m: nat, k: nat)
    requires m <= s && s + MAX_MATCH <= |win| && k <= MAX_MATCH
    ensures var c := Common(win, s, m, k);
            c >= k && c == if k == MAX_MATCH || win[s + k] != win[m + k] then k else Common(win, s, m, k + 1)
  {
  }

  lemma SameSize(win: seq<byte>, win': seq<byte>, n: nat)
    requires SameTo(win, win', n)
    ensures |win'| == |win|
  {
  }

  lemma {:induction false} CommonSame(win: seq<byte>, win': seq<byte>, n: nat, s: nat, m: nat, k: nat)
    requires m <= s && s + MAX_MATCH <= |win| && SameTo(win, win', n) && s + k <= n && k <= MAX_MATCH
    ensures var a, b := Common(win, s, m, k), Common(win', s, m, k);
            a == b || (s + a >= n && s + b >= n)
    decreases MAX_MATCH - k
  {
    hide SameTo, Common;
    CommonStep(win, s, m, k);
    SameSize(win, win', n);
    CommonStep(win', s, m, k);
    if k < MAX_MATCH && s + k < n {
      SameAt(win, win', n, s + k);
      SameAt(win, win', n, m + k);
      if win[s + k] == win[m + k] {
        CommonSame(win, win', n, s, m, k + 1);
      }
    }
  }

  /**
   What lies in the window beyond the lookahead does not matter: the length found, cut to the lookahead, is the same,
   and so is the place unless the length is none better than it was.
   */
  lemma {:induction false} BeyondLookahead(win: seq<byte>, win': seq<byte>, prev: seq<nat>, s: nat, lookahead: nat,
        limit: nat, nice: nat, cur: nat, chain: nat, best: nat, start: nat)
    requires cur < s && s + MAX_MATCH <= |win| && |prev| > 0 && SameTo(win, win', s + lookahead) && nice <= lookahead
    ensures var (b, m) := Best(win, prev, s, limit, nice, cur, chain, best, start);
            var (b', m') := Best(win', prev, s, limit, nice, cur, chain, best, start);
            (b == b' && m == m') || (b >= lookahead && b' >= lookahead && (m == m' || best >= lookahead))
    decreases cur
  {
    hide Common, Place;
    CommonSame(win, win', s + lookahead, s, cur, 0);
    var len, len' := Common(win, s, cur, 0), Common(win', s, cur, 0);
    var next := prev[Place(cur, |prev|)];
    BestLongest(win, prev, s, limit, nice, cur, chain, best, start, cur);
    BestLongest(win', prev, s, limit, nice, cur, chain, best, start, cur);
    if best < lookahead && len == len' && !(len > best && len >= nice) && limit < next < cur && Less(chain) != 0 {
      if len > best {
        BeyondLookahead(win, win', prev, s, lookahead, limit, nice, next, Less(chain), len, cur);
      } else {
        BeyondLookahead(win, win', prev, s, lookahead, limit, nice, next, Less(chain), best, start);
      }
    }
  }

  // ---------- the fast search ----------

  /** A difference at a byte up to best means no longer match. */
  lemma NotLonger(win: seq<byte>, s: nat, m: nat, j: nat)
    requires m <= s && s + MAX_MATCH <= |win| && j <= MAX_MATCH && s + j < |win| && win[s + j] != win[m + j]
    ensures Common(win, s, m, 0) <= j
  {
  }

  lemma AgreeAt(win: seq<byte>, s: nat, m: nat, k: nat, j: nat)
    requires Agree(win, s, m, 0, k) && j < k
    ensures win[s + j] == win[m + j]
  {
    assert win[s + j] == win[s + j - s + m];
  }

  lemma {:induction false} CommonFrom(win: seq<byte>, s: nat, m: nat, k: nat, j: nat)
    requires m <= s && s + MAX_MATCH <= |win| && k <= j <= MAX_MATCH
    requires Agree(win, s, m, k, j)
    ensures Common(win, s, m, k) == Common(win, s, m, j)
    decreases j - k
  {
    if k < j {
      assert win[s + k] == win[s + k - s + m];
      CommonFrom(win, s, m, k + 1, j);
    }
  }

  /** Eight comparisons at a time, the first three bytes being known to agree. */
  method CompareOn(window: array<byte>, s: nat, m: nat) returns (len: nat)
    requires m < s && s + MAX_MATCH < window.Length
    requires window[m] == window[s] && window[m + 1] == window[s + 1] && window[m + 2] == window[s + 2]
    ensures len == Common(window[..], s, m, 0)
  {
    var scan, rounds, same := 2, 0, true;
    while same && scan < MAX_MATCH
      invariant scan <= MAX_MATCH && (same ==> scan == 2 + 8 * rounds) && rounds <= 32
      invariant Agree(window[..], s, m, 0, scan) && same == (window[s + scan] == window[m + scan])
      decreases same, 32 - rounds
    {
      rounds := rounds + 1;
      var i := 0;
      while same && i < 8
        invariant i <= 8 && scan <= MAX_MATCH && rounds <= 32 && (same ==> scan == 2 + 8 * (rounds - 1) + i)
        invariant Agree(window[..], s, m, 0, scan) && same == (window[s + scan] == window[m + scan])
        decreases same, 8 - i
      {
        scan := scan + 1;
        same := window[s + scan] == window[m + scan];
        i := i + 1;
      }
    }
    CommonFrom(window[..], s, m, 0, scan);
    len := scan;
  }

  /** The test that lets most strings be passed over: a longer match would have to agree in these bytes. */
  lemma PassedOver(win: seq<byte>, s: nat, m: nat, best: nat)
    requires m <= s && s + MAX_MATCH < |win| && 2 <= best <= MAX_MATCH
    requires win[m + best] != win[s + best] || win[m + best - 1] != win[s + best - 1] || win[m] != win[s] ||
             win[m + 1] != win[s + 1]
    ensures Common(win, s, m, 0) <= best
  {
    hide Common;
    if win[m + best] != win[s + best] {
      NotLonger(win, s, m, best);
    } else if win[m + best - 1] != win[s + best - 1] {
      NotLonger(win, s, m, best - 1);
    } else if win[m] != win[s] {
      NotLonger(win, s, m, 0);
    } else {
      NotLonger(win, s, m, 1);
    }
  }

  /** One string on the chain: the length of the match, or zero if it was passed over. */
  method TryString(window: array<byte>, s: nat, m: nat, best: nat, ghost bits: nat) returns (len: nat)
    requires m < s && s + MAX_MATCH < window.Length && 2 <= best <= MAX_MATCH && bits >= 8
    requires HashAt(bits, window[..], m) == HashAt(bits, window[..], s)
    ensures if len == 0 then Common(window[..], s, m, 0) <= best else len == Common(window[..], s, m, 0)
  {
    hide Common, Hash;
    len := 0;
    if window[m + best] != window[s + best] || window[m + best - 1] != window[s + best - 1] || window[m] != window[s]
       || window[m + 1] != window[s + 1] {
      PassedOver(window[..], s, m, best);
    } else {
      SameHash(bits, window[s], window[s + 1], window[m + 2], window[s + 2]);
      len := CompareOn(window, s, m);
    }
  }

  /** One string of the chain: l is for how long it agrees, or zero if that is not longer than best. */
  lemma BestStep(win: seq<byte>, prev: seq<nat>, s: nat, limit: nat, nice: nat, cur: nat, chain: nat, best: nat,
        start: nat, l: nat, best': nat, start': nat)
    requires cur < s && s + MAX_MATCH <= |win| && |prev| > 0
    requires if l == 0 then Common(win, s, cur, 0) <= best else l == Common(win, s, cur, 0)
    requires (best', start') == if l > best then (l, cur) else (best, start)
    ensures var next := prev[Place(cur, |prev|)];
            Best(win, prev, s, limit, nice, cur, chain, best, start) ==
            if (l > best && l >= nice) || !(limit < next < cur && Less(chain) != 0) then (best', start')
            else Best(win, prev, s, limit, nice, next, Less(chain), best', start')
  {
    hide Common, Place;
  }

  /** longest_match: what the simple search finds, cut to the lookahead. */
  method LongestMatch(window: array<byte>, prev: array<nat>, strstart: nat, lookahead: nat, maxDist: nat, curMatch: nat,
                      maxChain: nat, goodMatch: nat, niceMatch: nat, prevLength: nat, matchStart: nat,
                      ghost bits: nat, ghost ins: set<nat>, ghost n: nat)
      returns (len: nat, start: nat)
    requires PrevOk(bits, window[..], prev[..], ins, strstart + 1, n) && bits >= 8 && n <= window.Length
    requires strstart + MAX_MATCH < window.Length && 2 <= prevLength <= MAX_MATCH && maxDist + 1 <= prev.Length
    requires curMatch in ins && 0 < curMatch < strstart && strstart - curMatch <= maxDist && strstart + 3 <= n
    requires HashAt(bits, window[..], curMatch) == HashAt(bits, window[..], strstart)
    ensures var limit := if strstart > maxDist then strstart - maxDist else 0;
            var chain := if prevLength >= goodMatch then maxChain / 4 else maxChain;
            var nice := if niceMatch > lookahead then lookahead else niceMatch;
            var (b, m) := Best(window[..], prev[..], strstart, limit, nice, curMatch, chain, prevLength, matchStart);
            start == m && len == if b <= lookahead then b else lookahead
  {
    hide Common, HashAt, Place, Best;
    var chain := maxChain;
    var best := prevLength;
    start := matchStart;
    var limit := if strstart > maxDist then strstart - maxDist else 0;
    if prevLength >= goodMatch {
      chain := chain / 4;
    }
    var nice := niceMatch;
    if nice > lookahead {
      nice := lookahead;
    }
    var cur := curMatch;
    ghost var win, links := window[..], prev[..];
    ghost var goal := Best(win, links, strstart, limit, nice, curMatch, chain, prevLength, matchStart);
    while true
      invariant cur in ins && cur < strstart && cur + |links| >= strstart + 1 && 2 <= best <= MAX_MATCH
      invariant HashAt(bits, win, cur) == HashAt(bits, win, strstart)
      invariant Best(win, links, strstart, limit, nice, cur, chain, best, start) == goal
      decreases cur
    {
      var l := TryString(window, strstart, cur, best, bits);
      BestStep(win, links, strstart, limit, nice, cur, chain, best, start, l, if l > best then l else best,
               if l > best then cur else start);
      if l > best {
        start := cur;
        best := l;
        if l >= nice {
          break;
        }
      }
      LinkFacts(bits, win, links[Place(cur, |links|)], ins, cur, n);
      var next := prev[Place(cur, prev.Length)];
      if next <= limit || Less(chain) == 0 {
        break;
      }
      chain := Less(chain);
      cur := next;
    }
    len := if best <= lookahead then best else lookahead;
  }
}
