/**
 The hash chains of deflate: head has, for each hash, the last string inserted with it, and prev
 links each string to the one before with the same hash, as long as that is in the window.
 */
module DeflateChains {
  import opened Bits
  import opened DeflateHash

  // ---------- places in the circular table ----------

  /** p & w_mask */
  function Place(p: nat, w: nat): (i: nat)
    requires w > 0
    ensures i < w
  {
    p % w
  }

  lemma PlaceDown(p: nat, w: nat)
    requires 0 < w <= p
    ensures Place(p - w, w) == Place(p, w)
  {
    var q, r := p / w, p % w;
    assert p - w == (q - 1) * w + r;
    RemainderIs(p - w, q - 1, r, w);
  }

  lemma RemainderIs(x: nat, q: int, r: nat, w: nat)
    requires w > 0 && x == q * w + r && r < w
    ensures x % w == r
  {
    var d := x / w - q;
    assert x == (x / w) * w + x % w;
    assert d * w == r - x % w;
    Multiple(d, w);
  }

  lemma Multiple(d: int, w: int)
    requires w >= 0
    ensures d >= 1 ==> d * w >= w
    ensures d <= -1 ==> d * w <= 0 - w
  {
  }

  /** Strings that share a place are at least w apart. */
  lemma PlaceApart(p: nat, q: nat, w: nat)
    requires w > 0 && p < q && Place(p, w) == Place(q, w)
    ensures p + w <= q
  {
    var d := q / w - p / w;
    assert q - p == d * w;
    Multiple(d, w);
  }

  // ---------- the invariant ----------

  function HashAt(bits: nat, win: seq<byte>, p: nat): nat
    requires p + 2 < |win|
  {
    Hash(bits, win[p], win[p + 1], win[p + 2])
  }

  /** ins are the strings inserted; n bytes of the window are valid; no string from e on was inserted. */
  ghost predicate Inserted(ins: set<nat>, e: nat, n: nat) {
    forall p :: p in ins ==> p < e && p + 3 <= n
  }

  /** The last string before below that was inserted and has the hash h; zero if there is none. */
  ghost function Newest(bits: nat, win: seq<byte>, ins: set<nat>, h: nat, below: nat): nat
    decreases below
  {
    if below == 0 then 0
    else
      var p := below - 1;
      if p in ins && p + 2 < |win| && HashAt(bits, win, p) == h then p else Newest(bits, win, ins, h, p)
  }

  /** It is one, and there is none after it. */
  lemma {:induction false} NewestIs(bits: nat, win: seq<byte>, ins: set<nat>, h: nat, below: nat)
    ensures var q := Newest(bits, win, ins, h, below);
            && (q == 0 || (q < below && q in ins && q + 2 < |win| && HashAt(bits, win, q) == h))
            && forall p :: q < p < below && p in ins && p + 2 < |win| ==> HashAt(bits, win, p) != h
    decreases below
  {
    hide HashAt;
    if below > 0 {
      NewestIs(bits, win, ins, h, below - 1);
    }
  }

  /** The head of each chain is its newest string. */
  ghost predicate HeadOk(bits: nat, win: seq<byte>, head: seq<nat>, ins: set<nat>, e: nat, n: nat) {
    n <= |win| && |head| == Pow2(bits) && forall h :: 0 <= h < |head| ==> head[h] == Newest(bits, win, ins, h, e)
  }

  /** The link of p leads to the newest string before it with the same hash. */
  ghost predicate LinkOk(bits: nat, win: seq<byte>, q: nat, ins: set<nat>, p: nat, n: nat) {
    p + 3 <= n <= |win| && q == Newest(bits, win, ins, HashAt(bits, win, p), p)
  }

  lemma LinkFacts(bits: nat, win: seq<byte>, q: nat, ins: set<nat>, p: nat, n: nat)
    requires LinkOk(bits, win, q, ins, p, n)
    ensures q == 0 || (q < p && q in ins && HashAt(bits, win, q) == HashAt(bits, win, p))
  {
    NewestIs(bits, win, ins, HashAt(bits, win, p), p);
  }

  /** The links of the last w strings are good; older ones have been overwritten. */
  ghost predicate PrevOk(bits: nat, win: seq<byte>, prev: seq<nat>, ins: set<nat>, e: nat, n: nat) {
    |prev| > 0 && forall p {:trigger p in ins} :: p in ins && p + |prev| >= e ==>
        LinkOk(bits, win, prev[Place(p, |prev|)], ins, p, n)
  }

  ghost predicate Chains(bits: nat, win: seq<byte>, head: seq<nat>, prev: seq<nat>, ins: set<nat>, e: nat, n: nat) {
    Inserted(ins, e, n) && HeadOk(bits, win, head, ins, e, n) && PrevOk(bits, win, prev, ins, e, n)
  }

  lemma {:induction false} NewestSame(bits: nat, win: seq<byte>, win': seq<byte>, ins: set<nat>, h: nat, below: nat,
        e: nat, n: nat)
    requires Inserted(ins, e, n) && n <= |win| && n <= |win'| && forall i :: 0 <= i < n ==> win'[i] == win[i]
    ensures Newest(bits, win', ins, h, below) == Newest(bits, win, ins, h, below)
    decreases below
  {
    hide Hash;
    if below > 0 {
      NewestSame(bits, win, win', ins, h, below - 1, e, n);
    }
  }

  /** There is none from e on. */
  lemma {:induction false} NewestSkip(bits: nat, win: seq<byte>, ins: set<nat>, h: nat, e: nat, below: nat, n: nat)
    requires Inserted(ins, e, n) && e <= below
    ensures Newest(bits, win, ins, h, below) == Newest(bits, win, ins, h, e)
    decreases below
  {
    hide HashAt;
    if e < below {
      NewestSkip(bits, win, ins, h, e, below - 1, n);
    }
  }

  /** One more does not matter before it. */
  lemma {:induction false} NewestBefore(bits: nat, win: seq<byte>, ins: set<nat>, h: nat, below: nat, str: nat)
    requires below <= str
    ensures Newest(bits, win, ins + {str}, h, below) == Newest(bits, win, ins, h, below)
    decreases below
  {
    hide HashAt;
    if below > 0 {
      NewestBefore(bits, win, ins, h, below - 1, str);
    }
  }

  /** More valid bytes, or a later beginning of what is not inserted. */
  lemma ChainsMore(bits: nat, win: seq<byte>, win': seq<byte>, head: seq<nat>, prev: seq<nat>, ins: set<nat>, e: nat,
        e': nat, n: nat, n': nat)
    requires Chains(bits, win, head, prev, ins, e, n) && e <= e' && n <= n' <= |win'| && n <= |win| &&
             win'[..n] == win[..n]
    ensures Chains(bits, win', head, prev, ins, e', n')
  {
    hide Hash, Place, Newest, Pow2;
    SameBytes(win, win', n);
    forall h | 0 <= h < |head| ensures head[h] == Newest(bits, win', ins, h, e') {
      NewestSame(bits, win, win', ins, h, e, e, n);
      NewestSkip(bits, win', ins, h, e, e', n);
    }
    forall p | p in ins && p + |prev| >= e' ensures LinkOk(bits, win', prev[Place(p, |prev|)], ins, p, n') {
      assert LinkOk(bits, win, prev[Place(p, |prev|)], ins, p, n);
      NewestSame(bits, win, win', ins, HashAt(bits, win, p), p, e, n);
    }
  }

  lemma SameBytes(win: seq<byte>, win': seq<byte>, n: nat)
    requires n <= |win| && n <= |win'| && win'[..n] == win[..n]
    ensures forall i :: 0 <= i < n ==> win'[i] == win[i]
  {
    forall i | 0 <= i < n ensures win'[i] == win[i] {
      assert win'[..n][i] == win[..n][i];
    }
  }

  /** INSERT_STRING keeps the chains. */
  lemma ChainsInsert(bits: nat, win: seq<byte>, head: seq<nat>, prev: seq<nat>, ins: set<nat>, e: nat, n: nat, str: nat)
    requires Chains(bits, win, head, prev, ins, e, n) && e <= str && str + 3 <= n <= |win|
    ensures var h := HashAt(bits, win, str);
            h < |head| && Chains(bits, win, head[h := str], prev[Place(str, |prev|) := head[h]], ins + {str}, str + 1,
                n)
  {
    hide HashAt, Place, Pow2, Newest;
    var h, w := HashAt(bits, win, str), |prev|;
    HashSmall(bits, win, str);
    var head', prev', ins' := head[h := str], prev[Place(str, w) := head[h]], ins + {str};
    forall g | 0 <= g < |head'| ensures head'[g] == Newest(bits, win, ins', g, str + 1) {
      NewestOfLast(bits, win, ins, g, str);
      NewestSkip(bits, win, ins, g, e, str, n);
    }
    forall p | p in ins' && p + w >= str + 1 ensures LinkOk(bits, win, prev'[Place(p, w)], ins', p, n) {
      NewestBefore(bits, win, ins, HashAt(bits, win, p), p, str);
      if p == str {
        NewestSkip(bits, win, ins, h, e, str, n);
      } else {
        if Place(p, w) == Place(str, w) {
          PlaceApart(p, str, w);
        }
        assert LinkOk(bits, win, prev[Place(p, w)], ins, p, n);
      }
    }
  }

  lemma NewestOfLast(bits: nat, win: seq<byte>, ins: set<nat>, h: nat, str: nat)
    requires str + 2 < |win|
    ensures Newest(bits, win, ins + {str}, h, str + 1) ==
            if HashAt(bits, win, str) == h then str else Newest(bits, win, ins, h, str)
  {
    hide HashAt;
    NewestBefore(bits, win, ins, h, str, str);
  }

  lemma HashSmall(bits: nat, win: seq<byte>, p: nat)
    requires p + 2 < |win|
    ensures HashAt(bits, win, p) < Pow2(bits)
  {
    hide Update;
    UpdateSmall(bits, Update(bits, win[p], win[p + 1]), win[p + 2]);
  }

  // ---------- sliding ----------

  function Slid(m: nat, w: nat): nat {
    if m >= w then m - w else 0
  }

  function SlidAll(a: seq<nat>, w: nat): (b: seq<nat>)
    ensures |b| == |a| && forall i :: 0 <= i < |a| ==> b[i] == Slid(a[i], w)
  {
    seq(|a|, i requires 0 <= i < |a| => Slid(a[i], w))
  }

  ghost function SlidSet(ins: set<nat>, w: nat): set<nat> {
    set p | p in ins && p >= w :: p - w
  }

  /** win' is win moved down by w, of which n bytes were valid. */
  ghost predicate Moved(win: seq<byte>, win': seq<byte>, w: nat, n: nat) {
    w <= n <= |win| && n - w <= |win'| && forall i :: 0 <= i < n - w ==> win'[i] == win[i + w]
  }

  lemma HashMoved(bits: nat, win: seq<byte>, win': seq<byte>, w: nat, n: nat, p: nat)
    requires Moved(win, win', w, n) && w <= p && p + 3 <= n
    ensures HashAt(bits, win', p - w) == HashAt(bits, win, p)
  {
    assert win'[p - w] == win[p] && win'[p - w + 1] == win[p + 1] && win'[p - w + 2] == win[p + 2];
  }

  lemma SlidIn(ins: set<nat>, w: nat, p: nat)
    ensures p in SlidSet(ins, w) <==> p + w in ins
  {
    assert p + w in ins ==> (p + w) - w in SlidSet(ins, w);
  }

  lemma {:induction false} NewestSlide(bits: nat, win: seq<byte>, win': seq<byte>, ins: set<nat>, h: nat, below: nat,
        w: nat, e: nat, n: nat)
    requires Inserted(ins, e, n) && Moved(win, win', w, n)
    ensures Newest(bits, win', SlidSet(ins, w), h, below) == Slid(Newest(bits, win, ins, h, below + w), w)
    decreases below
  {
    hide HashAt, SlidSet, Moved;
    if below == 0 {
      NewestIs(bits, win, ins, h, w);
    } else {
      var p := below - 1;
      NewestSlide(bits, win, win', ins, h, p, w, e, n);
      SlidIn(ins, w, p);
      MovedSize(win, win', w, n);
      if p + w in ins {
        HashMoved(bits, win, win', w, n, p + w);
      }
    }
  }

  lemma MovedSize(win: seq<byte>, win': seq<byte>, w: nat, n: nat)
    requires Moved(win, win', w, n)
    ensures w <= n <= |win| && n - w <= |win'|
  {
  }

  lemma HeadSlide(bits: nat, win: seq<byte>, win': seq<byte>, head: seq<nat>, ins: set<nat>, w: nat, e: nat, n: nat)
    requires HeadOk(bits, win, head, ins, e, n) && Inserted(ins, e, n) && Moved(win, win', w, n) && w <= e
    ensures HeadOk(bits, win', SlidAll(head, w), SlidSet(ins, w), e - w, n - w)
  {
    hide Newest, SlidSet, Pow2;
    var head' := SlidAll(head, w);
    forall h | 0 <= h < |head'| ensures head'[h] == Newest(bits, win', SlidSet(ins, w), h, e - w) {
      NewestSlide(bits, win, win', ins, h, e - w, w, e, n);
    }
  }

  lemma LinkSlide(bits: nat, win: seq<byte>, win': seq<byte>, q: nat, ins: set<nat>, p: nat, w: nat, e: nat, n: nat)
    requires LinkOk(bits, win, q, ins, p + w, n) && Inserted(ins, e, n) && Moved(win, win', w, n)
    ensures LinkOk(bits, win', Slid(q, w), SlidSet(ins, w), p, n - w)
  {
    hide HashAt, SlidSet, Newest;
    HashMoved(bits, win, win', w, n, p + w);
    NewestSlide(bits, win, win', ins, HashAt(bits, win, p + w), p, w, e, n);
  }

  /** slide_hash keeps the chains when the window is moved down by its size. */
  lemma ChainsSlide(bits: nat, win: seq<byte>, win': seq<byte>, head: seq<nat>, prev: seq<nat>, ins: set<nat>, e: nat,
        n: nat)
    requires Chains(bits, win, head, prev, ins, e, n) && |prev| <= e && Moved(win, win', |prev|, n)
    ensures Chains(bits, win', SlidAll(head, |prev|), SlidAll(prev, |prev|), SlidSet(ins, |prev|), e - |prev|,
            n - |prev|)
  {
    hide HashAt, SlidSet, Place, Pow2, LinkOk;
    var w := |prev|;
    var ins' := SlidSet(ins, w);
    HeadSlide(bits, win, win', head, ins, w, e, n);
    forall p | p in ins' ensures p + w in ins {
      SlidIn(ins, w, p);
    }
    forall p | p in ins' && p + w >= e - w ensures LinkOk(bits, win', SlidAll(prev, w)[Place(p, w)], ins', p, n - w) {
      PlaceDown(p + w, w);
      LinkSlide(bits, win, win', prev[Place(p + w, w)], ins, p, w, e, n);
    }
  }
}
