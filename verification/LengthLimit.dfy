/**
 Frequencies of code lengths for which the limit of seven bits costs something: the tree is a chain of eight
 merges, each of the two lightest nodes being the last father.
 */
module LengthLimit {
  import opened HuffmanHeap
  import opened HuffmanTree
  import opened BitLengths
  import opened BlockCost
  import Optimal
  import BT = BuildTree

  const LEAVES: seq<nat> := [1, 2, 3, 4, 7, 11, 18, 29, 47, 0, 0, 0, 0, 0, 0, 0, 0, 0, 0]
  const FATHERS: seq<nat> := [3, 6, 10, 17, 28, 46, 75, 122]
  const WEIGHTS: seq<nat> := LEAVES + FATHERS
  const HEIGHTS: seq<nat> := Zeros(19) + [1, 2, 3, 4, 5, 6, 7, 8]
  const DEPTHS: seq<nat> := [8, 8, 7, 6, 5, 4, 3, 2, 1] + Zeros(10) + [7, 6, 5, 4, 3, 2, 1, 0]
  const FIRSTS: seq<nat> := [0, 2, 3, 4, 5, 6, 7, 8]
  const SECONDS: seq<nat> := [1, 19, 20, 21, 22, 23, 24, 25]

  const SYMBOLS: set<nat> := {0, 1, 2, 3, 4, 5, 6, 7, 8}

  ghost function From(k: nat): set<nat> {
    set n | n in SYMBOLS && k <= n
  }

  lemma LeavesAre()
    ensures |WEIGHTS| == 27 && Leaves(WEIGHTS, 19) == From(0)
  {
  }

  /** After the first merge there is one father, and the leaves that are heavier. */
  lemma {:induction false} LiveAt(s: nat)
    requires 1 <= s <= 8
    ensures Optimal.Live(From(0), 19, FIRSTS, SECONDS, s) == From(s + 1) + {18 + s}
  {
    if s > 1 {
      LiveAt(s - 1);
      assert FIRSTS[s - 1] == s && SECONDS[s - 1] == 17 + s;
      assert From(s) - {s} == From(s + 1);
    } else {
      assert Optimal.Live(From(0), 19, FIRSTS, SECONDS, 0) == From(0);
      assert From(0) - {0, 1} == From(2);
    }
  }

  lemma MergedAt(s: nat)
    requires s < 8
    ensures Optimal.GreedyAt(WEIGHTS, HEIGHTS, From(0), 19, FIRSTS, SECONDS, s)
  {
    hide Optimal.Live;
    if s > 0 {
      LiveAt(s);
    } else {
      FirstLive();
    }
    var live := Optimal.Live(From(0), 19, FIRSTS, SECONDS, s);
    forall x | x in live && x != FIRSTS[s] ensures Smaller(WEIGHTS, HEIGHTS, SECONDS[s], x) {
    }
  }

  lemma FirstLive()
    ensures Optimal.Live(From(0), 19, FIRSTS, SECONDS, 0) == From(0)
  {
  }

  lemma ChainGreedy()
    ensures Optimal.Greedy(WEIGHTS, HEIGHTS, From(0), 19, FIRSTS, SECONDS)
  {
    hide Optimal.GreedyAt;
    forall s | 0 <= s < 8 ensures Optimal.GreedyAt(WEIGHTS, HEIGHTS, From(0), 19, FIRSTS, SECONDS, s) {
      MergedAt(s);
    }
  }

  /** No code of at most seven bits is as good as any for these frequencies. */
  lemma NotAttainable()
    ensures !BT.Attainable(WEIGHTS, BL_DESC)
  {
    hide Optimal.Greedy, Optimal.Live, BT.Attainable;
    DescsOk();
    LeavesAre();
    ChainGreedy();
    LiveAt(8);
    assert WEIGHTS[..27] == WEIGHTS && DEPTHS[..27] == DEPTHS;
    if BT.Attainable(WEIGHTS, BL_DESC) {
      BT.AttainedHeight(WEIGHTS, HEIGHTS, BL_DESC, 8, From(0), FIRSTS, SECONDS, DEPTHS);
    }
  }

  /** build_tree, given them, makes a code that is not as good as any. */
  method NotLeast() returns (full: seq<nat>)
    ensures |full| == 19 && !BT.Least(LEAVES + Zeros(19), full, BL_DESC)
  {
    hide BT.Least, BT.Attainable, Costs;
    DescsOk();
    NotAttainable();
    var freq := new nat[38](i => if 0 <= i < 19 then LEAVES[i] else 0);
    assert freq[..] == LEAVES + Zeros(19);
    if BT.Attainable(freq[..], BL_DESC) {
      assert freq[..][..19] == WEIGHTS[..19];
      BT.AttainableSame(freq[..], WEIGHTS, BL_DESC);
      assert false;
    }
    Totals(Leaves(freq[..], 19), freq[..], 19);
    var lens, codes, opt, stat;
    lens, codes, full, opt, stat := BT.BuildTree(freq, BL_DESC, 0, 0);
  }

  lemma {:induction false} Totals(u: set<nat>, f: seq<nat>, n: nat)
    requires n <= |f| && forall i :: 0 <= i < n ==> f[i] < 50
    ensures Optimal.Sum(u, f, n) <= 50 * n
  {
    if n > 0 {
      Totals(u, f, n - 1);
    }
  }
}
