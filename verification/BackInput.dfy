/**
 The input of inflateBack: what next_in has at the beginning, and what in() gives, piece by piece.
 */
module BackInput {
  import opened Bits

  /** What in() gives, call by call, up to where it gives nothing. */
  function Later(pieces: seq<seq<byte>>): seq<byte> {
    if pieces == [] || pieces[0] == [] then [] else pieces[0] + Later(pieces[1..])
  }

  /** All input: the first piece is what next_in has at the beginning. */
  function Given(pieces: seq<seq<byte>>): seq<byte> {
    if pieces == [] then [] else pieces[0] + Later(pieces[1..])
  }

  /** How often in() was called when n bytes of what it gives have been read: not before they were wanted. */
  function Calls(pieces: seq<seq<byte>>, n: nat): (k: nat)
    requires n <= |Later(pieces)|
    ensures k <= |pieces|
  {
    if n == 0 then 0 else 1 + Calls(pieces[1..], if n < |pieces[0]| then 0 else n - |pieces[0]|)
  }

  /** What is left of the piece in hand. */
  function Held(pieces: seq<seq<byte>>, n: nat): seq<byte>
    requires n <= |Later(pieces)|
  {
    if n == 0 then [] else if n <= |pieces[0]| then pieces[0][n..] else Held(pieces[1..], n - |pieces[0]|)
  }

  lemma {:induction false} HeldIs(pieces: seq<seq<byte>>, n: nat)
    requires n <= |Later(pieces)|
    ensures var k := Calls(pieces, n);
            && Later(pieces)[n..] == Held(pieces, n) + Later(pieces[k..])
            && (if n == 0 then k == 0 else k > 0 && |Held(pieces, n)| < |pieces[k - 1]| &&
                                           Held(pieces, n) == pieces[k - 1][|pieces[k - 1]| - |Held(pieces, n)|..])
  {
    if n > 0 {
      var rest := pieces[1..];
      var k := Calls(pieces, n);
      if n <= |pieces[0]| {
        assert k == 1 && Held(pieces, n) == pieces[0][n..];
        assert Later(pieces)[n..] == pieces[0][n..] + Later(rest);
      } else {
        var m := n - |pieces[0]|;
        HeldIs(rest, m);
        assert Later(pieces)[n..] == Later(rest)[m..];
        assert rest[Calls(rest, m)..] == pieces[k..] && rest[Calls(rest, m) - 1] == pieces[k - 1];
      }
    }
  }

  /** have when a byte is wanted and n have been read: in() is called if it is zero. */
  function Have(pieces: seq<seq<byte>>, n: nat): (h: nat)
    requires n < |Given(pieces)|
    ensures 0 < h <= |Given(pieces)| - n
  {
    if n < |pieces[0]| then |pieces[0]| - n
    else HaveLater(pieces[1..], n - |pieces[0]|)
  }

  function HaveLater(pieces: seq<seq<byte>>, n: nat): (h: nat)
    requires n < |Later(pieces)|
    ensures 0 < h <= |Later(pieces)| - n
  {
    if n < |pieces[0]| then |pieces[0]| - n else HaveLater(pieces[1..], n - |pieces[0]|)
  }

  /** The pieces that in() was not asked for. */
  function Unasked(pieces: seq<seq<byte>>, calls: nat): seq<seq<byte>> {
    if calls < |pieces| then pieces[calls + 1..] else []
  }

  lemma Drops(a: seq<byte>, b: seq<byte>, n: nat)
    requires n <= |a| + |b|
    ensures (a + b)[n..] == if n <= |a| then a[n..] + b else b[n - |a|..]
  {
  }

  /** What HeldIs says of the pieces after the first. */
  lemma HeldAfter(pieces: seq<seq<byte>>, m: nat)
    requires pieces != [] && 0 < m <= |Later(pieces[1..])|
    ensures var k, held := Calls(pieces[1..], m), Held(pieces[1..], m);
            && 0 < k < |pieces| && Later(pieces[1..])[m..] == held + Later(Unasked(pieces, k))
            && |held| < |pieces[k]| && held == pieces[k][|pieces[k]| - |held|..]
  {
    hide Later, Calls, Held;
    HeldIs(pieces[1..], m);
    var k := Calls(pieces[1..], m);
    assert pieces[1..][k - 1] == pieces[k];
    assert k < |pieces| - 1 ==> pieces[1..][k..] == pieces[k + 1..];
    assert k == |pieces| - 1 ==> pieces[1..][k..] == [] == pieces[k + 1..];
  }

  /** have when n bytes have been read: what is left of the piece in hand, in() not being called for more. */
  function Hand(pieces: seq<seq<byte>>, n: nat): (h: nat)
    requires n <= |Given(pieces)|
    ensures n + h <= |Given(pieces)|
  {
    if pieces == [] then 0
    else if n <= |pieces[0]| then |pieces[0]| - n
    else
      HeldIs(pieces[1..], n - |pieces[0]|);
      |Held(pieces[1..], n - |pieces[0]|)|
  }

  /** There is no more in hand than the largest piece holds. */
  lemma {:induction false} HeldWithin(pieces: seq<seq<byte>>, n: nat, k: nat)
    requires n <= |Later(pieces)| && forall i :: 0 <= i < |pieces| ==> |pieces[i]| <= k
    ensures |Held(pieces, n)| <= k
  {
    if n > 0 && n > |pieces[0]| {
      HeldWithin(pieces[1..], n - |pieces[0]|, k);
    }
  }

  lemma HandWithin(pieces: seq<seq<byte>>, n: nat, k: nat)
    requires n <= |Given(pieces)| && forall i :: 0 <= i < |pieces| ==> |pieces[i]| <= k
    ensures Hand(pieces, n) <= k
  {
    if pieces != [] && n > |pieces[0]| {
      HeldWithin(pieces[1..], n - |pieces[0]|, k);
    }
  }

  /** How often in() is called until it gives nothing. */
  function CallsToEnd(pieces: seq<seq<byte>>): nat {
    if pieces == [] || pieces[0] == [] then 1 else 1 + CallsToEnd(pieces[1..])
  }

  lemma {:induction false} CallsAtEnd(pieces: seq<seq<byte>>)
    ensures Calls(pieces, |Later(pieces)|) + 1 == CallsToEnd(pieces) && Held(pieces, |Later(pieces)|) == []
  {
    if pieces != [] && pieces[0] != [] {
      CallsAtEnd(pieces[1..]);
      if Later(pieces[1..]) == [] {
        assert CallsToEnd(pieces[1..]) == 1;
      }
    }
  }

  /** What is in hand when n bytes have been read. */
  method HeldNow(pieces: seq<seq<byte>>, n: nat) returns (calls: nat, rest: seq<byte>)
    requires n <= |Given(pieces)| && pieces != []
    ensures Given(pieces)[n..] == rest + Later(Unasked(pieces, calls)) && calls < |pieces|
    ensures calls == if n <= |pieces[0]| then 0 else Calls(pieces[1..], n - |pieces[0]|)
    ensures calls > 0 ==>
      calls < |pieces| && |rest| < |pieces[calls]| && rest == pieces[calls][|pieces[calls]| - |rest|..]
  {
    hide Later, Calls, Held;
    Drops(pieces[0], Later(pieces[1..]), n);
    if n <= |pieces[0]| {
      return 0, pieces[0][n..];
    }
    var m := n - |pieces[0]|;
    HeldAfter(pieces, m);
    calls, rest := Calls(pieces[1..], m), Held(pieces[1..], m);
  }

  /** What the next call of in() gives. */
  lemma NextPiece(pieces: seq<seq<byte>>, k: nat)
    requires 0 < k <= |pieces|
    ensures Later(Unasked(pieces, k - 1)) ==
            if k < |pieces| && pieces[k] != [] then pieces[k] + Later(Unasked(pieces, k)) else []
  {
    if k < |pieces| {
      assert pieces[k..][0] == pieces[k] && pieces[k..][1..] == pieces[k + 1..];
    }
  }

  lemma AtEnd(pieces: seq<seq<byte>>, calls: nat, n: nat)
    requires pieces != [] && n == |Given(pieces)|
    requires calls == if n <= |pieces[0]| then 0 else Calls(pieces[1..], n - |pieces[0]|)
    ensures calls + 1 == CallsToEnd(pieces[1..])
  {
    CallsAtEnd(pieces[1..]);
  }

  lemma NoPieces()
    ensures Given([]) == [] && CallsToEnd([]) == 1 && Later(Unasked([], 0)) == []
  {
  }

  /**
   next_in and avail_in at the end, when n bytes have been read, and perhaps one more was wanted: in() was called for
   no byte that was not wanted, and next_in is null if it gave nothing.
   */
  method InHand(pieces: seq<seq<byte>>, n: nat, wanted: bool) returns (calls: nat, rest: Option<seq<byte>>)
    requires n <= |Given(pieces)|
    ensures rest == None <==> wanted && n == |Given(pieces)|
    ensures rest == None ==> calls == CallsToEnd(if pieces == [] then [] else pieces[1..])
    ensures rest.Some? ==> Given(pieces)[n..] == rest.value + Later(Unasked(pieces, calls))
    ensures rest.Some? && wanted ==> rest.value != []
    ensures rest.Some? && calls > 0 ==>
      && calls < |pieces| && |rest.value| <= |pieces[calls]| && (!wanted ==> |rest.value| < |pieces[calls]|)
      && rest.value == pieces[calls][|pieces[calls]| - |rest.value|..]
    ensures pieces == [] && !wanted ==> calls == 0
  {
    hide Later, Calls, Held, CallsToEnd, Given, Unasked;
    if pieces == [] {
      NoPieces();
      return if wanted then 1 else 0, if wanted then None else Some([]);
    }
    var held;
    calls, held := HeldNow(pieces, n);
    rest := Some(held);
    if wanted && held == [] {
      calls := calls + 1;
      NextPiece(pieces, calls);
      if calls < |pieces| && pieces[calls] != [] {
        rest := Some(pieces[calls]);
        assert pieces[calls][|pieces[calls]| - |rest.value|..] == pieces[calls];
      } else {
        rest := None;
        AtEnd(pieces, calls - 1, n);
      }
    }
  }
}
