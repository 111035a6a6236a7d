/**
 MATCH: copying a string from the window, from this call's output, or from both in turn.
 */
module InflateMatch {
  import opened Bits
  import opened Lz77
  import opened Rfc1951
  import opened Window

  /** The window in use, if any, holds the end of hist; without one nothing was output before. */
  ghost predicate HistoryOk(win: seq<byte>, wsize: nat, whave: nat, wnext: nat, hist: seq<byte>) {
    if wsize == 0 then hist == [] && whave == 0
    else |win| == wsize && Holds(win, whave, wnext, hist)
  }

  lemma HaveBound(win: seq<byte>, wsize: nat, whave: nat, wnext: nat, hist: seq<byte>)
    requires HistoryOk(win, wsize, whave, wnext, hist)
    ensures whave == if |hist| < wsize then |hist| else wsize
    ensures wsize > 0 ==> wnext < wsize
  {
  }

  /** Where the byte d places back from the end of hist is. */
  lemma WindowAt(win: seq<byte>, wsize: nat, whave: nat, wnext: nat, hist: seq<byte>, d: nat)
    requires HistoryOk(win, wsize, whave, wnext, hist) && 1 <= d <= whave
    ensures d <= |hist| && 0 <= Back(wsize, wnext, d) < |win| && win[Back(wsize, wnext, d)] == hist[|hist| - d]
  {
  }

  /** Copies n bytes that lie together in the window, the first being dist back from the end of output. */
  method CopyFromWindow(window: array<byte>, from: nat, n: nat, output: seq<byte>, dist: nat,
                        ghost wsize: nat, ghost whave: nat, ghost wnext: nat, ghost hist: seq<byte>)
      returns (output': seq<byte>)
    requires HistoryOk(window[..], wsize, whave, wnext, hist) && 0 < wsize
    requires |output| < dist <= |output| + whave && n <= dist - |output|
    requires from == Back(wsize, wnext, dist - |output|)
    requires dist - |output| <= wnext || n <= dist - |output| - wnext
    ensures |output'| == |output| + n && dist <= |hist + output|
    ensures hist + output' == CopyMatch(hist + output, dist, n)
  {
    hide Holds;
    HaveBound(window[..], wsize, whave, wnext, hist);
    output' := output;
    var i := 0;
    while i < n
      invariant 0 <= i <= n && |output'| == |output| + i
      invariant hist + output' == CopyMatch(hist + output, dist, i)
    {
      WindowAt(window[..], wsize, whave, wnext, hist, dist - |output'|);
      assert from + i == Back(wsize, wnext, dist - |output'|);
      CopyOneMore(hist + output, dist, i);
      ghost var x := hist + output';
      output' := output' + [window[from + i]];
      assert hist + output' == x + [x[|x| - dist]];
      i := i + 1;
    }
  }

  /** Copies n bytes within the output of this call. */
  method CopyFromOutput(output: seq<byte>, dist: nat, n: nat, ghost hist: seq<byte>) returns (output': seq<byte>)
    requires 1 <= dist <= |output|
    ensures |output'| == |output| + n
    ensures hist + output' == CopyMatch(hist + output, dist, n)
  {
    output' := output;
    var i := 0;
    while i < n
      invariant 0 <= i <= n && |output'| == |output| + i
      invariant hist + output' == CopyMatch(hist + output, dist, i)
    {
      CopyOneMore(hist + output, dist, i);
      ghost var x := hist + output';
      output' := output' + [output'[|output'| - dist]];
      assert hist + output' == x + [x[|x| - dist]];
      i := i + 1;
    }
  }

  /** One pass of MATCH: as much as lies together and fits; fails when the distance reaches back too far. */
  method StepMatch(window: array<byte>, wsize: nat, whave: nat, wnext: nat, length: nat, offset: nat,
                   output: seq<byte>, left: nat, ghost hist: seq<byte>)
      returns (good: bool, output': seq<byte>, n: nat)
    requires HistoryOk(window[..], wsize, whave, wnext, hist)
    requires left > 0 && length > 0 && offset > 0
    ensures good <==> offset <= |output| + whave
    ensures !good ==> output' == output && n == 0
    ensures |output'| == |output| + n && n <= left && n <= length
    ensures good ==> n > 0 && offset <= |hist + output| && hist + output' == CopyMatch(hist + output, offset, n)
  {
    hide Holds, CopyMatch;
    HaveBound(window[..], wsize, whave, wnext, hist);
    output', n, good := output, 0, false;
    var copy := |output|;
    if offset > copy {
      copy := offset - copy;
      if copy > whave {
        return;
      }
      var from;
      if copy > wnext {
        copy := copy - wnext;
        from := wsize - copy;
      } else {
        from := wnext - copy;
      }
      if copy > length {
        copy := length;
      }
      if copy > left {
        copy := left;
      }
      output' := CopyFromWindow(window, from, copy, output, offset, wsize, whave, wnext, hist);
    } else {
      copy := length;
      if copy > left {
        copy := left;
      }
      output' := CopyFromOutput(output, offset, copy, hist);
    }
    n := copy;
    good := true;
  }

  /** What a pass means: the rest of the match remains, or the stream is corrupt or beyond the window. */
  lemma MatchStep(w: nat, last: bool, ll: seq<nat>, dl: seq<nat>, length: nat, offset: nat, b: seq<bool>,
                  o: seq<byte>, n: nat)
    requires 1 <= offset <= |o| && n <= length
    ensures var o' := CopyMatch(o, offset, n);
            var m := Match(w, last, ll, dl, length, offset, b, o);
            (m == Beyond(o) && offset > w) || (m == Match(w, last, ll, dl, length - n, offset, b, o') &&
                            (n == length ==> m == Codes(w, last, ll, dl, b, o')))
  {
    hide Codes;
    CopySplit(o, offset, n, length - n);
  }

  lemma MatchTooFar(w: nat, last: bool, ll: seq<nat>, dl: seq<nat>, length: nat, offset: nat, b: seq<bool>,
                    o: seq<byte>, wsize: nat, hist: seq<byte>, output: seq<byte>)
    requires o == hist + output && offset > 0 && (wsize == 0 ==> hist == []) &&
             (wsize == w || hist == [])
    requires offset > |output| + if |hist| < wsize then |hist| else wsize
    ensures Match(w, last, ll, dl, length, offset, b, o) in {Corrupt(o), Beyond(o)}
  {
  }
}
