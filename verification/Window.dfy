/**
 The circular window of inflate: it stands for the last bytes of all output.
 */
module Window {
  import opened Bits

  /** Index of the byte i places back from the write position. */
  function Back(size: nat, wnext: nat, i: nat): int {
    if i <= wnext then wnext - i else size + wnext - i
  }

  /** win, of which whave bytes are valid and wnext is the write position, holds the end of hist. */
  ghost predicate Holds(win: seq<byte>, whave: nat, wnext: nat, hist: seq<byte>) {
    && wnext < |win|
    && whave == (if |hist| < |win| then |hist| else |win|)
    && (whave < |win| ==> wnext == whave)
    && forall i: nat {:trigger Back(|win|, wnext, i)} :: 1 <= i <= whave ==>
         win[Back(|win|, wnext, i)] == hist[|hist| - i]
  }

  method CopyInto(a: array<byte>, at: nat, data: seq<byte>)
    requires at + |data| <= a.Length
    modifies a
    ensures a[..] == old(a[..at]) + data + old(a[at + |data|..])
  {
    forall i | 0 <= i < |data| {
      a[at + i] := data[i];
    }
  }

  /** Appends data to the window; only the last a.Length bytes of it matter. */
  method UpdateWindow(window: array<byte>, whave: nat, wnext: nat, data: seq<byte>, ghost hist: seq<byte>)
      returns (whave': nat, wnext': nat)
    requires Holds(window[..], whave, wnext, hist)
    modifies window
    ensures Holds(window[..], whave', wnext', hist + data)
  {
    hide Holds;
    ghost var win := window[..];
    InRange(win, whave, wnext, hist);
    var wsize, copy := window.Length, |data|;
    if copy >= wsize {
      CopyInto(window, 0, data[copy - wsize..]);
      assert window[..] == data[copy - wsize..];
      wnext' := 0;
      whave' := wsize;
      Replaced(window[..], hist, data);
    } else {
      var dist := wsize - wnext;
      if dist > copy {
        dist := copy;
      }
      CopyInto(window, wnext, data[..dist]);
      assert window[..] == win[..wnext] + data[..dist] + win[wnext + dist..];
      var rest := copy - dist;
      if rest > 0 {
        CopyInto(window, 0, data[dist..]);
        assert window[..] == data[dist..] + win[rest..wnext] + data[..dist];
        wnext' := rest;
        whave' := wsize;
        Wrapped(win, window[..], whave, wnext, hist, data);
      } else {
        assert data[..dist] == data;
        wnext' := wnext + dist;
        if wnext' == wsize {
          wnext' := 0;
        }
        whave' := if whave < wsize then whave + dist else whave;
        Appended(win, window[..], whave, wnext, hist, data);
      }
    }
  }

  lemma InRange(win: seq<byte>, whave: nat, wnext: nat, hist: seq<byte>)
    requires Holds(win, whave, wnext, hist)
    ensures wnext < |win| && wnext <= whave <= |win|
  {
  }

  lemma Replaced(win': seq<byte>, hist: seq<byte>, data: seq<byte>)
    requires 0 < |win'| <= |data| && win' == data[|data| - |win'|..]
    ensures Holds(win', |win'|, 0, hist + data)
  {
  }

  lemma Wrapped(win: seq<byte>, win': seq<byte>, whave: nat, wnext: nat, hist: seq<byte>, data: seq<byte>)
    requires Holds(win, whave, wnext, hist) && |data| < |win| < wnext + |data|
    requires var d := |win| - wnext; win' == data[d..] + win[|data| - d..wnext] + data[..d]
    ensures Holds(win', |win|, |data| - (|win| - wnext), hist + data)
  {
    var n, d := |win|, |win| - wnext;
    var w := |data| - d;
    forall i: nat | 1 <= i <= n ensures win'[Back(n, w, i)] == (hist + data)[|hist| + |data| - i] {
      if i > |data| {
        assert Back(n, w, i) == Back(n, wnext, i - |data|);
      }
    }
  }

  lemma Appended(win: seq<byte>, win': seq<byte>, whave: nat, wnext: nat, hist: seq<byte>, data: seq<byte>)
    requires Holds(win, whave, wnext, hist) && |data| < |win| && wnext + |data| <= |win|
    requires win' == win[..wnext] + data + win[wnext + |data|..]
    ensures Holds(win', if whave < |win| then whave + |data| else whave,
                  if wnext + |data| == |win| then 0 else wnext + |data|, hist + data)
  {
    var n := |win|;
    var w := if wnext + |data| == n then 0 else wnext + |data|;
    var h := if whave < n then whave + |data| else whave;
    forall i: nat | 1 <= i <= h ensures win'[Back(n, w, i)] == (hist + data)[|hist| + |data| - i] {
      if i > |data| {
        assert Back(n, w, i) == Back(n, wnext, i - |data|);
      }
    }
  }

  /** inflateGetDictionary: the window, oldest byte first. */
  method GetDictionary(window: array<byte>, whave: nat, wnext: nat, ghost hist: seq<byte>) returns (dict: seq<byte>)
    requires Holds(window[..], whave, wnext, hist)
    ensures |dict| == if |hist| < window.Length then |hist| else window.Length
    ensures dict == hist[|hist| - |dict|..]
  {
    dict := window[wnext..whave] + window[..wnext];
    forall k | 0 <= k < whave ensures dict[k] == hist[|hist| - whave + k] {
      assert dict[k] == window[..][Back(window.Length, wnext, whave - k)];
    }
  }
}
