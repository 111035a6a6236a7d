/**
 What the size of the window does to whole streams, with their headers and trailers.
 */
module Windows {
  import opened Bits
  import opened Rfc1951
  import opened Rfc1951Facts
  import opened Wrapper
  import opened InflateHeader
  import InflateSteps
  import CrcSpec

  /** n and v are what a stream decodes to with a window of 2^bits, and with a full one. */
  ghost predicate Related(bits: nat, n: Result, v: Result) {
    && !v.outcome.Beyond? && (bits >= 15 ==> !n.outcome.Beyond?)
    && if n.outcome.Beyond? then v.head == n.head && Longer(v.outcome, n.outcome.out) else v == n
  }

  lemma TrailerExtends(w: nat, wrap: nat, flags: int, bits: seq<bool>, out: seq<byte>)
    ensures Extends(w, Wrapper.Trailer(wrap, flags, bits, out), out) && Extends(w, Size(wrap, flags, bits, out), out)
  {
    hide CheckOf, Verify;
  }

  lemma AfterExtends(w: nat, wrap: nat, flags: int, o: Outcome, out: seq<byte>)
    requires Extends(w, o, out)
    ensures Extends(w, After(wrap, flags, o), out)
  {
    hide Wrapper.Trailer;
    if o.Finished? {
      TrailerExtends(w, wrap, flags, o.rest, o.out);
      ExtendsMore(w, After(wrap, flags, o), out, o.out);
    }
  }

  lemma AfterWider(wrap: nat, flags: int, n: Outcome, v: Outcome)
    requires Wider(n, v) && Extends(32768, v, [])
    ensures Wider(After(wrap, flags, n), After(wrap, flags, v)) && Extends(32768, After(wrap, flags, v), [])
    ensures After(wrap, flags, n).Beyond? ==> n.Beyond?
  {
    hide Wrapper.Trailer;
    AfterExtends(32768, wrap, flags, v, []);
    if n.Finished? {
      TrailerExtends(32768, wrap, flags, n.rest, n.out);
    }
    if n.Beyond? && v.Finished? {
      TrailerExtends(32768, wrap, flags, v.rest, v.out);
    }
  }

  lemma BodyWithin(wrap: nat, bits: nat, flags: int, head: Saved, b: seq<bool>)
    ensures Related(bits, Body(wrap, Win(bits, false), flags, head, b),
            Body(wrap, Win(bits, true), flags, head, b))
  {
    hide Blocks, After, Pow2;
    var w := Pow2(bits);
    BlocksExtends(w, false, b, []);
    BlocksExtends(32768, false, b, []);
    if bits >= 15 {
      Pow2Mono(15, bits);
      InflateSteps.Pow2Of16();
    }
    AfterWider(wrap, flags, Blocks(w, false, b, []), Blocks(32768, false, b, []));
  }

  lemma HcrcWithin(wrap: nat, bits: nat, flags: int, check: u32, head: Saved, b: seq<bool>)
    ensures Related(bits, Hcrc(wrap, Win(bits, false), flags, check, head, b),
            Hcrc(wrap, Win(bits, true), flags, check, head, b))
  {
    hide Body;
    var h := if head.Header? then Header(head.h.(hcrc := HasHcrc(flags), done := 1)) else head;
    BodyWithin(wrap, bits, flags, h, if HasHcrc(flags) && |b| >= 16 then b[16..] else b);
  }

  lemma {:induction false} CommentWithin(wrap: nat, bits: nat, flags: int, check: u32, head: Saved, b: seq<bool>)
    ensures Related(bits, Comment(wrap, Win(bits, false), flags, check, head, b),
            Comment(wrap, Win(bits, true), flags, check, head, b))
    decreases |b|
  {
    hide Hcrc, HeaderCrc;
    if |b| >= 8 {
      var x := FirstByte(b);
      var h, c := WithComment(head, Store(CommentOf(head), x)), HeaderCrc(wrap, flags, check, [x]);
      if x == 0 {
        HcrcWithin(wrap, bits, flags, c, h, b[8..]);
      } else {
        CommentWithin(wrap, bits, flags, c, h, b[8..]);
      }
    }
  }

  lemma CommentStartWithin(wrap: nat, bits: nat, flags: int, check: u32, head: Saved, b: seq<bool>)
    ensures Related(bits, CommentStart(wrap, Win(bits, false), flags, check, head, b),
            CommentStart(wrap, Win(bits, true), flags, check, head, b))
  {
    hide Hcrc, Comment;
    CommentWithin(wrap, bits, flags, check, head, b);
    HcrcWithin(wrap, bits, flags, check, WithComment(head, Null), b);
  }

  lemma {:induction false} NameWithin(wrap: nat, bits: nat, flags: int, check: u32, head: Saved, b: seq<bool>)
    ensures Related(bits, Name(wrap, Win(bits, false), flags, check, head, b),
            Name(wrap, Win(bits, true), flags, check, head, b))
    decreases |b|
  {
    hide CommentStart, HeaderCrc;
    if |b| >= 8 {
      var x := FirstByte(b);
      var h, c := WithName(head, Store(NameOf(head), x)), HeaderCrc(wrap, flags, check, [x]);
      if x == 0 {
        CommentStartWithin(wrap, bits, flags, c, h, b[8..]);
      } else {
        NameWithin(wrap, bits, flags, c, h, b[8..]);
      }
    }
  }

  lemma {:induction false} ExtraWithin(wrap: nat, bits: nat, flags: int, check: u32, head: Saved, length: nat,
        b: seq<bool>)
    ensures Related(bits, Extra(wrap, Win(bits, false), flags, check, head, length, b),
            Extra(wrap, Win(bits, true), flags, check, head, length, b))
    decreases |b|
  {
    hide CommentStart, Name, HeaderCrc;
    if length == 0 {
      NameWithin(wrap, bits, flags, check, head, b);
      CommentStartWithin(wrap, bits, flags, check, WithName(head, Null), b);
    } else if |b| >= 8 {
      var x := FirstByte(b);
      ExtraWithin(wrap, bits, flags, HeaderCrc(wrap, flags, check, [x]), WithExtra(head, Store(ExtraOf(head), x)),
        length - 1, b[8..]);
    }
  }

  lemma FlagsWithin(wrap: nat, bits: nat, check: u32, head: Saved, b: seq<bool>)
    ensures Related(bits, Flags(wrap, Win(bits, false), check, head, b),
            Flags(wrap, Win(bits, true), check, head, b))
  {
    hide Extra, HeaderCrc, ToInt;
    forall flags: int, check: u32, head: Saved, length: nat, b: seq<bool>
      ensures Related(bits, Extra(wrap, Win(bits, false), flags, check, head, length, b),
            Extra(wrap, Win(bits, true), flags, check, head, length, b))
    {
      ExtraWithin(wrap, bits, flags, check, head, length, b);
    }
  }

  /**
   With a 32K window no stream reaches beyond it.  With a smaller one, a stream that reaches beyond it would go on
   differently with a 32K window, and any other just the same.
   */
  lemma HeadWithin(wrap: nat, bits: nat, head: Saved, b: seq<bool>)
    ensures Related(bits, Head(wrap, Win(bits, false), head, b),
            Head(wrap, Win(bits, true), head, b))
  {
    hide Flags, Body, ToInt, CrcSpec.Crc32;
    if wrap == 0 {
      BodyWithin(wrap, bits, -1, head, b);
    } else if |b| >= 16 {
      var v, rest := ToInt(b[..16]), b[16..];
      var h := if head.Header? then Header(head.h.(done := -1)) else head;
      BodyWithin(wrap, Win(bits, false).Or(v / 16 % 16 + 8).bits, 0, h, rest);
      FlagsWithin(wrap, Win(bits, false).Or(15).bits, CrcSpec.Crc32(0, Bytes2(v)), head, rest);
    }
  }
}
