/**
 The rolling hash of deflate: strings of three bytes, older ones being shifted out.
 */
module DeflateHash {
  import opened Bits

  /** a ^ b */
  function Xor(a: nat, b: nat): nat
    decreases a + b
  {
    if a == 0 && b == 0 then 0 else (a + b) % 2 + 2 * Xor(a / 2, b / 2)
  }

  lemma XorStep(a: nat, b: nat)
    ensures Xor(a, b) == (a + b) % 2 + 2 * Xor(a / 2, b / 2)
    ensures Xor(a, b) % 2 == (a + b) % 2 && Xor(a, b) / 2 == Xor(a / 2, b / 2)
  {
    hide Xor;
    XorDef(a, b);
    var p, x := (a + b) % 2, Xor(a / 2, b / 2);
    Halved(p, x);
  }

  lemma XorDef(a: nat, b: nat)
    ensures Xor(a, b) == (a + b) % 2 + 2 * Xor(a / 2, b / 2)
  {
    if a == 0 && b == 0 {
      assert Xor(0, 0) == 0;
    }
  }

  lemma Halved(p: nat, x: nat)
    requires p < 2
    ensures (p + 2 * x) % 2 == p && (p + 2 * x) / 2 == x
  {
  }

  lemma {:induction false} XorDouble(a: nat, b: nat)
    ensures Xor(2 * a, 2 * b) == 2 * Xor(a, b)
  {
    hide Xor;
    Halved(0, a);
    Halved(0, b);
    Halved(0, a + b);
    XorStep(2 * a, 2 * b);
  }

  lemma {:induction false} XorLow(a: nat, b: nat, n: nat)
    ensures Low(Xor(a, b), n) == Xor(Low(a, n), Low(b, n))
    decreases n
  {
    hide Xor, Low;
    if n == 0 {
      LowNone(a);
      LowNone(b);
      LowNone(Xor(a, b));
      XorZero(0);
    } else {
      XorStep(a, b);
      XorLow(a / 2, b / 2, n - 1);
      LowStep(a, n);
      LowStep(b, n);
      LowStep(Xor(a, b), n);
      XorStep(Low(a, n), Low(b, n));
      SameParity(a, b, Low(a, n), Low(b, n));
    }
  }

  lemma SameParity(a: nat, b: nat, x: nat, y: nat)
    requires a % 2 == x % 2 && b % 2 == y % 2
    ensures (a + b) % 2 == (x + y) % 2
  {
  }

  lemma LowStep(a: nat, n: nat)
    requires n > 0
    ensures Low(a, n) == a % 2 + 2 * Low(a / 2, n - 1) && Low(a, n) % 2 == a % 2 && Low(a, n) / 2 == Low(a / 2, n - 1)
  {
    Halved(a % 2, Low(a / 2, n - 1));
  }

  lemma {:induction false} XorZero(a: nat)
    ensures Xor(a, 0) == a && Xor(0, a) == a
  {
    if a > 0 {
      XorZero(a / 2);
    }
  }

  lemma {:induction false} XorCancel(k: nat, c: nat, d: nat)
    requires Xor(k, c) == Xor(k, d)
    ensures c == d
    decreases k + c + d
  {
    hide Xor;
    XorStep(k, c);
    XorStep(k, d);
    if k != 0 || c != 0 || d != 0 {
      XorCancel(k / 2, c / 2, d / 2);
    }
  }

  lemma {:induction false} ShlXor(a: nat, b: nat, n: nat)
    ensures Shl(Xor(a, b), n) == Xor(Shl(a, n), Shl(b, n))
  {
    hide Xor;
    if n > 0 {
      ShlXor(a, b, n - 1);
      XorDouble(Shl(a, n - 1), Shl(b, n - 1));
    }
  }

  lemma LowDouble(a: nat, n: nat)
    requires n > 0
    ensures Low(2 * a, n) == 2 * Low(a, n - 1)
  {
    hide Low;
    Halved(0, a);
    LowStep(2 * a, n);
  }

  /** Bits shifted beyond n do not matter. */
  lemma {:induction false} LowShl(a: nat, s: nat, n: nat)
    ensures Low(Shl(a, s), n) == if n <= s then 0 else Shl(Low(a, n - s), s)
    decreases s
  {
    hide Low;
    if n == 0 {
      LowNone(Shl(a, s));
    } else if s > 0 {
      LowDouble(Shl(a, s - 1), n);
      LowShl(a, s - 1, n - 1);
    }
  }

  lemma LowNone(a: nat)
    ensures Low(a, 0) == 0
  {
  }

  /** Nor does it matter when bits beyond n are dropped. */
  lemma LowShlLow(a: nat, s: nat, n: nat)
    ensures Low(Shl(Low(a, n), s), n) == Low(Shl(a, s), n)
  {
    hide Low, Shl;
    LowShl(a, s, n);
    LowShl(Low(a, n), s, n);
    if n > s {
      LowLow(a, n - s, n);
    }
  }

  // ---------- the hash ----------

  function ShiftOf(bits: nat): nat {
    (bits + 2) / 3
  }

  /** UPDATE_HASH with a mask of the given number of bits. */
  function Update(bits: nat, h: nat, c: nat): nat {
    Low(Xor(Shl(h, ShiftOf(bits)), c), bits)
  }

  /** What of h is left in the next update. */
  function Carried(bits: nat, h: nat): nat {
    Low(Shl(h, ShiftOf(bits)), bits)
  }

  lemma UpdateIs(bits: nat, h: nat, c: nat)
    ensures Update(bits, h, c) == Xor(Carried(bits, h), Low(c, bits))
  {
    hide Xor, Low, Shl;
    XorLow(Shl(h, ShiftOf(bits)), c, bits);
  }

  lemma CarriedUpdate(bits: nat, h: nat, c: nat)
    ensures Carried(bits, Update(bits, h, c)) ==
            Xor(Low(Shl(h, 2 * ShiftOf(bits)), bits), Low(Shl(c, ShiftOf(bits)), bits))
  {
    hide Xor, Low, Shl;
    var s := ShiftOf(bits);
    LowShlLow(Xor(Shl(h, s), c), s, bits);
    ShlXor(Shl(h, s), c, s);
    ShlShl(h, s, s);
    XorLow(Shl(Shl(h, s), s), Shl(c, s), bits);
  }

  /** The byte before the last two no longer counts. */
  lemma Rolls(bits: nat, x: nat, y: nat, z: nat)
    ensures Carried(bits, Update(bits, Update(bits, x, y), z)) == Carried(bits, Update(bits, y, z))
  {
    hide Xor, Low, Shl, Carried;
    var s := ShiftOf(bits);
    CarriedUpdate(bits, Update(bits, x, y), z);
    CarriedUpdate(bits, y, z);
    var t := Xor(Shl(x, s), y);
    LowShlLow(t, 2 * s, bits);
    ShlXor(Shl(x, s), y, 2 * s);
    ShlShl(x, s, 2 * s);
    XorLow(Shl(Shl(x, s), 2 * s), Shl(y, 2 * s), bits);
    LowShl(x, 3 * s, bits);
    XorZero(Low(Shl(y, 2 * s), bits));
  }

  /** The last byte can be told from the hash and what went before. */
  lemma LastByte(bits: nat, h: nat, c: byte, d: byte)
    requires bits >= 8 && Update(bits, h, c) == Update(bits, h, d)
    ensures c == d
  {
    hide Xor, Low, Shl, Carried, Update;
    UpdateIs(bits, h, c);
    UpdateIs(bits, h, d);
    ByteFits(bits, c);
    ByteFits(bits, d);
    XorCancel(Carried(bits, h), c, d);
  }

  lemma ByteFits(bits: nat, c: byte)
    requires bits >= 8
    ensures Low(c, bits) == c
  {
    hide Low;
    assert Pow2(8) == 256;
    Pow2Mono(8, bits);
    LowOfSmall(c, bits);
  }

  lemma UpdateSmall(bits: nat, h: nat, c: nat)
    ensures Update(bits, h, c) < Pow2(bits)
  {
    hide Xor, Shl;
    Bits.Split(Xor(Shl(h, ShiftOf(bits)), c), bits);
  }

  /** The hash of a string. */
  function Hash(bits: nat, x: byte, y: byte, z: byte): nat {
    Update(bits, Update(bits, x, y), z)
  }

  /** Each byte is shifted by a third of the bits, rounded up, beyond the next one, and what gets out is dropped. */
  lemma HashIs(bits: nat, x: byte, y: byte, z: byte)
    ensures var s := (bits + 2) / 3; Hash(bits, x, y, z) == Low(Xor(Xor(Shl(x, 2 * s), Shl(y, s)), z), bits)
  {
    hide Xor, Low, Shl, Carried, Update;
    var s := (bits + 2) / 3;
    UpdateIs(bits, Update(bits, x, y), z);
    CarriedUpdate(bits, x, y);
    XorLow(Shl(x, 2 * s), Shl(y, s), bits);
    XorLow(Xor(Shl(x, 2 * s), Shl(y, s)), z, bits);
  }

  /** h is ready for the byte after x and y. */
  ghost predicate Ready(bits: nat, h: nat, x: byte, y: byte) {
    Carried(bits, h) == Carried(bits, Update(bits, x, y))
  }

  lemma ReadyHash(bits: nat, h: nat, x: byte, y: byte, z: byte)
    requires Ready(bits, h, x, y)
    ensures Update(bits, h, z) == Hash(bits, x, y, z) && Ready(bits, Update(bits, h, z), y, z)
  {
    hide Xor, Low, Shl, Carried;
    UpdateIs(bits, h, z);
    UpdateIs(bits, Update(bits, x, y), z);
    Rolls(bits, x, y, z);
  }

  /** Two strings that begin with the same two bytes and have the same hash are the same. */
  lemma SameHash(bits: nat, x: byte, y: byte, z: byte, z': byte)
    requires bits >= 8 && Hash(bits, x, y, z) == Hash(bits, x, y, z')
    ensures z == z'
  {
    hide Update;
    LastByte(bits, Update(bits, x, y), z, z');
  }
}
