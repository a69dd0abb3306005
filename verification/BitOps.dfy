// The bit operations of C on numbers that are not negative, and what masking and
// merging a field comes to.
module BitOps {
  import opened Common

  // x << n
  function Shl(x: nat, n: nat): nat {
    if n == 0 then x else 2 * Shl(x, n - 1)
  }

  // x >> n
  function Shr(x: nat, n: nat): nat {
    if n == 0 then x else Shr(x / 2, n - 1)
  }

  function Pow2(n: nat): (p: nat)
    ensures p >= 1
  {
    if n == 0 then 1 else 2 * Pow2(n - 1)
  }

  // (1 << n) - 1
  function Mask(n: nat): nat {
    if n == 0 then 0 else 1 + 2 * Mask(n - 1)
  }

  datatype Op = AND | OR | XOR

  // One bit of each operand.
  function OnBits(op: Op, x: nat, y: nat): nat {
    match op
    case AND => if x == 1 && y == 1 then 1 else 0
    case OR => if x == 1 || y == 1 then 1 else 0
    case XOR => if x == y then 0 else 1
  }

  function Apply(op: Op, x: nat, y: nat): nat {
    if x == 0 && y == 0 then 0 else OnBits(op, x % 2, y % 2) + 2 * Apply(op, x / 2, y / 2)
  }

  // x & y
  function And(x: nat, y: nat): nat {
    Apply(AND, x, y)
  }

  // x | y
  function Or(x: nat, y: nat): nat {
    Apply(OR, x, y)
  }

  // The c bits of x from bit a up.
  function Bits(x: nat, a: nat, c: nat): nat {
    if a > 0 then Bits(x / 2, a - 1, c)
    else if c > 0 then x % 2 + 2 * Bits(x / 2, 0, c - 1)
    else 0
  }

  // x with its w bits from sh up replaced by those of v.
  function Put(x: nat, v: nat, sh: nat, w: nat): nat {
    if sh > 0 then x % 2 + 2 * Put(x / 2, v, sh - 1, w)
    else if w > 0 then v % 2 + 2 * Put(x / 2, v / 2, 0, w - 1)
    else x
  }

  // ---- shifts and masks are arithmetic ----

  lemma {:induction false} MaskIsPow2(n: nat)
    ensures Mask(n) == Pow2(n) - 1
  {
    if n > 0 {
      MaskIsPow2(n - 1);
    }
  }

  lemma {:induction false} ShlIsTimes(x: nat, n: nat)
    ensures Shl(x, n) == x * Pow2(n)
  {
    if n > 0 {
      ShlIsTimes(x, n - 1);
      Doubles(x, Pow2(n - 1));
    }
  }

  lemma Doubles(a: nat, p: nat)
    ensures a * (2 * p) == 2 * (a * p)
  {
  }

  // ---- Bits and Put are shifting and masking ----

  lemma AndOdd(x: nat, m: nat)
    ensures And(x, 1 + 2 * m) == x % 2 + 2 * And(x / 2, m)
  {
  }

  lemma AndEven(x: nat, m: nat)
    ensures And(x, 2 * m) == 2 * And(x / 2, m)
  {
  }

  lemma OrEven(b: nat, x: nat, y: nat)
    requires b < 2
    ensures Or(b + 2 * x, 2 * y) == b + 2 * Or(x, y)
  {
  }

  lemma OrOver(x: nat, v: nat)
    ensures Or(2 * x, v) == v % 2 + 2 * Or(x, v / 2)
  {
  }

  lemma {:induction false} ApplyZero(op: Op, x: nat)
    ensures Apply(op, x, 0) == Apply(op, 0, x) == if op.AND? then 0 else x
  {
    if x > 0 {
      ApplyZero(op, x / 2);
    }
  }

  // x | y is x just when y has no bit that x has not; x ^ y is x just when y is 0.
  lemma {:induction false} Absorbs(x: nat, y: nat)
    ensures Apply(OR, x, y) == x <==> Apply(AND, x, y) == y
    ensures Apply(XOR, x, y) == x <==> y == 0
  {
    if x > 0 || y > 0 {
      Absorbs(x / 2, y / 2);
    }
  }

  lemma {:induction false} XorTwice(x: nat, y: nat)
    ensures Apply(XOR, Apply(XOR, x, y), y) == x
  {
    if x > 0 || y > 0 {
      XorTwice(x / 2, y / 2);
    }
  }

  lemma {:induction false} AndMask(x: nat, c: nat)
    ensures And(x, Mask(c)) == Bits(x, 0, c)
  {
    if c > 0 {
      AndMask(x / 2, c - 1);
      AndOdd(x, Mask(c - 1));
    } else {
      ApplyZero(AND, x);
    }
  }

  lemma {:induction false} AndAll(x: nat, n: nat)
    requires x < Pow2(n)
    ensures And(x, Mask(n)) == x
  {
    if n > 0 {
      AndAll(x / 2, n - 1);
      AndOdd(x, Mask(n - 1));
    }
  }

  // A bitwise operation works on the low k bits and the rest apart.
  lemma {:induction false} ApplySplits(op: Op, b: nat, a: nat, d: nat, c: nat, k: nat)
    requires b < Pow2(k) && d < Pow2(k)
    ensures Apply(op, b + Shl(a, k), d + Shl(c, k)) == Apply(op, b, d) + Shl(Apply(op, a, c), k)
  {
    if k > 0 {
      ApplySplits(op, b / 2, a, d / 2, c, k - 1);
    }
  }

  lemma {:induction false} ApplyBelow(op: Op, x: nat, y: nat, k: nat)
    requires x < Pow2(k) && y < Pow2(k)
    ensures Apply(op, x, y) < Pow2(k)
  {
    if k > 0 {
      ApplyBelow(op, x / 2, y / 2, k - 1);
    }
  }

  // (x >> a) & ((1 << c) - 1)
  lemma {:induction false} ShiftAndMask(x: nat, a: nat, c: nat)
    ensures And(Shr(x, a), Mask(c)) == Bits(x, a, c)
  {
    if a == 0 {
      AndMask(x, c);
    } else {
      ShiftAndMask(x / 2, a - 1, c);
    }
  }

  // ~(((1 << w) - 1) << sh), in n bits
  function Hole(sh: nat, w: nat, n: nat): nat
    requires sh + w <= n
  {
    if sh > 0 then 1 + 2 * Hole(sh - 1, w, n - 1)
    else if w > 0 then 2 * Hole(0, w - 1, n - 1)
    else Mask(n)
  }

  lemma {:induction false} HoleIsNotMask(sh: nat, w: nat, n: nat)
    requires sh + w <= n
    ensures Hole(sh, w, n) == Mask(n) - Shl(Mask(w), sh)
  {
    if sh > 0 {
      HoleIsNotMask(sh - 1, w, n - 1);
    } else if w > 0 {
      HoleIsNotMask(0, w - 1, n - 1);
    }
  }

  lemma MergeAbove(x: nat, h: nat, y: nat)
    ensures Or(And(x, 1 + 2 * h), 2 * y) == x % 2 + 2 * Or(And(x / 2, h), y)
  {
    AndOdd(x, h);
    OrEven(x % 2, And(x / 2, h), y);
  }

  lemma MergeHere(x: nat, h: nat, v: nat)
    ensures Or(And(x, 2 * h), v) == v % 2 + 2 * Or(And(x / 2, h), v / 2)
  {
    AndEven(x, h);
    OrOver(And(x / 2, h), v);
  }

  // (x & ~(mask << sh)) | (v << sh)
  lemma {:induction false} Merge(x: nat, v: nat, sh: nat, w: nat, n: nat)
    requires sh + w <= n && x < Pow2(n) && v < Pow2(w)
    ensures Or(And(x, Hole(sh, w, n)), Shl(v, sh)) == Put(x, v, sh, w)
  {
    if sh > 0 {
      Merge(x / 2, v, sh - 1, w, n - 1);
      MergeAbove(x, Hole(sh - 1, w, n - 1), Shl(v, sh - 1));
    } else if w > 0 {
      Merge(x / 2, v / 2, 0, w - 1, n - 1);
      MergeHere(x, Hole(0, w - 1, n - 1), v);
    } else {
      AndAll(x, n);
      ApplyZero(OR, x);
    }
  }

  // ---- reading after writing ----

  lemma {:induction false} PutBelow(x: nat, v: nat, sh: nat, w: nat, n: nat)
    requires sh + w <= n && x < Pow2(n)
    ensures Put(x, v, sh, w) < Pow2(n)
  {
    if sh > 0 {
      PutBelow(x / 2, v, sh - 1, w, n - 1);
    } else if w > 0 {
      PutBelow(x / 2, v / 2, 0, w - 1, n - 1);
    }
  }

  lemma {:induction false} BitsOfPut(x: nat, v: nat, sh: nat, w: nat)
    ensures Bits(Put(x, v, sh, w), sh, w) == Bits(v, 0, w)
  {
    if sh > 0 {
      BitsOfPut(x / 2, v, sh - 1, w);
    } else if w > 0 {
      BitsOfPut(x / 2, v / 2, 0, w - 1);
    }
  }

  lemma {:induction false} BitsBesidePut(x: nat, v: nat, sh: nat, w: nat, a: nat, c: nat)
    requires a + c <= sh || sh + w <= a
    ensures Bits(Put(x, v, sh, w), a, c) == Bits(x, a, c)
  {
    var y := Put(x, v, sh, w);
    if sh > 0 {
      assert y / 2 == Put(x / 2, v, sh - 1, w) && y % 2 == x % 2;
      if a > 0 {
        BitsBesidePut(x / 2, v, sh - 1, w, a - 1, c);
      } else if c > 0 {
        BitsBesidePut(x / 2, v, sh - 1, w, 0, c - 1);
      }
    } else if w > 0 && a > 0 {
      assert y / 2 == Put(x / 2, v / 2, 0, w - 1);
      BitsBesidePut(x / 2, v / 2, 0, w - 1, a - 1, c);
    }
  }

  // A field of c + d bits is its low c bits and, above them, its high d bits.
  lemma {:induction false} BitsJoin(x: nat, a: nat, c: nat, d: nat)
    ensures Bits(x, a, c + d) == Bits(x, a, c) + Shl(Bits(x, a + c, d), c)
  {
    if a > 0 {
      BitsJoin(x / 2, a - 1, c, d);
    } else if c > 0 {
      BitsJoin(x / 2, 0, c - 1, d);
    }
  }

  lemma {:induction false} BitsOfZero(a: nat, c: nat)
    ensures Bits(0, a, c) == 0
  {
    if a > 0 {
      BitsOfZero(a - 1, c);
    } else if c > 0 {
      BitsOfZero(0, c - 1);
    }
  }

  lemma {:induction false} BitsAll(x: nat, c: nat)
    requires x < Pow2(c)
    ensures Bits(x, 0, c) == x
  {
    if c > 0 {
      BitsAll(x / 2, c - 1);
    }
  }

  lemma {:induction false} BitsAreMod(x: nat, c: nat)
    ensures Bits(x, 0, c) == x % Pow2(c)
  {
    if c > 0 {
      BitsAreMod(x / 2, c - 1);
      HalfMod(x, Pow2(c - 1));
    }
  }

  lemma HalfMod(x: nat, p: nat)
    requires p >= 1
    ensures x % (2 * p) == x % 2 + 2 * ((x / 2) % p)
  {
    var q, r := (x / 2) / p, x % 2 + 2 * ((x / 2) % p);
    Doubles(q, p);
    ModUnique(x, 2 * p, q, r);
  }

  lemma ModUnique(x: nat, d: nat, q: nat, r: nat)
    requires r < d && x == q * d + r
    ensures x % d == r
  {
    var k := x / d - q;
    assert k * d == (x / d) * d - q * d;
    MulApart(k, d);
  }

  lemma MulApart(k: int, d: int)
    requires d >= 0
    ensures k >= 1 ==> k * d >= d
    ensures k <= -1 ==> k * d <= -d
  {
  }

  // Byte m of v, counted from the low end.
  function ByteOf(v: nat, m: nat): byte {
    if m == 0 then v % 256 else ByteOf(v / 256, m - 1)
  }

  lemma Pow2Bytes()
    ensures Pow2(8) == 0x100
    ensures Pow2(16) == 0x1_0000
    ensures Pow2(32) == 0x1_0000_0000
    ensures Pow2(64) == 0x1_0000_0000_0000_0000
  {
    Pow2Twice(4, 0x10);
    Pow2Twice(8, 0x100);
    Pow2Twice(16, 0x1_0000);
    Pow2Twice(32, 0x1_0000_0000);
  }

  lemma Pow2Twice(n: nat, p: nat)
    requires Pow2(n) == p
    ensures Pow2(2 * n) == p * p
  {
    Pow2Adds(n, n);
  }

  lemma {:induction false} Pow2Adds(a: nat, b: nat)
    ensures Pow2(a + b) == Pow2(a) * Pow2(b)
  {
    if b > 0 {
      Pow2Adds(a, b - 1);
      Doubles(Pow2(a), Pow2(b - 1));
    }
  }

  // What an operation does to the bit at k.
  lemma {:induction false} BitOfApply(op: Op, x: nat, y: nat, k: nat)
    ensures Bits(x, k, 1) < 2 && Bits(y, k, 1) < 2
    ensures Bits(Apply(op, x, y), k, 1) == OnBits(op, Bits(x, k, 1), Bits(y, k, 1))
  {
    if k > 0 {
      BitOfApply(op, x / 2, y / 2, k - 1);
    } else {
      LowBit(x);
      LowBit(y);
      LowBit(Apply(op, x, y));
    }
  }

  lemma LowBit(x: nat)
    ensures Bits(x, 0, 1) == x % 2
  {
    assert Bits(x / 2, 0, 0) == 0;
  }

  // & needs both bits, | one of them, ^ exactly one.
  lemma ApplyBit(x: nat, y: nat, k: nat)
    ensures Bits(Apply(AND, x, y), k, 1) == 1 <==> Bits(x, k, 1) == 1 && Bits(y, k, 1) == 1
    ensures Bits(Apply(OR, x, y), k, 1) == 1 <==> Bits(x, k, 1) == 1 || Bits(y, k, 1) == 1
    ensures Bits(Apply(XOR, x, y), k, 1) == 1 <==> Bits(x, k, 1) != Bits(y, k, 1)
  {
    BitOfApply(AND, x, y, k);
    BitOfApply(OR, x, y, k);
    BitOfApply(XOR, x, y, k);
  }
}
