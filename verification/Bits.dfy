/** Machine words as natural numbers: the bit at a position, the bitwise
    operators of C++ on unsigned words, and the facts about them that the
    bitmaps and the byte codecs rest on. */
module Bits {

  /** The number of 64-bit words. */
  const U64: nat := 0x1_0000_0000_0000_0000

  function Pow2(k: nat): (p: nat)
    ensures p >= 1
  {
    if k == 0 then 1 else 2 * Pow2(k - 1)
  }

  /** The conversion of a count to `int32_t`. */
  function Int32(n: nat): (v: int)
    ensures -0x8000_0000 <= v < 0x8000_0000 && (n - v) % 0x1_0000_0000 == 0
    ensures n < 0x8000_0000 ==> v == n
    ensures 0x8000_0000 <= n < 0x1_0000_0000 ==> v == n - 0x1_0000_0000
  {
    var low := n % 0x1_0000_0000;
    if low < 0x8000_0000 then low else low - 0x1_0000_0000
  }

  /** The powers of two that occur as word sizes. */
  lemma Powers()
    ensures Pow2(1) == 2 && Pow2(7) == 0x80 && Pow2(8) == 0x100
    ensures Pow2(14) == 0x4000 && Pow2(15) == 0x8000 && Pow2(16) == 0x10000
    ensures Pow2(28) == 0x1000_0000 && Pow2(32) == 0x1_0000_0000
    ensures Pow2(63) == 0x8000_0000_0000_0000 && Pow2(64) == 0x1_0000_0000_0000_0000
  {
    PowAdd(7, 7);
    PowAdd(8, 8);
    PowAdd(14, 14);
    PowAdd(16, 16);
    PowAdd(32, 31);
    PowAdd(16, 15);
  }

  lemma {:induction false} PowAdd(a: nat, b: nat)
    ensures Pow2(a + b) == Pow2(a) * Pow2(b)
  {
    if a == 0 {
    } else {
      PowAdd(a - 1, b);
      DoubleFactor(Pow2(b), Pow2(a - 1));
    }
  }

  /** `w << k`, before any truncation to a word size. */
  function Shl(w: nat, k: nat): (r: nat)
    ensures r == 0 <==> w == 0
  {
    if k == 0 then w else 2 * Shl(w, k - 1)
  }

  lemma {:induction false} ShlIsMul(w: nat, k: nat)
    ensures Shl(w, k) == w * Pow2(k)
  {
    if k == 0 {
    } else {
      ShlIsMul(w, k - 1);
      DoubleFactor(w, Pow2(k - 1));
    }
  }

  lemma DoubleFactor(x: nat, p: nat)
    ensures x * (2 * p) == 2 * (x * p)
  {}

  /** Bit `i` of `w`, bit 0 being the least significant one. */
  predicate BitAt(w: nat, i: nat) {
    if i == 0 then w % 2 == 1 else BitAt(w / 2, i - 1)
  }

  function And(a: nat, b: nat): (r: nat)
    ensures r <= a && r <= b
  {
    if a == 0 || b == 0 then 0
    else 2 * And(a / 2, b / 2) + (if a % 2 == 1 && b % 2 == 1 then 1 else 0)
  }

  function Or(a: nat, b: nat): (r: nat)
    ensures r >= a && r >= b && r <= a + b
  {
    if a == 0 then b else if b == 0 then a
    else 2 * Or(a / 2, b / 2) + (if a % 2 == 1 || b % 2 == 1 then 1 else 0)
  }

  function Xor(a: nat, b: nat): (r: nat)
    ensures r <= a + b
  {
    if a == 0 then b else if b == 0 then a
    else 2 * Xor(a / 2, b / 2) + (if a % 2 != b % 2 then 1 else 0)
  }

  /** `__builtin_popcount`. */
  function Popcount(w: nat): (c: nat)
    ensures c <= w
    ensures c == 0 <==> w == 0
  {
    if w == 0 then 0 else w % 2 + Popcount(w / 2)
  }

  lemma {:induction false} ZeroHasNoBits(i: nat)
    ensures !BitAt(0, i)
  {
    if i == 0 {
    } else {
      ZeroHasNoBits(i - 1);
    }
  }

  lemma {:induction false} AndBit(a: nat, b: nat, i: nat)
    ensures BitAt(And(a, b), i) <==> BitAt(a, i) && BitAt(b, i)
  {
    hide And;
    AndStep(a, b);
    if i == 0 {
    } else {
      AndBit(a / 2, b / 2, i - 1);
    }
  }

  lemma {:induction false} OrBit(a: nat, b: nat, i: nat)
    ensures BitAt(Or(a, b), i) <==> BitAt(a, i) || BitAt(b, i)
  {
    hide Or;
    OrStep(a, b);
    if i == 0 {
    } else {
      OrBit(a / 2, b / 2, i - 1);
    }
  }

  lemma {:induction false} OrCommutes(a: nat, b: nat)
    ensures Or(a, b) == Or(b, a)
  {
    if a == 0 || b == 0 {
    } else {
      OrCommutes(a / 2, b / 2);
    }
  }

  /** A word is zero exactly when it has no bit set. */
  lemma {:induction false} NonZeroHasBit(w: nat, k: nat) returns (i: nat)
    requires 0 < w < Pow2(k)
    ensures i < k && BitAt(w, i)
  {
    if w % 2 == 1 {
      i := 0;
    } else {
      var j := NonZeroHasBit(w / 2, k - 1);
      i := j + 1;
    }
  }

  /** Masking with k ones keeps the remainder modulo 2^k. */
  lemma {:induction false} AndLowMask(w: nat, k: nat)
    ensures And(w, Pow2(k) - 1) == w % Pow2(k)
  {
    if k == 0 {
    } else {
      AndLowMask(w / 2, k - 1);
      ModHalves(w, Pow2(k - 1));
      AndStep(w, 2 * Pow2(k - 1) - 1);
    }
  }

  lemma ModHalves(w: nat, p: nat)
    requires p >= 1
    ensures w % (2 * p) == 2 * ((w / 2) % p) + w % 2
  {
    var q, r := (w / 2) / p, (w / 2) % p;
    assert q * (2 * p) == 2 * (q * p);
    DivModUnique(w, 2 * p, q, 2 * r + w % 2);
  }

  lemma DivTwice(n: nat, a: nat, b: nat)
    requires a >= 1 && b >= 1
    ensures n / a / b == n / (a * b)
  {
    DigitsOf(n, a, b, n / a, n / a / b, a * b);
  }

  /** A number `n` in base `a`, and its upper part `m` in base `b`. */
  lemma DigitsOf(n: nat, a: nat, b: nat, m: nat, q: nat, ab: nat)
    requires a >= 1 && b >= 1 && m == n / a && q == m / b && ab == a * b
    ensures ab >= 1 && n / ab == q && n % ab == a * (m % b) + n % a
  {
    var t, r := m % b, n % a;
    TwoDigits(a, b, q, t, m, ab);
    DivModUnique(n, ab, q, a * t + r);
  }

  lemma TwoDigits(a: nat, b: nat, q: nat, t: nat, m: nat, ab: nat)
    requires t < b && m == b * q + t && ab == a * b
    ensures a * m == q * ab + a * t && a * t + a <= ab
  {
    assert a * m == a * (b * q) + a * t;
    assert a * (b * q) == q * ab;
    TimesLess(a, t, b);
  }

  lemma TimesLess(a: nat, t: nat, b: nat)
    requires t < b
    ensures a * t + a <= a * b
  {
    assert a * (t + 1) <= a * b;
  }

  /** Bit `i` counts 2^i. */
  lemma {:induction false} BitAtIs(w: nat, i: nat)
    ensures BitAt(w, i) <==> w / Pow2(i) % 2 == 1
  {
    if i == 0 {
    } else {
      BitAtIs(w / 2, i - 1);
      DivTwice(w, 2, Pow2(i - 1));
    }
  }

  lemma DivModUnique(w: nat, d: nat, q: nat, r: nat)
    requires d >= 1 && r < d && w == q * d + r
    ensures w / d == q && w % d == r
  {
    var q', r' := w / d, w % d;
    assert w == q' * d + r';
    var e := q' - q;
    assert e * d == r - r' by {
      assert e * d == q' * d - q * d;
    }
    if e > 0 {
      MulAtLeast(e, d);
    } else if e < 0 {
      assert (-e) * d == r' - r;
      MulAtLeast(-e, d);
    }
  }

  lemma MulAtLeast(x: nat, d: nat)
    requires x >= 1
    ensures x * d >= d
  {}

  /** Or of a low part and a part shifted past it is their sum. */
  lemma {:induction false} OrDisjoint(a: nat, b: nat, k: nat)
    requires a < Pow2(k)
    ensures Or(a, Shl(b, k)) == a + Shl(b, k)
  {
    if k == 0 || a == 0 || b == 0 {
    } else {
      OrDisjoint(a / 2, b, k - 1);
    }
  }

  /** And works independently on a low part and a shifted part. */
  lemma {:induction false} AndConcat(a: nat, b: nat, c: nat, d: nat, k: nat)
    requires a < Pow2(k) && c < Pow2(k)
    ensures And(a + Shl(b, k), c + Shl(d, k)) == And(a, c) + Shl(And(b, d), k)
  {
    hide And;
    if k == 0 {
      AndZero();
    } else {
      AndConcat(a / 2, b, c / 2, d, k - 1);
      AndConcatStep(a, c, Shl(b, k - 1), Shl(d, k - 1), Shl(And(b, d), k - 1));
    }
  }

  lemma AndConcatStep(a: nat, c: nat, b: nat, d: nat, e: nat)
    requires And(a / 2 + b, c / 2 + d) == And(a / 2, c / 2) + e
    ensures And(a + 2 * b, c + 2 * d) == And(a, c) + 2 * e
  {
    hide And;
    AndStep(a + 2 * b, c + 2 * d);
    AndStep(a, c);
    assert (a + 2 * b) / 2 == a / 2 + b && (c + 2 * d) / 2 == c / 2 + d;
  }

  lemma AndZero()
    ensures And(0, 0) == 0
  {}

  lemma AndStep(a: nat, b: nat)
    ensures And(a, b) == 2 * And(a / 2, b / 2) + (if a % 2 == 1 && b % 2 == 1 then 1 else 0)
  {}

  lemma {:induction false} OrConcat(a: nat, b: nat, c: nat, d: nat, k: nat)
    requires a < Pow2(k) && c < Pow2(k)
    ensures Or(a + Shl(b, k), c + Shl(d, k)) == Or(a, c) + Shl(Or(b, d), k)
  {
    hide Or;
    if k == 0 {
      OrZero();
    } else {
      OrConcat(a / 2, b, c / 2, d, k - 1);
      OrConcatStep(a, c, Shl(b, k - 1), Shl(d, k - 1), Shl(Or(b, d), k - 1));
    }
  }

  lemma OrConcatStep(a: nat, c: nat, b: nat, d: nat, e: nat)
    requires Or(a / 2 + b, c / 2 + d) == Or(a / 2, c / 2) + e
    ensures Or(a + 2 * b, c + 2 * d) == Or(a, c) + 2 * e
  {
    hide Or;
    OrStep(a + 2 * b, c + 2 * d);
    OrStep(a, c);
    assert (a + 2 * b) / 2 == a / 2 + b && (c + 2 * d) / 2 == c / 2 + d;
  }

  lemma OrZero()
    ensures Or(0, 0) == 0
  {}

  lemma OrStep(a: nat, b: nat)
    ensures Or(a, b) == 2 * Or(a / 2, b / 2) + (if a % 2 == 1 || b % 2 == 1 then 1 else 0)
  {}

  lemma {:induction false} OrBound(a: nat, b: nat, k: nat)
    requires a < Pow2(k) && b < Pow2(k)
    ensures Or(a, b) < Pow2(k)
  {
    if k == 0 || a == 0 || b == 0 {
    } else {
      OrBound(a / 2, b / 2, k - 1);
    }
  }

  /** Xor with k ones is the complement on k bits. */
  lemma {:induction false} XorOnes(a: nat, k: nat)
    requires a < Pow2(k)
    ensures Xor(a, Pow2(k) - 1) == Pow2(k) - 1 - a
  {
    if k == 0 || a == 0 {
    } else {
      assert (Pow2(k) - 1) / 2 == Pow2(k - 1) - 1;
      XorOnes(a / 2, k - 1);
    }
  }

  lemma PowHalf(k: nat)
    requires k > 0
    ensures Pow2(k) == 2 * Pow2(k - 1)
  {}

  lemma {:induction false} PowGrows(a: nat, b: nat)
    requires a <= b
    ensures Pow2(a) <= Pow2(b)
  {
    if a == b {
    } else {
      PowGrows(a, b - 1);
    }
  }

  /** Complementing k bits flips each of them. */
  lemma {:induction false} ComplementBit(w: nat, k: nat, i: nat)
    requires w < Pow2(k) && i < k
    ensures BitAt(Pow2(k) - 1 - w, i) <==> !BitAt(w, i)
  {
    hide Pow2;
    PowHalf(k);
    if i == 0 {
    } else {
      assert (Pow2(k) - 1 - w) / 2 == Pow2(k - 1) - 1 - w / 2;
      ComplementBit(w / 2, k - 1, i - 1);
    }
  }

  lemma {:induction false} PopcountConcat(a: nat, b: nat, k: nat)
    requires a < Pow2(k)
    ensures Popcount(a + Shl(b, k)) == Popcount(a) + Popcount(b)
  {
    if k == 0 {
    } else {
      PopcountConcat(a / 2, b, k - 1);
      assert (a + Shl(b, k)) / 2 == a / 2 + Shl(b, k - 1);
      assert (a + Shl(b, k)) % 2 == a % 2;
    }
  }
}
