/** Bitwise operators of unsigned machine words, defined bit by bit on natural
    numbers, and the arithmetic they amount to for the masks and shifts used by
    the cache index and by the IPv4 code. */
module BitWords {

  function Pow2(k: nat): (r: nat)
    ensures r >= 1
  {
    if k == 0 then 1 else 2 * Pow2(k - 1)
  }

  function And(x: nat, y: nat): nat
    decreases x
  {
    if x == 0 then 0 else 2 * And(x / 2, y / 2) + (if x % 2 == 1 && y % 2 == 1 then 1 else 0)
  }

  function Or(x: nat, y: nat): nat
    decreases x
  {
    if x == 0 then y else 2 * Or(x / 2, y / 2) + (if x % 2 == 1 || y % 2 == 1 then 1 else 0)
  }

  function Xor(x: nat, y: nat): nat
    decreases x
  {
    if x == 0 then y else 2 * Xor(x / 2, y / 2) + (if x % 2 != y % 2 then 1 else 0)
  }

  /** Left shift inside a word of the given width: high bits fall off. */
  function Shl(x: nat, k: nat, width: nat): nat {
    Low(x * Pow2(k), width)
  }

  function Shr(x: nat, k: nat): nat {
    High(x, k)
  }

  lemma {:induction false} Pow2Add(a: nat, b: nat)
    ensures Pow2(a + b) == Pow2(a) * Pow2(b)
  {
    if a > 0 {
      Pow2Add(a - 1, b);
      assert Pow2(a + b) == 2 * Pow2((a - 1) + b);
    }
  }

  lemma Pow2Values()
    ensures Pow2(8) == 0x100 && Pow2(16) == 0x1_0000 && Pow2(24) == 0x100_0000
    ensures Pow2(32) == 0x1_0000_0000 && Pow2(40) == 0x100_0000_0000
    ensures Pow2(64) == 0x1_0000_0000_0000_0000
  {
    assert Pow2(8) == 256 by { assert Pow2(4) == 16; Pow2Add(4, 4); }
    Pow2Add(8, 8);
    Pow2Add(16, 8);
    Pow2Add(16, 16);
    Pow2Add(32, 8);
    Pow2Add(32, 32);
  }

  /** The k low bits of x, and what lies above them. */
  function Low(x: nat, k: nat): nat {
    if k == 0 then 0 else 2 * Low(x / 2, k - 1) + x % 2
  }

  function High(x: nat, k: nat): nat {
    if k == 0 then x else High(x / 2, k - 1)
  }

  lemma {:induction false} SplitAt(x: nat, k: nat)
    ensures x == Pow2(k) * High(x, k) + Low(x, k) && Low(x, k) < Pow2(k)
  {
    if k > 0 {
      SplitAt(x / 2, k - 1);
      DoubleProduct(Pow2(k - 1), High(x, k));
    }
  }

  lemma DoubleProduct(p: nat, q: nat)
    ensures (2 * p) * q == 2 * (p * q)
  {
  }

  lemma LowHighArith(x: nat, k: nat)
    ensures Low(x, k) == x % Pow2(k) && High(x, k) == x / Pow2(k)
  {
    SplitAt(x, k);
    DivModUnique(x, Pow2(k), High(x, k), Low(x, k));
  }

  lemma DivModUnique(x: nat, d: nat, q: nat, r: nat)
    requires d >= 1 && r < d && x == d * q + r
    ensures x / d == q && x % d == r
  {
    var q', r' := x / d, x % d;
    assert x == d * q' + r' && 0 <= r' < d;
    ProductGap(d, q, q');
    ProductGap(d, q', q);
  }

  lemma ProductGap(d: nat, a: nat, b: nat)
    ensures a < b ==> d * a + d <= d * b
  {
    if a < b { ProductSplit(d, a, b - a - 1, b); }
  }

  lemma ProductSplit(d: nat, a: nat, e: nat, b: nat)
    requires b == a + 1 + e
    ensures d * b == d * a + d + d * e && d * e >= 0
  {
  }

  /** Masking with k low ones is the remainder modulo 2^k. */
  lemma AndLowMask(x: nat, k: nat)
    ensures And(x, Pow2(k) - 1) == x % Pow2(k)
  {
    AndLow(x, k);
    LowHighArith(x, k);
  }

  lemma {:induction false} AndLow(x: nat, k: nat)
    ensures And(x, Pow2(k) - 1) == Low(x, k)
  {
    if x == 0 {
      LowZero(k);
    } else if k == 0 {
      AndZero(x);
    } else {
      AndLow(x / 2, k - 1);
      AndBits(x, Pow2(k) - 1, x / 2, Pow2(k - 1) - 1, x % 2, 1);
    }
  }

  lemma {:induction false} LowZero(k: nat)
    ensures Low(0, k) == 0
  {
    if k > 0 { LowZero(k - 1); }
  }

  lemma {:induction false} AndZero(x: nat)
    ensures And(x, 0) == 0
  {
    if x > 0 { AndZero(x / 2); }
  }

  /** Joining a low part below 2^k with a multiple of 2^k is addition. */
  lemma {:induction false} OrDisjoint(x: nat, q: nat, k: nat)
    requires x < Pow2(k)
    ensures Or(x, Pow2(k) * q) == x + Pow2(k) * q
  {
    if x > 0 {
      DoubleProduct(Pow2(k - 1), q);
      OrDisjoint(x / 2, q, k - 1);
    }
  }

  /** Masking a w-bit word with the mask of w-k high ones clears its k low bits. */
  lemma {:induction false} AndHigh(x: nat, k: nat, w: nat)
    requires k <= w && x < Pow2(w)
    ensures Pow2(k) <= Pow2(w)
    ensures And(x, Pow2(w) - Pow2(k)) == x - Low(x, k)
  {
    Pow2Monotone(k, w);
    if x == 0 {
      LowZero(k);
    } else if k == 0 {
      AndOnes(x, w);
    } else {
      Pow2Monotone(k - 1, w - 1);
      AndHigh(x / 2, k - 1, w - 1);
      AndHighStep(x, Pow2(w) - Pow2(k), Pow2(w - 1) - Pow2(k - 1), Low(x, k), Low(x / 2, k - 1));
    }
  }

  lemma AndHighStep(x: nat, m: nat, half: nat, low: nat, low': nat)
    requires m == 2 * half && low == 2 * low' + x % 2
    requires And(x / 2, half) == x / 2 - low'
    ensures And(x, m) == x - low
  {
    AndBits(x, m, x / 2, half, x % 2, 0);
  }

  lemma {:induction false} AndOnes(x: nat, w: nat)
    requires x < Pow2(w)
    ensures And(x, Pow2(w) - 1) == x
  {
    if x > 0 {
      AndOnes(x / 2, w - 1);
      AndBits(x, Pow2(w) - 1, x / 2, Pow2(w - 1) - 1, x % 2, 1);
    }
  }

  /** And, one bit at a time. */
  lemma AndBits(x: nat, y: nat, a: nat, b: nat, i: nat, j: nat)
    requires x == 2 * a + i && y == 2 * b + j && i <= 1 && j <= 1
    ensures And(x, y) == 2 * And(a, b) + (if i == 1 && j == 1 then 1 else 0)
  {
    assert x / 2 == a && y / 2 == b;
  }

  lemma {:induction false} Pow2Monotone(k: nat, w: nat)
    requires k <= w
    ensures Pow2(k) <= Pow2(w)
  {
    if k < w { Pow2Monotone(k, w - 1); }
  }

  /** Flipping against all ones is the complement inside the word. */
  lemma {:induction false} XorOnes(x: nat, w: nat)
    requires x < Pow2(w)
    ensures Xor(x, Pow2(w) - 1) == Pow2(w) - 1 - x
  {
    if x > 0 {
      XorOnes(x / 2, w - 1);
      XorBits(x, Pow2(w) - 1, x / 2, Pow2(w - 1) - 1, x % 2, 1);
    }
  }

  lemma XorBits(x: nat, y: nat, a: nat, b: nat, i: nat, j: nat)
    requires x == 2 * a + i && y == 2 * b + j && i <= 1 && j <= 1
    ensures Xor(x, y) == 2 * Xor(a, b) + (if i != j then 1 else 0)
  {
    assert x / 2 == a && y / 2 == b;
  }

  lemma {:induction false} OrSym(x: nat, y: nat)
    ensures Or(x, y) == Or(y, x)
    decreases x + y
  {
    if x > 0 && y > 0 {
      OrSym(x / 2, y / 2);
    } else if x > 0 {
      OrZero(x);
    } else if y > 0 {
      OrZero(y);
    }
  }

  lemma {:induction false} OrZero(x: nat)
    ensures Or(x, 0) == x
  {
    if x > 0 { OrZero(x / 2); }
  }

  /** Masking in place and shifting down is shifting down and masking there. */
  lemma {:induction false} MaskShift(x: nat, m: nat, k: nat)
    ensures Shr(And(x, Pow2(k) * m), k) == And(Shr(x, k), m)
  {
    if k > 0 {
      DoubleProduct(Pow2(k - 1), m);
      MaskShift(x / 2, m, k - 1);
      var n := Pow2(k - 1) * m;
      assert And(x, 2 * n) == 2 * And(x / 2, n);
    }
  }

  /** Setting all bits outside a mask adds them; h is the complement of m. */
  lemma {:induction false} OrOutside(x: nat, m: nat, h: nat, w: nat)
    requires m + h == Pow2(w) - 1
    ensures Or(And(x, m), h) == And(x, m) + h
    decreases w
  {
    if w == 0 {
      AndZero(x);
    } else {
      Halves(m, h, Pow2(w - 1));
      OrOutside(x / 2, m / 2, h / 2, w - 1);
      OutsideBits(x, m, h, x / 2, m / 2, h / 2, x % 2, m % 2, h % 2);
    }
  }

  lemma Halves(m: nat, h: nat, p: nat)
    requires m + h == 2 * p - 1
    ensures m % 2 + h % 2 == 1 && m / 2 + h / 2 == p - 1
  {
  }

  lemma OutsideBits(x: nat, m: nat, h: nat, a: nat, b: nat, c: nat, i: nat, j: nat, l: nat)
    requires x == 2 * a + i && m == 2 * b + j && h == 2 * c + l && i <= 1 && j <= 1 && j + l == 1
    requires Or(And(a, b), c) == And(a, b) + c
    ensures Or(And(x, m), h) == And(x, m) + h
  {
    AndBits(x, m, a, b, i, j);
    OrBits(And(x, m), h, And(a, b), c, if i == 1 && j == 1 then 1 else 0, l);
  }

  lemma OrBits(x: nat, y: nat, a: nat, b: nat, i: nat, j: nat)
    requires x == 2 * a + i && y == 2 * b + j && i <= 1 && j <= 1
    ensures Or(x, y) == 2 * Or(a, b) + (if i == 1 || j == 1 then 1 else 0)
  {
    assert x / 2 == a && y / 2 == b;
  }
}
