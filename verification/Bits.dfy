/** Unsigned bitwise operators on natural numbers, with the identities that tie the masks, shifts and
    flag tests of the C++ code to ordinary arithmetic. `x << k` is `x * Pow2(k)` and `x >> k` is `x / Pow2(k)`. */
module Bits {

  function Pow2(n: nat): (p: nat)
    ensures p > 0
  {
    if n == 0 then 1 else 2 * Pow2(n - 1)
  }

  function BitOr(a: nat, b: nat): nat
    decreases a
  {
    if a == 0 then b
    else 2 * BitOr(a / 2, b / 2) + (if a % 2 == 1 || b % 2 == 1 then 1 else 0)
  }

  function BitAnd(a: nat, b: nat): nat
    decreases a
  {
    if a == 0 then 0
    else 2 * BitAnd(a / 2, b / 2) + (if a % 2 == 1 && b % 2 == 1 then 1 else 0)
  }

  lemma Pow2Values()
    ensures Pow2(0) == 1 && Pow2(1) == 2 && Pow2(2) == 4 && Pow2(4) == 16
    ensures Pow2(8) == 0x100 && Pow2(16) == 0x1_0000 && Pow2(24) == 0x100_0000
    ensures Pow2(28) == 0x1000_0000 && Pow2(29) == 0x2000_0000 && Pow2(30) == 0x4000_0000
    ensures Pow2(32) == 0x1_0000_0000
  {
    assert Pow2(4) == 16;
    Pow2Add(4, 4);
    Pow2Add(8, 8);
    Pow2Add(16, 8);
    Pow2Add(24, 4);
    Pow2Add(16, 16);
  }

  lemma {:induction false} Pow2Add(m: nat, n: nat)
    ensures Pow2(m + n) == Pow2(m) * Pow2(n)
  {
    if m > 0 {
      Pow2Add(m - 1, n);
      assert 2 * (Pow2(m - 1) * Pow2(n)) == Pow2(m) * Pow2(n);
    }
  }

  /** Or-ing in bits below bit `k` of a multiple of `2^k` is addition. */
  lemma {:induction false} OrDisjoint(hi: nat, lo: nat, k: nat)
    requires lo < Pow2(k)
    ensures BitOr(hi * Pow2(k), lo) == hi * Pow2(k) + lo
  {
    if k == 0 {
      OrZero(hi);
    } else if hi > 0 {
      var h := hi * Pow2(k - 1);
      assert hi * Pow2(k) == 2 * h by {
        assert hi * (2 * Pow2(k - 1)) == 2 * (hi * Pow2(k - 1));
      }
      OrDisjoint(hi, lo / 2, k - 1);
      assert h > 0;
      assert (2 * h) / 2 == h;
    }
  }

  lemma {:induction false} OrZero(a: nat)
    ensures BitOr(a, 0) == a
  {
    if a > 0 {
      OrZero(a / 2);
    }
  }

  lemma {:induction false} OrCommutes(a: nat, b: nat)
    ensures BitOr(a, b) == BitOr(b, a)
    decreases a + b
  {
    if a == 0 {
      OrZero(b);
    } else if b == 0 {
      OrZero(a);
    } else {
      OrCommutes(a / 2, b / 2);
    }
  }

  function LowBits(a: nat, k: nat): nat {
    if k == 0 then 0 else 2 * LowBits(a / 2, k - 1) + a % 2
  }

  lemma {:induction false} LowBitsAreRemainder(a: nat, k: nat)
    ensures LowBits(a, k) == a % Pow2(k)
  {
    if k > 0 {
      LowBitsAreRemainder(a / 2, k - 1);
      ModTwice(a, Pow2(k - 1));
    }
  }

  lemma {:induction false} AndLowBits(a: nat, k: nat)
    ensures BitAnd(a, Pow2(k) - 1) == LowBits(a, k)
  {
    if k == 0 {
      AndZero(a);
    } else {
      AndLowBits(a / 2, k - 1);
      AndOdd(a, Pow2(k - 1) - 1);
    }
  }

  /** Masking with `2^k - 1` keeps the remainder modulo `2^k`. */
  lemma AndMask(a: nat, k: nat)
    ensures BitAnd(a, Pow2(k) - 1) == a % Pow2(k)
  {
    LowBitsAreRemainder(a, k);
    AndLowBits(a, k);
  }

  lemma AndOdd(a: nat, b: nat)
    ensures BitAnd(a, 2 * b + 1) == 2 * BitAnd(a / 2, b) + a % 2
  {
    assert (2 * b + 1) / 2 == b;
  }

  lemma {:induction false} AndZero(a: nat)
    ensures BitAnd(a, 0) == 0
  {
    if a > 0 {
      AndZero(a / 2);
    }
  }

  lemma ModTwice(a: nat, m: nat)
    requires m > 0
    ensures a % (2 * m) == 2 * ((a / 2) % m) + a % 2
  {
    var q, r := (a / 2) / m, (a / 2) % m;
    assert a == 2 * (q * m + r) + a % 2;
    DivModUnique(a, 2 * m, q, 2 * r + a % 2);
  }

  lemma DivModUnique(a: nat, d: nat, q: int, r: nat)
    requires r < d
    requires a == q * d + r
    ensures a / d == q && a % d == r
  {
    var q' := a / d;
    Distribute(q', q - q', d);
    if q > q' {
      MulAtLeast(q - q', d);
    } else if q < q' {
      MulAtLeast(q' - q, d);
      Distribute(q, q' - q, d);
    }
  }

  lemma MulAtLeast(t: int, d: nat)
    requires t > 0
    ensures t * d >= d
  {
    assert t * d == (t - 1) * d + d;
    assert (t - 1) * d >= 0;
  }

  lemma Distribute(x: int, y: int, d: int)
    ensures (x + y) * d == x * d + y * d
  {}

  /** A multiple of the divisor moves out of a quotient and vanishes from a remainder. */
  lemma AddMultiple(hi: nat, lo: nat, d: nat)
    requires d > 0
    ensures (hi * d + lo) / d == hi + lo / d
    ensures (hi * d + lo) % d == lo % d
  {
    Distribute(hi, lo / d, d);
    DivModUnique(hi * d + lo, d, hi + lo / d, lo % d);
  }

  predicate Bit(a: nat, k: nat) {
    (a / Pow2(k)) % 2 == 1
  }

  lemma HalfShift(a: nat, k: nat)
    requires k > 0
    ensures a / Pow2(k) == (a / 2) / Pow2(k - 1)
  {
    var m := Pow2(k - 1);
    var q, r := (a / 2) / m, (a / 2) % m;
    assert a == 2 * (q * m + r) + a % 2;
    DivModUnique(a, 2 * m, q, 2 * r + a % 2);
  }

  /** Testing one flag bit. */
  lemma {:induction false} AndBit(a: nat, k: nat)
    ensures BitAnd(a, Pow2(k)) == if Bit(a, k) then Pow2(k) else 0
  {
    if a == 0 {
      DivModUnique(0, Pow2(k), 0, 0);
    } else if k == 0 {
      assert BitAnd(a / 2, 0) == 0 by { AndZero(a / 2); }
    } else {
      AndBit(a / 2, k - 1);
      HalfShift(a, k);
      assert Pow2(k) / 2 == Pow2(k - 1) && Pow2(k) % 2 == 0;
    }
  }

  /** Setting one flag bit. */
  lemma {:induction false} OrBit(a: nat, k: nat)
    ensures BitOr(a, Pow2(k)) == if Bit(a, k) then a else a + Pow2(k)
  {
    if a == 0 {
      DivModUnique(0, Pow2(k), 0, 0);
    } else if k == 0 {
      assert BitOr(a / 2, 0) == a / 2 by { OrZero(a / 2); }
    } else {
      OrBit(a / 2, k - 1);
      HalfShift(a, k);
      assert Pow2(k) / 2 == Pow2(k - 1) && Pow2(k) % 2 == 0;
    }
  }

  // ----- facts behind next_pow2 -----

  lemma {:induction false} OrAtLeast(a: nat, b: nat)
    ensures a <= BitOr(a, b)
    decreases a
  {
    if a > 0 {
      OrAtLeast(a / 2, b / 2);
    }
  }

  lemma {:induction false} OrBelow(a: nat, b: nat, k: nat)
    requires a < Pow2(k) && b < Pow2(k)
    ensures BitOr(a, b) < Pow2(k)
  {
    if a > 0 {
      assert k > 0;
      OrBelow(a / 2, b / 2, k - 1);
    }
  }

  /** `a >> k` */
  function Shr(a: nat, k: nat): nat {
    if k == 0 then a else Shr(a / 2, k - 1)
  }

  /** Shifting distributes over or. */
  lemma {:induction false} OrShift(a: nat, b: nat, k: nat)
    ensures Shr(BitOr(a, b), k) == BitOr(Shr(a, k), Shr(b, k))
  {
    if k > 0 {
      assert BitOr(a, b) / 2 == BitOr(a / 2, b / 2);
      OrShift(a / 2, b / 2, k - 1);
    }
  }

  lemma {:induction false} ShiftTwice(a: nat, j: nat, k: nat)
    ensures Shr(Shr(a, j), k) == Shr(a, j + k)
  {
    if j > 0 {
      ShiftTwice(a / 2, j - 1, k);
    }
  }

  lemma {:induction false} ShiftAtMost(a: nat, k: nat)
    ensures Shr(a, k) <= a
  {
    if k > 0 {
      ShiftAtMost(a / 2, k - 1);
    }
  }

  /** Or-ing `k` ones below `j` ones. */
  lemma {:induction false} OrOnes(a: nat, j: nat, k: nat)
    requires Shr(a, k) == Pow2(j) - 1
    ensures BitOr(a, Pow2(k) - 1) == Pow2(j + k) - 1
  {
    if k == 0 {
      OrZero(a);
    } else {
      var m := Pow2(k - 1);
      OrOnes(a / 2, j, k - 1);
      assert (2 * m - 1) / 2 == m - 1 && (2 * m - 1) % 2 == 1;
    }
  }

  /** Shifting `m` ones right by `k` leaves `m - k` ones. */
  lemma {:induction false} OnesShift(m: nat, k: nat)
    requires k <= m
    ensures Shr(Pow2(m) - 1, k) == Pow2(m - k) - 1
  {
    if k > 0 {
      OnesShift(m - 1, k - 1);
    }
  }

  /** The top `t` of the `w` bits of `x` are ones. */
  ghost predicate TopOnes(x: nat, w: nat, t: nat) {
    0 < t <= w && x < Pow2(w) && Shr(x, w - t) == Pow2(t) - 1
  }

  /** One line of next_pow2 doubles the run of ones at the top. */
  lemma SmearStep(x: nat, w: nat, s: nat)
    requires TopOnes(x, w, s)
    ensures TopOnes(BitOr(x, Shr(x, s)), w, if 2 * s <= w then 2 * s else w)
  {
    hide Shr, BitOr, Pow2;
    var t := if 2 * s <= w then 2 * s else w;
    var k, j := w - t, t - s;
    ShiftAtMost(x, s);
    OrBelow(x, Shr(x, s), w);
    OrShift(x, Shr(x, s), k);
    ShiftTwice(x, s, k);
    ShiftTwice(x, w - s, s - j);
    OnesShift(s, s - j);
    ShiftTwice(x, k, j);
    OrOnes(Shr(x, k), s, j);
  }

  lemma {:induction false} Width(x: nat) returns (w: nat)
    requires x > 0
    ensures w > 0 && Pow2(w - 1) <= x < Pow2(w)
  {
    if x == 1 {
      w := 1;
    } else {
      w := Width(x / 2);
      w := w + 1;
    }
  }

  /** `!(x & (x - 1))` for positive `x`. */
  lemma {:induction false} AndPredecessor(x: nat, w: nat)
    requires x > 0 && w > 0 && Pow2(w - 1) <= x < Pow2(w)
    ensures BitAnd(x, x - 1) == 0 <==> x == Pow2(w - 1)
  {
    if w == 1 {
    } else {
      AndPredecessor(x / 2, w - 1);
      if x % 2 == 1 {
        assert (x - 1) / 2 == x / 2;
        AndSelf(x / 2);
      } else {
        assert (x - 1) / 2 == x / 2 - 1;
      }
    }
  }

  lemma {:induction false} AndSelf(a: nat)
    ensures BitAnd(a, a) == a
  {
    if a > 0 {
      AndSelf(a / 2);
    }
  }

  /** The run of ones after shifts of 1, 2, ..., s / 2: `s` ones at the top, or all ones. */
  ghost predicate Smeared(x: nat, w: nat, s: nat) {
    if s <= w then TopOnes(x, w, s) else x == Pow2(w) - 1
  }

  lemma {:induction false} TopBit(x: nat, w: nat)
    requires w > 0 && Pow2(w - 1) <= x < Pow2(w)
    ensures Smeared(x, w, 1)
  {
    if w > 1 {
      TopBit(x / 2, w - 1);
    }
  }

  lemma Smear(x: nat, w: nat, s: nat)
    requires w > 0 && s > 0 && Smeared(x, w, s)
    ensures Smeared(BitOr(x, Shr(x, s)), w, 2 * s)
  {
    if s <= w {
      SmearStep(x, w, s);
    } else {
      ShiftAtMost(x, s);
      OrBelow(x, Shr(x, s), w);
      OrAtLeast(x, Shr(x, s));
    }
  }

  lemma {:induction false} Pow2Less(a: nat, b: nat)
    requires Pow2(a) < Pow2(b)
    ensures a < b
    decreases a
  {
    if a > 0 && b > 0 {
      Pow2Less(a - 1, b - 1);
    }
  }
}
