/** Rounding a queue size up to a power of two by smearing bits, and masking an index with it.
    Words are numbers below 2^32; the bit operations are defined bit by bit from the low end. */
module RingIndex {
  import opened Basics

  function Or(a: nat, b: nat): nat
    decreases a + b
  {
    if a == 0 && b == 0 then 0
    else 2 * Or(a / 2, b / 2) + (if a % 2 == 1 || b % 2 == 1 then 1 else 0)
  }

  function And(a: nat, b: nat): nat
    decreases a
  {
    if a == 0 then 0
    else 2 * And(a / 2, b / 2) + (if a % 2 == 1 && b % 2 == 1 then 1 else 0)
  }

  function Shr(n: nat, k: nat): nat
    decreases k
  {
    if k == 0 then n else Shr(n / 2, k - 1)
  }

  function Pow(k: nat): (p: nat)
    ensures p >= 1
  {
    if k == 0 then 1 else 2 * Pow(k - 1)
  }

  ghost predicate PowerOfTwo(n: nat) {
    exists k: nat :: n == Pow(k)
  }

  // ---------------------------------------------------------------- the source's functions

  predicate IsPowerOfTwo(num: nat) {
    num != 0 && And(num, num - 1) == 0
  }

  function Smear(num: nat): nat {
    var a := Or(num, Shr(num, 1));
    var b := Or(a, Shr(a, 2));
    var c := Or(b, Shr(b, 4));
    var d := Or(c, Shr(c, 8));
    Or(d, Shr(d, 16))
  }

  function CeilPowerOfTwo(num: nat): int {
    Smear(num) - Shr(Smear(num), 1)
  }

  function RoundUpPowerOfTwo(num: nat): int
    requires 1 <= num
  {
    CeilPowerOfTwo((2 * (num - 1)) % TWO_32)
  }

  /** The number of cells the constructor allocates. */
  function QueueSize(size: nat): int {
    if size <= 1 then 2
    else if IsPowerOfTwo(size) then size
    else RoundUpPowerOfTwo(size)
  }

  function IndexOfQueue(index: nat, m: nat): nat
    requires 1 <= m
  {
    And(index, m - 1)
  }

  // ---------------------------------------------------------------- powers and shifts

  lemma {:induction false} PowSum(a: nat, b: nat)
    ensures Pow(a + b) == Pow(a) * Pow(b)
  {
    if a > 0 {
      PowSum(a - 1, b);
      assert 2 * (Pow(a - 1) * Pow(b)) == (2 * Pow(a - 1)) * Pow(b);
    }
  }

  lemma {:induction false} PowGrows(a: nat, b: nat)
    requires a < b
    ensures 2 * Pow(a) <= Pow(b)
  {
    if a + 1 < b {
      PowGrows(a, b - 1);
    }
  }

  lemma Pow32()
    ensures Pow(31) == TWO_31 && Pow(32) == TWO_32
  {
    assert Pow(8) == 256;
    PowSum(8, 8);
    PowSum(16, 16);
  }

  lemma {:induction false} ShrSum(n: nat, i: nat, j: nat)
    ensures Shr(n, i + j) == Shr(Shr(n, i), j)
  {
    if i > 0 {
      ShrSum(n / 2, i - 1, j);
    }
  }

  lemma {:induction false} ShrZero(n: nat, k: nat)
    requires n < Pow(k)
    ensures Shr(n, k) == 0
  {
    if k > 0 {
      ShrZero(n / 2, k - 1);
    }
  }

  lemma {:induction false} OrShr(a: nat, b: nat, k: nat)
    ensures Shr(Or(a, b), k) == Or(Shr(a, k), Shr(b, k))
  {
    if k > 0 {
      assert Or(a, b) / 2 == Or(a / 2, b / 2);
      OrShr(a / 2, b / 2, k - 1);
    }
  }

  lemma {:induction false} OrZero(a: nat)
    ensures Or(a, 0) == a
  {
    if a > 0 {
      OrZero(a / 2);
    }
  }

  /** Where a carries q above its low w bits, filling those gives the next multiple minus one. */
  lemma {:induction false} OrOnes(a: nat, w: nat)
    ensures Or(a, Pow(w) - 1) == (Shr(a, w) + 1) * Pow(w) - 1
  {
    if w == 0 {
      OrZero(a);
    } else {
      OrOnes(a / 2, w - 1);
      var p, q := Pow(w - 1), Shr(a, w) + 1;
      OddMask(p);
      Doubled(q, p);
    }
  }

  lemma OddMask(p: nat)
    requires 1 <= p
    ensures (2 * p - 1) / 2 == p - 1 && (2 * p - 1) % 2 == 1
  {
  }

  lemma Doubled(q: nat, p: nat)
    ensures q * (2 * p) == 2 * (q * p)
  {
  }

  // ---------------------------------------------------------------- smearing

  /** n has its top bit at h, and the w bits from there down are all set. */
  predicate Filled(n: nat, h: nat, w: nat) {
    if w <= h + 1 then Shr(n, h + 1 - w) == Pow(w) - 1 else n == Pow(h + 1) - 1
  }

  /** One step of the smear doubles the run of ones below the top bit. */
  lemma SmearStep(n: nat, h: nat, w: nat)
    requires Filled(n, h, w)
    ensures Filled(Or(n, Shr(n, w)), h, 2 * w)
  {
    hide Or, Pow;
    if w <= h + 1 {
      var e := if 2 * w <= h + 1 then w else h + 1 - w;
      var j := h + 1 - w - e;
      SmearBlock(n, w, e, j);
    } else {
      PowGrows(h + 1, w);
      ShrZero(n, w);
      OrZero(n);
    }
  }

  lemma SmearBlock(n: nat, w: nat, e: nat, j: nat)
    requires e <= w && Shr(n, j + e) == Pow(w) - 1
    ensures Shr(Or(n, Shr(n, w)), j) == Pow(w + e) - 1
  {
    hide *;
    var a := Shr(n, j);
    ShrSum(n, j, e);
    OrShr(n, Shr(n, w), j);
    assert Shr(Shr(n, w), j) == Pow(e) - 1 by {
      ShrSum(n, w, j);
      ShrSum(n, j + e, w - e);
      assert w + j == (j + e) + (w - e);
      ShrOnes(w, w - e);
    }
    OrOnes(a, e);
    PowSum(w, e);
  }

  lemma {:induction false} ShrOnes(w: nat, k: nat)
    requires k <= w
    ensures Shr(Pow(w) - 1, k) == Pow(w - k) - 1
  {
    if k > 0 {
      ShrOnes(w - 1, k - 1);
      assert (Pow(w) - 1) / 2 == Pow(w - 1) - 1;
    }
  }

  lemma {:induction false} TopBit(n: nat, h: nat)
    requires Pow(h) <= n < Pow(h + 1)
    ensures Shr(n, h) == 1
  {
    if h > 0 {
      TopBit(n / 2, h - 1);
    }
  }

  lemma {:induction false} FindTop(n: nat) returns (h: nat)
    requires n > 0
    ensures Pow(h) <= n < Pow(h + 1)
  {
    if n == 1 {
      h := 0;
    } else {
      h := FindTop(n / 2);
      h := h + 1;
    }
  }

  /** Five steps fill a word below its top bit. */
  lemma SmearFills(n: nat, h: nat)
    requires Pow(h) <= n < Pow(h + 1) && h < 32
    ensures Smear(n) == Pow(h + 1) - 1
  {
    hide Or, Pow;
    var a := Or(n, Shr(n, 1));
    var b := Or(a, Shr(a, 2));
    var c := Or(b, Shr(b, 4));
    var d := Or(c, Shr(c, 8));
    FilledOne(n, h);
    SmearStep(n, h, 1);
    SmearStep(a, h, 2);
    SmearStep(b, h, 4);
    SmearStep(c, h, 8);
    SmearStep(d, h, 16);
  }

  lemma FilledOne(n: nat, h: nat)
    requires Pow(h) <= n < Pow(h + 1)
    ensures Filled(n, h, 1)
  {
    TopBit(n, h);
    assert Pow(1) == 2;
  }

  /** What is left of a filled word is its top bit. */
  lemma CeilIsTop(n: nat, h: nat)
    requires Pow(h) <= n < Pow(h + 1) && h < 32
    ensures CeilPowerOfTwo(n) == Pow(h)
  {
    SmearFills(n, h);
    ShrOnes(h + 1, 1);
  }

  // ---------------------------------------------------------------- masks

  lemma {:induction false} AndSame(a: nat)
    ensures And(a, a) == a
  {
    if a > 0 {
      AndSame(a / 2);
    }
  }

  /** The bit test for a power of two is right for every word. */
  lemma {:induction false} PowerTest(n: nat)
    ensures IsPowerOfTwo(n) <==> PowerOfTwo(n)
  {
    if n > 1 {
      PowerTest(n / 2);
      if n % 2 == 0 {
        assert (n - 1) / 2 == n / 2 - 1;
        PowerHalf(n);
      } else {
        AndSame(n / 2);
        assert (n - 1) / 2 == n / 2;
        assert forall k: nat :: Pow(k) == 1 || Pow(k) % 2 == 0;
      }
    } else {
      assert Pow(0) == 1;
    }
  }

  lemma PowerHalf(n: nat)
    requires n > 1 && n % 2 == 0
    ensures PowerOfTwo(n) <==> PowerOfTwo(n / 2)
  {
    if PowerOfTwo(n) {
      var k: nat :| n == Pow(k);
      assert n / 2 == Pow(k - 1);
    }
    if PowerOfTwo(n / 2) {
      var k: nat :| n / 2 == Pow(k);
      assert n == Pow(k + 1);
    }
  }

  lemma {:induction false} MaskIsMod(x: nat, k: nat)
    ensures And(x, Pow(k) - 1) == x % Pow(k)
    decreases k
  {
    if k == 0 {
      AndZero(x);
    } else {
      MaskIsMod(x / 2, k - 1);
      assert (Pow(k) - 1) / 2 == Pow(k - 1) - 1 && (Pow(k) - 1) % 2 == 1;
      ModHalf(x, Pow(k - 1));
    }
  }

  lemma {:induction false} AndZero(a: nat)
    ensures And(a, 0) == 0
  {
    if a > 0 {
      AndZero(a / 2);
    }
  }

  lemma ModHalf(x: nat, m: nat)
    requires 0 < m
    ensures x % (2 * m) == 2 * ((x / 2) % m) + x % 2
  {
    var q, r := x / 2 / m, (x / 2) % m;
    assert x / 2 == m * q + r;
    assert x == (2 * m) * q + (2 * r + x % 2);
    DivModUnique(x, 2 * m, q, 2 * r + x % 2);
  }

  // ---------------------------------------------------------------- the queue's size

  /** For every size a caller may ask for up to 2^31: a power of two, at least 2 and the size,
      and the least such. Masking with it takes the remainder, and it divides 2^32, so an index
      that wraps at 2^32 still names the right cell. */
  lemma SizeRounded(size: nat)
    requires size <= TWO_31
    ensures var m := QueueSize(size);
      && 2 <= m && size <= m && PowerOfTwo(m)
      && (forall k: nat :: 2 <= Pow(k) && size <= Pow(k) ==> m <= Pow(k))
      && TWO_32 % m == 0
      && forall i: nat :: IndexOfQueue(i, m) == i % m
  {
    hide *;
    var m := QueueSize(size);
    var k := SizePower(size);
    assert 2 <= m && PowerOfTwo(m) by { IsPower(m, k); }
    forall j: nat | 2 <= Pow(j) && size <= Pow(j)
      ensures m <= Pow(j)
    {
      LeastPower(size, k, j);
    }
    WordDivisible(k);
    forall i: nat
      ensures IndexOfQueue(i, m) == i % m
    {
      MaskedIndex(i, k);
    }
  }

  lemma IsPower(m: nat, k: nat)
    requires 1 <= k && m == Pow(k)
    ensures PowerOfTwo(m) && 2 <= m
  {
  }

  lemma LeastPower(size: nat, k: nat, j: nat)
    requires 1 <= k && (k == 1 || Pow(k - 1) < size)
    requires 2 <= Pow(j) && size <= Pow(j)
    ensures Pow(k) <= Pow(j)
  {
    assert Pow(1) == 2;
    if j < k {
      if j < k - 1 {
        PowGrows(j, k - 1);
      }
    } else if k < j {
      PowGrows(k, j);
    }
  }

  lemma WordDivisible(k: nat)
    requires k <= 32
    ensures TWO_32 % Pow(k) == 0
  {
    hide Pow;
    Pow32();
    PowSum(k, 32 - k);
    DivModUnique(TWO_32, Pow(k), Pow(32 - k), 0);
  }

  lemma MaskedIndex(i: nat, k: nat)
    ensures IndexOfQueue(i, Pow(k)) == i % Pow(k)
  {
    MaskIsMod(i, k);
  }

  /** The exponent, and that half the power would not do. */
  lemma SizePower(size: nat) returns (k: nat)
    requires size <= TWO_31
    ensures 1 <= k <= 31 && QueueSize(size) == Pow(k) && size <= Pow(k)
    ensures k == 1 || Pow(k - 1) < size
  {
    hide IsPowerOfTwo;
    hide CeilPowerOfTwo;
    Pow32();
    PowerTest(size);
    if size <= 1 {
      k := 1;
    } else if IsPowerOfTwo(size) {
      k :| size == Pow(k);
      if k > 31 {
        PowGrows(31, k);
      }
    } else {
      assert Pow(1) == 2;
      var n := 2 * (size - 1);
      k := FindTop(n);
      if k > 31 {
        PowGrows(31, k);
      }
      CeilIsTop(n, k);
      assert size <= Pow(k);
    }
  }

  /** Beyond 2^31 the shift drops the top bit, and the rounded size is too small. */
  lemma SizeTruncated(size: nat)
    requires TWO_31 < size < TWO_32
    ensures 0 <= QueueSize(size) < size
  {
    hide IsPowerOfTwo;
    Pow32();
    PowerTest(size);
    if IsPowerOfTwo(size) {
      var k: nat :| size == Pow(k);
      if k <= 30 {
        PowGrows(k, 31);
      } else if k >= 32 {
        if k > 32 { PowGrows(32, k); }
      }
      assert false;
    } else {
      var n := (2 * (size - 1)) % TWO_32;
      if n > 0 {
        var h := FindTop(n);
        if h >= 32 {
          if h > 32 { PowGrows(32, h); }
          assert false;
        }
        CeilIsTop(n, h);
      }
    }
  }

  /** The constructor's rounding meets its purpose exactly for sizes up to 2^31. */
  lemma SizeExactlyWhen(size: nat)
    requires size < TWO_32
    ensures size <= QueueSize(size) && PowerOfTwo(QueueSize(size)) <==> size <= TWO_31
  {
    if size <= TWO_31 {
      SizeRounded(size);
    } else {
      SizeTruncated(size);
    }
  }
}
