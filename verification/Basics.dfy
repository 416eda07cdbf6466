// Vocabulary shared by all modules: bytes, machine-word moduli, the stack's
// error codes, and the two readings of the code that the proofs compare.
module Basics {

  type byte = x: int | 0 <= x < 256

  const TWO_31: int := 0x8000_0000
  const TWO_32: int := 0x1_0000_0000
  const TWO_64: int := 0x1_0000_0000_0000_0000

  datatype Option<+T> = None | Some(value: T)

  /** net_err_t, as far as the modelled functions return it. */
  datatype NetErr = NetOk | NetMem | NetFull | NetSize | NetEmpty | NetNone | NetParam

  /** Written: every branch exactly as the source has it.
      Repaired: the same code with the deviations listed in README.md put right. */
  datatype Code = Written | Repaired

  /** A difference of two words, taken as an unsigned 32-bit word. */
  lemma WordDifference(x: int)
    requires -TWO_32 < x < TWO_32
    ensures x % TWO_32 == if x < 0 then TWO_32 + x else x
  {
  }

  lemma MulOrder(m: nat, x: nat, y: nat)
    requires x <= y
    ensures m * x <= m * y
  {
  }

  lemma MulGap(m: nat, x: nat, y: nat)
    ensures x < y ==> m * x + m <= m * y
    ensures x == y ==> m * x == m * y
  {
    if x < y {
      MulOrder(m, x + 1, y);
    }
  }

  lemma DivModUnique(x: nat, m: nat, q: nat, r: nat)
    requires 0 < m && x == m * q + r && r < m
    ensures x % m == r
  {
    var p := x / m;
    assert x == m * p + x % m;
    MulGap(m, p, q);
    MulGap(m, q, p);
  }

  lemma ModPlus(r: nat, m: nat)
    requires 0 < m
    ensures (r + m) % m == r % m
  {
    var a := r / m;
    assert r == m * a + r % m;
    assert r + m == m * (a + 1) + r % m;
    DivModUnique(r + m, m, a + 1, r % m);
  }

  function Min(a: nat, b: nat): (m: nat)
    ensures m <= a && m <= b && (m == a || m == b)
  {
    if a <= b then a else b
  }
}
