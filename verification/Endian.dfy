/** Byte order of 16-bit words: the swap by masks and shifts, and what it makes of a word when it
    is stored in memory in the machine's own order. */
module Endian {
  import opened Basics
  import opened RingIndex

  type word = x: int | 0 <= x < 0x10000

  /** bswap_16, on masked and shifted words. */
  function Swap16(value: word): nat {
    Or(Shr(And(value, 0xFF00), 8), And(value, 0x00FF) * Pow(8))
  }

  function HostToNet(bigEndian: bool, value: word): nat {
    if bigEndian then value else Swap16(value)
  }

  function NetToHost(bigEndian: bool, value: word): nat {
    if bigEndian then value else Swap16(value)
  }

  function Pair(high: int, low: int): (w: word)
    requires 0 <= high < 256 && 0 <= low < 256
    ensures w / 256 == high && w % 256 == low
  {
    high * 256 + low
  }

  /** A word in memory: the high byte first on a big-endian machine, last on a little-endian. */
  function Stored(bigEndian: bool, value: word): (m: seq<byte>)
    ensures |m| == 2
  {
    if bigEndian then [value / 256, value % 256] else [value % 256, value / 256]
  }

  function Loaded(bigEndian: bool, m: seq<byte>): word
    requires |m| == 2
  {
    if bigEndian then Pair(m[0], m[1]) else Pair(m[1], m[0])
  }

  /** Network order: the high byte first. */
  function Network(value: word): (m: seq<byte>)
    ensures |m| == 2
  {
    [value / 256, value % 256]
  }

  lemma {:induction false} AndShr(a: nat, b: nat, k: nat)
    ensures Shr(And(a, b), k) == And(Shr(a, k), Shr(b, k))
  {
    if k > 0 {
      assert And(a, b) / 2 == And(a / 2, b / 2);
      AndShr(a / 2, b / 2, k - 1);
    }
  }

  /** Words without a common bit, the one below and the other above bit k, are added by or. */
  lemma {:induction false} OrDisjoint(a: nat, b: nat, k: nat)
    requires a < Pow(k)
    ensures Or(a, b * Pow(k)) == a + b * Pow(k)
    decreases k
  {
    if k == 0 {
      OrZeroLeft(b);
    } else {
      OrDisjoint(a / 2, b, k - 1);
      Doubled(b, Pow(k - 1));
    }
  }

  lemma {:induction false} OrZeroLeft(b: nat)
    ensures Or(0, b) == b
  {
    if b > 0 {
      OrZeroLeft(b / 2);
    }
  }

  lemma {:induction false} ShrIsDiv(n: nat, k: nat)
    ensures Shr(n, k) == n / Pow(k)
    decreases k
  {
    if k > 0 {
      ShrIsDiv(n / 2, k - 1);
      HalfDiv(n, Pow(k - 1));
    }
  }

  lemma HalfDiv(n: nat, p: nat)
    requires 0 < p
    ensures n / 2 / p == n / (2 * p)
  {
    var q, r := n / 2 / p, (n / 2) % p;
    assert n / 2 == p * q + r;
    assert n == (2 * p) * q + (2 * r + n % 2);
    QuotientIs(n, 2 * p, q, 2 * r + n % 2);
  }

  lemma QuotientIs(x: nat, m: nat, q: nat, r: nat)
    requires 0 < m && x == m * q + r && r < m
    ensures x / m == q
  {
    DivModUnique(x, m, q, r);
    var p := x / m;
    assert x == m * p + x % m;
    MulGap(m, p, q);
    MulGap(m, q, p);
  }

  /** The swap exchanges the two bytes. */
  lemma SwapExchanges(value: word)
    ensures Swap16(value) == Pair(value % 256, value / 256)
  {
    hide And, Or, Shr;
    assert Pow(8) == 256 && Pow(16) == 0x10000 by { PowSum(8, 8); }
    AndShr(value, 0xFF00, 8);
    ShrIsDiv(value, 8);
    ShrIsDiv(0xFF00, 8);
    MaskIsMod(value / 256, 8);
    MaskIsMod(value, 8);
    OrDisjoint(value / 256, value % 256, 8);
  }

  /** On either machine, a word converted and then stored has its bytes in network order. */
  lemma StoredInNetworkOrder(bigEndian: bool, value: word)
    ensures HostToNet(bigEndian, value) < 0x10000
    ensures Stored(bigEndian, HostToNet(bigEndian, value)) == Network(value)
  {
    hide Swap16;
    SwapExchanges(value);
  }

  /** And what is loaded and then converted is the word whose bytes are there. */
  lemma LoadedFromNetworkOrder(bigEndian: bool, value: word)
    ensures NetToHost(bigEndian, Loaded(bigEndian, Network(value))) == value
  {
    hide Swap16;
    var swapped := Pair(value % 256, value / 256);
    assert Pair(value / 256, value % 256) == value;
    SwapExchanges(swapped);
  }

  /** Every pair of bytes is some word in network order. */
  lemma NetworkIsOnto(m: seq<byte>)
    requires |m| == 2
    ensures Network(Pair(m[0], m[1])) == m
  {
  }
}
