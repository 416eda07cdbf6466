/** A packet as a value: a chain of block views and the flat byte sequence it stands for.
    The heap classes of PktBuf are proved against the functions of this module. */
module Chain {
  import opened Basics

  /** One block: its whole payload memory and the window of it that is in use. */
  datatype View = View(mem: seq<byte>, off: nat, len: nat) {
    predicate Fits() {
      0 < len && off + len <= |mem|
    }

    function Window(): seq<byte>
      requires Fits()
    {
      mem[off..off + len]
    }
  }

  predicate Formed(c: seq<View>) {
    forall i :: 0 <= i < |c| ==> c[i].Fits()
  }

  /** The flat packet: all windows in chain order. */
  function Bytes(c: seq<View>): seq<byte>
    requires Formed(c)
  {
    if c == [] then [] else c[0].Window() + Bytes(c[1..])
  }

  /** s with the bytes from position p on replaced by d. */
  function Splice(s: seq<byte>, p: nat, d: seq<byte>): (r: seq<byte>)
    requires p + |d| <= |s|
    ensures |r| == |s|
  {
    s[..p] + d + s[p + |d|..]
  }

  /** The n bytes of s from position p on. */
  function Slice(s: seq<byte>, p: nat, n: nat): (r: seq<byte>)
    requires p + n <= |s|
    ensures |r| == n && r == s[p..p + n]
  {
    s[p..p + n]
  }

  function Repeat(v: byte, n: nat): (s: seq<byte>)
    ensures |s| == n && forall i :: 0 <= i < n ==> s[i] == v
  {
    seq(n, _ => v)
  }

  lemma RepeatSlice(v: byte, n: nat, i: nat, j: nat)
    requires i <= j <= n
    ensures Repeat(v, n)[i..j] == Repeat(v, j - i)
  {
  }

  /** Byte by byte, what a splice of one repeated byte leaves. */
  lemma SpliceRepeat(s: seq<byte>, p: nat, v: byte, n: nat)
    requires p + n <= |s|
    ensures var r := Splice(s, p, Repeat(v, n));
      |r| == |s| && forall k :: 0 <= k < |s| ==> r[k] == if p <= k < p + n then v else s[k]
  {
  }

  /** Block index and payload offset of flat position p; (|c|, 0) at the end. */
  function Locate(c: seq<View>, p: nat): (nat, nat)
    requires Formed(c)
  {
    if c == [] then (0, 0)
    else if p < c[0].len then (0, c[0].off + p)
    else var (i, o) := Locate(c[1..], p - c[0].len); (i + 1, o)
  }

  /** The sizes in which a request of n bytes is cut into blocks of b bytes. */
  function Chunks(n: nat, b: nat): (s: seq<nat>)
    requires 0 < b
    ensures forall i :: 0 <= i < |s| ==> 0 < s[i] <= b
    ensures n == 0 <==> s == []
  {
    if n == 0 then [] else [Min(n, b)] + Chunks(n - Min(n, b), b)
  }

  function Sum(s: seq<nat>): nat {
    if s == [] then 0 else s[0] + Sum(s[1..])
  }

  lemma {:induction false} BytesConcat(a: seq<View>, b: seq<View>)
    requires Formed(a) && Formed(b)
    ensures Formed(a + b) && Bytes(a + b) == Bytes(a) + Bytes(b)
  {
    if a == [] {
      assert a + b == b;
    } else {
      BytesConcat(a[1..], b);
      assert (a + b)[1..] == a[1..] + b && (a + b)[0] == a[0];
      assert Bytes(a + b) == a[0].Window() + Bytes(a[1..] + b);
      assert Bytes(a) == a[0].Window() + Bytes(a[1..]);
    }
  }

  lemma BytesFirst(c: seq<View>)
    requires Formed(c) && c != []
    ensures Formed(c[1..]) && Bytes(c) == c[0].Window() + Bytes(c[1..])
    ensures |Bytes(c)| == c[0].len + |Bytes(c[1..])|
  {
  }

  lemma BytesRest(c: seq<View>)
    requires Formed(c) && c != []
    ensures Formed(c[1..]) && |Bytes(c[1..])| == |Bytes(c)| - c[0].len
  {
  }

  lemma BytesOne(v: View)
    requires v.Fits()
    ensures Formed([v]) && Bytes([v]) == v.Window() && |Bytes([v])| == v.len
  {
    assert [v][1..] == [];
  }

  /** Any one block splits the packet into what precedes it, its window, and the rest. */
  lemma {:induction false} BytesSplit(c: seq<View>, i: nat)
    requires Formed(c) && i < |c|
    ensures Formed(c[..i]) && Formed(c[i + 1..])
    ensures Bytes(c) == Bytes(c[..i]) + c[i].Window() + Bytes(c[i + 1..])
  {
    assert c == c[..i] + c[i..];
    BytesConcat(c[..i], c[i..]);
    assert c[i..][1..] == c[i + 1..];
  }

  /** Every block is non-empty, so a chain with bytes has blocks and no more blocks than bytes. */
  lemma {:induction false} BytesLength(c: seq<View>)
    requires Formed(c)
    ensures |c| <= |Bytes(c)|
    ensures Bytes(c) == [] <==> c == []
  {
    if c != [] {
      BytesLength(c[1..]);
    }
  }

  /** Positions and cursors determine each other: a position inside the packet lies in exactly
      the block that Locate names, and the position at the end is past the last block. */
  lemma {:induction false} LocateExact(c: seq<View>, p: nat)
    requires Formed(c) && p <= |Bytes(c)|
    ensures Locate(c, p).0 == |c| <==> p == |Bytes(c)|
    ensures p == |Bytes(c)| ==> Locate(c, p) == (|c|, 0)
    ensures p < |Bytes(c)| ==>
      var (i, o) := Locate(c, p);
      i < |c| && Formed(c[..i]) && c[i].off <= o < c[i].off + c[i].len &&
      p == |Bytes(c[..i])| + (o - c[i].off)
  {
    if c != [] && c[0].len <= p {
      LocateExact(c[1..], p - c[0].len);
      var (i, o) := Locate(c, p);
      if p < |Bytes(c)| {
        assert c[1..][i - 1] == c[i];
        assert c[..i][1..] == c[1..][..i - 1];
      }
    }
  }

  /** Moving k bytes inside the current block, stepping to the next block at its end. */
  lemma {:induction false} LocateForward(c: seq<View>, p: nat, k: nat)
    requires Formed(c) && p < |Bytes(c)|
    requires Locate(c, p).0 < |c|
    requires var (i, o) := Locate(c, p); o + k <= c[i].off + c[i].len
    ensures var (i, o) := Locate(c, p);
      Locate(c, p + k) ==
        if o + k < c[i].off + c[i].len then (i, o + k)
        else if i + 1 < |c| then (i + 1, c[i + 1].off) else (|c|, 0)
  {
    var (i, o) := Locate(c, p);
    if c[0].len <= p {
      assert c[1..][i - 1] == c[i];
      LocateForward(c[1..], p - c[0].len, k);
      assert i + 1 < |c| ==> c[1..][i] == c[i + 1];
    } else if p + k == c[0].len && 1 < |c| {
      assert Locate(c[1..], 0) == (0, c[1].off);
    }
  }

  /** Locate looks only at the windows, not at the bytes in them. */
  lemma {:induction false} LocateSameWindows(c: seq<View>, d: seq<View>, p: nat)
    requires Formed(c) && Formed(d) && |c| == |d|
    requires forall i :: 0 <= i < |c| ==> c[i].off == d[i].off && c[i].len == d[i].len
    ensures Locate(c, p) == Locate(d, p)
    ensures |Bytes(c)| == |Bytes(d)|
  {
    if c != [] {
      LocateSameWindows(c[1..], d[1..], if p < c[0].len then 0 else p - c[0].len);
    }
  }

  /** Appending blocks leaves every position inside the old packet where it was. */
  lemma {:induction false} LocateAppend(c: seq<View>, d: seq<View>, p: nat)
    requires Formed(c) && Formed(d) && p < |Bytes(c)|
    ensures Formed(c + d) && Locate(c + d, p) == Locate(c, p)
  {
    assert (c + d)[1..] == c[1..] + d;
    if c[0].len <= p {
      LocateAppend(c[1..], d, p - c[0].len);
    }
  }

  lemma SpliceMiddle(a: seq<byte>, w: seq<byte>, z: seq<byte>, k: nat, d: seq<byte>)
    requires k + |d| <= |w|
    ensures Splice(a + w + z, |a| + k, d) == a + Splice(w, k, d) + z
  {
    assert (a + w + z)[..|a| + k] == a + w[..k];
    assert (a + w + z)[|a| + k + |d|..] == w[k + |d|..] + z;
  }

  lemma SpliceWindow(v: View, o: nat, d: seq<byte>)
    requires v.Fits() && v.off <= o && o + |d| <= v.off + v.len
    ensures var v' := v.(mem := Splice(v.mem, o, d));
      v'.Fits() && v'.Window() == Splice(v.Window(), o - v.off, d)
  {
  }

  /** Storing d at a located position of one block is a splice of the flat packet. */
  lemma {:induction false} StoreIsSplice(c: seq<View>, p: nat, d: seq<byte>)
    requires Formed(c) && p < |Bytes(c)| && Locate(c, p).0 < |c|
    requires var (i, o) := Locate(c, p); o + |d| <= c[i].off + c[i].len
    ensures p + |d| <= |Bytes(c)|
    ensures var (i, o) := Locate(c, p);
      var c' := c[i := c[i].(mem := Splice(c[i].mem, o, d))];
      Formed(c') && Bytes(c') == Splice(Bytes(c), p, d)
  {
    hide Splice, Bytes, Locate;
    LocateExact(c, p);
    var (i, o) := Locate(c, p);
    SpliceWindow(c[i], o, d);
    var v := c[i].(mem := Splice(c[i].mem, o, d));
    var c' := c[i := v];
    BytesSplit(c, i);
    BytesSplit(c', i);
    assert c'[..i] == c[..i] && c'[i + 1..] == c[i + 1..];
    SpliceMiddle(Bytes(c[..i]), c[i].Window(), Bytes(c[i + 1..]), o - c[i].off, d);
  }

  lemma SubSlice(s: seq<byte>, x: nat, y: nat, i: nat, j: nat)
    requires x <= y <= |s| && i <= j <= y - x
    ensures s[x..y][i..j] == s[x + i..x + j]
  {
    var a, b := s[x..y][i..j], s[x + i..x + j];
    forall k | 0 <= k < |a|
      ensures a[k] == b[k]
    {
      assert a[k] == s[x..y][i + k] == s[x + i + k];
    }
  }

  lemma SliceMiddle(a: seq<byte>, w: seq<byte>, z: seq<byte>, k: nat, n: nat)
    requires k + n <= |w|
    ensures (a + w + z)[|a| + k..|a| + k + n] == w[k..k + n]
  {
    SubSlice(a + w + z, |a|, |a| + |w|, k, k + n);
    assert (a + w + z)[|a|..|a| + |w|] == w;
  }

  /** What the current block holds at the cursor is the packet at the position. */
  lemma {:induction false} LoadIsSlice(c: seq<View>, p: nat, k: nat)
    requires Formed(c) && p < |Bytes(c)| && Locate(c, p).0 < |c|
    requires var (i, o) := Locate(c, p); o + k <= c[i].off + c[i].len
    ensures p + k <= |Bytes(c)|
    ensures var (i, o) := Locate(c, p);
      o + k <= |c[i].mem| && c[i].mem[o..o + k] == Bytes(c)[p..p + k]
  {
    hide Bytes, Locate;
    LocateExact(c, p);
    var (i, o) := Locate(c, p);
    BytesSplit(c, i);
    SliceMiddle(Bytes(c[..i]), c[i].Window(), Bytes(c[i + 1..]), o - c[i].off, k);
    SubSlice(c[i].mem, c[i].off, c[i].off + c[i].len, o - c[i].off, o - c[i].off + k);
  }

  lemma SpliceStart(s: seq<byte>, d: seq<byte>)
    requires |d| <= |s|
    ensures Splice(s, 0, d)[0..|d|] == d
  {
  }

  lemma SpliceNone(s: seq<byte>, p: nat, d: seq<byte>)
    requires p <= |s|
    ensures Splice(s, p, d[..0]) == s
  {
  }

  /** One more chunk of d stored right behind the first i bytes of it. */
  lemma SpliceStep(s: seq<byte>, p: nat, d: seq<byte>, i: nat, j: nat, mid: seq<byte>, q: nat, out: seq<byte>)
    requires i <= j <= |d| && p + |d| <= |s|
    requires mid == Splice(s, p, d[..i]) && q == p + i
    requires out == Splice(mid, q, d[i..j])
    ensures out == Splice(s, p, d[..j])
  {
  }

  lemma ChunksStep(all: seq<nat>, i: nat, left: nat, b: nat)
    requires 0 < b && 0 < left && i <= |all| && all[i..] == Chunks(left, b)
    ensures i < |all| && all[i] == Min(left, b)
    ensures all[i + 1..] == Chunks(left - Min(left, b), b)
  {
    assert all[i..][0] == all[i] && all[i..][1..] == all[i + 1..];
  }

  /** A chunked request loses and invents no byte, and needs no more blocks than it must. */
  lemma {:induction false} ChunksSum(n: nat, b: nat)
    requires 0 < b
    ensures Sum(Chunks(n, b)) == n
    ensures n <= |Chunks(n, b)| * b < n + b
  {
    if n != 0 {
      ChunksSum(n - Min(n, b), b);
    }
  }

  /** All chunks but the last are full blocks. */
  lemma {:induction false} ChunksFull(n: nat, b: nat, i: nat)
    requires 0 < b && i + 1 < |Chunks(n, b)|
    ensures Chunks(n, b)[i] == b
  {
    if 0 < i {
      ChunksFull(n - Min(n, b), b, i - 1);
    }
  }

  /** The last chunk is what the full ones before it leave. */
  lemma {:induction false} ChunksLast(n: nat, b: nat)
    requires 0 < b && 0 < n
    ensures var k := |Chunks(n, b)|; 0 < k && Chunks(n, b)[k - 1] == n - (k - 1) * b
  {
    if b < n {
      ChunksLast(n - b, b);
      var k := |Chunks(n - b, b)|;
      assert Chunks(n, b)[k] == Chunks(n - b, b)[k - 1];
      assert (k - 1) * b + b == k * b;
    } else {
      assert Chunks(n, b) == [n];
    }
  }

  /** The chain without its first n bytes: whole blocks go, the next one's window shrinks. */
  function TrimFront(c: seq<View>, n: nat): seq<View>
    requires Formed(c) && n <= |Bytes(c)|
  {
    if n == 0 then c
    else if n < c[0].len then [c[0].(off := c[0].off + n, len := c[0].len - n)] + c[1..]
    else TrimFront(c[1..], n - c[0].len)
  }

  /** How many whole blocks TrimFront takes away. */
  function Dropped(c: seq<View>, n: nat): (k: nat)
    requires Formed(c) && n <= |Bytes(c)|
    ensures k <= |c|
  {
    if n == 0 || n < c[0].len then 0 else 1 + Dropped(c[1..], n - c[0].len)
  }

  lemma TrimStep(c: seq<View>, n: nat)
    requires Formed(c) && 0 < n <= |Bytes(c)|
    ensures c != [] && Formed(c[1..])
    ensures n < c[0].len ==> Dropped(c, n) == 0
    ensures n < c[0].len ==>
      TrimFront(c, n) == [c[0].(off := c[0].off + n, len := c[0].len - n)] + c[1..]
    ensures c[0].len <= n ==> n - c[0].len <= |Bytes(c[1..])|
    ensures c[0].len <= n ==> TrimFront(c, n) == TrimFront(c[1..], n - c[0].len)
    ensures c[0].len <= n ==> Dropped(c, n) == 1 + Dropped(c[1..], n - c[0].len)
  {
  }

  /** TrimStep at the block the trimming ends in. */
  lemma TrimSecond(c: seq<View>, n: nat)
    requires Formed(c) && c != [] && 0 < n <= c[0].len
    ensures n <= |Bytes(c)| && Formed(c[1..])
    ensures TrimFront(c, n) ==
      if n < c[0].len then [c[0].(off := c[0].off + n, len := c[0].len - n)] + c[1..] else c[1..]
    ensures Dropped(c, n) == if n < c[0].len then 0 else 1
  {
  }

  lemma TrimNone(c: seq<View>)
    requires Formed(c)
    ensures TrimFront(c, 0) == c && Dropped(c, 0) == 0
  {
  }

  /** Trimming n bytes in two goes, the first of them no longer than the first window. */
  lemma TrimTwice(c: seq<View>, n: nat, k: nat, m: nat)
    requires Formed(c) && c != [] && 0 < k <= c[0].len && n == k + m && n <= |Bytes(c)|
    requires k == c[0].len || m == 0
    ensures k <= |Bytes(c)|
    ensures var d := TrimFront(c, k);
      && Formed(d) && m <= |Bytes(d)| && TrimFront(d, m) == TrimFront(c, n)
      && Dropped(c, n) == (if k < c[0].len then 0 else 1) + Dropped(d, m)
      && (m == 0 ==> d == TrimFront(c, n) && Dropped(d, m) == 0)
  {
    hide Bytes, TrimFront, Dropped;
    BytesFirst(c);
    TrimSecond(c, k);
    TrimStep(c, n);
    TrimNone(c[1..]);
    if k < c[0].len {
      TrimNone(TrimFront(c, k));
      TrimBytes(c, k);
    }
  }

  lemma {:induction false} TrimBytes(c: seq<View>, n: nat)
    requires Formed(c) && n <= |Bytes(c)|
    ensures Formed(TrimFront(c, n)) && Bytes(TrimFront(c, n)) == Bytes(c)[n..]
    ensures |TrimFront(c, n)| == |c| - Dropped(c, n)
  {
    if n != 0 {
      if n < c[0].len {
        var v := c[0].(off := c[0].off + n, len := c[0].len - n);
        assert v.Window() == c[0].Window()[n..];
        assert TrimFront(c, n)[1..] == c[1..];
      } else {
        TrimBytes(c[1..], n - c[0].len);
      }
    }
  }

  /** Trimming past a whole prefix a is trimming m bytes of what follows it. */
  lemma {:induction false} TrimPrefix(a: seq<View>, b: seq<View>, n: nat, m: nat)
    requires Formed(a) && Formed(b) && n == |Bytes(a)| + m && m <= |Bytes(b)|
    ensures Formed(a + b) && n <= |Bytes(a + b)|
    ensures TrimFront(a + b, n) == TrimFront(b, m)
    ensures Dropped(a + b, n) == |a| + Dropped(b, m)
  {
    hide Bytes, TrimFront, Dropped;
    BytesConcat(a, b);
    if a == [] {
      assert a + b == b;
      BytesLength(a);
    } else {
      assert (a + b)[1..] == a[1..] + b;
      BytesFirst(a);
      TrimStep(a + b, n);
      TrimPrefix(a[1..], b, n - a[0].len, m);
    }
  }

  /** A window grown to the left by n is trimmed back to what it was. */
  lemma TrimGrown(c: seq<View>, n: nat)
    requires Formed(c) && c != [] && n <= c[0].off
    ensures var d := [c[0].(off := c[0].off - n, len := c[0].len + n)] + c[1..];
      Formed(d) && n <= |Bytes(d)| && |Bytes(d)| == |Bytes(c)| + n
      && TrimFront(d, n) == c && Dropped(d, n) == 0
  {
    hide Bytes, TrimFront, Dropped;
    var d := [c[0].(off := c[0].off - n, len := c[0].len + n)] + c[1..];
    assert Formed(d) && d[1..] == c[1..];
    BytesFirst(c);
    BytesFirst(d);
    TrimNone(d);
    if n != 0 {
      TrimStep(d, n);
      assert [c[0]] + c[1..] == c;
    } else {
      assert d == c;
    }
  }

  /** Index of the block in which the first n bytes end. */
  function CutAt(c: seq<View>, n: nat): (k: nat)
    requires Formed(c) && 0 < n <= |Bytes(c)|
    ensures k < |c|
  {
    if n <= c[0].len then 0 else 1 + CutAt(c[1..], n - c[0].len)
  }

  lemma CutStep(c: seq<View>, n: nat)
    requires Formed(c) && 0 < n <= |Bytes(c)|
    ensures c != [] && Formed(c[1..])
    ensures n <= c[0].len ==> CutAt(c, n) == 0
    ensures c[0].len < n ==>
      n - c[0].len <= |Bytes(c[1..])| && CutAt(c, n) == 1 + CutAt(c[1..], n - c[0].len)
  {
  }

  lemma WindowPrefix(v: View, n: nat)
    requires v.Fits() && 0 < n <= v.len
    ensures v.(len := n).Fits() && v.(len := n).Window() == v.Window()[..n]
  {
    SubSlice(v.mem, v.off, v.off + v.len, 0, n);
  }

  /** Cutting the block found by CutAt to what is left of n keeps exactly the first n bytes. */
  lemma {:induction false} CutBack(c: seq<View>, n: nat)
    requires Formed(c) && 0 < n <= |Bytes(c)|
    ensures var k := CutAt(c, n);
      && Formed(c[..k]) && Formed(c[..k + 1])
      && |Bytes(c[..k])| < n <= |Bytes(c[..k])| + c[k].len
      && |Bytes(c[..k + 1])| == |Bytes(c[..k])| + c[k].len
      && var v := c[k].(len := n - |Bytes(c[..k])|);
        Formed(c[..k] + [v]) && Bytes(c[..k] + [v]) == Bytes(c)[..n]
  {
    hide Bytes;
    CutStep(c, n);
    BytesFirst(c);
    var k := CutAt(c, n);
    if n <= c[0].len {
      var v := c[0].(len := n);
      BytesOne(v);
      BytesLength([]);
      BytesOne(c[0]);
      assert c[..0] == [] && c[..1] == [c[0]] && [] + [v] == [v];
      WindowPrefix(c[0], n);
    } else {
      CutBack(c[1..], n - c[0].len);
      var v := c[k].(len := n - c[0].len - |Bytes(c[1..][..k - 1])|);
      assert c[..k][1..] == c[1..][..k - 1] && c[..k + 1][1..] == c[1..][..k];
      assert (c[..k] + [v])[1..] == c[1..][..k - 1] + [v];
      BytesFirst(c[..k]);
      BytesFirst(c[..k + 1]);
      BytesFirst(c[..k] + [v]);
    }
  }

  /** The cut falls into the last block exactly when what precedes that block is too short. */
  lemma CutLast(c: seq<View>, n: nat)
    requires Formed(c) && 0 < n <= |Bytes(c)| && c != []
    ensures CutAt(c, n) + 1 == |c| <==> |Bytes(c)| - c[|c| - 1].len < n
  {
    hide Bytes;
    var k, z := CutAt(c, n), |c| - 1;
    CutBack(c, n);
    LastAlone(c);
    if k < z {
      assert c[..z] == c[..k + 1] + c[k + 1..z];
      BytesConcat(c[..k + 1], c[k + 1..z]);
    }
  }

  lemma LastAlone(c: seq<View>)
    requires Formed(c) && c != []
    ensures var z := |c| - 1;
      Formed(c[..z]) && |Bytes(c)| == |Bytes(c[..z])| + c[z].len
  {
    var z := |c| - 1;
    BytesSplit(c, z);
    assert c[z + 1..] == [];
  }

  lemma PrefixTwice(a: seq<byte>, w: seq<byte>, n: nat)
    requires n <= |w|
    ensures (a + w)[..|a| + n] == a + w[..n]
  {
  }

  /** The bytes up to and including block k are the packet's first bytes. */
  lemma KeptPrefix(c: seq<View>, k: nat)
    requires Formed(c) && k < |c|
    ensures Formed(c[..k + 1]) && c[..k + 1][k] == c[k] && Bytes(c[..k + 1]) <= Bytes(c)
  {
    hide Bytes;
    assert c == c[..k + 1] + c[k + 1..];
    BytesConcat(c[..k + 1], c[k + 1..]);
  }

  /** A last window that grows keeps the packet as a prefix. */
  lemma GrowLast(c: seq<View>, n: nat)
    requires Formed(c) && c != []
    requires c[|c| - 1].off + c[|c| - 1].len + n <= |c[|c| - 1].mem|
    ensures var k := |c| - 1;
      var d := c[..k] + [c[k].(len := c[k].len + n)];
      Formed(d) && |Bytes(d)| == |Bytes(c)| + n && Bytes(c) <= Bytes(d)
  {
    hide *;
    var k := |c| - 1;
    FormedAt(c, k, n);
    var v := c[k].(len := c[k].len + n);
    assert c == c[..k] + [c[k]];
    BytesOne(c[k]);
    BytesOne(v);
    BytesConcat(c[..k], [c[k]]);
    BytesConcat(c[..k], [v]);
    WindowPrefix(v, c[k].len);
    assert c[k] == v.(len := c[k].len);
    PrefixTwice(Bytes(c[..k]), v.Window(), c[k].len);
  }

  lemma FormedAt(c: seq<View>, k: nat, n: nat)
    requires Formed(c) && k < |c| && c[k].off + c[k].len + n <= |c[k].mem|
    ensures Formed(c[..k]) && c[k].Fits() && 0 < c[k].len && c[k].(len := c[k].len + n).Fits()
  {
  }

  /** Moving n bytes from the front of t to the end of the window before it. */
  lemma MoveAcross(a: View, a': View, t: seq<View>, n: nat)
    requires a.Fits() && a'.Fits() && Formed(t) && n <= |Bytes(t)|
    requires a'.Window() == a.Window() + Slice(Bytes(t), 0, n)
    ensures Formed(TrimFront(t, n)) && Bytes([a'] + TrimFront(t, n)) == Bytes([a] + t)
  {
    hide Bytes, TrimFront;
    TrimBytes(t, n);
    BytesFirst([a] + t);
    BytesFirst([a'] + TrimFront(t, n));
    assert Bytes(t) == Slice(Bytes(t), 0, n) + Bytes(t)[n..];
  }

  /** The same with the memory operations spelled out: chunk, the first bytes of t, is stored
      behind the window of a, which starts its payload. */
  lemma PulledBytes(a: View, t: seq<View>, chunk: seq<byte>, n: nat)
    requires a.Fits() && a.off == 0 && Formed(t) && t != []
    requires 0 < n == |chunk| && n <= t[0].len && chunk == t[0].mem[t[0].off..t[0].off + n]
    requires a.len + n <= |a.mem|
    ensures n <= |Bytes(t)|
    ensures var a' := View(Splice(a.mem, a.len, chunk), 0, a.len + n);
      && a'.Fits() && Formed(TrimFront(t, n))
      && Bytes([a'] + TrimFront(t, n)) == Bytes([a] + t)
  {
    hide *;
    FirstBytes(t, chunk);
    StoredBehind(a, chunk);
    MoveAcross(a, View(Splice(a.mem, a.len, chunk), 0, a.len + n), t, n);
  }

  lemma FirstBytes(t: seq<View>, chunk: seq<byte>)
    requires Formed(t) && t != [] && |chunk| <= t[0].len
    requires chunk == t[0].mem[t[0].off..t[0].off + |chunk|]
    ensures |chunk| <= |Bytes(t)| && chunk == Slice(Bytes(t), 0, |chunk|)
  {
    hide Bytes;
    BytesFirst(t);
    SubSlice(t[0].mem, t[0].off, t[0].off + t[0].len, 0, |chunk|);
    PrefixOf(t[0].Window(), Bytes(t[1..]), |chunk|);
  }

  lemma PrefixOf(w: seq<byte>, z: seq<byte>, n: nat)
    requires n <= |w|
    ensures (w + z)[0..n] == w[0..n]
  {
  }

  lemma StoredBehind(a: View, chunk: seq<byte>)
    requires a.Fits() && a.off == 0 && a.len + |chunk| <= |a.mem|
    ensures var a' := View(Splice(a.mem, a.len, chunk), 0, a.len + |chunk|);
      a'.Fits() && a'.Window() == a.Window() + chunk
  {
  }

  /** Fewer bytes take no more blocks. */
  lemma ChunksMonotone(x: nat, y: nat, b: nat)
    requires 0 < b && x <= y
    ensures |Chunks(x, b)| <= |Chunks(y, b)|
  {
    ChunksSum(x, b);
    ChunksSum(y, b);
    MulMonotone(|Chunks(y, b)| + 1, |Chunks(x, b)|, b);
  }

  /** m full blocks of b bytes cannot hold more than m * b bytes. */
  lemma ChunksTooMany(n: nat, b: nat, m: nat)
    requires 0 < b && m * b < n
    ensures m < |Chunks(n, b)|
  {
    ChunksSum(n, b);
    MulMonotone(|Chunks(n, b)|, m, b);
  }

  lemma MulMonotone(x: nat, y: nat, b: nat)
    ensures x <= y ==> x * b <= y * b
  {
  }
}
