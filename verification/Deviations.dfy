/** Concrete runs in which the code as written does not do what it is meant to do. When it does
    is stated, for all inputs, in the contracts of the operations themselves. */
module Deviations {
  import opened Basics
  import opened Chain
  import opened PktBuf
  import Ether
  import Frames
  import Timers
  import opened RingIndex
  import MemBlock

  /** A packet of n bytes at the start of its blocks, in a manager that was just started. */
  method Packet(blkSize: nat, count: nat, n: nat) returns (b: PktBuffer)
    requires 0 < blkSize && 0 < count && count * blkSize < TWO_31
    requires 0 < n && |Chunks(n, blkSize)| <= count
    ensures b.Valid() && b.capacity == n && b.mgr.blkSize == blkSize
    ensures fresh(b) && fresh(b.mgr) && fresh(Owned(b.blkList)) && fresh(Owned(b.mgr.pool))
    ensures |b.blkList| == |Chunks(n, blkSize)| && |b.blkList| + |b.mgr.pool| == count
    ensures forall i :: 0 <= i < |b.blkList| ==>
      b.blkList[i].data == 0 && b.blkList[i].size == Chunks(n, blkSize)[i]
  {
    hide PktBuffer.Valid, PktBuffer.Content, Views, Bytes, NoDup, Held, PktManager.Valid, Chunks;
    var mgr := new PktManager(blkSize, count);
    assert mgr.bufPool[0] in mgr.bufPool;
    b := mgr.GetBuffer();
    ghost var p := mgr.pool;
    Ether.EmptyPacket(b);
    var ok := b.Alloc(n, false, false);
    PlacedBack(p[..|Chunks(n, blkSize)|]);
    b.Facts();
    mgr.PoolFacts();
    assert b.blkList == p[..|Chunks(n, blkSize)|];
  }

  /** 10 bytes in a block of 64, asked to grow to 20, succeed with 30. */
  method GrowOvershoots() returns (b: PktBuffer, r: NetErr)
    ensures b.Valid() && r == NetOk && b.capacity == 30
  {
    hide PktBuffer.Valid, Views, Bytes, NoDup, Held, PktManager.Valid, Chunks;
    Ether.OneChunk(10, 64);
    b := Packet(64, 4, 10);
    Ether.RoomIs(b);
    r := b.Resize(Written, 20);
  }

  /** 100 bytes in two blocks of 64, shrunk to 10: a block that is none goes to the pool, and the
      one cut off does not. */
  method ShrinkLosesBlock() returns (b: PktBuffer, r: NetErr)
    ensures r == NetOk && b.capacity == 10 && b.mgr.nowhere in b.mgr.pool && !b.Valid()
  {
    hide PktBuffer.Valid, PktBuffer.Content, Bytes, NoDup, Held, PktManager.Valid, Chunks;
    TwoChunks();
    b := Packet(64, 4, 100);
    b.Facts();
    ghost var c := Views(b.blkList);
    r := b.Resize(Written, 10);
  }

  lemma TwoChunks()
    ensures Chunks(100, 64) == [64, 36]
  {
    Ether.OneChunk(36, 64);
  }

  /** A full packet in the only block: the header's block is none, and it is in the list. */
  method HeaderWithoutBlock() returns (b: PktBuffer, r: NetErr)
    ensures r == NetNone && b.blkList != [] && b.blkList[0] == b.mgr.nowhere && !b.Valid()
  {
    hide PktBuffer.Valid, PktBuffer.Content, Views, Bytes, NoDup, Held, PktManager.Valid, Chunks;
    Ether.OneChunk(64, 64);
    b := Packet(64, 1, 64);
    r := b.AllocHeader(Written, 14, true);
  }

  /** Two blocks of 30 bytes: a request takes them for packet and padding, its header finds none,
      and freeing it puts a block that is none into the pool. */
  method RequestSpoilsPool(hwaddr: seq<byte>, ipaddr: seq<byte>, target: seq<byte>, bigEndian: bool)
    returns (netif: Ether.EtherNet, r: NetErr)
    requires Frames.Mac(hwaddr) && Frames.Ip(ipaddr) && Frames.Ip(target)
    ensures r == NetNone && netif.mgr.nowhere in netif.mgr.pool && !Ether.Stocked(netif.mgr)
  {
    hide PktManager.Valid, PktBuffer.Valid, NoDup;
    var mgr := new PktManager(30, 2);
    netif := new Ether.EtherNet(hwaddr, ipaddr, bigEndian, mgr, 4);
    FreshPayloads(mgr.pool);
    r := Ether.MakeArpRequest(Written, netif, target);
  }

  lemma FreshPayloads(l: seq<PktBlock>)
    ensures forall x :: x in Payloads(l) ==> exists b :: b in Owned(l) && b.payload == x
  {
  }

  /** A clock one millisecond slow, in its first hour, is taken for a roll-over. */
  lemma EarlyRollOver()
    ensures Timers.RolledOver(1000, 999)
  {
    Timers.RollOverExactly(1000, 999);
  }

  /** A timer that was cancelled, reset to the period it had: the answer is success, and the timer
      is not armed. */
  method CancelledResetSucceeds(ms: nat, address: nat) returns (t: Timers.Timer, ok: bool)
    ensures ok && t.cb == None
  {
    var mgr := new Timers.TimerManager(0);
    var woke: bool;
    t, woke := mgr.AddTimer(0, ms, Some(7), false, address);
    var cancelled := t.Cancel();
    ok, woke := t.Reset(1, ms, false);
    assert mgr.Abs().tab[t] == t.Get();
  }

  /** A sleeper is told of time 110; the clock goes back and a refresh moves the deadline to 60,
      and no wake-up is made. */
  lemma RefreshPassesUnseen(t: Timers.Timer) returns (h: Timers.History)
    ensures Timers.Sound(Timers.Start(100).s)
    ensures h == Timers.Run(Timers.Start(100), [
      Timers.Call(100, Timers.NewTimer(t, 10, false, Some(7))),
      Timers.Call(100, Timers.AskNext),
      Timers.Call(50, Timers.RefreshTimer(t))])
    ensures h.promised == Some(110) && !h.woken && Timers.Known(h.s) && !Timers.Woken(h.s, h.promised)
  {
    var a := Timers.Call(100, Timers.NewTimer(t, 10, false, Some(7)));
    var b := Timers.Call(100, Timers.AskNext);
    var c := Timers.Call(50, Timers.RefreshTimer(t));
    var h0 := Timers.Start(100);
    Timers.AdvanceSound(h0, a);
    var h1 := Timers.Advance(h0, a);
    Timers.AdvanceSound(h1, b);
    var h2 := Timers.Advance(h1, b);
    Timers.AdvanceSound(h2, c);
    h := Timers.Advance(h2, c);
    ThreeCalls(h0, a, b, c);
    Timers.RefreshWokenExactly(h2.s, 50, t, Some(110));
  }

  lemma ThreeCalls(h: Timers.History, a: Timers.Call, b: Timers.Call, c: Timers.Call)
    requires Timers.Sound(h.s)
    ensures Timers.Sound(Timers.Advance(h, a).s)
    ensures Timers.Sound(Timers.Advance(Timers.Advance(h, a), b).s)
    ensures Timers.Run(h, [a, b, c]) == Timers.Advance(Timers.Advance(Timers.Advance(h, a), b), c)
  {
    hide Timers.Sound, Timers.Advance;
    Timers.SoundOrdered(h.s);
    var h1 := Timers.Advance(h, a);
    Timers.AdvanceSound(h, a);
    Timers.SoundOrdered(h1.s);
    var h2 := Timers.Advance(h1, b);
    Timers.AdvanceSound(h1, b);
    Timers.SoundOrdered(h2.s);
    Timers.AdvanceSound(h2, c);
    assert [a, b, c][1..] == [b, c] && [b, c][1..] == [c] && [c][1..] == [];
    assert Timers.Run(h2, [c]) == Timers.Run(Timers.Advance(h2, c), []);
  }

  /** Five blocks asked for: seven are pooled, and two of them never initialised. */
  method ColdBlocks(blkSize: nat) returns (p: Option<MemBlock.Pool>, ghost done: set<int>, asserted: bool)
    requires 0 < blkSize < 0x1000_0000
    ensures p.Some? && asserted && p.value.Valid() && |p.value.Free()| == 7
    ensures done != MemBlock.Elems(p.value.Free())
  {
    FiveRoundsToEight();
    p, done, asserted := MemBlock.StartUp(blkSize, 5);
  }

  lemma FiveRoundsToEight()
    ensures QueueSize(5) == 8 && !PowerOfTwo(5) && !PowerOfTwo(6)
  {
    hide And, IsPowerOfTwo, CeilPowerOfTwo;
    assert Pow(2) == 4 && Pow(3) == 8;
    forall k: nat
      ensures Pow(k) != 5 && Pow(k) != 6
    {
      if k < 3 {
        assert Pow(0) == 1 && Pow(1) == 2;
      } else if k > 3 {
        PowGrows(3, k);
      }
    }
    PowerTest(5);
    CeilIsTop(8, 3);
  }
}
