// The receive side of a connection in its own form: the receive buffer and the
// out-of-order slots are updated in place.
module TcpReceiveKernel {
  import opened Basics
  import opened TcpParams
  import opened SeqNum
  import opened TcpReceive
  import opened TcpReceiveAny

  class Receiver {
    const rxb: array<Byte>
    const ooo: array<Slot>
    var rxn: nat
    var rcvNxt: U32
    var oooBytes: int

    ghost predicate Valid()
      reads this
    {
      rxb.Length == BUF && ooo.Length == SLOTS && rxn <= BUF
    }

    ghost function View(): Rx
      requires Valid()
      reads this, rxb, ooo
    {
      Rx(rcvNxt, rxb[..rxn], ooo[..], oooBytes)
    }

    constructor (first: U32)
      ensures Valid() && fresh(rxb) && fresh(ooo)
      ensures View() == Fresh(first).s
    {
      rxb := new Byte[BUF](_ => 0);
      ooo := new Slot[SLOTS](_ => Slot(false, 0, []));
      rxn, rcvNxt, oooBytes := 0, first, 0;
      new;
      assert ooo[..] == Fresh(first).s.ooo;
    }

    // tcp_rx_append, for data that fits.
    method Append(data: seq<Byte>)
      requires Valid() && rxn + |data| <= BUF
      modifies rxb, `rxn
      ensures Valid() && rxb[..rxn] == old(rxb[..rxn]) + data
    {
      ghost var was := rxb[..rxn];
      var i := 0;
      while i < |data|
        invariant rxn == old(rxn) && i <= |data| && rxb[..rxn + i] == was + data[..i]
      {
        rxb[rxn + i] := data[i];
        assert rxb[..rxn + i + 1] == rxb[..rxn + i] + [data[i]];
        assert data[..i + 1] == data[..i] + [data[i]];
        i := i + 1;
      }
      assert data[..|data|] == data;
      rxn := rxn + |data|;
    }

    // One slot of tcp_merge_ooo.
    method MergeOne(i: nat) returns (again: bool)
      requires Valid() && i < SLOTS
      modifies this, rxb, ooo
      ensures Valid() && Merged(View(), again) == MergeSlot(old(View()), i)
    {
      again := false;
      if !ooo[i].used { return; }
      if !After(Plus(ooo[i].start, |ooo[i].data|), rcvNxt) {
        oooBytes := oooBytes - |ooo[i].data|;
        ooo[i] := ooo[i].(used := false);
        return true;
      }
      if Before(ooo[i].start, rcvNxt) {
        var trim := Minus(rcvNxt, ooo[i].start);
        oooBytes := oooBytes - trim;
        ooo[i] := Slot(true, rcvNxt, Skip(ooo[i].data, trim));
        again := true;
      }
      if ooo[i].start != rcvNxt { return; }
      if rxn + |ooo[i].data| > BUF { return; }
      Append(ooo[i].data);
      rcvNxt := Plus(rcvNxt, |ooo[i].data|);
      oooBytes := oooBytes - |ooo[i].data|;
      ooo[i] := ooo[i].(used := false);
      again := true;
    }

    method MergeAll() returns (again: bool)
      requires Valid()
      modifies this, rxb, ooo
      ensures Valid() && Merged(View(), again) == MergePass(old(View()), SLOTS)
    {
      ghost var s := View();
      again := false;
      var i := 0;
      while i < SLOTS
        invariant Valid() && i <= SLOTS && Merged(View(), again) == MergePass(s, i)
      {
        var more := MergeOne(i);
        again := again || more;
        i := i + 1;
      }
    }

    // tcp_merge_ooo.  The loop ends because each further round has fewer bytes cached; base and
    // n only say that the bookkeeping is right.
    method MergeOoo(ghost base: U32, ghost n: nat)
      requires Valid() && Sound(Zero(View()), AllZero, base, Zeros(n))
      modifies this, rxb, ooo
      ensures Valid() && View() == Merge(old(View()))
    {
      hide Sound, MergePass, Merge, Zero;
      ghost var s := View();
      var again := MergeAll();
      MergeRound(s, base, n);
      while again
        invariant Valid() && Sound(Zero(View()), AllZero, base, Zeros(n))
        invariant Merge(s) == if again then Merge(View()) else View()
        decreases oooBytes, again
      {
        MergeRound(View(), base, n);
        again := MergeAll();
      }
    }

    // tcp_queue_ooo.
    method QueueOoo(start: U32, data: seq<Byte>) returns (ok: bool)
      requires Valid()
      modifies this, ooo
      ensures Valid() && Taken(View(), ok) == Queue(old(View()), start, data)
    {
      if |data| == 0 || |data| > MSS || oooBytes + |data| > BUF { return false; }
      if !After(Plus(start, |data|), rcvNxt) { return false; }
      var from, rest := start, data;
      if !After(start, rcvNxt) {
        from, rest := rcvNxt, Skip(data, Minus(rcvNxt, start));
      }
      var clash := FindOverlap(from, |rest|);
      if clash { return false; }
      ok := PutInFreeSlot(from, rest);
    }

    method FindOverlap(start: U32, n: nat) returns (clash: bool)
      requires Valid()
      ensures clash <==> OverlapsAny(View(), start, n)
    {
      hide Before, Plus;
      var i := 0;
      while i < SLOTS
        invariant i <= SLOTS && forall j: nat | j < i :: !Overlaps(View(), start, n, j)
      {
        if ooo[i].used && Before(start, Plus(ooo[i].start, |ooo[i].data|)) && Before(ooo[i].start, Plus(start, n)) {
          assert Overlaps(View(), start, n, i);
          return true;
        }
        i := i + 1;
      }
      return false;
    }

    method PutInFreeSlot(start: U32, data: seq<Byte>) returns (ok: bool)
      requires Valid()
      modifies this`oooBytes, ooo
      ensures Valid()
      ensures var i := FirstFree(old(ooo[..]), 0);
              && ok == (i < SLOTS)
              && ooo[..] == (if ok then old(ooo[..])[i := Slot(true, start, data)] else old(ooo[..]))
              && oooBytes == old(oooBytes) + (if ok then |data| else 0)
    {
      var i := 0;
      while i < SLOTS && ooo[i].used
        invariant i <= SLOTS && FirstFree(ooo[..], 0) == FirstFree(ooo[..], i)
      {
        i := i + 1;
      }
      if i == SLOTS { return false; }
      ooo[i] := Slot(true, start, data);
      oooBytes := oooBytes + |data|;
      return true;
    }

    // tcp_accept_data, for any segment from any peer.
    method AcceptData(start: U32, data: seq<Byte>, ghost base: U32, ghost n: nat) returns (ok: bool)
      requires Valid() && Shaped(View(), base, n)
      modifies this, rxb, ooo
      ensures Valid() && Taken(View(), ok) == Accept(old(View()), start, data)
      ensures Shaped(View(), base, n)
    {
      hide RxInv, Queue, Merge, Zero;
      AnyAccept(View(), base, n, start, data);
      if start != rcvNxt {
        ok := QueueOoo(start, data);
        return;
      }
      if |data| <= MSS && rxn + |data| <= BUF {
        InOrderShaped(View(), base, n, data);
        Append(data);
        rcvNxt := Plus(rcvNxt, |data|);
        MergeOoo(base, n);
        return true;
      }
      return false;
    }

    // tcp_recv: the bytes handed out, and the rest moved to the front.
    method Receive(max: nat) returns (out: seq<Byte>)
      requires Valid()
      modifies rxb, `rxn
      ensures Valid() && (out, View()) == Recv(old(View()), max)
    {
      var n := if rxn > max then max else rxn;
      out := rxb[..n];
      ghost var was := rxb[..rxn];
      assert out == was[..n];
      var i := 0;
      while i < rxn - n
        invariant rxn == old(rxn) && i <= rxn - n
        invariant forall j | 0 <= j < i :: rxb[j] == was[n + j]
        invariant forall j | n + i <= j < rxn :: rxb[j] == was[j]
      {
        rxb[i] := rxb[n + i];
        i := i + 1;
      }
      rxn := rxn - n;
      assert rxb[..rxn] == was[n..];
      assert ooo[..] == old(ooo[..]);
    }
  }

  // One round of the loop keeps the bookkeeping right; another one is asked for only when
  // fewer bytes are left in the cache.
  lemma MergeRound(s: Rx, base: U32, n: nat)
    requires Sound(Zero(s), AllZero, base, Zeros(n))
    ensures |s.ooo| == SLOTS && s.oooBytes >= 0
    ensures var p := MergePass(s, |s.ooo|);
            && Sound(Zero(p.s), AllZero, base, Zeros(n))
            && Merge(s) == (if p.again then Merge(p.s) else p.s)
            && 0 <= p.s.oooBytes <= s.oooBytes && (p.again ==> p.s.oooBytes < s.oooBytes)
  {
    hide Zero, MergePass, Matches, Diff, Disjoint, Delivered;
    BytesOf(s);
    var p := MergePass(s, |s.ooo|);
    BytesOf(p.s);
    ZeroMergePass(s, |s.ooo|);
    MergePassSound(Zero(s), AllZero, base, Zeros(n), |s.ooo|);
    if p.again { MergeDecreases(Zero(s), AllZero, base, Zeros(n)); }
  }

  lemma InOrderShaped(s: Rx, base: U32, n: nat, data: seq<Byte>)
    requires Shaped(s, base, n) && |data| <= MSS && |s.rx| + |data| <= BUF
    ensures Sound(Zero(s.(rx := s.rx + data, rcvNxt := Plus(s.rcvNxt, |data|))), AllZero, base, Zeros(n))
  {
    hide Zero, RxInv, Sound, Plus, Diff;
    BytesOf(s);
    ZeroAppend(s, data, Plus(s.rcvNxt, |data|));
    DiffSelf(s.rcvNxt);
    AuthenticZeros(Zero(s), Zeros(n), s.rcvNxt, |data|);
    InOrderSound(Zero(s), AllZero, base, Zeros(n), Zeros(|data|));
  }
}
