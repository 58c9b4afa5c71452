// The receiver against any peer at all: no assumption on what arrives.  The code never looks
// at the bytes it moves, so its bookkeeping is that of a receiver of zeros, to which every
// segment is authentic.
module TcpReceiveAny {
  import opened Basics
  import opened TcpParams
  import opened SeqNum
  import opened TcpReceive

  function Zeros(n: nat): (r: seq<Byte>)
    ensures |r| == n && forall i: nat | i < n :: r[i] == 0
  {
    seq(n, _ => 0)
  }

  function ZeroSlot(c: Slot): Slot { Slot(c.used, c.start, Zeros(|c.data|)) }

  function Zero(s: Rx): (r: Rx)
    ensures |r.ooo| == |s.ooo|
  {
    Rx(s.rcvNxt, Zeros(|s.rx|), seq(|s.ooo|, i requires 0 <= i < |s.ooo| => ZeroSlot(s.ooo[i])), s.oooBytes)
  }

  const AllZero: Stream := (p: nat) => 0

  // ---- blanking out the bytes commutes with everything ----

  lemma ZeroUpdate(s: Rx, i: nat, c: Slot, n: int)
    requires i < |s.ooo|
    ensures Zero(s.(ooo := s.ooo[i := c], oooBytes := n))
              == Zero(s).(ooo := Zero(s).ooo[i := ZeroSlot(c)], oooBytes := n)
  {
    var a, b := Zero(s.(ooo := s.ooo[i := c], oooBytes := n)),
      Zero(s).(ooo := Zero(s).ooo[i := ZeroSlot(c)], oooBytes := n);
    assert a.ooo == b.ooo;
  }

  lemma ZeroSkip(data: seq<Byte>, n: nat)
    ensures Skip(Zeros(|data|), n) == Zeros(|Skip(data, n)|)
  {
  }

  lemma ZeroJoin(a: nat, b: nat)
    ensures Zeros(a) + Zeros(b) == Zeros(a + b)
  {
  }

  lemma ZeroRelease(s: Rx, i: nat)
    requires i < |s.ooo|
    ensures Release(Zero(s), i) == Zero(Release(s, i))
  {
    hide Zero;
    SlotOf(s, i);
    ZeroUpdate(s, i, s.ooo[i].(used := false), s.oooBytes - |s.ooo[i].data|);
  }

  lemma SlotOf(s: Rx, i: nat)
    requires i < |s.ooo|
    ensures Zero(s).ooo[i] == ZeroSlot(s.ooo[i]) && Zero(s).rcvNxt == s.rcvNxt && Zero(s).rx == Zeros(|s.rx|)
            && Zero(s).oooBytes == s.oooBytes
  {
  }

  lemma ZeroTrim(s: Rx, i: nat)
    requires i < |s.ooo|
    ensures Trim(Zero(s), i) == Zero(Trim(s, i))
  {
    hide Zero, Minus;
    SlotOf(s, i);
    var cut := Minus(s.rcvNxt, s.ooo[i].start);
    ZeroSkip(s.ooo[i].data, cut);
    ZeroUpdate(s, i, Slot(true, s.rcvNxt, Skip(s.ooo[i].data, cut)), s.oooBytes - cut);
  }

  lemma ZeroDeliver(s: Rx, i: nat)
    requires i < |s.ooo|
    ensures Deliver(Zero(s), i) == Zero(Deliver(s, i))
  {
    ZeroRelease(s, i);
    SlotOf(s, i);
    ZeroJoin(|s.rx|, |s.ooo[i].data|);
    assert Deliver(Zero(s), i).ooo == Zero(Deliver(s, i)).ooo;
  }

  lemma ZeroMergeSlot(s: Rx, i: nat)
    requires i < |s.ooo|
    ensures MergeSlot(Zero(s), i) == Merged(Zero(MergeSlot(s, i).s), MergeSlot(s, i).again)
  {
    hide Zero, Release, Deliver, Plus, After, Before;
    SlotOf(s, i);
    ZeroRelease(s, i);
    ZeroTrim(s, i);
    var t := if Before(s.ooo[i].start, s.rcvNxt) then Trim(s, i) else s;
    SlotOf(t, i);
    ZeroDeliver(t, i);
  }

  lemma {:induction false} ZeroMergePass(s: Rx, i: nat)
    requires i <= |s.ooo|
    ensures MergePass(Zero(s), i) == Merged(Zero(MergePass(s, i).s), MergePass(s, i).again)
  {
    hide Zero, MergeSlot;
    if i > 0 {
      ZeroMergePass(s, i - 1);
      ZeroMergeSlot(MergePass(s, i - 1).s, i - 1);
    }
  }

  lemma {:induction false} ZeroMerge(s: Rx)
    ensures Merge(Zero(s)) == Zero(Merge(s))
    decreases s.oooBytes
  {
    hide Zero, MergePass;
    BytesOf(s);
    ZeroMergePass(s, |s.ooo|);
    var p := MergePass(s, |s.ooo|);
    BytesOf(p.s);
    if p.again && 0 <= p.s.oooBytes < s.oooBytes { ZeroMerge(p.s); }
  }

  lemma BytesOf(s: Rx)
    ensures Zero(s).oooBytes == s.oooBytes && Zero(s).rcvNxt == s.rcvNxt && Zero(s).rx == Zeros(|s.rx|)
  {
  }

  lemma ZeroOverlaps(s: Rx, start: U32, n: nat)
    ensures OverlapsAny(Zero(s), start, n) == OverlapsAny(s, start, n)
  {
    forall i: nat | i < |s.ooo| ensures Overlaps(Zero(s), start, n, i) == Overlaps(s, start, n, i) { SlotOf(s, i); }
  }

  lemma {:induction false} ZeroFirstFree(s: Rx, i: nat)
    requires i <= |s.ooo|
    ensures FirstFree(Zero(s).ooo, i) == FirstFree(s.ooo, i)
    decreases |s.ooo| - i
  {
    hide Zero;
    if i < |s.ooo| {
      SlotOf(s, i);
      ZeroFirstFree(s, i + 1);
    }
  }

  lemma ZeroQueue(s: Rx, start: U32, data: seq<Byte>)
    ensures Queue(Zero(s), start, Zeros(|data|)) == Taken(Zero(Queue(s, start, data).s), Queue(s, start, data).ok)
  {
    hide Zero, Plus, Minus, After, OverlapsAny, FirstFree;
    BytesOf(s);
    var late := !After(start, s.rcvNxt);
    var from := if late then s.rcvNxt else start;
    var rest := if late then Skip(data, Minus(s.rcvNxt, start)) else data;
    ZeroSkip(data, Minus(s.rcvNxt, start));
    ZeroOverlaps(s, from, |rest|);
    ZeroFirstFree(s, 0);
    var i := FirstFree(s.ooo, 0);
    if i < |s.ooo| { ZeroUpdate(s, i, Slot(true, from, rest), s.oooBytes + |rest|); }
  }

  lemma ZeroAppend(s: Rx, data: seq<Byte>, x: U32)
    ensures Zero(s.(rx := s.rx + data, rcvNxt := x)) == Zero(s).(rx := Zeros(|s.rx|) + Zeros(|data|), rcvNxt := x)
  {
    ZeroJoin(|s.rx|, |data|);
  }

  lemma ZeroAccept(s: Rx, start: U32, data: seq<Byte>)
    ensures Accept(Zero(s), start, Zeros(|data|)) == Taken(Zero(Accept(s, start, data).s), Accept(s, start, data).ok)
  {
    hide Zero, Plus, Queue, Merge;
    BytesOf(s);
    ZeroQueue(s, start, data);
    var x := Plus(s.rcvNxt, |data|);
    ZeroAppend(s, data, x);
    ZeroMerge(s.(rx := s.rx + data, rcvNxt := x));
  }

  // ---- the invariant without contents ----

  // n stands for what came before: enough for any number to name a position.
  ghost predicate Shaped(s: Rx, base: U32, n: nat) {
    n >= HALF && RxInv(Zero(s), AllZero, base, Zeros(n))
  }

  // Whatever s covers, t covers.
  ghost predicate Keeps(s: Rx, got: seq<Byte>, t: Rx, more: seq<Byte>) {
    forall p: nat | Covered(s, got, p) :: Covered(t, more, p)
  }

  lemma FreshShaped(base: U32)
    ensures Shaped(Fresh(base).s, Plus(base, -HALF), HALF)
  {
    var s := Zero(Fresh(base).s);
    FreshInv(base, AllZero);
    assert s.ooo == Fresh(base).s.ooo;
    assert s == Fresh(base).s;
    ImagePlus(Plus(base, -HALF), 0, HALF);
    ModSum(base - HALF, HALF);
    assert Matches(AllZero, 0, Zeros(HALF) + s.rx);
  }

  // A number half the space away, or reaching over it, is behind.
  lemma FarIsBehind(s: Rx, base: U32, got: seq<Byte>, start: U32, n: nat)
    requires s.rcvNxt == Image(base, Pos(s, got)) && n <= MSS
    requires !(-HALF < At(s, got, start) - Pos(s, got) && At(s, got, start) + n - Pos(s, got) < HALF)
    ensures !After(Plus(start, n), s.rcvNxt)
  {
    hide Image, Plus, Minus, After;
    var d := Diff(start, s.rcvNxt);
    DiffImage(base, start, Pos(s, got));
    hide Diff;
    ImagePlus(base, Pos(s, got) + d, n);
    if d + n < HALF {
      ImageDiff(base, Pos(s, got) + d + n, Pos(s, got));
    } else {
      ImageWrap(base, Pos(s, got) + d + n);
      ImageDiff(base, Pos(s, got) + d + n - MOD, Pos(s, got));
    }
  }

  lemma ImageWrap(base: U32, p: int)
    ensures Image(base, p) == Image(base, p - MOD)
  {
    assert (base + p) % MOD == (base + p - MOD) % MOD;
  }

  lemma AnyQueue(s: Rx, base: U32, n: nat, start: U32, data: seq<Byte>)
    requires Shaped(s, base, n)
    ensures Shaped(Queue(s, start, data).s, base, n)
    ensures Keeps(Zero(s), Zeros(n), Zero(Queue(s, start, data).s), Zeros(n))
  {
    hide Zero, RxInv, Queue, Diff, Covered;
    ZeroQueue(s, start, data);
    var z, got := Zero(s), Zeros(n);
    Number(z, base, got);
    if 1 <= |data| <= MSS {
      if -HALF < At(z, got, start) - Pos(z, got) && At(z, got, start) + |data| - Pos(z, got) < HALF {
        AuthenticZeros(z, got, start, |data|);
        QueueSound(z, AllZero, base, got, start, Zeros(|data|));
      } else {
        FarIsBehind(z, base, got, start, |data|);
        QueueRefuses(z, start, Zeros(|data|));
      }
    } else {
      QueueRefuses(z, start, Zeros(|data|));
    }
  }

  lemma Number(s: Rx, base: U32, got: seq<Byte>)
    requires RxInv(s, AllZero, base, got)
    ensures s.rcvNxt == Image(base, Pos(s, got))
  {
  }

  lemma QueueRefuses(s: Rx, start: U32, data: seq<Byte>)
    requires |data| == 0 || |data| > MSS || !After(Plus(start, |data|), s.rcvNxt)
    ensures Queue(s, start, data).s == s
  {
  }

  lemma AuthenticZeros(s: Rx, got: seq<Byte>, start: U32, n: nat)
    requires |got| >= HALF && -HALF < At(s, got, start) - Pos(s, got) && At(s, got, start) + n - Pos(s, got) < HALF
    ensures Authentic(s, AllZero, got, start, Zeros(n))
  {
  }

  // Whatever arrives, the bookkeeping stays right and nothing is forgotten.
  lemma AnyAccept(s: Rx, base: U32, n: nat, start: U32, data: seq<Byte>)
    requires Shaped(s, base, n)
    ensures Shaped(Accept(s, start, data).s, base, n)
    ensures Keeps(Zero(s), Zeros(n), Zero(Accept(s, start, data).s), Zeros(n))
  {
    hide Zero, RxInv, Queue, Merge, Diff, Covered;
    if start != s.rcvNxt {
      AnyQueue(s, base, n, start, data);
    } else if |data| <= MSS && |s.rx| + |data| <= BUF {
      BytesOf(s);
      ZeroAccept(s, start, data);
      DiffSelf(start);
      AuthenticZeros(Zero(s), Zeros(n), start, |data|);
      AcceptSound(Zero(s), AllZero, base, Zeros(n), start, Zeros(|data|));
    }
  }

  lemma DiffSelf(x: U32)
    ensures Diff(x, x) == 0
  {
  }

  lemma AnyRead(s: Rx, base: U32, n: nat, max: nat)
    requires Shaped(s, base, n)
    ensures var (out, t) := Recv(s, max);
            && Shaped(t, base, n + |out|)
            && Keeps(Zero(s), Zeros(n), Zero(t), Zeros(n + |out|))
  {
    hide RxInv, Covered;
    var (out, t) := Recv(s, max);
    RecvSound(Zero(s), AllZero, base, Zeros(n), max);
    var (zout, zt) := Recv(Zero(s), max);
    assert zout == Zeros(|out|) && zt.rx == Zeros(|t.rx|);
    assert zt == Zero(t);
    ZeroJoin(n, |out|);
  }

  lemma AnyStep(y: Session, e: Event, base: U32)
    requires Shaped(y.s, base, HALF + |y.got|)
    ensures var z := Step(y, e);
            && Shaped(z.s, base, HALF + |z.got|)
            && Keeps(Zero(y.s), Zeros(HALF + |y.got|), Zero(z.s), Zeros(HALF + |z.got|))
  {
    hide Shaped, Accept, Recv, Covered, Zero, Zeros;
    match e
    case Segment(start, data) => AnyAccept(y.s, base, HALF + |y.got|, start, data);
    case Read(max) => AnyRead(y.s, base, HALF + |y.got|, max);
  }

  // Over every run against every peer: merging ends, cached ranges are disjoint, their bytes
  // are counted exactly and at most 4096, and the buffer holds at most 4096.
  lemma {:induction false} AnyRun(base: U32, events: seq<Event>)
    ensures var y := Run(Fresh(base), events); Shaped(y.s, Plus(base, -HALF), HALF + |y.got|)
  {
    hide Shaped, Step;
    if events == [] {
      FreshShaped(base);
    } else {
      var k := |events| - 1;
      AnyRun(base, events[..k]);
      AnyStep(Run(Fresh(base), events[..k]), events[k], Plus(base, -HALF));
    }
  }

  // The receiver of zeros covers the same positions, counted from half the space earlier.
  lemma Shifted(s: Rx, got: seq<Byte>, p: nat)
    ensures Covered(s, got, p) <==> Covered(Zero(s), Zeros(HALF + |got|), p + HALF)
  {
    hide Diff;
    var z, zs := Zero(s), Zeros(HALF + |got|);
    forall i: nat | i < |s.ooo|
      ensures z.ooo[i].used == s.ooo[i].used && |z.ooo[i].data| == |s.ooo[i].data|
      ensures At(z, zs, z.ooo[i].start) == At(s, got, s.ooo[i].start) + HALF
    {
      SlotOf(s, i);
    }
  }

  // The receiver never reneges, whoever the peer: a position once delivered or cached stays
  // delivered or cached over every further run.
  lemma {:induction false} AnyNeverReneges(base: U32, events: seq<Event>, i: nat, p: nat)
    requires i <= |events|
    requires Covered(Run(Fresh(base), events[..i]).s, Run(Fresh(base), events[..i]).got, p)
    ensures Covered(Run(Fresh(base), events).s, Run(Fresh(base), events).got, p)
    decreases |events|
  {
    hide Shaped, Step, Covered, Zero, Zeros;
    var n := |events|;
    if i == n {
      assert events[..n] == events;
    } else {
      assert events[..n - 1][..i] == events[..i];
      AnyNeverReneges(base, events[..n - 1], i, p);
      AnyRun(base, events[..n - 1]);
      var y := Run(Fresh(base), events[..n - 1]);
      AnyStep(y, events[n - 1], Plus(base, -HALF));
      Shifted(y.s, y.got, p);
      var z := Step(y, events[n - 1]);
      Shifted(z.s, z.got, p);
    }
  }

  // What the bookkeeping says, in the code's own terms.
  lemma ShapedMeans(s: Rx, base: U32, n: nat)
    requires Shaped(s, base, n)
    ensures |s.rx| <= BUF && |s.ooo| == SLOTS && 0 <= s.oooBytes == Total(s.ooo) <= BUF
    ensures forall i: nat, j: nat | i < j < SLOTS && s.ooo[i].used && s.ooo[j].used ::
              Apart(s, Zeros(n), s.ooo[i], s.ooo[j])
    ensures forall i: nat | i < SLOTS && s.ooo[i].used :: 1 <= |s.ooo[i].data| <= MSS
  {
    hide Diff;
    ZeroTotal(s.ooo, Zero(s).ooo);
    forall i: nat, j: nat | i < j < SLOTS && s.ooo[i].used && s.ooo[j].used
      ensures Apart(s, Zeros(n), s.ooo[i], s.ooo[j])
    {
      SlotOf(s, i);
      SlotOf(s, j);
      assert Apart(Zero(s), Zeros(n), Zero(s).ooo[i], Zero(s).ooo[j]);
    }
    forall i: nat | i < SLOTS && s.ooo[i].used ensures 1 <= |s.ooo[i].data| <= MSS {
      SlotOf(s, i);
      assert SlotOk(Zero(s), AllZero, Zeros(n), Zero(s).ooo[i]);
    }
  }

  lemma {:induction false} ZeroTotal(a: seq<Slot>, b: seq<Slot>)
    requires |a| == |b| && forall i: nat | i < |a| :: b[i] == ZeroSlot(a[i])
    ensures Total(a) == Total(b)
  {
    if a != [] { ZeroTotal(a[..|a| - 1], b[..|b| - 1]); }
  }
}
