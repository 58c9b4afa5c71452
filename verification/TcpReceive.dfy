// The receive side of net/net_tcp.c: in-order delivery with a two-slot cache for
// segments that arrive early, over wrapping sequence numbers.
module TcpReceive {
  import opened Basics
  import opened TcpParams
  import opened SeqNum

  const SLOTS: nat := 2

  // One entry of ooo[]; its len field is |data|.
  datatype Slot = Slot(used: bool, start: U32, data: seq<Byte>)

  // rx is rxb[0..rxn).
  datatype Rx = Rx(rcvNxt: U32, rx: seq<Byte>, ooo: seq<Slot>, oooBytes: int)

  // ---- operations ----

  datatype Merged = Merged(s: Rx, again: bool)

  function Release(s: Rx, i: nat): Rx
    requires i < |s.ooo|
  {
    s.(ooo := s.ooo[i := s.ooo[i].(used := false)], oooBytes := s.oooBytes - |s.ooo[i].data|)
  }

  function Skip(data: seq<Byte>, n: nat): seq<Byte> {
    if n <= |data| then data[n..] else []
  }

  // Cut away the part of slot i that is already acknowledged.
  function Trim(s: Rx, i: nat): Rx
    requires i < |s.ooo|
  {
    var cut := Minus(s.rcvNxt, s.ooo[i].start);
    s.(ooo := s.ooo[i := Slot(true, s.rcvNxt, Skip(s.ooo[i].data, cut))], oooBytes := s.oooBytes - cut)
  }

  function Deliver(s: Rx, i: nat): Rx
    requires i < |s.ooo|
  {
    Release(s, i).(rx := s.rx + s.ooo[i].data, rcvNxt := Plus(s.rcvNxt, |s.ooo[i].data|))
  }

  // One round of the for loop in tcp_merge_ooo.
  function MergeSlot(s: Rx, i: nat): Merged
    requires i < |s.ooo|
  {
    var c := s.ooo[i];
    if !c.used then Merged(s, false)
    else if !After(Plus(c.start, |c.data|), s.rcvNxt) then Merged(Release(s, i), true)
    else
      var cut := Before(c.start, s.rcvNxt);
      var t := if cut then Trim(s, i) else s;
      if t.ooo[i].start != t.rcvNxt || |t.rx| + |t.ooo[i].data| > BUF then Merged(t, cut)
      else Merged(Deliver(t, i), true)
  }

  function MergePass(s: Rx, i: nat): (r: Merged)
    requires i <= |s.ooo|
    ensures |r.s.ooo| == |s.ooo|
  {
    if i == 0 then Merged(s, false)
    else
      var p := MergePass(s, i - 1);
      var q := MergeSlot(p.s, i - 1);
      Merged(q.s, p.again || q.again)
  }

  // tcp_merge_ooo.  The guard on oooBytes only makes the recursion total: MergeDecreases
  // shows that a pass that asks for another one always lowers the byte count.
  function Merge(s: Rx): (r: Rx)
    ensures |r.ooo| == |s.ooo|
    decreases s.oooBytes
  {
    var p := MergePass(s, |s.ooo|);
    if p.again && 0 <= p.s.oooBytes < s.oooBytes then Merge(p.s) else p.s
  }

  predicate Overlaps(s: Rx, start: U32, n: nat, i: nat)
    requires i < |s.ooo|
  {
    && s.ooo[i].used
    && Before(start, Plus(s.ooo[i].start, |s.ooo[i].data|))
    && Before(s.ooo[i].start, Plus(start, n))
  }

  predicate OverlapsAny(s: Rx, start: U32, n: nat) {
    exists i: nat :: i < |s.ooo| && Overlaps(s, start, n, i)
  }

  function FirstFree(ooo: seq<Slot>, i: nat): (r: nat)
    requires i <= |ooo|
    ensures i <= r <= |ooo|
    ensures r < |ooo| ==> !ooo[r].used
    ensures forall j: nat | i <= j < r :: ooo[j].used
    decreases |ooo| - i
  {
    if i == |ooo| || !ooo[i].used then i else FirstFree(ooo, i + 1)
  }

  datatype Taken = Taken(s: Rx, ok: bool)

  // tcp_queue_ooo.
  function Queue(s: Rx, start: U32, data: seq<Byte>): Taken {
    if |data| == 0 || |data| > MSS || s.oooBytes + |data| > BUF then Taken(s, false)
    else if !After(Plus(start, |data|), s.rcvNxt) then Taken(s, false)
    else
      var late := !After(start, s.rcvNxt);
      var from := if late then s.rcvNxt else start;
      var rest := if late then Skip(data, Minus(s.rcvNxt, start)) else data;
      if OverlapsAny(s, from, |rest|) then Taken(s, false)
      else
        var i := FirstFree(s.ooo, 0);
        if i == |s.ooo| then Taken(s, false)
        else Taken(s.(ooo := s.ooo[i := Slot(true, from, rest)], oooBytes := s.oooBytes + |rest|), true)
  }

  // tcp_accept_data.
  function Accept(s: Rx, start: U32, data: seq<Byte>): Taken {
    if start != s.rcvNxt then Queue(s, start, data)
    else if |data| <= MSS && |s.rx| + |data| <= BUF then
      Taken(Merge(s.(rx := s.rx + data, rcvNxt := Plus(s.rcvNxt, |data|))), true)
    else Taken(s, false)
  }

  // tcp_recv: up to max bytes from the front of the buffer.
  function Recv(s: Rx, max: nat): (seq<Byte>, Rx) {
    var n := if |s.rx| > max then max else |s.rx|;
    (s.rx[..n], s.(rx := s.rx[n..]))
  }

  // ---- what a receiver state says about the peer's stream ----

  // The peer's stream, from the first byte after its SYN.
  type Stream = nat -> Byte

  // Bytes the application has read, then bytes in the buffer: the stream position of rcvNxt.
  ghost function Pos(s: Rx, got: seq<Byte>): nat {
    |got| + |s.rx|
  }

  ghost function At(s: Rx, got: seq<Byte>, x: U32): int {
    Pos(s, got) + Diff(x, s.rcvNxt)
  }

  ghost predicate Matches(w: Stream, p: nat, data: seq<Byte>) {
    forall j: nat | j < |data| :: data[j] == w(p + j)
  }

  // A cached slot holds stream bytes at a position no application has passed.
  ghost predicate SlotOk(s: Rx, w: Stream, got: seq<Byte>, c: Slot) {
    var p := At(s, got, c.start);
    && 1 <= |c.data| <= MSS && |got| <= p && p + |c.data| - Pos(s, got) < HALF
    && Matches(w, p, c.data)
  }

  ghost predicate Delivered(s: Rx, w: Stream, base: U32, got: seq<Byte>) {
    && s.rcvNxt == Image(base, Pos(s, got))
    && Matches(w, 0, got + s.rx)
    && |s.rx| <= BUF
  }

  ghost function Held(c: Slot): nat {
    if c.used then |c.data| else 0
  }

  ghost function Total(ooo: seq<Slot>): nat {
    if ooo == [] then 0 else Total(ooo[..|ooo| - 1]) + Held(ooo[|ooo| - 1])
  }

  ghost predicate Apart(s: Rx, got: seq<Byte>, c: Slot, d: Slot) {
    At(s, got, c.start) + |c.data| <= At(s, got, d.start) || At(s, got, d.start) + |d.data| <= At(s, got, c.start)
  }

  ghost predicate Disjoint(s: Rx, got: seq<Byte>) {
    forall i: nat, j: nat | i < j < |s.ooo| && s.ooo[i].used && s.ooo[j].used :: Apart(s, got, s.ooo[i], s.ooo[j])
  }

  // Holds at every point, also in the middle of a merge.
  ghost predicate Sound(s: Rx, w: Stream, base: U32, got: seq<Byte>) {
    && Delivered(s, w, base, got)
    && |s.ooo| == SLOTS
    && (forall i: nat | i < |s.ooo| && s.ooo[i].used :: SlotOk(s, w, got, s.ooo[i]))
    && Disjoint(s, got)
    && s.oooBytes == Total(s.ooo) <= BUF
  }

  // Slot i starts at or after rcvNxt, and is not deliverable right now.
  ghost predicate Waiting(s: Rx, got: seq<Byte>, c: Slot) {
    At(s, got, c.start) >= Pos(s, got) && (At(s, got, c.start) == Pos(s, got) ==> |s.rx| + |c.data| > BUF)
  }

  // Holds between operations: nothing cached lies behind rcvNxt.
  ghost predicate RxInv(s: Rx, w: Stream, base: U32, got: seq<Byte>) {
    && Sound(s, w, base, got)
    && (forall i: nat | i < |s.ooo| && s.ooo[i].used :: At(s, got, s.ooo[i].start) >= Pos(s, got))
  }

  // Stream position p has been delivered or is cached, so has been ACKed or SACKed.
  ghost predicate Covered(s: Rx, got: seq<Byte>, p: nat) {
    p < Pos(s, got) ||
    exists i: nat :: i < |s.ooo| && s.ooo[i].used
      && At(s, got, s.ooo[i].start) <= p < At(s, got, s.ooo[i].start) + |s.ooo[i].data|
  }

  // ---- totals ----

  lemma {:induction false} TotalUpdate(ooo: seq<Slot>, i: nat, c: Slot)
    requires i < |ooo|
    ensures Total(ooo[i := c]) == Total(ooo) - Held(ooo[i]) + Held(c)
  {
    var n := |ooo| - 1;
    if i < n {
      TotalUpdate(ooo[..n], i, c);
      assert ooo[i := c][..n] == ooo[..n][i := c];
    } else {
      assert ooo[i := c][..n] == ooo[..n];
    }
  }

  // ---- moving rcvNxt keeps positions ----

  // The position of a number does not depend on how far delivery has come.
  lemma AtMoves(s: Rx, t: Rx, got: seq<Byte>, base: U32, x: U32)
    requires s.rcvNxt == Image(base, Pos(s, got)) && t.rcvNxt == Image(base, Pos(t, got))
    requires -HALF <= At(s, got, x) - Pos(t, got) < HALF
    ensures At(t, got, x) == At(s, got, x)
  {
    DiffImage(base, x, Pos(s, got));
    ImageDiff(base, At(s, got, x), Pos(t, got));
  }

  // Comparisons the code makes on numbers are comparisons of positions.
  lemma Compare(s: Rx, got: seq<Byte>, base: U32, x: U32, n: nat)
    requires s.rcvNxt == Image(base, Pos(s, got))
    requires -HALF <= At(s, got, x) + n - Pos(s, got) < HALF
    ensures After(Plus(x, n), s.rcvNxt) <==> At(s, got, x) + n > Pos(s, got)
    ensures Before(x, s.rcvNxt) <==> At(s, got, x) < Pos(s, got)
    ensures x == s.rcvNxt <==> At(s, got, x) == Pos(s, got)
    ensures At(s, got, x) < Pos(s, got) ==> Minus(s.rcvNxt, x) == Pos(s, got) - At(s, got, x)
    ensures At(s, got, s.rcvNxt) == Pos(s, got)
  {
    hide Image, Plus, Minus, After, Before;
    var p, q := At(s, got, x), Pos(s, got);
    hide Diff;
    DiffImage(base, x, q);
    ImagePlus(base, p, n);
    ImageDiff(base, p + n, q);
    ImageDiff(base, p, q);
    ImageDiff(base, q, q);
    if p < q { ImageDistance(base, q, p); }
  }

  // ---- one step of a merge ----

  lemma SlotMoves(s: Rx, t: Rx, w: Stream, base: U32, got: seq<Byte>, c: Slot)
    requires Delivered(s, w, base, got) && Delivered(t, w, base, got) && SlotOk(s, w, got, c)
    requires Pos(t, got) >= Pos(s, got)
    ensures SlotOk(t, w, got, c) && At(t, got, c.start) == At(s, got, c.start)
  {
    AtMoves(s, t, got, base, c.start);
  }

  // Slot i is dropped, with what it held already delivered in t.
  lemma DropSound(s: Rx, t: Rx, w: Stream, base: U32, got: seq<Byte>, i: nat)
    requires Sound(s, w, base, got) && Delivered(t, w, base, got) && Pos(t, got) >= Pos(s, got)
    requires i < |s.ooo| && s.ooo[i].used && At(s, got, s.ooo[i].start) + |s.ooo[i].data| <= Pos(t, got)
    requires t.ooo == Release(s, i).ooo && t.oooBytes == Release(s, i).oooBytes
    ensures Sound(t, w, base, got) && t.oooBytes < s.oooBytes
    ensures forall p: nat | Covered(s, got, p) :: Covered(t, got, p)
  {
    hide Delivered, At, Pos;
    TotalUpdate(s.ooo, i, t.ooo[i]);
    forall j: nat | j < |s.ooo| && s.ooo[j].used
      ensures SlotOk(t, w, got, s.ooo[j]) && At(t, got, s.ooo[j].start) == At(s, got, s.ooo[j].start)
    {
      SlotMoves(s, t, w, base, got, s.ooo[j]);
    }
    forall p: nat | Covered(s, got, p) ensures Covered(t, got, p) {
      if p >= Pos(t, got) {
        assert p >= Pos(s, got);
        var j: nat :| j < |s.ooo| && s.ooo[j].used
          && At(s, got, s.ooo[j].start) <= p < At(s, got, s.ooo[j].start) + |s.ooo[j].data|;
        assert t.ooo[j] == s.ooo[j];
      }
    }
  }

  // What is left of slot i after trimming.
  lemma TrimSlot(s: Rx, w: Stream, base: U32, got: seq<Byte>, i: nat)
    requires Sound(s, w, base, got) && i < |s.ooo| && s.ooo[i].used
    requires At(s, got, s.ooo[i].start) < Pos(s, got) < At(s, got, s.ooo[i].start) + |s.ooo[i].data|
    ensures var c, d := s.ooo[i], Trim(s, i).ooo[i];
            && d.used && d.start == s.rcvNxt && At(s, got, d.start) == Pos(s, got)
            && At(s, got, d.start) + |d.data| == At(s, got, c.start) + |c.data|
            && |d.data| < |c.data| && Trim(s, i).oooBytes == s.oooBytes - |c.data| + |d.data|
            && SlotOk(s, w, got, d)
  {
    hide After, Before, Diff, Image, Plus, Minus, Disjoint, Total, At;
    var c := s.ooo[i];
    assert SlotOk(s, w, got, c);
    Compare(s, got, base, c.start, 0);
    var cut := Minus(s.rcvNxt, c.start);
    var p, q := At(s, got, c.start), Pos(s, got);
    forall j: nat | j < |c.data| - cut ensures c.data[cut..][j] == w(q + j) {
      assert c.data[cut + j] == w(p + (cut + j));
    }
  }

  // Slot i is replaced by a part of itself, the rest having been delivered.
  lemma ShrinkSound(s: Rx, t: Rx, w: Stream, base: U32, got: seq<Byte>, i: nat)
    requires Sound(s, w, base, got) && i < |s.ooo| && s.ooo[i].used
    requires t.rx == s.rx && t.rcvNxt == s.rcvNxt && |t.ooo| == |s.ooo| && t.ooo == s.ooo[i := t.ooo[i]]
             && t.ooo[i].used
    requires SlotOk(s, w, got, t.ooo[i]) && At(s, got, t.ooo[i].start) == Pos(s, got) >= At(s, got, s.ooo[i].start)
    requires At(s, got, t.ooo[i].start) + |t.ooo[i].data| == At(s, got, s.ooo[i].start) + |s.ooo[i].data|
    requires |t.ooo[i].data| < |s.ooo[i].data| && t.oooBytes == s.oooBytes - |s.ooo[i].data| + |t.ooo[i].data|
    ensures Sound(t, w, base, got) && t.oooBytes < s.oooBytes
    ensures forall p: nat | Covered(s, got, p) :: Covered(t, got, p)
  {
    hide Diff, Matches, Image;
    TotalUpdate(s.ooo, i, t.ooo[i]);
    forall j: nat | j < |s.ooo| && s.ooo[j].used ensures SlotOk(t, w, got, t.ooo[j]) {
      assert SlotOk(s, w, got, s.ooo[j]);
    }
    forall j: nat, k: nat | j < k < |s.ooo| && s.ooo[j].used && s.ooo[k].used
      ensures Apart(t, got, t.ooo[j], t.ooo[k])
    {
      assert Apart(s, got, s.ooo[j], s.ooo[k]);
    }
    forall p: nat | Covered(s, got, p) ensures Covered(t, got, p) {
      if p >= Pos(s, got) {
        var j: nat :| j < |s.ooo| && s.ooo[j].used
          && At(s, got, s.ooo[j].start) <= p < At(s, got, s.ooo[j].start) + |s.ooo[j].data|;
        assert t.ooo[j].used && At(t, got, t.ooo[j].start) <= p < At(t, got, t.ooo[j].start) + |t.ooo[j].data|;
      }
    }
  }

  lemma TrimSound(s: Rx, w: Stream, base: U32, got: seq<Byte>, i: nat)
    requires Sound(s, w, base, got) && i < |s.ooo| && s.ooo[i].used
    requires At(s, got, s.ooo[i].start) < Pos(s, got) < At(s, got, s.ooo[i].start) + |s.ooo[i].data|
    ensures Sound(Trim(s, i), w, base, got) && Trim(s, i).oooBytes < s.oooBytes
    ensures forall p: nat | Covered(s, got, p) :: Covered(Trim(s, i), got, p)
    ensures Trim(s, i).ooo[i].start == s.rcvNxt && Trim(s, i).rcvNxt == s.rcvNxt && Trim(s, i).rx == s.rx
  {
    hide Sound, Covered, SlotOk, Minus, At;
    TrimSlot(s, w, base, got, i);
    ShrinkSound(s, Trim(s, i), w, base, got, i);
  }

  lemma DeliverSound(s: Rx, w: Stream, base: U32, got: seq<Byte>, i: nat)
    requires Sound(s, w, base, got) && i < |s.ooo| && s.ooo[i].used
    requires At(s, got, s.ooo[i].start) == Pos(s, got) && |s.rx| + |s.ooo[i].data| <= BUF
    ensures Sound(Deliver(s, i), w, base, got) && Deliver(s, i).oooBytes < s.oooBytes
    ensures forall p: nat | Covered(s, got, p) :: Covered(Deliver(s, i), got, p)
  {
    var c, t := s.ooo[i], Deliver(s, i);
    ExtendDelivered(s, t, w, base, got, c.data);
    DropSound(s, t, w, base, got, i);
  }

  // Appending stream bytes at rcvNxt extends the delivered prefix.
  lemma ExtendDelivered(s: Rx, t: Rx, w: Stream, base: U32, got: seq<Byte>, data: seq<Byte>)
    requires Delivered(s, w, base, got) && Matches(w, Pos(s, got), data) && |s.rx| + |data| <= BUF
    requires t.rx == s.rx + data && t.rcvNxt == Plus(s.rcvNxt, |data|)
    ensures Delivered(t, w, base, got) && Pos(t, got) == Pos(s, got) + |data|
  {
    ImagePlus(base, Pos(s, got), |data|);
    var n := Pos(s, got);
    forall j: nat | j < |got + t.rx| ensures (got + t.rx)[j] == w(j) {
      if j < n {
        assert (got + t.rx)[j] == (got + s.rx)[j];
        assert (got + s.rx)[j] == w(0 + j);
      } else {
        assert (got + t.rx)[j] == data[j - n];
        assert data[j - n] == w(n + (j - n));
      }
    }
  }

  lemma MergeSlotSound(s: Rx, w: Stream, base: U32, got: seq<Byte>, i: nat)
    requires Sound(s, w, base, got) && i < |s.ooo|
    ensures var r := MergeSlot(s, i);
            && Sound(r.s, w, base, got)
            && (forall p: nat | Covered(s, got, p) :: Covered(r.s, got, p))
            && (if r.again then r.s.oooBytes < s.oooBytes
                else r.s == s && (s.ooo[i].used ==> Waiting(s, got, s.ooo[i])))
  {
    hide After, Before, Diff, Image, Plus, Minus, Covered, Trim, Deliver, Release, Disjoint, Total;
    var c := s.ooo[i];
    if c.used {
      assert SlotOk(s, w, got, c);
      Compare(s, got, base, c.start, |c.data|);
      Compare(s, got, base, c.start, 0);
      if At(s, got, c.start) + |c.data| <= Pos(s, got) {
        ReleaseForm(s, i);
        DropSound(s, Release(s, i), w, base, got, i);
      } else if At(s, got, c.start) < Pos(s, got) {
        TrimSound(s, w, base, got, i);
        var t := Trim(s, i);
        TrimForm(s, i);
        Compare(t, got, base, t.ooo[i].start, 0);
        if |t.rx| + |t.ooo[i].data| <= BUF { DeliverSound(t, w, base, got, i); }
      } else if At(s, got, c.start) == Pos(s, got) && |s.rx| + |c.data| <= BUF {
        DeliverSound(s, w, base, got, i);
      }
    }
  }

  lemma ReleaseForm(s: Rx, i: nat)
    requires i < |s.ooo|
    ensures Release(s, i).rx == s.rx && Release(s, i).rcvNxt == s.rcvNxt
  {
  }

  lemma TrimForm(s: Rx, i: nat)
    requires i < |s.ooo|
    ensures |Trim(s, i).ooo| == |s.ooo| && Trim(s, i).ooo[i].used
  {
  }

  // A pass keeps the state sound, never forgets a byte, and either lowers the byte count or
  // leaves everything as it was with every slot waiting.
  lemma {:induction false} MergePassSound(s: Rx, w: Stream, base: U32, got: seq<Byte>, i: nat)
    requires Sound(s, w, base, got) && i <= |s.ooo|
    ensures var r := MergePass(s, i);
            && Sound(r.s, w, base, got)
            && (forall p: nat | Covered(s, got, p) :: Covered(r.s, got, p))
            && (if r.again then r.s.oooBytes < s.oooBytes
                else r.s == s && (forall j: nat | j < i && s.ooo[j].used :: Waiting(s, got, s.ooo[j])))
  {
    hide Sound, Covered, MergeSlot, Waiting;
    if i > 0 {
      MergePassSound(s, w, base, got, i - 1);
      MergeSlotSound(MergePass(s, i - 1).s, w, base, got, i - 1);
    }
  }

  // tcp_merge_ooo ends in a state with nothing behind rcvNxt and nothing left to deliver.
  lemma {:induction false} MergeSound(s: Rx, w: Stream, base: U32, got: seq<Byte>)
    requires Sound(s, w, base, got)
    ensures var r := Merge(s);
            && RxInv(r, w, base, got)
            && (forall i: nat | i < |r.ooo| && r.ooo[i].used :: Waiting(r, got, r.ooo[i]))
            && (forall p: nat | Covered(s, got, p) :: Covered(r, got, p))
            && Pos(r, got) >= Pos(s, got)
    decreases s.oooBytes
  {
    hide Covered, MergePass, Disjoint, SlotOk, Delivered, At;
    MergePassSound(s, w, base, got, |s.ooo|);
    PassGrows(s, |s.ooo|);
    var p := MergePass(s, |s.ooo|);
    if p.again {
      MergeSound(p.s, w, base, got);
    }
  }

  // Whenever the merge loop goes round again the cached byte count has gone down.
  lemma MergeDecreases(s: Rx, w: Stream, base: U32, got: seq<Byte>)
    requires Sound(s, w, base, got) && MergePass(s, |s.ooo|).again
    ensures 0 <= MergePass(s, |s.ooo|).s.oooBytes < s.oooBytes
    ensures Merge(s) == Merge(MergePass(s, |s.ooo|).s)
  {
    MergePassSound(s, w, base, got, |s.ooo|);
  }

  lemma {:induction false} PassGrows(s: Rx, i: nat)
    requires i <= |s.ooo|
    ensures |MergePass(s, i).s.rx| >= |s.rx|
  {
    if i > 0 { PassGrows(s, i - 1); }
  }

  // ---- arrival of a segment ----

  // A segment is authentic when it carries stream bytes at the position its number names,
  // within half the number space of what has been delivered.
  ghost predicate Authentic(s: Rx, w: Stream, got: seq<Byte>, start: U32, data: seq<Byte>) {
    var p := At(s, got, start);
    && 0 <= p && -HALF < p - Pos(s, got) && p + |data| - Pos(s, got) < HALF
    && Matches(w, p, data)
  }

  // What Queue puts into the cache: the segment from rcvNxt on.
  lemma QueueTrims(s: Rx, w: Stream, base: U32, got: seq<Byte>, start: U32, data: seq<Byte>)
    requires Sound(s, w, base, got) && Authentic(s, w, got, start, data)
    requires 1 <= |data| <= MSS && After(Plus(start, |data|), s.rcvNxt)
    ensures var late := !After(start, s.rcvNxt);
            var from := if late then s.rcvNxt else start;
            var rest := if late then Skip(data, Minus(s.rcvNxt, start)) else data;
            && SlotOk(s, w, got, Slot(true, from, rest))
            && At(s, got, from) >= Pos(s, got)
            && At(s, got, from) + |rest| == At(s, got, start) + |data|
            && (At(s, got, from) == if At(s, got, start) < Pos(s, got) then Pos(s, got) else At(s, got, start))
            && |rest| <= |data|
  {
    hide Before, Diff, Image, Plus, Minus, Disjoint, Total, At;
    Compare(s, got, base, start, |data|);
    Compare(s, got, base, start, 0);
    PlusZero(start);
    var p, q := At(s, got, start), Pos(s, got);
    if p < q {
      var cut := Minus(s.rcvNxt, start);
      forall j: nat | j < |data| - cut ensures data[cut..][j] == w(q + j) {
        assert data[cut + j] == w(p + (cut + j));
      }
    } else if p == q {
      MinusSelf(start);
    }
  }

  lemma PlusZero(x: U32)
    ensures Plus(x, 0) == x
  {
  }

  lemma MinusSelf(x: U32)
    ensures Minus(x, x) == 0
  {
  }

  // The overlap test on numbers is the overlap test on positions.
  lemma OverlapMeans(s: Rx, w: Stream, base: U32, got: seq<Byte>, from: U32, n: nat, i: nat)
    requires Sound(s, w, base, got) && i < |s.ooo| && s.ooo[i].used
    requires At(s, got, s.ooo[i].start) >= Pos(s, got)
    requires At(s, got, from) >= Pos(s, got) && At(s, got, from) + n - Pos(s, got) < HALF
    ensures Overlaps(s, from, n, i) <==>
            At(s, got, from) < At(s, got, s.ooo[i].start) + |s.ooo[i].data|
              && At(s, got, s.ooo[i].start) < At(s, got, from) + n
  {
    hide Before, Diff, Image, Plus, Minus, Disjoint, Total, At;
    var c := s.ooo[i];
    assert SlotOk(s, w, got, c);
    ComparePair(s, got, base, from, c.start, |c.data|);
    ComparePair(s, got, base, c.start, from, n);
  }

  lemma ComparePair(s: Rx, got: seq<Byte>, base: U32, x: U32, y: U32, n: nat)
    requires s.rcvNxt == Image(base, Pos(s, got))
    requires -HALF <= At(s, got, x) - (At(s, got, y) + n) < HALF
    ensures Before(x, Plus(y, n)) <==> At(s, got, x) < At(s, got, y) + n
  {
    DiffImage(base, x, Pos(s, got));
    DiffImage(base, y, Pos(s, got));
    ImagePlus(base, At(s, got, y), n);
    ImageDiff(base, At(s, got, x), At(s, got, y) + n);
  }

  lemma QueueSound(s: Rx, w: Stream, base: U32, got: seq<Byte>, start: U32, data: seq<Byte>)
    requires RxInv(s, w, base, got) && Authentic(s, w, got, start, data)
    ensures var r := Queue(s, start, data);
            && RxInv(r.s, w, base, got)
            && r.s.rx == s.rx && r.s.rcvNxt == s.rcvNxt
            && (!r.ok ==> r.s == s)
            && (forall p: nat | Covered(s, got, p) :: Covered(r.s, got, p))
            && (r.ok ==> forall p: nat | At(s, got, start) <= p < At(s, got, start) + |data| :: Covered(r.s, got, p))
  {
    hide Before, Diff, Image, Plus, Minus, OverlapsAny, SlotOk, Matches, At, Total, Skip;
    var r := Queue(s, start, data);
    if r.ok {
      QueueTrims(s, w, base, got, start, data);
      var late := !After(start, s.rcvNxt);
      var from := if late then s.rcvNxt else start;
      var rest := if late then Skip(data, Minus(s.rcvNxt, start)) else data;
      var i := FirstFree(s.ooo, 0);
      Insert(s, w, base, got, i, Slot(true, from, rest));
      InsertCovers(s, got, i, Slot(true, from, rest));
    }
  }

  lemma Insert(s: Rx, w: Stream, base: U32, got: seq<Byte>, i: nat, c: Slot)
    requires RxInv(s, w, base, got) && i < |s.ooo| && !s.ooo[i].used && c.used
    requires SlotOk(s, w, got, c) && At(s, got, c.start) >= Pos(s, got) && s.oooBytes + |c.data| <= BUF
    requires !OverlapsAny(s, c.start, |c.data|)
    ensures RxInv(s.(ooo := s.ooo[i := c], oooBytes := s.oooBytes + |c.data|), w, base, got)
  {
    hide Overlaps, Matches, Diff;
    var t := s.(ooo := s.ooo[i := c], oooBytes := s.oooBytes + |c.data|);
    TotalUpdate(s.ooo, i, c);
    forall j: nat | j < |s.ooo| && s.ooo[j].used ensures Apart(s, got, c, s.ooo[j]) && Apart(s, got, s.ooo[j], c) {
      OverlapMeans(s, w, base, got, c.start, |c.data|, j);
    }
    forall j: nat | j < |t.ooo| && t.ooo[j].used ensures SlotOk(t, w, got, t.ooo[j]) {
      if j != i { assert SlotOk(s, w, got, s.ooo[j]); }
    }
  }

  lemma InsertCovers(s: Rx, got: seq<Byte>, i: nat, c: Slot)
    requires i < |s.ooo| && !s.ooo[i].used && c.used
    ensures var t := s.(ooo := s.ooo[i := c], oooBytes := s.oooBytes + |c.data|);
            && (forall p: nat | Covered(s, got, p) :: Covered(t, got, p))
            && (forall p: nat | At(s, got, c.start) <= p < At(s, got, c.start) + |c.data| :: Covered(t, got, p))
  {
    var t := s.(ooo := s.ooo[i := c], oooBytes := s.oooBytes + |c.data|);
    forall p: nat | Covered(s, got, p) ensures Covered(t, got, p) {
      if p >= Pos(s, got) {
        var j: nat :| j < |s.ooo| && s.ooo[j].used
          && At(s, got, s.ooo[j].start) <= p < At(s, got, s.ooo[j].start) + |s.ooo[j].data|;
        assert t.ooo[j] == s.ooo[j];
      }
    }
    forall p: nat | At(s, got, c.start) <= p < At(s, got, c.start) + |c.data| ensures Covered(t, got, p) {
      assert t.ooo[i] == c;
    }
  }

  // Any authentic segment, in any order, leaves a correct receiver that has forgotten nothing;
  // a segment reported as accepted is delivered or cached in full.
  lemma AcceptSound(s: Rx, w: Stream, base: U32, got: seq<Byte>, start: U32, data: seq<Byte>)
    requires RxInv(s, w, base, got) && Authentic(s, w, got, start, data)
    ensures var r := Accept(s, start, data);
            && RxInv(r.s, w, base, got)
            && (forall p: nat | Covered(s, got, p) :: Covered(r.s, got, p))
            && (r.ok ==> forall p: nat | At(s, got, start) <= p < At(s, got, start) + |data| :: Covered(r.s, got, p))
            && (!r.ok ==> r.s == s)
            && Pos(r.s, got) >= Pos(s, got)
  {
    hide Covered, Queue, Merge, Image, Plus, Diff, Total, Minus;
    if start != s.rcvNxt {
      QueueSound(s, w, base, got, start, data);
    } else if |data| <= MSS && |s.rx| + |data| <= BUF {
      var t := s.(rx := s.rx + data, rcvNxt := Plus(s.rcvNxt, |data|));
      InOrderSound(s, w, base, got, data);
      MergeSound(t, w, base, got);
    }
  }

  lemma InOrderSound(s: Rx, w: Stream, base: U32, got: seq<Byte>, data: seq<Byte>)
    requires RxInv(s, w, base, got) && Authentic(s, w, got, s.rcvNxt, data) && |s.rx| + |data| <= BUF
    ensures var t := s.(rx := s.rx + data, rcvNxt := Plus(s.rcvNxt, |data|));
            && Sound(t, w, base, got) && Pos(t, got) == Pos(s, got) + |data|
            && (forall p: nat | Covered(s, got, p) :: Covered(t, got, p))
            && (forall p: nat | At(s, got, s.rcvNxt) <= p < At(s, got, s.rcvNxt) + |data| :: Covered(t, got, p))
  {
    hide Total, Matches, Diff, Image, Plus;
    var t := s.(rx := s.rx + data, rcvNxt := Plus(s.rcvNxt, |data|));
    Compare(s, got, base, s.rcvNxt, 0);
    ExtendDelivered(s, t, w, base, got, data);
    forall j: nat | j < |s.ooo| && s.ooo[j].used
      ensures SlotOk(t, w, got, s.ooo[j]) && At(t, got, s.ooo[j].start) == At(s, got, s.ooo[j].start)
    {
      SlotMoves(s, t, w, base, got, s.ooo[j]);
    }
    forall p: nat | Covered(s, got, p) ensures Covered(t, got, p) {
      if p >= Pos(t, got) {
        var j: nat :| j < |s.ooo| && s.ooo[j].used
          && At(s, got, s.ooo[j].start) <= p < At(s, got, s.ooo[j].start) + |s.ooo[j].data|;
        assert t.ooo[j] == s.ooo[j];
      }
    }
  }

  // Reading hands out the next bytes of the stream, each once.
  lemma RecvSound(s: Rx, w: Stream, base: U32, got: seq<Byte>, max: nat)
    requires RxInv(s, w, base, got)
    ensures var (out, t) := Recv(s, max);
            && RxInv(t, w, base, got + out)
            && Matches(w, |got|, out)
            && Pos(t, got + out) == Pos(s, got)
            && (forall p: nat :: Covered(t, got + out, p) <==> Covered(s, got, p))
  {
    hide Total, Diff, Image;
    var (out, t) := Recv(s, max);
    assert got + out + t.rx == got + s.rx;
    forall j: nat | j < |out| ensures out[j] == w(|got| + j) {
      assert (got + s.rx)[|got| + j] == w(0 + (|got| + j));
    }
    forall j: nat | j < |t.ooo| && t.ooo[j].used ensures SlotOk(t, w, got + out, t.ooo[j]) {
      assert SlotOk(s, w, got, s.ooo[j]);
    }
  }

  // ---- whole connections ----

  datatype Event = Segment(start: U32, data: seq<Byte>) | Read(max: nat)

  // A receiver and everything its application has read so far.
  datatype Session = Session(s: Rx, got: seq<Byte>)

  function Step(x: Session, e: Event): Session {
    match e
    case Segment(start, data) => x.(s := Accept(x.s, start, data).s)
    case Read(max) => var (out, t) := Recv(x.s, max); Session(t, x.got + out)
  }

  function Run(x: Session, events: seq<Event>): Session {
    if events == [] then x else Step(Run(x, events[..|events| - 1]), events[|events| - 1])
  }

  // Right after the handshake: nothing delivered, nothing cached.
  function Fresh(base: U32): Session {
    Session(Rx(base, [], seq(SLOTS, _ => Slot(false, 0, [])), 0), [])
  }

  // Every segment is authentic when it arrives; order, duplication and overlap are free.
  ghost predicate AuthenticRun(x: Session, events: seq<Event>, w: Stream) {
    forall i: nat | i < |events| && events[i].Segment? ::
      var y := Run(x, events[..i]); Authentic(y.s, w, y.got, events[i].start, events[i].data)
  }

  lemma FreshInv(base: U32, w: Stream)
    ensures RxInv(Fresh(base).s, w, base, Fresh(base).got)
  {
    var s := Fresh(base).s;
    var free := Slot(false, 0, []);
    assert s.ooo == [free, free];
    assert s.ooo[..1] == [free] && [free][..0] == [];
    assert Total([free]) == 0;
  }

  lemma StepInv(x: Session, e: Event, w: Stream, base: U32)
    requires RxInv(x.s, w, base, x.got)
    requires e.Segment? ==> Authentic(x.s, w, x.got, e.start, e.data)
    ensures var y := Step(x, e);
            && RxInv(y.s, w, base, y.got) && x.got <= y.got && Pos(y.s, y.got) >= Pos(x.s, x.got)
            && (forall p: nat | Covered(x.s, x.got, p) :: Covered(y.s, y.got, p))
  {
    hide RxInv, Accept, Authentic, Covered, Matches;
    match e
    case Segment(start, data) => AcceptSound(x.s, w, base, x.got, start, data);
    case Read(max) => RecvSound(x.s, w, base, x.got, max);
  }

  lemma {:induction false} RunInv(base: U32, events: seq<Event>, w: Stream)
    requires AuthenticRun(Fresh(base), events, w)
    ensures var y := Run(Fresh(base), events); RxInv(y.s, w, base, y.got)
  {
    hide RxInv, Authentic, Step;
    if events == [] {
      FreshInv(base, w);
    } else {
      var n := |events| - 1;
      forall i: nat | i < n ensures events[..n][..i] == events[..i] {}
      assert AuthenticRun(Fresh(base), events[..n], w);
      RunInv(base, events[..n], w);
      StepInv(Run(Fresh(base), events[..n]), events[n], w, base);
    }
  }

  // Whatever the order, duplication and overlap of arrivals: the bytes read, followed by the
  // bytes buffered, are the first Pos bytes of the peer's stream, and rcvNxt is their count
  // in sequence-number space.
  lemma StreamIntegrity(base: U32, events: seq<Event>, w: Stream)
    requires AuthenticRun(Fresh(base), events, w)
    ensures var y := Run(Fresh(base), events);
            && (forall j: nat | j < |y.got + y.s.rx| :: (y.got + y.s.rx)[j] == w(j))
            && y.s.rcvNxt == Plus(base, |y.got + y.s.rx|)
            && |y.s.rx| <= BUF
  {
    hide RxInv, Run, AuthenticRun;
    RunInv(base, events, w);
    var y := Run(Fresh(base), events);
    Prefix(y.s, w, base, y.got);
  }

  lemma Prefix(s: Rx, w: Stream, base: U32, got: seq<Byte>)
    requires RxInv(s, w, base, got)
    ensures forall j: nat | j < |got + s.rx| :: (got + s.rx)[j] == w(j)
    ensures s.rcvNxt == Plus(base, |got + s.rx|) && |s.rx| <= BUF
  {
    assert Matches(w, 0, got + s.rx);
    forall j: nat | j < |got + s.rx| ensures (got + s.rx)[j] == w(j) {
      assert (got + s.rx)[j] == w(0 + j);
    }
  }
}
