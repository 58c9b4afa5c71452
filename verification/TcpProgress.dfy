// What the two ends do, beside doing no harm: when data is taken, sent, resent, acknowledged
// and delivered.
module TcpProgress {
  import opened Basics
  import opened TcpParams
  import opened SeqNum
  import opened TcpScoreboard
  import S = TcpSend
  import R = TcpReceive

  // ---- sending ----

  function Payload(ps: seq<S.Packet>): seq<Byte> {
    if ps == [] then [] else Payload(ps[..|ps| - 1]) + ps[|ps| - 1].data
  }

  lemma {:induction false} PayloadJoin(a: seq<S.Packet>, b: seq<S.Packet>)
    ensures Payload(a + b) == Payload(a) + Payload(b)
  {
    if b == [] {
      assert a + b == a;
    } else {
      var n := |b| - 1;
      PayloadJoin(a, b[..n]);
      assert (a + b)[..|a + b| - 1] == a + b[..n];
      assert (a + b)[|a + b| - 1] == b[n];
      assert Payload(a) + (Payload(b[..n]) + b[n].data) == (Payload(a) + Payload(b[..n])) + b[n].data;
    }
  }

  lemma PayloadOne(p: S.Packet)
    ensures Payload([p]) == p.data
  {
    assert [p][..0] == [];
  }

  // Filling the window puts exactly the bytes that newly count as in flight on the link, in
  // order; and while the link takes packets it goes on until window or data run out.
  lemma {:induction false} XmitExact(s: S.Snd, link: S.Link, w: seq<Byte>, base: U32, u: nat)
    requires S.SndInv(s, w, base, u)
    ensures |s.buf| <= BUF
    ensures var r := S.XmitPending(s, link);
            && s.sent <= r.sent && r.buf == s.buf && S.InFlight(s) <= S.InFlight(r) <= |s.buf|
            && Payload(r.sent[|s.sent|..]) == s.buf[S.InFlight(s)..S.InFlight(r)]
            && ((forall n: nat :: link(n)) ==> S.InFlight(r) >= S.Window(r) || S.InFlight(r) == |r.buf|)
    decreases |s.buf| - S.InFlight(s)
  {
    hide S.SndInv, Add, Plus, Minus, S.NextLen, Payload, S.Window, S.PutPacket;
    S.BufBound(s, w, base, u);
    var n := S.NextLen(s);
    var at := S.InFlight(s);
    NothingNew(s.sent, s.buf, at);
    if n == 0 {
      NoMore(s);
    } else {
      var first := S.Packet(s.nxt, s.buf[at..at + n]);
      PutForm(s, link, first);
      var p := S.PutPacket(s, link, s.nxt, s.buf[at..at + n]);
      if p.ok {
        var t := p.s.(nxt := Plus(s.nxt, n), tx := Add(s.tx, s.nxt, n));
        S.XmitOne(s, w, base, u, n, t);
        XmitExact(t, link, w, base, u);
        OneMore(s.sent, first, S.XmitPending(t, link).sent, s.buf, at, n, S.InFlight(S.XmitPending(t, link)));
      }
    }
  }

  lemma PutForm(s: S.Snd, link: S.Link, p: S.Packet)
    ensures var r := S.PutPacket(s, link, p.start, p.data);
            && (r.ok <==> link(s.tries)) && r.s == s.(sent := r.s.sent, tries := r.s.tries)
            && r.s.sent == if r.ok then s.sent + [p] else s.sent
  {
  }

  lemma NoMore(s: S.Snd)
    requires S.NextLen(s) == 0 && S.InFlight(s) <= |s.buf|
    ensures S.InFlight(s) >= S.Window(s) || S.InFlight(s) == |s.buf|
  {
    hide Minus;
  }

  lemma NothingNew(sent: seq<S.Packet>, buf: seq<Byte>, at: nat)
    requires at <= |buf|
    ensures Payload(sent[|sent|..]) == buf[at..at]
  {
  }

  lemma OneMore(sent: seq<S.Packet>, p: S.Packet, more: seq<S.Packet>, buf: seq<Byte>, at: nat, n: nat, end: nat)
    requires sent + [p] <= more && at + n <= end <= |buf| && p.data == buf[at..at + n]
    requires Payload(more[|sent| + 1..]) == buf[at + n..end]
    ensures Payload(more[|sent|..]) == buf[at..end]
  {
    hide Payload;
    assert more[|sent|..] == [p] + more[|sent| + 1..];
    PayloadJoin([p], more[|sent| + 1..]);
    PayloadOne(p);
    assert buf[at..at + n] + buf[at + n..end] == buf[at..end];
  }

  // An acknowledgement moves una to exactly its number if that lies in the flight, and leaves
  // it alone otherwise; what it acknowledges leaves the buffer.
  lemma AckMoves(s: S.Snd, link: S.Link, ack: U32, win: nat, raw: seq<Block>, w: seq<Byte>, base: U32)
    requires S.Sender(s, w, base)
    ensures S.InFlight(s) <= |s.buf| <= BUF
    ensures var r := S.HandleAck(s, link, ack, win, raw);
            var good := After(ack, s.una) && !After(ack, s.nxt);
            && r.una == (if good then ack else s.una)
            && r.buf == (if good then R.Skip(s.buf, Minus(ack, s.una)) else s.buf)
            && r.peerWin == win
  {
    hide S.XmitPending, S.NewAck, S.DuplicateAck, Minus, After, Tiles, Intake, Sack, S.AllGenuine, Image;
    var sacks := Intake(s.una, s.nxt, raw, |raw|);
    var t := s.(peerWin := win, sacks := sacks, tx := if sacks != [] then Sack(s.tx, s.una, sacks) else s.tx);
    var u := S.Acked(s, w);
    S.MarkedSender(s, w, base, u, win, raw);
    if ack == s.una && S.InFlight(s) > 0 && win <= s.peerWin {
      NotAfterSelf(ack);
      DuplicateKeeps(t, link, w, base, u);
    } else if ack == s.una && win > s.peerWin {
      NotAfterSelf(ack);
      S.SameSender(t, t.(dupacks := 0), w, base, u);
      XmitKeeps(t.(dupacks := 0), link, w, base, u);
    } else if After(ack, s.una) && !After(ack, s.nxt) {
      NewAckMoves(t, link, w, base, u, ack);
    }
  }

  lemma NotAfterSelf(x: U32)
    ensures !After(x, x)
  {
  }

  lemma XmitKeeps(s: S.Snd, link: S.Link, w: seq<Byte>, base: U32, u: nat)
    requires S.SndInv(s, w, base, u)
    ensures |s.buf| <= BUF
    ensures var r := S.XmitPending(s, link); r.una == s.una && r.buf == s.buf && r.peerWin == s.peerWin
  {
    hide S.XmitPending, S.AllGenuine, Tiles, Minus, Image;
    S.XmitSound(s, link, w, base, u);
  }

  lemma DuplicateKeeps(s: S.Snd, link: S.Link, w: seq<Byte>, base: U32, u: nat)
    requires S.SndInv(s, w, base, u)
    ensures S.InFlight(s) <= |s.buf| <= BUF
    ensures var r := S.DuplicateAck(s, link); r.una == s.una && r.buf == s.buf && r.peerWin == s.peerWin
  {
    hide S.XmitPending, S.RetransmitLost, S.AllGenuine, Tiles, Minus, Image, Plus;
    var d := s.(dupacks := Plus(s.dupacks, 1));
    S.SameSender(s, d, w, base, u);
    S.RetransmitSound(d, link, w, base, u, 0);
    S.RetransmitKeeps(d, link, 0);
    var q := if |d.sacks| > 0 then S.RetransmitLost(d, link, 0) else S.Put(d, false);
    if q.s.dupacks == 3 {
      FastKeeps(q.s, link, q.ok);
    } else if q.s.fastRecovery && q.s.dupacks > 3 {
      var x := q.s.(cwnd := Plus(q.s.cwnd, MSS));
      S.SameSender(q.s, x, w, base, u);
      XmitKeeps(x, link, w, base, u);
    }
  }

  lemma FastKeeps(s: S.Snd, link: S.Link, resent: bool)
    requires |s.buf| <= BUF && S.InFlight(s) <= |s.buf|
    ensures var r := S.FastRetransmit(s, link, resent); r.una == s.una && r.buf == s.buf && r.peerWin == s.peerWin
  {
    hide S.RetransmitLost, Minus, Plus;
    var inFlight := S.InFlight(s);
    var l := S.LossWindow(s, inFlight);
    var f := l.(dupacks := 3, cwnd := Plus(l.ssthresh, 3 * MSS), fastRecovery := true, recover := s.nxt);
    S.RetransmitKeeps(f, link, 0);
  }

  lemma NewAckMoves(s: S.Snd, link: S.Link, w: seq<Byte>, base: U32, u: nat, ack: U32)
    requires S.SndInv(s, w, base, u) && After(ack, s.una) && !After(ack, s.nxt)
    ensures |s.buf| <= BUF && Minus(ack, s.una) <= |s.buf|
    ensures var r := S.NewAck(s, link, ack);
            r.una == ack && r.buf == s.buf[Minus(ack, s.una)..] && r.peerWin == s.peerWin
  {
    hide S.XmitPending, S.RetransmitLost, S.Advance, S.AllGenuine, Tiles, Minus, Image, After;
    var a := S.AckPosition(s, w, base, u, ack);
    var b := S.AdvanceSound(s, w, base, u, ack);
    S.AdvanceFields(s, ack);
    AdvanceWindow(s, ack);
    var t := S.Advance(s, ack);
    S.RetransmitSound(t, link, w, base, b, 0);
    S.RetransmitKeeps(t, link, 0);
    var q := if |t.sacks| > 0 then S.RetransmitLost(t, link, 0) else S.Put(t, false);
    if !q.ok { XmitKeeps(q.s, link, w, base, b); }
  }

  lemma AdvanceWindow(s: S.Snd, ack: U32)
    ensures S.Advance(s, ack).peerWin == s.peerWin
  {
    hide Plus, Minus, After, Ack;
  }

  // With a link that takes packets, a selective retransmission happens exactly when some entry
  // is eligible, and resends the first such.
  lemma {:induction false} RetransmitFirst(s: S.Snd, link: S.Link, i: nat)
    requires i <= |s.tx| && forall n: nat :: link(n)
    ensures var r := S.RetransmitLost(s, link, i);
            if r.ok then
              exists j: nat ::
                FirstEligible(s, i, j) && r.s.sent == s.sent + [EntryPacket(s, j)]
                  && r.s.tx == s.tx[j := s.tx[j].(retx := true)]
            else r.s == s && forall j: nat | i <= j < |s.tx| :: !S.Eligible(s, j)
    decreases |s.tx| - i
  {
    if i < |s.tx| {
      if S.Eligible(s, i) {
        assert FirstEligible(s, i, i);
      } else {
        RetransmitFirst(s, link, i + 1);
        if S.RetransmitLost(s, link, i + 1).ok {
          var r := S.RetransmitLost(s, link, i);
          var j: nat :| FirstEligible(s, i + 1, j) && r.s.sent == s.sent + [EntryPacket(s, j)]
            && r.s.tx == s.tx[j := s.tx[j].(retx := true)];
          assert FirstEligible(s, i, j);
        }
      }
    }
  }

  ghost predicate FirstEligible(s: S.Snd, i: nat, j: nat) {
    i <= j < |s.tx| && S.Eligible(s, j) && forall k: nat | i <= k < j :: !S.Eligible(s, k)
  }

  ghost function EntryPacket(s: S.Snd, j: nat): S.Packet
    requires j < |s.tx| && S.Eligible(s, j)
  {
    var off := Minus(s.tx[j].start, s.una);
    S.Packet(s.tx[j].start, s.buf[off..off + s.tx[j].len])
  }

  // The third duplicate without SACK information resends from una, at most one segment.
  lemma ThirdDuplicate(s: S.Snd, link: S.Link)
    requires |s.buf| <= BUF && S.InFlight(s) <= |s.buf| && s.dupacks == 2 && s.sacks == [] && forall n: nat :: link(n)
    ensures var r := S.DuplicateAck(s, link);
            && r.sent == s.sent + [S.Packet(s.una, s.buf[..S.Min(S.InFlight(s), MSS)])]
            && r.fastRecovery && r.recover == s.nxt && r.nxt == s.nxt && r.una == s.una && r.buf == s.buf
  {
    PlusSmall();
  }

  lemma PlusSmall()
    ensures Plus(2, 1) == 3
  {
  }

  // One duplicate ACK: the number of the first unacknowledged byte, no news about the window.
  function Duplicate(s: S.Snd): S.Event {
    S.AckArrives(s.una, s.peerWin, [])
  }

  // A duplicate before the third only counts.
  lemma OneDuplicate(x: S.Session, link: S.Link)
    requires 0 < S.InFlight(x.s) <= |x.s.buf| <= BUF && x.s.dupacks < 2
    ensures S.Step(x, link, Duplicate(x.s)) == x.(s := x.s.(dupacks := x.s.dupacks + 1, sacks := []))
  {
    hide Minus;
    PlusForm(x.s.dupacks, 1);
    assert Intake(x.s.una, x.s.nxt, [], 0) == [];
  }

  // Three duplicate ACKs in a row, with the link up: exactly one segment is sent again, the first
  // unacknowledged one, and the connection is in fast recovery up to what had been sent.
  lemma ThreeDuplicates(x: S.Session, link: S.Link)
    requires 0 < S.InFlight(x.s) <= |x.s.buf| <= BUF && x.s.dupacks == 0 && forall n: nat :: link(n)
    ensures var d := Duplicate(x.s);
            var r := S.Run(x, link, [d, d, d]).s;
            && r.sent == x.s.sent + [S.Packet(x.s.una, x.s.buf[..S.Min(S.InFlight(x.s), MSS)])]
            && r.fastRecovery && r.recover == x.s.nxt && r.nxt == x.s.nxt && r.una == x.s.una && r.buf == x.s.buf
  {
    hide Minus, Plus, S.DuplicateAck, S.Step;
    var d := Duplicate(x.s);
    OneDuplicate(x, link);
    var y := S.Step(x, link, d);
    OneDuplicate(y, link);
    var z := S.Step(y, link, d);
    LastDuplicate(z, link);
    ThreeSteps(x, link, d);
  }

  lemma ThreeSteps(x: S.Session, link: S.Link, d: S.Event)
    ensures S.Run(x, link, [d, d, d]) == S.Step(S.Step(S.Step(x, link, d), link, d), link, d)
  {
    hide S.Step;
    assert [d, d, d][..2] == [d, d] && [d, d][..1] == [d] && [d][..0] == [];
    assert S.Run(x, link, [d]) == S.Step(x, link, d);
    assert S.Run(x, link, [d, d]) == S.Step(S.Run(x, link, [d]), link, d);
  }

  lemma LastDuplicate(x: S.Session, link: S.Link)
    requires 0 < S.InFlight(x.s) <= |x.s.buf| <= BUF && x.s.dupacks == 2 && x.s.sacks == []
    requires forall n: nat :: link(n)
    ensures var r := S.Step(x, link, Duplicate(x.s)).s;
            && r.sent == x.s.sent + [S.Packet(x.s.una, x.s.buf[..S.Min(S.InFlight(x.s), MSS)])]
            && r.fastRecovery && r.recover == x.s.nxt && r.nxt == x.s.nxt && r.una == x.s.una && r.buf == x.s.buf
  {
    hide Minus, S.DuplicateAck;
    assert Intake(x.s.una, x.s.nxt, [], 0) == [];
    ThirdDuplicate(x.s, link);
  }

  // The timeout resends everything in flight as one segment and forgets all SACK marks.
  lemma TimeoutResends(s: S.Snd, link: S.Link)
    requires |s.buf| > 0 && S.InFlight(s) <= |s.buf| && link(s.tries)
    ensures var r := S.Timeout(s, link);
            && r.sent == s.sent + [S.Packet(s.una, s.buf[..S.InFlight(s)])] && r.cwnd == MSS
            && |r.tx| == |s.tx| && forall i: nat | i < |r.tx| :: !r.tx[i].sacked && !r.tx[i].lost && !r.tx[i].retx
  {
    ClearAll(s.tx);
  }

  lemma {:induction false} ClearAll(tx: seq<Entry>)
    ensures var r := ClearMarks(tx); |r| == |tx| && forall i: nat | i < |r| :: !r[i].sacked && !r[i].lost && !r[i].retx
  {
  }

  // ---- receiving ----

  ghost predicate Clash(s: R.Rx, got: seq<Byte>, lo: int, hi: int) {
    exists i: nat :: i < |s.ooo| && s.ooo[i].used && lo < R.At(s, got, s.ooo[i].start) + |s.ooo[i].data|
      && R.At(s, got, s.ooo[i].start) < hi
  }

  ghost predicate FreeSlot(s: R.Rx) {
    exists i: nat :: i < |s.ooo| && !s.ooo[i].used
  }

  // An out-of-order segment is cached exactly when it is of legal size, brings something new,
  // fits the cache and a slot, and overlaps nothing cached.
  lemma QueueTakes(s: R.Rx, w: R.Stream, base: U32, got: seq<Byte>, start: U32, data: seq<Byte>)
    requires R.RxInv(s, w, base, got) && R.Authentic(s, w, got, start, data)
    ensures var p := R.At(s, got, start); var from := if p < R.Pos(s, got) then R.Pos(s, got) else p;
            R.Queue(s, start, data).ok <==>
              && 1 <= |data| <= MSS && s.oooBytes + |data| <= BUF && p + |data| > R.Pos(s, got)
              && FreeSlot(s) && !Clash(s, got, from, p + |data|)
  {
    hide Before, Diff, Image, Plus, Minus, R.OverlapsAny, R.SlotOk, R.Matches, R.At, R.Total, R.Skip, After, R.Disjoint;
    R.Compare(s, got, base, start, |data|);
    if 1 <= |data| <= MSS && After(Plus(start, |data|), s.rcvNxt) {
      R.QueueTrims(s, w, base, got, start, data);
      var late := !After(start, s.rcvNxt);
      var from := if late then s.rcvNxt else start;
      var rest := if late then R.Skip(data, Minus(s.rcvNxt, start)) else data;
      OverlapIsClash(s, w, base, got, from, |rest|);
    }
  }

  lemma OverlapIsClash(s: R.Rx, w: R.Stream, base: U32, got: seq<Byte>, from: U32, n: nat)
    requires R.RxInv(s, w, base, got) && R.At(s, got, from) >= R.Pos(s, got)
             && R.At(s, got, from) + n - R.Pos(s, got) < HALF
    ensures R.OverlapsAny(s, from, n) <==> Clash(s, got, R.At(s, got, from), R.At(s, got, from) + n)
  {
    hide R.Overlaps, R.At, R.Total, R.SlotOk, R.Disjoint, Diff, Image;
    forall i: nat | i < |s.ooo| && s.ooo[i].used
      ensures R.Overlaps(s, from, n, i) <==>
              R.At(s, got, from) < R.At(s, got, s.ooo[i].start) + |s.ooo[i].data|
                && R.At(s, got, s.ooo[i].start) < R.At(s, got, from) + n
    {
      R.OverlapMeans(s, w, base, got, from, n, i);
    }
    forall i: nat | i < |s.ooo| && !s.ooo[i].used ensures !R.Overlaps(s, from, n, i) { UnusedApart(s, from, n, i); }
  }

  lemma UnusedApart(s: R.Rx, from: U32, n: nat, i: nat)
    requires i < |s.ooo| && !s.ooo[i].used
    ensures !R.Overlaps(s, from, n, i)
  {
  }

  // The next segment in order is taken exactly when it is at most one MSS and fits the buffer;
  // then everything up to its end has been delivered, and with it what was waiting for it.
  lemma InOrderTaken(s: R.Rx, w: R.Stream, base: U32, got: seq<Byte>, data: seq<Byte>)
    requires R.RxInv(s, w, base, got) && R.Authentic(s, w, got, s.rcvNxt, data)
    ensures var r := R.Accept(s, s.rcvNxt, data);
            && (r.ok <==> |data| <= MSS && |s.rx| + |data| <= BUF)
            && (r.ok ==> R.Pos(r.s, got) >= R.Pos(s, got) + |data|
                         && forall i: nat | i < |r.s.ooo| && r.s.ooo[i].used :: R.Waiting(r.s, got, r.s.ooo[i]))
  {
    hide R.Merge, R.RxInv, R.Sound, R.Authentic, R.Covered, R.Waiting;
    if |data| <= MSS && |s.rx| + |data| <= BUF {
      R.InOrderSound(s, w, base, got, data);
      R.MergeSound(s.(rx := s.rx + data, rcvNxt := Plus(s.rcvNxt, |data|)), w, base, got);
    }
  }

  // A read takes all it may.
  lemma ReadTakes(s: R.Rx, max: nat)
    ensures var (out, t) := R.Recv(s, max); out + t.rx == s.rx && (|out| == max || t.rx == [])
  {
  }

  // A cached slot starts right at rcvNxt.
  ghost predicate AtFront(s: R.Rx, got: seq<Byte>) {
    exists i: nat :: FrontSlot(s, got, i)
  }

  ghost predicate FrontSlot(s: R.Rx, got: seq<Byte>, i: nat) {
    i < |s.ooo| && s.ooo[i].used && R.At(s, got, s.ooo[i].start) == R.Pos(s, got)
  }

  // When such a slot is there after a segment has arrived.  One that straddles rcvNxt is cut to
  // start there and cached, and what could be delivered is not; apart from that a segment out of
  // order changes nothing about it.  After a segment in order such a slot is left only if it
  // does not fit the buffer.
  lemma FrontAfter(s: R.Rx, w: R.Stream, base: U32, got: seq<Byte>, start: U32, data: seq<Byte>)
    requires R.RxInv(s, w, base, got) && R.Authentic(s, w, got, start, data)
    ensures var r := R.Accept(s, start, data);
            if start != s.rcvNxt then
              AtFront(r.s, got) <==> AtFront(s, got) || (r.ok && R.At(s, got, start) < R.Pos(s, got))
            else if !r.ok then r.s == s
            else forall i: nat | FrontSlot(r.s, got, i) :: |r.s.rx| + |r.s.ooo[i].data| > BUF
  {
    hide R.RxInv, R.Authentic, R.Merge, R.Queue;
    if start == s.rcvNxt { InOrderTaken(s, w, base, got, data); } else { FrontQueue(s, w, base, got, start, data); }
  }

  lemma FrontQueue(s: R.Rx, w: R.Stream, base: U32, got: seq<Byte>, start: U32, data: seq<Byte>)
    requires R.RxInv(s, w, base, got) && R.Authentic(s, w, got, start, data) && start != s.rcvNxt
    ensures var r := R.Queue(s, start, data);
            AtFront(r.s, got) <==> AtFront(s, got) || (r.ok && R.At(s, got, start) < R.Pos(s, got))
  {
    hide R.Matches, R.Total, R.OverlapsAny, Plus, Minus, Image, R.Disjoint;
    var r := R.Queue(s, start, data);
    if r.ok {
      var i := R.FirstFree(s.ooo, 0);
      FrontElsewhere(s, r.s, got, i);
      SameNumber(start, s.rcvNxt);
      if R.At(s, got, start) < R.Pos(s, got) { assert FrontSlot(r.s, got, i); }
    }
  }

  // Filling slot i leaves the others where they are.
  lemma FrontElsewhere(s: R.Rx, t: R.Rx, got: seq<Byte>, i: nat)
    requires i < |s.ooo| == |t.ooo| && !s.ooo[i].used && t.rcvNxt == s.rcvNxt && t.rx == s.rx
    requires forall j: nat | j < |s.ooo| && j != i :: t.ooo[j] == s.ooo[j]
    ensures AtFront(t, got) <==> AtFront(s, got) || FrontSlot(t, got, i)
  {
    hide Diff;
    if AtFront(s, got) {
      var j: nat :| FrontSlot(s, got, j);
      assert FrontSlot(t, got, j);
    }
    if AtFront(t, got) && !FrontSlot(t, got, i) {
      var j: nat :| FrontSlot(t, got, j);
      assert FrontSlot(s, got, j);
    }
  }

  lemma SameNumber(a: U32, b: U32)
    ensures Diff(a, b) == 0 <==> a == b
    ensures Diff(b, b) == 0
  {
  }

  // Two bytes delivered, then a segment of the second and a third: the third is cached, not
  // delivered, although there is room for it.
  lemma StraddleExample()
    ensures var s := R.Accept(R.Fresh(0).s, 0, [1, 2]).s;
            var r := R.Accept(s, 1, [2, 3]);
            r.ok && r.s.rx == [1, 2] && AtFront(r.s, []) && r.s.rcvNxt == 2
  {
    hide R.Merge, R.Queue;
    var f := R.Fresh(0).s;
    var free := R.Slot(false, 0, []);
    assert f.ooo == [free, free];
    var s := R.Rx(2, [1, 2], [free, free], 0);
    MergeNothing(s);
    assert f.rx + [1, 2] == [1, 2] && Plus(0, 2) == 2;
    assert f.(rx := f.rx + [1, 2], rcvNxt := Plus(0, 2)) == s;
    QueueThird(s, free);
  }

  lemma MergeNothing(s: R.Rx)
    requires |s.ooo| == 2 && !s.ooo[0].used && !s.ooo[1].used
    ensures R.Merge(s) == s
  {
    hide R.MergeSlot;
    Unused(s, 0);
    Unused(s, 1);
    assert R.MergePass(s, 0) == R.Merged(s, false);
    assert R.MergePass(s, 1) == R.Merged(s, false);
  }

  lemma Unused(s: R.Rx, i: nat)
    requires i < |s.ooo| && !s.ooo[i].used
    ensures R.MergeSlot(s, i) == R.Merged(s, false)
  {
  }

  lemma QueueThird(s: R.Rx, free: R.Slot)
    requires s == R.Rx(2, [1, 2], [free, free], 0) && !free.used
    ensures var r := R.Queue(s, 1, [2, 3]);
            r.ok && r.s == R.Rx(2, [1, 2], [R.Slot(true, 2, [3]), free], 1) && FrontSlot(r.s, [], 0)
  {
    assert R.Skip([2, 3], 1) == [3];
    assert !R.OverlapsAny(s, 2, 1);
  }

  function Limits(sizes: seq<nat>): nat {
    if sizes == [] then 0 else Limits(sizes[..|sizes| - 1]) + sizes[|sizes| - 1]
  }

  function AsEvents(sizes: seq<nat>): seq<R.Event> {
    seq(|sizes|, i requires 0 <= i < |sizes| => R.Read(sizes[i]))
  }

  // Reading in pieces of any sizes loses nothing and repeats nothing, and empties the buffer as
  // soon as the pieces together are as long as it.
  lemma {:induction false} ReadsDrain(x: R.Session, sizes: seq<nat>)
    ensures var y := R.Run(x, AsEvents(sizes));
            && y.got + y.s.rx == x.got + x.s.rx && x.got <= y.got
            && y.s.rcvNxt == x.s.rcvNxt && y.s.ooo == x.s.ooo
            && |y.got| - |x.got| == S.Min(Limits(sizes), |x.s.rx|)
  {
    if sizes != [] {
      var n := |sizes| - 1;
      ReadsDrain(x, sizes[..n]);
      assert AsEvents(sizes)[..n] == AsEvents(sizes[..n]);
      var z := R.Run(x, AsEvents(sizes[..n]));
      ReadTakes(z.s, sizes[n]);
      var (out, t) := R.Recv(z.s, sizes[n]);
      assert z.got + (out + t.rx) == (z.got + out) + t.rx;
      assert R.Run(x, AsEvents(sizes)) == R.Session(t, z.got + out);
    }
  }

  // ---- both ends ----

  // A timeout against a receiver of the same make that has everything up to una, an empty
  // buffer and the network's help: the resent segment is accepted if and only if no more than
  // one MSS is in flight.  Otherwise it is refused, and every further timeout repeats it.
  lemma TimeoutAccepted(s: S.Snd, link: S.Link, w: seq<Byte>, base: U32, y: R.Rx, stream: R.Stream, got: seq<Byte>)
    requires S.Sender(s, w, base) && |s.buf| > 0 && link(s.tries)
    requires R.RxInv(y, stream, base, got) && y.rx == [] && y.rcvNxt == s.una
             && R.Authentic(y, stream, got, s.una, s.buf[..S.InFlight(s)])
    ensures var t := S.Timeout(s, link);
            var p := t.sent[|s.sent|];
            && S.InFlight(s) <= |s.buf| && t.sent == s.sent + [p]
            && (R.Accept(y, p.start, p.data).ok <==> S.InFlight(s) <= MSS)
            && (!R.Accept(y, p.start, p.data).ok ==>
                  R.Accept(y, p.start, p.data).s == y && S.InFlight(t) == S.InFlight(s) && t.buf == s.buf
                    && t.una == s.una)
  {
    hide R.Merge, R.RxInv, R.Authentic, S.AllGenuine, Tiles, Minus;
    TimeoutResends(s, link);
    InOrderTaken(y, stream, base, got, s.buf[..S.InFlight(s)]);
  }

  // However many timeouts follow each other, a receiver that waits for una takes none of what
  // they resend once more than one MSS is in flight.
  lemma {:induction false} NeverDelivered(x: S.Session, link: S.Link, n: nat, y: R.Rx)
    requires MSS < S.InFlight(x.s) <= |x.s.buf| <= BUF && y.rcvNxt == x.s.una
    ensures var z := S.Run(x, link, seq(n, _ => S.RtoFires)).s;
            && z.una == x.s.una && z.nxt == x.s.nxt && z.buf == x.s.buf && x.s.sent <= z.sent
            && forall i: nat | |x.s.sent| <= i < |z.sent| ::
                 R.Accept(y, z.sent[i].start, z.sent[i].data) == R.Taken(y, false)
  {
    hide Minus, R.Merge;
    if n > 0 {
      NeverDelivered(x, link, n - 1, y);
      var es := seq(n, _ => S.RtoFires);
      assert es[..n - 1] == seq(n - 1, _ => S.RtoFires);
      var z := S.Run(x, link, es[..n - 1]);
      OneTimeout(z, link);
    }
  }

  lemma OneTimeout(x: S.Session, link: S.Link)
    requires 0 < S.InFlight(x.s) <= |x.s.buf| <= BUF
    ensures var r := S.Step(x, link, S.RtoFires).s;
            && r.una == x.s.una && r.nxt == x.s.nxt && r.buf == x.s.buf
            && r.sent == if link(x.s.tries) then x.s.sent + [S.Packet(x.s.una, x.s.buf[..S.InFlight(x.s)])]
                 else x.s.sent
  {
    hide Minus, ClearMarks;
  }
}
