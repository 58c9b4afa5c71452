// The send side of net/net_tcp.c while no FIN has been sent: the send buffer, window
// filling, ACK and SACK processing, fast retransmit, retransmission timeout, persist probe.
module TcpSend {
  import opened Basics
  import opened TcpParams
  import opened SeqNum
  import opened TcpScoreboard

  // A data segment handed to the link.
  datatype Packet = Packet(start: U32, data: seq<Byte>)

  // buf is sndb[0..snd_used); sent and tries record what was put on the link and how often
  // the link was asked.
  datatype Snd = Snd(
    una: U32, nxt: U32, buf: seq<Byte>, tx: seq<Entry>, sacks: seq<Block>,
    peerWin: nat, peerMss: nat, cwnd: U32, ssthresh: U32,
    dupacks: U32, fastRecovery: bool, recover: U32,
    sent: seq<Packet>, tries: nat)

  // Whether the n-th attempt to put a packet on the link succeeds (ARP and ring space).
  type Link = nat -> bool

  datatype Put = Put(s: Snd, ok: bool)

  // tcp_put_pkt with payload.
  function PutPacket(s: Snd, link: Link, start: U32, data: seq<Byte>): Put {
    if link(s.tries) then Put(s.(tries := s.tries + 1, sent := s.sent + [Packet(start, data)]), true)
    else Put(s.(tries := s.tries + 1), false)
  }

  function InFlight(s: Snd): U32 {
    Minus(s.nxt, s.una)
  }

  function Min(a: nat, b: nat): nat {
    if a < b then a else b
  }

  function Window(s: Snd): nat {
    Min(s.peerWin, s.cwnd)
  }

  function EffectiveMss(s: Snd): (m: nat)
    ensures 1 <= m <= MSS
  {
    if s.peerMss == 0 then MSS else Min(s.peerMss, MSS)
  }

  lemma InFlightGrows(s: Snd, n: nat)
    requires InFlight(s) + n < MOD
    ensures Minus(Plus(s.nxt, n), s.una) == InFlight(s) + n
  {
    MinusPlus(s.nxt, s.una, n);
  }

  // How much new data the next segment of tcp_xmit_pending carries; 0 means the loop stops.
  function NextLen(s: Snd): (n: nat)
    ensures n <= MSS && (n > 0 ==> InFlight(s) + n <= |s.buf| && InFlight(s) + n <= Window(s))
  {
    if InFlight(s) >= Window(s) || |s.buf| <= InFlight(s) then 0
    else Min(Min(|s.buf| - InFlight(s), Window(s) - InFlight(s)), EffectiveMss(s))
  }

  // tcp_xmit_pending.
  function XmitPending(s: Snd, link: Link): (r: Snd)
    requires |s.buf| <= BUF
    decreases |s.buf| - InFlight(s)
  {
    var n := NextLen(s);
    if n == 0 then s
    else
      var at := InFlight(s);
      var p := PutPacket(s, link, s.nxt, s.buf[at..at + n]);
      if !p.ok then p.s
      else
        InFlightGrows(s, n);
        XmitPending(p.s.(nxt := Plus(s.nxt, n), tx := Add(s.tx, s.nxt, n)), link)
  }

  // tcp_send; the number of bytes taken, 0 standing for -EAGAIN or an empty write.
  function Send(s: Snd, link: Link, data: seq<Byte>): (r: (nat, Snd))
    requires |s.buf| <= BUF
    ensures r.0 <= |data|
  {
    var n := Min(Min(|data|, 1460), BUF - |s.buf|);
    if n == 0 then (0, s) else (n, XmitPending(s.(buf := s.buf + data[..n]), link))
  }

  // Entry i may be resent: lost, not sacked, not yet resent, and its bytes are in the buffer.
  predicate Eligible(s: Snd, i: nat)
    requires i < |s.tx|
  {
    var e := s.tx[i];
    e.lost && !e.sacked && !e.retx && !Before(e.start, s.una) && Minus(e.start, s.una) + e.len <= |s.buf|
  }

  // tcp_tx_retransmit_lost from entry i on: resend the first eligible entry the link takes.
  function RetransmitLost(s: Snd, link: Link, i: nat): (r: Put)
    requires i <= |s.tx|
    decreases |s.tx| - i
  {
    if i == |s.tx| then Put(s, false)
    else
      var e := s.tx[i];
      var off := Minus(e.start, s.una);
      if !Eligible(s, i) then RetransmitLost(s, link, i + 1)
      else
        var p := PutPacket(s, link, e.start, s.buf[off..off + e.len]);
        if !p.ok then RetransmitLost(p.s, link, i + 1)
        else Put(p.s.(tx := s.tx[i := e.(retx := true)]), true)
  }

  // tcp_loss_window.
  function LossWindow(s: Snd, inFlight: U32): Snd {
    var half := inFlight / 2;
    s.(ssthresh := if half < 2 * MSS then 2 * MSS else half, cwnd := MSS, dupacks := 0, fastRecovery := false)
  }

  // The third duplicate ACK.
  function FastRetransmit(s: Snd, link: Link, resent: bool): (r: Snd)
    requires |s.buf| <= BUF && InFlight(s) <= |s.buf|
  {
    var inFlight := InFlight(s);
    var l := LossWindow(s, inFlight);
    var f := l.(dupacks := 3, cwnd := Plus(l.ssthresh, 3 * MSS), fastRecovery := true, recover := s.nxt);
    var q := if resent then Put(f, true) else if |f.sacks| > 0 then RetransmitLost(f, link, 0) else Put(f, false);
    if q.ok then q.s
    else
      var p := PutPacket(q.s, link, s.una, s.buf[..Min(inFlight, MSS)]);
      if p.ok then p.s else p.s.(fastRecovery := false)
  }

  function DuplicateAck(s: Snd, link: Link): (r: Snd)
    requires |s.buf| <= BUF && InFlight(s) <= |s.buf|
  {
    var d := s.(dupacks := Plus(s.dupacks, 1));
    var q := if |d.sacks| > 0 then RetransmitLost(d, link, 0) else Put(d, false);
    RetransmitKeeps(d, link, 0);
    if q.s.dupacks == 3 then FastRetransmit(q.s, link, q.ok)
    else if q.s.fastRecovery && q.s.dupacks > 3 then XmitPending(q.s.(cwnd := Plus(q.s.cwnd, MSS)), link)
    else q.s
  }

  // Congestion window growth on new data acknowledged.
  function Grow(s: Snd, acked: nat): Snd {
    if acked == 0 then s
    else if s.cwnd < s.ssthresh then s.(cwnd := Plus(s.cwnd, Min(acked, MSS)))
    else
      var inc := (MSS * acked) / (if s.cwnd == 0 then MSS else s.cwnd);
      s.(cwnd := Plus(s.cwnd, if inc == 0 then 1 else inc))
  }

  function Advance(s: Snd, ack: U32): Snd {
    var acked := Min(Minus(ack, s.una), |s.buf|);
    var t := Grow(s.(una := ack, buf := s.buf[acked..], tx := Ack(s.tx, ack)), acked);
    var u := if t.fastRecovery && (After(ack, t.recover) || ack == t.recover)
             then t.(cwnd := t.ssthresh, fastRecovery := false) else t;
    u.(dupacks := 0)
  }

  function NewAck(s: Snd, link: Link, ack: U32): (r: Snd)
    requires |s.buf| <= BUF
  {
    var a := Advance(s, ack);
    var q := if |a.sacks| > 0 then RetransmitLost(a, link, 0) else Put(a, false);
    RetransmitKeeps(a, link, 0);
    if q.ok then q.s else XmitPending(q.s, link)
  }

  // The ACK block of tcp_handle: window update, SACK intake, then one of three cases.
  function HandleAck(s: Snd, link: Link, ack: U32, win: nat, raw: seq<Block>): (r: Snd)
    requires |s.buf| <= BUF && InFlight(s) <= |s.buf|
  {
    var sacks := Intake(s.una, s.nxt, raw, |raw|);
    var w := s.(peerWin := win, sacks := sacks, tx := if sacks != [] then Sack(s.tx, s.una, sacks) else s.tx);
    if ack == s.una && InFlight(s) > 0 && win <= s.peerWin then DuplicateAck(w, link)
    else if ack == s.una && win > s.peerWin then XmitPending(w.(dupacks := 0), link)
    else if After(ack, s.una) && !After(ack, s.nxt) then NewAck(w, link, ack)
    else w
  }

  // The data branch of the retransmission timeout in tcp_tick.
  function Timeout(s: Snd, link: Link): Snd {
    if |s.buf| == 0 then s
    else
      var n := Min(InFlight(s), |s.buf|);
      PutPacket(LossWindow(s.(tx := ClearMarks(s.tx)), n), link, s.una, s.buf[..n]).s
  }

  // The persist branch of tcp_tick.
  function Probe(s: Snd, link: Link): Snd {
    if s.peerWin > 0 || |s.buf| <= InFlight(s) then s
    else PutPacket(s, link, s.una, s.buf[..1]).s
  }

  // Resending changes nothing but the marks, the link record and the attempt count.
  lemma {:induction false} RetransmitKeeps(s: Snd, link: Link, i: nat)
    requires i <= |s.tx|
    ensures var r := RetransmitLost(s, link, i).s;
            && r == s.(tx := r.tx, sent := r.sent, tries := r.tries) && |r.tx| == |s.tx|
            && (forall j: nat | j < |s.tx| :: r.tx[j].start == s.tx[j].start && r.tx[j].len == s.tx[j].len)
    decreases |s.tx| - i
  {
    hide Minus, Before;
    if i < |s.tx| {
      var e := s.tx[i];
      var off := Minus(e.start, s.una);
      RetransmitKeeps(s, link, i + 1);
      if (e.lost && !e.sacked && !e.retx) && !Before(e.start, s.una) && off + e.len <= |s.buf| {
        var p := PutPacket(s, link, e.start, s.buf[off..off + e.len]);
        if !p.ok { RetransmitKeeps(p.s, link, i + 1); }
      }
    }
  }

  // ---- the sender and what the application wrote ----

  // w is everything the application has handed over so far, u the position of una in it.
  ghost predicate SndInv(s: Snd, w: seq<Byte>, base: U32, u: nat) {
    && s.una == Image(base, u) && s.nxt == Image(base, u + InFlight(s))
    && InFlight(s) <= |s.buf| <= BUF
    && u + |s.buf| == |w| && s.buf == w[u..]
    && |s.tx| <= ENTRIES && Tiles(s.tx, base, u, u + InFlight(s))
  }

  // A packet carries bytes the application wrote, at the position its number names.
  ghost predicate Carries(p: Packet, w: seq<Byte>, base: U32, at: nat) {
    p.start == Image(base, at) && at + |p.data| <= |w| && p.data == w[at..at + |p.data|]
  }

  ghost predicate Genuine(p: Packet, w: seq<Byte>, base: U32) {
    exists at: nat :: Carries(p, w, base, at)
  }

  ghost predicate AllGenuine(sent: seq<Packet>, w: seq<Byte>, base: U32) {
    forall i: nat | i < |sent| :: Genuine(sent[i], w, base)
  }

  // A packet carries bytes at or behind position lo.
  ghost predicate Placed(p: Packet, w: seq<Byte>, base: U32, lo: nat) {
    exists at: nat :: lo <= at && Carries(p, w, base, at)
  }

  // What was put on the link between s and r carries bytes written, at or behind position lo.
  ghost predicate Emits(s: Snd, r: Snd, w: seq<Byte>, base: U32, lo: nat) {
    s.sent <= r.sent && forall i: nat | |s.sent| <= i < |r.sent| :: Placed(r.sent[i], w, base, lo)
  }

  lemma EmitsThen(s: Snd, t: Snd, r: Snd, w: seq<Byte>, base: U32, lo: nat)
    requires Emits(s, t, w, base, lo) && Emits(t, r, w, base, lo)
    ensures Emits(s, r, w, base, lo)
  {
    hide Placed;
    forall i: nat | |s.sent| <= i < |r.sent| ensures Placed(r.sent[i], w, base, lo) {
      if i < |t.sent| { assert r.sent[i] == t.sent[i]; }
    }
  }

  lemma EmitsGenuine(s: Snd, r: Snd, w: seq<Byte>, base: U32, lo: nat)
    requires AllGenuine(s.sent, w, base) && Emits(s, r, w, base, lo)
    ensures AllGenuine(r.sent, w, base)
  {
    forall i: nat | i < |r.sent| ensures Genuine(r.sent[i], w, base) {
      if i < |s.sent| {
        assert r.sent[i] == s.sent[i] && Genuine(s.sent[i], w, base);
      } else {
        var at: nat :| lo <= at && Carries(r.sent[i], w, base, at);
      }
    }
  }

  // One packet cut from the buffer.
  lemma CutGenuine(s: Snd, w: seq<Byte>, base: U32, u: nat, off: nat, n: nat, start: U32)
    requires u + |s.buf| == |w| && s.buf == w[u..] && off + n <= |s.buf| && start == Image(base, u + off)
    ensures Placed(Packet(start, s.buf[off..off + n]), w, base, u)
  {
    assert s.buf[off..off + n] == w[u + off..u + off + n];
    assert Carries(Packet(start, s.buf[off..off + n]), w, base, u + off);
  }

  lemma PutEmits(s: Snd, link: Link, w: seq<Byte>, base: U32, lo: nat, start: U32, data: seq<Byte>)
    requires Placed(Packet(start, data), w, base, lo)
    ensures var r := PutPacket(s, link, start, data).s;
            Emits(s, r, w, base, lo) && r == s.(sent := r.sent, tries := r.tries)
  {
    hide Placed;
  }

  lemma SentGrows(s: Snd, link: Link, start: U32, data: seq<Byte>)
    ensures var r := PutPacket(s, link, start, data).s; r == s.(sent := r.sent, tries := r.tries) && s.sent <= r.sent
  {
  }

  // The state after one more segment of new data.
  lemma XmitOne(s: Snd, w: seq<Byte>, base: U32, u: nat, n: nat, t: Snd)
    requires SndInv(s, w, base, u) && 1 <= n <= MSS && InFlight(s) + n <= |s.buf|
    requires t == s.(nxt := Plus(s.nxt, n), tx := Add(s.tx, s.nxt, n), sent := t.sent, tries := t.tries)
    ensures SndInv(t, w, base, u) && InFlight(t) == InFlight(s) + n
  {
    hide Image, Plus, Minus, Tiles, Add;
    InFlightGrows(s, n);
    ImagePlus(base, u + InFlight(s), n);
    AddTiles(s.tx, base, u, u + InFlight(s), n);
  }

  // Filling the window: genuine packets only, never past una + min(peer window, cwnd).
  lemma {:induction false} XmitSound(s: Snd, link: Link, w: seq<Byte>, base: U32, u: nat)
    requires SndInv(s, w, base, u)
    ensures var r := XmitPending(s, link);
            && SndInv(r, w, base, u) && Emits(s, r, w, base, u)
            && r == s.(nxt := r.nxt, tx := r.tx, sent := r.sent, tries := r.tries)
            && InFlight(s) <= InFlight(r)
            && (InFlight(r) > InFlight(s) ==> InFlight(r) <= Window(s))
    decreases |s.buf| - InFlight(s)
  {
    hide SndInv, Placed, Add, Plus, Minus, NextLen, PutPacket;
    BufBound(s, w, base, u);
    var n := NextLen(s);
    if n > 0 {
      var at := InFlight(s);
      CutNext(s, w, base, u, n);
      PutEmits(s, link, w, base, u, s.nxt, s.buf[at..at + n]);
      var p := PutPacket(s, link, s.nxt, s.buf[at..at + n]);
      if p.ok {
        var t := p.s.(nxt := Plus(s.nxt, n), tx := Add(s.tx, s.nxt, n));
        XmitOne(s, w, base, u, n, t);
        XmitSound(t, link, w, base, u);
        EmitsThen(s, t, XmitPending(t, link), w, base, u);
      } else {
        SameSender(s, p.s, w, base, u);
      }
    }
  }

  lemma BufBound(s: Snd, w: seq<Byte>, base: U32, u: nat)
    requires SndInv(s, w, base, u)
    ensures InFlight(s) <= |s.buf| <= BUF
  {
  }

  lemma CutNext(s: Snd, w: seq<Byte>, base: U32, u: nat, n: nat)
    requires SndInv(s, w, base, u) && InFlight(s) + n <= |s.buf|
    ensures Placed(Packet(s.nxt, s.buf[InFlight(s)..InFlight(s) + n]), w, base, u)
  {
    CutGenuine(s, w, base, u, InFlight(s), n, s.nxt);
  }

  // Fields the invariant does not look at may change freely.
  lemma SameSender(s: Snd, t: Snd, w: seq<Byte>, base: U32, u: nat)
    requires SndInv(s, w, base, u) && t.una == s.una && t.nxt == s.nxt && t.buf == s.buf && t.tx == s.tx
    ensures SndInv(t, w, base, u)
  {
  }

  lemma SameRanges(s: Snd, t: Snd, w: seq<Byte>, base: U32, u: nat)
    requires SndInv(s, w, base, u) && t.una == s.una && t.nxt == s.nxt && t.buf == s.buf && |t.tx| == |s.tx|
    requires forall i: nat | i < |s.tx| :: t.tx[i].start == s.tx[i].start && t.tx[i].len == s.tx[i].len
    ensures SndInv(t, w, base, u)
  {
    TilesMarks(s.tx, t.tx, base, u, u + InFlight(s));
  }

  // tcp_send appends what it takes to the written stream.
  lemma SendSound(s: Snd, link: Link, data: seq<Byte>, w: seq<Byte>, base: U32, u: nat)
    requires SndInv(s, w, base, u)
    ensures var (n, r) := Send(s, link, data);
            SndInv(r, w + data[..n], base, u) && Emits(s, r, w + data[..n], base, u)
  {
    hide Placed, Tiles, XmitPending;
    var n := Min(Min(|data|, 1460), BUF - |s.buf|);
    if n == 0 {
      assert w + data[..n] == w;
    } else {
      var t := s.(buf := s.buf + data[..n]);
      assert (w + data[..n])[u..] == w[u..] + data[..n];
      XmitSound(t, link, w + data[..n], base, u);
    }
  }

  lemma Extends(sent: seq<Packet>, w: seq<Byte>, more: seq<Byte>, base: U32)
    requires AllGenuine(sent, w, base)
    ensures AllGenuine(sent, w + more, base)
  {
    forall i: nat | i < |sent| ensures Genuine(sent[i], w + more, base) {
      assert Genuine(sent[i], w, base);
      var at: nat :| Carries(sent[i], w, base, at);
      assert (w + more)[at..at + |sent[i].data|] == w[at..at + |sent[i].data|];
      assert Carries(sent[i], w + more, base, at);
    }
  }

  // ---- resending ----

  lemma {:induction false} EntryPosition(tx: seq<Entry>, base: U32, lo: int, hi: int, i: nat) returns (q: int)
    requires Tiles(tx, base, lo, hi) && i < |tx|
    ensures lo <= q && q + tx[i].len <= hi && tx[i].start == Image(base, q) && tx[i].len >= 1
  {
    TilesBound(tx, base, lo, hi);
    if i == 0 {
      q := lo;
    } else {
      q := EntryPosition(tx[1..], base, lo + tx[0].len, hi, i - 1);
    }
  }

  // Entry i of the board names bytes that are still in the buffer.
  lemma EntryGenuine(s: Snd, w: seq<Byte>, base: U32, u: nat, i: nat)
    requires SndInv(s, w, base, u) && i < |s.tx|
    ensures var e := s.tx[i];
            var off := Minus(e.start, s.una);
            && !Before(e.start, s.una) && off + e.len <= InFlight(s) <= |s.buf|
            && Placed(Packet(e.start, s.buf[off..off + e.len]), w, base, u)
  {
    hide Image, Minus, Before, Placed;
    var q := EntryPosition(s.tx, base, u, u + InFlight(s), i);
    ImageDistance(base, q, u);
    ImageDiff(base, q, u);
    CutGenuine(s, w, base, u, q - u, s.tx[i].len, s.tx[i].start);
  }

  // What a selective resend puts on the link: one entry that was lost and not sacked, once.
  ghost predicate Resends(s: Snd, r: Snd, i: nat) {
    && i < |s.tx| && |r.tx| == |s.tx| && s.tx[i].lost && !s.tx[i].sacked && !s.tx[i].retx && r.tx[i].retx
    && |r.sent| == |s.sent| + 1 && s.sent <= r.sent && r.sent[|s.sent|].start == s.tx[i].start
       && |r.sent[|s.sent|].data| == s.tx[i].len
  }

  lemma {:induction false} RetransmitSound(s: Snd, link: Link, w: seq<Byte>, base: U32, u: nat, i: nat)
    requires SndInv(s, w, base, u) && i <= |s.tx|
    ensures var r := RetransmitLost(s, link, i);
            && SndInv(r.s, w, base, u) && Emits(s, r.s, w, base, u)
            && (r.ok ==> exists j: nat :: Resends(s, r.s, j))
            && (!r.ok ==> r.s.sent == s.sent && r.s.tx == s.tx)
    decreases |s.tx| - i
  {
    hide SndInv, Placed, Minus, Before;
    if i < |s.tx| {
      var e := s.tx[i];
      EntryGenuine(s, w, base, u, i);
      var off := Minus(e.start, s.una);
      if !(e.lost && !e.sacked && !e.retx) {
        RetransmitSound(s, link, w, base, u, i + 1);
      } else {
        var p := PutPacket(s, link, e.start, s.buf[off..off + e.len]);
        PutEmits(s, link, w, base, u, e.start, s.buf[off..off + e.len]);
        if p.ok {
          var t := p.s.(tx := s.tx[i := e.(retx := true)]);
          SameRanges(s, t, w, base, u);
          assert Resends(s, t, i);
        } else {
          SameSender(s, p.s, w, base, u);
          RetransmitSound(p.s, link, w, base, u, i + 1);
          var r := RetransmitLost(p.s, link, i + 1);
          EmitsThen(s, p.s, r.s, w, base, u);
          if r.ok {
            var j: nat :| Resends(p.s, r.s, j);
            assert Resends(s, r.s, j);
          }
        }
      }
    }
  }

  // The head of the buffer, resent by fast retransmit, timeout or probe.
  lemma HeadGenuine(s: Snd, w: seq<Byte>, base: U32, u: nat, n: nat)
    requires SndInv(s, w, base, u) && n <= |s.buf|
    ensures Placed(Packet(s.una, s.buf[..n]), w, base, u)
  {
    CutGenuine(s, w, base, u, 0, n, s.una);
    assert s.buf[0..n] == s.buf[..n];
  }

  // A step of the sender that acknowledges nothing.
  ghost predicate Safe(s: Snd, r: Snd, w: seq<Byte>, base: U32, u: nat) {
    SndInv(r, w, base, u) && Emits(s, r, w, base, u)
  }

  lemma SafeThen(s: Snd, t: Snd, r: Snd, w: seq<Byte>, base: U32, u: nat)
    requires Emits(s, t, w, base, u) && Safe(t, r, w, base, u)
    ensures Safe(s, r, w, base, u)
  {
    hide SndInv;
    EmitsThen(s, t, r, w, base, u);
  }

  lemma PutSafe(s: Snd, link: Link, w: seq<Byte>, base: U32, u: nat, n: nat)
    requires SndInv(s, w, base, u) && n <= |s.buf|
    ensures Safe(s, PutPacket(s, link, s.una, s.buf[..n]).s, w, base, u)
  {
    hide SndInv, Placed;
    HeadGenuine(s, w, base, u, n);
    PutEmits(s, link, w, base, u, s.una, s.buf[..n]);
    SameSender(s, PutPacket(s, link, s.una, s.buf[..n]).s, w, base, u);
  }

  lemma FastRetransmitSafe(s: Snd, link: Link, resent: bool, w: seq<Byte>, base: U32, u: nat)
    requires SndInv(s, w, base, u)
    ensures InFlight(s) <= |s.buf| <= BUF && Safe(s, FastRetransmit(s, link, resent), w, base, u)
  {
    hide SndInv, Placed, RetransmitLost, Minus, PutPacket;
    BufBound(s, w, base, u);
    var inFlight := InFlight(s);
    var l := LossWindow(s, inFlight);
    var f := l.(dupacks := 3, cwnd := Plus(l.ssthresh, 3 * MSS), fastRecovery := true, recover := s.nxt);
    SameSender(s, f, w, base, u);
    RetransmitSound(f, link, w, base, u, 0);
    RetransmitKeeps(f, link, 0);
    var q := if resent then Put(f, true) else if |f.sacks| > 0 then RetransmitLost(f, link, 0) else Put(f, false);
    if !q.ok {
      PutSafe(q.s, link, w, base, u, Min(inFlight, MSS));
      var p := PutPacket(q.s, link, s.una, s.buf[..Min(inFlight, MSS)]);
      SameSender(p.s, p.s.(fastRecovery := false), w, base, u);
      EmitsThen(s, q.s, p.s, w, base, u);
    }
  }

  lemma DuplicateAckSafe(s: Snd, link: Link, w: seq<Byte>, base: U32, u: nat)
    requires SndInv(s, w, base, u)
    ensures InFlight(s) <= |s.buf| <= BUF && Safe(s, DuplicateAck(s, link), w, base, u)
  {
    hide SndInv, Emits, RetransmitLost, FastRetransmit, XmitPending, Minus, Plus;
    BufBound(s, w, base, u);
    var d := s.(dupacks := Plus(s.dupacks, 1));
    SameSender(s, d, w, base, u);
    RetransmitSound(d, link, w, base, u, 0);
    RetransmitKeeps(d, link, 0);
    NothingEmitted(s, d, w, base, u);
    var q := if |d.sacks| > 0 then RetransmitLost(d, link, 0) else Put(d, false);
    assert Emits(s, q.s, w, base, u) by { if |d.sacks| > 0 { EmitsThen(s, d, q.s, w, base, u); } }
    FastRetransmitSafe(q.s, link, q.ok, w, base, u);
    SafeThen(s, q.s, FastRetransmit(q.s, link, q.ok), w, base, u);
    var x := q.s.(cwnd := Plus(q.s.cwnd, MSS));
    SameSender(q.s, x, w, base, u);
    NothingEmitted(q.s, x, w, base, u);
    EmitsThen(s, q.s, x, w, base, u);
    XmitSound(x, link, w, base, u);
    EmitsThen(s, x, XmitPending(x, link), w, base, u);
  }

  lemma NothingEmitted(s: Snd, t: Snd, w: seq<Byte>, base: U32, lo: nat)
    requires t.sent == s.sent
    ensures Emits(s, t, w, base, lo)
  {
  }

  // ---- new acknowledgements ----

  // An ACK that advances una names a position inside the flight.
  lemma AckPosition(s: Snd, w: seq<Byte>, base: U32, u: nat, ack: U32) returns (a: nat)
    requires SndInv(s, w, base, u) && After(ack, s.una) && !After(ack, s.nxt)
    ensures u < a <= u + InFlight(s) && ack == Image(base, a) && Minus(ack, s.una) == a - u
    ensures Minus(s.nxt, ack) == u + InFlight(s) - a
  {
    hide Tiles, Image, Minus, After;
    a := Between(base, u, InFlight(s), ack);
  }

  lemma AdvanceSound(s: Snd, w: seq<Byte>, base: U32, u: nat, ack: U32) returns (a: nat)
    requires SndInv(s, w, base, u) && After(ack, s.una) && !After(ack, s.nxt)
    ensures u < a <= u + InFlight(s) && ack == Image(base, a)
    ensures SndInv(Advance(s, ack), w, base, a) && Advance(s, ack).sent == s.sent
  {
    hide Tiles, After, Image, Minus, Ack, Plus;
    a := AckPosition(s, w, base, u, ack);
    AckTiles(s.tx, base, u, u + InFlight(s), a);
    assert w[u..][a - u..] == w[a..];
    AdvanceFields(s, ack);
  }

  lemma AdvanceFields(s: Snd, ack: U32)
    ensures var r := Advance(s, ack);
            && r.una == ack && r.nxt == s.nxt && r.buf == s.buf[Min(Minus(ack, s.una), |s.buf|)..]
            && r.tx == Ack(s.tx, ack) && r.sent == s.sent && r.sacks == s.sacks
  {
    hide Plus, Minus, After, Ack;
  }

  lemma NewAckSafe(s: Snd, link: Link, w: seq<Byte>, base: U32, u: nat, ack: U32) returns (a: nat)
    requires SndInv(s, w, base, u) && After(ack, s.una) && !After(ack, s.nxt)
    ensures u < a <= u + InFlight(s) && ack == Image(base, a)
    ensures |s.buf| <= BUF && Safe(s, NewAck(s, link, ack), w, base, a)
  {
    hide SndInv, Emits, RetransmitLost, XmitPending, Advance, After, Image;
    BufBound(s, w, base, u);
    a := AdvanceSound(s, w, base, u, ack);
    var t := Advance(s, ack);
    BufBound(t, w, base, a);
    RetransmitSound(t, link, w, base, a, 0);
    RetransmitKeeps(t, link, 0);
    NothingEmitted(s, t, w, base, a);
    var q := if |t.sacks| > 0 then RetransmitLost(t, link, 0) else Put(t, false);
    assert Emits(s, q.s, w, base, a) by { if |t.sacks| > 0 { EmitsThen(s, t, q.s, w, base, a); } }
    XmitSound(q.s, link, w, base, a);
    EmitsThen(s, q.s, XmitPending(q.s, link), w, base, a);
  }

  // ---- every event ----

  // New data is only sent inside the window in force.
  ghost predicate WithinWindow(s: Snd, u: nat, r: Snd, v: nat) {
    v + InFlight(r) > u + InFlight(s) ==> InFlight(r) <= Window(r)
  }

  lemma MarkedSender(s: Snd, w: seq<Byte>, base: U32, u: nat, win: nat, raw: seq<Block>)
    requires SndInv(s, w, base, u)
    ensures var sacks := Intake(s.una, s.nxt, raw, |raw|);
            var t := s.(peerWin := win, sacks := sacks, tx := if sacks != [] then Sack(s.tx, s.una, sacks) else s.tx);
            && SndInv(t, w, base, u)
            && AllInWindow(sacks, base, u, u + InFlight(s))
  {
    hide SndInv, Image, Minus, Intake, Sack, AllInWindow;
    var sacks := Intake(s.una, s.nxt, raw, |raw|);
    Numbers(s, w, base, u);
    IntakeInWindow(base, u, u + InFlight(s), raw, |raw|);
    SackRanges(s.tx, s.una, sacks);
    var t := s.(peerWin := win, sacks := sacks, tx := if sacks != [] then Sack(s.tx, s.una, sacks) else s.tx);
    SameRanges(s, t, w, base, u);
  }

  lemma Numbers(s: Snd, w: seq<Byte>, base: U32, u: nat)
    requires SndInv(s, w, base, u)
    ensures s.una == Image(base, u) && s.nxt == Image(base, u + InFlight(s)) && InFlight(s) <= BUF
  {
  }

  lemma SackRanges(tx: seq<Entry>, una: U32, sacks: seq<Block>)
    ensures var r := Sack(tx, una, sacks);
            forall i: nat | i < |tx| :: r[i].start == tx[i].start && r[i].len == tx[i].len
  {
    hide Covered, High;
  }

  lemma DuplicateAckWindow(s: Snd, link: Link, w: seq<Byte>, base: U32, u: nat)
    requires SndInv(s, w, base, u)
    ensures InFlight(s) <= |s.buf| <= BUF && WithinWindow(s, u, DuplicateAck(s, link), u)
  {
    hide SndInv, Emits, RetransmitLost, XmitPending, Minus, Plus, PutPacket;
    BufBound(s, w, base, u);
    var d := s.(dupacks := Plus(s.dupacks, 1));
    SameSender(s, d, w, base, u);
    RetransmitSound(d, link, w, base, u, 0);
    RetransmitKeeps(d, link, 0);
    var q := if |d.sacks| > 0 then RetransmitLost(d, link, 0) else Put(d, false);
    if q.s.dupacks == 3 {
      FastRetransmitFlight(q.s, link, q.ok);
    } else {
      var x := q.s.(cwnd := Plus(q.s.cwnd, MSS));
      SameSender(q.s, x, w, base, u);
      XmitSound(x, link, w, base, u);
    }
  }

  lemma FastRetransmitFlight(s: Snd, link: Link, resent: bool)
    requires |s.buf| <= BUF && InFlight(s) <= |s.buf|
    ensures InFlight(FastRetransmit(s, link, resent)) == InFlight(s)
  {
    hide RetransmitLost, Minus, Plus;
    var l := LossWindow(s, InFlight(s));
    var f := l.(dupacks := 3, cwnd := Plus(l.ssthresh, 3 * MSS), fastRecovery := true, recover := s.nxt);
    RetransmitKeeps(f, link, 0);
  }

  lemma NewAckWindow(s: Snd, link: Link, w: seq<Byte>, base: U32, u: nat, ack: U32, a: nat)
    requires SndInv(s, w, base, u) && After(ack, s.una) && !After(ack, s.nxt)
    requires u < a <= u + InFlight(s) && ack == Image(base, a)
    ensures |s.buf| <= BUF && WithinWindow(s, u, NewAck(s, link, ack), a)
  {
    hide SndInv, Emits, RetransmitLost, XmitPending, Advance, After, Image;
    BufBound(s, w, base, u);
    var a' := AdvanceSound(s, w, base, u, ack);
    var t := Advance(s, ack);
    ImageDiff(base, a, a');
    AdvanceFlight(s, w, base, u, ack, a);
    RetransmitSound(t, link, w, base, a, 0);
    RetransmitKeeps(t, link, 0);
    var q := if |t.sacks| > 0 then RetransmitLost(t, link, 0) else Put(t, false);
    BufBound(t, w, base, a);
    XmitSound(q.s, link, w, base, a);
  }

  lemma AdvanceFlight(s: Snd, w: seq<Byte>, base: U32, u: nat, ack: U32, a: nat)
    requires SndInv(s, w, base, u) && After(ack, s.una) && !After(ack, s.nxt)
    requires u < a <= u + InFlight(s) && ack == Image(base, a)
    ensures a + InFlight(Advance(s, ack)) == u + InFlight(s)
  {
    hide Tiles, Image, Plus, Ack;
    var b := AckPosition(s, w, base, u, ack);
    ImageDiff(base, a, b);
    AdvanceFields(s, ack);
  }

  // The position of una given what was written.
  ghost function Acked(s: Snd, w: seq<Byte>): nat
    requires |s.buf| <= |w|
  {
    |w| - |s.buf|
  }

  ghost predicate Sender(s: Snd, w: seq<Byte>, base: U32) {
    |s.buf| <= |w| && SndInv(s, w, base, Acked(s, w)) && AllGenuine(s.sent, w, base)
  }

  // An arriving ACK, whatever its number, window and SACK blocks.
  lemma HandleAckSound(s: Snd, link: Link, ack: U32, win: nat, raw: seq<Block>, w: seq<Byte>, base: U32)
    requires Sender(s, w, base)
    ensures InFlight(s) <= |s.buf| <= BUF
    ensures var r := HandleAck(s, link, ack, win, raw);
            && Sender(r, w, base) && Emits(s, r, w, base, Acked(r, w)) && Acked(r, w) >= Acked(s, w)
            && WithinWindow(s, Acked(s, w), r, Acked(r, w))
  {
    hide AllGenuine, Emits, After, Image, Minus, Intake, Sack, Tiles, DuplicateAck, NewAck, XmitPending;
    var u := Acked(s, w);
    var sacks := Intake(s.una, s.nxt, raw, |raw|);
    var t := s.(peerWin := win, sacks := sacks, tx := if sacks != [] then Sack(s.tx, s.una, sacks) else s.tx);
    MarkedSender(s, w, base, u, win, raw);
    NothingEmitted(s, t, w, base, u);
    var r := HandleAck(s, link, ack, win, raw);
    if ack == s.una && InFlight(s) > 0 && win <= s.peerWin {
      DuplicateAckSafe(t, link, w, base, u);
      DuplicateAckWindow(t, link, w, base, u);
      EmitsThen(s, t, r, w, base, u);
    } else if ack == s.una && win > s.peerWin {
      var d := t.(dupacks := 0);
      SameSender(t, d, w, base, u);
      NothingEmitted(s, d, w, base, u);
      XmitSound(d, link, w, base, u);
      EmitsThen(s, d, r, w, base, u);
    } else if After(ack, s.una) && !After(ack, s.nxt) {
      var a := NewAckSafe(t, link, w, base, u, ack);
      NewAckWindow(t, link, w, base, u, ack, a);
      NothingEmitted(s, t, w, base, a);
      EmitsThen(s, t, r, w, base, a);
    }
    EmitsGenuine(s, r, w, base, Acked(r, w));
  }

  lemma TimeoutSound(s: Snd, link: Link, w: seq<Byte>, base: U32)
    requires Sender(s, w, base)
    ensures var r := Timeout(s, link);
            && Sender(r, w, base) && Emits(s, r, w, base, Acked(r, w))
            && Acked(r, w) == Acked(s, w) && r.nxt == s.nxt
  {
    hide AllGenuine, Placed, Tiles, Minus, ClearMarks;
    var u := Acked(s, w);
    if |s.buf| > 0 {
      var n := Min(InFlight(s), |s.buf|);
      SackTiles(s.tx, base, u, u + InFlight(s), s.una, []);
      var c := s.(tx := ClearMarks(s.tx));
      assert SndInv(c, w, base, u);
      SameSender(c, LossWindow(c, n), w, base, u);
      PutSafe(LossWindow(c, n), link, w, base, u, n);
    }
    EmitsGenuine(s, Timeout(s, link), w, base, u);
  }

  lemma ProbeSound(s: Snd, link: Link, w: seq<Byte>, base: U32)
    requires Sender(s, w, base)
    ensures var r := Probe(s, link);
            && Sender(r, w, base) && Emits(s, r, w, base, Acked(r, w))
            && Acked(r, w) == Acked(s, w) && r.nxt == s.nxt
  {
    hide AllGenuine, Placed, Tiles, Minus;
    if !(s.peerWin > 0 || |s.buf| <= InFlight(s)) { PutSafe(s, link, w, base, Acked(s, w), 1); }
    EmitsGenuine(s, Probe(s, link), w, base, Acked(s, w));
  }

  lemma SendWindow(s: Snd, link: Link, data: seq<Byte>, w: seq<Byte>, base: U32)
    requires Sender(s, w, base)
    ensures |s.buf| <= BUF
    ensures var (n, r) := Send(s, link, data);
            && Sender(r, w + data[..n], base) && Emits(s, r, w + data[..n], base, Acked(s, w))
            && Acked(r, w + data[..n]) == Acked(s, w)
            && WithinWindow(s, Acked(s, w), r, Acked(s, w))
  {
    hide AllGenuine, Placed, Tiles, Minus, XmitPending;
    var u := Acked(s, w);
    SendSound(s, link, data, w, base, u);
    var n := Min(Min(|data|, 1460), BUF - |s.buf|);
    Extends(s.sent, w, data[..n], base);
    EmitsGenuine(s, Send(s, link, data).1, w + data[..n], base, u);
    if n > 0 {
      var t := s.(buf := s.buf + data[..n]);
      assert (w + data[..n])[u..] == w[u..] + data[..n];
      XmitSound(t, link, w + data[..n], base, u);
    }
  }

  // ---- whole connections ----

  datatype Event =
    | Written(data: seq<Byte>)
    | AckArrives(ack: U32, win: nat, raw: seq<Block>)
    | RtoFires
    | PersistFires

  datatype Session = Session(s: Snd, w: seq<Byte>)

  function Step(x: Session, link: Link, e: Event): Session {
    if InFlight(x.s) > |x.s.buf| || |x.s.buf| > BUF then x
    else match e
      case Written(data) => var (n, r) := Send(x.s, link, data); Session(r, x.w + data[..n])
      case AckArrives(ack, win, raw) => x.(s := HandleAck(x.s, link, ack, win, raw))
      case RtoFires => x.(s := Timeout(x.s, link))
      case PersistFires => x.(s := Probe(x.s, link))
  }

  function Run(x: Session, link: Link, events: seq<Event>): Session {
    if events == [] then x else Step(Run(x, link, events[..|events| - 1]), link, events[|events| - 1])
  }

  // A connection just established; base is the number of its first byte.
  ghost predicate Established(x: Session, base: U32) {
    x.w == [] && x.s.buf == [] && x.s.tx == [] && x.s.sent == [] && x.s.una == x.s.nxt == base
  }

  lemma EstablishedSender(x: Session, base: U32)
    requires Established(x, base)
    ensures Sender(x.s, x.w, base)
  {
  }

  lemma StepSound(x: Session, link: Link, e: Event, base: U32)
    requires Sender(x.s, x.w, base)
    ensures var y := Step(x, link, e);
            && Sender(y.s, y.w, base) && x.w <= y.w && Acked(y.s, y.w) >= Acked(x.s, x.w)
            && Emits(x.s, y.s, y.w, base, Acked(y.s, y.w))
            && WithinWindow(x.s, Acked(x.s, x.w), y.s, Acked(y.s, y.w))
  {
    hide AllGenuine, Placed, Tiles, Send, HandleAck, Timeout, Probe, Minus;
    match e
    case Written(data) => SendWindow(x.s, link, data, x.w, base);
    case AckArrives(ack, win, raw) => HandleAckSound(x.s, link, ack, win, raw, x.w, base);
    case RtoFires => TimeoutSound(x.s, link, x.w, base);
    case PersistFires => ProbeSound(x.s, link, x.w, base);
  }

  lemma {:induction false} RunSound(x: Session, link: Link, events: seq<Event>, base: U32)
    requires Established(x, base)
    ensures Sender(Run(x, link, events).s, Run(x, link, events).w, base)
  {
    hide Sender, Step, Established;
    if events == [] {
      EstablishedSender(x, base);
    } else {
      RunSound(x, link, events[..|events| - 1], base);
      StepSound(Run(x, link, events[..|events| - 1]), link, events[|events| - 1], base);
    }
  }

  // Packet i of the run went out in step k, carrying the bytes written at position at, which was
  // then neither acknowledged nor past what had been written.
  ghost predicate EmittedAt(x: Session, link: Link, events: seq<Event>, base: U32, i: nat, k: nat, at: nat) {
    && k < |events|
    && var before, after, y := Run(x, link, events[..k]), Run(x, link, events[..k + 1]), Run(x, link, events);
       && |before.s.sent| <= i < |after.s.sent| && after.s.sent <= y.s.sent && after.w <= y.w
       && |after.s.buf| <= |after.w| && Acked(after.s, after.w) <= at
       && Carries(after.s.sent[i], after.w, base, at)
  }

  ghost predicate Located(x: Session, link: Link, events: seq<Event>, base: U32, i: nat) {
    exists k: nat, at: nat :: EmittedAt(x, link, events, base, i, k, at)
  }

  lemma {:induction false} AllLocated(x: Session, link: Link, events: seq<Event>, base: U32, i: nat)
    requires Established(x, base) && i < |Run(x, link, events).s.sent|
    ensures Located(x, link, events, base, i)
    decreases |events|
  {
    hide Sender, Step, Carries;
    if events != [] {
      var n := |events| - 1;
      var z := Run(x, link, events[..n]);
      RunSound(x, link, events[..n], base);
      StepSound(z, link, events[n], base);
      var y := Run(x, link, events);
      assert events[..n + 1] == events;
      if i < |z.s.sent| {
        AllLocated(x, link, events[..n], base, i);
        var k: nat, at: nat :| EmittedAt(x, link, events[..n], base, i, k, at);
        assert events[..n][..k] == events[..k] && events[..n][..k + 1] == events[..k + 1];
        assert EmittedAt(x, link, events, base, i, k, at);
      } else {
        RunSound(x, link, events, base);
        BufWritten(y, base);
        assert Placed(y.s.sent[i], y.w, base, Acked(y.s, y.w));
        var at: nat :| Acked(y.s, y.w) <= at && Carries(y.s.sent[i], y.w, base, at);
        assert EmittedAt(x, link, events, base, i, n, at);
      }
    }
  }

  lemma BufWritten(y: Session, base: U32)
    requires Sender(y.s, y.w, base)
    ensures |y.s.buf| <= |y.w| && |y.s.buf| <= BUF
  {
  }

  // Over every run of writes, ACKs, SACKs, fast retransmits, timeouts and probes, with any link
  // losses: every packet ever emitted carries the application's bytes at the position its
  // number names, between what had then been acknowledged and what had then been written;
  // una <= nxt <= una + used with used at most 4096; and the board tiles exactly [una, nxt).
  lemma StreamIntegrity(x: Session, link: Link, events: seq<Event>, base: U32)
    requires Established(x, base)
    ensures var y := Run(x, link, events);
            && AllGenuine(y.s.sent, y.w, base)
            && (forall i: nat | i < |y.s.sent| :: Located(x, link, events, base, i))
            && InFlight(y.s) <= |y.s.buf| <= BUF && |y.s.buf| <= |y.w|
            && y.s.una == Image(base, Acked(y.s, y.w)) && y.s.buf == y.w[Acked(y.s, y.w)..]
            && |y.s.tx| <= ENTRIES && Tiles(y.s.tx, base, Acked(y.s, y.w), Acked(y.s, y.w) + InFlight(y.s))
  {
    hide AllGenuine, Tiles, Run, Minus, Image, Located;
    RunSound(x, link, events, base);
    forall i: nat | i < |Run(x, link, events).s.sent| ensures Located(x, link, events, base, i) {
      AllLocated(x, link, events, base, i);
    }
  }

  // A duplicate or new ACK with SACK blocks: after the marking, every unsacked byte of the
  // flight below a sacked one lies in an entry marked lost.
  lemma HolesAreLost(s: Snd, w: seq<Byte>, base: U32, u: nat, raw: seq<Block>, p: int, above: int)
    returns (i: nat, q: int)
    requires SndInv(s, w, base, u)
    requires var sacks := Intake(s.una, s.nxt, raw, |raw|);
             && u <= p < above && !Sacked(sacks, base, u, u + InFlight(s), p)
                && Sacked(sacks, base, u, u + InFlight(s), above)
    ensures var r := Sack(s.tx, s.una, Intake(s.una, s.nxt, raw, |raw|));
            i < |r| && r[i].start == Image(base, q) && q <= p < q + r[i].len && r[i].lost && !r[i].sacked
  {
    hide Image, Minus, Intake, Tiles, Sack, Sacked, AllInWindow;
    MarkedSender(s, w, base, u, 0, raw);
    i, q := SackHoles(s.tx, base, u, u + InFlight(s), Intake(s.una, s.nxt, raw, |raw|), p, above);
  }
}
