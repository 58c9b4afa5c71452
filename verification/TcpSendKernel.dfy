// The send side of a connection in its own form: the send buffer and the scoreboard
// are arrays changed in place.
module TcpSendKernel {
  import opened Basics
  import opened TcpParams
  import opened SeqNum
  import opened TcpScoreboard
  import opened TcpSend

  class Sender {
    const sndb: array<Byte>
    const tx: array<Entry>
    var used: nat
    var txN: nat
    var una: U32
    var nxt: U32
    var sacks: seq<Block>
    var peerWin: nat
    var peerMss: nat
    var cwnd: U32
    var ssthresh: U32
    var dupacks: U32
    var fastRecovery: bool
    var recover: U32
    var sent: seq<Packet>
    var tries: nat

    ghost predicate Valid()
      reads this
    {
      sndb.Length == BUF && tx.Length == ENTRIES && used <= BUF && txN <= ENTRIES
    }

    ghost function View(): Snd
      requires Valid()
      reads this, sndb, tx
    {
      Snd(una, nxt, sndb[..used], tx[..txN], sacks, peerWin, peerMss, cwnd, ssthresh, dupacks, fastRecovery, recover,
          sent, tries)
    }

    method PutPkt(link: Link, start: U32, data: seq<Byte>) returns (ok: bool)
      requires Valid()
      modifies `sent, `tries
      ensures Valid() && Put(View(), ok) == PutPacket(old(View()), link, start, data)
    {
      ok := link(tries);
      tries := tries + 1;
      if ok { sent := sent + [Packet(start, data)]; }
    }

    method Slice(off: nat, n: nat) returns (data: seq<Byte>)
      requires Valid() && off + n <= used
      ensures data == View().buf[off..off + n]
    {
      data := sndb[..used][off..off + n];
    }

    // tcp_tx_add.
    method TxAdd(start: U32, len: nat)
      requires Valid()
      modifies tx, `txN
      ensures Valid() && tx[..txN] == Add(old(tx[..txN]), start, len)
    {
      if len == 0 || len > MSS { return; }
      if txN >= ENTRIES {
        var last := tx[ENTRIES - 1];
        if start == Plus(last.start, last.len) && last.len + len <= BUF {
          tx[ENTRIES - 1] := last.(len := last.len + len);
        }
        return;
      }
      tx[txN] := Fresh(start, len);
      txN := txN + 1;
    }

    // tcp_tx_ack: compaction in place.
    method TxAck(ack: U32)
      requires Valid()
      modifies tx, `txN
      ensures Valid() && tx[..txN] == Ack(old(tx[..txN]), ack)
    {
      hide After, Before, Plus, Minus;
      ghost var was := tx[..txN];
      var n := txN;
      var out, i := 0, 0;
      while i < n
        invariant out <= i <= n == |was| <= ENTRIES && Valid() && txN == n
        invariant forall j: nat | i <= j < n :: tx[j] == was[j]
        invariant tx[..out] + Ack(was[i..], ack) == Ack(was, ack)
      {
        ghost var kept := tx[..out];
        assert was[i..][0] == was[i] && was[i..][1..] == was[i + 1..];
        var e := tx[i];
        var end := Plus(e.start, e.len);
        if After(end, ack) {
          if Before(e.start, ack) {
            e := Fresh(ack, Minus(end, ack));
          }
          tx[out] := e;
          out := out + 1;
          assert tx[..out] == kept + [e];
          assert kept + ([e] + Ack(was[i + 1..], ack)) == (kept + [e]) + Ack(was[i + 1..], ack);
        }
        i := i + 1;
      }
      assert was[n..] == [];
      txN := out;
    }

    method HighestSacked() returns (high: U32)
      ensures high == High(una, sacks)
    {
      high := una;
      var b := 0;
      while b < |sacks|
        invariant b <= |sacks| && high == High(una, sacks[..b])
      {
        assert sacks[..b + 1][..b] == sacks[..b];
        if After(sacks[b].right, high) { high := sacks[b].right; }
        b := b + 1;
      }
      assert sacks[..b] == sacks;
    }

    method IsCovered(e: Entry) returns (covered: bool)
      ensures covered <==> Covered(e, sacks)
    {
      hide CoveredBy;
      var b := 0;
      while b < |sacks|
        invariant b <= |sacks| && forall j: nat | j < b :: !CoveredBy(e, sacks[j])
      {
        if CoveredBy(e, sacks[b]) { return true; }
        b := b + 1;
      }
      return false;
    }

    // tcp_tx_sack.
    method TxSack()
      requires Valid()
      modifies tx
      ensures Valid() && tx[..txN] == Sack(old(tx[..txN]), una, sacks)
    {
      hide Covered, High, Before;
      ghost var was := tx[..txN];
      var high := HighestSacked();
      var i := 0;
      while i < txN
        invariant i <= txN
        invariant forall j: nat | j < i :: tx[j] == Mark(was[j], sacks, high)
        invariant forall j: nat | i <= j < txN :: tx[j] == was[j]
      {
        var covered := IsCovered(tx[i]);
        tx[i] := tx[i].(sacked := covered, lost := !covered && Before(tx[i].start, high));
        i := i + 1;
      }
    }

    // tcp_tx_retransmit_lost.
    method RetransmitLostEntry(link: Link) returns (ok: bool)
      requires Valid()
      modifies tx, `sent, `tries
      ensures Valid() && Put(View(), ok) == RetransmitLost(old(View()), link, 0)
    {
      hide RetransmitLost, Eligible, PutPacket;
      ghost var s := View();
      var i := 0;
      while i < txN
        invariant i <= txN && Valid() && tx[..] == old(tx[..])
        invariant RetransmitLost(s, link, 0) == RetransmitLost(View(), link, i)
      {
        ghost var t := View();
        RetransmitUnfolds(t, link, i);
        var eligible := MayResend(i);
        if eligible {
          var sentOk := Resend(link, i);
          if sentOk { return true; }
        }
        i := i + 1;
      }
      RetransmitUnfolds(View(), link, i);
      return false;
    }

    method MayResend(i: nat) returns (eligible: bool)
      requires Valid() && i < txN
      ensures eligible <==> Eligible(View(), i)
    {
      var e := tx[i];
      if !e.lost || e.sacked || e.retx { return false; }
      eligible := !Before(e.start, una) && Minus(e.start, una) + e.len <= used;
    }

    method Resend(link: Link, i: nat) returns (ok: bool)
      requires Valid() && i < txN && Eligible(View(), i)
      modifies tx, `sent, `tries
      ensures Valid()
      ensures Put(View(), ok) == ResendEntry(old(View()), link, i)
      ensures !ok ==> tx[..] == old(tx[..])
    {
      hide Minus, Before, PutPacket;
      var e := tx[i];
      var payload := Slice(Minus(e.start, una), e.len);
      ghost var s := View();
      SentGrows(s, link, e.start, payload);
      ok := PutPkt(link, e.start, payload);
      if ok { tx[i] := e.(retx := true); }
    }

    // tcp_xmit_pending.
    method FillWindow(link: Link)
      requires Valid()
      modifies this, tx
      ensures Valid() && View() == XmitPending(old(View()), link)
    {
      hide Minus, Plus, Add, PutPacket;
      ghost var s := View();
      var n := NextLen(Peek());
      while n > 0
        invariant Valid() && n == NextLen(View())
        invariant XmitPending(s, link) == XmitPending(View(), link)
        decreases used - InFlight(View())
      {
        ghost var t := View();
        SentGrows(t, link, nxt, t.buf[InFlight(t)..InFlight(t) + n]);
        InFlightGrows(t, n);
        var at := Minus(nxt, una);
        var payload := Slice(at, n);
        var ok := PutPkt(link, nxt, payload);
        if !ok { return; }
        TxAdd(nxt, n);
        nxt := Plus(nxt, n);
        n := NextLen(Peek());
      }
    }

    function Peek(): (s: Snd)
      requires Valid()
      reads this, sndb, tx
      ensures s == View()
    {
      Snd(una, nxt, sndb[..used], tx[..txN], sacks, peerWin, peerMss, cwnd, ssthresh, dupacks, fastRecovery, recover,
          sent, tries)
    }

    // tcp_send.
    method SendData(link: Link, data: seq<Byte>) returns (n: nat)
      requires Valid()
      modifies this, tx, sndb
      ensures Valid() && (n, View()) == Send(old(View()), link, data)
    {
      n := Min(Min(|data|, 1460), BUF - used);
      if n == 0 { return; }
      CopyIn(data[..n]);
      FillWindow(link);
    }

    method CopyIn(data: seq<Byte>)
      requires Valid() && used + |data| <= BUF
      modifies sndb, `used
      ensures Valid() && sndb[..used] == old(sndb[..used]) + data && used == old(used) + |data|
    {
      ghost var was := sndb[..used];
      var i := 0;
      while i < |data|
        invariant used == old(used) && i <= |data| && sndb[..used + i] == was + data[..i]
      {
        sndb[used + i] := data[i];
        assert sndb[..used + i + 1] == sndb[..used + i] + [data[i]];
        assert data[..i + 1] == data[..i] + [data[i]];
        i := i + 1;
      }
      assert data[..|data|] == data;
      used := used + |data|;
    }

    // Discard the first n buffered bytes by moving the rest to the front.
    method Discard(n: nat)
      requires Valid() && n <= used
      modifies sndb, `used
      ensures Valid() && sndb[..used] == old(sndb[..used])[n..] && used == old(used) - n
    {
      ghost var was := sndb[..used];
      var i := 0;
      while i < used - n
        invariant used == old(used) && i <= used - n
        invariant forall j | 0 <= j < i :: sndb[j] == was[n + j]
        invariant forall j | n + i <= j < used :: sndb[j] == was[j]
      {
        sndb[i] := sndb[n + i];
        i := i + 1;
      }
      used := used - n;
      assert sndb[..used] == was[n..];
    }

    // The data branch of the timeout in tcp_tick.
    method OnTimeout(link: Link)
      requires Valid()
      modifies this, tx
      ensures Valid() && View() == Timeout(old(View()), link)
    {
      hide Minus, ClearMarks, PutPacket;
      if used == 0 { return; }
      var n := Min(Minus(nxt, una), used);
      ClearAllMarks();
      SetLossWindow(n);
      var payload := Slice(0, n);
      assert View().buf[0..n] == View().buf[..n];
      var _ := PutPkt(link, una, payload);
    }

    // tcp_tx_clear_marks.
    method ClearAllMarks()
      requires Valid()
      modifies tx
      ensures Valid() && tx[..txN] == ClearMarks(old(tx[..txN]))
    {
      ghost var was := tx[..txN];
      var i := 0;
      while i < txN
        invariant i <= txN
        invariant forall j: nat | j < i :: tx[j] == was[j].(sacked := false, lost := false, retx := false)
        invariant forall j: nat | i <= j < txN :: tx[j] == was[j]
      {
        tx[i] := tx[i].(sacked := false, lost := false, retx := false);
        i := i + 1;
      }
    }

    // tcp_loss_window.
    method SetLossWindow(inFlight: U32)
      requires Valid()
      modifies `ssthresh, `cwnd, `dupacks, `fastRecovery
      ensures Valid() && View() == LossWindow(old(View()), inFlight)
    {
      var half := inFlight / 2;
      ssthresh := if half < 2 * MSS then 2 * MSS else half;
      cwnd, dupacks, fastRecovery := MSS, 0, false;
    }

    // The persist branch of tcp_tick.
    method OnPersist(link: Link)
      requires Valid()
      modifies this
      ensures Valid() && View() == Probe(old(View()), link)
    {
      if peerWin > 0 || used <= Minus(nxt, una) { return; }
      var payload := Slice(0, 1);
      assert View().buf[0..1] == View().buf[..1];
      var _ := PutPkt(link, una, payload);
    }

    // The SACK blocks of tcp_parse_opts, already taken out of the option bytes.
    method TakeBlocks(raw: seq<Block>)
      requires Valid()
      modifies `sacks
      ensures Valid() && sacks == Intake(una, nxt, raw, |raw|)
    {
      hide Before, After;
      sacks := [];
      var i := 0;
      while i < |raw|
        invariant i <= |raw| && sacks == Intake(una, nxt, raw, i)
      {
        var b := raw[i];
        if |sacks| < 2 && Before(b.left, b.right) && !After(b.right, nxt) && !Before(b.right, una) {
          var c := Block(if Before(b.left, una) then una else b.left, b.right);
          if c !in sacks { sacks := sacks + [c]; }
        }
        i := i + 1;
      }
    }

    // The third duplicate ACK.
    method OnThirdDuplicate(link: Link, resent: bool)
      requires Valid() && InFlight(View()) <= used
      modifies this, tx
      ensures Valid() && View() == FastRetransmit(old(View()), link, resent)
    {
      hide Minus, Plus, RetransmitLost, PutPacket;
      var inFlight := Minus(nxt, una);
      SetLossWindow(inFlight);
      dupacks, cwnd, fastRecovery, recover := 3, Plus(ssthresh, 3 * MSS), true, nxt;
      var done := resent;
      if !done && |sacks| > 0 {
        RetransmitKeeps(View(), link, 0);
        done := RetransmitLostEntry(link);
      }
      if !done {
        var payload := Slice(0, Min(inFlight, MSS));
        assert View().buf[0..Min(inFlight, MSS)] == View().buf[..Min(inFlight, MSS)];
        var ok := PutPkt(link, una, payload);
        if !ok { fastRecovery := false; }
      }
    }

    method OnDuplicate(link: Link)
      requires Valid() && InFlight(View()) <= used
      modifies this, tx
      ensures Valid() && View() == DuplicateAck(old(View()), link)
    {
      hide Minus, Plus, RetransmitLost, FastRetransmit, XmitPending;
      dupacks := Plus(dupacks, 1);
      var resent := false;
      RetransmitKeeps(View(), link, 0);
      if |sacks| > 0 { resent := RetransmitLostEntry(link); }
      if dupacks == 3 {
        OnThirdDuplicate(link, resent);
      } else if fastRecovery && dupacks > 3 {
        cwnd := Plus(cwnd, MSS);
        FillWindow(link);
      }
    }

    method GrowWindow(acked: nat)
      requires Valid()
      modifies `cwnd
      ensures Valid() && View() == Grow(old(View()), acked)
    {
      hide Plus;
      if acked == 0 { return; }
      if cwnd < ssthresh {
        cwnd := Plus(cwnd, Min(acked, MSS));
      } else {
        var inc := (MSS * acked) / (if cwnd == 0 then MSS else cwnd);
        cwnd := Plus(cwnd, if inc == 0 then 1 else inc);
      }
    }

    // una, the buffer and the board move up to the ACK; the number of bytes released.
    method DropAcked(ack: U32) returns (acked: nat)
      requires Valid()
      modifies this, sndb, tx
      ensures Valid() && acked == Min(Minus(ack, old(una)), old(used))
      ensures View() == old(View()).(una := ack, buf := old(View()).buf[acked..], tx := Ack(old(View()).tx, ack))
    {
      hide Minus, Ack;
      acked := Min(Minus(ack, una), used);
      una := ack;
      Discard(acked);
      TxAck(ack);
    }

    method LeaveRecovery(ack: U32)
      requires Valid()
      modifies `cwnd, `fastRecovery, `dupacks
      ensures Valid()
      ensures var t := old(View());
              View() == (if t.fastRecovery && (After(ack, t.recover) || ack == t.recover)
                         then t.(cwnd := t.ssthresh, fastRecovery := false) else t).(dupacks := 0)
    {
      hide After;
      if fastRecovery && (After(ack, recover) || ack == recover) {
        cwnd, fastRecovery := ssthresh, false;
      }
      dupacks := 0;
    }

    method AdvanceUna(ack: U32)
      requires Valid()
      modifies this, sndb, tx
      ensures Valid() && View() == Advance(old(View()), ack)
    {
      hide Minus, After, Ack, Grow;
      var acked := DropAcked(ack);
      GrowWindow(acked);
      LeaveRecovery(ack);
    }

    method OnNewAck(link: Link, ack: U32)
      requires Valid()
      modifies this, sndb, tx
      ensures Valid() && View() == NewAck(old(View()), link, ack)
    {
      hide Advance, RetransmitLost, XmitPending;
      AdvanceUna(ack);
      var resent := false;
      RetransmitKeeps(View(), link, 0);
      if |sacks| > 0 { resent := RetransmitLostEntry(link); }
      if !resent { FillWindow(link); }
    }

    // The ACK block of tcp_handle.
    method OnAck(link: Link, ack: U32, win: nat, raw: seq<Block>)
      requires Valid() && InFlight(View()) <= used
      modifies this, sndb, tx
      ensures Valid() && View() == HandleAck(old(View()), link, ack, win, raw)
    {
      hide Minus, After, Intake, Sack, DuplicateAck, NewAck, XmitPending;
      var oldWin, inFlight := peerWin, Minus(nxt, una);
      peerWin := win;
      TakeBlocks(raw);
      if sacks != [] { TxSack(); }
      if ack == una && inFlight > 0 && win <= oldWin {
        OnDuplicate(link);
      } else if ack == una && win > oldWin {
        dupacks := 0;
        FillWindow(link);
      } else if After(ack, una) && !After(ack, nxt) {
        OnNewAck(link, ack);
      }
    }
  }

  // One round of the resend loop.
  function ResendEntry(s: Snd, link: Link, i: nat): Put
    requires i < |s.tx| && Eligible(s, i)
  {
    var e := s.tx[i];
    var off := Minus(e.start, s.una);
    var p := PutPacket(s, link, e.start, s.buf[off..off + e.len]);
    if p.ok then Put(p.s.(tx := s.tx[i := e.(retx := true)]), true) else p
  }

  lemma RetransmitUnfolds(s: Snd, link: Link, i: nat)
    requires i <= |s.tx|
    ensures RetransmitLost(s, link, i) ==
            if i == |s.tx| then Put(s, false)
            else if !Eligible(s, i) then RetransmitLost(s, link, i + 1)
            else var p := ResendEntry(s, link, i); if p.ok then p else RetransmitLost(p.s, link, i + 1)
    ensures i < |s.tx| && Eligible(s, i) && !ResendEntry(s, link, i).ok ==> ResendEntry(s, link, i).s.tx == s.tx
  {
    hide Minus, Before;
  }
}
