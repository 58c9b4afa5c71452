// A connection whose timeouts never get anything through: one segment acknowledged, the next
// two lost.
module TcpExample {
  import opened Basics
  import opened TcpParams
  import opened SeqNum
  import opened TcpScoreboard
  import S = TcpSend
  import R = TcpReceive
  import P = TcpProgress

  const UP: S.Link := (n: nat) => true

  const SEGMENT: seq<Byte> := seq(MSS, i => 0)

  // A connection as the handshake leaves it, to a peer with a window of 4096 bytes.
  const OPENED := S.Session(S.Snd(0, 0, [], [], [], BUF, MSS, MSS, BUF, 0, false, 0, [], 0), [])

  // A write that the window has room for is in flight at once.
  lemma WriteGoesOut(x: S.Session, base: U32)
    requires S.Sender(x.s, x.w, base) && |x.s.buf| + MSS <= S.Window(x.s) && |x.s.buf| + MSS <= BUF
    ensures var y := S.Step(x, UP, S.Written(SEGMENT));
            && S.Sender(y.s, y.w, base) && S.InFlight(y.s) == |y.s.buf| == |x.s.buf| + MSS
            && y.s == x.s.(buf := y.s.buf, nxt := y.s.nxt, tx := y.s.tx, sent := y.s.sent, tries := y.s.tries)
  {
    hide Minus, Tiles, S.AllGenuine, S.XmitPending, S.Placed;
    S.StepSound(x, UP, S.Written(SEGMENT), base);
    var u := S.Acked(x.s, x.w);
    var t := x.s.(buf := x.s.buf + SEGMENT);
    assert SEGMENT[..MSS] == SEGMENT;
    assert (x.w + SEGMENT)[u..] == x.w[u..] + SEGMENT;
    assert S.SndInv(t, x.w + SEGMENT, base, u);
    P.XmitExact(t, UP, x.w + SEGMENT, base, u);
    S.XmitSound(t, UP, x.w + SEGMENT, base, u);
  }

  // The acknowledgement of all there is empties the buffer and widens the congestion window.
  lemma AllAcked(s: S.Snd)
    requires s.una == 0 && s.nxt == MSS && |s.buf| == MSS && s.cwnd == MSS && s.ssthresh == BUF && !s.fastRecovery
    requires S.InFlight(s) == MSS
    ensures var r := S.HandleAck(s, UP, MSS, BUF, []);
            r.una == MSS && r.nxt == MSS && r.buf == [] && r.cwnd == 2 * MSS && r.peerWin == BUF
  {
    hide Ack;
    assert Intake(s.una, s.nxt, [], 0) == [];
  }

  lemma Events(x: S.Session, a: S.Event, b: S.Event, c: S.Event, d: S.Event)
    ensures S.Run(x, UP, [a, b, c, d]) == S.Step(S.Step(S.Step(S.Step(x, UP, a), UP, b), UP, c), UP, d)
  {
    hide S.Step;
    assert [a, b, c, d][..3] == [a, b, c] && [a, b, c][..2] == [a, b] && [a, b][..1] == [a] && [a][..0] == [];
    assert S.Run(x, UP, [a]) == S.Step(x, UP, a);
    assert S.Run(x, UP, [a, b]) == S.Step(S.Run(x, UP, [a]), UP, b);
    assert S.Run(x, UP, [a, b, c]) == S.Step(S.Run(x, UP, [a, b]), UP, c);
  }

  // After these events two segments are in flight.  If both are lost, no number of timeouts brings
  // them to a receiver that has the first one and waits for the second.
  lemma TimeoutExample(n: nat, y: R.Rx)
    requires y.rcvNxt == MSS
    ensures var x := S.Run(OPENED, UP,
                           [S.Written(SEGMENT), S.AckArrives(MSS, BUF, []), S.Written(SEGMENT), S.Written(SEGMENT)]);
            var z := S.Run(x, UP, seq(n, _ => S.RtoFires));
            && x.s.una == MSS && S.InFlight(x.s) == 2 * MSS && x.s.sent <= z.s.sent
            && forall i: nat | |x.s.sent| <= i < |z.s.sent| ::
                 R.Accept(y, z.s.sent[i].start, z.s.sent[i].data) == R.Taken(y, false)
  {
    hide Minus, S.Sender, S.Step, S.HandleAck, S.Run, R.Accept;
    var w, a := S.Written(SEGMENT), S.AckArrives(MSS, BUF, []);
    S.EstablishedSender(OPENED, 0);
    WriteGoesOut(OPENED, 0);
    var x1 := S.Step(OPENED, UP, w);
    FirstNumber(x1.s);
    AllAcked(x1.s);
    S.StepSound(x1, UP, a, 0);
    var x2 := S.Step(x1, UP, a);
    AckStep(x1);
    WriteGoesOut(x2, 0);
    var x3 := S.Step(x2, UP, w);
    WriteGoesOut(x3, 0);
    var x4 := S.Step(x3, UP, w);
    Events(OPENED, w, a, w, w);
    P.NeverDelivered(x4, UP, n, y);
  }

  lemma FirstNumber(s: S.Snd)
    requires s.una == 0 && S.InFlight(s) == MSS
    ensures s.nxt == MSS
  {
  }

  lemma AckStep(x: S.Session)
    requires S.InFlight(x.s) <= |x.s.buf| <= BUF
    ensures S.Step(x, UP, S.AckArrives(MSS, BUF, [])) == x.(s := S.HandleAck(x.s, UP, MSS, BUF, []))
  {
    hide S.HandleAck;
  }
}
