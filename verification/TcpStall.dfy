// A connection given up behind a shut window: one segment in flight, one waiting, and then an
// acknowledgement of nothing with window 0.
module TcpStall {
  import opened Basics
  import opened TcpParams
  import opened SeqNum
  import opened TcpScoreboard
  import opened TcpPersist
  import opened TcpTimed
  import opened TcpExample
  import S = TcpSend
  import T = TcpTimer

  const CONN := T.Conn(true, T.Established, 0, 0, 0, 0, 0, 0)

  const START := Live(CONN, OPENED.s, 0, 0, 0)

  // Two writes at tick 1000, and the peer's answer at tick 1001.
  function Exchange(x: Live, link: S.Link, data: seq<Byte>): Live {
    if |x.s.buf| > BUF then x else
    var y := OnWrite(x, link, data, 1000);
    if |y.s.buf| > BUF then y else
    var z := OnWrite(y, link, data, 1000);
    if S.InFlight(z.s) > |z.s.buf| || |z.s.buf| > BUF then z else OnAck(z, link, 0, 0, [], 0, 1001)
  }

  // The first segment is in flight.
  predicate Out(x: Live) {
    && S.InFlight(x.s) == |x.s.buf| == MSS && x.s.una == 0 && x.s.dupacks == 0 && S.Window(x.s) == MSS
    && x == Live(CONN.(unacked := MSS, deadline := 1030), x.s, 0, 0, 0)
  }

  lemma FirstOut()
    ensures Out(OnWrite(START, UP, SEGMENT, 1000))
  {
    hide S.Sender, Minus, S.Send;
    S.EstablishedSender(OPENED, 0);
    WriteGoesOut(OPENED, 0);
    FirstSend();
    var r := S.Send(OPENED.s, UP, SEGMENT).1;
    FlightMoves(r);
    assert T.RtoNow(CONN.(unacked := MSS)) == 30;
    PlusForm(1000, 30);
  }

  lemma FirstSend()
    ensures var (n, r) := S.Send(OPENED.s, UP, SEGMENT);
            n == MSS && S.Step(OPENED, UP, S.Written(SEGMENT)) == S.Session(r, SEGMENT) && r.buf == SEGMENT
  {
    hide S.XmitPending, S.SndInv;
    assert SEGMENT[..MSS] == SEGMENT && [] + SEGMENT == SEGMENT;
    var t := OPENED.s.(buf := SEGMENT);
    KeepsBuffer(t);
  }

  lemma KeepsBuffer(t: S.Snd)
    requires t == OPENED.s.(buf := SEGMENT)
    ensures S.XmitPending(t, UP).buf == t.buf
  {
    hide S.XmitPending;
    S.XmitSound(t, UP, SEGMENT, 0, 0);
  }

  // The second segment has to wait for the congestion window.
  lemma SecondWaits(x: Live)
    requires Out(x)
    ensures OnWrite(x, UP, SEGMENT, 1000) == x.(c := x.c.(unacked := 2 * MSS), s := x.s.(buf := x.s.buf + SEGMENT))
  {
    hide Minus;
    assert SEGMENT[..MSS] == SEGMENT;
    WindowFull(x.s.(buf := x.s.buf + SEGMENT));
  }

  lemma WindowFull(s: S.Snd)
    requires |s.buf| <= BUF && S.InFlight(s) >= S.Window(s)
    ensures S.XmitPending(s, UP) == s
  {
    hide Minus;
  }

  ghost predicate IsStalled(x: Live) {
    && Stalled(x) && x.c == CONN.(unacked := 2 * MSS, deadline := 1030) && x.deadline == 1031 && x.backoff == 0
    && x.s.dupacks == 1
  }

  lemma Answered(y: Live)
    requires Fits(y) && y.c == CONN.(unacked := 2 * MSS, deadline := 1030) && y.deadline == 0 && y.backoff == 0
    requires y.s.una == 0 && S.InFlight(y.s) == MSS && |y.s.buf| == 2 * MSS && y.s.dupacks == 0
    ensures IsStalled(OnAck(y, UP, 0, 0, [], 0, 1001))
  {
    hide Minus, S.DuplicateAck, T.RtoNow;
    assert Intake(y.s.una, y.s.nxt, [], 0) == [];
    var w := Informed(y.s, 0, []);
    SameFlight(y.s, w);
    DuplicateForm(w, UP);
    SameFlight(y.s, S.DuplicateAck(w, UP));
    PlusForm(0, 1);
    PlusForm(1001, 30);
  }

  // The state these steps lead to.
  lemma StalledNow()
    ensures IsStalled(Exchange(START, UP, SEGMENT))
  {
    hide Minus, OnWrite, OnAck, IsStalled;
    FirstOut();
    var x := OnWrite(START, UP, SEGMENT, 1000);
    SecondWaits(x);
    var y := OnWrite(x, UP, SEGMENT, 1000);
    SameFlight(x.s, y.s);
    Answered(y);
  }

  lemma SameFlight(s: S.Snd, t: S.Snd)
    requires t.una == s.una && t.nxt == s.nxt
    ensures S.InFlight(t) == S.InFlight(s)
  {
  }

  lemma Times(c: T.Conn)
    requires c == CONN.(unacked := 2 * MSS, deadline := 1030)
    ensures T.Armed(c) && T.Left(c, 1002) == 28 && T.Budget(c) == 5
    ensures T.Wait(c, 1) == 60 && T.Wait(c, 2) == 180 && T.Wait(c, 3) == 420 && T.Wait(c, 4) == 660
            && T.Wait(c, 5) == 900
  {
    assert T.Pow2(1) == 2 && T.Pow2(2) == 4 && T.Pow2(3) == 8 && T.Pow2(4) == 16 && T.Pow2(5) == 32;
    assert T.Wait(c, 1) == 60;
    assert T.Wait(c, 2) == 180;
    assert T.Wait(c, 3) == 420;
    assert T.Wait(c, 4) == 660;
  }

  lemma NoneOnZero(c: T.Conn)
    requires c == CONN.(unacked := 2 * MSS, deadline := 1030)
    ensures T.ClearOfZero(c, 1002) && T.End(c, 1002) == 928
  {
    hide T.Wait, T.Left, T.Budget;
    Times(c);
    forall i: nat | 1 <= i <= 5 ensures Plus(1002, 28 + T.Wait(c, i)) != 0 {
      assert i == 1 || i == 2 || i == 3 || i == 4 || i == 5;
    }
  }

  // Then silence: 928 ticks later the connection is gone, and no probe is sent after that.
  lemma SilenceExample(n: nat)
    ensures var x := Exchange(START, UP, SEGMENT);
            && (Later(x, UP, 1002, n).c.used <==> n <= 928)
            && (n > 928 ==> Later(x, UP, 1002, n) == Later(x, UP, 1002, 929))
  {
    hide Exchange, Later, T.ClearOfZero, T.End, Minus;
    StalledNow();
    var x := Exchange(START, UP, SEGMENT);
    NoneOnZero(x.c);
    Times(x.c);
    Released(x, UP, 1002, n);
    Released(x, UP, 1002, 929);
    if n > 928 { NothingAfter(x, UP, 1002, 929, n); }
  }

  // Or a peer that answers as it likes, window 0 each time: 2880 ticks later it is gone as well.
  lemma AnswerExample(answers: seq<bool>)
    requires |answers| >= 12 * T.RTO_MAX
    ensures !Rounds(Exchange(START, UP, SEGMENT), UP, 1002, answers).c.used
  {
    hide Exchange, Rounds, T.Left, Minus;
    StalledNow();
    var x := Exchange(START, UP, SEGMENT);
    Times(x.c);
    FuelBound(x, 1002);
    AnsweredInVain(x, UP, 1002, answers);
  }

  // The same connection written to 30 ticks before the tick counter wraps, with nothing in flight
  // and the window shut: it is never probed.
  lemma NoProbeExample(n: nat)
    ensures var x := START.(s := OPENED.s.(buf := SEGMENT, peerWin := 0), c := CONN.(unacked := MSS));
            Later(Arm(x, 0xFFFF_FFE2), UP, Plus(0xFFFF_FFE2, 1), n).probes == 0
  {
    var x := START.(s := OPENED.s.(buf := SEGMENT, peerWin := 0), c := CONN.(unacked := MSS));
    assert S.InFlight(x.s) == 0;
    ProbeWithin(x, UP, 0xFFFF_FFE2, n);
  }
}
