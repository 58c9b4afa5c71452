// The sender together with its two timers, over every event of an established connection: when
// the retransmission timer is on, and what becomes of a connection whose peer keeps the window
// shut.
module TcpTimed {
  import opened Basics
  import opened TcpParams
  import opened SeqNum
  import opened TcpScoreboard
  import opened TcpPersist
  import S = TcpSend
  import T = TcpTimer

  // ---- writes and acknowledgements with their timers ----

  // The sender becomes r; the timer sees the new fill of its buffer.
  function Become(x: Live, r: S.Snd): Live {
    x.(s := r, c := x.c.(unacked := |r.buf|))
  }

  // What tcp_xmit_pending does to the timers on its way from s to r.
  function Transmitted(x: Live, s: S.Snd, r: S.Snd, now: U32): Live {
    if r.nxt != s.nxt then x.(c := T.Rearm(x.c, now), deadline := 0, backoff := 0)
    else if S.Window(r) == 0 && S.InFlight(r) < |r.buf| then Arm(x, now)
    else x
  }

  // tcp_send.
  function OnWrite(x: Live, link: S.Link, data: seq<Byte>, now: U32): Live
    requires |x.s.buf| <= BUF
  {
    var (n, r) := S.Send(x.s, link, data);
    if n == 0 then x else Transmitted(Become(x, r), x.s, r, now)
  }

  predicate IsDuplicate(s: S.Snd, ack: U32, win: nat) {
    ack == s.una && S.InFlight(s) > 0 && win <= s.peerWin
  }

  predicate IsUpdate(s: S.Snd, ack: U32, win: nat) {
    !IsDuplicate(s, ack, win) && ack == s.una && win > s.peerWin
  }

  predicate IsNew(s: S.Snd, ack: U32) {
    After(ack, s.una) && !After(ack, s.nxt)
  }

  // The sender once window and SACK blocks of a segment have been taken in.
  function Informed(s: S.Snd, win: nat, raw: seq<Block>): S.Snd {
    var sacks := Intake(s.una, s.nxt, raw, |raw|);
    s.(peerWin := win, sacks := sacks, tx := if sacks != [] then Sack(s.tx, s.una, sacks) else s.tx)
  }

  // Does tcp_tx_retransmit_lost send something?
  predicate ResendsLost(s: S.Snd, link: S.Link) {
    |s.sacks| > 0 && S.RetransmitLost(s, link, 0).ok
  }

  // The window's say on the persist timer, before the ACK is looked at.
  function Heard(x: Live, win: nat, now: U32): Live {
    if win > 0 then x.(deadline := 0, backoff := 0)
    else if S.InFlight(x.s) < |x.s.buf| then Arm(x, now)
    else x
  }

  function Set(x: Live, now: U32): Live {
    x.(c := T.Rearm(x.c, now))
  }

  // The ACK block of tcp_handle; rto is what an RTT sample makes of the time-out.
  function OnAck(x: Live, link: S.Link, ack: U32, win: nat, raw: seq<Block>, rto: U32, now: U32): Live
    requires |x.s.buf| <= BUF && S.InFlight(x.s) <= |x.s.buf|
  {
    var w := Informed(x.s, win, raw);
    var r := S.HandleAck(x.s, link, ack, win, raw);
    var h := Become(Heard(x, win, now), r);
    if IsDuplicate(x.s, ack, win) then
      var d := w.(dupacks := Plus(w.dupacks, 1));
      var y := if ResendsLost(d, link) || d.dupacks == 3 then Set(h, now) else h;
      if d.dupacks > 3 && d.fastRecovery then Transmitted(y, x.s, r, now) else y
    else if IsUpdate(x.s, ack, win) then Transmitted(h, x.s, r, now)
    else if IsNew(x.s, ack) then
      var z := h.(c := h.c.(backoff := 0, attempts := 0, rto := rto));
      var y := if ResendsLost(S.Advance(w, ack), link) then Set(z, now) else Transmitted(z, x.s, r, now);
      if r.nxt == r.una then y.(c := y.c.(deadline := 0))
      else if y.c.deadline == 0 then Set(y, now)
      else y
    else h
  }

  datatype Event =
    | Wrote(data: seq<Byte>, now: U32)
    | Acked(ack: U32, win: nat, raw: seq<Block>, rto: U32, now: U32)
    | Ticked(now: U32)

  // A sender, its timers and all its application has written.
  datatype World = World(x: Live, w: seq<Byte>)

  function Step(v: World, link: S.Link, e: Event): World {
    if S.InFlight(v.x.s) > |v.x.s.buf| || |v.x.s.buf| > BUF then v
    else match e
      case Ticked(now) => v.(x := Tick(v.x, link, now))
      case Wrote(data, now) =>
        if !Alive(v.x) then v else World(OnWrite(v.x, link, data, now), v.w + data[..S.Send(v.x.s, link, data).0])
      case Acked(ack, win, raw, rto, now) =>
        if !Alive(v.x) then v else v.(x := OnAck(v.x, link, ack, win, raw, rto, now))
  }

  function Run(v: World, link: S.Link, events: seq<Event>): World {
    if events == [] then v else Step(Run(v, link, events[..|events| - 1]), link, events[|events| - 1])
  }

  // ---- the timer is on exactly while something is in flight ----

  // The retransmission timer is on only while something is in flight.
  ghost predicate Timed(v: World, base: U32) {
    && S.Sender(v.x.s, v.w, base) && Fits(v.x)
    && (Alive(v.x) ==> v.x.c.state == T.Established)
    && (v.x.c.deadline != 0 ==> S.InFlight(v.x.s) > 0)
  }

  // It is off only while nothing is.
  predicate On(x: Live) {
    Alive(x) && S.InFlight(x.s) > 0 ==> x.c.deadline != 0
  }

  // A time at which no time-out reaches over the end of the 32-bit counter.
  predicate Calm(now: U32) {
    0 < now < MOD - T.RTO_MAX
  }

  lemma CalmSet(c: T.Conn, now: U32)
    requires Calm(now)
    ensures T.Rearm(c, now).deadline != 0 && T.Retry(c, now).deadline != 0 && now + T.RtoNow(c) != MOD
  {
  }

  // A deadline set now, with the time-out of c, falls on tick 0.
  predicate OnZero(c: T.Conn, now: U32) {
    now + T.RtoNow(c) == MOD
  }

  // Whichever way the timer is set, the deadline is the time-out of the outcome away.
  lemma SetWhen(c: T.Conn, now: U32)
    ensures T.Rearm(c, now).deadline == 0 <==> OnZero(T.Rearm(c, now), now)
    ensures T.Retry(c, now).deadline == 0 <==> OnZero(T.Retry(c, now), now)
  {
    T.SameRto(c, T.Rearm(c, now));
    T.FirstWait(c, now);
    var d := c.(backoff := if c.backoff < 6 then c.backoff + 1 else c.backoff, attempts := c.attempts + 1);
    T.SameRto(d, T.Retry(c, now));
  }

  lemma FlightMoves(s: S.Snd)
    ensures S.InFlight(s) == 0 <==> s.nxt == s.una
  {
  }

  lemma WriteTimed(v: World, link: S.Link, data: seq<Byte>, now: U32, base: U32)
    requires Timed(v, base) && Alive(v.x) && |v.x.s.buf| <= BUF
    ensures var (n, r) := S.Send(v.x.s, link, data);
            Timed(World(OnWrite(v.x, link, data, now), v.w + data[..n]), base)
    ensures var y := OnWrite(v.x, link, data, now); On(v.x) && !OnZero(y.c, now) ==> On(y)
  {
    hide S.Sender, S.Send, Plus, Minus, T.RtoNow, OnZero;
    S.SendWindow(v.x.s, link, data, v.w, base);
    var (n, r) := S.Send(v.x.s, link, data);
    FlightMoves(r);
    FlightMoves(v.x.s);
    SendUna(v.x.s, link, data, v.w, base);
    SetWhen(Become(v.x, r).c, now);
    if n == 0 { assert v.w + data[..n] == v.w; }
  }

  // Sending leaves una alone, and moves nxt only away from it.
  lemma SendUna(s: S.Snd, link: S.Link, data: seq<Byte>, w: seq<Byte>, base: U32)
    requires S.Sender(s, w, base) && |s.buf| <= BUF
    ensures var r := S.Send(s, link, data).1;
            && r.una == s.una && (r.nxt != s.nxt ==> S.InFlight(r) > 0) && S.InFlight(s) <= S.InFlight(r)
            && (S.Send(s, link, data).0 == 0 ==> r == s)
  {
    hide Minus, Tiles, S.AllGenuine, S.XmitPending, S.Placed;
    var u := S.Acked(s, w);
    var n := S.Min(S.Min(|data|, 1460), BUF - |s.buf|);
    if n > 0 {
      var t := s.(buf := s.buf + data[..n]);
      assert (w + data[..n])[u..] == w[u..] + data[..n];
      S.XmitSound(t, link, w + data[..n], base, u);
      FlightMoves(S.XmitPending(t, link));
      FlightMoves(t);
    }
  }

  lemma AckTimed(v: World, link: S.Link, ack: U32, win: nat, raw: seq<Block>, rto: U32, now: U32, base: U32)
    requires Timed(v, base) && Alive(v.x) && S.InFlight(v.x.s) <= |v.x.s.buf| <= BUF
    ensures Timed(v.(x := OnAck(v.x, link, ack, win, raw, rto, now)), base)
    ensures var y := OnAck(v.x, link, ack, win, raw, rto, now);
            (On(v.x) || IsNew(v.x.s, ack)) && !OnZero(y.c, now) ==> On(y)
  {
    hide S.Sender, S.HandleAck, S.Advance, Plus, Minus, After, Intake, Sack, ResendsLost, T.RtoNow, OnZero;
    var r := S.HandleAck(v.x.s, link, ack, win, raw);
    S.HandleAckSound(v.x.s, link, ack, win, raw, v.w, base);
    AckFlight(v.x.s, link, ack, win, raw, v.w, base);
    FlightMoves(r);
    FlightMoves(v.x.s);
    forall c: T.Conn ensures T.Rearm(c, now).deadline == 0 <==> OnZero(T.Rearm(c, now), now) { SetWhen(c, now); }
  }

  // Without new data acknowledged, the flight only grows.
  lemma AckFlight(s: S.Snd, link: S.Link, ack: U32, win: nat, raw: seq<Block>, w: seq<Byte>, base: U32)
    requires S.Sender(s, w, base) && S.InFlight(s) <= |s.buf| <= BUF
    ensures var r := S.HandleAck(s, link, ack, win, raw);
            && (!IsNew(s, ack) ==> S.InFlight(s) <= S.InFlight(r) && r.una == s.una)
            && (IsNew(s, ack) ==> !IsDuplicate(s, ack, win) && !IsUpdate(s, ack, win))
            && (!IsDuplicate(s, ack, win) && !IsUpdate(s, ack, win) && !IsNew(s, ack) ==>
                  r.nxt == s.nxt && r.una == s.una)
  {
    hide S.XmitPending, S.NewAck, S.DuplicateAck, Minus, After, Tiles, Intake, Sack, S.AllGenuine, Image, S.Placed;
    var u := S.Acked(s, w);
    var t := Informed(s, win, raw);
    S.MarkedSender(s, w, base, u, win, raw);
    NotAfterSelf(ack);
    if IsDuplicate(s, ack, win) {
      DuplicateFlight(t, link, w, base, u);
    } else if IsUpdate(s, ack, win) {
      S.SameSender(t, t.(dupacks := 0), w, base, u);
      S.XmitSound(t.(dupacks := 0), link, w, base, u);
    }
  }

  lemma NotAfterSelf(x: U32)
    ensures !After(x, x)
  {
  }

  lemma DuplicateFlight(s: S.Snd, link: S.Link, w: seq<Byte>, base: U32, u: nat)
    requires S.SndInv(s, w, base, u)
    ensures S.InFlight(s) <= |s.buf| <= BUF
    ensures S.InFlight(s) <= S.InFlight(S.DuplicateAck(s, link)) && S.DuplicateAck(s, link).una == s.una
  {
    hide S.SndInv, S.Emits, S.RetransmitLost, S.XmitPending, S.FastRetransmit, Minus, Plus;
    S.BufBound(s, w, base, u);
    var d := s.(dupacks := Plus(s.dupacks, 1));
    S.SameSender(s, d, w, base, u);
    S.RetransmitSound(d, link, w, base, u, 0);
    S.RetransmitKeeps(d, link, 0);
    var q := if |d.sacks| > 0 then S.RetransmitLost(d, link, 0) else S.Put(d, false);
    S.FastRetransmitFlight(q.s, link, q.ok);
    FastRetransmitUna(q.s, link, q.ok);
    var x := q.s.(cwnd := Plus(q.s.cwnd, MSS));
    S.SameSender(q.s, x, w, base, u);
    S.XmitSound(x, link, w, base, u);
  }

  lemma FastRetransmitUna(s: S.Snd, link: S.Link, resent: bool)
    requires |s.buf| <= BUF && S.InFlight(s) <= |s.buf|
    ensures S.FastRetransmit(s, link, resent).una == s.una
  {
    hide S.RetransmitLost, Minus, Plus;
    var l := S.LossWindow(s, S.InFlight(s));
    var f := l.(dupacks := 3, cwnd := Plus(l.ssthresh, 3 * MSS), fastRecovery := true, recover := s.nxt);
    S.RetransmitKeeps(f, link, 0);
  }

  lemma TickTimed(v: World, link: S.Link, now: U32, base: U32)
    requires Timed(v, base) && S.InFlight(v.x.s) <= |v.x.s.buf|
    ensures Timed(v.(x := Tick(v.x, link, now)), base)
    ensures var y := Tick(v.x, link, now); On(v.x) && !OnZero(y.c, now) ==> On(y)
  {
    hide S.Sender, S.Probe, S.Timeout, Plus, Minus, T.RtoNow, Interval, Diff, OnZero;
    SameData(v.x, link, now);
    var p := PersistHalf(v.x, link, now);
    S.ProbeSound(v.x.s, link, v.w, base);
    S.TimeoutSound(p.s, link, v.w, base);
    SetWhen(v.x.c, now);
  }

  // One event: nothing in flight still means that the timer is off, and something in flight that
  // it is on, unless the deadline this very event may set falls on tick 0.  After such an event
  // the next new acknowledgement sets the timer again.
  lemma StepTimed(v: World, link: S.Link, e: Event, base: U32)
    requires Timed(v, base)
    ensures var y := Step(v, link, e);
            && Timed(y, base)
            && (On(v.x) && !OnZero(y.x.c, e.now) ==> On(y.x))
            && (e.Acked? && IsNew(v.x.s, e.ack) && !OnZero(y.x.c, e.now) ==> On(y.x))
  {
    hide Timed, OnZero, OnWrite, OnAck, Tick, S.Send, Minus, IsNew;
    Bounded(v, base);
    if S.InFlight(v.x.s) <= |v.x.s.buf| <= BUF {
      match e
      case Ticked(now) => TickTimed(v, link, now, base);
      case Wrote(data, now) => if Alive(v.x) { WriteTimed(v, link, data, now, base); }
      case Acked(ack, win, raw, rto, now) => if Alive(v.x) { AckTimed(v, link, ack, win, raw, rto, now, base); }
    }
  }

  // A connection just established, with nothing in flight and both timers off.
  ghost predicate Opened(v: World, base: U32) {
    && S.Established(S.Session(v.x.s, v.w), base) && Fits(v.x) && Alive(v.x) && v.x.c.state == T.Established
    && v.x.c.deadline == 0
  }

  lemma Bounded(v: World, base: U32)
    requires Timed(v, base)
    ensures S.InFlight(v.x.s) <= |v.x.s.buf| <= BUF
  {
  }

  // The deadline that event i may set falls on tick 0.
  predicate ZeroAt(v: World, link: S.Link, events: seq<Event>, i: nat)
    requires i < |events|
  {
    OnZero(Run(v, link, events[..i + 1]).x.c, events[i].now)
  }

  // Over every run of writes, acknowledgements and ticks from there, nothing in flight means that
  // the retransmission timer is off; and as long as no event sets a deadline on tick 0, which
  // takes a tick among the last 240 of a turn of the counter, something in flight means that
  // it is on.
  lemma {:induction false} TimerFollowsFlight(v: World, link: S.Link, events: seq<Event>, base: U32)
    requires Opened(v, base)
    ensures var y := Run(v, link, events);
            && Timed(y, base)
            && ((forall i: nat | i < |events| :: !ZeroAt(v, link, events, i)) ==> On(y.x))
            && ((forall i: nat | i < |events| :: Calm(events[i].now)) ==> On(y.x))
  {
    hide Timed, On, Calm, Step, Opened, OnZero;
    if events == [] {
      OpenedTimed(v, base);
    } else {
      var n := |events| - 1;
      TimerFollowsFlight(v, link, events[..n], base);
      StepTimed(Run(v, link, events[..n]), link, events[n], base);
      assert events[..n + 1] == events;
      if forall i: nat | i < |events| :: !ZeroAt(v, link, events, i) {
        forall i: nat | i < n ensures !ZeroAt(v, link, events[..n], i) {
          assert events[..n][..i + 1] == events[..i + 1] && !ZeroAt(v, link, events, i);
        }
        assert !ZeroAt(v, link, events, n);
      }
      if forall i: nat | i < |events| :: Calm(events[i].now) {
        forall i: nat | i < n ensures Calm(events[..n][i].now) { assert events[..n][i] == events[i]; }
        CalmNotZero(Run(v, link, events).x.c, events[n].now);
      }
    }
  }

  lemma CalmNotZero(c: T.Conn, now: U32)
    requires Calm(now)
    ensures !OnZero(c, now)
  {
  }

  lemma OpenedTimed(v: World, base: U32)
    requires Opened(v, base)
    ensures Timed(v, base) && On(v.x)
  {
    S.EstablishedSender(S.Session(v.x.s, v.w), base);
  }

  // So with the window shut on waiting data and nothing in flight, probing goes on for ever unless
  // a deadline falls on tick 0; with something in flight the connection is given up.
  lemma ShutFate(v: World, link: S.Link, now: U32, base: U32)
    requires Timed(v, base) && Alive(v.x) && Shut(v.x.s) && v.x.deadline != 0
    ensures S.InFlight(v.x.s) == 0 ==>
              ((forall n: nat :: ProbedTill(v.x, link, now, n)) <==>
               Clear(Plus(now, Left(v.x, now)), v.x.backoff))
    ensures On(v.x) && S.InFlight(v.x.s) > 0 && T.ClearOfZero(v.x.c, now) ==>
              forall n: nat :: Later(v.x, link, now, n).c.used <==> n <= T.End(v.x.c, now)
  {
    hide Plus, Clear, Left, T.ClearOfZero, T.End, Later, S.Sender;
    ProbesForEver(v.x, link, now);
    forall n: nat ensures Later(v.x, link, now, n).c.used <==> Doomed(v.x.c, now) ==> n <= T.End(v.x.c, now) {
      Released(v.x, link, now, n);
    }
  }

  // ---- a peer that answers and keeps the window shut ----

  // The answer to a probe: nothing new acknowledged, window 0.
  function Answer(x: Live, link: S.Link, now: U32): Live
    requires |x.s.buf| <= BUF && S.InFlight(x.s) <= |x.s.buf|
  {
    if Alive(x) then OnAck(x, link, x.s.una, 0, [], x.c.rto, now) else x
  }

  // A tick, and perhaps an answer before the next one.
  function Round(x: Live, link: S.Link, now: U32, answered: bool): Live {
    var t := Tick(x, link, now);
    if answered && S.InFlight(t.s) <= |t.s.buf| <= BUF then Answer(t, link, now) else t
  }

  function Rounds(x: Live, link: S.Link, now: U32, answers: seq<bool>): Live
    decreases |answers|
  {
    if answers == [] then x else Rounds(Round(x, link, now, answers[0]), link, Plus(now, 1), answers[1..])
  }

  // Something in flight, more waiting, the window shut.
  predicate Stalled(x: Live) {
    && Fits(x) && x.c.state == T.Established && x.c.used
    && x.s.peerWin == 0 && 0 < S.InFlight(x.s) < |x.s.buf| <= BUF
  }

  // The answer counts as a duplicate ACK: it sets the retransmission timer anew at the third and
  // leaves the count of resendings alone.
  lemma AnswerForm(x: Live, link: S.Link, now: U32)
    requires Stalled(x)
    ensures var y := Answer(x, link, now);
            && Stalled(y) && y.s.dupacks == Plus(x.s.dupacks, 1)
            && y.c == if y.s.dupacks == 3 then T.Rearm(x.c, now) else x.c
  {
    hide Plus, Minus, T.RtoNow, S.DuplicateAck;
    assert Intake(x.s.una, x.s.nxt, [], 0) == [];
    DuplicateForm(Informed(x.s, 0, []), link);
  }

  lemma DuplicateForm(s: S.Snd, link: S.Link)
    requires s.sacks == [] && s.peerWin == 0 && 0 < S.InFlight(s) < |s.buf| <= BUF
    ensures var r := S.DuplicateAck(s, link); Alike(s, r) && r.dupacks == Plus(s.dupacks, 1)
  {
    hide Plus, Minus;
    var d := s.(dupacks := Plus(s.dupacks, 1));
    ShutSendsNothing(d.(cwnd := Plus(d.cwnd, MSS)), link);
  }

  lemma ShutSendsNothing(s: S.Snd, link: S.Link)
    requires s.peerWin == 0 && |s.buf| <= BUF
    ensures S.XmitPending(s, link) == s
  {
    hide Minus;
  }

  // Each resending costs one unit of budget; it buys at most 240 ticks, and at most 240 more by
  // three duplicates.
  function Fuel(x: Live, now: U32): nat {
    if !T.Armed(x.c) then 0
    else (2 * T.Budget(x.c) + if x.s.dupacks < 3 then 1 else 0) * T.RTO_MAX + T.Left(x.c, now) + 1
  }

  lemma TickStalled(x: Live, link: S.Link, now: U32)
    requires Stalled(x) && T.Armed(x.c)
    ensures var t := Tick(x, link, now);
            var a := T.Tick(x.c, now);
            && t.c == a.c && (t.c.used ==> Stalled(t))
            && (a.act == T.Resent ==> t.s.dupacks == 0) && (a.act != T.Resent ==> t.s.dupacks == x.s.dupacks)
            && (a.act == T.Idle || a.act == T.Resent || a.act == T.GaveUp)
  {
    hide Plus, Minus, Diff, T.RtoNow, Interval, Due;
    SameData(x, link, now);
  }

  lemma RoundBurns(x: Live, link: S.Link, now: U32, answered: bool)
    requires Stalled(x) && T.Armed(x.c) && x.s.dupacks + 1 < MOD
    ensures var y := Round(x, link, now, answered);
            && (y.c.used ==> Stalled(y))
            && Fuel(y, Plus(now, 1)) < Fuel(x, now)
            && y.s.dupacks <= x.s.dupacks + 1
            && (Calm(now) && y.c.used ==> T.Armed(y.c))
  {
    hide Plus, Minus, Diff, Tick, Answer, T.RtoNow;
    var t := Tick(x, link, now);
    TickStalled(x, link, now);
    T.TickBurns(x.c, now);
    RtoSteps(x.c, now);
    if Calm(now) { CalmSet(x.c, now); CalmSet(t.c, now); }
    if answered && t.c.used {
      AnswerForm(t, link, now);
      PlusForm(t.s.dupacks, 1);
      T.SetDeadline(now, T.RtoNow(t.c));
    } else if answered && S.InFlight(t.s) <= |t.s.buf| <= BUF {
      NoAnswer(t, link, now);
    }
  }

  lemma NoAnswer(x: Live, link: S.Link, now: U32)
    requires !x.c.used && S.InFlight(x.s) <= |x.s.buf| <= BUF
    ensures Answer(x, link, now) == x
  {
  }

  lemma RtoSteps(c: T.Conn, now: U32)
    requires T.Armed(c)
    ensures var t := T.Tick(c, now);
            && (t.act == T.Idle ==> t.c == c && T.Left(c, Plus(now, 1)) + 1 == T.Left(c, now))
            && (t.act == T.Resent ==>
                  && t.c == T.Retry(c, now) && T.Budget(t.c) + 1 == T.Budget(c) && t.c.state == c.state
                  && T.Left(t.c, Plus(now, 1)) < T.RTO_MAX)
            && (t.act == T.GaveUp ==> !t.c.used)
  {
    hide Plus, Diff, T.RtoNow;
    var t := T.Tick(c, now);
    if t.act == T.Idle {
      T.NextTick(now, c.deadline);
    } else if t.act == T.Resent {
      T.FirstWait(c, now);
      T.SetDeadline(now, T.Wait(c, 1));
    }
  }

  lemma {:induction false} OverAndOut(x: Live, link: S.Link, now: U32, answers: seq<bool>)
    requires !x.c.used
    ensures Rounds(x, link, now, answers) == x
    decreases |answers|
  {
    hide Plus, Minus;
    if answers != [] {
      assert Tick(x, link, now) == x;
      OverAndOut(x, link, Plus(now, 1), answers[1..]);
    }
  }

  // However it answers, at most once a tick, and whatever the link does: a peer that keeps its
  // window shut while something is in flight loses the connection within Fuel ticks, unless the
  // tick counter turns over meanwhile.
  lemma {:induction false} AnsweredInVain(x: Live, link: S.Link, now: U32, answers: seq<bool>)
    requires Stalled(x) && T.Armed(x.c) && |answers| >= Fuel(x, now) && x.s.dupacks + Fuel(x, now) < MOD
    requires 0 < now && now + Fuel(x, now) + T.RTO_MAX < MOD
    ensures !Rounds(x, link, now, answers).c.used
    decreases |answers|
  {
    hide Plus, Minus, Round, T.Left, T.Budget;
    RoundBurns(x, link, now, answers[0]);
    var y := Round(x, link, now, answers[0]);
    PlusForm(now, 1);
    if y.c.used {
      AnsweredInVain(y, link, Plus(now, 1), answers[1..]);
    } else {
      OverAndOut(y, link, Plus(now, 1), answers[1..]);
    }
  }

  // A timer just set gives at most 12 * 240 ticks.
  lemma FuelBound(x: Live, now: U32)
    requires T.Left(x.c, now) < T.RTO_MAX && x.c.state == T.Established
    ensures Fuel(x, now) <= 12 * T.RTO_MAX
  {
  }
}
