// The retransmission timer of net/net_tcp.c: rto_base, rto_now, the arming helpers and the
// timer part of tcp_tick, on a 32-bit tick counter.
module TcpTimer {
  import opened SeqNum

  const RTO_INIT: nat := 30
  const RTO_MAX: nat := 240
  const R2_SYN: nat := 3
  const R2_DATA: nat := 5

  datatype TState =
    | Closed | Listen | SynSent | SynReceived | Established | FinWait1 | FinWait2
    | CloseWait | Closing | LastAck | TimeWait

  type Backoff = x: int | 0 <= x <= 6

  // The fields of a connection the timer looks at; deadline 0 means the timer is off.
  datatype Conn = Conn(used: bool, state: TState, rto: U32, backoff: Backoff, attempts: nat, deadline: U32, until: U32,
                       unacked: nat)

  function Clamp(r: nat): nat {
    if r < RTO_INIT then RTO_INIT else if r > RTO_MAX then RTO_MAX else r
  }

  function Base(c: Conn): nat {
    Clamp(if c.rto != 0 then c.rto else RTO_INIT)
  }

  function Pow2(n: nat): (r: nat)
    ensures r >= 1
  {
    if n == 0 then 1 else 2 * Pow2(n - 1)
  }

  // rto_now: doubled for every step of backoff, up to the limit.
  function RtoNow(c: Conn): (r: nat)
    ensures RTO_INIT <= r <= RTO_MAX
  {
    var r := Base(c) * Pow2(c.backoff);
    if r > RTO_MAX then RTO_MAX else r
  }

  function Arm(c: Conn, now: U32): Conn {
    c.(deadline := Plus(now, RtoNow(c)), backoff := 0, attempts := 0)
  }

  // tcp_rto_rearm, by which a data segment sent or sent again sets the timer.
  function Rearm(c: Conn, now: U32): Conn {
    c.(deadline := Plus(now, RtoNow(c)))
  }

  function Retry(c: Conn, now: U32): Conn {
    var d := c.(backoff := if c.backoff < 6 then c.backoff + 1 else c.backoff, attempts := c.attempts + 1);
    d.(deadline := Plus(now, RtoNow(d)))
  }

  function R2(c: Conn): nat {
    if c.state == SynReceived then R2_SYN else R2_DATA
  }

  datatype Act = Idle | Resent | GaveUp | Stopped | Expired

  // Is there anything the timer would send again?
  predicate Resends(c: Conn) {
    c.state == SynReceived || c.state == LastAck || c.unacked > 0
    || ((c.state == FinWait1 || c.state == Closing) && c.unacked == 0)
  }

  predicate Due(c: Conn, now: U32) {
    c.deadline != 0 && Diff(now, c.deadline) >= 0
  }

  function Release(c: Conn): Conn {
    c.(used := false, state := Closed, deadline := 0, until := 0)
  }

  datatype Ticked = Ticked(c: Conn, act: Act)

  // tcp_tick for one connection (not on the self-test port, and but for the persist timer).
  function Tick(c: Conn, now: U32): Ticked {
    if !c.used then Ticked(c, Idle)
    else if c.state == TimeWait then
      if c.until != 0 && Diff(now, c.until) >= 0 then Ticked(c.(used := false, state := Closed), Expired)
        else Ticked(c, Idle)
    else if !Due(c, now) then Ticked(c, Idle)
    else if c.attempts >= R2(c) then Ticked(Release(c), GaveUp)
    else if Resends(c) then Ticked(Retry(c, now), Resent)
    else Ticked(c.(deadline := 0), Stopped)
  }

  // n calls of tcp_tick, one per tick from now on, with nothing else happening.
  function Later(c: Conn, now: U32, n: nat): Conn
    decreases n
  {
    if n == 0 then c else Later(Tick(c, now).c, Plus(now, 1), n - 1)
  }

  function Resendings(c: Conn, now: U32, n: nat): nat
    decreases n
  {
    if n == 0 then 0
    else (if Tick(c, now).act == Resent then 1 else 0) + Resendings(Tick(c, now).c, Plus(now, 1), n - 1)
  }

  // ---- one step ----

  predicate Armed(c: Conn) {
    c.used && c.state != TimeWait && c.deadline != 0
  }

  // Ticks to go before the timer is due; 0 when it is.
  function Left(c: Conn, now: U32): nat {
    if Diff(now, c.deadline) >= 0 then 0 else -Diff(now, c.deadline)
  }

  lemma SetDeadline(now: U32, d: nat)
    requires 1 <= d <= RTO_MAX
    ensures Diff(Plus(now, 1), Plus(now, d)) == 1 - d
  {
    ImageDiff(now, 1, d);
  }

  lemma NextTick(now: U32, deadline: U32)
    requires Diff(now, deadline) < 0
    ensures Diff(Plus(now, 1), deadline) == Diff(now, deadline) + 1
  {
    hide Diff, Plus, Image;
    DiffImage(deadline, now, 0);
    ImageZero(deadline);
    var d := Diff(now, deadline);
    ImagePlus(deadline, d, 1);
    ImageDiff(deadline, d + 1, 0);
  }

  lemma ImageZero(a: U32)
    ensures Image(a, 0) == a
  {
  }

  // How many more resendings the budget allows.
  function Budget(c: Conn): nat {
    if c.attempts >= R2(c) then 0 else R2(c) - c.attempts
  }

  // The calls that remain at most: each resending costs one unit of budget and buys at most
  // 240 ticks.
  function Fuel(c: Conn, now: U32): nat {
    if Armed(c) then Budget(c) * RTO_MAX + Left(c, now) + 1 else 0
  }

  lemma TickBurns(c: Conn, now: U32)
    requires Armed(c)
    ensures var t := Tick(c, now);
            && Fuel(t.c, Plus(now, 1)) < Fuel(c, now)
            && (t.act == Resent ==> Budget(t.c) + 1 == Budget(c) && t.c.state == c.state)
            && (t.act != Resent ==> t.c == c || !Armed(t.c))
  {
    hide Plus, Diff;
    var t := Tick(c, now);
    if t.act == Idle {
      NextTick(now, c.deadline);
    } else if t.act == Resent {
      SetDeadline(now, RtoNow(t.c));
      assert t.c.deadline == Plus(now, RtoNow(t.c));
    }
  }

  lemma TickOff(c: Conn, now: U32)
    requires !Armed(c)
    ensures !Armed(Tick(c, now).c) && Tick(c, now).act != Resent
  {
  }

  // ---- the budget ----

  // Whatever the connection was doing: at most R2 resendings less those already counted.
  lemma {:induction false} AtMostR2(c: Conn, now: U32, n: nat)
    ensures Resendings(c, now, n) <= if Armed(c) then Budget(c) else 0
    decreases n
  {
    hide Tick, Fuel, Plus, Budget;
    if n > 0 {
      if Armed(c) { TickBurns(c, now); } else { TickOff(c, now); }
      AtMostR2(Tick(c, now).c, Plus(now, 1), n - 1);
    }
  }

  lemma {:induction false} OffBy(c: Conn, now: U32, n: nat)
    requires n >= Fuel(c, now)
    ensures !Armed(Later(c, now, n))
    decreases n
  {
    hide Tick, Plus, Budget, Left;
    if n > 0 {
      if Armed(c) { TickBurns(c, now); } else { TickOff(c, now); }
      OffBy(Tick(c, now).c, Plus(now, 1), n - 1);
    }
  }

  // A timer armed at tick now is off, or its connection released, within (R2 + 1) * 240
  // ticks, wherever the tick counter stood.
  lemma OffWithin(c: Conn, now: U32, n: nat)
    requires n >= (R2(c) + 1) * RTO_MAX
    ensures !Armed(Later(Arm(c, now), Plus(now, 1), n))
  {
    hide Plus, Diff, Armed;
    var a := Arm(c, now);
    SetDeadline(now, RtoNow(c));
    assert Fuel(a, Plus(now, 1)) <= R2(c) * RTO_MAX + RTO_MAX;
    OffBy(a, Plus(now, 1), n);
  }

  lemma {:induction false} Rests(c: Conn, now: U32, n: nat)
    requires !c.used || (c.state != TimeWait && c.deadline == 0)
    ensures Later(c, now, n) == c && Resendings(c, now, n) == 0
    decreases n
  {
    hide Plus;
    if n > 0 { Rests(c, Plus(now, 1), n - 1); }
  }

  // ---- when exactly a connection is given up ----

  // The connection after i more steps of backoff.
  function Backed(c: Conn, i: nat): Conn {
    c.(backoff := if c.backoff + i > 6 then 6 else c.backoff + i)
  }

  // The ticks from the first resending to the deadline that the i-th one sets.
  function Wait(c: Conn, i: nat): nat {
    if i == 0 then 0 else Wait(c, i - 1) + RtoNow(Backed(c, i))
  }

  // None of the at most five deadlines to come falls on tick 0, which would read as "off".
  predicate ClearOfZero(c: Conn, now: U32) {
    forall i: nat | 1 <= i <= Budget(c) :: Plus(now, Left(c, now) + Wait(c, i)) != 0
  }

  // The tick, counted from now, at which the connection is given up.
  function End(c: Conn, now: U32): nat {
    Left(c, now) + Wait(c, Budget(c))
  }

  lemma {:induction false} WaitShift(c: Conn, now: U32, i: nat)
    ensures Wait(Retry(c, now), i) + Wait(c, 1) == Wait(c, i + 1)
  {
    hide RtoNow;
    if i == 0 {
      assert Wait(c, 0) == 0;
    } else {
      WaitShift(c, now, i - 1);
      SameRto(Backed(Retry(c, now), i), Backed(c, i + 1));
    }
  }

  lemma SameRto(c: Conn, d: Conn)
    requires c.rto == d.rto && c.backoff == d.backoff
    ensures RtoNow(c) == RtoNow(d)
  {
  }

  lemma PlusPlus(a: U32, m: int, n: int)
    ensures Plus(Plus(a, m), n) == Plus(a, m + n)
  {
    ModSum(a + m, n);
  }

  // While the timer runs down, nothing of this changes but the time left.
  lemma Counting(c: Conn, now: U32)
    requires Armed(c) && !Due(c, now)
    ensures Left(c, now) == Left(c, Plus(now, 1)) + 1 && End(c, now) == End(c, Plus(now, 1)) + 1
    ensures ClearOfZero(c, Plus(now, 1)) <==> ClearOfZero(c, now)
  {
    hide Plus, Diff, Wait;
    NextTick(now, c.deadline);
    forall i: nat
      ensures Plus(Plus(now, 1), Left(c, Plus(now, 1)) + Wait(c, i)) == Plus(now, Left(c, now) + Wait(c, i))
    {
      PlusPlus(now, 1, Left(c, Plus(now, 1)) + Wait(c, i));
    }
  }

  // A resending uses up the first of the deadlines to come.
  lemma Resending(c: Conn, now: U32)
    requires Armed(c) && Due(c, now) && c.attempts < R2(c)
    ensures var d := Retry(c, now);
            && Budget(d) + 1 == Budget(c) && d.deadline == Plus(now, Wait(c, 1)) && Left(c, now) == 0
            && End(c, now) == End(d, Plus(now, 1)) + 1
            && (ClearOfZero(c, now) <==> d.deadline != 0 && ClearOfZero(d, Plus(now, 1)))
  {
    hide Plus, Diff, Wait, RtoNow;
    var d := Retry(c, now);
    FirstWait(c, now);
    SetDeadline(now, Wait(c, 1));
    forall i: nat ensures Plus(Plus(now, 1), Left(d, Plus(now, 1)) + Wait(d, i)) == Plus(now, Wait(c, i + 1)) {
      WaitShift(c, now, i);
      PlusPlus(now, 1, Left(d, Plus(now, 1)) + Wait(d, i));
    }
    WaitShift(c, now, Budget(d));
    if d.deadline != 0 && ClearOfZero(d, Plus(now, 1)) {
      forall i: nat | 1 <= i <= Budget(c) ensures Plus(now, Left(c, now) + Wait(c, i)) != 0 {
        if i > 1 {
          assert Plus(Plus(now, 1), Left(d, Plus(now, 1)) + Wait(d, i - 1)) == Plus(now, Wait(c, i));
        }
      }
    } else if d.deadline != 0 {
      var i: nat :| 1 <= i <= Budget(d) && Plus(Plus(now, 1), Left(d, Plus(now, 1)) + Wait(d, i)) == 0;
      assert Plus(now, Left(c, now) + Wait(c, i + 1)) == 0;
    } else {
      assert Plus(now, Left(c, now) + Wait(c, 1)) == 0;
    }
  }

  lemma FirstWait(c: Conn, now: U32)
    ensures Retry(c, now).deadline == Plus(now, Wait(c, 1)) && 1 <= Wait(c, 1) <= RTO_MAX
  {
    hide RtoNow, Plus;
    var d := c.(backoff := if c.backoff < 6 then c.backoff + 1 else c.backoff, attempts := c.attempts + 1);
    SameRto(d, Backed(c, 1));
    assert Wait(c, 0) == 0;
  }

  // A connection with something to resend, and nobody answering, is given up exactly at tick End
  // if none of its deadlines falls on tick 0, and otherwise never.
  lemma {:induction false} GivenUp(c: Conn, now: U32, n: nat)
    requires Armed(c) && Resends(c)
    ensures Later(c, now, n).used <==> ClearOfZero(c, now) ==> n <= End(c, now)
    decreases n
  {
    hide Plus, Diff, Wait, RtoNow, ClearOfZero, End;
    if n > 0 {
      var d := Tick(c, now).c;
      if !Due(c, now) {
        Counting(c, now);
        GivenUp(c, Plus(now, 1), n - 1);
      } else if c.attempts >= R2(c) {
        AtOnce(c, now);
        Rests(d, Plus(now, 1), n - 1);
      } else {
        Resending(c, now);
        if d.deadline == 0 { Rests(d, Plus(now, 1), n - 1); } else { GivenUp(d, Plus(now, 1), n - 1); }
      }
    }
  }

  lemma AtOnce(c: Conn, now: U32)
    requires Due(c, now) && c.attempts >= R2(c)
    ensures ClearOfZero(c, now) && End(c, now) == 0
  {
  }

  // Then all that the budget allows has been resent before.
  lemma {:induction false} ResendsAll(c: Conn, now: U32, n: nat)
    requires Armed(c) && Resends(c) && ClearOfZero(c, now) && n > End(c, now)
    ensures Resendings(c, now, n) == Budget(c) && !Later(c, now, n).used
    decreases n
  {
    hide Plus, Diff, Wait, RtoNow, ClearOfZero, End;
    var d := Tick(c, now).c;
    if !Due(c, now) {
      Counting(c, now);
      ResendsAll(c, Plus(now, 1), n - 1);
    } else if c.attempts >= R2(c) {
      Rests(d, Plus(now, 1), n - 1);
    } else {
      Resending(c, now);
      ResendsAll(d, Plus(now, 1), n - 1);
    }
  }

  // No deadline is more than 240 ticks after the one before.
  lemma {:induction false} WaitBound(c: Conn, i: nat)
    ensures Wait(c, i) <= i * RTO_MAX
  {
    if i > 0 { WaitBound(c, i - 1); }
  }

  // So the end is never far: 240 ticks for every resending left, from the next deadline on.
  lemma EndWithin(c: Conn, now: U32)
    ensures End(c, now) <= Left(c, now) + Budget(c) * RTO_MAX
  {
    WaitBound(c, Budget(c));
  }

  // ---- timers that never fire ----

  // Setting the timer leaves it off in exactly one case: the deadline falls on tick 0 of the
  // 32-bit counter.
  lemma ArmedUnlessZero(c: Conn, now: U32)
    requires c.used && c.state != TimeWait
    ensures Armed(Arm(c, now)) <==> now + RtoNow(c) != MOD
    ensures Armed(Rearm(c, now)) <==> now + RtoNow(c) != MOD
  {
  }

  // An armed timer with something to resend does so as soon as it is due.
  lemma {:induction false} FirstResend(c: Conn, now: U32, n: nat)
    requires Armed(c) && Resends(c) && c.attempts < R2(c) && Left(c, now) < n
    ensures Resendings(c, now, n) >= 1
    decreases n
  {
    hide Plus, Diff, Fuel;
    if !Due(c, now) {
      NextTick(now, c.deadline);
      FirstResend(c, Plus(now, 1), n - 1);
    }
  }

  // Either way of setting the timer, tcp_rto_arm and tcp_rto_rearm.
  predicate JustSet(c: Conn, now: U32, a: Conn) {
    a == Arm(c, now) || a == Rearm(c, now)
  }

  // A connection that sets its timer with something to resend and budget left resends it within
  // 240 ticks if and only if the deadline does not fall on tick 0; if it does, nothing is ever
  // resent.
  lemma ResendsUnlessZero(c: Conn, now: U32, a: Conn, n: nat)
    requires c.used && c.state != TimeWait && Resends(c) && JustSet(c, now, a) && a.attempts < R2(c)
    ensures Resendings(a, Plus(now, 1), RTO_MAX) >= 1 <==> now + RtoNow(c) != MOD
    ensures now + RtoNow(c) == MOD ==> Resendings(a, Plus(now, 1), n) == 0
  {
    hide Resendings, Diff, Plus;
    ArmedUnlessZero(c, now);
    if now + RtoNow(c) != MOD {
      SetDeadline(now, RtoNow(c));
      FirstResend(a, Plus(now, 1), RTO_MAX);
    } else {
      AtMostR2(a, Plus(now, 1), n);
      AtMostR2(a, Plus(now, 1), RTO_MAX);
    }
  }

  // A segment sent 30 ticks before the 32-bit counter wraps, on a connection with the initial
  // time-out, is never sent again.
  lemma WrapExample(n: nat)
    ensures var c := Conn(true, Established, 0, 0, 0, 0, 0, 100);
            Resendings(Rearm(c, 0xFFFF_FFE2), Plus(0xFFFF_FFE2, 1), n) == 0
  {
    var c := Conn(true, Established, 0, 0, 0, 0, 0, 100);
    assert RtoNow(c) == 30;
    ResendsUnlessZero(c, 0xFFFF_FFE2, Rearm(c, 0xFFFF_FFE2), n);
  }

  // ---- all connections ----

  // tcp_tick walks the table.
  method TickAll(conns: array<Conn>, now: U32)
    modifies conns
    ensures forall i: nat | i < conns.Length :: conns[i] == Tick(old(conns[i]), now).c
  {
    var i := 0;
    while i < conns.Length
      invariant 0 <= i <= conns.Length
      invariant forall k: nat | k < i :: conns[k] == Tick(old(conns[k]), now).c
      invariant forall k: nat | i <= k < conns.Length :: conns[k] == old(conns[k])
    {
      var c := conns[i];
      if c.used {
        if c.state == TimeWait {
          if c.until != 0 && Diff(now, c.until) >= 0 {
            c := c.(used := false, state := Closed);
          }
        } else if c.deadline != 0 && Diff(now, c.deadline) >= 0 {
          var r2 := if c.state == SynReceived then R2_SYN else R2_DATA;
          if c.attempts >= r2 {
            c := c.(used := false, state := Closed, deadline := 0, until := 0);
          } else if c.state == SynReceived {
            c := Retry(c, now);
          } else if c.state == LastAck {
            c := Retry(c, now);
          } else if (c.state == FinWait1 || c.state == Closing) && c.unacked == 0 {
            c := Retry(c, now);
          } else if c.unacked > 0 {
            c := Retry(c, now);
          } else {
            c := c.(deadline := 0);
          }
        }
      }
      conns[i] := c;
      i := i + 1;
    }
  }
}
