// Both halves of tcp_tick in net/net_tcp.c for a connection that sends data: the persist timer,
// which probes a window that is shut on waiting data, and the retransmission timer, which
// resends what is in flight and in the end gives the connection up.
module TcpPersist {
  import opened SeqNum
  import S = TcpSend
  import T = TcpTimer

  type Backoff = x: int | 0 <= x <= 6

  // A connection with both timers; deadline and backoff are the persist timer's, where deadline 0
  // means off, and probes is the statistics counter tcp_persist_probe.
  datatype Live = Live(c: T.Conn, s: S.Snd, deadline: U32, backoff: Backoff, probes: nat)

  // Data is waiting and the peer takes none.
  predicate Shut(s: S.Snd) {
    s.peerWin == 0 && S.InFlight(s) < |s.buf|
  }

  // The timer's view of the send buffer is right.
  predicate Fits(x: Live) {
    x.c.unacked == |x.s.buf|
  }

  // In use, and not merely waiting for its end.
  predicate Alive(x: Live) {
    x.c.used && x.c.state != T.TimeWait
  }

  // tcp_persist_arm.
  function Arm(x: Live, now: U32): Live {
    if x.deadline == 0 then x.(deadline := Plus(now, T.RTO_INIT)) else x
  }

  // k more steps of backoff.
  function Up(b: Backoff, k: nat): Backoff {
    if b + k > 6 then 6 else b + k
  }

  // The time to the next probe.
  function Interval(b: Backoff): (d: nat)
    ensures 1 <= d <= T.RTO_MAX
  {
    var d := T.RTO_INIT * T.Pow2(b);
    if d > T.RTO_MAX then T.RTO_MAX else d
  }

  predicate Due(x: Live, now: U32) {
    x.deadline != 0 && Diff(now, x.deadline) >= 0
  }

  // The persist half, with tcp_persist_retry and tcp_persist_clear.
  function PersistHalf(x: Live, link: S.Link, now: U32): Live {
    if !Due(x, now) then x
    else if !Shut(x.s) then x.(deadline := 0, backoff := 0)
    else
      var b := Up(x.backoff, 1);
      x.(s := S.Probe(x.s, link), deadline := Plus(now, Interval(b)), backoff := b, probes := x.probes + 1)
  }

  // Does the retransmission timer send data, and not a SYN or a FIN?
  predicate SendsData(c: T.Conn) {
    && c.state != T.SynReceived && c.state != T.LastAck
    && !((c.state == T.FinWait1 || c.state == T.Closing) && c.unacked == 0)
  }

  // The retransmission half.
  function RtoHalf(x: Live, link: S.Link, now: U32): Live {
    var t := T.Tick(x.c, now);
    match t.act
    case GaveUp => x.(c := t.c, deadline := 0)
    case Resent => x.(c := t.c, s := if SendsData(x.c) then S.Timeout(x.s, link) else x.s)
    case _ => x.(c := t.c)
  }

  // tcp_tick for one connection.
  function Tick(x: Live, link: S.Link, now: U32): Live {
    if !Alive(x) then x.(c := T.Tick(x.c, now).c) else RtoHalf(PersistHalf(x, link, now), link, now)
  }

  // n calls, one per tick from now on, with nothing else happening.
  function Later(x: Live, link: S.Link, now: U32, n: nat): Live
    decreases n
  {
    if n == 0 then x else Later(Tick(x, link, now), link, Plus(now, 1), n - 1)
  }

  // Ticks to go before the persist timer is due; 0 when it is.
  function Left(x: Live, now: U32): nat {
    if Diff(now, x.deadline) >= 0 then 0 else -Diff(now, x.deadline)
  }

  // ---- what a tick does to the parts ----

  // The retransmission timer runs as if alone.
  lemma {:induction false} RtoAlone(x: Live, link: S.Link, now: U32, n: nat)
    ensures Later(x, link, now, n).c == T.Later(x.c, now, n)
    decreases n
  {
    hide Plus, T.Tick, S.Probe, S.Timeout;
    if n > 0 { RtoAlone(Tick(x, link, now), link, Plus(now, 1), n - 1); }
  }

  // The same numbers, buffer and window.
  predicate Alike(s: S.Snd, t: S.Snd) {
    t.una == s.una && t.nxt == s.nxt && t.buf == s.buf && t.peerWin == s.peerWin
  }

  lemma SendingKeeps(s: S.Snd, link: S.Link)
    ensures Alike(s, S.Probe(s, link)) && Alike(s, S.Timeout(s, link))
  {
    hide Minus;
  }

  // Neither half moves a number, the buffer or the window.
  lemma SameData(x: Live, link: S.Link, now: U32)
    ensures var t := Tick(x, link, now);
            && Alike(x.s, t.s) && (Shut(x.s) ==> Shut(t.s)) && (Fits(x) ==> Fits(t))
  {
    hide Plus, Minus, Due, S.Probe, S.Timeout, T.RtoNow, Interval;
    SendingKeeps(x.s, link);
    SendingKeeps(PersistHalf(x, link, now).s, link);
  }

  // With the window shut, a tick moves the persist timer on exactly when it is due.
  lemma PersistTick(x: Live, link: S.Link, now: U32)
    requires Alive(x) && Shut(x.s)
    ensures var t := Tick(x, link, now);
            && t.probes == x.probes + (if Due(x, now) then 1 else 0)
            && (T.Tick(x.c, now).act == T.GaveUp ==> t.deadline == 0 && !t.c.used)
            && (T.Tick(x.c, now).act != T.GaveUp ==>
                  && Alive(t) && t.backoff == (if Due(x, now) then Up(x.backoff, 1) else x.backoff)
                  && t.deadline == if Due(x, now) then Plus(now, Interval(Up(x.backoff, 1))) else x.deadline)
  {
    hide Plus, Diff, Shut, Interval, S.Probe, S.Timeout, T.RtoNow;
  }

  lemma {:induction false} Ended(x: Live, link: S.Link, now: U32, n: nat)
    requires !x.c.used
    ensures Later(x, link, now, n) == x
    decreases n
  {
    hide Plus;
    if n > 0 { Ended(x, link, Plus(now, 1), n - 1); }
  }

  // ---- the persist deadlines to come ----

  // The ticks from the first probe to the deadline that the k-th one sets.
  function Gap(b: Backoff, k: nat): nat {
    if k == 0 then 0 else Gap(b, k - 1) + Interval(Up(b, k))
  }

  lemma {:induction false} GapShift(b: Backoff, k: nat)
    ensures Gap(Up(b, 1), k) + Gap(b, 1) == Gap(b, k + 1)
  {
    hide Interval;
    if k == 0 {
      assert Gap(b, 0) == 0;
    } else {
      GapShift(b, k - 1);
      assert Up(Up(b, 1), k) == Up(b, k + 1);
    }
  }

  // The deadline after the k-th probe from now on.
  function DeadlineAfter(x: Live, now: U32, k: nat): U32 {
    Plus(now, Left(x, now) + Gap(x.backoff, k))
  }

  lemma Waiting(x: Live, now: U32, k: nat)
    requires x.deadline != 0 && !Due(x, now)
    ensures Left(x, now) == Left(x, Plus(now, 1)) + 1
    ensures DeadlineAfter(x, Plus(now, 1), k) == DeadlineAfter(x, now, k)
  {
    hide Plus, Diff, Gap;
    T.NextTick(now, x.deadline);
    T.PlusPlus(now, 1, Left(x, Plus(now, 1)) + Gap(x.backoff, k));
  }

  lemma Probing(x: Live, y: Live, now: U32, k: nat)
    requires Due(x, now) && y.backoff == Up(x.backoff, 1) && y.deadline == Plus(now, Interval(y.backoff))
    ensures y.deadline == DeadlineAfter(x, now, 1) && Left(x, now) == 0 && Left(y, Plus(now, 1)) < T.RTO_MAX
    ensures DeadlineAfter(y, Plus(now, 1), k) == DeadlineAfter(x, now, k + 1)
  {
    hide Plus, Diff, Interval;
    assert Gap(x.backoff, 0) == 0;
    T.SetDeadline(now, Interval(y.backoff));
    GapShift(x.backoff, k);
    T.PlusPlus(now, 1, Left(y, Plus(now, 1)) + Gap(y.backoff, k));
  }

  // No deadline to come falls on tick 0, which would read as "off".
  ghost predicate NeverZero(x: Live, now: U32) {
    forall k: nat | k >= 1 :: DeadlineAfter(x, now, k) != 0
  }

  // ---- how many probes ----

  // As long as the connection is there, in any n ticks at least (n - Left) / 240 probes are sent
  // if no deadline falls on tick 0.
  lemma {:induction false} KeepsProbing(x: Live, link: S.Link, now: U32, n: nat)
    requires Alive(x) && Shut(x.s) && x.deadline != 0 && NeverZero(x, now)
    ensures var y := Later(x, link, now, n); y.c.used ==> n <= Left(x, now) + T.RTO_MAX * (y.probes - x.probes)
    decreases n
  {
    hide Plus, Diff, Tick, Shut, DeadlineAfter, Interval, Alive;
    if n > 0 {
      var t := Tick(x, link, now);
      SameData(x, link, now);
      PersistTick(x, link, now);
      if !t.c.used {
        Ended(t, link, Plus(now, 1), n - 1);
      } else {
        StillNever(x, link, now);
        KeepsProbing(t, link, Plus(now, 1), n - 1);
      }
    }
  }

  // One tick on, no deadline falls on tick 0 either, and the time left has gone down by one or
  // has been paid for with a probe.
  lemma StillNever(x: Live, link: S.Link, now: U32)
    requires Alive(x) && Shut(x.s) && x.deadline != 0 && NeverZero(x, now) && Tick(x, link, now).c.used
    ensures var t := Tick(x, link, now);
            && Alive(t) && t.deadline != 0 && NeverZero(t, Plus(now, 1))
            && Left(t, Plus(now, 1)) + 1 <= Left(x, now) + T.RTO_MAX * (t.probes - x.probes)
  {
    hide Plus, Diff, Tick, Shut, DeadlineAfter, Interval, Left;
    var t := Tick(x, link, now);
    PersistTick(x, link, now);
    UsedUnlessGivenUp(x.c, now);
    forall k: nat | k >= 1 ensures DeadlineAfter(t, Plus(now, 1), k) != 0 {
      if Due(x, now) {
        Probing(x, t, now, k);
      } else {
        Waiting(x, now, k);
        SamePersist(x, t, Plus(now, 1), k);
      }
    }
    if Due(x, now) {
      Probing(x, t, now, 0);
    } else {
      Waiting(x, now, 0);
      SamePersist(x, t, Plus(now, 1), 0);
    }
  }

  lemma UsedUnlessGivenUp(c: T.Conn, now: U32)
    requires c.used && c.state != T.TimeWait
    ensures T.Tick(c, now).act == T.GaveUp <==> !T.Tick(c, now).c.used
  {
  }

  lemma SamePersist(x: Live, t: Live, now: U32, k: nat)
    requires t.deadline == x.deadline && t.backoff == x.backoff
    ensures Left(t, now) == Left(x, now) && DeadlineAfter(t, now, k) == DeadlineAfter(x, now, k)
  {
  }

  // If the k-th deadline to come falls on tick 0, no more than k probes are ever sent.
  lemma {:induction false} StopsProbing(x: Live, link: S.Link, now: U32, n: nat, k: nat)
    requires Alive(x) && Shut(x.s)
    requires x.deadline == 0 || (k >= 1 && DeadlineAfter(x, now, k) == 0)
    ensures Later(x, link, now, n).probes <= x.probes + if x.deadline == 0 then 0 else k
    decreases n
  {
    hide Plus, Diff, Tick, Shut, DeadlineAfter, Interval;
    if n > 0 {
      var t := Tick(x, link, now);
      SameData(x, link, now);
      PersistTick(x, link, now);
      UsedUnlessGivenUp(x.c, now);
      if !t.c.used {
        Ended(t, link, Plus(now, 1), n - 1);
      } else if x.deadline == 0 {
        StopsProbing(t, link, Plus(now, 1), n - 1, 0);
      } else if Due(x, now) {
        Probing(x, t, now, k - 1);
        StopsProbing(t, link, Plus(now, 1), n - 1, k - 1);
      } else {
        Waiting(x, now, k);
        SamePersist(x, t, Plus(now, 1), k);
        StopsProbing(t, link, Plus(now, 1), n - 1, k);
      }
    }
  }

  // ---- when a deadline falls on tick 0 ----

  // The condition in terms of the tick of the first probe.  The intervals are 60, 120 and then
  // always 240 ticks; 240 and the size of the counter have the common divisor 16.
  predicate Clear(first: U32, b: Backoff) {
    if b == 0 then first != MOD - 60 && first != MOD - 180 && first % 16 != 12
    else if b == 1 then first != MOD - 120 && first % 16 != 8
    else first % 16 != 0
  }

  lemma Intervals(b: Backoff)
    ensures b == 1 ==> Interval(b) == 60
    ensures b == 2 ==> Interval(b) == 120
    ensures b >= 3 ==> Interval(b) == 240
  {
    assert T.Pow2(1) == 2 && T.Pow2(2) == 4 && T.Pow2(3) == 8;
    assert T.Pow2(4) == 16 && T.Pow2(5) == 32 && T.Pow2(6) == 64;
  }

  // The waiting time of the steps before the intervals have reached 240 ticks.
  function Head(b: Backoff): nat {
    if b == 0 then 180 else if b == 1 then 120 else 0
  }

  function Steps(b: Backoff): nat {
    if b == 0 then 2 else if b == 1 then 1 else 0
  }

  lemma {:induction false} GapForm(b: Backoff, k: nat)
    ensures k >= Steps(b) ==> Gap(b, k) == Head(b) + 240 * (k - Steps(b))
    ensures b == 0 && k == 1 ==> Gap(b, k) == 60
  {
    hide Interval;
    if k > 0 {
      GapForm(b, k - 1);
      Intervals(Up(b, k));
    }
  }

  // Steps of 240 reach a multiple of 2^32 exactly from multiples of 16.
  lemma Reaches(g: nat) returns (k: nat)
    requires g % 16 == 0
    ensures k >= 1 && (g + 240 * k) % MOD == 0
  {
    var q := g / 16;
    var r, m := q % 0x1000_0000, q / 0x1000_0000;
    k := 250539759 * (0x1000_0000 - r);
    assert g + 240 * k == MOD * (14 * (0x1000_0000 - r) + 1 + m);
    MultipleOf(14 * (0x1000_0000 - r) + 1 + m);
  }

  lemma MultipleOf(z: int)
    ensures (MOD * z) % MOD == 0
  {
  }

  lemma ReachedFrom(g: nat, k: nat)
    requires (g + 240 * k) % MOD == 0
    ensures g % 16 == 0
  {
    var z := (g + 240 * k) / MOD;
    assert g == 16 * (0x1000_0000 * z - 15 * k);
  }

  lemma SmallSum(first: U32, d: nat)
    requires 0 < d < MOD
    ensures (first + d) % MOD == 0 <==> first == MOD - d
  {
  }

  lemma Residues(first: nat)
    ensures (first + 180) % 16 == 0 <==> first % 16 == 12
    ensures (first + 120) % 16 == 0 <==> first % 16 == 8
  {
  }

  lemma ClearNever(first: U32, b: Backoff, k: nat)
    requires Clear(first, b) && k >= 1
    ensures (first + Gap(b, k)) % MOD != 0
  {
    hide Gap;
    GapForm(b, k);
    Residues(first);
    if k >= Steps(b) {
      if (first + Head(b) + 240 * (k - Steps(b))) % MOD == 0 { ReachedFrom(first + Head(b), k - Steps(b)); }
      if k == 2 { SmallSum(first, 180); }
      if k == 1 { SmallSum(first, 120); }
    } else {
      SmallSum(first, 60);
    }
  }

  lemma UnclearHits(first: U32, b: Backoff) returns (k: nat)
    requires !Clear(first, b)
    ensures k >= 1 && (first + Gap(b, k)) % MOD == 0
  {
    hide Gap;
    Residues(first);
    if (first + Head(b)) % 16 == 0 {
      var j := Reaches(first + Head(b));
      k := j + Steps(b);
      GapForm(b, k);
    } else if b == 0 && first == MOD - 60 {
      k := 1;
      GapForm(b, k);
    } else {
      k := Steps(b);
      GapForm(b, k);
    }
  }

  // No deadline falls on tick 0, however long it goes on, exactly when Clear says so.
  lemma ClearIff(first: U32, b: Backoff)
    ensures Clear(first, b) <==> forall k: nat | k >= 1 :: Plus(first, Gap(b, k)) != 0
  {
    hide Gap, Clear;
    if Clear(first, b) {
      forall k: nat | k >= 1 ensures Plus(first, Gap(b, k)) != 0 { ClearNever(first, b, k); }
    } else {
      var k := UnclearHits(first, b);
      assert Plus(first, Gap(b, k)) == 0;
    }
  }

  lemma AfterForm(x: Live, now: U32, k: nat)
    ensures Plus(Plus(now, Left(x, now)), Gap(x.backoff, k)) == DeadlineAfter(x, now, k)
  {
    hide Plus, Left, Gap;
    T.PlusPlus(now, Left(x, now), Gap(x.backoff, k));
  }

  lemma ClearMeans(x: Live, now: U32)
    ensures Clear(Plus(now, Left(x, now)), x.backoff) <==> NeverZero(x, now)
  {
    hide Clear, Gap, Plus, Left, DeadlineAfter;
    ClearIff(Plus(now, Left(x, now)), x.backoff);
    var f := Plus(now, Left(x, now));
    forall k: nat ensures Plus(f, Gap(x.backoff, k)) == DeadlineAfter(x, now, k) {
      AfterForm(x, now, k);
    }
    if NeverZero(x, now) {
      forall k: nat | k >= 1 ensures Plus(f, Gap(x.backoff, k)) != 0 { assert DeadlineAfter(x, now, k) != 0; }
    }
    if Clear(f, x.backoff) {
      forall k: nat | k >= 1 ensures DeadlineAfter(x, now, k) != 0 { assert Plus(f, Gap(x.backoff, k)) != 0; }
    }
  }

  // ---- both halves together ----

  // Is the connection given up some day, with nobody answering?
  predicate Doomed(c: T.Conn, now: U32) {
    T.Armed(c) && T.ClearOfZero(c, now)
  }

  lemma SomethingToResend(x: Live)
    requires Fits(x) && Shut(x.s)
    ensures T.Resends(x.c)
  {
  }

  // With the window shut on waiting data and nobody answering, the connection is released exactly
  // at the tick End of its retransmission timer, if that timer is armed and none of its
  // deadlines falls on tick 0, and otherwise never.
  lemma Released(x: Live, link: S.Link, now: U32, n: nat)
    requires Alive(x) && Fits(x) && Shut(x.s)
    ensures Later(x, link, now, n).c.used <==> Doomed(x.c, now) ==> n <= T.End(x.c, now)
  {
    hide Plus, Later, T.End, T.ClearOfZero, T.Later;
    RtoAlone(x, link, now, n);
    SomethingToResend(x);
    if T.Armed(x.c) { T.GivenUp(x.c, now, n); } else { T.Rests(x.c, now, n); }
  }

  // It goes on being there and being probed at least every 240 ticks.
  ghost predicate ProbedTill(x: Live, link: S.Link, now: U32, n: nat) {
    var y := Later(x, link, now, n);
    y.c.used && n <= Left(x, now) + T.RTO_MAX * (y.probes - x.probes)
  }

  // Probing goes on for ever if and only if the retransmission timer does not end the connection
  // and no persist deadline falls on tick 0.  Both can be told beforehand.
  lemma ProbesForEver(x: Live, link: S.Link, now: U32)
    requires Alive(x) && Fits(x) && Shut(x.s) && x.deadline != 0
    ensures (forall n: nat :: ProbedTill(x, link, now, n)) <==>
            !Doomed(x.c, now) && Clear(Plus(now, Left(x, now)), x.backoff)
  {
    hide Plus, Diff, Later, T.End, T.ClearOfZero, Clear, DeadlineAfter, Left;
    ClearMeans(x, now);
    if Doomed(x.c, now) {
      Released(x, link, now, T.End(x.c, now) + 1);
      assert !ProbedTill(x, link, now, T.End(x.c, now) + 1);
    } else if NeverZero(x, now) {
      forall n: nat ensures ProbedTill(x, link, now, n) {
        Released(x, link, now, n);
        KeepsProbing(x, link, now, n);
      }
    } else {
      var k: nat :| k >= 1 && DeadlineAfter(x, now, k) == 0;
      var n := Left(x, now) + T.RTO_MAX * k + 1;
      StopsProbing(x, link, now, n, k);
      assert !ProbedTill(x, link, now, n);
    }
  }

  // Nothing is sent any more once the connection is released.
  lemma {:induction false} NothingAfter(x: Live, link: S.Link, now: U32, m: nat, n: nat)
    requires m <= n && !Later(x, link, now, m).c.used
    ensures Later(x, link, now, n) == Later(x, link, now, m)
    decreases n
  {
    hide Plus, Tick;
    if m > 0 { NothingAfter(Tick(x, link, now), link, Plus(now, 1), m - 1, n - 1); } else { Ended(x, link, now, n); }
  }

  // ---- the first probe ----

  lemma {:induction false} FirstProbe(x: Live, link: S.Link, now: U32, n: nat)
    requires Alive(x) && Shut(x.s) && x.deadline != 0 && Left(x, now) < n && Later(x, link, now, n).c.used
    ensures Later(x, link, now, n).probes > x.probes
    decreases n
  {
    hide Plus, Diff, Tick, Shut, Interval;
    var t := Tick(x, link, now);
    SameData(x, link, now);
    PersistTick(x, link, now);
    UsedUnlessGivenUp(x.c, now);
    if !t.c.used {
      Ended(t, link, Plus(now, 1), n - 1);
    } else if Due(x, now) {
      OnlyMore(t, link, Plus(now, 1), n - 1);
    } else {
      Waiting(x, now, 0);
      SamePersist(x, t, Plus(now, 1), 0);
      FirstProbe(t, link, Plus(now, 1), n - 1);
    }
  }

  lemma {:induction false} OnlyMore(x: Live, link: S.Link, now: U32, n: nat)
    ensures Later(x, link, now, n).probes >= x.probes
    decreases n
  {
    hide Plus, Diff, S.Probe, S.Timeout, Interval, T.Tick, Shut;
    if n > 0 { OnlyMore(Tick(x, link, now), link, Plus(now, 1), n - 1); }
  }

  // Armed at tick now, the first probe is out 30 ticks later, if the connection is then still
  // there, if and only if the deadline does not fall on tick 0; if it does, none ever is.
  lemma ProbeWithin(x: Live, link: S.Link, now: U32, n: nat)
    requires Alive(x) && Shut(x.s) && x.deadline == 0
    ensures var y := Later(Arm(x, now), link, Plus(now, 1), T.RTO_INIT);
            y.c.used ==> (y.probes > x.probes <==> now + T.RTO_INIT != MOD)
    ensures now + T.RTO_INIT == MOD ==> Later(Arm(x, now), link, Plus(now, 1), n).probes == x.probes
  {
    hide Diff, Later, Shut;
    var a := Arm(x, now);
    T.SetDeadline(now, T.RTO_INIT);
    if now + T.RTO_INIT != MOD {
      if Later(a, link, Plus(now, 1), T.RTO_INIT).c.used { FirstProbe(a, link, Plus(now, 1), T.RTO_INIT); }
    } else {
      StopsProbing(a, link, Plus(now, 1), T.RTO_INIT, 0);
      StopsProbing(a, link, Plus(now, 1), n, 0);
      OnlyMore(a, link, Plus(now, 1), T.RTO_INIT);
      OnlyMore(a, link, Plus(now, 1), n);
    }
  }

  // ---- what is sent ----

  // Every packet the ticks put on the link is a probe with the first unacknowledged byte or the
  // whole flight again.
  lemma {:induction false} OnlyThese(x: Live, link: S.Link, now: U32, n: nat)
    requires Shut(x.s)
    ensures var s := Later(x, link, now, n).s;
            && x.s.sent <= s.sent && Shut(s) && s.una == x.s.una && s.nxt == x.s.nxt && s.buf == x.s.buf
            && forall i: nat | |x.s.sent| <= i < |s.sent| ::
                 || s.sent[i] == S.Packet(x.s.una, x.s.buf[..1])
                 || s.sent[i] == S.Packet(x.s.una, x.s.buf[..S.InFlight(x.s)])
    decreases n
  {
    hide Plus, Tick, Minus;
    if n > 0 {
      var t := Tick(x, link, now);
      SameData(x, link, now);
      TickSends(x, link, now);
      OnlyThese(t, link, Plus(now, 1), n - 1);
      var s := Later(x, link, now, n).s;
      forall i: nat | |x.s.sent| <= i < |t.s.sent| ensures s.sent[i] == t.s.sent[i] {}
    }
  }

  lemma TickSends(x: Live, link: S.Link, now: U32)
    requires Shut(x.s)
    ensures var t := Tick(x, link, now);
            && x.s.sent <= t.s.sent
            && forall i: nat | |x.s.sent| <= i < |t.s.sent| ::
                 || t.s.sent[i] == S.Packet(x.s.una, x.s.buf[..1])
                 || t.s.sent[i] == S.Packet(x.s.una, x.s.buf[..S.InFlight(x.s)])
  {
    hide Plus, Minus, T.Tick, Due, Interval;
  }

  // With the link up every probe is really sent.
  lemma {:induction false} ProbesSent(x: Live, link: S.Link, now: U32, n: nat)
    requires Shut(x.s) && forall k: nat :: link(k)
    ensures var y := Later(x, link, now, n); |y.s.sent| - |x.s.sent| >= y.probes - x.probes
    decreases n
  {
    hide Plus, Tick, Minus;
    if n > 0 {
      SameData(x, link, now);
      TickCounts(x, link, now);
      ProbesSent(Tick(x, link, now), link, Plus(now, 1), n - 1);
    }
  }

  lemma TickCounts(x: Live, link: S.Link, now: U32)
    requires Shut(x.s) && forall k: nat :: link(k)
    ensures var t := Tick(x, link, now); |t.s.sent| - |x.s.sent| >= t.probes - x.probes
  {
    hide Plus, Minus, T.Tick, Due, Interval;
  }
}
