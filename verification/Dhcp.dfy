// The DHCP client of net/net_dhcp.c: its lease state machine on a 32-bit tick counter.
module Dhcp {
  import opened SeqNum

  const RETRY_BASE: nat := 2
  const RETRY_CAP: nat := 30
  const TICKS_PER_SEC: nat := 100
  const MAX_SECS: nat := 42949672
  const STATIC_IP: nat := 0x0A00020F
  const STATIC_GW: nat := 0x0A000202
  const STATIC_MASK: nat := 0xFFFFFF00

  datatype Phase = WaitOffer | WaitAck | Done | Bound | Renewing | Rebinding

  datatype Client = Client(
    phase: Phase, ip: nat, gateway: nat, mask: nat, ciaddr: nat, offer: nat,
    timed: bool, t1: U32, t2: U32, expire: U32, retries: nat, wait: nat, last: U32)

  // What a reply that passed the checks on length, xid and MAC address says: its type, the
  // address offered, options 3 and 1 as last seen, and options 51, 58 and 59 in seconds.
  datatype Reply = Reply(kind: nat, yiaddr: nat, gateway: nat, mask: nat, lease: nat, t1: nat, t2: nat)

  const OFFER: nat := 2
  const ACK: nat := 5
  const NAK: nat := 6

  predicate Leased(p: Phase) { p == Bound || p == Renewing || p == Rebinding }

  // dhcp_secs_to_ticks
  function ToTicks(secs: nat): (r: nat)
    ensures r < MOD
  {
    (if secs > MAX_SECS then MAX_SECS else secs) * TICKS_PER_SEC
  }

  // dhcp_arm_lease: ticks to T1, to T2 and to expiry.
  datatype Terms = Terms(t1: nat, t2: nat, lease: nat)

  function LeaseTerms(lease: nat, t1: nat, t2: nat): (r: Terms)
    requires lease > 0
    ensures 1 <= r.t1 <= r.t2 <= r.lease < MOD
  {
    var lt := ToTicks(lease);
    var r2 := if t2 != 0 then ToTicks(t2) else lt - lt / 8;
    var b2 := if r2 > lt then lt else r2;
    var r1 := if t1 != 0 then ToTicks(t1) else lt / 2;
    var b1 := if r1 > b2 then b2 else r1;
    Terms(if b1 == 0 then 1 else b1, b2, lt)
  }

  function ArmLease(c: Client, r: Reply, now: U32): Client {
    if r.lease == 0 then c.(timed := false)
    else
      var m := LeaseTerms(r.lease, r.t1, r.t2);
      c.(t1 := Plus(now, m.t1), t2 := Plus(now, m.t2), expire := Plus(now, m.lease), timed := true)
  }

  // dhcp_lease_expired, and what a NAK does.
  function Restart(c: Client, now: U32): Client {
    c.(phase := WaitOffer, ip := 0, gateway := 0, mask := 0, ciaddr := 0, offer := 0, timed := false,
       retries := 0, wait := RETRY_BASE, last := now)
  }

  // dhcp_handle
  function Handle(c: Client, r: Reply, now: U32): Client {
    if r.kind == NAK then Restart(c, now)
    else if r.kind == OFFER && c.phase == WaitOffer then
      c.(offer := r.yiaddr, phase := WaitAck, last := now, wait := RETRY_BASE)
    else if r.kind == ACK && (c.phase == WaitAck || c.phase == Renewing || c.phase == Rebinding) then
      var d := ArmLease(c.(offer := r.yiaddr, ciaddr := r.yiaddr, ip := r.yiaddr, gateway := r.gateway,
                           mask := r.mask), r, now);
      d.(phase := if d.timed then Bound else Done)
    else c
  }

  // dhcp_backoff_next
  function Backoff(w: nat): nat {
    var x := w * 7 / 4;
    if x > RETRY_CAP then RETRY_CAP else x
  }

  predicate Reached(now: U32, due: U32) { Diff(now, due) >= 0 }

  predicate RetryDue(c: Client, now: U32) {
    c.wait != 0 && Minus(now, c.last) >= c.wait * TICKS_PER_SEC
  }

  // The switch at the head of dhcp_tick.
  function LeaseTick(c: Client, now: U32): Client {
    match c.phase
    case Bound =>
      if Reached(now, c.expire) then Restart(c, now)
      else if Reached(now, c.t1) then c.(phase := Renewing, retries := 0, wait := RETRY_BASE, last := now)
      else c
    case Renewing =>
      if Reached(now, c.expire) then Restart(c, now)
      else if Reached(now, c.t2) then c.(phase := Rebinding, retries := 0, wait := RETRY_BASE, last := now)
      else if RetryDue(c, now) then c.(wait := Backoff(c.wait), last := now)
      else c
    case Rebinding =>
      if Reached(now, c.expire) then Restart(c, now)
      else if RetryDue(c, now) then c.(wait := Backoff(c.wait), last := now)
      else c
    case _ => c
  }

  // Its tail: repeated discovery, then the static address.
  function RetryTick(c: Client, now: U32): Client {
    if (c.phase == WaitOffer || c.phase == WaitAck) && RetryDue(c, now) then
      if c.retries >= 6 then
        c.(retries := c.retries + 1, wait := 0, ip := STATIC_IP, gateway := STATIC_GW, mask := STATIC_MASK,
           phase := Done, timed := false)
      else c.(retries := c.retries + 1, phase := WaitOffer, wait := RETRY_BASE, last := now)
    else c
  }

  function Tick(c: Client, now: U32): Client {
    RetryTick(LeaseTick(c, now), now)
  }

  // dhcp_start on an interface without address.
  function Start(now: U32): Client {
    Client(WaitOffer, 0, 0, 0, 0, 0, false, 0, 0, 0, 0, RETRY_BASE, now)
  }

  // ---- runs, on unbounded time ----

  // The lease in true time: when it was granted and when its deadlines fall.
  datatype Lease = Lease(granted: int, t1: int, t2: int, expire: int)

  // seen is the time of the last dhcp_tick.
  datatype World = World(c: Client, lease: Lease, seen: int)

  function Clock(t: int): U32 { Image(0, t) }

  datatype Event = Got(reply: Reply, at: int) | Ticked(at: int)

  function NewLease(w: World, r: Reply, t: int): Lease {
    if r.kind == ACK && (w.c.phase == WaitAck || w.c.phase == Renewing || w.c.phase == Rebinding) && r.lease > 0 then
      var m := LeaseTerms(r.lease, r.t1, r.t2);
      Lease(t, t + m.t1, t + m.t2, t + m.lease)
    else w.lease
  }

  function Step(w: World, e: Event): World {
    match e
    case Got(r, t) => World(Handle(w.c, r, Clock(t)), NewLease(w, r, t), w.seen)
    case Ticked(t) => World(Tick(w.c, Clock(t)), w.lease, t)
  }

  function Run(w: World, es: seq<Event>): World {
    if es == [] then w else Step(Run(w, es[..|es| - 1]), es[|es| - 1])
  }

  // Time does not go back, and dhcp_tick is never 2^31 ticks apart.
  ghost predicate Timely(w: World, es: seq<Event>) {
    es == [] || (
      var v := Run(w, es[..|es| - 1]);
      Timely(w, es[..|es| - 1]) && v.seen <= es[|es| - 1].at < v.seen + HALF)
  }

  // ---- the invariant ----

  ghost predicate Deadlines(c: Client, l: Lease) {
    && c.t1 == Clock(l.t1) && c.t2 == Clock(l.t2) && c.expire == Clock(l.expire)
    && l.granted < l.t1 <= l.t2 <= l.expire < l.granted + MOD
  }

  ghost predicate WInv(w: World) {
    && (Leased(w.c.phase) ==> w.c.timed && w.c.ip == w.c.ciaddr && Deadlines(w.c, w.lease) && w.seen < w.lease.expire)
    && (w.c.phase == WaitOffer || w.c.phase == WaitAck ==> w.c.ip == 0 && w.c.ciaddr == 0)
    && (!Leased(w.c.phase) ==> !w.c.timed)
    && w.c.wait <= RETRY_CAP
  }

  lemma HandleInv(w: World, r: Reply, t: int)
    requires WInv(w) && w.seen <= t
    ensures WInv(Step(w, Got(r, t)))
  {
    if r.lease > 0 {
      var m := LeaseTerms(r.lease, r.t1, r.t2);
      ImagePlus(0, t, m.t1);
      ImagePlus(0, t, m.t2);
      ImagePlus(0, t, m.lease);
    }
  }

  // At or after expiry, and within half the counter of it, the signed test sees the expiry.
  lemma SeesExpiry(l: Lease, t: int)
    requires l.expire <= t < l.expire + HALF
    ensures Reached(Clock(t), Clock(l.expire))
  {
    ImageDiff(0, t, l.expire);
  }

  lemma TickInv(w: World, t: int)
    requires WInv(w) && w.seen <= t < w.seen + HALF
    ensures WInv(Step(w, Ticked(t)))
  {
    hide Image, Diff, Minus;
    if Leased(w.c.phase) && t >= w.lease.expire { SeesExpiry(w.lease, t); }
  }

  // In every timely run: a leased phase has its deadlines set and in order and uses the
  // leased address, and no address outlives its lease past a tick.
  lemma {:induction false} RunInv(w: World, es: seq<Event>)
    requires WInv(w) && Timely(w, es)
    ensures WInv(Run(w, es))
  {
    hide WInv, Step;
    if es != [] {
      RunInv(w, es[..|es| - 1]);
      var v := Run(w, es[..|es| - 1]);
      match es[|es| - 1]
      case Got(r, t) => HandleInv(v, r, t);
      case Ticked(t) => TickInv(v, t);
    }
  }

  lemma StartInv(t: int)
    ensures WInv(World(Start(Clock(t)), Lease(0, 0, 0, 0), t))
  {
  }

  // From the start of the client: whenever it holds a lease it uses the leased address, with its
  // deadlines in order, and the lease had not run out at the last tick; while it looks for one it
  // has no address.
  lemma FromStart(t: int, es: seq<Event>)
    requires var w := World(Start(Clock(t)), Lease(0, 0, 0, 0), t); Timely(w, es)
    ensures var r := Run(World(Start(Clock(t)), Lease(0, 0, 0, 0), t), es);
            && WInv(r)
            && (Leased(r.c.phase) ==> r.c.timed && r.c.ip == r.c.ciaddr && r.seen < r.lease.expire)
  {
    StartInv(t);
    RunInv(World(Start(Clock(t)), Lease(0, 0, 0, 0), t), es);
  }

  // A tick at or after expiry leaves no address in use.
  lemma ExpiryClears(w: World, t: int)
    requires WInv(w) && Leased(w.c.phase) && w.lease.expire <= t < w.lease.expire + HALF
    ensures var c := Tick(w.c, Clock(t)); c.phase == WaitOffer && c.ip == 0 && c.ciaddr == 0 && !c.timed
  {
    hide Image, Diff;
    SeesExpiry(w.lease, t);
    assert Minus(Clock(t), Clock(t)) == 0;
  }

  // Before expiry a tick drops the lease exactly when more than 2^31 ticks of it remain: the
  // signed comparison then takes it for expired.
  lemma DroppedEarly(w: World, t: int)
    requires WInv(w) && Leased(w.c.phase) && w.lease.expire - MOD < t < w.lease.expire
    ensures Tick(w.c, Clock(t)).phase == WaitOffer <==> w.lease.expire - t > HALF
  {
    var d := w.lease.expire - t;
    if d <= HALF {
      ImageDiff(0, t, w.lease.expire);
      assert !Reached(Clock(t), w.c.expire);
    } else {
      LongDiff(t, w.lease.expire);
      assert Minus(Clock(t), Clock(t)) == 0;
    }
  }

  lemma LongDiff(p: int, q: int)
    requires HALF < q - p < MOD
    ensures Diff(Image(0, p), Image(0, q)) == p - q + MOD
  {
    ImageMinus(0, p, q);
  }

  // The signed test of a deadline less than a turn of the counter away.
  lemma ReachedMeans(t: int, due: int)
    requires -HALF <= t - due < MOD
    ensures Reached(Clock(t), Clock(due)) <==> due <= t < due + HALF
  {
    if t - due < HALF {
      ImageDiff(0, t, due);
    } else {
      ImageMinus(0, t, due);
      SmallMod(t - due);
    }
  }

  // A tick while the lease runs, for leases of any length.  It drops the lease if more than 2^31
  // ticks of it are left; otherwise it keeps the address, and T1 and T2 take effect exactly in
  // their windows, which end 2^31 ticks later.
  lemma Windows(w: World, t: int)
    requires WInv(w) && Leased(w.c.phase) && w.lease.granted <= t < w.lease.expire
    ensures var c := Tick(w.c, Clock(t));
            if w.lease.expire - t > HALF then c.phase == WaitOffer && c.ip == 0
            else
              && Leased(c.phase) && c.ip == w.c.ip
              && (w.c.phase == Bound ==> (c.phase == Renewing <==> w.lease.t1 <= t < w.lease.t1 + HALF)
                                         && (c.phase == Renewing || c.phase == Bound))
              && (w.c.phase == Renewing ==> (c.phase == Rebinding <==> w.lease.t2 <= t < w.lease.t2 + HALF)
                                            && (c.phase == Rebinding || c.phase == Renewing))
              && (w.c.phase == Rebinding ==> c.phase == Rebinding)
  {
    hide Image, Diff, Minus, Reached;
    if w.lease.expire - t > HALF {
      DroppedEarly(w, t);
      DropsAddress(w.c, Clock(t));
    } else {
      ReachedMeans(t, w.lease.expire);
      ReachedMeans(t, w.lease.t1);
      ReachedMeans(t, w.lease.t2);
    }
  }

  lemma DropsAddress(c: Client, now: U32)
    requires Leased(c.phase) && Tick(c, now).phase == WaitOffer
    ensures Tick(c, now).ip == 0
  {
    hide Reached, RetryDue;
  }

  // ---- getting and renewing a lease ----

  // Timers a server gives in order are used as they are; missing ones are a half and seven
  // eighths of the lease (section 4.4.5 of RFC 2131).
  lemma TermsExact(lease: nat, t1: nat, t2: nat)
    requires 0 < lease <= MAX_SECS
    ensures 0 < t1 <= t2 <= lease ==>
              LeaseTerms(lease, t1, t2) == Terms(t1 * TICKS_PER_SEC, t2 * TICKS_PER_SEC, lease * TICKS_PER_SEC)
    ensures var lt := lease * TICKS_PER_SEC; LeaseTerms(lease, 0, 0) == Terms(lt / 2, lt - lt / 8, lt)
  {
  }

  // An ACK while one is awaited, or while renewing or rebinding, binds the address it names
  // for the time it grants, from its arrival on; without a time the address is kept for good.
  lemma AckBinds(w: World, r: Reply, t: int)
    requires WInv(w) && w.seen <= t && r.kind == ACK
             && (w.c.phase == WaitAck || w.c.phase == Renewing || w.c.phase == Rebinding)
    ensures var v := Step(w, Got(r, t));
            && v.c.ip == r.yiaddr && v.c.ciaddr == r.yiaddr && v.c.gateway == r.gateway && v.c.mask == r.mask
            && (r.lease == 0 ==> v.c.phase == Done)
            && (r.lease > 0 ==>
                  v.c.phase == Bound && v.lease.granted == t && v.lease.expire == t + ToTicks(r.lease)
                    && Deadlines(v.c, v.lease))
  {
    HandleInv(w, r, t);
  }

  // From discovery: an offer, then an acknowledgement, and the client is bound.
  lemma Acquires(w: World, o: Reply, a: Reply, t: int, u: int)
    requires WInv(w) && w.c.phase == WaitOffer && w.seen <= t <= u && o.kind == OFFER && a.kind == ACK && a.lease > 0
    ensures var v := Step(Step(w, Got(o, t)), Got(a, u));
            v.c.phase == Bound && v.c.ip == a.yiaddr && v.lease.expire == u + ToTicks(a.lease)
  {
    HandleInv(w, o, t);
    AckBinds(Step(w, Got(o, t)), a, u);
  }

  // A client left alone, with dhcp_tick called at every tick from time t on.
  function Alone(w: World, t: int, n: nat): World
    decreases n
  {
    if n == 0 then w else Alone(Step(w, Ticked(t)), t + 1, n - 1)
  }

  // The phase of a lease of at most 2^31 ticks at time t, with nobody answering.
  function PhaseAt(l: Lease, t: int): Phase {
    if t < l.t1 then Bound
    else if t >= l.expire then WaitOffer
    else if t < l.t2 || t == l.t1 then Renewing
    else Rebinding
  }

  lemma {:induction false} LeaseRuns(w: World, t: int, n: nat)
    requires WInv(w) && w.lease.expire - w.lease.granted <= HALF && w.lease.granted < t && t + n <= w.lease.expire + 1
    requires w.seen < t < w.seen + HALF && w.c.phase == PhaseAt(w.lease, t - 1) && Leased(w.c.phase)
    ensures var v := Alone(w, t, n);
            && v.c.phase == PhaseAt(w.lease, t + n - 1)
            && (t + n - 1 < w.lease.expire ==> v.c.ip == w.c.ip) && (t + n - 1 == w.lease.expire ==> v.c.ip == 0)
    decreases n
  {
    hide Image, Diff, Minus, Tick, Clock;
    if n > 0 {
      TickInv(w, t);
      var v := Step(w, Ticked(t));
      if t < w.lease.expire {
        Windows(w, t);
        LeaseRuns(v, t + 1, n - 1);
      } else {
        ExpiryClears(w, t);
      }
    }
  }

  // From discovery on: an offer, an acknowledgement at time u, and then silence, with one tick
  // after the other.  The client is BOUND until T1, RENEWING until T2, REBINDING until the
  // expiry, and back in discovery, without an address, exactly there.
  lemma Timeline(w: World, o: Reply, a: Reply, t: int, u: int, n: nat)
    requires WInv(w) && w.c.phase == WaitOffer && w.seen <= t <= u && o.kind == OFFER && a.kind == ACK
    requires u + 1 < w.seen + HALF && a.lease > 0 && ToTicks(a.lease) <= HALF && n <= ToTicks(a.lease)
    ensures var m := LeaseTerms(a.lease, a.t1, a.t2);
            var v := Alone(Step(Step(w, Got(o, t)), Got(a, u)), u + 1, n);
            && v.c.phase == PhaseAt(Lease(u, u + m.t1, u + m.t2, u + m.lease), u + n)
            && v.c.ip == if n < m.lease then a.yiaddr else 0
  {
    hide Image, Diff, Minus, Tick, Alone;
    Acquires(w, o, a, t, u);
    HandleInv(w, o, t);
    HandleInv(Step(w, Got(o, t)), a, u);
    LeaseRuns(Step(Step(w, Got(o, t)), Got(a, u)), u + 1, n);
  }

  // Without timers from the server: BOUND for half the lease, RENEWING up to seven eighths.
  lemma DefaultTimeline(w: World, o: Reply, a: Reply, t: int, u: int, n: nat)
    requires WInv(w) && w.c.phase == WaitOffer && w.seen <= t <= u && o.kind == OFFER && a.kind == ACK
    requires u + 1 < w.seen + HALF && a.lease > 0 && ToTicks(a.lease) <= HALF && n <= ToTicks(a.lease)
    requires a.t1 == 0 && a.t2 == 0
    ensures var lt := a.lease * TICKS_PER_SEC;
            var c := Alone(Step(Step(w, Got(o, t)), Got(a, u)), u + 1, n).c;
            c.phase == (if n < lt / 2 then Bound else if n < lt - lt / 8 then Renewing else if n < lt then Rebinding
                        else WaitOffer)
  {
    hide Alone, Step, WInv;
    assert a.lease <= MAX_SECS;
    TermsExact(a.lease, 0, 0);
    Timeline(w, o, a, t, u, n);
  }

  // ---- where an address comes from ----

  // Event i of the run is an acknowledgement of address ip that the client was waiting for.
  ghost predicate Granted(w: World, es: seq<Event>, i: nat, ip: nat) {
    && i < |es| && es[i].Got? && es[i].reply.kind == ACK && es[i].reply.yiaddr == ip
    && var p := Run(w, es[..i]).c.phase; p == WaitAck || p == Renewing || p == Rebinding
  }

  predicate Refusal(e: Event) { e.Got? && e.reply.kind == NAK }

  ghost predicate Sourced(w: World, es: seq<Event>, ip: nat) {
    exists i: nat :: Granted(w, es, i, ip) && forall j: nat | i < j < |es| :: !Refusal(es[j])
  }

  // In every timely run from the start, an address in use is one a server has acknowledged to a
  // client that was waiting for it, with no refusal since, or the static one after discovery
  // was given up.
  lemma {:induction false} AddressFromAck(t: int, es: seq<Event>)
    requires Timely(World(Start(Clock(t)), Lease(0, 0, 0, 0), t), es)
    ensures var w := World(Start(Clock(t)), Lease(0, 0, 0, 0), t);
            var c := Run(w, es).c;
            c.ip == 0 || Sourced(w, es, c.ip) || (c.phase == Done && c.ip == STATIC_IP)
    decreases |es|
  {
    hide WInv, Step;
    var w := World(Start(Clock(t)), Lease(0, 0, 0, 0), t);
    if es == [] {
      assert Run(w, es) == w;
    } else {
      var n := |es| - 1;
      AddressFromAck(t, es[..n]);
      StartInv(t);
      RunInv(w, es[..n]);
      var v := Run(w, es[..n]);
      StepAddress(v, es[n]);
      var c := Run(w, es).c;
      if c.ip != 0 {
        if es[n].Got? && es[n].reply.kind == ACK && c.ip == es[n].reply.yiaddr
           && (v.c.phase == WaitAck || v.c.phase == Renewing || v.c.phase == Rebinding) {
          assert Granted(w, es, n, c.ip);
        } else if c.ip == v.c.ip && !Refusal(es[n]) && Sourced(w, es[..n], c.ip) {
          var i: nat :| Granted(w, es[..n], i, c.ip) && forall j: nat | i < j < n :: !Refusal(es[..n][j]);
          assert es[..n][..i] == es[..i];
          assert Granted(w, es, i, c.ip);
          forall j: nat | i < j < |es| ensures !Refusal(es[j]) {
            if j < n { assert es[..n][j] == es[j]; }
          }
        }
      }
    }
  }

  // How one step changes the address.
  lemma StepAddress(w: World, e: Event)
    requires WInv(w)
    ensures var v := Step(w, e);
            || v.c.ip == 0
            || (e.Got? && e.reply.kind == ACK && v.c.ip == e.reply.yiaddr
                && (w.c.phase == WaitAck || w.c.phase == Renewing || w.c.phase == Rebinding))
            || (v.c.phase == Done && v.c.ip == STATIC_IP)
            || (v.c.ip == w.c.ip && !Refusal(e) && (w.c.phase == Done ==> v.c.phase == Done))
  {
    hide Reached, RetryDue, ToTicks;
  }

  // ---- a lease lost at once ----

  // Three events from the start: an offer, an acknowledgement with the longest lease there is,
  // and one tick.  The client was bound and has dropped the address again.
  lemma DropExample()
    ensures var w := World(Start(Clock(0)), Lease(0, 0, 0, 0), 0);
            var offer := Got(Reply(OFFER, STATIC_IP, 0, 0, 0, 0, 0), 1);
            var ack := Got(Reply(ACK, STATIC_IP, STATIC_GW, STATIC_MASK, 0xFFFF_FFFF, 0, 0), 2);
            && Run(w, [offer, ack]).c.phase == Bound && Run(w, [offer, ack]).c.ip == STATIC_IP
            && Run(w, [offer, ack, Ticked(3)]).c.phase == WaitOffer && Run(w, [offer, ack, Ticked(3)]).c.ip == 0
  {
    hide Tick, Handle, LeaseTerms;
    var w := World(Start(Clock(0)), Lease(0, 0, 0, 0), 0);
    var offer := Reply(OFFER, STATIC_IP, 0, 0, 0, 0, 0);
    var ack := Reply(ACK, STATIC_IP, STATIC_GW, STATIC_MASK, 0xFFFF_FFFF, 0, 0);
    Acquires(w, offer, ack, 1, 2);
    HandleInv(w, offer, 1);
    HandleInv(Step(w, Got(offer, 1)), ack, 2);
    AckBinds(Step(w, Got(offer, 1)), ack, 2);
    var v := Step(Step(w, Got(offer, 1)), Got(ack, 2));
    Windows(v, 3);
    ThreeEvents(w, Got(offer, 1), Got(ack, 2), Ticked(3));
  }

  lemma ThreeEvents(w: World, a: Event, b: Event, c: Event)
    ensures Run(w, [a, b]) == Step(Step(w, a), b) && Run(w, [a, b, c]) == Step(Step(Step(w, a), b), c)
  {
    hide Step;
    assert [a, b, c][..2] == [a, b] && [a, b][..1] == [a] && [a][..0] == [];
    assert Run(w, [a]) == Step(w, a);
  }

  // ---- no server ----

  function Quiet(c: Client, now: U32, n: nat): Client
    decreases n
  {
    if n == 0 then c else Quiet(Tick(c, now), Plus(now, 1), n - 1)
  }

  // With nobody answering, the static address comes at the 1400th tick after the start, not
  // before, wherever the counter stood.
  lemma FallbackTime(now: U32, n: nat)
    ensures var c := Quiet(Start(now), Plus(now, 1), n);
            if n < 1400 then c.phase == WaitOffer && c.ip == 0 else c.phase == Done && c.ip == STATIC_IP
  {
    hide Minus, Plus;
    StepsFrom(now, 1);
    Countdown(Start(now), now, 1, n);
  }

  lemma StepsFrom(a: U32, j: nat)
    requires j < HALF
    ensures Minus(Plus(a, j), a) == j
  {
    MinusPlus(a, a, j);
  }

  lemma PlusOne(a: U32, j: nat)
    requires j < HALF
    ensures Plus(Plus(a, j), 1) == Plus(a, j + 1)
  {
    ModSum(a + j, 1);
  }

  // Waiting since a, j ticks ago.
  lemma {:induction false} Countdown(c: Client, a: U32, j: nat, n: nat)
    requires c.phase == WaitOffer && c.wait == RETRY_BASE && c.last == a && c.ip == 0 && c.retries <= 6 && 1 <= j <= 200
    ensures var r := Quiet(c, Plus(a, j), n);
            if n < (6 - c.retries) * 200 + 200 - j + 1 then r.phase == WaitOffer && r.ip == 0
              else r.phase == Done && r.ip == STATIC_IP
    decreases n
  {
    hide Minus, Plus;
    if n > 0 {
      StepsFrom(a, j);
      PlusOne(a, j);
      var now := Plus(a, j);
      if j < 200 {
        assert Tick(c, now) == c;
        Countdown(c, a, j + 1, n - 1);
      } else if c.retries < 6 {
        Countdown(Tick(c, now), now, 1, n - 1);
      } else {
        DoneStays(Tick(c, now), Plus(now, 1), n - 1);
      }
    }
  }

  lemma {:induction false} DoneStays(c: Client, now: U32, n: nat)
    requires c.phase == Done
    ensures Quiet(c, now, n) == c
    decreases n
  {
    hide Plus;
    if n > 0 { DoneStays(c, Plus(now, 1), n - 1); }
  }
}
