// The DHCP client as it runs: static variables updated by each reply and each tick.
module DhcpKernel {
  import opened SeqNum
  import opened Dhcp

  class DhcpClient {
    var phase: Phase
    var ip: nat
    var gateway: nat
    var mask: nat
    var ciaddr: nat
    var offer: nat
    var timed: bool
    var t1: U32
    var t2: U32
    var expire: U32
    var retries: nat
    var wait: nat
    var last: U32

    function View(): Client
      reads this
    {
      Client(phase, ip, gateway, mask, ciaddr, offer, timed, t1, t2, expire, retries, wait, last)
    }

    // dhcp_start
    constructor (now: U32)
      ensures View() == Start(now)
    {
      phase, ip, gateway, mask, ciaddr, offer, timed := WaitOffer, 0, 0, 0, 0, 0, false;
      t1, t2, expire, retries, wait, last := 0, 0, 0, 0, RETRY_BASE, now;
    }

    // dhcp_arm_lease
    method Arm(leaseSecs: nat, t1Secs: nat, t2Secs: nat, now: U32)
      modifies this`timed, this`t1, this`t2, this`expire
      ensures forall r: Reply | r.lease == leaseSecs && r.t1 == t1Secs && r.t2 == t2Secs ::
                View() == ArmLease(old(View()), r, now)
    {
      if leaseSecs == 0 {
        timed := false;
        return;
      }
      var lt := ToTicks(leaseSecs);
      if lt == 0 {
        lt := 1;
      }
      var r1 := if t1Secs != 0 then ToTicks(t1Secs) else lt / 2;
      var r2 := if t2Secs != 0 then ToTicks(t2Secs) else lt - lt / 8;
      if r2 > lt {
        r2 := lt;
      }
      if r2 == 0 {
        r2 := 1;
      }
      if r1 > r2 {
        r1 := r2;
      }
      if r1 == 0 {
        r1 := 1;
      }
      assert Terms(r1, r2, lt) == LeaseTerms(leaseSecs, t1Secs, t2Secs);
      t1, t2, expire := Plus(now, r1), Plus(now, r2), Plus(now, lt);
      timed := true;
    }

    // dhcp_lease_expired, and what a NAK does
    method Drop(now: U32)
      modifies this
      ensures View() == Restart(old(View()), now)
    {
      ip, gateway, mask, ciaddr, offer, timed, retries := 0, 0, 0, 0, 0, false, 0;
      phase, wait, last := WaitOffer, RETRY_BASE, now;
    }

    // dhcp_handle, behind its checks on the message
    method OnReply(r: Reply, now: U32)
      modifies this
      ensures View() == Handle(old(View()), r, now)
    {
      if r.kind == NAK {
        Drop(now);
      } else if r.kind == OFFER && phase == WaitOffer {
        offer, phase, last, wait := r.yiaddr, WaitAck, now, RETRY_BASE;
      } else if r.kind == ACK && (phase == WaitAck || phase == Renewing || phase == Rebinding) {
        offer, ciaddr, ip, gateway, mask := r.yiaddr, r.yiaddr, r.yiaddr, r.gateway, r.mask;
        Arm(r.lease, r.t1, r.t2, now);
        phase := if timed then Bound else Done;
      }
    }

    // The switch at the head of dhcp_tick
    method LeasePart(now: U32)
      modifies this
      ensures View() == LeaseTick(old(View()), now)
    {
      hide Diff, Minus, Backoff;
      match phase {
        case Bound =>
          if Diff(now, expire) >= 0 {
            Drop(now);
          } else if Diff(now, t1) >= 0 {
            phase, retries, wait, last := Renewing, 0, RETRY_BASE, now;
          }
        case Renewing =>
          if Diff(now, expire) >= 0 {
            Drop(now);
          } else if Diff(now, t2) >= 0 {
            phase, retries, wait, last := Rebinding, 0, RETRY_BASE, now;
          } else if wait != 0 && Minus(now, last) >= wait * TICKS_PER_SEC {
            wait, last := Backoff(wait), now;
          }
        case Rebinding =>
          if Diff(now, expire) >= 0 {
            Drop(now);
          } else if wait != 0 && Minus(now, last) >= wait * TICKS_PER_SEC {
            wait, last := Backoff(wait), now;
          }
        case _ =>
      }
    }

    // Its tail
    method RetryPart(now: U32)
      modifies this
      ensures View() == RetryTick(old(View()), now)
    {
      hide Minus;
      if (phase == WaitOffer || phase == WaitAck) && wait != 0 && Minus(now, last) >= wait * TICKS_PER_SEC {
        retries := retries + 1;
        if retries > 6 {
          wait, ip, gateway, mask, phase, timed := 0, STATIC_IP, STATIC_GW, STATIC_MASK, Done, false;
        } else {
          phase, wait, last := WaitOffer, RETRY_BASE, now;
        }
      }
    }

    // dhcp_tick
    method OnTick(now: U32)
      modifies this
      ensures View() == Tick(old(View()), now)
    {
      LeasePart(now);
      RetryPart(now);
    }
  }
}
