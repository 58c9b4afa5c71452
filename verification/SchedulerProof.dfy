// What every step of the scheduler keeps.
module SchedulerProof {
  import opened Basics
  import opened Scheduler

  // A slot is either wholly empty or holds the process of that number; slot 0 is the kernel.
  ghost predicate Slots(pcb: seq<Proc>) {
    && |pcb| == MAX
    && pcb[0].pid == 0 && pcb[0].ppid == 0 && (pcb[0].state == Running || pcb[0].state == Ready)
    && (forall i: nat | 1 <= i < MAX ::
          if pcb[i].pid == 0 then pcb[i] == EMPTY else pcb[i].pid == i && pcb[i].state != Created)
  }

  // The ready list holds exactly the READY processes, each once.
  ghost predicate QueueOk(s: Sys)
    requires |s.pcb| == MAX
  {
    && Distinct(s.q)
    && (forall i: nat | i < |s.q| :: s.q[i] < MAX)
    && (forall i: nat | i < MAX :: i in s.q <==> s.pcb[i].state == Ready)
  }

  ghost predicate NoneRunning(s: Sys)
    requires |s.pcb| == MAX
  {
    forall i: nat | i < MAX :: s.pcb[i].state != Running
  }

  ghost predicate OneRunning(s: Sys)
    requires |s.pcb| == MAX
  {
    s.current < MAX && forall i: nat | i < MAX :: s.pcb[i].state == Running <==> i == s.current
  }

  // A recorded parent is alive, and is not itself a child of its child.
  ghost predicate Parented(pcb: seq<Proc>, c: nat)
    requires |pcb| == MAX && c < MAX
  {
    var m := pcb[c].ppid;
    m != 0 ==> m < MAX && m != c && pcb[m].pid == m && pcb[m].state != Terminated && pcb[m].ppid != c
  }

  ghost predicate Family(pcb: seq<Proc>)
    requires |pcb| == MAX
  {
    forall c: nat | c < MAX :: Parented(pcb, c)
  }

  // c is a child of b that b's waitpid is about.
  ghost predicate Awaited(pcb: seq<Proc>, b: nat, c: nat)
    requires |pcb| == MAX && b < MAX && c < MAX
  {
    pcb[c].pid != 0 && pcb[c].ppid == b && (pcb[b].wait == ANY || pcb[b].wait == c)
  }

  // Every sleeper has something to wait for and nothing to collect: no wake-up was lost.
  ghost predicate Sleepers(pcb: seq<Proc>)
    requires |pcb| == MAX
  {
    forall b: nat | b < MAX && pcb[b].state == Blocked ::
      && (exists c: nat :: c < MAX && Awaited(pcb, b, c))
      && (forall c: nat | c < MAX && Awaited(pcb, b, c) :: pcb[c].state != Terminated)
  }

  ghost predicate SInv(s: Sys) {
    Slots(s.pcb) && QueueOk(s) && OneRunning(s) && Family(s.pcb) && Sleepers(s.pcb) && Sized(s)
  }

  // Between giving up the CPU and the next dispatch.
  ghost predicate Switching(s: Sys) {
    Slots(s.pcb) && QueueOk(s) && NoneRunning(s) && Family(s.pcb) && Sleepers(s.pcb) && Sized(s)
  }

  lemma BootInv()
    ensures SInv(Boot())
  {
  }

  // ---- dispatch ----

  // A change between READY and RUNNING concerns neither families nor sleepers.
  lemma AwakeChange(pcb: seq<Proc>, p: nat, st: PState)
    requires Slots(pcb) && Family(pcb) && Sleepers(pcb) && p < MAX
    requires pcb[p].state == Ready || pcb[p].state == Running
    requires st == Ready || st == Running
    ensures var r := pcb[p := pcb[p].(state := st)]; Slots(r) && Family(r) && Sleepers(r)
  {
    var r := pcb[p := pcb[p].(state := st)];
    forall c: nat | c < MAX ensures Parented(r, c) {
      assert Parented(pcb, c);
    }
    forall b: nat | b < MAX && r[b].state == Blocked ensures exists c: nat :: c < MAX && Awaited(r, b, c) {
      var c: nat :| c < MAX && Awaited(pcb, b, c);
      assert Awaited(r, b, c);
    }
    forall b: nat, c: nat | b < MAX && r[b].state == Blocked && c < MAX && Awaited(r, b, c)
      ensures r[c].state != Terminated
    {
      assert Awaited(pcb, b, c);
    }
  }

  // Dispatch takes exactly the head of the list.
  lemma DispatchHead(s: Sys)
    requires Switching(s)
    ensures s.q != []
    ensures var r := ScheduleNext(s);
            SInv(r) && r.current == s.q[0] && r.q == s.q[1..] && r.ticks == s.ticks
            && r.pcb == s.pcb[s.q[0] := s.pcb[s.q[0]].(state := Running)]
  {
    hide Family, Sleepers;
    assert 0 in s.q;
    var p := s.q[0];
    assert p in s.q && s.pcb[p].state == Ready;
    AwakeChange(s.pcb, p, Running);
    var r := ScheduleNext(s);
    assert r.pcb == s.pcb[p := s.pcb[p].(state := Running)];
    assert forall i: nat | i < |r.q| :: r.q[i] == s.q[i + 1];
    forall i: nat | i < MAX ensures i in r.q <==> r.pcb[i].state == Ready {
      if i in s.q && i != p {
        var j: nat :| j < |s.q| && s.q[j] == i;
        assert r.q[j - 1] == i;
      }
    }
  }

  lemma RequeueSwitching(s: Sys)
    requires SInv(s)
    ensures var r := Requeue(s);
            Switching(r) && r.q == s.q + [s.current] && r.ticks == s.ticks && r.current == s.current
  {
    hide Family, Sleepers;
    AwakeChange(s.pcb, s.current, Ready);
    var r := Requeue(s);
    assert s.current !in s.q;
    forall i: nat | i < MAX ensures i in r.q <==> r.pcb[i].state == Ready {
      assert i in r.q <==> i in s.q || i == s.current;
    }
  }

  lemma YieldInv(s: Sys)
    requires SInv(s)
    ensures SInv(Yield(s))
    ensures s.current != 0 ==> Yield(s).q == (s.q + [s.current])[1..] && Yield(s).current == (s.q + [s.current])[0]
  {
    hide Slots, Family, Sleepers, QueueOk, OneRunning, NoneRunning, ScheduleNext, Requeue;
    if s.current != 0 {
      RequeueSwitching(s);
      DispatchHead(Requeue(s));
    }
  }

  lemma PreemptInv(s: Sys)
    requires SInv(s)
    ensures SInv(PreemptTick(s))
    ensures s.ticks + 1 < QUANTUM || s.q == [] ==> PreemptTick(s).q == s.q && PreemptTick(s).current == s.current
    ensures s.ticks + 1 >= QUANTUM && s.q != [] ==>
              PreemptTick(s).q == s.q[1..] + [s.current] && PreemptTick(s).current == s.q[0]
  {
    hide Switching, ScheduleNext, Requeue, Slots, Family, Sleepers, QueueOk, OneRunning;
    var t := s.(ticks := s.ticks + 1);
    if t.ticks >= QUANTUM && s.q != [] {
      var u := t.(ticks := 0);
      SameTable(s, u);
      RequeueSwitching(u);
      DispatchHead(Requeue(u));
      assert (s.q + [s.current])[1..] == s.q[1..] + [s.current];
    } else {
      SameTable(s, t);
      SameTable(s, t.(ticks := 0));
    }
  }

  lemma SameTable(s: Sys, t: Sys)
    requires SInv(s) && t.pcb == s.pcb && t.q == s.q && t.current == s.current
    ensures SInv(t)
  {
  }

  // ---- new processes ----

  lemma LaunchInv(s: Sys, slot: nat, ppid: nat)
    requires SInv(s) && 1 <= slot < MAX && s.pcb[slot] == EMPTY
    requires ppid == 0 || (ppid < MAX && s.pcb[ppid].pid == ppid && s.pcb[ppid].state == Running)
    ensures SInv(Launch(s, slot, ppid)) && Launch(s, slot, ppid).q == s.q + [slot]
            && Launch(s, slot, ppid).current == s.current
  {
    var r := Launch(s, slot, ppid);
    assert slot !in s.q;
    forall c: nat | c < MAX ensures Parented(r.pcb, c) {
      assert Parented(s.pcb, c) && (ppid != 0 ==> Parented(s.pcb, ppid));
    }
    forall i: nat | i < MAX ensures i in r.q <==> r.pcb[i].state == Ready {
      assert i in r.q <==> i in s.q || i == slot;
    }
    forall b: nat | b < MAX && r.pcb[b].state == Blocked ensures exists c: nat :: c < MAX && Awaited(r.pcb, b, c) {
      var c: nat :| c < MAX && Awaited(s.pcb, b, c);
      assert Awaited(r.pcb, b, c);
    }
    forall b: nat, c: nat | b < MAX && r.pcb[b].state == Blocked && c < MAX && Awaited(r.pcb, b, c)
      ensures r.pcb[c].state != Terminated
    {
      if c != slot { assert Awaited(s.pcb, b, c); }
    }
  }

  ghost predicate FreeSlot(pcb: seq<Proc>) {
    |pcb| == MAX && exists i: nat :: 1 <= i < MAX && pcb[i] == EMPTY
  }

  // The search finds a free slot exactly when there is one.
  lemma {:induction false} AllocFinds(pcb: seq<Proc>, i: nat)
    requires Slots(pcb) && 1 <= i <= MAX
    ensures AllocSlot(pcb, i) < MAX <==> exists k: nat :: i <= k < MAX && pcb[k] == EMPTY
    ensures AllocSlot(pcb, i) < MAX ==> pcb[AllocSlot(pcb, i)] == EMPTY
    decreases MAX - i
  {
    if i < MAX {
      AllocFinds(pcb, i + 1);
      assert pcb[i].pid == 0 ==> pcb[i] == EMPTY;
    }
  }

  lemma HasSlot(pcb: seq<Proc>)
    requires |pcb| == MAX
    ensures FreeSlot(pcb) <==> exists k: nat :: 1 <= k < MAX && pcb[k] == EMPTY
  {
  }

  // A process is created exactly when a slot and a page can be had; it then stands READY at
  // the end of the list, in a slot that was free, and nothing else changes.
  lemma CreateInv(s: Sys, page: bool)
    requires SInv(s)
    ensures SInv(Create(s, page))
    ensures Added(s, Create(s, page), FreeSlot(s.pcb) && page, 0)
  {
    hide Family, Sleepers, QueueOk, OneRunning, Launch, AllocSlot, FreeSlot;
    AllocFinds(s.pcb, 1);
    HasSlot(s.pcb);
    var slot := AllocSlot(s.pcb, 1);
    if slot < MAX && page {
      LaunchInv(s, slot, 0);
      LaunchMakes(s, slot, 0);
    }
  }

  ghost predicate Added(s: Sys, r: Sys, made: bool, ppid: nat)
    requires |s.pcb| == MAX
  {
    if made then exists slot: nat :: Makes(s, r, slot, ppid) else r == s
  }

  ghost predicate Makes(s: Sys, r: Sys, slot: nat, ppid: nat)
    requires |s.pcb| == MAX
  {
    && 1 <= slot < MAX && s.pcb[slot] == EMPTY
    && r == s.(pcb := s.pcb[slot := Proc(slot, Ready, ppid, 0, 0, true)], q := s.q + [slot])
  }

  lemma LaunchMakes(s: Sys, slot: nat, ppid: nat)
    requires Sized(s) && 1 <= slot < MAX && s.pcb[slot] == EMPTY
    ensures Makes(s, Launch(s, slot, ppid), slot, ppid)
  {
  }

  // So for fork, whose child names the caller as its parent; slot 0 cannot fork.
  lemma ForkInv(s: Sys, memory: bool)
    requires SInv(s)
    ensures SInv(Fork(s, memory))
    ensures Added(s, Fork(s, memory), FreeSlot(s.pcb) && memory && s.current != 0 && s.pcb[s.current].kstack, s.current)
  {
    hide Family, Sleepers, QueueOk, Launch, AllocSlot, FreeSlot;
    AllocFinds(s.pcb, 1);
    HasSlot(s.pcb);
    var slot := AllocSlot(s.pcb, 1);
    if slot < MAX && s.current != 0 {
      assert s.pcb[s.current].pid == s.current;
      LaunchInv(s, slot, s.current);
      LaunchMakes(s, slot, s.current);
      assert s.pcb[slot := EMPTY] == s.pcb;
    }
  }

  // ---- exit ----

  // Only the parent can be waiting for p.
  lemma {:induction false} WakeForm(s: Sys, p: nat, n: nat)
    requires Sized(s) && Slots(s.pcb) && 1 <= p < MAX && 1 <= n <= MAX
    ensures var b := s.pcb[p].ppid;
            Wake(s, p, n) == if 1 <= b < n && WaitsFor(s, b, p) then Enqueue(SetState(s, b, Ready), b) else s
  {
    if n > 1 { WakeForm(s, p, n - 1); }
  }

  lemma {:induction false} OrphanForm(s: Sys, p: nat, n: nat)
    requires Sized(s) && p < MAX && 1 <= n <= MAX
    ensures var r := Orphan(s, p, n);
            && (forall i: nat | n <= i < MAX :: r.pcb[i] == s.pcb[i]) && r.pcb[0] == s.pcb[0]
            && (forall i: nat | 1 <= i < n :: r.pcb[i] ==
                  if s.pcb[i].pid != 0 && s.pcb[i].ppid == p && s.pcb[i].state != Created
                  then (if s.pcb[i].state == Terminated then EMPTY else s.pcb[i].(ppid := 0)) else s.pcb[i])
  {
    if n > 1 { OrphanForm(s, p, n - 1); }
  }

  // The table once p has been marked, its parent woken and its children orphaned.
  ghost function Gone(pcb: seq<Proc>, p: nat, code: int): (r: seq<Proc>)
    requires |pcb| == MAX && p < MAX
    ensures |r| == MAX
  {
    seq(MAX, i requires 0 <= i < MAX =>
      if i == p then pcb[p].(code := code, state := Terminated)
      else if i >= 1 && pcb[i].pid != 0 && pcb[i].ppid == p then
        (if pcb[i].state == Terminated then EMPTY else pcb[i].(ppid := 0))
      else if i == pcb[p].ppid && i >= 1 && pcb[i].state == Blocked && (pcb[i].wait == ANY || pcb[i].wait == p) then
        pcb[i].(state := Ready)
      else pcb[i])
  }

  // Does the exit of p wake its parent?
  ghost predicate Wakes(pcb: seq<Proc>, p: nat)
    requires |pcb| == MAX && p < MAX
  {
    var b := pcb[p].ppid;
    1 <= b < MAX && pcb[b].state == Blocked && (pcb[b].wait == ANY || pcb[b].wait == p)
  }

  lemma Kin(pcb: seq<Proc>, p: nat)
    requires Slots(pcb) && Family(pcb) && 1 <= p < MAX && pcb[p].pid != 0
    ensures var b := pcb[p].ppid; b < MAX && b != p && (b != 0 ==> pcb[b].pid == b && pcb[b].ppid != p)
  {
    assert Parented(pcb, p);
  }

  lemma ExitTable(s: Sys, p: nat, code: int)
    requires SInv(s) && CanExit(s, p)
    ensures var t := Orphan(Wake(MarkExit(s, p, code), p, MAX), p, MAX);
            && t.pcb == Gone(s.pcb, p, code) && t.current == s.current && t.ticks == s.ticks
            && t.q == if Wakes(s.pcb, p) then s.q + [s.pcb[p].ppid] else s.q
  {
    hide QueueOk, Sleepers, Family, OneRunning, Wake, Orphan;
    var a := MarkExit(s, p, code);
    assert Slots(a.pcb);
    Kin(s.pcb, p);
    WakeForm(a, p, MAX);
    var b := Wake(a, p, MAX);
    OrphanForm(b, p, MAX);
    var t := Orphan(b, p, MAX);
    assert t.pcb == Gone(s.pcb, p, code);
  }

  // The exit keeps families and sleepers right: the one sleeper it could deceive is woken.
  lemma GoneKeeps(pcb: seq<Proc>, p: nat, code: int)
    requires Slots(pcb) && Family(pcb) && Sleepers(pcb) && 1 <= p < MAX && pcb[p].pid != 0
    ensures Slots(Gone(pcb, p, code)) && Family(Gone(pcb, p, code)) && Sleepers(Gone(pcb, p, code))
  {
    hide Sleepers;
    Kin(pcb, p);
    GoneSleepers(pcb, p, code);
    forall c: nat | c < MAX ensures Parented(Gone(pcb, p, code), c) {
      assert Parented(pcb, c);
    }
  }

  lemma GoneSleepers(pcb: seq<Proc>, p: nat, code: int)
    requires Slots(pcb) && Family(pcb) && Sleepers(pcb) && 1 <= p < MAX && pcb[p].pid != 0
    ensures Sleepers(Gone(pcb, p, code))
  {
    var r := Gone(pcb, p, code);
    Kin(pcb, p);
    forall b: nat | b < MAX && r[b].state == Blocked ensures exists c: nat :: c < MAX && Awaited(r, b, c) {
      var c: nat :| c < MAX && Awaited(pcb, b, c);
      assert Awaited(r, b, c);
    }
    forall b: nat, c: nat | b < MAX && r[b].state == Blocked && c < MAX && Awaited(r, b, c)
      ensures r[c].state != Terminated
    {
      assert Awaited(pcb, b, c);
    }
  }

  // The ready list once the parent, if it slept, has been woken.
  lemma GoneQueue(s: Sys, p: nat, code: int)
    requires Slots(s.pcb) && Family(s.pcb) && QueueOk(s) && 1 <= p < MAX && s.pcb[p].pid != 0 && s.pcb[p].state != Ready
    ensures QueueOk(s.(pcb := Gone(s.pcb, p, code), q := if Wakes(s.pcb, p) then s.q + [s.pcb[p].ppid] else s.q))
  {
    hide Family, Gone;
    var b := s.pcb[p].ppid;
    var q := if Wakes(s.pcb, p) then s.q + [b] else s.q;
    Kin(s.pcb, p);
    assert Wakes(s.pcb, p) ==> b !in s.q;
    forall i: nat | i < MAX ensures i in q <==> Gone(s.pcb, p, code)[i].state == Ready {
      GoneIsReady(s.pcb, p, code, i);
      assert i in q <==> i in s.q || (Wakes(s.pcb, p) && i == b);
    }
  }

  // Who is READY after the exit: who was, and the parent if it is woken.
  lemma GoneIsReady(pcb: seq<Proc>, p: nat, code: int, i: nat)
    requires Slots(pcb) && 1 <= p < MAX && i < MAX && pcb[p].state != Ready
    requires var b := pcb[p].ppid; b < MAX && b != p && (b != 0 ==> pcb[b].ppid != p)
    ensures Gone(pcb, p, code)[i].state == Ready <==> pcb[i].state == Ready || (Wakes(pcb, p) && i == pcb[p].ppid)
  {
  }

  lemma NoExit(s: Sys, p: nat, code: int)
    requires Sized(s) && !CanExit(s, p)
    ensures Exit(s, p, code) == s
  {
  }

  lemma GoneStates(pcb: seq<Proc>, p: nat, code: int)
    requires Slots(pcb) && 1 <= p < MAX
    ensures forall i: nat | i < MAX ::
              Gone(pcb, p, code)[i].state == Running <==>
                i != p && pcb[i].state == Running
                  && !(i >= 1 && pcb[i].ppid == p && pcb[i].pid != 0 && pcb[i].state == Terminated)
    ensures Gone(pcb, p, code)[p] == pcb[p].(code := code, state := Terminated)
  {
  }

  lemma GoneSwitching(s: Sys, p: nat, code: int)
    requires SInv(s) && CanExit(s, p) && p == s.current
    ensures Switching(Orphan(Wake(MarkExit(s, p, code), p, MAX), p, MAX))
  {
    hide Sleepers, Family, QueueOk, Gone, Slots;
    ExitTable(s, p, code);
    GoneKeeps(s.pcb, p, code);
    GoneQueue(s, p, code);
    GoneStates(s.pcb, p, code);
  }

  lemma ExitSelf(s: Sys, p: nat, code: int)
    requires SInv(s) && CanExit(s, p) && p == s.current
    ensures SInv(Exit(s, p, code))
    ensures s.q <= [Exit(s, p, code).current] + Exit(s, p, code).q
  {
    hide Sleepers, Family, QueueOk, Gone, Slots;
    ExitTable(s, p, code);
    GoneSwitching(s, p, code);
    DispatchHead(Orphan(Wake(MarkExit(s, p, code), p, MAX), p, MAX));
  }

  // Clearing the slot of a zombie: it has no children left and deceives no sleeper.
  lemma EraseKeeps(pcb: seq<Proc>, z: nat)
    requires Slots(pcb) && Family(pcb) && Sleepers(pcb) && 1 <= z < MAX && pcb[z].state == Terminated
    ensures var r := pcb[z := EMPTY]; Slots(r) && Family(r) && Sleepers(r)
  {
    var r := pcb[z := EMPTY];
    forall c: nat | c < MAX ensures Parented(r, c) {
      assert Parented(pcb, c);
    }
    forall b: nat | b < MAX && r[b].state == Blocked ensures exists c: nat :: c < MAX && Awaited(r, b, c) {
      var c: nat :| c < MAX && Awaited(pcb, b, c);
      assert Awaited(r, b, c);
    }
    forall b: nat, c: nat | b < MAX && r[b].state == Blocked && c < MAX && Awaited(r, b, c)
      ensures r[c].state != Terminated
    {
      assert Awaited(pcb, b, c);
    }
  }

  lemma DropStackKeeps(pcb: seq<Proc>, z: nat)
    requires Slots(pcb) && Family(pcb) && Sleepers(pcb) && 1 <= z < MAX && pcb[z].pid != 0
    ensures var r := pcb[z := pcb[z].(kstack := false)]; Slots(r) && Family(r) && Sleepers(r)
  {
    var r := pcb[z := pcb[z].(kstack := false)];
    forall c: nat | c < MAX ensures Parented(r, c) {
      assert Parented(pcb, c);
    }
    forall b: nat | b < MAX && r[b].state == Blocked ensures exists c: nat :: c < MAX && Awaited(r, b, c) {
      var c: nat :| c < MAX && Awaited(pcb, b, c);
      assert Awaited(r, b, c);
    }
    forall b: nat, c: nat | b < MAX && r[b].state == Blocked && c < MAX && Awaited(r, b, c)
      ensures r[c].state != Terminated
    {
      assert Awaited(pcb, b, c);
    }
  }

  // Only the slot changes, and it was and is neither READY nor RUNNING.
  lemma SlotKeeps(s: Sys, z: nat, x: Proc)
    requires Sized(s) && QueueOk(s) && OneRunning(s) && z < MAX
    requires s.pcb[z].state == Terminated && (x.state == Terminated || x.state == Created)
    ensures QueueOk(s.(pcb := s.pcb[z := x])) && OneRunning(s.(pcb := s.pcb[z := x]))
  {
  }

  lemma NotListed(s: Sys, p: nat)
    requires |s.pcb| == MAX && QueueOk(s) && p < MAX && s.pcb[p].state != Ready
    ensures p !in s.q
  {
  }

  lemma ExitOther(s: Sys, p: nat, code: int)
    requires SInv(s) && CanExit(s, p) && p != s.current && s.pcb[p].state != Ready
    ensures SInv(Exit(s, p, code)) && s.q <= Exit(s, p, code).q && Exit(s, p, code).current == s.current
  {
    hide Sleepers, Family, QueueOk, Gone, Slots;
    ExitTable(s, p, code);
    GoneKeeps(s.pcb, p, code);
    GoneQueue(s, p, code);
    var t := Orphan(Wake(MarkExit(s, p, code), p, MAX), p, MAX);
    GoneStates(s.pcb, p, code);
    assert OneRunning(t);
    assert Sized(t);
    EraseKeeps(t.pcb, p);
    DropStackKeeps(t.pcb, p);
    SlotKeeps(t, p, EMPTY);
    SlotKeeps(t, p, t.pcb[p].(kstack := false));
    assert p !in t.q by { NotListed(t, p); }
    CutAbsent(t.q, p);
  }

  // Ending a process from outside is safe exactly when that process is not READY: a READY
  // one stays linked although it is no longer READY.
  lemma ExitSafe(s: Sys, p: nat, code: int)
    requires SInv(s) && CanExit(s, p)
    ensures SInv(Exit(s, p, code)) <==> s.pcb[p].state != Ready
  {
    hide Sleepers, Family, Slots, Gone;
    if s.pcb[p].state == Ready {
      ExitTable(s, p, code);
      GoneStates(s.pcb, p, code) by { assert Slots(s.pcb); }
      var r := Exit(s, p, code);
      assert p in s.q && p in r.q && r.pcb[p].state != Ready;
    } else if p == s.current {
      ExitSelf(s, p, code);
    } else {
      ExitOther(s, p, code);
    }
  }

  lemma {:induction false} CutAbsent(q: seq<nat>, p: nat)
    requires p !in q
    ensures Cut(q, p) == q
  {
    if q != [] { CutAbsent(q[1..], p); }
  }

  lemma {:induction false} CutAt(q: seq<nat>, p: nat, k: nat)
    requires Distinct(q) && k < |q| && q[k] == p
    ensures Cut(q, p) == q[..k + 1]
  {
    if k > 0 {
      assert q[0] != q[k];
      CutAt(q[1..], p, k - 1);
    }
  }

  // What goes wrong: killing a READY orphan clears the link through which everyone behind it
  // was reached.  They stay READY and are no longer on the list.
  lemma KilledOrphanCuts(s: Sys, p: nat, code: int, k: nat, j: nat)
    requires SInv(s) && CanExit(s, p) && s.pcb[p].ppid == 0 && k < j < |s.q| && s.q[k] == p
    ensures var r := Exit(s, p, code); r.pcb[s.q[j]].state == Ready && s.q[j] !in r.q
  {
    hide Sleepers, Family, Gone, Slots, Wake, Orphan, Cut, ScheduleNext, QueueOk, Wakes;
    var x := s.q[j];
    Listed(s, j);
    Listed(s, k);
    ExitTable(s, p, code);
    ListDistinct(s);
    CutAt(s.q, p, k);
    BehindCut(s.q, k, j);
    GoneReady(s.pcb, p, code, x);
    NobodyWakes(s.pcb, p);
    GoneSelf(s.pcb, p, code);
  }

  lemma Listed(s: Sys, j: nat)
    requires |s.pcb| == MAX && QueueOk(s) && j < |s.q|
    ensures s.q[j] < MAX && s.pcb[s.q[j]].state == Ready
  {
    assert s.q[j] in s.q;
  }

  lemma ListDistinct(s: Sys)
    requires |s.pcb| == MAX && QueueOk(s)
    ensures Distinct(s.q)
  {
  }

  lemma NobodyWakes(pcb: seq<Proc>, p: nat)
    requires |pcb| == MAX && p < MAX && pcb[p].ppid == 0
    ensures !Wakes(pcb, p)
  {
  }

  lemma BehindCut(q: seq<nat>, k: nat, j: nat)
    requires Distinct(q) && k < j < |q|
    ensures q[j] !in q[..k + 1] && q[j] != q[k]
  {
  }

  lemma GoneReady(pcb: seq<Proc>, p: nat, code: int, x: nat)
    requires |pcb| == MAX && p < MAX && x < MAX && x != p && pcb[x].state == Ready
    ensures Gone(pcb, p, code)[x].state == Ready
  {
  }

  lemma GoneSelf(pcb: seq<Proc>, p: nat, code: int)
    requires |pcb| == MAX && p < MAX
    ensures Gone(pcb, p, code)[p] == pcb[p].(code := code, state := Terminated)
  {
  }

  // The slot of an orphan that exits by itself is not cleared; OrphanStuck shows it never is.
  lemma OrphanSlot(s: Sys, p: nat, code: int)
    requires SInv(s) && CanExit(s, p) && s.pcb[p].ppid == 0
    ensures Exit(s, p, code).pcb[p] == EMPTY <==> p != s.current
  {
    hide Sleepers, Family, QueueOk, ScheduleNext, Gone;
    ExitTable(s, p, code);
    GoneStates(s.pcb, p, code);
    if p == s.current {
      GoneSwitching(s, p, code);
      var t := Orphan(Wake(MarkExit(s, p, code), p, MAX), p, MAX);
      DispatchHead(t);
      HeadReady(t);
    }
  }

  lemma HeadReady(s: Sys)
    requires Slots(s.pcb) && QueueOk(s) && s.q != []
    ensures s.q[0] < MAX && s.pcb[s.q[0]].state == Ready
  {
    assert s.q[0] in s.q;
  }

  // ---- waitpid ----

  // process_wait_scan finds the lowest matching zombie, and otherwise says whether there is
  // any matching child at all.
  lemma {:induction false} ScanMeans(s: Sys, target: int, i: nat, have: bool)
    requires Sized(s) && 1 <= i <= MAX
    ensures match Scan(s, target, i, have)
            case Zombie(z, code) =>
              && i <= z < MAX && Mine(s, s.current, target, z) && s.pcb[z].state == Terminated && code == s.pcb[z].code
              && forall c: nat | i <= c < z && Mine(s, s.current, target, c) :: s.pcb[c].state != Terminated
            case NoneYet =>
              && (have || exists c: nat :: i <= c < MAX && Mine(s, s.current, target, c))
              && forall c: nat | i <= c < MAX && Mine(s, s.current, target, c) :: s.pcb[c].state != Terminated
            case NoChild => !have && forall c: nat | i <= c < MAX :: !Mine(s, s.current, target, c)
    decreases MAX - i
  {
    if i < MAX {
      ScanMeans(s, target, i + 1, have || Mine(s, s.current, target, i));
    }
  }

  // Falling asleep after a scan that found a living child and no zombie.
  lemma BlockSwitching(s: Sys, target: int)
    requires SInv(s) && s.current != 0 && Scan(s, target, 1, false) == NoneYet
    ensures Switching(s.(pcb := s.pcb[s.current := s.pcb[s.current].(wait := target, state := Blocked)]))
  {
    hide Sleepers, Family, Scan;
    var me := s.current;
    assert s.pcb[me].state == Running && me !in s.q;
    BlockFamily(s.pcb, me, target);
    BlockSleepers(s, target);
  }

  lemma BlockFamily(pcb: seq<Proc>, me: nat, target: int)
    requires Slots(pcb) && Family(pcb) && 1 <= me < MAX && pcb[me].pid != 0 && pcb[me].state == Running
    ensures var r := pcb[me := pcb[me].(wait := target, state := Blocked)]; Slots(r) && Family(r)
  {
    var r := pcb[me := pcb[me].(wait := target, state := Blocked)];
    forall c: nat | c < MAX ensures Parented(r, c) {
      assert Parented(pcb, c);
    }
  }

  lemma BlockSleepers(s: Sys, target: int)
    requires Sized(s) && Slots(s.pcb) && Sleepers(s.pcb) && s.current != 0 && s.pcb[s.current].state == Running
    requires Scan(s, target, 1, false) == NoneYet
    ensures Sleepers(s.pcb[s.current := s.pcb[s.current].(wait := target, state := Blocked)])
  {
    hide Scan;
    var me := s.current;
    var r := s.pcb[me := s.pcb[me].(wait := target, state := Blocked)];
    ScanMeans(s, target, 1, false);
    forall b: nat | b < MAX && r[b].state == Blocked ensures exists c: nat :: c < MAX && Awaited(r, b, c) {
      if b == me {
        var c: nat :| 1 <= c < MAX && Mine(s, me, target, c);
        assert Awaited(r, b, c);
      } else {
        var c: nat :| c < MAX && Awaited(s.pcb, b, c);
        assert Awaited(r, b, c);
      }
    }
    forall b: nat, c: nat | b < MAX && r[b].state == Blocked && c < MAX && Awaited(r, b, c)
      ensures r[c].state != Terminated
    {
      if b == me {
        assert c != 0 ==> Mine(s, me, target, c);
      } else {
        assert Awaited(s.pcb, b, c);
      }
    }
  }

  lemma WaitInv(s: Sys, target: int)
    requires SInv(s)
    ensures SInv(Waitpid(s, target).s)
    ensures var w := Waitpid(s, target);
            if w.result == Sleeping then s.q != [] && w.s.current == s.q[0] && w.s.q == s.q[1..]
            else w.s.current == s.current && w.s.q == s.q
  {
    hide Sleepers, Family, QueueOk, ScheduleNext, Scan;
    if s.current != 0 && target != 0 && target >= ANY {
      ScanMeans(s, target, 1, false);
      match Scan(s, target, 1, false)
      case NoChild =>
      case Zombie(z, code) =>
        EraseKeeps(s.pcb, z);
        SlotKeeps(s, z, EMPTY);
      case NoneYet =>
        BlockSwitching(s, target);
        var t := s.(pcb := s.pcb[s.current := s.pcb[s.current].(wait := target, state := Blocked)]);
        DispatchHead(t);
        assert Block(s, target) == ScheduleNext(t);
    }
  }
}
