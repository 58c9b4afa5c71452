// kernel/process.c in its own form: a table of slots, a singly linked ready list threaded
// through it, and the operations that update them in place.
module SchedulerKernel {
  import opened Basics
  import opened Scheduler
  import opened SchedulerProof

  const NULL: int := -1

  ghost function After(q: seq<nat>, i: nat): int
    requires i < |q|
  {
    if i + 1 < |q| then q[i + 1] else NULL
  }

  // The links spell out q from head to tail.
  ghost predicate Linked(q: seq<nat>, link: seq<int>, head: int, tail: int) {
    && |link| == MAX && Distinct(q)
    && (forall i: nat | i < |q| :: q[i] < MAX)
    && head == (if q == [] then NULL else q[0])
    && tail == (if q == [] then NULL else q[|q| - 1])
    && (forall i: nat | i < |q| :: link[q[i]] == After(q, i))
  }

  lemma LinkAppend(q: seq<nat>, link: seq<int>, head: int, tail: int, p: nat)
    requires Linked(q, link, head, tail) && p < MAX && p !in q
    ensures var l := link[p := NULL];
            if tail != NULL then Linked(q + [p], l[tail := p], head, p) else Linked(q + [p], l, p, p)
  {
  }

  lemma LinkPop(q: seq<nat>, link: seq<int>, head: int, tail: int)
    requires Linked(q, link, head, tail) && q != []
    ensures Linked(q[1..], link[q[0] := NULL], link[q[0]], if tail == q[0] then NULL else tail)
  {
    var r, l := q[1..], link[q[0] := NULL];
    assert tail == q[0] <==> |q| == 1;
    forall i: nat | i < |r| ensures l[r[i]] == After(r, i) {
      assert q[i + 1] == r[i] && q[0] != q[i + 1];
      assert link[q[i + 1]] == After(q, i + 1);
    }
  }

  lemma LinkFrame(q: seq<nat>, link: seq<int>, head: int, tail: int, p: nat, x: int)
    requires Linked(q, link, head, tail) && p < MAX && p !in q
    ensures Linked(q, link[p := x], head, tail)
  {
  }

  class Processes {
    const pcb: array<Proc>
    const link: array<int>
    var head: int
    var tail: int
    var current: nat
    var ticks: nat
    ghost var q: seq<nat>

    ghost predicate Valid()
      reads this, pcb, link
    {
      && pcb.Length == MAX && link.Length == MAX && current < MAX
      && Linked(q, link[..], head, tail)
    }

    ghost function View(): (s: Sys)
      requires Valid()
      reads this, pcb, link
      ensures Sized(s)
    {
      Sys(pcb[..], q, current, ticks)
    }

    // process_init
    constructor ()
      ensures Valid() && View() == Boot()
    {
      pcb := new Proc[MAX](i => if i == 0 then Proc(0, Running, 0, 0, 0, true) else EMPTY);
      link := new int[MAX](i => NULL);
      head, tail, current, ticks, q := NULL, NULL, 0, 0, [];
      new;
      assert pcb[..] == Boot().pcb;
    }

    // ready_enqueue
    method ReadyEnqueue(p: nat)
      requires Valid() && p < MAX && p !in q
      modifies this`head, this`tail, this`q, link
      ensures Valid() && View() == Enqueue(old(View()), p)
    {
      LinkAppend(q, link[..], head, tail, p);
      link[p] := NULL;
      if tail != NULL {
        link[tail] := p;
      } else {
        head := p;
      }
      tail := p;
      q := q + [p];
    }

    method SetProcState(p: nat, st: PState)
      requires Valid() && p < MAX
      modifies pcb
      ensures Valid() && View() == SetState(old(View()), p, st)
    {
      pcb[p] := pcb[p].(state := st);
      assert pcb[..] == old(pcb[..])[p := old(pcb[p]).(state := st)];
    }

    // pick_next
    method Pick() returns (next: int)
      requires Valid()
      modifies this`head, this`tail, this`q, link, pcb
      ensures Valid() && View() == PickNext(old(View())).s
      ensures next == match PickNext(old(View())).next case Some(p) => p case None => NULL
    {
      ghost var was := View();
      next := NULL;
      while head != NULL
        invariant Valid() && PickNext(View()) == PickNext(was)
        decreases |q|
      {
        ghost var s := View();
        var p := head;
        LinkPop(q, link[..], head, tail);
        head := link[p];
        if tail == p {
          tail := NULL;
        }
        link[p] := NULL;
        q := q[1..];
        assert View() == s.(q := s.q[1..]);
        if pcb[p].state == Ready {
          next := p;
          return;
        }
        if pcb[p].state == Terminated {
          pcb[p] := pcb[p].(kstack := false);
          assert pcb[..] == s.pcb[p := s.pcb[p].(kstack := false)];
        }
      }
    }

    // schedule_next
    method Schedule()
      requires Valid()
      modifies this`head, this`tail, this`q, this`current, link, pcb
      ensures Valid() && View() == ScheduleNext(old(View()))
    {
      hide Linked, PickNext;
      var next := Pick();
      if next == NULL {
        next := 0;
      }
      if next == current {
        if pcb[next].state == Ready {
          SetProcState(next, Running);
        }
        return;
      }
      current := next;
      SetProcState(next, Running);
    }

    // The common start of sched_yield and sched_preempt_tick.
    method RequeueCurrent()
      requires Valid() && (pcb[current].state == Running ==> current !in q)
      modifies this`head, this`tail, this`q, link, pcb
      ensures Valid() && View() == Requeue(old(View()))
    {
      if pcb[current].state == Running {
        SetProcState(current, Ready);
        ReadyEnqueue(current);
      }
    }

    // sched_yield
    method YieldCpu()
      requires Valid() && (pcb[current].state == Running ==> current !in q)
      modifies this`head, this`tail, this`q, this`current, link, pcb
      ensures Valid() && View() == Yield(old(View()))
    {
      if current == 0 {
        return;
      }
      RequeueCurrent();
      Schedule();
    }

    // sched_preempt_tick
    method OnTick()
      requires Valid() && (pcb[current].state == Running ==> current !in q)
      modifies this, link, pcb
      ensures Valid() && View() == PreemptTick(old(View()))
    {
      ticks := ticks + 1;
      if ticks < QUANTUM {
        return;
      }
      ticks := 0;
      if head == NULL {
        return;
      }
      RequeueCurrent();
      Schedule();
    }

    // process_alloc_slot
    method AllocateSlot() returns (slot: nat)
      requires Valid()
      ensures slot == AllocSlot(pcb[..], 1)
    {
      slot := 1;
      while slot < MAX
        invariant 1 <= slot <= MAX
        invariant AllocSlot(pcb[..], 1) == AllocSlot(pcb[..], slot)
      {
        if pcb[slot].state == Created && !pcb[slot].kstack && pcb[slot].pid == 0 {
          return;
        }
        slot := slot + 1;
      }
    }

    method LaunchAt(slot: nat, ppid: nat)
      requires Valid() && slot < MAX && slot !in q
      modifies this`head, this`tail, this`q, link, pcb
      ensures Valid() && View() == Launch(old(View()), slot, ppid)
    {
      pcb[slot] := Proc(slot, Ready, ppid, 0, 0, true);
      assert pcb[..] == old(pcb[..])[slot := Proc(slot, Ready, ppid, 0, 0, true)];
      ReadyEnqueue(slot);
    }

    // create_process and create_user_process
    method CreateProcess(page: bool) returns (slot: int)
      requires Valid() && SInv(View())
      modifies this`head, this`tail, this`q, link, pcb
      ensures Valid() && View() == Create(old(View()), page) && SInv(View())
      ensures slot == NULL <==> AllocSlot(old(pcb[..]), 1) == MAX || !page
    {
      CreateInv(View(), page);
      var i := AllocateSlot();
      if i == MAX || !page {
        return NULL;
      }
      assert i !in q;
      LaunchAt(i, 0);
      return i;
    }

    // process_fork_kernel and process_fork_user
    method ForkProcess(memory: bool) returns (slot: int)
      requires Valid() && SInv(View())
      modifies this`head, this`tail, this`q, link, pcb
      ensures Valid() && View() == Fork(old(View()), memory) && SInv(View())
    {
      ForkInv(View(), memory);
      if current == 0 || !pcb[current].kstack {
        return NULL;
      }
      var i := AllocateSlot();
      if i == MAX {
        return NULL;
      }
      assert i !in q;
      if !memory {
        ClearSlot(i);
        return NULL;
      }
      LaunchAt(i, pcb[current].pid);
      return i;
    }

    // process_reap_slot, and the other places that zero a whole slot
    method ClearSlot(p: nat)
      requires Valid() && p < MAX && p !in q
      modifies pcb, link
      ensures Valid() && View() == old(View()).(pcb := old(pcb[..])[p := EMPTY])
    {
      LinkFrame(q, link[..], head, tail, p, NULL);
      pcb[p] := EMPTY;
      link[p] := NULL;
      assert pcb[..] == old(pcb[..])[p := EMPTY];
      assert link[..] == old(link[..])[p := NULL];
    }

    // exit_process_code, first loop
    method WakeWaiters(p: nat)
      requires Valid() && 1 <= p < MAX && Slots(pcb[..])
      requires forall i: nat | i < MAX && pcb[i].state == Blocked :: i !in q
      modifies this`head, this`tail, this`q, link, pcb
      ensures Valid() && View() == Wake(old(View()), p, MAX)
    {
      hide Linked;
      ghost var was := View();
      var i := 1;
      while i < MAX
        invariant 1 <= i <= MAX
        invariant Valid() && View() == Wake(was, p, i)
      {
        WakeUntouched(was, p, i);
        if pcb[i].state == Blocked && pcb[i].pid != 0 && (pcb[i].wait == ANY || pcb[i].wait == p)
          && pcb[p].ppid == pcb[i].pid {
          assert was.pcb[i].state == Blocked;
          SetProcState(i, Ready);
          ReadyEnqueue(i);
        }
        i := i + 1;
      }
    }

    method SetParent(p: nat, ppid: nat)
      requires Valid() && p < MAX
      modifies pcb
      ensures Valid() && View() == old(View()).(pcb := old(pcb[..])[p := old(pcb[p]).(ppid := ppid)])
    {
      pcb[p] := pcb[p].(ppid := ppid);
      assert pcb[..] == old(pcb[..])[p := old(pcb[p]).(ppid := ppid)];
    }

    // exit_process_code, second loop
    method OrphanChildren(p: nat)
      requires Valid() && 1 <= p < MAX && pcb[p].ppid != p
      requires forall i: nat | i < MAX && i != p && pcb[i].state == Terminated :: i !in q
      modifies link, pcb
      ensures Valid() && View() == Orphan(old(View()), p, MAX)
    {
      hide Linked;
      ghost var was := View();
      var i := 1;
      while i < MAX
        invariant 1 <= i <= MAX
        invariant Valid() && View() == Orphan(was, p, i)
      {
        OrphanUntouched(was, p, i);
        if pcb[i].pid != 0 && pcb[i].ppid == p && pcb[i].state != Created {
          if pcb[i].state == Terminated {
            ClearSlot(i);
          } else {
            SetParent(i, 0);
          }
        }
        i := i + 1;
      }
    }

    // exit_process_code.  When the process ended is not READY the list and all invariants
    // survive; the table is as specified in every case.
    method ExitProcess(p: int, code: int)
      requires Valid() && SInv(View())
      modifies this`head, this`tail, this`q, this`current, link, pcb
      ensures p >= 0 ==> pcb[..] == Exit(old(View()), p, code).pcb && current == Exit(old(View()), p, code).current
      ensures p < 0 || !(CanExit(old(View()), p) && old(View()).pcb[p].state == Ready) ==>
                Valid() && SInv(View()) && View() == if p < 0 then old(View()) else Exit(old(View()), p, code)
    {
      hide Linked, SInv, Slots, Wake, Orphan, ScheduleNext;
      if p <= 0 || p >= MAX || pcb[p].state == Terminated || pcb[p].state == Created || pcb[p].pid == 0 {
        return;
      }
      ghost var s := View();
      ExitTable(s, p, code);
      ExitSafe(s, p, code);
      BeforeExit(s, p, code);
      pcb[p] := pcb[p].(code := code, state := Terminated);
      assert pcb[..] == MarkExit(s, p, code).pcb;
      WakeWaiters(p);
      OrphanChildren(p);
      if current == p {
        Schedule();
      } else if pcb[p].ppid == 0 {
        if s.pcb[p].state != Ready { CutAbsent(q, p); LinkFrame(q, link[..], head, tail, p, NULL); }
        ghost var t, l := View(), link[..];
        pcb[p] := EMPTY;
        link[p] := NULL;
        assert link[..] == l[p := NULL];
        assert pcb[..] == t.pcb[p := EMPTY];
      } else {
        ghost var t := View();
        pcb[p] := pcb[p].(kstack := false);
        assert pcb[..] == t.pcb[p := t.pcb[p].(kstack := false)];
      }
    }

    // process_wait_scan
    method WaitScan(target: int) returns (r: ScanResult)
      requires Valid()
      ensures current == 0 ==> r == NoChild
      ensures current != 0 ==> r == Scan(View(), target, 1, false)
    {
      if current == 0 {
        return NoChild;
      }
      var have := false;
      var i := 1;
      while i < MAX
        invariant 1 <= i <= MAX
        invariant Scan(View(), target, i, have) == Scan(View(), target, 1, false)
      {
        if pcb[i].pid != 0 && pcb[i].ppid == pcb[current].pid && (target == ANY || target == pcb[i].pid) {
          have := true;
          if pcb[i].state == Terminated {
            return Zombie(i, pcb[i].code);
          }
        }
        i := i + 1;
      }
      return if have then NoneYet else NoChild;
    }

    // process_wait_block
    method WaitBlock(target: int)
      requires Valid() && (pcb[current].state == Running ==> current !in q)
      modifies this`head, this`tail, this`q, this`current, link, pcb
      ensures Valid() && View() == Block(old(View()), target)
    {
      if current == 0 {
        return;
      }
      var me := pcb[current].(wait := target);
      pcb[current] := if me.state == Running then me.(state := Blocked) else me;
      assert pcb[..] == old(pcb[..])[current := if me.state == Running then me.(state := Blocked) else me];
      YieldCpu();
    }

    // One round of the loop of sys_waitpid
    method WaitRound(target: int) returns (r: WaitResult)
      requires Valid() && SInv(View())
      modifies this`head, this`tail, this`q, this`current, link, pcb
      ensures Valid() && SInv(View())
      ensures View() == Waitpid(old(View()), target).s && r == Waitpid(old(View()), target).result
    {
      hide Linked, Slots, Family, Sleepers, Scan, Block;
      WaitInv(View(), target);
      if target == 0 || target < ANY {
        return Invalid;
      }
      var found := WaitScan(target);
      match found
      case NoChild => r := NoSuchChild;
      case Zombie(z, code) =>
        ScanMeans(View(), target, 1, false);
        NotListed(View(), z);
        ClearSlot(z);
        r := Returned(z, code);
      case NoneYet =>
        NotListed(View(), current);
        WaitBlock(target);
        r := Sleeping;
    }
  }

  lemma OrphanUntouched(s: Sys, p: nat, n: nat)
    requires Sized(s) && p < MAX && 1 <= n < MAX
    ensures Orphan(s, p, n).pcb[n] == s.pcb[n]
  {
    OrphanForm(s, p, n);
  }

  lemma WakeUntouched(s: Sys, p: nat, n: nat)
    requires Sized(s) && Slots(s.pcb) && 1 <= p < MAX && 1 <= n < MAX
    ensures Wake(s, p, n).pcb[n] == s.pcb[n] && Wake(s, p, n).pcb[p].ppid == s.pcb[p].ppid
    ensures n !in s.q ==> n !in Wake(s, p, n).q
  {
    WakeForm(s, p, n);
  }

  lemma BeforeExit(s: Sys, p: nat, code: int)
    requires SInv(s) && CanExit(s, p)
    ensures var a := MarkExit(s, p, code);
            && Slots(a.pcb) && Wake(a, p, MAX).pcb[p].ppid != p
            && (forall i: nat | i < MAX && a.pcb[i].state == Blocked :: i !in a.q)
            && (forall i: nat | i < MAX && i != p && Wake(a, p, MAX).pcb[i].state == Terminated ::
                  i !in Wake(a, p, MAX).q)
            && (s.pcb[p].state != Ready ==> p !in Wake(a, p, MAX).q)
  {
    hide Sleepers, Family, OneRunning, Wake;
    var a := MarkExit(s, p, code);
    assert Slots(a.pcb);
    Kin(s.pcb, p);
    WakeForm(a, p, MAX);
  }
}
