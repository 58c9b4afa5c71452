// The round-robin scheduler and process table of kernel/process.c, with the waitpid loop
// of kernel/syscall.c.  The ready list is a sequence here; SchedulerKernel links it.
module Scheduler {
  import opened Basics

  const MAX: nat := 32
  const QUANTUM: nat := 100
  const ANY: int := -1

  datatype PState = Created | Ready | Running | Blocked | Terminated

  // kstack says whether a kernel stack page is attached; wait is wait_target.
  datatype Proc = Proc(pid: nat, state: PState, ppid: nat, code: int, wait: int, kstack: bool)

  const EMPTY := Proc(0, Created, 0, 0, 0, false)

  datatype Sys = Sys(pcb: seq<Proc>, q: seq<nat>, current: nat, ticks: nat)

  predicate Sized(s: Sys) {
    |s.pcb| == MAX && s.current < MAX && forall i: nat | i < |s.q| :: s.q[i] < MAX
  }

  function SetState(s: Sys, p: nat, st: PState): Sys
    requires p < |s.pcb|
  {
    s.(pcb := s.pcb[p := s.pcb[p].(state := st)])
  }

  function Enqueue(s: Sys, p: nat): Sys {
    s.(q := s.q + [p])
  }

  // process_init.
  function Boot(): Sys {
    Sys(seq(MAX, i => if i == 0 then Proc(0, Running, 0, 0, 0, true) else EMPTY), [], 0, 0)
  }

  datatype Picked = Picked(s: Sys, next: Option<nat>)

  // pick_next: pop until a READY process comes up; a TERMINATED one gives up its stack.
  function PickNext(s: Sys): (r: Picked)
    requires Sized(s)
    ensures Sized(r.s) && r.s.ticks == s.ticks && (r.next.Some? ==> r.next.value < MAX)
    decreases |s.q|
  {
    if s.q == [] then Picked(s, None)
    else
      var p := s.q[0];
      var t := s.(q := s.q[1..]);
      if s.pcb[p].state == Ready then Picked(t, Some(p))
      else if s.pcb[p].state == Terminated then PickNext(t.(pcb := s.pcb[p := s.pcb[p].(kstack := false)]))
      else PickNext(t)
  }

  // schedule_next.
  function ScheduleNext(s: Sys): (r: Sys)
    requires Sized(s)
    ensures Sized(r) && r.ticks == s.ticks
  {
    var k := PickNext(s);
    var next := if k.next.Some? then k.next.value else 0;
    if next == k.s.current then
      if k.s.pcb[next].state == Ready then SetState(k.s, next, Running) else k.s
    else SetState(k.s.(current := next), next, Running)
  }

  // The part yield and preempt share: the running process goes to the back of the list.
  function Requeue(s: Sys): (r: Sys)
    requires Sized(s)
    ensures Sized(r) && r.ticks == s.ticks
  {
    if s.pcb[s.current].state == Running then Enqueue(SetState(s, s.current, Ready), s.current) else s
  }

  // sched_yield.
  function Yield(s: Sys): (r: Sys)
    requires Sized(s)
    ensures Sized(r) && r.ticks == s.ticks
  {
    if s.current == 0 then s else ScheduleNext(Requeue(s))
  }

  // sched_preempt_tick.
  function PreemptTick(s: Sys): (r: Sys)
    requires Sized(s)
    ensures Sized(r)
  {
    var t := s.(ticks := s.ticks + 1);
    if t.ticks < QUANTUM then t
    else
      var u := t.(ticks := 0);
      if u.q == [] then u else ScheduleNext(Requeue(u))
  }

  // process_alloc_slot, from index i on; MAX means none.
  function AllocSlot(pcb: seq<Proc>, i: nat): (r: nat)
    requires |pcb| == MAX && i <= MAX
    ensures i <= r <= MAX
    ensures r < MAX ==> pcb[r].state == Created && !pcb[r].kstack && pcb[r].pid == 0
    decreases MAX - i
  {
    if i == MAX then MAX
    else if pcb[i].state == Created && !pcb[i].kstack && pcb[i].pid == 0 then i
    else AllocSlot(pcb, i + 1)
  }

  function Launch(s: Sys, slot: nat, ppid: nat): (r: Sys)
    requires Sized(s) && slot < MAX
    ensures Sized(r) && r.ticks == s.ticks
  {
    Enqueue(s.(pcb := s.pcb[slot := Proc(slot, Ready, ppid, 0, 0, true)]), slot)
  }

  // create_process and create_user_process; page says whether a stack page was to be had.
  function Create(s: Sys, page: bool): (r: Sys)
    requires Sized(s)
    ensures Sized(r) && r.ticks == s.ticks
  {
    var slot := AllocSlot(s.pcb, 1);
    if slot == MAX || !page then s else Launch(s, slot, 0)
  }

  // process_fork_kernel and process_fork_user; memory says whether stack and address space
  // could be had.
  function Fork(s: Sys, memory: bool): (r: Sys)
    requires Sized(s)
    ensures Sized(r) && r.ticks == s.ticks
  {
    if s.current == 0 || !s.pcb[s.current].kstack then s
    else
      var slot := AllocSlot(s.pcb, 1);
      if slot == MAX then s
      else if !memory then s.(pcb := s.pcb[slot := EMPTY])
      else Launch(s, slot, s.pcb[s.current].pid)
  }

  // Process b is blocked on the exit of process p.
  predicate WaitsFor(s: Sys, b: nat, p: nat)
    requires b < |s.pcb| && p < |s.pcb|
  {
    && s.pcb[b].state == Blocked && s.pcb[b].pid != 0
    && (s.pcb[b].wait == ANY || s.pcb[b].wait == p) && s.pcb[p].ppid == s.pcb[b].pid
  }

  // exit_process_code: waking the waiters among slots 1 .. n-1.
  function Wake(s: Sys, p: nat, n: nat): (r: Sys)
    requires Sized(s) && p < MAX && 1 <= n <= MAX
    ensures Sized(r) && r.ticks == s.ticks
  {
    if n == 1 then s
    else
      var t := Wake(s, p, n - 1);
      if WaitsFor(t, n - 1, p) then Enqueue(SetState(t, n - 1, Ready), n - 1) else t
  }

  // exit_process_code: the children of p among slots 1 .. n-1 lose their parent.
  function Orphan(s: Sys, p: nat, n: nat): (r: Sys)
    requires Sized(s) && p < MAX && 1 <= n <= MAX
    ensures Sized(r) && r.q == s.q && r.current == s.current && r.ticks == s.ticks
  {
    if n == 1 then s
    else
      var t := Orphan(s, p, n - 1);
      var c := t.pcb[n - 1];
      if c.pid != 0 && c.ppid == p && c.state != Created then
        t.(pcb := t.pcb[n - 1 := if c.state == Terminated then EMPTY else c.(ppid := 0)])
      else t
  }

  function MarkExit(s: Sys, p: nat, code: int): (r: Sys)
    requires Sized(s) && p < MAX
    ensures Sized(r) && r.ticks == s.ticks
  {
    s.(pcb := s.pcb[p := s.pcb[p].(code := code, state := Terminated)])
  }

  predicate CanExit(s: Sys, p: nat)
    requires Sized(s)
  {
    0 < p < MAX && s.pcb[p].state != Terminated && s.pcb[p].state != Created && s.pcb[p].pid != 0
  }

  // What is left of the list from its head once the link of p has been cleared.
  function Cut(q: seq<nat>, p: nat): (r: seq<nat>)
    ensures r <= q && (p in r <==> p in q)
  {
    if q == [] then [] else if q[0] == p then [p] else [q[0]] + Cut(q[1..], p)
  }

  // exit_process_code.  Clearing the slot of an orphan also clears its link.
  function Exit(s: Sys, p: nat, code: int): (r: Sys)
    requires Sized(s)
    ensures Sized(r) && r.ticks == s.ticks
  {
    if !CanExit(s, p) then s
    else
      var t := Orphan(Wake(MarkExit(s, p, code), p, MAX), p, MAX);
      if t.current == p then ScheduleNext(t)
      else if t.pcb[p].ppid == 0 then t.(pcb := t.pcb[p := EMPTY], q := Cut(t.q, p))
      else t.(pcb := t.pcb[p := t.pcb[p].(kstack := false)])
  }

  // Process c is a child of the current process that waitpid(target) is about.
  predicate Mine(s: Sys, me: nat, target: int, c: nat)
    requires me < |s.pcb| && c < |s.pcb|
  {
    s.pcb[c].pid != 0 && s.pcb[c].ppid == s.pcb[me].pid && (target == ANY || target == s.pcb[c].pid)
  }

  datatype ScanResult = NoChild | NoneYet | Zombie(pid: nat, code: int)

  // process_wait_scan from slot i on; have says whether a matching child was seen.
  function Scan(s: Sys, target: int, i: nat, have: bool): (r: ScanResult)
    requires Sized(s) && 1 <= i <= MAX
    ensures r.Zombie? ==> r.pid < MAX
    decreases MAX - i
  {
    if i == MAX then (if have then NoneYet else NoChild)
    else if !Mine(s, s.current, target, i) then Scan(s, target, i + 1, have)
    else if s.pcb[i].state == Terminated then Zombie(i, s.pcb[i].code)
    else Scan(s, target, i + 1, true)
  }

  // process_wait_block.
  function Block(s: Sys, target: int): (r: Sys)
    requires Sized(s)
    ensures Sized(r) && r.ticks == s.ticks
  {
    if s.current == 0 then s
    else
      var me := s.pcb[s.current].(wait := target);
      Yield(s.(pcb := s.pcb[s.current := if me.state == Running then me.(state := Blocked) else me]))
  }

  datatype WaitResult = Invalid | NoSuchChild | Sleeping | Returned(pid: nat, code: int)

  datatype Waited = Waited(s: Sys, result: WaitResult)

  // One round of the loop of sys_waitpid by the current process: scan, then hand out and
  // reap a zombie, or report that there is no child, or go to sleep.
  function Waitpid(s: Sys, target: int): (r: Waited)
    requires Sized(s)
    ensures Sized(r.s) && r.s.ticks == s.ticks
  {
    if target == 0 || target < ANY then Waited(s, Invalid)
    else if s.current == 0 then Waited(s, NoSuchChild)
    else match Scan(s, target, 1, false)
      case NoChild => Waited(s, NoSuchChild)
      case Zombie(z, code) => Waited(s.(pcb := s.pcb[z := EMPTY]), Returned(z, code))
      case NoneYet => Waited(Block(s, target), Sleeping)
  }
}
