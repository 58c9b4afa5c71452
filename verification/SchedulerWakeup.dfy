// No wake-up is lost: the exit of an awaited child wakes the sleeper, and the zombie is still
// there, with its code, when the sleeper gets the CPU.
module SchedulerWakeup {
  import opened Scheduler
  import opened SchedulerProof
  import opened SchedulerRuns

  // Process b is awake and a child z that its last waitpid was about is a zombie with this code.
  ghost predicate Due(pcb: seq<Proc>, b: nat, z: nat, target: int, code: int)
    requires |pcb| == MAX
  {
    && 1 <= b < MAX && 1 <= z < MAX && pcb[b].pid == b && pcb[b].wait == target
    && (pcb[b].state == Ready || pcb[b].state == Running)
    && pcb[z].pid == z && pcb[z].ppid == b && pcb[z].state == Terminated && pcb[z].code == code
    && (target == ANY || target == z)
  }

  lemma ExitWakes(s: Sys, p: nat, code: int, b: nat)
    requires SInv(s) && CanExit(s, p) && s.pcb[p].state != Ready
    requires b < MAX && s.pcb[b].state == Blocked && Awaited(s.pcb, b, p)
    ensures Due(Exit(s, p, code).pcb, b, p, s.pcb[b].wait, code)
  {
    hide Family, Sleepers, QueueOk, ScheduleNext;
    ExitTable(s, p, code);
    Kin(s.pcb, p);
    assert Due(Gone(s.pcb, p, code), b, p, s.pcb[b].wait, code);
    if p == s.current {
      GoneSwitching(s, p, code);
      DueDispatch(Orphan(Wake(MarkExit(s, p, code), p, MAX), p, MAX), b, p, s.pcb[b].wait, code);
    }
  }

  lemma DueDispatch(s: Sys, b: nat, z: nat, target: int, code: int)
    requires Switching(s) && Due(s.pcb, b, z, target, code)
    ensures Due(ScheduleNext(s).pcb, b, z, target, code)
  {
    hide ScheduleNext, Family, Sleepers;
    DispatchHead(s);
    assert s.q[0] in s.q;
  }

  lemma DueRequeue(s: Sys, b: nat, z: nat, target: int, code: int)
    requires SInv(s) && Due(s.pcb, b, z, target, code)
    ensures Due(ScheduleNext(Requeue(s)).pcb, b, z, target, code)
  {
    hide ScheduleNext, Family, Sleepers, QueueOk;
    RequeueSwitching(s);
    DueDispatch(Requeue(s), b, z, target, code);
  }

  lemma DueExit(s: Sys, p: nat, c: int, b: nat, z: nat, target: int, code: int)
    requires SInv(s) && CanExit(s, p) && s.pcb[p].state != Ready && s.current != b && Due(s.pcb, b, z, target, code)
    ensures Due(Exit(s, p, c).pcb, b, z, target, code)
  {
    hide Family, Sleepers, QueueOk, ScheduleNext;
    ExitTable(s, p, c);
    assert p != b && p != z;
    assert Due(Gone(s.pcb, p, c), b, z, target, code);
    if p == s.current {
      GoneSwitching(s, p, c);
      DueDispatch(Orphan(Wake(MarkExit(s, p, c), p, MAX), p, MAX), b, z, target, code);
    }
  }

  lemma DueWait(s: Sys, goal: int, b: nat, z: nat, target: int, code: int)
    requires SInv(s) && s.current != b && Due(s.pcb, b, z, target, code)
    ensures Due(Waitpid(s, goal).s.pcb, b, z, target, code)
  {
    hide Family, Sleepers, QueueOk, ScheduleNext, Scan;
    if s.current != 0 && goal != 0 && goal >= ANY {
      ScanMeans(s, goal, 1, false);
      if Scan(s, goal, 1, false) == NoneYet {
        BlockSwitching(s, goal);
        var t := s.(pcb := s.pcb[s.current := s.pcb[s.current].(wait := goal, state := Blocked)]);
        DueDispatch(t, b, z, target, code);
        assert Block(s, goal) == ScheduleNext(t);
      }
    }
  }

  // Until b itself runs, nothing touches the zombie or puts b back to sleep.
  lemma StaysDue(s: Sys, e: Event, b: nat, z: nat, target: int, code: int)
    requires SInv(s) && Allowed(s, e) && s.current != b && Due(s.pcb, b, z, target, code)
    ensures Due(Step(s, e).pcb, b, z, target, code)
  {
    hide Family, Sleepers, QueueOk, ScheduleNext, Requeue, Waitpid, Exit, AllocSlot;
    match e
    case Leave(c) => if CanExit(s, s.current) { DueExit(s, s.current, c, b, z, target, code); }
      else { NoExit(s, s.current, c); }
    case Kill(p, c) => if CanExit(s, p) { DueExit(s, p, c, b, z, target, code); } else { NoExit(s, p, c); }
    case Wait(goal) => DueWait(s, goal, b, z, target, code);
    case GiveUp => DueRequeue(s, b, z, target, code);
    case Tick =>
      SameTable(s, s.(ticks := 0));
      DueRequeue(s.(ticks := 0), b, z, target, code);
    case _ =>
  }

  ghost predicate OffCpu(s: Sys, es: seq<Event>, b: nat)
    requires Sized(s)
    decreases |es|
  {
    es == [] || (s.current != b && OffCpu(Step(s, es[0]), es[1..], b))
  }

  // The sleeper's child exits, any run follows in which the sleeper has not been back on the
  // CPU, and when it is, its waitpid returns a child.
  lemma {:induction false} DueReturns(s: Sys, es: seq<Event>, b: nat, z: nat, target: int, code: int)
    requires SInv(s) && AllAllowed(s, es) && Due(s.pcb, b, z, target, code) && OffCpu(s, es, b)
             && Run(s, es).current == b
    ensures Waitpid(Run(s, es), target).result.Returned?
    ensures target == z ==> Waitpid(Run(s, es), target).result == Returned(z, code)
    decreases |es|
  {
    hide Slots, Family, Sleepers, QueueOk, OneRunning, Step, Allowed, Due;
    if es == [] {
      DueNow(s, z, target, code);
    } else {
      StepInv(s, es[0]);
      StaysDue(s, es[0], b, z, target, code);
      DueReturns(Step(s, es[0]), es[1..], b, z, target, code);
    }
  }

  lemma DueNow(s: Sys, z: nat, target: int, code: int)
    requires SInv(s) && Due(s.pcb, s.current, z, target, code)
    ensures Waitpid(s, target).result.Returned?
    ensures target == z ==> Waitpid(s, target).result == Returned(z, code)
  {
    hide Family, Sleepers, QueueOk, Scan, Block;
    ScanMeans(s, target, 1, false);
    assert Mine(s, s.current, target, z);
  }

  lemma NoLostWakeup(s: Sys, e: Event, es: seq<Event>, p: nat, code: int, b: nat)
    requires SInv(s) && CanExit(s, p) && Allowed(s, e) && s.pcb[p].state != Ready
    requires e == Kill(p, code) || (e == Leave(code) && p == s.current)
    requires b < MAX && s.pcb[b].state == Blocked && Awaited(s.pcb, b, p)
    requires var t := Step(s, e); AllAllowed(t, es) && OffCpu(t, es, b) && Run(t, es).current == b
    ensures var r := Waitpid(Run(Step(s, e), es), s.pcb[b].wait).result;
            r.Returned? && (s.pcb[b].wait == p ==> r == Returned(p, code))
  {
    hide Slots, Family, Sleepers, QueueOk, Exit, Due, OffCpu, Run, AllAllowed, Awaited;
    ExitWakes(s, p, code, b);
    StepInv(s, e);
    DueReturns(Step(s, e), es, b, p, s.pcb[b].wait, code);
  }

  // ---- the zombie nobody can collect ----

  ghost predicate Stuck(pcb: seq<Proc>, z: nat)
    requires |pcb| == MAX
  {
    1 <= z < MAX && pcb[z].pid == z && pcb[z].ppid == 0 && pcb[z].state == Terminated
  }

  lemma StuckDispatch(s: Sys, z: nat)
    requires Switching(s) && Stuck(s.pcb, z)
    ensures Stuck(ScheduleNext(s).pcb, z)
  {
    hide ScheduleNext, Family, Sleepers;
    DispatchHead(s);
    HeadReady(s);
  }

  lemma StuckRequeue(s: Sys, z: nat)
    requires SInv(s) && Stuck(s.pcb, z)
    ensures Stuck(ScheduleNext(Requeue(s)).pcb, z)
  {
    hide ScheduleNext, Family, Sleepers, QueueOk;
    RequeueSwitching(s);
    StuckDispatch(Requeue(s), z);
  }

  lemma StuckExit(s: Sys, p: nat, code: int, z: nat)
    requires SInv(s) && CanExit(s, p) && Stuck(s.pcb, z)
    ensures Stuck(Exit(s, p, code).pcb, z)
  {
    hide Family, Sleepers, QueueOk, ScheduleNext;
    ExitTable(s, p, code);
    if p == s.current {
      GoneSwitching(s, p, code);
      StuckDispatch(Orphan(Wake(MarkExit(s, p, code), p, MAX), p, MAX), z);
    }
  }

  lemma StuckWait(s: Sys, target: int, z: nat)
    requires SInv(s) && Stuck(s.pcb, z)
    ensures Stuck(Waitpid(s, target).s.pcb, z)
  {
    hide Family, Sleepers, QueueOk, ScheduleNext, Scan;
    if s.current != 0 && target != 0 && target >= ANY {
      ScanMeans(s, target, 1, false);
      if Scan(s, target, 1, false) == NoneYet {
        BlockSwitching(s, target);
        var t := s.(pcb := s.pcb[s.current := s.pcb[s.current].(wait := target, state := Blocked)]);
        StuckDispatch(t, z);
        assert Block(s, target) == ScheduleNext(t);
      }
    }
  }

  // A process without a parent that exits by itself keeps its slot for ever: nothing in any
  // run gives it back.
  lemma {:induction false} OrphanStuck(s: Sys, es: seq<Event>, z: nat)
    requires SInv(s) && AllAllowed(s, es) && Stuck(s.pcb, z)
    ensures Stuck(Run(s, es).pcb, z)
    decreases |es|
  {
    hide Slots, Family, Sleepers, QueueOk, OneRunning, Step, Allowed, Stuck;
    if es != [] {
      StepInv(s, es[0]);
      StuckStep(s, es[0], z);
      OrphanStuck(Step(s, es[0]), es[1..], z);
    }
  }

  lemma StuckStep(s: Sys, e: Event, z: nat)
    requires SInv(s) && Allowed(s, e) && Stuck(s.pcb, z)
    ensures Stuck(Step(s, e).pcb, z)
  {
    hide Family, Sleepers, QueueOk, ScheduleNext, Requeue, Waitpid, Exit, AllocSlot;
    match e
    case Leave(c) => if CanExit(s, s.current) { StuckExit(s, s.current, c, z); } else { NoExit(s, s.current, c); }
    case Kill(p, c) => if CanExit(s, p) { StuckExit(s, p, c, z); } else { NoExit(s, p, c); }
    case Wait(target) => StuckWait(s, target, z);
    case GiveUp => StuckRequeue(s, z);
    case Tick =>
      SameTable(s, s.(ticks := 0));
      StuckRequeue(s.(ticks := 0), z);
    case _ =>
  }

  // A process without a parent that exits by itself becomes such a zombie, stack page and all.
  lemma OrphanLeaves(s: Sys, code: int)
    requires SInv(s) && CanExit(s, s.current) && s.pcb[s.current].ppid == 0
    ensures var r := Exit(s, s.current, code);
            SInv(r) && Stuck(r.pcb, s.current) && r.pcb[s.current].kstack == s.pcb[s.current].kstack
  {
    hide Family, Sleepers, QueueOk, ScheduleNext, Gone;
    var p := s.current;
    ExitSelf(s, p, code);
    ExitTable(s, p, code);
    GoneStates(s.pcb, p, code);
    GoneSwitching(s, p, code);
    var t := Orphan(Wake(MarkExit(s, p, code), p, MAX), p, MAX);
    DispatchHead(t);
    HeadReady(t);
  }

  // ---- an example from boot ----

  const QUIET_TICKS := seq(QUANTUM - 1, i => Tick)

  lemma {:induction false} RunSplit(s: Sys, a: seq<Event>, b: seq<Event>)
    requires Sized(s)
    ensures Run(s, a + b) == Run(Run(s, a), b)
    decreases |a|
  {
    if a == [] {
      assert a + b == b;
    } else {
      assert (a + b)[1..] == a[1..] + b;
      RunSplit(Step(s, a[0]), a[1..], b);
    }
  }

  lemma {:induction false} QuietTicks(s: Sys, es: seq<Event>)
    requires Sized(s) && s.ticks + |es| < QUANTUM && forall i: nat | i < |es| :: es[i] == Tick
    ensures Run(s, es) == s.(ticks := s.ticks + |es|)
    decreases |es|
  {
    if es != [] { QuietTicks(Step(s, es[0]), es[1..]); }
  }

  lemma RunTwo(s: Sys, e: Event, f: Event)
    requires Sized(s)
    ensures Run(s, [e]) == Step(s, e) && Run(s, [e, f]) == Step(Step(s, e), f)
  {
    hide Step;
    Unfold(s, [e]);
    Unfold(s, [e, f]);
    Unfold(Step(s, e), [f]);
    assert [e][1..] == [] && [e, f][1..] == [f] && [f][1..] == [];
  }

  lemma RunForm(s0: Sys, s1: Sys, s3: Sys, quiet: seq<Event>)
    requires Sized(s0) && s1 == Create(s0, true) && s1.ticks == 0 && s3 == PreemptTick(s1.(ticks := QUANTUM - 1))
    requires |quiet| == QUANTUM - 1 && forall i: nat | i < |quiet| :: quiet[i] == Tick
    ensures Run(s0, [Spawn(true)] + quiet + [Tick, Leave(7)]) == Exit(s3, s3.current, 7)
  {
    hide Exit, Create, PreemptTick, Run;
    QuietTicks(s1, quiet);
    RunSplit(s0, [Spawn(true)], quiet);
    RunSplit(s0, [Spawn(true)] + quiet, [Tick, Leave(7)]);
    RunTwo(s0, Spawn(true), Tick);
    RunTwo(s1.(ticks := QUANTUM - 1), Tick, Leave(7));
  }

  lemma TicksAllQuiet()
    ensures |QUIET_TICKS| == QUANTUM - 1 && forall i: nat | i < |QUIET_TICKS| :: QUIET_TICKS[i] == Tick
  {
  }

  // Boot and one process created.
  lemma OneSpawned()
    ensures var s := Create(Boot(), true);
            SInv(s) && s.q == [1] && s.current == 0 && s.ticks == 0 && s.pcb[1] == Proc(1, Ready, 0, 0, 0, true)
  {
    hide Create;
    BootInv();
    SpawnAt(Boot(), 1);
    CreateInv(Boot(), true);
  }

  // The first process created runs after one time slice and exits: slot 1 and its stack page
  // are gone, whatever happens afterwards.
  lemma OrphanExample(es: seq<Event>)
    ensures var s := Run(Boot(), [Spawn(true)] + QUIET_TICKS + [Tick, Leave(7)]);
            && Stuck(s.pcb, 1) && s.pcb[1].kstack
            && (AllAllowed(s, es) ==> Stuck(Run(s, es).pcb, 1))
  {
    hide Exit, Create, PreemptTick, Stuck, Boot, Slots, Family, Sleepers, QueueOk, OneRunning, Run, AllAllowed;
    OneSpawned();
    var s1 := Create(Boot(), true);
    var s2 := s1.(ticks := QUANTUM - 1);
    SameTable(s1, s2);
    FirstRuns(s2);
    var s3 := PreemptTick(s2);
    OrphanLeaves(s3, 7);
    var s4 := Exit(s3, 1, 7);
    if AllAllowed(s4, es) { OrphanStuck(s4, es, 1); }
    TicksAllQuiet();
    RunForm(Boot(), s1, s3, QUIET_TICKS);
  }

  // The tick that ends the slice of the idle process hands the CPU to the one on the list.
  lemma FirstRuns(s: Sys)
    requires SInv(s) && s.ticks == QUANTUM - 1 && s.q == [1] && s.current == 0
    requires s.pcb[1] == Proc(1, Ready, 0, 0, 0, true)
    ensures var r := PreemptTick(s); SInv(r) && r.current == 1 && r.pcb[1] == Proc(1, Running, 0, 0, 0, true)
  {
    hide Family, Sleepers, QueueOk, ScheduleNext;
    PreemptInv(s);
    var u := s.(ticks := 0);
    SameTable(s, u);
    RequeueSwitching(u);
    DispatchHead(Requeue(u));
  }
}
