// Whole runs of the scheduler: the invariant, the turn of every READY process, and what
// happens to exit codes.
module SchedulerRuns {
  import opened Basics
  import opened Scheduler
  import opened SchedulerProof

  datatype Event =
    | Spawn(page: bool)
    | Clone(memory: bool)
    | GiveUp
    | Tick
    | Leave(code: int)
    | Kill(p: nat, code: int)
    | Wait(target: int)

  function Step(s: Sys, e: Event): (r: Sys)
    requires Sized(s)
    ensures Sized(r)
  {
    match e
    case Spawn(page) => Create(s, page)
    case Clone(memory) => Fork(s, memory)
    case GiveUp => Yield(s)
    case Tick => PreemptTick(s)
    case Leave(code) => Exit(s, s.current, code)
    case Kill(p, code) => Exit(s, p, code)
    case Wait(target) => Waitpid(s, target).s
  }

  // A READY process is not ended from outside; ExitSafe shows this is needed.
  predicate Allowed(s: Sys, e: Event)
    requires Sized(s)
  {
    e.Kill? && CanExit(s, e.p) ==> s.pcb[e.p].state != Ready
  }

  function Run(s: Sys, es: seq<Event>): (r: Sys)
    requires Sized(s)
    ensures Sized(r)
    decreases |es|
  {
    if es == [] then s else Run(Step(s, es[0]), es[1..])
  }

  predicate AllAllowed(s: Sys, es: seq<Event>)
    requires Sized(s)
    decreases |es|
  {
    es == [] || (Allowed(s, es[0]) && AllAllowed(Step(s, es[0]), es[1..]))
  }

  // Does this step hand the CPU to the head of the list?
  predicate Dispatches(s: Sys, e: Event)
    requires Sized(s)
  {
    match e
    case GiveUp => s.current != 0
    case Tick => s.ticks + 1 >= QUANTUM && s.q != []
    case Leave(code) => CanExit(s, s.current)
    case Kill(p, code) => p == s.current && CanExit(s, p)
    case Wait(target) => Waitpid(s, target).result == Sleeping
    case _ => false
  }

  ghost predicate Queued(s: Sys, e: Event)
    requires Sized(s)
  {
    var r := Step(s, e);
    if Dispatches(s, e) then s.q <= [r.current] + r.q else r.current == s.current && s.q <= r.q
  }

  // Every step keeps the invariant, and moves the list only by appending at the back and, at
  // a dispatch, taking its head.
  lemma StepInv(s: Sys, e: Event)
    requires SInv(s) && Allowed(s, e)
    ensures SInv(Step(s, e)) && Queued(s, e)
  {
    hide Slots, Family, Sleepers, QueueOk, Create, Fork, Yield, Exit, Waitpid, PreemptTick;
    match e
    case Spawn(page) => CreateInv(s, page);
    case Clone(memory) => ForkInv(s, memory);
    case GiveUp => YieldInv(s); YieldIdle(s);
    case Tick => PreemptInv(s);
    case Leave(code) => ExitStep(s, s.current, code);
    case Kill(p, code) => ExitStep(s, p, code);
    case Wait(target) => WaitInv(s, target);
  }

  lemma YieldIdle(s: Sys)
    requires SInv(s)
    ensures s.current == 0 ==> Yield(s) == s
  {
  }

  lemma ExitStep(s: Sys, p: nat, code: int)
    requires SInv(s) && (CanExit(s, p) ==> s.pcb[p].state != Ready)
    ensures var r := Exit(s, p, code);
            && SInv(r)
            && if CanExit(s, p) && p == s.current then s.q <= [r.current] + r.q
                 else r.current == s.current && s.q <= r.q
  {
    hide Slots, Family, Sleepers, QueueOk, Wake, Orphan, ScheduleNext;
    if CanExit(s, p) {
      if p == s.current { ExitSelf(s, p, code); } else { ExitOther(s, p, code); }
    }
  }

  // In every reachable state the list holds exactly the READY processes, one process runs,
  // and nobody sleeps on a child that has already exited.
  lemma {:induction false} RunInv(s: Sys, es: seq<Event>)
    requires SInv(s) && AllAllowed(s, es)
    ensures SInv(Run(s, es))
    decreases |es|
  {
    hide Slots, Family, Sleepers, QueueOk, OneRunning, Step, Allowed;
    if es != [] {
      StepInv(s, es[0]);
      RunInv(Step(s, es[0]), es[1..]);
    }
  }

  // ---- bounded waiting ----

  function Turns(s: Sys, es: seq<Event>): nat
    requires Sized(s)
    decreases |es|
  {
    if es == [] then 0 else (if Dispatches(s, es[0]) then 1 else 0) + Turns(Step(s, es[0]), es[1..])
  }

  // A READY process at place k moves up one place at each dispatch, whatever else happens.
  lemma {:induction false} MovesUp(s: Sys, es: seq<Event>, k: nat)
    requires SInv(s) && AllAllowed(s, es) && k < |s.q| && Turns(s, es) <= k
    ensures var n := Turns(s, es); var r := Run(s, es); SInv(r) && k - n < |r.q| && r.q[k - n] == s.q[k]
    decreases |es|
  {
    hide Slots, Family, Sleepers, QueueOk, OneRunning, Step, Dispatches, Allowed;
    if es != [] {
      var t := Step(s, es[0]);
      StepInv(s, es[0]);
      if Dispatches(s, es[0]) {
        assert ([t.current] + t.q)[k] == s.q[k];
        MovesUp(t, es[1..], k - 1);
      } else {
        MovesUp(t, es[1..], k);
      }
    }
  }

  // It is the one dispatched at the (k+1)-st dispatch.
  lemma TakesItsTurn(s: Sys, es: seq<Event>, e: Event, k: nat)
    requires SInv(s) && AllAllowed(s, es) && k < |s.q| && Turns(s, es) == k
    requires Allowed(Run(s, es), e) && Dispatches(Run(s, es), e)
    ensures Step(Run(s, es), e).current == s.q[k]
  {
    hide Slots, Family, Sleepers, QueueOk, OneRunning, Step, Dispatches, Allowed, Turns, Run, AllAllowed;
    MovesUp(s, es, k);
    var r := Run(s, es);
    StepInv(r, e);
    assert r.q[0] == ([Step(r, e).current] + Step(r, e).q)[0];
  }

  function Ticks(es: seq<Event>): nat {
    if es == [] then 0 else (if es[0].Tick? then 1 else 0) + Ticks(es[1..])
  }

  // The clock of the time slice only moves at a tick.
  lemma SliceClock(s: Sys, e: Event)
    requires SInv(s) && Allowed(s, e) && s.ticks < QUANTUM && s.q != []
    ensures var r := Step(s, e); r.ticks == if !e.Tick? then s.ticks else if Dispatches(s, e) then 0 else s.ticks + 1
    ensures Step(s, e).ticks < QUANTUM
  {
    hide Slots, Family, Sleepers, QueueOk, OneRunning, Create, Fork, Yield, Exit, Waitpid;
  }

  // With the timer running, a READY process at place k gets the CPU before 100(k+1) more
  // ticks have passed, less those already on the clock.
  lemma {:induction false} TurnWithinTicks(s: Sys, es: seq<Event>, k: nat)
    requires SInv(s) && AllAllowed(s, es) && s.ticks < QUANTUM && k < |s.q|
    requires Ticks(es) + s.ticks >= QUANTUM * (k + 1)
    ensures exists j: nat :: 0 < j <= |es| && Run(s, es[..j]).current == s.q[k]
    decreases |es|
  {
    hide Slots, Family, Sleepers, QueueOk, OneRunning, Step, Dispatches, Allowed;
    var t := Step(s, es[0]);
    StepInv(s, es[0]);
    SliceClock(s, es[0]);
    if Dispatches(s, es[0]) && k == 0 {
      assert es[..1][1..] == [] && es[..1][0] == es[0];
      assert s.q[0] == ([t.current] + t.q)[0];
      assert Run(t, []) == t;
      assert Run(s, es[..1]) == Run(t, es[..1][1..]);
    } else {
      TickSlack(s, es[0]);
      var k' := if Dispatches(s, es[0]) then k - 1 else k;
      assert t.q[k'] == s.q[k] by { assert Dispatches(s, es[0]) ==> s.q[k] == ([t.current] + t.q)[k]; }
      TurnWithinTicks(t, es[1..], k');
      var j: nat :| 0 < j <= |es[1..]| && Run(t, es[1..][..j]).current == t.q[k'];
      assert es[..j + 1][1..] == es[1..][..j] && es[..j + 1][0] == es[0];
      assert Run(s, es[..j + 1]).current == s.q[k];
    }
  }

  lemma TickSlack(s: Sys, e: Event)
    requires Sized(s) && s.ticks < QUANTUM
    ensures e.Tick? && Dispatches(s, e) ==> s.ticks == QUANTUM - 1
  {
    hide CanExit, Waitpid;
  }

  // At most MAX - 1 processes are on the list, so the bound above is at most 31 turns.
  lemma ShortList(s: Sys)
    requires SInv(s)
    ensures |s.q| < MAX
  {
    hide Slots, Family, Sleepers;
    var line := s.q + [s.current];
    assert s.pcb[s.current].state == Running && s.current !in s.q;
    assert Distinct(line);
    DistinctFits(line, Below(MAX));
  }

  // From boot: two processes are created and the first is killed before it ever ran.  The
  // second is READY, not on the list, and the list still holds the first.
  lemma KillExample()
    ensures var s := Run(Boot(), [Spawn(true), Spawn(true), Kill(1, 9)]);
            s.q == [1] && s.pcb[2].state == Ready && s.pcb[1] == EMPTY
    ensures AllAllowed(Boot(), [Spawn(true), Spawn(true)])
  {
    hide Exit, Create;
    var a, b, c := Spawn(true), Spawn(true), Kill(1, 9);
    var s0 := Boot();
    SpawnAt(s0, 1);
    var s1 := Step(s0, a);
    BootInv();
    StepInv(s0, a);
    SpawnAt(s1, 2);
    var s2 := Step(s1, b);
    StepInv(s1, b);
    assert s2.q == [1, 2] && s2.pcb[1] == Proc(1, Ready, 0, 0, 0, true) && s2.pcb[2] == Proc(2, Ready, 0, 0, 0, true);
    KilledOrphanCuts(s2, 1, 9, 0, 1);
    KilledFirst(s2);
    Unfold(s0, [a, b, c]);
    Unfold(s1, [b, c]);
    Unfold(s2, [c]);
    assert [a, b, c][1..] == [b, c] && [b, c][1..] == [c] && [c][1..] == [] && [a, b][1..] == [b] && [b][1..] == [];
  }

  lemma Unfold(s: Sys, es: seq<Event>)
    requires Sized(s) && es != []
    ensures Run(s, es) == Run(Step(s, es[0]), es[1..])
  {
  }

  lemma SpawnAt(s: Sys, slot: nat)
    requires Sized(s) && 1 <= slot < MAX && s.pcb[slot] == EMPTY && forall i: nat | 1 <= i < slot :: s.pcb[i].pid != 0
    ensures Create(s, true) == Launch(s, slot, 0)
  {
    FirstFree(s.pcb, 1, slot);
  }

  lemma {:induction false} FirstFree(pcb: seq<Proc>, i: nat, p: nat)
    requires |pcb| == MAX && i <= p < MAX && pcb[p] == EMPTY
    requires forall j: nat | i <= j < p :: pcb[j].pid != 0
    ensures AllocSlot(pcb, i) == p
    decreases p - i
  {
    if i < p { FirstFree(pcb, i + 1, p); }
  }

  lemma KilledFirst(s: Sys)
    requires SInv(s) && s.q == [1, 2] && s.current == 0 && s.pcb[1] == Proc(1, Ready, 0, 0, 0, true)
    ensures Exit(s, 1, 9).q == [1] && Exit(s, 1, 9).pcb[1] == EMPTY
  {
    hide Sleepers, Family, QueueOk, Gone;
    ExitTable(s, 1, 9);
    GoneStates(s.pcb, 1, 9);
    CutAt(s.q, 1, 0) by { assert QueueOk(s); DistinctPair(); }
  }

  lemma DistinctPair()
    ensures Distinct([1, 2])
  {
  }
}
