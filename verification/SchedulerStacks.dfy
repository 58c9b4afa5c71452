// The kernel stack pages themselves: which page each slot holds in kstack_phys, and what the page
// allocator has marked as used.  Every path of kernel/process.c that clears a slot is followed
// step by step, pmm_free_page where the code calls it and memset where it only wipes.
module SchedulerStacks {
  import opened Pmm
  import opened Holdings
  import opened Scheduler
  import R = SchedulerRuns

  // page[i] is kstack_phys of slot i, as a frame number; 0 means none.
  datatype Store = Store(page: seq<nat>, pmm: Pmm)

  predicate Fitting(m: Store) {
    |m.page| == MAX && |m.pmm.refcnt| == |m.pmm.bitmap|
  }

  // pmm_free_page on the page of slot i, if it has one, and kstack_phys = 0.
  function FreeStack(m: Store, i: nat): (r: Store)
    requires Fitting(m) && i < MAX
    ensures Fitting(r)
  {
    if m.page[i] == 0 then m else Store(m.page[i := 0], MarkFree(m.pmm, m.page[i]))
  }

  // memset of slot i to zero.
  function Wipe(m: Store, i: nat): (r: Store)
    requires Fitting(m) && i < MAX
    ensures Fitting(r)
  {
    m.(page := m.page[i := 0])
  }

  // process_reap_slot.
  function Reap(m: Store, i: nat): (r: Store)
    requires Fitting(m) && i < MAX
    ensures Fitting(r)
  {
    Wipe(FreeStack(m, i), i)
  }

  // The page just allocated goes to slot i.
  function Give(m: Store, i: nat): (r: Store)
    requires Fitting(m) && i < MAX && AllocPage(m.pmm).frame.Some?
    ensures Fitting(r)
  {
    var a := AllocPage(m.pmm);
    Store(m.page[i := a.frame.value], a.pmm)
  }

  // ---- the paths of process.c ----

  // pick_next: a TERMINATED process on the list gives up its stack.
  function PickStore(s: Sys, m: Store): (r: Store)
    requires Sized(s) && Fitting(m)
    ensures Fitting(r)
    decreases |s.q|
  {
    if s.q == [] then m
    else
      var p := s.q[0];
      var t := s.(q := s.q[1..]);
      if s.pcb[p].state == Ready then m
      else if s.pcb[p].state == Terminated then
        PickStore(t.(pcb := s.pcb[p := s.pcb[p].(kstack := false)]), FreeStack(m, p))
      else PickStore(t, m)
  }

  // exit_process_code: the zombie children of p among slots 1 .. n-1 are reaped.
  function OrphanStore(s: Sys, p: nat, n: nat, m: Store): (r: Store)
    requires Sized(s) && p < MAX && 1 <= n <= MAX && Fitting(m)
    ensures Fitting(r)
  {
    if n == 1 then m
    else
      var t := Orphan(s, p, n - 1);
      var a := OrphanStore(s, p, n - 1, m);
      var c := t.pcb[n - 1];
      if c.pid != 0 && c.ppid == p && c.state == Terminated then Reap(a, n - 1) else a
  }

  // exit_process_code: after the children, the running process goes on to schedule_next, an orphan
  // ended from outside is wiped, and any other process ended from outside gives up its stack.
  function ExitStore(s: Sys, p: nat, code: int, m: Store): (r: Store)
    requires Sized(s) && Fitting(m)
    ensures Fitting(r)
  {
    if !CanExit(s, p) then m
    else
      var w := Wake(MarkExit(s, p, code), p, MAX);
      var t := Orphan(w, p, MAX);
      var a := OrphanStore(w, p, MAX, m);
      if t.current == p then PickStore(t, a)
      else if t.pcb[p].ppid == 0 then Wipe(a, p)
      else FreeStack(a, p)
  }

  function YieldStore(s: Sys, m: Store): (r: Store)
    requires Sized(s) && Fitting(m)
    ensures Fitting(r)
  {
    if s.current == 0 then m else PickStore(Requeue(s), m)
  }

  function TickStore(s: Sys, m: Store): (r: Store)
    requires Sized(s) && Fitting(m)
    ensures Fitting(r)
  {
    if s.ticks + 1 < QUANTUM || s.q == [] then m else PickStore(Requeue(s.(ticks := 0)), m)
  }

  // The slot of the caller as process_wait_block leaves it.
  function Sleeping(s: Sys, target: int): (r: Sys)
    requires Sized(s)
    ensures Sized(r)
  {
    var me := s.pcb[s.current].(wait := target);
    s.(pcb := s.pcb[s.current := if me.state == Running then me.(state := Blocked) else me])
  }

  // One round of sys_waitpid: process_wait_reap, or sleep.
  function WaitStore(s: Sys, target: int, m: Store): (r: Store)
    requires Sized(s) && Fitting(m)
    ensures Fitting(r)
  {
    if target == 0 || target < ANY || s.current == 0 then m
    else match Scheduler.Scan(s, target, 1, false)
      case NoChild => m
      case Zombie(z, code) => Reap(m, z)
      case NoneYet => YieldStore(Sleeping(s, target), m)
  }

  // create_process and create_user_process: slot, page, memset, kstack_phys.
  function SpawnStore(s: Sys, m: Store): (r: Store)
    requires Sized(s) && Fitting(m)
    ensures Fitting(r)
  {
    var slot := AllocSlot(s.pcb, 1);
    if slot == MAX || AllocPage(m.pmm).frame.None? then m else Give(Wipe(m, slot), slot)
  }

  // process_fork_kernel and process_fork_user: slot, page, and the page back if there is no memory
  // for the address space.
  function CloneStore(s: Sys, space: bool, m: Store): (r: Store)
    requires Sized(s) && Fitting(m)
    ensures Fitting(r)
  {
    var slot := AllocSlot(s.pcb, 1);
    if s.current == 0 || !s.pcb[s.current].kstack || slot == MAX then m
    else if AllocPage(m.pmm).frame.None? then Wipe(m, slot)
    else if !space then FreeStack(Give(Wipe(m, slot), slot), slot)
    else Give(m, slot)
  }

  // ---- the machine ----

  datatype Machine = Machine(s: Sys, m: Store)

  // Whether there is a page is the allocator's say.
  datatype Event =
    | Spawn
    | Clone(space: bool)
    | GiveUp
    | Tick
    | Leave(code: int)
    | Kill(p: nat, code: int)
    | Wait(target: int)

  function AsEvent(e: Event, page: bool): R.Event {
    match e
    case Spawn => R.Spawn(page)
    case Clone(space) => R.Clone(page && space)
    case GiveUp => R.GiveUp
    case Tick => R.Tick
    case Leave(code) => R.Leave(code)
    case Kill(p, code) => R.Kill(p, code)
    case Wait(target) => R.Wait(target)
  }

  function StoreAfter(x: Machine, e: Event): (r: Store)
    requires Sized(x.s) && Fitting(x.m)
    ensures Fitting(r)
  {
    match e
    case Spawn => SpawnStore(x.s, x.m)
    case Clone(space) => CloneStore(x.s, space, x.m)
    case GiveUp => YieldStore(x.s, x.m)
    case Tick => TickStore(x.s, x.m)
    case Leave(code) => ExitStore(x.s, x.s.current, code, x.m)
    case Kill(p, code) => ExitStore(x.s, p, code, x.m)
    case Wait(target) => WaitStore(x.s, target, x.m)
  }

  predicate Whole(x: Machine) {
    Sized(x.s) && Fitting(x.m)
  }

  // The table moves as SchedulerRuns says, the pages as the code handles them.
  function Step(x: Machine, e: Event): (r: Machine)
    requires Whole(x)
    ensures Whole(r)
  {
    Machine(R.Step(x.s, AsEvent(e, AllocPage(x.m.pmm).frame.Some?)), StoreAfter(x, e))
  }

  function Run(x: Machine, es: seq<Event>): (r: Machine)
    requires Whole(x)
    ensures Whole(r)
    decreases |es|
  {
    if es == [] then x else Run(Step(x, es[0]), es[1..])
  }

  // ---- who holds which page ----

  function Held(m: Store): set<nat> {
    set i: nat | i < |m.page| && m.page[i] != 0 :: m.page[i]
  }

  // Pages the allocator has marked as used and no slot holds.
  function Unheld(m: Store): set<nat> {
    UsedSet(m.pmm.bitmap) - Held(m)
  }

  // The pages held are in use, and none is held twice.
  ghost predicate Sound(m: Store) {
    && |m.page| == MAX && Consistent(m.pmm)
    && (forall i: nat | i < MAX && m.page[i] != 0 :: m.page[i] < |m.pmm.bitmap| && m.pmm.bitmap[m.page[i]])
    && (forall i: nat, j: nat | i < j < MAX && m.page[i] != 0 :: m.page[i] != m.page[j])
  }

  // The flag of the process table is on exactly for the slots that hold a page.
  predicate Tied(pcb: seq<Proc>, m: Store) {
    |pcb| == |m.page| == MAX && forall i: nat | i < MAX :: pcb[i].kstack <==> m.page[i] != 0
  }

  ghost predicate PageInv(x: Machine) {
    Whole(x) && Sound(x.m) && Tied(x.s.pcb, x.m)
  }

  // From m to r no page got lost and none came back.
  ghost predicate Kept(m: Store, r: Store) {
    Fitting(r) && Sound(r) && Unheld(r) == Unheld(m) && |r.pmm.bitmap| == |m.pmm.bitmap|
  }

  lemma FreeKept(m: Store, i: nat)
    requires Sound(m) && i < MAX
    ensures Kept(m, FreeStack(m, i)) && FreeStack(m, i).page == m.page[i := 0]
  {
    var f := m.page[i];
    var r := FreeStack(m, i);
    if f != 0 {
      MarkFreeSpec(m.pmm, f);
      HeldWithout(m, i);
      assert UsedSet(r.pmm.bitmap) == UsedSet(m.pmm.bitmap) - {f};
      assert Held(r) == Held(m.(page := m.page[i := 0]));
    } else {
      assert m.page[i := 0] == m.page;
    }
  }

  lemma HeldWithout(m: Store, i: nat)
    requires Sound(m) && i < MAX && m.page[i] != 0
    ensures Held(m.(page := m.page[i := 0])) == Held(m) - {m.page[i]}
    ensures m.page[i] in Held(m)
  {
    var r := m.(page := m.page[i := 0]);
    forall f | f in Held(r) ensures f in Held(m) && f != m.page[i] {
      var j: nat :| j < MAX && r.page[j] != 0 && r.page[j] == f;
      assert m.page[j] == f && j != i;
    }
    forall f | f in Held(m) && f != m.page[i] ensures f in Held(r) {
      var j: nat :| j < MAX && m.page[j] != 0 && m.page[j] == f;
      assert r.page[j] == f;
    }
  }

  // Wiping a slot loses the page it held.
  lemma WipeLoses(m: Store, i: nat)
    requires Sound(m) && i < MAX
    ensures var r := Wipe(m, i);
            && Sound(r) && r.pmm == m.pmm
            && Unheld(r) == Unheld(m) + if m.page[i] != 0 then {m.page[i]} else {}
  {
    if m.page[i] != 0 {
      HeldWithout(m, i);
      assert m.page[i] in UsedSet(m.pmm.bitmap);
    } else {
      assert m.page[i := 0] == m.page;
    }
  }

  lemma ReapKept(m: Store, i: nat)
    requires Sound(m) && i < MAX
    ensures Kept(m, Reap(m, i)) && Reap(m, i).page == m.page[i := 0]
  {
    hide Unheld, FreeStack;
    FreeKept(m, i);
    WipeLoses(FreeStack(m, i), i);
    assert m.page[i := 0][i := 0] == m.page[i := 0];
  }

  lemma GiveKept(m: Store, i: nat)
    requires Sound(m) && i < MAX && m.page[i] == 0 && AllocPage(m.pmm).frame.Some?
    ensures Kept(m, Give(m, i)) && Give(m, i).page[i] != 0
  {
    AllocSpec(m.pmm);
    var f, r := AllocPage(m.pmm).frame.value, Give(m, i);
    assert f !in Held(m);
    forall g | g in Held(m) ensures g in Held(r) {
      var j: nat :| j < MAX && m.page[j] != 0 && m.page[j] == g;
      assert r.page[j] == g;
    }
    forall g | g in Held(r) ensures g in Held(m) + {f} {
      var j: nat :| j < MAX && r.page[j] != 0 && r.page[j] == g;
      if j != i { assert m.page[j] == g; }
    }
    assert r.page[i] == f;
    assert UsedSet(r.pmm.bitmap) == UsedSet(m.pmm.bitmap) + {f};
  }

  // ---- each path ----

  lemma {:induction false} PickKept(s: Sys, m: Store)
    requires Sized(s) && Fitting(m) && Sound(m) && Tied(s.pcb, m)
    ensures Kept(m, PickStore(s, m)) && Tied(PickNext(s).s.pcb, PickStore(s, m))
    decreases |s.q|
  {
    hide Sound, Unheld;
    if s.q != [] {
      var p := s.q[0];
      var t := s.(q := s.q[1..]);
      if s.pcb[p].state == Terminated {
        FreeKept(m, p);
        PickKept(t.(pcb := s.pcb[p := s.pcb[p].(kstack := false)]), FreeStack(m, p));
      } else if s.pcb[p].state != Ready {
        PickKept(t, m);
      }
    }
  }

  lemma NextKept(s: Sys, m: Store)
    requires Sized(s) && Fitting(m) && Sound(m) && Tied(s.pcb, m)
    ensures Kept(m, PickStore(s, m)) && Tied(ScheduleNext(s).pcb, PickStore(s, m))
  {
    hide Kept, Sound, PickStore, PickNext;
    PickKept(s, m);
  }

  // Waking touches no page, no parent and no zombie.
  ghost predicate OnlyWoken(s: Sys, t: Sys) {
    && |t.pcb| == |s.pcb| && t.current == s.current
    && forall i: nat | i < |s.pcb| ::
         && t.pcb[i] == s.pcb[i].(state := t.pcb[i].state)
         && (s.pcb[i].state != Blocked ==> t.pcb[i].state == s.pcb[i].state)
  }

  lemma {:induction false} WakeOnly(s: Sys, p: nat, n: nat)
    requires Sized(s) && p < MAX && 1 <= n <= MAX
    ensures OnlyWoken(s, Wake(s, p, n))
  {
    if n > 1 { WakeOnly(s, p, n - 1); }
  }

  lemma {:induction false} OrphanKept(s: Sys, p: nat, n: nat, m: Store)
    requires Sized(s) && p < MAX && 1 <= n <= MAX && Fitting(m) && Sound(m) && Tied(s.pcb, m)
    ensures Kept(m, OrphanStore(s, p, n, m)) && Tied(Orphan(s, p, n).pcb, OrphanStore(s, p, n, m))
  {
    hide Sound, Unheld, Reap;
    if n > 1 {
      OrphanKept(s, p, n - 1, m);
      ReapKept(OrphanStore(s, p, n - 1, m), n - 1);
    }
  }

  // The process itself: one without parent keeps slot and page; one with a parent is without one
  // afterwards only if it was its own child, and then has no page any more.
  lemma {:induction false} OrphanItself(s: Sys, p: nat, n: nat, m: Store)
    requires Sized(s) && 1 <= p < MAX && 1 <= n <= MAX && Fitting(m) && Sound(m) && Tied(s.pcb, m)
             && s.pcb[p].state == Terminated
    ensures var t, a := Orphan(s, p, n), OrphanStore(s, p, n, m);
            && (s.pcb[p].ppid == 0 ==> t.pcb[p] == s.pcb[p] && a.page[p] == m.page[p])
            && (s.pcb[p].ppid != 0 ==>
                  || (t.pcb[p] == s.pcb[p] && a.page[p] == m.page[p])
                  || (t.pcb[p] == EMPTY && a.page[p] == 0))
  {
    hide Sound, Unheld, Kept, Reap;
    if n > 1 {
      OrphanItself(s, p, n - 1, m);
      OrphanKept(s, p, n - 1, m);
      ReapPage(OrphanStore(s, p, n - 1, m), n - 1);
    }
  }

  lemma ReapPage(m: Store, i: nat)
    requires Fitting(m) && i < MAX
    ensures Reap(m, i).page == m.page[i := 0]
  {
    assert m.page[i := 0][i := 0] == m.page[i := 0];
  }

  // The page an exit loses: that of an orphan ended from outside.
  function LostAtExit(s: Sys, p: nat, m: Store): set<nat>
    requires Sized(s) && Fitting(m)
  {
    if CanExit(s, p) && p != s.current && s.pcb[p].ppid == 0 && m.page[p] != 0 then {m.page[p]} else {}
  }

  lemma ExitLoses(s: Sys, p: nat, code: int, m: Store)
    requires Sized(s) && Fitting(m) && Sound(m) && Tied(s.pcb, m)
    ensures var r := ExitStore(s, p, code, m);
            && Sound(r) && |r.pmm.bitmap| == |m.pmm.bitmap| && Tied(Exit(s, p, code).pcb, r)
            && Unheld(r) == Unheld(m) + LostAtExit(s, p, m)
  {
    hide Sound, Unheld, PickStore, OrphanStore, Wake, Orphan, ScheduleNext, FreeStack;
    if CanExit(s, p) {
      var e := MarkExit(s, p, code);
      var w := Wake(e, p, MAX);
      WakeOnly(e, p, MAX);
      var t := Orphan(w, p, MAX);
      var a := OrphanStore(w, p, MAX, m);
      OrphanKept(w, p, MAX, m);
      OrphanItself(w, p, MAX, m);
      if t.current == p {
        NextKept(t, a);
      } else {
        WipeLoses(a, p);
        FreeKept(a, p);
      }
    }
  }

  lemma WaitKept(s: Sys, target: int, m: Store)
    requires Sized(s) && Fitting(m) && Sound(m) && Tied(s.pcb, m)
    ensures Kept(m, WaitStore(s, target, m)) && Tied(Waitpid(s, target).s.pcb, WaitStore(s, target, m))
  {
    hide Sound, Unheld, PickStore, ScheduleNext, Scheduler.Scan, Reap;
    if target != 0 && target >= ANY && s.current != 0 {
      match Scheduler.Scan(s, target, 1, false)
      case Zombie(z, code) => ReapKept(m, z);
      case NoneYet => NextKept(Requeue(Sleeping(s, target)), m);
      case NoChild =>
    }
  }

  lemma SpawnKept(s: Sys, m: Store)
    requires Sized(s) && Fitting(m) && Sound(m) && Tied(s.pcb, m)
    ensures var page := AllocPage(m.pmm).frame.Some?;
            Kept(m, SpawnStore(s, m)) && Tied(Create(s, page).pcb, SpawnStore(s, m))
  {
    hide Sound, Unheld, AllocSlot, AllocPage;
    var slot := AllocSlot(s.pcb, 1);
    if slot < MAX && AllocPage(m.pmm).frame.Some? {
      WipeLoses(m, slot);
      GiveKept(Wipe(m, slot), slot);
    }
  }

  lemma CloneKept(s: Sys, space: bool, m: Store)
    requires Sized(s) && Fitting(m) && Sound(m) && Tied(s.pcb, m)
    ensures var page := AllocPage(m.pmm).frame.Some?;
            Kept(m, CloneStore(s, space, m)) && Tied(Fork(s, page && space).pcb, CloneStore(s, space, m))
  {
    hide Sound, Unheld, AllocSlot, AllocPage, FreeStack;
    var slot := AllocSlot(s.pcb, 1);
    if s.current != 0 && s.pcb[s.current].kstack && slot < MAX {
      WipeLoses(m, slot);
      if AllocPage(m.pmm).frame.Some? {
        GiveKept(m, slot);
        GiveKept(Wipe(m, slot), slot);
        FreeKept(Give(Wipe(m, slot), slot), slot);
      }
    }
  }

  // ---- steps and runs ----

  // Ending an orphan that has a stack from outside.
  predicate EndsOrphan(x: Machine, e: Event)
    requires Whole(x)
  {
    && e.Kill? && CanExit(x.s, e.p) && e.p != x.s.current
    && x.s.pcb[e.p].ppid == 0 && x.m.page[e.p] != 0
  }

  function LostIn(x: Machine, e: Event): set<nat>
    requires Whole(x)
  {
    if EndsOrphan(x, e) then {x.m.page[e.p]} else {}
  }

  // Any step of any machine whose pages are in order: they stay so, and the pages in use that
  // nobody holds are those there were and the one of an orphan ended from outside.
  lemma StackStep(x: Machine, e: Event)
    requires PageInv(x)
    ensures var r := Step(x, e);
            && PageInv(r) && |r.m.pmm.bitmap| == |x.m.pmm.bitmap|
            && Unheld(r.m) == Unheld(x.m) + LostIn(x, e) && LostIn(x, e) !! Unheld(x.m)
  {
    hide Sound, Unheld, Exit, Waitpid, ScheduleNext, PickStore, ExitStore, WaitStore, SpawnStore, CloneStore, Create,
         Fork, CanExit;
    HeldNow(x, e);
    match e
    case Spawn => SpawnKept(x.s, x.m);
    case Clone(space) => CloneKept(x.s, space, x.m);
    case GiveUp => NextKept(Requeue(x.s), x.m);
    case Tick => NextKept(Requeue(x.s.(ticks := 0)), x.m);
    case Leave(code) => ExitLoses(x.s, x.s.current, code, x.m);
    case Kill(p, code) => ExitLoses(x.s, p, code, x.m);
    case Wait(target) => WaitKept(x.s, target, x.m);
  }

  lemma HeldNow(x: Machine, e: Event)
    requires Whole(x)
    ensures LostIn(x, e) !! Unheld(x.m)
  {
  }

  lemma {:induction false} RunPages(x: Machine, es: seq<Event>)
    requires PageInv(x)
    ensures PageInv(Run(x, es)) && Unheld(x.m) <= Unheld(Run(x, es).m)
    ensures |Run(x, es).m.pmm.bitmap| == |x.m.pmm.bitmap|
    decreases |es|
  {
    hide Sound, Tied, Unheld, Step, LostIn;
    if es != [] {
      StackStep(x, es[0]);
      RunPages(Step(x, es[0]), es[1..]);
    }
  }

  // How many orphans with a stack a run ends from outside.
  function OrphansEnded(x: Machine, es: seq<Event>): nat
    requires Whole(x)
    decreases |es|
  {
    if es == [] then 0 else (if EndsOrphan(x, es[0]) then 1 else 0) + OrphansEnded(Step(x, es[0]), es[1..])
  }

  // Over every run of any steps, a page that is marked as used without a holder stays so; their
  // number grows by exactly the orphans ended from outside.
  lemma {:induction false} LostExactly(x: Machine, es: seq<Event>)
    requires PageInv(x)
    ensures Unheld(x.m) <= Unheld(Run(x, es).m)
    ensures |Unheld(Run(x, es).m)| == |Unheld(x.m)| + OrphansEnded(x, es)
    decreases |es|
  {
    hide Sound, Tied, Unheld, Step, EndsOrphan;
    if es != [] {
      StackStep(x, es[0]);
      var y := Step(x, es[0]);
      assert |Unheld(y.m)| == |Unheld(x.m)| + |LostIn(x, es[0])|;
      LostExactly(y, es[1..]);
    }
  }

  // Over every run, free pages, stacks held, and pages without holder, those there were and those
  // lost since, make up the managed pages.
  lemma StacksAddUp(x: Machine, es: seq<Event>)
    requires PageInv(x)
    ensures var r := Run(x, es).m;
            r.pmm.free + |Held(r)| + |Unheld(x.m)| + OrphansEnded(x, es) == |x.m.pmm.bitmap|
  {
    hide Run, OrphansEnded, Held;
    LostExactly(x, es);
    RunPages(x, es);
    var r := Run(x, es).m;
    Counted(r.pmm.bitmap);
    HeldInUse(r);
    assert UsedSet(r.pmm.bitmap) == Held(r) + Unheld(r);
    assert |Held(r) + Unheld(r)| == |Held(r)| + |Unheld(r)|;
  }

  lemma HeldInUse(m: Store)
    requires Sound(m)
    ensures Held(m) <= UsedSet(m.pmm.bitmap)
  {
  }

  // process_init gives the idle process a page: the pages are in order from there on.
  lemma BootPages(p: Pmm)
    requires Consistent(p) && AllocPage(p).frame.Some?
    ensures PageInv(Machine(Boot(), Give(Store(seq(MAX, _ => 0), p), 0)))
  {
    AllocSpec(p);
    GiveKept(Store(seq(MAX, _ => 0), p), 0);
  }

  // From boot, with a free page: a process is created and killed before it ever ran.  Its stack
  // page stays marked as used and no slot ever holds it again.
  lemma LostExample(x: Machine, es: seq<Event>)
    requires PageInv(x) && x.s == Boot() && AllocPage(x.m.pmm).frame.Some?
    ensures var f := AllocPage(x.m.pmm).frame.value;
            var r := Run(x, [Spawn, Kill(1, 9)] + es).m;
            f < |r.pmm.bitmap| && r.pmm.bitmap[f] && f !in Held(r)
  {
    hide Step, Sound, Tied, AllocPage;
    var f := AllocPage(x.m.pmm).frame.value;
    StackStep(x, Spawn);
    var y := Step(x, Spawn);
    FirstSpawn(x);
    StackStep(y, Kill(1, 9));
    var z := Step(y, Kill(1, 9));
    assert f in Unheld(z.m);
    assert ([Spawn, Kill(1, 9)] + es)[1..] == [Kill(1, 9)] + es && ([Kill(1, 9)] + es)[1..] == es;
    assert Run(x, [Spawn, Kill(1, 9)] + es) == Run(y, [Kill(1, 9)] + es) == Run(z, es);
    RunPages(z, es);
  }

  lemma FirstSpawn(x: Machine)
    requires Whole(x) && x.s == Boot() && AllocPage(x.m.pmm).frame.Some?
    ensures EndsOrphan(Step(x, Spawn), Kill(1, 9))
    ensures Step(x, Spawn).m.page[1] == AllocPage(x.m.pmm).frame.value
  {
    hide AllocPage;
    assert AllocSlot(x.s.pcb, 1) == 1;
    FirstFrame(x.m.pmm);
  }

  lemma FirstFrame(p: Pmm)
    requires |p.refcnt| == |p.bitmap| && AllocPage(p).frame.Some?
    ensures AllocPage(p).frame.value >= FIRST_FRAME
  {
  }
}
