// What becomes of exit codes: each is handed to the right parent, once, as recorded.
module SchedulerWait {
  import opened Scheduler
  import opened SchedulerProof
  import opened SchedulerRuns

  // A waitpid that returned: which process was collected, by which, with which code.
  datatype Receipt = Receipt(child: nat, parent: nat, code: int)

  // Slots are reused, so processes are told apart by a serial number: inc[i] is the serial of
  // the process in slot i, parent and exited say who forked and with which code it exited.
  datatype Hist = Hist(inc: seq<nat>, next: nat, parent: map<nat, nat>, exited: map<nat, int>, log: seq<Receipt>)

  datatype World = World(s: Sys, h: Hist)

  predicate Fits(w: World) {
    Sized(w.s) && |w.h.inc| == MAX
  }

  function Born(h: Hist, slot: nat, mother: nat): Hist
    requires slot < |h.inc|
  {
    h.(inc := h.inc[slot := h.next], next := h.next + 1, parent := h.parent[h.next := mother])
  }

  function Record(w: World, e: Event): (h: Hist)
    requires Fits(w)
    ensures |h.inc| == MAX
  {
    var s, h := w.s, w.h;
    match e
    case Spawn(page) =>
      var slot := AllocSlot(s.pcb, 1);
      if slot == MAX || !page then h else Born(h, slot, 0)
    case Clone(memory) =>
      var slot := AllocSlot(s.pcb, 1);
      if s.current == 0 || !s.pcb[s.current].kstack || slot == MAX || !memory then h
        else Born(h, slot, h.inc[s.current])
    case Leave(code) => if CanExit(s, s.current) then h.(exited := h.exited[h.inc[s.current] := code]) else h
    case Kill(p, code) => if CanExit(s, p) then h.(exited := h.exited[h.inc[p] := code]) else h
    case Wait(target) =>
      (match Waitpid(s, target).result
       case Returned(z, code) => h.(log := h.log + [Receipt(h.inc[z], h.inc[s.current], code)])
       case _ => h)
    case _ => h
  }

  function WStep(w: World, e: Event): (r: World)
    requires Fits(w)
    ensures Fits(r)
  {
    World(Step(w.s, e), Record(w, e))
  }

  function WRun(w: World, es: seq<Event>): (r: World)
    requires Fits(w)
    ensures Fits(r)
    decreases |es|
  {
    if es == [] then w else WRun(WStep(w, es[0]), es[1..])
  }

  function Begin(): (w: World)
    ensures Fits(w)
  {
    World(Boot(), Hist(seq(MAX, i => 0), 1, map[], map[], []))
  }

  ghost predicate Serials(pcb: seq<Proc>, h: Hist)
    requires |pcb| == MAX && |h.inc| == MAX
  {
    && h.inc[0] == 0 && h.next >= 1
    && (forall i: nat | 1 <= i < MAX && pcb[i].pid != 0 :: 1 <= h.inc[i] < h.next)
    && (forall i: nat, j: nat | 1 <= i < j < MAX && pcb[i].pid != 0 && pcb[j].pid != 0 :: h.inc[i] != h.inc[j])
    && (forall x | x in h.exited :: x < h.next)
  }

  ghost predicate Descent(pcb: seq<Proc>, h: Hist)
    requires |pcb| == MAX && |h.inc| == MAX
  {
    forall i: nat | 1 <= i < MAX && pcb[i].pid != 0 && pcb[i].ppid != 0 ::
      pcb[i].ppid < MAX && h.inc[i] in h.parent && h.parent[h.inc[i]] == h.inc[pcb[i].ppid]
  }

  ghost predicate Logged(h: Hist, x: nat) {
    exists k: nat :: k < |h.log| && h.log[k].child == x
  }

  // A zombie holds the code its process exited with and has not been collected; a living
  // process has not exited.
  ghost predicate Codes(pcb: seq<Proc>, h: Hist)
    requires |pcb| == MAX && |h.inc| == MAX
  {
    forall i: nat | 1 <= i < MAX && pcb[i].pid != 0 ::
      if pcb[i].state == Terminated
        then h.inc[i] in h.exited && h.exited[h.inc[i]] == pcb[i].code && !Logged(h, h.inc[i])
      else h.inc[i] !in h.exited
  }

  // Every receipt is genuine: the child exited with that code and was forked by that parent;
  // no child appears twice.
  ghost predicate Genuine(h: Hist) {
    && (forall k: nat | k < |h.log| ::
          var r := h.log[k];
          r.child in h.exited && h.exited[r.child] == r.code && r.child in h.parent && h.parent[r.child] == r.parent)
    && (forall j: nat, k: nat | j < k < |h.log| :: h.log[j].child != h.log[k].child)
  }

  ghost predicate Told(pcb: seq<Proc>, h: Hist)
    requires |pcb| == MAX && |h.inc| == MAX
  {
    Serials(pcb, h) && Descent(pcb, h) && Codes(pcb, h) && Genuine(h)
  }

  // Processes may lose their parent or be cleared away, but none appears or exits.
  ghost predicate Quiet(a: seq<Proc>, b: seq<Proc>)
    requires |a| == MAX && |b| == MAX
  {
    forall i: nat | i < MAX && b[i].pid != 0 ::
      && b[i].pid == a[i].pid && b[i].code == a[i].code && (b[i].state == Terminated <==> a[i].state == Terminated)
      && (b[i].ppid == a[i].ppid || b[i].ppid == 0)
  }

  lemma ToldQuiet(a: seq<Proc>, b: seq<Proc>, h: Hist)
    requires |a| == MAX && |b| == MAX && |h.inc| == MAX && Told(a, h) && Quiet(a, b)
    ensures Told(b, h)
  {
  }

  lemma ToldBorn(pcb: seq<Proc>, h: Hist, slot: nat, m: nat)
    requires Slots(pcb) && Family(pcb) && |h.inc| == MAX && Told(pcb, h)
    requires 1 <= slot < MAX && pcb[slot] == EMPTY && m < MAX && m != slot
    requires forall k: nat | k < |h.log| :: h.log[k].child < h.next
    ensures Told(pcb[slot := Proc(slot, Ready, m, 0, 0, true)], Born(h, slot, h.inc[m]))
  {
    var r, h' := pcb[slot := Proc(slot, Ready, m, 0, 0, true)], Born(h, slot, h.inc[m]);
    forall i: nat | i < MAX && pcb[i].ppid != 0 ensures pcb[i].ppid != slot { assert Parented(pcb, i); }
    forall k: nat | k < |h.log| ensures h'.log[k].child in h'.parent && h'.parent[h'.log[k].child] == h'.log[k].parent {
      assert h.log[k].child < h.next;
    }
    forall i: nat | 1 <= i < MAX && r[i].pid != 0 && r[i].state == Terminated ensures !Logged(h', h'.inc[i]) {
      assert !Logged(h, h.inc[i]);
    }
  }

  lemma LogOld(pcb: seq<Proc>, h: Hist)
    requires |pcb| == MAX && |h.inc| == MAX && Told(pcb, h)
    ensures forall k: nat | k < |h.log| :: h.log[k].child < h.next
  {
    forall k: nat | k < |h.log| ensures h.log[k].child < h.next {
      assert h.log[k].child in h.exited;
    }
  }

  lemma ToldExit(pcb: seq<Proc>, h: Hist, p: nat, code: int)
    requires Slots(pcb) && |h.inc| == MAX && Told(pcb, h) && 1 <= p < MAX && pcb[p].pid != 0
             && pcb[p].state != Terminated
    ensures Told(pcb[p := pcb[p].(code := code, state := Terminated)], h.(exited := h.exited[h.inc[p] := code]))
  {
    var h' := h.(exited := h.exited[h.inc[p] := code]);
    assert h.inc[p] !in h.exited;
    forall x ensures Logged(h', x) == Logged(h, x) {}
    assert !Logged(h, h.inc[p]);
  }

  lemma ToldReap(pcb: seq<Proc>, h: Hist, me: nat, z: nat)
    requires Slots(pcb) && |h.inc| == MAX && Told(pcb, h) && 1 <= z < MAX && 1 <= me < MAX
    requires pcb[z].pid != 0 && pcb[z].state == Terminated && pcb[z].ppid == me
    ensures Told(pcb[z := EMPTY], h.(log := h.log + [Receipt(h.inc[z], h.inc[me], pcb[z].code)]))
  {
    var r, h' := pcb[z := EMPTY], h.(log := h.log + [Receipt(h.inc[z], h.inc[me], pcb[z].code)]);
    assert !Logged(h, h.inc[z]);
    assert forall k: nat | k < |h.log| :: h.log[k].child != h.inc[z];
    forall i: nat | 1 <= i < MAX && r[i].pid != 0 && r[i].state == Terminated ensures !Logged(h', h'.inc[i]) {
      assert !Logged(h, h.inc[i]);
      assert h.inc[i] != h.inc[z];
    }
  }

  lemma GoneQuiet(pcb: seq<Proc>, p: nat, code: int)
    requires Slots(pcb) && 1 <= p < MAX
    ensures Quiet(pcb[p := pcb[p].(code := code, state := Terminated)], Gone(pcb, p, code))
  {
  }

  lemma DispatchQuiet(s: Sys)
    requires Switching(s)
    ensures Quiet(s.pcb, ScheduleNext(s).pcb)
  {
    hide ScheduleNext, Family, Sleepers;
    DispatchHead(s);
    assert s.q[0] in s.q;
  }

  lemma YieldQuiet(s: Sys)
    requires SInv(s)
    ensures Quiet(s.pcb, Yield(s).pcb)
  {
    hide ScheduleNext, Family, Sleepers, Quiet;
    if s.current != 0 {
      RequeueSwitching(s);
      DispatchQuiet(Requeue(s));
      RequeueQuiet(s);
      QuietTrans(s.pcb, Requeue(s).pcb, Yield(s).pcb);
    } else {
      QuietSame(s.pcb);
    }
  }

  lemma TickQuiet(s: Sys)
    requires SInv(s)
    ensures Quiet(s.pcb, PreemptTick(s).pcb)
  {
    hide ScheduleNext, Family, Sleepers, Quiet, QueueOk, OneRunning, Slots, Requeue;
    var u := s.(ticks := 0);
    if s.ticks + 1 >= QUANTUM && s.q != [] {
      SameTable(s, u);
      RequeueSwitching(u);
      DispatchQuiet(Requeue(u));
      RequeueQuiet(u);
      QuietTrans(s.pcb, Requeue(u).pcb, ScheduleNext(Requeue(u)).pcb);
      assert s.(ticks := s.ticks + 1).(ticks := 0) == u;
    } else {
      QuietSame(s.pcb);
    }
  }

  lemma RequeueQuiet(s: Sys)
    requires Sized(s)
    ensures Quiet(s.pcb, Requeue(s).pcb)
  {
  }

  lemma QuietSame(a: seq<Proc>)
    requires |a| == MAX
    ensures Quiet(a, a)
  {
  }

  lemma QuietTrans(a: seq<Proc>, b: seq<Proc>, c: seq<Proc>)
    requires |a| == MAX && |b| == MAX && |c| == MAX && Quiet(a, b) && Quiet(b, c)
    ensures Quiet(a, c)
  {
  }

  lemma QuietSlot(pcb: seq<Proc>, z: nat, x: Proc)
    requires |pcb| == MAX && z < MAX && (x.pid == 0 || x == pcb[z].(kstack := x.kstack))
    ensures Quiet(pcb, pcb[z := x])
  {
  }

  lemma ExitTold(w: World, p: nat, code: int)
    requires Fits(w) && SInv(w.s) && Told(w.s.pcb, w.h) && CanExit(w.s, p) && w.s.pcb[p].state != Ready
    ensures Told(Exit(w.s, p, code).pcb, w.h.(exited := w.h.exited[w.h.inc[p] := code]))
  {
    hide Family, Sleepers, QueueOk, Gone, Told, Quiet, ScheduleNext, Slots;
    var s, h' := w.s, w.h.(exited := w.h.exited[w.h.inc[p] := code]);
    ToldExit(s.pcb, w.h, p, code);
    GoneQuiet(s.pcb, p, code);
    ToldQuiet(s.pcb[p := s.pcb[p].(code := code, state := Terminated)], Gone(s.pcb, p, code), h');
    ExitTable(s, p, code);
    var t := Orphan(Wake(MarkExit(s, p, code), p, MAX), p, MAX);
    if p == s.current {
      GoneSwitching(s, p, code);
      DispatchQuiet(t);
    } else {
      QuietSlot(t.pcb, p, EMPTY);
      QuietSlot(t.pcb, p, t.pcb[p].(kstack := false));
    }
    ToldQuiet(t.pcb, Exit(s, p, code).pcb, h');
  }

  lemma BornTold(w: World, slot: nat, m: nat)
    requires Fits(w) && SInv(w.s) && Told(w.s.pcb, w.h) && slot == AllocSlot(w.s.pcb, 1) < MAX && m < MAX
             && (m == 0 || w.s.pcb[m].pid == m)
    ensures Told(Launch(w.s, slot, m).pcb, Born(w.h, slot, w.h.inc[m]))
  {
    hide Family, Sleepers, QueueOk, OneRunning, Told, AllocSlot, Born;
    LogOld(w.s.pcb, w.h);
    ToldBorn(w.s.pcb, w.h, slot, m);
  }

  lemma WaitTold(w: World, target: int)
    requires Fits(w) && SInv(w.s) && Told(w.s.pcb, w.h)
    ensures Told(Waitpid(w.s, target).s.pcb, Record(w, Wait(target)))
  {
    hide Family, Sleepers, QueueOk, Told, Quiet, ScheduleNext, Scan;
    var s := w.s;
    if s.current != 0 && target != 0 && target >= ANY {
      ScanMeans(s, target, 1, false);
      match Scan(s, target, 1, false)
      case NoChild =>
      case Zombie(z, code) => ToldReap(s.pcb, w.h, s.current, z);
      case NoneYet =>
        BlockSwitching(s, target);
        var t := s.(pcb := s.pcb[s.current := s.pcb[s.current].(wait := target, state := Blocked)]);
        DispatchQuiet(t);
        BlockQuiet(s.pcb, s.current, target);
        QuietTrans(s.pcb, t.pcb, ScheduleNext(t).pcb);
        assert Block(s, target) == ScheduleNext(t);
        ToldQuiet(s.pcb, ScheduleNext(t).pcb, w.h);
    }
  }

  lemma BlockQuiet(pcb: seq<Proc>, me: nat, target: int)
    requires |pcb| == MAX && me < MAX && pcb[me].state == Running
    ensures Quiet(pcb, pcb[me := pcb[me].(wait := target, state := Blocked)])
  {
  }

  lemma StepTold(w: World, e: Event)
    requires Fits(w) && SInv(w.s) && Told(w.s.pcb, w.h) && Allowed(w.s, e)
    ensures Told(Step(w.s, e).pcb, Record(w, e))
  {
    hide Family, Sleepers, QueueOk, Told, Quiet, Yield, PreemptTick, Exit, Waitpid, Launch, Born, AllocSlot;
    var s := w.s;
    match e
    case Spawn(page) =>
      var slot := AllocSlot(s.pcb, 1);
      if slot < MAX { BornTold(w, slot, 0); FirstSerial(w); }
    case Clone(memory) =>
      var slot := AllocSlot(s.pcb, 1);
      if slot < MAX {
        BornTold(w, slot, s.current);
        QuietSlot(s.pcb, slot, EMPTY);
        ToldQuiet(s.pcb, s.pcb[slot := EMPTY], w.h);
      }
    case GiveUp => YieldQuiet(s); ToldQuiet(s.pcb, Yield(s).pcb, w.h);
    case Tick => TickQuiet(s); ToldQuiet(s.pcb, PreemptTick(s).pcb, w.h);
    case Leave(code) => if CanExit(s, s.current) { ExitTold(w, s.current, code); } else { NoExit(s, s.current, code); }
    case Kill(p, code) => if CanExit(s, p) { ExitTold(w, p, code); } else { NoExit(s, p, code); }
    case Wait(target) => WaitTold(w, target); 
  }

  lemma FirstSerial(w: World)
    requires Fits(w) && Told(w.s.pcb, w.h)
    ensures w.h.inc[0] == 0
  {
  }

  // Over every run: whatever waitpid hands out is the code that very child exited with, it
  // goes to the process that forked the child, and no child is handed out twice.
  lemma {:induction false} WaitIntegrity(w: World, es: seq<Event>)
    requires Fits(w) && SInv(w.s) && Told(w.s.pcb, w.h) && AllAllowed(w.s, es)
    ensures var r := WRun(w, es); SInv(r.s) && r.s == Run(w.s, es) && Told(r.s.pcb, r.h) && Genuine(r.h)
    decreases |es|
  {
    hide Slots, Family, Sleepers, QueueOk, OneRunning, Step, Allowed, Record, Serials, Descent, Codes, Genuine;
    if es != [] {
      StepInv(w.s, es[0]);
      StepTold(w, es[0]);
      WaitIntegrity(WStep(w, es[0]), es[1..]);
    }
  }

  lemma FromBoot(es: seq<Event>)
    requires AllAllowed(Boot(), es)
    ensures Genuine(WRun(Begin(), es).h) && SInv(WRun(Begin(), es).s)
  {
    hide WRun, Run, AllAllowed, SInv;
    BootInv();
    assert Told(Boot().pcb, Begin().h);
    WaitIntegrity(Begin(), es);
  }
}
