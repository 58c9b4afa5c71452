// Whole runs of the paging machine against private, eagerly copied address spaces.
module CowRuns {
  import opened Basics
  import opened Pmm
  import opened Ledger
  import opened AddressSpace
  import opened Spaces
  import opened Holdings
  import opened HoldingsKept
  import opened CloneProof
  import opened CloneTheorem
  import opened DestroyTheorem
  import opened RollbackTheorem
  import opened CowStore
  import opened CowMap

  // The kernel's view: physical memory, the kernel directory and the loaded one (cr3).
  // live is the set of directories handed out by clone and not yet destroyed, with the
  // kernel's; held is the set of frames the kernel uses itself: those reserved at boot and
  // those taken with pmm_alloc_page for stacks and buffers.
  datatype Machine = Machine(m: Mem, live: set<nat>, held: set<nat>, kernelPd: nat, cr3: nat)

  datatype Op =
    | Fork
    | Destroy(pd: nat)
    | Switch(pd: nat)
    | Write(v: nat, off: nat, val: Byte)
    | MapNew(v: nat)
    | KernelAlloc
    | KernelFree(f: nat)
    | KernelWrite(f: nat, contents: Frame)

  // What an operation turned out to do.
  datatype Event =
    | Quiet
    | Forked(parent: nat, child: nat)
    | Destroyed(pd: nat)
    | Wrote(pd: nat, v: nat, off: nat, val: Byte)
    | Added(pd: nat, v: nat, user: bool)

  // The spaces keep their invariant, every used frame has exactly one holder, and no
  // directory names a frame twice.
  ghost predicate MachineInv(s: Machine) {
    && Sized(s.m) && Inv(s.m, s.live) && Owned(s.m, s.live, s.held) && Once(EntriesOf(s.m, s.live))
    && s.kernelPd in s.live && s.cr3 in s.live
  }

  // The callers' obligations.  Fork: there are fewer than 250 spaces (the process table has 32
  // slots), and if memory runs out then no page in the tables already copied is still shared.
  // MapNew: the page is not mapped.  The kernel frees and writes only frames of its own.
  ghost predicate Allowed(s: Machine, op: Op) {
    match op
    case Fork =>
      && |s.live| < REF_SATURATION
      && (Sized(s.m) && CloneSpace(s.m, s.cr3).child.None? ==>
            forall v: nat | v < USER_VPNS && v < FailPoint(s.m, s.cr3) * PTRS
                            && PteAt(s.m, s.cr3, v).present && PteAt(s.m, s.cr3, v).cow ::
              RefGet(s.m.pmm, PteAt(s.m, s.cr3, v).frame) == 1)
    case Destroy(pd) => pd in s.live
    case Switch(pd) => pd in s.live
    case Write(v, off, val) => v < USER_VPNS && off < PAGE_SIZE
    case MapNew(v) => v < USER_VPNS && !PteAt(s.m, s.kernelPd, v).present
    case KernelAlloc => true
    case KernelFree(f) => f in s.held
    case KernelWrite(f, contents) => f in s.held
  }

  // One operation.  What the operation's code takes for granted of the memory is tested here, so
  // that a step is defined in every state.
  ghost function Step(s: Machine, op: Op): (Machine, Event) {
    if !Sized(s.m) then (s, Quiet) else
    match op
    case Fork =>
      var r := CloneSpace(s.m, s.cr3);
      if r.child.Some? then (s.(m := r.m, live := s.live + {r.child.value}), Forked(s.cr3, r.child.value))
      else (s.(m := r.m), Quiet)
    case Destroy(pd) =>
      if DestroyRefused(pd, s.kernelPd, s.cr3) then (s, Quiet)
      else (s.(m := DestroySpace(s.m, pd, s.kernelPd, s.cr3), live := s.live - {pd}), Destroyed(pd))
    case Switch(pd) => (s.(cr3 := pd), Quiet)
    case Write(v, off, val) =>
      if v >= USER_VPNS then (s, Quiet) else
      var r := Store(s.m, s.cr3, v, off, val);
      (s.(m := r.m), if r.result == Done then Wrote(s.cr3, v, off, val) else Quiet)
    case MapNew(v) =>
      if v >= USER_VPNS || !IsDir(s.m, s.kernelPd) || !s.m.pmm.bitmap[s.kernelPd] then (s, Quiet) else
      var r := MapUserPage(s.m, s.kernelPd, v);
      (s.(m := r.m),
       if r.ok && IsDir(r.m, s.kernelPd)
       then Added(s.kernelPd, v, r.m.frames[s.kernelPd].pdes[v / PTRS].user)
       else Quiet)
    case KernelAlloc =>
      var a := AllocPage(s.m.pmm);
      if a.frame.None? then (s, Quiet)
      else (s.(m := s.m.(pmm := a.pmm), held := s.held + {a.frame.value}), Quiet)
    case KernelFree(f) => (s.(m := FreeFrame(s.m, f), held := s.held - {f}), Quiet)
    case KernelWrite(f, contents) =>
      if f >= |s.m.frames| then (s, Quiet)
      else (s.(m := s.m.(frames := s.m.frames[f := contents])), Quiet)
  }

  ghost function AddPage(spaces: map<nat, Space>, pd: nat, v: nat, page: Page): map<nat, Space>
    requires pd in spaces
  {
    var grown: Space := spaces[pd][v := page];
    spaces[pd := grown]
  }

  // The same events on private copies: fork copies the whole space at once, a write
  // changes the writer's own copy and nothing else.
  ghost function Private(spaces: map<nat, Space>, ev: Event): map<nat, Space> {
    match ev
    case Quiet => spaces
    case Forked(parent, child) => if parent in spaces then spaces[child := spaces[parent]] else spaces
    case Destroyed(pd) => spaces - {pd}
    case Wrote(pd, v, off, val) =>
      if pd in spaces && v in spaces[pd] && off < |spaces[pd][v].bytes| then StoreInto(spaces, pd, v, off, val)
        else spaces
    case Added(pd, v, user) =>
      if pd in spaces then AddPage(spaces, pd, v, Page(user, true, seq(PAGE_SIZE, _ => 0))) else spaces
  }

  // A step keeps the invariant and does to the spaces what its event does to private copies.
  ghost predicate Refined(s: Machine, op: Op) {
    var (s', ev) := Step(s, op);
    MachineInv(s') && Abs(s'.m, s'.live) == Private(Abs(s.m, s.live), ev)
  }

  lemma LiveDir(m: Mem, live: set<nat>, pd: nat)
    requires Structure(m, live) && pd in live
    ensures Sized(m) && IsDir(m, pd) && m.pmm.bitmap[pd]
  {
  }

  lemma ForkStep(s: Machine)
    requires MachineInv(s) && Allowed(s, Fork)
    ensures Refined(s, Fork)
  {
    hide Structure, Accounts, Exclusive, MapsData, CowEncoded, EntriesOf, Headroom, CloneSpace, SpaceOf, PteAt, Owned,
         Once;
    RoomToClone(s.m, s.live, s.cr3);
    var r := CloneSpace(s.m, s.cr3);
    if r.child.Some? {
      CloneRefines(s.m, s.live, s.cr3);
      CloneKeepsOwners(s.m, s.live, s.held, s.cr3);
    } else {
      FailedCloneInvariant(s.m, s.live, s.cr3);
      FailedCloneKeeps(s.m, s.live, s.held, s.cr3);
    }
  }

  lemma DestroyStep(s: Machine, pd: nat)
    requires MachineInv(s) && Allowed(s, Destroy(pd))
    ensures Refined(s, Destroy(pd))
  {
    hide Structure, Accounts, Exclusive, MapsData, CowEncoded, EntriesOf, SpaceOf, PteAt, DestroySpace, Owned, Once;
    if !DestroyRefused(pd, s.kernelPd, s.cr3) {
      DestroyRefines(s.m, s.live, pd, s.kernelPd, s.cr3);
      DestroyKeeps(s.m, s.live, s.held, pd, s.kernelPd, s.cr3);
    }
  }

  lemma WriteStep(s: Machine, v: nat, off: nat, val: Byte)
    requires MachineInv(s) && Allowed(s, Write(v, off, val))
    ensures Refined(s, Write(v, off, val))
  {
    hide Structure, Accounts, Exclusive, MapsData, CowEncoded, EntriesOf, SpaceOf, PteAt, Store, Owned, Once;
    StoreRefines(s.m, s.live, s.cr3, v, off, val);
    StoreKeeps(s.m, s.live, s.held, s.cr3, v, off, val);
  }

  lemma MapStep(s: Machine, v: nat)
    requires MachineInv(s) && Allowed(s, MapNew(v))
    ensures Refined(s, MapNew(v))
  {
    hide Structure, Accounts, Exclusive, MapsData, CowEncoded, EntriesOf, SpaceOf, PteAt, MapUserPage, Owned, Once;
    LiveDir(s.m, s.live, s.kernelPd);
    MapRefines(s.m, s.live, s.kernelPd, v);
    if MapUserPage(s.m, s.kernelPd, v).ok {
      MapExact(s.m, s.live, s.held, s.kernelPd, v);
    } else {
      MapFailKeeps(s.m, s.live, s.held, s.kernelPd, v);
    }
  }

  lemma SwitchStep(s: Machine, pd: nat)
    requires MachineInv(s) && Allowed(s, Switch(pd))
    ensures Refined(s, Switch(pd))
  {
    hide Inv, Abs, Owned, Once, EntriesOf;
  }

  lemma KernelStep(s: Machine, op: Op)
    requires MachineInv(s) && Allowed(s, op) && (op.KernelAlloc? || op.KernelFree? || op.KernelWrite?)
    ensures Refined(s, op)
  {
    hide Inv, Abs, Owned, Once, EntriesOf, AllocPage, FreeFrame;
    match op
    case KernelAlloc => if AllocPage(s.m.pmm).frame.Some? { KernelAllocKeeps(s.m, s.live, s.held); }
    case KernelFree(f) => KernelFreeKeeps(s.m, s.live, s.held, f);
    case KernelWrite(f, contents) => KernelWriteKeeps(s.m, s.live, s.held, f, contents);
  }

  lemma StepRefines(s: Machine, op: Op)
    requires MachineInv(s) && Allowed(s, op)
    ensures var (s', ev) := Step(s, op);
            MachineInv(s') && Abs(s'.m, s'.live) == Private(Abs(s.m, s.live), ev)
  {
    hide MachineInv, Allowed, Abs, Private, Step;
    match op
    case Fork => ForkStep(s);
    case Destroy(pd) => DestroyStep(s, pd);
    case Switch(pd) => SwitchStep(s, pd);
    case Write(v, off, val) => WriteStep(s, v, off, val);
    case MapNew(v) => MapStep(s, v);
    case _ => KernelStep(s, op);
  }

  // A run: every operation meets its caller's obligations.
  ghost predicate IsRun(states: seq<Machine>, ops: seq<Op>, events: seq<Event>) {
    && |states| == |ops| + 1 && |events| == |ops|
    && (forall i: nat | i < |ops| ::
          Allowed(states[i], ops[i]) && (states[i + 1], events[i]) == Step(states[i], ops[i]))
  }

  ghost function PrivateRun(spaces: map<nat, Space>, events: seq<Event>): map<nat, Space> {
    if events == [] then spaces
    else Private(PrivateRun(spaces, events[..|events| - 1]), events[|events| - 1])
  }

  // Over every interleaving of forks, destroys, switches, writes and new pages, every live
  // space reads exactly like the private copy taken when it was forked.
  lemma {:induction false} RunRefines(states: seq<Machine>, ops: seq<Op>, events: seq<Event>)
    requires IsRun(states, ops, events) && MachineInv(states[0])
    ensures MachineInv(states[|ops|])
    ensures Abs(states[|ops|].m, states[|ops|].live) == PrivateRun(Abs(states[0].m, states[0].live), events)
  {
    hide MachineInv, Allowed, Abs, Private, Step;
    var n := |ops|;
    if n > 0 {
      assert IsRun(states[..n], ops[..n - 1], events[..n - 1]);
      RunRefines(states[..n], ops[..n - 1], events[..n - 1]);
      StepRefines(states[n - 1], ops[n - 1]);
    }
  }

  // An event that touches space pd itself.
  predicate Touches(ev: Event, pd: nat) {
    match ev
    case Quiet => false
    case Forked(_, child) => child == pd
    case Destroyed(q) => q == pd
    case Wrote(q, _, _, _) => q == pd
    case Added(q, _, _) => q == pd
  }

  lemma {:induction false} PrivateIsolation(spaces: map<nat, Space>, events: seq<Event>, pd: nat)
    requires pd in spaces && forall i: nat | i < |events| :: !Touches(events[i], pd)
    ensures pd in PrivateRun(spaces, events) && PrivateRun(spaces, events)[pd] == spaces[pd]
  {
    if events != [] { PrivateIsolation(spaces, events[..|events| - 1], pd); }
  }

  // A space that is neither written, extended nor destroyed itself reads the same at the
  // end of a run, whatever all the others did.
  lemma Isolation(states: seq<Machine>, ops: seq<Op>, events: seq<Event>, pd: nat)
    requires IsRun(states, ops, events) && MachineInv(states[0]) && pd in states[0].live
    requires forall i: nat | i < |events| :: !Touches(events[i], pd)
    ensures pd in states[|ops|].live
    ensures SpaceOf(states[|ops|].m, pd) == SpaceOf(states[0].m, pd)
  {
    hide MachineInv, Allowed, SpaceOf, PrivateRun, Step;
    RunRefines(states, ops, events);
    PrivateIsolation(Abs(states[0].m, states[0].live), events, pd);
  }

  // At every point of a run the pages add up: free ones, the kernel's, directories, tables and
  // mapped frames make the managed pages.
  lemma NoLeak(states: seq<Machine>, ops: seq<Op>, events: seq<Event>)
    requires IsRun(states, ops, events) && MachineInv(states[0])
    ensures var s := states[|ops|];
            s.m.pmm.free + |s.held| + |s.live| + |TablesOf(s.m, s.live)| + |FramesOf(EntriesOf(s.m, s.live))|
            == |s.m.pmm.bitmap|
  {
    hide Allowed, SpaceOf, PrivateRun, Step, Inv, Owned, Once, TablesOf, FramesOf, EntriesOf;
    RunRefines(states, ops, events);
    var s := states[|ops|];
    MemoryEquation(s.m, s.live, s.held);
  }

  // Boot: the kernel directory with an empty user half, and an allocator that agrees with its
  // bitmap, is a legal start; all that is in use is the kernel's.
  lemma BootInv(s: Machine)
    requires s.live == {s.kernelPd} && s.cr3 == s.kernelPd && 0 < s.kernelPd
    requires Sized(s.m) && Consistent(s.m.pmm) && IsDir(s.m, s.kernelPd) && s.m.pmm.bitmap[s.kernelPd]
    requires forall p: nat | p < USER_PDIS :: !s.m.frames[s.kernelPd].pdes[p].present
    requires s.held == UsedSet(s.m.pmm.bitmap) - {s.kernelPd}
    ensures MachineInv(s)
  {
    hide EntriesOf, TablesOf, PteAt;
    BootEmpty(s.m, s.kernelPd);
    BootStructure(s.m, s.kernelPd);
    assert InUse(s.m, s.live) == {s.kernelPd};
  }

  lemma BootEmpty(m: Mem, pd: nat)
    requires IsDir(m, pd) && forall p: nat | p < USER_PDIS :: !m.frames[pd].pdes[p].present
    ensures EntriesOf(m, {pd}) == map[] && TablesOf(m, {pd}) == {} && FramesOf(map[]) == {}
  {
    forall k | k in EntriesOf(m, {pd}) ensures false { EntryKeys(m, {pd}, k); }
  }

  lemma BootStructure(m: Mem, pd: nat)
    requires Sized(m) && 0 < pd && IsDir(m, pd) && m.pmm.bitmap[pd]
    requires forall p: nat | p < USER_PDIS :: !m.frames[pd].pdes[p].present
    ensures Structure(m, {pd})
  {
  }
}
