// Page directories and page tables of kernel/paging.c: clone with its rollback,
// destroy, and the copy-on-write fault.  A physical frame is seen by the kind of
// thing it holds; directories, tables and data pages live in one frame array.
module AddressSpace {
  import opened Basics
  import opened Pmm
  import opened Ledger

  const PTRS: nat := 1024
  const USER_PDIS: nat := 768
  const USER_VPNS: nat := USER_PDIS * PTRS
  const PAGE_SIZE: nat := 4096

  // A present entry always carries RW in this kernel, so RW is not a field.
  datatype Pde = Pde(present: bool, pse: bool, frame: nat, user: bool, attrs: nat)

  const NO_PDE := Pde(false, false, 0, false, 0)

  datatype Frame = Data(bytes: seq<Byte>) | Table(ptes: seq<Pte>) | Dir(pdes: seq<Pde>)

  datatype Mem = Mem(pmm: Pmm, frames: seq<Frame>)

  predicate Sized(m: Mem) {
    |m.frames| == |m.pmm.bitmap| == |m.pmm.refcnt|
  }

  predicate IsDir(m: Mem, f: nat) {
    f < |m.frames| && m.frames[f].Dir? && |m.frames[f].pdes| == PTRS
  }

  predicate IsTable(m: Mem, f: nat) {
    f < |m.frames| && m.frames[f].Table? && |m.frames[f].ptes| == PTRS
  }

  // The page table behind directory slot p; absent and 4 MiB slots have none.
  function TableAt(m: Mem, pd: nat, p: nat): Option<nat> {
    if p < PTRS && IsDir(m, pd) && m.frames[pd].pdes[p].present && !m.frames[pd].pdes[p].pse
       && IsTable(m, m.frames[pd].pdes[p].frame)
    then Some(m.frames[pd].pdes[p].frame)
    else None
  }

  // walk_pte, by virtual page number.
  function PteAt(m: Mem, pd: nat, v: nat): Pte {
    match TableAt(m, pd, v / PTRS)
    case None => NO_PTE
    case Some(t) => m.frames[t].ptes[v % PTRS]
  }

  function SetPte(m: Mem, t: nat, k: nat, e: Pte): (r: Mem)
    requires IsTable(m, t) && k < PTRS
    ensures IsTable(r, t) && r.pmm == m.pmm && |r.frames| == |m.frames|
  {
    m.(frames := m.frames[t := Table(m.frames[t].ptes[k := e])])
  }

  // ---- clone ----

  function CloneSlot(m: Mem, pt: nat, ct: nat, k: nat): (r: Mem)
    requires Sized(m) && IsTable(m, pt) && IsTable(m, ct) && k < PTRS
    ensures Sized(r) && IsTable(r, pt) && IsTable(r, ct)
  {
    var pte := m.frames[pt].ptes[k];
    var m1 := SetPte(m, ct, k, ChildEntry(pte));
    if !pte.present then m1
    else
      var m2 := if pte.user && pte.rw then SetPte(m1, pt, k, ChildEntry(pte)) else m1;
      m2.(pmm := RefInc(m2.pmm, pte.frame))
  }

  function CloneSlots(m: Mem, pt: nat, ct: nat, i: nat): (r: Mem)
    requires Sized(m) && IsTable(m, pt) && IsTable(m, ct) && i <= PTRS
    ensures Sized(r) && IsTable(r, pt) && IsTable(r, ct) && |r.frames| == |m.frames|
    ensures r.pmm.bitmap == m.pmm.bitmap && r.pmm.free == m.pmm.free
    ensures forall f | 0 <= f < |m.frames| && f != pt && f != ct :: r.frames[f] == m.frames[f]
  {
    if i == 0 then m else CloneSlot(CloneSlots(m, pt, ct, i - 1), pt, ct, i - 1)
  }

  // The words a recycled frame still holds when clone starts to fill it.
  function StaleTable(f: Frame): seq<Pte> {
    if f.Table? && |f.ptes| == PTRS then f.ptes else seq(PTRS, _ => NO_PTE)
  }

  // The child's slot p gets table frame t, mirroring the parent's USER bit.
  function Link(m: Mem, parent: nat, child: nat, p: nat, t: nat): Mem
    requires IsDir(m, parent) && IsDir(m, child) && p < PTRS && t < |m.frames|
  {
    var pde := m.frames[parent].pdes[p];
    var cd := Dir(m.frames[child].pdes[p := Pde(true, false, t, pde.user, pde.attrs)]);
    m.(frames := m.frames[child := cd][t := Table(StaleTable(m.frames[t]))])
  }

  datatype Progress = Progress(m: Mem, oom: bool, at: nat)

  function CloneDir(m: Mem, parent: nat, child: nat, p: nat): (r: Progress)
    requires Sized(m) && IsDir(m, child) && m.pmm.bitmap[child] && p < USER_PDIS
    ensures Sized(r.m) && IsDir(r.m, child) && r.m.pmm.bitmap[child]
  {
    match TableAt(m, parent, p)
    case None => Progress(m, false, p + 1)
    case Some(pt) =>
      var a := AllocPage(m.pmm);
      match a.frame
      case None => Progress(m, true, p)
      case Some(ct) =>
        Progress(CloneSlots(Link(m.(pmm := a.pmm), parent, child, p, ct), pt, ct, PTRS), false, p + 1)
  }

  function CloneDirs(m: Mem, parent: nat, child: nat, i: nat): (r: Progress)
    requires Sized(m) && IsDir(m, child) && m.pmm.bitmap[child] && i <= USER_PDIS
    ensures Sized(r.m) && IsDir(r.m, child) && r.m.pmm.bitmap[child]
    ensures !r.oom ==> r.at == i
    ensures r.oom ==> r.at < i
  {
    if i == 0 then Progress(m, false, 0)
    else
      var prev := CloneDirs(m, parent, child, i - 1);
      if prev.oom then prev else CloneDir(prev.m, parent, child, i - 1)
  }

  function RollbackSlot(m: Mem, pt: Option<nat>, ct: nat, k: nat): (r: Mem)
    requires Sized(m) && IsTable(m, ct) && k < PTRS && (pt.Some? ==> IsTable(m, pt.value))
    ensures Sized(r) && IsTable(r, ct) && (pt.Some? ==> IsTable(r, pt.value)) && |r.frames| == |m.frames|
    ensures r.pmm.bitmap == m.pmm.bitmap
  {
    var cpte := m.frames[ct].ptes[k];
    if !cpte.present then m
    else
      var m1 := if cpte.cow && pt.Some? then SetPte(m, pt.value, k, Pte(true, cpte.frame, true, true, false, 0)) else m;
      m1.(pmm := RefDec(m1.pmm, cpte.frame))
  }

  function RollbackSlots(m: Mem, pt: Option<nat>, ct: nat, i: nat): (r: Mem)
    requires Sized(m) && IsTable(m, ct) && i <= PTRS && (pt.Some? ==> IsTable(m, pt.value))
    ensures Sized(r) && IsTable(r, ct) && (pt.Some? ==> IsTable(r, pt.value)) && |r.frames| == |m.frames|
    ensures r.pmm.bitmap == m.pmm.bitmap
  {
    if i == 0 then m else RollbackSlot(RollbackSlots(m, pt, ct, i - 1), pt, ct, i - 1)
  }

  function FreeFrame(m: Mem, f: nat): (r: Mem)
    requires Sized(m)
    ensures Sized(r) && r.frames == m.frames
  {
    m.(pmm := MarkFree(m.pmm, f))
  }

  function RollbackDir(m: Mem, parent: nat, child: nat, p: nat): (r: Mem)
    requires Sized(m) && p < USER_PDIS
    ensures Sized(r)
  {
    match TableAt(m, child, p)
    case None => m
    case Some(ct) => FreeFrame(RollbackSlots(m, TableAt(m, parent, p), ct, PTRS), ct)
  }

  function RollbackDirs(m: Mem, parent: nat, child: nat, i: nat): (r: Mem)
    requires Sized(m) && i <= USER_PDIS
    ensures Sized(r)
  {
    if i == 0 then m else RollbackDir(RollbackDirs(m, parent, child, i - 1), parent, child, i - 1)
  }

  function EmptyDir(): Frame {
    Dir(seq(PTRS, _ => NO_PDE))
  }

  function CopyKernelHalf(m: Mem, parent: nat, child: nat): (r: Mem)
    requires Sized(m) && IsDir(m, child)
    ensures Sized(r)
  {
    if IsDir(m, parent)
    then m.(frames := m.frames[child := Dir(m.frames[child].pdes[..USER_PDIS] + m.frames[parent].pdes[USER_PDIS..])])
    else m
  }

  datatype Cloned = Cloned(m: Mem, child: Option<nat>)

  // paging_clone_address_space; None stands for -ENOMEM.
  function CloneSpace(m: Mem, parent: nat): (r: Cloned)
    requires Sized(m)
    ensures Sized(r.m)
  {
    if parent == 0 then Cloned(m, None) else
    var a := AllocPage(m.pmm);
    match a.frame
    case None => Cloned(m, None)
    case Some(c) =>
      var pr := CloneDirs(Mem(a.pmm, m.frames[c := EmptyDir()]), parent, c, USER_PDIS);
      if pr.oom
      then Cloned(FreeFrame(RollbackDirs(pr.m, parent, c, pr.at), c), None)
      else Cloned(CopyKernelHalf(pr.m, parent, c), Some(c))
  }

  // ---- destroy ----

  function DestroySlots(m: Mem, t: nat, i: nat): (r: Mem)
    requires Sized(m) && IsTable(m, t) && i <= PTRS
    ensures Sized(r) && r.frames == m.frames
  {
    if i == 0 then m
    else
      var q := DestroySlots(m, t, i - 1);
      var pte := q.frames[t].ptes[i - 1];
      if pte.present then q.(pmm := Release(q.pmm, pte.frame)) else q
  }

  function DestroyDir(m: Mem, pd: nat, p: nat): (r: Mem)
    requires Sized(m) && p < USER_PDIS
    ensures Sized(r) && |r.frames| == |m.frames|
  {
    match TableAt(m, pd, p)
    case None => m
    case Some(t) =>
      var q := FreeFrame(DestroySlots(m, t, PTRS), t);
      q.(frames := q.frames[pd := Dir(q.frames[pd].pdes[p := NO_PDE])])
  }

  function DestroyDirs(m: Mem, pd: nat, i: nat): (r: Mem)
    requires Sized(m) && i <= USER_PDIS
    ensures Sized(r)
  {
    if i == 0 then m else DestroyDir(DestroyDirs(m, pd, i - 1), pd, i - 1)
  }

  // paging_destroy_address_space: the kernel's and the current directory are refused.
  predicate DestroyRefused(pd: nat, kernelPd: nat, cr3: nat) {
    pd == 0 || pd == kernelPd || pd == cr3
  }

  function DestroySpace(m: Mem, pd: nat, kernelPd: nat, cr3: nat): (r: Mem)
    requires Sized(m)
    ensures Sized(r)
  {
    if DestroyRefused(pd, kernelPd, cr3) then m
    else FreeFrame(DestroyDirs(m, pd, USER_PDIS), pd)
  }

  // ---- write fault ----

  datatype FaultResult = Resolved | NotMine | NoMemory

  datatype Fault = Fault(m: Mem, result: FaultResult)

  // paging_handle_cow_fault for a write (error bit 1) at virtual page v of directory pd.
  function CowFault(m: Mem, pd: nat, v: nat): (r: Fault)
    requires Sized(m)
    ensures Sized(r.m)
  {
    if v >= USER_VPNS then Fault(m, NotMine) else
    match TableAt(m, pd, v / PTRS)
    case None => Fault(m, NotMine)
    case Some(t) =>
      var pte := m.frames[t].ptes[v % PTRS];
      if !pte.present || !pte.user || pte.rw || !pte.cow then Fault(m, NotMine)
      else if RefGet(m.pmm, pte.frame) > 1 then
        var a := AllocPage(m.pmm);
        match a.frame
        case None => Fault(m, NoMemory)
        case Some(g) =>
          var copied := m.frames[g := m.frames[pte.frame]];
          var m1 := Mem(RefDec(a.pmm, pte.frame), copied);
          Fault(if IsTable(m1, t) then SetPte(m1, t, v % PTRS, Pte(true, g, true, true, false, ACCESSED_DIRTY)) else m1,
                Resolved)
      else Fault(SetPte(m, t, v % PTRS, pte.(rw := true, cow := false)), Resolved)
  }

  const ACCESSED_DIRTY: nat := 0x60

  // ---- stores and new mappings ----

  datatype StoreResult = Done | Denied | OutOfMemory

  datatype Stored = Stored(m: Mem, result: StoreResult)

  function WriteByte(m: Mem, f: nat, off: nat, val: Byte): (r: Mem)
    requires Sized(m)
    ensures Sized(r)
  {
    if f < |m.frames| && m.frames[f].Data? && off < |m.frames[f].bytes|
    then m.(frames := m.frames[f := Data(m.frames[f].bytes[off := val])])
    else m
  }

  // A store to a user page.  With CR0.WP set a store to a read-only page faults in
  // either ring; the handler runs and, if it resolves the fault, the store is retried.
  function Store(m: Mem, pd: nat, v: nat, off: nat, val: Byte): (r: Stored)
    requires Sized(m) && v < USER_VPNS
    ensures Sized(r.m)
  {
    var t := PteAt(m, pd, v);
    if !t.present || !t.user || !m.frames[pd].pdes[v / PTRS].user then Stored(m, Denied)
    else if t.rw then Stored(WriteByte(m, t.frame, off, val), Done)
    else
      var fault := CowFault(m, pd, v);
      match fault.result
      case NotMine => Stored(m, Denied)
      case NoMemory => Stored(m, OutOfMemory)
      case Resolved => Stored(WriteByte(fault.m, PteAt(fault.m, pd, v).frame, off, val), Done)
  }

  // map_page on directory pd, whose slot may or may not have a table yet; false is -4.
  datatype Mapped = Mapped(m: Mem, ok: bool)

  function MapPage(m: Mem, pd: nat, v: nat, f: nat, rw: bool, user: bool): (r: Mapped)
    requires Sized(m) && IsDir(m, pd) && v < USER_VPNS
    ensures Sized(r.m)
  {
    match TableAt(m, pd, v / PTRS)
    case Some(t) => Mapped(SetPte(m, t, v % PTRS, Pte(true, f, rw, user, false, 0)), true)
    case None =>
      var a := AllocPage(m.pmm);
      match a.frame
      case None => Mapped(m, false)
      case Some(t) =>
        var dir := Dir(m.frames[pd].pdes[v / PTRS := Pde(true, false, t, user, 0)]);
        var table := Table(seq(PTRS, _ => NO_PTE)[v % PTRS := Pte(true, f, rw, user, false, 0)]);
        Mapped(Mem(a.pmm, m.frames[pd := dir][t := table]), true)
  }

  // map_user_page of kernel/elf.c: a zeroed page mapped present, writable and user.
  function MapUserPage(m: Mem, pd: nat, v: nat): (r: Mapped)
    requires Sized(m) && IsDir(m, pd) && m.pmm.bitmap[pd] && v < USER_VPNS
    ensures Sized(r.m)
  {
    var a := AllocPage(m.pmm);
    match a.frame
    case None => Mapped(m, false)
    case Some(f) =>
      var z := Mem(a.pmm, m.frames[f := Data(seq(PAGE_SIZE, _ => 0))]);
      var r := MapPage(z, pd, v, f, true, true);
      if r.ok then r else Mapped(FreeFrame(r.m, f), false)
  }
}
