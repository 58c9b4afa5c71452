// kernel/paging.c in its own form: the bitmap, the counts and the frames are arrays
// updated in place.  Every method is proved equal to its function on the memory view.
module PagingKernel {
  import opened Basics
  import opened Pmm
  import opened Ledger
  import opened AddressSpace

  class Paging {
    const bitmap: array<bool>
    const refcnt: array<nat>
    const frames: array<Frame>
    const kernelPd: nat
    var freePages: int
    var nextPage: nat
    var cr3: nat

    ghost predicate Valid()
      reads this
    {
      bitmap.Length == refcnt.Length == frames.Length
    }

    ghost function Alloc(): Pmm
      reads this, bitmap, refcnt
    {
      Pmm(bitmap[..], refcnt[..], freePages, nextPage)
    }

    ghost function View(): Mem
      reads this, bitmap, refcnt, frames
    {
      Mem(Alloc(), frames[..])
    }

    method MarkPageUsed(i: nat)
      requires Valid()
      modifies bitmap, refcnt, `freePages
      ensures Valid() && Alloc() == MarkUsed(old(Alloc()), i)
    {
      if i >= bitmap.Length { return; }
      if !bitmap[i] {
        bitmap[i] := true;
        freePages := freePages - 1;
        refcnt[i] := 1;
      }
    }

    method MarkPageFree(i: nat)
      requires Valid()
      modifies bitmap, refcnt, `freePages
      ensures Valid() && Alloc() == MarkFree(old(Alloc()), i)
    {
      if i >= bitmap.Length { return; }
      if bitmap[i] {
        bitmap[i] := false;
        freePages := freePages + 1;
        refcnt[i] := 0;
      }
    }

    method PageRefInc(i: nat)
      requires Valid()
      modifies refcnt
      ensures Alloc() == RefInc(old(Alloc()), i)
    {
      if i >= refcnt.Length || refcnt[i] >= REF_SATURATION { return; }
      refcnt[i] := refcnt[i] + 1;
    }

    method PageRefDec(i: nat) returns (left: nat)
      requires Valid()
      modifies refcnt
      ensures Alloc() == RefDec(old(Alloc()), i)
      ensures left == RefGet(Alloc(), i)
    {
      if i >= refcnt.Length { return 0; }
      if refcnt[i] == 0 { return 0; }
      refcnt[i] := refcnt[i] - 1;
      left := refcnt[i];
    }

    // The scan of pmm_alloc_from over [FIRST_FRAME, managed_pages), from index begin on.
    method FindFree(begin: nat) returns (frame: Option<nat>)
      requires FIRST_FRAME <= begin < bitmap.Length
      ensures frame == Scan(bitmap[..], FIRST_FRAME, bitmap.Length - FIRST_FRAME, begin - FIRST_FRAME, 0)
    {
      hide ScanIndex;
      var span := bitmap.Length - FIRST_FRAME;
      var k := 0;
      while k < span
        invariant k <= span
        invariant Scan(bitmap[..], FIRST_FRAME, span, begin - FIRST_FRAME, 0) ==
                  Scan(bitmap[..], FIRST_FRAME, span, begin - FIRST_FRAME, k)
      {
        var i := FIRST_FRAME + ScanIndex(begin - FIRST_FRAME, k, span);
        if !bitmap[i] { return Some(i); }
        k := k + 1;
      }
      return None;
    }

    // pmm_alloc_page: pmm_alloc_from over [FIRST_FRAME, managed_pages).
    method PmmAllocPage() returns (frame: Option<nat>)
      requires Valid()
      modifies bitmap, refcnt, `freePages, `nextPage
      ensures Valid() && Alloc() == AllocPage(old(Alloc())).pmm && frame == AllocPage(old(Alloc())).frame
    {
      hide Scan;
      var end := bitmap.Length;
      if FIRST_FRAME >= end { return None; }
      var begin := nextPage;
      if begin < FIRST_FRAME || begin >= end { begin := FIRST_FRAME; }
      frame := FindFree(begin);
      if frame.Some? {
        MarkPageUsed(frame.value);
        nextPage := frame.value + 1;
        if nextPage >= end { nextPage := FIRST_FRAME; }
      }
    }

    method WritePte(t: nat, k: nat, e: Pte)
      requires Valid() && IsTable(View(), t) && k < PTRS
      modifies frames
      ensures View() == SetPte(old(View()), t, k, e)
    {
      frames[t] := Table(frames[t].ptes[k := e]);
      assert frames[..] == old(frames[..])[t := frames[t]];
    }

    // clone, inner loop.
    method CloneTable(pt: nat, ct: nat)
      requires Valid() && IsTable(View(), pt) && IsTable(View(), ct)
      modifies refcnt, frames
      ensures View() == CloneSlots(old(View()), pt, ct, PTRS)
    {
      ghost var m := View();
      var k := 0;
      while k < PTRS
        invariant k <= PTRS && View() == CloneSlots(m, pt, ct, k)
        invariant IsTable(View(), pt) && IsTable(View(), ct)
      {
        var pte := frames[pt].ptes[k];
        if !pte.present {
          WritePte(ct, k, NO_PTE);
        } else {
          if pte.user && pte.rw {
            WritePte(ct, k, Pte(true, pte.frame, false, true, true, 0));
            WritePte(pt, k, Pte(true, pte.frame, false, true, true, 0));
          } else {
            WritePte(ct, k, pte);
          }
          PageRefInc(pte.frame);
        }
        k := k + 1;
      }
    }

    // rollback, inner loop.
    method RollbackTable(pt: Option<nat>, ct: nat)
      requires Valid() && IsTable(View(), ct) && (pt.Some? ==> IsTable(View(), pt.value))
      modifies refcnt, frames
      ensures View() == RollbackSlots(old(View()), pt, ct, PTRS)
    {
      ghost var m := View();
      var k := 0;
      while k < PTRS
        invariant k <= PTRS && View() == RollbackSlots(m, pt, ct, k)
        invariant IsTable(View(), ct) && (pt.Some? ==> IsTable(View(), pt.value))
      {
        var cpte := frames[ct].ptes[k];
        if cpte.present {
          if cpte.cow && pt.Some? {
            WritePte(pt.value, k, Pte(true, cpte.frame, true, true, false, 0));
          }
          var _ := PageRefDec(cpte.frame);
        }
        k := k + 1;
      }
    }

    // walk_pte down to the table.
    method WalkTable(pd: nat, p: nat) returns (t: Option<nat>)
      ensures t == TableAt(View(), pd, p)
    {
      if p >= PTRS || pd >= frames.Length || !frames[pd].Dir? || |frames[pd].pdes| != PTRS { return None; }
      var e := frames[pd].pdes[p];
      if !e.present || e.pse || e.frame >= frames.Length { return None; }
      if !frames[e.frame].Table? || |frames[e.frame].ptes| != PTRS { return None; }
      return Some(e.frame);
    }

    // One round of clone's outer loop.
    method CloneDirectorySlot(parent: nat, child: nat, p: nat) returns (oom: bool)
      requires Valid() && IsDir(View(), child) && bitmap[child] && p < USER_PDIS
      modifies bitmap, refcnt, frames, `freePages, `nextPage
      ensures Valid()
      ensures View() == CloneDir(old(View()), parent, child, p).m && oom == CloneDir(old(View()), parent, child, p).oom
    {
      var pt := WalkTable(parent, p);
      if pt.None? { return false; }
      var ct := PmmAllocPage();
      if ct.None? { return true; }
      var pde := frames[parent].pdes[p];
      ghost var before := View();
      frames[child] := Dir(frames[child].pdes[p := Pde(true, false, ct.value, pde.user, pde.attrs)]);
      frames[ct.value] := Table(StaleTable(frames[ct.value]));
      assert frames[..] == Link(before, parent, child, p, ct.value).frames;
      CloneTable(pt.value, ct.value);
      return false;
    }

    method RollbackDirectorySlot(parent: nat, child: nat, p: nat)
      requires Valid() && p < USER_PDIS
      modifies bitmap, refcnt, frames, `freePages
      ensures Valid() && View() == RollbackDir(old(View()), parent, child, p)
    {
      var ct := WalkTable(child, p);
      if ct.Some? {
        var pt := WalkTable(parent, p);
        RollbackTable(pt, ct.value);
        MarkPageFree(ct.value);
      }
    }

    method Rollback(parent: nat, child: nat, at: nat)
      requires Valid() && at <= USER_PDIS
      modifies bitmap, refcnt, frames, `freePages
      ensures Valid() && View() == FreeFrame(RollbackDirs(old(View()), parent, child, at), child)
    {
      ghost var m := View();
      var undo := 0;
      while undo < at
        invariant Valid() && undo <= at && View() == RollbackDirs(m, parent, child, undo)
      {
        RollbackDirectorySlot(parent, child, undo);
        undo := undo + 1;
      }
      MarkPageFree(child);
    }

    method CopyKernelPdes(parent: nat, child: nat)
      requires Valid() && IsDir(View(), child)
      modifies frames
      ensures View() == CopyKernelHalf(old(View()), parent, child)
    {
      ghost var m := View();
      if parent >= frames.Length || !frames[parent].Dir? || |frames[parent].pdes| != PTRS { return; }
      ghost var cd, pd := m.frames[child].pdes, m.frames[parent].pdes;
      assert cd[..USER_PDIS] + pd[USER_PDIS..USER_PDIS] + cd[USER_PDIS..] == cd;
      var k := USER_PDIS;
      while k < PTRS
        invariant USER_PDIS <= k <= PTRS && IsDir(m, parent)
        invariant frames[..] == m.frames[child := Dir(cd[..USER_PDIS] + pd[USER_PDIS..k] + cd[k..])]
      {
        frames[child] := Dir(frames[child].pdes[k := frames[parent].pdes[k]]);
        assert frames[child].pdes == cd[..USER_PDIS] + pd[USER_PDIS..k + 1] + cd[k + 1..];
        k := k + 1;
      }
      assert cd[..USER_PDIS] + pd[USER_PDIS..PTRS] + cd[PTRS..] == cd[..USER_PDIS] + pd[USER_PDIS..];
    }

    method CloneDirectories(parent: nat, child: nat) returns (oom: bool, at: nat)
      requires Valid() && IsDir(View(), child) && bitmap[child]
      modifies bitmap, refcnt, frames, `freePages, `nextPage
      ensures Valid() && IsDir(View(), child)
              && Progress(View(), oom, at) == CloneDirs(old(View()), parent, child, USER_PDIS)
    {
      ghost var m := View();
      at := 0;
      while at < USER_PDIS
        invariant Valid() && at <= USER_PDIS && Progress(View(), false, at) == CloneDirs(m, parent, child, at)
        invariant IsDir(View(), child) && bitmap[child]
      {
        ghost var before := View();
        var full := CloneDirectorySlot(parent, child, at);
        if full {
          OomStays(m, parent, child, at + 1, USER_PDIS);
          return true, at;
        }
        at := at + 1;
      }
      return false, at;
    }

    // paging_clone_address_space.
    method CloneAddressSpace(parent: nat) returns (child: Option<nat>)
      requires Valid()
      modifies bitmap, refcnt, frames, `freePages, `nextPage
      ensures Valid() && View() == CloneSpace(old(View()), parent).m && child == CloneSpace(old(View()), parent).child
    {
      if parent == 0 { return None; }
      var c := PmmAllocPage();
      if c.None? { return None; }
      frames[c.value] := EmptyDir();
      var oom, at := CloneDirectories(parent, c.value);
      if oom {
        Rollback(parent, c.value, at);
        return None;
      }
      CopyKernelPdes(parent, c.value);
      return c;
    }

    // destroy, inner loop.
    method DestroyTable(t: nat)
      requires Valid() && IsTable(View(), t)
      modifies bitmap, refcnt, `freePages
      ensures Valid() && View() == DestroySlots(old(View()), t, PTRS)
    {
      ghost var m := View();
      var k := 0;
      while k < PTRS
        invariant Valid() && k <= PTRS && View() == DestroySlots(m, t, k)
      {
        var pte := frames[t].ptes[k];
        if pte.present {
          var left := PageRefDec(pte.frame);
          if left == 0 { MarkPageFree(pte.frame); }
        }
        k := k + 1;
      }
    }

    // paging_destroy_address_space.
    method DestroyAddressSpace(pd: nat)
      requires Valid()
      modifies bitmap, refcnt, frames, `freePages
      ensures Valid() && View() == DestroySpace(old(View()), pd, kernelPd, cr3)
    {
      if pd == 0 || pd == kernelPd || pd == cr3 { return; }
      ghost var m := View();
      var p := 0;
      while p < USER_PDIS
        invariant Valid() && p <= USER_PDIS && View() == DestroyDirs(m, pd, p)
      {
        var t := WalkTable(pd, p);
        if t.Some? {
          DestroyTable(t.value);
          MarkPageFree(t.value);
          frames[pd] := Dir(frames[pd].pdes[p := NO_PDE]);
        }
        p := p + 1;
      }
      MarkPageFree(pd);
    }

    // paging_handle_cow_fault at virtual page v of the loaded directory; write says whether
    // the error code carries the write bit.
    method HandleCowFault(v: nat, write: bool) returns (result: FaultResult)
      requires Valid()
      modifies bitmap, refcnt, frames, `freePages, `nextPage
      ensures Valid()
      ensures !write ==> result == NotMine && View() == old(View())
      ensures write ==> View() == CowFault(old(View()), cr3, v).m && result == CowFault(old(View()), cr3, v).result
    {
      if !write || v >= USER_VPNS { return NotMine; }
      var t := WalkTable(cr3, v / PTRS);
      if t.None? { return NotMine; }
      var pte := frames[t.value].ptes[v % PTRS];
      if !pte.present || !pte.user || pte.rw || !pte.cow { return NotMine; }
      if pte.frame < refcnt.Length && refcnt[pte.frame] > 1 {
        var g := PmmAllocPage();
        if g.None? { return NoMemory; }
        frames[g.value] := frames[pte.frame];
        var _ := PageRefDec(pte.frame);
        if frames[t.value].Table? && |frames[t.value].ptes| == PTRS {
          WritePte(t.value, v % PTRS, Pte(true, g.value, true, true, false, ACCESSED_DIRTY));
        }
      } else {
        WritePte(t.value, v % PTRS, pte.(rw := true, cow := false));
      }
      return Resolved;
    }
  }

  // Once the outer loop has run out of memory it stays where it is.
  lemma {:induction false} OomStays(m: Mem, parent: nat, child: nat, i: nat, j: nat)
    requires Sized(m) && IsDir(m, child) && m.pmm.bitmap[child] && i <= j <= USER_PDIS
    requires CloneDirs(m, parent, child, i).oom
    ensures CloneDirs(m, parent, child, j) == CloneDirs(m, parent, child, i)
  {
    if i < j { OomStays(m, parent, child, i, j - 1); }
  }
}
