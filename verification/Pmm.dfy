// The physical page allocator of kernel/paging.c: one bit per managed frame, a
// one-byte reference count per frame, a running count of free frames and a
// next-fit cursor.  Frames are named by their index (physical address >> 12).
module Pmm {
  import opened Basics

  // KERNEL_PHYS_LOAD >> PAGE_SHIFT: frames below this one are never handed out.
  const FIRST_FRAME: nat := 256
  // page_ref_inc stops counting here rather than wrapping its byte.
  const REF_SATURATION: nat := 250

  // |bitmap| is managed_pages; a set bit means reserved or allocated.
  datatype Pmm = Pmm(bitmap: seq<bool>, refcnt: seq<nat>, free: int, cursor: nat)

  function ClearSet(bitmap: seq<bool>): set<nat> {
    set i: nat | i < |bitmap| && !bitmap[i]
  }

  // What every operation of the allocator keeps.
  ghost predicate Consistent(p: Pmm) {
    && |p.refcnt| == |p.bitmap|
    && p.free == |ClearSet(p.bitmap)|
    && (forall i :: 0 <= i < |p.bitmap| && !p.bitmap[i] ==> p.refcnt[i] == 0)
  }

  function MarkUsed(p: Pmm, i: nat): Pmm
    requires |p.refcnt| == |p.bitmap|
  {
    if i >= |p.bitmap| || p.bitmap[i] then p
    else p.(bitmap := p.bitmap[i := true], free := p.free - 1, refcnt := p.refcnt[i := 1])
  }

  function MarkFree(p: Pmm, i: nat): Pmm
    requires |p.refcnt| == |p.bitmap|
  {
    if i >= |p.bitmap| || !p.bitmap[i] then p
    else p.(bitmap := p.bitmap[i := false], free := p.free + 1, refcnt := p.refcnt[i := 0])
  }

  function RefInc(p: Pmm, i: nat): Pmm
    requires |p.refcnt| == |p.bitmap|
  {
    if i >= |p.bitmap| || p.refcnt[i] >= REF_SATURATION then p
    else p.(refcnt := p.refcnt[i := p.refcnt[i] + 1])
  }

  function RefDec(p: Pmm, i: nat): Pmm
    requires |p.refcnt| == |p.bitmap|
  {
    if i >= |p.bitmap| || p.refcnt[i] == 0 then p
    else p.(refcnt := p.refcnt[i := p.refcnt[i] - 1])
  }

  function RefGet(p: Pmm, i: nat): nat
    requires |p.refcnt| == |p.bitmap|
  {
    if i >= |p.bitmap| then 0 else p.refcnt[i]
  }

  // destroy's release of one mapping: drop a reference, free the frame at zero.
  function Release(p: Pmm, i: nat): Pmm
    requires |p.refcnt| == |p.bitmap|
  {
    var q := RefDec(p, i);
    if RefGet(q, i) == 0 then MarkFree(q, i) else q
  }

  // (off + k) % span for off, k < span.
  function Circular(off: nat, k: nat, span: nat): nat {
    if off + k < span then off + k else off + k - span
  }

  lemma TimesAtLeast(a: nat, b: nat, d: nat)
    requires a <= b
    ensures a * d <= b * d
  {
  }

  lemma CircularIsMod(off: nat, k: nat, span: nat)
    requires off < span && k < span
    ensures Circular(off, k, span) == (off + k) % span
  {
    var q, r := (off + k) / span, (off + k) % span;
    assert q * span + r == off + k;
    if q >= 2 {
      TimesAtLeast(2, q, span);
    } else if q == 1 {
      assert 1 * span == span;
    }
  }

  // The index expression of pmm_alloc_from.
  function ScanIndex(off: nat, k: nat, span: nat): (i: nat)
    requires off < span && k < span
    ensures i == Circular(off, k, span)
  {
    CircularIsMod(off, k, span);
    (off + k) % span
  }

  // The circular scan of pmm_alloc_from over [start, start+span), k steps in.
  function Scan(bitmap: seq<bool>, start: nat, span: nat, off: nat, k: nat): (r: Option<nat>)
    requires start + span <= |bitmap| && off < span && k <= span
    ensures r.Some? ==> start <= r.value < start + span && !bitmap[r.value]
    ensures r.None? ==> forall j :: k <= j < span ==> bitmap[start + Circular(off, j, span)]
    decreases span - k
  {
    if k == span then None
    else
      var i := start + Circular(off, k, span);
      if !bitmap[i] then Some(i) else Scan(bitmap, start, span, off, k + 1)
  }

  datatype Alloc = Alloc(pmm: Pmm, frame: Option<nat>)

  // pmm_alloc_page: next-fit over [FIRST_FRAME, managed_pages).
  function AllocPage(p: Pmm): (r: Alloc)
    requires |p.refcnt| == |p.bitmap|
    ensures |r.pmm.refcnt| == |r.pmm.bitmap| == |p.bitmap|
    ensures r.frame.Some? ==> r.frame.value < |p.bitmap| && !p.bitmap[r.frame.value]
    ensures r.frame.Some? ==> r.pmm.bitmap == p.bitmap[r.frame.value := true]
    ensures r.frame.None? ==> r.pmm == p
  {
    var end := |p.bitmap|;
    if FIRST_FRAME >= end then Alloc(p, None) else
    var span := end - FIRST_FRAME;
    var begin := if p.cursor < FIRST_FRAME || p.cursor >= end then FIRST_FRAME else p.cursor;
    match Scan(p.bitmap, FIRST_FRAME, span, begin - FIRST_FRAME, 0)
    case None => Alloc(p, None)
    case Some(i) =>
      Alloc(MarkUsed(p, i).(cursor := if i + 1 >= end then FIRST_FRAME else i + 1), Some(i))
  }

  // Circular positions reach every slot: the scan that fails has seen them all.
  lemma ScanCovers(bitmap: seq<bool>, start: nat, span: nat, off: nat, i: nat)
    requires start + span <= |bitmap| && off < span && start <= i < start + span
    requires Scan(bitmap, start, span, off, 0).None?
    ensures bitmap[i]
  {
    var d := i - start;
    var j := if d >= off then d - off else d - off + span;
    assert Circular(off, j, span) == d;
  }

  // pmm_alloc_page succeeds exactly when some frame it may use is free, hands out
  // a free frame with one reference, and touches no other frame.
  lemma AllocSpec(p: Pmm)
    requires Consistent(p)
    ensures var r := AllocPage(p);
            && Consistent(r.pmm)
            && (r.frame.None? <==> forall i :: FIRST_FRAME <= i < |p.bitmap| ==> p.bitmap[i])
            && (r.frame.None? ==> r.pmm == p)
            && (r.frame.Some? ==>
                  && FIRST_FRAME <= r.frame.value < |p.bitmap|
                  && !p.bitmap[r.frame.value]
                  && r.pmm.bitmap == p.bitmap[r.frame.value := true]
                  && r.pmm.refcnt == p.refcnt[r.frame.value := 1]
                  && r.pmm.free == p.free - 1)
  {
    var r := AllocPage(p);
    if r.frame.Some? {
      var i := r.frame.value;
      assert ClearSet(r.pmm.bitmap) == ClearSet(p.bitmap) - {i};
      assert i in ClearSet(p.bitmap);
    } else if FIRST_FRAME < |p.bitmap| {
      var span := |p.bitmap| - FIRST_FRAME;
      var begin := if p.cursor < FIRST_FRAME || p.cursor >= |p.bitmap| then FIRST_FRAME else p.cursor;
      forall i | FIRST_FRAME <= i < |p.bitmap| ensures p.bitmap[i] {
        ScanCovers(p.bitmap, FIRST_FRAME, span, begin - FIRST_FRAME, i);
      }
    }
  }

  lemma MarkFreeSpec(p: Pmm, i: nat)
    requires Consistent(p)
    ensures Consistent(MarkFree(p, i))
    ensures MarkFree(p, i).free == p.free + if i < |p.bitmap| && p.bitmap[i] then 1 else 0
  {
    if i < |p.bitmap| && p.bitmap[i] {
      assert ClearSet(MarkFree(p, i).bitmap) == ClearSet(p.bitmap) + {i};
    }
  }

  // Allocating and freeing the same frame is the identity but for the cursor.
  lemma AllocThenFree(p: Pmm)
    requires Consistent(p) && AllocPage(p).frame.Some?
    ensures MarkFree(AllocPage(p).pmm, AllocPage(p).frame.value) == p.(cursor := AllocPage(p).pmm.cursor)
  {
    AllocSpec(p);
    var r := AllocPage(p);
    var q := MarkFree(r.pmm, r.frame.value);
    assert q.bitmap == p.bitmap;
    assert q.refcnt == p.refcnt;
  }
}
