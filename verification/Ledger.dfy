// Reference-count accounting of kernel/paging.c, away from the page-table layout:
// a ledger is the set of user-half entries in force, keyed by (directory, virtual
// page), and the allocator's counts must equal the number of entries per frame.
module Ledger {
  import opened Pmm

  // A page-table entry; attrs stands for the PWT/PCD/ACCESSED/DIRTY/GLOBAL bits.
  datatype Pte = Pte(present: bool, frame: nat, rw: bool, user: bool, cow: bool, attrs: nat)

  const NO_PTE := Pte(false, 0, false, false, false, 0)

  datatype Key = Key(pd: nat, vpn: nat)
  type Entries = map<Key, Pte>

  ghost function Sharers(e: Entries, f: nat): set<Key> {
    set k | k in e && e[k].frame == f
  }

  // Counts are exact, and no frame an entry names is on the free bitmap.
  ghost predicate Accounts(p: Pmm, e: Entries) {
    && Consistent(p)
    && (forall k | k in e :: e[k].present && e[k].frame < |p.bitmap| && p.bitmap[e[k].frame])
    && (forall k | k in e :: p.refcnt[e[k].frame] == |Sharers(e, e[k].frame)|)
  }

  // A frame that some user entry may write without a fault has no other entry.
  ghost predicate Exclusive(e: Entries) {
    forall k | k in e && e[k].rw && e[k].user :: Sharers(e, e[k].frame) == {k}
  }

  // No directory names a frame twice.
  ghost predicate Once(e: Entries) {
    forall j, k | j in e && k in e && j.pd == k.pd && e[j].frame == e[k].frame :: j == k
  }

  // The frames some entry names.
  ghost function FramesOf(e: Entries): set<nat> {
    set k | k in e :: e[k].frame
  }

  // clone's treatment of one entry, child side and parent side.
  function ChildEntry(t: Pte): Pte {
    if !t.present then NO_PTE
    else if t.user && t.rw then Pte(true, t.frame, false, true, true, 0)
    else t
  }

  function ParentEntry(t: Pte): Pte {
    if t.present && t.user && t.rw then ChildEntry(t) else t
  }

  lemma SharersAdd(e: Entries, e': Entries, k: Key, f: nat)
    requires k !in e && e'.Keys == e.Keys + {k} && e'[k].frame == f
    requires forall j | j in e :: e'[j].frame == e[j].frame
    ensures Sharers(e', f) == Sharers(e, f) + {k}
    ensures |Sharers(e', f)| == |Sharers(e, f)| + 1
    ensures forall g | g != f :: Sharers(e', g) == Sharers(e, g)
  {
  }

  lemma SharersRemove(e: Entries, e': Entries, k: Key, f: nat)
    requires k in e && e'.Keys == e.Keys - {k} && e[k].frame == f
    requires forall j | j in e' :: e'[j].frame == e[j].frame
    ensures Sharers(e', f) == Sharers(e, f) - {k}
    ensures |Sharers(e', f)| == |Sharers(e, f)| - 1
    ensures forall g | g != f :: Sharers(e', g) == Sharers(e, g)
  {
    SharersAdd(e', e, k, f);
  }

  lemma Named(e: Entries, f: nat)
    ensures Sharers(e, f) == {} <==> forall j | j in e :: e[j].frame != f
    ensures |Sharers(e, f)| == 0 <==> forall j | j in e :: e[j].frame != f
  {
    assert forall j | j in e && e[j].frame == f :: j in Sharers(e, f);
  }

  lemma SameFramesSameSharers(e: Entries, e': Entries)
    requires e'.Keys == e.Keys && forall j | j in e :: e'[j].frame == e[j].frame
    ensures forall g :: Sharers(e', g) == Sharers(e, g)
  {
  }

  // A frame with a writing entry is named by that entry alone.
  lemma Sole(e: Entries, k: Key)
    requires Exclusive(e) && k in e
    ensures forall j | j in e && e[j].rw && e[j].user && e[j].frame == e[k].frame :: j == k
  {
    forall j | j in e && e[j].rw && e[j].user && e[j].frame == e[k].frame ensures j == k {
      assert k in Sharers(e, e[j].frame);
    }
  }

  // One step of clone: entry k is downgraded and its copy is added under key c.
  lemma Share(p: Pmm, e: Entries, k: Key, c: Key)
    requires Accounts(p, e) && Exclusive(e)
    requires k in e && c !in e && p.refcnt[e[k].frame] < REF_SATURATION
    ensures Accounts(RefInc(p, e[k].frame), e[k := ParentEntry(e[k])][c := ChildEntry(e[k])])
    ensures Exclusive(e[k := ParentEntry(e[k])][c := ChildEntry(e[k])])
  {
    var e' := e[k := ParentEntry(e[k])][c := ChildEntry(e[k])];
    assert OneMore(e, e', k, c) by { SharesOneMore(p, e, k, c); }
    hide Accounts, Exclusive;
    ShareCounts(p, e, e', k, c);
    ShareExclusive(e, e', k, c);
  }

  // The count stays exact in such a step if and only if it is below the saturation value.
  lemma ShareExact(p: Pmm, e: Entries, k: Key, c: Key)
    requires Accounts(p, e) && k in e && c !in e
    ensures Accounts(RefInc(p, e[k].frame), e[k := ParentEntry(e[k])][c := ChildEntry(e[k])])
            <==> p.refcnt[e[k].frame] < REF_SATURATION
  {
    var e' := e[k := ParentEntry(e[k])][c := ChildEntry(e[k])];
    SharesOneMore(p, e, k, c);
    if p.refcnt[e[k].frame] < REF_SATURATION {
      ShareCounts(p, e, e', k, c);
    } else {
      SharersAdd(e, e', c, e[k].frame);
      assert c in e';
    }
  }

  lemma SharesOneMore(p: Pmm, e: Entries, k: Key, c: Key)
    requires Accounts(p, e) && k in e && c !in e
    ensures OneMore(e, e[k := ParentEntry(e[k])][c := ChildEntry(e[k])], k, c)
  {
  }

  // e' is e with one more entry, c, for the frame of k.
  ghost predicate OneMore(e: Entries, e': Entries, k: Key, c: Key) {
    && k in e && c !in e && e'.Keys == e.Keys + {c} && e'[c].frame == e[k].frame && e'[c].present
    && (forall j | j in e :: e'[j].frame == e[j].frame && (e[j].present ==> e'[j].present))
  }

  lemma ShareCounts(p: Pmm, e: Entries, e': Entries, k: Key, c: Key)
    requires Accounts(p, e) && OneMore(e, e', k, c) && p.refcnt[e[k].frame] < REF_SATURATION
    ensures Accounts(RefInc(p, e[k].frame), e')
  {
    var f := e[k].frame;
    SharersAdd(e, e', c, f);
    var q := RefInc(p, f);
    assert q.bitmap == p.bitmap;
    forall j | j in e' ensures q.refcnt[e'[j].frame] == |Sharers(e', e'[j].frame)| {
      if j == c {
        assert p.refcnt[e[k].frame] == |Sharers(e, e[k].frame)|;
      } else {
        assert p.refcnt[e[j].frame] == |Sharers(e, e[j].frame)|;
      }
    }
  }

  lemma ShareExclusive(e: Entries, e': Entries, k: Key, c: Key)
    requires Exclusive(e) && OneMore(e, e', k, c)
    requires !(e'[k].rw && e'[k].user) && !(e'[c].rw && e'[c].user)
    requires forall j | j in e && j != k :: e'[j] == e[j]
    ensures Exclusive(e')
  {
    SharersAdd(e, e', c, e[k].frame);
    Sole(e, k);
    forall j | j in e' && e'[j].rw && e'[j].user ensures Sharers(e', e'[j].frame) == {j} {
      assert e'[j] == e[j];
      assert Sharers(e, e[j].frame) == {j};
    }
  }

  // destroy: entry k goes away; its frame is freed when k was the last one.
  lemma Drop(p: Pmm, e: Entries, k: Key)
    requires Accounts(p, e) && Exclusive(e) && k in e
    ensures Accounts(Release(p, e[k].frame), e - {k}) && Exclusive(e - {k})
    ensures Release(p, e[k].frame).bitmap[e[k].frame] <==> Sharers(e, e[k].frame) != {k}
    ensures forall i | 0 <= i < |p.bitmap| && i != e[k].frame ::
              Release(p, e[k].frame).bitmap[i] == p.bitmap[i]
  {
    var f := e[k].frame;
    var e' := e - {k};
    SharersRemove(e, e', k, f);
    assert k in Sharers(e, f);
    var q := RefDec(p, f);
    assert q.bitmap == p.bitmap;
    MarkFreeSpec(q, f);
    Named(e', f);
    Sole(e, k);
    assert q.refcnt[f] == 0 <==> Sharers(e, f) == {k};
  }

  // rollback: the copy c goes away while entry k of the same frame stays in the
  // ledger, rewritten to t.  The frame is not freed, and needs not be.
  lemma Unshare(p: Pmm, e: Entries, k: Key, c: Key, t: Pte)
    requires Accounts(p, e) && k in e && c in e && k != c && e[k].frame == e[c].frame
    requires t.present && t.frame == e[k].frame
    ensures Accounts(RefDec(p, t.frame), (e - {c})[k := t])
  {
    var f := e[k].frame;
    var e' := (e - {c})[k := t];
    SharersRemove(e, e', c, f);
    assert k in Sharers(e, f) && c in Sharers(e, f);
    assert p.refcnt[f] > 0;
    assert ClearSet(RefDec(p, f).bitmap) == ClearSet(p.bitmap);
  }

  lemma AllocKeeps(p: Pmm, e: Entries)
    requires Accounts(p, e)
    ensures Accounts(AllocPage(p).pmm, e)
    ensures AllocPage(p).frame.Some? ==> Sharers(e, AllocPage(p).frame.value) == {}
  {
    AllocSpec(p);
  }

  // Freeing a frame no entry names, as destroy and rollback do with table frames.
  lemma FreeKeeps(p: Pmm, e: Entries, i: nat)
    requires Accounts(p, e) && Sharers(e, i) == {}
    ensures Accounts(MarkFree(p, i), e)
  {
    MarkFreeSpec(p, i);
    Named(e, i);
  }

  // The copying branch of the write fault: k moves from a shared frame to frame g,
  // just allocated, and becomes writable.
  lemma Break(p: Pmm, e: Entries, k: Key, t: Pte)
    requires Accounts(p, e) && Exclusive(e) && k in e
    requires p.refcnt[e[k].frame] > 1
    requires AllocPage(p).frame.Some? && t.frame == AllocPage(p).frame.value && t.present
    ensures Accounts(RefDec(AllocPage(p).pmm, e[k].frame), e[k := t])
    ensures Exclusive(e[k := t])
  {
    AllocSpec(p);
    AllocKeeps(p, e);
    Named(e, t.frame);
    BreakCounts(AllocPage(p).pmm, e, k, t);
    Moved(e, k, t);
    Sole(e, k);
  }

  lemma Moved(e: Entries, k: Key, t: Pte)
    requires k in e && t.frame != e[k].frame
    ensures Sharers(e[k := t], e[k].frame) == Sharers(e, e[k].frame) - {k}
    ensures |Sharers(e[k := t], e[k].frame)| == |Sharers(e, e[k].frame)| - 1
    ensures Sharers(e[k := t], t.frame) == Sharers(e, t.frame) + {k}
    ensures forall g | g != e[k].frame && g != t.frame :: Sharers(e[k := t], g) == Sharers(e, g)
  {
    SharersRemove(e, e - {k}, k, e[k].frame);
    SharersAdd(e - {k}, e[k := t], k, t.frame);
  }

  lemma BreakCounts(a: Pmm, e: Entries, k: Key, t: Pte)
    requires Accounts(a, e) && k in e && t.present
    requires a.refcnt[e[k].frame] > 1
    requires t.frame < |a.bitmap| && a.bitmap[t.frame] && a.refcnt[t.frame] == 1 && Sharers(e, t.frame) == {}
    ensures Accounts(RefDec(a, e[k].frame), e[k := t])
  {
    var f := e[k].frame;
    var q := RefDec(a, f);
    var e' := e[k := t];
    Named(e, t.frame);
    Moved(e, k, t);
    assert ClearSet(q.bitmap) == ClearSet(a.bitmap);
    forall j | j in e' ensures q.refcnt[e'[j].frame] == |Sharers(e', e'[j].frame)| {
      if j != k { assert e'[j] == e[j]; }
    }
  }

  // The reuse branch: the last sharer of a frame becomes its writer in place.
  lemma Reuse(p: Pmm, e: Entries, k: Key, t: Pte)
    requires Accounts(p, e) && Exclusive(e) && k in e
    requires p.refcnt[e[k].frame] <= 1
    requires t.present && t.frame == e[k].frame
    ensures Accounts(p, e[k := t]) && Exclusive(e[k := t])
  {
    var f := e[k].frame;
    var e' := e[k := t];
    SameFramesSameSharers(e, e');
    assert k in Sharers(e, f);
    assert |Sharers(e, f)| == 1;
    assert Sharers(e, f) == {k} by {
      assert |Sharers(e, f) - {k}| == 0;
    }
  }

  // A fresh page enters the ledger with its allocation as its only reference.
  lemma Install(p: Pmm, e: Entries, k: Key, t: Pte)
    requires Accounts(p, e) && Exclusive(e) && k !in e
    requires AllocPage(p).frame.Some? && t.frame == AllocPage(p).frame.value && t.present
    ensures Accounts(AllocPage(p).pmm, e[k := t])
    ensures Exclusive(e[k := t])
  {
    AllocSpec(p);
    AllocKeeps(p, e);
    InstallCounts(AllocPage(p).pmm, e, e[k := t], k);
  }

  lemma InstallCounts(a: Pmm, e: Entries, e': Entries, k: Key)
    requires Accounts(a, e) && Exclusive(e) && k !in e && k in e' && e' == e[k := e'[k]] && e'[k].present
    requires e'[k].frame < |a.bitmap| && a.bitmap[e'[k].frame] && a.refcnt[e'[k].frame] == 1
    requires Sharers(e, e'[k].frame) == {}
    ensures Accounts(a, e') && Exclusive(e')
  {
    hide Sharers;
    NewSharer(e, e', k);
    forall j | j in e' ensures a.refcnt[e'[j].frame] == |Sharers(e', e'[j].frame)| {
      if j != k { assert e'[j] == e[j]; }
    }
    forall j | j in e' && e'[j].rw && e'[j].user ensures Sharers(e', e'[j].frame) == {j} {
      if j != k { assert e'[j] == e[j]; }
    }
  }

  lemma NewSharer(e: Entries, e': Entries, k: Key)
    requires k !in e && k in e' && e' == e[k := e'[k]] && Sharers(e, e'[k].frame) == {}
    ensures Sharers(e', e'[k].frame) == {k}
    ensures forall j | j in e :: e[j].frame != e'[k].frame && Sharers(e', e[j].frame) == Sharers(e, e[j].frame)
  {
    SharersAdd(e, e', k, e'[k].frame);
    Named(e, e'[k].frame);
  }
}
