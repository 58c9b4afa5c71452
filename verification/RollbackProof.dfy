// The rollback of paging_clone_address_space after memory ran out at some slot.
module RollbackProof {
  import opened Basics
  import opened Pmm
  import opened Ledger
  import opened AddressSpace
  import opened Spaces
  import opened CloneProof
  import opened CloneSpaceProof
  import opened CloneTheorem
  import opened DestroyTheorem

  // What rollback leaves in the parent's slot: entries whose copy carries COW become
  // writable, others stay.  A page that was COW before the clone becomes writable too.
  function Restored(t: Pte): Pte {
    if ChildEntry(t).present && ChildEntry(t).cow then Pte(true, t.frame, true, true, false, 0) else t
  }

  // The ledger when pages below n of the nn copied ones have been rolled back.
  ghost function UndoMap(e: Entries, p: nat, c: nat, nn: nat, n: nat): Entries
    requires Ready(e, p, c)
  {
    CloneMapForm(e, p, c, nn);
    map k | k in CloneMap(e, p, c, nn) && !(k.pd == c && k.vpn < n) ::
      if k.pd == p && k.vpn < n && k.vpn < nn then Restored(e[k]) else CloneMap(e, p, c, nn)[k]
  }

  lemma UndoStep(q: Pmm, e: Entries, p: nat, c: nat, nn: nat, n: nat)
    requires Ready(e, p, c) && n < nn && Accounts(q, UndoMap(e, p, c, nn, n))
    ensures Key(p, n) in e ==> Accounts(RefDec(q, e[Key(p, n)].frame), UndoMap(e, p, c, nn, n + 1))
    ensures Key(p, n) !in e ==> UndoMap(e, p, c, nn, n + 1) == UndoMap(e, p, c, nn, n)
  {
    hide Accounts, CloneMap;
    CloneMapForm(e, p, c, nn);
    var u, u' := UndoMap(e, p, c, nn, n), UndoMap(e, p, c, nn, n + 1);
    var kp, kc := Key(p, n), Key(c, n);
    if kp in e {
      assert kp in u && kc in u && u[kp].frame == u[kc].frame == e[kp].frame;
      Unshare(q, u, kp, kc, Restored(e[kp]));
      assert (u - {kc})[kp := Restored(e[kp])] == u';
    } else {
      assert kc !in u && kp !in u;
      assert u' == u;
    }
  }

  // The closed form of rollback's inner loop.
  lemma {:induction false} RollbackSlotsForm(m: Mem, pt: nat, ct: nat, i: nat)
    requires Sized(m) && IsTable(m, pt) && IsTable(m, ct) && pt != ct && i <= PTRS
    ensures var r := RollbackSlots(m, Some(pt), ct, i);
            && (forall f: nat | f < |m.frames| && f != pt :: r.frames[f] == m.frames[f])
            && (forall k: nat | k < i :: r.frames[pt].ptes[k] ==
                  if m.frames[ct].ptes[k].present && m.frames[ct].ptes[k].cow
                  then Pte(true, m.frames[ct].ptes[k].frame, true, true, false, 0) else m.frames[pt].ptes[k])
            && (forall k: nat | i <= k < PTRS :: r.frames[pt].ptes[k] == m.frames[pt].ptes[k])
  {
    if i > 0 { RollbackSlotsForm(m, pt, ct, i - 1); }
  }

  // Entries of the child's table are the copies of the parent's entries at base.
  ghost predicate Copies(e: Entries, p: nat, base: nat, ptes: seq<Pte>) {
    forall k: nat | k < |ptes| ::
      && (ptes[k].present <==> Key(p, base + k) in e)
      && (ptes[k].present ==> ptes[k] == ChildEntry(e[Key(p, base + k)]))
  }

  lemma RollbackSlotLedger(m: Mem, pt: nat, ct: nat, k: nat, e: Entries, p: nat, c: nat, nn: nat, n: nat)
    requires Sized(m) && IsTable(m, pt) && IsTable(m, ct) && k < PTRS
    requires Ready(e, p, c) && n < nn
    requires m.frames[ct].ptes[k].present <==> Key(p, n) in e
    requires m.frames[ct].ptes[k].present ==> m.frames[ct].ptes[k].frame == e[Key(p, n)].frame
    requires Accounts(m.pmm, UndoMap(e, p, c, nn, n))
    ensures Accounts(RollbackSlot(m, Some(pt), ct, k).pmm, UndoMap(e, p, c, nn, n + 1))
  {
    hide Accounts, UndoMap;
    UndoStep(m.pmm, e, p, c, nn, n);
  }

  lemma {:induction false} RollbackSlotsLedger(m: Mem, pt: nat, ct: nat, i: nat, e: Entries, p: nat, c: nat, nn: nat,
                                               base: nat)
    requires Sized(m) && IsTable(m, pt) && IsTable(m, ct) && pt != ct && i <= PTRS
    requires Ready(e, p, c) && base + PTRS <= nn && Copies(e, p, base, m.frames[ct].ptes)
    requires Accounts(m.pmm, UndoMap(e, p, c, nn, base))
    ensures Accounts(RollbackSlots(m, Some(pt), ct, i).pmm, UndoMap(e, p, c, nn, base + i))
  {
    hide Accounts, UndoMap, Ready;
    if i > 0 {
      RollbackSlotsLedger(m, pt, ct, i - 1, e, p, c, nn, base);
      RollbackSlotsForm(m, pt, ct, i - 1);
      CopyFrame(e, p, base, m.frames[ct].ptes, i - 1, c);
      RollbackSlotLedger(RollbackSlots(m, Some(pt), ct, i - 1), pt, ct, i - 1, e, p, c, nn, base + i - 1);
    }
  }

  lemma CopyFrame(e: Entries, p: nat, base: nat, ptes: seq<Pte>, k: nat, c: nat)
    requires Ready(e, p, c) && Copies(e, p, base, ptes) && k < |ptes|
    ensures ptes[k].present <==> Key(p, base + k) in e
    ensures ptes[k].present ==> ptes[k].frame == e[Key(p, base + k)].frame
  {
  }

  lemma {:induction false} RollbackSlotsFrame(m: Mem, pt: nat, ct: nat, i: nat, f: nat)
    requires Sized(m) && IsTable(m, pt) && IsTable(m, ct) && pt != ct && i <= PTRS && f < |m.pmm.refcnt|
    requires forall k: nat | k < PTRS && m.frames[ct].ptes[k].present :: m.frames[ct].ptes[k].frame != f
    ensures RollbackSlots(m, Some(pt), ct, i).pmm.refcnt[f] == m.pmm.refcnt[f]
  {
    if i > 0 {
      RollbackSlotsFrame(m, pt, ct, i - 1, f);
      RollbackSlotsForm(m, pt, ct, i - 1);
      assert RollbackSlots(m, Some(pt), ct, i - 1).frames[ct] == m.frames[ct];
    }
  }

  // Memory m when i of the slots copied in mf have been rolled back; m0 is before the clone.
  ghost predicate UndoFrames(m0: Mem, parent: nat, mf: Mem, m: Mem, i: nat) {
    && Sized(m) && Sized(mf) && |m.frames| == |mf.frames| == |m0.frames|
    && (forall f: nat | f < |m.frames| && f !in ParentTables(m0, parent, i) :: m.frames[f] == mf.frames[f])
    && (forall p: nat | p < i && TableAt(m0, parent, p).Some? :: IsTable(m, TableAt(m0, parent, p).value))
    && (forall p: nat, k: nat | p < i && TableAt(m0, parent, p).Some? && k < PTRS ::
          m.frames[TableAt(m0, parent, p).value].ptes[k] == Restored(m0.frames[TableAt(m0, parent, p).value].ptes[k]))
  }

  ghost predicate UndoBits(m0: Mem, live: set<nat>, c: nat, mf: Mem, m: Mem, i: nat)
    requires Sized(m) && Sized(mf) && |m.frames| == |mf.frames| == |m0.frames| && IsDir(mf, c) && i <= USER_PDIS
  {
    forall f: nat | f < |m.frames| ::
      && (f in FreshTables(mf, c, i) ==> !m.pmm.bitmap[f])
      && (f !in FreshTables(mf, c, i) ==> m.pmm.bitmap[f] == mf.pmm.bitmap[f])
      && (f !in FreshTables(mf, c, i) && Sharers(EntriesOf(m0, live), f) == {} ==> m.pmm.refcnt[f] == mf.pmm.refcnt[f])
  }

  ghost predicate UndoInv(m0: Mem, live: set<nat>, parent: nat, c: nat, at: nat, mf: Mem, m: Mem, i: nat) {
    && UndoFrames(m0, parent, mf, m, i)
    && IsDir(mf, c) && i <= at <= USER_PDIS
    && UndoBits(m0, live, c, mf, m, i)
    && Ready(EntriesOf(m0, live), parent, c)
    && Accounts(m.pmm, UndoMap(EntriesOf(m0, live), parent, c, at * PTRS, i * PTRS))
  }

  // What the next slot finds: its child table untouched, its parent table as clone left it.
  lemma UndoSlot(m0: Mem, live: set<nat>, parent: nat, c: nat, at: nat, mf: Mem, m: Mem, i: nat)
    requires Structure(m0, live) && parent in live && i < at <= USER_PDIS
    requires Outside(m0, mf, parent, at) && ParentDone(m0, mf, parent, at) && ChildDone(m0, mf, parent, c, at)
    requires UndoFrames(m0, parent, mf, m, i)
    ensures TableAt(m, parent, i) == TableAt(m0, parent, i)
    ensures TableAt(m, c, i).Some? <==> TableAt(m0, parent, i).Some?
    ensures TableAt(m0, parent, i).Some? ==>
              var pt, ct := TableAt(m0, parent, i).value, mf.frames[c].pdes[i].frame;
              && TableAt(m, c, i) == Some(ct) && pt != ct && mf.frames[c].pdes[i].present
              && m.frames[ct] == mf.frames[ct] && m.frames[pt] == mf.frames[pt]
              && !m0.pmm.bitmap[ct] && mf.pmm.bitmap[ct]
              && (forall k: nat | k < PTRS :: m.frames[ct].ptes[k] == ChildEntry(m0.frames[pt].ptes[k]))
              && (forall k: nat | k < PTRS :: m.frames[pt].ptes[k] == ParentEntry(m0.frames[pt].ptes[k]))
  {
    hide Structure;
    assert parent !in ParentTables(m0, parent, at) && parent !in ParentTables(m0, parent, i)
           && c !in ParentTables(m0, parent, i)
      && m0.pmm.bitmap[parent] by { TablesAreNot(m0, live, parent, c, at); TablesAreNot(m0, live, parent, c, i); }
    DirPresent(m0, live, parent, i);
    assert m.frames[parent] == m0.frames[parent] && m.frames[c] == mf.frames[c];
    if TableAt(m0, parent, i).Some? {
      var pt, ct := TableAt(m0, parent, i).value, mf.frames[c].pdes[i].frame;
      assert ChildSlot(m0, mf, parent, c, i);
      NotYet(m0, live, parent, i);
      OldAllocated(m0, live, parent, i);
      FreshIsNoTable(m0, live, parent, i, ct);
    }
  }

  lemma TablesAreNot(m0: Mem, live: set<nat>, parent: nat, c: nat, i: nat)
    requires Structure(m0, live) && parent in live && i <= USER_PDIS && c < |m0.frames| && !m0.pmm.bitmap[c]
    ensures parent !in ParentTables(m0, parent, i) && c !in ParentTables(m0, parent, i)
    ensures parent < |m0.pmm.bitmap| && m0.pmm.bitmap[parent]
  {
  }

  lemma DirPresent(m0: Mem, live: set<nat>, parent: nat, i: nat)
    requires Structure(m0, live) && parent in live && i < USER_PDIS
    ensures IsDir(m0, parent) && (TableAt(m0, parent, i).Some? <==> m0.frames[parent].pdes[i].present)
  {
  }

  lemma OldAllocated(m0: Mem, live: set<nat>, parent: nat, i: nat)
    requires Structure(m0, live) && parent in live && i < USER_PDIS && TableAt(m0, parent, i).Some?
    ensures TableAt(m0, parent, i).value < |m0.pmm.bitmap| && m0.pmm.bitmap[TableAt(m0, parent, i).value]
  {
  }

  lemma FreshIsNoTable(m0: Mem, live: set<nat>, parent: nat, i: nat, f: nat)
    requires Structure(m0, live) && parent in live && i <= USER_PDIS && f < |m0.pmm.bitmap| && !m0.pmm.bitmap[f]
    ensures f !in ParentTables(m0, parent, i)
  {
  }

  lemma UndoFramesStep(m0: Mem, live: set<nat>, parent: nat, c: nat, at: nat, mf: Mem, m: Mem, i: nat)
    requires Structure(m0, live) && parent in live && i < at <= USER_PDIS
    requires Outside(m0, mf, parent, at) && ParentDone(m0, mf, parent, at) && ChildDone(m0, mf, parent, c, at)
    requires UndoFrames(m0, parent, mf, m, i)
    ensures UndoFrames(m0, parent, mf, RollbackDir(m, parent, c, i), i + 1)
  {
    hide Outside, ParentDone, ChildDone;
    UndoSlot(m0, live, parent, c, at, mf, m, i);
    var m' := RollbackDir(m, parent, c, i);
    if TableAt(m0, parent, i).None? {
      assert ParentTables(m0, parent, i + 1) == ParentTables(m0, parent, i);
    } else {
      var pt, ct := TableAt(m0, parent, i).value, mf.frames[c].pdes[i].frame;
      assert ParentTables(m0, parent, i + 1) == ParentTables(m0, parent, i) + {pt};
      NotYet(m0, live, parent, i);
      RollbackSlotsForm(m, pt, ct, PTRS);
      forall k: nat | k < PTRS ensures m'.frames[pt].ptes[k] == Restored(m0.frames[pt].ptes[k]) {}
      forall p: nat | p < i && TableAt(m0, parent, p).Some? ensures TableAt(m0, parent, p).value != pt {
        assert TableAt(m0, parent, p).value in ParentTables(m0, parent, i);
      }
    }
  }

  lemma UndoBitsStep(m0: Mem, live: set<nat>, parent: nat, c: nat, at: nat, mf: Mem, m: Mem, i: nat)
    requires Structure(m0, live) && parent in live && i < at <= USER_PDIS
    requires Outside(m0, mf, parent, at) && ParentDone(m0, mf, parent, at) && ChildDone(m0, mf, parent, c, at)
    requires UndoFrames(m0, parent, mf, m, i) && IsDir(mf, c) && UndoBits(m0, live, c, mf, m, i)
    ensures var m' := RollbackDir(m, parent, c, i); |m'.frames| == |m.frames| && UndoBits(m0, live, c, mf, m', i + 1)
  {
    hide Outside, ParentDone, EntriesOf;
    UndoSlot(m0, live, parent, c, at, mf, m, i);
    var m' := RollbackDir(m, parent, c, i);
    if TableAt(m0, parent, i).None? {
      assert mf.frames[c].pdes[i] == NO_PDE;
      assert FreshTables(mf, c, i + 1) == FreshTables(mf, c, i);
    } else {
      var pt, ct := TableAt(m0, parent, i).value, mf.frames[c].pdes[i].frame;
      assert FreshTables(mf, c, i + 1) == FreshTables(mf, c, i) + {ct};
      forall f: nat | f < |m.frames| && Sharers(EntriesOf(m0, live), f) == {} && f != ct
        ensures m'.pmm.refcnt[f] == m.pmm.refcnt[f]
      {
        forall k: nat | k < PTRS && m.frames[ct].ptes[k].present ensures m.frames[ct].ptes[k].frame != f {
          TableEntries(m0, live, parent, i, k);
          Named(EntriesOf(m0, live), f);
        }
        RollbackSlotsFrame(m, pt, ct, PTRS, f);
      }
    }
  }

  lemma UndoUnshared(m0: Mem, live: set<nat>, parent: nat, c: nat, nn: nat, n: nat, f: nat)
    requires Accounts(m0.pmm, EntriesOf(m0, live)) && Ready(EntriesOf(m0, live), parent, c)
    requires f < |m0.pmm.bitmap| && !m0.pmm.bitmap[f]
    ensures Sharers(UndoMap(EntriesOf(m0, live), parent, c, nn, n), f) == {}
  {
    hide EntriesOf, CloneMap;
    var e := EntriesOf(m0, live);
    CloneMapForm(e, parent, c, nn);
    var u := UndoMap(e, parent, c, nn, n);
    forall k | k in u ensures u[k].frame != f {
      var j := if k in e then k else Key(parent, k.vpn);
      assert u[k].frame == e[j].frame;
    }
    Named(u, f);
  }

  lemma UndoLedgerStep(m0: Mem, live: set<nat>, parent: nat, c: nat, at: nat, mf: Mem, m: Mem, i: nat)
    requires Inv(m0, live) && parent in live && i < at <= USER_PDIS
    requires Outside(m0, mf, parent, at) && ParentDone(m0, mf, parent, at) && ChildDone(m0, mf, parent, c, at)
    requires UndoInv(m0, live, parent, c, at, mf, m, i)
    ensures Accounts(RollbackDir(m, parent, c, i).pmm,
                     UndoMap(EntriesOf(m0, live), parent, c, at * PTRS, (i + 1) * PTRS))
  {
    hide Outside, ParentDone, ChildDone, Accounts, Exclusive, MapsData, EntriesOf, UndoMap, UndoBits, Structure,
         CowEncoded, CloneMap, Ready;
    UndoSlot(m0, live, parent, c, at, mf, m, i);
    var e := EntriesOf(m0, live);
    if TableAt(m0, parent, i).None? {
      NothingToUndo(m0, live, parent, c, at * PTRS, i);
    } else {
      var pt, ct := TableAt(m0, parent, i).value, mf.frames[c].pdes[i].frame;
      forall k: nat | k < PTRS
        ensures m.frames[ct].ptes[k].present <==> Key(parent, i * PTRS + k) in e
        ensures m.frames[ct].ptes[k].present ==> m.frames[ct].ptes[k] == ChildEntry(e[Key(parent, i * PTRS + k)])
      {
        TableEntries(m0, live, parent, i, k);
      }
      assert Copies(e, parent, i * PTRS, m.frames[ct].ptes);
      RollbackSlotsLedger(m, pt, ct, PTRS, e, parent, c, at * PTRS, i * PTRS);
      assert i * PTRS + PTRS == (i + 1) * PTRS;
      StructureSized(m0, live);
      UndoUnshared(m0, live, parent, c, at * PTRS, (i + 1) * PTRS, ct);
      FreeKeeps(RollbackSlots(m, Some(pt), ct, PTRS).pmm, UndoMap(e, parent, c, at * PTRS, (i + 1) * PTRS), ct);
    }
  }

  lemma NothingToUndo(m0: Mem, live: set<nat>, parent: nat, c: nat, nn: nat, i: nat)
    requires parent in live && i < USER_PDIS && TableAt(m0, parent, i).None? && Ready(EntriesOf(m0, live), parent, c)
    ensures UndoMap(EntriesOf(m0, live), parent, c, nn, (i + 1) * PTRS)
              == UndoMap(EntriesOf(m0, live), parent, c, nn, i * PTRS)
  {
    hide CloneMap, EntriesOf;
    var e := EntriesOf(m0, live);
    forall v: nat | i * PTRS <= v < (i + 1) * PTRS ensures Key(parent, v) !in e {
      assert v / PTRS == i;
      EntryIn(m0, live, parent, v);
    }
    CloneMapForm(e, parent, c, nn);
    assert UndoMap(e, parent, c, nn, (i + 1) * PTRS) == UndoMap(e, parent, c, nn, i * PTRS);
  }

  lemma {:induction false} RollbackDirsInv(m0: Mem, live: set<nat>, parent: nat, c: nat, at: nat, mf: Mem, i: nat)
    requires Inv(m0, live) && parent in live && i <= at <= USER_PDIS && CloneInv(m0, live, parent, c, mf, at)
    ensures Sized(mf) && UndoInv(m0, live, parent, c, at, mf, RollbackDirs(mf, parent, c, i), i)
  {
    hide Outside, ParentDone, ChildDone, Accounts, Exclusive, MapsData, EntriesOf, UndoMap, UndoBits, UndoFrames,
         Structure, CowEncoded, CloneMap, Ready;
    ChildIsDir(m0, mf, parent, c, at);
    if i == 0 {
      UndoStart(m0, live, parent, c, at, mf);
    } else {
      RollbackDirsInv(m0, live, parent, c, at, mf, i - 1);
      var m := RollbackDirs(mf, parent, c, i - 1);
      UndoFramesStep(m0, live, parent, c, at, mf, m, i - 1);
      UndoBitsStep(m0, live, parent, c, at, mf, m, i - 1);
      UndoLedgerStep(m0, live, parent, c, at, mf, m, i - 1);
    }
  }

  lemma UndoStart(m0: Mem, live: set<nat>, parent: nat, c: nat, at: nat, mf: Mem)
    requires Inv(m0, live) && parent in live && at <= USER_PDIS && CloneInv(m0, live, parent, c, mf, at)
    ensures UndoInv(m0, live, parent, c, at, mf, mf, 0)
  {
    hide Accounts, Exclusive, MapsData, EntriesOf, CloneMap, ParentDone;
    ReadyAtStart(m0, live, parent, c);
    CloneMapForm(EntriesOf(m0, live), parent, c, at * PTRS);
    assert UndoMap(EntriesOf(m0, live), parent, c, at * PTRS, 0) == CloneMap(EntriesOf(m0, live), parent, c, at * PTRS);
    assert ParentTables(m0, parent, 0) == {};
  }
}
