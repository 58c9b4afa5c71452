// The outer loop of paging_clone_address_space: what holds once i directory slots
// have been copied, and that a completed clone gives two spaces with the same pages.
module CloneSpaceProof {
  import opened Pmm
  import opened Ledger
  import opened AddressSpace
  import opened Spaces
  import opened CloneProof

  // One directory slot copied: table pt of the parent into the new table ct of child c.
  ghost predicate DirStep(m: Mem, m': Mem, c: nat, p: nat, pt: nat, ct: nat, e: Pde) {
    && Sized(m) && Sized(m') && |m'.frames| == |m.frames|
    && IsDir(m, c) && p < USER_PDIS && IsTable(m, pt)
    && ct < |m.frames| && !m.pmm.bitmap[ct] && m'.pmm.bitmap == m.pmm.bitmap[ct := true]
    && IsDir(m', c) && m'.frames[c].pdes == m.frames[c].pdes[p := Pde(true, false, ct, e.user, e.attrs)]
    && IsTable(m', pt) && IsTable(m', ct)
    && (forall k: nat | k < PTRS :: m'.frames[pt].ptes[k] == ParentEntry(m.frames[pt].ptes[k]))
    && (forall k: nat | k < PTRS :: m'.frames[ct].ptes[k] == ChildEntry(m.frames[pt].ptes[k]))
    && (forall f: nat | f < |m.frames| && f != c && f != pt && f != ct :: m'.frames[f] == m.frames[f])
  }

  lemma CloneDirStep(m: Mem, parent: nat, c: nat, p: nat)
    requires Sized(m) && IsDir(m, c) && m.pmm.bitmap[c] && p < USER_PDIS
    requires TableAt(m, parent, p).Some? && m.pmm.bitmap[TableAt(m, parent, p).value]
    requires AllocPage(m.pmm).frame.Some?
    ensures DirStep(m, CloneDir(m, parent, c, p).m, c, p, TableAt(m, parent, p).value,
                    AllocPage(m.pmm).frame.value, m.frames[parent].pdes[p])
  {
    var pt := TableAt(m, parent, p).value;
    var a := AllocPage(m.pmm);
    var ct := a.frame.value;
    var l := Link(m.(pmm := a.pmm), parent, c, p, ct);
    assert CloneDir(m, parent, c, p).m == CloneSlots(l, pt, ct, PTRS);
    CloneSlotsForm(l, pt, ct, PTRS);
  }

  ghost function ParentTables(m: Mem, parent: nat, i: nat): set<nat> {
    set p: nat | p < i && TableAt(m, parent, p).Some? :: TableAt(m, parent, p).value
  }

  // Frames in use before the clone stay in use, and all but the copied tables keep their contents.
  ghost predicate Outside(m0: Mem, m: Mem, parent: nat, i: nat) {
    && Sized(m0) && Sized(m) && |m.frames| == |m0.frames|
    && (forall f: nat | f < |m0.frames| && m0.pmm.bitmap[f] :: m.pmm.bitmap[f])
    && (forall f: nat | f < |m0.frames| && m0.pmm.bitmap[f] && f !in ParentTables(m0, parent, i) ::
          m.frames[f] == m0.frames[f])
  }

  ghost predicate ParentDone(m0: Mem, m: Mem, parent: nat, i: nat) {
    && (forall p: nat | p < i && TableAt(m0, parent, p).Some? :: IsTable(m, TableAt(m0, parent, p).value))
    && (forall p: nat, k: nat | p < i && TableAt(m0, parent, p).Some? && k < PTRS ::
          m.frames[TableAt(m0, parent, p).value].ptes[k] ==
          ParentEntry(m0.frames[TableAt(m0, parent, p).value].ptes[k]))
  }

  ghost predicate ChildSlot(m0: Mem, m: Mem, parent: nat, c: nat, p: nat)
    requires IsDir(m, c) && TableAt(m0, parent, p).Some? && p < USER_PDIS && Sized(m0) && Sized(m)
    requires |m.frames| == |m0.frames|
  {
    var e := m.frames[c].pdes[p];
    && e.present && !e.pse && e.user == m0.frames[parent].pdes[p].user
    && IsTable(m, e.frame) && e.frame != c && !m0.pmm.bitmap[e.frame] && m.pmm.bitmap[e.frame]
    && (forall k: nat | k < PTRS ::
          m.frames[e.frame].ptes[k] == ChildEntry(m0.frames[TableAt(m0, parent, p).value].ptes[k]))
  }

  ghost predicate ChildDone(m0: Mem, m: Mem, parent: nat, c: nat, i: nat) {
    && Sized(m0) && Sized(m) && |m.frames| == |m0.frames|
    && IsDir(m, c) && !m0.pmm.bitmap[c] && m.pmm.bitmap[c]
    && (forall p: nat | p < USER_PDIS && (p >= i || TableAt(m0, parent, p).None?) :: m.frames[c].pdes[p] == NO_PDE)
    && (forall p: nat | p < i && p < USER_PDIS && TableAt(m0, parent, p).Some? :: ChildSlot(m0, m, parent, c, p))
    && (forall p: nat, q: nat | p < USER_PDIS && q < USER_PDIS && m.frames[c].pdes[p].present
        && m.frames[c].pdes[q].present
          && m.frames[c].pdes[p].frame == m.frames[c].pdes[q].frame :: p == q)
  }

  // Clone has copied i directory slots of parent to c; m0 is the memory it started from.
  ghost predicate CloneInv(m0: Mem, live: set<nat>, parent: nat, c: nat, m: Mem, i: nat) {
    && Outside(m0, m, parent, i)
    && ParentDone(m0, m, parent, i)
    && ChildDone(m0, m, parent, c, i)
    && Accounts(m.pmm, CloneMap(EntriesOf(m0, live), parent, c, i * PTRS))
    && Exclusive(CloneMap(EntriesOf(m0, live), parent, c, i * PTRS))
  }

  lemma OutsideStep(m0: Mem, live: set<nat>, m: Mem, m': Mem, parent: nat, c: nat, i: nat, ct: nat, e: Pde)
    requires Structure(m0, live) && parent in live && i < USER_PDIS && TableAt(m0, parent, i).Some?
    requires Outside(m0, m, parent, i) && c < |m0.frames| && !m0.pmm.bitmap[c]
    requires DirStep(m, m', c, i, TableAt(m0, parent, i).value, ct, e)
    ensures Outside(m0, m', parent, i + 1)
  {
    assert ParentTables(m0, parent, i + 1) == ParentTables(m0, parent, i) + {TableAt(m0, parent, i).value};
  }

  lemma NotYet(m0: Mem, live: set<nat>, parent: nat, i: nat)
    requires Structure(m0, live) && parent in live && i < USER_PDIS && TableAt(m0, parent, i).Some?
    ensures TableAt(m0, parent, i).value !in ParentTables(m0, parent, i)
    ensures parent !in ParentTables(m0, parent, i)
  {
  }

  lemma ParentStep(m0: Mem, live: set<nat>, m: Mem, m': Mem, parent: nat, c: nat, i: nat, ct: nat, e: Pde)
    requires Structure(m0, live) && parent in live && i < USER_PDIS && TableAt(m0, parent, i).Some?
    requires Outside(m0, m, parent, i) && ParentDone(m0, m, parent, i) && c < |m0.frames| && !m0.pmm.bitmap[c]
    requires DirStep(m, m', c, i, TableAt(m0, parent, i).value, ct, e)
    ensures ParentDone(m0, m', parent, i + 1)
  {
    NotYet(m0, live, parent, i);
    var pt := TableAt(m0, parent, i).value;
    assert m.frames[pt] == m0.frames[pt];
    forall p: nat | p < i && TableAt(m0, parent, p).Some?
      ensures m'.frames[TableAt(m0, parent, p).value] == m.frames[TableAt(m0, parent, p).value]
    {
      var t := TableAt(m0, parent, p).value;
      assert t in ParentTables(m0, parent, i);
      assert m0.pmm.bitmap[t] && m.pmm.bitmap[t];
    }
  }

  lemma ChildStep(m0: Mem, live: set<nat>, m: Mem, m': Mem, parent: nat, c: nat, i: nat, ct: nat, e: Pde)
    requires Structure(m0, live) && parent in live && i < USER_PDIS && TableAt(m0, parent, i).Some?
    requires Outside(m0, m, parent, i) && ChildDone(m0, m, parent, c, i)
    requires e == m0.frames[parent].pdes[i]
    requires DirStep(m, m', c, i, TableAt(m0, parent, i).value, ct, e)
    ensures ChildDone(m0, m', parent, c, i + 1)
  {
    NotYet(m0, live, parent, i);
    var pt := TableAt(m0, parent, i).value;
    assert m.frames[pt] == m0.frames[pt] && m0.pmm.bitmap[pt];
    forall p: nat | p < i && TableAt(m0, parent, p).Some? ensures ChildSlot(m0, m', parent, c, p) {
      assert ChildSlot(m0, m, parent, c, p);
      assert m'.frames[c].pdes[p] == m.frames[c].pdes[p];
    }
    assert ChildSlot(m0, m', parent, c, i);
    forall p: nat | p < USER_PDIS && p != i && m'.frames[c].pdes[p].present ensures m'.frames[c].pdes[p].frame != ct {
      assert m'.frames[c].pdes[p] == m.frames[c].pdes[p];
      assert p < i && TableAt(m0, parent, p).Some?;
      assert ChildSlot(m0, m, parent, c, p);
    }
  }

  lemma {:induction false} CloneMapSkip(e: Entries, p: nat, c: nat, base: nat, n: nat)
    requires forall v: nat | base <= v < base + n :: Key(p, v) !in e
    ensures CloneMap(e, p, c, base + n) == CloneMap(e, p, c, base)
  {
    if n > 0 { CloneMapSkip(e, p, c, base, n - 1); }
  }

  lemma ReadyAtStart(m0: Mem, live: set<nat>, parent: nat, c: nat)
    requires Structure(m0, live) && parent in live && c < |m0.frames| && !m0.pmm.bitmap[c]
    ensures Ready(EntriesOf(m0, live), parent, c)
  {
    forall k | k in EntriesOf(m0, live) ensures k.pd != c && EntriesOf(m0, live)[k].present {
      EntryKeys(m0, live, k);
    }
  }

  lemma SlotMirrors(m0: Mem, live: set<nat>, pd: nat, p: nat)
    requires pd in live && p < USER_PDIS && TableAt(m0, pd, p).Some?
    ensures Mirrors(EntriesOf(m0, live), pd, p * PTRS, m0.frames[TableAt(m0, pd, p).value].ptes)
  {
    forall k: nat | k < PTRS
      ensures m0.frames[TableAt(m0, pd, p).value].ptes[k].present <==> Key(pd, p * PTRS + k) in EntriesOf(m0, live)
      ensures m0.frames[TableAt(m0, pd, p).value].ptes[k].present ==>
                EntriesOf(m0, live)[Key(pd, p * PTRS + k)] == m0.frames[TableAt(m0, pd, p).value].ptes[k]
    {
      TableEntries(m0, live, pd, p, k);
    }
  }

  lemma LedgerStep(m0: Mem, live: set<nat>, m: Mem, parent: nat, c: nat, i: nat)
    requires Inv(m0, live) && parent in live && i < USER_PDIS && TableAt(m0, parent, i).Some?
    requires Headroom(EntriesOf(m0, live), parent)
    requires CloneInv(m0, live, parent, c, m, i)
    requires TableAt(m, parent, i) == TableAt(m0, parent, i)
    requires m.frames[TableAt(m0, parent, i).value] == m0.frames[TableAt(m0, parent, i).value]
    requires AllocPage(m.pmm).frame.Some?
    ensures Accounts(CloneDir(m, parent, c, i).m.pmm, CloneMap(EntriesOf(m0, live), parent, c, (i + 1) * PTRS))
    ensures Exclusive(CloneMap(EntriesOf(m0, live), parent, c, (i + 1) * PTRS))
  {
    hide Accounts, Exclusive, Headroom, Outside, ParentDone, ChildDone, Structure, MapsData, EntriesOf, CloneMap,
         Mirrors, Ready, CloneSlots, CowEncoded;
    var e := EntriesOf(m0, live);
    var pt := TableAt(m0, parent, i).value;
    ChildIsDir(m0, m, parent, c, i);
    var a := AllocPage(m.pmm);
    var ct := a.frame.value;
    AllocatedTable(m0, live, m, parent, c, i);
    var l := Link(m.(pmm := a.pmm), parent, c, i, ct);
    assert l.frames[pt] == m.frames[pt];
    SlotMirrors(m0, live, parent, i);
    ReadyAtStart(m0, live, parent, c);
    AllocKeeps(m.pmm, CloneMap(e, parent, c, i * PTRS));
    CloneSlotsLedger(l, pt, ct, PTRS, e, parent, c, i * PTRS);
    assert i * PTRS + PTRS == (i + 1) * PTRS;
  }

  lemma ChildIsDir(m0: Mem, m: Mem, parent: nat, c: nat, i: nat)
    requires ChildDone(m0, m, parent, c, i)
    ensures Sized(m) && Sized(m0) && |m.frames| == |m0.frames|
    ensures IsDir(m, c) && m.pmm.bitmap[c] && !m0.pmm.bitmap[c]
  {
  }

  lemma AllocatedTable(m0: Mem, live: set<nat>, m: Mem, parent: nat, c: nat, i: nat)
    requires Structure(m0, live) && parent in live && i < USER_PDIS && TableAt(m0, parent, i).Some?
    requires Outside(m0, m, parent, i)
    ensures var pt := TableAt(m0, parent, i).value; pt < |m.pmm.bitmap| && m0.pmm.bitmap[pt] && m.pmm.bitmap[pt]
  {
  }

  lemma ParentDirUntouched(m0: Mem, live: set<nat>, m: Mem, parent: nat, i: nat)
    requires Structure(m0, live) && parent in live && i < USER_PDIS && Outside(m0, m, parent, i)
    ensures m.frames[parent] == m0.frames[parent] && TableAt(m, parent, i) == TableAt(m0, parent, i)
    ensures TableAt(m0, parent, i).Some? ==>
              m.frames[TableAt(m0, parent, i).value] == m0.frames[TableAt(m0, parent, i).value]
  {
    assert parent !in ParentTables(m0, parent, i);
    assert TableAt(m0, parent, i).Some? <==> m0.frames[parent].pdes[i].present;
    if TableAt(m0, parent, i).Some? { NotYet(m0, live, parent, i); }
  }

  lemma NoTableNoEntries(m0: Mem, live: set<nat>, parent: nat, c: nat, i: nat)
    requires parent in live && i < USER_PDIS && TableAt(m0, parent, i).None?
    ensures CloneMap(EntriesOf(m0, live), parent, c, (i + 1) * PTRS)
              == CloneMap(EntriesOf(m0, live), parent, c, i * PTRS)
  {
    var e := EntriesOf(m0, live);
    forall v: nat | i * PTRS <= v < i * PTRS + PTRS ensures Key(parent, v) !in e {
      assert v / PTRS == i;
      EntryIn(m0, live, parent, v);
    }
    CloneMapSkip(e, parent, c, i * PTRS, PTRS);
    assert i * PTRS + PTRS == (i + 1) * PTRS;
  }

  // A slot without a table: nothing to copy.
  lemma CloneInvSkip(m0: Mem, live: set<nat>, parent: nat, c: nat, m: Mem, i: nat)
    requires parent in live && i < USER_PDIS && TableAt(m0, parent, i).None?
    requires CloneInv(m0, live, parent, c, m, i)
    ensures CloneInv(m0, live, parent, c, m, i + 1)
  {
    hide Accounts, Exclusive, CloneMap, EntriesOf;
    assert ParentTables(m0, parent, i + 1) == ParentTables(m0, parent, i);
    NoTableNoEntries(m0, live, parent, c, i);
  }

  lemma CloneInvStep(m0: Mem, live: set<nat>, parent: nat, c: nat, m: Mem, i: nat)
    requires Inv(m0, live) && parent in live && Headroom(EntriesOf(m0, live), parent) && i < USER_PDIS
    requires CloneInv(m0, live, parent, c, m, i) && Sized(m) && IsDir(m, c) && m.pmm.bitmap[c]
    ensures var r := CloneDir(m, parent, c, i);
            if r.oom then r.m == m && r.at == i && TableAt(m0, parent, i).Some? && AllocPage(m.pmm).frame.None?
            else CloneInv(m0, live, parent, c, r.m, i + 1)
  {
    hide Accounts, Exclusive, Headroom, DirStep, Outside, ParentDone, ChildDone, MapsData, EntriesOf, CloneMap;
    ParentDirUntouched(m0, live, m, parent, i);
    if TableAt(m0, parent, i).None? {
      CloneInvSkip(m0, live, parent, c, m, i);
    } else if AllocPage(m.pmm).frame.Some? {
      AllocatedTable(m0, live, m, parent, c, i);
      ChildIsDir(m0, m, parent, c, i);
      CloneDirStep(m, parent, c, i);
      var m' := CloneDir(m, parent, c, i).m;
      var ct, e := AllocPage(m.pmm).frame.value, m.frames[parent].pdes[i];
      OutsideStep(m0, live, m, m', parent, c, i, ct, e);
      ParentStep(m0, live, m, m', parent, c, i, ct, e);
      ChildStep(m0, live, m, m', parent, c, i, ct, e);
      LedgerStep(m0, live, m, parent, c, i);
    }
  }

  lemma CloneInvStart(m0: Mem, live: set<nat>, parent: nat)
    requires Inv(m0, live) && parent in live && AllocPage(m0.pmm).frame.Some?
    ensures var a := AllocPage(m0.pmm);
            CloneInv(m0, live, parent, a.frame.value, Mem(a.pmm, m0.frames[a.frame.value := EmptyDir()]), 0)
  {
    hide Exclusive;
    AllocSpec(m0.pmm);
    AllocKeeps(m0.pmm, EntriesOf(m0, live));
    assert ParentTables(m0, parent, 0) == {};
  }

  // Every stage of the outer loop satisfies CloneInv, up to the slot where memory ran out.
  lemma {:induction false} CloneDirsInv(m0: Mem, live: set<nat>, parent: nat, i: nat)
    requires Inv(m0, live) && parent in live && Headroom(EntriesOf(m0, live), parent) && i <= USER_PDIS
    requires AllocPage(m0.pmm).frame.Some?
    ensures var a := AllocPage(m0.pmm);
            var c := a.frame.value;
            var r := CloneDirs(Mem(a.pmm, m0.frames[c := EmptyDir()]), parent, c, i);
            && CloneInv(m0, live, parent, c, r.m, r.at)
            && (r.oom ==> TableAt(m0, parent, r.at).Some? && AllocPage(r.m.pmm).frame.None?)
  {
    hide Accounts, Exclusive, Headroom, Outside, ParentDone, ChildDone, MapsData, EntriesOf, CloneMap, TableAt,
         AllocPage, CloneDir;
    if i == 0 {
      CloneInvStart(m0, live, parent);
    } else {
      CloneDirsInv(m0, live, parent, i - 1);
      var a := AllocPage(m0.pmm);
      var c := a.frame.value;
      var r := CloneDirs(Mem(a.pmm, m0.frames[c := EmptyDir()]), parent, c, i - 1);
      if !r.oom { CloneInvStep(m0, live, parent, c, r.m, i - 1); }
    }
  }
}
