// Every operation on address spaces keeps each used frame with a holder, and keeps
// each directory from naming a frame twice.
module HoldingsKept {
  import opened Basics
  import opened Pmm
  import opened Ledger
  import opened AddressSpace
  import opened Spaces
  import opened Holdings
  import opened CloneProof
  import opened CloneSpaceProof
  import opened CloneTheorem
  import opened DestroyProof
  import opened DestroyTheorem
  import opened FaultProof
  import opened RollbackTheorem
  import opened CowStore
  import opened CowMap

  lemma SameTables(m: Mem, m': Mem, live: set<nat>)
    requires forall pd, p: nat | pd in live && p < USER_PDIS :: TableAt(m', pd, p) == TableAt(m, pd, p)
    ensures TablesOf(m', live) == TablesOf(m, live)
  {
    hide TableAt;
    forall f | f in TablesOf(m, live) ensures f in TablesOf(m', live) {
      var pd, p: nat :| pd in live && p < USER_PDIS && TableAt(m, pd, p).Some? && TableAt(m, pd, p).value == f;
      assert TableAt(m', pd, p).Some?;
    }
    forall f | f in TablesOf(m', live) ensures f in TablesOf(m, live) {
      var pd, p: nat :| pd in live && p < USER_PDIS && TableAt(m', pd, p).Some? && TableAt(m', pd, p).value == f;
      assert TableAt(m, pd, p).Some?;
    }
  }

  lemma SameNames(e: Entries, e': Entries)
    requires e'.Keys == e.Keys && forall k | k in e :: e'[k].frame == e[k].frame
    ensures FramesOf(e') == FramesOf(e)
    ensures Once(e) ==> Once(e')
  {
  }

  // ---- destroy ----

  lemma DroppedNames(e: Entries, pd: nat)
    requires forall k | k in e :: k.vpn < USER_VPNS
    ensures FramesOf(DropBelow(e, pd, USER_VPNS)) == FramesOf(e) - OnlyIn(e, pd)
    ensures Once(e) ==> Once(DropBelow(e, pd, USER_VPNS))
  {
    var d := DropBelow(e, pd, USER_VPNS);
    forall f | f in FramesOf(e) - OnlyIn(e, pd) ensures f in FramesOf(d) {
      var k :| k in Sharers(e, f) && k.pd != pd;
      assert k in d;
    }
    forall f | f in FramesOf(d) ensures f in FramesOf(e) && f !in OnlyIn(e, pd) {
      var k :| k in d && d[k].frame == f;
      assert k in Sharers(e, f);
    }
  }

  lemma TablesLeft(m0: Mem, m': Mem, live: set<nat>, pd: nat)
    requires Structure(m0, live) && pd in live
    requires forall qd, p: nat | qd in live && qd != pd && p < USER_PDIS :: TableAt(m', qd, p) == TableAt(m0, qd, p)
    ensures TablesOf(m', live - {pd}) == TablesOf(m0, live) - ParentTables(m0, pd, USER_PDIS)
  {
    hide TableAt;
    forall f | f in TablesOf(m', live - {pd})
      ensures f in TablesOf(m0, live) && f !in ParentTables(m0, pd, USER_PDIS)
    {
      var qd, p: nat :|
        qd in live - {pd} && p < USER_PDIS && TableAt(m', qd, p).Some? && TableAt(m', qd, p).value == f;
      assert TableAt(m0, qd, p) == Some(f);
    }
    forall f | f in TablesOf(m0, live) && f !in ParentTables(m0, pd, USER_PDIS)
      ensures f in TablesOf(m', live - {pd})
    {
      var qd, p: nat :| qd in live && p < USER_PDIS && TableAt(m0, qd, p).Some? && TableAt(m0, qd, p).value == f;
      assert TableAt(m', qd, p).Some?;
    }
  }

  lemma DestroyKeeps(m0: Mem, live: set<nat>, held: set<nat>, pd: nat, kernelPd: nat, cr3: nat)
    requires Inv(m0, live) && Owned(m0, live, held) && Once(EntriesOf(m0, live))
    requires pd in live && !DestroyRefused(pd, kernelPd, cr3)
    ensures var m' := DestroySpace(m0, pd, kernelPd, cr3);
            Owned(m', live - {pd}, held) && Once(EntriesOf(m', live - {pd}))
  {
    hide Accounts, Exclusive, EntriesOf, DropBelow, MapsData, DestroyInv, DestroyFrees, Structure, CowEncoded, Abs,
         TableAt, UsedSet, TablesOf, FramesOf, OnlyIn, ParentTables, Once, PteAt;
    StructureSized(m0, live);
    DestroyRefines(m0, live, pd, kernelPd, cr3);
    DestroyDirsInv(m0, live, pd, USER_PDIS);
    var m := DestroyDirs(m0, pd, USER_PDIS);
    var m' := DestroySpace(m0, pd, kernelPd, cr3);
    forall qd, p: nat | qd in live && qd != pd && p < USER_PDIS ensures TableAt(m', qd, p) == TableAt(m0, qd, p) {
      Bystander(m0, live, pd, m, qd);
      SameFrames(m, m', qd, p);
    }
    TablesLeft(m0, m', live, pd);
    EntriesAfterDestroy(m0, live, pd, m);
    SameFramesEntries(m, m', live - {pd});
    forall k | k in EntriesOf(m0, live) ensures k.vpn < USER_VPNS { EntryKeys(m0, live, k); }
    DroppedNames(EntriesOf(m0, live), pd);
    KindsApart(m0, live);
    OwnTables(m0, live, pd);
    assert InUse(m', live - {pd}) == InUse(m0, live) - Returned(m0, live, pd);
  }

  lemma OwnTables(m0: Mem, live: set<nat>, pd: nat)
    requires pd in live
    ensures ParentTables(m0, pd, USER_PDIS) <= TablesOf(m0, live)
    ensures OnlyIn(EntriesOf(m0, live), pd) <= FramesOf(EntriesOf(m0, live))
  {
  }

  // ---- clone ----

  lemma ClonedNames(e: Entries, p: nat, c: nat)
    requires Ready(e, p, c) && forall k | k in e :: k.vpn < USER_VPNS
    ensures FramesOf(CloneMap(e, p, c, USER_VPNS)) == FramesOf(e)
    ensures Once(e) ==> Once(CloneMap(e, p, c, USER_VPNS))
  {
    hide CloneMap;
    CloneMapForm(e, p, c, USER_VPNS);
    var r := CloneMap(e, p, c, USER_VPNS);
    forall k | k in r ensures k in e || Key(p, k.vpn) in e {}
    forall k | k in e ensures k in r && r[k].frame == e[k].frame {}
  }

  lemma TablesGrown(m0: Mem, m: Mem, live: set<nat>, c: nat)
    requires forall pd, p: nat | pd in live && p < USER_PDIS :: TableAt(m, pd, p) == TableAt(m0, pd, p)
    ensures TablesOf(m, live + {c}) == TablesOf(m0, live) + ParentTables(m, c, USER_PDIS)
  {
    hide TableAt;
    forall f | f in TablesOf(m, live + {c}) ensures f in TablesOf(m0, live) + ParentTables(m, c, USER_PDIS) {
      var pd, p: nat :|
        pd in live + {c} && p < USER_PDIS && TableAt(m, pd, p).Some? && TableAt(m, pd, p).value == f;
      if pd in live { assert TableAt(m0, pd, p) == Some(f); }
    }
    forall f | f in TablesOf(m0, live) ensures f in TablesOf(m, live + {c}) {
      var pd, p: nat :| pd in live && p < USER_PDIS && TableAt(m0, pd, p).Some? && TableAt(m0, pd, p).value == f;
      assert TableAt(m, pd, p).Some?;
    }
  }

  lemma CloneTakes(m0: Mem, live: set<nat>, parent: nat, c: nat, m: Mem)
    requires Inv(m0, live) && CloneInv(m0, live, parent, c, m, USER_PDIS)
    requires CloneKeeps(m0, live, c, m, USER_PDIS)
    ensures UsedSet(m.pmm.bitmap) == UsedSet(m0.pmm.bitmap) + {c} + ParentTables(m, c, USER_PDIS)
    ensures ({c} + ParentTables(m, c, USER_PDIS)) !! UsedSet(m0.pmm.bitmap)
  {
    hide Structure, Exclusive, MapsData, CowEncoded, EntriesOf, ParentDone, ChildDone, CloneMap, ParentTables;
    ChildIsDir(m0, m, parent, c, USER_PDIS);
    FreshAreTables(m0, m, parent, c);
    FreshWereFree(m0, m, parent, c, USER_PDIS);
    forall f: nat | f < |m0.frames|
      ensures m.pmm.bitmap[f] <==> m0.pmm.bitmap[f] || f == c || f in ParentTables(m, c, USER_PDIS)
    {
      if Sharers(EntriesOf(m0, live), f) != {} { var k :| k in Sharers(EntriesOf(m0, live), f); }
    }
  }

  lemma CloneKeepsOwners(m0: Mem, live: set<nat>, held: set<nat>, parent: nat)
    requires Inv(m0, live) && Owned(m0, live, held) && Once(EntriesOf(m0, live))
    requires parent in live && Headroom(EntriesOf(m0, live), parent) && CloneSpace(m0, parent).child.Some?
    ensures var r := CloneSpace(m0, parent);
            Owned(r.m, live + {r.child.value}, held) && Once(EntriesOf(r.m, live + {r.child.value}))
  {
    hide Accounts, Exclusive, EntriesOf, MapsData, Structure, CowEncoded, Headroom, CloneKeeps, CloneMap, Ready,
         TableAt, UsedSet, TablesOf, FramesOf, ParentTables, Once, CloneSpace, Outside, ParentDone, ChildDone;
    StructureSized(m0, live);
    var r := CloneSpace(m0, parent);
    var c, m := r.child.value, r.m;
    CloneStages(m0, live, parent);
    forall pd, p: nat | pd in live && p < USER_PDIS ensures TableAt(m, pd, p) == TableAt(m0, pd, p) {
      TableAfter(m0, live, parent, c, m, pd, p);
    }
    TablesGrown(m0, m, live, c);
    CloneTakes(m0, live, parent, c, m);
    ReadyAtStart(m0, live, parent, c);
    forall k | k in EntriesOf(m0, live) ensures k.vpn < USER_VPNS { EntryKeys(m0, live, k); }
    ClonedNames(EntriesOf(m0, live), parent, c);
    assert InUse(m, live + {c}) == InUse(m0, live) + {c} + ParentTables(m, c, USER_PDIS);
  }

  lemma FailedCloneKeeps(m0: Mem, live: set<nat>, held: set<nat>, parent: nat)
    requires Inv(m0, live) && Owned(m0, live, held) && Once(EntriesOf(m0, live))
    requires parent in live && Headroom(EntriesOf(m0, live), parent) && CloneSpace(m0, parent).child.None?
    ensures var m := CloneSpace(m0, parent).m; Owned(m, live, held) && Once(EntriesOf(m, live))
  {
    hide Accounts, Exclusive, EntriesOf, MapsData, Structure, CowEncoded, Headroom, TableAt, UsedSet, TablesOf,
         FramesOf, Once, CloneSpace, PteAt;
    StructureSized(m0, live);
    FailedCloneRewinds(m0, live, parent);
    var m := CloneSpace(m0, parent).m;
    SameTables(m0, m, live);
    forall k | k in EntriesOf(m0, live) ensures EntriesOf(m0, live)[k].present { EntryKeys(m0, live, k); }
    SameNames(EntriesOf(m0, live), EntriesOf(m, live));
  }

  // ---- stores ----

  lemma MovedNames(e: Entries, k: Key, t: Pte)
    requires t.frame !in FramesOf(e)
    requires k in e ==> |Sharers(e, e[k].frame)| > 1
    ensures FramesOf(e[k := t]) == FramesOf(e) + {t.frame}
    ensures Once(e) ==> Once(e[k := t])
  {
    var e' := e[k := t];
    forall f | f in FramesOf(e) ensures f in FramesOf(e') {
      var j :| j in e && e[j].frame == f;
      if j == k {
        assert k in Sharers(e, f);
        assert |Sharers(e, f) - {k}| > 0;
        var i :| i in Sharers(e, f) - {k};
        assert e'[i].frame == f;
      } else {
        assert e'[j].frame == f;
      }
    }
    assert e'[k].frame == t.frame;
  }

  lemma FreshName(p: Pmm, e: Entries)
    requires Accounts(p, e) && AllocPage(p).frame.Some?
    ensures AllocPage(p).frame.value !in FramesOf(e)
  {
    AllocKeeps(p, e);
    NamedFrames(e, AllocPage(p).frame.value);
  }

  lemma FaultCopyKeeps(m: Mem, live: set<nat>, held: set<nat>, pd: nat, v: nat)
    requires Inv(m, live) && Owned(m, live, held) && Once(EntriesOf(m, live)) && pd in live && v < USER_VPNS
    requires var t := PteAt(m, pd, v);
             t.present && t.user && !t.rw && t.cow && Sized(m) && RefGet(m.pmm, t.frame) > 1
    requires AllocPage(m.pmm).frame.Some?
    ensures var m' := CowFault(m, pd, v).m; Owned(m', live, held) && Once(EntriesOf(m', live))
  {
    hide Accounts, Exclusive, EntriesOf, MapsData, Structure, OneEntry, Abs, CowEncoded, TablesOf, FramesOf, Once;
    FaultCopies(m, live, pd, v);
    var t := PteAt(m, pd, v);
    var a := AllocPage(m.pmm);
    var g, k, e := a.frame.value, Key(pd, v), EntriesOf(m, live);
    var t' := Pte(true, g, true, true, false, ACCESSED_DIRTY);
    var m1 := Mem(RefDec(a.pmm, t.frame), m.frames[g := m.frames[t.frame]]);
    AllHoldData(m, live);
    ScratchForm(m, m1, live, g);
    SetPteForm(m1, live, pd, v, t');
    var m' := CowFault(m, pd, v).m;
    assert m' == SetPte(m1, TableAt(m1, pd, v / PTRS).value, v % PTRS, t');
    SameTables(m, m', live);
    EntriesUpdate(m, m', live, k, t');
    EntryIn(m, live, pd, v);
    CountOfEntry(m.pmm, e, k);
    ShareCount(m.pmm, e, k);
    FreshName(m.pmm, e);
    MovedNames(e, k, t');
    assert UsedSet(m'.pmm.bitmap) == UsedSet(m.pmm.bitmap) + {g};
  }

  lemma ShareCount(p: Pmm, e: Entries, k: Key)
    requires Accounts(p, e) && k in e
    ensures p.refcnt[e[k].frame] == |Sharers(e, e[k].frame)|
  {
  }

  lemma FaultReuseKeeps(m: Mem, live: set<nat>, held: set<nat>, pd: nat, v: nat)
    requires Inv(m, live) && Owned(m, live, held) && Once(EntriesOf(m, live)) && pd in live && v < USER_VPNS
    requires var t := PteAt(m, pd, v);
             t.present && t.user && !t.rw && t.cow && Sized(m) && RefGet(m.pmm, t.frame) <= 1
    ensures var m' := CowFault(m, pd, v).m; Owned(m', live, held) && Once(EntriesOf(m', live))
  {
    hide Accounts, Exclusive, EntriesOf, MapsData, Structure, OneEntry, Abs, CowEncoded, TablesOf, FramesOf, Once;
    FaultReuses(m, live, pd, v);
    var t' := PteAt(m, pd, v).(rw := true, cow := false);
    SetPteForm(m, live, pd, v, t');
    var m' := CowFault(m, pd, v).m;
    SameTables(m, m', live);
    EntriesUpdate(m, m', live, Key(pd, v), t');
    EntryIn(m, live, pd, v);
    SameNames(EntriesOf(m, live), EntriesOf(m', live));
  }

  lemma FaultKeeps(m: Mem, live: set<nat>, held: set<nat>, pd: nat, v: nat)
    requires Inv(m, live) && Owned(m, live, held) && Once(EntriesOf(m, live)) && pd in live && v < USER_VPNS
    ensures Sized(m)
    ensures var m' := CowFault(m, pd, v).m; Owned(m', live, held) && Once(EntriesOf(m', live))
  {
    hide Accounts, Exclusive, EntriesOf, MapsData, Structure, Abs, CowEncoded, Owned, Once;
    StructureSized(m, live);
    var t := PteAt(m, pd, v);
    if CowFault(m, pd, v).result == Resolved {
      if RefGet(m.pmm, t.frame) > 1 {
        FaultCopyKeeps(m, live, held, pd, v);
      } else {
        FaultReuseKeeps(m, live, held, pd, v);
      }
    }
  }

  lemma WriteKeeps(m: Mem, live: set<nat>, held: set<nat>, f: nat, off: nat, val: Byte)
    requires Inv(m, live) && Owned(m, live, held) && Once(EntriesOf(m, live)) && Sized(m)
    ensures var m' := WriteByte(m, f, off, val); Owned(m', live, held) && Once(EntriesOf(m', live))
  {
    hide Accounts, Exclusive, EntriesOf, MapsData, CowEncoded, TablesOf, FramesOf, Once, PteAt, TableAt, Structure;
    var m' := WriteByte(m, f, off, val);
    if f < |m.frames| {
      if m.frames[f].Data? {
        ScratchForm(m, m', live, f);
        SameTables(m, m', live);
        SameEntries(m, m', live);
      }
    }
  }

  lemma StoreKeeps(m: Mem, live: set<nat>, held: set<nat>, pd: nat, v: nat, off: nat, val: Byte)
    requires Inv(m, live) && Owned(m, live, held) && Once(EntriesOf(m, live))
    requires pd in live && v < USER_VPNS && off < PAGE_SIZE
    ensures Sized(m)
    ensures var m' := Store(m, pd, v, off, val).m; Owned(m', live, held) && Once(EntriesOf(m', live))
  {
    hide Accounts, Exclusive, EntriesOf, MapsData, Structure, Abs, CowEncoded, Owned, Once, WriteByte, CowFault, PteAt;
    FaultKeeps(m, live, held, pd, v);
    FaultRefines(m, live, pd, v);
    WriteKeeps(m, live, held, PteAt(m, pd, v).frame, off, val);
    var fault := CowFault(m, pd, v);
    WriteKeeps(fault.m, live, held, PteAt(fault.m, pd, v).frame, off, val);
  }

  // ---- new pages ----

  lemma NewTable(m: Mem, m': Mem, live: set<nat>, pd: nat, p: nat, t: nat)
    requires pd in live && p < USER_PDIS && TableAt(m, pd, p).None?
    requires forall qd, q: nat | qd in live && q < USER_PDIS ::
               TableAt(m', qd, q) == if qd == pd && q == p then Some(t) else TableAt(m, qd, q)
    ensures TablesOf(m', live) == TablesOf(m, live) + {t}
  {
    hide TableAt;
    forall f | f in TablesOf(m, live) ensures f in TablesOf(m', live) {
      var qd, q: nat :| qd in live && q < USER_PDIS && TableAt(m, qd, q).Some? && TableAt(m, qd, q).value == f;
      assert TableAt(m', qd, q).Some?;
    }
    forall f | f in TablesOf(m', live) ensures f in TablesOf(m, live) + {t} {
      var qd, q: nat :| qd in live && q < USER_PDIS && TableAt(m', qd, q).Some? && TableAt(m', qd, q).value == f;
      assert (qd == pd && q == p) || TableAt(m, qd, q).Some?;
    }
    assert TableAt(m', pd, p).Some?;
  }

  // The frames in use after map_user_page.
  lemma MapTakes(m: Mem, live: set<nat>, pd: nat, v: nat)
    requires Inv(m, live) && Sized(m) && pd in live && v < USER_VPNS && IsDir(m, pd) && m.pmm.bitmap[pd]
    requires MapUserPage(m, pd, v).ok
    ensures AllocPage(m.pmm).frame.Some?
    ensures var m' := MapUserPage(m, pd, v).m;
            var taken := UsedSet(m'.pmm.bitmap) - UsedSet(m.pmm.bitmap);
            && UsedSet(m.pmm.bitmap) <= UsedSet(m'.pmm.bitmap)
            && TablesOf(m', live) + {AllocPage(m.pmm).frame.value} == TablesOf(m, live) + taken
            && AllocPage(m.pmm).frame.value in taken && AllocPage(m.pmm).frame.value !in TablesOf(m', live)
  {
    hide Exclusive, EntriesOf, MapsData, Accounts, CowEncoded, Structure, OneEntry, TablesOf, PteAt, MapUserPage;
    MapLedger(m, live, pd, v);
    var a := AllocPage(m.pmm);
    var f, m' := a.frame.value, MapUserPage(m, pd, v).m;
    NotATable(m', live, f);
    TablesInUse(m, live);
    if TableAt(m, pd, v / PTRS).Some? {
      SameTables(m, m', live);
      assert UsedSet(m'.pmm.bitmap) == UsedSet(m.pmm.bitmap) + {f};
    } else {
      var t := AllocPage(a.pmm).frame.value;
      NewTable(m, m', live, pd, v / PTRS, t);
      assert UsedSet(m'.pmm.bitmap) == UsedSet(m.pmm.bitmap) + {f, t};
    }
  }

  // map_user_page keeps the counts exact and every frame held if and only if the page was unmapped.
  lemma MapExact(m: Mem, live: set<nat>, held: set<nat>, pd: nat, v: nat)
    requires Inv(m, live) && Owned(m, live, held) && Once(EntriesOf(m, live))
    requires Sized(m) && pd in live && v < USER_VPNS && IsDir(m, pd) && m.pmm.bitmap[pd]
    requires MapUserPage(m, pd, v).ok
    ensures var m' := MapUserPage(m, pd, v).m;
            Inv(m', live) && Owned(m', live, held) && Once(EntriesOf(m', live)) <==> !PteAt(m, pd, v).present
  {
    hide Exclusive, EntriesOf, MapsData, Accounts, CowEncoded, Structure, OneEntry, TablesOf, PteAt, MapUserPage,
         FramesOf, Once, UsedSet, TableAt, Sharers;
    MapInv(m, live, pd, v);
    MapLedger(m, live, pd, v);
    MapTakes(m, live, pd, v);
    var e, k, m' := EntriesOf(m, live), Key(pd, v), MapUserPage(m, pd, v).m;
    var t := Pte(true, AllocPage(m.pmm).frame.value, true, true, false, 0);
    EntriesUpdate(m, m', live, k, t);
    EntryIn(m, live, pd, v);
    FreshName(m.pmm, e);
    if !PteAt(m, pd, v).present {
      MovedNames(e, k, t);
      assert InUse(m', live) == InUse(m, live) + (UsedSet(m'.pmm.bitmap) - UsedSet(m.pmm.bitmap));
    } else if RefGet(m.pmm, PteAt(m, pd, v).frame) == 1 {
      OnlySharer(m.pmm, e, k);
      LostFrame(m, m', live, held, k, t);
    }
  }

  lemma LostFrame(m: Mem, m': Mem, live: set<nat>, held: set<nat>, k: Key, t: Pte)
    requires Inv(m, live) && Owned(m, live, held) && k in EntriesOf(m, live)
    requires Sharers(EntriesOf(m, live), EntriesOf(m, live)[k].frame) == {k}
    requires EntriesOf(m', live) == EntriesOf(m, live)[k := t] && t.frame !in FramesOf(EntriesOf(m, live))
    requires UsedSet(m.pmm.bitmap) <= UsedSet(m'.pmm.bitmap)
    requires TablesOf(m', live) <= TablesOf(m, live) + (UsedSet(m'.pmm.bitmap) - UsedSet(m.pmm.bitmap))
    ensures !Owned(m', live, held)
  {
    hide EntriesOf, TablesOf, Inv, UsedSet;
    var e := EntriesOf(m, live);
    var f := e[k].frame;
    KindsApart(m, live);
    assert f in FramesOf(e);
    forall j | j in e && e[j].frame == f ensures j == k { assert j in Sharers(e, f); }
    assert f in UsedSet(m'.pmm.bitmap) && f !in held + InUse(m', live);
  }

  // When it fails nothing is taken.
  lemma MapFailKeeps(m: Mem, live: set<nat>, held: set<nat>, pd: nat, v: nat)
    requires Inv(m, live) && Owned(m, live, held) && Once(EntriesOf(m, live))
    requires Sized(m) && pd in live && v < USER_VPNS && IsDir(m, pd) && m.pmm.bitmap[pd]
    requires !MapUserPage(m, pd, v).ok
    ensures var m' := MapUserPage(m, pd, v).m; Owned(m', live, held) && Once(EntriesOf(m', live))
  {
    hide EntriesOf, MapsData, Exclusive, CowEncoded, TablesOf, Once;
    var a := AllocPage(m.pmm);
    if a.frame.Some? {
      var f := a.frame.value;
      var m' := FreeFrame(Mem(a.pmm, m.frames[f := Data(seq(PAGE_SIZE, _ => 0))]), f);
      assert MapUserPage(m, pd, v).m == m';
      AllocThenFree(m.pmm);
      ScratchForm(m, m', live, f);
      SameEntries(m, m', live);
      SameTables(m, m', live);
    }
  }

  lemma NotATable(m: Mem, live: set<nat>, f: nat)
    requires f < |m.frames| && m.frames[f].Data?
    ensures f !in TablesOf(m, live)
  {
  }

  lemma TablesInUse(m: Mem, live: set<nat>)
    requires Structure(m, live)
    ensures TablesOf(m, live) <= UsedSet(m.pmm.bitmap)
  {
  }

  // ---- the kernel's own frames ----

  // Memory that differs only in the kernel's own frames shows the same spaces.
  lemma Elsewhere(m: Mem, m': Mem, live: set<nat>, held: set<nat>)
    requires Inv(m, live) && Owned(m, live, held) && |m'.frames| == |m.frames|
    requires forall f: nat | f < |m.frames| && f in InUse(m, live) :: m'.frames[f] == m.frames[f]
    ensures forall pd | pd in live :: m'.frames[pd] == m.frames[pd] && IsDir(m', pd)
    ensures forall pd, p: nat | pd in live && p < USER_PDIS :: TableAt(m', pd, p) == TableAt(m, pd, p)
    ensures forall pd, v: nat | pd in live && v < USER_VPNS :: PteAt(m', pd, v) == PteAt(m, pd, v)
  {
    hide EntriesOf, Accounts, Exclusive, MapsData, CowEncoded, FramesOf;
    forall pd | pd in live
      ensures m'.frames[pd] == m.frames[pd] && IsDir(m', pd)
      ensures forall p: nat | p < USER_PDIS :: TableAt(m', pd, p) == TableAt(m, pd, p)
      ensures forall v: nat | v < USER_VPNS :: PteAt(m', pd, v) == PteAt(m, pd, v)
    {
      forall p: nat | p < USER_PDIS && TableAt(m, pd, p).Some?
        ensures m'.frames[TableAt(m, pd, p).value] == m.frames[TableAt(m, pd, p).value]
      {
        assert TableAt(m, pd, p).value in TablesOf(m, live);
      }
      TablesUntouched(m, m', pd);
    }
  }

  lemma ElsewhereSpaces(m: Mem, m': Mem, live: set<nat>, held: set<nat>)
    requires Inv(m, live) && Owned(m, live, held) && |m'.frames| == |m.frames|
    requires forall f: nat | f < |m.frames| && f in InUse(m, live) :: m'.frames[f] == m.frames[f]
    ensures Abs(m', live) == Abs(m, live)
    ensures EntriesOf(m', live) == EntriesOf(m, live) && TablesOf(m', live) == TablesOf(m, live)
    ensures MapsData(m', EntriesOf(m', live))
  {
    hide EntriesOf, Accounts, Exclusive, CowEncoded, Structure, TablesOf, PteAt, TableAt, Owned;
    Elsewhere(m, m', live, held);
    SameEntries(m, m', live);
    SameTables(m, m', live);
    var e := EntriesOf(m, live);
    forall k | k in e ensures m'.frames[e[k].frame] == m.frames[e[k].frame] { assert e[k].frame in FramesOf(e); }
    forall pd | pd in live ensures SpaceOf(m', pd) == SpaceOf(m, pd) {
      forall v: nat | v < USER_VPNS && PteAt(m, pd, v).present
        ensures var f := PteAt(m, pd, v).frame; f < |m.frames| && m'.frames[f] == m.frames[f]
      {
        EntryIn(m, live, pd, v);
      }
      assert forall v: nat | v < USER_VPNS :: HoldsData(m', PteAt(m', pd, v)) <==> HoldsData(m, PteAt(m, pd, v));
    }
  }

  lemma ElsewhereStructure(m: Mem, m': Mem, live: set<nat>, held: set<nat>)
    requires Inv(m, live) && Owned(m, live, held) && Sized(m') && |m'.frames| == |m.frames|
    requires forall f: nat | f < |m.frames| && f in InUse(m, live) ::
               m'.frames[f] == m.frames[f] && (m.pmm.bitmap[f] ==> m'.pmm.bitmap[f])
    ensures Structure(m', live)
  {
    hide EntriesOf, Accounts, Exclusive, MapsData, CowEncoded, FramesOf;
    Elsewhere(m, m', live, held);
    forall pd, p: nat | pd in live && p < USER_PDIS && TableAt(m, pd, p).Some?
      ensures TableAt(m, pd, p).value in TablesOf(m, live)
    {
    }
  }

  // pmm_alloc_page by the kernel for its own use (a stack, a ring, a buffer).
  lemma KernelAllocKeeps(m: Mem, live: set<nat>, held: set<nat>)
    requires Inv(m, live) && Owned(m, live, held) && Sized(m) && AllocPage(m.pmm).frame.Some?
    ensures var a := AllocPage(m.pmm);
            var m' := m.(pmm := a.pmm);
            && Inv(m', live) && Owned(m', live, held + {a.frame.value})
            && EntriesOf(m', live) == EntriesOf(m, live) && Abs(m', live) == Abs(m, live)
  {
    hide EntriesOf, Accounts, Exclusive, MapsData, CowEncoded, FramesOf, TablesOf, Structure, Abs, AllocPage;
    var a := AllocPage(m.pmm);
    var m' := m.(pmm := a.pmm);
    ElsewhereStructure(m, m', live, held);
    ElsewhereSpaces(m, m', live, held);
    AllocKeeps(m.pmm, EntriesOf(m, live));
    assert UsedSet(m'.pmm.bitmap) == UsedSet(m.pmm.bitmap) + {a.frame.value};
  }

  // pmm_free_page on a frame of the kernel's own.
  lemma KernelFreeKeeps(m: Mem, live: set<nat>, held: set<nat>, f: nat)
    requires Inv(m, live) && Owned(m, live, held) && Sized(m) && f in held
    ensures var m' := FreeFrame(m, f);
            && Inv(m', live) && Owned(m', live, held - {f})
            && EntriesOf(m', live) == EntriesOf(m, live) && Abs(m', live) == Abs(m, live)
  {
    hide EntriesOf, Accounts, Exclusive, MapsData, CowEncoded, FramesOf, TablesOf, Structure, Abs;
    var m' := FreeFrame(m, f);
    assert f in UsedSet(m.pmm.bitmap);
    ElsewhereStructure(m, m', live, held);
    ElsewhereSpaces(m, m', live, held);
    NamedFrames(EntriesOf(m, live), f);
    FreeKeeps(m.pmm, EntriesOf(m, live), f);
    assert UsedSet(m'.pmm.bitmap) == UsedSet(m.pmm.bitmap) - {f};
  }

  // The kernel may put anything into its own frames.
  lemma KernelWriteKeeps(m: Mem, live: set<nat>, held: set<nat>, f: nat, contents: Frame)
    requires Inv(m, live) && Owned(m, live, held) && Sized(m) && f in held
    ensures f < |m.frames|
    ensures var m' := m.(frames := m.frames[f := contents]);
            && Inv(m', live) && Owned(m', live, held)
            && EntriesOf(m', live) == EntriesOf(m, live) && Abs(m', live) == Abs(m, live)
  {
    hide EntriesOf, Accounts, Exclusive, MapsData, CowEncoded, FramesOf, TablesOf, Structure, Abs;
    assert f in UsedSet(m.pmm.bitmap);
    var m' := m.(frames := m.frames[f := contents]);
    ElsewhereStructure(m, m', live, held);
    ElsewhereSpaces(m, m', live, held);
  }
}
