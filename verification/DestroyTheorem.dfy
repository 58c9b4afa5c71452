// Destroy removes one space and nothing else; clone followed by destroy of the
// child gives back every frame and every count.
module DestroyTheorem {
  import opened Basics
  import opened Pmm
  import opened Ledger
  import opened AddressSpace
  import opened Spaces
  import opened CloneProof
  import opened CloneSpaceProof
  import opened CloneTheorem
  import opened DestroyProof
  import opened Holdings

  // Another space's directory and tables survive the destruction of pd.
  lemma Bystander(m0: Mem, live: set<nat>, pd: nat, m: Mem, qd: nat)
    requires Inv(m0, live) && pd in live && qd in live && qd != pd
    requires DestroyInv(m0, live, pd, m, USER_PDIS) && DestroyFrees(m0, live, pd, m, USER_PDIS)
    ensures m.frames[qd] == m0.frames[qd] && IsDir(m, qd) && m.pmm.bitmap[qd]
    ensures forall p: nat | p < USER_PDIS :: TableAt(m, qd, p) == TableAt(m0, qd, p)
    ensures forall v: nat | v < USER_VPNS :: PteAt(m, qd, v) == PteAt(m0, qd, v)
    ensures forall p: nat | p < USER_PDIS && TableAt(m0, qd, p).Some? ::
              TableAt(m0, qd, p).value != pd && m.pmm.bitmap[TableAt(m0, qd, p).value]
  {
    hide Accounts, Exclusive, EntriesOf, DropBelow;
    assert forall p: nat | p < USER_PDIS && TableAt(m0, qd, p).Some? :: TableAt(m0, qd, p).value != pd;
    TablesUntouched(m0, m, qd);
    NotData(m0, live, pd, qd);
    assert qd !in ParentTables(m0, pd, USER_PDIS);
    forall p: nat | p < USER_PDIS && TableAt(m0, qd, p).Some? ensures m.pmm.bitmap[TableAt(m0, qd, p).value] {
      var t := TableAt(m0, qd, p).value;
      NotData(m0, live, pd, t);
      assert t !in ParentTables(m0, pd, USER_PDIS);
    }
  }

  lemma NotData(m0: Mem, live: set<nat>, pd: nat, f: nat)
    requires MapsData(m0, EntriesOf(m0, live)) && f < |m0.frames| && !m0.frames[f].Data?
    ensures Unmapped(EntriesOf(m0, live), pd, f)
    ensures Sharers(EntriesOf(m0, live), f) == {}
  {
    hide EntriesOf;
    var e := EntriesOf(m0, live);
    assert forall k | k in e :: e[k].frame != f by {
      assert forall k | k in e :: m0.frames[e[k].frame].Data?;
    }
  }

  lemma EntriesAfterDestroy(m0: Mem, live: set<nat>, pd: nat, m: Mem)
    requires Inv(m0, live) && pd in live
    requires DestroyInv(m0, live, pd, m, USER_PDIS) && DestroyFrees(m0, live, pd, m, USER_PDIS)
    ensures EntriesOf(m, live - {pd}) == DropBelow(EntriesOf(m0, live), pd, USER_VPNS)
  {
    hide Structure, Accounts, Exclusive, MapsData, DestroyInv, DestroyFrees, PteAt, EntriesOf;
    var e, e' := EntriesOf(m0, live), EntriesOf(m, live - {pd});
    var r := DropBelow(e, pd, USER_VPNS);
    forall k | k in e' ensures k in r && e'[k] == r[k] {
      EntryKeys(m, live - {pd}, k);
      Bystander(m0, live, pd, m, k.pd);
      EntryIn(m0, live, k.pd, k.vpn);
      assert k == Key(k.pd, k.vpn);
    }
    forall k | k in r ensures k in e' {
      EntryKeys(m0, live, k);
      Bystander(m0, live, pd, m, k.pd);
      EntryIn(m, live - {pd}, k.pd, k.vpn);
      assert k == Key(k.pd, k.vpn);
    }
    assert e' == r;
  }

  lemma StructureAfterDestroy(m0: Mem, live: set<nat>, pd: nat, m: Mem)
    requires Inv(m0, live) && pd in live
    requires DestroyInv(m0, live, pd, m, USER_PDIS) && DestroyFrees(m0, live, pd, m, USER_PDIS)
    ensures Structure(FreeFrame(m, pd), live - {pd})
  {
    hide Accounts, Exclusive, EntriesOf, DestroyFrees, DropBelow, MapsData;
    var m' := FreeFrame(m, pd);
    forall qd, p: nat | qd in live - {pd} && p < USER_PDIS
      ensures TableAt(m', qd, p) == TableAt(m0, qd, p)
      ensures TableAt(m', qd, p).Some? ==> m'.pmm.bitmap[TableAt(m', qd, p).value]
      ensures m'.frames[qd] == m0.frames[qd]
    {
      Bystander(m0, live, pd, m, qd);
      SameFrames(m, m', qd, p);
    }
    forall qd | qd in live - {pd} ensures 0 < qd && IsDir(m', qd) && m'.pmm.bitmap[qd] {
      Bystander(m0, live, pd, m, qd);
    }
  }

  lemma SameFrames(m: Mem, m': Mem, pd: nat, p: nat)
    requires m.frames == m'.frames
    ensures TableAt(m, pd, p) == TableAt(m', pd, p)
  {
  }

  lemma BystanderReads(m0: Mem, live: set<nat>, pd: nat, m: Mem, qd: nat)
    requires Inv(m0, live) && pd in live && qd in live && qd != pd
    requires DestroyInv(m0, live, pd, m, USER_PDIS) && DestroyFrees(m0, live, pd, m, USER_PDIS)
    ensures SpaceOf(FreeFrame(m, pd), qd) == SpaceOf(m0, qd)
  {
    hide Accounts, Exclusive, EntriesOf, DestroyFrees, DropBelow, TableAt;
    Bystander(m0, live, pd, m, qd);
    var m' := FreeFrame(m, pd);
    forall v: nat | v < USER_VPNS
      ensures PteAt(m', qd, v) == PteAt(m0, qd, v)
      ensures PteAt(m0, qd, v).present ==>
                HoldsData(m0, PteAt(m0, qd, v))
                  && m'.frames[PteAt(m0, qd, v).frame] == m0.frames[PteAt(m0, qd, v).frame]
    {
      SameFrames(m, m', qd, v / PTRS);
      EntryIn(m0, live, qd, v);
    }
  }

  // The frames only pd maps.
  ghost function OnlyIn(e: Entries, pd: nat): set<nat> {
    set f | f in FramesOf(e) && forall k | k in Sharers(e, f) :: k.pd == pd
  }

  // What destroying pd gives back: its directory, its tables and the frames only it maps.
  ghost function Returned(m: Mem, live: set<nat>, pd: nat): set<nat> {
    {pd} + ParentTables(m, pd, USER_PDIS) + OnlyIn(EntriesOf(m, live), pd)
  }

  lemma FrameReturned(m0: Mem, live: set<nat>, pd: nat, m: Mem, f: nat)
    requires Inv(m0, live) && pd in live && f < |m0.frames|
    requires DestroyInv(m0, live, pd, m, USER_PDIS) && DestroyFrees(m0, live, pd, m, USER_PDIS)
    requires Gone(m.pmm, EntriesOf(m0, live), DropBelow(EntriesOf(m0, live), pd, USER_VPNS))
    ensures FreeFrame(m, pd).pmm.bitmap[f] <==> m0.pmm.bitmap[f] && f !in Returned(m0, live, pd)
  {
    hide Structure, Exclusive, MapsData, CowEncoded, EntriesOf, ParentTables;
    var e := EntriesOf(m0, live);
    var d := DropBelow(e, pd, USER_VPNS);
    NamedFrames(e, f);
    if f != pd && f !in ParentTables(m0, pd, USER_PDIS) {
      if Unmapped(e, pd, f) {
        assert forall k | k in Sharers(e, f) :: k == Key(k.pd, k.vpn);
      } else {
        OnlyLeft(m0, live, pd, f);
        if Sharers(d, f) != {} { var k :| k in Sharers(d, f); }
      }
    }
  }

  lemma OnlyLeft(m0: Mem, live: set<nat>, pd: nat, f: nat)
    requires !Unmapped(EntriesOf(m0, live), pd, f)
    ensures var e := EntriesOf(m0, live);
            && Sharers(e, f) != {}
            && (f in OnlyIn(e, pd) <==> Sharers(DropBelow(e, pd, USER_VPNS), f) == {})
  {
    hide EntriesOf;
    var e := EntriesOf(m0, live);
    var v: nat :| Key(pd, v) in e && e[Key(pd, v)].frame == f;
    assert Key(pd, v) in Sharers(e, f);
    NamedFrames(e, f);
    forall k | k in Sharers(e, f) ensures k in Sharers(DropBelow(e, pd, USER_VPNS), f) <==> k.pd != pd {
      EntryKeys(m0, live, k);
    }
    assert Sharers(DropBelow(e, pd, USER_VPNS), f) <= Sharers(e, f);
  }

  lemma DestroyReturns(m0: Mem, live: set<nat>, pd: nat, m: Mem)
    requires Inv(m0, live) && pd in live
    requires DestroyInv(m0, live, pd, m, USER_PDIS) && DestroyFrees(m0, live, pd, m, USER_PDIS)
    requires Gone(m.pmm, EntriesOf(m0, live), DropBelow(EntriesOf(m0, live), pd, USER_VPNS))
    ensures UsedSet(FreeFrame(m, pd).pmm.bitmap) == UsedSet(m0.pmm.bitmap) - Returned(m0, live, pd)
  {
    hide Inv, DestroyFrees, Gone, EntriesOf, Returned, Accounts, Exclusive;
    forall f: nat | f < |m0.frames|
      ensures FreeFrame(m, pd).pmm.bitmap[f] <==> m0.pmm.bitmap[f] && f !in Returned(m0, live, pd)
    {
      FrameReturned(m0, live, pd, m, f);
    }
  }

  // Destroying a space removes it, leaves every other space reading the same, and gives back
  // exactly its directory, its tables and the frames no other space maps.
  lemma DestroyRefines(m0: Mem, live: set<nat>, pd: nat, kernelPd: nat, cr3: nat)
    requires Inv(m0, live) && pd in live && !DestroyRefused(pd, kernelPd, cr3)
    ensures var m' := DestroySpace(m0, pd, kernelPd, cr3);
            && Inv(m', live - {pd}) && Abs(m', live - {pd}) == Abs(m0, live) - {pd}
            && UsedSet(m'.pmm.bitmap) == UsedSet(m0.pmm.bitmap) - Returned(m0, live, pd)
  {
    hide Accounts, Exclusive, EntriesOf, DropBelow, MapsData, DestroyInv, DestroyFrees, SpaceOf, Structure, CowEncoded,
         Gone, Returned, UsedSet;
    StructureSized(m0, live);
    DestroyDirsInv(m0, live, pd, USER_PDIS);
    var m := DestroyDirs(m0, pd, USER_PDIS);
    var m' := FreeFrame(m, pd);
    StructureAfterDestroy(m0, live, pd, m);
    EntriesAfterDestroy(m0, live, pd, m);
    LedgerAfterDestroy(m0, live, pd, m);
    DestroyDirsGone(m0, live, pd, USER_PDIS);
    DestroyReturns(m0, live, pd, m);
    SameFramesEntries(m, m', live - {pd});
    forall qd | qd in live - {pd} ensures SpaceOf(m', qd) == SpaceOf(m0, qd) { BystanderReads(m0, live, pd, m, qd); }
  }

  lemma SameFramesEntries(m: Mem, m': Mem, live: set<nat>)
    requires m.frames == m'.frames
    ensures EntriesOf(m, live) == EntriesOf(m', live)
  {
    forall pd, v: nat | pd in live && v < USER_VPNS ensures PteAt(m, pd, v) == PteAt(m', pd, v) {
      SameFrames(m, m', pd, v / PTRS);
    }
    SameEntries(m, m', live);
  }

  lemma LedgerAfterDestroy(m0: Mem, live: set<nat>, pd: nat, m: Mem)
    requires Inv(m0, live) && pd in live && DestroyInv(m0, live, pd, m, USER_PDIS)
    ensures var d := DropBelow(EntriesOf(m0, live), pd, USER_VPNS);
            Accounts(FreeFrame(m, pd).pmm, d) && Exclusive(d) && MapsData(FreeFrame(m, pd), d) && CowEncoded(d)
  {
    hide Accounts, Exclusive, EntriesOf;
    var e := EntriesOf(m0, live);
    NotData(m0, live, pd, pd);
    var d := DropBelow(e, pd, USER_VPNS);
    Named(e, pd);
    Named(d, pd);
    FreeKeeps(m.pmm, d, pd);
  }

  // ---- clone, then destroy the child ----

  ghost function FreshTables(m: Mem, c: nat, i: nat): set<nat>
    requires IsDir(m, c) && i <= USER_PDIS
  {
    set p: nat | p < i && m.frames[c].pdes[p].present :: m.frames[c].pdes[p].frame
  }

  // Clone moves no bit and no count of a frame that is neither mapped nor newly allocated.
  ghost predicate CloneKeeps(m0: Mem, live: set<nat>, c: nat, m: Mem, i: nat) {
    && Sized(m0) && Sized(m) && |m.frames| == |m0.frames| && IsDir(m, c) && i <= USER_PDIS
    && (forall f: nat | f < |m0.frames| && f != c && f !in FreshTables(m, c, i)
        && Sharers(EntriesOf(m0, live), f) == {} ::
          m.pmm.bitmap[f] == m0.pmm.bitmap[f] && m.pmm.refcnt[f] == m0.pmm.refcnt[f])
  }

  lemma CloneKeepsStep(m0: Mem, live: set<nat>, parent: nat, c: nat, m: Mem, i: nat)
    requires Inv(m0, live) && parent in live && i < USER_PDIS
    requires CloneInv(m0, live, parent, c, m, i) && CloneKeeps(m0, live, c, m, i)
    requires IsDir(m, c) && m.pmm.bitmap[c] && !CloneDir(m, parent, c, i).oom
    ensures CloneKeeps(m0, live, c, CloneDir(m, parent, c, i).m, i + 1)
  {
    hide Accounts, Exclusive, EntriesOf, CloneMap, MapsData, ParentDone, Sharers;
    ParentDirUntouched(m0, live, m, parent, i);
    var m' := CloneDir(m, parent, c, i).m;
    if TableAt(m0, parent, i).None? {
      assert FreshTables(m, c, i + 1) == FreshTables(m, c, i);
    } else {
      AllocatedTable(m0, live, m, parent, c, i);
      CloneDirStep(m, parent, c, i);
      var ct := AllocPage(m.pmm).frame.value;
      FreshStep(m, m', c, i, TableAt(m0, parent, i).value, ct, m.frames[parent].pdes[i]);
      forall f: nat | f < |m0.frames| && f != c && f !in FreshTables(m', c, i + 1)
        && Sharers(EntriesOf(m0, live), f) == {}
        ensures m'.pmm.bitmap[f] == m0.pmm.bitmap[f] && m'.pmm.refcnt[f] == m0.pmm.refcnt[f]
      {
        CloneDirFrame(m0, live, parent, c, m, i, f);
      }
    }
  }

  lemma FreshStep(m: Mem, m': Mem, c: nat, i: nat, pt: nat, ct: nat, e: Pde)
    requires DirStep(m, m', c, i, pt, ct, e)
    ensures FreshTables(m', c, i + 1) == FreshTables(m, c, i) + {ct}
  {
    assert forall p: nat | p < i :: m'.frames[c].pdes[p] == m.frames[c].pdes[p];
    assert m'.frames[c].pdes[i].present && m'.frames[c].pdes[i].frame == ct;
  }

  lemma CloneDirFrame(m0: Mem, live: set<nat>, parent: nat, c: nat, m: Mem, i: nat, f: nat)
    requires Structure(m0, live) && parent in live && i < USER_PDIS && TableAt(m0, parent, i).Some? && f < |m0.frames|
    requires Sized(m) && |m.frames| == |m0.frames| && IsDir(m, c) && m.pmm.bitmap[c]
    requires TableAt(m, parent, i) == TableAt(m0, parent, i) && m.pmm.bitmap[TableAt(m0, parent, i).value]
    requires m.frames[TableAt(m0, parent, i).value] == m0.frames[TableAt(m0, parent, i).value]
    requires AllocPage(m.pmm).frame.Some? && f != AllocPage(m.pmm).frame.value && Sharers(EntriesOf(m0, live), f) == {}
    ensures CloneDir(m, parent, c, i).m.pmm.bitmap[f] == m.pmm.bitmap[f]
    ensures CloneDir(m, parent, c, i).m.pmm.refcnt[f] == m.pmm.refcnt[f]
  {
    hide EntriesOf;
    var pt := TableAt(m0, parent, i).value;
    var a := AllocPage(m.pmm);
    var ct := a.frame.value;
    var l := Link(m.(pmm := a.pmm), parent, c, i, ct);
    assert l.frames[pt] == m0.frames[pt];
    forall k: nat | k < PTRS && l.frames[pt].ptes[k].present ensures l.frames[pt].ptes[k].frame != f {
      TableEntries(m0, live, parent, i, k);
      Named(EntriesOf(m0, live), f);
    }
    CloneSlotsFrame(l, pt, ct, PTRS, f);
  }

  lemma {:induction false} CloneDirsKeeps(m0: Mem, live: set<nat>, parent: nat, i: nat)
    requires Inv(m0, live) && parent in live && Headroom(EntriesOf(m0, live), parent) && i <= USER_PDIS
    requires AllocPage(m0.pmm).frame.Some?
    ensures var a := AllocPage(m0.pmm);
            var c := a.frame.value;
            var r := CloneDirs(Mem(a.pmm, m0.frames[c := EmptyDir()]), parent, c, i);
            CloneKeeps(m0, live, c, r.m, r.at)
  {
    hide Accounts, Exclusive, Headroom, Outside, ParentDone, ChildDone, MapsData, EntriesOf, CloneMap, TableAt,
         AllocPage, CloneDir, Sharers;
    if i == 0 {
      KeepsStart(m0, live);
    } else {
      CloneDirsKeeps(m0, live, parent, i - 1);
      CloneDirsInv(m0, live, parent, i - 1);
      var a := AllocPage(m0.pmm);
      var c := a.frame.value;
      var r := CloneDirs(Mem(a.pmm, m0.frames[c := EmptyDir()]), parent, c, i - 1);
      if !r.oom {
        CloneInvStep(m0, live, parent, c, r.m, i - 1);
        if !CloneDir(r.m, parent, c, i - 1).oom { CloneKeepsStep(m0, live, parent, c, r.m, i - 1); }
      }
    }
  }

  lemma KeepsStart(m0: Mem, live: set<nat>)
    requires Inv(m0, live) && AllocPage(m0.pmm).frame.Some?
    ensures var a := AllocPage(m0.pmm);
            CloneKeeps(m0, live, a.frame.value, Mem(a.pmm, m0.frames[a.frame.value := EmptyDir()]), 0)
  {
    AllocSpec(m0.pmm);
  }

  // The ledger of the survivors names the same frames as before the clone.
  lemma SurvivorSharers(m0: Mem, live: set<nat>, parent: nat, c: nat, f: nat)
    requires Structure(m0, live) && parent in live && c < |m0.frames| && !m0.pmm.bitmap[c]
    ensures var d := DropBelow(CloneMap(EntriesOf(m0, live), parent, c, USER_VPNS), c, USER_VPNS);
            Sharers(d, f) == Sharers(EntriesOf(m0, live), f)
  {
    hide EntriesOf, CloneMap;
    var e := EntriesOf(m0, live);
    ReadyAtStart(m0, live, parent, c);
    CloneMapForm(e, parent, c, USER_VPNS);
    var r := CloneMap(e, parent, c, USER_VPNS);
    forall k | k in e ensures r[k].frame == e[k].frame {}
    assert forall k | k in DropBelow(r, c, USER_VPNS) :: k in e;
  }

  lemma ChildUnmapped(m0: Mem, live: set<nat>, parent: nat, c: nat, f: nat)
    requires Structure(m0, live) && parent in live && c < |m0.frames| && !m0.pmm.bitmap[c]
    requires Sharers(EntriesOf(m0, live), f) == {}
    ensures Unmapped(CloneMap(EntriesOf(m0, live), parent, c, USER_VPNS), c, f)
  {
    hide EntriesOf, CloneMap;
    ReadyAtStart(m0, live, parent, c);
    CloneMapForm(EntriesOf(m0, live), parent, c, USER_VPNS);
    Named(EntriesOf(m0, live), f);
  }

  lemma FreshAreTables(m0: Mem, m: Mem, parent: nat, c: nat)
    requires ChildDone(m0, m, parent, c, USER_PDIS)
    ensures FreshTables(m, c, USER_PDIS) == ParentTables(m, c, USER_PDIS)
    ensures forall f | f in FreshTables(m, c, USER_PDIS) :: f < |m0.pmm.bitmap| && !m0.pmm.bitmap[f]
  {
    hide ChildDone, ChildSlot;
    ChildIsDir(m0, m, parent, c, USER_PDIS);
    forall p: nat | p < USER_PDIS
      ensures TableAt(m, c, p).Some? <==> m.frames[c].pdes[p].present
      ensures TableAt(m, c, p).Some? ==>
                var f := m.frames[c].pdes[p].frame;
                TableAt(m, c, p).value == f && f < |m0.pmm.bitmap| && !m0.pmm.bitmap[f]
    {
      ChildTableAfter(m0, parent, c, m, p);
      if TableAt(m, c, p).Some? { SlotFresh(m0, m, parent, c, p); }
    }
  }

  lemma SlotFresh(m0: Mem, m: Mem, parent: nat, c: nat, p: nat)
    requires Sized(m0) && Sized(m) && |m.frames| == |m0.frames|
    requires IsDir(m, c) && TableAt(m0, parent, p).Some? && p < USER_PDIS && ChildSlot(m0, m, parent, c, p)
    ensures var f := m.frames[c].pdes[p].frame; f < |m0.pmm.bitmap| && !m0.pmm.bitmap[f]
  {
  }

  // One frame across clone and destroy: it ends where it started.
  lemma FrameBack(m0: Mem, live: set<nat>, parent: nat, c: nat, m1: Mem, md: Mem, f: nat)
    requires Inv(m0, live) && parent in live && f < |m0.frames|
    requires CloneInv(m0, live, parent, c, m1, USER_PDIS) && CloneKeeps(m0, live, c, m1, USER_PDIS)
    requires EntriesOf(m1, live + {c}) == CloneMap(EntriesOf(m0, live), parent, c, USER_VPNS)
    requires Sized(md) && |md.frames| == |m1.frames| == |m1.pmm.bitmap|
    requires DestroyFrees(m1, live + {c}, c, md, USER_PDIS)
    requires Accounts(FreeFrame(md, c).pmm, DropBelow(EntriesOf(m1, live + {c}), c, USER_VPNS))
    ensures FreeFrame(md, c).pmm.bitmap[f] == m0.pmm.bitmap[f]
    ensures FreeFrame(md, c).pmm.refcnt[f] == m0.pmm.refcnt[f]
  {
    hide Exclusive, EntriesOf, CloneMap, MapsData, Outside, ParentDone, ChildDone, Structure;
    var m2 := FreeFrame(md, c);
    var e := EntriesOf(m0, live);
    var d := DropBelow(EntriesOf(m1, live + {c}), c, USER_VPNS);
    ChildIsDir(m0, m1, parent, c, USER_PDIS);
    FreshAreTables(m0, m1, parent, c);
    SurvivorSharers(m0, live, parent, c, f);
    if f == c || f in FreshTables(m1, c, USER_PDIS) {
      assert !m2.pmm.bitmap[f] && !m0.pmm.bitmap[f];
    } else if Sharers(e, f) == {} {
      ChildUnmapped(m0, live, parent, c, f);
    } else {
      var k :| k in Sharers(e, f);
      assert k in Sharers(d, f);
    }
  }

  // Clone followed by destroy of the child: the bitmap, all counts and the free count return.
  lemma CloneThenDestroy(m0: Mem, live: set<nat>, parent: nat, kernelPd: nat, cr3: nat)
    requires Inv(m0, live) && parent in live && Headroom(EntriesOf(m0, live), parent)
    requires kernelPd in live && cr3 in live && CloneSpace(m0, parent).child.Some?
    ensures var r := CloneSpace(m0, parent);
            var m2 := DestroySpace(r.m, r.child.value, kernelPd, cr3);
            && m2.pmm.bitmap == m0.pmm.bitmap && m2.pmm.refcnt == m0.pmm.refcnt && m2.pmm.free == m0.pmm.free
            && Abs(m2, live) == Abs(m0, live)
  {
    hide Accounts, Exclusive, EntriesOf, CloneMap, MapsData, Outside, ParentDone, ChildDone, Structure, DestroyFrees,
         DestroyInv, CloneKeeps, SpaceOf, Headroom, DropBelow;
    StructureSized(m0, live);
    var r := CloneSpace(m0, parent);
    var c, m1 := r.child.value, r.m;
    CloneRefines(m0, live, parent);
    CloneStages(m0, live, parent);
    AllocAboveZero(m0.pmm);
    DestroyDirsInv(m1, live + {c}, c, USER_PDIS);
    DestroyRefines(m1, live + {c}, c, kernelPd, cr3);
    var md := DestroyDirs(m1, c, USER_PDIS);
    var m2 := DestroySpace(m1, c, kernelPd, cr3);
    assert m2 == FreeFrame(md, c);
    DestroySizes(m1, live + {c}, c, md);
    LedgerAfterDestroy(m1, live + {c}, c, md);
    forall f: nat | f < |m0.frames|
      ensures m2.pmm.bitmap[f] == m0.pmm.bitmap[f] && m2.pmm.refcnt[f] == m0.pmm.refcnt[f]
    {
      FrameBack(m0, live, parent, c, m1, md, f);
    }
    assert m2.pmm.bitmap == m0.pmm.bitmap && m2.pmm.refcnt == m0.pmm.refcnt;
    FreeCounts(m0, m2, EntriesOf(m0, live), DropBelow(EntriesOf(m1, live + {c}), c, USER_VPNS));
    assert live + {c} - {c} == live;
  }

  lemma DestroySizes(m1: Mem, live: set<nat>, pd: nat, md: Mem)
    requires DestroyInv(m1, live, pd, md, USER_PDIS)
    ensures Sized(m1) && Sized(md) && |md.frames| == |m1.frames|
  {
  }

  lemma FreeCounts(m0: Mem, m2: Mem, e: Entries, d: Entries)
    requires Accounts(m0.pmm, e) && Accounts(m2.pmm, d) && m2.pmm.bitmap == m0.pmm.bitmap
    ensures m2.pmm.free == m0.pmm.free
  {
  }

  // The facts about the state a completed clone leaves behind.
  lemma CloneStages(m0: Mem, live: set<nat>, parent: nat)
    requires Inv(m0, live) && parent in live && Headroom(EntriesOf(m0, live), parent)
    requires CloneSpace(m0, parent).child.Some?
    ensures var r := CloneSpace(m0, parent);
            var c := r.child.value;
            && AllocPage(m0.pmm).frame == Some(c)
            && c < |m0.frames| && !m0.pmm.bitmap[c] && |r.m.frames| == |m0.frames|
            && CloneInv(m0, live, parent, c, r.m, USER_PDIS)
            && CloneKeeps(m0, live, c, r.m, USER_PDIS)
            && EntriesOf(r.m, live + {c}) == CloneMap(EntriesOf(m0, live), parent, c, USER_VPNS)
  {
    hide Outside, ParentDone, ChildDone, Accounts, Exclusive, EntriesOf, CloneMap, MapsData, Headroom, Structure,
         Sharers;
    StructureSized(m0, live);
    var a := AllocPage(m0.pmm);
    var c := a.frame.value;
    CloneDirsInv(m0, live, parent, USER_PDIS);
    CloneDirsKeeps(m0, live, parent, USER_PDIS);
    var pr := CloneDirs(Mem(a.pmm, m0.frames[c := EmptyDir()]), parent, c, USER_PDIS);
    ChildIsDir(m0, pr.m, parent, c, USER_PDIS);
    KernelHalfKeeps(m0, live, parent, c, pr.m);
    KernelHalfFrames(pr.m, parent, c);
    var m := CopyKernelHalf(pr.m, parent, c);
    assert FreshTables(m, c, USER_PDIS) == FreshTables(pr.m, c, USER_PDIS);
    EntriesAfter(m0, live, parent, c, m);
  }
}
