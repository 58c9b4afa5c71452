// A failed clone: every frame and count returns, and exactly when the parent's
// mappings, and the promise that spaces do not share writable pages, return too.
module RollbackTheorem {
  import opened Pmm
  import opened Ledger
  import opened AddressSpace
  import opened Spaces
  import opened CloneProof
  import opened CloneSpaceProof
  import opened CloneTheorem
  import opened DestroyTheorem
  import opened RollbackProof

  // The directory slot at which a failing clone ran out of memory.
  ghost function FailPoint(m: Mem, parent: nat): nat
    requires Sized(m)
  {
    var a := AllocPage(m.pmm);
    if a.frame.None? then 0
    else CloneDirs(Mem(a.pmm, m.frames[a.frame.value := EmptyDir()]), parent, a.frame.value, USER_PDIS).at
  }

  ghost function RestoredMap(e: Entries, p: nat, n: nat): Entries {
    map k | k in e :: if k.pd == p && k.vpn < n then Restored(e[k]) else e[k]
  }

  lemma UndoneMap(e: Entries, p: nat, c: nat, n: nat)
    requires Ready(e, p, c)
    ensures UndoMap(e, p, c, n, n) == RestoredMap(e, p, n)
    ensures forall f :: Sharers(RestoredMap(e, p, n), f) == Sharers(e, f)
  {
    hide CloneMap;
    CloneMapForm(e, p, c, n);
    assert UndoMap(e, p, c, n, n) == RestoredMap(e, p, n);
  }

  // The frames of the live spaces after rollback.
  lemma UndoneBystander(m0: Mem, live: set<nat>, parent: nat, at: nat, mf: Mem, m: Mem, pd: nat)
    requires Structure(m0, live) && parent in live && pd in live && pd != parent && at <= USER_PDIS
    requires Outside(m0, mf, parent, at) && UndoFrames(m0, parent, mf, m, at)
    ensures m.frames[pd] == m0.frames[pd] && IsDir(m, pd)
    ensures forall p: nat | p < USER_PDIS :: TableAt(m, pd, p) == TableAt(m0, pd, p)
    ensures forall v: nat | v < USER_VPNS :: PteAt(m, pd, v) == PteAt(m0, pd, v)
  {
    assert pd !in ParentTables(m0, parent, at);
    forall p: nat | p < USER_PDIS && TableAt(m0, pd, p).Some?
      ensures m.frames[TableAt(m0, pd, p).value] == m0.frames[TableAt(m0, pd, p).value]
    {
      assert TableAt(m0, pd, p).value !in ParentTables(m0, parent, at);
    }
    TablesUntouched(m0, m, pd);
  }

  lemma UndoneParent(m0: Mem, live: set<nat>, parent: nat, at: nat, mf: Mem, m: Mem)
    requires Structure(m0, live) && parent in live && at <= USER_PDIS
    requires Outside(m0, mf, parent, at) && UndoFrames(m0, parent, mf, m, at)
    ensures m.frames[parent] == m0.frames[parent] && IsDir(m, parent)
    ensures forall p: nat | p < USER_PDIS :: TableAt(m, parent, p) == TableAt(m0, parent, p)
    ensures forall v: nat | v < USER_VPNS ::
              PteAt(m, parent, v) == if v < at * PTRS then Restored(PteAt(m0, parent, v)) else PteAt(m0, parent, v)
  {
    assert parent !in ParentTables(m0, parent, at);
    forall p: nat | p < USER_PDIS
      ensures TableAt(m, parent, p) == TableAt(m0, parent, p)
      ensures p >= at && TableAt(m0, parent, p).Some? ==>
                m.frames[TableAt(m0, parent, p).value] == m0.frames[TableAt(m0, parent, p).value]
    {
      assert TableAt(m0, parent, p).Some? <==> m0.frames[parent].pdes[p].present;
      if p >= at && TableAt(m0, parent, p).Some? {
        assert TableAt(m0, parent, p).value !in ParentTables(m0, parent, at);
      }
    }
    forall v: nat | v < USER_VPNS
      ensures PteAt(m, parent, v) == if v < at * PTRS then Restored(PteAt(m0, parent, v)) else PteAt(m0, parent, v)
    {
      assert TableAt(m, parent, v / PTRS) == TableAt(m0, parent, v / PTRS);
      assert v < at * PTRS <==> v / PTRS < at;
    }
  }

  // Every live space after rollback, entry by entry.
  ghost predicate Rewound(m0: Mem, live: set<nat>, parent: nat, at: nat, m: Mem) {
    && (forall pd | pd in live :: IsDir(m0, pd) && IsDir(m, pd) && m.frames[pd] == m0.frames[pd])
    && (forall pd, p: nat | pd in live && p < USER_PDIS :: TableAt(m, pd, p) == TableAt(m0, pd, p))
    && (forall pd, v: nat | pd in live && v < USER_VPNS ::
          PteAt(m, pd, v) == if pd == parent && v < at * PTRS then Restored(PteAt(m0, pd, v)) else PteAt(m0, pd, v))
  }

  lemma UndoneIsRewound(m0: Mem, live: set<nat>, parent: nat, at: nat, mf: Mem, m: Mem)
    requires Structure(m0, live) && parent in live && at <= USER_PDIS
    requires Outside(m0, mf, parent, at) && UndoFrames(m0, parent, mf, m, at)
    ensures Rewound(m0, live, parent, at, m)
  {
    hide Outside, UndoFrames, TableAt, PteAt;
    UndoneParent(m0, live, parent, at, mf, m);
    forall pd | pd in live && pd != parent
      ensures IsDir(m0, pd) && IsDir(m, pd) && m.frames[pd] == m0.frames[pd]
      ensures forall p: nat | p < USER_PDIS :: TableAt(m, pd, p) == TableAt(m0, pd, p)
      ensures forall v: nat | v < USER_VPNS :: PteAt(m, pd, v) == PteAt(m0, pd, v)
    {
      UndoneBystander(m0, live, parent, at, mf, m, pd);
    }
  }

  lemma RewoundEntries(m0: Mem, live: set<nat>, parent: nat, at: nat, m: Mem)
    requires Rewound(m0, live, parent, at, m) && parent in live
    ensures EntriesOf(m, live) == RestoredMap(EntriesOf(m0, live), parent, at * PTRS)
  {
    hide PteAt, TableAt, EntriesOf;
    var e, e' := EntriesOf(m0, live), EntriesOf(m, live);
    var r := RestoredMap(e, parent, at * PTRS);
    forall k | k in e' ensures k in r && e'[k] == r[k] {
      EntryKeys(m, live, k);
      EntryIn(m0, live, k.pd, k.vpn);
      assert k == Key(k.pd, k.vpn);
    }
    forall k | k in r ensures k in e' {
      EntryKeys(m0, live, k);
      EntryIn(m, live, k.pd, k.vpn);
      assert k == Key(k.pd, k.vpn);
    }
    assert e' == r;
  }

  // One frame across a failed clone.
  lemma FrameRewound(m0: Mem, live: set<nat>, parent: nat, c: nat, at: nat, mf: Mem, m: Mem, f: nat)
    requires Inv(m0, live) && parent in live && at <= USER_PDIS && f < |m0.frames|
    requires CloneInv(m0, live, parent, c, mf, at) && CloneKeeps(m0, live, c, mf, at)
    requires UndoInv(m0, live, parent, c, at, mf, m, at)
    requires Accounts(FreeFrame(m, c).pmm, RestoredMap(EntriesOf(m0, live), parent, at * PTRS))
    ensures FreeFrame(m, c).pmm.bitmap[f] == m0.pmm.bitmap[f]
    ensures FreeFrame(m, c).pmm.refcnt[f] == m0.pmm.refcnt[f]
  {
    hide Exclusive, EntriesOf, CloneMap, MapsData, Outside, ParentDone, ChildDone, Structure, UndoFrames, UndoMap,
         CowEncoded, Ready;
    var m' := FreeFrame(m, c);
    var e := EntriesOf(m0, live);
    ChildIsDir(m0, mf, parent, c, at);
    UndoSizes(m0, parent, mf, m, at);
    FreshWereFree(m0, mf, parent, c, at);
    UndoneMap(e, parent, c, at * PTRS);
    if f == c || f in FreshTables(mf, c, at) {
      assert !m'.pmm.bitmap[f] && !m0.pmm.bitmap[f];
    } else if Sharers(e, f) == {} {
      assert m.pmm.bitmap[f] == mf.pmm.bitmap[f] == m0.pmm.bitmap[f];
    } else {
      var k :| k in Sharers(e, f);
      assert k in Sharers(RestoredMap(e, parent, at * PTRS), f);
    }
  }

  lemma FreshWereFree(m0: Mem, mf: Mem, parent: nat, c: nat, at: nat)
    requires ChildDone(m0, mf, parent, c, at) && at <= USER_PDIS
    ensures forall f | f in FreshTables(mf, c, at) ::
              f < |m0.pmm.bitmap| && !m0.pmm.bitmap[f] && mf.pmm.bitmap[f] && f != c
  {
    forall p: nat | p < at && mf.frames[c].pdes[p].present
      ensures var f := mf.frames[c].pdes[p].frame;
              f < |m0.pmm.bitmap| && !m0.pmm.bitmap[f] && mf.pmm.bitmap[f] && f != c
    {
      assert TableAt(m0, parent, p).Some?;
      assert ChildSlot(m0, mf, parent, c, p);
    }
  }

  // Rollback gives back the bitmap, every count and the free count, and rewinds the parent.
  lemma FailedCloneRewinds(m0: Mem, live: set<nat>, parent: nat)
    requires Inv(m0, live) && parent in live && Headroom(EntriesOf(m0, live), parent)
    requires CloneSpace(m0, parent).child.None?
    ensures var m := CloneSpace(m0, parent).m;
            && m.pmm.bitmap == m0.pmm.bitmap && m.pmm.refcnt == m0.pmm.refcnt && m.pmm.free == m0.pmm.free
            && Structure(m, live) && Rewound(m0, live, parent, FailPoint(m0, parent), m)
            && Accounts(m.pmm, EntriesOf(m, live))
            && EntriesOf(m, live) == RestoredMap(EntriesOf(m0, live), parent, FailPoint(m0, parent) * PTRS)
            && (forall f: nat | f < |m0.frames| && m0.frames[f].Data? && m0.pmm.bitmap[f] ::
                  m.frames[f] == m0.frames[f])
  {
    hide Exclusive, EntriesOf, CloneMap, MapsData, Outside, ParentDone, ChildDone, Structure, UndoInv, UndoMap,
         CowEncoded, Ready, Headroom, CloneKeeps, Rewound, Accounts, RestoredMap;
    StructureSized(m0, live);
    ParentNotZero(m0, live, parent);
    var a := AllocPage(m0.pmm);
    if a.frame.None? {
      NothingRewound(m0, live, parent);
      RewoundEntries(m0, live, parent, 0, m0);
    } else {
      var c := a.frame.value;
      CloneDirsInv(m0, live, parent, USER_PDIS);
      CloneDirsKeeps(m0, live, parent, USER_PDIS);
      var pr := CloneDirs(Mem(a.pmm, m0.frames[c := EmptyDir()]), parent, c, USER_PDIS);
      RollbackDirsInv(m0, live, parent, c, pr.at, pr.m, pr.at);
      RolledBack(m0, live, parent, c, pr.at, pr.m, RollbackDirs(pr.m, parent, c, pr.at));
    }
  }

  lemma ParentNotZero(m0: Mem, live: set<nat>, parent: nat)
    requires Structure(m0, live) && parent in live
    ensures parent != 0
  {
  }

  lemma NothingRewound(m0: Mem, live: set<nat>, parent: nat)
    requires Structure(m0, live) && parent in live
    ensures Rewound(m0, live, parent, 0, m0)
  {
  }

  lemma RolledBack(m0: Mem, live: set<nat>, parent: nat, c: nat, at: nat, mf: Mem, mr: Mem)
    requires Inv(m0, live) && parent in live && at <= USER_PDIS
    requires CloneInv(m0, live, parent, c, mf, at) && CloneKeeps(m0, live, c, mf, at)
    requires UndoInv(m0, live, parent, c, at, mf, mr, at)
    ensures Sized(mr)
    ensures var m := FreeFrame(mr, c);
            && m.pmm.bitmap == m0.pmm.bitmap && m.pmm.refcnt == m0.pmm.refcnt && m.pmm.free == m0.pmm.free
            && Structure(m, live) && Rewound(m0, live, parent, at, m)
            && Accounts(m.pmm, EntriesOf(m, live))
            && EntriesOf(m, live) == RestoredMap(EntriesOf(m0, live), parent, at * PTRS)
            && (forall f: nat | f < |m0.frames| && m0.frames[f].Data? && m0.pmm.bitmap[f] ::
                  m.frames[f] == m0.frames[f])
  {
    hide Exclusive, EntriesOf, CloneMap, MapsData, Outside, ParentDone, ChildDone, Structure, UndoFrames, UndoMap,
         CowEncoded, Ready, Headroom, CloneKeeps, Rewound, Accounts, RestoredMap, UndoBits;
    StructureSized(m0, live);
    ChildIsDir(m0, mf, parent, c, at);
    UndoSizes(m0, parent, mf, mr, at);
    var e := EntriesOf(m0, live);
    var m := FreeFrame(mr, c);
    UndoneMap(e, parent, c, at * PTRS);
    UndoUnshared(m0, live, parent, c, at * PTRS, at * PTRS, c);
    FreeKeeps(mr.pmm, UndoMap(e, parent, c, at * PTRS, at * PTRS), c);
    UndoneIsRewound(m0, live, parent, at, mf, mr);
    RewoundSameFrames(m0, live, parent, at, mr, m);
    RewoundEntries(m0, live, parent, at, m);
    forall f: nat | f < |m0.frames| ensures m.pmm.bitmap[f] == m0.pmm.bitmap[f] && m.pmm.refcnt[f] == m0.pmm.refcnt[f] {
      FrameRewound(m0, live, parent, c, at, mf, mr, f);
    }
    assert m.pmm.bitmap == m0.pmm.bitmap && m.pmm.refcnt == m0.pmm.refcnt;
    FreeCounts(m0, m, e, EntriesOf(m, live));
    RewoundStructure(m0, live, parent, at, m);
    DataNotRewound(m0, live, parent, at, mf, mr);
  }

  lemma UndoSizes(m0: Mem, parent: nat, mf: Mem, mr: Mem, at: nat)
    requires UndoFrames(m0, parent, mf, mr, at)
    ensures Sized(mr) && Sized(mf) && |mr.frames| == |mf.frames| == |m0.frames|
  {
  }

  lemma RewoundSameFrames(m0: Mem, live: set<nat>, parent: nat, at: nat, mr: Mem, m: Mem)
    requires Rewound(m0, live, parent, at, mr) && m.frames == mr.frames
    ensures Rewound(m0, live, parent, at, m)
  {
    forall pd, p: nat | pd in live && p < USER_PDIS ensures TableAt(m, pd, p) == TableAt(mr, pd, p) {
      SameFrames(mr, m, pd, p);
    }
    forall pd, v: nat | pd in live && v < USER_VPNS ensures PteAt(m, pd, v) == PteAt(mr, pd, v) {
      SameFrames(mr, m, pd, v / PTRS);
    }
  }

  lemma RewoundStructure(m0: Mem, live: set<nat>, parent: nat, at: nat, m: Mem)
    requires Structure(m0, live) && Rewound(m0, live, parent, at, m) && Sized(m) && |m.frames| == |m0.frames|
    requires m.pmm.bitmap == m0.pmm.bitmap
    ensures Structure(m, live)
  {
    hide TableAt, PteAt;
    forall pd, p: nat | pd in live && p < USER_PDIS
      ensures TableAt(m, pd, p).Some? <==> m.frames[pd].pdes[p].present
      ensures TableAt(m, pd, p) == TableAt(m0, pd, p)
      ensures TableAt(m, pd, p).Some? ==> TableAt(m, pd, p).value < |m.pmm.bitmap|
    {
      TableInRange(m, pd, p);
      assert TableAt(m0, pd, p).Some? <==> m0.frames[pd].pdes[p].present;
    }
  }

  lemma TableInRange(m: Mem, pd: nat, p: nat)
    requires Sized(m)
    ensures TableAt(m, pd, p).Some? ==> TableAt(m, pd, p).value < |m.pmm.bitmap|
  {
  }

  lemma DataNotRewound(m0: Mem, live: set<nat>, parent: nat, at: nat, mf: Mem, mr: Mem)
    requires Structure(m0, live) && parent in live && at <= USER_PDIS
    requires Outside(m0, mf, parent, at) && UndoFrames(m0, parent, mf, mr, at)
    ensures forall f: nat | f < |m0.frames| && m0.frames[f].Data? && m0.pmm.bitmap[f] :: mr.frames[f] == m0.frames[f]
  {
    forall f: nat | f < |m0.frames| && m0.frames[f].Data? && m0.pmm.bitmap[f] ensures mr.frames[f] == m0.frames[f] {
      assert f !in ParentTables(m0, parent, at);
    }
  }
}
