// A completed clone: the invariant is kept for the enlarged set of spaces, the
// child reads exactly what the parent reads, and nobody's pages changed.
module CloneTheorem {
  import opened Basics
  import opened Pmm
  import opened Ledger
  import opened AddressSpace
  import opened Spaces
  import opened CloneProof
  import opened CloneSpaceProof

  // A user page as a program sees it: who may touch it and what it holds.
  datatype Page = Page(user: bool, writable: bool, bytes: seq<Byte>)

  type Space = map<nat, Page>

  predicate HoldsData(m: Mem, t: Pte) {
    t.present && t.frame < |m.frames| && m.frames[t.frame].Data?
  }

  ghost function SpaceOf(m: Mem, pd: nat): Space {
    map v: nat | v < USER_VPNS && IsDir(m, pd) && HoldsData(m, PteAt(m, pd, v)) ::
      Page(m.frames[pd].pdes[v / PTRS].user && PteAt(m, pd, v).user,
           PteAt(m, pd, v).rw || (PteAt(m, pd, v).user && PteAt(m, pd, v).cow),
           m.frames[PteAt(m, pd, v).frame].bytes)
  }

  // The machine as a set of private address spaces.
  ghost function Abs(m: Mem, live: set<nat>): map<nat, Space> {
    map pd | pd in live :: SpaceOf(m, pd)
  }

  lemma KernelHalfKeeps(m0: Mem, live: set<nat>, parent: nat, c: nat, m: Mem)
    requires Inv(m0, live) && parent in live && CloneInv(m0, live, parent, c, m, USER_PDIS)
    requires Sized(m) && IsDir(m, c)
    ensures CloneInv(m0, live, parent, c, CopyKernelHalf(m, parent, c), USER_PDIS)
  {
    hide Accounts, Exclusive, CloneMap, EntriesOf, MapsData;
    var m' := CopyKernelHalf(m, parent, c);
    ParentKept(m0, live, parent, c, m);
    KernelHalfFrames(m, parent, c);
    assert Outside(m0, m', parent, USER_PDIS);
    assert ParentDone(m0, m', parent, USER_PDIS) by {
      forall p: nat | p < USER_PDIS && TableAt(m0, parent, p).Some?
        ensures TableAt(m0, parent, p).value != c
      {
        assert m0.pmm.bitmap[TableAt(m0, parent, p).value];
      }
    }
    forall p: nat | p < USER_PDIS && TableAt(m0, parent, p).Some? ensures ChildSlot(m0, m', parent, c, p) {
      assert ChildSlot(m0, m, parent, c, p);
    }
  }

  lemma KernelHalfFrames(m: Mem, parent: nat, c: nat)
    requires Sized(m) && IsDir(m, c)
    ensures var m' := CopyKernelHalf(m, parent, c);
            && m'.pmm == m.pmm && |m'.frames| == |m.frames| && IsDir(m', c)
            && (forall f: nat | f < |m.frames| && f != c :: m'.frames[f] == m.frames[f])
            && (forall p: nat | p < USER_PDIS :: m'.frames[c].pdes[p] == m.frames[c].pdes[p])
  {
  }

  lemma ParentKept(m0: Mem, live: set<nat>, parent: nat, c: nat, m: Mem)
    requires Structure(m0, live) && parent in live && Outside(m0, m, parent, USER_PDIS)
    ensures m.frames[parent] == m0.frames[parent] && IsDir(m, parent)
  {
    assert parent !in ParentTables(m0, parent, USER_PDIS);
  }

  // Directory slots after a completed clone, for parent, child and bystander.
  lemma ParentTableAfter(m0: Mem, live: set<nat>, parent: nat, c: nat, m: Mem, p: nat)
    requires Structure(m0, live) && parent in live && p < USER_PDIS
    requires Outside(m0, m, parent, USER_PDIS) && ParentDone(m0, m, parent, USER_PDIS)
    ensures TableAt(m, parent, p) == TableAt(m0, parent, p)
  {
    ParentKept(m0, live, parent, c, m);
    assert TableAt(m0, parent, p).Some? <==> m0.frames[parent].pdes[p].present;
  }

  lemma ParentAfter(m0: Mem, live: set<nat>, parent: nat, c: nat, m: Mem, v: nat)
    requires Structure(m0, live) && parent in live && v < USER_VPNS
    requires Outside(m0, m, parent, USER_PDIS) && ParentDone(m0, m, parent, USER_PDIS)
    ensures PteAt(m, parent, v) == ParentEntry(PteAt(m0, parent, v))
  {
    ParentTableAfter(m0, live, parent, c, m, v / PTRS);
  }

  lemma ChildTableAfter(m0: Mem, parent: nat, c: nat, m: Mem, p: nat)
    requires ChildDone(m0, m, parent, c, USER_PDIS) && p < USER_PDIS
    ensures TableAt(m, c, p).Some? <==> TableAt(m0, parent, p).Some?
    ensures TableAt(m, c, p).Some? <==> m.frames[c].pdes[p].present
    ensures TableAt(m, c, p).Some? ==>
              ChildSlot(m0, m, parent, c, p) && TableAt(m, c, p).value == m.frames[c].pdes[p].frame
  {
    if TableAt(m0, parent, p).Some? { assert ChildSlot(m0, m, parent, c, p); }
  }

  lemma ChildAfter(m0: Mem, parent: nat, c: nat, m: Mem, v: nat)
    requires ChildDone(m0, m, parent, c, USER_PDIS) && v < USER_VPNS
    ensures PteAt(m, c, v) == ChildEntry(PteAt(m0, parent, v))
  {
    ChildTableAfter(m0, parent, c, m, v / PTRS);
  }

  lemma OtherAfter(m0: Mem, live: set<nat>, parent: nat, c: nat, m: Mem, pd: nat)
    requires Structure(m0, live) && parent in live && pd in live && pd != parent
    requires Outside(m0, m, parent, USER_PDIS)
    ensures m.frames[pd] == m0.frames[pd] && IsDir(m, pd)
    ensures forall p: nat | p < USER_PDIS :: TableAt(m, pd, p) == TableAt(m0, pd, p)
    ensures forall v: nat | v < USER_VPNS :: PteAt(m, pd, v) == PteAt(m0, pd, v)
  {
    assert pd !in ParentTables(m0, parent, USER_PDIS);
    forall p: nat | p < USER_PDIS && TableAt(m0, pd, p).Some?
      ensures m.frames[TableAt(m0, pd, p).value] == m0.frames[TableAt(m0, pd, p).value]
    {
      assert TableAt(m0, pd, p).value !in ParentTables(m0, parent, USER_PDIS);
    }
    TablesUntouched(m0, m, pd);
  }

  // Tables of old spaces keep their place; tables of the child are new.
  lemma TableAfter(m0: Mem, live: set<nat>, parent: nat, c: nat, m: Mem, pd: nat, p: nat)
    requires Structure(m0, live) && parent in live && pd in live && p < USER_PDIS
    requires Outside(m0, m, parent, USER_PDIS) && ParentDone(m0, m, parent, USER_PDIS)
    ensures IsDir(m, pd) && m.frames[pd] == m0.frames[pd] && m.pmm.bitmap[pd]
    ensures TableAt(m, pd, p) == TableAt(m0, pd, p)
    ensures TableAt(m, pd, p).Some? <==> m.frames[pd].pdes[p].present
    ensures TableAt(m, pd, p).Some? ==> m.pmm.bitmap[TableAt(m, pd, p).value] && m0.pmm.bitmap[TableAt(m, pd, p).value]
  {
    assert TableAt(m0, pd, p).Some? <==> m0.frames[pd].pdes[p].present;
    if pd == parent {
      ParentKept(m0, live, parent, c, m);
      ParentTableAfter(m0, live, parent, c, m, p);
    } else {
      OtherAfter(m0, live, parent, c, m, pd);
    }
  }

  lemma StructureAfter(m0: Mem, live: set<nat>, parent: nat, c: nat, m: Mem)
    requires Structure(m0, live) && parent in live && 0 < c
    requires Outside(m0, m, parent, USER_PDIS) && ParentDone(m0, m, parent, USER_PDIS)
    requires ChildDone(m0, m, parent, c, USER_PDIS)
    ensures Structure(m, live + {c})
  {
    hide Outside, ParentDone, ChildDone, ChildSlot, TableAt;
    var live' := live + {c};
    ChildIsDir(m0, m, parent, c, USER_PDIS);
    forall pd, p: nat | pd in live' && p < USER_PDIS
      ensures IsDir(m, pd) && m.pmm.bitmap[pd]
      ensures TableAt(m, pd, p).Some? <==> m.frames[pd].pdes[p].present
      ensures TableAt(m, pd, p).Some? ==>
                TableAt(m, pd, p).value < |m.pmm.bitmap| && m.pmm.bitmap[TableAt(m, pd, p).value]
      ensures TableAt(m, pd, p).Some? ==> (pd == c <==> !m0.pmm.bitmap[TableAt(m, pd, p).value])
    {
      SlotAfter(m0, live, parent, c, m, pd, p);
    }
    forall pd | pd in live' ensures 0 < pd && IsDir(m, pd) && m.pmm.bitmap[pd] {
      SlotAfter(m0, live, parent, c, m, pd, 0);
    }
    forall pd, p: nat, qd, q: nat |
      && pd in live' && p < USER_PDIS && TableAt(m, pd, p).Some?
      && qd in live' && q < USER_PDIS && TableAt(m, qd, q) == TableAt(m, pd, p)
      ensures pd == qd && p == q
    {
      TablesDistinct(m0, live, parent, c, m, pd, p, qd, q);
    }
  }

  lemma SlotAfter(m0: Mem, live: set<nat>, parent: nat, c: nat, m: Mem, pd: nat, p: nat)
    requires Structure(m0, live) && parent in live && pd in live + {c} && p < USER_PDIS
    requires Outside(m0, m, parent, USER_PDIS) && ParentDone(m0, m, parent, USER_PDIS)
    requires ChildDone(m0, m, parent, c, USER_PDIS)
    ensures IsDir(m, pd) && m.pmm.bitmap[pd]
    ensures TableAt(m, pd, p).Some? <==> m.frames[pd].pdes[p].present
    ensures TableAt(m, pd, p).Some? ==>
              TableAt(m, pd, p).value < |m.pmm.bitmap| && m.pmm.bitmap[TableAt(m, pd, p).value]
    ensures TableAt(m, pd, p).Some? ==> (pd == c <==> !m0.pmm.bitmap[TableAt(m, pd, p).value])
  {
    hide ParentDone;
    if pd == c {
      ChildTableAfter(m0, parent, c, m, p);
    } else {
      TableAfter(m0, live, parent, c, m, pd, p);
    }
  }

  lemma TablesDistinct(m0: Mem, live: set<nat>, parent: nat, c: nat, m: Mem, pd: nat, p: nat, qd: nat, q: nat)
    requires Structure(m0, live) && parent in live
    requires Outside(m0, m, parent, USER_PDIS) && ParentDone(m0, m, parent, USER_PDIS)
    requires ChildDone(m0, m, parent, c, USER_PDIS)
    requires pd in live + {c} && p < USER_PDIS && TableAt(m, pd, p).Some?
    requires qd in live + {c} && q < USER_PDIS && TableAt(m, qd, q) == TableAt(m, pd, p)
    ensures pd == qd && p == q
  {
    hide Outside, ParentDone;
    SlotAfter(m0, live, parent, c, m, pd, p);
    SlotAfter(m0, live, parent, c, m, qd, q);
    if pd == c {
      ChildTableAfter(m0, parent, c, m, p);
      ChildTableAfter(m0, parent, c, m, q);
    } else {
      TableAfter(m0, live, parent, c, m, pd, p);
      TableAfter(m0, live, parent, c, m, qd, q);
    }
  }

  // The ledger after a completed clone.
  lemma EntriesAfter(m0: Mem, live: set<nat>, parent: nat, c: nat, m: Mem)
    requires Structure(m0, live) && parent in live && c < |m0.frames| && !m0.pmm.bitmap[c]
    requires Outside(m0, m, parent, USER_PDIS) && ParentDone(m0, m, parent, USER_PDIS)
    requires ChildDone(m0, m, parent, c, USER_PDIS)
    ensures EntriesOf(m, live + {c}) == CloneMap(EntriesOf(m0, live), parent, c, USER_VPNS)
  {
    hide Outside, ParentDone, ChildDone, Structure, PteAt, EntriesOf, CloneMap;
    var e, e' := EntriesOf(m0, live), EntriesOf(m, live + {c});
    var r := CloneMap(e, parent, c, USER_VPNS);
    ReadyAtStart(m0, live, parent, c);
    CloneMapForm(e, parent, c, USER_VPNS);
    forall k: Key | k.pd in live + {c} && k.vpn < USER_VPNS
      ensures k in e' <==> k in r
      ensures k in e' ==> e'[k] == r[k]
    {
      EntryIn(m, live + {c}, k.pd, k.vpn);
      assert k == Key(k.pd, k.vpn);
      if k.pd == c {
        ChildAfter(m0, parent, c, m, k.vpn);
        EntryIn(m0, live, parent, k.vpn);
        if k in e { EntryKeys(m0, live, k); }
      } else if k.pd == parent {
        ParentAfter(m0, live, parent, c, m, k.vpn);
        EntryIn(m0, live, parent, k.vpn);
      } else {
        OtherAfter(m0, live, parent, c, m, k.pd);
        EntryIn(m0, live, k.pd, k.vpn);
      }
    }
    forall k | k in e' ensures k in r && e'[k] == r[k] { EntryKeys(m, live + {c}, k); }
    forall k | k in r ensures k in e' {
      if k in e { EntryKeys(m0, live, k); } else { EntryKeys(m0, live, Key(parent, k.vpn)); }
    }
    assert e' == r;
  }

  // A data frame some space maps is neither a table nor free, so clone leaves it alone.
  lemma DataKept(m0: Mem, live: set<nat>, parent: nat, m: Mem, k: Key)
    requires Inv(m0, live) && parent in live && Outside(m0, m, parent, USER_PDIS) && k in EntriesOf(m0, live)
    ensures var f := EntriesOf(m0, live)[k].frame;
            f < |m.frames| && m.frames[f] == m0.frames[f] && m.frames[f].Data? && |m.frames[f].bytes| == PAGE_SIZE
  {
    hide Exclusive, EntriesOf;
    var f := EntriesOf(m0, live)[k].frame;
    assert f !in ParentTables(m0, parent, USER_PDIS);
  }

  lemma SpaceKept(m0: Mem, live: set<nat>, parent: nat, m: Mem, pd: nat, v: nat)
    requires Inv(m0, live) && parent in live && pd in live && v < USER_VPNS
    requires Outside(m0, m, parent, USER_PDIS)
    requires PteAt(m0, pd, v).present
    ensures HoldsData(m0, PteAt(m0, pd, v)) && HoldsData(m, PteAt(m0, pd, v))
    ensures m.frames[PteAt(m0, pd, v).frame].bytes == m0.frames[PteAt(m0, pd, v).frame].bytes
  {
    EntryIn(m0, live, pd, v);
    DataKept(m0, live, parent, m, Key(pd, v));
  }

  lemma ChildReadsParent(m0: Mem, live: set<nat>, parent: nat, c: nat, m: Mem)
    requires Inv(m0, live) && parent in live && c < |m0.frames| && !m0.pmm.bitmap[c]
    requires Outside(m0, m, parent, USER_PDIS) && ChildDone(m0, m, parent, c, USER_PDIS)
    ensures SpaceOf(m, c) == SpaceOf(m0, parent)
  {
    hide Outside, ChildDone, Structure, Accounts, Exclusive, MapsData, EntriesOf, PteAt;
    ChildIsDir(m0, m, parent, c, USER_PDIS);
    assert IsDir(m0, parent) by { LiveIsDir(m0, live, parent); }
    forall v: nat | v < USER_VPNS
      ensures HoldsData(m, PteAt(m, c, v)) <==> HoldsData(m0, PteAt(m0, parent, v))
      ensures HoldsData(m0, PteAt(m0, parent, v)) ==> SpaceOf(m, c)[v] == SpaceOf(m0, parent)[v]
    {
      ChildAfter(m0, parent, c, m, v);
      if PteAt(m0, parent, v).present {
        SpaceKept(m0, live, parent, m, parent, v);
        ChildUser(m0, parent, c, m, v);
      }
    }
  }

  lemma LiveIsDir(m0: Mem, live: set<nat>, pd: nat)
    requires Structure(m0, live) && pd in live
    ensures IsDir(m0, pd)
  {
  }

  lemma ChildUser(m0: Mem, parent: nat, c: nat, m: Mem, v: nat)
    requires ChildDone(m0, m, parent, c, USER_PDIS) && v < USER_VPNS && PteAt(m0, parent, v).present
    ensures IsDir(m, c) && IsDir(m0, parent) && m.frames[c].pdes[v / PTRS].user == m0.frames[parent].pdes[v / PTRS].user
  {
    ChildTableAfter(m0, parent, c, m, v / PTRS);
  }

  lemma OldReadsSame(m0: Mem, live: set<nat>, parent: nat, c: nat, m: Mem, pd: nat)
    requires Inv(m0, live) && parent in live && pd in live
    requires Outside(m0, m, parent, USER_PDIS) && ParentDone(m0, m, parent, USER_PDIS)
    ensures SpaceOf(m, pd) == SpaceOf(m0, pd)
  {
    hide Outside, ParentDone, Structure, Accounts, Exclusive, MapsData, EntriesOf, PteAt;
    LiveIsDir(m0, live, pd);
    TableAfter(m0, live, parent, c, m, pd, 0);
    forall v: nat | v < USER_VPNS
      ensures HoldsData(m, PteAt(m, pd, v)) <==> HoldsData(m0, PteAt(m0, pd, v))
      ensures HoldsData(m0, PteAt(m0, pd, v)) ==> SpaceOf(m, pd)[v] == SpaceOf(m0, pd)[v]
    {
      if pd == parent { ParentAfter(m0, live, parent, c, m, v); } else { OtherAfter(m0, live, parent, c, m, pd); }
      if PteAt(m0, pd, v).present { SpaceKept(m0, live, parent, m, pd, v); }
    }
  }

  lemma DataAfter(m0: Mem, live: set<nat>, parent: nat, c: nat, m: Mem)
    requires Inv(m0, live) && parent in live && c < |m0.frames| && !m0.pmm.bitmap[c]
    requires Outside(m0, m, parent, USER_PDIS)
    ensures MapsData(m, CloneMap(EntriesOf(m0, live), parent, c, USER_VPNS))
  {
    hide Outside, Accounts, Exclusive, CloneMap, EntriesOf;
    var e := EntriesOf(m0, live);
    var r := CloneMap(e, parent, c, USER_VPNS);
    ReadyAtStart(m0, live, parent, c);
    CloneMapForm(e, parent, c, USER_VPNS);
    forall k | k in r
      ensures r[k].frame < |m.frames| && m.frames[r[k].frame].Data? && |m.frames[r[k].frame].bytes| == PAGE_SIZE
    {
      var j := if k in e then k else Key(parent, k.vpn);
      assert r[k].frame == e[j].frame;
      DataKept(m0, live, parent, m, j);
    }
  }

  lemma CowAfter(m0: Mem, live: set<nat>, parent: nat, c: nat)
    requires Inv(m0, live) && parent in live && c < |m0.frames| && !m0.pmm.bitmap[c]
    ensures CowEncoded(CloneMap(EntriesOf(m0, live), parent, c, USER_VPNS))
  {
    hide Accounts, Exclusive, MapsData, CloneMap, EntriesOf;
    ReadyAtStart(m0, live, parent, c);
    CloneMapForm(EntriesOf(m0, live), parent, c, USER_VPNS);
  }

  // A clone that succeeds adds one space, equal to the parent's, and changes none.
  lemma CloneRefines(m0: Mem, live: set<nat>, parent: nat)
    requires Inv(m0, live) && parent in live && Headroom(EntriesOf(m0, live), parent)
    requires CloneSpace(m0, parent).child.Some?
    ensures var r := CloneSpace(m0, parent);
            && r.child.value !in live
            && Inv(r.m, live + {r.child.value})
            && Abs(r.m, live + {r.child.value}) == Abs(m0, live)[r.child.value := SpaceOf(m0, parent)]
  {
    hide Outside, ParentDone, ChildDone, Accounts, Exclusive, EntriesOf, CloneMap, MapsData, SpaceOf, Headroom,
         Structure, CowEncoded;
    StructureSized(m0, live);
    var a := AllocPage(m0.pmm);
    var c := a.frame.value;
    CloneDirsInv(m0, live, parent, USER_PDIS);
    var pr := CloneDirs(Mem(a.pmm, m0.frames[c := EmptyDir()]), parent, c, USER_PDIS);
    ChildIsDir(m0, pr.m, parent, c, USER_PDIS);
    KernelHalfKeeps(m0, live, parent, c, pr.m);
    var m := CopyKernelHalf(pr.m, parent, c);
    assert CloneSpace(m0, parent) == Cloned(m, Some(c));
    AllocAboveZero(m0.pmm);
    StructureAfter(m0, live, parent, c, m);
    EntriesAfter(m0, live, parent, c, m);
    DataAfter(m0, live, parent, c, m);
    CowAfter(m0, live, parent, c);
    NotLive(m0, live, c);
    ChildReadsParent(m0, live, parent, c, m);
    forall pd | pd in live ensures SpaceOf(m, pd) == SpaceOf(m0, pd) { OldReadsSame(m0, live, parent, c, m, pd); }
  }

  lemma StructureSized(m0: Mem, live: set<nat>)
    requires Structure(m0, live)
    ensures Sized(m0)
  {
  }

  lemma NotLive(m0: Mem, live: set<nat>, c: nat)
    requires Structure(m0, live) && c < |m0.frames| && !m0.pmm.bitmap[c]
    ensures c !in live
  {
  }

  lemma AllocAboveZero(p: Pmm)
    requires |p.refcnt| == |p.bitmap| && AllocPage(p).frame.Some?
    ensures AllocPage(p).frame.value >= FIRST_FRAME
  {
  }
}
