// New user pages, and the two places where the kernel's own bookkeeping falls short:
// mapping over a page that is shared, and a failed clone of a parent with shared pages.
module CowMap {
  import opened Basics
  import opened Pmm
  import opened Ledger
  import opened AddressSpace
  import opened Spaces
  import opened CloneProof
  import opened CloneTheorem
  import opened FaultProof
  import opened RollbackProof
  import opened RollbackTheorem
  import opened CowStore
  import opened CloneMemory

  // What a load of one byte of virtual page v in directory pd returns.
  function ReadByte(m: Mem, pd: nat, v: nat, off: nat): Option<Byte> {
    var t := PteAt(m, pd, v);
    if HoldsData(m, t) && off < |m.frames[t.frame].bytes| then Some(m.frames[t.frame].bytes[off]) else None
  }

  // Page v of parent and page w of qd are two live mappings of one copy-on-write frame.
  ghost predicate SharedCow(m: Mem, live: set<nat>, parent: nat, v: nat, qd: nat, w: nat) {
    && parent in live && v < USER_VPNS && PteAt(m, parent, v).present && PteAt(m, parent, v).cow
    && IsDir(m, parent) && m.frames[parent].pdes[v / PTRS].user
    && qd in live && w < USER_VPNS && Key(qd, w) != Key(parent, v)
    && PteAt(m, qd, w).present && PteAt(m, qd, w).frame == PteAt(m, parent, v).frame
  }

  // After a failed clone the parent may write a page it still shares: its store then
  // changes what the other sharer reads.
  lemma FailedCloneLeaks(m0: Mem, live: set<nat>, parent: nat, v: nat, qd: nat, w: nat, off: nat, val: Byte)
    requires Sized(m0) && Inv(m0, live) && parent in live && Headroom(EntriesOf(m0, live), parent)
    requires CloneSpace(m0, parent).child.None? && v < FailPoint(m0, parent) * PTRS && off < PAGE_SIZE
    requires SharedCow(m0, live, parent, v, qd, w)
    ensures var r := Store(CloneSpace(m0, parent).m, parent, v, off, val);
            r.result == Done && ReadByte(r.m, qd, w, off) == Some(val)
  {
    hide Exclusive, EntriesOf, MapsData, Headroom, Accounts, Structure, CloneSpace;
    FailedCloneRewinds(m0, live, parent);
    var m := CloneSpace(m0, parent).m;
    LeakAfter(m0, live, parent, FailPoint(m0, parent), m, v, qd, w, off, val);
  }

  lemma LeakAfter(m0: Mem, live: set<nat>, parent: nat, at: nat, m: Mem, v: nat, qd: nat, w: nat, off: nat, val: Byte)
    requires Inv(m0, live) && SharedCow(m0, live, parent, v, qd, w) && v < at * PTRS && off < PAGE_SIZE
    requires Sized(m) && |m.frames| == |m0.frames| && Structure(m, live) && Rewound(m0, live, parent, at, m)
    requires forall f: nat | f < |m0.frames| && m0.frames[f].Data? && m0.pmm.bitmap[f] :: m.frames[f] == m0.frames[f]
    ensures var r := Store(m, parent, v, off, val); r.result == Done && ReadByte(r.m, qd, w, off) == Some(val)
  {
    hide Exclusive, EntriesOf, MapsData, Accounts, Structure, PteAt;
    StructureSized(m0, live);
    AllHoldData(m0, live);
    EntryIn(m0, live, parent, v);
    EntryIn(m0, live, qd, w);
    var f := PteAt(m0, parent, v).frame;
    assert PteAt(m, parent, v) == Restored(PteAt(m0, parent, v));
    assert PteAt(m, qd, w).frame == f && PteAt(m, qd, w).present;
    var m' := WriteByte(m, f, off, val);
    OtherStill(m, m', live, qd, w, f);
  }

  lemma OtherStill(m: Mem, m': Mem, live: set<nat>, qd: nat, w: nat, f: nat)
    requires Structure(m, live) && qd in live && w < USER_VPNS && Sized(m') && |m'.frames| == |m.frames|
    requires f < |m.frames| && m.frames[f].Data? && m'.frames[f].Data? && m'.pmm == m.pmm
    requires forall g: nat | g < |m.frames| && g != f :: m'.frames[g] == m.frames[g]
    ensures PteAt(m', qd, w) == PteAt(m, qd, w) && m'.frames[qd] == m.frames[qd]
  {
    ScratchForm(m, m', live, f);
  }

  // ---- map_user_page ----

  // The memory after a page table t, taken from the free frames, is hung into slot p of pd.
  lemma NewTableForm(m: Mem, m': Mem, live: set<nat>, pd: nat, p: nat, t: nat, e: Pde, ptes: seq<Pte>)
    requires Structure(m, live) && pd in live && p < USER_PDIS && TableAt(m, pd, p).None?
    requires t < |m.frames| && !m.pmm.bitmap[t] && e.present && !e.pse && e.frame == t && |ptes| == PTRS
    requires Sized(m') && m'.pmm.bitmap == m.pmm.bitmap[t := true]
    requires m'.frames == m.frames[pd := Dir(m.frames[pd].pdes[p := e])][t := Table(ptes)]
    ensures Structure(m', live)
    ensures forall qd, q: nat | qd in live && q < USER_PDIS ::
              TableAt(m', qd, q) == if qd == pd && q == p then Some(t) else TableAt(m, qd, q)
    ensures forall qd, w: nat | qd in live && w < USER_VPNS ::
              PteAt(m', qd, w) == if qd == pd && w / PTRS == p then ptes[w % PTRS] else PteAt(m, qd, w)
  {
    forall qd, q: nat | qd in live && q < USER_PDIS
      ensures TableAt(m', qd, q) == if qd == pd && q == p then Some(t) else TableAt(m, qd, q)
      ensures IsDir(m', qd) && (TableAt(m', qd, q).Some? <==> m'.frames[qd].pdes[q].present)
    {
      assert qd != t;
      assert TableAt(m, qd, q).Some? <==> m.frames[qd].pdes[q].present;
    }
    forall qd, w: nat | qd in live && w < USER_VPNS
      ensures PteAt(m', qd, w) == if qd == pd && w / PTRS == p then ptes[w % PTRS] else PteAt(m, qd, w)
    {
      assert TableAt(m', qd, w / PTRS) == if qd == pd && w / PTRS == p then Some(t) else TableAt(m, qd, w / PTRS);
    }
  }

  lemma ScratchData(m: Mem, m': Mem, live: set<nat>, g: nat)
    requires Inv(m, live) && |m'.frames| == |m.frames| && g < |m.frames| && !m.pmm.bitmap[g]
    requires forall f: nat | f < |m.frames| && f != g :: m'.frames[f] == m.frames[f]
    ensures MapsData(m', EntriesOf(m, live))
  {
    hide Exclusive, EntriesOf, Structure;
  }

  // map_page hands the entry over, whether or not it had to make a table first.
  lemma MapPageForm(z: Mem, live: set<nat>, pd: nat, v: nat, f: nat)
    requires Structure(z, live) && pd in live && v < USER_VPNS && Sized(z) && IsDir(z, pd)
    requires f < |z.frames| && z.pmm.bitmap[f] && z.frames[f].Data?
    requires MapPage(z, pd, v, f, true, true).ok
    ensures var m' := MapPage(z, pd, v, f, true, true).m;
            && Structure(m', live) && |m'.frames| == |z.frames|
            && OneEntry(z, m', live, Key(pd, v), Pte(true, f, true, true, false, 0))
            && (forall g: nat | g < |z.frames| && z.frames[g].Data? && z.pmm.bitmap[g] :: m'.frames[g] == z.frames[g])
            && (forall qd, w: nat | qd in live && w < USER_VPNS && PteAt(z, qd, w).present ::
                  m'.frames[qd].pdes[w / PTRS].user == z.frames[qd].pdes[w / PTRS].user)
            && (TableAt(z, pd, v / PTRS).Some? ==> m'.pmm == z.pmm)
            && (TableAt(z, pd, v / PTRS).None? ==> AllocPage(z.pmm).frame.Some? && m'.pmm == AllocPage(z.pmm).pmm)
            && (forall qd, q: nat | qd in live && q < USER_PDIS ::
                  TableAt(m', qd, q) == if qd == pd && q == v / PTRS && TableAt(z, qd, q).None?
                                        then AllocPage(z.pmm).frame else TableAt(z, qd, q))
  {
    var t := Pte(true, f, true, true, false, 0);
    var m' := MapPage(z, pd, v, f, true, true).m;
    if TableAt(z, pd, v / PTRS).Some? {
      SetPteForm(z, live, pd, v, t);
    } else {
      var a := AllocPage(z.pmm);
      var e := Pde(true, false, a.frame.value, true, 0);
      NewTableForm(z, m', live, pd, v / PTRS, a.frame.value, e, seq(PTRS, _ => NO_PTE)[v % PTRS := t]);
      NewTableEntry(z, m', live, pd, v, t);
    }
  }

  lemma NewTableEntry(z: Mem, m': Mem, live: set<nat>, pd: nat, v: nat, t: Pte)
    requires Structure(z, live) && Structure(m', live) && pd in live && v < USER_VPNS && TableAt(z, pd, v / PTRS).None?
    requires forall qd, w: nat | qd in live && w < USER_VPNS ::
              PteAt(m', qd, w) == if qd == pd && w / PTRS == v / PTRS
                then seq(PTRS, _ => NO_PTE)[v % PTRS := t][w % PTRS]
                                  else PteAt(z, qd, w)
    ensures OneEntry(z, m', live, Key(pd, v), t)
  {
    forall qd, w: nat | qd in live && w < USER_VPNS
      ensures PteAt(m', qd, w) == if Key(qd, w) == Key(pd, v) then t else PteAt(z, qd, w)
    {
      if qd == pd && w / PTRS == v / PTRS {
        assert PteAt(z, qd, w) == NO_PTE;
        assert w == v <==> w % PTRS == v % PTRS;
      }
    }
  }

  // Overwriting entry k with a fresh page drops the old frame without releasing it: its count is
  // then one more than the entries that name it.
  lemma InstallOver(p: Pmm, e: Entries, k: Key, t: Pte)
    requires Accounts(p, e) && Exclusive(e) && k in e
    requires AllocPage(p).frame.Some? && t.frame == AllocPage(p).frame.value && t.present
    ensures AllocPage(p).pmm.refcnt[e[k].frame] == |Sharers(e[k := t], e[k].frame)| + 1
    ensures AllocPage(p).pmm.bitmap[e[k].frame]
    ensures Accounts(AllocPage(p).pmm, e[k := t]) <==> Sharers(e, e[k].frame) == {k}
    ensures Exclusive(e[k := t])
  {
    AllocSpec(p);
    AllocKeeps(p, e);
    Named(e, t.frame);
    Moved(e, k, t);
    Sole(e, k);
    OverCounts(AllocPage(p).pmm, e, k, t);
  }

  lemma OverCounts(a: Pmm, e: Entries, k: Key, t: Pte)
    requires Accounts(a, e) && k in e && t.present
    requires t.frame < |a.bitmap| && a.bitmap[t.frame] && a.refcnt[t.frame] == 1 && Sharers(e, t.frame) == {}
    ensures Accounts(a, e[k := t]) <==> Sharers(e, e[k].frame) == {k}
  {
    var e' := e[k := t];
    var f := e[k].frame;
    Named(e, t.frame);
    Moved(e, k, t);
    assert k in Sharers(e, f);
    if Sharers(e, f) == {k} {
      Named(e', f);
      forall j | j in e' ensures a.refcnt[e'[j].frame] == |Sharers(e', e'[j].frame)| {
        if j != k { assert e'[j] == e[j]; }
      }
    } else {
      var j :| j in Sharers(e, f) && j != k;
      assert j in e' && e'[j].frame == f;
      assert a.refcnt[f] == |Sharers(e, f)|;
    }
  }

  // The ledger after map_user_page.
  lemma MapLedger(m: Mem, live: set<nat>, pd: nat, v: nat)
    requires Inv(m, live) && Sized(m) && pd in live && v < USER_VPNS && IsDir(m, pd) && m.pmm.bitmap[pd]
    requires MapUserPage(m, pd, v).ok
    ensures AllocPage(m.pmm).frame.Some?
    ensures var f := AllocPage(m.pmm).frame.value;
            var m' := MapUserPage(m, pd, v).m;
            && Structure(m', live) && |m'.frames| == |m.frames| && f < |m.frames|
            && OneEntry(m, m', live, Key(pd, v), Pte(true, f, true, true, false, 0))
            && m'.frames[f] == Data(seq(PAGE_SIZE, _ => 0))
            && (forall g: nat | g < |m.frames| && m.frames[g].Data? && m.pmm.bitmap[g] :: m'.frames[g] == m.frames[g])
            && (forall qd, w: nat | qd in live && w < USER_VPNS && PteAt(m, qd, w).present ::
                  m'.frames[qd].pdes[w / PTRS].user == m.frames[qd].pdes[w / PTRS].user)
            && (TableAt(m, pd, v / PTRS).Some? ==> m'.pmm == AllocPage(m.pmm).pmm)
            && (TableAt(m, pd, v / PTRS).None? ==>
                  var a := AllocPage(AllocPage(m.pmm).pmm); a.frame.Some? && m'.pmm == a.pmm)
            && (forall qd, q: nat | qd in live && q < USER_PDIS ::
                  TableAt(m', qd, q) == if qd == pd && q == v / PTRS && TableAt(m, qd, q).None?
                                        then AllocPage(AllocPage(m.pmm).pmm).frame else TableAt(m, qd, q))
  {
    hide Exclusive, EntriesOf, MapsData, Accounts, CowEncoded;
    var a := AllocPage(m.pmm);
    var f := a.frame.value;
    var z := Mem(a.pmm, m.frames[f := Data(seq(PAGE_SIZE, _ => 0))]);
    ScratchForm(m, z, live, f);
    MapPageForm(z, live, pd, v, f);
    SameFirstEntry(m, z, MapUserPage(m, pd, v).m, live, Key(pd, v), Pte(true, f, true, true, false, 0));
  }

  lemma SameFirstEntry(m: Mem, m1: Mem, m': Mem, live: set<nat>, k: Key, t: Pte)
    requires Structure(m, live) && OneEntry(m1, m', live, k, t)
    requires forall pd, v: nat | pd in live && v < USER_VPNS :: PteAt(m1, pd, v) == PteAt(m, pd, v)
    ensures OneEntry(m, m', live, k, t)
  {
    hide PteAt;
  }

  // Mapping over a page leaves its frame with one reference too many.  Where others name that
  // frame their counts are then wrong; where nobody does the frame is lost.
  lemma MapInv(m: Mem, live: set<nat>, pd: nat, v: nat)
    requires Inv(m, live) && Sized(m) && pd in live && v < USER_VPNS && IsDir(m, pd) && m.pmm.bitmap[pd]
    requires MapUserPage(m, pd, v).ok
    ensures Inv(MapUserPage(m, pd, v).m, live) <==>
            (PteAt(m, pd, v).present ==> RefGet(m.pmm, PteAt(m, pd, v).frame) == 1)
    ensures PteAt(m, pd, v).present ==>
              var m', was := MapUserPage(m, pd, v).m, PteAt(m, pd, v).frame;
              && was < |m'.pmm.bitmap| && m'.pmm.bitmap[was]
              && m'.pmm.refcnt[was] == |Sharers(EntriesOf(m', live), was)| + 1
  {
    hide Exclusive, EntriesOf, MapsData, Accounts, CowEncoded, Structure, OneEntry, MapUserPage;
    MapLedger(m, live, pd, v);
    var e := EntriesOf(m, live);
    var f := AllocPage(m.pmm).frame.value;
    var t := Pte(true, f, true, true, false, 0);
    var k := Key(pd, v);
    var m' := MapUserPage(m, pd, v).m;
    EntriesUpdate(m, m', live, k, t);
    MapKeepsData(m, m', live, k, t);
    CowUpdate(e, k, t);
    EntryIn(m, live, pd, v);
    if PteAt(m, pd, v).present {
      OnlySharer(m.pmm, e, k);
      CountOfEntry(m.pmm, e, k);
      InstallOver(m.pmm, e, k, t);
    } else {
      Install(m.pmm, e, k, t);
      AllocKeeps(AllocPage(m.pmm).pmm, e[k := t]);
    }
  }

  lemma MapKeepsData(m: Mem, m': Mem, live: set<nat>, k: Key, t: Pte)
    requires Inv(m, live) && Sized(m) && |m'.frames| == |m.frames| && t.frame < |m.frames|
    requires m'.frames[t.frame] == Data(seq(PAGE_SIZE, _ => 0))
    requires forall g: nat | g < |m.frames| && m.frames[g].Data? && m.pmm.bitmap[g] :: m'.frames[g] == m.frames[g]
    ensures MapsData(m', EntriesOf(m, live)[k := t])
  {
    hide EntriesOf, Exclusive, Structure;
    DataStays(m, m', EntriesOf(m, live), k, t);
  }

  // map_user_page on an unmapped page adds one zeroed page to one space; when it fails
  // for lack of memory no space changes.
  lemma MapRefines(m: Mem, live: set<nat>, pd: nat, v: nat)
    requires Inv(m, live) && Sized(m) && pd in live && v < USER_VPNS && IsDir(m, pd) && m.pmm.bitmap[pd]
    requires !PteAt(m, pd, v).present
    ensures var r := MapUserPage(m, pd, v);
            && Inv(r.m, live) && IsDir(r.m, pd) && pd in Abs(m, live)
            && (!r.ok ==> Abs(r.m, live) == Abs(m, live))
            && (r.ok ==> Abs(r.m, live) == Abs(m, live)[pd := Abs(m, live)[pd][v :=
                           Page(r.m.frames[pd].pdes[v / PTRS].user, true, seq(PAGE_SIZE, _ => 0))]])
  {
    hide Exclusive, EntriesOf, MapsData, Accounts, CowEncoded, Structure, MapUserPage, PteAt, SpaceOf;
    var r := MapUserPage(m, pd, v);
    if r.ok {
      MapInv(m, live, pd, v);
      MapLedger(m, live, pd, v);
      forall qd | qd in live ensures SpaceOf(r.m, qd) == (Abs(m, live)[pd := Abs(m, live)[pd][v :=
                           Page(r.m.frames[pd].pdes[v / PTRS].user, true, seq(PAGE_SIZE, _ => 0))]])[qd] {
        MapOneSpace(m, live, pd, v, qd);
      }
    } else {
      MapFails(m, live, pd, v);
    }
  }

  lemma MapOneSpace(m: Mem, live: set<nat>, pd: nat, v: nat, qd: nat)
    requires Inv(m, live) && Sized(m) && pd in live && v < USER_VPNS && IsDir(m, pd) && m.pmm.bitmap[pd]
    requires !PteAt(m, pd, v).present && MapUserPage(m, pd, v).ok && Inv(MapUserPage(m, pd, v).m, live) && qd in live
    ensures var m' := MapUserPage(m, pd, v).m;
            IsDir(m', pd) && SpaceOf(m', qd) ==
            if qd == pd then SpaceOf(m, qd)[v := Page(m'.frames[pd].pdes[v / PTRS].user, true, seq(PAGE_SIZE, _ => 0))]
            else SpaceOf(m, qd)
  {
    hide Exclusive, EntriesOf, MapsData, Accounts, CowEncoded, Structure, MapUserPage, PteAt, SpaceOf;
    MapLedger(m, live, pd, v);
    var m' := MapUserPage(m, pd, v).m;
    var a := SpaceOf(m', qd);
    var b := if qd == pd then SpaceOf(m, qd)[v := Page(m'.frames[pd].pdes[v / PTRS].user, true, seq(PAGE_SIZE, _ => 0))]
             else SpaceOf(m, qd);
    forall w: nat | w < USER_VPNS
      ensures w in a <==> w in b
      ensures w in a ==> a[w] == b[w]
    {
      InSpace(m, live, qd, w);
      InSpace(m', live, qd, w);
    }
    SpaceBounds(m, qd);
    SpaceBounds(m', qd);
    assert a == b;
  }

  lemma MapFails(m: Mem, live: set<nat>, pd: nat, v: nat)
    requires Inv(m, live) && Sized(m) && pd in live && v < USER_VPNS && IsDir(m, pd) && m.pmm.bitmap[pd]
    requires !MapUserPage(m, pd, v).ok
    ensures var m' := MapUserPage(m, pd, v).m; Inv(m', live) && Abs(m', live) == Abs(m, live) && IsDir(m', pd)
  {
    hide EntriesOf, MapsData, Exclusive, CowEncoded;
    var a := AllocPage(m.pmm);
    if a.frame.Some? {
      var f := a.frame.value;
      var z := Mem(a.pmm, m.frames[f := Data(seq(PAGE_SIZE, _ => 0))]);
      var m' := FreeFrame(z, f);
      assert MapUserPage(m, pd, v).m == m';
      AllocThenFree(m.pmm);
      ScratchForm(m, m', live, f);
      SameEntries(m, m', live);
      ScratchData(m, m', live, f);
      ScratchSpaces(m, m', live, f);
    }
  }

  lemma ScratchSpaces(m: Mem, m': Mem, live: set<nat>, g: nat)
    requires Inv(m, live) && |m'.frames| == |m.frames| && g < |m.frames| && !m.pmm.bitmap[g]
    requires forall f: nat | f < |m.frames| && f != g :: m'.frames[f] == m.frames[f]
    requires forall pd | pd in live :: m'.frames[pd] == m.frames[pd]
    requires forall pd, v: nat | pd in live && v < USER_VPNS :: PteAt(m', pd, v) == PteAt(m, pd, v)
    ensures Abs(m', live) == Abs(m, live)
  {
    hide EntriesOf, MapsData, Exclusive, CowEncoded, Accounts, PteAt;
    AllHoldData(m, live);
    forall pd | pd in live ensures SpaceOf(m', pd) == SpaceOf(m, pd) {
      assert forall v: nat | v < USER_VPNS :: HoldsData(m', PteAt(m', pd, v)) <==> HoldsData(m, PteAt(m, pd, v));
    }
  }

  // It succeeds exactly when there is a frame for the page and, if its slot has no table yet,
  // one more for the table.
  lemma MapNeeds(m: Mem, live: set<nat>, pd: nat, v: nat)
    requires Inv(m, live) && Sized(m) && pd in live && v < USER_VPNS && IsDir(m, pd) && m.pmm.bitmap[pd]
    ensures MapUserPage(m, pd, v).ok <==> |Allocable(m.pmm)| >= if TableAt(m, pd, v / PTRS).Some? then 1 else 2
  {
    hide Exclusive, MapsData, EntriesOf, CowEncoded, Sharers, Allocable, Structure;
    AllocTakesOne(m.pmm);
    var a := AllocPage(m.pmm);
    if a.frame.Some? {
      AllocSpec(m.pmm);
      AllocTakesOne(a.pmm);
      var z := Mem(a.pmm, m.frames[a.frame.value := Data(seq(PAGE_SIZE, _ => 0))]);
      ScratchTable(m, z, live, pd, v / PTRS, a.frame.value);
    }
  }

  lemma ScratchTable(m: Mem, z: Mem, live: set<nat>, pd: nat, p: nat, f: nat)
    requires Structure(m, live) && pd in live && p < USER_PDIS && f < |m.frames| && !m.pmm.bitmap[f]
    requires |z.frames| == |m.frames| && z.frames[f].Data? && forall g: nat | g < |m.frames| && g != f ::
               z.frames[g] == m.frames[g]
    ensures TableAt(z, pd, p) == TableAt(m, pd, p) && IsDir(z, pd)
  {
    assert pd != f;
  }
}
