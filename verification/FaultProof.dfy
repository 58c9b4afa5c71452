// Stores: the write fault privatises a page without changing what any space reads,
// and a store then changes one byte of one page of one space.
module FaultProof {
  import opened Basics
  import opened Pmm
  import opened Ledger
  import opened AddressSpace
  import opened Spaces
  import opened CloneTheorem

  // m' agrees with m on every directory and entry of the live spaces but entry k, now t.
  ghost predicate OneEntry(m: Mem, m': Mem, live: set<nat>, k: Key, t: Pte) {
    && k.pd in live && k.vpn < USER_VPNS
    && (forall pd | pd in live :: IsDir(m, pd) && IsDir(m', pd))
    && (forall pd, v: nat | pd in live && v < USER_VPNS ::
          PteAt(m', pd, v) == if Key(pd, v) == k then t else PteAt(m, pd, v))
  }

  ghost predicate SameUser(m: Mem, m': Mem, live: set<nat>) {
    forall pd, p: nat | pd in live && p < USER_PDIS ::
      IsDir(m, pd) && IsDir(m', pd) && m'.frames[pd].pdes[p].user == m.frames[pd].pdes[p].user
  }

  lemma SetPteForm(m: Mem, live: set<nat>, pd: nat, v: nat, t: Pte)
    requires Structure(m, live) && pd in live && v < USER_VPNS && TableAt(m, pd, v / PTRS).Some?
    ensures var m' := SetPte(m, TableAt(m, pd, v / PTRS).value, v % PTRS, t);
            && Structure(m', live) && OneEntry(m, m', live, Key(pd, v), t) && SameUser(m, m', live)
            && (forall qd, p: nat | qd in live && p < USER_PDIS :: TableAt(m', qd, p) == TableAt(m, qd, p))
  {
    var f := TableAt(m, pd, v / PTRS).value;
    var m' := SetPte(m, f, v % PTRS, t);
    forall qd, p: nat | qd in live && p < USER_PDIS
      ensures m'.frames[qd] == m.frames[qd] && TableAt(m', qd, p) == TableAt(m, qd, p)
    {
    }
    forall qd, w: nat | qd in live && w < USER_VPNS
      ensures PteAt(m', qd, w) == if Key(qd, w) == Key(pd, v) then t else PteAt(m, qd, w)
    {
      assert TableAt(m', qd, w / PTRS) == TableAt(m, qd, w / PTRS);
      if TableAt(m, qd, w / PTRS) == Some(f) {
        assert qd == pd && w / PTRS == v / PTRS;
      }
    }
  }

  // Writing a frame that is not in use, or a data frame, disturbs no table.
  lemma ScratchForm(m: Mem, m': Mem, live: set<nat>, g: nat)
    requires Structure(m, live) && Sized(m') && |m'.frames| == |m.frames| && g < |m.frames|
    requires forall f: nat | f < |m.frames| && f != g :: m'.frames[f] == m.frames[f]
    requires !m.pmm.bitmap[g] || (m.frames[g].Data? && m'.frames[g].Data?)
    requires forall f: nat | f < |m.frames| && m.pmm.bitmap[f] :: m'.pmm.bitmap[f]
    ensures Structure(m', live)
    ensures forall pd | pd in live :: m'.frames[pd] == m.frames[pd]
    ensures forall pd, v: nat | pd in live && v < USER_VPNS :: PteAt(m', pd, v) == PteAt(m, pd, v)
    ensures forall pd, p: nat | pd in live && p < USER_PDIS :: TableAt(m', pd, p) == TableAt(m, pd, p)
  {
    forall pd, p: nat | pd in live && p < USER_PDIS
      ensures m'.frames[pd] == m.frames[pd] && TableAt(m', pd, p) == TableAt(m, pd, p)
    {
      assert pd != g;
      assert TableAt(m, pd, p).Some? <==> m.frames[pd].pdes[p].present;
    }
    forall pd, v: nat | pd in live && v < USER_VPNS ensures PteAt(m', pd, v) == PteAt(m, pd, v) {
      assert TableAt(m', pd, v / PTRS) == TableAt(m, pd, v / PTRS);
    }
  }

  lemma EntriesUpdate(m: Mem, m': Mem, live: set<nat>, k: Key, t: Pte)
    requires OneEntry(m, m', live, k, t) && t.present
    ensures EntriesOf(m', live) == EntriesOf(m, live)[k := t]
  {
    hide PteAt, EntriesOf;
    var e', r := EntriesOf(m', live), EntriesOf(m, live)[k := t];
    forall j | j in e' ensures j in r && e'[j] == r[j] {
      EntryKeys(m', live, j);
      EntryIn(m, live, j.pd, j.vpn);
      assert j == Key(j.pd, j.vpn);
    }
    forall j | j in r ensures j in e' {
      if j != k { EntryKeys(m, live, j); }
      EntryIn(m', live, j.pd, j.vpn);
      assert j == Key(j.pd, j.vpn);
    }
    assert e' == r;
  }

  // Same permissions and same bytes behind every entry: the spaces read the same.
  lemma SameSpaces(m: Mem, m': Mem, live: set<nat>, k: Key, t: Pte)
    requires OneEntry(m, m', live, k, t) && SameUser(m, m', live)
    requires var was := PteAt(m, k.pd, k.vpn);
             && HoldsData(m, was) && HoldsData(m', t) && m'.frames[t.frame].bytes == m.frames[was.frame].bytes
             && t.user == was.user && (t.rw || (t.user && t.cow)) == (was.rw || (was.user && was.cow))
    requires forall pd, v: nat | pd in live && v < USER_VPNS && Key(pd, v) != k && PteAt(m, pd, v).present ::
               var f := PteAt(m, pd, v).frame; f < |m.frames| && f < |m'.frames| && m'.frames[f] == m.frames[f]
    requires forall pd, v: nat | pd in live && v < USER_VPNS && PteAt(m, pd, v).present :: HoldsData(m, PteAt(m, pd, v))
    ensures Abs(m', live) == Abs(m, live)
  {
    hide PteAt;
    forall pd | pd in live ensures SpaceOf(m', pd) == SpaceOf(m, pd) {
      forall v: nat | v < USER_VPNS
        ensures HoldsData(m', PteAt(m', pd, v)) <==> HoldsData(m, PteAt(m, pd, v))
        ensures HoldsData(m, PteAt(m, pd, v)) ==> SpaceOf(m', pd)[v] == SpaceOf(m, pd)[v]
      {
        assert PteAt(m', pd, v) == if Key(pd, v) == k then t else PteAt(m, pd, v);
      }
    }
  }

  lemma AllHoldData(m: Mem, live: set<nat>)
    requires Inv(m, live)
    ensures forall pd, v: nat | pd in live && v < USER_VPNS && PteAt(m, pd, v).present ::
              && HoldsData(m, PteAt(m, pd, v)) && m.pmm.bitmap[PteAt(m, pd, v).frame]
              && |m.frames[PteAt(m, pd, v).frame].bytes| == PAGE_SIZE
  {
    hide PteAt;
    forall pd, v: nat | pd in live && v < USER_VPNS && PteAt(m, pd, v).present
      ensures HoldsData(m, PteAt(m, pd, v)) && m.pmm.bitmap[PteAt(m, pd, v).frame]
      ensures |m.frames[PteAt(m, pd, v).frame].bytes| == PAGE_SIZE
    {
      EntryIn(m, live, pd, v);
    }
  }

  lemma DataStays(m: Mem, m': Mem, e: Entries, k: Key, t: Pte)
    requires MapsData(m, e) && |m'.frames| == |m.frames| && t.frame < |m'.frames|
    requires m'.frames[t.frame].Data? && |m'.frames[t.frame].bytes| == PAGE_SIZE
    requires forall j | j in e :: m'.frames[e[j].frame].Data? && |m'.frames[e[j].frame].bytes| == PAGE_SIZE
    ensures MapsData(m', e[k := t])
  {
  }

  // The write fault is invisible: whatever it does, no space reads differently, and
  // when it resolves the fault the page has become writable in place.
  lemma FaultRefines(m: Mem, live: set<nat>, pd: nat, v: nat)
    requires Inv(m, live) && pd in live && v < USER_VPNS
    ensures var r := CowFault(m, pd, v);
            && Inv(r.m, live) && Abs(r.m, live) == Abs(m, live)
            && (r.result != Resolved ==> r.m == m)
            && (r.result == Resolved ==>
                  var t := PteAt(r.m, pd, v); t.present && t.rw && t.user)
            && (r.result == NotMine <==>
                  var t := PteAt(m, pd, v); !t.present || !t.user || t.rw || !t.cow)
            && IsDir(m, pd) && IsDir(r.m, pd)
            && r.m.frames[pd].pdes[v / PTRS].user == m.frames[pd].pdes[v / PTRS].user
  {
    hide Accounts, Exclusive, EntriesOf, MapsData, Structure, Abs;
    StructureSized(m, live);
    LiveIsDir(m, live, pd);
    var r := CowFault(m, pd, v);
    var t := PteAt(m, pd, v);
    if r.result == Resolved {
      if RefGet(m.pmm, t.frame) > 1 {
        FaultCopies(m, live, pd, v);
      } else {
        FaultReuses(m, live, pd, v);
      }
    }
  }

  lemma FaultReuses(m: Mem, live: set<nat>, pd: nat, v: nat)
    requires Inv(m, live) && pd in live && v < USER_VPNS
    requires var t := PteAt(m, pd, v); t.present && t.user && !t.rw && t.cow && RefGet(m.pmm, t.frame) <= 1
    ensures var m' := CowFault(m, pd, v).m;
            var t' := PteAt(m, pd, v).(rw := true, cow := false);
            && Inv(m', live) && Abs(m', live) == Abs(m, live)
            && OneEntry(m, m', live, Key(pd, v), t') && SameUser(m, m', live)
  {
    hide Accounts, Exclusive, EntriesOf, MapsData, Structure, OneEntry, Abs, CowEncoded;
    StructureSized(m, live);
    var t := PteAt(m, pd, v);
    var t' := t.(rw := true, cow := false);
    var m' := CowFault(m, pd, v).m;
    var k := Key(pd, v);
    SetPteForm(m, live, pd, v, t');
    EntriesUpdate(m, m', live, k, t');
    EntryIn(m, live, pd, v);
    CountOfEntry(m.pmm, EntriesOf(m, live), k);
    Reuse(m.pmm, EntriesOf(m, live), k, t');
    CowUpdate(EntriesOf(m, live), k, t');
    AllHoldData(m, live);
    TableIsNoData(m, live, pd, v);
    MapsDataKept(m, m', live, TableAt(m, pd, v / PTRS).value, k, t');
    SameSpaces(m, m', live, k, t');
  }

  lemma CowUpdate(e: Entries, k: Key, t: Pte)
    requires CowEncoded(e) && (t.cow ==> t.user && !t.rw)
    ensures CowEncoded(e[k := t])
  {
  }

  lemma CountOfEntry(p: Pmm, e: Entries, k: Key)
    requires Accounts(p, e) && k in e
    ensures RefGet(p, e[k].frame) == p.refcnt[e[k].frame] && e[k].frame < |p.bitmap|
  {
  }

  lemma TableIsNoData(m: Mem, live: set<nat>, pd: nat, v: nat)
    requires PteAt(m, pd, v).present
    ensures TableAt(m, pd, v / PTRS).Some? && IsTable(m, TableAt(m, pd, v / PTRS).value)
  {
  }

  lemma MapsDataKept(m: Mem, m': Mem, live: set<nat>, f: nat, k: Key, t: Pte)
    requires MapsData(m, EntriesOf(m, live)) && |m'.frames| == |m.frames|
    requires f < |m.frames| && !m.frames[f].Data? && t.frame < |m.frames| && t.frame != f
    requires forall g: nat | g < |m.frames| && g != f :: m'.frames[g] == m.frames[g]
    requires m.frames[t.frame].Data? && |m.frames[t.frame].bytes| == PAGE_SIZE
    ensures MapsData(m', EntriesOf(m, live)[k := t])
  {
    hide EntriesOf;
    DataStays(m, m', EntriesOf(m, live), k, t);
  }

  lemma FaultCopies(m: Mem, live: set<nat>, pd: nat, v: nat)
    requires Inv(m, live) && pd in live && v < USER_VPNS
    requires var t := PteAt(m, pd, v); t.present && t.user && !t.rw && t.cow && RefGet(m.pmm, t.frame) > 1
    requires AllocPage(m.pmm).frame.Some?
    ensures var m' := CowFault(m, pd, v).m;
            var t' := Pte(true, AllocPage(m.pmm).frame.value, true, true, false, ACCESSED_DIRTY);
            && Inv(m', live) && Abs(m', live) == Abs(m, live)
            && OneEntry(m, m', live, Key(pd, v), t') && SameUser(m, m', live)
  {
    hide Accounts, Exclusive, EntriesOf, MapsData, Structure, OneEntry, Abs, CowEncoded;
    StructureSized(m, live);
    var t := PteAt(m, pd, v);
    var a := AllocPage(m.pmm);
    var g := a.frame.value;
    var t' := Pte(true, g, true, true, false, ACCESSED_DIRTY);
    var k := Key(pd, v);
    AllHoldData(m, live);
    var m1 := Mem(RefDec(a.pmm, t.frame), m.frames[g := m.frames[t.frame]]);
    ScratchForm(m, m1, live, g);
    var m' := SetPte(m1, TableAt(m1, pd, v / PTRS).value, v % PTRS, t');
    assert CowFault(m, pd, v).m == m';
    SetPteForm(m1, live, pd, v, t');
    SameFirst(m, m1, m', live, k, t');
    EntriesUpdate(m, m', live, k, t');
    EntryIn(m, live, pd, v);
    CountOfEntry(m.pmm, EntriesOf(m, live), k);
    Break(m.pmm, EntriesOf(m, live), k, t');
    CowUpdate(EntriesOf(m, live), k, t');
    CopyKeepsData(m, m', live, TableAt(m, pd, v / PTRS).value, g, k, t');
    SameSpaces(m, m', live, k, t');
  }

  lemma SameFirst(m: Mem, m1: Mem, m': Mem, live: set<nat>, k: Key, t: Pte)
    requires Structure(m, live) && OneEntry(m1, m', live, k, t) && SameUser(m1, m', live)
    requires forall pd | pd in live :: m1.frames[pd] == m.frames[pd]
    requires forall pd, v: nat | pd in live && v < USER_VPNS :: PteAt(m1, pd, v) == PteAt(m, pd, v)
    ensures OneEntry(m, m', live, k, t) && SameUser(m, m', live)
  {
    hide PteAt;
  }

  lemma CopyKeepsData(m: Mem, m': Mem, live: set<nat>, f: nat, g: nat, k: Key, t: Pte)
    requires MapsData(m, EntriesOf(m, live)) && Accounts(m.pmm, EntriesOf(m, live)) && Sized(m)
    requires |m'.frames| == |m.frames| && t.frame == g && g < |m.frames| && !m.pmm.bitmap[g]
    requires f < |m.frames| && !m.frames[f].Data? && f != g
    requires forall h: nat | h < |m.frames| && h != f && h != g :: m'.frames[h] == m.frames[h]
    requires m'.frames[g].Data? && |m'.frames[g].bytes| == PAGE_SIZE
    ensures MapsData(m', EntriesOf(m, live)[k := t])
  {
    hide EntriesOf;
    DataStays(m, m', EntriesOf(m, live), k, t);
  }
}
