// paging_destroy_address_space: every mapping of the space is released once, its
// tables and directory are freed, and the other spaces are untouched.
module DestroyProof {
  import opened Pmm
  import opened Ledger
  import opened AddressSpace
  import opened Spaces
  import opened CloneProof
  import opened CloneSpaceProof

  // The ledger once the first n virtual pages of pd are gone.
  ghost function DropBelow(e: Entries, pd: nat, n: nat): Entries {
    map k | k in e && !(k.pd == pd && k.vpn < n) :: e[k]
  }

  lemma DropStep(p: Pmm, e: Entries, pd: nat, n: nat)
    requires Accounts(p, DropBelow(e, pd, n)) && Exclusive(DropBelow(e, pd, n))
    ensures Key(pd, n) in e ==>
              && Accounts(Release(p, e[Key(pd, n)].frame), DropBelow(e, pd, n + 1))
              && Exclusive(DropBelow(e, pd, n + 1))
    ensures Key(pd, n) !in e ==> DropBelow(e, pd, n + 1) == DropBelow(e, pd, n)
  {
    hide Accounts, Exclusive;
    var d := DropBelow(e, pd, n);
    if Key(pd, n) in e {
      Drop(p, d, Key(pd, n));
      assert d - {Key(pd, n)} == DropBelow(e, pd, n + 1);
    }
  }

  lemma DestroySlotLedger(m: Mem, pte: Pte, e: Entries, pd: nat, n: nat)
    requires Sized(m) && (pte.present <==> Key(pd, n) in e) && (pte.present ==> e[Key(pd, n)] == pte)
    requires Accounts(m.pmm, DropBelow(e, pd, n)) && Exclusive(DropBelow(e, pd, n))
    ensures Accounts(if pte.present then Release(m.pmm, pte.frame) else m.pmm, DropBelow(e, pd, n + 1))
    ensures Exclusive(DropBelow(e, pd, n + 1))
  {
    hide Accounts, Exclusive;
    DropStep(m.pmm, e, pd, n);
  }

  lemma {:induction false} DestroySlotsLedger(m: Mem, t: nat, i: nat, e: Entries, pd: nat, base: nat)
    requires Sized(m) && IsTable(m, t) && i <= PTRS && Mirrors(e, pd, base, m.frames[t].ptes)
    requires Accounts(m.pmm, DropBelow(e, pd, base)) && Exclusive(DropBelow(e, pd, base))
    ensures Accounts(DestroySlots(m, t, i).pmm, DropBelow(e, pd, base + i))
    ensures Exclusive(DropBelow(e, pd, base + i))
  {
    hide Accounts, Exclusive, DropBelow;
    if i > 0 {
      DestroySlotsLedger(m, t, i - 1, e, pd, base);
      var q := DestroySlots(m, t, i - 1);
      DestroySlotLedger(q, q.frames[t].ptes[i - 1], e, pd, base + i - 1);
    }
  }

  // The frames e names and d no longer does are free.
  ghost predicate Gone(p: Pmm, e: Entries, d: Entries) {
    forall f: nat | f < |p.bitmap| && Sharers(e, f) != {} && Sharers(d, f) == {} :: !p.bitmap[f]
  }

  lemma DropGone(p: Pmm, e: Entries, pd: nat, n: nat)
    requires Accounts(p, DropBelow(e, pd, n)) && Exclusive(DropBelow(e, pd, n)) && Gone(p, e, DropBelow(e, pd, n))
    requires Key(pd, n) in e
    ensures Gone(Release(p, e[Key(pd, n)].frame), e, DropBelow(e, pd, n + 1))
  {
    hide Accounts, Exclusive;
    var d, k := DropBelow(e, pd, n), Key(pd, n);
    var d' := DropBelow(e, pd, n + 1);
    Drop(p, d, k);
    assert d - {k} == d';
    SharersRemove(d, d', k, e[k].frame);
  }

  lemma {:induction false} DestroySlotsGone(m: Mem, t: nat, i: nat, e: Entries, pd: nat, base: nat)
    requires Sized(m) && IsTable(m, t) && i <= PTRS && Mirrors(e, pd, base, m.frames[t].ptes)
    requires Accounts(m.pmm, DropBelow(e, pd, base)) && Exclusive(DropBelow(e, pd, base))
    requires Gone(m.pmm, e, DropBelow(e, pd, base))
    ensures Gone(DestroySlots(m, t, i).pmm, e, DropBelow(e, pd, base + i))
  {
    hide Accounts, Exclusive, DropBelow, Gone;
    if i > 0 {
      DestroySlotsGone(m, t, i - 1, e, pd, base);
      DestroySlotsLedger(m, t, i - 1, e, pd, base);
      var q := DestroySlots(m, t, i - 1);
      if q.frames[t].ptes[i - 1].present {
        DropGone(q.pmm, e, pd, base + i - 1);
      } else {
        DropStep(q.pmm, e, pd, base + i - 1);
      }
    }
  }

  lemma GoneStep(m0: Mem, live: set<nat>, pd: nat, m: Mem, i: nat)
    requires Inv(m0, live) && pd in live && i < USER_PDIS && DestroyInv(m0, live, pd, m, i)
    requires Gone(m.pmm, EntriesOf(m0, live), DropBelow(EntriesOf(m0, live), pd, i * PTRS))
    ensures Gone(DestroyDir(m, pd, i).pmm, EntriesOf(m0, live), DropBelow(EntriesOf(m0, live), pd, (i + 1) * PTRS))
  {
    hide Accounts, Exclusive, DropBelow, EntriesOf, MapsData;
    SameTable(m0, live, pd, m, i);
    if TableAt(m0, pd, i).None? {
      NoTableNothingToDrop(m0, live, pd, i);
    } else {
      var t := TableAt(m0, pd, i).value;
      SlotMirrors(m0, live, pd, i);
      DestroySlotsGone(m, t, PTRS, EntriesOf(m0, live), pd, i * PTRS);
      assert i * PTRS + PTRS == (i + 1) * PTRS;
    }
  }

  lemma {:induction false} DestroyDirsGone(m0: Mem, live: set<nat>, pd: nat, i: nat)
    requires Inv(m0, live) && pd in live && i <= USER_PDIS
    ensures Gone(DestroyDirs(m0, pd, i).pmm, EntriesOf(m0, live), DropBelow(EntriesOf(m0, live), pd, i * PTRS))
  {
    hide Accounts, Exclusive, MapsData, EntriesOf, DestroyFrees, TableAt, DestroyDir;
    if i == 0 {
      assert DropBelow(EntriesOf(m0, live), pd, 0) == EntriesOf(m0, live);
    } else {
      DestroyDirsGone(m0, live, pd, i - 1);
      DestroyDirsInv(m0, live, pd, i - 1);
      GoneStep(m0, live, pd, DestroyDirs(m0, pd, i - 1), i - 1);
    }
  }

  // Bits are only ever cleared, and only for frames the table maps.
  lemma {:induction false} DestroySlotsFrame(m: Mem, t: nat, i: nat, f: nat)
    requires Sized(m) && IsTable(m, t) && i <= PTRS && f < |m.pmm.bitmap|
    ensures var r := DestroySlots(m, t, i).pmm;
            && |r.bitmap| == |m.pmm.bitmap|
            && (r.bitmap[f] ==> m.pmm.bitmap[f])
            && ((forall k: nat | k < i && m.frames[t].ptes[k].present :: m.frames[t].ptes[k].frame != f)
                ==> r.bitmap[f] == m.pmm.bitmap[f] && r.refcnt[f] == m.pmm.refcnt[f])
  {
    if i > 0 { DestroySlotsFrame(m, t, i - 1, f); }
  }

  // Memory once destroy has gone through i directory slots of pd.
  ghost predicate DestroyInv(m0: Mem, live: set<nat>, pd: nat, m: Mem, i: nat) {
    && Sized(m0) && Sized(m) && |m.frames| == |m0.frames| && IsDir(m0, pd) && IsDir(m, pd)
    && (forall f: nat | f < |m0.frames| && f != pd :: m.frames[f] == m0.frames[f])
    && (forall p: nat | i <= p < PTRS :: m.frames[pd].pdes[p] == m0.frames[pd].pdes[p])
    && Accounts(m.pmm, DropBelow(EntriesOf(m0, live), pd, i * PTRS))
    && Exclusive(DropBelow(EntriesOf(m0, live), pd, i * PTRS))
  }

  // Only the tables gone through and data frames lose their bit.
  ghost predicate DestroyFrees(m0: Mem, live: set<nat>, pd: nat, m: Mem, i: nat)
    requires Sized(m0) && Sized(m) && |m.frames| == |m0.frames|
  {
    && (forall f: nat | f < |m0.frames| && f in ParentTables(m0, pd, i) :: !m.pmm.bitmap[f])
    && (forall f: nat | f < |m0.frames| && f !in ParentTables(m0, pd, i) && Unmapped(EntriesOf(m0, live), pd, f) ::
          m.pmm.bitmap[f] == m0.pmm.bitmap[f] && m.pmm.refcnt[f] == m0.pmm.refcnt[f])
  }

  ghost predicate Unmapped(e: Entries, pd: nat, f: nat) {
    forall v: nat | Key(pd, v) in e :: e[Key(pd, v)].frame != f
  }

  // A table frame of a live space is no data frame, so no entry names it.
  lemma TableUnshared(m0: Mem, live: set<nat>, pd: nat, p: nat, n: nat)
    requires Inv(m0, live) && pd in live && p < USER_PDIS && TableAt(m0, pd, p).Some?
    ensures Sharers(DropBelow(EntriesOf(m0, live), pd, n), TableAt(m0, pd, p).value) == {}
    ensures Unmapped(EntriesOf(m0, live), pd, TableAt(m0, pd, p).value)
  {
    hide Accounts, Exclusive;
    var e := EntriesOf(m0, live);
    var t := TableAt(m0, pd, p).value;
    assert forall k | k in e :: e[k].frame != t by {
      assert forall k | k in e :: m0.frames[e[k].frame].Data?;
    }
    assert forall k | k in DropBelow(e, pd, n) :: k in e;
  }

  lemma NoTableNothingToDrop(m0: Mem, live: set<nat>, pd: nat, i: nat)
    requires pd in live && i < USER_PDIS && TableAt(m0, pd, i).None?
    ensures DropBelow(EntriesOf(m0, live), pd, (i + 1) * PTRS) == DropBelow(EntriesOf(m0, live), pd, i * PTRS)
  {
    var e := EntriesOf(m0, live);
    forall v: nat | i * PTRS <= v < (i + 1) * PTRS ensures Key(pd, v) !in e {
      assert v / PTRS == i;
      EntryIn(m0, live, pd, v);
    }
  }

  lemma SameTable(m0: Mem, live: set<nat>, pd: nat, m: Mem, i: nat)
    requires Structure(m0, live) && pd in live && i < USER_PDIS
    requires DestroyInv(m0, live, pd, m, i)
    ensures TableAt(m, pd, i) == TableAt(m0, pd, i)
    ensures TableAt(m0, pd, i).Some? ==> TableAt(m0, pd, i).value != pd
    ensures TableAt(m0, pd, i).Some? ==> m.frames[TableAt(m0, pd, i).value] == m0.frames[TableAt(m0, pd, i).value]
  {
    assert TableAt(m0, pd, i).Some? <==> m0.frames[pd].pdes[i].present;
  }

  lemma DestroyInvStep(m0: Mem, live: set<nat>, pd: nat, m: Mem, i: nat)
    requires Inv(m0, live) && pd in live && i < USER_PDIS && DestroyInv(m0, live, pd, m, i)
    ensures DestroyInv(m0, live, pd, DestroyDir(m, pd, i), i + 1)
  {
    hide Accounts, Exclusive, DropBelow, EntriesOf, MapsData;
    SameTable(m0, live, pd, m, i);
    var e := EntriesOf(m0, live);
    if TableAt(m0, pd, i).None? {
      NoTableNothingToDrop(m0, live, pd, i);
    } else {
      var t := TableAt(m0, pd, i).value;
      SlotMirrors(m0, live, pd, i);
      DestroySlotsLedger(m, t, PTRS, e, pd, i * PTRS);
      assert i * PTRS + PTRS == (i + 1) * PTRS;
      TableUnshared(m0, live, pd, i, (i + 1) * PTRS);
      FreeKeeps(DestroySlots(m, t, PTRS).pmm, DropBelow(e, pd, (i + 1) * PTRS), t);
    }
  }

  lemma DestroyFreesStep(m0: Mem, live: set<nat>, pd: nat, m: Mem, i: nat)
    requires Inv(m0, live) && pd in live && i < USER_PDIS && DestroyInv(m0, live, pd, m, i)
    requires DestroyFrees(m0, live, pd, m, i)
    ensures var m' := DestroyDir(m, pd, i); |m'.frames| == |m0.frames| && DestroyFrees(m0, live, pd, m', i + 1)
  {
    hide Accounts, Exclusive, DropBelow, EntriesOf, MapsData;
    SameTable(m0, live, pd, m, i);
    var m' := DestroyDir(m, pd, i);
    if TableAt(m0, pd, i).None? {
      assert ParentTables(m0, pd, i + 1) == ParentTables(m0, pd, i);
    } else {
      var t := TableAt(m0, pd, i).value;
      assert ParentTables(m0, pd, i + 1) == ParentTables(m0, pd, i) + {t};
      forall f: nat | f < |m0.frames|
        ensures f in ParentTables(m0, pd, i + 1) ==> !m'.pmm.bitmap[f]
        ensures f !in ParentTables(m0, pd, i + 1) && Unmapped(EntriesOf(m0, live), pd, f) ==>
                  m'.pmm.bitmap[f] == m0.pmm.bitmap[f] && m'.pmm.refcnt[f] == m0.pmm.refcnt[f]
      {
        DestroySlotsFrame(m, t, PTRS, f);
        if Unmapped(EntriesOf(m0, live), pd, f) { UnmappedSlots(m0, live, pd, i, f); }
      }
    }
  }

  lemma UnmappedSlots(m0: Mem, live: set<nat>, pd: nat, i: nat, f: nat)
    requires pd in live && i < USER_PDIS && TableAt(m0, pd, i).Some? && Unmapped(EntriesOf(m0, live), pd, f)
    ensures var ptes := m0.frames[TableAt(m0, pd, i).value].ptes;
            forall k: nat | k < PTRS && ptes[k].present :: ptes[k].frame != f
  {
    var t := TableAt(m0, pd, i).value;
    forall k: nat | k < PTRS && m0.frames[t].ptes[k].present ensures m0.frames[t].ptes[k].frame != f {
      TableEntries(m0, live, pd, i, k);
    }
  }

  lemma {:induction false} DestroyDirsInv(m0: Mem, live: set<nat>, pd: nat, i: nat)
    requires Inv(m0, live) && pd in live && i <= USER_PDIS
    ensures DestroyInv(m0, live, pd, DestroyDirs(m0, pd, i), i)
    ensures DestroyFrees(m0, live, pd, DestroyDirs(m0, pd, i), i)
  {
    hide Accounts, Exclusive, MapsData, EntriesOf, DestroyFrees, TableAt;
    if i == 0 {
      assert DropBelow(EntriesOf(m0, live), pd, 0) == EntriesOf(m0, live);
      StartFrees(m0, live, pd);
    } else {
      DestroyDirsInv(m0, live, pd, i - 1);
      DestroyInvStep(m0, live, pd, DestroyDirs(m0, pd, i - 1), i - 1);
      DestroyFreesStep(m0, live, pd, DestroyDirs(m0, pd, i - 1), i - 1);
    }
  }

  lemma StartFrees(m0: Mem, live: set<nat>, pd: nat)
    requires Sized(m0)
    ensures DestroyFrees(m0, live, pd, m0, 0)
  {
    assert ParentTables(m0, pd, 0) == {};
  }
}
