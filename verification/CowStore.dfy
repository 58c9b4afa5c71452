// Stores and new pages against the private-copy view; what a failed clone really keeps.
module CowStore {
  import opened Basics
  import opened Pmm
  import opened Ledger
  import opened AddressSpace
  import opened Spaces
  import opened CloneProof
  import opened CloneTheorem
  import opened FaultProof
  import opened RollbackTheorem

  // A store on the view: one byte of one page of one space.
  ghost function StoreInto(s: map<nat, Space>, pd: nat, v: nat, off: nat, val: Byte): map<nat, Space>
    requires pd in s && v in s[pd] && off < |s[pd][v].bytes|
  {
    s[pd := s[pd][v := s[pd][v].(bytes := s[pd][v].bytes[off := val])]]
  }

  lemma InSpace(m: Mem, live: set<nat>, pd: nat, v: nat)
    requires Inv(m, live) && pd in live && v < USER_VPNS
    ensures pd in Abs(m, live) && (v in Abs(m, live)[pd] <==> PteAt(m, pd, v).present)
    ensures v in Abs(m, live)[pd] ==>
              var t := PteAt(m, pd, v);
              && t.frame < |m.frames| && m.frames[t.frame].Data? && IsDir(m, pd) && t.frame < |m.pmm.bitmap|
                 && m.pmm.bitmap[t.frame]
              && Abs(m, live)[pd][v]
                   == Page(m.frames[pd].pdes[v / PTRS].user && t.user, t.rw || (t.user && t.cow),
                           m.frames[t.frame].bytes)
              && |m.frames[t.frame].bytes| == PAGE_SIZE
  {
    hide Accounts, Exclusive, EntriesOf, MapsData, Structure, PteAt, CowEncoded;
    StructureSized(m, live);
    LiveIsDir(m, live, pd);
    AllHoldData(m, live);
  }

  // Only the writer's own entry names a frame it may write.
  lemma WriterAlone(m: Mem, live: set<nat>, pd: nat, v: nat, qd: nat, w: nat)
    requires Inv(m, live) && pd in live && v < USER_VPNS && qd in live && w < USER_VPNS
    requires PteAt(m, pd, v).present && PteAt(m, pd, v).rw && PteAt(m, pd, v).user
    requires PteAt(m, qd, w).present && PteAt(m, qd, w).frame == PteAt(m, pd, v).frame
    ensures qd == pd && w == v
  {
    hide PteAt, EntriesOf, Accounts, MapsData, Structure, CowEncoded;
    EntryIn(m, live, pd, v);
    EntryIn(m, live, qd, w);
    Sole(EntriesOf(m, live), Key(qd, w));
  }

  lemma WriteRefines(m: Mem, live: set<nat>, pd: nat, v: nat, off: nat, val: Byte)
    requires Inv(m, live) && pd in live && v < USER_VPNS && off < PAGE_SIZE
    requires PteAt(m, pd, v).present && PteAt(m, pd, v).rw && PteAt(m, pd, v).user
    ensures v in Abs(m, live)[pd] && |Abs(m, live)[pd][v].bytes| == PAGE_SIZE && Sized(m)
    ensures Inv(WriteByte(m, PteAt(m, pd, v).frame, off, val), live)
    ensures Abs(WriteByte(m, PteAt(m, pd, v).frame, off, val), live) == StoreInto(Abs(m, live), pd, v, off, val)
  {
    hide Accounts, Exclusive, EntriesOf, MapsData, Structure, PteAt, CowEncoded, SpaceOf;
    StructureSized(m, live);
    InSpace(m, live, pd, v);
    var f := PteAt(m, pd, v).frame;
    var m' := WriteByte(m, f, off, val);
    ScratchForm(m, m', live, f);
    SameEntries(m, m', live);
    DataWrite(m, m', live, f);
    assert Inv(m', live);
    forall qd | qd in live
      ensures SpaceOf(m', qd) == StoreInto(Abs(m, live), pd, v, off, val)[qd]
    {
      WriteOneSpace(m, live, pd, v, off, val, qd);
    }
  }

  lemma DataWrite(m: Mem, m': Mem, live: set<nat>, f: nat)
    requires MapsData(m, EntriesOf(m, live)) && |m'.frames| == |m.frames| && f < |m.frames|
    requires forall g: nat | g < |m.frames| && g != f :: m'.frames[g] == m.frames[g]
    requires m'.frames[f].Data? && |m'.frames[f].bytes| == PAGE_SIZE
    ensures MapsData(m', EntriesOf(m, live))
  {
    hide EntriesOf;
  }

  lemma WriteOneSpace(m: Mem, live: set<nat>, pd: nat, v: nat, off: nat, val: Byte, qd: nat)
    requires Inv(m, live) && pd in live && v < USER_VPNS && off < PAGE_SIZE && qd in live && Sized(m)
    requires PteAt(m, pd, v).present && PteAt(m, pd, v).rw && PteAt(m, pd, v).user
    requires v in Abs(m, live)[pd] && |Abs(m, live)[pd][v].bytes| == PAGE_SIZE
    requires Inv(WriteByte(m, PteAt(m, pd, v).frame, off, val), live)
    ensures SpaceOf(WriteByte(m, PteAt(m, pd, v).frame, off, val), qd) == StoreInto(Abs(m, live), pd, v, off, val)[qd]
  {
    hide Accounts, Exclusive, EntriesOf, MapsData, Structure, PteAt, CowEncoded, SpaceOf;
    InSpace(m, live, pd, v);
    var f := PteAt(m, pd, v).frame;
    var m' := WriteByte(m, f, off, val);
    ScratchForm(m, m', live, f);
    var a, b := SpaceOf(m', qd), StoreInto(Abs(m, live), pd, v, off, val)[qd];
    forall w: nat | w < USER_VPNS
      ensures w in a <==> w in b
      ensures w in a ==> a[w] == b[w]
    {
      InSpace(m, live, qd, w);
      InSpace(m', live, qd, w);
      if PteAt(m, qd, w).present && PteAt(m, qd, w).frame == f { WriterAlone(m, live, pd, v, qd, w); }
    }
    SpaceBounds(m, qd);
    SpaceBounds(m', qd);
    assert a == b;
  }

  lemma SpaceBounds(m: Mem, pd: nat)
    ensures forall w | w in SpaceOf(m, pd) :: w < USER_VPNS
  {
  }

  // A store either changes exactly its own byte, in its own space, or nothing at all.  It is
  // denied exactly for pages that are absent, not the user's, or not writable; it runs out
  // of memory only on a shared page with no free frame left.
  lemma StoreRefines(m: Mem, live: set<nat>, pd: nat, v: nat, off: nat, val: Byte)
    requires Inv(m, live) && pd in live && v < USER_VPNS && off < PAGE_SIZE
    ensures Sized(m) && pd in Abs(m, live)
    ensures var r := Store(m, pd, v, off, val);
            var s := Abs(m, live);
            && Inv(r.m, live)
            && (r.result == Denied <==> !(v in s[pd] && s[pd][v].user && s[pd][v].writable))
            && (r.result != Done ==> r.m == m)
            && (r.result == Done ==> off < |s[pd][v].bytes| && Abs(r.m, live) == StoreInto(s, pd, v, off, val))
            && (r.result == OutOfMemory ==>
                  AllocPage(m.pmm).frame.None? && PteAt(m, pd, v).cow && RefGet(m.pmm, PteAt(m, pd, v).frame) > 1)
  {
    hide Accounts, Exclusive, EntriesOf, MapsData, Structure, CowEncoded, SpaceOf, Abs;
    StructureSized(m, live);
    InSpace(m, live, pd, v);
    var t := PteAt(m, pd, v);
    if t.present && t.user && m.frames[pd].pdes[v / PTRS].user {
      if t.rw {
        WriteRefines(m, live, pd, v, off, val);
      } else {
        FaultRefines(m, live, pd, v);
        var fault := CowFault(m, pd, v);
        if fault.result == Resolved { WriteRefines(fault.m, live, pd, v, off, val); }
      }
    }
  }

  // ---- a failed clone ----

  predicate SamePermission(a: Pte, b: Pte) {
    a.present == b.present && (a.present ==> a.frame == b.frame && a.rw == b.rw && a.user == b.user)
  }

  // Rollback restores the parent's permissions exactly when none of the tables it had
  // copied held a copy-on-write page before the clone.
  lemma FailedClonePermissions(m0: Mem, live: set<nat>, parent: nat)
    requires Inv(m0, live) && parent in live && Headroom(EntriesOf(m0, live), parent)
    requires CloneSpace(m0, parent).child.None?
    ensures (forall v: nat | v < USER_VPNS ::
               SamePermission(PteAt(CloneSpace(m0, parent).m, parent, v), PteAt(m0, parent, v)))
            <==>
            (forall v: nat | v < USER_VPNS && v < FailPoint(m0, parent) * PTRS ::
               !(PteAt(m0, parent, v).present && PteAt(m0, parent, v).cow))
  {
    hide Exclusive, EntriesOf, MapsData, Headroom, Accounts, PteAt, TableAt, Structure;
    StructureSized(m0, live);
    FailedCloneRewinds(m0, live, parent);
    var m := CloneSpace(m0, parent).m;
    forall v: nat | v < USER_VPNS
      ensures SamePermission(PteAt(m, parent, v), PteAt(m0, parent, v)) <==>
              !(v < FailPoint(m0, parent) * PTRS && PteAt(m0, parent, v).present && PteAt(m0, parent, v).cow)
    {
      EntryIn(m0, live, parent, v);
    }
  }

  // Rollback never changes what a space reads.  It keeps the invariant exactly when every
  // copy-on-write page in the copied tables had only one sharer left.
  lemma FailedCloneInvariant(m0: Mem, live: set<nat>, parent: nat)
    requires Inv(m0, live) && parent in live && Headroom(EntriesOf(m0, live), parent)
    requires CloneSpace(m0, parent).child.None?
    ensures Abs(CloneSpace(m0, parent).m, live) == Abs(m0, live)
    ensures Inv(CloneSpace(m0, parent).m, live) <==>
            (forall v: nat | v < USER_VPNS && v < FailPoint(m0, parent) * PTRS && PteAt(m0, parent, v).present
             && PteAt(m0, parent, v).cow ::
               RefGet(m0.pmm, PteAt(m0, parent, v).frame) == 1)
  {
    hide Exclusive, EntriesOf, MapsData, Headroom, Accounts, PteAt, TableAt, Structure, RestoredMap, Abs, CowEncoded,
         Rewound;
    StructureSized(m0, live);
    FailedCloneRewinds(m0, live, parent);
    var m := CloneSpace(m0, parent).m;
    var at := FailPoint(m0, parent);
    RewoundSpaces(m0, live, parent, at, m);
    RewoundRest(m0, live, parent, at, m);
    RewoundExclusive(m0, live, parent, at);
  }

  lemma RewoundSpaces(m0: Mem, live: set<nat>, parent: nat, at: nat, m: Mem)
    requires Inv(m0, live) && parent in live && Rewound(m0, live, parent, at, m) && |m.frames| == |m0.frames|
    requires forall f: nat | f < |m0.frames| && m0.frames[f].Data? && m0.pmm.bitmap[f] :: m.frames[f] == m0.frames[f]
    ensures Abs(m, live) == Abs(m0, live)
  {
    hide Exclusive, EntriesOf, MapsData, Accounts, PteAt, TableAt, Structure;
    StructureSized(m0, live);
    AllHoldData(m0, live);
    forall pd | pd in live ensures SpaceOf(m, pd) == SpaceOf(m0, pd) {
      forall v: nat | v < USER_VPNS
        ensures HoldsData(m, PteAt(m, pd, v)) <==> HoldsData(m0, PteAt(m0, pd, v))
        ensures HoldsData(m0, PteAt(m0, pd, v)) ==> SpaceOf(m, pd)[v] == SpaceOf(m0, pd)[v]
      {
        EntryIn(m0, live, pd, v);
      }
    }
  }

  lemma RewoundRest(m0: Mem, live: set<nat>, parent: nat, at: nat, m: Mem)
    requires Inv(m0, live) && parent in live && |m.frames| == |m0.frames|
    requires forall f: nat | f < |m0.frames| && m0.frames[f].Data? && m0.pmm.bitmap[f] :: m.frames[f] == m0.frames[f]
    ensures MapsData(m, RestoredMap(EntriesOf(m0, live), parent, at * PTRS))
    ensures CowEncoded(RestoredMap(EntriesOf(m0, live), parent, at * PTRS))
  {
    hide Exclusive, EntriesOf, Structure;
    StructureSized(m0, live);
    var e := EntriesOf(m0, live);
    var r := RestoredMap(e, parent, at * PTRS);
    forall k | k in r
      ensures r[k].frame < |m.frames| && m.frames[r[k].frame].Data? && |m.frames[r[k].frame].bytes| == PAGE_SIZE
      ensures r[k].cow ==> r[k].user && !r[k].rw
    {
      assert e[k].present && r[k].frame == e[k].frame;
    }
  }

  lemma RewoundExclusive(m0: Mem, live: set<nat>, parent: nat, at: nat)
    requires Inv(m0, live) && parent in live && Sized(m0)
    ensures Exclusive(RestoredMap(EntriesOf(m0, live), parent, at * PTRS)) <==>
            (forall v: nat | v < USER_VPNS && v < at * PTRS && PteAt(m0, parent, v).present
             && PteAt(m0, parent, v).cow ::
               RefGet(m0.pmm, PteAt(m0, parent, v).frame) == 1)
  {
    hide EntriesOf, PteAt, MapsData, Structure, Accounts, Exclusive;
    var e := EntriesOf(m0, live);
    var r := RestoredMap(e, parent, at * PTRS);
    var holds := forall v: nat | v < USER_VPNS && v < at * PTRS && PteAt(m0, parent, v).present
      && PteAt(m0, parent, v).cow ::
                   RefGet(m0.pmm, PteAt(m0, parent, v).frame) == 1;
    if holds {
      forall k | k in e && k.pd == parent && k.vpn < at * PTRS && e[k].cow ensures Sharers(e, e[k].frame) == {k} {
        EntryKeys(m0, live, k);
        OnlySharer(m0.pmm, e, k);
      }
      forall k | k in e ensures e[k].present { EntryKeys(m0, live, k); }
      ExclusiveIf(e, parent, at * PTRS);
    } else {
      var v: nat :| v < USER_VPNS && v < at * PTRS && PteAt(m0, parent, v).present && PteAt(m0, parent, v).cow
                    && RefGet(m0.pmm, PteAt(m0, parent, v).frame) != 1;
      EntryIn(m0, live, parent, v);
      OnlySharer(m0.pmm, e, Key(parent, v));
      NotExclusiveIf(e, parent, at * PTRS, v);
    }
  }

  lemma OnlySharer(p: Pmm, e: Entries, k: Key)
    requires Accounts(p, e) && k in e
    ensures RefGet(p, e[k].frame) == 1 <==> Sharers(e, e[k].frame) == {k}
  {
    assert k in Sharers(e, e[k].frame);
    if |Sharers(e, e[k].frame)| == 1 {
      assert |Sharers(e, e[k].frame) - {k}| == 0;
    }
  }

  lemma ExclusiveIf(e: Entries, p: nat, n: nat)
    requires Exclusive(e) && CowEncoded(e) && forall k | k in e :: e[k].present
    requires forall k | k in e && k.pd == p && k.vpn < n && e[k].cow :: Sharers(e, e[k].frame) == {k}
    ensures Exclusive(RestoredMap(e, p, n))
  {
    var r := RestoredMap(e, p, n);
    SameFramesSameSharers(e, r);
  }

  lemma NotExclusiveIf(e: Entries, p: nat, n: nat, v: nat)
    requires Key(p, v) in e && v < n && e[Key(p, v)].present && e[Key(p, v)].cow && CowEncoded(e)
    requires Sharers(e, e[Key(p, v)].frame) != {Key(p, v)}
    ensures !Exclusive(RestoredMap(e, p, n))
  {
    var r := RestoredMap(e, p, n);
    SameFramesSameSharers(e, r);
    assert r[Key(p, v)].rw && r[Key(p, v)].user;
  }
}
