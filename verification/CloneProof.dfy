// What paging_clone_address_space does, slot by slot, to the ledger and the frames.
module CloneProof {
  import opened Pmm
  import opened Ledger
  import opened AddressSpace

  // Child c has no entries yet.
  ghost predicate Ready(e: Entries, p: nat, c: nat) {
    p != c && forall k | k in e :: k.pd != c && e[k].present
  }

  // The ledger once clone has copied the parent's first n virtual pages to child c.
  ghost function CloneMap(e: Entries, p: nat, c: nat, n: nat): Entries {
    if n == 0 then e
    else
      var r := CloneMap(e, p, c, n - 1);
      var k := Key(p, n - 1);
      if k in e then r[k := ParentEntry(e[k])][Key(c, n - 1) := ChildEntry(e[k])] else r
  }

  lemma {:induction false} CloneMapForm(e: Entries, p: nat, c: nat, n: nat)
    requires Ready(e, p, c)
    ensures var r := CloneMap(e, p, c, n);
            && (forall k :: k in r <==> k in e || (k.pd == c && k.vpn < n && Key(p, k.vpn) in e))
            && (forall k | k in r ::
              r[k] == if k.pd == c then ChildEntry(e[Key(p, k.vpn)])
                      else if k.pd == p && k.vpn < n then ParentEntry(e[k])
                      else e[k])
  {
    if n > 0 { CloneMapForm(e, p, c, n - 1); }
  }

  ghost function VpnsBelow(e: Entries, p: nat, f: nat, n: nat): set<nat> {
    set v: nat | v < n && Key(p, v) in e && e[Key(p, v)].frame == f
  }

  // No frame would reach the saturated count by cloning p (at most 32 processes share one).
  ghost predicate Headroom(e: Entries, p: nat) {
    forall f :: |Sharers(e, f)| + |VpnsBelow(e, p, f, USER_VPNS)| <= REF_SATURATION
  }

  lemma {:induction false} CloneMapCount(e: Entries, p: nat, c: nat, n: nat, f: nat)
    requires Ready(e, p, c)
    ensures |Sharers(CloneMap(e, p, c, n), f)| == |Sharers(e, f)| + |VpnsBelow(e, p, f, n)|
  {
    if n == 0 {
      assert VpnsBelow(e, p, f, 0) == {};
    } else {
      CloneMapCount(e, p, c, n - 1, f);
      VpnsStep(e, p, f, n - 1);
      CloneMapAdds(e, p, c, n - 1, f);
    }
  }

  lemma VpnsStep(e: Entries, p: nat, f: nat, n: nat)
    ensures |VpnsBelow(e, p, f, n + 1)| ==
            |VpnsBelow(e, p, f, n)| + if Key(p, n) in e && e[Key(p, n)].frame == f then 1 else 0
  {
    if Key(p, n) in e && e[Key(p, n)].frame == f {
      assert VpnsBelow(e, p, f, n + 1) == VpnsBelow(e, p, f, n) + {n};
    } else {
      assert VpnsBelow(e, p, f, n + 1) == VpnsBelow(e, p, f, n);
    }
  }

  lemma CloneMapAdds(e: Entries, p: nat, c: nat, n: nat, f: nat)
    requires Ready(e, p, c)
    ensures |Sharers(CloneMap(e, p, c, n + 1), f)| ==
            |Sharers(CloneMap(e, p, c, n), f)| + if Key(p, n) in e && e[Key(p, n)].frame == f then 1 else 0
  {
    if Key(p, n) in e {
      var r, r' := CloneMap(e, p, c, n), CloneMap(e, p, c, n + 1);
      CloneMapForm(e, p, c, n);
      SharersAdd(r, r', Key(c, n), e[Key(p, n)].frame);
    }
  }

  lemma RoomForOne(e: Entries, p: nat, c: nat, n: nat)
    requires Ready(e, p, c) && Headroom(e, p)
    requires n < USER_VPNS && Key(p, n) in e
    ensures |Sharers(CloneMap(e, p, c, n), e[Key(p, n)].frame)| < REF_SATURATION
  {
    var f := e[Key(p, n)].frame;
    CloneMapCount(e, p, c, n, f);
    Monotone(VpnsBelow(e, p, f, n) + {n}, VpnsBelow(e, p, f, USER_VPNS));
    assert |Sharers(e, f)| + |VpnsBelow(e, p, f, USER_VPNS)| <= REF_SATURATION;
  }

  lemma Monotone(a: set<nat>, b: set<nat>)
    requires a <= b
    ensures |a| <= |b|
  {
    assert b == a + (b - a);
  }

  // One virtual page of the parent is shared with the child.
  lemma CloneMapStep(p: Pmm, e: Entries, pd: nat, c: nat, n: nat)
    requires Ready(e, pd, c) && Headroom(e, pd) && n < USER_VPNS
    requires Accounts(p, CloneMap(e, pd, c, n)) && Exclusive(CloneMap(e, pd, c, n))
    ensures Key(pd, n) in e ==>
              Accounts(RefInc(p, e[Key(pd, n)].frame), CloneMap(e, pd, c, n + 1))
                && Exclusive(CloneMap(e, pd, c, n + 1))
    ensures Key(pd, n) !in e ==> CloneMap(e, pd, c, n + 1) == CloneMap(e, pd, c, n)
  {
    if Key(pd, n) in e {
      CloneMapForm(e, pd, c, n);
      RoomForOne(e, pd, c, n);
      Share(p, CloneMap(e, pd, c, n), Key(pd, n), Key(c, n));
    }
  }

  // Entries of table pt are the ledger's entries of pd at base, base+1, ...
  ghost predicate Mirrors(e: Entries, pd: nat, base: nat, ptes: seq<Pte>) {
    forall k: nat | k < |ptes| ::
      && (ptes[k].present <==> Key(pd, base + k) in e)
      && (ptes[k].present ==> e[Key(pd, base + k)] == ptes[k])
  }

  // The closed form of clone's inner loop.
  lemma {:induction false} CloneSlotsForm(m: Mem, pt: nat, ct: nat, i: nat)
    requires Sized(m) && IsTable(m, pt) && IsTable(m, ct) && pt != ct && i <= PTRS
    ensures var r := CloneSlots(m, pt, ct, i);
            && (forall k: nat | k < i :: r.frames[ct].ptes[k] == ChildEntry(m.frames[pt].ptes[k]))
            && (forall k: nat | i <= k < PTRS :: r.frames[ct].ptes[k] == m.frames[ct].ptes[k])
            && (forall k: nat | k < i :: r.frames[pt].ptes[k] == ParentEntry(m.frames[pt].ptes[k]))
            && (forall k: nat | i <= k < PTRS :: r.frames[pt].ptes[k] == m.frames[pt].ptes[k])
  {
    hide ChildEntry, ParentEntry, CloneSlot;
    if i > 0 {
      CloneSlotsForm(m, pt, ct, i - 1);
      CloneSlotForm(CloneSlots(m, pt, ct, i - 1), pt, ct, i - 1);
    }
  }

  lemma CloneSlotForm(m: Mem, pt: nat, ct: nat, k: nat)
    requires Sized(m) && IsTable(m, pt) && IsTable(m, ct) && pt != ct && k < PTRS
    ensures var r := CloneSlot(m, pt, ct, k);
            && IsTable(r, pt) && IsTable(r, ct)
            && r.frames[ct].ptes == m.frames[ct].ptes[k := ChildEntry(m.frames[pt].ptes[k])]
            && r.frames[pt].ptes == m.frames[pt].ptes[k := ParentEntry(m.frames[pt].ptes[k])]
  {
    hide RefInc;
  }

  lemma CloneSlotLedger(m: Mem, pt: nat, ct: nat, k: nat, e: Entries, pd: nat, c: nat, n: nat)
    requires Sized(m) && IsTable(m, pt) && IsTable(m, ct) && k < PTRS
    requires Ready(e, pd, c) && Headroom(e, pd) && n < USER_VPNS
    requires m.frames[pt].ptes[k].present <==> Key(pd, n) in e
    requires Key(pd, n) in e ==> e[Key(pd, n)] == m.frames[pt].ptes[k]
    requires Accounts(m.pmm, CloneMap(e, pd, c, n)) && Exclusive(CloneMap(e, pd, c, n))
    ensures Accounts(CloneSlot(m, pt, ct, k).pmm, CloneMap(e, pd, c, n + 1))
    ensures Exclusive(CloneMap(e, pd, c, n + 1))
  {
    CloneMapStep(m.pmm, e, pd, c, n);
  }

  // The inner loop keeps the accounts exact, one page at a time.
  lemma {:induction false} CloneSlotsLedger(m: Mem, pt: nat, ct: nat, i: nat, e: Entries, pd: nat, c: nat, base: nat)
    requires Sized(m) && IsTable(m, pt) && IsTable(m, ct) && pt != ct && i <= PTRS
    requires Ready(e, pd, c) && Headroom(e, pd)
    requires base + PTRS <= USER_VPNS && Mirrors(e, pd, base, m.frames[pt].ptes)
    requires Accounts(m.pmm, CloneMap(e, pd, c, base)) && Exclusive(CloneMap(e, pd, c, base))
    ensures Accounts(CloneSlots(m, pt, ct, i).pmm, CloneMap(e, pd, c, base + i))
    ensures Exclusive(CloneMap(e, pd, c, base + i))
  {
    hide Accounts, Exclusive, Headroom, Ready, CloneMap, CloneSlot, ChildEntry, ParentEntry;
    if i > 0 {
      CloneSlotsLedger(m, pt, ct, i - 1, e, pd, c, base);
      CloneSlotsForm(m, pt, ct, i - 1);
      CloneSlotLedger(CloneSlots(m, pt, ct, i - 1), pt, ct, i - 1, e, pd, c, base + i - 1);
    }
  }

  // The inner loop changes no count of a frame the table does not name.
  lemma {:induction false} CloneSlotsFrame(m: Mem, pt: nat, ct: nat, i: nat, f: nat)
    requires Sized(m) && IsTable(m, pt) && IsTable(m, ct) && pt != ct && i <= PTRS && f < |m.pmm.refcnt|
    requires forall k: nat | k < PTRS && m.frames[pt].ptes[k].present :: m.frames[pt].ptes[k].frame != f
    ensures CloneSlots(m, pt, ct, i).pmm.refcnt[f] == m.pmm.refcnt[f]
  {
    if i > 0 {
      CloneSlotsFrame(m, pt, ct, i - 1, f);
      CloneSlotsForm(m, pt, ct, i - 1);
      var q := CloneSlots(m, pt, ct, i - 1);
      assert q.frames[pt].ptes[i - 1] == m.frames[pt].ptes[i - 1];
    }
  }
}
