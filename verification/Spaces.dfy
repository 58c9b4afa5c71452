// The invariant of a set of live address spaces.
module Spaces {
  import opened Ledger
  import opened AddressSpace

  // Directories and their tables are allocated, and no table serves two slots.
  ghost predicate Structure(m: Mem, live: set<nat>) {
    && Sized(m)
    && (forall pd | pd in live :: 0 < pd && IsDir(m, pd) && m.pmm.bitmap[pd])
    && (forall pd, p: nat | pd in live && p < USER_PDIS ::
          TableAt(m, pd, p).Some? <==> m.frames[pd].pdes[p].present)
    && (forall pd, p: nat | pd in live && p < USER_PDIS && TableAt(m, pd, p).Some? ::
          m.pmm.bitmap[TableAt(m, pd, p).value])
    && (forall pd, p: nat, qd, q: nat |
          && pd in live && p < USER_PDIS && TableAt(m, pd, p).Some?
          && qd in live && q < USER_PDIS && TableAt(m, qd, q) == TableAt(m, pd, p)
          :: pd == qd && p == q)
  }

  ghost function UserKeys(live: set<nat>): set<Key> {
    set pd, v: nat | pd in live && v < USER_VPNS :: Key(pd, v)
  }

  // The user-half entries in force.
  ghost function EntriesOf(m: Mem, live: set<nat>): Entries {
    map k | k in UserKeys(live) && PteAt(m, k.pd, k.vpn).present :: PteAt(m, k.pd, k.vpn)
  }

  ghost predicate MapsData(m: Mem, e: Entries) {
    forall k | k in e ::
      e[k].frame < |m.frames| && m.frames[e[k].frame].Data? && |m.frames[e[k].frame].bytes| == PAGE_SIZE
  }

  // The encoding of copy-on-write entries: user, and not writable.
  ghost predicate CowEncoded(e: Entries) {
    forall k | k in e && e[k].cow :: e[k].user && !e[k].rw
  }

  ghost predicate Inv(m: Mem, live: set<nat>) {
    && Structure(m, live)
    && CowEncoded(EntriesOf(m, live))
    && Accounts(m.pmm, EntriesOf(m, live))
    && Exclusive(EntriesOf(m, live))
    && MapsData(m, EntriesOf(m, live))
  }

  lemma EntryIn(m: Mem, live: set<nat>, pd: nat, v: nat)
    requires pd in live && v < USER_VPNS
    ensures Key(pd, v) in EntriesOf(m, live) <==> PteAt(m, pd, v).present
    ensures PteAt(m, pd, v).present ==> EntriesOf(m, live)[Key(pd, v)] == PteAt(m, pd, v)
  {
    assert Key(pd, v) in UserKeys(live);
  }

  lemma EntryKeys(m: Mem, live: set<nat>, k: Key)
    requires k in EntriesOf(m, live)
    ensures k.pd in live && k.vpn < USER_VPNS && PteAt(m, k.pd, k.vpn).present
    ensures EntriesOf(m, live)[k] == PteAt(m, k.pd, k.vpn)
  {
    assert k in UserKeys(live);
  }

  // Two memories with the same entries everywhere have the same ledger.
  lemma SameEntries(m: Mem, m': Mem, live: set<nat>)
    requires forall pd, v: nat | pd in live && v < USER_VPNS :: PteAt(m, pd, v) == PteAt(m', pd, v)
    ensures EntriesOf(m, live) == EntriesOf(m', live)
  {
    var a, b := EntriesOf(m, live), EntriesOf(m', live);
    forall k | k in a ensures k in b && b[k] == a[k] { EntryKeys(m, live, k); EntryIn(m', live, k.pd, k.vpn); }
    forall k | k in b ensures k in a { EntryKeys(m', live, k); EntryIn(m, live, k.pd, k.vpn); }
  }

  // A directory whose own frame and table frames are untouched reads the same.
  lemma TablesUntouched(m: Mem, m': Mem, pd: nat)
    requires IsDir(m, pd) && |m.frames| == |m'.frames| && m'.frames[pd] == m.frames[pd]
    requires forall p: nat | p < USER_PDIS && TableAt(m, pd, p).Some? ::
               m'.frames[TableAt(m, pd, p).value] == m.frames[TableAt(m, pd, p).value]
    requires forall p: nat | p < USER_PDIS :: TableAt(m, pd, p).Some? <==> m.frames[pd].pdes[p].present
    ensures forall p: nat | p < USER_PDIS :: TableAt(m', pd, p) == TableAt(m, pd, p)
    ensures forall v: nat | v < USER_VPNS :: PteAt(m', pd, v) == PteAt(m, pd, v)
  {
    forall p: nat | p < USER_PDIS ensures TableAt(m', pd, p) == TableAt(m, pd, p) {
      assert TableAt(m, pd, p).Some? <==> m.frames[pd].pdes[p].present;
    }
    forall v: nat | v < USER_VPNS ensures PteAt(m', pd, v) == PteAt(m, pd, v) {
      assert TableAt(m', pd, v / PTRS) == TableAt(m, pd, v / PTRS);
    }
  }

  // A table of a live space holds that space's entries in order.
  lemma TableEntries(m: Mem, live: set<nat>, pd: nat, p: nat, k: nat)
    requires pd in live && p < USER_PDIS && TableAt(m, pd, p).Some? && k < PTRS
    ensures PteAt(m, pd, p * PTRS + k) == m.frames[TableAt(m, pd, p).value].ptes[k]
    ensures m.frames[TableAt(m, pd, p).value].ptes[k].present <==> Key(pd, p * PTRS + k) in EntriesOf(m, live)
    ensures m.frames[TableAt(m, pd, p).value].ptes[k].present ==>
              EntriesOf(m, live)[Key(pd, p * PTRS + k)] == m.frames[TableAt(m, pd, p).value].ptes[k]
  {
    var v := p * PTRS + k;
    assert v / PTRS == p && v % PTRS == k;
    EntryIn(m, live, pd, v);
  }
}
