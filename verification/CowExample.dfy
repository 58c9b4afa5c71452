// Inputs at which the page bookkeeping falls short: a failed clone that lets the parent write a
// page it shares, a frame lost by mapping over its page, and a count that has saturated.
module CowExample {
  import opened Basics
  import opened Pmm
  import opened Ledger
  import opened AddressSpace
  import opened Spaces
  import opened CloneProof
  import opened Holdings
  import opened DestroyProof
  import opened DestroyTheorem
  import opened FaultProof
  import opened RollbackTheorem
  import opened CloneMemory
  import opened CowMap

  // Directory A with two tables and directory B with one.  Page 0 of both is the data frame D,
  // copy-on-write, as a fork leaves it; page 1024 of A, mapped since, is the data frame D1 alone.
  // Two frames are free: enough for a directory and one table.
  const A: nat := 256
  const A0: nat := 257
  const A1: nat := 258
  const B: nat := 259
  const B0: nat := 260
  const D: nat := 261
  const D1: nat := 262
  const N: nat := 265
  const SHARED := Pte(true, D, false, true, true, 0)
  const OWN := Pte(true, D1, true, true, false, 0)

  function Hang(t: nat): Pde { Pde(true, false, t, true, 0) }

  function DirA(): seq<Pde> { seq(PTRS, i => if i == 0 then Hang(A0) else if i == 1 then Hang(A1) else NO_PDE) }

  function DirB(): seq<Pde> { seq(PTRS, i => if i == 0 then Hang(B0) else NO_PDE) }

  function OnePage(t: Pte): seq<Pte> { seq(PTRS, i => if i == 0 then t else NO_PTE) }

  // What directory A maps at page v.
  function PageOfA(v: nat): Pte { if v == 0 then SHARED else if v == PTRS then OWN else NO_PTE }

  function Blank(): seq<Byte> { seq(PAGE_SIZE, i => 0) }

  function FrameAt(i: int): Frame {
    if i == A then Dir(DirA()) else if i == B then Dir(DirB())
    else if i == A0 || i == B0 then Table(OnePage(SHARED)) else if i == A1 then Table(OnePage(OWN))
    else Data(Blank())
  }

  function Example(): (m: Mem)
    ensures Sized(m)
  {
    Mem(Pmm(seq(N, i => i < 263), seq(N, i => if i == D then 2 else if A <= i <= D1 then 1 else 0), 2, FIRST_FRAME),
        seq(N, i => FrameAt(i)))
  }

  lemma Tables(p: nat)
    requires p < PTRS
    ensures TableAt(Example(), A, p) == if p == 0 then Some(A0) else if p == 1 then Some(A1) else None
    ensures TableAt(Example(), B, p) == if p == 0 then Some(B0) else None
    ensures DirA()[p].present <==> p == 0 || p == 1
    ensures DirB()[p].present <==> p == 0
  {
    var m := Example();
    Frames();
    assert m.frames[A].pdes[p] == if p == 0 then Hang(A0) else if p == 1 then Hang(A1) else NO_PDE;
    assert m.frames[B].pdes[p] == if p == 0 then Hang(B0) else NO_PDE;
  }

  lemma Frames()
    ensures var m := Example();
            && |m.frames| == N && m.frames[A] == Dir(DirA()) && m.frames[B] == Dir(DirB())
            && m.frames[A0] == Table(OnePage(SHARED)) && m.frames[A1] == Table(OnePage(OWN))
            && m.frames[B0] == Table(OnePage(SHARED))
  {
  }

  lemma Ptes(v: nat)
    requires v < USER_VPNS
    ensures PteAt(Example(), A, v) == PageOfA(v)
    ensures PteAt(Example(), B, v) == if v == 0 then SHARED else NO_PTE
  {
    hide TableAt;
    Tables(v / PTRS);
    var m := Example();
    Frames();
    assert v / PTRS == 0 && v % PTRS == 0 <==> v == 0;
    assert v / PTRS == 1 && v % PTRS == 0 <==> v == PTRS;
  }

  ghost function Three(): Entries { map[Key(A, 0) := SHARED, Key(B, 0) := SHARED, Key(A, PTRS) := OWN] }

  lemma Entries3()
    ensures EntriesOf(Example(), {A, B}) == Three()
  {
    hide PteAt, Example;
    var e := EntriesOf(Example(), {A, B});
    forall k: Key | k in e ensures k in Three() && e[k] == Three()[k] {
      EntryKeys(Example(), {A, B}, k);
      Ptes(k.vpn);
    }
    Ptes(0);
    Ptes(PTRS);
    EntryIn(Example(), {A, B}, A, 0);
    EntryIn(Example(), {A, B}, B, 0);
    EntryIn(Example(), {A, B}, A, PTRS);
  }

  lemma Shares(f: nat)
    ensures Sharers(Three(), f) == if f == D then {Key(A, 0), Key(B, 0)} else if f == D1 then {Key(A, PTRS)} else {}
    ensures |{Key(A, 0), Key(B, 0)}| == 2
  {
  }

  lemma ExampleStructure()
    ensures Structure(Example(), {A, B})
  {
    hide TableAt;
    var m := Example();
    forall p: nat | p < USER_PDIS
      ensures TableAt(m, A, p).Some? <==> m.frames[A].pdes[p].present
      ensures TableAt(m, B, p).Some? <==> m.frames[B].pdes[p].present
      ensures TableAt(m, A, p).Some? ==> TableAt(m, A, p).value < D
      ensures TableAt(m, B, p).Some? ==> TableAt(m, B, p).value < D
    {
      Frames();
      Tables(p);
      assert m.frames[A].pdes[p] == DirA()[p] && m.frames[B].pdes[p] == DirB()[p];
    }
    forall pd: nat, p: nat, qd: nat, q: nat
      | pd in {A, B} && p < USER_PDIS && TableAt(m, pd, p).Some? && qd in {A, B} && q < USER_PDIS
        && TableAt(m, qd, q) == TableAt(m, pd, p)
      ensures pd == qd && p == q
    {
      Tables(p);
      Tables(q);
    }
  }

  lemma ExampleInv()
    ensures Inv(Example(), {A, B})
    ensures Headroom(EntriesOf(Example(), {A, B}), A)
  {
    hide Structure, EntriesOf, PteAt, Sharers, VpnsBelow;
    ExampleStructure();
    Entries3();
    var m := Example();
    assert ClearSet(m.pmm.bitmap) == {263, 264};
    assert Consistent(m.pmm);
    Shares(D);
    Shares(D1);
    assert m.frames[D] == Data(Blank()) && m.frames[D1] == Data(Blank());
    forall f ensures |Sharers(Three(), f)| + |VpnsBelow(Three(), A, f, USER_VPNS)| <= REF_SATURATION {
      FewShares(f);
    }
  }

  lemma FewShares(f: nat)
    ensures |Sharers(Three(), f)| + |VpnsBelow(Three(), A, f, USER_VPNS)| <= 3
  {
    Shares(f);
    var vs := VpnsBelow(Three(), A, f, USER_VPNS);
    assert vs <= if f == D then {0} else {PTRS};
    Monotone(vs, if f == D then {0} else {PTRS});
  }

  // Cloning A fails at its second table; A can then write page 0 directly, and B, which shares
  // it, reads what A wrote.
  lemma FailedCloneExample(off: nat, val: Byte)
    requires off < PAGE_SIZE
    ensures CloneSpace(Example(), A).child.None?
    ensures var r := Store(CloneSpace(Example(), A).m, A, 0, off, val);
            r.result == Done && ReadByte(r.m, B, 0, off) == Some(val)
  {
    hide Inv, Headroom, EntriesOf, CloneSpace, PteAt, TableAt, Store, FailPoint;
    ExampleInv();
    var m := Example();
    OutOfFrames(m);
    CloneNeeds(m, {A, B}, A);
    var at := FailPoint(m, A);
    SlotBelow(at);
    Ptes(0);
    assert IsDir(m, A) && m.frames[A].pdes[0] == Hang(A0);
    assert SharedCow(m, {A, B}, A, 0, B, 0);
    FailedCloneLeaks(m, {A, B}, A, 0, B, 0, off, val);
  }

  lemma OutOfFrames(m: Mem)
    requires m == Example()
    ensures Allocable(m.pmm) == {263, 264} && |Allocable(m.pmm)| == 2
    ensures |TableSlots(m, A, USER_PDIS)| == 2
  {
    hide TableAt;
    assert Allocable(m.pmm) == {263, 264};
    var ts := TableSlots(m, A, USER_PDIS);
    forall p: nat | p < USER_PDIS ensures p in ts <==> p in {0, 1} { Tables(p); }
    assert ts == {0, 1};
  }

  // If one table slot lies below at, then at is not 0.
  lemma SlotBelow(at: nat)
    requires |TableSlots(Example(), A, at)| == 1
    ensures at >= 1
  {
    NoneBelowZero();
  }

  lemma NoneBelowZero()
    ensures TableSlots(Example(), A, 0) == {}
  {
  }

  // ---- mapping over a page ----

  // A once B is destroyed: its pages are still D and D1.
  lemma AfterDestroy()
    ensures var m := DestroySpace(Example(), B, A, A);
            && Inv(m, {A}) && Sized(m) && IsDir(m, A) && m.pmm.bitmap[A] && TableAt(m, A, 0).Some?
            && |m.pmm.bitmap| == N && !m.pmm.bitmap[263]
            && (forall v: nat | v < USER_VPNS :: PteAt(m, A, v) == PageOfA(v))
  {
    hide Inv, EntriesOf, PteAt, TableAt, Example, Returned, Structure, DestroyInv, DestroyFrees;
    ExampleInv();
    var m0 := Example();
    var d := DestroyDirs(m0, B, USER_PDIS);
    var m := DestroySpace(m0, B, A, A);
    DestroyRefines(m0, {A, B}, B, A, A);
    assert {A, B} - {B} == {A};
    DestroyDirsInv(m0, {A, B}, B, USER_PDIS);
    DestroySizes(m0, {A, B}, B, d);
    Bystander(m0, {A, B}, B, d, A);
    Tables(0);
    SameFrames(d, m, A, 0);
    forall v: nat | v < USER_VPNS ensures PteAt(m, A, v) == PageOfA(v) {
      SamePtes(d, m, A, v);
      Ptes(v);
    }
    StillLive(m);
    SizeAndFree(m);
  }

  lemma StillLive(m: Mem)
    requires Inv(m, {A})
    ensures Sized(m) && IsDir(m, A) && m.pmm.bitmap[A]
  {
    hide EntriesOf;
    assert A in {A};
  }

  lemma SizeAndFree(m: Mem)
    requires UsedSet(m.pmm.bitmap) <= UsedSet(Example().pmm.bitmap) && |m.frames| == N && Sized(m)
    ensures |m.pmm.bitmap| == N && !m.pmm.bitmap[263]
  {
    assert 263 !in UsedSet(Example().pmm.bitmap);
  }

  lemma SamePtes(m: Mem, m': Mem, pd: nat, v: nat)
    requires m.frames == m'.frames
    ensures PteAt(m, pd, v) == PteAt(m', pd, v)
  {
    SameFrames(m, m', pd, v / PTRS);
  }

  lemma TwoEntriesLeft(m: Mem)
    requires forall v: nat | v < USER_VPNS :: PteAt(m, A, v) == PageOfA(v)
    ensures EntriesOf(m, {A}) == map[Key(A, 0) := SHARED, Key(A, PTRS) := OWN]
  {
    hide PteAt;
    var e := EntriesOf(m, {A});
    forall k: Key | k in e ensures k == Key(A, k.vpn) && (k.vpn == 0 || k.vpn == PTRS) && e[k] == PageOfA(k.vpn) {
      EntryKeys(m, {A}, k);
    }
    EntryIn(m, {A}, A, 0);
    EntryIn(m, {A}, A, PTRS);
  }

  // Mapping page 0 again then succeeds, and D stays marked as used with count 1 and no entry:
  // nothing will ever free it.
  lemma MapOverExample()
    ensures var m := DestroySpace(Example(), B, A, A);
            && Sized(m) && IsDir(m, A) && m.pmm.bitmap[A]
            && var r := MapUserPage(m, A, 0);
               && r.ok && D < |r.m.pmm.bitmap| && r.m.pmm.bitmap[D] && r.m.pmm.refcnt[D] == 1
               && Sharers(EntriesOf(r.m, {A}), D) == {}
  {
    hide Inv, EntriesOf, PteAt, TableAt, DestroySpace, MapUserPage, Example, OneEntry;
    AfterDestroy();
    var m := DestroySpace(Example(), B, A, A);
    assert 263 in Allocable(m.pmm);
    MapNeeds(m, {A}, A, 0);
    MapInv(m, {A}, A, 0);
    MapLedger(m, {A}, A, 0);
    var t := Pte(true, AllocPage(m.pmm).frame.value, true, true, false, 0);
    var m' := MapUserPage(m, A, 0).m;
    TwoEntriesLeft(m);
    EntriesUpdate(m, m', {A}, Key(A, 0), t);
    DataInUse(m);
    assert EntriesOf(m', {A}) == map[Key(A, 0) := t, Key(A, PTRS) := OWN];
  }

  lemma DataInUse(m: Mem)
    requires Inv(m, {A}) && EntriesOf(m, {A}) == map[Key(A, 0) := SHARED, Key(A, PTRS) := OWN]
    ensures D < |m.pmm.bitmap| && m.pmm.bitmap[D]
  {
    hide EntriesOf, Structure;
    assert Key(A, 0) in EntriesOf(m, {A});
  }

  // ---- saturation ----

  // The first page of each of n directories.
  ghost function Crowd(n: nat): set<Key> {
    set i: nat | i < n :: Key(i, 0)
  }

  lemma {:induction false} CrowdSize(n: nat)
    ensures |Crowd(n)| == n
  {
    if n == 0 {
      assert Crowd(0) == {};
    } else {
      CrowdSize(n - 1);
      assert Crowd(n) == Crowd(n - 1) + {Key(n - 1, 0)};
    }
  }

  // A frame that 250 directories map has an exact count; sharing it once more makes it inexact.
  lemma SaturationExample()
    ensures var p := Pmm([true], [250], 0, 0);
            var e: Entries := map k | k in Crowd(250) :: SHARED.(frame := 0);
            && Key(0, 0) in e && Key(250, 0) !in e && Accounts(p, e)
            && !Accounts(RefInc(p, 0),
                         e[Key(0, 0) := ParentEntry(e[Key(0, 0)])][Key(250, 0) := ChildEntry(e[Key(0, 0)])])
  {
    hide Crowd;
    var p := Pmm([true], [250], 0, 0);
    var e: Entries := map k | k in Crowd(250) :: SHARED.(frame := 0);
    CrowdSize(250);
    CrowdHas(250);
    assert Sharers(e, 0) == Crowd(250);
    assert ClearSet(p.bitmap) == {};
    assert Accounts(p, e);
    ShareExact(p, e, Key(0, 0), Key(250, 0));
  }

  lemma CrowdHas(n: nat)
    requires n > 0
    ensures Key(0, 0) in Crowd(n) && Key(n, 0) !in Crowd(n)
  {
  }
}
