// How much memory a clone needs: one frame for the directory and one per table.
module CloneMemory {
  import opened Pmm
  import opened Ledger
  import opened AddressSpace
  import opened Spaces
  import opened CloneProof
  import opened CloneSpaceProof
  import opened RollbackTheorem

  ghost function Allocable(p: Pmm): set<nat> {
    set i: nat | FIRST_FRAME <= i < |p.bitmap| && !p.bitmap[i]
  }

  ghost function TableSlots(m: Mem, pd: nat, i: nat): set<nat> {
    set p: nat | p < i && TableAt(m, pd, p).Some?
  }

  lemma AllocTakesOne(p: Pmm)
    requires Consistent(p)
    ensures AllocPage(p).frame.None? <==> Allocable(p) == {}
    ensures AllocPage(p).frame.Some? ==> |Allocable(AllocPage(p).pmm)| == |Allocable(p)| - 1
  {
    AllocSpec(p);
    var r := AllocPage(p);
    if r.frame.Some? {
      assert r.frame.value in Allocable(p);
      assert Allocable(r.pmm) == Allocable(p) - {r.frame.value};
    }
  }

  lemma SlotStep(m: Mem, pd: nat, i: nat)
    ensures |TableSlots(m, pd, i + 1)| == |TableSlots(m, pd, i)| + if TableAt(m, pd, i).Some? then 1 else 0
  {
    if TableAt(m, pd, i).Some? {
      assert TableSlots(m, pd, i + 1) == TableSlots(m, pd, i) + {i};
    } else {
      assert TableSlots(m, pd, i + 1) == TableSlots(m, pd, i);
    }
  }

  lemma CloneDirMemory(m: Mem, parent: nat, c: nat, p: nat)
    requires Sized(m) && IsDir(m, c) && m.pmm.bitmap[c] && p < USER_PDIS && Consistent(m.pmm)
    ensures var r := CloneDir(m, parent, c, p);
            && (r.oom <==> TableAt(m, parent, p).Some? && Allocable(m.pmm) == {})
            && (!r.oom ==> |Allocable(r.m.pmm)| == |Allocable(m.pmm)| - if TableAt(m, parent, p).Some? then 1 else 0)
  {
    AllocTakesOne(m.pmm);
    var a := AllocPage(m.pmm);
    if TableAt(m, parent, p).Some? && a.frame.Some? {
      assert Allocable(CloneDir(m, parent, c, p).m.pmm) == Allocable(a.pmm);
    }
  }

  lemma {:induction false} CloneDirsMemory(m0: Mem, live: set<nat>, parent: nat, i: nat)
    requires Inv(m0, live) && parent in live && Headroom(EntriesOf(m0, live), parent) && i <= USER_PDIS
    requires AllocPage(m0.pmm).frame.Some?
    ensures var a := AllocPage(m0.pmm);
            var c := a.frame.value;
            var r := CloneDirs(Mem(a.pmm, m0.frames[c := EmptyDir()]), parent, c, i);
            && (!r.oom ==> |Allocable(r.m.pmm)| + 1 + |TableSlots(m0, parent, i)| == |Allocable(m0.pmm)|)
            && (r.oom ==> TableAt(m0, parent, r.at).Some? && 1 + |TableSlots(m0, parent, r.at)| == |Allocable(m0.pmm)|)
  {
    hide Exclusive, Headroom, Outside, ParentDone, ChildDone, MapsData, EntriesOf, CloneMap, TableAt, AllocPage,
         CloneDir, Allocable, CowEncoded, Sharers;
    AllocTakesOne(m0.pmm);
    var a := AllocPage(m0.pmm);
    var c := a.frame.value;
    var start := Mem(a.pmm, m0.frames[c := EmptyDir()]);
    if i == 0 {
      assert TableSlots(m0, parent, 0) == {};
    } else {
      CloneDirsMemory(m0, live, parent, i - 1);
      CloneDirsInv(m0, live, parent, i - 1);
      var r := CloneDirs(start, parent, c, i - 1);
      if !r.oom {
        SlotStep(m0, parent, i - 1);
        ParentDirUntouched(m0, live, r.m, parent, i - 1);
        CloneDirMemory(r.m, parent, c, i - 1);
        CloneInvStep(m0, live, parent, c, r.m, i - 1);
      }
    }
  }

  lemma SlotsGrow(m: Mem, pd: nat, i: nat, j: nat)
    requires i < j && TableAt(m, pd, i).Some?
    ensures |TableSlots(m, pd, i)| < |TableSlots(m, pd, j)|
  {
    assert i in TableSlots(m, pd, j);
    assert TableSlots(m, pd, i) <= TableSlots(m, pd, j) - {i};
    Monotone(TableSlots(m, pd, i), TableSlots(m, pd, j) - {i});
  }

  // A clone succeeds exactly when there are enough frames; otherwise it stops at the
  // slot whose table is the first one there is no frame for.
  lemma CloneNeeds(m0: Mem, live: set<nat>, parent: nat)
    requires Inv(m0, live) && parent in live && Headroom(EntriesOf(m0, live), parent)
    ensures CloneSpace(m0, parent).child.Some? <==>
            |Allocable(m0.pmm)| >= 1 + |TableSlots(m0, parent, USER_PDIS)|
    ensures CloneSpace(m0, parent).child.None? && Allocable(m0.pmm) != {} ==>
              && TableAt(m0, parent, FailPoint(m0, parent)).Some?
              && 1 + |TableSlots(m0, parent, FailPoint(m0, parent))| == |Allocable(m0.pmm)|
  {
    hide Exclusive, Headroom, MapsData, EntriesOf, TableAt, CowEncoded, Sharers, Allocable, CloneDirs;
    ParentNotZero(m0, live, parent);
    AllocTakesOne(m0.pmm);
    if AllocPage(m0.pmm).frame.Some? {
      CloneDirsMemory(m0, live, parent, USER_PDIS);
      var at := FailPoint(m0, parent);
      if at < USER_PDIS && TableAt(m0, parent, at).Some? { SlotsGrow(m0, parent, at, USER_PDIS); }
    }
  }
}
