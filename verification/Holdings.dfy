// Who holds each frame in use: the kernel itself (boot memory, stacks, buffers), a live
// directory, one of its tables, or the entries that map it.  No frame is held by nobody.
module Holdings {
  import opened Basics
  import opened Pmm
  import opened Ledger
  import opened AddressSpace
  import opened Spaces
  import opened CloneProof

  function UsedSet(bitmap: seq<bool>): set<nat> {
    set i: nat | i < |bitmap| && bitmap[i]
  }

  ghost function TablesOf(m: Mem, live: set<nat>): set<nat> {
    set pd, p: nat | pd in live && p < USER_PDIS && TableAt(m, pd, p).Some? :: TableAt(m, pd, p).value
  }

  // The frames the live address spaces consist of.
  ghost function InUse(m: Mem, live: set<nat>): set<nat> {
    live + TablesOf(m, live) + FramesOf(EntriesOf(m, live))
  }

  // The frames marked as used are exactly the kernel's own and those of the live spaces.
  ghost predicate Owned(m: Mem, live: set<nat>, held: set<nat>) {
    held !! InUse(m, live) && UsedSet(m.pmm.bitmap) == held + InUse(m, live)
  }

  // ---- what Owned means ----

  lemma NamedFrames(e: Entries, f: nat)
    ensures f in FramesOf(e) <==> Sharers(e, f) != {}
  {
    Named(e, f);
  }

  // Every frame that is not the kernel's, a directory or a table has exactly its count of
  // entries, and is marked as used if and only if it has one.
  lemma CountsExact(m: Mem, live: set<nat>, held: set<nat>, f: nat)
    requires Inv(m, live) && Owned(m, live, held) && f < |m.pmm.bitmap|
    requires f !in held && f !in live && f !in TablesOf(m, live)
    ensures Sized(m) && m.pmm.refcnt[f] == |Sharers(EntriesOf(m, live), f)|
    ensures m.pmm.bitmap[f] <==> Sharers(EntriesOf(m, live), f) != {}
  {
    hide EntriesOf, TablesOf, Exclusive, MapsData, CowEncoded;
    var e := EntriesOf(m, live);
    NamedFrames(e, f);
    assert f in UsedSet(m.pmm.bitmap) <==> m.pmm.bitmap[f];
    if Sharers(e, f) != {} {
      var k :| k in Sharers(e, f);
    }
  }

  // The three kinds of frames a space consists of are distinct.
  lemma KindsApart(m: Mem, live: set<nat>)
    requires Inv(m, live)
    ensures live !! TablesOf(m, live)
    ensures live !! FramesOf(EntriesOf(m, live))
    ensures TablesOf(m, live) !! FramesOf(EntriesOf(m, live))
  {
    hide EntriesOf, Accounts, Exclusive, CowEncoded;
    forall f | f in TablesOf(m, live) ensures f < |m.frames| && m.frames[f].Table? {}
    forall f | f in FramesOf(EntriesOf(m, live)) ensures f < |m.frames| && m.frames[f].Data? {}
    forall f | f in live ensures f < |m.frames| && m.frames[f].Dir? {}
  }

  lemma Counted(bitmap: seq<bool>)
    ensures |UsedSet(bitmap)| + |ClearSet(bitmap)| == |bitmap|
  {
    hide Below;
    assert UsedSet(bitmap) + ClearSet(bitmap) == Below(|bitmap|);
    assert UsedSet(bitmap) !! ClearSet(bitmap);
  }

  // The memory equation: free pages, the kernel's, directories, tables and mapped frames add
  // up to the managed pages.
  lemma MemoryEquation(m: Mem, live: set<nat>, held: set<nat>)
    requires Inv(m, live) && Owned(m, live, held)
    ensures m.pmm.free + |held| + |live| + |TablesOf(m, live)| + |FramesOf(EntriesOf(m, live))| == |m.pmm.bitmap|
  {
    hide EntriesOf, TablesOf, FramesOf, Exclusive, CowEncoded, MapsData, Structure;
    KindsApart(m, live);
    Counted(m.pmm.bitmap);
    assert |live + TablesOf(m, live)| == |live| + |TablesOf(m, live)|;
    assert |InUse(m, live)| == |live + TablesOf(m, live)| + |FramesOf(EntriesOf(m, live))|;
    assert |held + InUse(m, live)| == |held| + |InUse(m, live)|;
  }

  // ---- once per directory ----

  ghost function Directories(s: set<Key>): set<nat> {
    set k | k in s :: k.pd
  }

  lemma {:induction false} OnePerDirectory(s: set<Key>)
    requires forall j, k | j in s && k in s && j.pd == k.pd :: j == k
    ensures |Directories(s)| == |s|
  {
    if s == {} {
      assert Directories(s) == {};
    } else {
      var k :| k in s;
      OnePerDirectory(s - {k});
      assert Directories(s) == Directories(s - {k}) + {k.pd};
    }
  }

  // With fewer than 250 spaces, no count can reach the saturation value by a clone.
  lemma RoomToClone(m: Mem, live: set<nat>, parent: nat)
    requires Once(EntriesOf(m, live)) && |live| < REF_SATURATION
    ensures Headroom(EntriesOf(m, live), parent)
  {
    hide EntriesOf;
    var e := EntriesOf(m, live);
    forall f ensures |Sharers(e, f)| + |VpnsBelow(e, parent, f, USER_VPNS)| <= REF_SATURATION {
      var s := Sharers(e, f);
      OnePerDirectory(s);
      forall k | k in s ensures k.pd in live { EntryKeys(m, live, k); }
      Monotone(Directories(s), live);
      AtMostOne(e, parent, f);
    }
  }

  lemma AtMostOne(e: Entries, p: nat, f: nat)
    requires Once(e)
    ensures |VpnsBelow(e, p, f, USER_VPNS)| <= 1
  {
    var vs := VpnsBelow(e, p, f, USER_VPNS);
    if vs != {} {
      var v :| v in vs;
      forall w | w in vs ensures w == v { assert Key(p, w) == Key(p, v); }
      assert vs == {v};
    }
  }
}
