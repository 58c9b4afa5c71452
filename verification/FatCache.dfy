// The 64-slot cache in front of the file allocation table (fs/fat16.c).
module FatCache {
  import opened Basics
  import opened SeqNum

  const SLOTS: nat := 64
  const SECTOR: nat := 512
  const FAT_BAD: nat := 0xFFF7
  const EOF_MIN: nat := 0xFFF8

  type Sector = s: seq<Byte> | |s| == SECTOR witness seq(SECTOR, i => 0)

  datatype Slot = Slot(valid: bool, sec: nat, tick: U32, data: Sector)

  datatype Cache = Cache(slots: seq<Slot>, clock: U32)

  // What the block device does when asked: deliver the sector, or fail and leave something in
  // the buffer.
  datatype Reading = Good | Bad(left: Sector)

  type Disk = nat -> Sector

  // The cache after mounting.
  function Cold(): Cache {
    Cache(seq(SLOTS, i => Slot(false, 0, 0, seq(SECTOR, j => 0))), 0)
  }

  datatype Found = Hit(i: nat) | Miss(victim: nat)

  // The loop of fat_sector from slot i on, with the best victim so far (or none) and its tick.
  function Look(slots: seq<Slot>, rel: nat, i: nat, victim: Option<nat>, oldest: U32): (r: Found)
    requires i <= |slots|
    decreases |slots| - i
  {
    if i == |slots| then Miss(if victim.Some? then victim.value else 0)
    else if slots[i].valid && slots[i].sec == rel then Hit(i)
    else if !slots[i].valid then Miss(i)
    else if slots[i].tick < oldest then Look(slots, rel, i + 1, Some(i), slots[i].tick)
    else Look(slots, rel, i + 1, victim, oldest)
  }

  function Lookup(c: Cache, rel: nat): Found {
    Look(c.slots, rel, 0, None, MOD - 1)
  }

  datatype Fetched = Fetched(c: Cache, data: Option<Sector>)

  // fat_sector
  function Fetch(c: Cache, disk: Disk, rel: nat, reading: Reading): (r: Fetched)
    requires |c.slots| == SLOTS
    ensures |r.c.slots| == SLOTS
  {
    LookIn(c.slots, rel, 0, None, MOD - 1);
    match Lookup(c, rel)
    case Hit(i) =>
      var now := Plus(c.clock, 1);
      Fetched(Cache(c.slots[i := c.slots[i].(tick := now)], now), Some(c.slots[i].data))
    case Miss(v) =>
      match reading
      case Bad(left) => Fetched(c.(slots := c.slots[v := c.slots[v].(data := left)]), None)
      case Good =>
        var now := Plus(c.clock, 1);
        Fetched(Cache(c.slots[v := Slot(true, rel, now, disk(rel))], now), Some(disk(rel)))
  }

  lemma LookIn(slots: seq<Slot>, rel: nat, i: nat, victim: Option<nat>, oldest: U32)
    requires i <= |slots| && 0 < |slots| && (victim.Some? ==> victim.value < |slots|)
    ensures match Look(slots, rel, i, victim, oldest) case Hit(h) => h < |slots| case Miss(v) => v < |slots|
    decreases |slots| - i
  {
    if i < |slots| && slots[i].valid && slots[i].sec != rel {
      LookIn(slots, rel, i + 1, if slots[i].tick < oldest then Some(i) else victim,
             if slots[i].tick < oldest then slots[i].tick else oldest);
    }
  }

  function Le16(s: Sector, off: nat): nat
    requires off + 1 < SECTOR
  {
    var low: int, high: int := s[off], s[off + 1];
    low + 256 * high
  }

  predicate Ordinary(clu: nat) { 2 <= clu < FAT_BAD }

  // fat_next
  datatype Next = Next(c: Cache, value: nat)

  function FatNext(c: Cache, disk: Disk, clu: nat, reading: Reading): (r: Next)
    requires |c.slots| == SLOTS
    ensures |r.c.slots| == SLOTS
  {
    if !Ordinary(clu) then Next(c, EOF_MIN)
    else
      var f := Fetch(c, disk, clu * 2 / SECTOR, reading);
      Next(f.c, match f.data case Some(s) => Le16(s, clu * 2 % SECTOR) case None => EOF_MIN)
  }

  // The same without a cache, from a disk that does not fail.
  function Uncached(disk: Disk, clu: nat): nat {
    if !Ordinary(clu) then EOF_MIN else Le16(disk(clu * 2 / SECTOR), clu * 2 % SECTOR)
  }

  // ---- transparency ----

  // The valid slots come first and hold different sectors, each as it is on disk.
  ghost predicate Coherent(c: Cache, disk: Disk) {
    && |c.slots| == SLOTS
    && (forall i: nat, j: nat | i < j < SLOTS && c.slots[j].valid ::
          c.slots[i].valid && c.slots[i].sec != c.slots[j].sec)
    && (forall i: nat | i < SLOTS && c.slots[i].valid :: c.slots[i].data == disk(c.slots[i].sec))
  }

  lemma {:induction false} LookMeans(slots: seq<Slot>, rel: nat, i: nat, victim: Option<nat>, oldest: U32)
    requires i <= |slots| && forall k: nat | k < i :: slots[k].valid && slots[k].sec != rel
    requires victim.Some? ==> victim.value < i
    requires 0 < |slots|
    ensures match Look(slots, rel, i, victim, oldest)
            case Hit(h) => h < |slots| && slots[h].valid && slots[h].sec == rel
            case Miss(v) =>
              && v < |slots|
              && (if slots[v].valid then forall k: nat | k < |slots| :: slots[k].valid && slots[k].sec != rel
                  else forall k: nat | k < v :: slots[k].valid && slots[k].sec != rel)
    decreases |slots| - i
  {
    if i < |slots| && slots[i].valid && slots[i].sec != rel {
      LookMeans(slots, rel, i + 1, if slots[i].tick < oldest then Some(i) else victim,
                if slots[i].tick < oldest then slots[i].tick else oldest);
    }
  }

  // A failed read leaves the cache right exactly when the buffer it was reading into was not
  // in use or kept its contents.
  predicate Harmless(c: Cache, rel: nat, reading: Reading)
    requires |c.slots| == SLOTS
  {
    reading.Good? || (
      LookIn(c.slots, rel, 0, None, MOD - 1);
      match Lookup(c, rel)
      case Hit(i) => true
      case Miss(v) => c.slots[v].valid ==> reading.left == c.slots[v].data)
  }

  lemma FetchCoherent(c: Cache, disk: Disk, rel: nat, reading: Reading)
    requires Coherent(c, disk)
    ensures Coherent(Fetch(c, disk, rel, reading).c, disk) <==> Harmless(c, rel, reading)
    ensures Fetch(c, disk, rel, reading).data.Some? ==> Fetch(c, disk, rel, reading).data.value == disk(rel)
    ensures Fetch(c, disk, rel, reading).data.None? <==> Lookup(c, rel).Miss? && reading.Bad?
  {
    hide Look;
    LookMeans(c.slots, rel, 0, None, MOD - 1);
    var r := Fetch(c, disk, rel, reading).c;
    if Lookup(c, rel).Miss? && reading.Bad? {
      var v := Lookup(c, rel).victim;
      assert r.slots[v].data == reading.left && r.slots[v].sec == c.slots[v].sec;
    }
  }

  // ---- runs ----

  datatype Ask = Ask(clu: nat, reading: Reading)

  function CacheAfter(c: Cache, disk: Disk, asks: seq<Ask>): (r: Cache)
    requires |c.slots| == SLOTS
    ensures |r.slots| == SLOTS
  {
    if asks == [] then c
    else var n := |asks| - 1; FatNext(CacheAfter(c, disk, asks[..n]), disk, asks[n].clu, asks[n].reading).c
  }

  // Every call that reaches the device and fails there is harmless; the others may say anything.
  ghost predicate AllHarmless(c: Cache, disk: Disk, asks: seq<Ask>)
    requires |c.slots| == SLOTS
  {
    asks == [] || (
      var n := |asks| - 1;
      && AllHarmless(c, disk, asks[..n])
      && (Ordinary(asks[n].clu) ==>
            Harmless(CacheAfter(c, disk, asks[..n]), asks[n].clu * 2 / SECTOR, asks[n].reading)))
  }

  lemma {:induction false} RunCoherent(disk: Disk, asks: seq<Ask>)
    requires AllHarmless(Cold(), disk, asks)
    ensures Coherent(CacheAfter(Cold(), disk, asks), disk)
  {
    hide Fetch, Harmless;
    if asks != [] {
      var n := |asks| - 1;
      RunCoherent(disk, asks[..n]);
      FetchCoherent(CacheAfter(Cold(), disk, asks[..n]), disk, asks[n].clu * 2 / SECTOR, asks[n].reading);
    }
  }

  // After any calls since mounting whose failed reads were harmless, fat_next answers what an
  // uncached read of the table would, or end-of-chain when the sector was not cached and reading
  // it failed.
  lemma Transparent(disk: Disk, asks: seq<Ask>, clu: nat, reading: Reading)
    requires AllHarmless(Cold(), disk, asks)
    ensures var c := CacheAfter(Cold(), disk, asks);
            FatNext(c, disk, clu, reading).value ==
            if Ordinary(clu) && Lookup(c, clu * 2 / SECTOR).Miss? && reading.Bad? then EOF_MIN else Uncached(disk, clu)
  {
    hide Fetch, CacheAfter, AllHarmless, Lookup;
    RunCoherent(disk, asks);
    FetchCoherent(CacheAfter(Cold(), disk, asks), disk, clu * 2 / SECTOR, reading);
  }

  // ---- failed reads that do harm ----

  // After a failed read of sector rel into a used slot, a cluster is answered as before unless
  // it is one of that slot's sector, and then from whatever the device left there.
  lemma AfterBadRead(c: Cache, disk: Disk, rel: nat, left: Sector, clu: nat, reading: Reading)
    requires Coherent(c, disk) && Lookup(c, rel).Miss? && Ordinary(clu)
    requires (LookIn(c.slots, rel, 0, None, MOD - 1); c.slots[Lookup(c, rel).victim].valid)
    requires Lookup(c, clu * 2 / SECTOR).Hit?
    ensures var v := c.slots[Lookup(c, rel).victim];
            FatNext(Fetch(c, disk, rel, Bad(left)).c, disk, clu, reading).value ==
            if v.sec == clu * 2 / SECTOR then Le16(left, clu * 2 % SECTOR) else Uncached(disk, clu)
  {
    hide Look, Le16;
    var w := Lookup(c, rel).victim;
    var d := Fetch(c, disk, rel, Bad(left)).c;
    LookMeans(c.slots, rel, 0, None, MOD - 1);
    LookMeans(c.slots, clu * 2 / SECTOR, 0, None, MOD - 1);
    SameLook(c.slots, d.slots, clu * 2 / SECTOR, 0, None, MOD - 1);
    var h := Lookup(c, clu * 2 / SECTOR).i;
    assert d.slots[h] == if h == w then c.slots[h].(data := left) else c.slots[h];
  }

  // The search does not look at the data.
  lemma {:induction false} SameLook(a: seq<Slot>, b: seq<Slot>, rel: nat, i: nat, victim: Option<nat>, oldest: U32)
    requires |a| == |b| && i <= |a| && forall k: nat | k < |a| :: b[k] == a[k].(data := b[k].data)
    ensures Look(a, rel, i, victim, oldest) == Look(b, rel, i, victim, oldest)
    decreases |a| - i
  {
    if i < |a| && a[i].valid && a[i].sec != rel {
      SameLook(a, b, rel, i + 1, if a[i].tick < oldest then Some(i) else victim,
               if a[i].tick < oldest then a[i].tick else oldest);
    }
  }
}
