// A run in which a failed sector read poisons the full FAT cache.
module FatExample {
  import opened Basics
  import opened SeqNum
  import opened FatCache

  // A table of zeros, and what a failing device leaves in the buffer.
  const ZEROS: Sector := seq(SECTOR, i => 0)
  const NOISE: Sector := seq(SECTOR, i => 1)

  const DISK: Disk := (sec: nat) => ZEROS

  // The first ordinary cluster of sector n.
  function First(n: nat): nat { n * 256 + 2 }

  lemma FirstOf(n: nat)
    requires n <= SLOTS
    ensures Ordinary(First(n)) && First(n) * 2 / SECTOR == n && First(n) * 2 % SECTOR == 4
  {
    assert First(n) * 2 == n * SECTOR + 4;
  }

  function Walk(n: nat): seq<Ask> {
    seq(n, i requires 0 <= i => Ask(First(i), Good))
  }

  // The cache once the first n sectors have been read.
  function Filled(n: nat): (c: Cache)
    requires n <= SLOTS
    ensures |c.slots| == SLOTS
  {
    Cache(seq(SLOTS, i => if 0 <= i < n then Slot(true, i, i + 1, ZEROS) else Slot(false, 0, 0, ZEROS)), n)
  }

  lemma {:induction false} LookNew(n: nat, i: nat, victim: Option<nat>, oldest: U32)
    requires i <= n <= SLOTS && oldest <= MOD - 1
    requires if i == 0 then victim == None && oldest == MOD - 1 else victim == Some(0) && oldest == 1
    ensures Look(Filled(n).slots, n, i, victim, oldest) == if n < SLOTS then Miss(n) else Miss(0)
    decreases n - i
  {
    if i < n { LookNew(n, i + 1, Some(0), 1); }
  }

  lemma {:induction false} WalkFills(n: nat)
    requires n <= SLOTS
    ensures CacheAfter(Cold(), DISK, Walk(n)) == Filled(n) && AllHarmless(Cold(), DISK, Walk(n))
  {
    hide Look;
    if n == 0 {
      assert Cold().slots == Filled(0).slots;
    } else {
      WalkFills(n - 1);
      assert Walk(n)[..n - 1] == Walk(n - 1);
      assert Walk(n)[n - 1] == Ask(First(n - 1), Good);
      FirstOf(n - 1);
      LookNew(n - 1, 0, None, MOD - 1);
      FillOne(n - 1);
    }
  }

  lemma FillOne(n: nat)
    requires n < SLOTS && Lookup(Filled(n), n) == Miss(n)
    ensures Fetch(Filled(n), DISK, n, Good).c == Filled(n + 1)
  {
    hide Look;
    assert Filled(n).slots[n := Slot(true, n, n + 1, ZEROS)] == Filled(n + 1).slots;
  }

  lemma ZeroFound()
    ensures Look(Filled(SLOTS).slots, 0, 0, None, MOD - 1) == Hit(0)
  {
  }

  // 64 sectors are read, then the 65th fails and leaves noise: the slot of sector 0 is the one
  // it was to replace.  The next question about cluster 2 is answered from the noise, neither
  // with the table's entry nor with end-of-chain.
  lemma PoisonExample(reading: Reading)
    ensures var asks := Walk(SLOTS) + [Ask(First(SLOTS), Bad(NOISE))];
            var r := FatNext(CacheAfter(Cold(), DISK, asks), DISK, First(0), reading);
            r.value == 0x0101 && Uncached(DISK, First(0)) == 0 && r.value != EOF_MIN
  {
    hide Look, CacheAfter;
    var c := Filled(SLOTS);
    WalkFills(SLOTS);
    RunCoherent(DISK, Walk(SLOTS));
    FirstOf(SLOTS);
    FirstOf(0);
    LookNew(SLOTS, 0, None, MOD - 1);
    ZeroFound();
    AfterBadRead(c, DISK, SLOTS, NOISE, First(0), reading);
    LastAsk(Walk(SLOTS), Ask(First(SLOTS), Bad(NOISE)));
  }

  lemma LastAsk(asks: seq<Ask>, a: Ask)
    ensures CacheAfter(Cold(), DISK, asks + [a]) ==
            FatNext(CacheAfter(Cold(), DISK, asks), DISK, a.clu, a.reading).c
  {
    assert (asks + [a])[..|asks|] == asks;
  }
}
