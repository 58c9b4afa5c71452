// The cache evicts by least recent use: it behaves like a queue of sector numbers, oldest
// first, until its clock wraps.
module FatLru {
  import opened Basics
  import opened SeqNum
  import opened FatCache

  function IndexOf(q: seq<nat>, x: nat): (r: nat)
    ensures r <= |q| && (x in q <==> r < |q|) && (r < |q| ==> q[r] == x)
  {
    if q == [] then 0 else if q[0] == x then 0 else 1 + IndexOf(q[1..], x)
  }

  function Without(q: seq<nat>, k: nat): seq<nat>
    requires k < |q|
  {
    q[..k] + q[k + 1..]
  }

  // The reference: use of a sector moves it to the end; a new one pushes out the oldest when
  // there are 64.
  function Use(q: seq<nat>, rel: nat): seq<nat> {
    if rel in q then Without(q, IndexOf(q, rel)) + [rel]
    else if |q| < SLOTS then q + [rel]
    else q[1..] + [rel]
  }

  function UseAll(asks: seq<Ask>): seq<nat> {
    if asks == [] then []
    else
      var n := |asks| - 1;
      var q, rel := UseAll(asks[..n]), asks[n].clu * 2 / SECTOR;
      if Ordinary(asks[n].clu) && (rel in q || asks[n].reading.Good?) then Use(q, rel) else q
  }

  // place lists slots in the order of their ticks.
  ghost predicate Rising(c: Cache, place: seq<nat>) {
    && |c.slots| == SLOTS && Distinct(place)
    && (forall i: nat | i < |place| :: place[i] < SLOTS && c.slots[place[i]].tick <= c.clock)
    && (forall i: nat, j: nat | i < j < |place| :: c.slots[place[i]].tick < c.slots[place[j]].tick)
  }

  ghost predicate Members(c: Cache, place: seq<nat>)
    requires |c.slots| == SLOTS
  {
    forall s: nat | s < SLOTS :: c.slots[s].valid <==> s in place
  }

  // place lists exactly the valid slots.
  ghost predicate Ordered(c: Cache, place: seq<nat>) {
    |c.slots| == SLOTS && Rising(c, place) && Members(c, place)
  }

  ghost function Keys(c: Cache, place: seq<nat>): (r: seq<nat>)
    requires Rising(c, place)
    ensures |r| == |place|
  {
    seq(|place|, i requires 0 <= i < |place| => c.slots[place[i]].sec)
  }

  // Slots in use hold different sectors, and come first.
  ghost predicate Distinguished(c: Cache) {
    && |c.slots| == SLOTS
    && forall i: nat, j: nat | i < j < SLOTS && c.slots[j].valid :: c.slots[i].valid && c.slots[i].sec != c.slots[j].sec
  }

  // ---- one use ----

  ghost predicate Moves(c: Cache, place: seq<nat>, d: Cache, moved: seq<nat>, rel: nat) {
    Ordered(c, place) && Ordered(d, moved) && Keys(d, moved) == Use(Keys(c, place), rel)
  }

  lemma KeysDistinct(c: Cache, place: seq<nat>, i: nat, j: nat)
    requires Ordered(c, place) && Distinguished(c) && i < |place| && j < |place| && i != j
    ensures c.slots[place[i]].sec != c.slots[place[j]].sec
  {
    assert place[i] in place && place[j] in place;
    assert place[i] != place[j];
  }

  lemma FoundAt(c: Cache, place: seq<nat>, k: nat)
    requires Ordered(c, place) && Distinguished(c) && k < |place|
    ensures var q := Keys(c, place); var rel := c.slots[place[k]].sec; rel in q && IndexOf(q, rel) == k
  {
    var q, rel := Keys(c, place), c.slots[place[k]].sec;
    assert q[k] == rel;
    var r := IndexOf(q, rel);
    if r != k { KeysDistinct(c, place, r, k); }
  }

  // The cache once slot s has been stamped with the next tick.
  ghost function Stamped(c: Cache, s: nat, rel: nat, data: Sector): Cache
    requires |c.slots| == SLOTS && s < SLOTS && c.clock + 1 < MOD
  {
    Cache(c.slots[s := Slot(true, rel, c.clock + 1, data)], c.clock + 1)
  }

  lemma AppendRising(c: Cache, base: seq<nat>, s: nat, rel: nat, data: Sector)
    requires Rising(c, base) && s < SLOTS && s !in base && c.clock + 1 < MOD
    ensures Rising(Stamped(c, s, rel, data), base + [s])
    ensures Keys(Stamped(c, s, rel, data), base + [s]) == Keys(c, base) + [rel]
  {
    var d, r := Stamped(c, s, rel, data), base + [s];
    forall i: nat | i < |base| ensures d.slots[r[i]] == c.slots[base[i]] { assert base[i] in base; }
    assert Distinct(r);
    assert Rising(d, r);
    assert Keys(d, r) == Keys(c, base) + [rel];
  }

  lemma DropRising(c: Cache, place: seq<nat>, k: nat)
    requires Rising(c, place) && k < |place|
    ensures Rising(c, Without(place, k)) && Keys(c, Without(place, k)) == Without(Keys(c, place), k)
    ensures place[k] !in Without(place, k)
  {
    var r := Without(place, k);
    assert forall i: nat | i < |r| :: r[i] == place[if i < k then i else i + 1];
    assert Rising(c, r);
    assert Keys(c, r) == Without(Keys(c, place), k);
  }

  lemma HitMoves(c: Cache, place: seq<nat>, k: nat)
    requires Ordered(c, place) && Distinguished(c) && k < |place| && c.clock + 1 < MOD
    ensures var x := c.slots[place[k]];
            Moves(c, place, Stamped(c, place[k], x.sec, x.data), Without(place, k) + [place[k]], x.sec)
  {
    hide Rising, Without, Keys;
    SlotBounds(c, place, k);
    var s := place[k];
    var x := c.slots[s];
    DropRising(c, place, k);
    AppendRising(c, Without(place, k), s, x.sec, x.data);
    FoundAt(c, place, k);
    MovedSame(place, k);
    assert s in place;
  }

  lemma SlotBounds(c: Cache, place: seq<nat>, k: nat)
    requires Rising(c, place) && k < |place|
    ensures |c.slots| == SLOTS && place[k] < SLOTS && Distinct(place)
  {
  }

  lemma MovedSame(place: seq<nat>, k: nat)
    requires k < |place|
    ensures forall x :: x in Without(place, k) + [place[k]] <==> x in place
  {
    var moved := Without(place, k) + [place[k]];
    forall x | x in place ensures x in moved {
      var i: nat :| i < |place| && place[i] == x;
      if i < k { assert moved[i] == x; } else if i > k { assert moved[i - 1] == x; }
        else { assert moved[|place| - 1] == x; }
    }
  }

  lemma NewMoves(c: Cache, place: seq<nat>, v: nat, rel: nat, data: Sector)
    requires Ordered(c, place) && v < SLOTS && !c.slots[v].valid && c.clock + 1 < MOD
    requires forall i: nat | i < SLOTS && c.slots[i].valid :: c.slots[i].sec != rel
    ensures Moves(c, place, Stamped(c, v, rel, data), place + [v], rel)
  {
    hide Rising, Keys;
    assert v !in place;
    AppendRising(c, place, v, rel, data);
    Absent(c, place, rel);
    NotFull(c, place, v);
    var d, moved := Stamped(c, v, rel, data), place + [v];
    forall s: nat | s < SLOTS ensures d.slots[s].valid <==> s in moved {
      assert s in moved <==> s in place || s == v;
    }
  }

  lemma NotFull(c: Cache, place: seq<nat>, v: nat)
    requires Rising(c, place) && v < SLOTS && v !in place
    ensures |place| < SLOTS
  {
    hide Below;
    forall x | x in place ensures x in Below(SLOTS) - {v} {}
    DistinctFits(place, Below(SLOTS) - {v});
  }

  lemma Absent(c: Cache, place: seq<nat>, rel: nat)
    requires Ordered(c, place) && forall i: nat | i < SLOTS && c.slots[i].valid :: c.slots[i].sec != rel
    ensures rel !in Keys(c, place)
  {
    var q := Keys(c, place);
    forall i: nat | i < |q| ensures q[i] != rel { assert place[i] in place; }
  }

  // With every slot in use, the one with the smallest tick makes room.
  lemma EvictMoves(c: Cache, place: seq<nat>, v: nat, rel: nat, data: Sector)
    requires Ordered(c, place) && v < SLOTS && c.clock + 1 < MOD
    requires forall i: nat | i < SLOTS ::
               c.slots[i].valid && c.slots[i].sec != rel && c.slots[v].tick <= c.slots[i].tick
    ensures place != []
    ensures Moves(c, place, Stamped(c, v, rel, data), place[1..] + [v], rel)
  {
    hide Rising, Keys, Below;
    CoverFits(place, Below(SLOTS));
    OldestFirst(c, place, v);
    DropRising(c, place, 0);
    assert Without(place, 0) == place[1..] && Without(Keys(c, place), 0) == Keys(c, place)[1..];
    AppendRising(c, place[1..], v, rel, data);
    MovedSame(place, 0);
    Absent(c, place, rel);
  }

  lemma OldestFirst(c: Cache, place: seq<nat>, v: nat)
    requires Ordered(c, place) && v < SLOTS && place != []
    requires forall i: nat | i < SLOTS :: c.slots[i].valid && c.slots[v].tick <= c.slots[i].tick
    ensures place[0] == v
  {
    assert v in place;
    var k: nat :| k < |place| && place[k] == v;
    assert c.slots[v].tick <= c.slots[place[0]].tick;
  }

  // ---- the victim ----

  // Nothing free and nothing found: the loop ends with the oldest slot.
  lemma {:induction false} LookOldest(slots: seq<Slot>, rel: nat, i: nat, victim: Option<nat>, oldest: U32)
    requires i <= |slots| && forall k: nat | k < |slots| ::
               slots[k].valid && slots[k].sec != rel && slots[k].tick < MOD - 1
    requires if victim.Some? then victim.value < i && slots[victim.value].tick == oldest
               else oldest == MOD - 1 && i == 0
    requires forall k: nat | k < i :: oldest <= slots[k].tick
    requires |slots| > 0
    ensures var r := Look(slots, rel, i, victim, oldest);
            r.Miss? && r.victim < |slots| && forall k: nat | k < |slots| :: slots[r.victim].tick <= slots[k].tick
    decreases |slots| - i
  {
    if i < |slots| {
      if slots[i].tick < oldest {
        LookOldest(slots, rel, i + 1, Some(i), slots[i].tick);
      } else {
        LookOldest(slots, rel, i + 1, victim, oldest);
      }
    }
  }

  // ---- one call ----

  ghost function NextPlace(c: Cache, place: seq<nat>, rel: nat, reading: Reading): seq<nat>
    requires |c.slots| == SLOTS
  {
    match Lookup(c, rel)
    case Hit(i) => if i in place then Without(place, IndexOf(place, i)) + [i] else place
    case Miss(v) => if reading.Bad? || v >= SLOTS then place else if !c.slots[v].valid then place + [v]
      else if place == [] then place else place[1..] + [v]
  }

  lemma FetchMoves(c: Cache, disk: Disk, place: seq<nat>, rel: nat, reading: Reading)
    requires Ordered(c, place) && Distinguished(c) && c.clock + 2 < MOD
    ensures var r := Fetch(c, disk, rel, reading); var moved := NextPlace(c, place, rel, reading);
            && Ordered(r.c, moved) && r.c.clock <= c.clock + 1
            && Keys(r.c, moved) == if rel in Keys(c, place) || reading.Good? then Use(Keys(c, place), rel)
                 else Keys(c, place)
  {
    hide Look, Use, Without, Rising, Keys, Members, Stamped;
    LookMeans(c.slots, rel, 0, None, MOD - 1);
    match Lookup(c, rel)
    case Hit(i) =>
      InPlace(c, place, i);
      var k := IndexOf(place, i);
      HitMoves(c, place, k);
      FoundAt(c, place, k);
      FetchStamps(c, disk, rel, reading, i, c.slots[i].data);
    case Miss(v) =>
      Missing(c, v, rel);
      Absent(c, place, rel);
      if reading.Good? {
        FetchStamps(c, disk, rel, reading, v, disk(rel));
        if !c.slots[v].valid {
          NewMoves(c, place, v, rel, disk(rel));
        } else {
          TicksBelow(c, place);
          LookOldest(c.slots, rel, 0, None, MOD - 1);
          EvictMoves(c, place, v, rel, disk(rel));
        }
      } else {
        BadKeeps(c, place, v, reading.left);
      }
  }

  lemma InPlace(c: Cache, place: seq<nat>, i: nat)
    requires Ordered(c, place) && i < SLOTS && c.slots[i].valid
    ensures i in place
  {
  }

  // A hit or a good read stamps the slot.
  lemma FetchStamps(c: Cache, disk: Disk, rel: nat, reading: Reading, s: nat, data: Sector)
    requires |c.slots| == SLOTS && s < SLOTS && c.clock + 1 < MOD
    requires Lookup(c, rel) == Hit(s) ==> c.slots[s].valid && c.slots[s].sec == rel && data == c.slots[s].data
    requires Lookup(c, rel) == Miss(s) ==> reading.Good? && data == disk(rel)
    requires Lookup(c, rel) == Hit(s) || Lookup(c, rel) == Miss(s)
    ensures Fetch(c, disk, rel, reading).c == Stamped(c, s, rel, data)
  {
    hide Lookup;
    NextClock(c.clock);
  }

  lemma BadKeeps(c: Cache, place: seq<nat>, v: nat, left: Sector)
    requires Ordered(c, place) && v < SLOTS
    ensures var d := c.(slots := c.slots[v := c.slots[v].(data := left)]);
            Ordered(d, place) && Keys(d, place) == Keys(c, place)
  {
  }

  lemma NextClock(t: U32)
    requires t + 1 < MOD
    ensures Plus(t, 1) == t + 1
  {
  }

  lemma TicksBelow(c: Cache, place: seq<nat>)
    requires Ordered(c, place) && c.clock + 2 < MOD
    ensures forall k: nat | k < SLOTS && c.slots[k].valid :: c.slots[k].tick < MOD - 1
  {
    forall k: nat | k < SLOTS && c.slots[k].valid ensures c.slots[k].tick < MOD - 1 {
      var i: nat :| i < |place| && place[i] == k;
    }
  }

  // A miss means that no valid slot has the sector.
  lemma Missing(c: Cache, v: nat, rel: nat)
    requires Distinguished(c) && Lookup(c, rel) == Miss(v)
    ensures v < SLOTS && forall i: nat | i < SLOTS && c.slots[i].valid :: c.slots[i].sec != rel
  {
    hide Look;
    LookMeans(c.slots, rel, 0, None, MOD - 1);
  }

  // ---- runs ----

  ghost function Places(disk: Disk, asks: seq<Ask>): seq<nat> {
    if asks == [] then []
    else
      var n := |asks| - 1;
      if Ordinary(asks[n].clu)
        then NextPlace(CacheAfter(Cold(), disk, asks[..n]), Places(disk, asks[..n]), asks[n].clu * 2 / SECTOR,
                       asks[n].reading)
      else Places(disk, asks[..n])
  }

  // A lookup keeps the slots apart, whatever the device does.
  lemma FetchDistinguished(c: Cache, disk: Disk, rel: nat, reading: Reading)
    requires Distinguished(c)
    ensures Distinguished(Fetch(c, disk, rel, reading).c)
  {
    hide Look;
    LookMeans(c.slots, rel, 0, None, MOD - 1);
  }

  lemma {:induction false} RunDistinguished(disk: Disk, asks: seq<Ask>)
    ensures Distinguished(CacheAfter(Cold(), disk, asks))
  {
    hide Fetch;
    if asks != [] {
      var n := |asks| - 1;
      RunDistinguished(disk, asks[..n]);
      FetchDistinguished(CacheAfter(Cold(), disk, asks[..n]), disk, asks[n].clu * 2 / SECTOR, asks[n].reading);
    }
  }

  // Over any run of fewer than 2^32 - 2 calls since mounting, the cached sectors in the order
  // of their ticks are exactly the queue the reference keeps.
  lemma {:induction false} RunLru(disk: Disk, asks: seq<Ask>)
    requires |asks| < MOD - 2
    ensures var c := CacheAfter(Cold(), disk, asks); var place := Places(disk, asks);
            Ordered(c, place) && c.clock <= |asks| && Keys(c, place) == UseAll(asks)
  {
    hide Fetch, Use, NextPlace, Ordered, Keys, Distinguished;
    if asks == [] {
      ColdOrdered();
    } else {
      var n := |asks| - 1;
      RunLru(disk, asks[..n]);
      RunDistinguished(disk, asks[..n]);
      var c := CacheAfter(Cold(), disk, asks[..n]);
      if Ordinary(asks[n].clu) {
        FetchMoves(c, disk, Places(disk, asks[..n]), asks[n].clu * 2 / SECTOR, asks[n].reading);
      }
    }
  }

  lemma ColdOrdered()
    ensures Ordered(Cold(), []) && Keys(Cold(), []) == []
  {
  }
}
