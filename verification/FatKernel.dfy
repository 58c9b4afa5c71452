// fat_sector and fat_next as they run: slots of an array, stamped and refilled in place.
module FatKernel {
  import opened Basics
  import opened SeqNum
  import opened FatCache

  class Fat {
    const slots: array<Slot>
    var clock: U32

    ghost predicate Valid()
      reads this, slots
    {
      slots.Length == SLOTS
    }

    ghost function View(): (c: Cache)
      requires Valid()
      reads this, slots
      ensures |c.slots| == SLOTS
    {
      Cache(slots[..], clock)
    }

    // The part of fat16_mount that empties the cache.
    constructor ()
      ensures Valid() && View() == Cold()
    {
      slots := new Slot[SLOTS](i => Slot(false, 0, 0, seq(SECTOR, j => 0)));
      clock := 0;
      new;
      assert slots[..] == Cold().slots;
    }

    // fat_sector
    method GetSector(disk: Disk, rel: nat, reading: Reading) returns (data: Option<Sector>)
      requires Valid()
      modifies this, slots
      ensures Valid() && View() == Fetch(old(View()), disk, rel, reading).c
      ensures data == Fetch(old(View()), disk, rel, reading).data
    {
      hide Plus;
      LookIn(slots[..], rel, 0, None, MOD - 1);
      var victim: Option<nat> := None;
      var oldest: U32 := MOD - 1;
      var i := 0;
      while i < SLOTS
        invariant 0 <= i <= SLOTS && slots[..] == old(slots[..]) && clock == old(clock)
        invariant victim.Some? ==> victim.value < i
        invariant Look(slots[..], rel, i, victim, oldest) == Lookup(View(), rel)
      {
        if slots[i].valid && slots[i].sec == rel {
          clock := Plus(clock, 1);
          slots[i] := slots[i].(tick := clock);
          assert slots[..] == old(slots[..])[i := old(slots[i]).(tick := clock)];
          return Some(slots[i].data);
        }
        if !slots[i].valid {
          victim := Some(i);
          break;
        }
        if slots[i].tick < oldest {
          oldest := slots[i].tick;
          victim := Some(i);
        }
        i := i + 1;
      }
      var v := if victim.Some? then victim.value else 0;
      assert Lookup(old(View()), rel) == Miss(v);
      match reading {
        case Bad(left) =>
          slots[v] := slots[v].(data := left);
          assert slots[..] == old(slots[..])[v := old(slots[v]).(data := left)];
          data := None;
        case Good =>
          clock := Plus(clock, 1);
          slots[v] := Slot(true, rel, clock, disk(rel));
          assert slots[..] == old(slots[..])[v := Slot(true, rel, clock, disk(rel))];
          data := Some(slots[v].data);
      }
    }

    // fat_next
    method NextCluster(disk: Disk, clu: nat, reading: Reading) returns (value: nat)
      requires Valid()
      modifies this, slots
      ensures Valid() && View() == FatNext(old(View()), disk, clu, reading).c
      ensures value == FatNext(old(View()), disk, clu, reading).value
    {
      if clu < 2 || clu == FAT_BAD || clu >= EOF_MIN {
        return EOF_MIN;
      }
      var rel, off := clu * 2 / SECTOR, clu * 2 % SECTOR;
      var s := GetSector(disk, rel, reading);
      value := match s case Some(data) => Le16(data, off) case None => EOF_MIN;
    }
  }
}
