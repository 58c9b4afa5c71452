// What malloc and free keep, for every sequence of calls.
module HeapProof {
  import opened Heap

  ghost function Live(bs: seq<Block>): set<Block> {
    set b | b in bs && b.used
  }

  // ---- malloc ----

  lemma TakeRow(bs: seq<Block>, k: nat, req: nat)
    requires Row(bs, 0, POOL) && k < |bs| && 1 <= req <= bs[k].size
    ensures Row(Take(bs, k, req), 0, POOL)
  {
    if bs[k].size >= req + 2 {
      SplitRow(bs, k, req);
    } else {
      var r := Take(bs, k, req);
      forall i: nat | i + 1 < |r| ensures Touch(r, i) { assert Touch(bs, i); }
    }
  }

  lemma SplitRow(bs: seq<Block>, k: nat, req: nat)
    requires Row(bs, 0, POOL) && k < |bs| && 1 <= req && req + 2 <= bs[k].size
    ensures Row(Take(bs, k, req), 0, POOL)
  {
    hide Row;
    var b := bs[k];
    var two := [Block(b.start, req, true), Block(b.start + 1 + req, b.size - req - 1, false)];
    RowSplit(bs, 0, POOL, k);
    PairRow(two, b.start, End(b));
    RowJoin(bs[..k], two, 0, b.start, End(b));
    RowRest(bs, k);
    RowJoin(bs[..k] + two, bs[k + 1..], 0, End(b), POOL);
  }

  lemma PairRow(two: seq<Block>, from: nat, to: nat)
    requires |two| == 2 && two[0].start == from && two[1].start == End(two[0]) && End(two[1]) == to && two[0].size >= 1
             && two[1].size >= 1
    ensures Row(two, from, to)
  {
  }

  lemma RowRest(bs: seq<Block>, k: nat)
    requires Row(bs, 0, POOL) && k < |bs|
    ensures Row(bs[k + 1..], End(bs[k]), POOL)
  {
    if k + 1 < |bs| {
      assert Touch(bs, k);
      RowSplit(bs, 0, POOL, k + 1);
    }
  }

  lemma TakeMerged(bs: seq<Block>, k: nat, req: nat)
    requires Merged(bs) && k < |bs| && !bs[k].used
    ensures Merged(Take(bs, k, req))
  {
    var r := Take(bs, k, req);
    var split := bs[k].size >= req + 2;
    if k + 1 < |bs| { assert Apart(bs, k); }
    forall i: nat | i + 1 < |r| ensures Apart(r, i) {
      if i + 1 < k { assert Apart(bs, i); }
      else if split && i > k + 1 { assert Apart(bs, i - 1); }
      else if !split && i > k { assert Apart(bs, i); }
    }
  }

  // What malloc hands out.
  ghost function Given(bs: seq<Block>, k: nat, req: nat): Block
    requires k < |bs|
  {
    Block(bs[k].start, if bs[k].size >= req + 2 then req else bs[k].size, true)
  }

  lemma TakeLive(bs: seq<Block>, k: nat, req: nat)
    requires Row(bs, 0, POOL) && k < |bs| && !bs[k].used
    ensures Live(Take(bs, k, req)) == Live(bs) + {Given(bs, k, req)}
  {
    var r, g := Take(bs, k, req), Given(bs, k, req);
    assert r[k] == g;
    forall b | b in Live(bs) ensures b in Live(r) {
      var i: nat :| i < |bs| && bs[i] == b;
      if i < k { assert r[i] == b; } else { assert r[|r| - (|bs| - i)] == b; }
    }
    forall b | b in Live(r) ensures b in Live(bs) + {g} {
      var i: nat :| i < |r| && r[i] == b;
      if i < k { assert bs[i] == b; } else if i > k && (|r| == |bs| || i > k + 1) { assert bs[i - (|r| - |bs|)] == b; }
    }
  }

  // malloc keeps the shape, and on success adds exactly one live block, large enough for the
  // request, whose header was in no live block.
  lemma MallocKeeps(bs: seq<Block>, bytes: nat)
    requires Shape(bs)
    ensures var m := Malloc(bs, bytes);
            && Shape(m.bs)
            && (m.at.None? ==> m.bs == bs)
            && (m.at.Some? ==> exists g: Block ::
                  g.used && g.start == m.at.value && Granules(bytes) <= g.size <= Granules(bytes) + 1
                    && Live(m.bs) == Live(bs) + {g} && g !in Live(bs))
  {
    hide Row, Merged, Take;
    var req := Granules(bytes);
    var k := FirstFit(bs, req, 0);
    if bytes <= POOL_BYTES && k < |bs| {
      TakeRow(bs, k, req);
      TakeMerged(bs, k, req);
      TakeLive(bs, k, req);
      var g := Given(bs, k, req);
      if g in Live(bs) {
        var i: nat :| i < |bs| && bs[i] == g;
        if i < k { Ordered(bs, 0, POOL, i, k); } else if i > k { Ordered(bs, 0, POOL, k, i); }
      }
      assert g.used && g.start == bs[k].start && Granules(bytes) <= g.size <= Granules(bytes) + 1;
    }
  }

  // ---- when malloc fails ----

  predicate Meets(b: Block, a: nat, n: nat) {
    b.start < a + n && a < End(b)
  }

  // n granules from a on are in the pool and in no live block.
  ghost predicate Room(bs: seq<Block>, a: nat, n: nat) {
    a + n <= POOL && forall i: nat | i < |bs| && bs[i].used :: !Meets(bs[i], a, n)
  }

  ghost predicate HasRoom(bs: seq<Block>, n: nat) {
    exists a: nat :: Room(bs, a, n)
  }

  lemma {:induction false} Holds(bs: seq<Block>, from: nat, to: nat, a: nat) returns (i: nat)
    requires Row(bs, from, to) && from <= a < to
    ensures i < |bs| && bs[i].start <= a < End(bs[i])
  {
    if a < End(bs[0]) {
      i := 0;
    } else {
      RowSplit(bs, from, to, 0);
      assert |bs| > 1;
      assert Touch(bs, 0);
      RowSplit(bs, from, to, 1);
      i := Holds(bs[1..], End(bs[0]), to, a);
      i := i + 1;
    }
  }

  // malloc fails exactly when no stretch of the pool free of live blocks could hold the
  // header and the rounded request: fragmentation is never of its own making.
  lemma FailsIffNoRoom(bs: seq<Block>, bytes: nat)
    requires Shape(bs)
    ensures Malloc(bs, bytes).at.None? <==> !HasRoom(bs, 1 + Granules(bytes))
  {
    hide Row, Merged, Take;
    var req := Granules(bytes);
    var k := FirstFit(bs, req, 0);
    var n := 1 + req;
    if bytes > POOL_BYTES {
      assert n > POOL;
    } else if k < |bs| {
      Inside(bs, 0, POOL, k);
      forall i: nat | i < |bs| && bs[i].used ensures !Meets(bs[i], bs[k].start, n) {
        if i < k { Ordered(bs, 0, POOL, i, k); } else { Ordered(bs, 0, POOL, k, i); }
      }
      assert Room(bs, bs[k].start, n);
    } else {
      forall a: nat ensures !Room(bs, a, n) { NoRoom(bs, req, a); }
    }
  }

  lemma NoRoom(bs: seq<Block>, req: nat, a: nat)
    requires Shape(bs) && FirstFit(bs, req, 0) == |bs|
    ensures !Room(bs, a, 1 + req)
  {
    if a + 1 + req <= POOL {
      var i := Holds(bs, 0, POOL, a);
      assert !Fits(bs[i], req);
      if !bs[i].used {
        Inside(bs, 0, POOL, i);
        assert End(bs[i]) < a + 1 + req;
        assert i + 1 < |bs|;
        assert Touch(bs, i) && Apart(bs, i);
        assert Meets(bs[i + 1], a, 1 + req);
      } else {
        assert Meets(bs[i], a, 1 + req);
      }
    }
  }

  // ---- free ----

  lemma {:induction false} MergeRow(bs: seq<Block>, to: nat)
    requires Row(bs, 0, to)
    ensures Row(Merge(bs), 0, to) && (bs != [] ==> Merge(bs) != [])
  {
    if bs != [] {
      var n := |bs| - 1;
      RowSplit(bs, 0, to, n);
      MergeRow(bs[..n], bs[n].start);
      var ms := Merge(bs[..n]);
      if !bs[n].used && ms != [] && !ms[|ms| - 1].used {
        var r := Attach(ms, bs[n]);
        forall i: nat | i + 1 < |r| ensures Touch(r, i) { assert Touch(ms, i); }
      } else {
        RowJoin(ms, bs[n..], 0, bs[n].start, to);
        assert bs[n..] == [bs[n]];
      }
    }
  }

  lemma {:induction false} MergeMerged(bs: seq<Block>)
    ensures Merged(Merge(bs))
  {
    if bs != [] {
      var ms, b := Merge(bs[..|bs| - 1]), bs[|bs| - 1];
      MergeMerged(bs[..|bs| - 1]);
      var r := Attach(ms, b);
      forall i: nat | i + 1 < |r| ensures Apart(r, i) {
        if i + 1 < |ms| { assert Apart(ms, i); }
      }
    }
  }

  lemma AttachLive(ms: seq<Block>, b: Block)
    ensures Live(Attach(ms, b)) == Live(ms) + (if b.used then {b} else {})
  {
    var r := Attach(ms, b);
    forall x | x in Live(ms) ensures x in Live(r) {
      var i: nat :| i < |ms| && ms[i] == x;
      assert r[i] == x;
    }
    forall x | x in Live(r) ensures x in Live(ms) || (b.used && x == b) {
      var i: nat :| i < |r| && r[i] == x;
      if i < |ms| { assert ms[i] == x; }
    }
    assert b.used ==> r[|ms|] == b;
  }

  lemma {:induction false} MergeLive(bs: seq<Block>)
    ensures Live(Merge(bs)) == Live(bs)
  {
    if bs != [] {
      var init, b := bs[..|bs| - 1], bs[|bs| - 1];
      MergeLive(init);
      AttachLive(Merge(init), b);
      assert bs == init + [b];
    }
  }

  // free keeps the shape for any pointer whatever, and takes away exactly the live block
  // whose payload is at that address, if there is one.
  lemma FreeKeeps(bs: seq<Block>, start: int)
    requires Shape(bs)
    ensures Shape(Free(bs, start))
    ensures Live(Free(bs, start)) == set b | b in Live(bs) && b.start != start
  {
    hide Merge;
    var k := LiveAt(bs, start, 0);
    if k < |bs| {
      var fs := bs[k := bs[k].(used := false)];
      forall i: nat | i + 1 < |fs| ensures Touch(fs, i) { assert Touch(bs, i); }
      MergeRow(fs, POOL);
      MergeMerged(fs);
      MergeLive(fs);
      FreedLive(bs, k);
    } else {
      forall b | b in Live(bs) ensures b.start != start {
        var i: nat :| i < |bs| && bs[i] == b;
      }
    }
  }

  lemma FreedLive(bs: seq<Block>, k: nat)
    requires Row(bs, 0, POOL) && k < |bs| && bs[k].used
    ensures Live(bs[k := bs[k].(used := false)]) == set b | b in Live(bs) && b.start != bs[k].start
  {
    var fs := bs[k := bs[k].(used := false)];
    forall b | b in Live(bs) && b.start != bs[k].start ensures b in Live(fs) {
      var i: nat :| i < |bs| && bs[i] == b;
      assert fs[i] == b;
    }
    forall b | b in Live(fs) ensures b in Live(bs) && b.start != bs[k].start {
      var i: nat :| i < |fs| && fs[i] == b;
      assert bs[i] == b;
      if i < k { Ordered(bs, 0, POOL, i, k); } else { Ordered(bs, 0, POOL, k, i); }
    }
  }

  // ---- whole runs ----

  datatype Call = Ask(bytes: nat) | Return(start: int)

  function Do(bs: seq<Block>, c: Call): seq<Block> {
    match c
    case Ask(bytes) => Malloc(bs, bytes).bs
    case Return(start) => Free(bs, start)
  }

  function DoAll(bs: seq<Block>, cs: seq<Call>): seq<Block> {
    if cs == [] then bs else Do(DoAll(bs, cs[..|cs| - 1]), cs[|cs| - 1])
  }

  lemma {:induction false} RunShape(cs: seq<Call>)
    ensures Shape(DoAll(FRESH, cs))
  {
    hide Shape, Malloc, Free;
    if cs == [] {
      FreshShape();
    } else {
      var bs := DoAll(FRESH, cs[..|cs| - 1]);
      RunShape(cs[..|cs| - 1]);
      match cs[|cs| - 1]
      case Ask(bytes) => MallocKeeps(bs, bytes);
      case Return(start) => FreeKeeps(bs, start);
    }
  }

  lemma FreshShape()
    ensures Shape(FRESH)
  {
  }

  // Live blocks never overlap, at any point of any run.
  lemma LiveDisjoint(cs: seq<Call>, a: Block, b: Block)
    requires a in Live(DoAll(FRESH, cs)) && b in Live(DoAll(FRESH, cs)) && a != b
    ensures End(a) <= b.start || End(b) <= a.start
    ensures End(a) <= POOL
  {
    hide Row, DoAll;
    RunShape(cs);
    var bs := DoAll(FRESH, cs);
    var i: nat :| i < |bs| && bs[i] == a;
    var j: nat :| j < |bs| && bs[j] == b;
    Inside(bs, 0, POOL, i);
    if i < j { Ordered(bs, 0, POOL, i, j); } else { Ordered(bs, 0, POOL, j, i); }
  }

  // Once everything has been freed, in whatever order, the pool is one block again.
  lemma AllFreedIsWhole(cs: seq<Call>)
    requires Live(DoAll(FRESH, cs)) == {}
    ensures DoAll(FRESH, cs) == FRESH
  {
    RunShape(cs);
    var bs := DoAll(FRESH, cs);
    forall i: nat | i < |bs| ensures !bs[i].used { UsedIsLive(bs, i); }
    NeighbourUsed(bs);
    assert bs == [bs[0]];
  }

  lemma UsedIsLive(bs: seq<Block>, i: nat)
    requires i < |bs|
    ensures bs[i].used ==> bs[i] in Live(bs)
  {
  }

  lemma NeighbourUsed(bs: seq<Block>)
    requires Merged(bs)
    ensures |bs| > 1 ==> bs[0].used || bs[1].used
  {
    assert |bs| > 1 ==> Apart(bs, 0);
  }
}
