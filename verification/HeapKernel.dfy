// malloc and free in place: headers inside the pool, updated by the loops of stdlib.c.
module HeapKernel {
  import opened Heap
  import opened HeapProof
  import opened HeapLinks
  import opened HeapCoalesce

  const WORD: nat := 0x1_0000_0000

  // Granule y is payload of a block in use.
  ghost predicate Payload(bs: seq<Block>, y: nat) {
    exists i: nat :: i < |bs| && InBlock(bs, i, y)
  }

  ghost predicate InBlock(bs: seq<Block>, i: nat, y: nat)
    requires i < |bs|
  {
    bs[i].used && bs[i].start < y < End(bs[i])
  }

  lemma PayloadNoHeader(bs: seq<Block>, y: nat)
    requires Row(bs, 0, POOL) && Payload(bs, y)
    ensures !IsHeader(bs, y) && y < POOL
  {
    hide Row;
    var i: nat :| i < |bs| && InBlock(bs, i, y);
    Inside(bs, 0, POOL, i);
    forall k: nat | k < |bs| ensures bs[k].start != y {
      if k < i { Ordered(bs, 0, POOL, k, i); } else if i < k { Ordered(bs, 0, POOL, i, k); }
    }
  }

  // The start of what would be freed for pointer p.
  function HeaderPlace(base: nat, p: nat): int {
    if p % ALIGN == 0 then p / ALIGN - base / ALIGN - 1 else -1
  }

  class Allocator {
    const pool: array<Cell>
    const base: nat
    var head: int
    var ready: bool
    ghost var bs: seq<Block>

    ghost predicate Valid()
      reads this, pool
    {
      && pool.Length == POOL && base % ALIGN == 0 && 0 < base && base + POOL_BYTES < WORD
      && Shape(bs)
      && (ready ==> Headers(pool[..], bs) && Chain(pool[..], head, bs))
      && (!ready ==> bs == FRESH && forall y: nat | y < POOL :: pool[y].magic == 0)
    }

    // The zeroed pool of a program that has not called malloc yet.
    constructor (at: nat)
      requires at % ALIGN == 0 && 0 < at && at + POOL_BYTES < WORD
      ensures Valid() && bs == FRESH && base == at && fresh(pool)
    {
      pool := new Cell[POOL](i => Cell(0, NULL, 0));
      base := at;
      head := NULL;
      ready := false;
      bs := FRESH;
      new;
      FreshShape();
    }

    // First call of malloc: the whole pool is one free block.
    method Initialise()
      requires Valid()
      modifies this`head, this`ready, pool
      ensures Valid() && ready && bs == old(bs)
      ensures forall y: nat | 0 < y < POOL :: pool[y] == old(pool[y])
    {
      if !ready {
        pool[0] := Cell(POOL_BYTES - ALIGN, NULL, MAGIC_FREE);
        head := 0;
        ready := true;
        assert HeaderOf(pool[..][0], bs[0]);
        assert LinkOk(pool[..], bs, 0);
      }
    }

    // Write through a link: the head of the free list or the field of a block.
    method SetLink(at: int, v: int)
      requires pool.Length == POOL && (at == NULL || 0 <= at < POOL)
      modifies this`head, pool
      ensures pool[..] == Relink(old(pool[..]), at, v)
      ensures forall y: nat | y < POOL && y != at :: pool[y] == old(pool[y])
      ensures head == if at == NULL then v else old(head)
    {
      if at == NULL {
        head := v;
      } else {
        pool[at] := pool[at].(next := v);
        assert pool[..] == Relink(old(pool[..]), at, v);
      }
    }

    // heap_coalesce
    method Coalesce()
      requires pool.Length == POOL && bs != [] && Row(bs, 0, POOL) && Headers(pool[..], bs)
      modifies this`head, this`bs, pool
      ensures bs == Merge(old(bs)) && Headers(pool[..], bs) && Chain(pool[..], head, bs)
      ensures forall y: nat | y < POOL && !IsHeader(old(bs), y) :: pool[y] == old(pool[y])
    {
      hide Progress, Merge, Row, Relink;
      var cur, link, run := 0, NULL, NULL;
      ghost var k := 0;
      Begin(pool[..], head, bs);
      while cur < POOL
        invariant k <= |bs| && bs == old(bs) && cur == Cursor(bs, k)
        invariant Progress(pool[..], head, bs, k, link, run)
        invariant forall y: nat | y < POOL && !IsHeader(bs, y) :: pool[y] == old(pool[y])
        decreases POOL - cur
      {
        ghost var before := pool[..];
        AtBlock(before, head, bs, k, link, run);
        WritesHeaders(before, head, bs, k, link, run);
        if pool[cur].magic == MAGIC_FREE {
          if run != NULL {
            StepGrow(before, head, bs, k, link, run);
            pool[run] := pool[run].(size := pool[run].size + ALIGN + pool[cur].size);
            assert pool[..] == before[run := pool[run]];
          } else {
            StepNew(before, head, bs, k, link, run);
            run := cur;
            SetLink(link, cur);
            RelinkAt(before, link, cur, cur);
            link := cur;
          }
        } else {
          StepUsed(before, head, bs, k, link, run);
          run := NULL;
        }
        cur := cur + 1 + pool[cur].size / ALIGN;
        k := k + 1;
      }
      AtEnd(bs, k);
      Finish(pool[..], head, bs, link, run);
      WritesHeaders(pool[..], head, bs, k, link, run);
      SetLink(link, NULL);
      bs := Merge(bs);
    }

    // The body of malloc's loop once a block has been found: split it or take it whole.
    method HandOut(prev: int, b: nat, req: nat, ghost j: nat, ghost i: nat)
      requires pool.Length == POOL && Row(bs, 0, POOL) && Headers(pool[..], bs) && Chain(pool[..], head, bs)
      requires Before(bs, j, i) && Fits(bs[i], req) && b == bs[i].start && prev == Addr(bs, j)
      modifies this`head, this`bs, pool
      ensures bs == Take(old(bs), i, req) && Headers(pool[..], bs) && Chain(pool[..], head, bs)
      ensures forall y: nat | y < POOL && Payload(old(bs), y) :: pool[y] == old(pool[y])
    {
      hide Row, Take, Chain, NextFree, Payload, IsHeader, Relink, HeaderOf;
      ghost var cells := pool[..];
      PayloadPlaces(bs);
      AddrHeader(bs, i);
      AddrHeader(bs, j);
      assert pool[b].size == ALIGN * bs[i].size by { SizeOf(cells, bs, i); }
      if pool[b].size >= ALIGN * req + ALIGN + ALIGN {
        SplitChain(cells, head, bs, j, i, req);
        RestNoPayload(bs, i, req);
        var rem := b + 1 + req;
        pool[rem] := Cell(pool[b].size - ALIGN * req - ALIGN, pool[b].next, MAGIC_FREE);
        SetLink(prev, rem);
        pool[b] := Cell(ALIGN * req, pool[b].next, pool[b].magic);
        pool[b] := Cell(pool[b].size, NULL, MAGIC_USED);
        assert pool[..] == SplitCells(cells, prev, b, req);
      } else {
        WholeChain(cells, head, bs, j, i);
        TakeWhole(bs, i, req);
        SetLink(prev, pool[b].next);
        pool[b] := Cell(pool[b].size, NULL, MAGIC_USED);
        assert pool[..] == WholeCells(cells, prev, b);
      }
      bs := Take(bs, i, req);
    }

    // malloc.  The result is 0 when there is no room.
    method Malloc(bytes: nat) returns (p: nat)
      requires Valid()
      modifies this, pool
      ensures Valid() && bs == Heap.Malloc(old(bs), bytes).bs
      ensures p == match Heap.Malloc(old(bs), bytes).at case None => 0 case Some(s) => base + ALIGN * (s + 1)
      ensures forall y: nat | Payload(old(bs), y) :: y < POOL && pool[y] == old(pool[y])
    {
      hide Row, Merged, Take, Headers, Chain, NextFree, FirstFit, Payload, IsHeader, Relink;
      PayloadPlaces(bs);
      Initialise();
      if bytes > POOL_BYTES {
        return 0;
      }
      var req := Granules(bytes);
      ghost var cells := pool[..];
      var prev, b := NULL, head;
      ghost var j: nat, i: nat := |bs|, NextFree(bs, 0);
      StartList(cells, head, bs, req);
      while b != NULL
        invariant ready && bs == old(bs) && pool[..] == cells && Chain(cells, head, bs) && Headers(cells, bs)
        invariant i <= |bs| && b == Addr(bs, i) && prev == Addr(bs, j)
        invariant i < |bs| ==> Before(bs, j, i)
        invariant FirstFit(bs, req, 0) == FirstFit(bs, req, i)
        decreases |bs| - i
      {
        OnList(cells, head, bs, i);
        if pool[b].size < ALIGN * req {
          SkipFree(bs, req, i);
          NextBefore(bs, i);
          prev, b := b, pool[b].next;
          j, i := i, NextFree(bs, i + 1);
        } else {
          FoundFit(bs, req, i);
          MallocKeeps(bs, bytes);
          HandOut(prev, b, req, j, i);
          return base + ALIGN * (b + 1);
        }
      }
      NoFit(bs, req, i);
      return 0;
    }

    // free.  Any pointer may be passed: one that is not the address of a block in use leaves
    // the blocks as they are.
    method Free(p: nat)
      requires Valid() && p < WORD
      modifies this`head, this`bs, pool
      ensures Valid() && bs == Heap.Free(old(bs), HeaderPlace(base, p))
      ensures forall y: nat | Payload(bs, y) && y != HeaderPlace(base, p) :: y < POOL && pool[y] == old(pool[y])
    {
      hide Row, Merged, Headers, Chain, Payload, IsHeader, Merge, LiveAt, Granules;
      ghost var place := HeaderPlace(base, p);
      PayloadPlaces(bs);
      FreeKeeps(bs, place);
      if p == 0 || p % ALIGN != 0 || p - ALIGN < base || p > base + POOL_BYTES {
        NotLive(bs, place);
        return;
      }
      var b := (p - ALIGN - base) / ALIGN;
      assert b == place && b < POOL;
      if (p + pool[b].size) % WORD > base + POOL_BYTES || pool[b].magic != MAGIC_USED {
        ghost var k := LiveAt(bs, place, 0);
        if ready && k < |bs| { LivePasses(pool[..], bs, base, k); }
        return;
      }
      assert ready;
      ghost var cells := pool[..];
      pool[b] := pool[b].(magic := MAGIC_FREE);
      assert pool[..] == cells[b := cells[b].(magic := MAGIC_FREE)];
      ghost var k := LiveAt(bs, place, 0);
      MarkFree(cells, bs, b, k);
      MergeSame(bs);
      if k < |bs| { bs := bs[k := bs[k].(used := false)]; }
      PayloadMerge(bs);
      PayloadPlaces(bs);
      Coalesce();
    }

    // The program writes to memory it was given.
    method Scribble(y: nat, c: Cell)
      requires Valid() && Payload(bs, y)
      modifies pool
      ensures Valid() && y < POOL && pool[..] == old(pool[..])[y := c]
    {
      PayloadNoHeader(bs, y);
      FreshNoPayload(y);
      assert ready;
      pool[y] := c;
      assert pool[..] == old(pool[..])[y := c];
      OffHeaders(old(pool[..]), head, bs, y, c);
    }
  }

  lemma AtBlock(cells: seq<Cell>, head: int, bs: seq<Block>, k: nat, link: int, run: int)
    requires Progress(cells, head, bs, k, link, run) && Cursor(bs, k) < POOL
    ensures k < |bs| && HeaderOf(cells[bs[k].start], bs[k]) && Cursor(bs, k + 1) == End(bs[k])
  {
    RestHeaders(cells, bs, k);
    CursorStep(bs, k);
  }

  lemma AtEnd(bs: seq<Block>, k: nat)
    requires Row(bs, 0, POOL) && k <= |bs| && Cursor(bs, k) >= POOL
    ensures k == |bs|
  {
    if k < |bs| { CursorStep(bs, k); }
  }

  lemma RelinkAt(cells: seq<Cell>, at: int, v: int, y: nat)
    requires y < |cells|
    ensures Relink(cells, at, v)[y] == if y == at then cells[y].(next := v) else cells[y]
  {
  }

  lemma RestNoPayload(bs: seq<Block>, i: nat, req: nat)
    requires Row(bs, 0, POOL) && i < |bs| && !bs[i].used && bs[i].size >= req + 2
    ensures !Payload(bs, bs[i].start + 1 + req)
  {
    var y := bs[i].start + 1 + req;
    forall k: nat | k < |bs| ensures !InBlock(bs, k, y) {
      if k < i { Ordered(bs, 0, POOL, k, i); } else if i < k { Ordered(bs, 0, POOL, i, k); }
    }
  }

  lemma AddrHeader(bs: seq<Block>, i: nat)
    requires Row(bs, 0, POOL)
    ensures var a := Addr(bs, i); a == NULL || (0 <= a < POOL && IsHeader(bs, a))
  {
    if i < |bs| { Inside(bs, 0, POOL, i); }
  }

  lemma TakeWhole(bs: seq<Block>, i: nat, req: nat)
    requires i < |bs| && bs[i].size < req + 2
    ensures Take(bs, i, req) == bs[i := bs[i].(used := true)]
  {
  }

  lemma SizeOf(cells: seq<Cell>, bs: seq<Block>, i: nat)
    requires Headers(cells, bs) && i < |bs|
    ensures bs[i].start < |cells| && cells[bs[i].start].size == ALIGN * bs[i].size
  {
    assert HeaderOf(cells[bs[i].start], bs[i]);
  }

  lemma PayloadPlaces(bs: seq<Block>)
    requires Row(bs, 0, POOL)
    ensures forall y: nat | Payload(bs, y) :: 0 < y < POOL && !IsHeader(bs, y)
  {
    forall y: nat | Payload(bs, y) ensures 0 < y < POOL && !IsHeader(bs, y) { PayloadNoHeader(bs, y); }
  }

  lemma StartList(cells: seq<Cell>, head: int, bs: seq<Block>, req: nat)
    requires Chain(cells, head, bs)
    ensures var i := NextFree(bs, 0); head == Addr(bs, i) && (i < |bs| ==> Before(bs, |bs|, i))
    ensures FirstFit(bs, req, 0) == FirstFit(bs, req, NextFree(bs, 0))
  {
    SkipUsed(bs, req, 0, NextFree(bs, 0));
  }

  lemma {:induction false} SkipUsed(bs: seq<Block>, req: nat, i: nat, v: nat)
    requires i <= v <= |bs| && forall k: nat | i <= k < v :: bs[k].used
    ensures FirstFit(bs, req, i) == FirstFit(bs, req, v)
    decreases v - i
  {
    if i < v { SkipUsed(bs, req, i + 1, v); }
  }

  lemma SkipFree(bs: seq<Block>, req: nat, i: nat)
    requires i < |bs| && bs[i].size < req
    ensures FirstFit(bs, req, i) == FirstFit(bs, req, NextFree(bs, i + 1))
  {
    SkipUsed(bs, req, i + 1, NextFree(bs, i + 1));
  }

  lemma NextBefore(bs: seq<Block>, i: nat)
    requires i < |bs| && !bs[i].used
    ensures NextFree(bs, i + 1) < |bs| ==> Before(bs, i, NextFree(bs, i + 1))
  {
  }

  lemma OnList(cells: seq<Cell>, head: int, bs: seq<Block>, i: nat)
    requires Chain(cells, head, bs) && Headers(cells, bs) && i <= |bs| && Addr(bs, i) != NULL
             && (i < |bs| ==> !bs[i].used)
    ensures i < |bs| && bs[i].start < |cells| && HeaderOf(cells[bs[i].start], bs[i])
    ensures cells[bs[i].start].next == Addr(bs, NextFree(bs, i + 1))
  {
    NextAddr(cells, head, bs, i);
  }

  lemma FoundFit(bs: seq<Block>, req: nat, i: nat)
    requires i < |bs| && !bs[i].used && bs[i].size >= req
    ensures FirstFit(bs, req, i) == i
  {
  }

  lemma NoFit(bs: seq<Block>, req: nat, i: nat)
    requires i <= |bs| && Addr(bs, i) == NULL
    ensures i == |bs| && FirstFit(bs, req, i) == |bs|
  {
  }

  // Merging takes no granule away from, or into, the payload of blocks in use.
  lemma PayloadMerge(bs: seq<Block>)
    ensures forall y: nat | Payload(Merge(bs), y) :: Payload(bs, y)
  {
    hide Merge;
    MergeLive(bs);
    forall y: nat | Payload(Merge(bs), y) ensures Payload(bs, y) {
      var i: nat :| i < |Merge(bs)| && InBlock(Merge(bs), i, y);
      assert Merge(bs)[i] in Live(Merge(bs));
      var k: nat :| k < |bs| && bs[k] == Merge(bs)[i];
      assert InBlock(bs, k, y);
    }
  }

  lemma {:induction false} MergeSame(bs: seq<Block>)
    requires Merged(bs)
    ensures Merge(bs) == bs
  {
    if bs != [] {
      var n := |bs| - 1;
      forall i: nat | i + 1 < n ensures Apart(bs[..n], i) { assert Apart(bs, i); }
      MergeSame(bs[..n]);
      if n > 0 { assert Apart(bs, n - 1); }
    }
  }

  lemma OffHeaders(cells: seq<Cell>, head: int, bs: seq<Block>, y: nat, c: Cell)
    requires Headers(cells, bs) && Chain(cells, head, bs) && y < |cells| && !IsHeader(bs, y)
    ensures Headers(cells[y := c], bs) && Chain(cells[y := c], head, bs)
  {
    hide NextFree;
    var r := cells[y := c];
    forall i: nat | i < |bs| ensures LinkOk(r, bs, i) { assert LinkOk(cells, bs, i); }
  }

  // No block in use has this header place, so free has nothing to do.
  lemma NotLive(bs: seq<Block>, place: int)
    requires Row(bs, 0, POOL) && !(0 <= place < POOL)
    ensures LiveAt(bs, place, 0) == |bs|
  {
    var k := LiveAt(bs, place, 0);
    if k < |bs| { Inside(bs, 0, POOL, k); }
  }

  lemma FreshNoPayload(y: nat)
    ensures !Payload(FRESH, y)
  {
  }

  // The checks of free never turn away a block in use.
  lemma LivePasses(cells: seq<Cell>, bs: seq<Block>, base: nat, k: nat)
    requires |cells| == POOL && Row(bs, 0, POOL) && Headers(cells, bs) && base + POOL_BYTES < WORD && k < |bs|
             && bs[k].used
    ensures var b := bs[k].start;
            b < POOL && cells[b].magic == MAGIC_USED
              && (base + ALIGN * (b + 1) + cells[b].size) % WORD <= base + POOL_BYTES
  {
    hide Row;
    Inside(bs, 0, POOL, k);
    assert HeaderOf(cells[bs[k].start], bs[k]);
  }

  // Marking a granule free: either a block in use becomes free, or only payload changed.
  lemma MarkFree(cells: seq<Cell>, bs: seq<Block>, b: nat, k: nat)
    requires Row(bs, 0, POOL) && |cells| == POOL && Headers(cells, bs) && b < POOL && cells[b].magic == MAGIC_USED
             && k == LiveAt(bs, b, 0)
    ensures var r := cells[b := cells[b].(magic := MAGIC_FREE)];
            Headers(r, if k < |bs| then bs[k := bs[k].(used := false)] else bs)
    ensures Row(if k < |bs| then bs[k := bs[k].(used := false)] else bs, 0, POOL)
  {
    hide Row, LiveAt;
    var r := cells[b := cells[b].(magic := MAGIC_FREE)];
    var bs' := if k < |bs| then bs[k := bs[k].(used := false)] else bs;
    forall i: nat | i < |bs'| ensures bs'[i].start < |r| && HeaderOf(r[bs'[i].start], bs'[i]) {
      assert HeaderOf(cells[bs[i].start], bs[i]);
      if k < |bs| { StartsDiffer(bs, i, k); }
    }
    if k < |bs| { RowFlag(bs, k); }
  }

  lemma RowFlag(bs: seq<Block>, k: nat)
    requires Row(bs, 0, POOL) && k < |bs|
    ensures Row(bs[k := bs[k].(used := false)], 0, POOL)
  {
    var r := bs[k := bs[k].(used := false)];
    forall i: nat | i + 1 < |r| ensures Touch(r, i) { assert Touch(bs, i); }
  }
}
