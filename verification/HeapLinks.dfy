// How the headers inside the pool represent a row of blocks, and how the in-place updates
// of malloc and heap_coalesce change what is represented.
module HeapLinks {
  import opened Heap

  const NULL: int := -1
  const MAGIC_USED: nat := 0xC7A051B0
  const MAGIC_FREE: nat := 0xC7A051B1

  // One granule, read as a header: payload bytes, link of the free list, magic.
  datatype Cell = Cell(size: nat, next: int, magic: nat)

  ghost predicate HeaderOf(c: Cell, b: Block) {
    c.size == ALIGN * b.size && c.magic == if b.used then MAGIC_USED else MAGIC_FREE
  }

  ghost predicate Headers(cells: seq<Cell>, bs: seq<Block>) {
    forall i: nat | i < |bs| :: bs[i].start < |cells| && HeaderOf(cells[bs[i].start], bs[i])
  }

  ghost function NextFree(bs: seq<Block>, i: nat): (r: nat)
    requires i <= |bs|
    ensures i <= r <= |bs| && (r < |bs| ==> !bs[r].used)
    ensures forall k: nat | i <= k < r :: bs[k].used
    decreases |bs| - i
  {
    if i == |bs| || !bs[i].used then i else NextFree(bs, i + 1)
  }

  lemma NextFreeIs(bs: seq<Block>, i: nat, v: nat)
    requires i <= v <= |bs| && (v < |bs| ==> !bs[v].used) && forall k: nat | i <= k < v :: bs[k].used
    ensures NextFree(bs, i) == v
  {
  }

  ghost function Addr(bs: seq<Block>, i: nat): int {
    if i < |bs| then bs[i].start else NULL
  }

  // The free block i links to the next free block.
  ghost predicate LinkOk(cells: seq<Cell>, bs: seq<Block>, i: nat)
    requires i < |bs|
  {
    bs[i].start < |cells| && (!bs[i].used ==> cells[bs[i].start].next == Addr(bs, NextFree(bs, i + 1)))
  }

  // The free list is exactly the free blocks, in address order.
  ghost predicate Chain(cells: seq<Cell>, head: int, bs: seq<Block>) {
    head == Addr(bs, NextFree(bs, 0)) && forall i: nat | i < |bs| :: LinkOk(cells, bs, i)
  }

  // Block j is the free one just before block i on the list; j == |bs| stands for the head.
  ghost predicate Before(bs: seq<Block>, j: nat, i: nat) {
    i < |bs| && !bs[i].used && if j < |bs| then j < i && !bs[j].used && NextFree(bs, j + 1) == i
      else NextFree(bs, 0) == i
  }

  // Writing through prev: the head of the list or the link of block j.
  function Relink(cells: seq<Cell>, at: int, v: int): (r: seq<Cell>)
    ensures |r| == |cells|
  {
    if 0 <= at < |cells| then cells[at := cells[at].(next := v)] else cells
  }

  // ---- malloc: the whole block is handed out ----

  function WholeCells(cells: seq<Cell>, at: int, s: nat): (r: seq<Cell>)
    requires s < |cells|
    ensures |r| == |cells|
  {
    var c := Relink(cells, at, cells[s].next);
    c[s := Cell(c[s].size, NULL, MAGIC_USED)]
  }

  lemma WholeChain(cells: seq<Cell>, head: int, bs: seq<Block>, j: nat, i: nat)
    requires Row(bs, 0, POOL) && |cells| == POOL && Headers(cells, bs) && Chain(cells, head, bs) && Before(bs, j, i)
    ensures bs[i].start < POOL
    ensures var r := WholeCells(cells, Addr(bs, j), bs[i].start);
            var bs' := bs[i := bs[i].(used := true)];
            Headers(r, bs') && Chain(r, if j < |bs| then head else cells[bs[i].start].next, bs')
  {
    hide Row, HeaderOf, Relink, WholeCells, LinkOk;
    var bs' := bs[i := bs[i].(used := true)];
    StartsDiffer(bs, i, i);
    var r := WholeCells(cells, Addr(bs, j), bs[i].start);
    forall x: nat | x < |bs'| ensures bs'[x].start < |r| && HeaderOf(r[bs'[x].start], bs'[x]) && LinkOk(r, bs', x) {
      WholeAt(cells, head, bs, j, i, x);
    }
    WholeNext(bs, 0, i);
    if j < |bs| { FirstBefore(bs, j, i); }
    else { NextAddr(cells, head, bs, i); }
  }

  lemma NextAddr(cells: seq<Cell>, head: int, bs: seq<Block>, i: nat)
    requires Chain(cells, head, bs) && i < |bs| && !bs[i].used
    ensures bs[i].start < |cells| && cells[bs[i].start].next == Addr(bs, NextFree(bs, i + 1))
  {
    assert LinkOk(cells, bs, i);
  }

  lemma WholeAt(cells: seq<Cell>, head: int, bs: seq<Block>, j: nat, i: nat, x: nat)
    requires Row(bs, 0, POOL) && |cells| == POOL && Headers(cells, bs) && Chain(cells, head, bs) && Before(bs, j, i)
             && x < |bs|
    ensures bs[i].start < POOL && bs[x].start < POOL
    ensures var r := WholeCells(cells, Addr(bs, j), bs[i].start);
            var bs' := bs[i := bs[i].(used := true)];
            HeaderOf(r[bs[x].start], bs'[x]) && LinkOk(r, bs', x)
  {
    hide Row, NextFree;
    StartsDiffer(bs, x, i);
    StartsDiffer(bs, i, x);
    if j < |bs| { StartsDiffer(bs, x, j); StartsDiffer(bs, j, x); }
    NextAddr(cells, head, bs, i);
    assert LinkOk(cells, bs, x);
    WholeNext(bs, x + 1, i);
    if !bs[x].used && x < i { OnlyBefore(bs, j, i, x); }
  }

  lemma StartsDiffer(bs: seq<Block>, x: nat, y: nat)
    requires Row(bs, 0, POOL) && x < |bs| && y < |bs|
    ensures x != y ==> bs[x].start != bs[y].start
    ensures bs[x].start < POOL
  {
    if x < y { Ordered(bs, 0, POOL, x, y); } else if y < x { Ordered(bs, 0, POOL, y, x); }
    Inside(bs, 0, POOL, x);
  }

  lemma OnlyBefore(bs: seq<Block>, j: nat, i: nat, x: nat)
    requires Before(bs, j, i) && x < i && !bs[x].used
    ensures j < |bs| && (NextFree(bs, x + 1) == i <==> x == j)
    ensures NextFree(bs, x + 1) <= i
  {
  }

  lemma FirstBefore(bs: seq<Block>, j: nat, i: nat)
    requires Before(bs, j, i) && j < |bs|
    ensures NextFree(bs, 0) < i
  {
  }

  lemma WholeNext(bs: seq<Block>, y: nat, i: nat)
    requires i < |bs| && !bs[i].used && y <= |bs|
    ensures NextFree(bs[i := bs[i].(used := true)], y) == if NextFree(bs, y) == i then NextFree(bs, i + 1)
              else NextFree(bs, y)
  {
    var bs' := bs[i := bs[i].(used := true)];
    NextFreeIs(bs', y, if NextFree(bs, y) == i then NextFree(bs, i + 1) else NextFree(bs, y));
  }

  // ---- malloc: the block is split ----

  function SplitCells(cells: seq<Cell>, at: int, s: nat, req: nat): (r: seq<Cell>)
    requires s + 1 + req < |cells| && cells[s].size >= ALIGN * (req + 1)
    ensures |r| == |cells|
  {
    var c := Relink(cells[s + 1 + req := Cell(cells[s].size - ALIGN * req - ALIGN, cells[s].next, MAGIC_FREE)], at,
                    s + 1 + req);
    c[s := Cell(ALIGN * req, NULL, MAGIC_USED)]
  }

  lemma SplitCellsAt(cells: seq<Cell>, at: int, s: nat, req: nat, y: nat)
    requires s + 1 + req < |cells| && cells[s].size >= ALIGN * (req + 1) && at != s && at != s + 1 + req && y < |cells|
    ensures var r := SplitCells(cells, at, s, req);
            && r[s] == Cell(ALIGN * req, NULL, MAGIC_USED)
            && r[s + 1 + req] == Cell(cells[s].size - ALIGN * req - ALIGN, cells[s].next, MAGIC_FREE)
            && (y != s && y != s + 1 + req ==> r[y] == if y == at then cells[y].(next := s + 1 + req) else cells[y])
  {
  }

  lemma TakeParts(bs: seq<Block>, i: nat, req: nat, x: nat)
    requires i < |bs| && bs[i].size >= req + 2 && x < |bs|
    ensures var r := Take(bs, i, req);
            && |r| == |bs| + 1
            && r[i] == Block(bs[i].start, req, true)
               && r[i + 1] == Block(bs[i].start + 1 + req, bs[i].size - req - 1, false)
            && (x < i ==> r[x] == bs[x]) && (x > i ==> r[x + 1] == bs[x])
  {
  }

  lemma SplitNext(bs: seq<Block>, y: nat, i: nat, req: nat)
    requires i < |bs| && !bs[i].used && y <= i && bs[i].size >= req + 2
    ensures NextFree(Take(bs, i, req), y) == if NextFree(bs, y) == i then i + 1 else NextFree(bs, y)
    ensures NextFree(bs, y) <= i
  {
    NextFreeIs(Take(bs, i, req), y, if NextFree(bs, y) == i then i + 1 else NextFree(bs, y));
  }

  lemma SplitNextAfter(bs: seq<Block>, y: nat, i: nat, req: nat)
    requires i < |bs| && i < y <= |bs| && bs[i].size >= req + 2
    ensures NextFree(Take(bs, i, req), y + 1) == NextFree(bs, y) + 1
  {
    var r := Take(bs, i, req);
    var v := NextFree(bs, y) + 1;
    forall k: nat | y + 1 <= k < v ensures r[k].used { assert bs[k - 1].used; }
    NextFreeIs(r, y + 1, v);
  }

  lemma SplitAddr(bs: seq<Block>, i: nat, req: nat, v: nat)
    requires i < |bs| && bs[i].size >= req + 2 && i < v
    ensures Addr(Take(bs, i, req), v + 1) == Addr(bs, v)
    ensures v < |bs| ==> Take(bs, i, req)[v + 1] == bs[v]
  {
  }

  // The header split off lies strictly inside block i.
  lemma RestInside(bs: seq<Block>, i: nat, req: nat, x: nat)
    requires Row(bs, 0, POOL) && i < |bs| && bs[i].size >= req + 2 && x < |bs|
    ensures bs[x].start != bs[i].start + 1 + req && bs[i].start + 1 + req < POOL
  {
    if x < i { Ordered(bs, 0, POOL, x, i); } else if i < x { Ordered(bs, 0, POOL, i, x); }
    Inside(bs, 0, POOL, i);
  }

  lemma SplitChain(cells: seq<Cell>, head: int, bs: seq<Block>, j: nat, i: nat, req: nat)
    requires Row(bs, 0, POOL) && |cells| == POOL && Headers(cells, bs) && Chain(cells, head, bs) && Before(bs, j, i)
    requires bs[i].size >= req + 2
    ensures bs[i].start + 1 + req < POOL && cells[bs[i].start].size >= ALIGN * (req + 1)
    ensures var r := SplitCells(cells, Addr(bs, j), bs[i].start, req);
            var bs' := Take(bs, i, req);
            Headers(r, bs') && Chain(r, if j < |bs| then head else bs[i].start + 1 + req, bs')
  {
    hide Row, Relink, SplitCells, LinkOk, Take;
    RestInside(bs, i, req, i);
    TakeParts(bs, i, req, i);
    assert HeaderOf(cells[bs[i].start], bs[i]);
    var bs' := Take(bs, i, req);
    var r := SplitCells(cells, Addr(bs, j), bs[i].start, req);
    hide HeaderOf;
    forall x: nat | x < |bs'| ensures bs'[x].start < |r| && HeaderOf(r[bs'[x].start], bs'[x]) && LinkOk(r, bs', x) {
      if x < i { SplitBefore(cells, head, bs, j, i, req, x); }
      else if x == i || x == i + 1 { SplitHere(cells, head, bs, j, i, req); }
      else { SplitAfter(cells, head, bs, j, i, req, x - 1); }
    }
    SplitNext(bs, 0, i, req);
    if j < |bs| {
      FirstBefore(bs, j, i);
      TakeParts(bs, i, req, NextFree(bs, 0));
    }
  }

  lemma SplitBefore(cells: seq<Cell>, head: int, bs: seq<Block>, j: nat, i: nat, req: nat, x: nat)
    requires Row(bs, 0, POOL) && |cells| == POOL && Headers(cells, bs) && Chain(cells, head, bs) && Before(bs, j, i)
    requires bs[i].size >= req + 2 && x < i
    requires bs[i].start + 1 + req < POOL && cells[bs[i].start].size >= ALIGN * (req + 1)
    ensures var r := SplitCells(cells, Addr(bs, j), bs[i].start, req);
            var bs' := Take(bs, i, req);
            bs'[x].start < POOL && HeaderOf(r[bs'[x].start], bs'[x]) && LinkOk(r, bs', x)
  {
    hide Row, NextFree, Take, SplitCells;
    StartsDiffer(bs, x, i);
    RestInside(bs, i, req, x);
    if j < |bs| { StartsDiffer(bs, x, j); StartsDiffer(bs, j, i); RestInside(bs, i, req, j); }
    SplitCellsAt(cells, Addr(bs, j), bs[i].start, req, bs[x].start);
    TakeParts(bs, i, req, x);
    TakeParts(bs, i, req, NextFree(bs, x + 1));
    assert LinkOk(cells, bs, x);
    SplitNext(bs, x + 1, i, req);
    if !bs[x].used { OnlyBefore(bs, j, i, x); }
  }

  lemma SplitHere(cells: seq<Cell>, head: int, bs: seq<Block>, j: nat, i: nat, req: nat)
    requires Row(bs, 0, POOL) && |cells| == POOL && Headers(cells, bs) && Chain(cells, head, bs) && Before(bs, j, i)
    requires bs[i].size >= req + 2
    requires bs[i].start + 1 + req < POOL && cells[bs[i].start].size >= ALIGN * (req + 1)
    ensures var r := SplitCells(cells, Addr(bs, j), bs[i].start, req);
            var bs' := Take(bs, i, req);
            && bs'[i].start < POOL && HeaderOf(r[bs'[i].start], bs'[i]) && LinkOk(r, bs', i)
            && bs'[i + 1].start < POOL && HeaderOf(r[bs'[i + 1].start], bs'[i + 1]) && LinkOk(r, bs', i + 1)
  {
    hide Row, NextFree, Take, SplitCells;
    RestInside(bs, i, req, i);
    if j < |bs| { StartsDiffer(bs, j, i); RestInside(bs, i, req, j); }
    SplitCellsAt(cells, Addr(bs, j), bs[i].start, req, 0);
    TakeParts(bs, i, req, i);
    NextAddr(cells, head, bs, i);
    SplitNextAfter(bs, i + 1, i, req);
    SplitAddr(bs, i, req, NextFree(bs, i + 1));
  }

  lemma SplitAfter(cells: seq<Cell>, head: int, bs: seq<Block>, j: nat, i: nat, req: nat, x: nat)
    requires Row(bs, 0, POOL) && |cells| == POOL && Headers(cells, bs) && Chain(cells, head, bs) && Before(bs, j, i)
    requires bs[i].size >= req + 2 && i < x < |bs|
    requires bs[i].start + 1 + req < POOL && cells[bs[i].start].size >= ALIGN * (req + 1)
    ensures var r := SplitCells(cells, Addr(bs, j), bs[i].start, req);
            var bs' := Take(bs, i, req);
            bs'[x + 1].start < POOL && HeaderOf(r[bs'[x + 1].start], bs'[x + 1]) && LinkOk(r, bs', x + 1)
  {
    hide Row, NextFree, Take, SplitCells;
    StartsDiffer(bs, x, i);
    RestInside(bs, i, req, x);
    if j < |bs| { StartsDiffer(bs, x, j); StartsDiffer(bs, j, i); RestInside(bs, i, req, j); }
    SplitCellsAt(cells, Addr(bs, j), bs[i].start, req, bs[x].start);
    TakeParts(bs, i, req, x);
    assert LinkOk(cells, bs, x);
    SplitNextAfter(bs, x + 1, i, req);
    SplitAddr(bs, i, req, x);
    SplitAddr(bs, i, req, NextFree(bs, x + 1));
  }
}
