// The malloc/free of libc/src/stdlib.c, on values: the 512 KiB pool as a row of blocks.
// Places and sizes are counted in granules of 16 bytes; a header fills one granule.
module Heap {
  import opened Basics

  const ALIGN: nat := 16
  const POOL_BYTES: nat := 512 * 1024
  const POOL: nat := POOL_BYTES / ALIGN

  // A block: the place of its header, the granules of payload behind it, and whether it is
  // handed out.
  datatype Block = Block(start: nat, size: nat, used: bool)

  function End(b: Block): nat { b.start + 1 + b.size }

  ghost predicate Row(bs: seq<Block>, from: nat, to: nat) {
    && (bs == [] ==> from == to)
    && (bs != [] ==> bs[0].start == from && End(bs[|bs| - 1]) == to)
    && (forall i: nat | i < |bs| :: bs[i].size >= 1)
    && (forall i: nat | i + 1 < |bs| :: Touch(bs, i))
  }

  ghost predicate Touch(bs: seq<Block>, i: nat)
    requires i + 1 < |bs|
  {
    bs[i + 1].start == End(bs[i])
  }

  ghost predicate Apart(bs: seq<Block>, i: nat)
    requires i + 1 < |bs|
  {
    bs[i].used || bs[i + 1].used
  }

  // No two neighbours are both free.
  ghost predicate Merged(bs: seq<Block>) {
    forall i: nat | i + 1 < |bs| :: Apart(bs, i)
  }

  // The blocks tile the pool, and free space is never left in two adjacent pieces.
  ghost predicate Shape(bs: seq<Block>) {
    bs != [] && Row(bs, 0, POOL) && Merged(bs)
  }

  const FRESH: seq<Block> := [Block(0, POOL - 1, false)]

  // ---- malloc ----

  // malloc's rounding: at least one byte, then up to whole granules.
  function Granules(bytes: nat): (r: nat)
    ensures r >= 1 && r * ALIGN >= bytes && (if bytes == 0 then r == 1 else (r - 1) * ALIGN < bytes)
  {
    ((if bytes == 0 then 1 else bytes) + (ALIGN - 1)) / ALIGN
  }

  predicate Fits(b: Block, req: nat) {
    !b.used && b.size >= req
  }

  // First fit from index i on; |bs| means none.
  function FirstFit(bs: seq<Block>, req: nat, i: nat): (r: nat)
    requires i <= |bs|
    ensures i <= r <= |bs| && (r < |bs| ==> Fits(bs[r], req))
    ensures forall k: nat | i <= k < r :: !Fits(bs[k], req)
    decreases |bs| - i
  {
    if i == |bs| then i else if Fits(bs[i], req) then i else FirstFit(bs, req, i + 1)
  }

  // Hand out block k, splitting off the rest when it can hold a header and one granule.
  function Take(bs: seq<Block>, k: nat, req: nat): seq<Block>
    requires k < |bs|
  {
    var b := bs[k];
    if b.size >= req + 2 then
      bs[..k] + [Block(b.start, req, true), Block(b.start + 1 + req, b.size - req - 1, false)] + bs[k + 1..]
    else bs[k := b.(used := true)]
  }

  datatype Got = Got(bs: seq<Block>, at: Option<nat>)

  function Malloc(bs: seq<Block>, bytes: nat): Got {
    if bytes > POOL_BYTES then Got(bs, None)
    else
      var req := Granules(bytes);
      var k := FirstFit(bs, req, 0);
      if k == |bs| then Got(bs, None) else Got(Take(bs, k, req), Some(bs[k].start))
  }

  // ---- free ----

  // heap_coalesce takes the blocks from left to right.
  function Attach(ms: seq<Block>, b: Block): (r: seq<Block>)
    ensures r != []
  {
    if !b.used && ms != [] && !ms[|ms| - 1].used then
      ms[|ms| - 1 := ms[|ms| - 1].(size := ms[|ms| - 1].size + 1 + b.size)]
    else ms + [b]
  }

  function Merge(bs: seq<Block>): seq<Block> {
    if bs == [] then [] else Attach(Merge(bs[..|bs| - 1]), bs[|bs| - 1])
  }

  // The index of the block in use whose header is at this place; |bs| means none.
  function LiveAt(bs: seq<Block>, start: int, i: nat): (r: nat)
    requires i <= |bs|
    ensures i <= r <= |bs| && (r < |bs| ==> bs[r].used && bs[r].start == start)
    ensures forall k: nat | i <= k < r :: !(bs[k].used && bs[k].start == start)
    decreases |bs| - i
  {
    if i == |bs| || (bs[i].used && bs[i].start == start) then i else LiveAt(bs, start, i + 1)
  }

  // Free the block whose header is at this place; any other place is ignored.
  function Free(bs: seq<Block>, start: int): seq<Block> {
    var k := LiveAt(bs, start, 0);
    if k == |bs| then bs else Merge(bs[k := bs[k].(used := false)])
  }

  // ---- the row ----

  lemma {:induction false} Ordered(bs: seq<Block>, from: nat, to: nat, i: nat, j: nat)
    requires Row(bs, from, to) && i < j < |bs|
    ensures End(bs[i]) <= bs[j].start
    decreases j
  {
    assert Touch(bs, j - 1);
    if i < j - 1 { Ordered(bs, from, to, i, j - 1); }
  }

  lemma Inside(bs: seq<Block>, from: nat, to: nat, i: nat)
    requires Row(bs, from, to) && i < |bs|
    ensures from <= bs[i].start && End(bs[i]) <= to
  {
    if i > 0 { Ordered(bs, from, to, 0, i); }
    if i + 1 < |bs| { Ordered(bs, from, to, i, |bs| - 1); }
  }

  lemma RowSplit(bs: seq<Block>, from: nat, to: nat, k: nat)
    requires Row(bs, from, to) && k < |bs|
    ensures Row(bs[..k], from, bs[k].start) && Row(bs[k..], bs[k].start, to)
  {
    if k > 0 { assert Touch(bs, k - 1); }
    forall i: nat | i + 1 < k ensures Touch(bs[..k], i) { assert Touch(bs, i); }
    forall i: nat | i + 1 < |bs| - k ensures Touch(bs[k..], i) { assert Touch(bs, k + i); }
  }

  lemma RowJoin(xs: seq<Block>, bs: seq<Block>, from: nat, mid: nat, to: nat)
    requires Row(xs, from, mid) && Row(bs, mid, to)
    ensures Row(xs + bs, from, to)
  {
    forall i: nat | i + 1 < |xs + bs| ensures Touch(xs + bs, i) {
      if i + 1 < |xs| { assert Touch(xs, i); }
      else if i >= |xs| { assert Touch(bs, i - |xs|); }
    }
  }
}
