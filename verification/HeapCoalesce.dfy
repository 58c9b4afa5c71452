// The loop of heap_coalesce: merging the blocks seen so far while threading the free list
// behind it.
module HeapCoalesce {
  import opened Heap
  import opened HeapLinks
  import opened HeapProof

  ghost function LastFree(ms: seq<Block>): (r: nat)
    ensures r <= |ms| && (r < |ms| ==> !ms[r].used && forall k: nat | r < k < |ms| :: ms[k].used)
    ensures r == |ms| ==> forall k: nat | k < |ms| :: ms[k].used
  {
    if ms == [] then 0
    else if !ms[|ms| - 1].used then |ms| - 1
    else var r := LastFree(ms[..|ms| - 1]); if r < |ms| - 1 then r else |ms|
  }

  lemma LastFreeIs(ms: seq<Block>, v: nat)
    requires v < |ms| && !ms[v].used && forall k: nat | v < k < |ms| :: ms[k].used
    ensures LastFree(ms) == v
  {
  }

  // The list over ms is complete but for the link of its last free block, which link names.
  ghost predicate Open(cells: seq<Cell>, head: int, ms: seq<Block>, link: int) {
    && link == Addr(ms, LastFree(ms))
    && (LastFree(ms) < |ms| ==> head == Addr(ms, NextFree(ms, 0)))
    && forall i: nat | i < |ms| && i != LastFree(ms) :: LinkOk(cells, ms, i)
  }

  ghost function RunOf(ms: seq<Block>): int {
    if ms != [] && !ms[|ms| - 1].used then ms[|ms| - 1].start else NULL
  }

  // The places of ms lie before those of the rest.
  ghost predicate Starts(cells: seq<Cell>, ms: seq<Block>, cur: nat) {
    && (forall i: nat | i < |ms| :: ms[i].start < cur)
    && (forall i: nat, j: nat | i < j < |ms| :: ms[i].start < ms[j].start)
    && cur <= |cells|
  }

  lemma NextAppend(ms: seq<Block>, b: Block, y: nat)
    requires y <= |ms|
    ensures NextFree(ms + [b], y) == if NextFree(ms, y) < |ms| then NextFree(ms, y) else if b.used then |ms| + 1
              else |ms|
  {
    NextFreeIs(ms + [b], y, if NextFree(ms, y) < |ms| then NextFree(ms, y) else if b.used then |ms| + 1 else |ms|);
  }

  lemma BelowLast(ms: seq<Block>, y: nat)
    requires LastFree(ms) < |ms| && y <= LastFree(ms)
    ensures NextFree(ms, y) <= LastFree(ms)
  {
  }

  lemma LastAppend(ms: seq<Block>, b: Block)
    ensures LastFree(ms + [b]) == if !b.used then |ms| else if LastFree(ms) < |ms| then LastFree(ms) else |ms| + 1
  {
    assert (ms + [b])[..|ms|] == ms;
  }

  lemma OpenUsed(cells: seq<Cell>, head: int, ms: seq<Block>, link: int, b: Block)
    requires Open(cells, head, ms, link) && b.used && b.start < |cells|
    ensures Open(cells, head, ms + [b], link)
  {
    hide LastFree, NextFree;
    LastAppend(ms, b);
    forall i: nat | i < |ms| + 1 && i != LastFree(ms + [b]) ensures LinkOk(cells, ms + [b], i) {
      if i < |ms| && !ms[i].used {
        assert LinkOk(cells, ms, i);
        NextAppend(ms, b, i + 1);
        BelowLast(ms, i + 1);
      } else if i < |ms| {
        assert LinkOk(cells, ms, i);
      }
    }
    NextAppend(ms, b, 0);
    if LastFree(ms) < |ms| { BelowLast(ms, 0); }
  }

  lemma OpenNew(cells: seq<Cell>, head: int, ms: seq<Block>, link: int, b: Block)
    requires Open(cells, head, ms, link) && !b.used && b.start < |cells| && Starts(cells, ms, b.start)
    ensures Open(Relink(cells, link, b.start), if link == NULL then b.start else head, ms + [b], b.start)
  {
    hide LastFree, NextFree;
    LastAppend(ms, b);
    var r := Relink(cells, link, b.start);
    var L := LastFree(ms);
    forall i: nat | i < |ms| ensures LinkOk(r, ms + [b], i) {
      NextAppend(ms, b, i + 1);
      if i != L {
        assert LinkOk(cells, ms, i);
        if !ms[i].used { BelowLast(ms, i + 1); }
      } else {
        AfterLast(ms);
      }
    }
    NextAppend(ms, b, 0);
    if L < |ms| { BelowLast(ms, 0); } else { NoneFree(ms); }
  }

  lemma AfterLast(ms: seq<Block>)
    requires LastFree(ms) < |ms|
    ensures NextFree(ms, LastFree(ms) + 1) == |ms|
  {
    NextFreeIs(ms, LastFree(ms) + 1, |ms|);
  }

  lemma NoneFree(ms: seq<Block>)
    requires LastFree(ms) == |ms|
    ensures NextFree(ms, 0) == |ms|
  {
    NextFreeIs(ms, 0, |ms|);
  }

  // Growing the last block changes neither the order nor the links.
  lemma OpenGrow(cells: seq<Cell>, head: int, ms: seq<Block>, link: int, b: Block, c: Cell)
    requires Open(cells, head, ms, link) && ms != [] && !ms[|ms| - 1].used && !b.used
    requires ms[|ms| - 1].start < |cells| && c.next == cells[ms[|ms| - 1].start].next
    ensures Open(cells[ms[|ms| - 1].start := c], head, Attach(ms, b), link)
  {
    hide LastFree, NextFree;
    var m, r := Attach(ms, b), cells[ms[|ms| - 1].start := c];
    SameFlags(ms, m);
    forall i: nat | i < |m| && i != LastFree(m) ensures LinkOk(r, m, i) {
      assert LinkOk(cells, ms, i);
      SameNext(ms, m, i + 1);
    }
    SameNext(ms, m, 0);
  }

  lemma SameFlags(ms: seq<Block>, m: seq<Block>)
    requires |ms| == |m| && forall i: nat | i < |ms| :: m[i].used == ms[i].used
    ensures LastFree(m) == LastFree(ms)
  {
    if LastFree(ms) < |ms| { LastFreeIs(m, LastFree(ms)); }
  }

  lemma SameNext(ms: seq<Block>, m: seq<Block>, y: nat)
    requires |ms| == |m| && y <= |m| && forall i: nat | i < |ms| :: m[i].used == ms[i].used
    ensures NextFree(m, y) == NextFree(ms, y)
  {
    NextFreeIs(m, y, NextFree(ms, y));
  }

  // Ending the list.
  lemma OpenClose(cells: seq<Cell>, head: int, ms: seq<Block>, link: int)
    requires Open(cells, head, ms, link) && Starts(cells, ms, |cells|)
    ensures Chain(Relink(cells, link, NULL), if link == NULL then NULL else head, ms)
  {
    hide LastFree, NextFree;
    var L, r := LastFree(ms), Relink(cells, link, NULL);
    forall i: nat | i < |ms| ensures LinkOk(r, ms, i) {
      if i == L { AfterLast(ms); } else { assert LinkOk(cells, ms, i); }
    }
    if L == |ms| { NoneFree(ms); }
  }

  // ---- the loop ----

  // Granule y carries the header of a block.
  ghost predicate IsHeader(bs: seq<Block>, y: int) {
    exists i: nat :: i < |bs| && bs[i].start == y
  }

  ghost function Cursor(bs: seq<Block>, k: nat): nat {
    if k < |bs| then bs[k].start else POOL
  }

  // heap_coalesce has dealt with the first k blocks.
  ghost predicate Progress(cells: seq<Cell>, head: int, bs: seq<Block>, k: nat, link: int, run: int) {
    && k <= |bs| && |cells| == POOL && Row(bs, 0, POOL)
    && run == RunOf(Merge(bs[..k])) && Headers(cells, Merge(bs[..k])) && Headers(cells, bs[k..])
    && Open(cells, head, Merge(bs[..k]), link)
  }

  lemma Begin(cells: seq<Cell>, head: int, bs: seq<Block>)
    requires |cells| == POOL && bs != [] && Row(bs, 0, POOL) && Headers(cells, bs)
    ensures Progress(cells, head, bs, 0, NULL, NULL) && Cursor(bs, 0) == 0
  {
    assert bs[..0] == [] && bs[0..] == bs;
  }

  lemma CursorStep(bs: seq<Block>, k: nat)
    requires Row(bs, 0, POOL) && k < |bs|
    ensures Cursor(bs, k + 1) == End(bs[k]) && bs[k].start < POOL
  {
    Inside(bs, 0, POOL, k);
    if k + 1 < |bs| { assert Touch(bs, k); }
  }

  lemma MergeNext(bs: seq<Block>, k: nat)
    requires k < |bs|
    ensures Merge(bs[..k + 1]) == Attach(Merge(bs[..k]), bs[k])
  {
    assert bs[..k + 1][..k] == bs[..k];
  }

  lemma {:induction false} MergeStarts(bs: seq<Block>, i: nat)
    requires i < |Merge(bs)|
    ensures IsHeader(bs, Merge(bs)[i].start)
  {
    if bs != [] {
      var init, b := bs[..|bs| - 1], bs[|bs| - 1];
      if i < |Merge(init)| {
        MergeStarts(init, i);
        var j: nat :| j < |init| && init[j].start == Merge(init)[i].start;
        assert bs[j].start == Merge(bs)[i].start;
      } else {
        assert bs[|bs| - 1].start == Merge(bs)[i].start;
      }
    }
  }

  // The blocks merged so far lie, in order, before the cursor.
  lemma MergedStarts(cells: seq<Cell>, bs: seq<Block>, k: nat)
    requires |cells| == POOL && Row(bs, 0, POOL) && k <= |bs|
    ensures Starts(cells, Merge(bs[..k]), Cursor(bs, k))
  {
    hide Row, Merge;
    if k < |bs| { RowSplit(bs, 0, POOL, k); Inside(bs, 0, POOL, k); } else { assert bs[..k] == bs; }
    var ms, cur := Merge(bs[..k]), Cursor(bs, k);
    MergeRow(bs[..k], cur);
    forall i: nat | i < |ms| ensures ms[i].start < cur { Inside(ms, 0, cur, i); }
    forall i: nat, j: nat | i < j < |ms| ensures ms[i].start < ms[j].start { Ordered(ms, 0, cur, i, j); }
  }

  lemma RestHeaders(cells: seq<Cell>, bs: seq<Block>, k: nat)
    requires k < |bs| && Headers(cells, bs[k..])
    ensures bs[k].start < |cells| && HeaderOf(cells[bs[k].start], bs[k]) && Headers(cells, bs[k + 1..])
  {
    assert bs[k..][0] == bs[k];
    var rest := bs[k + 1..];
    forall i: nat | i < |rest| ensures rest[i].start < |cells| && HeaderOf(cells[rest[i].start], rest[i]) {
      assert rest[i] == bs[k..][i + 1];
    }
  }

  lemma HeadersAppend(cells: seq<Cell>, ms: seq<Block>, b: Block)
    requires Headers(cells, ms) && b.start < |cells| && HeaderOf(cells[b.start], b)
    ensures Headers(cells, ms + [b])
  {
  }

  lemma HeadersRelink(cells: seq<Cell>, bs: seq<Block>, at: int, v: int)
    requires Headers(cells, bs)
    ensures Headers(Relink(cells, at, v), bs)
  {
  }

  lemma StepUsed(cells: seq<Cell>, head: int, bs: seq<Block>, k: nat, link: int, run: int)
    requires Progress(cells, head, bs, k, link, run) && k < |bs| && bs[k].used
    ensures Progress(cells, head, bs, k + 1, link, NULL)
  {
    hide Row, Merge, Open, Headers;
    MergeNext(bs, k);
    RestHeaders(cells, bs, k);
    HeadersAppend(cells, Merge(bs[..k]), bs[k]);
    OpenUsed(cells, head, Merge(bs[..k]), link, bs[k]);
  }

  lemma StepNew(cells: seq<Cell>, head: int, bs: seq<Block>, k: nat, link: int, run: int)
    requires Progress(cells, head, bs, k, link, run) && k < |bs| && !bs[k].used && run == NULL
    ensures var cur := bs[k].start;
            Progress(Relink(cells, link, cur), if link == NULL then cur else head, bs, k + 1, cur, cur)
  {
    hide Row, Merge, Open, Headers, Relink;
    var ms, cur := Merge(bs[..k]), bs[k].start;
    MergeNext(bs, k);
    RestHeaders(cells, bs, k);
    MergedStarts(cells, bs, k);
    NoRun(ms, cur);
    assert Attach(ms, bs[k]) == ms + [bs[k]];
    HeadersAppend(cells, ms, bs[k]);
    HeadersRelink(cells, ms + [bs[k]], link, cur);
    HeadersRelink(cells, bs[k + 1..], link, cur);
    OpenNew(cells, head, ms, link, bs[k]);
  }

  lemma NoRun(ms: seq<Block>, cur: nat)
    requires RunOf(ms) == NULL
    ensures ms != [] ==> ms[|ms| - 1].used
  {
  }

  lemma StepGrow(cells: seq<Cell>, head: int, bs: seq<Block>, k: nat, link: int, run: int)
    requires Progress(cells, head, bs, k, link, run) && k < |bs| && !bs[k].used && run != NULL
    ensures 0 <= run < POOL && run != bs[k].start && bs[k].start < POOL
    ensures Progress(cells[run := cells[run].(size := cells[run].size + ALIGN + cells[bs[k].start].size)], head, bs,
                     k + 1, link, run)
  {
    hide Row, Merge, Open;
    var ms := Merge(bs[..k]);
    MergeNext(bs, k);
    RestHeaders(cells, bs, k);
    MergedStarts(cells, bs, k);
    var c := cells[run].(size := cells[run].size + ALIGN + cells[bs[k].start].size);
    OpenGrow(cells, head, ms, link, bs[k], c);
    GrowHeaders(cells, ms, bs[k], c);
    var rest := bs[k + 1..];
    forall i: nat | i < |rest| ensures rest[i].start != run {
      Ordered(bs, 0, POOL, k, k + 1 + i);
    }
  }

  lemma GrowHeaders(cells: seq<Cell>, ms: seq<Block>, b: Block, c: Cell)
    requires ms != [] && !ms[|ms| - 1].used && !b.used && Headers(cells, ms) && b.start < |cells|
             && HeaderOf(cells[b.start], b)
    requires Starts(cells, ms, b.start)
    requires c.magic == MAGIC_FREE && c.size == cells[ms[|ms| - 1].start].size + ALIGN + cells[b.start].size
    ensures Headers(cells[ms[|ms| - 1].start := c], Attach(ms, b))
  {
    var m, last := Attach(ms, b), |ms| - 1;
    forall i: nat | i < |m| ensures HeaderOf(cells[ms[last].start := c][m[i].start], m[i]) {
      assert HeaderOf(cells[ms[i].start], ms[i]);
    }
  }

  lemma Finish(cells: seq<Cell>, head: int, bs: seq<Block>, link: int, run: int)
    requires Progress(cells, head, bs, |bs|, link, run)
    ensures var r := Relink(cells, link, NULL);
            Headers(r, Merge(bs)) && Chain(r, if link == NULL then NULL else head, Merge(bs))
  {
    hide Row, Merge, Open, Headers;
    assert bs[..|bs|] == bs;
    MergedStarts(cells, bs, |bs|);
    OpenClose(cells, head, Merge(bs), link);
    HeadersRelink(cells, Merge(bs), link, NULL);
  }

  // The loop only writes to headers.
  lemma WritesHeaders(cells: seq<Cell>, head: int, bs: seq<Block>, k: nat, link: int, run: int)
    requires Progress(cells, head, bs, k, link, run)
    ensures link == NULL || (IsHeader(bs, link) && 0 <= link < POOL)
    ensures run == NULL || (IsHeader(bs, run) && 0 <= run < POOL)
  {
    hide Row, Merge, Headers;
    var ms := Merge(bs[..k]);
    if LastFree(ms) < |ms| { PrefixHeader(bs, k, LastFree(ms)); }
    if run != NULL { PrefixHeader(bs, k, |ms| - 1); }
  }

  lemma PrefixHeader(bs: seq<Block>, k: nat, i: nat)
    requires Row(bs, 0, POOL) && k <= |bs| && i < |Merge(bs[..k])|
    ensures IsHeader(bs, Merge(bs[..k])[i].start) && Merge(bs[..k])[i].start < POOL
  {
    hide Row, Merge;
    MergeStarts(bs[..k], i);
    var j: nat :| j < |bs[..k]| && bs[..k][j].start == Merge(bs[..k])[i].start;
    assert bs[j].start == Merge(bs[..k])[i].start;
    Inside(bs, 0, POOL, j);
  }
}
