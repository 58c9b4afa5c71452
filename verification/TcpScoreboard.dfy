// The bounded retransmission scoreboard of net/net_tcp.c: eight entries that cover the
// unacknowledged part of the stream, with the SACK marks that drive selective resending.
module TcpScoreboard {
  import opened TcpParams
  import opened SeqNum

  const ENTRIES: nat := 8

  datatype Entry = Entry(start: U32, len: nat, sacked: bool, lost: bool, retx: bool)

  datatype Block = Block(left: U32, right: U32)

  function Fresh(start: U32, len: nat): Entry {
    Entry(start, len, false, false, false)
  }

  // tcp_tx_add: a full board folds the new range into its last entry.
  function Add(tx: seq<Entry>, start: U32, len: nat): seq<Entry> {
    if len == 0 || len > MSS then tx
    else if |tx| >= ENTRIES then
      var last := tx[|tx| - 1];
      if start == Plus(last.start, last.len) && last.len + len <= BUF
      then tx[|tx| - 1 := last.(len := last.len + len)]
      else tx
    else tx + [Fresh(start, len)]
  }

  // tcp_tx_ack: entries below the ACK go, the one it cuts is trimmed and loses its marks.
  function Ack(tx: seq<Entry>, ack: U32): seq<Entry> {
    if tx == [] then []
    else
      var e := tx[0];
      var end := Plus(e.start, e.len);
      if !After(end, ack) then Ack(tx[1..], ack)
      else if Before(e.start, ack) then [Fresh(ack, Minus(end, ack))] + Ack(tx[1..], ack)
      else [e] + Ack(tx[1..], ack)
  }

  // The highest right edge, starting from una.
  function High(una: U32, sacks: seq<Block>): U32 {
    if sacks == [] then una
    else
      var h := High(una, sacks[..|sacks| - 1]);
      var r := sacks[|sacks| - 1].right;
      if After(r, h) then r else h
  }

  predicate CoveredBy(e: Entry, b: Block) {
    !Before(e.start, b.left) && !After(Plus(e.start, e.len), b.right)
  }

  predicate Covered(e: Entry, sacks: seq<Block>) {
    exists i: nat :: i < |sacks| && CoveredBy(e, sacks[i])
  }

  function Mark(e: Entry, sacks: seq<Block>, high: U32): Entry {
    e.(sacked := Covered(e, sacks), lost := !Covered(e, sacks) && Before(e.start, high))
  }

  // tcp_tx_sack: every entry is judged anew against the blocks of this segment.
  function Sack(tx: seq<Entry>, una: U32, sacks: seq<Block>): (r: seq<Entry>)
    ensures |r| == |tx|
  {
    seq(|tx|, i requires 0 <= i < |tx| => Mark(tx[i], sacks, High(una, sacks)))
  }

  function ClearMarks(tx: seq<Entry>): (r: seq<Entry>)
    ensures |r| == |tx|
  {
    seq(|tx|, i requires 0 <= i < |tx| => tx[i].(sacked := false, lost := false, retx := false))
  }

  // The SACK block intake of tcp_parse_opts: blocks are checked against the send window,
  // clipped at una, and at most two different ones are kept.
  function Intake(una: U32, nxt: U32, raw: seq<Block>, i: nat): (r: seq<Block>)
    requires i <= |raw|
    ensures |r| <= 2
  {
    if i == 0 then []
    else
      var kept := Intake(una, nxt, raw, i - 1);
      if |kept| >= 2 then kept
      else
        var b := raw[i - 1];
        if !Before(b.left, b.right) || After(b.right, nxt) || Before(b.right, una) then kept
        else
          var c := Block(if Before(b.left, una) then una else b.left, b.right);
          if c in kept then kept else kept + [c]
  }

  // ---- the board as a tiling of stream positions [lo, hi) ----

  ghost predicate Tiles(tx: seq<Entry>, base: U32, lo: int, hi: int) {
    if tx == [] then lo == hi
    else tx[0].start == Image(base, lo) && tx[0].len >= 1 && Tiles(tx[1..], base, lo + tx[0].len, hi)
  }

  lemma {:induction false} TilesBound(tx: seq<Entry>, base: U32, lo: int, hi: int)
    requires Tiles(tx, base, lo, hi)
    ensures lo <= hi && (tx == [] <==> lo == hi)
    ensures tx != [] ==> lo + tx[0].len <= hi
  {
    if tx != [] { TilesBound(tx[1..], base, lo + tx[0].len, hi); }
  }

  lemma {:induction false} TilesAppend(tx: seq<Entry>, base: U32, lo: int, mid: int, e: Entry)
    requires Tiles(tx, base, lo, mid) && e.start == Image(base, mid) && e.len >= 1
    ensures Tiles(tx + [e], base, lo, mid + e.len)
  {
    if tx == [] {
      assert tx + [e] == [e] && [e][1..] == [];
    } else {
      TilesAppend(tx[1..], base, lo + tx[0].len, mid, e);
      assert (tx + [e])[1..] == tx[1..] + [e];
    }
  }

  // Two boards with the same ranges tile the same positions.
  lemma {:induction false} TilesMarks(tx: seq<Entry>, tx': seq<Entry>, base: U32, lo: int, hi: int)
    requires Tiles(tx, base, lo, hi) && |tx'| == |tx|
    requires forall i: nat | i < |tx| :: tx'[i].start == tx[i].start && tx'[i].len == tx[i].len
    ensures Tiles(tx', base, lo, hi)
  {
    if tx != [] { TilesMarks(tx[1..], tx'[1..], base, lo + tx[0].len, hi); }
  }

  lemma {:induction false} TilesGrowLast(tx: seq<Entry>, base: U32, lo: int, hi: int, n: nat)
    requires Tiles(tx, base, lo, hi) && tx != []
    ensures var k := |tx| - 1;
            && Plus(tx[k].start, tx[k].len) == Image(base, hi)
            && Tiles(tx[k := tx[k].(len := tx[k].len + n)], base, lo, hi + n)
            && tx[k].len <= hi - lo
  {
    var k := |tx| - 1;
    var grown := tx[k := tx[k].(len := tx[k].len + n)];
    if k == 0 {
      assert tx[1..] == [] && grown[1..] == [];
      ImagePlus(base, lo, tx[0].len);
    } else {
      TilesGrowLast(tx[1..], base, lo + tx[0].len, hi, n);
      assert grown[1..] == tx[1..][k - 1 := tx[k].(len := tx[k].len + n)];
    }
  }

  // New data keeps the board a tiling, also when it is full.
  lemma AddTiles(tx: seq<Entry>, base: U32, lo: int, hi: int, n: nat)
    requires Tiles(tx, base, lo, hi) && |tx| <= ENTRIES && 1 <= n <= MSS && hi + n - lo <= BUF
    ensures Tiles(Add(tx, Image(base, hi), n), base, lo, hi + n)
    ensures |Add(tx, Image(base, hi), n)| <= ENTRIES
  {
    hide Image, Plus;
    if |tx| >= ENTRIES {
      TilesGrowLast(tx, base, lo, hi, n);
    } else {
      TilesAppend(tx, base, lo, hi, Fresh(Image(base, hi), n));
    }
  }

  // An ACK inside the window leaves a tiling of what remains.
  lemma {:induction false} AckTiles(tx: seq<Entry>, base: U32, lo: int, hi: int, a: int)
    requires Tiles(tx, base, lo, hi) && a <= hi && lo - a < HALF && hi - lo < HALF && hi - a < HALF
    ensures var r := Ack(tx, Image(base, a));
            Tiles(r, base, if lo <= a then a else lo, hi) && |r| <= |tx|
  {
    hide Image, Plus, After, Before, Minus;
    if tx != [] {
      TilesBound(tx, base, lo, hi);
      var e := tx[0];
      var end := lo + e.len;
      ImagePlus(base, lo, e.len);
      if end <= a {
        AckCompare(base, lo, end, a, hi);
        AckTiles(tx[1..], base, end, hi, a);
      } else {
        AckCompare(base, lo, end, a, hi);
        AckTiles(tx[1..], base, end, hi, a);
        var r := Ack(tx[1..], Image(base, a));
        if lo < a {
          var cut := Fresh(Image(base, a), end - a);
          assert Ack(tx, Image(base, a)) == [cut] + r && ([cut] + r)[1..] == r;
        } else {
          assert Ack(tx, Image(base, a)) == [e] + r && ([e] + r)[1..] == r;
        }
      }
    }
  }

  lemma AckCompare(base: U32, lo: int, end: int, a: int, hi: int)
    requires lo <= end <= hi && a <= hi && hi - lo < HALF && hi - a < HALF && lo - a < HALF
    ensures After(Image(base, end), Image(base, a)) <==> end > a
    ensures end > a ==> (Before(Image(base, lo), Image(base, a)) <==> lo < a)
    ensures end > a ==> Minus(Image(base, end), Image(base, a)) == end - a
  {
    ImageDiff(base, end, a);
    if end > a {
      ImageDiff(base, lo, a);
      ImageMinus(base, end, a);
    }
  }

  // ---- what the marks mean ----

  // Block b is the range [l, r) of stream positions.
  ghost predicate IsRange(b: Block, base: U32, l: int, r: int) {
    b.left == Image(base, l) && b.right == Image(base, r)
  }

  ghost predicate InWindow(b: Block, base: U32, lo: int, hi: int) {
    exists l: int, r: int :: lo <= l <= r <= hi && IsRange(b, base, l, r)
  }

  ghost predicate AllInWindow(sacks: seq<Block>, base: U32, lo: int, hi: int) {
    forall i: nat | i < |sacks| :: InWindow(sacks[i], base, lo, hi)
  }

  lemma ClipInWindow(b: Block, base: U32, lo: int, hi: int)
    requires lo <= hi && hi - lo < HALF
    requires Before(b.left, b.right) && !After(b.right, Image(base, hi)) && !Before(b.right, Image(base, lo))
    ensures InWindow(Block(if Before(b.left, Image(base, lo)) then Image(base, lo) else b.left, b.right), base, lo, hi)
  {
    var una := Image(base, lo);
    var r, l := lo + Diff(b.right, una), lo + Diff(b.left, una);
    DiffImage(base, b.right, lo);
    DiffImage(base, b.left, lo);
    ImageDiff(base, r, hi);
    if Before(b.left, una) {
      assert IsRange(Block(una, b.right), base, lo, r);
    } else {
      ImageDiff(base, l, r);
      assert IsRange(b, base, l, r);
    }
  }

  // Whatever blocks the peer sends, the ones kept lie inside the send window.
  lemma {:induction false} IntakeInWindow(base: U32, lo: int, hi: int, raw: seq<Block>, i: nat)
    requires lo <= hi && hi - lo < HALF && i <= |raw|
    ensures AllInWindow(Intake(Image(base, lo), Image(base, hi), raw, i), base, lo, hi)
  {
    hide Image, Before, After, InWindow;
    if i > 0 {
      IntakeInWindow(base, lo, hi, raw, i - 1);
      var b := raw[i - 1];
      if Before(b.left, b.right) && !After(b.right, Image(base, hi)) && !Before(b.right, Image(base, lo)) {
        ClipInWindow(b, base, lo, hi);
      }
    }
  }

  lemma {:induction false} HighPosition(base: U32, lo: int, hi: int, sacks: seq<Block>) returns (h: int)
    requires lo <= hi && hi - lo < HALF && AllInWindow(sacks, base, lo, hi)
    ensures lo <= h <= hi && High(Image(base, lo), sacks) == Image(base, h)
    ensures forall i: nat, l: int, r: int | i < |sacks| && lo <= l <= r <= hi && IsRange(sacks[i], base, l, r) :: r <= h
    ensures h == lo || exists i: nat, l: int :: i < |sacks| && lo <= l <= h && IsRange(sacks[i], base, l, h)
  {
    hide Image, After;
    if sacks == [] {
      h := lo;
    } else {
      var n := |sacks| - 1;
      var g := HighPosition(base, lo, hi, sacks[..n]);
      var l, r :| lo <= l <= r <= hi && IsRange(sacks[n], base, l, r);
      ImageDiff(base, r, g);
      h := if r > g then r else g;
      if r <= g && g != lo {
        var i: nat, l': int :| i < |sacks[..n]| && lo <= l' <= g && IsRange(sacks[..n][i], base, l', g);
        assert IsRange(sacks[i], base, l', g);
      }
      forall i: nat, l': int, r': int | i < |sacks| && lo <= l' <= r' <= hi && IsRange(sacks[i], base, l', r')
        ensures r' <= h
      {
        if i < n { assert IsRange(sacks[..n][i], base, l', r'); } else { ImageDiff(base, r, r'); }
      }
    }
  }

  // In a tiling every position of the window lies in exactly the entry found here.
  lemma {:induction false} FindEntry(tx: seq<Entry>, base: U32, lo: int, hi: int, p: int) returns (i: nat, q: int)
    requires Tiles(tx, base, lo, hi) && lo <= p < hi
    ensures i < |tx| && tx[i].start == Image(base, q) && lo <= q <= p < q + tx[i].len <= hi
  {
    TilesBound(tx, base, lo, hi);
    if p < lo + tx[0].len {
      i, q := 0, lo;
    } else {
      var j, r := FindEntry(tx[1..], base, lo + tx[0].len, hi, p);
      i, q := j + 1, r;
    }
  }

  lemma CoverMeans(e: Entry, b: Block, base: U32, lo: int, hi: int, q: int, l: int, r: int)
    requires e.start == Image(base, q) && lo <= q && q + e.len <= hi && hi - lo < HALF
    requires IsRange(b, base, l, r) && lo <= l <= r <= hi
    ensures CoveredBy(e, b) <==> l <= q && q + e.len <= r
  {
    ImagePlus(base, q, e.len);
    ImageDiff(base, q, l);
    ImageDiff(base, q + e.len, r);
  }

  ghost predicate Sacked(sacks: seq<Block>, base: U32, lo: int, hi: int, p: int) {
    exists i: nat, l: int, r: int :: i < |sacks| && lo <= l <= r <= hi && IsRange(sacks[i], base, l, r) && l <= p < r
  }

  // After tcp_tx_sack: an unsacked byte below the highest sacked byte lies in an entry that
  // is marked lost and not sacked.
  lemma SackHoles(tx: seq<Entry>, base: U32, lo: int, hi: int, sacks: seq<Block>, p: int, above: int)
    returns (i: nat, q: int)
    requires Tiles(tx, base, lo, hi) && hi - lo < HALF && AllInWindow(sacks, base, lo, hi)
    requires lo <= p < above && !Sacked(sacks, base, lo, hi, p) && Sacked(sacks, base, lo, hi, above)
    ensures var r := Sack(tx, Image(base, lo), sacks);
            && i < |r| && r[i].start == Image(base, q) && q <= p < q + r[i].len
            && r[i].lost && !r[i].sacked
  {
    hide Image, CoveredBy, Before, High;
    var h := HighPosition(base, lo, hi, sacks);
    assert above < h;
    i, q := FindEntry(tx, base, lo, hi, p);
    var e := tx[i];
    forall j: nat | j < |sacks| ensures !CoveredBy(e, sacks[j]) {
      var l, r :| lo <= l <= r <= hi && IsRange(sacks[j], base, l, r);
      CoverMeans(e, sacks[j], base, lo, hi, q, l, r);
    }
    ImageDiff(base, q, h);
  }

  // Block j of the option covers the positions from q up to end.
  ghost predicate BlockCovers(sacks: seq<Block>, base: U32, lo: int, hi: int, j: nat, l: int, u: int, q: int,
                              end: int) {
    j < |sacks| && lo <= l <= u <= hi && IsRange(sacks[j], base, l, u) && l <= q && end <= u
  }

  ghost predicate OneBlock(sacks: seq<Block>, base: U32, lo: int, hi: int, q: int, end: int) {
    exists j: nat, l: int, u: int :: BlockCovers(sacks, base, lo, hi, j, l, u, q, end)
  }

  // An entry is marked sacked if and only if one block covers all of it; it is then not marked
  // lost, and each of its bytes is sacked.
  lemma SackedMeans(tx: seq<Entry>, base: U32, lo: int, hi: int, sacks: seq<Block>, i: nat, q: int)
    requires hi - lo < HALF && AllInWindow(sacks, base, lo, hi) && i < |tx|
    requires tx[i].start == Image(base, q) && lo <= q && q + tx[i].len <= hi
    ensures var r := Sack(tx, Image(base, lo), sacks);
            && (r[i].sacked <==> OneBlock(sacks, base, lo, hi, q, q + tx[i].len))
            && (r[i].sacked ==> !r[i].lost && forall p: int | q <= p < q + tx[i].len :: Sacked(sacks, base, lo, hi, p))
  {
    hide Image, CoveredBy, Before, High;
    var e := tx[i];
    var r := Sack(tx, Image(base, lo), sacks);
    if r[i].sacked {
      var j: nat :| j < |sacks| && CoveredBy(e, sacks[j]);
      var l, u :| lo <= l <= u <= hi && IsRange(sacks[j], base, l, u);
      CoverMeans(e, sacks[j], base, lo, hi, q, l, u);
      assert BlockCovers(sacks, base, lo, hi, j, l, u, q, q + e.len);
    } else {
      forall j: nat, l: int, u: int | j < |sacks| && lo <= l <= u <= hi && IsRange(sacks[j], base, l, u)
        ensures !BlockCovers(sacks, base, lo, hi, j, l, u, q, q + tx[i].len)
      {
        CoverMeans(e, sacks[j], base, lo, hi, q, l, u);
      }
    }
  }

  lemma SackTiles(tx: seq<Entry>, base: U32, lo: int, hi: int, una: U32, sacks: seq<Block>)
    requires Tiles(tx, base, lo, hi)
    ensures Tiles(Sack(tx, una, sacks), base, lo, hi) && Tiles(ClearMarks(tx), base, lo, hi)
  {
    TilesMarks(tx, Sack(tx, una, sacks), base, lo, hi);
    TilesMarks(tx, ClearMarks(tx), base, lo, hi);
  }
}
