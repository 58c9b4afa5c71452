// How many pointers a name in a DNS message needs, which names go round for ever, and what
// the limit of dns_read_name on jumps therefore refuses.
module DnsPointers {
  import opened Basics
  import opened Dns
  import opened DnsKernel

  // The name ends if only enough pointers may be followed.
  ghost predicate HasEnd(msg: seq<Byte>, p: nat) {
    exists j: nat :: NameAt(msg, p, j).Some?
  }

  // The places of the pointers a name goes through.
  ghost function Trail(msg: seq<Byte>, p: nat, jumps: nat): seq<nat>
    requires NameAt(msg, p, jumps).Some?
    decreases jumps, |msg| - p
  {
    if msg[p] == 0 then []
    else if msg[p] >= 192 then [p] + Trail(msg, Target(msg, p), jumps - 1)
    else Trail(msg, p + 1 + msg[p], jumps)
  }

  // Allowing more jumps changes nothing for a name that has been read.
  lemma {:induction false} Stable(msg: seq<Byte>, p: nat, j: nat)
    requires NameAt(msg, p, j).Some?
    ensures NameAt(msg, p, j + 1) == NameAt(msg, p, j) && Trail(msg, p, j + 1) == Trail(msg, p, j)
    decreases j, |msg| - p
  {
    if msg[p] >= 192 {
      Stable(msg, Target(msg, p), j - 1);
    } else if msg[p] > 0 {
      Stable(msg, p + 1 + msg[p], j);
    }
  }

  lemma {:induction false} StableUpTo(msg: seq<Byte>, p: nat, j: nat, k: nat)
    requires NameAt(msg, p, j).Some? && j <= k
    ensures NameAt(msg, p, k) == NameAt(msg, p, j) && Trail(msg, p, k) == Trail(msg, p, j)
    decreases k
  {
    hide NameAt, Trail;
    if j < k {
      StableUpTo(msg, p, j, k - 1);
      Stable(msg, p, k - 1);
    }
  }

  // The jumps a name needs are the pointers on its trail.
  lemma {:induction false} TrailNeeded(msg: seq<Byte>, p: nat, j: nat, k: nat)
    requires NameAt(msg, p, j).Some?
    ensures |Trail(msg, p, j)| <= j
    ensures NameAt(msg, p, k).Some? <==> k >= |Trail(msg, p, j)|
    decreases j, |msg| - p
  {
    if msg[p] >= 192 {
      TrailNeeded(msg, Target(msg, p), j - 1, if k == 0 then 0 else k - 1);
    } else if msg[p] > 0 {
      TrailNeeded(msg, p + 1 + msg[p], j, k);
    }
  }

  // From its i-th pointer on, a trail is that pointer's own trail.
  lemma {:induction false} TrailFrom(msg: seq<Byte>, p: nat, j: nat, i: nat)
    requires NameAt(msg, p, j).Some? && i < |Trail(msg, p, j)|
    ensures i <= j
    ensures var q := Trail(msg, p, j)[i];
            q < |msg| && NameAt(msg, q, j - i).Some? && Trail(msg, q, j - i) == Trail(msg, p, j)[i..]
    decreases j, |msg| - p
  {
    if msg[p] >= 192 {
      if i > 0 { TrailFrom(msg, Target(msg, p), j - 1, i - 1); }
    } else {
      TrailFrom(msg, p + 1 + msg[p], j, i);
    }
  }

  // A name that ends passes no pointer twice, so it passes fewer than there are bytes.
  lemma TrailDistinct(msg: seq<Byte>, p: nat, j: nat)
    requires NameAt(msg, p, j).Some?
    ensures Distinct(Trail(msg, p, j)) && |Trail(msg, p, j)| <= |msg|
  {
    hide NameAt, Trail, Below;
    var t := Trail(msg, p, j);
    forall a: nat, b: nat | a < b < |t| ensures t[a] != t[b] {
      TrailFrom(msg, p, j, a);
      TrailFrom(msg, p, j, b);
      if t[a] == t[b] { StableUpTo(msg, t[a], j - b, j - a); }
    }
    forall x | x in t ensures x in Below(|msg|) {
      var i: nat :| i < |t| && t[i] == x;
      TrailFrom(msg, p, j, i);
    }
    DistinctFits(t, Below(|msg|));
  }

  // As many jumps as the message has bytes are enough for every name that has an end.
  lemma EndsWithin(msg: seq<Byte>, p: nat)
    ensures HasEnd(msg, p) <==> NameAt(msg, p, |msg|).Some?
  {
    hide NameAt, Trail;
    if HasEnd(msg, p) {
      var j: nat :| NameAt(msg, p, j).Some?;
      TrailDistinct(msg, p, j);
      TrailNeeded(msg, p, j, |msg|);
    }
  }

  // The whole name, and the number of its pointers, whatever the limit.
  ghost function Whole(msg: seq<Byte>, p: nat): Path
    requires HasEnd(msg, p)
  {
    EndsWithin(msg, p);
    NameAt(msg, p, |msg|).value
  }

  ghost function Pointers(msg: seq<Byte>, p: nat): nat
    requires HasEnd(msg, p)
  {
    EndsWithin(msg, p);
    |Trail(msg, p, |msg|)|
  }

  // With k jumps a name that has an end is read, and read in full, exactly when it has at most
  // k pointers.
  lemma JumpsNeeded(msg: seq<Byte>, p: nat, k: nat)
    requires HasEnd(msg, p)
    ensures NameAt(msg, p, k) == if Pointers(msg, p) <= k then Some(Whole(msg, p)) else None
  {
    hide NameAt, Trail;
    EndsWithin(msg, p);
    TrailNeeded(msg, p, |msg|, k);
    if k >= |Trail(msg, p, |msg|)| {
      if k <= |msg| { StableUpTo(msg, p, k, |msg|); } else { StableUpTo(msg, p, |msg|, k); }
    }
  }

  // dns_read_name refuses a name that has an end exactly when it has more than 8 pointers, its
  // labels and pointers are more bytes than the message, or it does not fit the output.
  lemma RefusedExactly(msg: seq<Byte>, p: nat, room: Option<nat>)
    ensures Readable(msg, p, room) ==> HasEnd(msg, p)
    ensures HasEnd(msg, p) ==>
              && WellFormed(Whole(msg, p).labels)
              && (!Readable(msg, p, room) <==>
                    || Pointers(msg, p) > PTR_MAX
                    || Whole(msg, p).used > |msg|
                    || (room.Some? && |Encode(Whole(msg, p).labels)| > room.value))
  {
    hide NameAt, Trail, Encode;
    if HasEnd(msg, p) {
      JumpsNeeded(msg, p, PTR_MAX);
      EndsWithin(msg, p);
      NameWellFormed(msg, p, |msg|);
    }
  }

  // ---- names that go round ----

  // The pointer reached from p over labels alone, if a legal one is.
  ghost function Landing(msg: seq<Byte>, p: nat): (r: Option<nat>)
    ensures r.Some? ==> r.value + 1 < |msg| && msg[r.value] >= 192
    decreases |msg| - p
  {
    if p >= |msg| || msg[p] == 0 then None
    else if msg[p] >= 192 then
      if p + 2 <= |msg| && HEADER <= Target(msg, p) < p then Some(p) else None
    else if msg[p] >= 64 || msg[p] >= |msg| - p then None
    else Landing(msg, p + 1 + msg[p])
  }

  // The n-th pointer on the way from p.
  ghost function Chain(msg: seq<Byte>, p: nat, n: nat): (r: Option<nat>)
    ensures r.Some? ==> r.value + 1 < |msg| && msg[r.value] >= 192
  {
    if n == 0 then Landing(msg, p)
    else match Chain(msg, p, n - 1)
      case None => None
      case Some(q) => Landing(msg, Target(msg, q))
  }

  // Without a limit the reader would never stop.
  ghost predicate Loops(msg: seq<Byte>, p: nat) {
    forall n: nat :: Chain(msg, p, n).Some?
  }

  // Some pointer is reached twice.
  ghost predicate Revisits(msg: seq<Byte>, p: nat, a: nat, b: nat) {
    a < b && Chain(msg, p, a).Some? && Chain(msg, p, a) == Chain(msg, p, b)
  }

  lemma {:induction false} ChainEarlier(msg: seq<Byte>, p: nat, m: nat, n: nat)
    requires m <= n && Chain(msg, p, n).Some?
    ensures Chain(msg, p, m).Some?
    decreases n
  {
    if m < n { ChainEarlier(msg, p, m, n - 1); }
  }

  lemma {:induction false} ChainRepeats(msg: seq<Byte>, p: nat, a: nat, b: nat, k: nat)
    requires Chain(msg, p, a) == Chain(msg, p, b)
    ensures Chain(msg, p, a + k) == Chain(msg, p, b + k)
  {
    if k > 0 { ChainRepeats(msg, p, a, b, k - 1); }
  }

  lemma {:induction false} RoundAndRound(msg: seq<Byte>, p: nat, a: nat, b: nat, n: nat)
    requires Revisits(msg, p, a, b)
    ensures Chain(msg, p, n).Some?
    decreases n
  {
    hide Chain;
    if n <= b {
      ChainEarlier(msg, p, n, b);
    } else {
      RoundAndRound(msg, p, a, b, n - (b - a));
      ChainRepeats(msg, p, a, b, n - b);
    }
  }

  // Passing as many pointers as there are bytes means passing one of them twice.
  lemma Pigeonhole(msg: seq<Byte>, p: nat)
    requires Chain(msg, p, |msg|).Some?
    ensures exists a: nat, b: nat :: Revisits(msg, p, a, b)
  {
    hide Chain, Below;
    var n := |msg| + 1;
    forall i: nat | i < n ensures Chain(msg, p, i).Some? { ChainEarlier(msg, p, i, |msg|); }
    var q := seq(n, i requires 0 <= i < n => Chain(msg, p, i).value);
    if Distinct(q) {
      forall x | x in q ensures x in Below(|msg|) {}
      DistinctFits(q, Below(|msg|));
    }
    var a: nat, b: nat :| a < b < |q| && q[a] == q[b];
    assert Revisits(msg, p, a, b);
  }

  // The walk goes on for ever exactly when it comes to some pointer twice, and it is known to
  // once it has passed as many pointers as the message has bytes.  Such a name has no end.
  lemma LoopsExactly(msg: seq<Byte>, p: nat)
    ensures Loops(msg, p) <==> exists a: nat, b: nat :: Revisits(msg, p, a, b)
    ensures Loops(msg, p) <==> Chain(msg, p, |msg|).Some?
    ensures Loops(msg, p) ==> !HasEnd(msg, p)
  {
    hide Chain, NameAt, Revisits;
    if Chain(msg, p, |msg|).Some? { Pigeonhole(msg, p); }
    if a: nat, b: nat :| Revisits(msg, p, a, b) {
      forall n: nat ensures Chain(msg, p, n).Some? { RoundAndRound(msg, p, a, b, n); }
    }
    forall j: nat | NameAt(msg, p, j).Some? ensures !Loops(msg, p) { ChainStops(msg, p, j); }
  }

  lemma {:induction false} ChainStops(msg: seq<Byte>, p: nat, j: nat)
    requires NameAt(msg, p, j).Some?
    ensures Chain(msg, p, j).None?
    decreases j, |msg| - p
  {
    if msg[p] >= 192 {
      ChainStops(msg, Target(msg, p), j - 1);
      ChainShift(msg, p, j - 1);
    } else if msg[p] > 0 {
      ChainStops(msg, p + 1 + msg[p], j);
      ChainSkip(msg, p, j);
    } else {
      if j > 0 { if Chain(msg, p, j).Some? { ChainEarlier(msg, p, 0, j); } }
    }
  }

  lemma {:induction false} ChainShift(msg: seq<Byte>, p: nat, n: nat)
    requires Landing(msg, p) == Some(p)
    ensures Chain(msg, p, n + 1) == Chain(msg, Target(msg, p), n)
  {
    if n > 0 { ChainShift(msg, p, n - 1); }
  }

  lemma {:induction false} ChainSkip(msg: seq<Byte>, p: nat, n: nat)
    requires p < |msg| && 0 < msg[p] < 64 && msg[p] < |msg| - p
    ensures Chain(msg, p, n) == Chain(msg, p + 1 + msg[p], n)
  {
    if n > 0 { ChainSkip(msg, p, n - 1); }
  }

  // Twelve bytes of header, a label of one letter, and a pointer back to the label.
  const LOOP: seq<Byte> := seq(12, i => 0) + [1, 97, 192, 12]

  // That every pointer aims before itself does not rule out a cycle: this name goes round, has no
  // end with any number of jumps, and it is the limit on jumps that stops the reader.
  lemma LoopExample(jumps: nat)
    ensures Loops(LOOP, 12) && HEADER <= Target(LOOP, 14) < 14 && NameAt(LOOP, 12, jumps) == None
  {
    assert LOOP[12] == 1 && LOOP[13] == 97 && LOOP[14] == 192 && LOOP[15] == 12 && |LOOP| == 16;
    assert Landing(LOOP, 14) == Some(14);
    assert Landing(LOOP, 12) == Some(14);
    assert Chain(LOOP, 12, 1) == Some(14);
    assert Revisits(LOOP, 12, 0, 1);
    LoopsExactly(LOOP, 12);
  }
}
