// Both ends together: whatever the network does with the packets of one sender, the other
// application reads a prefix of what the first one wrote.
module TcpEndToEnd {
  import opened Basics
  import opened SeqNum
  import S = TcpSend
  import R = TcpReceive

  // The bytes w, then pad for ever.
  function Padded(w: seq<Byte>, pad: Byte): R.Stream {
    (j: nat) => if j < |w| then w[j] else pad
  }

  // A packet that carries bytes of w at a place within half the number space of what the
  // receiver has got is authentic to it.
  lemma CarriesAuthentic(y: R.Session, base: U32, p: S.Packet, w: seq<Byte>, at: nat, pad: Byte)
    requires y.s.rcvNxt == Image(base, R.Pos(y.s, y.got)) && S.Carries(p, w, base, at)
    requires -HALF < at - R.Pos(y.s, y.got) && at + |p.data| - R.Pos(y.s, y.got) < HALF
    ensures R.Authentic(y.s, Padded(w, pad), y.got, p.start, p.data)
  {
    ImageDiff(base, at, R.Pos(y.s, y.got));
    forall j: nat | j < |p.data| ensures p.data[j] == Padded(w, pad)(at + j) {
      assert p.data[j] == w[at..at + |p.data|][j];
    }
  }

  // Every segment that arrives is one of the packets, recent enough to be told apart from
  // those 2^32 bytes away; loss, order and repetition are free.
  ghost predicate Recent(y: R.Session, e: R.Event, sent: seq<S.Packet>, w: seq<Byte>, base: U32) {
    e.Segment? ==>
      && S.Packet(e.start, e.data) in sent
      && exists at: nat :: Near(y, e, w, base, at)
  }

  ghost predicate Near(y: R.Session, e: R.Event, w: seq<Byte>, base: U32, at: nat)
    requires e.Segment?
  {
    && S.Carries(S.Packet(e.start, e.data), w, base, at)
    && -HALF < at - R.Pos(y.s, y.got) && at + |e.data| - R.Pos(y.s, y.got) < HALF
  }

  ghost predicate Arrivals(events: seq<R.Event>, sent: seq<S.Packet>, w: seq<Byte>, base: U32) {
    forall i: nat | i < |events| :: Recent(R.Run(R.Fresh(base), events[..i]), events[i], sent, w, base)
  }

  lemma ArrivalsPrefix(events: seq<R.Event>, sent: seq<S.Packet>, w: seq<Byte>, base: U32, n: nat)
    requires Arrivals(events, sent, w, base) && n <= |events|
    ensures Arrivals(events[..n], sent, w, base)
  {
    hide Recent;
    forall i: nat | i < n ensures events[..n][..i] == events[..i] {}
  }

  lemma {:induction false} ArrivalsAuthentic(events: seq<R.Event>, sent: seq<S.Packet>, w: seq<Byte>, base: U32,
                                             pad: Byte)
    requires Arrivals(events, sent, w, base)
    ensures R.AuthenticRun(R.Fresh(base), events, Padded(w, pad))
  {
    hide R.Authentic, R.Step, R.RxInv;
    if events != [] {
      var n := |events| - 1;
      ArrivalsPrefix(events, sent, w, base, n);
      ArrivalsAuthentic(events[..n], sent, w, base, pad);
      R.RunInv(base, events[..n], Padded(w, pad));
      var y := R.Run(R.Fresh(base), events[..n]);
      Number(y, w, base, pad);
      assert Recent(y, events[n], sent, w, base);
      if events[n].Segment? {
        var at: nat :| Near(y, events[n], w, base, at);
        CarriesAuthentic(y, base, S.Packet(events[n].start, events[n].data), w, at, pad);
      }
      forall i: nat | i < n ensures events[..n][..i] == events[..i] && events[..n][i] == events[i] {}
      assert R.AuthenticRun(R.Fresh(base), events, Padded(w, pad));
    }
  }

  lemma Number(y: R.Session, w: seq<Byte>, base: U32, pad: Byte)
    requires R.RxInv(y.s, Padded(w, pad), base, y.got)
    ensures y.s.rcvNxt == Image(base, R.Pos(y.s, y.got))
  {
  }

  // What the receiver has is a prefix of w: were it longer, its next byte would have to be
  // two different things.
  lemma PrefixOf(events: seq<R.Event>, sent: seq<S.Packet>, w: seq<Byte>, base: U32)
    requires Arrivals(events, sent, w, base)
    ensures var y := R.Run(R.Fresh(base), events); y.got + y.s.rx <= w
  {
    hide R.Run, R.AuthenticRun, Arrivals;
    ArrivalsAuthentic(events, sent, w, base, 0);
    ArrivalsAuthentic(events, sent, w, base, 1);
    R.StreamIntegrity(base, events, Padded(w, 0));
    R.StreamIntegrity(base, events, Padded(w, 1));
    var y := R.Run(R.Fresh(base), events);
    TwoPads(y.got + y.s.rx, w);
  }

  lemma TwoPads(all: seq<Byte>, w: seq<Byte>)
    requires forall j: nat | j < |all| :: all[j] == Padded(w, 0)(j)
    requires forall j: nat | j < |all| :: all[j] == Padded(w, 1)(j)
    ensures all <= w
  {
    assert Padded(w, 0)(|w|) == 0 && Padded(w, 1)(|w|) == 1;
    assert |all| <= |w|;
    assert forall j: nat | j < |all| :: all[j] == w[j];
  }

  // Nothing need be asked about recency while fewer than 2^31 bytes have been written.
  lemma {:induction false} ShortStream(events: seq<R.Event>, sent: seq<S.Packet>, w: seq<Byte>, base: U32)
    requires |w| < HALF && S.AllGenuine(sent, w, base)
    requires forall i: nat | i < |events| && events[i].Segment? :: S.Packet(events[i].start, events[i].data) in sent
    ensures Arrivals(events, sent, w, base)
  {
    hide S.Carries, R.Run;
    if events != [] {
      var n := |events| - 1;
      ShortStream(events[..n], sent, w, base);
      PrefixOf(events[..n], sent, w, base);
      var y := R.Run(R.Fresh(base), events[..n]);
      if events[n].Segment? {
        var p := S.Packet(events[n].start, events[n].data);
        var i: nat :| i < |sent| && sent[i] == p;
        assert S.Genuine(sent[i], w, base);
        var at: nat :| S.Carries(p, w, base, at);
        CarriesWithin(p, w, base, at);
        assert Near(y, events[n], w, base, at);
      }
      forall i: nat | i < n ensures events[..n][..i] == events[..i] && events[..n][i] == events[i] {}
      forall i: nat | i < |events| ensures Recent(R.Run(R.Fresh(base), events[..i]), events[i], sent, w, base) {
        if i < n { assert Recent(R.Run(R.Fresh(base), events[..n][..i]), events[..n][i], sent, w, base); }
      }
    }
  }

  lemma CarriesWithin(p: S.Packet, w: seq<Byte>, base: U32, at: nat)
    requires S.Carries(p, w, base, at)
    ensures at + |p.data| <= |w|
  {
  }

  // However long packets live, for any run of the sender in which fewer than 2^31 bytes are
  // written and any losses, reordering and repetition of its packets on the way: what the
  // receiving application has read and can read is a prefix of what the sending one wrote.
  lemma AnyLifetime(x: S.Session, link: S.Link, events: seq<S.Event>, base: U32, arrivals: seq<R.Event>)
    requires S.Established(x, base)
    requires var z := S.Run(x, link, events);
             && |z.w| < HALF
             && forall i: nat | i < |arrivals| && arrivals[i].Segment? ::
                  S.Packet(arrivals[i].start, arrivals[i].data) in z.s.sent
    ensures var y := R.Run(R.Fresh(base), arrivals); y.got + y.s.rx <= S.Run(x, link, events).w
  {
    hide S.Run, R.Run, Arrivals, S.AllGenuine;
    var z := S.Run(x, link, events);
    S.StreamIntegrity(x, link, events, base);
    ShortStream(arrivals, z.s.sent, z.w, base);
    PrefixOf(arrivals, z.s.sent, z.w, base);
  }
}
