// One direction of a connection as a whole: the sender, the receiver, and a network that may
// lose, repeat and reorder both the packets and the acknowledgements, as long as nothing lives
// for about 2^31 bytes of the stream.  The stream itself may have any length.
module TcpConnection {
  import opened Basics
  import opened TcpParams
  import opened SeqNum
  import TcpScoreboard
  import S = TcpSend
  import R = TcpReceive
  import P = TcpProgress
  import E = TcpEndToEnd

  // An acknowledgement on its way; born is how much had been written when it was sent.
  datatype Reply = Reply(number: U32, born: nat)

  // born tells the same of each packet the sender has put on the link.
  datatype World = World(a: S.Session, b: R.Session, born: seq<nat>, acks: seq<Reply>)

  datatype Event =
    | Writes(data: seq<Byte>)
    | RtoFires
    | PersistFires
    | Arrives(i: nat)
    | Reads(max: nat)
    | Replies
    | ReplyArrives(i: nat, win: nat, raw: seq<TcpScoreboard.Block>)

  function Repeat(n: nat, k: int): (r: seq<nat>)
    ensures |r| == if k < 0 then 0 else k
    ensures forall i: nat | i < |r| :: r[i] == n
  {
    if k < 0 then [] else seq(k, _ => n)
  }

  // A step of the sender, with the birth of what it puts on the link.
  function Moves(x: World, link: S.Link, e: S.Event): World {
    var y := S.Step(x.a, link, e);
    x.(a := y, born := x.born + Repeat(|y.w|, |y.s.sent| - |x.born|))
  }

  function Step(x: World, link: S.Link, e: Event): World {
    match e
    case Writes(data) => Moves(x, link, S.Written(data))
    case RtoFires => Moves(x, link, S.RtoFires)
    case PersistFires => Moves(x, link, S.PersistFires)
    case Arrives(i) =>
      if i >= |x.a.s.sent| then x
      else x.(b := R.Step(x.b, R.Segment(x.a.s.sent[i].start, x.a.s.sent[i].data)))
    case Reads(max) => x.(b := R.Step(x.b, R.Read(max)))
    case Replies => x.(acks := x.acks + [Reply(x.b.s.rcvNxt, |x.a.w|)])
    case ReplyArrives(i, win, raw) =>
      if i >= |x.acks| then x else Moves(x, link, S.AckArrives(x.acks[i].number, win, raw))
  }

  function Run(x: World, link: S.Link, events: seq<Event>): World {
    if events == [] then x else Step(Run(x, link, events[..|events| - 1]), link, events[|events| - 1])
  }

  // How many bytes may be written while a packet or an acknowledgement is on its way.
  const LIFETIME: nat := HALF - BUF

  ghost predicate Timely(x: World, e: Event) {
    match e
    case Arrives(i) => i < |x.born| ==> |x.a.w| - x.born[i] < LIFETIME
    case ReplyArrives(i, _, _) => i < |x.acks| ==> |x.a.w| - x.acks[i].born < LIFETIME
    case _ => true
  }

  ghost predicate TimelyRun(x: World, link: S.Link, events: seq<Event>) {
    forall i: nat | i < |events| :: Timely(Run(x, link, events[..i]), events[i])
  }

  // Both ends right after the handshake, nothing under way.
  ghost predicate Opened(x: World, base: U32) {
    S.Established(x.a, base) && x.b == R.Fresh(base) && x.born == [] && x.acks == []
  }

  // ---- what every step keeps ----

  // The packet carries bytes at position at, unacknowledged and written when it was sent.
  ghost predicate BornAt(p: S.Packet, born: nat, w: seq<Byte>, base: U32, at: nat) {
    S.Carries(p, w, base, at) && born - BUF <= at && at + |p.data| <= born <= |w|
  }

  ghost predicate PacketOk(p: S.Packet, born: nat, w: seq<Byte>, base: U32) {
    exists at: nat :: BornAt(p, born, w, base, at)
  }

  ghost predicate RepliesTo(r: Reply, base: U32, pos: nat, q: nat) {
    r.number == Image(base, q) && r.born - BUF <= q <= pos
  }

  ghost predicate ReplyOk(r: Reply, base: U32, w: seq<Byte>, pos: nat) {
    r.born <= |w| && exists q: nat :: RepliesTo(r, base, pos, q)
  }

  // The receiver has bytes of w and nothing else, whatever comes behind w.
  ghost predicate Within(b: R.Session, w: seq<Byte>, base: U32) {
    R.RxInv(b.s, E.Padded(w, 0), base, b.got) && R.RxInv(b.s, E.Padded(w, 1), base, b.got)
  }

  ghost predicate Packets(x: World, base: U32) {
    |x.born| == |x.a.s.sent| && forall i: nat | i < |x.born| :: PacketOk(x.a.s.sent[i], x.born[i], x.a.w, base)
  }

  ghost predicate Answers(x: World, base: U32) {
    forall i: nat | i < |x.acks| :: ReplyOk(x.acks[i], base, x.a.w, R.Pos(x.b.s, x.b.got))
  }

  // What the sender takes for acknowledged has been received.
  ghost predicate Behind(x: World) {
    |x.a.s.buf| <= |x.a.w| && S.Acked(x.a.s, x.a.w) <= R.Pos(x.b.s, x.b.got)
  }

  ghost predicate Inv(x: World, base: U32) {
    S.Sender(x.a.s, x.a.w, base) && Within(x.b, x.a.w, base) && Behind(x) && Packets(x, base) && Answers(x, base)
  }

  lemma WithinMeans(b: R.Session, w: seq<Byte>, base: U32)
    requires Within(b, w, base)
    ensures b.got + b.s.rx <= w && R.Pos(b.s, b.got) <= |w| && b.s.rcvNxt == Image(base, R.Pos(b.s, b.got))
  {
    hide R.RxInv;
    R.Prefix(b.s, E.Padded(w, 0), base, b.got);
    R.Prefix(b.s, E.Padded(w, 1), base, b.got);
    E.TwoPads(b.got + b.s.rx, w);
    E.Number(b, w, base, 0);
  }

  // Data that lies in w whatever the padding lies in anything that continues w.
  lemma MatchesMore(w: seq<Byte>, v: seq<Byte>, p: nat, data: seq<Byte>, pad: Byte)
    requires w <= v && R.Matches(E.Padded(w, 0), p, data) && R.Matches(E.Padded(w, 1), p, data)
    ensures R.Matches(E.Padded(v, pad), p, data)
  {
    forall j: nat | j < |data| ensures data[j] == E.Padded(v, pad)(p + j) {
      assert data[j] == E.Padded(w, 0)(p + j) == E.Padded(w, 1)(p + j);
    }
  }

  lemma WithinMore(b: R.Session, w: seq<Byte>, v: seq<Byte>, base: U32)
    requires Within(b, w, base) && w <= v
    ensures Within(b, v, base)
  {
    hide R.Matches, Diff, R.Total;
    forall pad: Byte | pad == 0 || pad == 1 ensures R.RxInv(b.s, E.Padded(v, pad), base, b.got) {
      MatchesMore(w, v, 0, b.got + b.s.rx, pad);
      forall i: nat | i < |b.s.ooo| && b.s.ooo[i].used ensures R.SlotOk(b.s, E.Padded(v, pad), b.got, b.s.ooo[i]) {
        assert R.SlotOk(b.s, E.Padded(w, 0), b.got, b.s.ooo[i]) && R.SlotOk(b.s, E.Padded(w, 1), b.got, b.s.ooo[i]);
        MatchesMore(w, v, R.At(b.s, b.got, b.s.ooo[i].start), b.s.ooo[i].data, pad);
      }
    }
  }

  lemma PacketMore(p: S.Packet, born: nat, w: seq<Byte>, v: seq<Byte>, base: U32)
    requires PacketOk(p, born, w, base) && w <= v
    ensures PacketOk(p, born, v, base)
  {
    var at: nat :| BornAt(p, born, w, base, at);
    assert w[at..at + |p.data|] == v[at..at + |p.data|];
    assert BornAt(p, born, v, base, at);
  }

  // ---- the sender moves ----

  lemma PacketsMove(x: World, link: S.Link, e: S.Event, base: U32)
    requires S.Sender(x.a.s, x.a.w, base) && Packets(x, base)
    ensures Packets(Moves(x, link, e), base)
  {
    hide S.Sender, S.Step, PacketOk, S.Placed;
    S.StepSound(x.a, link, e, base);
    var y, z := S.Step(x.a, link, e), Moves(x, link, e);
    S.BufWritten(y, base);
    forall i: nat | i < |z.born| ensures PacketOk(z.a.s.sent[i], z.born[i], z.a.w, base) {
      if i < |x.born| {
        assert y.s.sent[i] == x.a.s.sent[i];
        PacketMore(x.a.s.sent[i], x.born[i], x.a.w, y.w, base);
      } else {
        assert S.Placed(y.s.sent[i], y.w, base, S.Acked(y.s, y.w));
        BornNow(y, y.s.sent[i], base);
      }
    }
  }

  lemma BornNow(y: S.Session, p: S.Packet, base: U32)
    requires |y.s.buf| <= |y.w| && |y.s.buf| <= BUF && S.Placed(p, y.w, base, S.Acked(y.s, y.w))
    ensures PacketOk(p, |y.w|, y.w, base)
  {
    var at: nat :| S.Acked(y.s, y.w) <= at && S.Carries(p, y.w, base, at);
    assert BornAt(p, |y.w|, y.w, base, at);
  }

  lemma MovesKeeps(x: World, link: S.Link, e: S.Event, base: U32)
    requires Inv(x, base)
    requires |Moves(x, link, e).a.s.buf| <= |Moves(x, link, e).a.w| ==> Behind(Moves(x, link, e))
    ensures Inv(Moves(x, link, e), base)
  {
    hide S.Sender, S.Step, Packets, Within, Behind, ReplyOk;
    S.StepSound(x.a, link, e, base);
    var y := Moves(x, link, e);
    S.BufWritten(y.a, base);
    PacketsMove(x, link, e, base);
    WithinMore(x.b, x.a.w, y.a.w, base);
    forall i: nat | i < |y.acks| ensures ReplyOk(y.acks[i], base, y.a.w, R.Pos(y.b.s, y.b.got)) {
      assert ReplyOk(x.acks[i], base, x.a.w, R.Pos(x.b.s, x.b.got));
      ReplyMore(x.acks[i], base, x.a.w, y.a.w, R.Pos(x.b.s, x.b.got), R.Pos(y.b.s, y.b.got));
    }
  }

  lemma ReplyMore(r: Reply, base: U32, w: seq<Byte>, v: seq<Byte>, pos: nat, more: nat)
    requires ReplyOk(r, base, w, pos) && |w| <= |v| && pos <= more
    ensures ReplyOk(r, base, v, more)
  {
    var q: nat :| RepliesTo(r, base, pos, q);
    assert RepliesTo(r, base, more, q);
  }

  // Writing and the timers acknowledge nothing.
  lemma SameAcked(x: World, link: S.Link, e: S.Event, base: U32)
    requires Inv(x, base) && !e.AckArrives?
    ensures |Moves(x, link, e).a.s.buf| <= |Moves(x, link, e).a.w| && Behind(Moves(x, link, e))
  {
    hide S.AllGenuine, S.Placed, S.Send, S.Timeout, S.Probe, Within, Packets, Answers, Minus, TcpScoreboard.Tiles;
    match e
    case Written(data) => S.SendWindow(x.a.s, link, data, x.a.w, base);
    case RtoFires => S.TimeoutSound(x.a.s, link, x.a.w, base);
    case PersistFires => S.ProbeSound(x.a.s, link, x.a.w, base);
  }

  // A timely acknowledgement acknowledges nothing the receiver does not have.
  lemma AckedIsReceived(x: World, link: S.Link, i: nat, win: nat, raw: seq<TcpScoreboard.Block>, base: U32)
    requires Inv(x, base) && i < |x.acks| && |x.a.w| - x.acks[i].born < LIFETIME
    ensures var y := Moves(x, link, S.AckArrives(x.acks[i].number, win, raw));
            |y.a.s.buf| <= |y.a.w| ==> Behind(y)
  {
    hide S.AllGenuine, S.HandleAck, R.RxInv, Packets, Minus, TcpScoreboard.Tiles, Image, After, R.Skip;
    var s, w, ack := x.a.s, x.a.w, x.acks[i].number;
    S.HandleAckSound(s, link, ack, win, raw, w, base);
    P.AckMoves(s, link, ack, win, raw, w, base);
    var r := S.HandleAck(s, link, ack, win, raw);
    WithinMeans(x.b, w, base);
    if After(ack, s.una) && !After(ack, s.nxt) {
      assert ReplyOk(x.acks[i], base, w, R.Pos(x.b.s, x.b.got));
      var q: nat :| RepliesTo(x.acks[i], base, R.Pos(x.b.s, x.b.got), q);
      ImageDiff(base, S.Acked(r, w), q);
    }
  }

  // ---- the receiver moves ----

  lemma ArrivesKeeps(x: World, link: S.Link, i: nat, base: U32)
    requires Inv(x, base) && i < |x.born| && |x.a.w| - x.born[i] < LIFETIME
    ensures Inv(Step(x, link, Arrives(i)), base)
  {
    hide S.AllGenuine, R.RxInv, R.Step, R.Authentic, Minus, TcpScoreboard.Tiles, ReplyOk, Image;
    var p, w := x.a.s.sent[i], x.a.w;
    assert PacketOk(p, x.born[i], w, base);
    var at: nat :| BornAt(p, x.born[i], w, base, at);
    WithinMeans(x.b, w, base);
    E.CarriesAuthentic(x.b, base, p, w, at, 0);
    E.CarriesAuthentic(x.b, base, p, w, at, 1);
    R.StepInv(x.b, R.Segment(p.start, p.data), E.Padded(w, 0), base);
    R.StepInv(x.b, R.Segment(p.start, p.data), E.Padded(w, 1), base);
    AnswersStill(x, Step(x, link, Arrives(i)), base);
  }

  lemma ReadsKeeps(x: World, link: S.Link, max: nat, base: U32)
    requires Inv(x, base)
    ensures Inv(Step(x, link, Reads(max)), base)
  {
    hide S.Sender, R.RxInv, R.Step, ReplyOk, PacketOk;
    R.StepInv(x.b, R.Read(max), E.Padded(x.a.w, 0), base);
    R.StepInv(x.b, R.Read(max), E.Padded(x.a.w, 1), base);
    AnswersStill(x, Step(x, link, Reads(max)), base);
  }

  lemma AnswersStill(x: World, y: World, base: U32)
    requires Answers(x, base) && y.acks == x.acks && y.a == x.a && R.Pos(x.b.s, x.b.got) <= R.Pos(y.b.s, y.b.got)
    ensures Answers(y, base)
  {
    hide ReplyOk;
    forall i: nat | i < |y.acks| ensures ReplyOk(y.acks[i], base, y.a.w, R.Pos(y.b.s, y.b.got)) {
      assert ReplyOk(x.acks[i], base, x.a.w, R.Pos(x.b.s, x.b.got));
      ReplyMore(x.acks[i], base, x.a.w, y.a.w, R.Pos(x.b.s, x.b.got), R.Pos(y.b.s, y.b.got));
    }
  }

  lemma RepliesKeeps(x: World, link: S.Link, base: U32)
    requires Inv(x, base)
    ensures Inv(Step(x, link, Replies), base)
  {
    hide S.AllGenuine, R.RxInv, Minus, TcpScoreboard.Tiles, Image, PacketOk;
    WithinMeans(x.b, x.a.w, base);
    assert RepliesTo(Reply(x.b.s.rcvNxt, |x.a.w|), base, R.Pos(x.b.s, x.b.got), R.Pos(x.b.s, x.b.got));
  }

  lemma StepKeeps(x: World, link: S.Link, e: Event, base: U32)
    requires Inv(x, base) && Timely(x, e)
    ensures Inv(Step(x, link, e), base)
  {
    match e
    case Writes(data) =>
      hide Inv, Behind;
      SameAcked(x, link, S.Written(data), base);
      MovesKeeps(x, link, S.Written(data), base);
    case RtoFires =>
      hide Inv, Behind;
      SameAcked(x, link, S.RtoFires, base);
      MovesKeeps(x, link, S.RtoFires, base);
    case PersistFires =>
      hide Inv, Behind;
      SameAcked(x, link, S.PersistFires, base);
      MovesKeeps(x, link, S.PersistFires, base);
    case Arrives(i) => if i < |x.a.s.sent| { ArrivesKeeps(x, link, i, base); }
    case Reads(max) => ReadsKeeps(x, link, max, base);
    case Replies => RepliesKeeps(x, link, base);
    case ReplyArrives(i, win, raw) =>
      if i < |x.acks| {
        hide Inv, Behind;
        AckedIsReceived(x, link, i, win, raw, base);
        MovesKeeps(x, link, S.AckArrives(x.acks[i].number, win, raw), base);
      }
  }

  lemma OpenedInv(x: World, base: U32)
    requires Opened(x, base)
    ensures Inv(x, base)
  {
    hide R.RxInv;
    S.EstablishedSender(x.a, base);
    R.FreshInv(base, E.Padded(x.a.w, 0));
    R.FreshInv(base, E.Padded(x.a.w, 1));
  }

  lemma {:induction false} RunKeeps(x: World, link: S.Link, events: seq<Event>, base: U32)
    requires Opened(x, base) && TimelyRun(x, link, events)
    ensures Inv(Run(x, link, events), base)
  {
    hide Inv, Step, Timely, Opened;
    if events == [] {
      OpenedInv(x, base);
    } else {
      var n := |events| - 1;
      forall i: nat | i < n ensures events[..n][..i] == events[..i] && events[..n][i] == events[i] {}
      assert TimelyRun(x, link, events[..n]);
      RunKeeps(x, link, events[..n], base);
      StepKeeps(Run(x, link, events[..n]), link, events[n], base);
    }
  }

  // Streams of any length, any losses, repetitions and reorderings of packets and
  // acknowledgements: what the receiving application has read and can read is a prefix of what
  // the sending one wrote, and it holds all that the sender takes for acknowledged.
  lemma EndToEnd(x: World, link: S.Link, events: seq<Event>, base: U32)
    requires Opened(x, base) && TimelyRun(x, link, events)
    ensures var y := Run(x, link, events);
            && y.b.got + y.b.s.rx <= y.a.w
            && |y.a.s.buf| <= |y.a.w| && S.Acked(y.a.s, y.a.w) <= |y.b.got + y.b.s.rx|
  {
    hide Run, TimelyRun, Opened, Within, Packets, Answers, S.Sender;
    RunKeeps(x, link, events, base);
    var y := Run(x, link, events);
    WithinMeans(y.b, y.a.w, base);
  }
}
