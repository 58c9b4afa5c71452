// dns_read_name and the query encoder of net_dns_resolve as they run: a cursor over the
// message and bytes written into a buffer.
module DnsKernel {
  import opened Basics
  import opened Dns

  // The reader stands at p, having collected acc and passed over used bytes.
  ghost predicate Reading(msg: seq<Byte>, start: nat, p: nat, jumps: nat, acc: seq<Label>, used: nat)
    requires jumps <= PTR_MAX
  {
    NameAt(msg, start, PTR_MAX) ==
    match NameAt(msg, p, PTR_MAX - jumps)
    case None => None
    case Some(rest) => Some(Path(acc + rest.labels, used + rest.used))
  }

  // What dns_read_name is to return, apart from the bytes: the name is there, within the
  // limits on bytes passed over and on output.
  ghost predicate Readable(msg: seq<Byte>, start: nat, room: Option<nat>) {
    var r := NameAt(msg, start, PTR_MAX);
    && r.Some? && r.value.used <= |msg|
    && (NameWellFormed(msg, start, PTR_MAX); room.Some? ==> |Encode(r.value.labels)| <= room.value)
  }

  ghost function NameBytes(msg: seq<Byte>, start: nat): seq<Byte> {
    var r := NameAt(msg, start, PTR_MAX);
    NameWellFormed(msg, start, PTR_MAX);
    if r.Some? then Encode(r.value.labels) else []
  }

  lemma ReadLabel(msg: seq<Byte>, start: nat, p: nat, jumps: nat, acc: seq<Label>, used: nat)
    requires jumps <= PTR_MAX && Reading(msg, start, p, jumps, acc, used)
    requires p < |msg| && 0 < msg[p] < 64 && msg[p] < |msg| - p
    ensures var l := msg[p + 1..p + 1 + msg[p]];
            Reading(msg, start, p + 1 + msg[p], jumps, acc + [l], used + 1 + msg[p])
  {
    hide NameAt;
    AtLabel(msg, p, PTR_MAX - jumps);
    var r := NameAt(msg, p + 1 + msg[p], PTR_MAX - jumps);
    var l := msg[p + 1..p + 1 + msg[p]];
    if r.Some? {
      assert acc + ([l] + r.value.labels) == (acc + [l]) + r.value.labels;
    }
  }

  lemma ReadPointer(msg: seq<Byte>, start: nat, p: nat, jumps: nat, acc: seq<Label>, used: nat)
    requires jumps < PTR_MAX && Reading(msg, start, p, jumps, acc, used)
    requires p + 1 < |msg| && msg[p] >= 192 && HEADER <= Target(msg, p) < p
    ensures Reading(msg, start, Target(msg, p), jumps + 1, acc, used + 2)
  {
    hide NameAt;
    AtPointer(msg, p, PTR_MAX - jumps);
  }

  // A name that goes on from here needs at least what has been collected.
  lemma ReadAtLeast(msg: seq<Byte>, start: nat, p: nat, jumps: nat, acc: seq<Label>, used: nat)
    requires jumps <= PTR_MAX && Reading(msg, start, p, jumps, acc, used) && WellFormed(acc)
    ensures NameAt(msg, start, PTR_MAX).Some? ==>
              NameAt(msg, start, PTR_MAX).value.used >= used && |NameBytes(msg, start)| >= |Body(acc)| + 1
  {
    hide NameAt;
    NameWellFormed(msg, p, PTR_MAX - jumps);
    var r := NameAt(msg, p, PTR_MAX - jumps);
    if r.Some? { BodyAppend(acc, r.value.labels); }
  }

  // No name continues from a place that is neither terminator, legal pointer nor label.
  lemma ReadStuck(msg: seq<Byte>, start: nat, p: nat, jumps: nat, acc: seq<Label>, used: nat)
    requires jumps <= PTR_MAX && Reading(msg, start, p, jumps, acc, used)
    requires p >= |msg|
          || (msg[p] >= 192 && (p + 2 > |msg| || !(HEADER <= Target(msg, p) < p) || jumps == PTR_MAX))
          || 64 <= msg[p] < 192
          || (0 < msg[p] < 64 && msg[p] >= |msg| - p)
    ensures NameAt(msg, start, PTR_MAX).None?
  {
  }

  lemma ReadDone(msg: seq<Byte>, start: nat, p: nat, jumps: nat, acc: seq<Label>, used: nat)
    requires jumps <= PTR_MAX && Reading(msg, start, p, jumps, acc, used) && WellFormed(acc) && p < |msg| && msg[p] == 0
    ensures NameAt(msg, start, PTR_MAX) == Some(Path(acc, used)) && NameBytes(msg, start) == Encode(acc)
  {
    hide NameAt;
    AtTerminator(msg, p, PTR_MAX - jumps);
    assert acc + [] == acc;
  }

  // dns_read_name.  out is null when only the end of the name is wanted.
  method ReadName(msg: seq<Byte>, start: nat, out: array?<Byte>, cap: nat) returns (ok: bool, off: nat, dlen: nat)
    requires out != null ==> cap <= out.Length
    modifies if out == null then {} else {out}
    ensures ok <==> Readable(msg, start, if out == null then None else Some(cap))
    ensures ok ==> off == StreamEnd(msg, start) && dlen == if out == null then 1 else |NameBytes(msg, start)|
    ensures ok && out != null ==> dlen <= cap && out[..dlen] == NameBytes(msg, start)
    ensures out != null ==> out[cap..] == old(out[cap..])
  {
    hide NameAt, StreamEnd, Reading, Body, Encode;
    ok, off, dlen := false, start, 0;
    var p: nat, jumps: nat, used: nat, ol: nat := start, 0, 0, 0;
    var jumped := false;
    ghost var acc: seq<Label> := [];
    StartReading(msg, start);
    while true
      invariant jumps <= PTR_MAX && used <= |msg| && WellFormed(acc) && Reading(msg, start, p, jumps, acc, used)
      invariant !ok && if jumped then off == StreamEnd(msg, start) else StreamEnd(msg, p) == StreamEnd(msg, start)
      invariant out == null ==> ol == 0
      invariant out != null ==> ol <= cap && out[..ol] == Body(acc) && out[cap..] == old(out[cap..])
      decreases PTR_MAX - jumps, |msg| - p
    {
      ReadAtLeast(msg, start, p, jumps, acc, used);
      if p >= |msg| {
        ReadStuck(msg, start, p, jumps, acc, used);
        return;
      }
      var l := msg[p];
      if l == 0 {
        ReadDone(msg, start, p, jumps, acc, used);
        EncodeIs(acc);
        if out != null {
          if ol + 1 > cap {
            return;
          }
          out[ol] := 0;
          assert out[..ol + 1] == Body(acc) + [0];
        }
        dlen := ol + 1;
        if !jumped {
          AtTerminator(msg, p, 0);
          off := p + 1;
        }
        ok := true;
        return;
      }
      if l >= 192 {
        if p + 2 > |msg| {
          ReadStuck(msg, start, p, jumps, acc, used);
          return;
        }
        var t := Target(msg, p);
        if t < HEADER || t >= p || jumps + 1 > PTR_MAX {
          ReadStuck(msg, start, p, jumps, acc, used);
          return;
        }
        ReadPointer(msg, start, p, jumps, acc, used);
        AtPointer(msg, p, PTR_MAX - jumps);
        jumps := jumps + 1;
        used := used + 2;
        ReadAtLeast(msg, start, t, jumps, acc, used);
        if used > |msg| {
          return;
        }
        if !jumped {
          off := p + 2;
        }
        p, jumped := t, true;
      } else {
        if l >= 64 || l >= |msg| - p {
          ReadStuck(msg, start, p, jumps, acc, used);
          return;
        }
        ghost var part := msg[p + 1..p + 1 + l];
        ReadLabel(msg, start, p, jumps, acc, used);
        AtLabel(msg, p, 0);
        BodyAppend(acc, [part]);
        BodyOne(part);
        ReadAtLeast(msg, start, p + 1 + l, jumps, acc + [part], used + 1 + l);
        if out != null {
          if ol + 1 + l > cap {
            return;
          }
          PutLabel(msg, p, out, ol, l);
          assert out[..ol + 1 + l] == out[..ol] + ([l] + part);
          ol := ol + 1 + l;
        }
        acc := acc + [part];
        used := used + 1 + l;
        if used > |msg| {
          return;
        }
        p := p + 1 + l;
      }
    }
  }

  lemma StartReading(msg: seq<Byte>, start: nat)
    ensures Reading(msg, start, start, 0, [], 0) && Body([]) == []
  {
    hide NameAt;
    var r := NameAt(msg, start, PTR_MAX);
    if r.Some? { assert [] + r.value.labels == r.value.labels; }
  }

  lemma EncodeIs(acc: seq<Label>)
    requires WellFormed(acc)
    ensures Encode(acc) == Body(acc) + [0]
  {
  }

  // The length byte and the copy of one label.
  method PutLabel(msg: seq<Byte>, p: nat, out: array<Byte>, ol: nat, l: Byte)
    requires p + 1 + l <= |msg| && ol + 1 + l <= out.Length
    modifies out
    ensures out[..ol] == old(out[..ol]) && out[ol] == l && out[ol + 1..ol + 1 + l] == msg[p + 1..p + 1 + l]
    ensures out[ol + 1 + l..] == old(out[ol + 1 + l..])
  {
    out[ol] := l;
    var i := 0;
    while i < l
      invariant 0 <= i <= l
      invariant out[..ol] == old(out[..ol]) && out[ol] == l
      invariant out[ol + 1..ol + 1 + i] == msg[p + 1..p + 1 + i]
      invariant forall k: nat | ol + 1 + l <= k < out.Length :: out[k] == old(out[k])
    {
      out[ol + 1 + i] := msg[p + 1 + i];
      i := i + 1;
      assert msg[p + 1..p + 1 + i] == msg[p + 1..p + i] + [msg[p + i]];
    }
  }

  // The encoder stands at i, inside the piece that starts at labpos; done has been written.
  ghost predicate Encoding(name: string, labpos: nat, i: nat, done: seq<string>) {
    && labpos <= i <= |name| && i <= NAME_MAX
    && Split(name) == done + Split(name[labpos..])
    && (forall k: nat | k < |done| :: GoodLabel(done[k]))
    && (forall k: nat | k < i - labpos :: LabelChar(name[labpos..i][k]))
  }

  lemma NoDots(name: string, labpos: nat, i: nat, done: seq<string>)
    requires Encoding(name, labpos, i, done)
    ensures '.' !in name[labpos..i]
  {
    forall k: nat | k < i - labpos ensures name[labpos..i][k] != '.' { assert LabelChar(name[labpos..i][k]); }
  }

  // The piece in progress is a whole piece once its end is reached.
  lemma PieceEnds(name: string, labpos: nat, i: nat, done: seq<string>)
    requires Encoding(name, labpos, i, done) && (i == |name| || name[i] == '.')
    ensures Split(name[labpos..]) == [name[labpos..i]] + (if i == |name| then [] else Split(name[i + 1..]))
  {
    NoDots(name, labpos, i, done);
    var s := name[labpos..];
    if i == |name| {
      assert s == name[labpos..i];
      SplitPlain(s);
    } else {
      assert s[..i - labpos] == name[labpos..i];
      SplitAtDot(s, i - labpos);
      assert s[i - labpos + 1..] == name[i + 1..];
    }
  }

  lemma BadPiece(name: string, labpos: nat, i: nat, done: seq<string>)
    requires Encoding(name, labpos, i, done) && (i == |name| || name[i] == '.') && !(1 <= i - labpos <= LABEL_MAX)
    ensures !GoodName(name)
  {
    hide Split;
    PieceEnds(name, labpos, i, done);
    assert Split(name)[|done|] == name[labpos..i];
    assert !GoodLabel(Split(name)[|done|]);
  }

  lemma BadChar(name: string, labpos: nat, i: nat, done: seq<string>)
    requires Encoding(name, labpos, i, done) && i < |name| && name[i] != '.' && !LabelChar(name[i])
    ensures !GoodName(name)
  {
    hide Split;
    NoDots(name, labpos, i, done);
    var s := name[labpos..];
    assert s[..i - labpos + 1] == name[labpos..i] + [name[i]];
    SplitHead(s, i - labpos);
    var first := Split(s)[0];
    assert Split(name)[|done|] == first;
    assert !LabelChar(first[i - labpos]);
    assert !GoodLabel(Split(name)[|done|]);
  }

  lemma NextChar(name: string, labpos: nat, i: nat, done: seq<string>)
    requires Encoding(name, labpos, i, done) && i < |name| && i < NAME_MAX && LabelChar(name[i])
    ensures Encoding(name, labpos, i + 1, done)
  {
    hide Split;
    assert name[labpos..i + 1] == name[labpos..i] + [name[i]];
  }

  lemma NextPiece(name: string, labpos: nat, i: nat, done: seq<string>)
    requires Encoding(name, labpos, i, done) && i < |name| && i < NAME_MAX && name[i] == '.'
             && 1 <= i - labpos <= LABEL_MAX
    ensures Encoding(name, i + 1, i + 1, done + [name[labpos..i]])
  {
    hide Split;
    PieceEnds(name, labpos, i, done);
    var ls := done + [name[labpos..i]];
    assert done + ([name[labpos..i]] + Split(name[i + 1..])) == ls + Split(name[i + 1..]);
  }

  lemma LastPiece(name: string, labpos: nat, done: seq<string>)
    requires Encoding(name, labpos, |name|, done) && 1 <= |name| - labpos <= LABEL_MAX
    ensures GoodName(name) && Split(name) == done + [name[labpos..]]
  {
    hide Split;
    PieceEnds(name, labpos, |name|, done);
    assert name[labpos..|name|] == name[labpos..];
  }

  lemma {:induction false} ToLabelsAppend(a: seq<string>, l: string)
    requires (forall k: nat | k < |a| :: GoodLabel(a[k])) && GoodLabel(l)
    ensures ToLabels(a + [l]) == ToLabels(a) + [Bytes(l)]
  {
    if a == [] {
      assert a + [l] == [l];
      assert ToLabels([l]) == [Bytes(l)] + ToLabels([]);
    } else {
      assert (a + [l])[1..] == a[1..] + [l] && (a + [l])[0] == a[0];
      ToLabelsAppend(a[1..], l);
    }
  }

  // One label into the packet.
  method PutPiece(name: string, labpos: nat, i: nat, pkt: array<Byte>, np: nat)
    requires labpos < i <= |name| && i - labpos <= LABEL_MAX && np + 1 + (i - labpos) <= pkt.Length
    requires GoodLabel(name[labpos..i])
    modifies pkt
    ensures pkt[..np] == old(pkt[..np]) && pkt[np..np + 1 + (i - labpos)] == [i - labpos] + Bytes(name[labpos..i])
  {
    ghost var part := Bytes(name[labpos..i]);
    pkt[np] := i - labpos;
    var k: nat := 0;
    while k < i - labpos
      invariant k <= i - labpos
      invariant pkt[..np] == old(pkt[..np]) && pkt[np] == i - labpos
      invariant pkt[np + 1..np + 1 + k] == part[..k]
    {
      assert name[labpos + k] == name[labpos..i][k];
      pkt[np + 1 + k] := name[labpos + k] as int;
      k := k + 1;
      assert part[..k] == part[..k - 1] + [part[k - 1]];
    }
    assert part[..k] == part;
  }

  // The first loop of net_dns_resolve: the dotted name into the packet, behind the header.
  // The packet has room for 80 bytes of name, which the 64 characters allowed never exceed.
  method PutName(name: string, pkt: array<Byte>) returns (ok: bool, np: nat)
    requires pkt.Length == HEADER + QNAME_CAP + 4
    modifies pkt
    ensures ok <==> GoodName(name)
    ensures ok ==> HEADER <= np <= HEADER + QNAME_CAP && pkt[HEADER..np] == Encode(ToLabels(Split(name)))
    ensures pkt[..HEADER] == old(pkt[..HEADER])
  {
    hide Split, Encoding, Body, ToLabels, GoodName, Bytes;
    ok, np := false, HEADER;
    var labpos: nat, i: nat := 0, 0;
    ghost var done: seq<string> := [];
    BeginName(name);
    while true
      invariant !ok && Encoding(name, labpos, i, done) && labpos <= i <= |name| && i <= NAME_MAX
      invariant AllGood(done) && np == HEADER + labpos && pkt[HEADER..np] == Body(ToLabels(done))
      invariant pkt[..HEADER] == old(pkt[..HEADER])
      decreases |name| - i
    {
      if i < |name| && i >= NAME_MAX {
        TooLong(name);
        return;
      }
      if i == |name| || name[i] == '.' {
        var n := i - labpos;
        if n == 0 || n > LABEL_MAX || np + 1 + n > HEADER + QNAME_CAP - 1 {
          BadPiece(name, labpos, i, done);
          return;
        }
        Piece(name, labpos, i, done);
        PutPiece(name, labpos, i, pkt, np);
        Joined(pkt[..], HEADER, np, np + 1 + n);
        assert pkt[..HEADER] == pkt[..np][..HEADER];
        assert pkt[HEADER..np] == pkt[..np][HEADER..];
        assert pkt[..][HEADER..np + 1 + n] == pkt[HEADER..np + 1 + n];
        np := np + 1 + n;
        if i == |name| {
          LastPiece(name, labpos, done);
          assert name[labpos..i] == name[labpos..];
          done := done + [name[labpos..i]];
          break;
        }
        NextPiece(name, labpos, i, done);
        done := done + [name[labpos..i]];
        labpos := i + 1;
      } else if !LabelChar(name[i]) {
        BadChar(name, labpos, i, done);
        return;
      } else {
        NextChar(name, labpos, i, done);
      }
      i := i + 1;
    }
    pkt[np] := 0;
    np := np + 1;
    assert pkt[HEADER..np] == pkt[HEADER..np - 1] + [0];
    ok := true;
  }

  lemma Joined(s: seq<Byte>, a: nat, b: nat, c: nat)
    requires a <= b <= c <= |s|
    ensures s[a..c] == s[a..b] + s[b..c]
  {
  }

  ghost predicate AllGood(done: seq<string>) {
    forall k: nat | k < |done| :: GoodLabel(done[k])
  }

  lemma BeginName(name: string)
    ensures Encoding(name, 0, 0, []) && Body(ToLabels([])) == []
  {
    hide Split;
    assert name[0..] == name && [] + Split(name) == Split(name);
  }

  lemma TooLong(name: string)
    requires |name| > NAME_MAX
    ensures !GoodName(name)
  {
  }

  lemma Piece(name: string, labpos: nat, i: nat, done: seq<string>)
    requires Encoding(name, labpos, i, done) && 1 <= i - labpos <= LABEL_MAX
    ensures AllGood(done) && GoodLabel(name[labpos..i]) && AllGood(done + [name[labpos..i]])
    ensures Body(ToLabels(done + [name[labpos..i]])) == Body(ToLabels(done)) + ([i - labpos] + Bytes(name[labpos..i]))
  {
    hide Split, Body;
    var l := name[labpos..i];
    assert GoodLabel(l);
    ToLabelsAppend(done, l);
    BodyAppend(ToLabels(done), [Bytes(l)]);
    BodyOne(Bytes(l));
  }
}
