// Domain names in DNS messages (net/net_dns.c): what a name at an offset means, and the
// encoding the resolver puts into its query.
module Dns {
  import opened Basics

  const HEADER: nat := 12
  const PTR_MAX: nat := 8
  const LABEL_MAX: nat := 63
  const NAME_MAX: nat := 64
  const QNAME_CAP: nat := 80

  type Label = seq<Byte>

  // A name as read: its labels, and how many bytes the reader passed over on the way.
  datatype Path = Path(labels: seq<Label>, used: nat)

  function Target(msg: seq<Byte>, p: nat): nat
    requires p + 1 < |msg| && msg[p] >= 192
  {
    var high: int := msg[p];
    (high - 192) * 256 + msg[p + 1]
  }

  // Section 4.1.4 of RFC 1035, with at most jumps pointers, each to a place behind the header
  // and before itself.
  function NameAt(msg: seq<Byte>, p: nat, jumps: nat): (r: Option<Path>)
    decreases jumps, |msg| - p
  {
    if p >= |msg| then None
    else
      var l := msg[p];
      if l == 0 then Some(Path([], 0))
      else if l >= 192 then
        if p + 2 > |msg| then None
        else
          var t := Target(msg, p);
          if t < HEADER || t >= p || jumps == 0 then None
          else match NameAt(msg, t, jumps - 1)
            case None => None
            case Some(rest) => Some(Path(rest.labels, 2 + rest.used))
      else if l >= 64 || l >= |msg| - p then None
      else match NameAt(msg, p + 1 + l, jumps)
        case None => None
        case Some(rest) => Some(Path([msg[p + 1..p + 1 + l]] + rest.labels, 1 + l + rest.used))
  }

  // Where the name ends in the byte stream: behind its terminator or its first pointer.
  function StreamEnd(msg: seq<Byte>, p: nat): nat
    decreases |msg| - p
  {
    if p >= |msg| || msg[p] == 0 then p + 1
    else if msg[p] >= 192 then p + 2
    else if msg[p] >= 64 || msg[p] >= |msg| - p then p
    else StreamEnd(msg, p + 1 + msg[p])
  }

  predicate WellFormed(labels: seq<Label>) {
    forall i: nat | i < |labels| :: 1 <= |labels[i]| <= LABEL_MAX
  }

  // The labels, each behind its length.
  function Body(labels: seq<Label>): seq<Byte>
    requires WellFormed(labels)
  {
    if labels == [] then [] else [|labels[0]|] + labels[0] + Body(labels[1..])
  }

  // The uncompressed encoding, with its terminator.
  function Encode(labels: seq<Label>): (r: seq<Byte>)
    requires WellFormed(labels)
  {
    Body(labels) + [0]
  }

  lemma {:induction false} BodyAppend(a: seq<Label>, b: seq<Label>)
    requires WellFormed(a) && WellFormed(b)
    ensures WellFormed(a + b) && Body(a + b) == Body(a) + Body(b)
  {
    if a == [] {
      assert a + b == b;
    } else {
      BodyAppend(a[1..], b);
      assert (a + b)[1..] == a[1..] + b && (a + b)[0] == a[0];
      assert WellFormed(a + b);
      var l := [|a[0]|] + a[0];
      assert l + (Body(a[1..]) + Body(b)) == (l + Body(a[1..])) + Body(b);
    }
  }

  lemma BodyOne(l: Label)
    requires 1 <= |l| <= LABEL_MAX
    ensures Body([l]) == [|l|] + l
  {
    assert [l][1..] == [];
  }

  lemma {:induction false} NameWellFormed(msg: seq<Byte>, p: nat, jumps: nat)
    ensures NameAt(msg, p, jumps).Some? ==> WellFormed(NameAt(msg, p, jumps).value.labels)
    decreases jumps, |msg| - p
  {
    if p + 1 < |msg| {
      if msg[p] >= 192 {
        if HEADER <= Target(msg, p) < p && jumps > 0 { NameWellFormed(msg, Target(msg, p), jumps - 1); }
      } else if msg[p] < 64 && 0 < msg[p] < |msg| - p {
        NameWellFormed(msg, p + 1 + msg[p], jumps);
      }
    }
  }

  // A name that was read always ends inside the message.
  lemma {:induction false} EndsInside(msg: seq<Byte>, p: nat, jumps: nat)
    requires NameAt(msg, p, jumps).Some?
    ensures p < StreamEnd(msg, p) <= |msg|
    decreases |msg| - p
  {
    if 0 < msg[p] < 64 { EndsInside(msg, p + 1 + msg[p], jumps); }
  }

  // ---- decoding undoes encoding ----

  // Wherever the encoding of a name stands in a message, reading there gives the name back,
  // without following a pointer, and stops right behind it.
  lemma {:induction false} RoundTrip(pre: seq<Byte>, labels: seq<Label>, post: seq<Byte>, jumps: nat)
    requires WellFormed(labels)
    ensures var msg := pre + Encode(labels) + post;
            && NameAt(msg, |pre|, jumps) == Some(Path(labels, |Encode(labels)| - 1))
            && StreamEnd(msg, |pre|) == |pre| + |Encode(labels)|
    decreases |labels|
  {
    hide NameAt, StreamEnd;
    var msg := pre + Encode(labels) + post;
    if labels == [] {
      AtTerminator(msg, |pre|, jumps);
    } else {
      var l, rest := labels[0], labels[1..];
      var pre' := pre + [|l|] + l;
      RoundTrip(pre', rest, post, jumps);
      assert msg == pre' + Encode(rest) + post;
      assert msg[|pre|] == |l|;
      assert msg[|pre| + 1..|pre| + 1 + |l|] == l;
      AtLabel(msg, |pre|, jumps);
      assert [l] + rest == labels;
    }
  }

  lemma AtTerminator(msg: seq<Byte>, p: nat, jumps: nat)
    requires p < |msg| && msg[p] == 0
    ensures NameAt(msg, p, jumps) == Some(Path([], 0)) && StreamEnd(msg, p) == p + 1
  {
  }

  lemma AtLabel(msg: seq<Byte>, p: nat, jumps: nat)
    requires p < |msg| && 0 < msg[p] < 64 && msg[p] < |msg| - p
    ensures NameAt(msg, p, jumps) ==
              match NameAt(msg, p + 1 + msg[p], jumps)
              case None => None
              case Some(rest) => Some(Path([msg[p + 1..p + 1 + msg[p]]] + rest.labels, 1 + msg[p] + rest.used))
    ensures StreamEnd(msg, p) == StreamEnd(msg, p + 1 + msg[p])
  {
  }

  lemma AtPointer(msg: seq<Byte>, p: nat, jumps: nat)
    requires p + 1 < |msg| && msg[p] >= 192 && HEADER <= Target(msg, p) < p && jumps > 0
    ensures NameAt(msg, p, jumps) ==
              match NameAt(msg, Target(msg, p), jumps - 1)
              case None => None
              case Some(rest) => Some(Path(rest.labels, 2 + rest.used))
    ensures StreamEnd(msg, p) == p + 2
  {
  }

  // Two names with one encoding are the same name.
  lemma EncodeInjective(a: seq<Label>, b: seq<Label>)
    requires WellFormed(a) && WellFormed(b) && Encode(a) == Encode(b)
    ensures a == b
  {
    RoundTrip([], a, [], 0);
    RoundTrip([], b, [], 0);
  }

  // ---- dotted names ----

  predicate LabelChar(c: char) {
    '0' <= c <= '9' || 'a' <= c <= 'z' || 'A' <= c <= 'Z' || c == '-'
  }

  function Bytes(s: string): (r: seq<Byte>)
    requires forall i: nat | i < |s| :: LabelChar(s[i])
    ensures |r| == |s| && forall i: nat | i < |s| :: r[i] == s[i] as int
  {
    if s == [] then []
    else
      assert LabelChar(s[0]);
      var b: Byte := s[0] as int;
      [b] + Bytes(s[1..])
  }

  // The pieces of a name between its dots.
  function Split(s: string): (r: seq<string>)
    ensures |r| >= 1
  {
    if s == [] then [[]]
    else
      var rest := Split(s[1..]);
      if s[0] == '.' then [[]] + rest else [[s[0]] + rest[0]] + rest[1..]
  }

  function Join(ls: seq<string>): string {
    if ls == [] then [] else if |ls| == 1 then ls[0] else ls[0] + ['.'] + Join(ls[1..])
  }

  lemma {:induction false} JoinSplit(s: string)
    ensures Join(Split(s)) == s
  {
    if s != [] {
      JoinSplit(s[1..]);
      var rest := Split(s[1..]);
      if s[0] == '.' {
        assert Split(s)[1..] == rest;
        assert Join(Split(s)) == [] + ['.'] + Join(rest);
        assert [] + ['.'] + s[1..] == s;
      } else {
        assert Split(s)[1..] == rest[1..];
        JoinHead(s[0], rest);
        assert [s[0]] + s[1..] == s;
      }
    }
  }

  lemma JoinHead(c: char, ls: seq<string>)
    requires ls != []
    ensures Join([[c] + ls[0]] + ls[1..]) == [c] + Join(ls)
  {
    assert ([[c] + ls[0]] + ls[1..])[1..] == ls[1..];
  }

  predicate GoodLabel(l: string) {
    1 <= |l| <= LABEL_MAX && forall i: nat | i < |l| :: LabelChar(l[i])
  }

  // What the resolver accepts.
  predicate GoodName(s: string) {
    |s| <= NAME_MAX && forall i: nat | i < |Split(s)| :: GoodLabel(Split(s)[i])
  }

  function ToLabels(ls: seq<string>): (r: seq<Label>)
    requires forall i: nat | i < |ls| :: GoodLabel(ls[i])
    ensures |r| == |ls| && WellFormed(r)
  {
    if ls == [] then []
    else
      assert GoodLabel(ls[0]);
      [Bytes(ls[0])] + ToLabels(ls[1..])
  }

  lemma {:induction false} SplitPlain(s: string)
    requires '.' !in s
    ensures Split(s) == [s]
  {
    if s != [] {
      SplitPlain(s[1..]);
      assert [s[0]] + s[1..] == s;
    }
  }

  lemma {:induction false} SplitAtDot(s: string, k: nat)
    requires k < |s| && s[k] == '.' && '.' !in s[..k]
    ensures Split(s) == [s[..k]] + Split(s[k + 1..])
  {
    if k > 0 {
      assert s[0] in s[..k] && s[1..][..k - 1] == s[..k][1..];
      SplitAtDot(s[1..], k - 1);
      assert s[1..][k..] == s[k + 1..];
      assert [s[0]] + s[1..][..k - 1] == s[..k];
    }
  }

  // The first piece reaches at least as far as no dot has been seen.
  lemma {:induction false} SplitHead(s: string, k: nat)
    requires k < |s| && '.' !in s[..k + 1]
    ensures |Split(s)[0]| > k && Split(s)[0][k] == s[k]
  {
    assert s[0] in s[..k + 1];
    if k > 0 {
      assert s[1..][..k] == s[..k + 1][1..];
      SplitHead(s[1..], k - 1);
    }
  }

  function Text(l: Label): string {
    seq(|l|, i requires 0 <= i < |l| => l[i] as char)
  }

  function Texts(ls: seq<Label>): seq<string> {
    seq(|ls|, i requires 0 <= i < |ls| => Text(ls[i]))
  }

  // Whatever header and whatever follows: reading the name of a query gives back the name the
  // program asked for.
  lemma QueryRoundTrip(name: string, header: seq<Byte>, post: seq<Byte>)
    requires GoodName(name) && |header| == HEADER
    ensures var labels := ToLabels(Split(name));
            var r := NameAt(header + Encode(labels) + post, HEADER, PTR_MAX);
            r.Some? && Join(Texts(r.value.labels)) == name
  {
    var labels := ToLabels(Split(name));
    RoundTrip(header, labels, post, PTR_MAX);
    TextsBack(Split(name));
    JoinSplit(name);
  }

  lemma {:induction false} TextsBack(ls: seq<string>)
    requires forall i: nat | i < |ls| :: GoodLabel(ls[i])
    ensures Texts(ToLabels(ls)) == ls
  {
    if ls != [] {
      assert GoodLabel(ls[0]);
      TextsBack(ls[1..]);
      assert Text(Bytes(ls[0])) == ls[0];
      assert ToLabels(ls)[1..] == ToLabels(ls[1..]);
      forall i: nat | i < |ls| ensures Texts(ToLabels(ls))[i] == ls[i] {
        if i > 0 { assert Texts(ToLabels(ls[1..]))[i - 1] == ls[1..][i - 1]; }
      }
    }
  }
}
