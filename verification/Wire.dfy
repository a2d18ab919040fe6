/** The framing format of `message`: a four-byte header (two little-endian length bytes, the
    message type, the proto type) and a body of at most 1024 bytes.  This module holds the
    format on values: what one frame looks like, and a one-shot parser for a whole stream. */
module Wire {
  import opened Basics

  type byte = b: int | 0 <= b < 256

  const HEAD_LENGTH: nat := 4
  const MAX_BODY_LENGTH: nat := 1024
  /** The size of `data_`: header, longest body, one byte for the terminator. */
  const BUFFER_LENGTH: nat := HEAD_LENGTH + MAX_BODY_LENGTH + 1

  /** MessageType::PROTO; the enumeration has a fixed underlying type, so any byte is a type. */
  const PROTO: byte := 2
  /** ProtoMessageType::DEFAULT_MSG */
  const DEFAULT_MSG: byte := 255

  datatype Header = Header(len0: byte, len1: byte, mt: byte, pmt: byte)

  function Length(h: Header): nat {
    h.len0 + 256 * h.len1
  }

  function HeaderAt(s: seq<byte>): Header
    requires HEAD_LENGTH <= |s|
  {
    Header(s[0], s[1], s[2], s[3])
  }

  /** What `encode` is given, what one frame carries, and what a "read" callback can observe. */
  datatype Packet = Packet(body: seq<byte>, mt: byte, pmt: byte)

  datatype EncodeOutcome = Encoded | LengthError | AssertionFailed

  /** How `encode` ends: the length test comes first, the assertion is that a message of type 2 has a
      proto type other than 255.  A body is too long exactly when it and its terminator do not fit
      the buffer. */
  function Check(p: Packet): (outcome: EncodeOutcome)
    ensures outcome.LengthError? <==> |p.body| > 1024
    ensures outcome.AssertionFailed? <==> |p.body| <= 1024 && p.mt == 2 && p.pmt == 255
    ensures outcome.LengthError? <==> BUFFER_LENGTH < HEAD_LENGTH + |p.body| + 1
  {
    if |p.body| > MAX_BODY_LENGTH then LengthError
    else if p.mt == PROTO && p.pmt == DEFAULT_MSG then AssertionFailed
    else Encoded
  }

  /** The packet that is put on the wire.  `encode` assigns `pmt_` for PROTO only; otherwise the
      wire carries whatever byte the uninitialised header held. */
  function OnWire(p: Packet, unassigned: byte): Packet {
    if p.mt == PROTO then p else p.(pmt := unassigned)
  }

  /** The part of a packet that sender and receiver can agree on. */
  datatype Meaning = Meaning(body: seq<byte>, mt: byte, proto: Option<byte>)

  function MeaningOf(p: Packet): Meaning {
    Meaning(p.body, p.mt, if p.mt == PROTO then Some(p.pmt) else None)
  }

  function Meanings(ps: seq<Packet>): (ms: seq<Meaning>)
    ensures |ms| == |ps|
    ensures forall i :: 0 <= i < |ps| ==> ms[i] == MeaningOf(ps[i])
  {
    seq(|ps|, i requires 0 <= i < |ps| => MeaningOf(ps[i]))
  }

  /** Two messages mean the same exactly when body and type agree, and for type 2 the proto type. */
  lemma SameMeaningsIff(ps: seq<Packet>, qs: seq<Packet>)
    ensures Meanings(ps) <= Meanings(qs) <==>
      |ps| <= |qs| && forall i :: 0 <= i < |ps| ==>
        ps[i].body == qs[i].body && ps[i].mt == qs[i].mt && (ps[i].mt == 2 ==> ps[i].pmt == qs[i].pmt)
  {
    if Meanings(ps) <= Meanings(qs) {
      forall i | 0 <= i < |ps|
        ensures MeaningOf(ps[i]) == MeaningOf(qs[i])
      {
        assert Meanings(ps)[i] == Meanings(qs)[i];
      }
    }
  }

  /** The bytes of one frame. */
  function PacketBytes(p: Packet): (s: seq<byte>)
    ensures |s| == HEAD_LENGTH + |p.body|
  {
    [|p.body| % 256, |p.body| / 256 % 256, p.mt, p.pmt] + p.body
  }

  ghost predicate Bounded(ps: seq<Packet>) {
    forall p <- ps :: |p.body| <= MAX_BODY_LENGTH
  }

  function Unparse(ps: seq<Packet>): seq<byte> {
    if ps == [] then [] else PacketBytes(ps[0]) + Unparse(ps[1..])
  }

  datatype Parsed = Parsed(packets: seq<Packet>, rest: seq<byte>)

  /** True iff `s` begins with a whole frame whose length field is legal. */
  predicate StartsWithFrame(s: seq<byte>) {
    && HEAD_LENGTH <= |s|
    && Length(HeaderAt(s)) <= MAX_BODY_LENGTH
    && HEAD_LENGTH + Length(HeaderAt(s)) <= |s|
  }

  function FirstPacket(s: seq<byte>): Packet
    requires StartsWithFrame(s)
  {
    var h := HeaderAt(s);
    Packet(s[HEAD_LENGTH..HEAD_LENGTH + Length(h)], h.mt, h.pmt)
  }

  /** The reference parser: it looks at the whole stream at once and keeps no buffer.  It stops at
      an incomplete frame and at a header whose length no `encode` can have written. */
  function Parse(s: seq<byte>): Parsed
    decreases |s|
  {
    if StartsWithFrame(s) then
      var tail := Parse(s[HEAD_LENGTH + Length(HeaderAt(s))..]);
      Parsed([FirstPacket(s)] + tail.packets, tail.rest)
    else
      Parsed([], s)
  }

  /** The number of bytes a sequence of packets takes on the wire. */
  function WireSize(ps: seq<Packet>): nat {
    if ps == [] then 0 else HEAD_LENGTH + |ps[0].body| + WireSize(ps[1..])
  }

  // ----- lemmas about the format -----

  /** A length below 2^16 is what its two bytes say, and two bytes are what their length gives. */
  lemma LengthWritten(n: nat)
    requires n < 65536
    ensures n % 256 + 256 * (n / 256 % 256) == n
  {
  }

  lemma LengthRead(low: byte, high: byte)
    ensures (low + 256 * high) % 256 == low && (low + 256 * high) / 256 % 256 == high
  {
  }

  /** The bytes of a frame, whatever follows them, are read back as that frame. */
  lemma FrameReadsBack(p: Packet, tail: seq<byte>)
    requires |p.body| <= MAX_BODY_LENGTH
    ensures StartsWithFrame(PacketBytes(p) + tail)
    ensures Length(HeaderAt(PacketBytes(p) + tail)) == |p.body|
    ensures FirstPacket(PacketBytes(p) + tail) == p
    ensures (PacketBytes(p) + tail)[HEAD_LENGTH + |p.body|..] == tail
  {
    LengthWritten(|p.body|);
    var s := PacketBytes(p) + tail;
    assert s[HEAD_LENGTH..HEAD_LENGTH + |p.body|] == p.body;
  }

  /** The converse: a stream that starts with a frame starts with the bytes of that packet. */
  lemma FrameWritesBack(s: seq<byte>)
    requires StartsWithFrame(s)
    ensures |FirstPacket(s).body| == Length(HeaderAt(s))
    ensures PacketBytes(FirstPacket(s)) == s[..HEAD_LENGTH + Length(HeaderAt(s))]
  {
    LengthRead(s[0], s[1]);
    assert PacketBytes(FirstPacket(s)) == s[..HEAD_LENGTH + Length(HeaderAt(s))];
  }

  /** One step of the parser. */
  lemma ParseOne(p: Packet, tail: seq<byte>)
    requires |p.body| <= MAX_BODY_LENGTH
    ensures Parse(PacketBytes(p) + tail) == Parsed([p] + Parse(tail).packets, Parse(tail).rest)
  {
    FrameReadsBack(p, tail);
  }

  /** The bytes of a frame written out: two length bytes, low byte first, the type, the proto type and
      then the body. */
  function RawFrame(body: seq<byte>, mt: byte, pmt: byte): seq<byte>
    requires |body| <= 1024
  {
    [|body| % 256, |body| / 256, mt, pmt] + body
  }

  /** Every body of at most 1024 bytes makes a frame that is read as the one packet, whatever follows
      it; its bytes are those of the packet. */
  lemma RawFrameParses(body: seq<byte>, mt: byte, pmt: byte, tail: seq<byte>)
    requires |body| <= 1024
    ensures PacketBytes(Packet(body, mt, pmt)) == RawFrame(body, mt, pmt)
    ensures Parse(RawFrame(body, mt, pmt) + tail)
         == Parsed([Packet(body, mt, pmt)] + Parse(tail).packets, Parse(tail).rest)
    ensures Parse(RawFrame(body, mt, pmt)) == Parsed([Packet(body, mt, pmt)], [])
  {
    var p := Packet(body, mt, pmt);
    ParseOne(p, tail);
    ParseOne(p, []);
    AppendNothing(PacketBytes(p));
  }

  function RawStream(ps: seq<Packet>): seq<byte>
    requires forall p <- ps :: |p.body| <= 1024
  {
    if ps == [] then []
    else
      assert ps[0] in ps;
      RawFrame(ps[0].body, ps[0].mt, ps[0].pmt) + RawStream(ps[1..])
  }

  /** The same for any number of frames. */
  lemma {:induction false} RawStreamParses(ps: seq<Packet>)
    requires forall p <- ps :: |p.body| <= 1024
    ensures Parse(RawStream(ps)) == Parsed(ps, [])
  {
    if ps != [] {
      assert ps[0] in ps;
      RawFrameParses(ps[0].body, ps[0].mt, ps[0].pmt, RawStream(ps[1..]));
      RawStreamParses(ps[1..]);
    }
  }

  lemma UnparseOne(p: Packet, ps: seq<Packet>)
    ensures Unparse([p] + ps) == PacketBytes(p) + Unparse(ps)
  {
  }

  /** Parsing after unparsing: any run of frames is recovered, followed by whatever the rest is. */
  lemma {:induction false} ParseUnparse(ps: seq<Packet>, tail: seq<byte>)
    requires Bounded(ps)
    ensures Parse(Unparse(ps) + tail) == Parsed(ps + Parse(tail).packets, Parse(tail).rest)
  {
    if ps == [] {
      assert Unparse(ps) + tail == tail;
      assert ps + Parse(tail).packets == Parse(tail).packets;
    } else {
      var p, after := ps[0], Unparse(ps[1..]) + tail;
      assert Unparse(ps) + tail == PacketBytes(p) + after by {
        Regroup(PacketBytes(p), Unparse(ps[1..]), tail);
      }
      ParseOne(p, after);
      ParseUnparse(ps[1..], tail);
      Regroup([p], ps[1..], Parse(tail).packets);
      assert [p] + ps[1..] == ps;
    }
  }

  /** Unparsing after parsing: the parser loses no byte, on any stream at all, and what it leaves
      over does not start with a frame. */
  lemma {:induction false} UnparseParse(s: seq<byte>)
    ensures Unparse(Parse(s).packets) + Parse(s).rest == s
    ensures Bounded(Parse(s).packets)
    ensures !StartsWithFrame(Parse(s).rest)
    decreases |s|
  {
    if StartsWithFrame(s) {
      var n := HEAD_LENGTH + Length(HeaderAt(s));
      var p, tail := FirstPacket(s), Parse(s[n..]);
      UnparseParse(s[n..]);
      calc {
        Unparse([p] + tail.packets) + tail.rest;
        { UnparseOne(p, tail.packets); }
        (PacketBytes(p) + Unparse(tail.packets)) + tail.rest;
        { Regroup(PacketBytes(p), Unparse(tail.packets), tail.rest); }
        PacketBytes(p) + s[n..];
        { FrameWritesBack(s); }
        s[..n] + s[n..];
        { SplitAt(s, n); }
        s;
      }
    }
  }

  lemma {:induction false} UnparseConcat(ps: seq<Packet>, qs: seq<Packet>)
    ensures Unparse(ps + qs) == Unparse(ps) + Unparse(qs)
  {
    if ps == [] {
      assert ps + qs == qs;
    } else {
      assert (ps + qs)[1..] == ps[1..] + qs;
      UnparseConcat(ps[1..], qs);
    }
  }

  lemma UnparseSnoc(ps: seq<Packet>, p: Packet)
    ensures Unparse(ps + [p]) == Unparse(ps) + PacketBytes(p)
  {
    UnparseConcat(ps, [p]);
    assert Unparse([p]) == PacketBytes(p) + Unparse([]);
  }

  lemma {:induction false} UnparseSize(ps: seq<Packet>)
    ensures |Unparse(ps)| == WireSize(ps)
  {
    if ps != [] {
      UnparseSize(ps[1..]);
    }
  }

  /** No frame is a proper beginning of another one. */
  lemma PrefixFree(p: Packet, q: Packet)
    requires Check(p).Encoded? && Check(q).Encoded?
    requires PacketBytes(p) <= PacketBytes(q)
    ensures p == q
  {
    var tail := PacketBytes(q)[|PacketBytes(p)|..];
    assert PacketBytes(q) == PacketBytes(p) + tail;
    assert PacketBytes(q) == PacketBytes(q) + [];
    FrameReadsBack(p, tail);
    FrameReadsBack(q, []);
  }

  /** One accepted call of the sender: the arguments and the byte left in the unassigned field. */
  datatype Sent = Sent(args: Packet, unassigned: byte)

  function WirePackets(xs: seq<Sent>): (ps: seq<Packet>)
    ensures |ps| == |xs|
    ensures forall i :: 0 <= i < |xs| ==> ps[i] == OnWire(xs[i].args, xs[i].unassigned)
  {
    seq(|xs|, i requires 0 <= i < |xs| => OnWire(xs[i].args, xs[i].unassigned))
  }

  function Arguments(xs: seq<Sent>): (ps: seq<Packet>)
    ensures |ps| == |xs|
    ensures forall i :: 0 <= i < |xs| ==> ps[i] == xs[i].args
  {
    seq(|xs|, i requires 0 <= i < |xs| => xs[i].args)
  }

  ghost predicate AllEncoded(xs: seq<Sent>) {
    forall x <- xs :: Check(x.args).Encoded?
  }

  lemma WireKeepsMeaning(xs: seq<Sent>)
    ensures Meanings(WirePackets(xs)) == Meanings(Arguments(xs))
  {
  }

  /** Parsing the bytes of a sequence of accepted calls gives back its messages and no leftover. */
  lemma StreamDecodes(xs: seq<Sent>)
    requires AllEncoded(xs)
    ensures Parse(Unparse(WirePackets(xs))).rest == []
    ensures Meanings(Parse(Unparse(WirePackets(xs))).packets) == Meanings(Arguments(xs))
  {
    assert Unparse(WirePackets(xs)) + [] == Unparse(WirePackets(xs));
    ParseUnparse(WirePackets(xs), []);
    WireKeepsMeaning(xs);
    assert WirePackets(xs) + [] == WirePackets(xs);
  }

  /** Unique decodability: two senders whose bytes agree sent the same messages, whatever byte was
      left in the unassigned field of any header on either side. */
  lemma StreamIsInjective(xs: seq<Sent>, ys: seq<Sent>)
    requires AllEncoded(xs) && AllEncoded(ys)
    requires Unparse(WirePackets(xs)) == Unparse(WirePackets(ys))
    ensures Meanings(Arguments(xs)) == Meanings(Arguments(ys))
  {
    StreamDecodes(xs);
    StreamDecodes(ys);
  }

  /** The proto type argument itself survives exactly when the message is PROTO or the unassigned
      byte happens to hold it: `getProtoMessageType` says nothing about other messages. */
  lemma ProtoTypeSurvivesIff(p: Packet, unassigned: byte)
    requires Check(p).Encoded?
    ensures Parse(PacketBytes(OnWire(p, unassigned))).packets == [p]
       <==> p.mt == PROTO || unassigned == p.pmt
  {
    var w := OnWire(p, unassigned);
    assert PacketBytes(w) + [] == PacketBytes(w);
    FrameReadsBack(w, []);
    assert Parse(PacketBytes(w)).packets == [w];
  }
}
