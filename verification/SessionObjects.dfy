/** The classes `message` and `Session` with their fields updated in place.  Each method is proved
    against the function of the same name in Reader.dfy, on which the stream theorems rest. */
module SessionObjects {
  import opened Basics
  import opened Wire
  import opened Reader

  /** `memcpy`. */
  method Memcpy(dst: array<byte>, at: nat, src: seq<byte>)
    requires at + |src| <= dst.Length
    modifies dst
    ensures dst[..] == Overwrite(old(dst[..]), at, src)
  {
    forall i | 0 <= i < |src| {
      dst[at + i] := src[i];
    }
    assert dst[..][..at] == old(dst[..])[..at];
    assert dst[..][at..at + |src|] == src;
    assert dst[..][at + |src|..] == old(dst[..])[at + |src|..];
    assert dst[..] == dst[..][..at] + dst[..][at..at + |src|] + dst[..][at + |src|..];
  }

  class Message {
    var bodyLength: nat
    var header: Header
    const data: array<byte>

    /** The constructor zeroes the length and the header; `data_` stays as the memory was. */
    constructor (memory: seq<byte>)
      requires |memory| == 1029
      ensures bodyLength == 0 && header == Header(0, 0, 0, 0)
      ensures fresh(data) && data.Length == 1029 && data[..] == memory
    {
      bodyLength := 0;
      header := Header(0, 0, 0, 0);
      data := new byte[BUFFER_LENGTH](i requires 0 <= i < BUFFER_LENGTH => memory[i]);
      new;
      assert data[..] == memory;
    }

    /** `encode`.  The byte `unassigned` is what the uninitialised `pmt_` of the local header holds.
        Neither `body_lenght_` nor `header_` is touched, and nothing at all when it throws. */
    method Encode(p: Packet, unassigned: byte) returns (outcome: EncodeOutcome)
      requires data.Length == 1029
      modifies data
      ensures outcome == Check(p)
      ensures outcome.LengthError? <==> |p.body| > 1024
      ensures outcome.AssertionFailed? <==> |p.body| <= 1024 && p.mt == 2 && p.pmt == 255
      ensures outcome.Encoded? ==>
        && data[0] as nat + 256 * (data[1] as nat) == |p.body| && data[2] == p.mt
        && data[3] == (if p.mt == 2 then p.pmt else unassigned)
        && data[4..4 + |p.body|] == p.body
      ensures !outcome.Encoded? ==> data[..] == old(data[..])
      ensures outcome.Encoded? ==>
        && data[..HEAD_LENGTH + |p.body|] == PacketBytes(OnWire(p, unassigned))
        && data[HEAD_LENGTH + |p.body|..] == old(data[HEAD_LENGTH + |p.body|..])
    {
      var len := |p.body|;
      if len > MAX_BODY_LENGTH {
        return LengthError;
      }
      var pmt := unassigned;
      if p.mt == PROTO {
        if p.pmt == DEFAULT_MSG {
          return AssertionFailed;
        }
        pmt := p.pmt;
      }
      Memcpy(data, 0, [len % 256, len / 256 % 256, p.mt, pmt]);
      Memcpy(data, HEAD_LENGTH, p.body);
      assert data[..HEAD_LENGTH + len] == data[..HEAD_LENGTH] + data[HEAD_LENGTH..HEAD_LENGTH + len];
      return Encoded;
    }

    /** `decode`.  The two low bytes of `body_lenght_` are overwritten, the others kept. */
    method DecodeHeader()
      requires data.Length == 1029
      requires HEAD_LENGTH + OverwriteLow(bodyLength, Length(HeaderAt(data[..]))) < BUFFER_LENGTH
      modifies this, data
      ensures header == Header(old(data[0]), old(data[1]), old(data[2]), old(data[3]))
      ensures bodyLength == OverwriteLow(old(bodyLength), Length(header))
      ensures data[..] == old(data[..])[HEAD_LENGTH + bodyLength := 0]
    {
      header := Header(data[0], data[1], data[2], data[3]);
      bodyLength := OverwriteLow(bodyLength, Length(header));
      data[HEAD_LENGTH + bodyLength] := 0;
    }
  }

  class Session {
    const readMsg: Message
    var ops: seq<ReadOp>
    var status: Status

    /** The whole mutable state, as a value. */
    ghost function View(): SessionState
      reads this, readMsg, readMsg.data
    {
      SessionState(readMsg.data[..], readMsg.header, readMsg.bodyLength, ops, status)
    }

    constructor (memory: seq<byte>)
      requires |memory| == 1029
      ensures View() == Initial(memory).session && Valid(View())
      ensures fresh(readMsg) && fresh(readMsg.data)
    {
      readMsg := new Message(memory);
      ops := [];
      status := Fresh;
    }

    /** `start` */
    method StartReading()
      modifies this
      ensures View() == ReadHeader(old(View()))
      ensures old(Valid(View()) && status.Fresh?) ==> Valid(View())
    {
      AsyncReadHeader();
    }

    /** `readHeader`: starts one more asynchronous read. */
    method AsyncReadHeader()
      modifies this
      ensures View() == ReadHeader(old(View()))
    {
      ops := ops + [ReadOp(HeaderRead, 0, HEAD_LENGTH, 0)];
      status := Live;
    }

    /** `readBody` */
    method AsyncReadBody()
      modifies this`ops
      ensures View() == ReadBody(old(View()))
    {
      ops := ops + [ReadOp(BodyRead, HEAD_LENGTH, readMsg.bodyLength, 0)];
    }

    /** The kernel puts some bytes into the buffer of the outstanding read. */
    method Receive(chunk: seq<byte>)
      requires Valid(View()) && status.Live? && 0 < |chunk| <= ops[0].need - ops[0].filled
      modifies this, readMsg.data
      ensures View() == Fill(old(View()), chunk) && Valid(View())
    {
      ghost var s := View();
      FillKeepsValid(s, chunk);
      var op := ops[0];
      Memcpy(readMsg.data, op.off + op.filled, chunk);
      assert readMsg.data[..] == Fill(s, chunk).data;
      ops := [op.(filled := op.filled + |chunk|)] + ops[1..];
      assert ops == Fill(s, chunk).ops;
      assert View() == Fill(s, chunk);
    }

    /** The handler of `readHeader`.  The source demands of the peer that the length fits. */
    method OnHeader(ghost log: seq<Packet>)
      requires Valid(View()) && Enabled(Receiver(View(), log), HeaderDone)
      requires Length(HeaderAt(readMsg.data[..])) <= MAX_BODY_LENGTH
      modifies this, readMsg, readMsg.data
      ensures Receiver(View(), log) == Step(Receiver(old(View()), log), HeaderDone)
      ensures Valid(View())
    {
      ghost var r := Receiver(View(), log);
      DecodeInBoundsIff(View());
      ops := ops[1..];
      readMsg.DecodeHeader();
      AsyncReadBody();
      assert View() == Step(r, HeaderDone).session;
    }

    /** The handler of `readBody` up to the callback, which is shown `observed`. */
    method OnBody(ghost log: seq<Packet>) returns (observed: Packet)
      requires Valid(View()) && Enabled(Receiver(View(), log), BodyDone)
      modifies this
      ensures Receiver(View(), log + [observed]) == Step(Receiver(old(View()), log), BodyDone)
      ensures Valid(View())
    {
      ops := ops[1..];
      status := InCallback;
      var body := GetReadmsg();
      observed := Packet(body, readMsg.header.mt, readMsg.header.pmt);
    }

    /** The end of the same handler, after the callback. */
    method AfterCallback(ghost log: seq<Packet>)
      requires Valid(View()) && status.InCallback?
      modifies this
      ensures Receiver(View(), log) == Step(Receiver(old(View()), log), Rearm)
      ensures Valid(View())
    {
      AsyncReadHeader();
    }

    /** The handler of either read, with an error. */
    method OnError(ghost log: seq<Packet>)
      requires Valid(View()) && status.Live?
      modifies this
      ensures Receiver(View(), log) == Step(Receiver(old(View()), log), Fail)
      ensures Valid(View())
    {
      ops := ops[1..];
      status := Stopped;
    }

    method GetReadmsg() returns (s: seq<byte>)
      requires HEAD_LENGTH + readMsg.bodyLength <= readMsg.data.Length
      ensures s == Observe(View()).body
    {
      s := readMsg.data[HEAD_LENGTH..HEAD_LENGTH + readMsg.bodyLength];
    }
  }

  /** `doWrite`: a fresh message is encoded and its first `head_len() + str.size()` bytes go out as
      one frame: the length, low byte first, the type, the proto type if the type is 2, the body.  When
      `encode` throws, nothing goes out.  What goes out parses as the one packet. */
  method DoWrite(p: Packet, memory: seq<byte>, unassigned: byte) returns (outcome: EncodeOutcome, out: seq<byte>)
    requires |memory| == 1029
    ensures outcome == Check(p)
    ensures outcome.LengthError? <==> |p.body| > 1024
    ensures outcome.AssertionFailed? <==> |p.body| <= 1024 && p.mt == 2 && p.pmt == 255
    ensures outcome.Encoded? ==>
      && |out| == 4 + |p.body| && out[0] as nat + 256 * (out[1] as nat) == |p.body| && out[2] == p.mt
      && out[3] == (if p.mt == 2 then p.pmt else unassigned)
      && out[4..] == p.body
    ensures outcome.Encoded? ==>
      out == PacketBytes(OnWire(p, unassigned)) && Parse(out) == Parsed([OnWire(p, unassigned)], [])
    ensures !outcome.Encoded? ==> out == []
  {
    var msg := new Message(memory);
    outcome := msg.Encode(p, unassigned);
    if outcome.Encoded? {
      out := msg.data[..HEAD_LENGTH + |p.body|];
      ParseOne(OnWire(p, unassigned), []);
      assert PacketBytes(OnWire(p, unassigned)) + [] == PacketBytes(OnWire(p, unassigned));
    } else {
      out := [];
    }
  }

  // ----- a session driven by a stream -----

  /** The session waits for bytes, having shown `log` of the bytes `taken` - or it has just met a
      header whose handler the source leaves undefined. */
  ghost predicate Waiting(s: Session, log: seq<Packet>, taken: seq<byte>, oversized: bool)
    reads s, s.readMsg, s.readMsg.data
  {
    && Explains(Receiver(s.View(), log), taken) && s.status.Live?
    && if oversized then
         Enabled(Receiver(s.View(), log), HeaderDone) && Length(HeaderAt(s.readMsg.data[..])) > MAX_BODY_LENGTH
       else
         !HandlerReady(Receiver(s.View(), log))
  }

  /** Runs the handlers of the session that are ready, as `run()` does. */
  method RunHandlers(s: Session, log: seq<Packet>, ghost taken: seq<byte>)
      returns (log': seq<Packet>, oversized: bool)
    requires Explains(Receiver(s.View(), log), taken) && s.status.Live?
    modifies s, s.readMsg, s.readMsg.data
    ensures Waiting(s, log', taken, oversized)
  {
    log', oversized := log, false;
    if s.ops[0].kind.HeaderRead? && s.ops[0].filled == s.ops[0].need {
      var h := HeaderAt(s.readMsg.data[..]);
      if Length(h) > MAX_BODY_LENGTH {
        return log', true;
      }
      StepExplains(Receiver(s.View(), log'), HeaderDone, taken);
      AppendNothing(taken);
      s.OnHeader(log');
    }
    if s.ops[0].kind.BodyRead? && s.ops[0].filled == s.ops[0].need {
      log' := RunBodyHandler(s, log', taken);
    }
  }

  /** The body handler from end to end; the callback adds what it is shown to the log. */
  method RunBodyHandler(s: Session, log: seq<Packet>, ghost taken: seq<byte>) returns (log': seq<Packet>)
    requires Explains(Receiver(s.View(), log), taken)
    requires Enabled(Receiver(s.View(), log), BodyDone)
    modifies s, s.readMsg, s.readMsg.data
    ensures Waiting(s, log', taken, false)
  {
    AppendNothing(taken);
    StepExplains(Receiver(s.View(), log), BodyDone, taken);
    var observed := s.OnBody(log);
    log' := log + [observed];
    StepExplains(Receiver(s.View(), log'), Rearm, taken);
    s.AfterCallback(log');
  }

  /** Some bytes that the outstanding read has room for, and what follows from them. */
  method TakeSome(s: Session, chunk: seq<byte>, log: seq<Packet>, ghost taken: seq<byte>)
      returns (log': seq<Packet>, oversized: bool)
    requires Waiting(s, log, taken, false) && 0 < |chunk| <= s.ops[0].need - s.ops[0].filled
    modifies s, s.readMsg, s.readMsg.data
    ensures Waiting(s, log', taken + chunk, oversized)
  {
    ArriveExplains(Receiver(s.View(), log), chunk, taken);
    s.Receive(chunk);
    log', oversized := RunHandlers(s, log, taken + chunk);
  }

  /** One piece of the stream: the outstanding read takes what it has room for, the handlers run, and
      the next read takes more, until the piece is used up. */
  method TakePiece(s: Session, piece: seq<byte>, log: seq<Packet>, ghost taken: seq<byte>)
      returns (log': seq<Packet>, oversized: bool, used: nat)
    requires Waiting(s, log, taken, false)
    modifies s, s.readMsg, s.readMsg.data
    ensures used <= |piece| && (!oversized ==> used == |piece|)
    ensures Waiting(s, log', taken + piece[..used], oversized)
  {
    log', oversized, used := log, false, 0;
    assert taken + piece[..0] == taken;
    while used < |piece| && !oversized
      invariant used <= |piece| && Waiting(s, log', taken + piece[..used], oversized)
    {
      var room := s.ops[0].need - s.ops[0].filled;
      var n := if |piece| - used <= room then |piece| - used else room;
      PieceGoesOn(taken, piece, used, n);
      log', oversized := TakeSome(s, piece[used..used + n], log', taken + piece[..used]);
      used := used + n;
    }
  }

  lemma PieceGoesOn(taken: seq<byte>, piece: seq<byte>, at: nat, n: nat)
    requires at + n <= |piece|
    ensures (taken + piece[..at]) + piece[at..at + n] == taken + piece[..at + n]
  {
    assert piece[..at] + piece[at..at + n] == piece[..at + n];
    Regroup(taken, piece[..at], piece[at..at + n]);
  }

  function Concat(pieces: seq<seq<byte>>): seq<byte> {
    if pieces == [] then [] else Concat(pieces[..|pieces| - 1]) + pieces[|pieces| - 1]
  }

  /** The one-shot parse of a stream of which the reader has met an illegal header. */
  lemma OversizedParse(r: Receiver, taken: seq<byte>, more: seq<byte>)
    requires Explains(r, taken) && Enabled(r, HeaderDone)
    requires Length(HeaderAt(r.session.data)) > MAX_BODY_LENGTH
    ensures var rest := Partial(r.session) + more;
      && Parse(taken + more) == Parsed(r.log, rest)
      && HEAD_LENGTH <= |rest| && Length(HeaderAt(rest)) > MAX_BODY_LENGTH
  {
    Regroup(Unparse(r.log), Partial(r.session), more);
    LeadingFramesAreParsed(r.log, taken + more, Partial(r.session) + more);
  }

  /** The whole of it, in place: a new session that is started and given a stream in any pieces shows
      its callbacks exactly the packets of a one-shot parse of the stream.  It stops early exactly at
      a header with a length over 1024, where the parse has no more packets either. */
  method ReadStream(s: Session, pieces: seq<seq<byte>>) returns (log: seq<Packet>, oversized: bool)
    requires s.View() == Initial(s.readMsg.data[..]).session && Valid(s.View())
    modifies s, s.readMsg, s.readMsg.data
    ensures log == Parse(Concat(pieces)).packets
    ensures forall ps: seq<Packet> :: (forall p <- ps :: |p.body| <= 1024) && Concat(pieces) == RawStream(ps) ==>
      log == ps && !oversized
    ensures var rest := Parse(Concat(pieces)).rest;
      oversized <==> 4 <= |rest| && rest[0] as nat + 256 * (rest[1] as nat) > 1024
    ensures !oversized ==> Valid(s.View()) && Partial(s.View()) == Parse(Concat(pieces)).rest
  {
    StepExplains(Receiver(s.View(), []), Start, []);
    s.StartReading();
    log, oversized := [], false;
    var i := 0;
    while i < |pieces|
      invariant i <= |pieces| && !oversized
      invariant Waiting(s, log, Concat(pieces[..i]), false)
    {
      var used;
      ghost var before := Concat(pieces[..i]);
      log, oversized, used := TakePiece(s, pieces[i], log, before);
      if oversized {
        RestOfStream(pieces, i, used);
        OversizedParse(Receiver(s.View(), log), before + pieces[i][..used], pieces[i][used..] + Concat(pieces[i + 1..]));
        StreamIsShown(Concat(pieces), log, true);
        return;
      }
      assert pieces[i][..used] == pieces[i];
      assert pieces[..i + 1][..i] == pieces[..i];
      i := i + 1;
    }
    assert pieces[..i] == pieces;
    ExplainedParse(Receiver(s.View(), log), Concat(pieces));
    OverrunShows(Receiver(s.View(), log), Concat(pieces));
    StreamIsShown(Concat(pieces), log, false);
  }

  /** The packets of a stream and the header the reader stops at, on its bytes. */
  lemma StreamIsShown(stream: seq<byte>, log: seq<Packet>, oversized: bool)
    requires log == Parse(stream).packets
    requires var rest := Parse(stream).rest;
      oversized <==> HEAD_LENGTH <= |rest| && Length(HeaderAt(rest)) > MAX_BODY_LENGTH
    ensures forall ps: seq<Packet> :: (forall p <- ps :: |p.body| <= 1024) && stream == RawStream(ps) ==>
      log == ps && !oversized
    ensures var rest := Parse(stream).rest;
      oversized <==> 4 <= |rest| && rest[0] as nat + 256 * (rest[1] as nat) > 1024
  {
    forall ps: seq<Packet> | (forall p <- ps :: |p.body| <= 1024) && stream == RawStream(ps)
      ensures log == ps && !oversized
    {
      RawStreamParses(ps);
    }
  }

  lemma ConcatSnoc(pieces: seq<seq<byte>>, last: seq<byte>)
    ensures Concat(pieces + [last]) == Concat(pieces) + last
  {
    assert (pieces + [last])[..|pieces|] == pieces;
  }

  lemma {:induction false} StreamAt(before: seq<seq<byte>>, piece: seq<byte>, after: seq<seq<byte>>)
    ensures Concat(before + [piece] + after) == Concat(before) + (piece + Concat(after))
    decreases |after|
  {
    if after == [] {
      AppendNothing(before + [piece]);
      AppendNothing(piece);
      ConcatSnoc(before, piece);
    } else {
      var front, last := after[..|after| - 1], after[|after| - 1];
      assert after == front + [last];
      assert before + [piece] + after == (before + [piece] + front) + [last];
      ConcatSnoc(before + [piece] + front, last);
      ConcatSnoc(front, last);
      StreamAt(before, piece, front);
      Regroup(Concat(before), piece + Concat(front), last);
      Regroup(piece, Concat(front), last);
    }
  }

  lemma RestOfStream(pieces: seq<seq<byte>>, i: nat, used: nat)
    requires i < |pieces| && used <= |pieces[i]|
    ensures (Concat(pieces[..i]) + pieces[i][..used]) + (pieces[i][used..] + Concat(pieces[i + 1..])) == Concat(pieces)
  {
    var before, front, left, after := Concat(pieces[..i]), pieces[i][..used], pieces[i][used..], Concat(pieces[i + 1..]);
    assert pieces == pieces[..i] + [pieces[i]] + pieces[i + 1..];
    StreamAt(pieces[..i], pieces[i], pieces[i + 1..]);
    SplitAt(pieces[i], used);
    Regroup(before, front, left + after);
    Regroup(front, left, after);
  }
}
