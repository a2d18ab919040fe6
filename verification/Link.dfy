/** One direction of a connection: calls of `doWrite` at one end, the byte channel, and the reader
    at the other end.  Steps of the two ends interleave freely, so a "write" may fall anywhere, also
    inside a callback of the receiving session. */
module Link {
  import opened Basics
  import opened Wire
  import opened Reader

  /** `sent` and `taken` are history: the accepted calls, and the bytes the reader has taken. */
  datatype LinkState = LinkState(sent: seq<Sent>, channel: seq<byte>, taken: seq<byte>, receiver: Receiver)

  datatype LinkAction =
    | DoWrite(args: Packet, unassigned: byte)
    | Read(a: Action)

  predicate LinkEnabled(l: LinkState, la: LinkAction) {
    match la
    case DoWrite(p, _) => !Check(p).AssertionFailed?
    case Read(a) => Enabled(l.receiver, a) && BytesOf(a) <= l.channel
  }

  /** `doWrite` puts its whole frame on the channel, or throws and puts nothing; the channel hands
      over any non-empty beginning of what it holds, as far as the outstanding read has room. */
  function LinkStep(l: LinkState, la: LinkAction): (l': LinkState)
    requires Valid(l.receiver.session) && LinkEnabled(l, la)
    ensures Valid(l'.receiver.session)
    ensures l.sent <= l'.sent && l.taken <= l'.taken && l.receiver.log <= l'.receiver.log
  {
    match la
    case DoWrite(p, u) =>
      if Check(p).Encoded? then
        l.(sent := l.sent + [Sent(p, u)], channel := l.channel + PacketBytes(OnWire(p, u)))
      else l
    case Read(a) =>
      l.(channel := l.channel[|BytesOf(a)|..], taken := l.taken + BytesOf(a), receiver := Step(l.receiver, a))
  }

  ghost predicate ValidLinkRun(l: LinkState, acts: seq<LinkAction>)
    requires Valid(l.receiver.session)
    decreases |acts|
  {
    acts == [] || (LinkEnabled(l, acts[0]) && ValidLinkRun(LinkStep(l, acts[0]), acts[1..]))
  }

  ghost function LinkRun(l: LinkState, acts: seq<LinkAction>): (l': LinkState)
    requires Valid(l.receiver.session) && ValidLinkRun(l, acts)
    ensures Valid(l'.receiver.session)
    ensures l.sent <= l'.sent && l.taken <= l'.taken && l.receiver.log <= l'.receiver.log
    decreases |acts|
  {
    if acts == [] then l else LinkRun(LinkStep(l, acts[0]), acts[1..])
  }

  function InitialLink(garbage: seq<byte>): LinkState {
    LinkState([], [], [], Initial(garbage))
  }

  // ----- the invariant -----

  ghost predicate LinkInv(l: LinkState) {
    && Explains(l.receiver, l.taken)
    && AllEncoded(l.sent)
    && l.taken + l.channel == Unparse(WirePackets(l.sent))
  }

  lemma SentSnoc(xs: seq<Sent>, x: Sent)
    ensures WirePackets(xs + [x]) == WirePackets(xs) + [OnWire(x.args, x.unassigned)]
    ensures Unparse(WirePackets(xs + [x])) == Unparse(WirePackets(xs)) + PacketBytes(OnWire(x.args, x.unassigned))
  {
    UnparseSnoc(WirePackets(xs), OnWire(x.args, x.unassigned));
    assert WirePackets(xs + [x]) == WirePackets(xs) + [OnWire(x.args, x.unassigned)];
  }

  lemma LinkStepKeepsInv(l: LinkState, la: LinkAction)
    requires LinkInv(l) && LinkEnabled(l, la)
    ensures LinkInv(LinkStep(l, la))
  {
    match la
    case DoWrite(p, u) =>
      if Check(p).Encoded? {
        SentSnoc(l.sent, Sent(p, u));
        Regroup(l.taken, l.channel, PacketBytes(OnWire(p, u)));
      }
    case Read(a) =>
      StepExplains(l.receiver, a, l.taken);
      var n := |BytesOf(a)|;
      SplitAt(l.channel, n);
      Regroup(l.taken, BytesOf(a), l.channel[n..]);
  }

  lemma {:induction false} LinkRunKeepsInv(l: LinkState, acts: seq<LinkAction>)
    requires LinkInv(l) && ValidLinkRun(l, acts)
    ensures LinkInv(LinkRun(l, acts))
    decreases |acts|
  {
    if acts != [] {
      LinkStepKeepsInv(l, acts[0]);
      LinkRunKeepsInv(LinkStep(l, acts[0]), acts[1..]);
    }
  }

  /** The calls of `doWrite` in a run that `encode` accepts, with the unassigned byte of each. */
  function AcceptedBy(la: LinkAction): seq<Sent> {
    if la.DoWrite? && Check(la.args).Encoded? then [Sent(la.args, la.unassigned)] else []
  }

  function AcceptedCalls(acts: seq<LinkAction>): seq<Sent> {
    if acts == [] then [] else AcceptedBy(acts[0]) + AcceptedCalls(acts[1..])
  }

  lemma OneWriteIsSent(l: LinkState, la: LinkAction)
    requires Valid(l.receiver.session) && LinkEnabled(l, la)
    ensures LinkStep(l, la).sent == l.sent + AcceptedBy(la)
  {
  }

  lemma {:induction false} SentIsAccepted(l: LinkState, acts: seq<LinkAction>)
    requires Valid(l.receiver.session) && ValidLinkRun(l, acts)
    ensures LinkRun(l, acts).sent == l.sent + AcceptedCalls(acts)
    decreases |acts|
  {
    if acts != [] {
      OneWriteIsSent(l, acts[0]);
      SentIsAccepted(LinkStep(l, acts[0]), acts[1..]);
      Regroup(l.sent, AcceptedBy(acts[0]), AcceptedCalls(acts[1..]));
    }
  }

  lemma FromTheStart(garbage: seq<byte>, acts: seq<LinkAction>)
    requires |garbage| == BUFFER_LENGTH && ValidLinkRun(InitialLink(garbage), acts)
    ensures LinkInv(LinkRun(InitialLink(garbage), acts))
    ensures LinkRun(InitialLink(garbage), acts).sent == AcceptedCalls(acts)
  {
    LinkRunKeepsInv(InitialLink(garbage), acts);
    SentIsAccepted(InitialLink(garbage), acts);
    assert [] + AcceptedCalls(acts) == AcceptedCalls(acts);
  }

  // ----- delivery -----

  lemma MeaningsPrefix(ps: seq<Packet>, qs: seq<Packet>)
    requires ps <= qs
    ensures Meanings(ps) <= Meanings(qs)
  {
  }

  /** What the invariant means for the two ends. */
  lemma InvDelivers(l: LinkState)
    requires LinkInv(l)
    ensures Meanings(l.receiver.log) <= Meanings(Arguments(l.sent))
    ensures l.channel == [] && !HandlerReady(l.receiver) && !l.receiver.session.status.Stopped? ==>
      Meanings(l.receiver.log) == Meanings(Arguments(l.sent)) && Partial(l.receiver.session) == []
  {
    var r := l.receiver;
    var stream := Unparse(WirePackets(l.sent));
    StreamDecodes(l.sent);
    assert Unparse(r.log) <= l.taken <= stream;
    SplitAt(stream, |Unparse(r.log)|);
    LeadingFramesAreParsed(r.log, stream, stream[|Unparse(r.log)|..]);
    MeaningsPrefix(r.log, Parse(stream).packets);
    if l.channel == [] && !HandlerReady(r) && !r.session.status.Stopped? {
      AppendNothing(l.taken);
      ExplainedParse(r, l.taken);
    }
  }

  /** A callback is shown the body and the type of a call, and the proto type if the type is 2. */
  predicate Shows(p: Packet, x: Sent) {
    p.body == x.args.body && p.mt == x.args.mt && (x.args.mt == 2 ==> p.pmt == x.args.pmt)
  }

  /** The messages of `log` are the first ones of `sent`, in order. */
  ghost predicate ShowsFirst(log: seq<Packet>, sent: seq<Sent>) {
    |log| <= |sent| && forall i :: 0 <= i < |log| ==> Shows(log[i], sent[i])
  }

  lemma MeaningsAreShown(log: seq<Packet>, sent: seq<Sent>)
    ensures Meanings(log) <= Meanings(Arguments(sent)) <==> ShowsFirst(log, sent)
    ensures Meanings(log) == Meanings(Arguments(sent)) <==> ShowsFirst(log, sent) && |log| == |sent|
  {
    SameMeaningsIff(log, Arguments(sent));
  }

  /** End-to-end delivery, safety: in every run - any calls of `doWrite`, any splitting, any
      interleaving, with or without read errors - the messages shown by "read" callbacks are the
      first messages sent, in order and unchanged, for every value of the unassigned byte. */
  lemma DeliveryIsPrefix(garbage: seq<byte>, acts: seq<LinkAction>)
    requires |garbage| == BUFFER_LENGTH && ValidLinkRun(InitialLink(garbage), acts)
    ensures ShowsFirst(LinkRun(InitialLink(garbage), acts).receiver.log, AcceptedCalls(acts))
  {
    FromTheStart(garbage, acts);
    var l := LinkRun(InitialLink(garbage), acts);
    InvDelivers(l);
    MeaningsAreShown(l.receiver.log, l.sent);
  }

  /** End-to-end delivery, completeness: when nothing is in flight, no handler is ready and no read
      has failed, everything sent has been shown and the reader is between two frames. */
  lemma DeliveryIsComplete(garbage: seq<byte>, acts: seq<LinkAction>)
    requires |garbage| == BUFFER_LENGTH && ValidLinkRun(InitialLink(garbage), acts)
    requires var l := LinkRun(InitialLink(garbage), acts);
      l.channel == [] && !HandlerReady(l.receiver) && !l.receiver.session.status.Stopped?
    ensures var l := LinkRun(InitialLink(garbage), acts);
      && Meanings(l.receiver.log) == Meanings(Arguments(AcceptedCalls(acts)))
      && Partial(l.receiver.session) == []
  {
    FromTheStart(garbage, acts);
    InvDelivers(LinkRun(InitialLink(garbage), acts));
  }

  // ----- the undefined case cannot come from `encode` -----

  /** What follows some leading frames in a stream of whole frames is itself whole frames. */
  lemma TailIsFrames(ps: seq<Packet>, stream: seq<byte>, tail: seq<byte>)
    requires Bounded(ps) && stream == Unparse(ps) + tail && Parse(stream).rest == []
    ensures tail == Unparse(Parse(tail).packets) && Bounded(Parse(tail).packets)
  {
    ParseUnparse(ps, tail);
    UnparseParse(tail);
    AppendNothing(Unparse(Parse(tail).packets));
  }

  lemma InvNeverOverruns(l: LinkState)
    requires LinkInv(l)
    ensures !l.receiver.session.status.Overrun?
  {
    var r := l.receiver;
    if r.session.status.Overrun? {
      var stream := Unparse(WirePackets(l.sent));
      var tail := Partial(r.session) + l.channel;
      Regroup(Unparse(r.log), Partial(r.session), l.channel);
      StreamDecodes(l.sent);
      TailIsFrames(r.log, stream, tail);
    }
  }

  /** Bounds: on a stream written by `encode`, `decode` never meets a length over 1024, so no write
      of any run falls outside `data_`. */
  lemma EncodedStreamsStayInBounds(garbage: seq<byte>, acts: seq<LinkAction>)
    requires |garbage| == BUFFER_LENGTH && ValidLinkRun(InitialLink(garbage), acts)
    ensures !LinkRun(InitialLink(garbage), acts).receiver.session.status.Overrun?
  {
    LinkRunKeepsInv(InitialLink(garbage), acts);
    InvNeverOverruns(LinkRun(InitialLink(garbage), acts));
  }

  // ----- liveness -----

  /** How much the reader can still do without new calls of `doWrite`. */
  ghost function Work(l: LinkState): nat
    requires Valid(l.receiver.session)
  {
    var s := l.receiver.session.status;
    4 * |l.channel| + Rank(l.receiver) + (if s.Fresh? then 2 else if s.Live? || s.InCallback? then 1 else 0)
  }

  lemma ReadStepsUseWork(l: LinkState, a: Action)
    requires Valid(l.receiver.session) && LinkEnabled(l, Read(a))
    ensures Work(LinkStep(l, Read(a))) < Work(l)
  {
  }

  ghost predicate OnlyReads(acts: seq<LinkAction>) {
    forall la <- acts :: la.Read?
  }

  ghost predicate NoReadError(acts: seq<LinkAction>) {
    forall la <- acts :: la != Read(Fail)
  }

  /** The reader cannot run for ever on finitely many bytes. */
  lemma {:induction false} ReadsAreBounded(l: LinkState, acts: seq<LinkAction>)
    requires Valid(l.receiver.session) && ValidLinkRun(l, acts) && OnlyReads(acts)
    ensures |acts| + Work(LinkRun(l, acts)) <= Work(l)
    decreases |acts|
  {
    if acts != [] {
      ReadStepsUseWork(l, acts[0].a);
      ReadsAreBounded(LinkStep(l, acts[0]), acts[1..]);
    }
  }

  /** No deadlock: while bytes are in flight or a handler is ready, and no read has failed, the
      reader has a step other than failing. */
  lemma CanRead(l: LinkState) returns (a: Action)
    requires LinkInv(l) && !l.receiver.session.status.Stopped?
    requires l.channel != [] || HandlerReady(l.receiver)
    ensures !a.Fail? && LinkEnabled(l, Read(a))
  {
    var r := l.receiver;
    InvNeverOverruns(l);
    if r.session.status.Fresh? {
      a := Start;
    } else if HandlerReady(r) {
      a := if r.session.status.InCallback? then Rearm
           else if r.session.ops[0].kind.HeaderRead? then HeaderDone else BodyDone;
    } else {
      a := Arrive(l.channel[..1]);
    }
  }

  ghost predicate Stuck(l: LinkState)
    requires Valid(l.receiver.session)
  {
    forall a: Action :: !a.Fail? ==> !LinkEnabled(l, Read(a))
  }

  lemma StuckMeansDone(l: LinkState)
    requires LinkInv(l) && Stuck(l) && !l.receiver.session.status.Stopped?
    ensures l.channel == [] && !HandlerReady(l.receiver)
    ensures Meanings(l.receiver.log) == Meanings(Arguments(l.sent))
  {
    if l.channel != [] || HandlerReady(l.receiver) {
      var a := CanRead(l);
    }
    InvDelivers(l);
  }

  /** Every run without an error that the reader cannot continue has delivered everything.  With
      ReadsAreBounded: once the calls of `doWrite` stop, all messages are shown within `Work` steps. */
  lemma EveryMaximalRunDelivers(garbage: seq<byte>, acts: seq<LinkAction>)
    requires |garbage| == BUFFER_LENGTH && ValidLinkRun(InitialLink(garbage), acts)
    requires var l := LinkRun(InitialLink(garbage), acts); Stuck(l) && !l.receiver.session.status.Stopped?
    ensures Meanings(LinkRun(InitialLink(garbage), acts).receiver.log) == Meanings(Arguments(AcceptedCalls(acts)))
  {
    FromTheStart(garbage, acts);
    StuckMeansDone(LinkRun(InitialLink(garbage), acts));
  }

  lemma LinkRunCons(l: LinkState, la: LinkAction, rest: seq<LinkAction>)
    requires Valid(l.receiver.session) && LinkEnabled(l, la) && ValidLinkRun(LinkStep(l, la), rest)
    ensures ValidLinkRun(l, [la] + rest) && LinkRun(l, [la] + rest) == LinkRun(LinkStep(l, la), rest)
  {
    assert ([la] + rest)[1..] == rest;
  }

  lemma ReadKeepsSent(l: LinkState, a: Action)
    requires LinkInv(l) && LinkEnabled(l, Read(a)) && !a.Fail? && !l.receiver.session.status.Stopped?
    ensures var l' := LinkStep(l, Read(a));
      LinkInv(l') && l'.sent == l.sent && !l'.receiver.session.status.Stopped? && Work(l') < Work(l)
  {
    LinkStepKeepsInv(l, Read(a));
    ReadStepsUseWork(l, a);
  }

  /** From every reachable state without a read error the reader can get everything sent so far
      delivered, in at most `Work` steps and without another call of `doWrite`. */
  lemma {:induction false} CanFlush(l: LinkState) returns (acts: seq<LinkAction>)
    requires LinkInv(l) && !l.receiver.session.status.Stopped?
    ensures OnlyReads(acts) && NoReadError(acts) && |acts| <= Work(l)
    ensures ValidLinkRun(l, acts)
    ensures LinkRun(l, acts).sent == l.sent
    ensures Meanings(LinkRun(l, acts).receiver.log) == Meanings(Arguments(l.sent))
    decreases Work(l)
  {
    if l.channel == [] && !HandlerReady(l.receiver) {
      acts := [];
      InvDelivers(l);
    } else {
      var a := CanRead(l);
      ReadKeepsSent(l, a);
      var more := CanFlush(LinkStep(l, Read(a)));
      LinkRunCons(l, Read(a), more);
      acts := [Read(a)] + more;
    }
  }

  // ----- delivery can happen -----

  /** What a call of `doWrite` does, in every state: it aborts for a PROTO message without a proto
      type, it throws and changes nothing for a long body, and otherwise it puts one frame on the
      channel - whatever is in flight and whatever the reader is doing. */
  lemma WriteEffect(l: LinkState, p: Packet, u: byte)
    requires Valid(l.receiver.session)
    ensures LinkEnabled(l, DoWrite(p, u)) <==> |p.body| > 1024 || p.mt != 2 || p.pmt != 255
    ensures |p.body| > 1024 ==> LinkStep(l, DoWrite(p, u)) == l
    ensures |p.body| <= 1024 && (p.mt == 2 ==> p.pmt != 255) ==>
      LinkStep(l, DoWrite(p, u)) ==
        l.(sent := l.sent + [Sent(p, u)], channel := l.channel + RawFrame(p.body, p.mt, if p.mt == 2 then p.pmt else u))
  {
    if |p.body| <= 1024 {
      RawFrameParses(p.body, p.mt, if p.mt == 2 then p.pmt else u, []);
    }
  }

  /** What the reader's end may do in every state: take any beginning of what is in flight for which
      the outstanding read has room, and fail. */
  lemma ArrivalEffect(l: LinkState, n: nat)
    requires LinkInv(l) && l.receiver.session.status.Live?
    ensures LinkEnabled(l, Read(Fail))
    ensures 0 < n <= |l.channel| && l.receiver.session.ops[0].filled + n <= l.receiver.session.ops[0].need ==>
      var la := Read(Arrive(l.channel[..n]));
      && LinkEnabled(l, la)
      && LinkStep(l, la).channel == l.channel[n..] && LinkStep(l, la).taken == l.taken + l.channel[..n]
      && LinkStep(l, la).sent == l.sent && LinkStep(l, la).receiver.log == l.receiver.log
  {
  }

  /** The calls of `doWrite` with these arguments, one after the other. */
  function Writes(xs: seq<Sent>): (acts: seq<LinkAction>)
    ensures |acts| == |xs|
    ensures forall i :: 0 <= i < |xs| ==> acts[i] == DoWrite(xs[i].args, xs[i].unassigned)
  {
    seq(|xs|, i requires 0 <= i < |xs| => DoWrite(xs[i].args, xs[i].unassigned))
  }

  lemma WritesCons(x: Sent, xs: seq<Sent>)
    ensures Writes([x] + xs) == [DoWrite(x.args, x.unassigned)] + Writes(xs)
  {
  }

  lemma SentCancels(before: seq<Sent>, xs: seq<Sent>, ys: seq<Sent>)
    requires before + xs == before + ys
    ensures xs == ys
  {
    assert xs == (before + xs)[|before|..];
    assert ys == (before + ys)[|before|..];
  }

  /** An accepted call in any state, also in the middle of a frame or of a callback. */
  lemma WriteFirst(l: LinkState, x: Sent) returns (l1: LinkState)
    requires LinkInv(l) && |x.args.body| <= 1024 && (x.args.mt == 2 ==> x.args.pmt != 255)
    ensures LinkEnabled(l, DoWrite(x.args, x.unassigned)) && l1 == LinkStep(l, DoWrite(x.args, x.unassigned))
    ensures LinkInv(l1) && l1.sent == l.sent + [x] && l1.receiver == l.receiver
  {
    var la := DoWrite(x.args, x.unassigned);
    WriteEffect(l, x.args, x.unassigned);
    l1 := LinkStep(l, la);
    LinkStepKeepsInv(l, la);
  }

  /** Any calls can follow, and all of them can be delivered. */
  lemma {:induction false} CanDeliver(l: LinkState, xs: seq<Sent>) returns (flush: seq<LinkAction>)
    requires LinkInv(l) && !l.receiver.session.status.Stopped?
    requires forall x <- xs :: |x.args.body| <= 1024 && (x.args.mt == 2 ==> x.args.pmt != 255)
    ensures OnlyReads(flush) && NoReadError(flush)
    ensures ValidLinkRun(l, Writes(xs) + flush)
    ensures LinkRun(l, Writes(xs) + flush).sent == l.sent + xs
    ensures Meanings(LinkRun(l, Writes(xs) + flush).receiver.log) == Meanings(Arguments(l.sent + xs))
    decreases |xs|
  {
    if xs == [] {
      flush := CanFlush(l);
      assert Writes(xs) + flush == flush;
      AppendNothing(l.sent);
    } else {
      var x, rest := xs[0], xs[1..];
      assert x in xs;
      var l1 := WriteFirst(l, x);
      flush := CanDeliver(l1, rest);
      var la := DoWrite(x.args, x.unassigned);
      LinkRunCons(l, la, Writes(rest) + flush);
      assert xs == [x] + rest;
      WritesCons(x, rest);
      Regroup([la], Writes(rest), flush);
      Regroup(l.sent, [x], rest);
    }
  }

  /** Delivery of any list can happen: after every run without a read error, whatever is in flight and
      wherever the reader stands, any list of calls that `encode` accepts can be made at once, and the
      reader can then show every message sent before and all of these, and nothing else. */
  lemma AnyListCanBeDelivered(garbage: seq<byte>, acts: seq<LinkAction>, l: LinkState, xs: seq<Sent>)
      returns (flush: seq<LinkAction>)
    requires |garbage| == 1029 && ValidLinkRun(InitialLink(garbage), acts)
    requires l == LinkRun(InitialLink(garbage), acts) && !l.receiver.session.status.Stopped?
    requires forall x <- xs :: |x.args.body| <= 1024 && (x.args.mt == 2 ==> x.args.pmt != 255)
    ensures OnlyReads(flush) && NoReadError(flush)
    ensures ValidLinkRun(l, Writes(xs) + flush) && AcceptedCalls(Writes(xs) + flush) == xs
    ensures var log := LinkRun(l, Writes(xs) + flush).receiver.log;
      ShowsFirst(log, AcceptedCalls(acts) + xs) && |log| == |AcceptedCalls(acts) + xs|
  {
    FromTheStart(garbage, acts);
    flush := CanDeliver(l, xs);
    SentIsAccepted(l, Writes(xs) + flush);
    SentCancels(l.sent, AcceptedCalls(Writes(xs) + flush), xs);
    MeaningsAreShown(LinkRun(l, Writes(xs) + flush).receiver.log, l.sent + xs);
  }
}
