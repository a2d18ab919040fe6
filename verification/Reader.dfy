/** The receive side of `Session` on values: the whole mutable state of `read_msg_` and the
    asynchronous reads that are outstanding, with one function for each thing that can happen.
    The class in SessionObjects.dfy is proved to move exactly as these functions say. */
module Reader {
  import opened Basics
  import opened Wire

  datatype OpKind = HeaderRead | BodyRead

  /** An outstanding `async_read` into `data_[off..off + need]`, of which `filled` bytes are there. */
  datatype ReadOp = ReadOp(kind: OpKind, off: nat, need: nat, filled: nat)

  /** `Overrun` is the state after a header whose length is over 1024: `decode` then writes
      outside `data_`, which C++ leaves undefined, so the model stops there. */
  datatype Status = Fresh | Live | InCallback | Stopped | Overrun

  datatype SessionState = SessionState(
    data: seq<byte>, header: Header, bodyLength: nat, ops: seq<ReadOp>, status: Status)

  /** A session and what its "read" callbacks have observed so far. */
  datatype Receiver = Receiver(session: SessionState, log: seq<Packet>)

  /** `memcpy` of `src` into `dst` at `at`. */
  function Overwrite(dst: seq<byte>, at: nat, src: seq<byte>): (r: seq<byte>)
    requires at + |src| <= |dst|
    ensures |r| == |dst|
    ensures r[..at] == dst[..at]
    ensures r[at..at + |src|] == src
    ensures r[at + |src|..] == dst[at + |src|..]
  {
    dst[..at] + src + dst[at + |src|..]
  }

  /** `memcpy` of two bytes over the low end of a `size_t`. */
  function OverwriteLow(current: nat, low: nat): nat {
    current / 65536 * 65536 + low
  }

  // ----- the invariant of a session -----

  ghost predicate Decoded(s: SessionState) {
    && |s.data| == BUFFER_LENGTH
    && s.header == HeaderAt(s.data)
    && s.bodyLength == Length(s.header) <= MAX_BODY_LENGTH
    && s.data[HEAD_LENGTH + s.bodyLength] == 0
  }

  ghost predicate OpOk(s: SessionState, op: ReadOp) {
    && op.filled <= op.need
    && match op.kind
       case HeaderRead => op.off == 0 && op.need == HEAD_LENGTH
       case BodyRead => op.off == HEAD_LENGTH && op.need == s.bodyLength && Decoded(s)
  }

  /** At most one read is outstanding, exactly one while the session is live and not in a handler;
      the upper bytes of `body_lenght_` are zero; and whenever a body is being read or shown, the
      decoded length fits and the terminator is in its place. */
  ghost predicate Valid(s: SessionState) {
    && |s.data| == BUFFER_LENGTH
    && s.bodyLength < 65536
    && match s.status
       case Live => |s.ops| == 1 && OpOk(s, s.ops[0])
       case InCallback => s.ops == [] && Decoded(s)
       case _ => s.ops == []
  }

  // ----- what the source's functions do to the state -----

  function ReadHeader(s: SessionState): SessionState {
    s.(ops := s.ops + [ReadOp(HeaderRead, 0, HEAD_LENGTH, 0)], status := Live)
  }

  function ReadBody(s: SessionState): SessionState {
    s.(ops := s.ops + [ReadOp(BodyRead, HEAD_LENGTH, s.bodyLength, 0)])
  }

  predicate DecodeInBounds(s: SessionState) {
    && HEAD_LENGTH <= |s.data|
    && HEAD_LENGTH + OverwriteLow(s.bodyLength, Length(HeaderAt(s.data))) < |s.data|
  }

  function Decode(s: SessionState): SessionState
    requires DecodeInBounds(s)
  {
    var h := HeaderAt(s.data);
    var n := OverwriteLow(s.bodyLength, Length(h));
    s.(header := h, bodyLength := n, data := s.data[HEAD_LENGTH + n := 0])
  }

  /** What a callback sees: `getReadmsg`, `getMessageType`, `getProtoMessageType`. */
  function Observe(s: SessionState): Packet
    requires HEAD_LENGTH + s.bodyLength <= |s.data|
  {
    Packet(s.data[HEAD_LENGTH..HEAD_LENGTH + s.bodyLength], s.header.mt, s.header.pmt)
  }

  // ----- steps -----

  datatype Action =
    | Start                        // accept or connect has succeeded
    | Arrive(chunk: seq<byte>)     // the kernel hands over some bytes, anywhere in the frame
    | HeaderDone                   // the handler of readHeader runs
    | BodyDone                     // the handler of readBody runs, up to and including the callback
    | Rearm                        // the callback has returned; the handler calls readHeader
    | Fail                         // the outstanding read ends with an error; its handler runs

  predicate Enabled(r: Receiver, a: Action) {
    var s := r.session;
    match a
    case Start => s.status.Fresh?
    case Arrive(c) => s.status.Live? && s.ops != [] && 0 < |c| <= s.ops[0].need - s.ops[0].filled
    case HeaderDone => s.status.Live? && s.ops != [] && s.ops[0].kind.HeaderRead? && s.ops[0].filled == s.ops[0].need
    case BodyDone => s.status.Live? && s.ops != [] && s.ops[0].kind.BodyRead? && s.ops[0].filled == s.ops[0].need
    case Rearm => s.status.InCallback?
    case Fail => s.status.Live? && s.ops != []
  }

  function Fill(s: SessionState, c: seq<byte>): SessionState
    requires s.ops != [] && s.ops[0].off + s.ops[0].filled + |c| <= |s.data|
  {
    var op := s.ops[0];
    s.(data := Overwrite(s.data, op.off + op.filled, c),
       ops := [op.(filled := op.filled + |c|)] + s.ops[1..])
  }

  /** The bytes of a chunk stay inside the region of their read, so they leave the header alone while
      a body arrives, and the terminator alone in any case. */
  lemma FillKeepsValid(s: SessionState, c: seq<byte>)
    requires Valid(s) && s.status.Live? && |c| <= s.ops[0].need - s.ops[0].filled
    ensures Valid(Fill(s, c))
  {
  }

  /** The handler of `readHeader`: decode, then start to read the body. */
  function AfterHeader(s: SessionState): (s': SessionState)
    requires Valid(s) && s.status.Live? && s.ops[0].kind.HeaderRead?
    ensures Valid(s')
  {
    var s1 := s.(ops := s.ops[1..]);
    if Length(HeaderAt(s.data)) <= MAX_BODY_LENGTH then
      assert OverwriteLow(s.bodyLength, Length(HeaderAt(s.data))) == Length(HeaderAt(s.data));
      ReadBody(Decode(s1))
    else
      s1.(status := Overrun)
  }

  /** One step.  That the result is valid again is the per-session invariant of the protocol: no
      write falls outside `data_`, there is never a second outstanding read, `body_lenght_` never
      keeps a byte of an older length, and the terminator survives the arrival of the body. */
  function Step(r: Receiver, a: Action): (r': Receiver)
    requires Valid(r.session) && Enabled(r, a)
    ensures Valid(r'.session)
    ensures r.log <= r'.log
    ensures |r'.log| == |r.log| + (if a.BodyDone? then 1 else 0)
  {
    var s := r.session;
    match a
    case Start => r.(session := ReadHeader(s))
    case Arrive(c) => FillKeepsValid(s, c); r.(session := Fill(s, c))
    case HeaderDone => r.(session := AfterHeader(s))
    case BodyDone =>
      Receiver(s.(ops := s.ops[1..], status := InCallback), r.log + [Observe(s)])
    case Rearm => r.(session := ReadHeader(s))
    case Fail => r.(session := s.(ops := s.ops[1..], status := Stopped))
  }

  /** A session is in its callback just between these two steps, and only the first one logs. */
  lemma CallbackBrackets(r: Receiver, a: Action)
    requires Valid(r.session) && Enabled(r, a)
    ensures Step(r, a).session.status.InCallback? <==> a.BodyDone?
    ensures r.session.status.InCallback? <==> a.Rearm?
    ensures !Step(r, a).session.status.Fresh?
    ensures !a.BodyDone? ==> Step(r, a).log == r.log
  {
  }

  /** `decode` stays inside `data_` exactly when the length field is at most 1024. */
  lemma DecodeInBoundsIff(s: SessionState)
    requires Valid(s)
    ensures DecodeInBounds(s) <==> Length(HeaderAt(s.data)) <= MAX_BODY_LENGTH
  {
  }

  // ----- runs -----

  ghost predicate ValidRun(r: Receiver, acts: seq<Action>)
    requires Valid(r.session)
    decreases |acts|
  {
    acts == [] || (Enabled(r, acts[0]) && ValidRun(Step(r, acts[0]), acts[1..]))
  }

  ghost function Run(r: Receiver, acts: seq<Action>): (r': Receiver)
    requires Valid(r.session) && ValidRun(r, acts)
    ensures Valid(r'.session)
    decreases |acts|
  {
    if acts == [] then r else Run(Step(r, acts[0]), acts[1..])
  }

  function BytesOf(a: Action): seq<byte> {
    if a.Arrive? then a.chunk else []
  }

  /** All bytes the session takes from the socket during a run. */
  function Taken(acts: seq<Action>): seq<byte> {
    if acts == [] then [] else BytesOf(acts[0]) + Taken(acts[1..])
  }

  function Initial(garbage: seq<byte>): Receiver {
    Receiver(SessionState(garbage, Header(0, 0, 0, 0), 0, [], Fresh), [])
  }

  // ----- refinement of the one-shot parser -----

  /** The bytes of the current, unfinished frame: they all sit in `data_`. */
  ghost function Partial(s: SessionState): seq<byte>
    requires Valid(s)
  {
    match s.status
    case Live => s.data[..s.ops[0].off + s.ops[0].filled]
    case Overrun => s.data[..HEAD_LENGTH]
    case _ => []
  }

  /** How the bytes taken so far relate to the state and the log. */
  ghost predicate Explains(r: Receiver, taken: seq<byte>) {
    && Valid(r.session)
    && Bounded(r.log)
    && match r.session.status
       case Fresh => r.log == [] && taken == []
       case Stopped => Unparse(r.log) <= taken
       case InCallback => taken == Unparse(r.log) && r.log != [] && r.log[|r.log| - 1] == Observe(r.session)
       case Live => taken == Unparse(r.log) + Partial(r.session)
       case Overrun => taken == Unparse(r.log) + Partial(r.session) && Length(HeaderAt(r.session.data)) > MAX_BODY_LENGTH
  }

  /** A complete body is shown as exactly the packet whose bytes are in the buffer, stale bytes of
      longer earlier bodies notwithstanding. */
  lemma ObservedIsFrame(s: SessionState)
    requires Decoded(s)
    ensures PacketBytes(Observe(s)) == s.data[..HEAD_LENGTH + s.bodyLength]
    ensures |Observe(s).body| <= MAX_BODY_LENGTH
  {
  }

  lemma FillExtendsPartial(s: SessionState, c: seq<byte>)
    requires Valid(s) && s.status.Live? && |c| <= s.ops[0].need - s.ops[0].filled
    requires Valid(Fill(s, c))
    ensures Partial(Fill(s, c)) == Partial(s) + c
  {
  }

  lemma ArriveExplains(r: Receiver, c: seq<byte>, taken: seq<byte>)
    requires Explains(r, taken) && Enabled(r, Arrive(c))
    ensures Explains(Step(r, Arrive(c)), taken + c)
  {
    FillExtendsPartial(r.session, c);
    Regroup(Unparse(r.log), Partial(r.session), c);
  }

  lemma HeaderExplains(r: Receiver, taken: seq<byte>)
    requires Explains(r, taken) && Enabled(r, HeaderDone)
    ensures Explains(Step(r, HeaderDone), taken)
  {
  }

  lemma BodyExplains(r: Receiver, taken: seq<byte>)
    requires Explains(r, taken) && Enabled(r, BodyDone)
    ensures Explains(Step(r, BodyDone), taken)
  {
    ObservedIsFrame(r.session);
    UnparseSnoc(r.log, Observe(r.session));
  }

  lemma StepExplains(r: Receiver, a: Action, taken: seq<byte>)
    requires Explains(r, taken) && Enabled(r, a)
    ensures Explains(Step(r, a), taken + BytesOf(a))
  {
    assert !a.Arrive? ==> taken + BytesOf(a) == taken;
    match a
    case Start => assert Unparse([]) + Partial(Step(r, a).session) == [];
    case Arrive(c) => ArriveExplains(r, c, taken);
    case HeaderDone => HeaderExplains(r, taken);
    case BodyDone => BodyExplains(r, taken);
    case Rearm => assert Unparse(r.log) + Partial(Step(r, a).session) == Unparse(r.log);
    case Fail =>
  }

  lemma {:induction false} RunExplains(r: Receiver, acts: seq<Action>, taken: seq<byte>)
    requires Explains(r, taken) && ValidRun(r, acts)
    ensures Explains(Run(r, acts), taken + Taken(acts))
    decreases |acts|
  {
    if acts == [] {
      assert taken + Taken(acts) == taken;
    } else {
      StepExplains(r, acts[0], taken);
      RunExplains(Step(r, acts[0]), acts[1..], taken + BytesOf(acts[0]));
      Regroup(taken, BytesOf(acts[0]), Taken(acts[1..]));
    }
  }

  lemma InitialRunExplains(garbage: seq<byte>, acts: seq<Action>)
    requires |garbage| == BUFFER_LENGTH && ValidRun(Initial(garbage), acts)
    ensures Explains(Run(Initial(garbage), acts), Taken(acts))
  {
    RunExplains(Initial(garbage), acts, []);
    assert [] + Taken(acts) == Taken(acts);
  }

  /** A handler of this session is ready to run. */
  ghost predicate HandlerReady(r: Receiver)
    requires Valid(r.session)
  {
    Enabled(r, HeaderDone) || Enabled(r, BodyDone) || Enabled(r, Rearm)
  }

  /** With no handler ready, the unfinished frame in the buffer is indeed unfinished. */
  lemma PartialIsUnfinished(r: Receiver, taken: seq<byte>)
    requires Explains(r, taken) && !HandlerReady(r)
    ensures !StartsWithFrame(Partial(r.session))
  {
  }

  /** Frames at the beginning of a stream are the first packets of its parse. */
  lemma LeadingFramesAreParsed(ps: seq<Packet>, taken: seq<byte>, tail: seq<byte>)
    requires Bounded(ps) && taken == Unparse(ps) + tail
    ensures ps <= Parse(taken).packets
    ensures !StartsWithFrame(tail) ==> Parse(taken) == Parsed(ps, tail)
  {
    ParseUnparse(ps, tail);
    assert ps + [] == ps;
  }

  lemma ExplainedParse(r: Receiver, taken: seq<byte>)
    requires Explains(r, taken)
    ensures r.log <= Parse(taken).packets
    ensures !HandlerReady(r) && !r.session.status.Stopped? ==>
      Parse(taken) == Parsed(r.log, Partial(r.session))
  {
    if r.session.status.Stopped? {
      LeadingFramesAreParsed(r.log, taken, taken[|Unparse(r.log)|..]);
    } else {
      assert taken == Unparse(r.log) + Partial(r.session);
      LeadingFramesAreParsed(r.log, taken, Partial(r.session));
      if !HandlerReady(r) {
        PartialIsUnfinished(r, taken);
      }
    }
  }

  /** Refinement: whatever stream arrives, however it is cut up, and whatever steps are taken, the
      packets shown so far begin the packets a one-shot parse of the stream finds.  Once no handler
      of the session is ready they are all of them, and what is left in the buffer is exactly what
      the parser leaves over. */
  lemma ReaderRefinesParser(garbage: seq<byte>, acts: seq<Action>)
    requires |garbage| == BUFFER_LENGTH && ValidRun(Initial(garbage), acts)
    ensures var r := Run(Initial(garbage), acts);
      && r.log <= Parse(Taken(acts)).packets
      && (!HandlerReady(r) && !r.session.status.Stopped? ==>
            Parse(Taken(acts)) == Parsed(r.log, Partial(r.session)))
  {
    InitialRunExplains(garbage, acts);
    ExplainedParse(Run(Initial(garbage), acts), Taken(acts));
  }

  /** Frames of up to 1024 bytes, written out byte by byte, are all shown, one packet each: a run that
      has taken them and has no handler ready and no error shows exactly these packets. */
  lemma RawFramesAreShown(garbage: seq<byte>, acts: seq<Action>, ps: seq<Packet>)
    requires |garbage| == 1029 && ValidRun(Initial(garbage), acts)
    requires (forall p <- ps :: |p.body| <= 1024) && Taken(acts) == RawStream(ps)
    requires var r := Run(Initial(garbage), acts); !HandlerReady(r) && !r.session.status.Stopped?
    ensures Run(Initial(garbage), acts).log == ps && !Run(Initial(garbage), acts).session.status.Overrun?
  {
    RawStreamParses(ps);
    ReaderRefinesParser(garbage, acts);
    OverrunIff(garbage, acts);
  }

  lemma OverrunShows(r: Receiver, taken: seq<byte>)
    requires Explains(r, taken) && !HandlerReady(r)
    ensures var rest := Partial(r.session);
      r.session.status.Overrun? <==> HEAD_LENGTH <= |rest| && Length(HeaderAt(rest)) > MAX_BODY_LENGTH
  {
  }

  /** The undefined case is reached exactly by a stream in which the parser meets a header with a
      length over 1024, never because of segmentation or of stale bytes. */
  lemma OverrunIff(garbage: seq<byte>, acts: seq<Action>)
    requires |garbage| == BUFFER_LENGTH && ValidRun(Initial(garbage), acts)
    requires var r := Run(Initial(garbage), acts); !HandlerReady(r) && !r.session.status.Stopped?
    ensures var rest := Parse(Taken(acts)).rest;
      Run(Initial(garbage), acts).session.status.Overrun? <==>
        HEAD_LENGTH <= |rest| && Length(HeaderAt(rest)) > MAX_BODY_LENGTH
  {
    InitialRunExplains(garbage, acts);
    OverrunShows(Run(Initial(garbage), acts), Taken(acts));
    ExplainedParse(Run(Initial(garbage), acts), Taken(acts));
  }

  /** Accounting: while there has been no read error, the bytes taken are the frames delivered plus
      the progress in the current one. */
  lemma BytesAccounted(garbage: seq<byte>, acts: seq<Action>)
    requires |garbage| == BUFFER_LENGTH && ValidRun(Initial(garbage), acts)
    ensures var r := Run(Initial(garbage), acts);
      && (!r.session.status.Stopped? ==> |Taken(acts)| == WireSize(r.log) + |Partial(r.session)|)
      && WireSize(r.log) <= |Taken(acts)|
  {
    InitialRunExplains(garbage, acts);
    UnparseSize(Run(Initial(garbage), acts).log);
  }

  lemma CallbackParse(r: Receiver, taken: seq<byte>)
    requires Explains(r, taken) && r.session.status.InCallback?
    ensures Parse(taken) == Parsed(r.log, [])
    ensures r.log != [] && Observe(r.session) == r.log[|r.log| - 1]
    ensures r.session.data[HEAD_LENGTH + r.session.bodyLength] == 0
  {
    AppendNothing(Unparse(r.log));
    LeadingFramesAreParsed(r.log, taken, []);
  }

  /** In a callback `getReadmsg` and the type getters show exactly the last frame of the stream
      taken so far, and a zero byte follows the body. */
  lemma CallbackSeesCurrentFrame(garbage: seq<byte>, acts: seq<Action>)
    requires |garbage| == BUFFER_LENGTH && ValidRun(Initial(garbage), acts)
    requires Run(Initial(garbage), acts).session.status.InCallback?
    ensures var s, ps := Run(Initial(garbage), acts).session, Parse(Taken(acts)).packets;
      && ps != [] && Observe(s) == ps[|ps| - 1]
      && Parse(Taken(acts)).rest == []
      && s.data[HEAD_LENGTH + s.bodyLength] == 0
  {
    InitialRunExplains(garbage, acts);
    CallbackParse(Run(Initial(garbage), acts), Taken(acts));
  }

  /** After a read error nothing more is ever shown: in any run, a failure is the last step. */
  lemma {:induction false} FailureIsLast(r: Receiver, acts: seq<Action>, i: nat)
    requires Valid(r.session) && ValidRun(r, acts)
    requires i < |acts| && acts[i].Fail?
    ensures i == |acts| - 1
    decreases i
  {
    if i == 0 {
      assert Step(r, acts[0]).session.status.Stopped?;
    } else {
      FailureIsLast(Step(r, acts[0]), acts[1..], i - 1);
    }
  }

  // ----- independence of segmentation -----

  /** The body handler from end to end. */
  ghost function Deliver(r: Receiver): (r': Receiver)
    requires Valid(r.session) && Enabled(r, BodyDone)
    ensures Valid(r'.session) && !HandlerReady(r')
  {
    Step(Step(r, BodyDone), Rearm)
  }

  /** After the header handler the body handler is ready or none is: the body may be empty. */
  ghost function SettleHeader(r: Receiver): (r': Receiver)
    requires Valid(r.session) && Enabled(r, HeaderDone)
    ensures Valid(r'.session) && !HandlerReady(r')
  {
    var r1 := Step(r, HeaderDone);
    if Enabled(r1, BodyDone) then Deliver(r1) else r1
  }

  /** Runs the handlers of the session until none is ready. */
  ghost function Settle(r: Receiver): (r': Receiver)
    requires Valid(r.session)
    ensures Valid(r'.session) && !HandlerReady(r')
    ensures !HandlerReady(r) ==> r' == r
  {
    if Enabled(r, HeaderDone) then SettleHeader(r)
    else if Enabled(r, BodyDone) then Deliver(r)
    else if Enabled(r, Rearm) then Step(r, Rearm)
    else r
  }

  ghost function Rank(r: Receiver): nat
    requires Valid(r.session)
  {
    if Enabled(r, HeaderDone) then 3 else if Enabled(r, BodyDone) then 2 else if Enabled(r, Rearm) then 1 else 0
  }

  /** The canonical execution: one byte at a time, running the handlers after each byte. */
  ghost function Absorb(r: Receiver, bytes: seq<byte>): (r': Receiver)
    requires Valid(r.session) && !HandlerReady(r)
    ensures Valid(r'.session) && !HandlerReady(r')
    decreases |bytes|
  {
    if bytes == [] || !r.session.status.Live? then r
    else Absorb(Settle(Step(r, Arrive([bytes[0]]))), bytes[1..])
  }

  /** Feeding `a` and then `b` is feeding `a + b`, for every split point. */
  lemma {:induction false} AbsorbConcat(r: Receiver, a: seq<byte>, b: seq<byte>)
    requires Valid(r.session) && !HandlerReady(r)
    ensures Absorb(Absorb(r, a), b) == Absorb(r, a + b)
    decreases |a|
  {
    if a == [] {
      assert a + b == b;
    } else if r.session.status.Live? {
      assert (a + b)[1..] == a[1..] + b;
      AbsorbConcat(Settle(Step(r, Arrive([a[0]]))), a[1..], b);
    }
  }

  /** Writing a chunk is writing its first byte and then the others. */
  lemma OverwriteOneMore(d: seq<byte>, at: nat, c: seq<byte>)
    requires c != [] && at + |c| <= |d|
    ensures Overwrite(Overwrite(d, at, [c[0]]), at + 1, c[1..]) == Overwrite(d, at, c)
  {
    var d1 := Overwrite(d, at, [c[0]]);
    assert d1[..at + 1] == d[..at] + [c[0]];
    assert d1[at + |c|..] == d[at + |c|..];
    assert c == [c[0]] + c[1..];
  }

  /** A chunk delivered at once leaves the same buffer as its bytes delivered one by one. */
  lemma FillOneMore(s: SessionState, c: seq<byte>)
    requires Valid(s) && s.status.Live? && 1 < |c| <= s.ops[0].need - s.ops[0].filled
    ensures Valid(Fill(s, [c[0]])) && Fill(Fill(s, [c[0]]), c[1..]) == Fill(s, c)
  {
    FillKeepsValid(s, [c[0]]);
    OverwriteOneMore(s.data, s.ops[0].off + s.ops[0].filled, c);
  }

  /** A read that is still short of bytes has no handler ready. */
  lemma ShortReadIsQuiet(r: Receiver)
    requires Valid(r.session) && r.session.status.Live? && r.session.ops[0].filled < r.session.ops[0].need
    ensures !HandlerReady(r) && Settle(r) == r
  {
  }

  lemma AbsorbOne(r: Receiver, b: byte, bytes: seq<byte>)
    requires Valid(r.session) && !HandlerReady(r) && Enabled(r, Arrive([b]))
    ensures Absorb(r, [b] + bytes) == Absorb(Settle(Step(r, Arrive([b]))), bytes)
  {
    assert ([b] + bytes)[1..] == bytes;
  }

  lemma {:induction false} ChunkIsBytes(r: Receiver, c: seq<byte>)
    requires Valid(r.session) && !HandlerReady(r) && Enabled(r, Arrive(c))
    ensures Settle(Step(r, Arrive(c))) == Absorb(r, c)
    decreases |c|
  {
    assert c == [c[0]] + c[1..];
    AbsorbOne(r, c[0], c[1..]);
    if |c| > 1 {
      var r1 := Step(r, Arrive([c[0]]));
      FillOneMore(r.session, c);
      ShortReadIsQuiet(r1);
      ChunkIsBytes(r1, c[1..]);
    } else {
      assert c == [c[0]] && c[1..] == [];
    }
  }

  ghost predicate NoFailure(acts: seq<Action>) {
    forall a <- acts :: !a.Fail?
  }

  lemma ArrivalIsQuiet(r: Receiver, c: seq<byte>)
    requires Valid(r.session) && Enabled(r, Arrive(c))
    ensures !HandlerReady(r) && Settle(r) == r
  {
  }

  /** A handler that runs is one that settling would have run. */
  lemma HandlerSettles(r: Receiver, a: Action)
    requires Valid(r.session) && Enabled(r, a) && (a.HeaderDone? || a.BodyDone? || a.Rearm?)
    ensures Settle(Step(r, a)) == Settle(r)
  {
  }

  lemma StepSettles(r: Receiver, a: Action)
    requires Valid(r.session) && Enabled(r, a) && !a.Fail? && !r.session.status.Fresh?
    ensures Settle(Step(r, a)) == Absorb(Settle(r), BytesOf(a))
  {
    if a.Arrive? {
      ArrivalIsQuiet(r, a.chunk);
      ChunkIsBytes(r, a.chunk);
    } else {
      HandlerSettles(r, a);
    }
  }

  lemma {:induction false} SettledRun(r: Receiver, acts: seq<Action>)
    requires Valid(r.session) && !r.session.status.Fresh?
    requires ValidRun(r, acts) && NoFailure(acts)
    ensures Settle(Run(r, acts)) == Absorb(Settle(r), Taken(acts))
    decreases |acts|
  {
    if acts != [] {
      StepSettles(r, acts[0]);
      SettledRun(Step(r, acts[0]), acts[1..]);
      AbsorbConcat(Settle(r), BytesOf(acts[0]), Taken(acts[1..]));
    }
  }

  lemma {:induction false} RunSnoc(r: Receiver, acts: seq<Action>, a: Action)
    requires Valid(r.session) && ValidRun(r, acts + [a])
    ensures ValidRun(r, acts) && Enabled(Run(r, acts), a)
    ensures Run(r, acts + [a]) == Step(Run(r, acts), a)
    decreases |acts|
  {
    if acts == [] {
      assert acts + [a] == [a] && [a][1..] == [];
    } else {
      assert (acts + [a])[1..] == acts[1..] + [a];
      RunSnoc(Step(r, acts[0]), acts[1..], a);
    }
  }

  lemma {:induction false} TakenSnoc(acts: seq<Action>, a: Action)
    ensures Taken(acts + [a]) == Taken(acts) + BytesOf(a)
  {
    if acts == [] {
      assert acts + [a] == [a] && [a][1..] == [];
      assert BytesOf(a) + [] == BytesOf(a);
    } else {
      assert (acts + [a])[1..] == acts[1..] + [a];
      TakenSnoc(acts[1..], a);
      Regroup(BytesOf(acts[0]), Taken(acts[1..]), BytesOf(a));
    }
  }

  /** A run either has no read error, or has exactly one, at its end. */
  lemma FailureSplits(r: Receiver, acts: seq<Action>) returns (front: seq<Action>)
    requires Valid(r.session) && ValidRun(r, acts)
    ensures ValidRun(r, front) && NoFailure(front) && Taken(front) == Taken(acts)
    ensures NoFailure(acts) ==> front == acts
    ensures !NoFailure(acts) ==> acts == front + [Fail] && Enabled(Run(r, front), Fail)
    ensures !NoFailure(acts) ==> Run(r, acts) == Step(Run(r, front), Fail)
  {
    front := acts;
    if !NoFailure(acts) {
      var i :| 0 <= i < |acts| && acts[i].Fail?;
      FailureIsLast(r, acts, i);
      front := acts[..i];
      assert acts == front + [Fail];
      RunSnoc(r, front, Fail);
      TakenSnoc(front, Fail);
      AppendNothing(Taken(front));
      forall j | 0 <= j < |front|
        ensures !front[j].Fail?
      {
        if acts[j].Fail? {
          FailureIsLast(r, acts, j);
        }
      }
    }
  }

  /** Settling only appends to the log. */
  lemma SettleGrows(r: Receiver)
    requires Valid(r.session)
    ensures r.log <= Settle(r).log
  {
  }

  /** Independence of segmentation, for every run: however the bytes are cut up and whenever the
      handlers run, the settled state - the log, and also every byte of `data_`, the header,
      `body_lenght_` and the outstanding read - is the one of the byte-at-a-time execution of the
      same stream.  A run that ends with a read error has shown a beginning of the same messages, and
      if no handler was ready at that moment its state is that settled state with the read gone. */
  lemma SegmentationIndependence(r: Receiver, acts: seq<Action>)
    requires Valid(r.session) && !r.session.status.Fresh? && ValidRun(r, acts)
    ensures Run(r, acts).log <= Absorb(Settle(r), Taken(acts)).log
    ensures NoFailure(acts) ==> Settle(Run(r, acts)) == Absorb(Settle(r), Taken(acts))
    ensures !NoFailure(acts) ==> var front := acts[..|acts| - 1];
      && ValidRun(r, front) && Taken(front) == Taken(acts)
      && (!HandlerReady(Run(r, front)) ==> var settled := Absorb(Settle(r), Taken(acts));
            Enabled(settled, Fail) && Run(r, acts) == Step(settled, Fail))
  {
    var front := FailureSplits(r, acts);
    SettledRun(r, front);
    SettleGrows(Run(r, front));
    if !NoFailure(acts) {
      assert front == acts[..|acts| - 1];
    }
  }

  /** Two runs that take the same bytes, have both failed or both not failed, and had no handler left
      to run - at the moment of the failure, if there was one - end in the same state. */
  lemma SameBytesSameState(r: Receiver, acts: seq<Action>, acts': seq<Action>)
    requires Valid(r.session) && !r.session.status.Fresh? && Taken(acts) == Taken(acts')
    requires ValidRun(r, acts) && QuietAtTheEnd(r, acts)
    requires ValidRun(r, acts') && QuietAtTheEnd(r, acts')
    requires NoFailure(acts) <==> NoFailure(acts')
    ensures Run(r, acts) == Run(r, acts')
  {
    SegmentationIndependence(r, acts);
    SegmentationIndependence(r, acts');
  }

  ghost predicate QuietAtTheEnd(r: Receiver, acts: seq<Action>)
    requires Valid(r.session) && ValidRun(r, acts)
  {
    if NoFailure(acts) then !HandlerReady(Run(r, acts))
    else acts != [] && ValidRun(r, acts[..|acts| - 1]) && !HandlerReady(Run(r, acts[..|acts| - 1]))
  }

  // ----- the undefined case does happen -----

  lemma RunCons(r: Receiver, a: Action, rest: seq<Action>)
    requires Valid(r.session) && Enabled(r, a) && ValidRun(Step(r, a), rest)
    ensures ValidRun(r, [a] + rest) && Run(r, [a] + rest) == Run(Step(r, a), rest)
  {
    assert ([a] + rest)[1..] == rest;
  }

  /** Four bytes of a peer that does not use `encode`, with the length 1025, reach it. */
  lemma OverrunHappens(garbage: seq<byte>)
    requires |garbage| == BUFFER_LENGTH
    ensures var acts := [Start, Arrive([1, 4, 1, 0]), HeaderDone];
      ValidRun(Initial(garbage), acts) && Run(Initial(garbage), acts).session.status.Overrun?
  {
    var r1 := Step(Initial(garbage), Start);
    var four: seq<byte> := [1, 4, 1, 0];
    FillExtendsPartial(r1.session, four);
    var r2 := Step(r1, Arrive(four));
    assert r2.session.data[..4] == four;
    assert HeaderAt(r2.session.data) == Header(1, 4, 1, 0);
    RunCons(r2, HeaderDone, []);
    RunCons(r1, Arrive(four), [HeaderDone] + []);
    RunCons(Initial(garbage), Start, [Arrive(four)] + ([HeaderDone] + []));
    assert [Start] + ([Arrive(four)] + ([HeaderDone] + [])) == [Start, Arrive(four), HeaderDone];
  }
}
