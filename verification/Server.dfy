/** `Socket::accept` and its sessions on one event loop: accept handlers and read handlers of any
    number of sessions interleave, one handler at a time, while the peers' writes, the arrival of
    bytes, and calls made by Lua callbacks may fall anywhere. */
module Server {
  import opened Basics
  import opened Wire
  import opened Reader
  import opened Link

  /** The handler that is running.  An accept handler has started its session; then it calls back
      (`told`); then it accepts again. */
  datatype Running = Nobody | Accepting(i: nat, told: bool) | Reading(i: nat)

  datatype Event = AcceptCallback(i: nat) | ReadCallback(i: nat, packet: Packet)

  /** `calls` counts the calls of `accept` made by the user, `pending` the outstanding
      `async_accept`s, `failures` the ones that ended with an error. */
  datatype ServerState = ServerState(
    calls: nat, pending: nat, failures: nat, links: seq<LinkState>, running: Running, log: seq<Event>)

  datatype ServerAction =
    | CallAccept
    | AcceptFails
    | AcceptBegins(memory: seq<byte>)   // a connection: a new session, whose `start` is called
    | AcceptTells                       // callBack("accept", new_session)
    | AcceptAgain                       // accept()
    | OnLink(i: nat, la: LinkAction)    // any step of the i-th session or of its peer

  predicate ServerEnabled(s: ServerState, a: ServerAction) {
    match a
    case CallAccept => true
    case AcceptFails => s.running.Nobody? && s.pending > 0
    case AcceptBegins(memory) => s.running.Nobody? && s.pending > 0 && |memory| == BUFFER_LENGTH
    case AcceptTells => s.running.Accepting? && !s.running.told
    case AcceptAgain => s.running.Accepting? && s.running.told
    case OnLink(i, la) =>
      && i < |s.links| && LinkEnabled(s.links[i], la)
      && match la
         case DoWrite(_, _) => true
         case Read(Start) => false            // only accept starts a session
         case Read(Arrive(_)) => true
         case Read(Rearm) => s.running == Reading(i)
         case Read(_) => s.running.Nobody?    // a handler starts only when none is running
  }

  ghost predicate AllValid(s: ServerState) {
    forall l <- s.links :: Valid(l.receiver.session)
  }

  function StartedLink(memory: seq<byte>): (l: LinkState)
    requires |memory| == BUFFER_LENGTH
    ensures LinkInv(l) && l.receiver.session.status.Live? && l.receiver.log == []
  {
    assert Unparse([]) == [];
    LinkStepKeepsInv(InitialLink(memory), Read(Start));
    LinkStep(InitialLink(memory), Read(Start))
  }

  function AfterLink(s: ServerState, i: nat, la: LinkAction, l: LinkState): (Running, seq<Event>)
    requires la == Read(BodyDone) ==> l.receiver.log != []
  {
    if la == Read(BodyDone) then (Reading(i), s.log + [ReadCallback(i, l.receiver.log[|l.receiver.log| - 1])])
    else if la == Read(Rearm) then (Nobody, s.log)
    else (s.running, s.log)
  }

  function ServerStep(s: ServerState, a: ServerAction): (s': ServerState)
    requires AllValid(s) && ServerEnabled(s, a)
    ensures AllValid(s')
  {
    match a
    case CallAccept => s.(calls := s.calls + 1, pending := s.pending + 1)
    case AcceptFails => s.(pending := s.pending - 1, failures := s.failures + 1)
    case AcceptBegins(memory) =>
      s.(pending := s.pending - 1, links := s.links + [StartedLink(memory)], running := Accepting(|s.links|, false))
    case AcceptTells => s.(running := Accepting(s.running.i, true), log := s.log + [AcceptCallback(s.running.i)])
    case AcceptAgain => s.(pending := s.pending + 1, running := Nobody)
    case OnLink(i, la) =>
      assert Valid(s.links[i].receiver.session);
      var l := LinkStep(s.links[i], la);
      var (running, log) := AfterLink(s, i, la, l);
      s.(links := s.links[i := l], running := running, log := log)
  }

  ghost predicate ValidServerRun(s: ServerState, acts: seq<ServerAction>)
    requires AllValid(s)
    decreases |acts|
  {
    acts == [] || (ServerEnabled(s, acts[0]) && ValidServerRun(ServerStep(s, acts[0]), acts[1..]))
  }

  ghost function ServerRun(s: ServerState, acts: seq<ServerAction>): (s': ServerState)
    requires AllValid(s) && ValidServerRun(s, acts)
    ensures AllValid(s')
    decreases |acts|
  {
    if acts == [] then s else ServerRun(ServerStep(s, acts[0]), acts[1..])
  }

  function Idle(): (s: ServerState)
    ensures AllValid(s)
  {
    ServerState(0, 0, 0, [], Nobody, [])
  }

  // ----- what the log says about one session -----

  function ReadsOf(log: seq<Event>, i: nat): seq<Packet> {
    if log == [] then []
    else
      var e := log[|log| - 1];
      ReadsOf(log[..|log| - 1], i) + (if e.ReadCallback? && e.i == i then [e.packet] else [])
  }

  function AcceptsOf(log: seq<Event>, i: nat): nat {
    if log == [] then 0
    else AcceptsOf(log[..|log| - 1], i) + (if log[|log| - 1] == AcceptCallback(i) then 1 else 0)
  }

  /** Every "read" callback comes after the "accept" callback of its session. */
  ghost predicate Ordered(log: seq<Event>) {
    forall j :: 0 <= j < |log| && log[j].ReadCallback? ==> AcceptCallback(log[j].i) in log[..j]
  }

  lemma LogGrows(log: seq<Event>, e: Event, i: nat)
    ensures ReadsOf(log + [e], i) == ReadsOf(log, i) + (if e.ReadCallback? && e.i == i then [e.packet] else [])
    ensures AcceptsOf(log + [e], i) == AcceptsOf(log, i) + (if e == AcceptCallback(i) then 1 else 0)
  {
  }

  lemma OrderedSnoc(log: seq<Event>, e: Event)
    requires Ordered(log) && (e.ReadCallback? ==> AcceptCallback(e.i) in log)
    ensures Ordered(log + [e])
  {
    forall j | 0 <= j < |log| + 1 && (log + [e])[j].ReadCallback?
      ensures AcceptCallback((log + [e])[j].i) in (log + [e])[..j]
    {
      assert (log + [e])[..j] == log[..j];
    }
    assert log[..|log|] == log;
  }

  /** The session of an accept handler that has not called back yet. */
  ghost predicate Untold(s: ServerState, i: nat) {
    s.running == Accepting(i, false)
  }

  ghost predicate SessionOk(s: ServerState, i: nat)
    requires i < |s.links|
  {
    var l := s.links[i];
    && LinkInv(l)
    && !l.receiver.session.status.Fresh?
    && (l.receiver.session.status.InCallback? <==> s.running == Reading(i))
    && ReadsOf(s.log, i) == l.receiver.log
    && AcceptsOf(s.log, i) == (if Untold(s, i) then 0 else 1)
    && (Untold(s, i) <==> AcceptCallback(i) !in s.log)
  }

  ghost predicate ServerInv(s: ServerState) {
    && s.calls == s.pending + s.failures + (if s.running.Accepting? then 1 else 0)
    && (!s.running.Nobody? ==> s.running.i < |s.links|)
    && (forall e <- s.log :: e.i < |s.links|)
    && Ordered(s.log)
    && forall i: nat :: i < |s.links| ==> SessionOk(s, i)
  }

  lemma {:induction false} NothingLogged(log: seq<Event>, i: nat)
    requires forall e <- log :: e.i != i
    ensures ReadsOf(log, i) == [] && AcceptsOf(log, i) == 0 && AcceptCallback(i) !in log
    decreases |log|
  {
    if log != [] {
      NothingLogged(log[..|log| - 1], i);
    }
  }

  /** The stepping session, when the step is its callback. */
  lemma ReadingSessionOk(s: ServerState, i: nat)
    requires ServerInv(s) && AllValid(s) && ServerEnabled(s, OnLink(i, Read(BodyDone)))
    ensures SessionOk(ServerStep(s, OnLink(i, Read(BodyDone))), i)
  {
    var s' := ServerStep(s, OnLink(i, Read(BodyDone)));
    assert SessionOk(s, i);
    LinkStepKeepsInv(s.links[i], Read(BodyDone));
    var e := s'.log[|s.log|];
    assert s'.log == s.log + [e];
    LogGrows(s.log, e, i);
    assert AcceptCallback(i) in s'.log <==> AcceptCallback(i) in s.log;
  }

  lemma ListeningSessionOk(s: ServerState, i: nat, j: nat)
    requires ServerInv(s) && AllValid(s) && ServerEnabled(s, OnLink(i, Read(BodyDone)))
    requires j < |s.links| && j != i
    ensures SessionOk(ServerStep(s, OnLink(i, Read(BodyDone))), j)
  {
    var s' := ServerStep(s, OnLink(i, Read(BodyDone)));
    assert SessionOk(s, j);
    assert s'.links[j] == s.links[j];
    var e := s'.log[|s.log|];
    assert s'.log == s.log + [e];
    LogGrows(s.log, e, j);
    assert AcceptCallback(j) in s'.log <==> AcceptCallback(j) in s.log;
  }

  lemma CallbackKeepsServerInv(s: ServerState, i: nat)
    requires ServerInv(s) && AllValid(s) && ServerEnabled(s, OnLink(i, Read(BodyDone)))
    ensures ServerInv(ServerStep(s, OnLink(i, Read(BodyDone))))
  {
    var s' := ServerStep(s, OnLink(i, Read(BodyDone)));
    assert SessionOk(s, i);
    OrderedSnoc(s.log, s'.log[|s.log|]);
    assert s'.log == s.log + [s'.log[|s.log|]];
    forall j: nat | j < |s'.links|
      ensures SessionOk(s', j)
    {
      if j == i {
        ReadingSessionOk(s, i);
      } else {
        ListeningSessionOk(s, i, j);
      }
    }
  }

  /** The stepping session itself, when the step does not log. */
  lemma OwnSessionOk(s: ServerState, i: nat, la: LinkAction)
    requires ServerInv(s) && AllValid(s) && ServerEnabled(s, OnLink(i, la)) && la != Read(BodyDone)
    ensures SessionOk(ServerStep(s, OnLink(i, la)), i)
  {
    assert SessionOk(s, i);
    LinkStepKeepsInv(s.links[i], la);
    if la.Read? {
      CallbackBrackets(s.links[i].receiver, la.a);
    }
  }

  lemma OtherSessionOk(s: ServerState, i: nat, la: LinkAction, j: nat)
    requires ServerInv(s) && AllValid(s) && ServerEnabled(s, OnLink(i, la)) && la != Read(BodyDone)
    requires j < |s.links| && j != i
    ensures SessionOk(ServerStep(s, OnLink(i, la)), j)
  {
    assert SessionOk(s, j);
    assert ServerStep(s, OnLink(i, la)).links[j] == s.links[j];
  }

  lemma QuietStepKeepsServerInv(s: ServerState, i: nat, la: LinkAction)
    requires ServerInv(s) && AllValid(s) && ServerEnabled(s, OnLink(i, la)) && la != Read(BodyDone)
    ensures ServerInv(ServerStep(s, OnLink(i, la)))
  {
    var s' := ServerStep(s, OnLink(i, la));
    forall j: nat | j < |s'.links|
      ensures SessionOk(s', j)
    {
      if j == i {
        OwnSessionOk(s, i, la);
      } else {
        OtherSessionOk(s, i, la, j);
      }
    }
  }

  lemma TellKeepsServerInv(s: ServerState)
    requires ServerInv(s) && AllValid(s) && ServerEnabled(s, AcceptTells)
    ensures ServerInv(ServerStep(s, AcceptTells))
  {
    var s' := ServerStep(s, AcceptTells);
    var e := AcceptCallback(s.running.i);
    OrderedSnoc(s.log, e);
    forall j: nat | j < |s'.links|
      ensures SessionOk(s', j)
    {
      assert SessionOk(s, j);
      LogGrows(s.log, e, j);
      assert AcceptCallback(j) in s'.log <==> AcceptCallback(j) in s.log || j == e.i;
    }
  }

  lemma BeginKeepsServerInv(s: ServerState, memory: seq<byte>)
    requires ServerInv(s) && AllValid(s) && ServerEnabled(s, AcceptBegins(memory))
    ensures ServerInv(ServerStep(s, AcceptBegins(memory)))
  {
    var s' := ServerStep(s, AcceptBegins(memory));
    NothingLogged(s.log, |s.links|);
    forall j: nat | j < |s'.links|
      ensures SessionOk(s', j)
    {
      if j < |s.links| {
        assert SessionOk(s, j);
        assert s'.links[j] == s.links[j];
      }
    }
  }

  lemma StepKeepsServerInv(s: ServerState, a: ServerAction)
    requires ServerInv(s) && AllValid(s) && ServerEnabled(s, a)
    ensures ServerInv(ServerStep(s, a))
  {
    match a
    case AcceptBegins(memory) => BeginKeepsServerInv(s, memory);
    case AcceptTells => TellKeepsServerInv(s);
    case OnLink(i, la) =>
      if la == Read(BodyDone) {
        CallbackKeepsServerInv(s, i);
      } else {
        QuietStepKeepsServerInv(s, i, la);
      }
    case _ =>
      var s' := ServerStep(s, a);
      forall j: nat | j < |s'.links|
        ensures SessionOk(s', j)
      {
        assert SessionOk(s, j);
      }
  }

  lemma {:induction false} RunKeepsServerInv(s: ServerState, acts: seq<ServerAction>)
    requires ServerInv(s) && AllValid(s) && ValidServerRun(s, acts)
    ensures ServerInv(ServerRun(s, acts))
    decreases |acts|
  {
    if acts != [] {
      StepKeepsServerInv(s, acts[0]);
      RunKeepsServerInv(ServerStep(s, acts[0]), acts[1..]);
    }
  }

  // ----- what a run was asked to do -----

  function UserCalls(acts: seq<ServerAction>): nat {
    if acts == [] then 0 else (if acts[0].CallAccept? then 1 else 0) + UserCalls(acts[1..])
  }

  function Failures(acts: seq<ServerAction>): nat {
    if acts == [] then 0 else (if acts[0].AcceptFails? then 1 else 0) + Failures(acts[1..])
  }

  /** The accepted calls of `doWrite` by the peer of session `i`. */
  function WriteTo(a: ServerAction, i: nat): seq<Sent> {
    if a.OnLink? && a.i == i then AcceptedBy(a.la) else []
  }

  function WritesTo(acts: seq<ServerAction>, i: nat): seq<Sent> {
    if acts == [] then [] else WriteTo(acts[0], i) + WritesTo(acts[1..], i)
  }

  function SentOf(s: ServerState, i: nat): seq<Sent> {
    if i < |s.links| then s.links[i].sent else []
  }

  lemma {:induction false} RunIsCounted(s: ServerState, acts: seq<ServerAction>, i: nat)
    requires AllValid(s) && ValidServerRun(s, acts)
    ensures ServerRun(s, acts).calls == s.calls + UserCalls(acts)
    ensures ServerRun(s, acts).failures == s.failures + Failures(acts)
    ensures SentOf(ServerRun(s, acts), i) == SentOf(s, i) + WritesTo(acts, i)
    decreases |acts|
  {
    if acts != [] {
      var s1 := ServerStep(s, acts[0]);
      RunIsCounted(s1, acts[1..], i);
      WriteIsSent(s, acts[0], i);
      Regroup(SentOf(s, i), WriteTo(acts[0], i), WritesTo(acts[1..], i));
    }
  }

  lemma WriteIsSent(s: ServerState, a: ServerAction, i: nat)
    requires AllValid(s) && ServerEnabled(s, a)
    ensures SentOf(ServerStep(s, a), i) == SentOf(s, i) + WriteTo(a, i)
  {
    if a.OnLink? {
      assert s.links[a.i] in s.links;
      OneWriteIsSent(s.links[a.i], a.la);
    }
  }

  // ----- the theorems -----

  /** Accept accounting: every call of `accept` is either outstanding, in its handler, or has failed -
      so one call never leads to two outstanding accepts, and the chain only ends with an error: as
      long as fewer accepts have failed than were called for, the free loop can take a connection. */
  lemma AcceptsAreAccounted(acts: seq<ServerAction>)
    requires ValidServerRun(Idle(), acts)
    ensures var s := ServerRun(Idle(), acts);
      && UserCalls(acts) == s.pending + Failures(acts) + (if s.running.Accepting? then 1 else 0)
      && (s.running.Nobody? && UserCalls(acts) > Failures(acts) ==>
            forall memory :: |memory| == 1029 ==> ServerEnabled(s, AcceptBegins(memory)))
  {
    RunKeepsServerInv(Idle(), acts);
    RunIsCounted(Idle(), acts, 0);
  }

  /** Cross-session ordering: although `start` is called first, each session's "accept" callback comes
      exactly once and before all its "read" callbacks, in every interleaving. */
  lemma AcceptComesFirst(acts: seq<ServerAction>, i: nat)
    requires ValidServerRun(Idle(), acts) && i < |ServerRun(Idle(), acts).links|
    ensures var s := ServerRun(Idle(), acts);
      && Ordered(s.log)
      && AcceptsOf(s.log, i) <= 1
      && (ReadsOf(s.log, i) != [] ==> AcceptsOf(s.log, i) == 1)
  {
    RunKeepsServerInv(Idle(), acts);
    var s := ServerRun(Idle(), acts);
    assert SessionOk(s, i);
    if Untold(s, i) {
      NoReadsBeforeAccept(s.log, i);
    }
  }

  lemma NoReadsBeforeAccept(log: seq<Event>, i: nat)
    requires Ordered(log) && AcceptCallback(i) !in log
    ensures ReadsOf(log, i) == []
    decreases |log|
  {
  }

  /** Delivery over a whole server: the messages any session shows its callbacks, in the order of the
      global log, are the first messages its own peer sent - nothing leaks between sessions. */
  lemma EverySessionDelivers(acts: seq<ServerAction>, i: nat)
    requires ValidServerRun(Idle(), acts) && i < |ServerRun(Idle(), acts).links|
    ensures ShowsFirst(ReadsOf(ServerRun(Idle(), acts).log, i), WritesTo(acts, i))
  {
    RunKeepsServerInv(Idle(), acts);
    var s := ServerRun(Idle(), acts);
    assert SessionOk(s, i);
    WritesAreCounted(acts, i, s.links[i].sent);
    InvDelivers(s.links[i]);
    MeaningsAreShown(ReadsOf(s.log, i), s.links[i].sent);
  }

  /** Session accounting: outside its own callback a session without a read error has exactly one
      outstanding read, whatever the other sessions and the accept handler do. */
  lemma OneReadOutstanding(acts: seq<ServerAction>, i: nat)
    requires ValidServerRun(Idle(), acts) && i < |ServerRun(Idle(), acts).links|
    ensures var s := ServerRun(Idle(), acts); var r := s.links[i].receiver.session;
      && (s.running == Reading(i) ==> r.ops == [])
      && (s.running != Reading(i) && !r.status.Stopped? ==> |r.ops| == 1)
  {
    RunKeepsServerInv(Idle(), acts);
    var s := ServerRun(Idle(), acts);
    assert SessionOk(s, i);
    InvNeverOverruns(s.links[i]);
  }

  // ----- progress -----

  /** What the loop itself does: not the calls of the users and peers, nor new connections or errors. */
  predicate IsProgress(a: ServerAction) {
    match a
    case AcceptTells => true
    case AcceptAgain => true
    case OnLink(_, la) => la.Read? && !la.a.Fail?
    case _ => false
  }

  ghost predicate OnlyProgress(acts: seq<ServerAction>) {
    forall a <- acts :: IsProgress(a)
  }

  ghost predicate LinksValid(links: seq<LinkState>) {
    forall l <- links :: Valid(l.receiver.session)
  }

  /** The work of the first `n` sessions. */
  ghost function LinkWork(links: seq<LinkState>, n: nat): nat
    requires LinksValid(links) && n <= |links|
  {
    if n == 0 then 0
    else
      assert links[n - 1] in links;
      LinkWork(links, n - 1) + Work(links[n - 1])
  }

  lemma {:induction false} LinkWorkUpdate(links: seq<LinkState>, i: nat, l: LinkState, n: nat)
    requires i < |links| && n <= |links|
    requires LinksValid(links) && Valid(l.receiver.session) && LinksValid(links[i := l])
    ensures n <= i ==> LinkWork(links[i := l], n) == LinkWork(links, n)
    ensures i < n ==> LinkWork(links[i := l], n) + Work(links[i]) == LinkWork(links, n) + Work(l)
  {
    if n != 0 {
      LinkWorkUpdate(links, i, l, n - 1);
    }
  }

  ghost function ServerWork(s: ServerState): nat
    requires AllValid(s)
  {
    LinkWork(s.links, |s.links|) + (if !s.running.Accepting? then 0 else if s.running.told then 1 else 2)
  }

  lemma ProgressUsesWork(s: ServerState, a: ServerAction)
    requires AllValid(s) && ServerEnabled(s, a) && IsProgress(a)
    ensures ServerWork(ServerStep(s, a)) < ServerWork(s)
  {
    if a.OnLink? {
      var l := s.links[a.i];
      assert l in s.links;
      ReadStepsUseWork(l, a.la.a);
      assert ServerStep(s, a).links == s.links[a.i := LinkStep(l, a.la)];
      LinkWorkUpdate(s.links, a.i, LinkStep(l, a.la), |s.links|);
    }
  }

  /** Between calls from outside the server takes only a bounded number of steps. */
  lemma {:induction false} ProgressIsBounded(s: ServerState, acts: seq<ServerAction>)
    requires AllValid(s) && ValidServerRun(s, acts) && OnlyProgress(acts)
    ensures |acts| + ServerWork(ServerRun(s, acts)) <= ServerWork(s)
    decreases |acts|
  {
    if acts != [] {
      assert acts[0] in acts;
      ProgressUsesWork(s, acts[0]);
      ProgressIsBounded(ServerStep(s, acts[0]), acts[1..]);
    }
  }

  /** Session `i` has shown everything, unless its own connection has failed. */
  ghost predicate Served(s: ServerState, i: nat)
    requires i < |s.links|
  {
    var l := s.links[i];
    !l.receiver.session.status.Stopped? ==> Meanings(ReadsOf(s.log, i)) == Meanings(Arguments(l.sent))
  }

  ghost predicate Quiet(s: ServerState, i: nat)
    requires AllValid(s) && i < |s.links|
  {
    assert s.links[i] in s.links;
    var l := s.links[i];
    l.receiver.session.status.Stopped? || (l.channel == [] && !HandlerReady(l.receiver))
  }

  /** No deadlock: while a handler is running or some session that has not failed has work, the loop
      has a step - whichever other sessions have failed. */
  lemma CanServe(s: ServerState) returns (a: ServerAction)
    requires ServerInv(s) && AllValid(s)
    requires !s.running.Nobody? || exists i: nat :: i < |s.links| && !Quiet(s, i)
    ensures ServerEnabled(s, a) && IsProgress(a)
  {
    match s.running
    case Accepting(_, told) => a := if told then AcceptAgain else AcceptTells;
    case Reading(i) =>
      assert SessionOk(s, i);
      a := OnLink(i, Read(Rearm));
    case Nobody =>
      var i: nat :| i < |s.links| && !Quiet(s, i);
      assert SessionOk(s, i);
      var ra := CanRead(s.links[i]);
      a := OnLink(i, Read(ra));
  }

  lemma QuietIsServed(s: ServerState, i: nat)
    requires ServerInv(s) && AllValid(s) && i < |s.links| && Quiet(s, i)
    ensures Served(s, i)
  {
    assert SessionOk(s, i);
    InvDelivers(s.links[i]);
  }

  lemma ServerRunCons(s: ServerState, a: ServerAction, rest: seq<ServerAction>)
    requires AllValid(s) && ServerEnabled(s, a) && ValidServerRun(ServerStep(s, a), rest)
    ensures ValidServerRun(s, [a] + rest) && ServerRun(s, [a] + rest) == ServerRun(ServerStep(s, a), rest)
  {
    assert ([a] + rest)[1..] == rest;
  }

  lemma ProgressKeepsSent(s: ServerState, a: ServerAction)
    requires AllValid(s) && ServerEnabled(s, a) && IsProgress(a)
    ensures |ServerStep(s, a).links| == |s.links|
    ensures forall i :: 0 <= i < |s.links| ==>
      && ServerStep(s, a).links[i].sent == s.links[i].sent
      && (ServerStep(s, a).links[i].receiver.session.status.Stopped? <==> s.links[i].receiver.session.status.Stopped?)
  {
    if a.OnLink? {
      assert s.links[a.i] in s.links;
    }
  }

  /** The loop can come to rest, within the bound and without an error. */
  lemma {:induction false} CanRest(s: ServerState) returns (acts: seq<ServerAction>)
    requires ServerInv(s) && AllValid(s)
    ensures OnlyProgress(acts) && |acts| <= ServerWork(s) && ValidServerRun(s, acts)
    ensures var s' := ServerRun(s, acts);
      && ServerInv(s') && s'.running.Nobody? && |s'.links| == |s.links|
      && (forall i: nat :: i < |s'.links| ==> Quiet(s', i))
      && forall i :: 0 <= i < |s.links| ==>
           && s'.links[i].sent == s.links[i].sent
           && (s'.links[i].receiver.session.status.Stopped? <==> s.links[i].receiver.session.status.Stopped?)
    decreases ServerWork(s)
  {
    if s.running.Nobody? && forall i: nat :: i < |s.links| ==> Quiet(s, i) {
      acts := [];
    } else {
      var a := CanServe(s);
      ProgressUsesWork(s, a);
      ProgressKeepsSent(s, a);
      StepKeepsServerInv(s, a);
      var more := CanRest(ServerStep(s, a));
      ServerRunCons(s, a, more);
      acts := [a] + more;
    }
  }

  /** A session that is quiet now and whose peer's writes are those of the run has shown them all. */
  lemma RestServes(acts: seq<ServerAction>, s': ServerState, i: nat)
    requires ValidServerRun(Idle(), acts) && ServerInv(s') && AllValid(s')
    requires i < |ServerRun(Idle(), acts).links| && i < |s'.links|
    requires s'.links[i].sent == ServerRun(Idle(), acts).links[i].sent
    requires Quiet(s', i) && !s'.links[i].receiver.session.status.Stopped?
    ensures Meanings(ReadsOf(s'.log, i)) == Meanings(Arguments(WritesTo(acts, i)))
  {
    QuietIsServed(s', i);
    RunIsCounted(Idle(), acts, i);
    AppendNothing(WritesTo(acts, i));
  }

  /** Completeness and progress for a whole server: from every reachable state the loop can, in a
      bounded number of steps and without another error, show every session everything its peer has
      sent; the sessions whose own connection has failed by then stop nobody else. */
  lemma EverySessionCanBeServed(acts: seq<ServerAction>) returns (more: seq<ServerAction>)
    requires ValidServerRun(Idle(), acts)
    ensures var s := ServerRun(Idle(), acts);
      && OnlyProgress(more) && |more| <= ServerWork(s) && ValidServerRun(s, more)
      && var s' := ServerRun(s, more);
         && |s'.links| == |s.links|
         && forall i :: 0 <= i < |s.links| && !s.links[i].receiver.session.status.Stopped? ==>
              Meanings(ReadsOf(s'.log, i)) == Meanings(Arguments(WritesTo(acts, i)))
  {
    RunKeepsServerInv(Idle(), acts);
    var s := ServerRun(Idle(), acts);
    more := CanRest(s);
    forall i | 0 <= i < |s.links| && !s.links[i].receiver.session.status.Stopped?
      ensures Meanings(ReadsOf(ServerRun(s, more).log, i)) == Meanings(Arguments(WritesTo(acts, i)))
    {
      RestServes(acts, ServerRun(s, more), i);
    }
  }

  // ----- what can happen at any time -----

  /** Handlers do not overlap: while one is running, only its own next part can run, and what does not
      happen on the loop - a call of `accept`, a peer's write, the arrival of bytes. */
  lemma HandlersDoNotOverlap(s: ServerState, a: ServerAction)
    requires AllValid(s) && ServerEnabled(s, a) && !s.running.Nobody?
    ensures
      || a == CallAccept || (a.OnLink? && a.la.DoWrite?) || (a.OnLink? && a.la.Read? && a.la.a.Arrive?)
      || (s.running.Accepting? && !s.running.told && a == AcceptTells)
      || (s.running.Accepting? && s.running.told && a == AcceptAgain)
      || (s.running.Reading? && a == OnLink(s.running.i, Read(Rearm)))
  {
  }

  /** Users, peers and the network are never held up: in every state `accept` can be called, any peer
      can write, any live session can take what is in flight as far as its read has room, and with no
      handler running any outstanding accept and any outstanding read can fail. */
  lemma OutsideIsNeverBlocked(s: ServerState, i: nat)
    requires ServerInv(s) && AllValid(s)
    ensures ServerEnabled(s, CallAccept)
    ensures s.running.Nobody? && s.pending > 0 ==> ServerEnabled(s, AcceptFails)
    ensures i < |s.links| ==> forall p, u ::
      ServerEnabled(s, OnLink(i, DoWrite(p, u))) <==> |p.body| > 1024 || p.mt != 2 || p.pmt != 255
    ensures i < |s.links| && s.links[i].receiver.session.status.Live? ==>
      var channel, op := s.links[i].channel, s.links[i].receiver.session.ops[0];
      && (s.running.Nobody? ==> ServerEnabled(s, OnLink(i, Read(Fail))))
      && forall n :: 0 < n <= |channel| && op.filled + n <= op.need ==>
           ServerEnabled(s, OnLink(i, Read(Arrive(channel[..n]))))
  {
    if i < |s.links| {
      assert SessionOk(s, i);
      var l := s.links[i];
      forall p, u
        ensures LinkEnabled(l, DoWrite(p, u)) <==> |p.body| > 1024 || p.mt != 2 || p.pmt != 255
      {
        WriteEffect(l, p, u);
      }
      if l.receiver.session.status.Live? {
        forall n | 0 < n <= |l.channel| && l.receiver.session.ops[0].filled + n <= l.receiver.session.ops[0].need
          ensures LinkEnabled(l, Read(Arrive(l.channel[..n])))
        {
          ArrivalEffect(l, n);
        }
        ArrivalEffect(l, 0);
      }
    }
  }

  /** No session has to wait for another: with no handler running, any session with work can go next. */
  lemma AnySessionCanGoNext(s: ServerState, i: nat) returns (a: Action)
    requires ServerInv(s) && AllValid(s) && s.running.Nobody? && i < |s.links| && !Quiet(s, i)
    ensures !a.Fail? && ServerEnabled(s, OnLink(i, Read(a)))
  {
    assert SessionOk(s, i);
    a := CanRead(s.links[i]);
  }

  // ----- new sessions, and any workload -----

  /** The state after an accept handler has run from end to end. */
  ghost function Accepted(s: ServerState, memory: seq<byte>): ServerState
    requires |memory| == 1029
  {
    s.(links := s.links + [StartedLink(memory)], log := s.log + [AcceptCallback(|s.links|)])
  }

  lemma ThreeSteps(s: ServerState, a: ServerAction, b: ServerAction, c: ServerAction, more: seq<ServerAction>)
    requires AllValid(s) && ServerEnabled(s, a) && ServerEnabled(ServerStep(s, a), b)
    requires ServerEnabled(ServerStep(ServerStep(s, a), b), c)
    requires ValidServerRun(ServerStep(ServerStep(ServerStep(s, a), b), c), more)
    ensures ValidServerRun(s, [a, b, c] + more)
    ensures ServerRun(s, [a, b, c] + more) == ServerRun(ServerStep(ServerStep(ServerStep(s, a), b), c), more)
  {
    var s1 := ServerStep(s, a);
    var s2 := ServerStep(s1, b);
    ServerRunCons(s2, c, more);
    ServerRunCons(s1, b, [c] + more);
    ServerRunCons(s, a, [b] + ([c] + more));
    assert [a] + ([b] + ([c] + more)) == [a, b, c] + more;
  }

  lemma AcceptSteps(s: ServerState, memory: seq<byte>)
    requires ServerInv(s) && AllValid(s) && s.running.Nobody? && s.pending > 0 && |memory| == 1029
    ensures ServerEnabled(s, AcceptBegins(memory))
    ensures var s1 := ServerStep(s, AcceptBegins(memory));
      ServerEnabled(s1, AcceptTells) && ServerEnabled(ServerStep(s1, AcceptTells), AcceptAgain)
      && ServerStep(ServerStep(s1, AcceptTells), AcceptAgain) == Accepted(s, memory)
    ensures ServerInv(Accepted(s, memory)) && AllValid(Accepted(s, memory))
  {
    var s1 := ServerStep(s, AcceptBegins(memory));
    var s2 := ServerStep(s1, AcceptTells);
    StepKeepsServerInv(s, AcceptBegins(memory));
    StepKeepsServerInv(s1, AcceptTells);
    StepKeepsServerInv(s2, AcceptAgain);
    assert ServerStep(s2, AcceptAgain) == Accepted(s, memory);
  }

  /** The accept loop goes on: from every reachable state with no handler running and an outstanding
      accept, whatever sessions there are, a connection can be accepted on any fresh memory.  That
      adds one live session with nothing sent or shown, logs its callback, and leaves an outstanding
      accept behind; any run can follow. */
  lemma CanAccept(s: ServerState, memory: seq<byte>, more: seq<ServerAction>)
    requires ServerInv(s) && AllValid(s) && s.running.Nobody? && s.pending > 0 && |memory| == 1029
    requires AllValid(Accepted(s, memory)) ==> ValidServerRun(Accepted(s, memory), more)
    ensures var acts := [AcceptBegins(memory), AcceptTells, AcceptAgain] + more; var s1 := Accepted(s, memory);
      && AllValid(s1) && ServerInv(s1)
      && ValidServerRun(s, acts) && ServerRun(s, acts) == ServerRun(s1, more)
      && s1.pending == s.pending && s1.running.Nobody? && |s1.links| == |s.links| + 1
      && var l := s1.links[|s.links|];
         l.receiver.session.status.Live? && l.sent == [] && l.channel == [] && l.receiver.log == []
  {
    AcceptSteps(s, memory);
    ThreeSteps(s, AcceptBegins(memory), AcceptTells, AcceptAgain, more);
  }

  function Accepts(memories: seq<seq<byte>>): seq<ServerAction> {
    if memories == [] then []
    else [AcceptBegins(memories[0]), AcceptTells, AcceptAgain] + Accepts(memories[1..])
  }

  /** A call of `doWrite` by the peer of a session. */
  datatype PeerCall = PeerCall(i: nat, x: Sent)

  function PeerWrites(ws: seq<PeerCall>): seq<ServerAction> {
    if ws == [] then [] else [OnLink(ws[0].i, DoWrite(ws[0].x.args, ws[0].x.unassigned))] + PeerWrites(ws[1..])
  }

  function CallsOf(ws: seq<PeerCall>, i: nat): seq<Sent> {
    if ws == [] then [] else (if ws[0].i == i then [ws[0].x] else []) + CallsOf(ws[1..], i)
  }

  /** Calls that `encode` accepts, on sessions below `n`. */
  ghost predicate LegalCalls(ws: seq<PeerCall>, n: nat) {
    forall w <- ws :: w.i < n && |w.x.args.body| <= 1024 && (w.x.args.mt == 2 ==> w.x.args.pmt != 255)
  }

  ghost predicate IsStopped(s: ServerState, i: nat) {
    i < |s.links| && s.links[i].receiver.session.status.Stopped?
  }

  lemma PeerWriteEffect(s: ServerState, w: PeerCall) returns (s1: ServerState)
    requires ServerInv(s) && AllValid(s) && LegalCalls([w], |s.links|)
    ensures ServerEnabled(s, OnLink(w.i, DoWrite(w.x.args, w.x.unassigned)))
    ensures s1 == ServerStep(s, OnLink(w.i, DoWrite(w.x.args, w.x.unassigned)))
    ensures ServerInv(s1) && AllValid(s1) && |s1.links| == |s.links|
    ensures forall i: nat :: SentOf(s1, i) == SentOf(s, i) + CallsOf([w], i)
    ensures forall i: nat :: IsStopped(s1, i) == IsStopped(s, i)
  {
    var a := OnLink(w.i, DoWrite(w.x.args, w.x.unassigned));
    assert w in [w];
    assert SessionOk(s, w.i);
    WriteEffect(s.links[w.i], w.x.args, w.x.unassigned);
    s1 := ServerStep(s, a);
    StepKeepsServerInv(s, a);
    assert CallsOf([w], w.i) == [w.x];
  }

  /** Everything is shown to the callbacks of the sessions that have not failed. */
  ghost predicate AllServed(s: ServerState, s': ServerState, ws: seq<PeerCall>) {
    && |s'.links| >= |s.links|
    && forall i: nat :: i < |s'.links| ==>
      && SentOf(s', i) == SentOf(s, i) + CallsOf(ws, i)
      && (!IsStopped(s, i) ==>
           && ShowsFirst(ReadsOf(s'.log, i), SentOf(s, i) + CallsOf(ws, i))
           && |ReadsOf(s'.log, i)| == |SentOf(s, i) + CallsOf(ws, i)|)
  }

  lemma RestIsServed(s: ServerState, s': ServerState)
    requires ServerInv(s') && AllValid(s') && |s'.links| == |s.links|
    requires forall i: nat :: i < |s'.links| ==> Quiet(s', i) && SentOf(s', i) == SentOf(s, i)
    requires forall i: nat :: IsStopped(s', i) == IsStopped(s, i)
    ensures AllServed(s, s', [])
  {
    forall i: nat | i < |s'.links|
      ensures SentOf(s', i) == SentOf(s, i) + CallsOf([], i)
      ensures !IsStopped(s, i) ==> ShowsFirst(ReadsOf(s'.log, i), SentOf(s, i) + CallsOf([], i))
      ensures !IsStopped(s, i) ==> |ReadsOf(s'.log, i)| == |SentOf(s, i) + CallsOf([], i)|
    {
      AppendNothing(SentOf(s, i));
      if !IsStopped(s', i) {
        QuietIsServed(s', i);
        MeaningsAreShown(ReadsOf(s'.log, i), s'.links[i].sent);
      }
    }
  }

  lemma CallsCons(w: PeerCall, ws: seq<PeerCall>, i: nat)
    ensures CallsOf([w] + ws, i) == CallsOf([w], i) + CallsOf(ws, i)
  {
    assert ([w] + ws)[1..] == ws && [w][1..] == [];
  }

  lemma WriteThenServed(s: ServerState, s1: ServerState, s': ServerState, w: PeerCall, ws: seq<PeerCall>)
    requires |s1.links| == |s.links| && AllServed(s1, s', ws)
    requires forall i: nat :: SentOf(s1, i) == SentOf(s, i) + CallsOf([w], i)
    requires forall i: nat :: IsStopped(s1, i) == IsStopped(s, i)
    ensures AllServed(s, s', [w] + ws)
  {
    forall i: nat | i < |s'.links|
      ensures SentOf(s1, i) + CallsOf(ws, i) == SentOf(s, i) + CallsOf([w] + ws, i)
    {
      CallsCons(w, ws, i);
      Regroup(SentOf(s, i), CallsOf([w], i), CallsOf(ws, i));
    }
  }

  lemma {:induction false} CanServeCalls(s: ServerState, ws: seq<PeerCall>) returns (rest: seq<ServerAction>)
    requires ServerInv(s) && AllValid(s) && LegalCalls(ws, |s.links|)
    ensures OnlyProgress(rest) && ValidServerRun(s, PeerWrites(ws) + rest)
    ensures var s' := ServerRun(s, PeerWrites(ws) + rest); |s'.links| == |s.links| && AllServed(s, s', ws)
    decreases |ws|
  {
    if ws == [] {
      rest := CanRest(s);
      assert PeerWrites(ws) + rest == rest;
      RestIsServed(s, ServerRun(s, rest));
    } else {
      var w, others := ws[0], ws[1..];
      assert ws == [w] + others;
      var s1 := PeerWriteEffect(s, w);
      rest := CanServeCalls(s1, others);
      var a := OnLink(w.i, DoWrite(w.x.args, w.x.unassigned));
      ServerRunCons(s, a, PeerWrites(others) + rest);
      Regroup([a], PeerWrites(others), rest);
      WriteThenServed(s, s1, ServerRun(s1, PeerWrites(others) + rest), w, others);
    }
  }

  lemma AcceptThenServed(s: ServerState, memory: seq<byte>, s': ServerState, ws: seq<PeerCall>)
    requires |memory| == 1029 && AllServed(Accepted(s, memory), s', ws)
    ensures AllServed(s, s', ws)
  {
    var s1 := Accepted(s, memory);
    forall i: nat | i < |s'.links|
      ensures SentOf(s1, i) == SentOf(s, i) && IsStopped(s1, i) == IsStopped(s, i)
    {
      if i < |s.links| {
        assert s1.links[i] == s.links[i];
      }
    }
  }

  /** Any workload: from every reachable state with no handler running and, if connections are to come,
      an outstanding accept, any number of connections can be accepted, then any list of legal calls
      can be made by the peers of old and new sessions in any order, and the loop can then show every
      session whose connection has not failed exactly what its own peer has sent. */
  lemma {:induction false} AnyWorkloadCanBeServed(s: ServerState, memories: seq<seq<byte>>, ws: seq<PeerCall>)
      returns (rest: seq<ServerAction>)
    requires ServerInv(s) && AllValid(s) && s.running.Nobody? && (memories != [] ==> s.pending > 0)
    requires (forall m <- memories :: |m| == 1029) && LegalCalls(ws, |s.links| + |memories|)
    ensures OnlyProgress(rest) && ValidServerRun(s, Accepts(memories) + (PeerWrites(ws) + rest))
    ensures var s' := ServerRun(s, Accepts(memories) + (PeerWrites(ws) + rest));
      |s'.links| == |s.links| + |memories| && AllServed(s, s', ws)
    decreases |memories|
  {
    if memories == [] {
      rest := CanServeCalls(s, ws);
      assert Accepts(memories) + (PeerWrites(ws) + rest) == PeerWrites(ws) + rest;
    } else {
      var m, others := memories[0], memories[1..];
      assert m in memories;
      var s1 := Accepted(s, m);
      AcceptSteps(s, m);
      rest := AnyWorkloadCanBeServed(s1, others, ws);
      var more := Accepts(others) + (PeerWrites(ws) + rest);
      CanAccept(s, m, more);
      Regroup([AcceptBegins(m), AcceptTells, AcceptAgain], Accepts(others), PeerWrites(ws) + rest);
      AcceptThenServed(s, m, ServerRun(s1, more), ws);
    }
  }

  lemma {:induction false} NoUserCalls(acts: seq<ServerAction>)
    requires forall a <- acts :: !a.CallAccept?
    ensures UserCalls(acts) == 0
  {
    if acts != [] {
      NoUserCalls(acts[1..]);
    }
  }

  lemma OnlyTheFirstCalls(memories: seq<seq<byte>>, ws: seq<PeerCall>, rest: seq<ServerAction>)
    requires OnlyProgress(rest)
    ensures UserCalls([CallAccept] + (Accepts(memories) + (PeerWrites(ws) + rest))) == 1
  {
    AcceptsCallNothing(memories);
    WritesCallNothing(ws);
    var more := Accepts(memories) + (PeerWrites(ws) + rest);
    NoUserCalls(more);
    assert ([CallAccept] + more)[1..] == more;
  }

  lemma AcceptsCallNothing(memories: seq<seq<byte>>)
    ensures forall a <- Accepts(memories) :: !a.CallAccept?
  {
  }

  lemma WritesCallNothing(ws: seq<PeerCall>)
    ensures forall a <- PeerWrites(ws) :: !a.CallAccept?
  {
  }

  lemma FirstCall() returns (s1: ServerState)
    ensures ServerEnabled(Idle(), CallAccept) && s1 == ServerStep(Idle(), CallAccept)
    ensures ServerInv(s1) && AllValid(s1) && s1.running.Nobody? && s1.pending == 1 && s1.links == []
  {
    s1 := ServerStep(Idle(), CallAccept);
    StepKeepsServerInv(Idle(), CallAccept);
  }

  lemma WritesAreCounted(acts: seq<ServerAction>, i: nat, xs: seq<Sent>)
    requires ValidServerRun(Idle(), acts) && SentOf(ServerRun(Idle(), acts), i) == xs
    ensures WritesTo(acts, i) == xs
  {
    RunIsCounted(Idle(), acts, i);
    assert SentOf(Idle(), i) + WritesTo(acts, i) == WritesTo(acts, i);
  }

  lemma ServedFromNothing(s1: ServerState, s': ServerState, ws: seq<PeerCall>, i: nat)
    requires s1.links == [] && AllServed(s1, s', ws) && i < |s'.links|
    ensures SentOf(s', i) == CallsOf(ws, i)
    ensures ShowsFirst(ReadsOf(s'.log, i), CallsOf(ws, i)) && |ReadsOf(s'.log, i)| == |CallsOf(ws, i)|
  {
    assert SentOf(s1, i) + CallsOf(ws, i) == CallsOf(ws, i);
  }

  /** One call of `accept` is enough for any number of sessions, each of which shows exactly what its
      own peer sends. */
  lemma OneAcceptServesAll(memories: seq<seq<byte>>, ws: seq<PeerCall>) returns (acts: seq<ServerAction>)
    requires (forall m <- memories :: |m| == 1029) && LegalCalls(ws, |memories|)
    ensures ValidServerRun(Idle(), acts) && UserCalls(acts) == 1
    ensures var s := ServerRun(Idle(), acts);
      && |s.links| == |memories|
      && forall i: nat :: i < |memories| ==>
           && WritesTo(acts, i) == CallsOf(ws, i)
           && ShowsFirst(ReadsOf(s.log, i), CallsOf(ws, i)) && |ReadsOf(s.log, i)| == |CallsOf(ws, i)|
  {
    var s1 := FirstCall();
    var rest := AnyWorkloadCanBeServed(s1, memories, ws);
    var more := Accepts(memories) + (PeerWrites(ws) + rest);
    ServerRunCons(Idle(), CallAccept, more);
    acts := [CallAccept] + more;
    OnlyTheFirstCalls(memories, ws, rest);
    forall i: nat | i < |memories|
      ensures WritesTo(acts, i) == CallsOf(ws, i)
      ensures ShowsFirst(ReadsOf(ServerRun(Idle(), acts).log, i), CallsOf(ws, i))
      ensures |ReadsOf(ServerRun(Idle(), acts).log, i)| == |CallsOf(ws, i)|
    {
      ServedFromNothing(s1, ServerRun(s1, more), ws, i);
      WritesAreCounted(acts, i, CallsOf(ws, i));
    }
  }
}
