/** `mytimer` on the event loop, on values: the timer's own state with one function per operation,
    and the loop - clock, timers, static tables, the handler that is running - as a step system. */
module Timers {
  import opened Basics
  import opened Ids

  // ----- ids: `int` values reduced through `unsigned` -----

  /** The value of an `int` converted to `unsigned`, and back (two's complement). */
  function ToUnsigned(i: int): (u: nat)
    requires -0x8000_0000 <= i < 0x8000_0000
    ensures u < WORD
  {
    if i < 0 then i + WORD else i
  }

  function ToSigned(u: nat): (i: int)
    requires u < WORD
    ensures -0x8000_0000 <= i < 0x8000_0000 && ToUnsigned(i) == u
  {
    if u < 0x8000_0000 then u else u - WORD
  }

  predicate IsInt(i: int) {
    -0x8000_0000 <= i < 0x8000_0000
  }

  /** The set of used ids, read as unsigned. */
  ghost function Unsigned(ids: set<int>): set<int> {
    set i | i in ids && IsInt(i) :: ToUnsigned(i)
  }

  /** The id `uuid` returns: the counter of each timer is its own and starts anywhere. */
  ghost function NewId(ids: set<int>, seed: int): (id: int)
    requires IsInt(seed) && SomeFree(Unsigned(ids))
    ensures IsInt(id) && id !in ids && id != -1
  {
    var u := Slot(ToUnsigned(seed), Misses(Unsigned(ids), ToUnsigned(seed)));
    assert ToUnsigned(ToSigned(u)) == u;
    ToSigned(u)
  }

  /** The turns the loop of `uuid` takes to find it. */
  ghost function SearchCost(ids: set<int>, seed: int): nat
    requires IsInt(seed) && SomeFree(Unsigned(ids))
  {
    Misses(Unsigned(ids), ToUnsigned(seed)) + 1
  }

  lemma TakenIff(ids: set<int>, u: nat)
    requires u < WORD && forall i <- ids :: IsInt(i)
    ensures ToSigned(u) in ids <==> u in Unsigned(ids)
  {
  }

  /** The k-th value that the `int` counter gives after `seed`, wrapped, with -1 replaced by 0. */
  function SignedProbe(seed: int, k: nat): int {
    var value := (seed + k + 0x8000_0000) % 0x1_0000_0000 - 0x8000_0000;
    if value == -1 then 0 else value
  }

  lemma SignedSlot(seed: int, k: nat)
    requires IsInt(seed)
    ensures ToSigned(Slot(ToUnsigned(seed), k)) == SignedProbe(seed, k)
  {
    var u := ToUnsigned(seed);
    assert (u + k) % WORD == (seed + k) % WORD;
  }

  /** The search by conversion to `unsigned` is the search in the order of the `int` counter: the new
      id is the first value of that order that is not used, and the turns are those up to it. */
  lemma NewIdIsFirst(ids: set<int>, seed: int)
    requires IsInt(seed) && SomeFree(Unsigned(ids)) && forall i <- ids :: IsInt(i)
    ensures SearchCost(ids, seed) >= 1 && NewId(ids, seed) == SignedProbe(seed, SearchCost(ids, seed) - 1)
    ensures forall k :: 0 <= k < SearchCost(ids, seed) - 1 ==> SignedProbe(seed, k) in ids
  {
    var u := ToUnsigned(seed);
    var m := Misses(Unsigned(ids), u);
    SignedSlot(seed, m);
    forall k: nat | k < m
      ensures SignedProbe(seed, k) in ids
    {
      assert !Free(Unsigned(ids), u, k);
      SignedSlot(seed, k);
      TakenIff(ids, Slot(u, k));
    }
  }

  // ----- one timer -----

  /** A started wait: not due, or its completion queued with success, or queued as aborted. */
  datatype WaitStatus = Pending | Ready | Aborted
  datatype Wait = Wait(deadline: int, status: WaitStatus)

  datatype Timer = Timer(id: int, period: int, loop: bool, expiry: int, waits: seq<Wait>)

  /** `start`: one more `async_wait`, for the current expiry. */
  function Started(t: Timer): Timer {
    t.(waits := t.waits + [Wait(t.expiry, Pending)])
  }

  function AbortOne(w: Wait): Wait {
    if w.status.Pending? then w.(status := Aborted) else w
  }

  /** `deadline_timer::cancel` aborts the waits that are pending, not completions already queued. */
  function AbortPending(ws: seq<Wait>): (r: seq<Wait>)
    ensures |r| == |ws|
    ensures forall i :: 0 <= i < |ws| ==> r[i] == AbortOne(ws[i])
  {
    seq(|ws|, i requires 0 <= i < |ws| => AbortOne(ws[i]))
  }

  function Cancelled(t: Timer): Timer {
    t.(loop := false, waits := AbortPending(t.waits))
  }

  /** The end of the handler, after the callback: `expires_at` cancels what is pending and moves the
      deadline by one period from the old deadline, not from now. */
  function Rearmed(t: Timer): Timer {
    if t.loop then Started(t.(expiry := t.expiry + t.period, waits := AbortPending(t.waits))) else t
  }

  /** The wait has come due. */
  function Expired(t: Timer, i: nat): Timer
    requires i < |t.waits|
  {
    t.(waits := t.waits[i := t.waits[i].(status := Ready)])
  }

  /** A completion leaves the queue. */
  function Dequeued(t: Timer, i: nat): Timer
    requires i < |t.waits|
  {
    t.(waits := t.waits[..i] + t.waits[i + 1..])
  }

  // ----- the loop -----

  datatype Firing = Firing(deadline: int, at: int)

  /** A timer with its history: when it was created, the `loop` argument, its callbacks so far. */
  datatype Entry = Entry(timer: Timer, born: int, looping: bool, fired: seq<Firing>)

  /** Timers are named by their index in `entries`; `ids` is `timerSet_`, `registry` is
      `mapIdToTimer_`, and `running` is the timer whose callback is being run, if any.  `probes`
      counts the turns that all searches for an id have taken. */
  datatype Loop = Loop(
    now: int, entries: seq<Entry>, ids: set<int>, registry: map<int, nat>, running: Option<nat>, probes: nat)

  datatype Step =
    | Tick(d: nat)
    | Create(period: int, loop: bool, seed: int)
    | CancelById(id: int)
    | Expire(h: nat, i: nat)
    | Begin(h: nat, i: nat)   // the handler of a success completion starts: `func_()`
    | Drop(h: nat, i: nat)    // the handler of an aborted completion runs and does nothing
    | End                     // the callback returns; the rest of the handler

  function EntryOf(id: int, now: int, period: int, loop: bool): Entry {
    Entry(Started(Timer(id, period, loop, now + period, [])), now, loop, [])
  }

  ghost predicate IdsOk(s: Loop) {
    forall i <- s.ids :: IsInt(i)
  }

  ghost predicate CanStep(s: Loop, a: Step)
    requires IdsOk(s)
  {
    match a
    case Tick(_) => true
    case Create(_, _, seed) => IsInt(seed) && SomeFree(Unsigned(s.ids))
    case CancelById(_) => true
    case Expire(h, i) =>
      && h < |s.entries| && i < |s.entries[h].timer.waits|
      && s.entries[h].timer.waits[i].status.Pending? && s.entries[h].timer.waits[i].deadline <= s.now
    case Begin(h, i) =>
      && s.running.None? && h < |s.entries| && i < |s.entries[h].timer.waits|
      && s.entries[h].timer.waits[i].status.Ready?
    case Drop(h, i) =>
      && s.running.None? && h < |s.entries| && i < |s.entries[h].timer.waits|
      && s.entries[h].timer.waits[i].status.Aborted?
    case End => s.running.Some? && s.running.value < |s.entries|
  }

  function WithTimer(s: Loop, h: nat, t: Timer): Loop
    requires h < |s.entries|
  {
    s.(entries := s.entries[h := s.entries[h].(timer := t)])
  }

  /** `emplace`: an id that is there keeps its timer. */
  function Emplace(m: map<int, nat>, id: int, h: nat): map<int, nat> {
    if id in m then m else m[id := h]
  }

  ghost function Next(s: Loop, a: Step): (s': Loop)
    requires IdsOk(s) && CanStep(s, a)
    ensures IdsOk(s')
  {
    match a
    case Tick(d) => s.(now := s.now + d)
    case Create(period, loop, seed) =>
      var id := NewId(s.ids, seed);
      s.(entries := s.entries + [EntryOf(id, s.now, period, loop)],
         ids := s.ids + {id},
         registry := Emplace(s.registry, id, |s.entries|),
         probes := s.probes + SearchCost(s.ids, seed))
    case CancelById(id) =>
      if id in s.registry && s.registry[id] < |s.entries| then
        WithTimer(s, s.registry[id], Cancelled(s.entries[s.registry[id]].timer))
      else s
    case Expire(h, i) => WithTimer(s, h, Expired(s.entries[h].timer, i))
    case Begin(h, i) =>
      var e := s.entries[h];
      s.(entries := s.entries[h := e.(timer := Dequeued(e.timer, i),
                                      fired := e.fired + [Firing(e.timer.waits[i].deadline, s.now)])],
         running := Some(h))
    case Drop(h, i) => WithTimer(s, h, Dequeued(s.entries[h].timer, i))
    case End => WithTimer(s, s.running.value, Rearmed(s.entries[s.running.value].timer)).(running := None)
  }

  ghost predicate ValidRun(s: Loop, acts: seq<Step>)
    requires IdsOk(s)
    decreases |acts|
  {
    acts == [] || (CanStep(s, acts[0]) && ValidRun(Next(s, acts[0]), acts[1..]))
  }

  ghost function Run(s: Loop, acts: seq<Step>): (s': Loop)
    requires IdsOk(s) && ValidRun(s, acts)
    ensures IdsOk(s')
    decreases |acts|
  {
    if acts == [] then s else Run(Next(s, acts[0]), acts[1..])
  }

  function Empty(now: int): Loop {
    Loop(now, [], {}, map[], None, 0)
  }

  // ----- the invariant -----

  function Due(born: int, period: int, k: nat): int {
    born + k * period
  }

  /** The firings so far: the k-th belongs to deadline k, and was not early. */
  ghost predicate FiredOk(e: Entry, now: int) {
    forall k :: 0 <= k < |e.fired| ==>
      e.fired[k].deadline == Due(e.born, e.timer.period, k + 1) <= e.fired[k].at <= now
  }

  /** The state of one timer, given whether its callback is running.  At most one wait is pending,
      queued or running; exactly one for a timer that still loops. */
  ghost predicate EntryOk(e: Entry, isRunning: bool, now: int) {
    var t := e.timer;
    && FiredOk(e, now)
    && |t.waits| + (if isRunning then 1 else 0) <= 1
    && (t.loop ==> e.looping && |t.waits| + (if isRunning then 1 else 0) == 1)
    && (t.waits != [] ==>
          && t.waits[0].deadline == t.expiry == Due(e.born, t.period, |e.fired| + 1)
          && (t.waits[0].status.Ready? ==> t.expiry <= now)
          && (t.loop ==> !t.waits[0].status.Aborted?))
    && (isRunning ==> e.fired != [] && t.expiry == Due(e.born, t.period, |e.fired|))
    && (!e.looping ==> |e.fired| + |t.waits| <= 1)
  }

  ghost predicate IsRunning(s: Loop, h: nat) {
    s.running == Some(h)
  }

  /** The static tables: distinct ids, each known to both tables, each mapped to its own timer. */
  ghost predicate TablesOk(s: Loop) {
    && (forall h :: 0 <= h < |s.entries| ==> s.entries[h].timer.id in s.ids)
    && (forall h :: 0 <= h < |s.entries| ==>
          s.entries[h].timer.id in s.registry && s.registry[s.entries[h].timer.id] == h)
    && (forall id <- s.registry :: s.registry[id] < |s.entries| && s.entries[s.registry[id]].timer.id == id)
    && s.registry.Keys == s.ids
    && |s.ids| == |s.entries|
    && -1 !in s.ids
  }

  ghost predicate LoopInv(s: Loop) {
    && IdsOk(s)
    && TablesOk(s)
    && (s.running.Some? ==> s.running.value < |s.entries|)
    && forall h: nat :: h < |s.entries| ==> EntryOk(s.entries[h], IsRunning(s, h), s.now)
  }

  lemma ExpireKeepsEntry(e: Entry, i: nat, isRunning: bool, now: int)
    requires EntryOk(e, isRunning, now) && i < |e.timer.waits|
    requires e.timer.waits[i].status.Pending? && e.timer.waits[i].deadline <= now
    ensures EntryOk(e.(timer := Expired(e.timer, i)), isRunning, now)
  {
  }

  lemma BeginKeepsEntry(e: Entry, i: nat, now: int)
    requires EntryOk(e, false, now) && i < |e.timer.waits| && e.timer.waits[i].status.Ready?
    ensures EntryOk(e.(timer := Dequeued(e.timer, i), fired := e.fired + [Firing(e.timer.waits[i].deadline, now)]), true, now)
  {
  }

  lemma DropKeepsEntry(e: Entry, i: nat, isRunning: bool, now: int)
    requires EntryOk(e, isRunning, now) && i < |e.timer.waits| && e.timer.waits[i].status.Aborted?
    ensures EntryOk(e.(timer := Dequeued(e.timer, i)), isRunning, now)
  {
  }

  lemma CancelKeepsEntry(e: Entry, isRunning: bool, now: int)
    requires EntryOk(e, isRunning, now)
    ensures EntryOk(e.(timer := Cancelled(e.timer)), isRunning, now)
  {
  }

  lemma RearmKeepsEntry(e: Entry, now: int)
    requires EntryOk(e, true, now)
    ensures EntryOk(e.(timer := Rearmed(e.timer)), false, now)
  {
  }

  /** Whatever the step, each timer that was there is fine after it. */
  lemma StepOnEntry(s: Loop, a: Step, h: nat)
    requires LoopInv(s) && CanStep(s, a) && h < |s.entries|
    ensures h < |Next(s, a).entries| && EntryOk(Next(s, a).entries[h], IsRunning(Next(s, a), h), Next(s, a).now)
  {
    var e, isRunning := s.entries[h], IsRunning(s, h);
    assert EntryOk(e, isRunning, s.now);
    match a
    case Tick(_) =>
    case Create(_, _, _) => assert Next(s, a).entries[h] == e;
    case CancelById(_) => CancelKeepsEntry(e, isRunning, s.now);
    case Expire(g, i) => if g == h { ExpireKeepsEntry(e, i, isRunning, s.now); }
    case Begin(g, i) => if g == h { BeginKeepsEntry(e, i, s.now); }
    case Drop(g, i) => if g == h { DropKeepsEntry(e, i, isRunning, s.now); }
    case End => if isRunning { RearmKeepsEntry(e, s.now); }
  }

  lemma NewEntryOk(id: int, now: int, period: int, loop: bool)
    ensures EntryOk(EntryOf(id, now, period, loop), false, now)
  {
  }

  lemma SameIdsKeepTables(s: Loop, s': Loop)
    requires TablesOk(s) && s'.ids == s.ids && s'.registry == s.registry && |s'.entries| == |s.entries|
    requires forall h :: 0 <= h < |s.entries| ==> s'.entries[h].timer.id == s.entries[h].timer.id
    ensures TablesOk(s')
  {
  }

  /** A new id is in neither table, so `emplace` in `retain` always inserts. */
  lemma CreateKeepsTables(s: Loop, e: Entry)
    requires TablesOk(s) && e.timer.id !in s.ids && e.timer.id != -1
    ensures e.timer.id !in s.registry
    ensures TablesOk(s.(entries := s.entries + [e], ids := s.ids + {e.timer.id},
                        registry := Emplace(s.registry, e.timer.id, |s.entries|)))
  {
  }

  lemma StepKeepsTables(s: Loop, a: Step)
    requires LoopInv(s) && CanStep(s, a)
    ensures TablesOk(Next(s, a))
  {
    if a.Create? {
      CreateKeepsTables(s, EntryOf(NewId(s.ids, a.seed), s.now, a.period, a.loop));
    } else {
      SameIdsKeepTables(s, Next(s, a));
    }
  }

  lemma EntryAfterStep(s: Loop, a: Step, h: nat)
    requires LoopInv(s) && CanStep(s, a) && h < |Next(s, a).entries|
    ensures EntryOk(Next(s, a).entries[h], IsRunning(Next(s, a), h), Next(s, a).now)
  {
    if h < |s.entries| {
      StepOnEntry(s, a, h);
    } else {
      NewEntryOk(NewId(s.ids, a.seed), s.now, a.period, a.loop);
    }
  }

  lemma StepKeepsInv(s: Loop, a: Step)
    requires LoopInv(s) && CanStep(s, a)
    ensures LoopInv(Next(s, a))
  {
    var s' := Next(s, a);
    StepKeepsTables(s, a);
    forall h: nat | h < |s'.entries|
      ensures EntryOk(s'.entries[h], IsRunning(s', h), s'.now)
    {
      EntryAfterStep(s, a, h);
    }
  }

  lemma {:induction false} RunKeepsInv(s: Loop, acts: seq<Step>)
    requires LoopInv(s) && ValidRun(s, acts)
    ensures LoopInv(Run(s, acts))
    decreases |acts|
  {
    if acts != [] {
      StepKeepsInv(s, acts[0]);
      RunKeepsInv(Next(s, acts[0]), acts[1..]);
    }
  }
}
