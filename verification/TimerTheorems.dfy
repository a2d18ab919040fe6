/** What holds over every run of the event loop with timers. */
module TimerTheorems {
  import opened Ids
  import opened Timers

  // ----- every reachable state -----

  lemma ReachableInv(now: int, acts: seq<Step>)
    requires ValidRun(Empty(now), acts)
    ensures LoopInv(Run(Empty(now), acts))
  {
    RunKeepsInv(Empty(now), acts);
  }

  /** At most one wait of a timer is pending, queued or running; a timer that still loops has exactly
      one; and a timer created without looping runs its callback at most once. */
  lemma OneWaitPerTimer(now: int, acts: seq<Step>, h: nat)
    requires ValidRun(Empty(now), acts) && h < |Run(Empty(now), acts).entries|
    ensures var s := Run(Empty(now), acts); var e := s.entries[h];
      && |e.timer.waits| + (if IsRunning(s, h) then 1 else 0) <= 1
      && (e.timer.loop ==> |e.timer.waits| + (if IsRunning(s, h) then 1 else 0) == 1)
      && (!e.looping ==> |e.fired| <= 1)
  {
    ReachableInv(now, acts);
    assert EntryOk(Run(Empty(now), acts).entries[h], IsRunning(Run(Empty(now), acts), h), Run(Empty(now), acts).now);
  }

  /** Drift-free timing: the k-th callback (from 1) belongs to the k-th multiple of the period after
      the creation and never runs before it, however late the earlier ones ran. */
  lemma DriftFree(now: int, acts: seq<Step>, h: nat, k: nat)
    requires ValidRun(Empty(now), acts) && h < |Run(Empty(now), acts).entries|
    requires 1 <= k <= |Run(Empty(now), acts).entries[h].fired|
    ensures var e := Run(Empty(now), acts).entries[h];
      e.fired[k - 1].deadline == e.born + k * e.timer.period <= e.fired[k - 1].at
  {
    ReachableInv(now, acts);
    assert EntryOk(Run(Empty(now), acts).entries[h], IsRunning(Run(Empty(now), acts), h), Run(Empty(now), acts).now);
  }

  /** So a timer has never run its callback more often than whole periods have passed. */
  lemma NoMoreThanElapsed(now: int, acts: seq<Step>, h: nat)
    requires ValidRun(Empty(now), acts) && h < |Run(Empty(now), acts).entries|
    requires Run(Empty(now), acts).entries[h].fired != []
    ensures var s := Run(Empty(now), acts); var e := s.entries[h];
      |e.fired| * e.timer.period <= s.now - e.born
  {
    var s := Run(Empty(now), acts);
    DriftFree(now, acts, h, |s.entries[h].fired|);
    ReachableInv(now, acts);
    assert EntryOk(s.entries[h], IsRunning(s, h), s.now);
  }

  /** What a step never changes in an existing timer. */
  ghost predicate Grows(e: Entry, e': Entry) {
    && e'.born == e.born && e'.looping == e.looping
    && e'.timer.id == e.timer.id && e'.timer.period == e.timer.period
    && e.fired <= e'.fired
    && (e'.timer.loop ==> e.timer.loop)
  }

  lemma StepGrows(s: Loop, a: Step, h: nat)
    requires LoopInv(s) && CanStep(s, a) && h < |s.entries|
    ensures h < |Next(s, a).entries| && Grows(s.entries[h], Next(s, a).entries[h])
    ensures s.ids <= Next(s, a).ids
  {
  }

  lemma {:induction false} RunGrows(s: Loop, acts: seq<Step>, h: nat)
    requires LoopInv(s) && ValidRun(s, acts) && h < |s.entries|
    ensures h < |Run(s, acts).entries| && Grows(s.entries[h], Run(s, acts).entries[h])
    ensures s.ids <= Run(s, acts).ids
    decreases |acts|
  {
    if acts != [] {
      StepGrows(s, acts[0], h);
      StepKeepsInv(s, acts[0]);
      RunGrows(Next(s, acts[0]), acts[1..], h);
    }
  }

  lemma CreateAppends(s: Loop, period: int, loop: bool, seed: int) returns (s1: Loop)
    requires LoopInv(s) && CanStep(s, Create(period, loop, seed))
    ensures s1 == Next(s, Create(period, loop, seed)) && LoopInv(s1)
    ensures s1.entries == s.entries + [EntryOf(NewId(s.ids, seed), s.now, period, loop)]
    ensures s1.ids == s.ids + {NewId(s.ids, seed)} && s1.now == s.now && s1.running == s.running
    ensures s1.probes == s.probes + SearchCost(s.ids, seed)
  {
    s1 := Next(s, Create(period, loop, seed));
    StepKeepsInv(s, Create(period, loop, seed));
  }

  /** What an entry was created with it keeps in every continuation. */
  lemma EntryKept(s: Loop, acts: seq<Step>, h: nat, e: Entry)
    requires LoopInv(s) && ValidRun(s, acts) && h < |s.entries| && s.entries[h] == e
    ensures h < |Run(s, acts).entries|
    ensures Run(s, acts).entries[h].born == e.born && Run(s, acts).entries[h].looping == e.looping
    ensures Run(s, acts).entries[h].timer.period == e.timer.period
  {
    RunGrows(s, acts, h);
  }

  /** The time of birth that DriftFree counts from is the clock of the loop at the creation, the
      first deadline is one period later, and both stay what they were in every continuation. */
  lemma BornAtCreation(s: Loop, period: int, loop: bool, seed: int, s1: Loop, acts: seq<Step>)
    requires LoopInv(s) && CanStep(s, Create(period, loop, seed)) && s1 == Next(s, Create(period, loop, seed))
    requires ValidRun(s1, acts)
    ensures |s.entries| < |s1.entries| && |s.entries| < |Run(s1, acts).entries|
    ensures s1.entries[|s.entries|].timer.waits == [Wait(s.now + period, Pending)]
    ensures s1.entries[|s.entries|].timer.loop == loop && s1.entries[|s.entries|].fired == []
    ensures Run(s1, acts).entries[|s.entries|].born == s.now
    ensures Run(s1, acts).entries[|s.entries|].timer.period == period
    ensures Run(s1, acts).entries[|s.entries|].looping == loop
  {
    var s2 := CreateAppends(s, period, loop, seed);
    NewWait(NewId(s.ids, seed), s.now, period, loop);
    EntryKept(s2, acts, |s.entries|, EntryOf(NewId(s.ids, seed), s.now, period, loop));
  }

  /** Timer identity: whatever the counters start at, ids are pairwise distinct, the registry sends
      each id to its timer and nothing else, and every timer with an outstanding wait is in it. */
  lemma IdsIdentify(now: int, acts: seq<Step>, g: nat, h: nat)
    requires ValidRun(Empty(now), acts)
    requires g < |Run(Empty(now), acts).entries| && h < |Run(Empty(now), acts).entries|
    ensures var s := Run(Empty(now), acts);
      && (s.entries[g].timer.id == s.entries[h].timer.id <==> g == h)
      && s.entries[h].timer.id in s.registry && s.registry[s.entries[h].timer.id] == h
      && |s.registry| == |s.entries|
  {
    ReachableInv(now, acts);
    var s := Run(Empty(now), acts);
    assert |s.registry.Keys| == |s.ids|;
  }

  lemma {:induction false} UnsignedSize(ids: set<int>)
    requires forall i <- ids :: IsInt(i)
    ensures |Unsigned(ids)| == |ids|
    decreases |ids|
  {
    if ids == {} {
      assert Unsigned(ids) == {};
    } else {
      var i := PickOne(ids);
      var rest := ids - {i};
      UnsignedSize(rest);
      forall u | u in Unsigned(rest)
        ensures u != ToUnsigned(i)
      {
        var j :| j in rest && ToUnsigned(j) == u;
        assert j == ToSigned(u);
      }
      assert Unsigned(ids) == Unsigned(rest) + {ToUnsigned(i)};
    }
  }

  /** In a state with fewer than 2^32 - 1 timers, and in no other, the search of a new one ends. */
  lemma CanCreateIff(s: Loop, period: int, loop: bool, seed: int)
    requires LoopInv(s) && IsInt(seed)
    ensures CanStep(s, Create(period, loop, seed)) <==> |s.entries| < IDS
  {
    forall u | u in Unsigned(s.ids)
      ensures u in Below(IDS)
    {
      var i :| i in s.ids && ToUnsigned(i) == u && IsInt(i);
      assert u != IDS;
    }
    UnsignedSize(s.ids);
    SomeFreeIff(Unsigned(s.ids));
  }

  /** Ids are never given back, also not by `cancel`: in every reachable state a new timer can be
      constructed (its `uuid` ends) if and only if fewer than 2^32 - 1 were ever created. */
  lemma CreationEndsIff(now: int, acts: seq<Step>, period: int, loop: bool, seed: int)
    requires ValidRun(Empty(now), acts) && IsInt(seed)
    ensures CanStep(Run(Empty(now), acts), Create(period, loop, seed)) <==> |Run(Empty(now), acts).entries| < 0xFFFF_FFFF
  {
    ReachableInv(now, acts);
    CanCreateIff(Run(Empty(now), acts), period, loop, seed);
  }

  lemma {:induction false} CanCreateMany(s: Loop, n: nat) returns (acts: seq<Step>)
    requires LoopInv(s) && |s.entries| + n <= IDS
    ensures |acts| == n && ValidRun(s, acts) && |Run(s, acts).entries| == |s.entries| + n
    decreases n
  {
    if n == 0 {
      acts := [];
    } else {
      CanCreateIff(s, 1, true, 0);
      var s1 := CreateAppends(s, 1, true, 0);
      var more := CanCreateMany(s1, n - 1);
      RunCons(s, Create(1, true, 0), more);
      acts := [Create(1, true, 0)] + more;
    }
  }

  /** The ids do run out: a state in which no timer can be constructed any more is reachable. */
  lemma IdsRunOut(now: int) returns (acts: seq<Step>)
    ensures ValidRun(Empty(now), acts) && |Run(Empty(now), acts).entries| == 0xFFFF_FFFF
    ensures forall period, loop, seed | IsInt(seed) ::
      !CanStep(Run(Empty(now), acts), Create(period, loop, seed))
  {
    acts := CanCreateMany(Empty(now), IDS);
    forall period, loop, seed | IsInt(seed)
      ensures !CanStep(Run(Empty(now), acts), Create(period, loop, seed))
    {
      CreationEndsIff(now, acts, period, loop, seed);
    }
  }

  // ----- what the constructions cost -----

  lemma CreateCostBound(s: Loop, a: Step)
    requires LoopInv(s) && CanStep(s, a) && a.Create?
    ensures SearchCost(s.ids, a.seed) <= |s.entries| + 2
  {
    UnsignedSize(s.ids);
    MissesBound(Unsigned(s.ids), ToUnsigned(a.seed));
  }

  lemma CreateCosts(s: Loop, a: Step)
    requires LoopInv(s) && CanStep(s, a) && a.Create?
    ensures Next(s, a).probes == s.probes + SearchCost(s.ids, a.seed)
    ensures |Next(s, a).entries| == |s.entries| + 1
  {
  }

  lemma OthersCreateNothing(s: Loop, a: Step)
    requires LoopInv(s) && CanStep(s, a) && !a.Create?
    ensures |Next(s, a).entries| == |s.entries| && Next(s, a).probes == s.probes
  {
  }

  /** Twice the most that the constructions of n timers can cost. */
  function Budget(n: nat): nat {
    n * (n + 3)
  }

  lemma BudgetNext(n: nat)
    ensures Budget(n + 1) == Budget(n) + 2 * (n + 2)
  {
  }

  lemma StepWithinBudget(s: Loop, a: Step)
    requires LoopInv(s) && CanStep(s, a) && 2 * s.probes <= Budget(|s.entries|)
    ensures 2 * Next(s, a).probes <= Budget(|Next(s, a).entries|)
  {
    if a.Create? {
      CreateCostBound(s, a);
      CreateCosts(s, a);
      BudgetNext(|s.entries|);
    } else {
      OthersCreateNothing(s, a);
    }
  }

  lemma {:induction false} RunWithinBudget(s: Loop, acts: seq<Step>)
    requires LoopInv(s) && ValidRun(s, acts) && 2 * s.probes <= Budget(|s.entries|)
    ensures 2 * Run(s, acts).probes <= Budget(|Run(s, acts).entries|)
    decreases |acts|
  {
    if acts != [] {
      StepWithinBudget(s, acts[0]);
      StepKeepsInv(s, acts[0]);
      RunWithinBudget(Next(s, acts[0]), acts[1..]);
    }
  }

  /** In every run, whatever the counters start at and whatever else happens, the constructions of n
      timers together make at most n (n + 3) / 2 probes. */
  lemma ProbesAreBounded(now: int, acts: seq<Step>)
    requires ValidRun(Empty(now), acts)
    ensures var s := Run(Empty(now), acts); 2 * s.probes <= |s.entries| * (|s.entries| + 3)
  {
    RunWithinBudget(Empty(now), acts);
  }

  /** A search from 0 with the ids 0..k-1 taken gives the id k. */
  lemma SeedZeroGivesNext(ids: set<int>, k: nat)
    requires Unsigned(ids) == Below(k) && k < 0x8000_0000
    ensures SomeFree(Unsigned(ids)) && NewId(ids, 0) == k
    ensures Unsigned(ids + {k}) == Below(k + 1)
  {
    SearchFromZero(k);
    forall u | u in Below(k + 1)
      ensures u in Unsigned(ids + {k})
    {
      if u == k {
        assert k in ids + {k} && ToUnsigned(k) == k;
      } else {
        assert u in Unsigned(ids);
        var i :| i in ids && IsInt(i) && ToUnsigned(i) == u;
        assert i in ids + {k};
      }
    }
    forall u | u in Unsigned(ids + {k})
      ensures u in Below(k + 1)
    {
      var i :| i in ids + {k} && IsInt(i) && ToUnsigned(i) == u;
      if i in ids {
        assert u in Unsigned(ids);
      }
    }
  }

  ghost predicate CreationsFromZero(acts: seq<Step>) {
    forall a <- acts :: a.Create? && a.seed == 0
  }

  /** 1 + 2 + ... + n */
  function Triangular(n: nat): nat {
    if n == 0 then 0 else n + Triangular(n - 1)
  }

  lemma {:induction false} TriangularIs(n: nat)
    ensures 2 * Triangular(n) == n * (n + 1)
  {
    if n != 0 {
      TriangularIs(n - 1);
    }
  }

  /** The timers have the ids 0, 1, 2, ... in the order of their construction, and the k-th of them
      has cost k probes. */
  ghost predicate CountedUp(s: Loop) {
    && Unsigned(s.ids) == Below(|s.entries|)
    && s.probes == Triangular(|s.entries|)
    && forall i :: 0 <= i < |s.entries| ==> s.entries[i].timer.id == i
  }

  lemma CountedUpSnoc(s: Loop, s1: Loop, e: Entry)
    requires CountedUp(s) && s1.entries == s.entries + [e] && e.timer.id == |s.entries|
    requires Unsigned(s1.ids) == Below(|s.entries| + 1) && s1.probes == s.probes + |s.entries| + 1
    ensures CountedUp(s1)
  {
  }

  lemma CreateCountsUp(s: Loop, a: Step)
    requires LoopInv(s) && CountedUp(s) && |s.entries| < 0x8000_0000
    requires a.Create? && a.seed == 0
    ensures CanStep(s, a)
    ensures LoopInv(Next(s, a)) && CountedUp(Next(s, a)) && |Next(s, a).entries| == |s.entries| + 1
  {
    SeedZeroGivesNext(s.ids, |s.entries|);
    SearchFromZero(|s.entries|);
    var s1 := CreateAppends(s, a.period, a.loop, 0);
    CountedUpSnoc(s, s1, EntryOf(|s.entries|, s.now, a.period, a.loop));
  }

  lemma {:induction false} IdsCountUp(s: Loop, acts: seq<Step>)
    requires LoopInv(s) && CountedUp(s)
    requires CreationsFromZero(acts) && |s.entries| + |acts| <= 0x8000_0000
    ensures ValidRun(s, acts) && CountedUp(Run(s, acts))
    ensures |Run(s, acts).entries| == |s.entries| + |acts|
    decreases |acts|
  {
    if acts != [] {
      assert acts[0] in acts;
      CreateCountsUp(s, acts[0]);
      IdsCountUp(Next(s, acts[0]), acts[1..]);
    }
  }

  lemma EmptyCountsUp(now: int)
    ensures LoopInv(Empty(now)) && CountedUp(Empty(now))
  {
    assert Unsigned({}) == Below(0);
  }

  /** Probe arithmetic: the constructions of n timers, n at most 2^31, whose counters all start at 0
      give the ids 0..n-1 and make exactly n (n + 1) / 2 probes. */
  lemma ConstructionsAreQuadratic(now: int, acts: seq<Step>)
    requires CreationsFromZero(acts) && |acts| <= 0x8000_0000
    ensures ValidRun(Empty(now), acts) && |Run(Empty(now), acts).entries| == |acts|
    ensures forall k :: 0 <= k < |acts| ==> Run(Empty(now), acts).entries[k].timer.id == k
    ensures 2 * Run(Empty(now), acts).probes == |acts| * (|acts| + 1)
  {
    EmptyCountsUp(now);
    IdsCountUp(Empty(now), acts);
    TriangularIs(|acts|);
  }

  // ----- cancellation -----

  /** `cancelById` changes the timer that returned the id and nothing else; an unknown id does
      nothing. */
  lemma CancelIsLocal(s: Loop, id: int, g: nat)
    requires LoopInv(s) && g < |s.entries|
    ensures var s' := Next(s, CancelById(id));
      && s'.now == s.now && s'.ids == s.ids && s'.registry == s.registry && s'.running == s.running
      && |s'.entries| == |s.entries|
      && s'.entries[g].fired == s.entries[g].fired
      && (s.entries[g].timer.id != id ==> s'.entries[g] == s.entries[g])
      && (s.entries[g].timer.id == id ==> s'.entries[g].timer == Cancelled(s.entries[g].timer))
  {
  }

  /** The callbacks a timer that no longer loops has run or can still run. */
  ghost function Potential(e: Entry): nat {
    |e.fired| + (if e.timer.waits != [] && !e.timer.waits[0].status.Aborted? then 1 else 0)
  }

  lemma PotentialFalls(s: Loop, a: Step, h: nat)
    requires LoopInv(s) && CanStep(s, a) && h < |s.entries| && !s.entries[h].timer.loop
    ensures h < |Next(s, a).entries| && !Next(s, a).entries[h].timer.loop
    ensures Potential(Next(s, a).entries[h]) <= Potential(s.entries[h])
  {
    StepGrows(s, a, h);
    assert EntryOk(s.entries[h], IsRunning(s, h), s.now);
    if a.Create? {
      assert Next(s, a).entries[h] == s.entries[h];
    }
  }

  lemma {:induction false} NoMoreThanPotential(s: Loop, acts: seq<Step>, h: nat)
    requires LoopInv(s) && ValidRun(s, acts) && h < |s.entries| && !s.entries[h].timer.loop
    ensures h < |Run(s, acts).entries| && |Run(s, acts).entries[h].fired| <= Potential(s.entries[h])
    decreases |acts|
  {
    if acts != [] {
      PotentialFalls(s, acts[0], h);
      StepKeepsInv(s, acts[0]);
      NoMoreThanPotential(Next(s, acts[0]), acts[1..], h);
    }
  }

  /** The success completion of the timer is already in the queue. */
  ghost predicate AlreadyQueued(s: Loop, h: nat)
    requires h < |s.entries|
  {
    s.entries[h].timer.waits != [] && s.entries[h].timer.waits[0].status.Ready?
  }

  /** Cancellation, over all continuations: after `cancel` the callback runs at most once more, and
      not at all unless its completion was already queued - in particular not when the wait was
      still pending, and not when the timer was cancelled from its own callback. */
  lemma CancelBound(s: Loop, h: nat, acts: seq<Step>)
    requires LoopInv(s) && h < |s.entries|
    requires ValidRun(Next(s, CancelById(s.entries[h].timer.id)), acts)
    ensures var s' := Run(Next(s, CancelById(s.entries[h].timer.id)), acts);
      && h < |s'.entries|
      && |s'.entries[h].fired| <= |s.entries[h].fired| + (if AlreadyQueued(s, h) then 1 else 0)
      && (IsRunning(s, h) ==> |s'.entries[h].fired| <= |s.entries[h].fired|)
  {
    var c := CancelById(s.entries[h].timer.id);
    assert EntryOk(s.entries[h], IsRunning(s, h), s.now);
    StepKeepsInv(s, c);
    NoMoreThanPotential(Next(s, c), acts, h);
  }

  ghost predicate FiresAgain(s: Loop, h: nat, n: nat, acts: seq<Step>)
    requires IdsOk(s)
  {
    ValidRun(s, acts) && h < |Run(s, acts).entries| && n < |Run(s, acts).entries[h].fired|
  }

  /** The race is real: a callback after `cancel` is possible exactly when the completion was queued. */
  lemma CancelRaceIff(s: Loop, h: nat)
    requires LoopInv(s) && h < |s.entries|
    ensures (exists acts :: FiresAgain(Next(s, CancelById(s.entries[h].timer.id)), h, |s.entries[h].fired|, acts))
       <==> AlreadyQueued(s, h)
  {
    var c := Next(s, CancelById(s.entries[h].timer.id));
    var n := |s.entries[h].fired|;
    StepKeepsInv(s, CancelById(s.entries[h].timer.id));
    forall acts | FiresAgain(c, h, n, acts)
      ensures AlreadyQueued(s, h)
    {
      CancelBound(s, h, acts);
    }
    if AlreadyQueued(s, h) {
      QueuedCanFire(c, h);
    }
  }

  lemma RunOne(s: Loop, a: Step)
    requires IdsOk(s) && CanStep(s, a)
    ensures ValidRun(s, [a]) && Run(s, [a]) == Next(s, a)
  {
  }

  lemma RunCons(s: Loop, a: Step, rest: seq<Step>)
    requires IdsOk(s) && CanStep(s, a) && ValidRun(Next(s, a), rest)
    ensures ValidRun(s, [a] + rest) && Run(s, [a] + rest) == Run(Next(s, a), rest)
  {
  }

  /** Once any other callback has returned, the queued handler can run. */
  lemma QueuedCanFire(s: Loop, h: nat)
    requires LoopInv(s) && h < |s.entries| && AlreadyQueued(s, h)
    ensures exists acts :: FiresAgain(s, h, |s.entries[h].fired|, acts)
  {
    assert EntryOk(s.entries[h], IsRunning(s, h), s.now);
    if s.running.None? {
      RunOne(s, Begin(h, 0));
      assert FiresAgain(s, h, |s.entries[h].fired|, [Begin(h, 0)]);
    } else {
      var s1 := Next(s, End);
      assert s1.entries[h] == s.entries[h];
      RunOne(s1, Begin(h, 0));
      RunCons(s, End, [Begin(h, 0)]);
      assert FiresAgain(s, h, |s.entries[h].fired|, [End] + [Begin(h, 0)]);
    }
  }

  lemma EmptyIsValid(now: int)
    ensures LoopInv(Empty(now))
  {
  }

  lemma FirstWait(now: int, period: int, loop: bool, seed: int) returns (s: Loop)
    requires IsInt(seed)
    ensures CanStep(Empty(now), Create(period, loop, seed))
    ensures s == Next(Empty(now), Create(period, loop, seed)) && LoopInv(s)
    ensures |s.entries| == 1 && s.entries[0].timer.waits == [Wait(now + period, Pending)]
    ensures s.now == now && s.running.None?
  {
    EmptyIsValid(now);
    CanCreateIff(Empty(now), period, loop, seed);
    s := CreateAppends(Empty(now), period, loop, seed);
    NewWait(NewId({}, seed), now, period, loop);
  }

  lemma NewWait(id: int, now: int, period: int, loop: bool)
    ensures EntryOf(id, now, period, loop).timer.waits == [Wait(now + period, Pending)]
  {
  }

  lemma DueIsQueued(s: Loop, d: nat, period: int)
    requires LoopInv(s) && |s.entries| == 1 && s.entries[0].timer.waits == [Wait(s.now + period, Pending)]
    requires period <= d
    ensures CanStep(Next(s, Tick(d)), Expire(0, 0))
    ensures var s' := Next(Next(s, Tick(d)), Expire(0, 0));
      && LoopInv(s') && |s'.entries| == 1 && AlreadyQueued(s', 0)
      && s'.entries[0].timer.id == s.entries[0].timer.id
  {
    StepKeepsInv(s, Tick(d));
    StepKeepsInv(Next(s, Tick(d)), Expire(0, 0));
  }

  lemma RaceSetUp(now: int, period: int, loop: bool, seed: int) returns (acts: seq<Step>)
    requires IsInt(seed)
    ensures ValidRun(Empty(now), acts) && LoopInv(Run(Empty(now), acts))
    ensures |Run(Empty(now), acts).entries| == 1 && AlreadyQueued(Run(Empty(now), acts), 0)
  {
    var s1 := FirstWait(now, period, loop, seed);
    var d := if period <= 0 then 0 else period;
    DueIsQueued(s1, d, period);
    RunOne(Next(s1, Tick(d)), Expire(0, 0));
    RunCons(s1, Tick(d), [Expire(0, 0)]);
    RunCons(Empty(now), Create(period, loop, seed), [Tick(d)] + [Expire(0, 0)]);
    acts := [Create(period, loop, seed)] + ([Tick(d)] + [Expire(0, 0)]);
  }

  /** The race does happen: any timer at all, on an otherwise empty loop, can come due and be
      cancelled before its handler runs, and its callback then runs once more. */
  lemma CancelRaceHappens(now: int, period: int, loop: bool, seed: int)
      returns (acts: seq<Step>, more: seq<Step>)
    requires IsInt(seed)
    ensures ValidRun(Empty(now), acts) && |Run(Empty(now), acts).entries| == 1
    ensures AlreadyQueued(Run(Empty(now), acts), 0)
    ensures var s := Run(Empty(now), acts);
      FiresAgain(Next(s, CancelById(s.entries[0].timer.id)), 0, |s.entries[0].fired|, more)
  {
    acts := RaceSetUp(now, period, loop, seed);
    var s := Run(Empty(now), acts);
    CancelRaceIff(s, 0);
    more :| FiresAgain(Next(s, CancelById(s.entries[0].timer.id)), 0, |s.entries[0].fired|, more);
  }
}
