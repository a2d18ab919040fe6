/** When `run()` comes to an end: a finite set of timers, each looping one cancelled by its own n-th
    callback (as in examples/example_timer.lua, n = 6), drains after a bounded number of handlers. */
module Drain {
  import opened Timers
  import opened TimerTheorems

  /** What the callbacks do: the only cancellation is the one of a timer by its own callback number
      `quota[h]`; that callback does not return without it; and no timer is created. */
  ghost predicate Obeys(s: Loop, quota: seq<nat>, a: Step)
    requires IdsOk(s)
  {
    && CanStep(s, a)
    && match a
       case Create(_, _, _) => false
       case CancelById(id) =>
         && s.running.Some? && s.running.value < |s.entries| && s.running.value < |quota|
         && var e := s.entries[s.running.value];
            e.timer.id == id && e.timer.loop && |e.fired| == quota[s.running.value]
       case End =>
         && s.running.value < |quota|
         && var e := s.entries[s.running.value]; e.timer.loop ==> |e.fired| < quota[s.running.value]
       case _ => true
  }

  ghost predicate ObeyingRun(s: Loop, quota: seq<nat>, acts: seq<Step>)
    requires IdsOk(s)
    ensures ObeyingRun(s, quota, acts) ==> ValidRun(s, acts)
    decreases |acts|
  {
    acts == [] || (Obeys(s, quota, acts[0]) && ObeyingRun(Next(s, acts[0]), quota, acts[1..]))
  }

  /** A set of timers that have just been created. */
  ghost predicate JustCreated(s: Loop, quota: seq<nat>) {
    && LoopInv(s) && s.running.None? && |quota| == |s.entries|
    && forall h: nat :: h < |s.entries| ==>
         var e := s.entries[h];
         && e.fired == [] && e.timer.waits != [] && !e.timer.waits[0].status.Aborted?
         && e.timer.loop == e.looping && 1 <= quota[h] && (!e.looping ==> quota[h] == 1)
  }

  /** A timer with nothing outstanding has run its callback exactly `q` times. */
  ghost predicate OnQuota(e: Entry, q: nat, isRunning: bool) {
    && |e.fired| <= q
    && (e.timer.waits != [] ==> |e.fired| < q && !e.timer.waits[0].status.Aborted?)
    && (e.timer.waits == [] && !(isRunning && e.timer.loop) ==> |e.fired| == q)
    && (!e.looping ==> q == 1)
    && (!e.timer.loop && e.looping ==> e.timer.waits == [])
  }

  ghost predicate DrainInv(s: Loop, quota: seq<nat>) {
    && LoopInv(s) && |quota| == |s.entries|
    && forall h: nat :: h < |s.entries| ==> OnQuota(s.entries[h], quota[h], IsRunning(s, h))
  }

  /** Such a set is what constructions before `run()` give: from the empty loop, one by one. */
  lemma CreationExtends(s: Loop, quota: seq<nat>, period: int, loop: bool, seed: int, q: nat)
    requires JustCreated(s, quota) && CanStep(s, Create(period, loop, seed))
    requires 1 <= q && (!loop ==> q == 1)
    ensures JustCreated(Empty(s.now), [])
    ensures JustCreated(Next(s, Create(period, loop, seed)), quota + [q])
  {
    EmptyIsValid(s.now);
    var s1 := CreateAppends(s, period, loop, seed);
    NewWait(NewId(s.ids, seed), s.now, period, loop);
    assert |s1.entries| == |quota + [q]|;
  }

  lemma CreatedStarts(s: Loop, quota: seq<nat>)
    requires JustCreated(s, quota)
    ensures DrainInv(s, quota)
  {
  }

  lemma StepOnQuota(s: Loop, quota: seq<nat>, a: Step, h: nat)
    requires DrainInv(s, quota) && Obeys(s, quota, a) && h < |s.entries|
    ensures h < |Next(s, a).entries| && OnQuota(Next(s, a).entries[h], quota[h], IsRunning(Next(s, a), h))
  {
    var e := s.entries[h];
    assert OnQuota(e, quota[h], IsRunning(s, h));
    assert EntryOk(e, IsRunning(s, h), s.now);
  }

  lemma StepKeepsDrainInv(s: Loop, quota: seq<nat>, a: Step)
    requires DrainInv(s, quota) && Obeys(s, quota, a)
    ensures DrainInv(Next(s, a), quota)
  {
    StepKeepsInv(s, a);
    forall h: nat | h < |s.entries|
      ensures OnQuota(Next(s, a).entries[h], quota[h], IsRunning(Next(s, a), h))
    {
      StepOnQuota(s, quota, a, h);
    }
    assert |Next(s, a).entries| == |s.entries|;
  }

  // ----- the termination measure -----

  ghost function Weight(e: Entry, q: nat, isRunning: bool): int {
    5 * (q - |e.fired|)
    + (if e.timer.waits != [] && e.timer.waits[0].status.Pending? then 1 else 0)
    + (if !isRunning then 0 else if e.timer.loop then 3 else 2)
  }

  ghost function Total(s: Loop, quota: seq<nat>, n: nat): int
    requires n <= |s.entries| && n <= |quota|
  {
    if n == 0 then 0
    else Total(s, quota, n - 1) + Weight(s.entries[n - 1], quota[n - 1], IsRunning(s, n - 1))
  }

  /** The one timer whose state a step changes. */
  ghost function Subject(s: Loop, a: Step): nat
    requires s.running.Some? || (!a.End? && !a.CancelById?)
  {
    match a
    case Expire(h, _) => h
    case Begin(h, _) => h
    case Drop(h, _) => h
    case End => s.running.value
    case CancelById(_) => s.running.value
    case _ => 0
  }

  lemma WeightFalls(s: Loop, quota: seq<nat>, a: Step)
    requires DrainInv(s, quota) && Obeys(s, quota, a) && !a.Tick?
    ensures var h := Subject(s, a); var s' := Next(s, a);
      && h < |s.entries| && |s'.entries| == |s.entries|
      && Weight(s'.entries[h], quota[h], IsRunning(s', h)) < Weight(s.entries[h], quota[h], IsRunning(s, h))
  {
  }

  lemma OthersKeepWeight(s: Loop, quota: seq<nat>, a: Step, h: nat)
    requires DrainInv(s, quota) && Obeys(s, quota, a)
    requires h < |s.entries| && (a.Tick? || h != Subject(s, a))
    ensures var s' := Next(s, a);
      && |s'.entries| == |s.entries|
      && Weight(s'.entries[h], quota[h], IsRunning(s', h)) == Weight(s.entries[h], quota[h], IsRunning(s, h))
  {
  }

  /** One entry of the sum: it falls if the step is its own, and stays otherwise. */
  lemma OneWeight(s: Loop, quota: seq<nat>, a: Step, h: nat)
    requires DrainInv(s, quota) && Obeys(s, quota, a) && h < |s.entries|
    ensures |Next(s, a).entries| == |s.entries|
    ensures Weight(Next(s, a).entries[h], quota[h], IsRunning(Next(s, a), h)) + (if !a.Tick? && Subject(s, a) == h then 1 else 0)
         <= Weight(s.entries[h], quota[h], IsRunning(s, h))
  {
    if !a.Tick? && Subject(s, a) == h {
      WeightFalls(s, quota, a);
    } else {
      OthersKeepWeight(s, quota, a, h);
    }
  }

  lemma {:induction false} TotalFalls(s: Loop, quota: seq<nat>, a: Step, n: nat)
    requires DrainInv(s, quota) && Obeys(s, quota, a) && n <= |s.entries|
    ensures |Next(s, a).entries| == |s.entries|
    ensures Total(Next(s, a), quota, n) + (if !a.Tick? && Subject(s, a) < n then 1 else 0) <= Total(s, quota, n)
  {
    OneEntry(s, quota, a);
    if n != 0 {
      TotalFalls(s, quota, a, n - 1);
      OneWeight(s, quota, a, n - 1);
    }
  }

  lemma OneEntry(s: Loop, quota: seq<nat>, a: Step)
    requires DrainInv(s, quota) && Obeys(s, quota, a)
    ensures |Next(s, a).entries| == |s.entries|
  {
  }

  lemma {:induction false} TotalNonNegative(s: Loop, quota: seq<nat>, n: nat)
    requires DrainInv(s, quota) && n <= |s.entries|
    ensures 0 <= Total(s, quota, n)
  {
    if n != 0 {
      TotalNonNegative(s, quota, n - 1);
      assert OnQuota(s.entries[n - 1], quota[n - 1], IsRunning(s, n - 1));
    }
  }

  ghost function Handlers(acts: seq<Step>): nat {
    if acts == [] then 0 else (if acts[0].Tick? then 0 else 1) + Handlers(acts[1..])
  }

  ghost function Measure(s: Loop, quota: seq<nat>): (m: nat)
    requires DrainInv(s, quota)
  {
    TotalNonNegative(s, quota, |s.entries|);
    Total(s, quota, |s.entries|)
  }

  lemma MeasureFalls(s: Loop, quota: seq<nat>, a: Step)
    requires DrainInv(s, quota) && Obeys(s, quota, a)
    ensures DrainInv(Next(s, a), quota)
    ensures Measure(Next(s, a), quota) + (if a.Tick? then 0 else 1) <= Measure(s, quota)
  {
    StepKeepsDrainInv(s, quota, a);
    TotalFalls(s, quota, a, |s.entries|);
    if !a.Tick? {
      WeightFalls(s, quota, a);
    }
  }

  /** Apart from the passing of time there is only a bounded number of steps: the loop cannot spin. */
  lemma {:induction false} StepsAreBounded(s: Loop, quota: seq<nat>, acts: seq<Step>)
    requires DrainInv(s, quota) && ObeyingRun(s, quota, acts)
    ensures DrainInv(Run(s, acts), quota)
    ensures Measure(Run(s, acts), quota) + Handlers(acts) <= Measure(s, quota)
    decreases |acts|
  {
    if acts != [] {
      MeasureFalls(s, quota, acts[0]);
      StepsAreBounded(Next(s, acts[0]), quota, acts[1..]);
    }
  }

  /** `run()` returns: no wait is outstanding and no handler is running. */
  ghost predicate Drained(s: Loop) {
    && s.running.None?
    && forall h: nat :: h < |s.entries| ==> s.entries[h].timer.waits == []
  }

  /** Drain, safety: whenever the loop has no work left, every timer has run its callback exactly as
      often as its quota - n times if its n-th callback cancels it, once if it does not loop. */
  lemma DrainsExactly(s: Loop, quota: seq<nat>, acts: seq<Step>, h: nat)
    requires JustCreated(s, quota) && ObeyingRun(s, quota, acts) && Drained(Run(s, acts))
    requires h < |s.entries|
    ensures h < |Run(s, acts).entries| && |Run(s, acts).entries[h].fired| == quota[h]
  {
    CreatedStarts(s, quota);
    StepsAreBounded(s, quota, acts);
    assert OnQuota(Run(s, acts).entries[h], quota[h], IsRunning(Run(s, acts), h));
  }

  /** With work outstanding, some handler can run now or after waiting until a deadline. */
  lemma CanGoOn(s: Loop, quota: seq<nat>) returns (wait: nat, a: Step)
    requires DrainInv(s, quota) && !Drained(s)
    ensures Obeys(s, quota, Tick(wait)) && !a.Tick? && Obeys(Next(s, Tick(wait)), quota, a)
  {
    wait := 0;
    if s.running.Some? {
      var h := s.running.value;
      assert OnQuota(s.entries[h], quota[h], IsRunning(s, h));
      assert EntryOk(s.entries[h], IsRunning(s, h), s.now);
      var e := s.entries[h];
      a := if e.timer.loop && |e.fired| == quota[h] then CancelById(e.timer.id) else End;
    } else {
      var h: nat :| h < |s.entries| && s.entries[h].timer.waits != [];
      assert OnQuota(s.entries[h], quota[h], IsRunning(s, h));
      var w := s.entries[h].timer.waits[0];
      if w.status.Ready? {
        a := Begin(h, 0);
      } else {
        wait := if w.deadline <= s.now then 0 else w.deadline - s.now;
        a := Expire(h, 0);
      }
    }
  }

  /** Drain, liveness: from a fresh set of timers - and from every state on the way - the loop can
      reach the point where `run()` returns; by StepsAreBounded it cannot be kept from it for ever. */
  lemma {:induction false} CanDrain(s: Loop, quota: seq<nat>) returns (acts: seq<Step>)
    requires DrainInv(s, quota)
    ensures ObeyingRun(s, quota, acts) && Drained(Run(s, acts))
    ensures Handlers(acts) <= Measure(s, quota)
    decreases Measure(s, quota)
  {
    if Drained(s) {
      acts := [];
    } else {
      var wait, a := CanGoOn(s, quota);
      var s1 := Next(s, Tick(wait));
      MeasureFalls(s, quota, Tick(wait));
      MeasureFalls(s1, quota, a);
      var more := CanDrain(Next(s1, a), quota);
      assert ([a] + more)[1..] == more;
      assert ObeyingRun(s1, quota, [a] + more);
      acts := [Tick(wait)] + ([a] + more);
      assert acts[1..] == [a] + more;
      StepsAreBounded(s, quota, acts);
    }
  }

  // ----- timers cancelled by anyone, at any time -----

  /** A loop without work left has no timer that loops: only a cancelled timer, or one created without
      looping, ever stops. */
  lemma DrainedMeansStopped(s: Loop, h: nat)
    requires LoopInv(s) && Drained(s) && h < |s.entries|
    ensures !s.entries[h].timer.loop
  {
    assert EntryOk(s.entries[h], IsRunning(s, h), s.now);
  }

  ghost predicate NoneLoops(s: Loop) {
    forall h: nat :: h < |s.entries| ==> !s.entries[h].timer.loop
  }

  ghost predicate NoCreation(acts: seq<Step>) {
    forall a <- acts :: !a.Create?
  }

  /** The handlers of a run; further cancellations are calls, not handlers. */
  ghost function HandlersOf(acts: seq<Step>): nat {
    if acts == [] then 0 else (if IsHandler(acts[0]) then 1 else 0) + HandlersOf(acts[1..])
  }

  predicate IsHandler(a: Step) {
    !a.Tick? && !a.CancelById? && !a.Create?
  }

  function WaitLeft(w: Wait): nat {
    match w.status
    case Pending => 4
    case Ready => 3
    case Aborted => 1
  }

  /** What is left to do for a timer that does not loop. */
  ghost function Left(e: Entry, isRunning: bool): nat {
    (if e.timer.waits == [] then 0 else WaitLeft(e.timer.waits[0])) + (if isRunning then 1 else 0)
  }

  ghost function TotalLeft(s: Loop, n: nat): nat
    requires n <= |s.entries|
  {
    if n == 0 then 0 else TotalLeft(s, n - 1) + Left(s.entries[n - 1], IsRunning(s, n - 1))
  }

  /** The timer a handler step belongs to. */
  ghost function Owner(s: Loop, a: Step): nat
    requires IdsOk(s) && CanStep(s, a) && IsHandler(a)
  {
    if a.End? then s.running.value else a.h
  }

  lemma LeftFalls(s: Loop, a: Step)
    requires LoopInv(s) && NoneLoops(s) && CanStep(s, a) && IsHandler(a)
    ensures var h := Owner(s, a); var s' := Next(s, a);
      && h < |s.entries| && |s'.entries| == |s.entries| && !s'.entries[h].timer.loop
      && Left(s'.entries[h], IsRunning(s', h)) < Left(s.entries[h], IsRunning(s, h))
  {
    var h := Owner(s, a);
    assert EntryOk(s.entries[h], IsRunning(s, h), s.now);
    assert !s.entries[h].timer.loop;
  }

  lemma OthersKeepLeft(s: Loop, a: Step, h: nat)
    requires LoopInv(s) && NoneLoops(s) && CanStep(s, a) && !a.Create?
    requires h < |s.entries| && (IsHandler(a) ==> h != Owner(s, a))
    ensures var s' := Next(s, a);
      && |s'.entries| == |s.entries| && !s'.entries[h].timer.loop
      && Left(s'.entries[h], IsRunning(s', h)) <= Left(s.entries[h], IsRunning(s, h))
  {
    assert !s.entries[h].timer.loop;
  }

  lemma NoneLoopsAfter(s: Loop, a: Step)
    requires LoopInv(s) && NoneLoops(s) && CanStep(s, a) && !a.Create?
    ensures |Next(s, a).entries| == |s.entries| && NoneLoops(Next(s, a))
  {
    OthersCreateNothing(s, a);
    forall h: nat | h < |s.entries|
      ensures !Next(s, a).entries[h].timer.loop
    {
      assert !s.entries[h].timer.loop;
      StepGrows(s, a, h);
    }
  }

  lemma OneLeft(s: Loop, a: Step, h: nat)
    requires LoopInv(s) && NoneLoops(s) && CanStep(s, a) && !a.Create? && h < |s.entries|
    ensures |Next(s, a).entries| == |s.entries|
    ensures Left(Next(s, a).entries[h], IsRunning(Next(s, a), h)) + (if IsHandler(a) && Owner(s, a) == h then 1 else 0)
         <= Left(s.entries[h], IsRunning(s, h))
  {
    if IsHandler(a) && Owner(s, a) == h {
      LeftFalls(s, a);
    } else {
      OthersKeepLeft(s, a, h);
    }
  }

  lemma {:induction false} TotalLeftFalls(s: Loop, a: Step, n: nat)
    requires LoopInv(s) && NoneLoops(s) && CanStep(s, a) && !a.Create? && n <= |s.entries|
    ensures |Next(s, a).entries| == |s.entries|
    ensures TotalLeft(Next(s, a), n) + (if IsHandler(a) && Owner(s, a) < n then 1 else 0) <= TotalLeft(s, n)
  {
    OthersCreateNothing(s, a);
    if n != 0 {
      TotalLeftFalls(s, a, n - 1);
      OneLeft(s, a, n - 1);
    }
  }

  lemma StepTowardsEnd(s: Loop, a: Step)
    requires LoopInv(s) && NoneLoops(s) && CanStep(s, a) && !a.Create?
    ensures LoopInv(Next(s, a)) && NoneLoops(Next(s, a)) && |Next(s, a).entries| == |s.entries|
    ensures TotalLeft(Next(s, a), |s.entries|) + (if IsHandler(a) then 1 else 0) <= TotalLeft(s, |s.entries|)
  {
    StepKeepsInv(s, a);
    NoneLoopsAfter(s, a);
    TotalLeftFalls(s, a, |s.entries|);
    if IsHandler(a) {
      LeftFalls(s, a);
    }
  }

  /** Once every timer has been cancelled, by whomever, or was created without looping, and no timer
      is created any more, only a bounded number of handlers can still run. */
  lemma {:induction false} CancelledStepsAreBounded(s: Loop, acts: seq<Step>)
    requires LoopInv(s) && NoneLoops(s) && ValidRun(s, acts) && NoCreation(acts)
    ensures LoopInv(Run(s, acts)) && NoneLoops(Run(s, acts)) && |Run(s, acts).entries| == |s.entries|
    ensures TotalLeft(Run(s, acts), |s.entries|) + HandlersOf(acts) <= TotalLeft(s, |s.entries|)
    decreases |acts|
  {
    if acts != [] {
      assert acts[0] in acts;
      StepTowardsEnd(s, acts[0]);
      CancelledStepsAreBounded(Next(s, acts[0]), acts[1..]);
    }
  }

  lemma {:induction false} AtMostFourEach(s: Loop, n: nat)
    requires LoopInv(s) && n <= |s.entries|
    ensures TotalLeft(s, n) <= 4 * n
  {
    if n != 0 {
      AtMostFourEach(s, n - 1);
      assert EntryOk(s.entries[n - 1], IsRunning(s, n - 1), s.now);
    }
  }

  /** With work outstanding, some handler can run now or after waiting until a deadline. */
  lemma CanGoOnCancelled(s: Loop) returns (wait: nat, a: Step)
    requires LoopInv(s) && !Drained(s)
    ensures CanStep(s, Tick(wait)) && IsHandler(a) && CanStep(Next(s, Tick(wait)), a)
  {
    wait := 0;
    if s.running.Some? {
      a := End;
    } else {
      var h: nat :| h < |s.entries| && s.entries[h].timer.waits != [];
      var w := s.entries[h].timer.waits[0];
      match w.status
      case Ready => a := Begin(h, 0);
      case Aborted => a := Drop(h, 0);
      case Pending =>
        wait := if w.deadline <= s.now then 0 else w.deadline - s.now;
        a := Expire(h, 0);
    }
  }

  lemma TwoSteps(s: Loop, wait: nat, a: Step, more: seq<Step>)
    requires LoopInv(s) && NoneLoops(s) && !a.Create? && NoCreation(more)
    requires CanStep(Next(s, Tick(wait)), a) && ValidRun(Next(Next(s, Tick(wait)), a), more)
    ensures NoCreation([Tick(wait)] + ([a] + more)) && ValidRun(s, [Tick(wait)] + ([a] + more))
    ensures Run(s, [Tick(wait)] + ([a] + more)) == Run(Next(Next(s, Tick(wait)), a), more)
  {
    RunCons(Next(s, Tick(wait)), a, more);
    RunCons(s, Tick(wait), [a] + more);
  }

  /** Such a loop can drain, and does so within four handlers a timer. */
  lemma {:induction false} CanDrainCancelled(s: Loop) returns (acts: seq<Step>)
    requires LoopInv(s) && NoneLoops(s)
    ensures ValidRun(s, acts) && NoCreation(acts) && Drained(Run(s, acts))
    ensures HandlersOf(acts) <= 4 * |s.entries|
    decreases TotalLeft(s, |s.entries|)
  {
    if Drained(s) {
      acts := [];
    } else {
      var wait, a := CanGoOnCancelled(s);
      StepTowardsEnd(s, Tick(wait));
      StepTowardsEnd(Next(s, Tick(wait)), a);
      var more := CanDrainCancelled(Next(Next(s, Tick(wait)), a));
      TwoSteps(s, wait, a, more);
      acts := [Tick(wait)] + ([a] + more);
      CancelledStepsAreBounded(s, acts);
    }
    AtMostFourEach(s, |s.entries|);
  }
}
