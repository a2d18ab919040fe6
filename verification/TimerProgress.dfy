/** What the event loop with timers can do from every reachable state, and what its history means. */
module TimerProgress {
  import opened Basics
  import opened Timers
  import opened TimerTheorems

  // ----- which steps are possible -----

  /** A timer has at most one wait, so what can happen to it is decided by that wait alone: it comes
      due at any time after its deadline, also while a callback is running; a completion is handled
      when no callback is running, whatever other timers there are. */
  lemma PossibleSteps(s: Loop, h: nat, i: nat)
    requires LoopInv(s)
    ensures CanStep(s, Expire(h, i)) <==>
      h < |s.entries| && i == 0 && var t := s.entries[h].timer; t.waits == [Wait(t.expiry, Pending)] && t.expiry <= s.now
    ensures CanStep(s, Begin(h, i)) <==>
      h < |s.entries| && i == 0 && s.running.None? && var t := s.entries[h].timer; t.waits == [Wait(t.expiry, Ready)]
    ensures CanStep(s, Drop(h, i)) <==>
      h < |s.entries| && i == 0 && s.running.None? && var t := s.entries[h].timer; t.waits == [Wait(t.expiry, Aborted)]
    ensures CanStep(s, End) <==> s.running.Some?
    ensures forall d: nat :: CanStep(s, Tick(d))
    ensures forall id :: CanStep(s, CancelById(id))
  {
    if h < |s.entries| {
      var e := s.entries[h];
      assert EntryOk(e, IsRunning(s, h), s.now);
      assert e.timer.waits != [] ==> e.timer.waits == [Wait(e.timer.expiry, e.timer.waits[0].status)];
    }
  }

  // ----- the history of a run is what happened in it -----

  /** The time that passes in a run. */
  function Elapsed(acts: seq<Step>): nat {
    if acts == [] then 0 else (if acts[0].Tick? then acts[0].d else 0) + Elapsed(acts[1..])
  }

  /** When the handler of timer `h` begins in a run that starts at `now`. */
  function BeginTimes(now: int, acts: seq<Step>, h: nat): seq<int>
    decreases |acts|
  {
    if acts == [] then []
    else
      (if acts[0].Begin? && acts[0].h == h then [now] else [])
      + BeginTimes(now + (if acts[0].Tick? then acts[0].d else 0), acts[1..], h)
  }

  function Times(fired: seq<Firing>): (ts: seq<int>)
    ensures |ts| == |fired| && forall i :: 0 <= i < |fired| ==> ts[i] == fired[i].at
  {
    seq(|fired|, i requires 0 <= i < |fired| => fired[i].at)
  }

  function FiredOf(s: Loop, h: nat): seq<Firing> {
    if h < |s.entries| then s.entries[h].fired else []
  }

  lemma OnlyTicksMoveTheClock(s: Loop, a: Step)
    requires IdsOk(s) && CanStep(s, a)
    ensures Next(s, a).now == s.now + (if a.Tick? then a.d else 0)
  {
  }

  lemma BeginIsRecorded(s: Loop, a: Step, h: nat)
    requires IdsOk(s) && CanStep(s, a) && a.Begin? && a.h == h
    ensures Times(FiredOf(Next(s, a), h)) == Times(FiredOf(s, h)) + [s.now]
  {
  }

  lemma OthersFireNothing(s: Loop, a: Step, h: nat)
    requires IdsOk(s) && CanStep(s, a) && !(a.Begin? && a.h == h)
    ensures FiredOf(Next(s, a), h) == FiredOf(s, h)
  {
  }

  lemma StepIsRecorded(s: Loop, a: Step, h: nat)
    requires IdsOk(s) && CanStep(s, a)
    ensures Next(s, a).now == s.now + (if a.Tick? then a.d else 0)
    ensures Times(FiredOf(Next(s, a), h)) == Times(FiredOf(s, h)) + (if a.Begin? && a.h == h then [s.now] else [])
  {
    OnlyTicksMoveTheClock(s, a);
    if a.Begin? && a.h == h {
      BeginIsRecorded(s, a, h);
    } else {
      OthersFireNothing(s, a, h);
      AppendNothing(Times(FiredOf(s, h)));
    }
  }

  lemma {:induction false} ClockIsElapsed(s: Loop, acts: seq<Step>)
    requires IdsOk(s) && ValidRun(s, acts)
    ensures Run(s, acts).now == s.now + Elapsed(acts)
    decreases |acts|
  {
    if acts != [] {
      OnlyTicksMoveTheClock(s, acts[0]);
      ClockIsElapsed(Next(s, acts[0]), acts[1..]);
    }
  }

  lemma BeginTimesStep(now: int, acts: seq<Step>, h: nat, before: seq<int>)
    requires acts != []
    ensures var a := acts[0];
      before + BeginTimes(now, acts, h)
      == (before + (if a.Begin? && a.h == h then [now] else [])) + BeginTimes(now + (if a.Tick? then a.d else 0), acts[1..], h)
  {
    var a := acts[0];
    Regroup(before, if a.Begin? && a.h == h then [now] else [], BeginTimes(now + (if a.Tick? then a.d else 0), acts[1..], h));
  }

  lemma {:induction false} RunIsRecorded(s: Loop, acts: seq<Step>, h: nat)
    requires IdsOk(s) && ValidRun(s, acts)
    ensures Times(FiredOf(Run(s, acts), h)) == Times(FiredOf(s, h)) + BeginTimes(s.now, acts, h)
    decreases |acts|
  {
    if acts == [] {
      AppendNothing(Times(FiredOf(s, h)));
    } else {
      StepIsRecorded(s, acts[0], h);
      RunIsRecorded(Next(s, acts[0]), acts[1..], h);
      BeginTimesStep(s.now, acts, h, Times(FiredOf(s, h)));
    }
  }

  lemma NothingFired(now: int, h: nat)
    ensures Times(FiredOf(Empty(now), h)) == []
  {
  }

  /** The recorded callbacks of a timer are exactly the handlers that began in the run, each with the
      time that had passed when it began. */
  lemma CallbacksAreTheHandlers(now: int, acts: seq<Step>, h: nat)
    requires ValidRun(Empty(now), acts)
    ensures Run(Empty(now), acts).now == now + Elapsed(acts)
    ensures h < |Run(Empty(now), acts).entries| ==>
      Times(Run(Empty(now), acts).entries[h].fired) == BeginTimes(now, acts, h)
  {
    NothingFired(now, h);
    ClockIsElapsed(Empty(now), acts);
    RunIsRecorded(Empty(now), acts, h);
    assert [] + BeginTimes(now, acts, h) == BeginTimes(now, acts, h);
  }

  // ----- a looping timer never stops by itself -----

  /** The next deadline of timer `h` has not passed. */
  ghost predicate NotLate(s: Loop, h: nat)
    requires h < |s.entries|
  {
    var e := s.entries[h];
    s.now <= Due(e.born, e.timer.period, |e.fired| + 1)
  }

  /** How far timer `h` is from its next callback. */
  function Phase(s: Loop, h: nat): nat
    requires h < |s.entries|
  {
    var t := s.entries[h].timer;
    if s.running.Some? || t.waits == [] then 3
    else if t.waits[0].status.Pending? then (if s.now < t.expiry then 2 else 1)
    else 0
  }

  /** One step of the loop towards the next callback of a looping timer. */
  ghost function Towards(s: Loop, h: nat): Step
    requires h < |s.entries|
  {
    var t := s.entries[h].timer;
    match Phase(s, h)
    case 3 => End
    case 2 => Tick(if t.expiry <= s.now then 0 else t.expiry - s.now)
    case 1 => Expire(h, 0)
    case _ => Begin(h, 0)
  }

  lemma TowardsIsPossible(s: Loop, h: nat)
    requires LoopInv(s) && h < |s.entries| && s.entries[h].timer.loop
    ensures CanStep(s, Towards(s, h))
  {
    assert EntryOk(s.entries[h], IsRunning(s, h), s.now);
  }

  /** A step that is not the callback comes closer to it, and no deadline passes. */
  lemma TowardsComesCloser(s: Loop, h: nat)
    requires LoopInv(s) && h < |s.entries| && s.entries[h].timer.loop && Phase(s, h) != 0
    ensures CanStep(s, Towards(s, h))
    ensures var s1 := Next(s, Towards(s, h));
      && |s1.entries| == |s.entries| && Phase(s1, h) < Phase(s, h)
      && s1.entries[h].timer.loop && s1.entries[h].timer.period == s.entries[h].timer.period
      && s1.entries[h].fired == s.entries[h].fired
      && (NotLate(s, h) ==> NotLate(s1, h))
  {
    TowardsIsPossible(s, h);
    assert EntryOk(s.entries[h], IsRunning(s, h), s.now);
  }

  /** The callback itself: it is on time if the timer was not late, and the timer is not late then. */
  lemma TowardsFires(s: Loop, h: nat)
    requires LoopInv(s) && h < |s.entries| && s.entries[h].timer.loop && Phase(s, h) == 0
    ensures CanStep(s, Towards(s, h))
    ensures var s1 := Next(s, Towards(s, h)); var e := s.entries[h];
      && |s1.entries| == |s.entries|
      && s1.entries[h].timer.loop && s1.entries[h].timer.period == e.timer.period
      && s1.entries[h].fired == e.fired + [Firing(Due(e.born, e.timer.period, |e.fired| + 1), s.now)]
      && (NotLate(s, h) && e.timer.period >= 0 ==>
            NotLate(s1, h) && s.now == Due(e.born, e.timer.period, |e.fired| + 1))
  {
    TowardsIsPossible(s, h);
    var e := s.entries[h];
    assert EntryOk(e, IsRunning(s, h), s.now);
    assert Due(e.born, e.timer.period, |e.fired| + 2) == Due(e.born, e.timer.period, |e.fired| + 1) + e.timer.period;
  }

  /** The callbacks of `fired` from number `from` on ran exactly at their deadlines. */
  ghost predicate Punctual(fired: seq<Firing>, from: nat) {
    forall k :: from <= k < |fired| ==> fired[k].at == fired[k].deadline
  }

  lemma {:induction false} LoopingFiresOn(s: Loop, h: nat, n: nat, from: nat) returns (acts: seq<Step>)
    requires LoopInv(s) && h < |s.entries| && s.entries[h].timer.loop
    ensures ValidRun(s, acts) && h < |Run(s, acts).entries| && Run(s, acts).entries[h].timer.loop
    ensures |Run(s, acts).entries[h].fired| == |s.entries[h].fired| + n
    ensures NotLate(s, h) && s.entries[h].timer.period >= 0 && Punctual(s.entries[h].fired, from) ==>
      Punctual(Run(s, acts).entries[h].fired, from)
    decreases n, Phase(s, h)
  {
    if n == 0 {
      acts := [];
    } else {
      var a := Towards(s, h);
      if Phase(s, h) == 0 {
        TowardsFires(s, h);
      } else {
        TowardsComesCloser(s, h);
      }
      StepKeepsInv(s, a);
      var more := LoopingFiresOn(Next(s, a), h, if Phase(s, h) == 0 then n - 1 else n, from);
      RunCons(s, a, more);
      acts := [a] + more;
    }
  }

  /** A looping timer never stops by itself: from every reachable state it can run its callback any
      number of times more, whatever else is on the loop.  If its next deadline has not passed and its
      period is not negative, each of them can run exactly at its deadline, so that the lower bound
      of DriftFree is met. */
  lemma LoopingNeverStops(now: int, before: seq<Step>, h: nat, n: nat) returns (acts: seq<Step>)
    requires ValidRun(Empty(now), before) && h < |Run(Empty(now), before).entries|
    requires Run(Empty(now), before).entries[h].timer.loop
    ensures var s := Run(Empty(now), before); var e := s.entries[h];
      && ValidRun(s, acts) && h < |Run(s, acts).entries|
      && var e' := Run(s, acts).entries[h];
         && e'.timer.loop && |e'.fired| == |e.fired| + n
         && (s.now <= e.born + (|e.fired| + 1) * e.timer.period && e.timer.period >= 0 ==>
               forall k :: |e.fired| <= k < |e'.fired| ==>
                 e'.fired[k].at == e.born + (k + 1) * e.timer.period)
  {
    ReachableInv(now, before);
    var s := Run(Empty(now), before);
    var e := s.entries[h];
    acts := LoopingFiresOn(s, h, n, |e.fired|);
    RunGrows(s, acts, h);
    RunKeepsInv(s, acts);
    DeadlinesAre(Run(s, acts), h);
  }

  lemma DeadlinesAre(s: Loop, h: nat)
    requires LoopInv(s) && h < |s.entries|
    ensures var e := s.entries[h];
      forall k :: 0 <= k < |e.fired| ==> e.fired[k].deadline == e.born + (k + 1) * e.timer.period
  {
    assert EntryOk(s.entries[h], IsRunning(s, h), s.now);
  }
}
