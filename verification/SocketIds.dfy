/** `Socket::uuid`: once as the method of one thread, and once as a protocol of any number of threads
    that interleave between `fetch_add` and `try_lock_fd`. */
module SocketIds {
  import opened Ids

  class Socket {
    /** `uuid_`, an atomic 32-bit counter */
    var counter: nat
    var fds: set<int>

    ghost predicate Valid()
      reads this
    {
      counter < WORD
    }

    constructor ()
      ensures Valid() && counter == 0 && fds == {}
    {
      counter, fds := 0, {};
    }

    method FetchAdd() returns (previous: nat)
      requires Valid()
      modifies this`counter
      ensures previous == old(counter) && counter == (old(counter) + 1) % 0x1_0000_0000 && Valid()
    {
      previous := counter;
      counter := (counter + 1) % WORD;
    }

    method TryLockFd(fd: int) returns (locked: bool)
      modifies this`fds
      ensures locked == (fd !in old(fds)) && fds == old(fds) + {fd}
    {
      locked := fd !in fds;
      fds := fds + {fd};
    }

    /** The release in `read` when the peer is gone. */
    method Release(fd: int)
      modifies this`fds
      ensures fds == old(fds) - {fd}
    {
      fds := fds - {fd};
    }

    /** The source loops for ever when no id is free (Ids.SearchEndsIff), so a caller needs one.
        The result is the first free id in counter order. */
    method Uuid() returns (ret: nat)
      requires Valid() && SomeFree(fds)
      modifies this
      ensures Valid()
      ensures ret == Slot(old(counter), Misses(old(fds), old(counter)))
      ensures ret !in old(fds) && fds == old(fds) + {ret}
      ensures counter == (old(counter) + Misses(old(fds), old(counter)) + 1) % 0x1_0000_0000
    {
      ghost var start, misses := counter, Misses(fds, counter);
      ghost var k: nat := 0;
      var locked := false;
      ret := 0;
      while !locked
        invariant k <= misses + 1 && counter == (start + k) % WORD
        invariant locked ==> k == misses + 1 && ret == Slot(start, misses) && fds == old(fds) + {ret}
        invariant !locked ==> k <= misses && fds == old(fds)
        decreases misses + 1 - k
      {
        ProbeOutcome(old(fds), start, k, counter);
        ret := FetchAdd();
        ret := ret % IDS;
        locked := TryLockFd(ret);
        k := k + 1;
        assert !locked ==> fds == old(fds);
      }
    }
  }

  // ----- any number of threads -----

  /** Where a thread stands in `uuid`: outside, before `fetch_add`, or before `try_lock_fd(id)`. */
  datatype Thread = Outside | Looping | Holding(id: nat)

  datatype Event = Claim(id: int) | Release(id: int)

  /** `fetched` counts the calls of `fetch_add`; `log` lists the claims and the effective erases. */
  datatype Pool = Pool(start: nat, fetched: nat, fds: set<int>, threads: seq<Thread>, log: seq<Event>)

  datatype Step = Call(t: nat) | Fetch(t: nat) | TryLock(t: nat) | Erase(id: int)

  predicate CanStep(p: Pool, s: Step) {
    match s
    case Call(t) => t < |p.threads| && p.threads[t].Outside?
    case Fetch(t) => t < |p.threads| && p.threads[t].Looping?
    case TryLock(t) => t < |p.threads| && p.threads[t].Holding?
    case Erase(_) => true
  }

  function Next(p: Pool, s: Step): Pool
    requires CanStep(p, s)
  {
    match s
    case Call(t) => p.(threads := p.threads[t := Looping])
    case Fetch(t) => p.(threads := p.threads[t := Holding(Slot(p.start, p.fetched))], fetched := p.fetched + 1)
    case TryLock(t) =>
      var id := p.threads[t].id;
      if id in p.fds then p.(threads := p.threads[t := Looping])
      else p.(threads := p.threads[t := Outside], fds := p.fds + {id}, log := p.log + [Claim(id)])
    case Erase(id) =>
      if id in p.fds then p.(fds := p.fds - {id}, log := p.log + [Release(id)]) else p
  }

  ghost predicate ValidSteps(p: Pool, steps: seq<Step>)
    decreases |steps|
  {
    steps == [] || (CanStep(p, steps[0]) && ValidSteps(Next(p, steps[0]), steps[1..]))
  }

  ghost function RunSteps(p: Pool, steps: seq<Step>): Pool
    requires ValidSteps(p, steps)
    decreases |steps|
  {
    if steps == [] then p else RunSteps(Next(p, steps[0]), steps[1..])
  }

  ghost predicate InitialPool(p: Pool) {
    && p.start < WORD && p.fetched == 0 && p.log == []
    && forall t <- p.threads :: t.Outside?
  }

  /** Between two claims of one id there is an erase of it, and a claimed id that was not erased
      since is still in the set. */
  ghost predicate Fresh(fds: set<int>, log: seq<Event>) {
    && (forall i, j :: 0 <= i < j < |log| && log[i].Claim? && log[j] == log[i] ==> ReleasedBetween(log, log[i].id, i, j))
    && (forall i :: 0 <= i < |log| && log[i].Claim? && log[i].id !in fds ==> ReleasedBetween(log, log[i].id, i, |log|))
  }

  /** An id of the initial set is not claimed, and does not leave the set, before an erase of it. */
  ghost predicate InitialKept(initial: set<int>, fds: set<int>, log: seq<Event>) {
    && (forall j :: 0 <= j < |log| && log[j].Claim? && log[j].id in initial ==> ReleasedBetween(log, log[j].id, -1, j))
    && (forall id <- initial :: id !in fds ==> ReleasedBetween(log, id, -1, |log|))
  }

  ghost predicate ReleasedBetween(log: seq<Event>, id: int, i: int, j: int) {
    exists k :: i < k < j <= |log| && 0 <= k && log[k] == Release(id)
  }

  function Claims(log: seq<Event>): nat {
    if log == [] then 0 else Claims(log[..|log| - 1]) + (if log[|log| - 1].Claim? then 1 else 0)
  }

  ghost predicate ThreadsInRange(threads: seq<Thread>) {
    forall t <- threads :: t.Holding? ==> t.id < IDS
  }

  ghost predicate ClaimsInRange(log: seq<Event>) {
    forall e <- log :: e.Claim? ==> 0 <= e.id < IDS
  }

  /** The set has grown by the claims, and shrunk by the other events of the log. */
  ghost predicate SizeAccounted(initial: set<int>, fds: set<int>, log: seq<Event>) {
    |fds| + |log| == |initial| + 2 * Claims(log)
  }

  ghost predicate PoolInv(initial: set<int>, p: Pool) {
    && Fresh(p.fds, p.log)
    && InitialKept(initial, p.fds, p.log)
    && SizeAccounted(initial, p.fds, p.log)
    && ThreadsInRange(p.threads)
    && ClaimsInRange(p.log)
  }

  lemma LogSnoc(log: seq<Event>, e: Event)
    ensures (log + [e])[..|log|] == log
    ensures Claims(log + [e]) == Claims(log) + (if e.Claim? then 1 else 0)
  {
  }

  /** Older gaps stay gaps, and a release at the end closes all gaps of its id. */
  lemma FreshAfter(fds: set<int>, log: seq<Event>, e: Event, fds': set<int>)
    requires Fresh(fds, log)
    requires e.Claim? ==> e.id !in fds && fds' == fds + {e.id}
    requires e.Release? ==> fds' == fds - {e.id}
    ensures Fresh(fds', log + [e])
  {
    var log' := log + [e];
    forall i, j | 0 <= i < j < |log'| && log'[i].Claim? && log'[j] == log'[i]
      ensures ReleasedBetween(log', log'[i].id, i, j)
    {
      assert ReleasedBetween(log, log[i].id, i, j);
      var k :| i < k < j <= |log| && 0 <= k && log[k] == Release(log[i].id);
      assert log'[k] == log[k];
    }
    forall i | 0 <= i < |log'| && log'[i].Claim? && log'[i].id !in fds'
      ensures ReleasedBetween(log', log'[i].id, i, |log'|)
    {
      assert i < |log|;
      if log[i].id in fds {
        assert log'[|log|] == Release(log[i].id);
      } else {
        assert ReleasedBetween(log, log[i].id, i, |log|);
        var k :| i < k < |log| && 0 <= k && log[k] == Release(log[i].id);
        assert log'[k] == log[k];
      }
    }
  }

  lemma LaterStillReleased(log: seq<Event>, e: Event, id: int, i: int, j: int)
    requires ReleasedBetween(log, id, i, j) && j <= |log|
    ensures ReleasedBetween(log + [e], id, i, j)
  {
    var k :| i < k < j <= |log| && 0 <= k && log[k] == Release(id);
    assert (log + [e])[k] == log[k];
  }

  lemma KeptAfter(initial: set<int>, fds: set<int>, log: seq<Event>, e: Event, fds': set<int>)
    requires InitialKept(initial, fds, log)
    requires e.Claim? ==> e.id !in fds && fds' == fds + {e.id}
    requires e.Release? ==> fds' == fds - {e.id}
    ensures InitialKept(initial, fds', log + [e])
  {
    var log' := log + [e];
    forall j | 0 <= j < |log'| && log'[j].Claim? && log'[j].id in initial
      ensures ReleasedBetween(log', log'[j].id, -1, j)
    {
      assert ReleasedBetween(log, log'[j].id, -1, j);
      LaterStillReleased(log, e, log'[j].id, -1, j);
    }
    forall id | id in initial && id !in fds'
      ensures ReleasedBetween(log', id, -1, |log'|)
    {
      if id in fds {
        assert log'[|log|] == Release(id);
      } else {
        LaterStillReleased(log, e, id, -1, |log|);
        WiderReleased(log', id, -1, |log|);
      }
    }
  }

  lemma WiderReleased(log: seq<Event>, id: int, i: int, j: int)
    requires ReleasedBetween(log, id, i, j) && j < |log|
    ensures ReleasedBetween(log, id, i, |log|)
  {
  }

  lemma ThreadMoves(threads: seq<Thread>, t: nat, thread: Thread)
    requires ThreadsInRange(threads) && t < |threads| && (thread.Holding? ==> thread.id < IDS)
    ensures ThreadsInRange(threads[t := thread])
  {
  }

  lemma SizeAfterClaim(initial: set<int>, fds: set<int>, log: seq<Event>, id: int)
    requires SizeAccounted(initial, fds, log) && id !in fds
    ensures SizeAccounted(initial, fds + {id}, log + [Claim(id)])
  {
    LogSnoc(log, Claim(id));
  }

  lemma SizeAfterErase(initial: set<int>, fds: set<int>, log: seq<Event>, id: int)
    requires SizeAccounted(initial, fds, log) && id in fds
    ensures SizeAccounted(initial, fds - {id}, log + [Release(id)])
  {
    LogSnoc(log, Release(id));
  }

  lemma ClaimKeepsInv(initial: set<int>, p: Pool, t: nat)
    requires PoolInv(initial, p) && CanStep(p, TryLock(t)) && p.threads[t].id !in p.fds
    ensures PoolInv(initial, Next(p, TryLock(t)))
  {
    var id := p.threads[t].id;
    assert p.threads[t] in p.threads;
    ThreadMoves(p.threads, t, Outside);
    SizeAfterClaim(initial, p.fds, p.log, id);
    FreshAfter(p.fds, p.log, Claim(id), p.fds + {id});
    KeptAfter(initial, p.fds, p.log, Claim(id), p.fds + {id});
  }

  lemma EraseKeepsInv(initial: set<int>, p: Pool, id: int)
    requires PoolInv(initial, p) && id in p.fds
    ensures PoolInv(initial, Next(p, Erase(id)))
  {
    SizeAfterErase(initial, p.fds, p.log, id);
    FreshAfter(p.fds, p.log, Release(id), p.fds - {id});
    KeptAfter(initial, p.fds, p.log, Release(id), p.fds - {id});
  }

  lemma NextKeepsInv(initial: set<int>, p: Pool, s: Step)
    requires PoolInv(initial, p) && CanStep(p, s)
    ensures PoolInv(initial, Next(p, s))
  {
    if s.TryLock? && p.threads[s.t].id !in p.fds {
      ClaimKeepsInv(initial, p, s.t);
    } else if s.Erase? && s.id in p.fds {
      EraseKeepsInv(initial, p, s.id);
    }
  }

  lemma {:induction false} RunKeepsInv(initial: set<int>, p: Pool, steps: seq<Step>)
    requires PoolInv(initial, p) && ValidSteps(p, steps)
    ensures PoolInv(initial, RunSteps(p, steps))
    decreases |steps|
  {
    if steps != [] {
      NextKeepsInv(initial, p, steps[0]);
      RunKeepsInv(initial, Next(p, steps[0]), steps[1..]);
    }
  }

  /** Concurrent freshness: whatever the number of threads and the interleaving, no id is returned
      twice without an effective erase in between, none of the initial set without an effective erase
      before, all ids are in range, and the set has grown by the claims less the effective erases. */
  lemma IdsAreFresh(p: Pool, steps: seq<Step>)
    requires InitialPool(p) && ValidSteps(p, steps)
    ensures var q := RunSteps(p, steps);
      && Fresh(q.fds, q.log)
      && InitialKept(p.fds, q.fds, q.log)
      && ClaimsInRange(q.log)
      && |q.fds| == |p.fds| + Claims(q.log) - (|q.log| - Claims(q.log))
  {
    RunKeepsInv(p.fds, p, steps);
  }

  // ----- no probe is lost -----

  ghost predicate NoErase(steps: seq<Step>) {
    forall s <- steps :: !s.Erase?
  }

  ghost predicate Covered(p: Pool, k: nat) {
    Slot(p.start, k) in p.fds || Holding(Slot(p.start, k)) in p.threads
  }

  ghost predicate AllCovered(p: Pool) {
    forall k: nat :: k < p.fetched ==> Covered(p, k)
  }

  lemma NextCovers(p: Pool, s: Step)
    requires AllCovered(p) && CanStep(p, s) && !s.Erase?
    ensures AllCovered(Next(p, s))
  {
    var q := Next(p, s);
    forall k: nat | k < q.fetched
      ensures Covered(q, k)
    {
      if k == p.fetched {
        assert q.threads[s.t] == Holding(Slot(p.start, k));
      } else {
        assert Covered(p, k);
        if Slot(p.start, k) !in p.fds {
          var t :| 0 <= t < |p.threads| && p.threads[t] == Holding(Slot(p.start, k));
          assert t != s.t ==> q.threads[t] == p.threads[t];
        }
      }
    }
  }

  lemma {:induction false} RunCovers(p: Pool, steps: seq<Step>)
    requires AllCovered(p) && ValidSteps(p, steps) && NoErase(steps)
    ensures AllCovered(RunSteps(p, steps)) && RunSteps(p, steps).start == p.start
    decreases |steps|
  {
    if steps != [] {
      NextCovers(p, steps[0]);
      RunCovers(Next(p, steps[0]), steps[1..]);
    }
  }

  /** System-wide progress: in a run without erases, once the threads together have made a full turn
      of `fetch_add` calls, every id still free is in the hands of a thread about to claim it. */
  lemma FullTurnClaimsAll(p: Pool, steps: seq<Step>)
    requires InitialPool(p) && ValidSteps(p, steps) && NoErase(steps)
    requires RunSteps(p, steps).fetched >= WORD
    ensures forall id: nat :: id < IDS && id !in RunSteps(p, steps).fds ==>
      Holding(id) in RunSteps(p, steps).threads
  {
    RunCovers(p, steps);
    var q := RunSteps(p, steps);
    forall id: nat | id < IDS && id !in q.fds
      ensures Holding(id) in q.threads
    {
      var k := EveryIdIsTried(p.start, id);
      assert Covered(q, k);
    }
  }

  // ----- one thread of the protocol is the method -----

  /** `n` turns of the loop of one thread, with no other thread in between. */
  ghost function Alone(t: nat, n: nat): seq<Step> {
    if n == 0 then [] else [Fetch(t), TryLock(t)] + Alone(t, n - 1)
  }

  lemma OneTurn(p: Pool, t: nat, rest: seq<Step>)
    requires t < |p.threads| && p.threads[t].Looping?
    ensures CanStep(p, Fetch(t)) && CanStep(Next(p, Fetch(t)), TryLock(t))
    ensures var q := Next(Next(p, Fetch(t)), TryLock(t));
      && ValidSteps(p, [Fetch(t), TryLock(t)] + rest) == ValidSteps(q, rest)
      && (ValidSteps(q, rest) ==> RunSteps(p, [Fetch(t), TryLock(t)] + rest) == RunSteps(q, rest))
  {
    var steps := [Fetch(t), TryLock(t)] + rest;
    assert steps[1..] == [TryLock(t)] + rest;
    assert steps[1..][1..] == rest;
  }

  ghost predicate Occupied(start: nat, fds: set<int>, k: nat) {
    Slot(start, k) in fds
  }

  /** The pool after a thread has claimed the id of fetch number `last`. */
  ghost function Claimed(p: Pool, t: nat, last: nat): Pool
    requires t < |p.threads|
  {
    var id := Slot(p.start, last);
    Pool(p.start, last + 1, p.fds + {id}, p.threads[t := Outside], p.log + [Claim(id)])
  }

  lemma FailedTurn(p: Pool, t: nat)
    requires t < |p.threads| && p.threads[t].Looping? && Occupied(p.start, p.fds, p.fetched)
    ensures Next(Next(p, Fetch(t)), TryLock(t)) == p.(fetched := p.fetched + 1)
  {
    assert p.threads[t := Holding(Slot(p.start, p.fetched))][t := Looping] == p.threads;
  }

  lemma LastTurn(p: Pool, t: nat)
    requires t < |p.threads| && p.threads[t].Looping? && !Occupied(p.start, p.fds, p.fetched)
    ensures Next(Next(p, Fetch(t)), TryLock(t)) == Claimed(p, t, p.fetched)
  {
    assert p.threads[t := Holding(Slot(p.start, p.fetched))][t := Outside] == p.threads[t := Outside];
  }

  lemma {:induction false} AloneFinds(p: Pool, t: nat, last: nat)
    requires t < |p.threads| && p.threads[t].Looping? && p.fetched <= last
    requires forall k: nat :: p.fetched <= k < last ==> Occupied(p.start, p.fds, k)
    requires !Occupied(p.start, p.fds, last)
    ensures ValidSteps(p, Alone(t, last + 1 - p.fetched))
    ensures RunSteps(p, Alone(t, last + 1 - p.fetched)) == Claimed(p, t, last)
    decreases last - p.fetched
  {
    OneTurn(p, t, Alone(t, last - p.fetched));
    if p.fetched == last {
      LastTurn(p, t);
    } else {
      FailedTurn(p, t);
      AloneFinds(p.(fetched := p.fetched + 1), t, last);
    }
  }

  lemma SlotFrom(start: nat, fetched: nat, j: nat)
    ensures Slot((start + fetched) % WORD, j) == Slot(start, fetched + j)
  {
  }

  lemma MissesAreOccupied(start: nat, fetched: nat, fds: set<int>)
    requires SomeFree(fds)
    ensures var n := Misses(fds, (start + fetched) % WORD);
      && (forall k: nat :: fetched <= k < fetched + n ==> Occupied(start, fds, k))
      && !Occupied(start, fds, fetched + n)
      && Slot(start, fetched + n) == Slot((start + fetched) % WORD, n)
  {
    var counter := (start + fetched) % WORD;
    var n := Misses(fds, counter);
    SlotFrom(start, fetched, n);
    forall k: nat | fetched <= k < fetched + n
      ensures Occupied(start, fds, k)
    {
      SlotFrom(start, fetched, k - fetched);
      assert !Free(fds, counter, k - fetched);
    }
  }

  /** A thread that is not interrupted claims exactly the id that the method `Uuid` returns for the
      same set and the same counter, after as many calls of `fetch_add`. */
  lemma AloneIsUuid(p: Pool, t: nat)
    requires t < |p.threads| && p.threads[t].Looping? && SomeFree(p.fds)
    ensures var counter := (p.start + p.fetched) % WORD; var n := Misses(p.fds, counter);
      && ValidSteps(p, Alone(t, n + 1))
      && RunSteps(p, Alone(t, n + 1)) == Claimed(p, t, p.fetched + n)
      && Slot(p.start, p.fetched + n) == Slot(counter, n)
  {
    var counter := (p.start + p.fetched) % WORD;
    var n := Misses(p.fds, counter);
    MissesAreOccupied(p.start, p.fetched, p.fds);
    AloneFinds(p, t, p.fetched + n);
  }

  // ----- no thread blocks, and an erased id comes back -----

  /** In every pool every thread has its next step, whatever the others hold, and a thread that holds
      an id claims it exactly when it is not in the set at that moment. */
  lemma ThreadsNeverBlock(p: Pool, t: nat)
    requires t < |p.threads|
    ensures CanStep(p, match p.threads[t] case Outside => Call(t) case Looping => Fetch(t) case Holding(_) => TryLock(t))
    ensures p.threads[t].Holding? ==> var q, id := Next(p, TryLock(t)), p.threads[t].id;
      && q.fds == p.fds + {id}
      && q.threads == p.threads[t := if id in p.fds then Looping else Outside]
      && q.log == p.log + (if id in p.fds then [] else [Claim(id)])
  {
    if p.threads[t].Holding? && p.threads[t].id in p.fds {
      assert p.fds + {p.threads[t].id} == p.fds;
    }
  }

  /** An erase is what `Socket.Release` does: the id is free after it, nothing else is, and the log
      tells whether it was there. */
  lemma EraseFrees(p: Pool, id: int)
    ensures CanStep(p, Erase(id)) && Next(p, Erase(id)).fds == p.fds - {id}
    ensures Next(p, Erase(id)).log == p.log + (if id in p.fds then [Release(id)] else [])
    ensures Next(p, Erase(id)).threads == p.threads
    ensures Next(p, Erase(id)).start == p.start && Next(p, Erase(id)).fetched == p.fetched
  {
    if id !in p.fds {
      assert p.fds - {id} == p.fds;
    }
  }

  ghost predicate OnlyThread(steps: seq<Step>, t: nat) {
    forall s <- steps :: !s.Erase? && s.t == t
  }

  lemma StepsCons(p: Pool, s: Step, rest: seq<Step>)
    requires CanStep(p, s) && ValidSteps(Next(p, s), rest)
    ensures ValidSteps(p, [s] + rest) && RunSteps(p, [s] + rest) == RunSteps(Next(p, s), rest)
  {
    assert ([s] + rest)[1..] == rest;
  }

  lemma {:induction false} StepsConcat(p: Pool, a: seq<Step>, b: seq<Step>)
    requires ValidSteps(p, a) && ValidSteps(RunSteps(p, a), b)
    ensures ValidSteps(p, a + b) && RunSteps(p, a + b) == RunSteps(RunSteps(p, a), b)
    decreases |a|
  {
    if a == [] {
      assert a + b == b;
    } else {
      StepsConcat(Next(p, a[0]), a[1..], b);
      StepsCons(p, a[0], a[1..] + b);
      assert a + b == [a[0]] + (a[1..] + b);
    }
  }

  lemma {:induction false} AloneIsOne(t: nat, n: nat)
    ensures OnlyThread(Alone(t, n), t)
  {
    if n != 0 {
      AloneIsOne(t, n - 1);
    }
  }

  /** The first free slot is not behind any free slot. */
  lemma FirstFreeSlot(p: Pool, k: nat) returns (n: nat)
    requires p.fetched <= k && !Occupied(p.start, p.fds, k)
    ensures SomeFree(p.fds) && n == Misses(p.fds, (p.start + p.fetched) % WORD) && p.fetched + n <= k
  {
    SlotFrom(p.start, p.fetched, k - p.fetched);
    assert Free(p.fds, (p.start + p.fetched) % WORD, k - p.fetched);
    n := Misses(p.fds, (p.start + p.fetched) % WORD);
  }

  /** One whole call of `uuid` by a thread that is not interrupted, when slot `k` is free: it claims a
      slot that is not behind `k`. */
  lemma OneCall(p: Pool, t: nat, k: nat) returns (steps: seq<Step>, last: nat)
    requires t < |p.threads| && p.threads[t].Outside?
    requires p.fetched <= k && !Occupied(p.start, p.fds, k)
    ensures p.fetched <= last <= k
    ensures OnlyThread(steps, t) && ValidSteps(p, steps) && RunSteps(p, steps) == Claimed(p, t, last)
  {
    var n := FirstFreeSlot(p, k);
    last := p.fetched + n;
    CallThenAlone(p, t, n);
    AloneIsOne(t, n + 1);
    steps := [Call(t)] + Alone(t, n + 1);
  }

  lemma CallThenAlone(p: Pool, t: nat, n: nat)
    requires t < |p.threads| && p.threads[t].Outside?
    requires SomeFree(p.fds) && n == Misses(p.fds, (p.start + p.fetched) % WORD)
    ensures ValidSteps(p, [Call(t)] + Alone(t, n + 1))
    ensures RunSteps(p, [Call(t)] + Alone(t, n + 1)) == Claimed(p, t, p.fetched + n)
  {
    var q := Next(p, Call(t));
    AloneIsUuid(q, t);
    assert q.threads[t := Outside] == p.threads[t := Outside];
    StepsCons(p, Call(t), Alone(t, n + 1));
  }

  /** Any free slot ahead can be claimed by one thread alone: it calls `uuid` until it gets there. */
  lemma {:induction false} CanClaim(p: Pool, t: nat, k: nat) returns (steps: seq<Step>)
    requires t < |p.threads| && p.threads[t].Outside?
    requires p.fetched <= k && !Occupied(p.start, p.fds, k)
    ensures OnlyThread(steps, t) && ValidSteps(p, steps)
    ensures var q := RunSteps(p, steps);
      q.log != [] && q.log[|q.log| - 1] == Claim(Slot(p.start, k)) && Slot(p.start, k) in q.fds
    decreases k - p.fetched
  {
    var last;
    steps, last := OneCall(p, t, k);
    var p1 := Claimed(p, t, last);
    if Slot(p.start, last) != Slot(p.start, k) {
      assert last != k;
      var more := CanClaim(p1, t, k);
      StepsConcat(p, steps, more);
      steps := steps + more;
    }
  }

  /** An erased id comes back: after the erase it is free, and any thread outside `uuid` can, without
      help or interruption, receive exactly this id again. */
  lemma ErasedIdComesBack(p: Pool, id: nat, t: nat) returns (steps: seq<Step>)
    requires p.start < WORD && id < IDS && id in p.fds
    requires t < |p.threads| && p.threads[t].Outside?
    ensures CanStep(p, Erase(id)) && id !in Next(p, Erase(id)).fds
    ensures OnlyThread(steps, t) && ValidSteps(p, [Erase(id)] + steps)
    ensures var q := RunSteps(p, [Erase(id)] + steps);
      q.log != [] && q.log[|q.log| - 1] == Claim(id) && id in q.fds
  {
    EraseFrees(p, id);
    var p1 := Next(p, Erase(id));
    var j := EveryIdIsTried((p.start + p.fetched) % WORD, id);
    SlotFrom(p.start, p.fetched, j);
    steps := CanClaim(p1, t, p.fetched + j);
    StepsCons(p, Erase(id), steps);
  }
}
