/** The class `mytimer` and its static tables, updated in place.  Each method is proved against the
    function on values of Timers.dfy on which the theorems about runs rest. */
module TimerObjects {
  import opened Ids
  import opened Timers

  /** The static members: `timerSet_` and `mapIdToTimer_`. */
  class Tables {
    var timerSet: set<int>
    var mapIdToTimer: map<int, MyTimer>

    constructor ()
      ensures timerSet == {} && mapIdToTimer == map[]
    {
      timerSet, mapIdToTimer := {}, map[];
    }

    method TryLockId(id: int) returns (locked: bool)
      modifies this`timerSet
      ensures locked == (id !in old(timerSet)) && timerSet == old(timerSet) + {id}
    {
      locked := id !in timerSet;
      timerSet := timerSet + {id};
    }

    /** `cancelById`: the timer registered under the id is cancelled; no other timer changes. */
    method CancelById(id: int)
      modifies mapIdToTimer.Values
      ensures id in mapIdToTimer ==> mapIdToTimer[id].View() == Cancelled(old(mapIdToTimer[id].View()))
      ensures forall k <- mapIdToTimer :: id !in mapIdToTimer || mapIdToTimer[k] != mapIdToTimer[id] ==>
        mapIdToTimer[k].View() == old(mapIdToTimer[k].View())
    {
      if id in mapIdToTimer {
        mapIdToTimer[id].Cancel();
      }
    }
  }

  class MyTimer {
    const id: int
    const msTime: int
    var bLoop: bool
    /** `uuid_`, the counter of this timer */
    var uuid: int
    var expiry: int
    var waits: seq<Wait>

    ghost function View(): Timer
      reads this
    {
      Timer(id, msTime, bLoop, expiry, waits)
    }

    /** The constructor.  `seed` is what the uninitialised `uuid_` happens to hold. */
    constructor (tables: Tables, now: int, msTime: int, loop: bool, seed: int)
      requires IsInt(seed) && SomeFree(Unsigned(tables.timerSet))
      requires forall i <- tables.timerSet :: IsInt(i)
      modifies tables`timerSet
      ensures View() == EntryOf(NewId(old(tables.timerSet), seed), now, msTime, loop).timer
      ensures tables.timerSet == old(tables.timerSet) + {id}
      ensures id !in old(tables.timerSet)
      ensures IsInt(uuid) && ToUnsigned(uuid)
        == (ToUnsigned(seed) + SearchCost(old(tables.timerSet), seed)) % WORD
    {
      var newId, counter, probes := Uuid(tables, seed);
      id := newId;
      uuid := counter;
      var again := tables.TryLockId(newId); // the constructor inserts the id once more
      this.msTime := msTime;
      bLoop := loop;
      expiry := now + msTime;
      waits := [];
      new;
      Start();
    }

    /** `start` */
    method Start()
      modifies this`waits
      ensures View() == Started(old(View()))
    {
      waits := waits + [Wait(expiry, Pending)];
    }

    /** `retain`: `emplace` keeps a timer that is already there under the id. */
    method Retain(tables: Tables)
      modifies tables`mapIdToTimer
      ensures tables.mapIdToTimer ==
        if id in old(tables.mapIdToTimer) then old(tables.mapIdToTimer) else old(tables.mapIdToTimer)[id := this]
    {
      if id !in tables.mapIdToTimer {
        tables.mapIdToTimer := tables.mapIdToTimer[id := this];
      }
    }

    /** `deadline_timer::cancel` */
    method CancelWaits()
      modifies this`waits
      ensures View() == old(View()).(waits := AbortPending(old(waits)))
    {
      waits := AbortPending(waits);
    }

    /** `cancel` */
    method Cancel()
      modifies this
      ensures View() == Cancelled(old(View()))
    {
      bLoop := false;
      CancelWaits();
    }

    /** The completion handler up to the callback: it takes its completion off the queue, and calls
        back exactly when the completion is a success. */
    method OnWait(i: nat) returns (callsBack: bool)
      requires i < |waits| && !waits[i].status.Pending?
      modifies this`waits
      ensures View() == Dequeued(old(View()), i)
      ensures callsBack <==> old(waits[i].status) == Ready
    {
      callsBack := waits[i].status.Ready?;
      waits := waits[..i] + waits[i + 1..];
    }

    /** The rest of the handler, after a callback. */
    method AfterCallback()
      modifies this
      ensures View() == Rearmed(old(View()))
    {
      if bLoop {
        CancelWaits();
        expiry := expiry + msTime;
        Start();
      }
    }
  }

  /** `uuid`: the id is the first free one in the order of the timer's own counter; `probes` counts
      the turns of the loop. */
  method Uuid(tables: Tables, seed: int) returns (ret: int, counter: int, ghost probes: nat)
    requires IsInt(seed) && SomeFree(Unsigned(tables.timerSet))
    requires forall i <- tables.timerSet :: IsInt(i)
    modifies tables`timerSet
    ensures ret == NewId(old(tables.timerSet), seed)
    ensures tables.timerSet == old(tables.timerSet) + {ret}
    ensures probes == SearchCost(old(tables.timerSet), seed)
    ensures IsInt(counter) && ToUnsigned(counter) == (ToUnsigned(seed) + probes) % WORD
  {
    ghost var ids := tables.timerSet;
    ghost var start := ToUnsigned(seed);
    ghost var misses := Misses(Unsigned(ids), start);
    probes := 0;
    counter := seed;
    ret := 0;
    var locked := false;
    while !locked
      invariant IsInt(counter) && probes <= misses + 1 && ToUnsigned(counter) == (start + probes) % WORD
      invariant locked ==> probes == misses + 1 && ret == NewId(ids, seed) && tables.timerSet == ids + {ret}
      invariant !locked ==> probes <= misses && tables.timerSet == ids
      decreases misses + 1 - probes
    {
      ProbeStep(ids, seed, probes, counter);
      ret := Reduced(counter);
      counter := Incremented(counter);
      locked := tables.TryLockId(ret);
      probes := probes + 1;
      assert !locked ==> tables.timerSet == ids;
    }
  }

  /** `ret %= UINT32_MAX` on an `int`: the operand is converted to `unsigned` and the result back, so
      of all counter values only -1 is changed. */
  function Reduced(counter: int): (id: int)
    requires IsInt(counter)
    ensures id == if counter == -1 then 0 else counter
  {
    ToSigned(ToUnsigned(counter) % IDS)
  }

  /** `fetch_add(1)` on an atomic `int` wraps. */
  function Incremented(counter: int): (next: int)
    requires IsInt(counter)
    ensures IsInt(next) && (counter < 0x7FFF_FFFF ==> next == counter + 1)
    ensures ToUnsigned(next) == (ToUnsigned(counter) + 1) % WORD
  {
    if counter == 0x7FFF_FFFF then -0x8000_0000 else counter + 1
  }

  /** The k-th probe succeeds exactly when k is the number of misses, and then finds the new id. */
  lemma ProbeStep(ids: set<int>, seed: int, k: nat, counter: int)
    requires IsInt(seed) && IsInt(counter) && ToUnsigned(counter) == (ToUnsigned(seed) + k) % WORD
    requires forall i <- ids :: IsInt(i)
    requires SomeFree(Unsigned(ids)) && k <= Misses(Unsigned(ids), ToUnsigned(seed))
    ensures Reduced(counter) !in ids <==> k == Misses(Unsigned(ids), ToUnsigned(seed))
    ensures Reduced(counter) !in ids ==> Reduced(counter) == NewId(ids, seed)
    ensures ToUnsigned(Incremented(counter)) == (ToUnsigned(seed) + k + 1) % WORD
  {
    var start := ToUnsigned(seed);
    ProbeOutcome(Unsigned(ids), start, k, ToUnsigned(counter));
    TakenIff(ids, Slot(start, k));
  }

  /** The `timer` closure: construct, `retain`, return the id. */
  method NewTimer(tables: Tables, now: int, msTime: int, loop: bool, seed: int) returns (id: int)
    requires IsInt(seed) && SomeFree(Unsigned(tables.timerSet))
    requires forall i <- tables.timerSet :: IsInt(i)
    requires tables.mapIdToTimer.Keys == tables.timerSet
    modifies tables
    ensures id !in old(tables.timerSet) && tables.timerSet == old(tables.timerSet) + {id}
    ensures tables.mapIdToTimer.Keys == tables.timerSet
    ensures tables.mapIdToTimer[id].View() == EntryOf(NewId(old(tables.timerSet), seed), now, msTime, loop).timer
    ensures tables.mapIdToTimer[id].id == id && fresh(tables.mapIdToTimer[id])
    ensures forall k <- old(tables.mapIdToTimer) :: tables.mapIdToTimer[k] == old(tables.mapIdToTimer[k])
  {
    var timer := new MyTimer(tables, now, msTime, loop, seed);
    assert timer.id !in tables.mapIdToTimer.Keys;
    timer.Retain(tables);
    id := timer.id;
  }
}
