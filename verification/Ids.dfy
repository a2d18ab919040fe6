/** The probe sequence behind `Socket::uuid` and `mytimer::uuid`: a 32-bit counter that wraps, reduced
    modulo UINT32_MAX.  The reduction is not injective: both 2^32 - 1 and 0 become the id 0. */
module Ids {

  /** The number of values of the counter. */
  const WORD: nat := 0x1_0000_0000
  /** UINT32_MAX, which is also the number of ids: 0..2^32 - 2. */
  const IDS: nat := 0xFFFF_FFFF

  function Reduce(counter: nat): (id: nat)
    ensures id < IDS
    ensures counter < 0x1_0000_0000 ==> id == if counter == 0xFFFF_FFFF then 0 else counter
  {
    counter % IDS
  }

  /** The id tried by the k-th probe (from 0) of a search that starts at `counter`. */
  function Slot(counter: nat, k: nat): (id: nat)
    ensures id < IDS
  {
    Reduce((counter + k) % WORD)
  }

  /** One turn of the loop: `value` is what the counter shows before the k-th probe. */
  lemma CounterMoves(counter: nat, k: nat, value: nat)
    requires value == (counter + k) % WORD
    ensures value % IDS == Slot(counter, k)
    ensures (value + 1) % WORD == (counter + k + 1) % WORD
  {
  }

  ghost predicate SomeFree(used: set<int>) {
    exists id :: 0 <= id < IDS && id !in used
  }

  ghost predicate Free(used: set<int>, counter: nat, k: nat) {
    Slot(counter, k) !in used
  }

  /** Every id is tried within one turn of the counter. */
  lemma EveryIdIsTried(counter: nat, id: nat) returns (k: nat)
    requires counter < 0x1_0000_0000 && id < 0xFFFF_FFFF
    ensures k < 0x1_0000_0000 && Slot(counter, k) == id
  {
    k := if counter <= id then id - counter else id + WORD - counter;
    assert (counter + k) % WORD == id;
  }

  /** The search ends if and only if some id is free; otherwise every probe fails, for ever. */
  lemma SearchEndsIff(counter: nat, used: set<int>)
    requires counter < WORD
    ensures (exists k: nat :: Free(used, counter, k)) <==> SomeFree(used)
  {
    if SomeFree(used) {
      var id :| 0 <= id < IDS && id !in used;
      var k := EveryIdIsTried(counter, id);
      assert Free(used, counter, k);
    }
  }

  /** The m-th probe is the first to succeed. */
  ghost predicate FirstFree(used: set<int>, counter: nat, m: nat) {
    Free(used, counter, m) && forall j: nat :: j < m ==> !Free(used, counter, j)
  }

  lemma {:induction false} FirstBefore(used: set<int>, counter: nat, k: nat) returns (m: nat)
    requires Free(used, counter, k)
    ensures m <= k && FirstFree(used, counter, m)
    decreases k
  {
    if j: nat :| j < k && Free(used, counter, j) {
      m := FirstBefore(used, counter, j);
    } else {
      m := k;
    }
  }

  lemma SomeIsFirst(used: set<int>, counter: nat)
    requires counter < WORD && SomeFree(used)
    ensures exists m: nat :: m < WORD && FirstFree(used, counter, m)
  {
    var id :| 0 <= id < IDS && id !in used;
    var k := EveryIdIsTried(counter, id);
    var m := FirstBefore(used, counter, k);
  }

  /** The number of failed probes before the search ends. */
  ghost function Misses(used: set<int>, counter: nat): (m: nat)
    requires counter < WORD && SomeFree(used)
    ensures m < WORD && FirstFree(used, counter, m)
  {
    SomeIsFirst(used, counter);
    var m: nat :| m < WORD && FirstFree(used, counter, m);
    m
  }

  lemma MissesIs(used: set<int>, counter: nat, m: nat)
    requires counter < WORD && m < WORD && FirstFree(used, counter, m)
    ensures SomeFree(used) && Misses(used, counter) == m
  {
    SearchEndsIff(counter, used);
    var n := Misses(used, counter);
  }

  /** The k-th probe succeeds exactly when k is the number of misses. */
  lemma ProbeOutcome(used: set<int>, counter: nat, k: nat, value: nat)
    requires counter < WORD && SomeFree(used) && k <= Misses(used, counter)
    requires value == (counter + k) % WORD
    ensures value % IDS == Slot(counter, k)
    ensures value % IDS !in used <==> k == Misses(used, counter)
    ensures (value + 1) % WORD == (counter + k + 1) % WORD
  {
    CounterMoves(counter, k, value);
    assert k < Misses(used, counter) ==> !Free(used, counter, k);
  }

  /** The first `m` probes, as a set of ids. */
  ghost function Tried(counter: nat, m: nat): set<int> {
    set k | 0 <= k < m :: Slot(counter, k)
  }

  /** The probe of one turn that stands on counter 0, and the one that stands on 2^32 - 1. */
  function ProbeOfZero(counter: nat): nat
    requires counter < WORD
  {
    (WORD - counter) % WORD
  }

  function ProbeOfLast(counter: nat): nat
    requires counter < WORD
  {
    IDS - counter
  }

  predicate PassesBoth(counter: nat, m: nat)
    requires counter < WORD
  {
    ProbeOfZero(counter) < m && ProbeOfLast(counter) < m
  }

  /** Two probes of one turn try the same id exactly when they stand on 0 and 2^32 - 1. */
  lemma SameSlotIff(counter: nat, j: nat, k: nat)
    requires counter < WORD && j < k < WORD
    ensures Slot(counter, j) == Slot(counter, k) <==>
      || (j == ProbeOfZero(counter) && k == ProbeOfLast(counter))
      || (j == ProbeOfLast(counter) && k == ProbeOfZero(counter))
  {
  }

  /** The m-th probe repeats an id exactly when it is the one that completes the pair. */
  lemma RepeatIff(counter: nat, m: nat)
    requires counter < WORD && 0 < m <= WORD
    ensures Slot(counter, m - 1) in Tried(counter, m - 1)
       <==> PassesBoth(counter, m) && !PassesBoth(counter, m - 1)
  {
    var z, u := ProbeOfZero(counter), ProbeOfLast(counter);
    if PassesBoth(counter, m) && !PassesBoth(counter, m - 1) {
      var j := if z == m - 1 then u else z;
      SameSlotIff(counter, j, m - 1);
      assert Slot(counter, j) in Tried(counter, m - 1);
    }
    if Slot(counter, m - 1) in Tried(counter, m - 1) {
      var j: nat :| j < m - 1 && Slot(counter, j) == Slot(counter, m - 1);
      SameSlotIff(counter, j, m - 1);
    }
  }

  /** How many ids `m` probes of one turn try: as many as probes, less one exactly when the probes
      have passed both counters that reduce to id 0. */
  lemma {:induction false} TriedSize(counter: nat, m: nat)
    requires counter < WORD && m <= WORD
    ensures m == |Tried(counter, m)| + (if PassesBoth(counter, m) then 1 else 0)
  {
    if m == 0 {
      assert Tried(counter, 0) == {};
    } else {
      TriedSize(counter, m - 1);
      RepeatIff(counter, m);
      assert Tried(counter, m) == Tried(counter, m - 1) + {Slot(counter, m - 1)};
    }
  }

  lemma PickOne<T>(ids: set<T>) returns (i: T)
    requires ids != {}
    ensures i in ids
  {
    i :| i in ids;
  }

  lemma SubsetSize(a: set<int>, b: set<int>)
    requires a <= b
    ensures |a| <= |b|
  {
    assert b == a + (b - a);
  }

  /** The cost of a search: it fails at most once more often than there are used ids - whatever the
      start of the counter, and although the counter wraps in the middle. */
  lemma MissesBound(used: set<int>, counter: nat)
    requires counter < WORD && SomeFree(used)
    ensures Misses(used, counter) <= |used| + 1
    ensures !PassesBoth(counter, Misses(used, counter)) ==> Misses(used, counter) <= |used|
  {
    var m := Misses(used, counter);
    forall id | id in Tried(counter, m)
      ensures id in used
    {
      var k :| 0 <= k < m && Slot(counter, k) == id;
      assert !Free(used, counter, k);
    }
    SubsetSize(Tried(counter, m), used);
    TriedSize(counter, m);
  }

  /** The extra probe does happen: id 0 is tried twice in a row across the end of the turn. */
  lemma MissesBoundIsMet()
    ensures SomeFree({0}) && Misses({0}, IDS) == |{0}| + 1
  {
    assert Slot(IDS, 0) == 0 && Slot(IDS, 1) == 0 && Slot(IDS, 2) == 1;
    assert !Free({0}, IDS, 0) && !Free({0}, IDS, 1) && Free({0}, IDS, 2);
    MissesIs({0}, IDS, 2);
  }

  // ----- how many ids there are -----

  predicate NonNegative(i: int) {
    0 <= i
  }

  ghost function Below(n: nat): set<int> {
    set i | 0 <= i < n && NonNegative(i)
  }

  lemma {:induction false} BelowSize(n: nat)
    ensures |Below(n)| == n
  {
    if n == 0 {
      assert Below(0) == {};
    } else {
      BelowSize(n - 1);
      assert Below(n) == Below(n - 1) + {n - 1};
    }
  }

  /** Among sets of ids, those with a free id left are those with fewer than 2^32 - 1 members. */
  lemma SomeFreeIff(used: set<int>)
    requires used <= Below(IDS)
    ensures SomeFree(used) <==> |used| < 0xFFFF_FFFF
  {
    BelowSize(IDS);
    if SomeFree(used) {
      var id :| 0 <= id < IDS && id !in used;
      SubsetSize(used + {id}, Below(IDS));
    } else {
      assert used == Below(IDS);
    }
  }

  // ----- a search that starts at 0 -----

  /** With ids 0..k-1 taken, a search from 0 fails k times and finds k. */
  lemma SearchFromZero(k: nat)
    requires k < IDS
    ensures SomeFree(Below(k)) && Misses(Below(k), 0) == k && Slot(0, k) == k
  {
    assert Free(Below(k), 0, k);
    forall j: nat | j < k
      ensures !Free(Below(k), 0, j)
    {
      assert Slot(0, j) == j;
    }
    MissesIs(Below(k), 0, k);
  }
}
