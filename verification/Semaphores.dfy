/**
 A counting semaphore used by any number of threads, as a transition system whose atomic steps
 are the sections that the semaphore's spinlock protects. Going to sleep is the end of such a
 section, and a thread that is woken runs the test of the loop in P again in a later one.
 */
module Semaphores {
  import opened Counting
  import opened WaitChannels

  const UINT_MAX := 0xFFFF_FFFF

  datatype PC = Idle | InP | Asleep | Woken | InV

  datatype Call = P | V

  datatype State = State(
    threads: seq<PC>,
    count: nat,
    sleepers: seq<nat>,
    panicked: bool)
  {
    function At(i: nat, pc: PC): State
      requires i < |threads|
    {
      this.(threads := threads[i := pc])
    }
  }

  function Initial(threads: nat, count: nat): State {
    State(seq(threads, _ => Idle), count, [], false)
  }

  predicate Enabled(s: State, i: nat) { !s.panicked && i < |s.threads| && !s.threads[i].Asleep? }

  function WakeOne(s: State): State {
    if s.sleepers == [] || s.sleepers[0] >= |s.threads| then s
    else s.(sleepers := s.sleepers[1..]).At(s.sleepers[0], Woken)
  }

  /** One round of the loop in P. */
  function TryP(s: State, i: nat): State
    requires i < |s.threads|
  {
    if s.count == 0 then s.(sleepers := s.sleepers + [i]).At(i, Asleep)
    else s.(count := s.count - 1).At(i, Idle)
  }

  /** One step of thread `i`; `call` is what it calls if it is not in a call. */
  function Step(s: State, i: nat, call: Call): State
    requires Enabled(s, i)
  {
    match s.threads[i]
    case Idle => s.At(i, if call.P? then InP else InV)
    case InV =>
      if s.count >= UINT_MAX then s.(panicked := true)
      else WakeOne(s.(count := s.count + 1)).At(i, Idle)
    case InP => TryP(s, i)
    case Woken => TryP(s, i)
  }

  function Run(s: State, schedule: seq<(nat, Call)>): State {
    if schedule == [] then s
    else
      var before := Run(s, schedule[..|schedule| - 1]);
      var (i, call) := schedule[|schedule| - 1];
      if Enabled(before, i) then Step(before, i, call) else before
  }

  // ---------------------------------------------------------------------------------------
  // What is seen of a run from outside: which calls begin, and which return.
  // ---------------------------------------------------------------------------------------

  datatype Tally = Tally(psCalled: nat, psReturned: nat, vsCalled: nat, vsReturned: nat)

  /** A thread outside any call that takes a step calls; one that is outside after its step has returned. */
  function Seen(y: Tally, before: PC, after: PC, call: Call): Tally {
    if before.Idle? then
      if call.P? then y.(psCalled := y.psCalled + 1) else y.(vsCalled := y.vsCalled + 1)
    else if !after.Idle? then y
    else if before.InV? then y.(vsReturned := y.vsReturned + 1)
    else y.(psReturned := y.psReturned + 1)
  }

  const None := Tally(0, 0, 0, 0)

  ghost function Calls(y: Tally, s: State, schedule: seq<(nat, Call)>): Tally {
    if schedule == [] then y
    else
      var rest := schedule[..|schedule| - 1];
      var before, after := Run(s, rest), Run(s, schedule);
      var (i, call) := schedule[|schedule| - 1];
      if Enabled(before, i) && i < |after.threads| then
        Seen(Calls(y, s, rest), before.threads[i], after.threads[i], call)
      else Calls(y, s, rest)
  }

  // ---------------------------------------------------------------------------------------
  // The invariant.
  // ---------------------------------------------------------------------------------------

  predicate Sleeping(pc: PC) { pc.Asleep? }

  predicate Awakened(pc: PC) { pc.Woken? }

  predicate Pending(pc: PC) { pc.InP? || pc.Asleep? || pc.Woken? }

  predicate Raising(pc: PC) { pc.InV? }

  ghost predicate Inv(s: State, initial: nat, y: Tally) {
    && QueueIs(s.threads, s.sleepers, Sleeping)
    && s.count + y.psReturned == initial + y.vsReturned
    && y.psCalled == y.psReturned + Count(s.threads, Pending)
    && y.vsCalled == y.vsReturned + Count(s.threads, Raising)
    && (s.sleepers != [] ==> Count(s.threads, Awakened) >= s.count)
    && (s.panicked ==> s.count >= UINT_MAX)
  }

  lemma InitialInv(threads: nat, count: nat)
    ensures Inv(Initial(threads, count), count, None)
  {
    CountNone(Initial(threads, count).threads, Pending);
    CountNone(Initial(threads, count).threads, Raising);
  }

  lemma WakeIs(s: State)
    requires QueueIs(s.threads, s.sleepers, Sleeping) && s.sleepers != []
    ensures s.sleepers[0] < |s.threads| && s.threads[s.sleepers[0]].Asleep?
    ensures QueueIs(s.threads[s.sleepers[0] := Woken], s.sleepers[1..], Sleeping)
  {
    assert s.sleepers[0] in s.sleepers;
    QueueLeft(s.threads, s.sleepers, Sleeping, Woken);
  }

  /** A wakeup leaves the pending calls and adds one to the awakened, unless nobody sleeps. */
  lemma WakeCounts(s: State)
    requires QueueIs(s.threads, s.sleepers, Sleeping)
    ensures var s' := WakeOne(s);
      && QueueIs(s'.threads, s'.sleepers, Sleeping)
      && |s'.threads| == |s.threads|
      && (forall i :: 0 <= i < |s.threads| && !s.threads[i].Asleep? ==> s'.threads[i] == s.threads[i])
      && Count(s'.threads, Pending) == Count(s.threads, Pending)
      && Count(s'.threads, Raising) == Count(s.threads, Raising)
      && Count(s'.threads, Awakened) == Count(s.threads, Awakened) + (if s.sleepers == [] then 0 else 1)
      && s' == s.(threads := s'.threads, sleepers := if s.sleepers == [] then [] else s.sleepers[1..])
  {
    if s.sleepers != [] {
      WakeIs(s);
      CountUpdate(s.threads, Pending, s.sleepers[0], Woken);
      CountUpdate(s.threads, Raising, s.sleepers[0], Woken);
      CountUpdate(s.threads, Awakened, s.sleepers[0], Woken);
    }
  }

  lemma VKeepsInv(s: State, initial: nat, y: Tally, i: nat, call: Call)
    requires Inv(s, initial, y) && Enabled(s, i) && s.threads[i].InV? && s.count < UINT_MAX
    ensures i < |Step(s, i, call).threads|
    ensures Inv(Step(s, i, call), initial, Seen(y, s.threads[i], Step(s, i, call).threads[i], call))
  {
    var s1 := s.(count := s.count + 1);
    assert Step(s, i, call) == WakeOne(s1).At(i, Idle);
    WakeCounts(s1);
    hide QueueIs, WakeOne, Count, Step, Enabled;
    var s2 := WakeOne(s1);
    CountUpdate(s2.threads, Pending, i, Idle);
    CountUpdate(s2.threads, Raising, i, Idle);
    CountUpdate(s2.threads, Awakened, i, Idle);
    QueueSame(s2.threads, s2.sleepers, Sleeping, i, Idle);
  }

  lemma StepKeepsInv(s: State, initial: nat, y: Tally, i: nat, call: Call)
    requires Inv(s, initial, y) && Enabled(s, i)
    ensures i < |Step(s, i, call).threads|
    ensures Inv(Step(s, i, call), initial, Seen(y, s.threads[i], Step(s, i, call).threads[i], call))
  {
    if s.threads[i].InV? {
      if s.count < UINT_MAX { VKeepsInv(s, initial, y, i, call); }
    } else {
      hide QueueIs;
      var pc := Step(s, i, call).threads[i];
      CountUpdate(s.threads, Pending, i, pc);
      CountUpdate(s.threads, Raising, i, pc);
      CountUpdate(s.threads, Awakened, i, pc);
      if pc.Asleep? {
        QueueJoined(s.threads, s.sleepers, Sleeping, i, pc);
      } else {
        QueueSame(s.threads, s.sleepers, Sleeping, i, pc);
      }
    }
  }

  lemma {:induction false} RunKeepsInv(s: State, initial: nat, y: Tally, schedule: seq<(nat, Call)>)
    requires Inv(s, initial, y)
    ensures Inv(Run(s, schedule), initial, Calls(y, s, schedule))
  {
    hide Inv, Step, Seen;
    if schedule != [] {
      var rest := schedule[..|schedule| - 1];
      var (i, call) := schedule[|schedule| - 1];
      RunKeepsInv(s, initial, y, rest);
      if Enabled(Run(s, rest), i) { StepKeepsInv(Run(s, rest), initial, Calls(y, s, rest), i, call); }
    }
  }

  // ---------------------------------------------------------------------------------------
  // What holds in every run.
  // ---------------------------------------------------------------------------------------

  /**
   The count is what it was at first, plus the Vs that have returned, less the Ps that have. Calls
   return no more often than they were made, and a V that panics finds the count at its limit.
   */
  lemma CountIsConserved(threads: nat, initial: nat, schedule: seq<(nat, Call)>)
    ensures var s, y := Run(Initial(threads, initial), schedule), Calls(None, Initial(threads, initial), schedule);
      && s.count == initial + y.vsReturned - y.psReturned
      && y.psReturned <= y.psCalled && y.vsReturned <= y.vsCalled
      && (s.sleepers != [] ==> Count(s.threads, Awakened) >= s.count)
      && (s.panicked ==> initial + y.vsReturned - y.psReturned >= UINT_MAX)
  {
    InitialInv(threads, initial);
    RunKeepsInv(Initial(threads, initial), initial, None, schedule);
    hide Run, QueueIs, Calls;
  }

  ghost predicate Halted(s: State) {
    forall i: nat :: i < |s.threads| && !s.threads[i].Idle? ==> !Enabled(s, i)
  }

  /**
   When no call can move, every V that was called has returned, and as many Ps as were called, or as
   the count and the Vs called allow, whichever is less: no wakeup is lost and no P returns that
   should not.
   */
  lemma HaltedIsExact(threads: nat, initial: nat, schedule: seq<(nat, Call)>)
    requires Halted(Run(Initial(threads, initial), schedule)) && !Run(Initial(threads, initial), schedule).panicked
    ensures var y := Calls(None, Initial(threads, initial), schedule);
      && y.vsReturned == y.vsCalled
      && y.psReturned == if y.psCalled <= initial + y.vsCalled then y.psCalled else initial + y.vsCalled
  {
    var s := Run(Initial(threads, initial), schedule);
    InitialInv(threads, initial);
    RunKeepsInv(Initial(threads, initial), initial, None, schedule);
    hide Run, Calls;
    forall i: nat | i < |s.threads| ensures s.threads[i].Idle? || s.threads[i].Asleep? {
      assert s.threads[i].Idle? || !Enabled(s, i);
    }
    CountNone(s.threads, Awakened);
    CountNone(s.threads, Raising);
    if s.sleepers == [] {
      forall i: nat | i < |s.threads| ensures !Pending(s.threads[i]) { assert i !in s.sleepers; }
      CountNone(s.threads, Pending);
    }
  }

  // ---------------------------------------------------------------------------------------
  // Threads are woken in the order in which they went to sleep.
  // ---------------------------------------------------------------------------------------

  /** Whether a step wakes somebody. */
  ghost predicate Wakes(s: State, s': State) {
    exists j: nat :: j < |s.threads| && j < |s'.threads| && s.threads[j].Asleep? && !s'.threads[j].Asleep?
  }

  /** A thread that goes to sleep is the last; one that is woken was the first. */
  lemma SleepersInOrder(s: State, i: nat, call: Call)
    requires Enabled(s, i) && QueueIs(s.threads, s.sleepers, Sleeping)
    ensures var s' := Step(s, i, call);
      && i < |s'.threads|
      && s'.sleepers == (if Wakes(s, s') && s.sleepers != [] then s.sleepers[1..]
                         else if s'.threads[i].Asleep? then s.sleepers + [i]
                         else s.sleepers)
      && forall j: nat :: j < |s.threads| && j < |s'.threads| && s.threads[j].Asleep? && !s'.threads[j].Asleep? ==>
           s.sleepers != [] && j == s.sleepers[0]
  {
    var s' := Step(s, i, call);
    if s.threads[i].InV? && s.count < UINT_MAX && s.sleepers != [] {
      WakeIs(s);
      assert s.threads[s.sleepers[0]].Asleep? && !s'.threads[s.sleepers[0]].Asleep?;
    }
  }

  /** How many steps of the schedule wake somebody. */
  ghost function Wakeups(s: State, schedule: seq<(nat, Call)>): nat {
    if schedule == [] then 0
    else
      var rest := schedule[..|schedule| - 1];
      Wakeups(s, rest) + if Wakes(Run(s, rest), Run(s, schedule)) then 1 else 0
  }

  /** So a sleeper with `k` before it is the one that the next wakeup but `k` wakes. */
  lemma {:induction false} WokenInTurn(s: State, initial: nat, y: Tally, schedule: seq<(nat, Call)>, k: nat)
    requires Inv(s, initial, y) && k < |s.sleepers| && Wakeups(s, schedule) <= k
    ensures var s' := Run(s, schedule);
      k - Wakeups(s, schedule) < |s'.sleepers| && s'.sleepers[k - Wakeups(s, schedule)] == s.sleepers[k]
  {
    if schedule != [] {
      var rest := schedule[..|schedule| - 1];
      var (i, call) := schedule[|schedule| - 1];
      WokenInTurn(s, initial, y, rest, k);
      RunKeepsInv(s, initial, y, rest);
      if Enabled(Run(s, rest), i) { SleepersInOrder(Run(s, rest), i, call); }
      hide Step, Inv, Enabled;
    }
  }

  predicate Called(pc: PC) { !pc.Idle? }

  predicate Awake(pc: PC) { pc.InP? || pc.Woken? || pc.InV? }

  /** The steps that calls may still take, counting those a V sets others to by its wakeup. */
  function Work(threads: seq<PC>): nat {
    Count(threads, Called) + Count(threads, Awake)
  }

  lemma StepWorks(s: State, i: nat, call: Call)
    requires QueueIs(s.threads, s.sleepers, Sleeping) && Enabled(s, i) && !s.threads[i].Idle?
    ensures Step(s, i, call).panicked || Work(Step(s, i, call).threads) < Work(s.threads)
  {
    var s' := Step(s, i, call);
    if s.threads[i].InV? && s.sleepers != [] {
      WakeIs(s);
      var mid := s.threads[s.sleepers[0] := Woken];
      CountUpdate(s.threads, Called, s.sleepers[0], Woken);
      CountUpdate(s.threads, Awake, s.sleepers[0], Woken);
      CountUpdate(mid, Called, i, Idle);
      CountUpdate(mid, Awake, i, Idle);
    } else {
      CountUpdate(s.threads, Called, i, s'.threads[i]);
      CountUpdate(s.threads, Awake, i, s'.threads[i]);
    }
  }

  /** Every step of the schedule is a step of a call that has begun. */
  ghost predicate NoNewCalls(s: State, schedule: seq<(nat, Call)>) {
    schedule == [] ||
    (var before := Run(s, schedule[..|schedule| - 1]);
     var (i, call) := schedule[|schedule| - 1];
     NoNewCalls(s, schedule[..|schedule| - 1]) && Enabled(before, i) && !before.threads[i].Idle?)
  }

  /** However they are scheduled, calls that have begun halt within a bounded number of steps. */
  lemma {:induction false} CallsSettle(s: State, initial: nat, y: Tally, schedule: seq<(nat, Call)>)
    requires Inv(s, initial, y) && NoNewCalls(s, schedule) && !Run(s, schedule).panicked
    ensures |schedule| + Work(Run(s, schedule).threads) <= Work(s.threads)
  {
    if schedule != [] {
      var before := Run(s, schedule[..|schedule| - 1]);
      var (i, call) := schedule[|schedule| - 1];
      CallsSettle(s, initial, y, schedule[..|schedule| - 1]);
      RunKeepsInv(s, initial, y, schedule[..|schedule| - 1]);
      StepWorks(before, i, call);
      hide Step, Work, QueueIs;
    }
  }
}
