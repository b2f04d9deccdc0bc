/**
 Producers and consumers on a bounded buffer, over a lock and two condition variables, as a
 transition system. Its atomic steps are the sections the primitives' own spinlocks protect, so
 its runs are all interleavings of any number of threads. The spinlock of a condition variable
 stays held from before cv_wait releases the lock until the thread is on the wait channel, and
 so is part of the state.
 */
module SharedBuffer {
  import opened Counting
  import opened WaitChannels

  datatype Side = Producer | Consumer {
    function Other(): Side {
      match this
      case Producer => Consumer
      case Consumer => Producer
    }
  }

  /** What a thread calls next. */
  datatype Call = Produce(item: int) | Consume {
    function Side(): Side { if Produce? then Producer else Consumer }
  }

  /** Where a thread is. `again` says that it comes back from cv_wait. */
  datatype PC =
    | Idle
    | Acquire(again: bool)
    | LockAsleep(again: bool)
    | Check
    | Wait0
    | Wait1
    | Wait2
    | CvAsleep
    | CvWoken
    | UpdateList
    | UpdateCounter
    | Signal
    | Release

  /**
   A thread in a call of produce, with its argument as the item, or of consume, with what it will
   return; while it is in none, the side says nothing.
   */
  datatype Thread = Thread(side: Side, pc: PC, item: int)

  datatype State = State(
    threads: seq<Thread>,
    isBusy: bool,
    lockThread: int,
    lockq: seq<nat>,
    prodq: seq<nat>,
    conq: seq<nat>,
    prodSpin: int,
    conSpin: int,
    list: seq<int>,
    counter: int,
    max: nat)
  {
    /** The wait channel and the spinlock of the condition variable a side waits on. */
    function Queue(side: Side): seq<nat> { if side.Producer? then prodq else conq }

    function Spin(side: Side): int { if side.Producer? then prodSpin else conSpin }

    function WithQueue(side: Side, q: seq<nat>): State {
      if side.Producer? then this.(prodq := q) else this.(conq := q)
    }

    function WithSpin(side: Side, i: int): State {
      if side.Producer? then this.(prodSpin := i) else this.(conSpin := i)
    }

    function At(i: nat, pc: PC): State
      requires i < |threads|
    {
      this.(threads := threads[i := threads[i].(pc := pc)])
    }

    /** How many more operations of a side the buffer admits as it is. */
    function Room(side: Side): int { if side.Producer? then max - counter else counter }
  }

  function Initial(threads: nat, max: nat): State {
    State(seq(threads, _ => Thread(Producer, Idle, 0)), false, -1, [], [], [], -1, -1, [], 0, max)
  }

  /** The section of lock_release: free the lock and wake the first thread waiting for it. */
  function ReleaseLock(s: State): State {
    var r := s.(isBusy := false, lockThread := -1);
    if s.lockq == [] || s.lockq[0] >= |s.threads| then r
    else
      var w := s.lockq[0];
      var again := s.threads[w].pc.LockAsleep? && s.threads[w].pc.again;
      r.(lockq := s.lockq[1..]).At(w, Acquire(again))
  }

  /** The section of cv_signal on the condition variable of `side`. */
  function WakeOne(s: State, side: Side): State {
    var q := s.Queue(side);
    if q == [] || q[0] >= |s.threads| then s else s.WithQueue(side, q[1..]).At(q[0], CvWoken)
  }

  predicate Enabled(s: State, i: nat) {
    && i < |s.threads|
    && var side := s.threads[i].side;
       match s.threads[i].pc
       case LockAsleep(_) => false
       case CvAsleep => false
       case Wait0 => s.Spin(side) == -1
       case CvWoken => s.Spin(side) == -1
       case Signal => s.Spin(side.Other()) == -1
       case _ => true
  }

  /** Where a step takes the stepping thread. */
  function Next(s: State, i: nat): PC
    requires Enabled(s, i)
  {
    var t := s.threads[i];
    match t.pc
    case Idle => Acquire(false)
    case Acquire(again) => if s.isBusy then LockAsleep(again) else Check
    case Check => if s.Room(t.side) == 0 then Wait0 else UpdateList
    case Wait0 => Wait1
    case Wait1 => Wait2
    case Wait2 => CvAsleep
    case CvWoken => Acquire(true)
    case UpdateList => UpdateCounter
    case UpdateCounter => Signal
    case Signal => Release
    case Release => Idle
  }

  /** What else it changes; `call` is what the thread calls if it is in no call. */
  function Effect(s: State, i: nat, call: Call): State
    requires Enabled(s, i)
  {
    var t := s.threads[i];
    match t.pc
    case Idle => s.(threads := s.threads[i := Thread(call.Side(), Idle, if call.Produce? then call.item else 0)])
    case Acquire(_) => if s.isBusy then s.(lockq := s.lockq + [i]) else s.(isBusy := true, lockThread := i)
    case Wait0 => s.WithSpin(t.side, i)
    case Wait1 => ReleaseLock(s)
    case Wait2 => s.WithQueue(t.side, s.Queue(t.side) + [i]).WithSpin(t.side, -1)
    case UpdateList =>
      if t.side.Producer? then s.(list := s.list + [t.item])
      else if s.list == [] then s
      else s.(list := s.list[1..], threads := s.threads[i := t.(item := s.list[0])])
    case UpdateCounter => s.(counter := if t.side.Producer? then s.counter + 1 else s.counter - 1)
    case Signal => WakeOne(s, t.side.Other())
    case Release => ReleaseLock(s)
    case _ => s
  }

  /** One step of thread `i`. */
  function Step(s: State, i: nat, call: Call): State
    requires Enabled(s, i)
  {
    Effect(s, i, call).At(i, Next(s, i))
  }

  /**
   The state after a schedule: who steps, and what it calls if it is in no call. Steps that are not
   enabled do nothing.
   */
  function Run(s: State, schedule: seq<(nat, Call)>): State {
    if schedule == [] then s
    else
      var before := Run(s, schedule[..|schedule| - 1]);
      var (i, call) := schedule[|schedule| - 1];
      if Enabled(before, i) then Step(before, i, call) else before
  }

  // ---------------------------------------------------------------------------------------
  // The invariant.
  // ---------------------------------------------------------------------------------------

  predicate HoldsLock(pc: PC) {
    pc.Check? || pc.Wait0? || pc.Wait1? || pc.UpdateList? || pc.UpdateCounter? || pc.Signal? || pc.Release?
  }

  predicate HoldsSpin(pc: PC) { pc.Wait1? || pc.Wait2? }

  /** At most one thread holds the lock, and the lock says so. */
  ghost predicate Exclusive(s: State) {
    && (!s.isBusy ==> s.lockThread == -1)
    && (s.isBusy ==> 0 <= s.lockThread < |s.threads|)
    && HolderIs(s.threads, s.lockThread)
  }

  ghost predicate HolderIs(threads: seq<Thread>, holder: int) {
    forall i :: 0 <= i < |threads| ==> (HoldsLock(threads[i].pc) <==> holder == i)
  }

  predicate SleepsOnLock(t: Thread) { t.pc.LockAsleep? }

  predicate SleepsOnCv(side: Side, t: Thread) { t.side == side && t.pc.CvAsleep? }

  /** Every sleeping thread is on exactly the wait channel it sleeps on, and nobody else is. */
  ghost predicate Queued(s: State) {
    && QueueIs(s.threads, s.lockq, SleepsOnLock)
    && QueueIs(s.threads, s.prodq, t => SleepsOnCv(Producer, t))
    && QueueIs(s.threads, s.conq, t => SleepsOnCv(Consumer, t))
  }

  /** The condition variables' spinlocks are held by threads on their way to sleep. */
  ghost predicate Spins(s: State) {
    && (s.prodSpin != -1 ==> 0 <= s.prodSpin < |s.threads|)
    && (s.conSpin != -1 ==> 0 <= s.conSpin < |s.threads|)
    && SpinIs(s.threads, Producer, s.prodSpin)
    && SpinIs(s.threads, Consumer, s.conSpin)
  }

  ghost predicate SpinIs(threads: seq<Thread>, side: Side, holder: int) {
    forall i :: 0 <= i < |threads| ==> (threads[i].side == side && HoldsSpin(threads[i].pc) <==> holder == i)
  }

  /** What the holder of the lock knows about the buffer where it is. */
  ghost predicate HolderKnows(s: State, i: nat)
    requires i < |s.threads|
  {
    var t := s.threads[i];
    && (t.pc.Wait0? || t.pc.Wait1? ==> s.Room(t.side) == 0)
    && (t.pc.UpdateList? || t.pc.UpdateCounter? ==> s.Room(t.side) > 0)
  }

  /** How far the list is ahead of the counter. */
  function Ahead(s: State): int {
    if 0 <= s.lockThread < |s.threads| && s.threads[s.lockThread].pc.UpdateCounter? then
      (if s.threads[s.lockThread].side.Producer? then 1 else -1)
    else 0
  }

  /** The buffer is within its bounds, and the counter its length when the lock is free. */
  ghost predicate Fifo(s: State) {
    && 0 <= s.counter <= s.max
    && |s.list| == s.counter + Ahead(s)
    && forall i :: 0 <= i < |s.threads| ==> HolderKnows(s, i)
  }

  /** Nobody sleeps on a free lock unless someone has been woken to take it. */
  ghost predicate LockNotLost(s: State) {
    !s.isBusy && s.lockq != [] ==> exists i :: 0 <= i < |s.threads| && s.threads[i].pc.Acquire?
  }

  /** A thread of `side` that has been woken, or is past its wait, and has not yet operated. */
  predicate Active(side: Side, t: Thread) {
    && t.side == side
    && (t.pc.CvWoken? || t.pc == Acquire(true) || t.pc == LockAsleep(true) || t.pc.Check?
        || t.pc.UpdateList? || t.pc.UpdateCounter?)
  }

  /** A thread of the other side whose operation is done but not yet signalled. */
  predicate Signals(side: Side, t: Thread) { t.side == side.Other() && t.pc.Signal? }

  predicate Credit(side: Side, t: Thread) { Active(side, t) || Signals(side, t) }

  function Credits(s: State, side: Side): nat { Count(s.threads, (t: Thread) => Credit(side, t)) }

  /** Somebody of `side` sleeps on its condition variable, or is about to. */
  ghost predicate Waiting(s: State, side: Side) {
    s.Queue(side) != [] || exists i :: 0 <= i < |s.threads| && s.threads[i].side == side && s.threads[i].pc.Wait2?
  }

  /** If threads of a side wait, then threads woken or to be woken cover all that there is to do. */
  ghost predicate NoLostWakeup(s: State, side: Side) {
    Waiting(s, side) ==> Credits(s, side) >= s.Room(side)
  }

  ghost predicate Inv(s: State) {
    && Exclusive(s) && Queued(s) && Spins(s) && Fifo(s) && LockNotLost(s)
    && NoLostWakeup(s, Producer) && NoLostWakeup(s, Consumer)
  }

  lemma InitialInv(threads: nat, max: nat)
    ensures Inv(Initial(threads, max))
  {
  }

  // ---------------------------------------------------------------------------------------
  // Every step keeps the invariant.
  // ---------------------------------------------------------------------------------------

  /** Whom the release of the lock wakes: the first sleeper, who then is about to try again. */
  lemma LockWakes(s: State)
    requires Queued(s) && s.lockq != []
    ensures s.lockq[0] < |s.threads| && s.threads[s.lockq[0]].pc.LockAsleep?
  {
    assert s.lockq[0] in s.lockq;
  }

  lemma CvWakes(s: State, side: Side)
    requires Queued(s) && s.Queue(side) != []
    ensures s.Queue(side)[0] < |s.threads|
    ensures s.threads[s.Queue(side)[0]].pc.CvAsleep? && s.threads[s.Queue(side)[0]].side == side
  {
    assert s.Queue(side)[0] in s.Queue(side);
  }

  lemma ReleaseKeepsQueued(s: State)
    requires Queued(s)
    ensures Queued(ReleaseLock(s))
  {
    if s.lockq != [] {
      LockWakes(s);
      var w := s.lockq[0];
      var t := s.threads[w].(pc := Acquire(s.threads[w].pc.again));
      QueueLeft(s.threads, s.lockq, SleepsOnLock, t);
      QueueSame(s.threads, s.prodq, t => SleepsOnCv(Producer, t), w, t);
      QueueSame(s.threads, s.conq, t => SleepsOnCv(Consumer, t), w, t);
    }
  }

  lemma WakeKeepsQueued(s: State, side: Side)
    requires Queued(s)
    ensures Queued(WakeOne(s, side))
  {
    if s.Queue(side) != [] {
      CvWakes(s, side);
      var w := s.Queue(side)[0];
      var t := s.threads[w].(pc := CvWoken);
      QueueSame(s.threads, s.lockq, SleepsOnLock, w, t);
      QueueLeft(s.threads, s.Queue(side), t => SleepsOnCv(side, t), t);
      QueueSame(s.threads, s.Queue(side.Other()), t => SleepsOnCv(side.Other(), t), w, t);
    }
  }

  /** Moving a thread between points where it does not sleep changes no queue. */
  lemma MoveKeepsQueued(s: State, i: nat, t: Thread)
    requires Queued(s) && i < |s.threads|
    requires !s.threads[i].pc.LockAsleep? && !s.threads[i].pc.CvAsleep? && !t.pc.LockAsleep? && !t.pc.CvAsleep?
    ensures Queued(s.(threads := s.threads[i := t]))
  {
    QueueSame(s.threads, s.lockq, SleepsOnLock, i, t);
    QueueSame(s.threads, s.prodq, t => SleepsOnCv(Producer, t), i, t);
    QueueSame(s.threads, s.conq, t => SleepsOnCv(Consumer, t), i, t);
  }

  lemma KeepsQueued(s: State, i: nat, call: Call)
    requires Queued(s) && Enabled(s, i)
    ensures Queued(Step(s, i, call))
  {
    hide QueueIs;
    var t := s.threads[i];
    match t.pc
    case LockAsleep(_) =>
    case CvAsleep =>
    case Acquire(again) =>
      if s.isBusy {
        var t' := t.(pc := LockAsleep(again));
        QueueJoined(s.threads, s.lockq, SleepsOnLock, i, t');
        QueueSame(s.threads, s.prodq, t => SleepsOnCv(Producer, t), i, t');
        QueueSame(s.threads, s.conq, t => SleepsOnCv(Consumer, t), i, t');
      } else {
        MoveKeepsQueued(s, i, t.(pc := Check));
      }
    case Wait2 =>
      var t' := t.(pc := CvAsleep);
      QueueSame(s.threads, s.lockq, SleepsOnLock, i, t');
      QueueJoined(s.threads, s.Queue(t.side), t => SleepsOnCv(s.threads[i].side, t), i, t');
      QueueSame(s.threads, s.Queue(t.side.Other()), t => SleepsOnCv(s.threads[i].side.Other(), t), i, t');
    case Wait1 => ReleaseKeepsQueued(s); ReleaseSpares(s, i); MoveKeepsQueued(ReleaseLock(s), i, t.(pc := Wait2));
    case Release => ReleaseKeepsQueued(s); ReleaseSpares(s, i); MoveKeepsQueued(ReleaseLock(s), i, t.(pc := Idle));
    case Signal =>
      WakeKeepsQueued(s, t.side.Other()); WakeSpares(s, t.side.Other(), i);
      MoveKeepsQueued(WakeOne(s, t.side.Other()), i, t.(pc := Release));
    case _ =>
      var t' := Effect(s, i, call).threads[i].(pc := Next(s, i));
      MoveKeepsQueued(s, i, t');
      assert Step(s, i, call).threads == s.threads[i := t'];
  }

  /** Waking someone does not change a thread that is awake. */
  lemma ReleaseSpares(s: State, i: nat)
    requires Queued(s) && i < |s.threads| && !s.threads[i].pc.LockAsleep?
    ensures |ReleaseLock(s).threads| == |s.threads| && ReleaseLock(s).threads[i] == s.threads[i]
  {
    if s.lockq != [] { LockWakes(s); }
  }

  lemma WakeSpares(s: State, side: Side, i: nat)
    requires Queued(s) && i < |s.threads| && !s.threads[i].pc.CvAsleep?
    ensures |WakeOne(s, side).threads| == |s.threads| && WakeOne(s, side).threads[i] == s.threads[i]
  {
    if s.Queue(side) != [] { CvWakes(s, side); }
  }

  /** What the two wakeups leave alone. */
  lemma ReleaseFrame(s: State)
    ensures var r := ReleaseLock(s); r == s.(isBusy := false, lockThread := -1, lockq := r.lockq, threads := r.threads)
  {
  }

  lemma WakeFrame(s: State, side: Side)
    ensures var r := WakeOne(s, side); r == s.WithQueue(side, r.Queue(side)).(threads := r.threads)
  {
  }

  /** A sleeper that is woken goes on where it will find the lock or the spinlock to take. */
  predicate Woken(t: Thread, t': Thread) {
    || (t.pc.LockAsleep? && t' == t.(pc := Acquire(t.pc.again)))
    || (t.pc.CvAsleep? && t' == t.(pc := CvWoken))
  }

  /** Whom a step wakes, or -1. */
  ghost function WokenBy(s: State, i: nat): int
    requires i < |s.threads|
  {
    match s.threads[i].pc
    case Wait1 => if s.lockq != [] then s.lockq[0] else -1
    case Release => if s.lockq != [] then s.lockq[0] else -1
    case Signal =>
      var q := s.Queue(s.threads[i].side.Other());
      if q != [] then q[0] else -1
    case _ => -1
  }

  /** A wakeup moves the first thread of a queue, if there is one, and it sleeps. */
  ghost predicate FirstWoken(q: seq<nat>, before: seq<Thread>, after: seq<Thread>) {
    && |after| == |before|
    && (q == [] ==> after == before)
    && (q != [] ==>
          && q[0] < |before| && Woken(before[q[0]], after[q[0]])
          && after == before[q[0] := after[q[0]]])
  }

  lemma ReleaseThreads(s: State)
    requires Queued(s)
    ensures FirstWoken(s.lockq, s.threads, ReleaseLock(s).threads)
  {
    if s.lockq != [] { LockWakes(s); }
  }

  lemma WakeThreads(s: State, side: Side)
    requires Queued(s)
    ensures FirstWoken(s.Queue(side), s.threads, WakeOne(s, side).threads)
  {
    if s.Queue(side) != [] { CvWakes(s, side); }
  }

  predicate Wakes(pc: PC) { pc.Wait1? || pc.Release? || pc.Signal? }

  lemma EffectWakes(s: State, i: nat, call: Call)
    requires Queued(s) && Enabled(s, i) && Wakes(s.threads[i].pc)
    ensures var w, threads := WokenBy(s, i), Effect(s, i, call).threads;
      && |threads| == |s.threads| && threads[i] == s.threads[i]
      && (w == -1 ==> threads == s.threads)
      && (w != -1 ==>
           && 0 <= w < |s.threads| && w != i && Woken(s.threads[w], threads[w])
           && threads == s.threads[w := threads[w]])
  {
    hide Queued, ReleaseLock, WakeOne;
    match s.threads[i].pc
    case Wait1 => ReleaseThreads(s);
    case Release => ReleaseThreads(s);
    case Signal => WakeThreads(s, s.threads[i].side.Other());
  }

  lemma EffectStays(s: State, i: nat, call: Call)
    requires Enabled(s, i) && !Wakes(s.threads[i].pc)
    ensures var threads := Effect(s, i, call).threads;
      && |threads| == |s.threads| && threads == s.threads[i := threads[i]]
      && (s.threads[i].pc.Idle? || threads[i].side == s.threads[i].side)
  {
  }

  /** The threads after a step: at most the stepping one and one that sleeps have moved. */
  lemma StepMoves(s: State, i: nat, call: Call) returns (w: int)
    requires Queued(s) && Enabled(s, i)
    ensures var s' := Step(s, i, call);
      && w == WokenBy(s, i)
      && |s'.threads| == |s.threads| && s'.threads[i].pc == Next(s, i)
      && (s.threads[i].pc.Idle? || s'.threads[i].side == s.threads[i].side)
      && (w != -1 ==> 0 <= w < |s.threads| && w != i && Woken(s.threads[w], s'.threads[w]))
      && forall j :: 0 <= j < |s.threads| && j != i && j != w ==> s'.threads[j] == s.threads[j]
  {
    hide Queued, Effect, Woken;
    w := WokenBy(s, i);
    if Wakes(s.threads[i].pc) {
      EffectWakes(s, i, call);
    } else {
      EffectStays(s, i, call);
    }
  }

  /** The lock after a step. */
  lemma StepLock(s: State, i: nat, call: Call)
    requires Enabled(s, i)
    ensures var s', pc := Step(s, i, call), s.threads[i].pc;
      (s'.isBusy, s'.lockThread) ==
      if pc.Acquire? && !s.isBusy then (true, i as int)
      else if pc.Wait1? || pc.Release? then (false, -1)
      else (s.isBusy, s.lockThread)
  {
    hide ReleaseLock, WakeOne;
    match s.threads[i].pc
    case Wait1 => ReleaseFrame(s);
    case Release => ReleaseFrame(s);
    case Signal => WakeFrame(s, s.threads[i].side.Other());
    case _ =>
  }

  lemma KeepsExclusive(s: State, i: nat, call: Call)
    requires Exclusive(s) && Queued(s) && Enabled(s, i)
    ensures Exclusive(Step(s, i, call))
  {
    var w := StepMoves(s, i, call);
    StepLock(s, i, call);
    var s' := Step(s, i, call);
    forall j | 0 <= j < |s'.threads| ensures HoldsLock(s'.threads[j].pc) <==> s'.lockThread == j {
      hide Queued, Step, WokenBy;
      assert HoldsLock(s.threads[j].pc) <==> s.lockThread == j;
      assert HoldsLock(s.threads[i].pc) <==> s.lockThread == i;
    }
    hide Queued, Step, WokenBy, Next;
  }

  ghost function SpinAfter(s: State, i: nat, side: Side): int
    requires i < |s.threads|
  {
    var t := s.threads[i];
    if t.side == side && t.pc.Wait0? then i else if t.side == side && t.pc.Wait2? then -1 else s.Spin(side)
  }

  ghost function QueueAfter(s: State, i: nat, side: Side): seq<nat>
    requires i < |s.threads|
  {
    var t, q := s.threads[i], s.Queue(side);
    if t.side == side && t.pc.Wait2? then q + [i]
    else if t.side == side.Other() && t.pc.Signal? && q != [] then q[1..]
    else q
  }

  /** A step takes or drops a spinlock only on the way into cv_wait's sleep. */
  lemma StepSpin(s: State, i: nat, call: Call, side: Side)
    requires Enabled(s, i)
    ensures Step(s, i, call).Spin(side) == SpinAfter(s, i, side)
  {
    hide ReleaseLock, WakeOne;
    match s.threads[i].pc
    case Wait1 => ReleaseFrame(s);
    case Release => ReleaseFrame(s);
    case Signal => WakeFrame(s, s.threads[i].side.Other());
    case _ =>
  }

  lemma WakeQueue(s: State, side: Side)
    requires Queued(s)
    ensures WakeOne(s, side).Queue(side) == if s.Queue(side) == [] then [] else s.Queue(side)[1..]
  {
    if s.Queue(side) != [] { CvWakes(s, side); }
  }

  /** Only a thread going to sleep joins the wait channel of a condition variable. */
  lemma StepQueue(s: State, i: nat, call: Call, side: Side)
    requires Queued(s) && Enabled(s, i)
    ensures Step(s, i, call).Queue(side) == QueueAfter(s, i, side)
  {
    hide ReleaseLock, WakeOne, Queued;
    match s.threads[i].pc
    case Wait1 => ReleaseFrame(s);
    case Release => ReleaseFrame(s);
    case Signal =>
      WakeFrame(s, s.threads[i].side.Other());
      WakeQueue(s, s.threads[i].side.Other());
    case _ =>
  }

  lemma KeepsSpins(s: State, i: nat, call: Call)
    requires Spins(s) && Queued(s) && Enabled(s, i)
    ensures Spins(Step(s, i, call))
  {
    SpinOf(s, i, call, Producer);
    SpinOf(s, i, call, Consumer);
    hide Queued, Step, SpinIs;
  }

  lemma SpinOf(s: State, i: nat, call: Call, side: Side)
    requires Spins(s) && Queued(s) && Enabled(s, i)
    ensures var s' := Step(s, i, call);
      SpinIs(s'.threads, side, s'.Spin(side)) && (s'.Spin(side) != -1 ==> 0 <= s'.Spin(side) < |s'.threads|)
  {
    hide Queued, Step, WokenBy;
    var w := StepMoves(s, i, call);
    StepSpin(s, i, call, side);
    var s' := Step(s, i, call);
    forall j | 0 <= j < |s.threads|
      ensures s'.threads[j].side == side && HoldsSpin(s'.threads[j].pc) <==> s'.Spin(side) == j
    {
      assert s.threads[j].side == side && HoldsSpin(s.threads[j].pc) <==> s.Spin(side) == j;
      assert s.threads[i].side == side && HoldsSpin(s.threads[i].pc) <==> s.Spin(side) == i;
    }
  }

  // The buffer itself: only the two update steps touch it.

  lemma StepBuffer(s: State, i: nat, call: Call)
    requires Enabled(s, i) && !s.threads[i].pc.UpdateList? && !s.threads[i].pc.UpdateCounter?
    ensures var s' := Step(s, i, call);
      (s'.counter, s'.max, s'.list) == (s.counter, s.max, s.list)
  {
    hide ReleaseLock, WakeOne;
    match s.threads[i].pc
    case Wait1 => ReleaseFrame(s);
    case Release => ReleaseFrame(s);
    case Signal => WakeFrame(s, s.threads[i].side.Other());
    case _ =>
  }

  lemma RoomChange(s: State, i: nat, call: Call, side: Side)
    requires Enabled(s, i)
    ensures Step(s, i, call).max == s.max
    ensures Step(s, i, call).Room(side) == s.Room(side) +
      if !s.threads[i].pc.UpdateCounter? then 0 else if s.threads[i].side == side then -1 else 1
  {
    hide ReleaseLock, WakeOne;
    match s.threads[i].pc
    case Wait1 => ReleaseFrame(s);
    case Release => ReleaseFrame(s);
    case Signal => WakeFrame(s, s.threads[i].side.Other());
    case _ =>
  }

  lemma KeepsHolderKnows(s: State, i: nat, call: Call, j: nat)
    requires Exclusive(s) && Queued(s) && Fifo(s) && Enabled(s, i) && j < |s.threads|
    ensures j < |Step(s, i, call).threads| && HolderKnows(Step(s, i, call), j)
  {
    var w := StepMoves(s, i, call);
    RoomChange(s, i, call, s.threads[j].side);
    assert HolderKnows(s, i) && HolderKnows(s, j);
    assert HoldsLock(s.threads[i].pc) <==> s.lockThread == i;
    assert HoldsLock(s.threads[j].pc) <==> s.lockThread == j;
    hide Queued, Exclusive, Fifo, Step, WokenBy;
  }

  /** How far the list is ahead after a step. */
  lemma AheadIs(s: State, i: nat, call: Call)
    requires Exclusive(s) && Queued(s) && Enabled(s, i)
    ensures Ahead(s) == if !s.threads[i].pc.UpdateCounter? then (if HoldsLock(s.threads[i].pc) then 0 else Ahead(s))
      else if s.threads[i].side.Producer? then 1 else -1
    ensures Ahead(Step(s, i, call)) ==
      if s.threads[i].pc.UpdateList? then (if s.threads[i].side.Producer? then 1 else -1)
      else if HoldsLock(s.threads[i].pc) || (s.threads[i].pc.Acquire? && !s.isBusy) then 0 else Ahead(s)
  {
    var w := StepMoves(s, i, call);
    StepLock(s, i, call);
    assert HoldsLock(s.threads[i].pc) <==> s.lockThread == i;
    if w != -1 { assert HoldsLock(s.threads[w].pc) <==> s.lockThread == w; }
    hide Queued, Step, WokenBy;
  }

  lemma KeepsFifo(s: State, i: nat, call: Call)
    requires Exclusive(s) && Queued(s) && Fifo(s) && Enabled(s, i)
    ensures Fifo(Step(s, i, call))
  {
    var w := StepMoves(s, i, call);
    var s', t := Step(s, i, call), s.threads[i];
    forall j | 0 <= j < |s'.threads| ensures HolderKnows(s', j) { KeepsHolderKnows(s, i, call, j); }
    AheadIs(s, i, call);
    assert HolderKnows(s, i);
    assert HoldsLock(t.pc) <==> s.lockThread == i;
    hide Queued, HolderIs, Ahead, HolderKnows, WokenBy;
    if t.pc.UpdateList? {
      assert |s.list| == s.counter;
    } else if t.pc.UpdateCounter? {
      assert s'.list == s.list;
    } else {
      StepBuffer(s, i, call);
      hide Step;
    }
  }

  lemma KeepsLock(s: State, i: nat, call: Call)
    requires Exclusive(s) && Queued(s) && LockNotLost(s) && Enabled(s, i)
    ensures LockNotLost(Step(s, i, call))
  {
    var w := StepMoves(s, i, call);
    StepLock(s, i, call);
    var s' := Step(s, i, call);
    if s.lockq != [] { LockWakes(s); }
    assert HoldsLock(s.threads[i].pc) <==> s.lockThread == i;
    if !s'.isBusy {
      if s.isBusy {
        assert s.lockq != [] ==> s'.threads[s.lockq[0]].pc.Acquire?;
      } else {
        LockQueue(s, i, call);
        hide Queued, Step, WokenBy;
        if s.lockq != [] {
          var a :| 0 <= a < |s.threads| && s.threads[a].pc.Acquire?;
          assert s'.threads[a].pc.Acquire?;
        }
      }
    }
  }

  /** While the lock is free nobody goes to sleep on it. */
  lemma LockQueue(s: State, i: nat, call: Call)
    requires Exclusive(s) && Enabled(s, i) && !s.isBusy
    ensures Step(s, i, call).lockq == s.lockq
  {
    assert HoldsLock(s.threads[i].pc) <==> s.lockThread == i;
    WakeFrame(s, s.threads[i].side.Other());
    hide ReleaseLock, WakeOne, HolderIs;
  }

  // ---------------------------------------------------------------------------------------
  // No wakeup of a condition variable is lost.
  // ---------------------------------------------------------------------------------------

  function One(b: bool): int { if b then 1 else 0 }

  /** What a step does to the credits of a side. */
  lemma CreditsChange(s: State, i: nat, call: Call, side: Side) returns (w: int)
    requires Queued(s) && Enabled(s, i)
    ensures var s' := Step(s, i, call);
      && w == WokenBy(s, i) && |s'.threads| == |s.threads|
      && (w != -1 ==> 0 <= w < |s.threads| && w != i && Woken(s.threads[w], s'.threads[w]))
      && Credits(s', side) == Credits(s, side)
         + One(Credit(side, s.threads[i].(pc := Next(s, i)))) - One(Credit(side, s.threads[i]))
         + (if w == -1 then 0 else One(Credit(side, s'.threads[w])) - One(Credit(side, s.threads[w])))
  {
    assert s.threads[i].pc.Idle? ==> Next(s, i) == Acquire(false);
    hide Queued, Step, Active, Signals, Woken, Next, WokenBy;
    w := StepMoves(s, i, call);
    var s' := Step(s, i, call);
    SameCredit(side, s'.threads[i], s.threads[i].(pc := Next(s, i)));
    hide Credit;
    CountMoved(s.threads, s'.threads, (t: Thread) => Credit(side, t), i, w);
  }

  lemma SameCredit(side: Side, t: Thread, t': Thread)
    requires t.pc == t'.pc && (t.side == t'.side || t.pc == Acquire(false))
    ensures Credit(side, t) == Credit(side, t')
  {
  }

  /** A side starts to wait only when one of its threads gives up the lock, finding nothing to do. */
  lemma WaitingChange(s: State, i: nat, call: Call, side: Side)
    requires Queued(s) && Enabled(s, i) && Waiting(Step(s, i, call), side)
    ensures Waiting(s, side) || (s.threads[i].side == side && s.threads[i].pc.Wait1?)
  {
    var w := StepMoves(s, i, call);
    StepQueue(s, i, call, side);
    hide Queued, Step, WokenBy;
    var s' := Step(s, i, call);
    if s'.Queue(side) == [] {
      var j :| 0 <= j < |s'.threads| && s'.threads[j].side == side && s'.threads[j].pc.Wait2?;
      if j != i {
        assert s.threads[j].side == side && s.threads[j].pc.Wait2?;
      }
    } else if s.Queue(side) == [] {
      assert s.threads[i].side == side && s.threads[i].pc.Wait2?;
    }
  }

  /** While its spinlock is free nobody is on the way to the wait channel of a condition variable. */
  lemma NobodyBetween(s: State, side: Side)
    requires Spins(s) && s.Spin(side) == -1 && s.Queue(side) == []
    ensures !Waiting(s, side)
  {
    forall j | 0 <= j < |s.threads| && s.threads[j].side == side ensures !HoldsSpin(s.threads[j].pc) {
      assert SpinIs(s.threads, side, -1);
    }
  }

  /** A signal that finds no sleeper finds nobody on the way there either. */
  lemma SignalFindsAll(s: State, i: nat, call: Call, side: Side)
    requires Queued(s) && Spins(s) && Enabled(s, i) && s.threads[i].pc.Signal? && s.threads[i].side == side.Other()
    requires s.Queue(side) == []
    ensures !Waiting(Step(s, i, call), side)
  {
    StepQueue(s, i, call, side);
    StepSpin(s, i, call, side);
    KeepsSpins(s, i, call);
    hide Queued, Spins, Step;
    NobodyBetween(Step(s, i, call), side);
  }

  /** What the stepping thread gives to a side's credits, or at most takes from them. */
  ghost function Given(s: State, i: nat, side: Side): int
    requires i < |s.threads|
  {
    var t := s.threads[i];
    match t.pc
    case Check => if t.side == side && s.Room(side) == 0 then -1 else 0
    case UpdateCounter => if t.side == side then -1 else 1
    case Signal => if t.side == side then 0 else -1
    case _ => 0
  }

  lemma CreditGiven(s: State, i: nat, side: Side)
    requires Enabled(s, i)
    ensures One(Credit(side, s.threads[i].(pc := Next(s, i)))) - One(Credit(side, s.threads[i])) >= Given(s, i, side)
  {
  }

  /** The signalled sleeper is one of `side`, and so becomes a credit; other wakeups take none away. */
  lemma CreditWoken(s: State, i: nat, call: Call, side: Side)
    requires Queued(s) && Enabled(s, i) && WokenBy(s, i) != -1
    ensures 0 <= WokenBy(s, i) < |s.threads| && |Step(s, i, call).threads| == |s.threads|
    ensures One(Credit(side, Step(s, i, call).threads[WokenBy(s, i)])) - One(Credit(side, s.threads[WokenBy(s, i)])) >=
      if s.threads[i].pc.Signal? && s.threads[i].side == side.Other() then 1 else 0
  {
    var w := StepMoves(s, i, call);
    if s.threads[i].pc.Signal? { CvWakes(s, s.threads[i].side.Other()); }
    hide Queued, Step;
  }

  lemma KeepsCredit(s: State, i: nat, call: Call, side: Side)
    requires Queued(s) && Spins(s) && Fifo(s) && NoLostWakeup(s, side) && Enabled(s, i)
    ensures NoLostWakeup(Step(s, i, call), side)
  {
    var s', t := Step(s, i, call), s.threads[i];
    var w := CreditsChange(s, i, call, side);
    RoomChange(s, i, call, side);
    CreditGiven(s, i, side);
    assert HolderKnows(s, i);
    if w != -1 { CreditWoken(s, i, call, side); }
    hide Queued, Spins, Credits, Step, Credit, Next, Waiting, Woken;
    if t.pc.Signal? && t.side == side.Other() && s.Queue(side) == [] {
      SignalFindsAll(s, i, call, side);
    } else if Waiting(s', side) {
      WaitingChange(s, i, call, side);
    }
  }

  lemma StepKeepsInv(s: State, i: nat, call: Call)
    requires Inv(s) && Enabled(s, i)
    ensures Inv(Step(s, i, call))
  {
    hide Exclusive, Queued, Spins, Fifo, LockNotLost, NoLostWakeup, Step;
    KeepsExclusive(s, i, call);
    KeepsQueued(s, i, call);
    KeepsSpins(s, i, call);
    KeepsFifo(s, i, call);
    KeepsLock(s, i, call);
    KeepsCredit(s, i, call, Producer);
    KeepsCredit(s, i, call, Consumer);
  }

  /** The invariant holds after every schedule. */
  lemma {:induction false} RunKeepsInv(s: State, schedule: seq<(nat, Call)>)
    requires Inv(s)
    ensures Inv(Run(s, schedule))
  {
    hide Inv, Step;
    if schedule != [] {
      var before := Run(s, schedule[..|schedule| - 1]);
      var (i, call) := schedule[|schedule| - 1];
      RunKeepsInv(s, schedule[..|schedule| - 1]);
      if Enabled(before, i) { StepKeepsInv(before, i, call); }
    }
  }

  // ---------------------------------------------------------------------------------------
  // What the invariant gives, in every reachable state.
  // ---------------------------------------------------------------------------------------

  lemma Reachable(threads: nat, max: nat, schedule: seq<(nat, Call)>)
    ensures Inv(Run(Initial(threads, max), schedule))
  {
    InitialInv(threads, max);
    RunKeepsInv(Initial(threads, max), schedule);
  }

  /** Mutual exclusion, a buffer within its bounds, and a counter that is right whenever the lock is free. */
  lemma BufferIsSafe(threads: nat, max: nat, schedule: seq<(nat, Call)>)
    ensures var s := Run(Initial(threads, max), schedule);
      && (forall i, j :: 0 <= i < |s.threads| && 0 <= j < |s.threads| ==>
           HoldsLock(s.threads[i].pc) && HoldsLock(s.threads[j].pc) ==> i == j)
      && 0 <= s.counter <= s.max
      && (!s.isBusy ==> s.counter == |s.list|)
  {
    Reachable(threads, max, schedule);
    hide Run, Queued, Spins, LockNotLost, NoLostWakeup, HolderKnows;
  }

  /** What the primitives assert about the thread that is about to run them. */
  predicate Asserted(s: State, i: nat)
    requires i < |s.threads|
  {
    var t := s.threads[i];
    match t.pc
    case Acquire(_) => s.lockThread != i
    case Wait0 => s.lockThread == i && s.Spin(t.side) != i
    case Wait1 => s.lockThread == i && s.isBusy
    case CvWoken => s.lockThread != i
    case UpdateList => t.side.Producer? || s.list != []
    case Signal => s.lockThread == i && s.Spin(t.side.Other()) != i
    case Release => s.lockThread == i && s.isBusy
    case _ => true
  }

  /** In no run does an assertion fail, nor does a consumer find the list empty. */
  lemma AssertionsHold(threads: nat, max: nat, schedule: seq<(nat, Call)>, i: nat)
    requires i < threads
    ensures var s := Run(Initial(threads, max), schedule); i < |s.threads| && Asserted(s, i)
  {
    hide Run, Inv, Asserted;
    InitialInv(threads, max);
    Reachable(threads, max, schedule);
    RunKeepsThreads(Initial(threads, max), schedule);
    InvAsserts(Run(Initial(threads, max), schedule), i);
  }

  lemma InvAsserts(s: State, i: nat)
    requires Inv(s) && i < |s.threads|
    ensures Asserted(s, i)
  {
    hide Queued, LockNotLost, NoLostWakeup;
    assert HolderKnows(s, i);
    assert HoldsLock(s.threads[i].pc) <==> s.lockThread == i;
    SpinFree(s, i, s.threads[i].side);
    SpinFree(s, i, s.threads[i].side.Other());
    hide Exclusive, Spins, Fifo, HolderIs, SpinIs, HolderKnows;
    if s.lockThread == i { assert s.isBusy; }
  }

  lemma SpinFree(s: State, i: nat, side: Side)
    requires Spins(s) && i < |s.threads|
    ensures HoldsSpin(s.threads[i].pc) || s.Spin(side) != i
  {
    assert SpinIs(s.threads, side, s.Spin(side));
  }

  lemma {:induction false} RunKeepsThreads(s: State, schedule: seq<(nat, Call)>)
    requires Inv(s)
    ensures |Run(s, schedule).threads| == |s.threads|
  {
    if schedule != [] {
      var before := Run(s, schedule[..|schedule| - 1]);
      var (i, call) := schedule[|schedule| - 1];
      RunKeepsThreads(s, schedule[..|schedule| - 1]);
      RunKeepsInv(s, schedule[..|schedule| - 1]);
      if Enabled(before, i) { var w := StepMoves(before, i, call); }
      hide Inv, Step, Enabled;
    }
  }

  predicate AtRest(pc: PC) { pc.Idle? || pc.CvAsleep? || pc.LockAsleep? }

  /** No call that has begun can take a step. */
  ghost predicate Halted(s: State) {
    forall i: nat :: i < |s.threads| && !s.threads[i].pc.Idle? ==> !Enabled(s, i)
  }

  /**
   Freedom from deadlock and from lost wakeups. When nothing can move, every thread inside a call
   sleeps on its condition variable, rightly: consumers only on an empty buffer and producers only
   on a full one, hence never both.
   */
  lemma HaltedIsRight(s: State)
    requires Inv(s) && Halted(s)
    ensures !s.isBusy && s.lockq == []
    ensures forall i :: 0 <= i < |s.threads| && !s.threads[i].pc.Idle? ==>
      s.threads[i].pc.CvAsleep? && s.Room(s.threads[i].side) == 0
    ensures s.max > 0 ==> s.prodq == [] || s.conq == []
  {
    forall i: nat | i < |s.threads| ensures AtRest(s.threads[i].pc) {
      HaltedAsleep(s, i);
    }
    assert !s.isBusy;
    assert s.lockq == [];
    HaltedSide(s, Producer);
    HaltedSide(s, Consumer);
    forall i: nat | i < |s.threads| && !s.threads[i].pc.Idle?
      ensures s.threads[i].pc.CvAsleep? && s.Room(s.threads[i].side) == 0
    {
      assert i !in s.lockq;
    }
  }

  /** So no run comes to a halt otherwise. */
  lemma NoDeadlock(threads: nat, max: nat, schedule: seq<(nat, Call)>)
    requires max > 0 && Halted(Run(Initial(threads, max), schedule))
    ensures var s := Run(Initial(threads, max), schedule);
      && !s.isBusy && s.lockq == []
      && (s.prodq == [] || s.conq == [])
      && forall i :: 0 <= i < |s.threads| && !s.threads[i].pc.Idle? ==>
           s.threads[i].pc.CvAsleep? && if s.threads[i].side.Producer? then s.counter == max else s.counter == 0
  {
    Reachable(threads, max, schedule);
    RunKeepsMax(Initial(threads, max), schedule);
    hide Run, Inv, Halted;
    HaltedIsRight(Run(Initial(threads, max), schedule));
  }

  lemma {:induction false} RunKeepsMax(s: State, schedule: seq<(nat, Call)>)
    ensures Run(s, schedule).max == s.max
  {
    if schedule != [] {
      RunKeepsMax(s, schedule[..|schedule| - 1]);
    }
  }

  lemma HaltedAsleep(s: State, i: nat)
    requires Exclusive(s) && Spins(s) && Halted(s) && i < |s.threads|
    ensures AtRest(s.threads[i].pc)
  {
    SpinIsFree(s, Producer);
    SpinIsFree(s, Consumer);
    assert !s.threads[i].pc.Idle? ==> !Enabled(s, i);
  }

  /** A thread on its way to sleep is never blocked, so the spinlock it holds is free in the end. */
  lemma SpinIsFree(s: State, side: Side)
    requires Spins(s) && Halted(s)
    ensures s.Spin(side) == -1
  {
    var h := s.Spin(side);
    if h != -1 {
      assert SpinIs(s.threads, side, h);
      assert Enabled(s, h);
    }
  }

  lemma HaltedSide(s: State, side: Side)
    requires Queued(s) && Fifo(s) && NoLostWakeup(s, side)
    requires forall i: nat :: i < |s.threads| ==> AtRest(s.threads[i].pc)
    requires s.lockq == []
    ensures s.Queue(side) != [] ==> s.Room(side) == 0
    ensures forall i: nat :: i < |s.threads| && s.threads[i].pc.CvAsleep? && s.threads[i].side == side ==>
      s.Queue(side) != []
  {
    forall i: nat | i < |s.threads| ensures !Credit(side, s.threads[i]) {
      assert i !in s.lockq;
    }
    CountNone(s.threads, (t: Thread) => Credit(side, t));
    forall i: nat | i < |s.threads| && s.threads[i].pc.CvAsleep? && s.threads[i].side == side
      ensures s.Queue(side) != []
    {
      assert i in s.Queue(side);
    }
  }

  // ---------------------------------------------------------------------------------------
  // Progress: calls that have begun get to an end, or to a rightful sleep.
  // ---------------------------------------------------------------------------------------

  /** The steps a thread may still take, counting those it may set others to by a wakeup. */
  function Weight(t: Thread): nat {
    match t.pc
    case Idle => 0
    case Release => 2
    case Signal => 11
    case UpdateCounter => 12
    case UpdateList => 13
    case CvAsleep => 10
    case Wait2 => 11
    case Wait1 => 13
    case Wait0 => 14
    case Check => 15
    case LockAsleep(_) => 16
    case Acquire(_) => 17
    case CvWoken => 18
  }

  function Work(threads: seq<Thread>): (n: nat)
    ensures n <= 18 * |threads|
  {
    if threads == [] then 0 else Work(threads[..|threads| - 1]) + Weight(threads[|threads| - 1])
  }

  lemma {:induction false} WorkUpdate(threads: seq<Thread>, i: nat, t: Thread)
    requires i < |threads|
    ensures Work(threads[i := t]) == Work(threads) + Weight(t) - Weight(threads[i])
  {
    var n := |threads| - 1;
    if i == n {
      assert threads[i := t][..n] == threads[..n];
    } else {
      assert threads[i := t][..n] == threads[..n][i := t];
      WorkUpdate(threads[..n], i, t);
    }
  }

  lemma StepWorks(s: State, i: nat, call: Call)
    requires Queued(s) && Enabled(s, i) && !s.threads[i].pc.Idle?
    ensures Work(Step(s, i, call).threads) < Work(s.threads)
  {
    hide Queued, Step, Next, Woken, Work;
    var w := StepMoves(s, i, call);
    var s' := Step(s, i, call);
    NextIsLess(s, i);
    if w != -1 { WokenIs(s, i, call); }
    assert Weight(s'.threads[i]) == Weight(s.threads[i].(pc := Next(s, i)));
    hide Weight;
    WorkMoved(s.threads, s'.threads, i, w);
  }

  lemma WorkMoved(s: seq<Thread>, s': seq<Thread>, i: nat, w: int)
    requires |s| == |s'| && i < |s| && w != i && (w == -1 || 0 <= w < |s|)
    requires forall j :: 0 <= j < |s| && j != i && j != w ==> s'[j] == s[j]
    ensures Work(s') == Work(s) + Weight(s'[i]) - Weight(s[i]) + if w == -1 then 0 else Weight(s'[w]) - Weight(s[w])
  {
    hide Work, Weight;
    WorkUpdate(s, i, s'[i]);
    var mid := s[i := s'[i]];
    if w != -1 {
      WorkUpdate(mid, w, s'[w]);
      assert s' == mid[w := s'[w]];
    } else {
      assert s' == mid;
    }
  }

  /** The stepping thread pays for the one it may wake. */
  lemma NextIsLess(s: State, i: nat)
    requires Enabled(s, i) && !s.threads[i].pc.Idle?
    ensures Weight(s.threads[i].(pc := Next(s, i))) + (
      match s.threads[i].pc
      case Wait1 => 1
      case Release => 1
      case Signal => 8
      case _ => 0) < Weight(s.threads[i])
  {
  }

  /** The wakeup of a lock costs one step, that of a condition variable eight. */
  lemma WokenIs(s: State, i: nat, call: Call)
    requires Queued(s) && Enabled(s, i) && WokenBy(s, i) != -1
    ensures 0 <= WokenBy(s, i) < |s.threads| && |Step(s, i, call).threads| == |s.threads|
    ensures Weight(Step(s, i, call).threads[WokenBy(s, i)]) ==
      Weight(s.threads[WokenBy(s, i)]) + if s.threads[i].pc.Signal? then 8 else 1
  {
    var w := StepMoves(s, i, call);
    match s.threads[i].pc {
      case Wait1 => LockWakes(s);
      case Release => LockWakes(s);
      case Signal => CvWakes(s, s.threads[i].side.Other());
    }
    hide Step, Queued, Next;
  }

  /** Every step of the schedule is a step of a call that has begun. */
  ghost predicate NoNewCalls(s: State, schedule: seq<(nat, Call)>) {
    schedule == [] ||
    (var before := Run(s, schedule[..|schedule| - 1]);
     var (i, call) := schedule[|schedule| - 1];
     NoNewCalls(s, schedule[..|schedule| - 1]) && Enabled(before, i) && !before.threads[i].pc.Idle?)
  }

  /** However it is scheduled, what has begun comes to a halt within a bounded number of steps. */
  lemma {:induction false} CallsSettle(s: State, schedule: seq<(nat, Call)>)
    requires Inv(s) && NoNewCalls(s, schedule)
    ensures |schedule| + Work(Run(s, schedule).threads) <= Work(s.threads)
  {
    if schedule != [] {
      var before := Run(s, schedule[..|schedule| - 1]);
      var (i, call) := schedule[|schedule| - 1];
      CallsSettle(s, schedule[..|schedule| - 1]);
      RunKeepsInv(s, schedule[..|schedule| - 1]);
      StepWorks(before, i, call);
      hide Inv, Step, Enabled, Work;
    }
  }
}
