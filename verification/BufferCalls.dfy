/**
 What is seen of the buffer from outside: which thread calls what, when it puts an item on the list
 or takes one off, and what its call returns. The log is read off a schedule; that it is right is
 proved for every schedule. So is the order in which sleeping threads are woken.
 */
module BufferCalls {
  import opened SharedBuffer
  import opened WaitChannels

  datatype Event =
    | Calls(i: nat, call: Call)
    | Puts(i: nat, value: int)
    | Gets(i: nat, value: int)
    | Returns(i: nat, value: int)

  /** How far a thread is with its call: it operates on the list once, and returns what it got. */
  datatype Doing = Nothing | Called(call: Call) | Did(call: Call, value: int) | Wrong

  function Advanced(d: Doing, e: Event): Doing {
    match e
    case Calls(_, call) => if d.Nothing? then Called(call) else Wrong
    case Puts(_, value) => if d == Called(Produce(value)) then Did(d.call, value) else Wrong
    case Gets(_, value) => if d == Called(Consume) then Did(d.call, value) else Wrong
    case Returns(_, value) => if d.Did? && (d.call.Consume? ==> value == d.value) then Nothing else Wrong
  }

  function DoingOf(log: seq<Event>, i: nat): Doing {
    if log == [] then Nothing
    else
      var d, e := DoingOf(log[..|log| - 1], i), log[|log| - 1];
      if e.i == i then Advanced(d, e) else d
  }

  /** What a step shows: a call with its argument, an operation on the list, or a return with its value. */
  ghost function Shown(log: seq<Event>, before: State, after: State, i: nat, call: Call): seq<Event>
    requires i < |before.threads| && i < |after.threads|
  {
    var pc := before.threads[i].pc;
    if pc.Idle? then [Calls(i, call)]
    else if pc.UpdateList? then
      match DoingOf(log, i)
      case Called(Produce(x)) => [Puts(i, x)]
      case _ => [Gets(i, if before.list == [] then 0 else before.list[0])]
    else if after.threads[i].pc.Idle? then [Returns(i, after.threads[i].item)]
    else []
  }

  ghost function Log(s: State, schedule: seq<(nat, Call)>): seq<Event> {
    if schedule == [] then []
    else
      var rest := schedule[..|schedule| - 1];
      var before, after := Run(s, rest), Run(s, schedule);
      var (i, call) := schedule[|schedule| - 1];
      if Enabled(before, i) && i < |after.threads| then
        Log(s, rest) + Shown(Log(s, rest), before, after, i, call)
      else Log(s, rest)
  }

  /** The items put on the list, and those taken off it, in order. */
  function Put(log: seq<Event>): seq<int> {
    if log == [] then []
    else Put(log[..|log| - 1]) + if log[|log| - 1].Puts? then [log[|log| - 1].value] else []
  }

  function Got(log: seq<Event>): seq<int> {
    if log == [] then []
    else Got(log[..|log| - 1]) + if log[|log| - 1].Gets? then [log[|log| - 1].value] else []
  }

  /** How a thread looks when it is that far with its call. */
  predicate Fits(t: Thread, d: Doing) {
    match t.pc
    case Idle => d.Nothing?
    case UpdateCounter => Finished(t, d)
    case Signal => Finished(t, d)
    case Release => Finished(t, d)
    case _ => d == Called(if t.side.Producer? then Produce(t.item) else Consume)
  }

  predicate Finished(t: Thread, d: Doing) {
    d.Did? && d.call.Side() == t.side && (d.call.Consume? ==> t.item == d.value)
  }

  ghost predicate Right(s: State, log: seq<Event>) {
    Put(log) == Got(log) + s.list && forall i: nat :: i < |s.threads| ==> Fits(s.threads[i], DoingOf(log, i))
  }

  lemma OneMore(log: seq<Event>, e: Event, i: nat)
    ensures DoingOf(log + [e], i) == if e.i == i then Advanced(DoingOf(log, i), e) else DoingOf(log, i)
    ensures Put(log + [e]) == Put(log) + if e.Puts? then [e.value] else []
    ensures Got(log + [e]) == Got(log) + if e.Gets? then [e.value] else []
  {
    assert (log + [e])[..|log|] == log;
  }

  /** The list and the stepping thread's item after a step. */
  lemma StepItem(s: State, i: nat, call: Call)
    requires Queued(s) && Enabled(s, i) && (s.threads[i].pc.UpdateList? && s.threads[i].side.Consumer? ==> s.list != [])
    ensures var s', t := Step(s, i, call), s.threads[i];
      && i < |s'.threads|
      && s'.list == (if !t.pc.UpdateList? then s.list else if t.side.Producer? then s.list + [t.item] else s.list[1..])
      && s'.threads[i].item == (
           if t.pc.Idle? then if call.Produce? then call.item else 0
           else if t.pc.UpdateList? && t.side.Consumer? then s.list[0]
           else t.item)
      && s'.threads[i].side == if t.pc.Idle? then call.Side() else t.side
  {
    hide Queued;
    if Wakes(s.threads[i].pc) {
      EffectWakes(s, i, call);
      StepBuffer(s, i, call);
      hide Effect;
    }
  }

  /** What is shown ends up in the log. */
  lemma ShownIs(log: seq<Event>, before: State, after: State, i: nat, call: Call, j: nat)
    requires i < |before.threads| && i < |after.threads|
    ensures var shown := Shown(log, before, after, i, call); var more := log + shown;
      && |shown| <= 1
      && DoingOf(more, j) ==
         (if shown != [] && shown[0].i == j then Advanced(DoingOf(log, j), shown[0]) else DoingOf(log, j))
      && Put(more) == Put(log) + (if shown != [] && shown[0].Puts? then [shown[0].value] else [])
      && Got(more) == Got(log) + (if shown != [] && shown[0].Gets? then [shown[0].value] else [])
  {
    var shown := Shown(log, before, after, i, call);
    if shown == [] { assert log + shown == log; } else { OneMore(log, shown[0], j); }
  }

  /** What a step shows, from where the thread is. */
  function ShownAt(t: Thread, list: seq<int>, i: nat, call: Call): seq<Event> {
    match t.pc
    case Idle => [Calls(i, call)]
    case UpdateList =>
      if t.side.Producer? then [Puts(i, t.item)] else if list != [] then [Gets(i, list[0])] else []
    case Release => [Returns(i, t.item)]
    case _ => []
  }

  /** How a thread, and the list, change with a step. */
  predicate Goes(t: Thread, t': Thread, list: seq<int>, list': seq<int>, call: Call) {
    match t.pc
    case Idle => t' == Thread(call.Side(), Acquire(false), if call.Produce? then call.item else 0) && list' == list
    case UpdateList =>
      && t'.pc.UpdateCounter? && t'.side == t.side
      && if t.side.Producer? then list' == list + [t.item] && t'.item == t.item
         else list != [] && list' == list[1..] && t'.item == list[0]
    case UpdateCounter => t' == t.(pc := Signal) && list' == list
    case Signal => t' == t.(pc := Release) && list' == list
    case Release => t' == t.(pc := Idle) && list' == list
    case _ => t' == t.(pc := t'.pc) && Before(t'.pc) && list' == list
  }

  predicate Before(pc: PC) { !pc.Idle? && !pc.UpdateCounter? && !pc.Signal? && !pc.Release? }

  lemma StepGoes(s: State, i: nat, call: Call)
    requires Inv(s) && Enabled(s, i)
    ensures i < |s.threads| && i < |Step(s, i, call).threads|
    ensures Goes(s.threads[i], Step(s, i, call).threads[i], s.list, Step(s, i, call).list, call)
  {
    hide Inv;
    Basics(s, i);
    StepItem(s, i, call);
    var w := StepMoves(s, i, call);
    hide Queued, Step, WokenBy, Woken;
  }

  lemma OwnGoes(t: Thread, t': Thread, list: seq<int>, list': seq<int>, i: nat, call: Call, d: Doing)
    requires Goes(t, t', list, list', call) && Fits(t, d)
    ensures var shown := ShownAt(t, list, i, call); Fits(t', if shown == [] then d else Advanced(d, shown[0]))
  {
  }

  lemma ListGoes(t: Thread, t': Thread, list: seq<int>, list': seq<int>, i: nat, call: Call,
                 put: seq<int>, got: seq<int>)
    requires Goes(t, t', list, list', call) && put == got + list
    ensures var shown := ShownAt(t, list, i, call);
      put + (if shown != [] && shown[0].Puts? then [shown[0].value] else [])
      == got + (if shown != [] && shown[0].Gets? then [shown[0].value] else []) + list'
  {
    if list != [] { assert list == [list[0]] + list[1..]; }
  }

  lemma ShownBy(s: State, log: seq<Event>, i: nat, call: Call)
    requires Inv(s) && Enabled(s, i) && Fits(s.threads[i], DoingOf(log, i))
    ensures i < |Step(s, i, call).threads|
    ensures Shown(log, s, Step(s, i, call), i, call) == ShownAt(s.threads[i], s.list, i, call)
  {
    StepGoes(s, i, call);
    hide Inv, Step, DoingOf, Enabled;
  }

  lemma OwnFits(s: State, log: seq<Event>, i: nat, call: Call)
    requires Inv(s) && Enabled(s, i) && Fits(s.threads[i], DoingOf(log, i))
    ensures var s' := Step(s, i, call);
      && i < |s'.threads|
      && Fits(s'.threads[i], DoingOf(log + Shown(log, s, s', i, call), i))
  {
    hide Inv, Step, DoingOf, Enabled, Fits, Goes, Advanced, Put, Got, Shown;
    StepGoes(s, i, call);
    OwnGoes(s.threads[i], Step(s, i, call).threads[i], s.list, Step(s, i, call).list, i, call, DoingOf(log, i));
    ShownBy(s, log, i, call);
    ShownIs(log, s, Step(s, i, call), i, call, i);
    ShownOwn(s.threads[i], s.list, i, call);
    hide ShownAt;
  }

  lemma ShownOwn(t: Thread, list: seq<int>, i: nat, call: Call)
    ensures var shown := ShownAt(t, list, i, call); |shown| <= 1 && (shown != [] ==> shown[0].i == i)
  {
  }

  lemma OtherFits(s: State, log: seq<Event>, i: nat, call: Call, j: nat)
    requires Inv(s) && Enabled(s, i) && j < |s.threads| && j != i && Fits(s.threads[j], DoingOf(log, j))
    ensures var s' := Step(s, i, call);
      && i < |s'.threads| && j < |s'.threads|
      && Fits(s'.threads[j], DoingOf(log + Shown(log, s, s', i, call), j))
  {
    hide Inv;
    Basics(s, i);
    var w := StepMoves(s, i, call);
    ShownIs(log, s, Step(s, i, call), i, call, j);
    hide Queued, Step, WokenBy, DoingOf, Put, Got, Next, Advanced;
  }

  lemma ListFits(s: State, log: seq<Event>, i: nat, call: Call)
    requires Inv(s) && Enabled(s, i) && Fits(s.threads[i], DoingOf(log, i)) && Put(log) == Got(log) + s.list
    ensures var s' := Step(s, i, call);
      && i < |s'.threads|
      && var more := log + Shown(log, s, s', i, call); Put(more) == Got(more) + s'.list
  {
    hide Inv, Step, DoingOf, Enabled, Fits, Goes, Advanced, Put, Got, Shown, ShownAt;
    StepGoes(s, i, call);
    ListGoes(s.threads[i], Step(s, i, call).threads[i], s.list, Step(s, i, call).list, i, call, Put(log), Got(log));
    ShownBy(s, log, i, call);
    ShownIs(log, s, Step(s, i, call), i, call, i);
  }

  lemma Basics(s: State, i: nat)
    requires Inv(s) && i < |s.threads|
    ensures Queued(s) && (s.threads[i].pc.UpdateList? && s.threads[i].side.Consumer? ==> s.list != [])
  {
    InvAsserts(s, i);
  }

  lemma StepIsRight(s: State, log: seq<Event>, i: nat, call: Call)
    requires Inv(s) && Enabled(s, i) && Right(s, log)
    ensures i < |Step(s, i, call).threads| && Right(Step(s, i, call), log + Shown(log, s, Step(s, i, call), i, call))
  {
    assert Fits(s.threads[i], DoingOf(log, i));
    ListFits(s, log, i, call);
    OwnFits(s, log, i, call);
    SameThreads(s, i, call);
    hide Inv, Queued, Step, Fits, Shown, Enabled, Put, Got;
    forall j: nat | j < |s.threads| && j != i
      ensures Fits(Step(s, i, call).threads[j], DoingOf(log + Shown(log, s, Step(s, i, call), i, call), j))
    {
      assert Fits(s.threads[j], DoingOf(log, j));
      OtherFits(s, log, i, call, j);
    }
  }

  lemma SameThreads(s: State, i: nat, call: Call)
    requires Inv(s) && Enabled(s, i)
    ensures |Step(s, i, call).threads| == |s.threads|
  {
    var w := StepMoves(s, i, call);
  }

  lemma {:induction false} RunIsRight(s: State, schedule: seq<(nat, Call)>)
    requires Inv(s) && Right(s, [])
    ensures Right(Run(s, schedule), Log(s, schedule))
  {
    hide Inv, Step, Right, Shown;
    if schedule != [] {
      var rest := schedule[..|schedule| - 1];
      var (i, call) := schedule[|schedule| - 1];
      RunIsRight(s, rest);
      RunKeepsInv(s, rest);
      if Enabled(Run(s, rest), i) { StepIsRight(Run(s, rest), Log(s, rest), i, call); }
    }
  }

  lemma FitsSays(t: Thread, d: Doing)
    requires Fits(t, d)
    ensures d != Wrong && (d.Nothing? <==> t.pc.Idle?)
  {
  }

  /**
   In every run: the items put on the list are those taken off it, in that order, and those still on
   it; and every call operates once, a produce by putting its argument, a consume by taking an item,
   which is what it returns.
   */
  lemma CallsAreServed(threads: nat, max: nat, schedule: seq<(nat, Call)>)
    ensures var s, log := Run(Initial(threads, max), schedule), Log(Initial(threads, max), schedule);
      && Put(log) == Got(log) + s.list
      && |s.threads| == threads
      && forall i: nat :: i < threads ==>
           DoingOf(log, i) != Wrong && (DoingOf(log, i).Nothing? <==> s.threads[i].pc.Idle?)
  {
    InitialInv(threads, max);
    RunIsRight(Initial(threads, max), schedule);
    RunKeepsThreads(Initial(threads, max), schedule);
    hide Run, Log, DoingOf, Put, Got, Fits;
    var s, log := Run(Initial(threads, max), schedule), Log(Initial(threads, max), schedule);
    forall i: nat | i < threads
      ensures DoingOf(log, i) != Wrong && (DoingOf(log, i).Nothing? <==> s.threads[i].pc.Idle?)
    {
      FitsSays(s.threads[i], DoingOf(log, i));
    }
  }

  // ---------------------------------------------------------------------------------------
  // Threads are woken in the order in which they went to sleep.
  // ---------------------------------------------------------------------------------------

  /** What a thread sleeps on: the lock, or the condition variable of its side. */
  datatype Channel = OfLock | OfSide(side: Side)

  function QueueOf(s: State, ch: Channel): seq<nat> { if ch.OfLock? then s.lockq else s.Queue(ch.side) }

  predicate SleepsOn(ch: Channel, t: Thread) { if ch.OfLock? then t.pc.LockAsleep? else SleepsOnCv(ch.side, t) }

  /** Whether a step wakes somebody who sleeps there. */
  ghost predicate WakesOne(s: State, s': State, ch: Channel) {
    exists j: nat ::
      j < |s.threads| && j < |s'.threads| && SleepsOn(ch, s.threads[j]) && !SleepsOn(ch, s'.threads[j])
  }

  /** The queue of the lock after a step, like those of the condition variables. */
  lemma StepLockQueue(s: State, i: nat, call: Call)
    requires Queued(s) && Enabled(s, i)
    ensures Step(s, i, call).lockq ==
      if s.threads[i].pc.Acquire? && s.isBusy then s.lockq + [i]
      else if Frees(s.threads[i], OfLock) && s.lockq != [] then s.lockq[1..]
      else s.lockq
  {
    if s.lockq != [] { LockWakes(s); }
    hide Queued;
    if s.threads[i].pc.Signal? { WakeFrame(s, s.threads[i].side.Other()); hide WakeOne; }
  }

  lemma StepQueueOf(s: State, i: nat, call: Call, ch: Channel)
    requires Queued(s) && Enabled(s, i)
    ensures QueueOf(Step(s, i, call), ch) ==
      if Joins(s, i, ch) then QueueOf(s, ch) + [i]
      else if Frees(s.threads[i], ch) && QueueOf(s, ch) != [] then QueueOf(s, ch)[1..]
      else QueueOf(s, ch)
  {
    hide Queued, Step;
    if ch.OfLock? { StepLockQueue(s, i, call); } else { StepQueue(s, i, call, ch.side); }
  }

  predicate Joins(s: State, i: nat, ch: Channel)
    requires i < |s.threads|
  {
    var t := s.threads[i];
    if ch.OfLock? then t.pc.Acquire? && s.isBusy else t.side == ch.side && t.pc.Wait2?
  }

  predicate Frees(t: Thread, ch: Channel) {
    if ch.OfLock? then t.pc.Wait1? || t.pc.Release? else t.side == ch.side.Other() && t.pc.Signal?
  }

  /** Who joins a queue sleeps there after the step, and nobody else who did not before. */
  lemma JoinsIs(s: State, i: nat, call: Call, ch: Channel)
    requires Queued(s) && Enabled(s, i)
    ensures i < |Step(s, i, call).threads| && (SleepsOn(ch, Step(s, i, call).threads[i]) <==> Joins(s, i, ch))
  {
    var w := StepMoves(s, i, call);
    hide Queued, Step, WokenBy, Woken;
  }

  /** Who leaves a queue was the first, and somebody leaves just when a step frees what they wait for. */
  lemma WakesIs(s: State, i: nat, call: Call, ch: Channel)
    requires Queued(s) && Enabled(s, i)
    ensures var s' := Step(s, i, call);
      && (WakesOne(s, s', ch) <==> Frees(s.threads[i], ch) && QueueOf(s, ch) != [])
      && forall j: nat ::
           j < |s.threads| && j < |s'.threads| && SleepsOn(ch, s.threads[j]) && !SleepsOn(ch, s'.threads[j])
           ==> QueueOf(s, ch) != [] && j == QueueOf(s, ch)[0]
  {
    var s' := Step(s, i, call);
    var w := StepMoves(s, i, call);
    if Frees(s.threads[i], ch) && QueueOf(s, ch) != [] {
      FirstSleeps(s, ch);
      assert w == QueueOf(s, ch)[0] && SleepsOn(ch, s.threads[w]) && !SleepsOn(ch, s'.threads[w]);
    } else if w != -1 {
      OtherSleeps(s, i, ch);
    }
    hide Queued, Step;
  }

  lemma OtherSleeps(s: State, i: nat, ch: Channel)
    requires Queued(s) && Enabled(s, i) && WokenBy(s, i) != -1 && !Frees(s.threads[i], ch)
    ensures 0 <= WokenBy(s, i) < |s.threads| && !SleepsOn(ch, s.threads[WokenBy(s, i)])
  {
    match s.threads[i].pc {
      case Wait1 => LockWakes(s);
      case Release => LockWakes(s);
      case Signal => CvWakes(s, s.threads[i].side.Other());
    }
  }

  /** A thread that goes to sleep is the last; one that is woken was the first. */
  lemma SleepersInOrder(s: State, i: nat, call: Call, ch: Channel)
    requires Queued(s) && Enabled(s, i)
    ensures var s' := Step(s, i, call);
      && i < |s'.threads|
      && QueueOf(s', ch) == (if WakesOne(s, s', ch) && QueueOf(s, ch) != [] then QueueOf(s, ch)[1..]
                             else if SleepsOn(ch, s'.threads[i]) then QueueOf(s, ch) + [i]
                             else QueueOf(s, ch))
      && forall j: nat ::
           j < |s.threads| && j < |s'.threads| && SleepsOn(ch, s.threads[j]) && !SleepsOn(ch, s'.threads[j])
           ==> QueueOf(s, ch) != [] && j == QueueOf(s, ch)[0]
  {
    StepQueueOf(s, i, call, ch);
    JoinsIs(s, i, call, ch);
    WakesIs(s, i, call, ch);
    hide Queued, Step, WakesOne, SleepsOn, QueueOf;
  }

  /** A queue loses its first thread by a wakeup; otherwise it may grow at its end. */
  lemma QueueMoves(s: State, i: nat, call: Call, ch: Channel)
    requires Queued(s) && Enabled(s, i)
    ensures var q, q' := QueueOf(s, ch), QueueOf(Step(s, i, call), ch);
      if WakesOne(s, Step(s, i, call), ch) then q != [] && q' == q[1..] else q <= q'
  {
    WakesIs(s, i, call, ch);
    SleepersInOrder(s, i, call, ch);
    hide Queued, Step, WakesOne, SleepsOn, QueueOf;
  }

  lemma FirstSleeps(s: State, ch: Channel)
    requires Queued(s) && QueueOf(s, ch) != []
    ensures QueueOf(s, ch)[0] < |s.threads| && SleepsOn(ch, s.threads[QueueOf(s, ch)[0]])
  {
    if ch.OfLock? { LockWakes(s); } else { CvWakes(s, ch.side); }
  }

  /** How many steps of the schedule wake somebody there. */
  ghost function Wakeups(s: State, schedule: seq<(nat, Call)>, ch: Channel): nat {
    if schedule == [] then 0
    else
      var rest := schedule[..|schedule| - 1];
      Wakeups(s, rest, ch) + if WakesOne(Run(s, rest), Run(s, schedule), ch) then 1 else 0
  }

  lemma LastMoves(s: State, schedule: seq<(nat, Call)>, ch: Channel)
    requires Inv(s) && schedule != []
    ensures var before, after := Run(s, schedule[..|schedule| - 1]), Run(s, schedule);
      var q, q' := QueueOf(before, ch), QueueOf(after, ch);
      if WakesOne(before, after, ch) then q != [] && q' == q[1..] else q <= q'
  {
    hide Inv, Step, Enabled, QueueOf;
    var before := Run(s, schedule[..|schedule| - 1]);
    var (i, call) := schedule[|schedule| - 1];
    RunKeepsInv(s, schedule[..|schedule| - 1]);
    if Enabled(before, i) {
      InvQueued(before);
      QueueMoves(before, i, call, ch);
    } else {
      assert !WakesOne(before, before, ch);
    }
  }

  lemma InvQueued(s: State)
    requires Inv(s)
    ensures Queued(s)
  {
  }

  /** So a sleeper with `k` before it is the one that the next wakeup but `k` wakes. */
  lemma {:induction false} WokenInTurn(s: State, schedule: seq<(nat, Call)>, ch: Channel, k: nat)
    requires Inv(s) && k < |QueueOf(s, ch)| && Wakeups(s, schedule, ch) <= k
    ensures var q := QueueOf(Run(s, schedule), ch);
      k - Wakeups(s, schedule, ch) < |q| && q[k - Wakeups(s, schedule, ch)] == QueueOf(s, ch)[k]
  {
    hide Inv, WakesOne, QueueOf, Enabled, Step;
    if schedule != [] {
      hide Run;
      var rest := schedule[..|schedule| - 1];
      var q, q' := QueueOf(Run(s, rest), ch), QueueOf(Run(s, schedule), ch);
      WokenInTurn(s, rest, ch, k);
      LastMoves(s, schedule, ch);
      Nearer(QueueOf(s, ch), q, q', Wakeups(s, rest, ch), WakesOne(Run(s, rest), Run(s, schedule), ch), k);
    }
  }
}
