/**
 The order in which threads wait. What every step of the scheduler does to the lists is stated by
 itself, and from it that run queues, wait channels and the lists in between are first in, first out:
 a thread is picked, or woken, when those that were before it have been.
 */
module RoundRobin {
  import opened Scheduling
  import opened WaitChannels

  /** All lists but those at `p` and `q` are as before, and what processors run but for `c`. */
  ghost predicate Rest(s: State, s': State, c: nat, p: Place, q: Place) {
    && |s'.cpus| == |s.cpus|
    && (forall r: Place :: r != p && r != q && !r.On? ==> s'.At(r) == s.At(r))
    && (forall d :: 0 <= d < |s.cpus| && d != c ==> s'.cpus[d] == s.cpus[d])
  }

  /** The first thread at `p` is the last at `q`. */
  ghost predicate Passed(s: State, s': State, p: Place, q: Place) {
    s.At(p) != [] && s'.At(p) == s.At(p)[1..] && s'.At(q) == s.At(q) + [s.At(p)[0]]
  }

  ghost predicate SameCpu(s: State, s': State, c: nat) { c < |s.cpus| == |s'.cpus| && s'.cpus[c] == s.cpus[c] }

  /** The thread of `c` is the last at `p`, and `c` is about to set its state. */
  ghost predicate Left(s: State, s': State, c: nat, p: Place, state: ThreadState) {
    && c < |s.cpus| == |s'.cpus| && s'.cpus[c] == Cpu(s.cpus[c].curthread, Placing(state))
    && s'.At(p) == s.At(p) + [s.cpus[c].curthread]
    && Rest(s, s', c, p, p)
  }

  /** What a step does to the lists and the processors. */
  ghost predicate Law(s: State, a: Action, s': State) {
    a.c < |s.cpus| == |s'.cpus| &&
    var cpu, cpu' := s.cpus[a.c], s'.cpus[a.c];
    match a
    case Yield(c) => if s.At(RunQueue(c)) == [] then s' == s else Left(s, s', c, RunQueue(c), S_READY)
    case Sleep(c, id) => Left(s, s', c, Channel(id), S_SLEEP)
    case Exit(c) => Left(s, s', c, Zombies(c), S_ZOMBIE)
    case SetState(c) => cpu' == cpu.(phase := Placed) && Rest(s, s', c, Nowhere, Nowhere)
    case PickNext(c) =>
      var q := s.At(RunQueue(c));
      if q == [] then cpu' == cpu.(phase := Idling) && Rest(s, s', c, Nowhere, Nowhere)
      else cpu' == Cpu(q[0], Landing) && s'.At(RunQueue(c)) == q[1..] && Rest(s, s', c, RunQueue(c), RunQueue(c))
    case Relock(c) => cpu' == cpu.(phase := Placed) && Rest(s, s', c, Nowhere, Nowhere)
    case Land(c) => cpu' == cpu.(phase := Exorcising) && Rest(s, s', c, Nowhere, Nowhere)
    case Exorcise(c) =>
      var z := s.At(Zombies(c));
      if z == [] then cpu' == cpu.(phase := Running) && Rest(s, s', c, Nowhere, Nowhere)
      else cpu' == cpu && s'.At(Zombies(c)) == z[1..] && Rest(s, s', c, Zombies(c), Zombies(c))
    case Wake(c, id) => cpu' == cpu && Passed(s, s', Channel(id), Hands(c)) && Rest(s, s', c, Channel(id), Hands(c))
    case MakeRunnable(c) => cpu' == cpu && Readied(s, s', c, Hands(c))
    case Fork(c) =>
      && cpu' == cpu && s'.At(Newborn(cpu.curthread)) == s.At(Newborn(cpu.curthread)) + [|s.threads|]
      && Rest(s, s', c, Newborn(cpu.curthread), Newborn(cpu.curthread))
    case StartNew(c) => cpu' == cpu && Readied(s, s', c, Newborn(cpu.curthread))
    case TakeVictim(c) =>
      var q := s.At(RunQueue(c));
      && cpu' == cpu && q != [] && s'.At(RunQueue(c)) == q[..|q| - 1]
      && s'.At(Victims(c)) == [q[|q| - 1]] + s.At(Victims(c))
      && Rest(s, s', c, RunQueue(c), Victims(c))
    case GiveVictim(c, to) =>
      var v := s.At(Victims(c));
      && cpu' == cpu && v != []
      && if v[0] == cpu.curthread then s'.At(Victims(c)) == v[1..] + [v[0]] && Rest(s, s', c, Victims(c), Victims(c))
         else Passed(s, s', Victims(c), RunQueue(to)) && Rest(s, s', c, Victims(c), RunQueue(to))
    case ReturnVictim(c) =>
      cpu' == cpu && Passed(s, s', Victims(c), RunQueue(c)) && Rest(s, s', c, Victims(c), RunQueue(c))
  }

  /** A new thread is assigned to its parent's processor, and a victim to the one it goes to. */
  ghost predicate Assigned(s: State, a: Action, s': State) {
    a.c < |s.cpus| &&
    var cur := s.cpus[a.c].curthread;
    match a
    case Fork(c) =>
      && cur < |s.threads| && |s'.threads| == |s.threads| + 1 && s'.threads[|s.threads|].cpu == s.threads[cur].cpu
      && forall t :: 0 <= t < |s.threads| ==> s'.threads[t] == s.threads[t]
    case GiveVictim(c, to) =>
      && s.At(Victims(c)) != [] && |s'.threads| == |s.threads|
      && forall t :: 0 <= t < |s.threads| ==>
           s'.threads[t].cpu == if t == s.At(Victims(c))[0] && t != cur then to else s.threads[t].cpu
    case _ =>
      |s'.threads| == |s.threads| && forall t :: 0 <= t < |s.threads| ==> s'.threads[t].cpu == s.threads[t].cpu
  }

  /** The first thread at `p` is the last on the run queue of the processor that it is assigned to. */
  ghost predicate Readied(s: State, s': State, c: nat, p: Place) {
    && s.At(p) != [] && s.At(p)[0] < |s.threads|
    && var q := RunQueue(s.threads[s.At(p)[0]].cpu); Passed(s, s', p, q) && Rest(s, s', c, p, q)
  }

  lemma StepObeys(s: State, a: Action)
    requires Enabled(s, a)
    ensures Law(s, a, Step(s, a))
  {
    hide Law, Enabled, Step;
    match a
    case Yield(c) => LeaveObeys(s, a);
    case Sleep(c, id) => LeaveObeys(s, a);
    case Exit(c) => LeaveObeys(s, a);
    case Wake(c, id) => WakeObeys(s, a);
    case MakeRunnable(c) => WakeObeys(s, a);
    case Fork(c) => NewObeys(s, a);
    case StartNew(c) => NewObeys(s, a);
    case TakeVictim(c) => MigrationObeys(s, a);
    case GiveVictim(c, to) => GivingObeys(s, c, to);
    case ReturnVictim(c) => MigrationObeys(s, a);
    case PickNext(c) => PickObeys(s, a);
    case Exorcise(c) => PickObeys(s, a);
    case _ => SwitchObeys(s, a);
  }

  lemma StepAssigns(s: State, a: Action)
    requires Enabled(s, a)
    ensures Assigned(s, a, Step(s, a))
  {
  }

  lemma LeaveObeys(s: State, a: Action)
    requires Enabled(s, a) && (a.Yield? || a.Sleep? || a.Exit?)
    ensures Law(s, a, Step(s, a))
  {
  }

  lemma WakeObeys(s: State, a: Action)
    requires Enabled(s, a) && (a.Wake? || a.MakeRunnable?)
    ensures Law(s, a, Step(s, a))
  {
  }

  lemma NewObeys(s: State, a: Action)
    requires Enabled(s, a) && (a.Fork? || a.StartNew?)
    ensures Law(s, a, Step(s, a))
  {
  }

  lemma MigrationObeys(s: State, a: Action)
    requires Enabled(s, a) && (a.TakeVictim? || a.ReturnVictim?)
    ensures Law(s, a, Step(s, a))
  {
  }

  lemma GivingObeys(s: State, c: nat, to: nat)
    requires Enabled(s, GiveVictim(c, to))
    ensures Law(s, GiveVictim(c, to), Step(s, GiveVictim(c, to)))
  {
  }

  lemma PickObeys(s: State, a: Action)
    requires Enabled(s, a) && (a.PickNext? || a.Exorcise?)
    ensures Law(s, a, Step(s, a))
  {
  }

  lemma SwitchObeys(s: State, a: Action)
    requires Enabled(s, a) && (a.SetState? || a.Relock? || a.Land?)
    ensures Law(s, a, Step(s, a))
  {
  }

  // ---------------------------------------------------------------------------------------
  // First in, first out.
  // ---------------------------------------------------------------------------------------

  /** The lists that threads wait on in order. */
  predicate Waits(p: Place) { p.RunQueue? || p.Channel? || p.Hands? || p.Newborn? || p.Zombies? }

  /** Whether a step is the turn of the first thread at `p`. */
  ghost predicate Serves(s: State, a: Action, p: Place) {
    a.c < |s.cpus| &&
    match a
    case PickNext(c) => p == RunQueue(c)
    case Wake(_, id) => p == Channel(id)
    case MakeRunnable(c) => p == Hands(c)
    case StartNew(c) => p == Newborn(s.cpus[c].curthread)
    case Exorcise(c) => p == Zombies(c)
    case _ => false
  }

  /** Whether a step takes `t` off the end of a run queue, to be migrated. */
  ghost predicate Migrates(s: State, a: Action, p: Place, t: nat) {
    a.TakeVictim? && p == RunQueue(a.c) && s.At(p) != [] && s.At(p)[|s.At(p)| - 1] == t
  }

  /** A list loses its first thread when that is served, or its last to migration, or may grow at its end. */
  ghost predicate ListObeys(s: State, a: Action, s': State, p: Place) {
    var q, q' := s.At(p), s'.At(p);
    if Serves(s, a, p) && q != [] then q' == q[1..]
    else if a.TakeVictim? && p == RunQueue(a.c) then q != [] && q' == q[..|q| - 1]
    else q <= q' && |q'| <= |q| + 1
  }

  lemma ListMoves(s: State, a: Action, p: Place)
    requires Enabled(s, a) && Waits(p)
    ensures ListObeys(s, a, Step(s, a), p)
  {
    StepObeys(s, a);
    hide Enabled, Step, Law, ListObeys;
    if a.Wake? || a.MakeRunnable? || a.Fork? || a.StartNew? {
      WokenMoves(s, a, Step(s, a), p);
    } else if a.TakeVictim? || a.GiveVictim? || a.ReturnVictim? {
      MigratedMoves(s, a, Step(s, a), p);
    } else {
      SwitchedMoves(s, a, Step(s, a), p);
    }
  }

  lemma WokenMoves(s: State, a: Action, s': State, p: Place)
    requires Law(s, a, s') && Waits(p) && (a.Wake? || a.MakeRunnable? || a.Fork? || a.StartNew?)
    ensures ListObeys(s, a, s', p)
  {
    hide State.At;
  }

  lemma MigratedMoves(s: State, a: Action, s': State, p: Place)
    requires Law(s, a, s') && Waits(p) && (a.TakeVictim? || a.GiveVictim? || a.ReturnVictim?)
    ensures ListObeys(s, a, s', p)
  {
    hide State.At;
  }

  lemma SwitchedMoves(s: State, a: Action, s': State, p: Place)
    requires Law(s, a, s') && Waits(p)
    requires a.Yield? || a.Sleep? || a.Exit? || a.SetState? || a.PickNext? || a.Relock? || a.Land? || a.Exorcise?
    ensures ListObeys(s, a, s', p)
  {
    hide State.At;
  }

  /** Whom the next pick, or the next wakeup, takes. */
  lemma PickTakes(s: State, c: nat)
    requires Enabled(s, PickNext(c)) && s.At(RunQueue(c)) != []
    ensures var s' := Step(s, PickNext(c)); c < |s'.cpus| && s'.cpus[c] == Cpu(s.At(RunQueue(c))[0], Landing)
  {
    StepObeys(s, PickNext(c));
    hide Enabled, Step, State.At, Rest;
  }

  lemma WakeTakes(s: State, c: nat, id: nat)
    requires Enabled(s, Wake(c, id))
    ensures s.At(Channel(id)) != []
    ensures var q := Step(s, Wake(c, id)).At(Hands(c)); q != [] && q[|q| - 1] == s.At(Channel(id))[0]
  {
    StepObeys(s, Wake(c, id));
    hide Enabled, Step, State.At, Rest;
  }

  /** How many steps of a run serve the threads at `p`. */
  ghost function Served(s: State, actions: seq<Action>, p: Place): nat {
    if actions == [] then 0
    else
      var rest, a := actions[..|actions| - 1], actions[|actions| - 1];
      var before := Run(s, rest);
      Served(s, rest, p) + if Enabled(before, a) && Serves(before, a, p) && before.At(p) != [] then 1 else 0
  }

  ghost predicate Unmigrated(s: State, actions: seq<Action>, p: Place, t: nat) {
    actions != [] ==>
      var rest, a := actions[..|actions| - 1], actions[|actions| - 1];
      Unmigrated(s, rest, p, t) && (Enabled(Run(s, rest), a) ==> !Migrates(Run(s, rest), a, p, t))
  }

  /** How a list may move: its first thread is served, or its last is taken, or it grows at its end. */
  ghost predicate Moves(q: seq<nat>, q': seq<nat>, served: bool, taken: bool) {
    if served then q != [] && q' == q[1..] else if taken then q != [] && q' == q[..|q| - 1] else q <= q'
  }

  lemma LastMoves(s: State, actions: seq<Action>, p: Place) returns (served: bool, taken: bool)
    requires Waits(p) && actions != []
    ensures var rest := actions[..|actions| - 1];
      var q, q' := Run(s, rest).At(p), Run(s, actions).At(p);
      && Moves(q, q', served, taken) && Served(s, actions, p) == Served(s, rest, p) + (if served then 1 else 0)
      && forall t :: taken && q[|q| - 1] == t ==> !Unmigrated(s, actions, p, t)
  {
    hide Enabled, Step, Serves;
    var rest, a := actions[..|actions| - 1], actions[|actions| - 1];
    var before := Run(s, rest);
    served := Enabled(before, a) && Serves(before, a, p) && before.At(p) != [];
    taken := Enabled(before, a) && !served && a.TakeVictim? && p == RunQueue(a.c);
    if Enabled(before, a) { ListMoves(before, a, p); }
  }

  /** Who has `k` threads before it has as many less as have been served since. */
  lemma {:induction false} MovesUp(s: State, actions: seq<Action>, p: Place, k: nat)
    requires Waits(p) && k < |s.At(p)| && Served(s, actions, p) <= k && Unmigrated(s, actions, p, s.At(p)[k])
    ensures var q, n := Run(s, actions).At(p), Served(s, actions, p); k - n < |q| && q[k - n] == s.At(p)[k]
  {
    hide Run, Served, Waits, Unmigrated;
    if actions == [] {
      NoneYet(s, p);
    } else {
      var rest := actions[..|actions| - 1];
      var served, taken := LastMoves(s, actions, p);
      UnmigratedBefore(s, actions, p, s.At(p)[k]);
      MovesUp(s, rest, p, k);
      UpOne(s.At(p), Run(s, rest).At(p), Run(s, actions).At(p), Served(s, rest, p), served, taken, k);
    }
  }

  lemma NoneYet(s: State, p: Place)
    ensures Run(s, []) == s && Served(s, [], p) == 0
  {
  }

  lemma UnmigratedBefore(s: State, actions: seq<Action>, p: Place, t: nat)
    requires actions != [] && Unmigrated(s, actions, p, t)
    ensures Unmigrated(s, actions[..|actions| - 1], p, t)
  {
  }

  lemma UpOne(q0: seq<nat>, q: seq<nat>, q': seq<nat>, n: nat, served: bool, taken: bool, k: nat)
    requires k < |q0| && n + (if served then 1 else 0) <= k && k - n < |q| && q[k - n] == q0[k]
    requires Moves(q, q', served, taken) && (taken ==> q[|q| - 1] != q0[k])
    ensures var m := n + if served then 1 else 0; k - m < |q'| && q'[k - m] == q0[k]
  {
  }

  lemma OneMore(s: State, actions: seq<Action>, a: Action)
    requires Enabled(Run(s, actions), a)
    ensures Run(s, actions + [a]) == Step(Run(s, actions), a)
  {
    assert (actions + [a])[..|actions|] == actions;
    hide Enabled, Step;
  }

  /**
   So a thread with `k` before it on a run queue, unless it is migrated, is what the processor
   switches to the next time but `k` that it picks a thread.
   */
  lemma PickedInTurn(s: State, actions: seq<Action>, c: nat, k: nat)
    requires k < |s.At(RunQueue(c))| && Served(s, actions, RunQueue(c)) == k
    requires Unmigrated(s, actions, RunQueue(c), s.At(RunQueue(c))[k]) && Enabled(Run(s, actions), PickNext(c))
    ensures var s' := Run(s, actions + [PickNext(c)]);
      c < |s'.cpus| && s'.cpus[c] == Cpu(s.At(RunQueue(c))[k], Landing)
  {
    hide Enabled, Step, Run, Served, Unmigrated, State.At;
    MovesUp(s, actions, RunQueue(c), k);
    OneMore(s, actions, PickNext(c));
    PickTakes(Run(s, actions), c);
  }

  /** A thread that yields runs again only after all that were ready, in their order. */
  lemma YieldsToAll(s: State, actions: seq<Action>, c: nat, k: nat)
    requires Enabled(s, Yield(c)) && k < |s.At(RunQueue(c))|
    requires var s1 := Step(s, Yield(c));
      && Served(s1, actions, RunQueue(c)) == k && Enabled(Run(s1, actions), PickNext(c))
      && k < |s1.At(RunQueue(c))| && Unmigrated(s1, actions, RunQueue(c), s1.At(RunQueue(c))[k])
    ensures var s' := Run(Step(s, Yield(c)), actions + [PickNext(c)]);
      c < |s'.cpus| && s'.cpus[c].curthread == s.At(RunQueue(c))[k]
  {
    StepObeys(s, Yield(c));
    PickedInTurn(Step(s, Yield(c)), actions, c, k);
    hide Run, Enabled, Step, Served, Unmigrated;
  }

  /** A sleeper with `k` before it on its wait channel is what the next wakeup but `k` takes in hand. */
  lemma WokenInTurn(s: State, actions: seq<Action>, c: nat, id: nat, k: nat)
    requires k < |s.At(Channel(id))| && Served(s, actions, Channel(id)) == k && Enabled(Run(s, actions), Wake(c, id))
    ensures var q := Run(s, actions + [Wake(c, id)]).At(Hands(c)); q != [] && q[|q| - 1] == s.At(Channel(id))[k]
  {
    hide Enabled, Step, Run, Served, Unmigrated, State.At;
    NeverMigrated(s, actions, id, s.At(Channel(id))[k]);
    MovesUp(s, actions, Channel(id), k);
    OneMore(s, actions, Wake(c, id));
    WakeTakes(Run(s, actions), c, id);
  }

  lemma {:induction false} NeverMigrated(s: State, actions: seq<Action>, id: nat, t: nat)
    ensures Unmigrated(s, actions, Channel(id), t)
  {
    if actions != [] { NeverMigrated(s, actions[..|actions| - 1], id, t); }
  }
}
