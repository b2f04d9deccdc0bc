/**
 Where the threads are. A transition system over any number of processors, whose atomic steps are
 the sections under run queue locks and wait channel locks, cut further where thread_switch lets
 go of a lock or sets a thread's state after having put the thread in its place.
 */
module Scheduling {

  datatype ThreadState = S_RUN | S_READY | S_SLEEP | S_ZOMBIE | Destroyed

  /**
   The lists a thread can be on. The hands of a processor are the threads it has woken and is about to
   make runnable; newborn is a thread that its parent has created, and will make runnable when it gets on.
   */
  datatype Place =
    | On(cpu: nat)
    | RunQueue(cpu: nat)
    | Zombies(cpu: nat)
    | Victims(cpu: nat)
    | Hands(cpu: nat)
    | Channel(id: nat)
    | Newborn(parent: nat)
    | Nowhere

  /**
   How far a processor is with thread_switch: not in it; with its thread put in place but not its
   state set; with both done; idle, without the lock; switched to the next thread; cleaning up.
   */
  datatype Phase = Running | Placing(newstate: ThreadState) | Placed | Idling | Landing | Exorcising

  datatype Cpu = Cpu(curthread: nat, phase: Phase)

  datatype Thread = Thread(state: ThreadState, cpu: nat)

  datatype State = State(cpus: seq<Cpu>, lists: map<Place, seq<nat>>, threads: seq<Thread>) {

    /** The threads at a place; on a processor, the one that it runs, if it is not idle. */
    function At(p: Place): seq<nat> {
      if p.On? then
        if p.cpu < |cpus| && Runs(cpus[p.cpu].phase) then [cpus[p.cpu].curthread] else []
      else if p in lists && p != Nowhere then lists[p]
      else []
    }

    function Put(p: Place, l: seq<nat>): State { this.(lists := lists[p := l]) }

    function Phased(c: nat, phase: Phase): State
      requires c < |cpus|
    {
      this.(cpus := cpus[c := cpus[c].(phase := phase)])
    }

    function Set(t: nat, state: ThreadState): State {
      if t < |threads| then this.(threads := threads[t := threads[t].(state := state)]) else this
    }

    function Moved(t: nat, cpu: nat): State {
      if t < |threads| then this.(threads := threads[t := threads[t].(cpu := cpu)]) else this
    }

    /** The first thread at one place goes to the end of another. */
    function Send(p: Place, q: Place): State
      requires At(p) != []
    {
      Put(p, At(p)[1..]).Put(q, At(q) + [At(p)[0]])
    }
  }

  predicate Runs(phase: Phase) { phase.Running? || phase.Landing? || phase.Exorcising? }

  /** Whether a processor is in the middle of thread_switch, holding its run queue's lock. */
  predicate Locked(s: State, c: nat) {
    c < |s.cpus| && (s.cpus[c].phase.Placing? || s.cpus[c].phase.Placed? || s.cpus[c].phase.Landing?)
  }

  function Initial(cpus: nat): State {
    State(seq(cpus, c requires 0 <= c => Cpu(c, Running)), map[], seq(cpus, c requires 0 <= c => Thread(S_RUN, c)))
  }

  datatype Action =
    | Yield(c: nat)
    | Sleep(c: nat, id: nat)
    | Exit(c: nat)
    | SetState(c: nat)
    | PickNext(c: nat)
    | Relock(c: nat)
    | Land(c: nat)
    | Exorcise(c: nat)
    | Wake(c: nat, id: nat)
    | MakeRunnable(c: nat)
    | Fork(c: nat)
    | StartNew(c: nat)
    | TakeVictim(c: nat)
    | GiveVictim(c: nat, to: nat)
    | ReturnVictim(c: nat)

  predicate Enabled(s: State, a: Action) {
    a.c < |s.cpus| &&
    var phase := s.cpus[a.c].phase;
    var free := s.At(Hands(a.c)) == [] && s.At(Victims(a.c)) == [];
    match a
    case Yield(c) => phase.Running? && free
    case Sleep(c, id) => phase.Running? && free
    case Exit(c) => phase.Running? && free
    case SetState(c) => phase.Placing?
    case PickNext(c) => phase.Placed?
    case Relock(c) => phase.Idling? && free
    case Land(c) => phase.Landing?
    case Exorcise(c) => phase.Exorcising?
    case Wake(c, id) => (phase.Running? || phase.Idling?) && s.At(Channel(id)) != []
    case MakeRunnable(c) =>
      var hands := s.At(Hands(c));
      hands != [] && hands[0] < |s.threads| && !Locked(s, s.threads[hands[0]].cpu)
    case Fork(c) => phase.Running? && s.cpus[c].curthread < |s.threads|
    case StartNew(c) =>
      var made := s.At(Newborn(s.cpus[c].curthread));
      phase.Running? && made != [] && made[0] < |s.threads| && !Locked(s, s.threads[made[0]].cpu)
    case TakeVictim(c) => (phase.Running? || phase.Idling?) && s.At(RunQueue(c)) != []
    case GiveVictim(c, to) => s.At(Victims(c)) != [] && to < |s.cpus| && to != c && !Locked(s, to)
    case ReturnVictim(c) => s.At(Victims(c)) != [] && !Locked(s, c)
  }

  function Step(s: State, a: Action): State
    requires Enabled(s, a)
  {
    var cur := s.cpus[a.c].curthread;
    match a
    case Yield(c) => if s.At(RunQueue(c)) == [] then s else Leave(s, c, RunQueue(c), S_READY).Set(cur, S_READY)
    case Sleep(c, id) => Leave(s, c, Channel(id), S_SLEEP)
    case Exit(c) => Leave(s, c, Zombies(c), S_ZOMBIE)
    case SetState(c) => s.Set(cur, s.cpus[c].phase.newstate).Phased(c, Placed)
    case PickNext(c) => Pick(s, c)
    case Relock(c) => s.Phased(c, Placed)
    case Land(c) => s.Set(cur, S_RUN).Phased(c, Exorcising)
    case Exorcise(c) =>
      var zombies := s.At(Zombies(c));
      if zombies == [] then s.Phased(c, Running) else s.Put(Zombies(c), zombies[1..]).Set(zombies[0], Destroyed)
    case Wake(c, id) => s.Send(Channel(id), Hands(c))
    case MakeRunnable(c) =>
      var t := s.At(Hands(c))[0];
      s.Send(Hands(c), RunQueue(s.threads[t].cpu)).Set(t, S_READY)
    case Fork(c) =>
      var made := s.At(Newborn(cur));
      s.(threads := s.threads + [Thread(S_READY, s.threads[cur].cpu)]).Put(Newborn(cur), made + [|s.threads|])
    case StartNew(c) =>
      var t := s.At(Newborn(cur))[0];
      s.Send(Newborn(cur), RunQueue(s.threads[t].cpu)).Set(t, S_READY)
    case TakeVictim(c) =>
      var q := s.At(RunQueue(c));
      s.Put(RunQueue(c), q[..|q| - 1]).Put(Victims(c), [q[|q| - 1]] + s.At(Victims(c)))
    case GiveVictim(c, to) =>
      var victims := s.At(Victims(c));
      if victims[0] == cur then s.Put(Victims(c), victims[1..] + [cur])
      else s.Send(Victims(c), RunQueue(to)).Moved(victims[0], to)
    case ReturnVictim(c) => s.Send(Victims(c), RunQueue(c))
  }

  /** The thread that a processor runs goes to a list. */
  function Leave(s: State, c: nat, p: Place, newstate: ThreadState): State
    requires c < |s.cpus|
  {
    s.Put(p, s.At(p) + [s.cpus[c].curthread]).Phased(c, Placing(newstate))
  }

  function Pick(s: State, c: nat): State
    requires c < |s.cpus|
  {
    var q := s.At(RunQueue(c));
    if q == [] then s.Phased(c, Idling)
    else s.Put(RunQueue(c), q[1..]).(cpus := s.cpus[c := Cpu(q[0], Landing)])
  }

  function Run(s: State, actions: seq<Action>): State {
    if actions == [] then s
    else
      var before := Run(s, actions[..|actions| - 1]);
      var a := actions[|actions| - 1];
      if Enabled(before, a) then Step(before, a) else before
  }

  // ---------------------------------------------------------------------------------------
  // The invariant, over the one place of every thread.
  // ---------------------------------------------------------------------------------------

  ghost predicate ListIs(l: seq<nat>, p: Place, places: seq<Place>) {
    && (forall i, j :: 0 <= i < j < |l| ==> l[i] != l[j])
    && (forall t :: t in l ==> t < |places|)
    && (forall t: nat :: t < |places| ==> (t in l <==> places[t] == p))
  }

  /** Every list holds just the threads whose place it is. */
  ghost predicate Listed(s: State, places: seq<Place>) {
    && |places| == |s.threads|
    && forall p: Place :: p != Nowhere ==> ListIs(s.At(p), p, places)
  }

  predicate BelongsTo(p: Place, c: nat) {
    p.On? || p.RunQueue? || p.Zombies? || p.Victims? ==> p.cpu == c
  }

  /** Threads that run, are ready or dead, and those that processors call current, are where they are assigned to. */
  ghost predicate Homes(s: State, places: seq<Place>)
    requires |places| == |s.threads|
  {
    && (forall t :: 0 <= t < |s.threads| ==> s.threads[t].cpu < |s.cpus| && BelongsTo(places[t], s.threads[t].cpu))
    && (forall c :: 0 <= c < |s.cpus| ==> CurrentIs(s, places, c))
  }

  ghost predicate CurrentIs(s: State, places: seq<Place>, c: nat)
    requires |places| == |s.threads| && c < |s.cpus|
  {
    var t, phase := s.cpus[c].curthread, s.cpus[c].phase;
    && t < |s.threads| && s.threads[t].cpu == c && places[t] != Nowhere
    && (Runs(phase) ==> places[t] == On(c))
    && (phase.Placing? ==>
         match phase.newstate
         case S_READY => places[t] == RunQueue(c)
         case S_SLEEP => places[t].Channel? || places[t].Hands?
         case S_ZOMBIE => places[t] == Zombies(c)
         case _ => false)
  }

  /** Between being put in place and having its state set. */
  predicate InWindow(s: State, t: nat) {
    t < |s.threads| && s.threads[t].cpu < |s.cpus| &&
    s.cpus[s.threads[t].cpu].curthread == t && s.cpus[s.threads[t].cpu].phase.Placing?
  }

  ghost predicate StateIs(s: State, p: Place, t: nat)
    requires t < |s.threads|
  {
    var state := s.threads[t].state;
    match p
    case On(c) => if c < |s.cpus| && s.cpus[c].phase.Landing? then state == S_READY else state == S_RUN
    case RunQueue(_) => state == S_READY
    case Victims(_) => state == S_READY
    case Channel(_) => state == S_SLEEP || (InWindow(s, t) && state == S_RUN)
    case Hands(_) => state == S_SLEEP || (InWindow(s, t) && state == S_RUN)
    case Newborn(_) => state == S_READY
    case Zombies(_) => state == S_ZOMBIE || (InWindow(s, t) && state == S_RUN)
    case Nowhere => state == Destroyed
  }

  ghost predicate States(s: State, places: seq<Place>)
    requires |places| == |s.threads|
  {
    forall t :: 0 <= t < |s.threads| ==> StateIs(s, places[t], t)
  }

  ghost predicate Inv(s: State, places: seq<Place>) {
    Listed(s, places) && Homes(s, places) && States(s, places)
  }

  lemma InitialInv(cpus: nat)
    ensures Inv(Initial(cpus), seq(cpus, c requires 0 <= c => On(c)))
  {
  }

  // ---------------------------------------------------------------------------------------
  // Lists: a thread moves from one place to another.
  // ---------------------------------------------------------------------------------------

  ghost predicate With(l: seq<nat>, l': seq<nat>, t: nat) { l' == l + [t] || l' == [t] + l }

  lemma Gains(l: seq<nat>, l': seq<nat>, p: Place, places: seq<Place>, t: nat)
    requires ListIs(l, p, places) && t < |places| && places[t] != p && With(l, l', t)
    ensures ListIs(l', p, places[t := p])
  {
    assert t !in l;
    assert forall x :: x in l' <==> x in l || x == t;
  }

  lemma Loses(l: seq<nat>, l': seq<nat>, p: Place, places: seq<Place>, t: nat, q: Place)
    requires ListIs(l, p, places) && With(l', l, t) && q != p
    ensures t < |places| && ListIs(l', p, places[t := q])
  {
    assert forall x :: x in l <==> x in l' || x == t;
    if l == l' + [t] {
      assert l[|l'|] == t;
      assert forall i :: 0 <= i < |l'| ==> l'[i] == l[i];
    } else {
      assert l[0] == t;
      assert forall i :: 0 <= i < |l'| ==> l'[i] == l[i + 1];
    }
    assert t !in l';
  }

  lemma Stays(l: seq<nat>, p: Place, places: seq<Place>, t: nat, q: Place)
    requires ListIs(l, p, places) && t < |places| && places[t] != p && q != p
    ensures ListIs(l, p, places[t := q])
  {
  }

  lemma ListsMoved(s: State, s': State, places: seq<Place>, t: nat, p: Place, q: Place)
    requires Listed(s, places) && t < |places| && places[t] == p && p != q && |s'.threads| == |s.threads|
    requires forall r: Place :: r != p && r != q ==> s'.At(r) == s.At(r)
    requires p != Nowhere ==> With(s'.At(p), s.At(p), t)
    requires q != Nowhere ==> With(s.At(q), s'.At(q), t)
    ensures Listed(s', places[t := q])
  {
    forall r: Place | r != Nowhere ensures ListIs(s'.At(r), r, places[t := q]) {
      assert ListIs(s.At(r), r, places);
      hide ListIs, With;
      if r == p {
        Loses(s.At(r), s'.At(r), r, places, t, q);
      } else if r == q {
        Gains(s.At(r), s'.At(r), r, places, t);
      } else {
        Stays(s.At(r), r, places, t, q);
      }
    }
  }

  /** Where the threads are after a step. */
  ghost function PlacesAfter(s: State, places: seq<Place>, a: Action): seq<Place>
    requires Inv(s, places) && Enabled(s, a)
  {
    var cur := s.cpus[a.c].curthread;
    match a
    case Yield(c) => if s.At(RunQueue(c)) == [] then places else Relocated(places, cur, RunQueue(c))
    case Sleep(c, id) => Relocated(places, cur, Channel(id))
    case Exit(c) => Relocated(places, cur, Zombies(c))
    case PickNext(c) => if s.At(RunQueue(c)) == [] then places else Relocated(places, s.At(RunQueue(c))[0], On(c))
    case Exorcise(c) => if s.At(Zombies(c)) == [] then places else Relocated(places, s.At(Zombies(c))[0], Nowhere)
    case Wake(c, id) => Relocated(places, s.At(Channel(id))[0], Hands(c))
    case MakeRunnable(c) =>
      var t := s.At(Hands(c))[0];
      Relocated(places, t, RunQueue(s.threads[t].cpu))
    case Fork(c) => places + [Newborn(cur)]
    case StartNew(c) =>
      var t := s.At(Newborn(cur))[0];
      Relocated(places, t, RunQueue(s.threads[t].cpu))
    case TakeVictim(c) =>
      var q := s.At(RunQueue(c));
      Relocated(places, q[|q| - 1], Victims(c))
    case GiveVictim(c, to) =>
      var t := s.At(Victims(c))[0];
      if t == cur then places else Relocated(places, t, RunQueue(to))
    case ReturnVictim(c) => Relocated(places, s.At(Victims(c))[0], RunQueue(c))
    case _ => places
  }

  ghost function Relocated(places: seq<Place>, t: nat, p: Place): seq<Place> {
    if t < |places| then places[t := p] else places
  }

  /** A thread on a list is there, and has a state and an assignment that befit the place. */
  lemma Found(s: State, places: seq<Place>, p: Place, t: nat)
    requires Inv(s, places) && p != Nowhere && t in s.At(p)
    ensures t < |s.threads| == |places| && places[t] == p && StateIs(s, p, t)
    ensures s.threads[t].cpu < |s.cpus| && BelongsTo(p, s.threads[t].cpu)
  {
    assert ListIs(s.At(p), p, places);
  }

  lemma ListsUnmoved(s: State, s': State, places: seq<Place>)
    requires Listed(s, places) && |s'.threads| == |s.threads| && forall r: Place :: s'.At(r) == s.At(r)
    ensures Listed(s', places)
  {
    hide ListIs;
    forall r: Place | r != Nowhere ensures ListIs(s'.At(r), r, places) {
      assert ListIs(s.At(r), r, places);
    }
  }

  lemma LeaveListed(s: State, places: seq<Place>, c: nat, p: Place, newstate: ThreadState)
    requires Inv(s, places) && c < |s.cpus| && s.cpus[c].phase.Running? && !p.On? && !p.Nowhere?
    ensures Listed(Leave(s, c, p, newstate), Relocated(places, s.cpus[c].curthread, p))
  {
    var cur := s.cpus[c].curthread;
    assert CurrentIs(s, places, c);
    var s' := Leave(s, c, p, newstate);
    hide Listed;
    ListsMoved(s, s', places, cur, On(c), p);
  }

  lemma SendListed(s: State, places: seq<Place>, p: Place, q: Place)
    requires Inv(s, places) && s.At(p) != [] && p != q && !p.On? && !q.On? && !p.Nowhere? && !q.Nowhere?
    ensures s.At(p)[0] < |places| && places[s.At(p)[0]] == p
    ensures Listed(s.Send(p, q), Relocated(places, s.At(p)[0], q))
  {
    var t := s.At(p)[0];
    Found(s, places, p, t);
    hide Listed;
    assert s.At(p) == [t] + s.At(p)[1..];
    ListsMoved(s, s.Send(p, q), places, t, p, q);
  }

  lemma PickListed(s: State, places: seq<Place>, c: nat)
    requires Inv(s, places) && Enabled(s, PickNext(c))
    ensures Listed(Step(s, PickNext(c)), PlacesAfter(s, places, PickNext(c)))
  {
    hide Listed, Homes, States;
    var q := s.At(RunQueue(c));
    if q == [] {
      ListsUnmoved(s, Step(s, PickNext(c)), places);
    } else {
      Found(s, places, RunQueue(c), q[0]);
      assert q == [q[0]] + q[1..];
      ListsMoved(s, Step(s, PickNext(c)), places, q[0], RunQueue(c), On(c));
    }
  }

  lemma ExorciseListed(s: State, places: seq<Place>, c: nat)
    requires Inv(s, places) && Enabled(s, Exorcise(c))
    ensures Listed(Step(s, Exorcise(c)), PlacesAfter(s, places, Exorcise(c)))
  {
    hide Listed, Homes, States;
    var q := s.At(Zombies(c));
    if q == [] {
      ListsUnmoved(s, Step(s, Exorcise(c)), places);
    } else {
      Found(s, places, Zombies(c), q[0]);
      assert q == [q[0]] + q[1..];
      ListsMoved(s, Step(s, Exorcise(c)), places, q[0], Zombies(c), Nowhere);
    }
  }

  lemma TakeListed(s: State, places: seq<Place>, c: nat)
    requires Inv(s, places) && Enabled(s, TakeVictim(c))
    ensures Listed(Step(s, TakeVictim(c)), PlacesAfter(s, places, TakeVictim(c)))
  {
    hide Listed, Homes, States;
    var q := s.At(RunQueue(c));
    var t := q[|q| - 1];
    Found(s, places, RunQueue(c), t);
    assert q == q[..|q| - 1] + [t];
    ListsMoved(s, Step(s, TakeVictim(c)), places, t, RunQueue(c), Victims(c));
  }

  lemma GiveListed(s: State, places: seq<Place>, c: nat, to: nat)
    requires Inv(s, places) && Enabled(s, GiveVictim(c, to))
    ensures Listed(Step(s, GiveVictim(c, to)), PlacesAfter(s, places, GiveVictim(c, to)))
  {
    hide Listed, Homes, States;
    var t := s.At(Victims(c))[0];
    Found(s, places, Victims(c), t);
    if t == s.cpus[c].curthread {
      RotateListed(s, places, c);
    } else {
      SendListed(s, places, Victims(c), RunQueue(to));
      var s', places' := Step(s, GiveVictim(c, to)), PlacesAfter(s, places, GiveVictim(c, to));
      ListsUnmoved(s.Send(Victims(c), RunQueue(to)), s', places');
    }
  }

  lemma KeepsListed(s: State, places: seq<Place>, a: Action)
    requires Inv(s, places) && Enabled(s, a)
    ensures Listed(Step(s, a), PlacesAfter(s, places, a))
  {
    hide Listed, Homes, States;
    var s', c := Step(s, a), a.c;
    match a
    case Yield(_) =>
      if s.At(RunQueue(c)) != [] {
        LeaveListed(s, places, c, RunQueue(c), S_READY);
        ListsUnmoved(Leave(s, c, RunQueue(c), S_READY), s', PlacesAfter(s, places, a));
      }
    case Sleep(_, id) => LeaveListed(s, places, c, Channel(id), S_SLEEP);
    case Exit(_) => LeaveListed(s, places, c, Zombies(c), S_ZOMBIE);
    case SetState(_) => ListsUnmoved(s, s', places);
    case Relock(_) => ListsUnmoved(s, s', places);
    case Land(_) => ListsUnmoved(s, s', places);
    case PickNext(_) => PickListed(s, places, c);
    case Exorcise(_) => ExorciseListed(s, places, c);
    case Wake(_, id) => SendListed(s, places, Channel(id), Hands(c));
    case MakeRunnable(_) =>
      var p := RunQueue(s.threads[s.At(Hands(c))[0]].cpu);
      SendListed(s, places, Hands(c), p);
      ListsUnmoved(s.Send(Hands(c), p), s', PlacesAfter(s, places, a));
    case Fork(_) => ForkListed(s, places, c);
    case StartNew(_) => StartListed(s, places, c);
    case TakeVictim(_) => TakeListed(s, places, c);
    case GiveVictim(_, to) => GiveListed(s, places, c, to);
    case ReturnVictim(_) => SendListed(s, places, Victims(c), RunQueue(c));
  }

  lemma New(l: seq<nat>, r: Place, places: seq<Place>, p: Place)
    requires ListIs(l, r, places)
    ensures ListIs(if r == p then l + [|places|] else l, r, places + [p])
  {
    assert |places| !in l;
  }

  lemma ForkListed(s: State, places: seq<Place>, c: nat)
    requires Inv(s, places) && Enabled(s, Fork(c))
    ensures Listed(Step(s, Fork(c)), places + [Newborn(s.cpus[c].curthread)])
  {
    var p := Newborn(s.cpus[c].curthread);
    var s', places' := Step(s, Fork(c)), places + [p];
    forall r: Place | r != Nowhere ensures ListIs(s'.At(r), r, places') {
      assert ListIs(s.At(r), r, places);
      New(s.At(r), r, places, p);
    }
  }

  lemma StartListed(s: State, places: seq<Place>, c: nat)
    requires Inv(s, places) && Enabled(s, StartNew(c))
    ensures Listed(Step(s, StartNew(c)), PlacesAfter(s, places, StartNew(c)))
  {
    hide Listed, Homes, States;
    var from := Newborn(s.cpus[c].curthread);
    var p := RunQueue(s.threads[s.At(from)[0]].cpu);
    SendListed(s, places, from, p);
    ListsUnmoved(s.Send(from, p), Step(s, StartNew(c)), PlacesAfter(s, places, StartNew(c)));
  }

  lemma RotateListed(s: State, places: seq<Place>, c: nat)
    requires Listed(s, places) && s.At(Victims(c)) != []
    ensures Listed(s.Put(Victims(c), s.At(Victims(c))[1..] + [s.At(Victims(c))[0]]), places)
  {
    var l := s.At(Victims(c));
    var s' := s.Put(Victims(c), l[1..] + [l[0]]);
    forall r: Place | r != Nowhere ensures ListIs(s'.At(r), r, places) {
      assert ListIs(s.At(r), r, places);
      if r == Victims(c) {
        RotatedIs(l, r, places);
      } else {
        assert s'.At(r) == s.At(r);
      }
    }
  }

  lemma RotatedIs(l: seq<nat>, p: Place, places: seq<Place>)
    requires ListIs(l, p, places) && l != []
    ensures ListIs(l[1..] + [l[0]], p, places)
  {
    assert l == [l[0]] + l[1..];
    forall j | 0 <= j < |l[1..]| ensures l[1..][j] == l[j + 1] && l[j + 1] != l[0] {}
    assert forall x :: x in l[1..] + [l[0]] <==> x in l;
  }

  /** The thread that a step moves from a list, if any. */
  ghost function Mover(s: State, a: Action): (p: Place)
    requires Enabled(s, a)
  {
    match a
    case PickNext(c) => if s.At(RunQueue(c)) == [] then Nowhere else RunQueue(c)
    case Exorcise(c) => if s.At(Zombies(c)) == [] then Nowhere else Zombies(c)
    case Wake(c, id) => Channel(id)
    case MakeRunnable(c) => Hands(c)
    case StartNew(c) => Newborn(s.cpus[c].curthread)
    case TakeVictim(c) => RunQueue(c)
    case GiveVictim(c, to) => Victims(c)
    case ReturnVictim(c) => Victims(c)
    case _ => Nowhere
  }

  ghost function Moves(s: State, a: Action): int
    requires Enabled(s, a)
  {
    var p := Mover(s, a);
    if p == Nowhere || s.At(p) == [] then -1
    else if a.TakeVictim? then s.At(p)[|s.At(p)| - 1]
    else s.At(p)[0]
  }

  lemma MoverIs(s: State, places: seq<Place>, a: Action)
    requires Inv(s, places) && Enabled(s, a)
    ensures a.c < |s.cpus| && |places| == |s.threads| && CurrentIs(s, places, a.c)
    ensures var p, t := Mover(s, a), Moves(s, a); p != Nowhere ==>
      && 0 <= t < |s.threads| && s.At(p) != [] && places[t] == p && StateIs(s, p, t)
      && s.threads[t].cpu < |s.cpus| && BelongsTo(p, s.threads[t].cpu)
  {
    hide Listed, Homes, States, StateIs, BelongsTo;
    CurrentHome(s, places, a.c);
    var p := Mover(s, a);
    if p != Nowhere {
      var l := s.At(p);
      assert l != [];
      Found(s, places, p, if a.TakeVictim? then l[|l| - 1] else l[0]);
    }
  }

  lemma CurrentHome(s: State, places: seq<Place>, c: nat)
    requires Inv(s, places) && c < |s.cpus|
    ensures |places| == |s.threads| && CurrentIs(s, places, c)
  {
  }

  /** A thread is on a processor only if the processor calls it current. */
  lemma OnIsCurrent(s: State, places: seq<Place>, t: nat)
    requires Listed(s, places) && t < |s.threads| && places[t].On?
    ensures places[t].cpu < |s.cpus| && Runs(s.cpus[places[t].cpu].phase) && s.cpus[places[t].cpu].curthread == t
  {
    assert ListIs(s.At(places[t]), places[t], places);
    assert t in s.At(places[t]);
  }

  /** What a step leaves alone: the threads other than the one it moves and the processor's own. */
  lemma OthersStay(s: State, places: seq<Place>, a: Action, t: nat)
    requires Inv(s, places) && Enabled(s, a) && t < |s.threads|
    requires t != s.cpus[a.c].curthread && t != Moves(s, a)
    ensures |PlacesAfter(s, places, a)| == |Step(s, a).threads| && t < |Step(s, a).threads|
    ensures Step(s, a).threads[t] == s.threads[t] && PlacesAfter(s, places, a)[t] == places[t]
  {
    hide Listed, States, Homes, BelongsTo, StateIs;
    MoverIs(s, places, a);
  }

  /** The processors other than the one that takes the step. */
  lemma CpusStay(s: State, a: Action)
    requires Enabled(s, a)
    ensures a.c < |Step(s, a).cpus| && Step(s, a).cpus == s.cpus[a.c := Step(s, a).cpus[a.c]]
    ensures Step(s, a).cpus[a.c].curthread != s.cpus[a.c].curthread ==> a.PickNext?
  {
  }

  lemma OtherState(s: State, places: seq<Place>, a: Action, t: nat)
    requires Inv(s, places) && Enabled(s, a) && t < |s.threads|
    requires t != s.cpus[a.c].curthread && t != Moves(s, a)
    ensures |PlacesAfter(s, places, a)| == |Step(s, a).threads| && t < |Step(s, a).threads|
    ensures StateIs(Step(s, a), PlacesAfter(s, places, a)[t], t)
  {
    hide Listed, States, Homes, BelongsTo;
    OthersStay(s, places, a, t);
    CpusStay(s, a);
    StateHolds(s, places, t);
    if places[t].On? { OnIsCurrent(s, places, t); }
    hide Inv, Step, PlacesAfter, Enabled, Moves;
  }

  lemma CurrentState(s: State, places: seq<Place>, a: Action, t: nat)
    requires Inv(s, places) && Enabled(s, a) && t == s.cpus[a.c].curthread && t != Moves(s, a)
    ensures |PlacesAfter(s, places, a)| == |Step(s, a).threads| && t < |Step(s, a).threads|
    ensures StateIs(Step(s, a), PlacesAfter(s, places, a)[t], t)
  {
    hide Inv, Step, PlacesAfter, Enabled, Moves;
    if Leaves(a) { LeaverState(s, places, a, t); } else { StayerState(s, places, a, t); }
  }

  /** Whether a step puts the processor's thread on a list. */
  predicate Leaves(a: Action) { a.Yield? || a.Sleep? || a.Exit? }

  lemma LeaverState(s: State, places: seq<Place>, a: Action, t: nat)
    requires Inv(s, places) && Enabled(s, a) && t == s.cpus[a.c].curthread && t != Moves(s, a) && Leaves(a)
    ensures |PlacesAfter(s, places, a)| == |Step(s, a).threads| && t < |Step(s, a).threads|
    ensures StateIs(Step(s, a), PlacesAfter(s, places, a)[t], t)
  {
    hide Listed, States, Homes;
    MoverIs(s, places, a);
    StateHolds(s, places, t);
  }

  lemma StayerState(s: State, places: seq<Place>, a: Action, t: nat)
    requires Inv(s, places) && Enabled(s, a) && t == s.cpus[a.c].curthread && t != Moves(s, a) && !Leaves(a)
    ensures |PlacesAfter(s, places, a)| == |Step(s, a).threads| && t < |Step(s, a).threads|
    ensures StateIs(Step(s, a), PlacesAfter(s, places, a)[t], t)
  {
    hide Listed, States, Homes;
    MoverIs(s, places, a);
    StateHolds(s, places, t);
    if places[t].On? { OnIsCurrent(s, places, t); }
  }

  lemma MovedState(s: State, places: seq<Place>, a: Action, t: nat)
    requires Inv(s, places) && Enabled(s, a) && t == Moves(s, a)
    ensures |PlacesAfter(s, places, a)| == |Step(s, a).threads| && t < |Step(s, a).threads|
    ensures StateIs(Step(s, a), PlacesAfter(s, places, a)[t], t)
  {
    hide Listed, States, Homes, BelongsTo;
    MoverIs(s, places, a);
  }

  lemma KeepsStateOf(s: State, places: seq<Place>, a: Action, t: nat)
    requires Inv(s, places) && Enabled(s, a)
    ensures |PlacesAfter(s, places, a)| == |Step(s, a).threads|
    ensures t < |Step(s, a).threads| ==> StateIs(Step(s, a), PlacesAfter(s, places, a)[t], t)
  {
    hide Listed, States, Homes, StateIs;
    MoverIs(s, places, a);
    if t == Moves(s, a) {
      MovedState(s, places, a, t);
    } else if t == s.cpus[a.c].curthread {
      CurrentState(s, places, a, t);
    } else if t < |s.threads| {
      OtherState(s, places, a, t);
    } else if t < |Step(s, a).threads| {
      NewState(s, places, a, t);
    }
    hide Step, PlacesAfter, Inv, Moves;
  }

  lemma NewState(s: State, places: seq<Place>, a: Action, t: nat)
    requires Inv(s, places) && Enabled(s, a) && |s.threads| <= t < |Step(s, a).threads|
    ensures |PlacesAfter(s, places, a)| == |Step(s, a).threads|
    ensures StateIs(Step(s, a), PlacesAfter(s, places, a)[t], t)
  {
    hide Listed, States, Homes, BelongsTo;
    MoverIs(s, places, a);
  }

  lemma StateHolds(s: State, places: seq<Place>, t: nat)
    requires Inv(s, places) && t < |s.threads|
    ensures |places| == |s.threads| && StateIs(s, places[t], t)
    ensures s.threads[t].cpu < |s.cpus| && BelongsTo(places[t], s.threads[t].cpu)
  {
  }

  lemma KeepsStates(s: State, places: seq<Place>, a: Action)
    requires Inv(s, places) && Enabled(s, a)
    ensures |PlacesAfter(s, places, a)| == |Step(s, a).threads| && States(Step(s, a), PlacesAfter(s, places, a))
  {
    KeepsStateOf(s, places, a, 0);
    hide Inv, StateIs, Step, PlacesAfter, Enabled;
    forall t: nat | t < |Step(s, a).threads| ensures StateIs(Step(s, a), PlacesAfter(s, places, a)[t], t) {
      KeepsStateOf(s, places, a, t);
    }
  }

  /** The assignments of threads change only by migration, to the queue that a thread goes to. */
  lemma KeepsHomeOf(s: State, places: seq<Place>, a: Action, t: nat)
    requires Inv(s, places) && Enabled(s, a)
    ensures |PlacesAfter(s, places, a)| == |Step(s, a).threads| && |Step(s, a).cpus| == |s.cpus|
    ensures t < |Step(s, a).threads| ==>
      Step(s, a).threads[t].cpu < |s.cpus| && BelongsTo(PlacesAfter(s, places, a)[t], Step(s, a).threads[t].cpu)
  {
    hide Listed, States, Homes, StateIs;
    MoverIs(s, places, a);
    if t < |s.threads| {
      StateHolds(s, places, t);
    }
  }

  lemma OwnCurrent(s: State, places: seq<Place>, a: Action)
    requires Inv(s, places) && Enabled(s, a)
    ensures |PlacesAfter(s, places, a)| == |Step(s, a).threads| && |Step(s, a).cpus| == |s.cpus|
    ensures CurrentIs(Step(s, a), PlacesAfter(s, places, a), a.c)
  {
    if a.PickNext? {
      PickedCurrent(s, places, a.c);
    } else {
      SameCurrent(s, places, a);
    }
  }

  lemma PickedCurrent(s: State, places: seq<Place>, c: nat)
    requires Inv(s, places) && Enabled(s, PickNext(c))
    ensures var a := PickNext(c);
      && |PlacesAfter(s, places, a)| == |Step(s, a).threads| && |Step(s, a).cpus| == |s.cpus|
      && CurrentIs(Step(s, a), PlacesAfter(s, places, a), c)
  {
    hide Listed, States, Homes, StateIs;
    MoverIs(s, places, PickNext(c));
  }

  lemma SameCurrent(s: State, places: seq<Place>, a: Action)
    requires Inv(s, places) && Enabled(s, a) && !a.PickNext?
    ensures |PlacesAfter(s, places, a)| == |Step(s, a).threads| && |Step(s, a).cpus| == |s.cpus|
    ensures CurrentIs(Step(s, a), PlacesAfter(s, places, a), a.c)
  {
    hide Inv, Step, PlacesAfter, Enabled, CurrentIs;
    if Leaves(a) { LeaverCurrent(s, places, a); } else { StayerCurrent(s, places, a); }
  }

  lemma LeaverCurrent(s: State, places: seq<Place>, a: Action)
    requires Inv(s, places) && Enabled(s, a) && Leaves(a)
    ensures |PlacesAfter(s, places, a)| == |Step(s, a).threads| && |Step(s, a).cpus| == |s.cpus|
    ensures CurrentIs(Step(s, a), PlacesAfter(s, places, a), a.c)
  {
    hide Listed, States, Homes, StateIs, InWindow;
    MoverIs(s, places, a);
  }

  lemma StayerCurrent(s: State, places: seq<Place>, a: Action)
    requires Inv(s, places) && Enabled(s, a) && !a.PickNext? && !Leaves(a)
    ensures |PlacesAfter(s, places, a)| == |Step(s, a).threads| && |Step(s, a).cpus| == |s.cpus|
    ensures CurrentIs(Step(s, a), PlacesAfter(s, places, a), a.c)
  {
    hide Listed, States, Homes, StateIs, InWindow;
    MoverIs(s, places, a);
  }

  /** A processor's own thread is not moved by others, except to be made runnable once it sleeps. */
  lemma OtherCurrent(s: State, places: seq<Place>, a: Action, d: nat)
    requires Inv(s, places) && Enabled(s, a) && d < |s.cpus| && d != a.c
    ensures |PlacesAfter(s, places, a)| == |Step(s, a).threads| && |Step(s, a).cpus| == |s.cpus|
    ensures CurrentIs(Step(s, a), PlacesAfter(s, places, a), d)
  {
    hide Listed, States, Homes;
    MoverIs(s, places, a);
    CurrentHome(s, places, d);
    CpusStay(s, a);
    var t := s.cpus[d].curthread;
    StateHolds(s, places, t);
    if t != Moves(s, a) {
      OthersStay(s, places, a, t);
      hide Step, PlacesAfter, Moves, StateIs, Enabled;
    }
  }

  lemma KeepsCurrent(s: State, places: seq<Place>, a: Action, d: nat)
    requires Inv(s, places) && Enabled(s, a) && d < |s.cpus|
    ensures |PlacesAfter(s, places, a)| == |Step(s, a).threads| && |Step(s, a).cpus| == |s.cpus|
    ensures CurrentIs(Step(s, a), PlacesAfter(s, places, a), d)
  {
    hide Inv, Step, PlacesAfter, Enabled, CurrentIs;
    if d == a.c {
      OwnCurrent(s, places, a);
    } else {
      OtherCurrent(s, places, a, d);
    }
  }

  lemma KeepsHomes(s: State, places: seq<Place>, a: Action)
    requires Inv(s, places) && Enabled(s, a)
    ensures |PlacesAfter(s, places, a)| == |Step(s, a).threads| && Homes(Step(s, a), PlacesAfter(s, places, a))
  {
    KeepsHomeOf(s, places, a, 0);
    hide Inv, Step, PlacesAfter, Enabled, BelongsTo, CurrentIs;
    var s', places' := Step(s, a), PlacesAfter(s, places, a);
    forall t: nat | t < |s'.threads| ensures s'.threads[t].cpu < |s'.cpus| && BelongsTo(places'[t], s'.threads[t].cpu) {
      KeepsHomeOf(s, places, a, t);
    }
    forall d: nat | d < |s'.cpus| ensures CurrentIs(s', places', d) {
      KeepsCurrent(s, places, a, d);
    }
  }

  lemma StepKeepsInv(s: State, places: seq<Place>, a: Action)
    requires Inv(s, places) && Enabled(s, a)
    ensures Inv(Step(s, a), PlacesAfter(s, places, a))
  {
    KeepsListed(s, places, a);
    KeepsHomes(s, places, a);
    KeepsStates(s, places, a);
    hide Listed, Homes, States, Step, PlacesAfter;
  }

  lemma {:induction false} RunKeepsInv(s: State, places: seq<Place>, actions: seq<Action>) returns (places': seq<Place>)
    requires Inv(s, places)
    ensures Inv(Run(s, actions), places')
  {
    hide Inv, Step, PlacesAfter, Enabled;
    places' := places;
    if actions != [] {
      var before := Run(s, actions[..|actions| - 1]);
      var a := actions[|actions| - 1];
      places' := RunKeepsInv(s, places, actions[..|actions| - 1]);
      if Enabled(before, a) {
        StepKeepsInv(before, places', a);
        places' := PlacesAfter(before, places', a);
      }
    }
  }

  lemma Reachable(cpus: nat, actions: seq<Action>) returns (places: seq<Place>)
    ensures Inv(Run(Initial(cpus), actions), places)
  {
    InitialInv(cpus);
    places := RunKeepsInv(Initial(cpus), seq(cpus, c requires 0 <= c => On(c)), actions);
  }

  // ---------------------------------------------------------------------------------------
  // What holds in every reachable state.
  // ---------------------------------------------------------------------------------------

  /** A thread that has not been destroyed is in one place, once; one that has is in none. */
  ghost predicate InOnePlace(s: State, t: nat)
    requires t < |s.threads|
  {
    && (s.threads[t].state == Destroyed ==> forall p: Place :: t !in s.At(p))
    && (s.threads[t].state != Destroyed ==> exists p: Place :: t in s.At(p))
    && (forall p, q: Place :: t in s.At(p) && t in s.At(q) ==> p == q)
    && (forall p: Place, i, j :: 0 <= i < j < |s.At(p)| ==> s.At(p)[i] != t || s.At(p)[j] != t)
  }

  lemma ThreadsInOnePlace(cpus: nat, actions: seq<Action>, t: nat)
    requires t < |Run(Initial(cpus), actions).threads|
    ensures InOnePlace(Run(Initial(cpus), actions), t)
  {
    hide Run, Initial;
    var s := Run(Initial(cpus), actions);
    var places := Reachable(cpus, actions);
    StateHolds(s, places, t);
    forall p: Place ensures t in s.At(p) <==> p != Nowhere && places[t] == p {
      if p != Nowhere { assert ListIs(s.At(p), p, places); }
    }
    if places[t].On? { OnIsCurrent(s, places, t); }
    forall p: Place, i, j | 0 <= i < j < |s.At(p)| ensures s.At(p)[i] != t || s.At(p)[j] != t {
      assert p != Nowhere ==> ListIs(s.At(p), p, places);
    }
    hide Inv, StateIs;
    if s.threads[t].state != Destroyed { assert t in s.At(places[t]); }
  }

  /** A thread's state is the one that befits its place, but for the window in thread_switch. */
  lemma StatesMatch(cpus: nat, actions: seq<Action>, p: Place, t: nat)
    requires t in Run(Initial(cpus), actions).At(p)
    ensures var s := Run(Initial(cpus), actions); t < |s.threads| && StateIs(s, p, t)
  {
    hide Run, Initial, StateIs;
    var places := Reachable(cpus, actions);
    Found(Run(Initial(cpus), actions), places, p, t);
  }

  /** Threads on a processor's run queue are assigned to it. */
  lemma QueuesAreLocal(cpus: nat, actions: seq<Action>, c: nat, t: nat)
    requires t in Run(Initial(cpus), actions).At(RunQueue(c))
    ensures var s := Run(Initial(cpus), actions); t < |s.threads| && s.threads[t].cpu == c < |s.cpus|
  {
    hide Run, Initial, StateIs;
    var places := Reachable(cpus, actions);
    Found(Run(Initial(cpus), actions), places, RunQueue(c), t);
  }

  /** No two processors are on the same thread's stack, idle or not, and none on that of a destroyed thread. */
  lemma NoStackIsShared(cpus: nat, actions: seq<Action>, c: nat, d: nat)
    requires c < |Run(Initial(cpus), actions).cpus| && d < |Run(Initial(cpus), actions).cpus|
    ensures var s := Run(Initial(cpus), actions); var t := s.cpus[c].curthread;
      && t < |s.threads| && s.threads[t].cpu == c && s.threads[t].state != Destroyed
      && (c != d ==> t != s.cpus[d].curthread)
  {
    hide Run, Initial;
    var s := Run(Initial(cpus), actions);
    var places := Reachable(cpus, actions);
    CurrentHome(s, places, c);
    CurrentHome(s, places, d);
    StateHolds(s, places, s.cpus[c].curthread);
    hide Inv;
  }

  /** What exorcise takes is a zombie indeed, and no processor is on its stack. */
  lemma ExorciseIsSafe(cpus: nat, actions: seq<Action>, c: nat, z: nat, d: nat)
    requires var s := Run(Initial(cpus), actions);
      && Enabled(s, Exorcise(c)) && z in s.At(Zombies(c)) && d < |s.cpus|
    ensures var s := Run(Initial(cpus), actions);
      z < |s.threads| && s.threads[z].state == S_ZOMBIE && s.cpus[d].curthread != z
  {
    hide Run, Initial;
    var s := Run(Initial(cpus), actions);
    var places := Reachable(cpus, actions);
    Found(s, places, Zombies(c), z);
    CurrentHome(s, places, c);
    CurrentHome(s, places, d);
    hide Inv;
  }
}
