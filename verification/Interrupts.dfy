/**
 Interrupt levels and spinlocks. A thread counts how often the interrupt level has been raised on
 its behalf, by splx and by the spinlocks its processor takes; interrupts are off while the count
 is positive. A context switch hands the run queue's spinlock from one thread to another, and with
 it one of the raises.
 */
module Interrupts {

  const IPL_NONE := 0
  const IPL_HIGH := 1

  type Ipl = i: int | IPL_NONE <= i <= IPL_HIGH

  class Thread {
    var curspl: Ipl
    var iplhighCount: nat
    /** The level that the thread goes back to when its thread_switch, or its startup, ends. */
    var savedSpl: Ipl

    /** A new thread, as thread_create leaves it; it will start with spl0. */
    constructor ()
      ensures curspl == IPL_HIGH && iplhighCount == 1 && savedSpl == IPL_NONE
    {
      curspl, iplhighCount, savedSpl := IPL_HIGH, 1, IPL_NONE;
    }

    /** Off a processor: a raise for its level, and one for the run queue lock it will release. */
    ghost predicate Owes()
      reads this
    {
      curspl == IPL_HIGH && iplhighCount == 2
    }
  }

  class Spinlock {
    var word: int
    var holder: Cpu?

    constructor ()
      ensures word == 0 && holder == null
    {
      word, holder := 0, null;
    }

    ghost predicate Valid()
      reads this
    {
      (word == 0 || word == 1) && (word == 0 <==> holder == null)
    }
  }

  datatype Outcome = Acquired | Spinning | Deadlocked

  class Cpu {
    var curthread: Thread
    var spinlocks: nat
    var irqOff: bool
    ghost const locks: set<Spinlock>
    ghost var held: set<Spinlock>
    /** The lock in whose spin loop the processor is, if any. */
    var awaited: Spinlock?

    /** A processor with its first thread, interrupts off. */
    constructor (ghost locks: set<Spinlock>)
      requires forall l :: l in locks ==> l.Valid()
      ensures Balanced() && held == {} && awaited == null && this.locks == locks && fresh(curthread)
    {
      curthread := new Thread();
      spinlocks, irqOff, awaited := 0, true, null;
      this.locks, held := locks, {};
    }

    function High(): int
      reads this, curthread
    {
      if curthread.curspl == IPL_HIGH then 1 else 0
    }

    ghost predicate Counted()
      reads this`spinlocks, this`held, this`awaited, locks
    {
      && spinlocks == |held| + (if awaited == null then 0 else 1)
      && held <= locks && awaited !in held && (awaited != null ==> awaited in locks)
      && forall l :: l in locks ==> l.Valid() && (l.holder == this <==> l in held)
    }

    /** The accounts of the running thread and its processor agree. */
    ghost predicate Balanced()
      reads this, curthread, locks
    {
      && Counted()
      && curthread.iplhighCount == spinlocks + High()
      && (irqOff <==> curthread.iplhighCount > 0)
    }

    /** Hence interrupts are off just while a spinlock is held or awaited or the level is high. */
    lemma OffWhenRaised()
      requires Balanced()
      ensures irqOff <==> held != {} || awaited != null || curthread.curspl == IPL_HIGH
    {
      if held != {} {
        var l :| l in held;
        assert |held| == |held - {l}| + 1;
      }
    }

    method Splraise()
      requires irqOff <==> curthread.iplhighCount > 0
      modifies this`irqOff, curthread`iplhighCount
      ensures curthread.iplhighCount == old(curthread.iplhighCount) + 1 && irqOff
    {
      if curthread.iplhighCount == 0 {
        irqOff := true;
      }
      curthread.iplhighCount := curthread.iplhighCount + 1;
    }

    method Spllower()
      requires irqOff && curthread.iplhighCount > 0
      modifies this`irqOff, curthread`iplhighCount
      ensures curthread.iplhighCount == old(curthread.iplhighCount) - 1
      ensures irqOff <==> curthread.iplhighCount > 0
    {
      curthread.iplhighCount := curthread.iplhighCount - 1;
      if curthread.iplhighCount == 0 {
        irqOff := false;
      }
    }

    /** Sets the level, whatever spinlocks are held, and returns the one before. */
    method Splx(spl: Ipl) returns (ret: Ipl)
      requires Balanced()
      modifies this`irqOff, curthread`iplhighCount, curthread`curspl
      ensures Balanced() && curthread.curspl == spl && ret == old(curthread.curspl)
    {
      if curthread.curspl < spl {
        Splraise();
        ret := curthread.curspl;
        curthread.curspl := spl;
      } else if curthread.curspl > spl {
        ret := curthread.curspl;
        curthread.curspl := spl;
        Spllower();
      } else {
        ret := spl;
      }
    }

    /** Raises the level, and makes a first attempt at the lock. */
    method Acquire(lock: Spinlock) returns (r: Outcome)
      requires Balanced() && lock in locks && awaited == null
      modifies this`irqOff, this`spinlocks, this`held, this`awaited, curthread`iplhighCount, lock
      ensures r.Deadlocked? <==> old(lock.holder) == this
      ensures r.Deadlocked? ==> lock.holder == this
      ensures r.Acquired? <==> old(lock.holder) == null
      ensures !r.Deadlocked? ==> Balanced() && irqOff && spinlocks == old(spinlocks) + 1
      ensures r.Acquired? ==> held == old(held) + {lock} && awaited == null && lock.holder == this
      ensures r.Spinning? ==> held == old(held) && awaited == lock && lock.holder == old(lock.holder)
    {
      Splraise();
      if lock.holder == this {
        return Deadlocked;
      }
      spinlocks := spinlocks + 1;
      awaited := lock;
      var got := TestAndSet(lock);
      r := if got then Acquired else Spinning;
    }

    /** One round of the loop that waits for the lock. */
    method TestAndSet(lock: Spinlock) returns (got: bool)
      requires Balanced() && lock in locks && awaited == lock
      modifies this`held, this`awaited, lock
      ensures Balanced() && (got <==> old(lock.holder) == null)
      ensures got ==> held == old(held) + {lock} && awaited == null && lock.holder == this
      ensures !got ==> held == old(held) && awaited == lock && lock.holder == old(lock.holder)
    {
      if lock.word != 0 {
        return false;
      }
      lock.word := 1;
      lock.holder := this;
      held, awaited := held + {lock}, null;
      got := true;
    }

    method Release(lock: Spinlock)
      requires Balanced() && lock in held && awaited == null
      modifies this`irqOff, this`spinlocks, this`held, curthread`iplhighCount, lock
      ensures Balanced() && held == old(held) - {lock} && spinlocks == old(spinlocks) - 1
      ensures lock.holder == null
    {
      spinlocks := spinlocks - 1;
      lock.holder := null;
      lock.word := 0;
      held := held - {lock};
      Spllower();
    }

    lemma HeldIsIn(lock: Spinlock)
      requires Balanced()
      ensures lock in held ==> lock in locks && lock.holder == this
      ensures lock in locks && lock.holder == null ==> lock !in held
      ensures lock in locks && lock.holder == this ==> lock in held
    {
    }

    /** The start of thread_switch: the level goes up, the old one is kept, and the run queue is asked for. */
    method SwitchOut(runq: Spinlock) returns (r: Outcome)
      requires Balanced() && awaited == null && runq in locks
      modifies this`irqOff, this`spinlocks, this`held, this`awaited, curthread, runq
      ensures r.Deadlocked? <==> old(runq.holder) == this
      ensures r.Deadlocked? ==> runq.holder == this
      ensures r.Acquired? <==> old(runq.holder) == null
      ensures !r.Deadlocked? ==> Balanced() && irqOff && spinlocks == old(spinlocks) + 1
      ensures r.Acquired? ==> held == old(held) + {runq} && awaited == null && runq.holder == this
      ensures r.Spinning? ==> held == old(held) && awaited == runq && runq.holder == old(runq.holder)
      ensures curthread.curspl == IPL_HIGH && curthread.savedSpl == old(curthread.curspl)
    {
      hide Counted;
      var spl := Splx(IPL_HIGH);
      curthread.savedSpl := spl;
      r := Acquire(runq);
    }

    /**
     Its end, or the start of a new thread: on the stack of `next`, which pays the release that it
     owes and goes back to its own level.
     */
    method SwitchIn(runq: Spinlock, next: Thread)
      requires Balanced() && held == {runq} && awaited == null && curthread.curspl == IPL_HIGH
      requires next == curthread || next.Owes()
      modifies this`irqOff, this`spinlocks, this`held, this`curthread, next, runq
      ensures Balanced() && held == {} && awaited == null && runq.holder == null && curthread == next
      ensures old(curthread) != next ==> old(curthread).Owes()
      ensures next.curspl == old(next.savedSpl) && next.savedSpl == old(next.savedSpl)
    {
      hide Counted;
      HandOver(runq, next);
      HeldIsIn(runq);
      curthread := next;
      Release(runq);
      var spl := Splx(next.savedSpl);
    }

    /** Whoever is switched to carries the raises that the lock and the level call for. */
    lemma HandOver(runq: Spinlock, next: Thread)
      requires Balanced() && held == {runq} && awaited == null && curthread.curspl == IPL_HIGH
      requires next == curthread || next.Owes()
      ensures curthread.Owes() && next.Owes() && irqOff && spinlocks == 1 && Counted()
    {
    }

    /** One lock taken that is this one. */
    lemma OnlyHeld(runq: Spinlock)
      requires Balanced() && runq in locks && runq.holder == this && spinlocks == 1
      ensures held == {runq} && awaited == null
    {
      assert runq in held;
      var rest := held - {runq};
      assert |held| == |rest| + 1;
      assert rest == {};
    }
  }

  /** One step of one processor. */
  datatype Step =
    | SetLevel(cpu: nat, spl: Ipl)
    | Lock(cpu: nat, lock: nat)
    | Spin(cpu: nat)
    | Unlock(cpu: nat, lock: nat)
    | BeginSwitch(cpu: nat, runq: nat)
    | EndSwitch(cpu: nat, runq: nat, next: nat)
    | NewThread

  /**
   What processors run, what they wait for, who holds which lock, and the levels of the threads there
   are: the one a thread is at, and the one it goes back to.
   */
  datatype View = View(running: map<Cpu, Thread>, awaits: map<Cpu, Spinlock>, holders: map<Spinlock, Cpu>,
                       levels: map<Thread, Ipl>, saved: map<Thread, Ipl>, threads: seq<Thread>)

  datatype Result = Taken | Skipped | Panicked

  ghost predicate Free(v: View, c: Cpu) { c in v.running && v.running[c] in v.levels && c !in v.awaits }

  ghost predicate HoldsJust(v: View, c: Cpu, l: Spinlock) {
    l in v.holders && v.holders[l] == c && forall k :: k in v.holders && v.holders[k] == c ==> k == l
  }

  /** Whether a step makes sense: a waiting processor can but go on waiting. */
  ghost predicate Possible(cpus: seq<Cpu>, locks: seq<Spinlock>, v: View, s: Step) {
    match s
    case SetLevel(i, spl) => i < |cpus| && Free(v, cpus[i])
    case Lock(i, l) => i < |cpus| && l < |locks| && Free(v, cpus[i])
    case Spin(i) => i < |cpus| && cpus[i] in v.awaits
    case Unlock(i, l) =>
      i < |cpus| && l < |locks| && Free(v, cpus[i]) && locks[l] in v.holders && v.holders[locks[l]] == cpus[i]
    case BeginSwitch(i, l) => i < |cpus| && l < |locks| && Free(v, cpus[i])
    case EndSwitch(i, l, t) =>
      && i < |cpus| && l < |locks| && t < |v.threads| && Free(v, cpus[i]) && HoldsJust(v, cpus[i], locks[l])
      && v.levels[v.running[cpus[i]]] == IPL_HIGH && v.threads[t] in v.saved
      && forall d :: d in v.running && v.running[d] == v.threads[t] ==> d == cpus[i]
    case NewThread => true
  }

  ghost function Asked(v: View, c: Cpu, l: Spinlock): View {
    if l in v.holders then v.(awaits := v.awaits[c := l]) else v.(holders := v.holders[l := c])
  }

  ghost function Retried(v: View, c: Cpu, l: Spinlock): View {
    if l in v.holders then v else v.(awaits := v.awaits - {c}, holders := v.holders[l := c])
  }

  /** The thread of `c` at its highest level, the one before kept for later. */
  ghost function Raised(v: View, c: Cpu): View
    requires c in v.running && v.running[c] in v.levels
  {
    var t := v.running[c];
    v.(levels := v.levels[t := IPL_HIGH], saved := v.saved[t := v.levels[t]])
  }

  ghost function Switched(v: View, c: Cpu, runq: Spinlock, next: Thread): View
    requires next in v.saved
  {
    v.(running := v.running[c := next], holders := v.holders - {runq}, levels := v.levels[next := v.saved[next]])
  }

  ghost function Made(v: View, t: Thread): View {
    v.(levels := v.levels[t := IPL_HIGH], saved := v.saved[t := IPL_NONE], threads := v.threads + [t])
  }

  /** What a step does that is possible, no panic, and not the making of a thread. */
  ghost function Next(cpus: seq<Cpu>, locks: seq<Spinlock>, v: View, s: Step): View
    requires Possible(cpus, locks, v, s)
  {
    match s
    case SetLevel(i, spl) => v.(levels := v.levels[v.running[cpus[i]] := spl])
    case Lock(i, l) => Asked(v, cpus[i], locks[l])
    case Spin(i) => Retried(v, cpus[i], v.awaits[cpus[i]])
    case Unlock(i, l) => v.(holders := v.holders - {locks[l]})
    case BeginSwitch(i, l) => Asked(Raised(v, cpus[i]), cpus[i], locks[l])
    case EndSwitch(i, l, n) => Switched(v, cpus[i], locks[l], v.threads[n])
    case NewThread => v
  }

  ghost predicate Relocks(cpus: seq<Cpu>, locks: seq<Spinlock>, v: View, s: Step) {
    (s.Lock? || s.BeginSwitch?) && s.cpu < |cpus| &&
    var l := if s.Lock? then s.lock else s.runq;
    l < |locks| && locks[l] in v.holders && v.holders[locks[l]] == cpus[s.cpu]
  }

  ghost predicate IsMade(v: View, t: Thread, v': View) { t !in v.levels && v' == Made(v, t) }

  /** A step is taken, or passed over if it makes no sense, or panics on a lock of one's own. */
  ghost predicate Follows(cpus: seq<Cpu>, locks: seq<Spinlock>, v: View, s: Step, r: Result, v': View) {
    if !Possible(cpus, locks, v, s) then r == Skipped && v' == v
    else if Relocks(cpus, locks, v, s) then r == Panicked
    else
      && r == Taken
      && if s.NewThread? then |v'.threads| == |v.threads| + 1 && IsMade(v, v'.threads[|v.threads|], v')
         else v' == Next(cpus, locks, v, s)
  }

  /** The results of a run, and the view after each. */
  ghost predicate Traced(cpus: seq<Cpu>, locks: seq<Spinlock>, steps: seq<Step>, results: seq<Result>, run: seq<View>) {
    && |results| <= |steps| && |run| == |results| + 1
    && forall k :: 0 <= k < |results| ==> Follows(cpus, locks, run[k], steps[k], results[k], run[k + 1])
  }

  lemma TraceGrows(cpus: seq<Cpu>, locks: seq<Spinlock>, steps: seq<Step>, results: seq<Result>, run: seq<View>,
                   r: Result, v: View)
    requires Traced(cpus, locks, steps, results, run) && |results| < |steps|
    requires Follows(cpus, locks, run[|results|], steps[|results|], r, v)
    ensures Traced(cpus, locks, steps, results + [r], run + [v])
  {
    hide Follows;
  }

  /** Several processors. */
  class Machine {
    const cpus: seq<Cpu>
    const locks: seq<Spinlock>
    var threads: seq<Thread>

    /** Processors with a first thread each, and all spinlocks free. */
    constructor (n: nat, locks: seq<Spinlock>)
      requires forall l :: l in locks ==> l.word == 0 && l.holder == null
      ensures Valid() && |cpus| == n && this.locks == locks && |threads| == n
      ensures forall c :: c in cpus ==> fresh(c) && c.held == {} && c.awaited == null
      ensures fresh(threads)
    {
      var made: seq<Cpu>, first: seq<Thread> := [], [];
      ghost var all := set l | l in locks;
      while |made| < n
        invariant |made| == |first| <= n
        invariant forall l :: l in locks ==> l.word == 0 && l.holder == null
        invariant forall i :: 0 <= i < |made| ==>
          fresh(made[i]) && fresh(first[i]) && made[i].curthread == first[i] && made[i].locks == all
        invariant forall i :: 0 <= i < |made| ==> made[i].Balanced() && made[i].held == {} && made[i].awaited == null
        invariant forall i, j :: 0 <= i < j < |made| ==> made[i] != made[j] && first[i] != first[j]
      {
        var c := new Cpu(all);
        made, first := made + [c], first + [c.curthread];
      }
      this.cpus, this.locks, threads := made, locks, first;
    }

    ghost predicate Runs(t: Thread)
      reads this, cpus
    {
      exists c :: c in cpus && c.curthread == t
    }

    ghost function Locks(): set<Spinlock> { set l | l in locks }

    /** Every processor's accounts agree, and every thread off the processors owes one release. */
    ghost predicate Valid()
      reads this, cpus, threads, locks
    {
      && (forall i, j :: 0 <= i < j < |cpus| ==> cpus[i] != cpus[j])
      && (forall c :: c in cpus ==> c.locks == Locks() && c.curthread in threads && c.Balanced())
      && (forall c, d :: c in cpus && d in cpus && c.curthread == d.curthread ==> c == d)
      && (forall t :: t in threads && !Runs(t) ==> t.Owes())
    }

    ghost function Running(): map<Cpu, Thread>
      reads cpus`curthread
    {
      map c | c in cpus :: c.curthread
    }

    ghost function Awaits(): map<Cpu, Spinlock>
      reads cpus`awaited
    {
      map c | c in cpus && c.awaited != null :: c.awaited
    }

    ghost function Holders(): map<Spinlock, Cpu>
      reads locks`holder
    {
      map l | l in locks && l.holder != null :: l.holder
    }

    ghost function Levels(): map<Thread, Ipl>
      reads this, threads`curspl
    {
      map t | t in threads :: t.curspl
    }

    ghost function Saved(): map<Thread, Ipl>
      reads this, threads`savedSpl
    {
      map t | t in threads :: t.savedSpl
    }

    ghost function Now(): View
      reads this, cpus`curthread, cpus`awaited, locks`holder, threads`curspl, threads`savedSpl
    {
      View(Running(), Awaits(), Holders(), Levels(), Saved(), threads)
    }

    /** Only `c`, the threads it runs before and after, and the locks it takes or releases change. */
    twostate predicate OnlyBy(c: Cpu)
      reads this, cpus, threads, locks, c
    {
      && old(threads) <= threads
      && (forall d :: d in cpus && d != c ==> unchanged(d))
      && (forall l :: l in locks && l.holder != old(l.holder) ==> l.holder in {null, c} && old(l.holder) in {null, c})
      && (forall t :: t in old(threads) && t != c.curthread && t != old(c.curthread) ==> unchanged(t))
    }

    twostate lemma OthersStay(new c: Cpu)
      requires c in cpus && old(Valid()) && OnlyBy(c)
      requires c.Balanced() && c.locks == Locks()
      requires forall d :: d in cpus && d != c ==> old(d.curthread) != c.curthread
      ensures forall d :: d in cpus && d != c ==> d.Balanced() && d.curthread == old(d.curthread)
    {
      forall d | d in cpus && d != c ensures d.Balanced() && d.curthread == old(d.curthread) {
        assert old(d.Balanced());
        assert d.curthread != c.curthread;
        assert unchanged(d.curthread);
      }
    }

    method Splx(c: Cpu, spl: Ipl) returns (ret: Ipl)
      requires Valid() && c in cpus
      modifies c`irqOff, c.curthread`iplhighCount, c.curthread`curspl
      ensures Valid() && c.curthread.curspl == spl && ret == old(c.curthread.curspl)
    {
      ret := c.Splx(spl);
      OthersStay(c);
    }

    /** Asks for a spinlock, and says who has it. */
    method Acquire(c: Cpu, lock: Spinlock) returns (r: Outcome)
      requires Valid() && c in cpus && lock in locks && c.awaited == null
      modifies c`irqOff, c`spinlocks, c`held, c`awaited, c.curthread`iplhighCount, lock
      ensures r.Deadlocked? <==> old(lock.holder) == c
      ensures r.Deadlocked? ==> lock.holder == c
      ensures r.Acquired? <==> old(lock.holder) == null
      ensures !r.Deadlocked? ==> Valid() && c.irqOff
      ensures r.Acquired? ==> c.held == old(c.held) + {lock} && c.awaited == null && lock.holder == c
      ensures r.Spinning? ==> c.held == old(c.held) && c.awaited == lock && lock.holder == old(lock.holder)
    {
      r := c.Acquire(lock);
      if !r.Deadlocked? {
        OthersStay(c);
      }
    }

    /** One more round of the spin loop that a processor is in. */
    method TestAndSet(c: Cpu, lock: Spinlock) returns (got: bool)
      requires Valid() && c in cpus && lock in locks && c.awaited == lock
      modifies c`held, c`awaited, lock
      ensures Valid() && (got <==> old(lock.holder) == null)
      ensures got ==> c.held == old(c.held) + {lock} && c.awaited == null && lock.holder == c
      ensures !got ==> c.held == old(c.held) && c.awaited == lock && lock.holder == old(lock.holder)
    {
      got := c.TestAndSet(lock);
      OthersStay(c);
    }

    method Release(c: Cpu, lock: Spinlock)
      requires Valid() && c in cpus && c.awaited == null && lock.holder == c && lock in locks
      modifies c`irqOff, c`spinlocks, c`held, c.curthread`iplhighCount, lock
      ensures Valid() && lock.holder == null && c.held == old(c.held) - {lock}
    {
      c.HeldIsIn(lock);
      c.Release(lock);
      OthersStay(c);
    }

    /** thread_create, and the raise that thread_fork adds for the release the thread will do. */
    method Fork() returns (t: Thread)
      requires Valid()
      modifies this`threads
      ensures Valid() && fresh(t) && threads == old(threads) + [t] && !Runs(t) && t.Owes() && t.savedSpl == IPL_NONE
    {
      t := new Thread();
      t.iplhighCount := t.iplhighCount + 1;
      threads := threads + [t];
    }

    /** A thread enters thread_switch, with whatever spinlocks it holds. */
    method SwitchOut(c: Cpu, runq: Spinlock) returns (r: Outcome)
      requires Valid() && c in cpus && c.awaited == null && runq in locks
      modifies c`irqOff, c`spinlocks, c`held, c`awaited, c.curthread, runq
      ensures r.Deadlocked? <==> old(runq.holder) == c
      ensures r.Deadlocked? ==> runq.holder == c
      ensures r.Acquired? <==> old(runq.holder) == null
      ensures !r.Deadlocked? ==> Valid() && c.irqOff
      ensures r.Acquired? ==> c.held == old(c.held) + {runq} && c.awaited == null && runq.holder == c
      ensures r.Spinning? ==> c.held == old(c.held) && c.awaited == runq && runq.holder == old(runq.holder)
      ensures c.curthread.curspl == IPL_HIGH && c.curthread.savedSpl == old(c.curthread.curspl)
    {
      r := c.SwitchOut(runq);
      if !r.Deadlocked? {
        OthersStay(c);
      }
    }

    /** A processor that holds just its run queue's lock goes on with a thread that no processor runs, or its own. */
    method SwitchIn(c: Cpu, runq: Spinlock, next: Thread)
      requires Valid() && c in cpus && runq in locks && c.held == {runq} && c.awaited == null
      requires c.curthread.curspl == IPL_HIGH && next in threads && (next == c.curthread || !Runs(next))
      modifies c`irqOff, c`spinlocks, c`held, c`curthread, next, runq
      ensures Valid() && c.curthread == next && c.held == {} && c.awaited == null && runq.holder == null
      ensures next.savedSpl == old(next.savedSpl)
      ensures next.curspl == old(next.savedSpl) && (c.irqOff <==> next.curspl == IPL_HIGH)
      ensures old(c.curthread) != next ==> !Runs(old(c.curthread)) && old(c.curthread).Owes()
    {
      c.SwitchIn(runq, next);
      OthersStay(c);
      c.OffWhenRaised();
    }

    /** Whether a step can be taken; one that cannot is passed over. */
    predicate Ready(s: Step)
      requires Valid()
      reads this, cpus, threads, locks
    {
      match s
      case SetLevel(i, spl) => i < |cpus| && cpus[i].awaited == null
      case Lock(i, l) => i < |cpus| && l < |locks| && cpus[i].awaited == null
      case Spin(i) => i < |cpus| && cpus[i].awaited != null
      case Unlock(i, l) => i < |cpus| && l < |locks| && cpus[i].awaited == null && locks[l].holder == cpus[i]
      case BeginSwitch(i, l) => i < |cpus| && l < |locks| && cpus[i].awaited == null
      case EndSwitch(i, l, t) =>
        && i < |cpus| && l < |locks| && t < |threads| && cpus[i].awaited == null
        && locks[l].holder == cpus[i] && cpus[i].spinlocks == 1 && cpus[i].curthread.curspl == IPL_HIGH
        && forall j :: 0 <= j < |cpus| && cpus[j].curthread == threads[t] ==> j == i
      case NewThread => true
    }

    /** Whether a step asks for a spinlock that the processor holds. */
    predicate Panics(s: Step)
      reads this, cpus, threads, locks
    {
      match s
      case Lock(i, l) => i < |cpus| && l < |locks| && locks[l].holder == cpus[i]
      case BeginSwitch(i, l) => i < |cpus| && l < |locks| && locks[l].holder == cpus[i]
      case _ => false
    }

    lemma InThreads(c: Cpu)
      requires Valid() && c in cpus
      ensures c.curthread in threads && c.locks == Locks() && c.Balanced()
    {
    }

    twostate lemma MadeIs(new t: Thread)
      requires threads == old(threads) + [t] && t !in old(threads)
      requires forall x :: x in old(threads) ==> x.curspl == old(x.curspl) && x.savedSpl == old(x.savedSpl)
      ensures t !in old(Levels()) && Levels() == old(Levels())[t := t.curspl]
      ensures Saved() == old(Saved())[t := t.savedSpl]
    {
    }

    lemma NextIs(next: Thread)
      requires next in threads
      ensures next in Saved() && Saved()[next] == next.savedSpl
    {
    }

    // What the single steps make of the view.

    twostate lemma LevelOf(new t: Thread)
      requires threads == old(threads) && t in threads
      requires forall x :: x in threads && x != t ==> x.curspl == old(x.curspl)
      ensures Levels() == old(Levels())[t := t.curspl]
    {
    }

    twostate lemma SavedOf(new t: Thread)
      requires threads == old(threads) && t in threads
      requires forall x :: x in threads && x != t ==> x.savedSpl == old(x.savedSpl)
      ensures Saved() == old(Saved())[t := t.savedSpl]
    {
    }

    twostate lemma RunningOn(new c: Cpu)
      requires c in cpus && forall d :: d in cpus && d != c ==> d.curthread == old(d.curthread)
      ensures Running() == old(Running())[c := c.curthread]
    {
    }

    twostate lemma AwaitedBy(new c: Cpu)
      requires c in cpus && forall d :: d in cpus && d != c ==> d.awaited == old(d.awaited)
      ensures c.awaited == old(c.awaited) ==> Awaits() == old(Awaits())
      ensures c.awaited != null ==> Awaits() == old(Awaits())[c := c.awaited]
      ensures c.awaited == null ==> Awaits() == old(Awaits()) - {c}
    {
    }

    twostate lemma HolderOf(new l: Spinlock)
      requires l in locks && forall k :: k in locks && k != l ==> k.holder == old(k.holder)
      ensures l.holder == old(l.holder) ==> Holders() == old(Holders())
      ensures l.holder != null ==> Holders() == old(Holders())[l := l.holder]
      ensures l.holder == null ==> Holders() == old(Holders()) - {l}
    {
    }

    lemma NowIs(c: Cpu, l: Spinlock)
      requires Valid() && c in cpus && l in locks
      ensures c.curthread in threads && c.curthread in Levels() && Levels()[c.curthread] == c.curthread.curspl
      ensures c in Running() && Running()[c] == c.curthread
      ensures l in Holders() <==> l.holder != null
      ensures c in Awaits() <==> c.awaited != null
    {
    }

    method SplxStep(c: Cpu, spl: Ipl)
      requires Valid() && c in cpus
      modifies c`irqOff, c.curthread`iplhighCount, c.curthread`curspl
      ensures Valid() && Now() == old(Now()).(levels := old(Levels())[c.curthread := spl])
    {
      hide Valid, Cpu.Balanced, Running, Awaits, Holders, Levels, Saved;
      InThreads(c);
      var ret := Splx(c, spl);
      LevelOf(c.curthread);
    }

    method AcquireStep(c: Cpu, lock: Spinlock) returns (ok: bool)
      requires Valid() && c in cpus && lock in locks && c.awaited == null
      modifies c`irqOff, c`spinlocks, c`held, c`awaited, c.curthread`iplhighCount, lock
      ensures ok <==> old(lock.holder) != c
      ensures ok ==> Valid() && Now() == Asked(old(Now()), c, lock)
      ensures !ok ==> lock.holder == c
    {
      hide Valid, Cpu.Balanced, Running, Awaits, Holders, Levels, Saved;
      NowIs(c, lock);
      var r := Acquire(c, lock);
      AwaitedBy(c);
      HolderOf(lock);
      ok := !r.Deadlocked?;
    }

    method SpinStep(c: Cpu, lock: Spinlock)
      requires Valid() && c in cpus && lock in locks && c.awaited == lock
      modifies c`held, c`awaited, lock
      ensures Valid() && Now() == Retried(old(Now()), c, lock)
    {
      hide Valid, Cpu.Balanced, Running, Awaits, Holders, Levels, Saved;
      NowIs(c, lock);
      var got := TestAndSet(c, lock);
      AwaitedBy(c);
      HolderOf(lock);
    }

    method ReleaseStep(c: Cpu, lock: Spinlock)
      requires Valid() && c in cpus && c.awaited == null && lock.holder == c && lock in locks
      modifies c`irqOff, c`spinlocks, c`held, c.curthread`iplhighCount, lock
      ensures Valid() && Now() == old(Now()).(holders := old(Holders()) - {lock})
    {
      hide Valid, Cpu.Balanced, Running, Awaits, Holders, Levels, Saved;
      Release(c, lock);
      HolderOf(lock);
    }

    method ForkStep()
      requires Valid()
      modifies this`threads
      ensures Valid() && |threads| == |old(threads)| + 1 && fresh(threads[|old(threads)|])
      ensures threads[..|old(threads)|] == old(threads)
      ensures IsMade(old(Now()), threads[|old(threads)|], Now())
    {
      hide Valid, Running, Awaits, Holders, Levels, Saved;
      var t := Fork();
      MadeIs(t);
    }

    method OutStep(c: Cpu, runq: Spinlock) returns (ok: bool)
      requires Valid() && c in cpus && c.awaited == null && runq in locks
      modifies c`irqOff, c`spinlocks, c`held, c`awaited, c.curthread, runq
      ensures ok <==> old(runq.holder) != c
      ensures ok ==> Valid() && c in old(Running()) && old(Running())[c] in old(Levels())
      ensures ok ==> Now() == Asked(Raised(old(Now()), c), c, runq)
      ensures !ok ==> runq.holder == c
    {
      hide Valid, Cpu.Balanced, Running, Awaits, Holders, Levels, Saved;
      NowIs(c, runq);
      var r := SwitchOut(c, runq);
      AwaitedBy(c);
      HolderOf(runq);
      LevelOf(c.curthread);
      SavedOf(c.curthread);
      ok := !r.Deadlocked?;
    }

    method InStep(c: Cpu, runq: Spinlock, next: Thread)
      requires Valid() && c in cpus && runq in locks && c.held == {runq} && c.awaited == null
      requires c.curthread.curspl == IPL_HIGH && next in threads && (next == c.curthread || !Runs(next))
      modifies c`irqOff, c`spinlocks, c`held, c`curthread, next, runq
      ensures Valid() && Now() == Switched(old(Now()), c, runq, next)
    {
      hide Valid, Cpu.Balanced, Runs, Running, Awaits, Holders, Levels, Saved;
      NextIs(next);
      SwitchIn(c, runq, next);
      RunningOn(c);
      HolderOf(runq);
      LevelOf(next);
    }

    /** What can be taken is seen from the view: in particular, that a processor holds just one lock. */
    lemma ReadyIs(s: Step)
      requires Valid()
      ensures Ready(s) <==> Possible(cpus, locks, Now(), s)
      ensures Ready(s) ==> (Panics(s) <==> Relocks(cpus, locks, Now(), s))
    {
      if s.EndSwitch? {
        ReadyEnd(s.cpu, s.runq, s.next);
      } else {
        hide HoldsJust;
      }
    }

    lemma ReadyEnd(i: nat, l: nat, t: nat)
      requires Valid()
      ensures Ready(EndSwitch(i, l, t)) <==> Possible(cpus, locks, Now(), EndSwitch(i, l, t))
    {
      if i < |cpus| && l < |locks| && t < |threads| {
        JustOne(cpus[i], locks[l]);
        RunsJust(i, threads[t]);
        NowIs(cpus[i], locks[l]);
        NextIs(threads[t]);
        hide HoldsJust, Valid, Running, Awaits, Holders, Levels, Saved;
      }
    }

    lemma Skip(s: Step)
      requires Valid() && !Possible(cpus, locks, Now(), s)
      ensures Follows(cpus, locks, Now(), s, Skipped, Now())
    {
    }

    lemma OfCpu(c: Cpu)
      requires Valid() && c in cpus
      ensures c in Running() && Running()[c] == c.curthread && c.curthread in Levels()
      ensures c.awaited != null ==> c in Awaits() && Awaits()[c] == c.awaited && c.awaited in locks
    {
    }

    lemma JustOne(c: Cpu, l: Spinlock)
      requires Valid() && c in cpus && l in locks
      ensures c.awaited == null ==> (HoldsJust(Now(), c, l) <==> l.holder == c && c.spinlocks == 1)
    {
      if c.awaited == null && l.holder == c {
        c.HeldIsIn(l);
        if c.spinlocks == 1 { c.OnlyHeld(l); }
        if HoldsJust(Now(), c, l) {
          forall k | k in c.held ensures k == l { assert k in Locks() && Holders()[k] == c; }
          assert c.held == {l};
        }
      }
    }

    lemma RunsJust(i: nat, t: Thread)
      requires Valid() && i < |cpus|
      ensures (forall j :: 0 <= j < |cpus| && cpus[j].curthread == t ==> j == i)
         <==> (forall d :: d in Running() && Running()[d] == t ==> d == cpus[i])
    {
      if forall d :: d in Running() && Running()[d] == t ==> d == cpus[i] {
        forall j | 0 <= j < |cpus| && cpus[j].curthread == t ensures j == i {
          assert cpus[j] in Running() && Running()[cpus[j]] == t;
        }
      }
    }

    /** One step; false if it is a panic. */
    method Take(s: Step) returns (ok: bool)
      requires Valid() && Ready(s)
      modifies this`threads, cpus, threads, locks
      ensures old(threads) <= threads
      ensures forall j :: 0 <= j < |threads| ==> threads[j] in old(threads) || fresh(threads[j])
      ensures (ok <==> !old(Panics(s))) && (!ok ==> Panics(s))
      ensures ok ==> Valid()
      ensures Follows(cpus, locks, old(Now()), s, if ok then Taken else Panicked, Now())
    {
      hide Cpu.Balanced, Possible, Relocks, Asked, Retried, Raised, Switched, IsMade;
      hide Running, Awaits, Holders, Levels, Saved;
      ReadyIs(s);
      if !s.NewThread? { OfCpu(cpus[s.cpu]); }
      ok := true;
      match s
      case SetLevel(i, spl) => SplxStep(cpus[i], spl);
      case Lock(i, l) => ok := AcquireStep(cpus[i], locks[l]);
      case Spin(i) =>
        var lock: Spinlock := cpus[i].awaited;
        assert cpus[i] in cpus;
        SpinStep(cpus[i], lock);
      case Unlock(i, l) => ReleaseStep(cpus[i], locks[l]);
      case BeginSwitch(i, l) => ok := OutStep(cpus[i], locks[l]);
      case EndSwitch(i, l, t) =>
        cpus[i].OnlyHeld(locks[l]);
        InStep(cpus[i], locks[l], threads[t]);
      case NewThread => ForkStep();
    }

    /**
     Whatever the processors do, in whatever order, contended locks and idle processors included: every
     step does what it should, the accounts stay balanced, and every thread off the processors owes
     exactly one release. Only asking for a spinlock that one's own processor holds ends the run.
     */
    method RunSteps(steps: seq<Step>) returns (results: seq<Result>, ghost run: seq<View>)
      requires Valid()
      modifies this`threads, cpus, threads, locks
      ensures Traced(cpus, locks, steps, results, run)
      ensures run[0] == old(Now()) && run[|results|] == Now()
      ensures if results != [] && results[|results| - 1] == Panicked then Panics(steps[|results| - 1])
              else Valid() && |results| == |steps|
    {
      hide Valid, Now, Follows, Ready, Panics;
      results, run := [], [Now()];
      var ok := true;
      while ok && |results| < |steps|
        invariant Traced(cpus, locks, steps, results, run)
        invariant run[0] == old(Now()) && run[|results|] == Now()
        invariant if ok then Valid() && (results == [] || results[|results| - 1] != Panicked)
                  else results != [] && results[|results| - 1] == Panicked && Panics(steps[|results| - 1])
        invariant forall j :: 0 <= j < |threads| ==> threads[j] in old(threads) || fresh(threads[j])
        decreases |steps| - |results|
      {
        var s := steps[|results|];
        ReadyIs(s);
        var r := Skipped;
        if Ready(s) {
          ok := Take(s);
          r := if ok then Taken else Panicked;
        } else {
          Skip(s);
        }
        TraceGrows(cpus, locks, steps, results, run, r, Now());
        results, run := results + [r], run + [Now()];
      }
    }

    /** A thread is made, and the processor switches to it at once: it runs with interrupts on. */
    method SwitchToNew(c: Cpu, runq: Spinlock)
      requires Valid() && c in cpus && c.awaited == null && c.held == {} && runq in locks && runq.holder == null
      modifies this`threads, c, c.curthread, runq
      ensures Valid() && fresh(c.curthread) && !c.irqOff && runq.holder == null
    {
      var t := Fork();
      var r := SwitchOut(c, runq);
      SwitchIn(c, runq, t);
    }
  }
}
