/**
 Graphs with at most one outgoing edge per node, and when adding or replacing edges keeps them
 free of cycles.
 */
module WaitsFor {
  import opened SetSizes

  datatype Option<+T> = None | Some(value: T)

  /** Where `n` steps along the edges lead from `a`. */
  function Walk<A>(g: map<A, A>, a: A, n: nat): Option<A> {
    if n == 0 then Some(a) else if a in g then Walk(g, g[a], n - 1) else None
  }

  ghost predicate Reaches<A>(g: map<A, A>, a: A, b: A) {
    exists n: nat :: Walk(g, a, n) == Some(b)
  }

  ghost predicate Acyclic<A>(g: map<A, A>) {
    forall a, n: nat :: a in g && n > 0 ==> Walk(g, a, n) != Some(a)
  }

  lemma {:induction false} WalkSplit<A>(g: map<A, A>, a: A, m: nat, n: nat)
    ensures Walk(g, a, m + n) == match Walk(g, a, m) case None => None case Some(b) => Walk(g, b, n)
  {
    if m > 0 && a in g {
      WalkSplit(g, g[a], m - 1, n);
    }
  }

  /** A walk to `b` that is as short as possible meets `b` only at its end. */
  lemma {:induction false} FirstVisit<A>(g: map<A, A>, a: A, b: A, n: nat) returns (k: nat)
    requires Walk(g, a, n) == Some(b)
    ensures k <= n && Walk(g, a, k) == Some(b)
    ensures forall j: nat :: j < k ==> Walk(g, a, j) != Some(b)
  {
    if a == b {
      k := 0;
    } else {
      k := FirstVisit(g, g[a], b, n - 1);
      k := k + 1;
      forall j: nat | j < k ensures Walk(g, a, j) != Some(b) {
        if j > 0 { assert Walk(g, a, j) == Walk(g, g[a], j - 1); }
      }
    }
  }

  /** Two graphs that agree on the nodes a walk leaves give the same walk. */
  lemma {:induction false} SameWalk<A>(g: map<A, A>, h: map<A, A>, a: A, n: nat)
    requires forall j: nat :: j < n ==>
      match Walk(g, a, j) case None => false case Some(x) => x in g && x in h && g[x] == h[x]
    ensures Walk(h, a, n) == Walk(g, a, n)
  {
    if n > 0 {
      assert Walk(g, a, 0) == Some(a);
      forall j: nat | j < n - 1
        ensures match Walk(g, g[a], j) case None => false case Some(x) => x in g && x in h && g[x] == h[x]
      {
        assert Walk(g, a, j + 1) == Walk(g, g[a], j);
      }
      SameWalk(g, h, g[a], n - 1);
    }
  }

  /** Every node a walk passes before its end has an outgoing edge. */
  lemma WalkLeaves<A>(g: map<A, A>, a: A, j: nat, n: nat)
    requires j < n && Walk(g, a, n).Some?
    ensures Walk(g, a, j).Some? && Walk(g, a, j).value in g
  {
    WalkSplit(g, a, j, n - j);
  }

  /** On a cycle, one can start anywhere. */
  lemma Rotate<A>(g: map<A, A>, x: A, n: nat, j: nat, y: A)
    requires j < n && Walk(g, x, n) == Some(x) && Walk(g, x, j) == Some(y)
    ensures Walk(g, y, n) == Some(y)
  {
    WalkSplit(g, x, j, n - j);
    WalkSplit(g, x, n, j);
    WalkSplit(g, y, n - j, j);
    assert n - j + j == n && j + (n - j) == n;
  }

  /** The test that keeps the graph acyclic is exact: a new edge from a node without one closes
      a cycle if and only if its target already reaches its source. */
  lemma EdgeClosesCycle<A>(g: map<A, A>, a: A, b: A)
    requires Acyclic(g) && a !in g
    ensures Acyclic(g[a := b]) <==> !Reaches(g, b, a)
  {
    var h := g[a := b];
    if Reaches(g, b, a) {
      var n: nat :| Walk(g, b, n) == Some(a);
      var k := FirstVisit(g, b, a, n);
      forall j: nat | j < k
        ensures match Walk(g, b, j) case None => false case Some(x) => x in g && x in h && g[x] == h[x]
      {
        WalkLeaves(g, b, j, k);
      }
      SameWalk(g, h, b, k);
      assert Walk(h, a, k + 1) == Some(a);
    } else {
      forall x, n: nat | x in h && n > 0 ensures Walk(h, x, n) != Some(x) {
        if Walk(h, x, n) == Some(x) {
          CycleUsesEdge(g, a, b, x, n);
        }
      }
    }
  }

  lemma CycleUsesEdge<A>(g: map<A, A>, a: A, b: A, x: A, n: nat)
    requires Acyclic(g) && a !in g && n > 0 && Walk(g[a := b], x, n) == Some(x)
    ensures Reaches(g, b, a)
  {
    var h := g[a := b];
    if j: nat :| j < n && Walk(h, x, j) == Some(a) {
      Rotate(h, x, n, j, a);
      assert Walk(h, b, n - 1) == Some(a);
      var k := FirstVisit(h, b, a, n - 1);
      OldWalk(g, h, a, b, b, k);
    } else {
      OldWalk(g, h, a, b, x, n);
    }
  }

  /** A walk that does not leave through the new edge was there before. */
  lemma OldWalk<A>(g: map<A, A>, h: map<A, A>, a: A, b: A, x: A, n: nat)
    requires h == g[a := b] && Walk(h, x, n).Some?
    requires forall j: nat :: j < n ==> Walk(h, x, j) != Some(a)
    ensures Walk(g, x, n) == Walk(h, x, n)
  {
    forall j: nat | j < n
      ensures match Walk(h, x, j) case None => false case Some(y) => y in h && y in g && h[y] == g[y]
    {
      WalkLeaves(h, x, j, n);
    }
    SameWalk(h, g, x, n);
  }

  /** Dropping edges, and redirecting any number of nodes to one that has no edge itself, closes
      no cycle. */
  lemma RedirectToSink<A>(g: map<A, A>, h: map<A, A>, a: A)
    requires Acyclic(g) && a !in h
    requires forall x :: x in h ==> h[x] == a || (x in g && g[x] == h[x])
    ensures Acyclic(h)
  {
    forall x, n: nat | x in h && n > 0 ensures Walk(h, x, n) != Some(x) {
      if Walk(h, x, n) == Some(x) {
        forall j: nat | j < n
          ensures match Walk(h, x, j) case None => false case Some(y) => y in h && y in g && h[y] == g[y]
        {
          NotToSink(h, x, n, j, a);
        }
        SameWalk(h, g, x, n);
      }
    }
  }

  lemma NotToSink<A>(h: map<A, A>, x: A, n: nat, j: nat, a: A)
    requires a !in h && j < n && Walk(h, x, n) == Some(x)
    ensures Walk(h, x, j).Some? && Walk(h, x, j).value in h && h[Walk(h, x, j).value] != a
  {
    WalkLeaves(h, x, j, n);
    var y := Walk(h, x, j).value;
    Rotate(h, x, n, j, y);
    assert Walk(h, h[y], n - 1) == Some(y);
  }

  lemma NeverAfter<A>(g: map<A, A>, a: A, n: nat, b: A)
    requires Walk(g, a, n) == None && forall j: nat :: j < n ==> Walk(g, a, j) != Some(b)
    ensures !Reaches(g, a, b)
  {
    forall j: nat ensures Walk(g, a, j) != Some(b) {
      if j >= n { WalkSplit(g, a, n, j - n); }
    }
  }

  // ---------------------------------------------------------------------------------------
  // Walks in a finite acyclic graph end.
  // ---------------------------------------------------------------------------------------

  ghost function Visited<A>(g: map<A, A>, a: A, n: nat): set<A>
    requires Walk(g, a, n).Some?
  {
    if n == 0 then {} else {a} + Visited(g, g[a], n - 1)
  }

  lemma {:induction false} VisitedIs<A>(g: map<A, A>, a: A, n: nat, x: A)
    requires Walk(g, a, n).Some? && x in Visited(g, a, n)
    ensures x in g && exists j: nat :: j < n && Walk(g, a, j) == Some(x)
  {
    if x == a {
      assert Walk(g, a, 0) == Some(x);
    } else {
      VisitedIs(g, g[a], n - 1, x);
      var j: nat :| j < n - 1 && Walk(g, g[a], j) == Some(x);
      assert Walk(g, a, j + 1) == Some(x);
    }
  }

  lemma {:induction false} VisitedDistinct<A>(g: map<A, A>, a: A, n: nat)
    requires Acyclic(g) && Walk(g, a, n).Some?
    ensures |Visited(g, a, n)| == n
  {
    if n > 0 {
      VisitedDistinct(g, g[a], n - 1);
      var seen := Visited(g, g[a], n - 1);
      forall x | x in seen ensures x != a {
        VisitedIs(g, g[a], n - 1, x);
        var j: nat :| j < n - 1 && Walk(g, g[a], j) == Some(x);
        assert Walk(g, a, j + 1) == Some(x);
      }
    }
  }

  /** No walk is longer than the number of edges. */
  lemma WalkBounded<A>(g: map<A, A>, a: A, n: nat)
    requires Acyclic(g) && Walk(g, a, n).Some?
    ensures n <= |g|
  {
    VisitedDistinct(g, a, n);
    forall x | x in Visited(g, a, n) ensures x in g.Keys {
      VisitedIs(g, a, n, x);
    }
    SubsetSize(Visited(g, a, n), g.Keys);
    assert |g.Keys| == |g|;
  }

  /** Every chain of waiting ends in someone who is not held up. */
  lemma {:induction false} ChainEnds<A>(g: map<A, A>, a: A, n: nat) returns (k: nat)
    requires Acyclic(g) && Walk(g, a, n).Some?
    ensures Walk(g, a, k).Some? && Walk(g, a, k).value !in g
    decreases |g| - n
  {
    WalkBounded(g, a, n);
    var b := Walk(g, a, n).value;
    if b !in g {
      k := n;
    } else {
      WalkSplit(g, a, n, 1);
      assert Walk(g, b, 1) == Some(g[b]);
      WalkBounded(g, a, n + 1);
      k := ChainEnds(g, a, n + 1);
    }
  }
}

/**
 The deadlock detector: actors that wait for at most one lockable, lockables held by at most
 one actor, and the check made before each wait. A panic is an outcome that changes nothing.
 */
module Hangman {
  import opened WaitsFor

  class Actor {
    var waiting: Lockable?

    constructor ()
      ensures waiting == null
    {
      waiting := null;
    }
  }

  class Lockable {
    var holding: Actor?

    constructor ()
      ensures holding == null
    {
      holding := null;
    }
  }

  datatype Outcome = Done | AlreadyWaiting | Deadlock | NotWaiting | StillHeld | NotHolder

  class Detector {
    /** The lockable inside the detector's own spinlock, which is never tracked. */
    const own: Lockable
    ghost const actors: set<Actor>
    ghost const lockables: set<Lockable>

    ghost constructor (own: Lockable, actors: set<Actor>, lockables: set<Lockable>)
      requires forall a :: a in actors ==> a.waiting == null
      requires forall l :: l in lockables ==> l.holding == null
      ensures this.own == own && this.actors == actors && this.lockables == lockables && Valid()
    {
      this.own, this.actors, this.lockables := own, actors, lockables;
      new;
      assert Graph() == map[];
    }

    ghost predicate Closed()
      reads actors, lockables
    {
      && (forall a :: a in actors && a.waiting != null ==> a.waiting in lockables)
      && (forall l :: l in lockables && l.holding != null ==> l.holding in actors)
    }

    /** Who waits for whom. */
    ghost function Graph(): map<Actor, Actor>
      requires Closed()
      reads actors, lockables
    {
      map a | a in actors && a.waiting != null && a.waiting.holding != null :: a.waiting.holding
    }

    ghost predicate Valid()
      reads actors, lockables
    {
      Closed() && Acyclic(Graph())
    }

    /** The graph as it would be if `a` waited for `l`. */
    ghost function WithWait(a: Actor, l: Lockable): map<Actor, Actor>
      requires Closed() && l in lockables
      reads actors, lockables
    {
      if l.holding == null then Graph() else Graph()[a := l.holding]
    }

    /** Who waits for what, and who holds it, now. */
    ghost function Now(): View
      reads actors, lockables
    {
      View(map a | a in actors && a.waiting != null :: a.waiting,
           map l | l in lockables && l.holding != null :: l.holding)
    }

    lemma GraphNow()
      requires Closed()
      ensures GraphOf(Now()) == Graph()
    {
    }

    lemma WaitNow(a: Actor, l: Lockable)
      requires Closed() && a in actors && l in lockables
      ensures a.waiting == null ==> GraphOf(Now().(waits := Now().waits[a := l])) == WithWait(a, l)
    {
    }

    /** Looks for a path from `start` to `target`. The loop ends because the graph is acyclic. */
    method Check(start: Lockable, target: Actor) returns (found: bool)
      requires Valid() && start in lockables && target in actors
      ensures found <==> start.holding != null && Reaches(Graph(), start.holding as Actor, target)
    {
      var cur := start.holding;
      if cur == null { return false; }
      ghost var g, n: nat, first: Actor := Graph(), 0, cur;
      while cur != null
        invariant Walk(g, first, n) == if cur == null then None else Some(cur as Actor)
        invariant cur != null ==> cur in actors && n <= |g|
        invariant forall j: nat :: j < n ==> Walk(g, first, j) != Some(target)
        decreases cur != null, |g| - n
      {
        if cur == target {
          return true;
        }
        WalkSplit(g, first, n, 1);
        if cur.waiting == null {
          NeverAfter(g, first, n + 1, target);
          return false;
        }
        cur := cur.waiting.holding;
        n := n + 1;
        if cur != null { WalkBounded(g, first, n); }
      }
      NeverAfter(g, first, n, target);
      found := false;
    }

    /** What is printed when a cycle is found: the actors on the way from `start` to `target`. */
    method ReportCycle(start: Lockable, target: Actor) returns (path: seq<Actor>)
      requires Valid() && start in lockables && target in actors
      requires start.holding != null && Reaches(Graph(), start.holding as Actor, target)
      ensures |path| >= 1 && path[0] == start.holding && path[|path| - 1] == target
      ensures forall i :: 0 <= i < |path| - 1 ==>
        path[i] != target && path[i].waiting != null && path[i].waiting.holding == path[i + 1]
    {
      ghost var g, first: Actor := Graph(), start.holding;
      ghost var far: nat :| Walk(g, first, far) == Some(target);
      ghost var last := FirstVisit(g, first, target, far);
      ghost var n := 0;
      var cur: Actor := start.holding;
      path := [cur];
      while cur != target
        invariant n <= last && Walk(g, first, n) == Some(cur) && |path| == n + 1
        invariant path[0] == first && path[n] == cur
        invariant forall i :: 0 <= i < n ==>
          path[i] != target && path[i].waiting != null && path[i].waiting.holding == path[i + 1]
        decreases last - n
      {
        WalkSplit(g, first, n, last - n);
        WalkSplit(g, first, n, 1);
        cur := cur.waiting.holding;
        path := path + [cur];
        n := n + 1;
      }
    }

    /** `a` is about to wait for `l`. The report of a deadlock is exact, and whatever the outcome
        the graph stays acyclic. */
    method Wait(a: Actor, l: Lockable) returns (r: Outcome)
      requires Valid() && a in actors && l in lockables
      modifies a
      ensures Valid()
      ensures r == AlreadyWaiting <==> l != own && old(a.waiting) != null
      ensures r == Deadlock <==> l != own && old(a.waiting) == null && !Acyclic(old(WithWait(a, l)))
      ensures r in {Done, AlreadyWaiting, Deadlock}
      ensures a.waiting == if r == Done && l != own then l else old(a.waiting)
      ensures r == Done && l != own ==> Graph() == old(WithWait(a, l))
    {
      if l == own {
        return Done;
      }
      if a.waiting != null {
        return AlreadyWaiting;
      }
      var found := Check(l, a);
      if l.holding != null {
        EdgeClosesCycle(Graph(), a, l.holding as Actor);
      }
      if found {
        return Deadlock;
      }
      a.waiting := l;
      assert Graph() == old(WithWait(a, l));
      r := Done;
    }

    /** `a` has got `l`. */
    method Acquire(a: Actor, l: Lockable) returns (r: Outcome)
      requires Valid() && a in actors && l in lockables
      modifies a, l
      ensures Valid()
      ensures r == NotWaiting <==> l != own && old(a.waiting) != l
      ensures r == StillHeld <==> l != own && old(a.waiting) == l && old(l.holding) != null
      ensures r in {Done, NotWaiting, StillHeld}
      ensures (r == Done && l != own) ==> l.holding == a && a.waiting == null
      ensures !(r == Done && l != own) ==> l.holding == old(l.holding) && a.waiting == old(a.waiting)
    {
      if l == own {
        return Done;
      }
      if a.waiting != l {
        return NotWaiting;
      }
      if l.holding != null {
        return StillHeld;
      }
      ghost var g := Graph();
      l.holding := a;
      a.waiting := null;
      RedirectToSink(g, Graph(), a);
      r := Done;
    }

    /** `a` gives `l` up. */
    method Release(a: Actor, l: Lockable) returns (r: Outcome)
      requires Valid() && a in actors && l in lockables
      modifies l
      ensures Valid()
      ensures r == AlreadyWaiting <==> l != own && a.waiting != null
      ensures r == NotHolder <==> l != own && a.waiting == null && old(l.holding) != a
      ensures r in {Done, AlreadyWaiting, NotHolder}
      ensures l.holding == if r == Done && l != own then null else old(l.holding)
    {
      if l == own {
        return Done;
      }
      if a.waiting != null {
        return AlreadyWaiting;
      }
      if l.holding != a {
        return NotHolder;
      }
      ghost var g := Graph();
      l.holding := null;
      RedirectToSink(g, Graph(), a);
      r := Done;
    }

    /** No deadlock: from every actor the chain of holders ends in one that waits for nothing, or
        for something nobody holds. */
    lemma SomeoneCanRun(a: Actor) returns (b: Actor, n: nat)
      requires Valid() && a in actors
      ensures Walk(Graph(), a, n) == Some(b) && b in actors
      ensures b.waiting == null || b.waiting.holding == null
    {
      n := ChainEnds(Graph(), a, 0);
      b := Walk(Graph(), a, n).value;
      WalkStays(a, n);
    }

    lemma {:induction false} WalkStays(a: Actor, n: nat)
      requires Closed() && a in actors && Walk(Graph(), a, n).Some?
      ensures Walk(Graph(), a, n).value in actors
    {
      if n > 0 { WalkStays(Graph()[a], n - 1); }
    }
  }

  // ---------------------------------------------------------------------------------------
  // Any sequence of calls, panicking or not.
  // ---------------------------------------------------------------------------------------

  datatype Call = DoWait(a: Actor, l: Lockable) | DoAcquire(a: Actor, l: Lockable) | DoRelease(a: Actor, l: Lockable)

  /** Who waits for what, and who holds it. */
  datatype View = View(waits: map<Actor, Lockable>, holds: map<Lockable, Actor>)

  ghost function GraphOf(v: View): map<Actor, Actor> {
    map a | a in v.waits && v.waits[a] in v.holds :: v.holds[v.waits[a]]
  }

  /** What a call is to answer. */
  ghost function Answer(v: View, own: Lockable, call: Call): Outcome {
    if call.l == own then Done
    else
      match call
      case DoWait(a, l) =>
        if a in v.waits then AlreadyWaiting
        else if !Acyclic(GraphOf(v.(waits := v.waits[a := l]))) then Deadlock
        else Done
      case DoAcquire(a, l) =>
        if a !in v.waits || v.waits[a] != l then NotWaiting
        else if l in v.holds then StillHeld
        else Done
      case DoRelease(a, l) =>
        if a in v.waits then AlreadyWaiting
        else if l !in v.holds || v.holds[l] != a then NotHolder
        else Done
  }

  ghost function Next(v: View, own: Lockable, call: Call): View {
    if call.l == own || Answer(v, own, call) != Done then v
    else
      match call
      case DoWait(a, l) => v.(waits := v.waits[a := l])
      case DoAcquire(a, l) => View(v.waits - {a}, v.holds[l := a])
      case DoRelease(a, l) => v.(holds := v.holds - {l})
  }

  /** What the first `n` calls make of it. */
  ghost function Played(v: View, own: Lockable, calls: seq<Call>, n: nat): View
    requires n <= |calls|
  {
    if n == 0 then v else Next(Played(v, own, calls, n - 1), own, calls[n - 1])
  }

  method WaitCall(d: Detector, a: Actor, l: Lockable) returns (r: Outcome)
    requires d.Valid() && a in d.actors && l in d.lockables
    modifies a
    ensures d.Valid() && d.Now() == Next(old(d.Now()), d.own, DoWait(a, l))
    ensures r == Answer(old(d.Now()), d.own, DoWait(a, l))
  {
    hide Acyclic, GraphOf, Detector.Graph, Detector.WithWait;
    d.WaitNow(a, l);
    r := d.Wait(a, l);
  }

  method AcquireCall(d: Detector, a: Actor, l: Lockable) returns (r: Outcome)
    requires d.Valid() && a in d.actors && l in d.lockables
    modifies a, l
    ensures d.Valid() && d.Now() == Next(old(d.Now()), d.own, DoAcquire(a, l))
    ensures r == Answer(old(d.Now()), d.own, DoAcquire(a, l))
  {
    hide Acyclic, GraphOf, Detector.Graph, Detector.WithWait;
    r := d.Acquire(a, l);
  }

  method ReleaseCall(d: Detector, a: Actor, l: Lockable) returns (r: Outcome)
    requires d.Valid() && a in d.actors && l in d.lockables
    modifies l
    ensures d.Valid() && d.Now() == Next(old(d.Now()), d.own, DoRelease(a, l))
    ensures r == Answer(old(d.Now()), d.own, DoRelease(a, l))
  {
    hide Acyclic, GraphOf, Detector.Graph, Detector.WithWait;
    r := d.Release(a, l);
  }

  method OneCall(d: Detector, call: Call) returns (r: Outcome)
    requires d.Valid() && call.a in d.actors && call.l in d.lockables
    modifies call.a, call.l
    ensures d.Valid() && d.Now() == Next(old(d.Now()), d.own, call) && r == Answer(old(d.Now()), d.own, call)
  {
    hide Answer, Next, Detector.Now, Detector.Valid;
    match call {
      case DoWait(a, l) => r := WaitCall(d, a, l);
      case DoAcquire(a, l) => r := AcquireCall(d, a, l);
      case DoRelease(a, l) => r := ReleaseCall(d, a, l);
    }
  }

  /** Every call answers as it should, changes what it should, and the graph stays acyclic. */
  method RunCalls(d: Detector, calls: seq<Call>) returns (answers: seq<Outcome>)
    requires d.Valid() && forall c :: c in calls ==> c.a in d.actors && c.l in d.lockables
    modifies d.actors, d.lockables
    ensures d.Valid() && d.Now() == Played(old(d.Now()), d.own, calls, |calls|) && |answers| == |calls|
    ensures forall k :: 0 <= k < |calls| ==>
      answers[k] == Answer(Played(old(d.Now()), d.own, calls, k), d.own, calls[k])
  {
    hide Answer, Next, Detector.Now, Detector.Valid;
    answers := [];
    for i := 0 to |calls|
      invariant d.Valid() && d.Now() == Played(old(d.Now()), d.own, calls, i) && |answers| == i
      invariant forall k :: 0 <= k < i ==>
        answers[k] == Answer(Played(old(d.Now()), d.own, calls, k), d.own, calls[k])
    {
      var r := OneCall(d, calls[i]);
      answers := answers + [r];
    }
  }
}
