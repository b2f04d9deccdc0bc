/**
 Sharing out ready threads among the processors' run queues. The processor that runs this locks
 one run queue at a time; in between, the other processors go on. What they do is an input: one
 move for every time they get to run, each move a list of threads that become ready or are taken.
 */
module Migration {

  /** The threads on all queues. */
  ghost function Ready(queues: seq<seq<nat>>): multiset<nat> {
    if queues == [] then multiset{} else Ready(queues[..|queues| - 1]) + multiset(queues[|queues| - 1])
  }

  lemma {:induction false} ReadyAdd(queues: seq<seq<nat>>, c: nat, t: nat)
    requires c < |queues|
    ensures Ready(queues[c := queues[c] + [t]]) == Ready(queues) + multiset{t}
  {
    var n := |queues| - 1;
    var q := queues[c := queues[c] + [t]];
    if c == n {
      assert q[..n] == queues[..n];
    } else {
      assert q[..n] == queues[..n][c := queues[c] + [t]] && q[n] == queues[n];
      ReadyAdd(queues[..n], c, t);
      assert Ready(q) == Ready(queues[..n]) + multiset{t} + multiset(queues[n]);
    }
  }

  function Total(queues: seq<seq<nat>>): nat {
    if queues == [] then 0 else Total(queues[..|queues| - 1]) + |queues[|queues| - 1]|
  }

  lemma {:induction false} TotalPrefix(queues: seq<seq<nat>>, i: nat)
    requires i < |queues|
    ensures Total(queues[..i + 1]) == Total(queues[..i]) + |queues[i]|
  {
    assert queues[..i + 1][..i] == queues[..i];
  }

  /** What the queues before `i`, other than that of `me`, lack to a share. */
  function Lack(queues: seq<seq<nat>>, me: nat, share: nat): nat {
    if queues == [] then 0
    else
      var n := |queues| - 1;
      Lack(queues[..n], me, share) + if n == me || |queues[n]| >= share then 0 else share - |queues[n]|
  }

  /** Together the other queues lack at least what this one has above its share. */
  lemma {:induction false} LackIsEnough(queues: seq<seq<nat>>, me: nat, share: nat)
    ensures Lack(queues, me, share)
         >= |queues| * share - Total(queues) - if me < |queues| then share - |queues[me]| else 0
  {
    if queues != [] {
      var n := |queues| - 1;
      LackIsEnough(queues[..n], me, share);
      assert |queues| * share == n * share + share;
    }
  }

  lemma {:induction false} LackUpdate(queues: seq<seq<nat>>, me: nat, share: nat, c: nat, q: seq<nat>)
    requires c < |queues|
    ensures Lack(queues[c := q], me, share) == Lack(queues, me, share)
      + (if c == me || |q| >= share then 0 else share - |q|)
      - (if c == me || |queues[c]| >= share then 0 else share - |queues[c]|)
  {
    var n := |queues| - 1;
    if c == n {
      assert queues[c := q][..n] == queues[..n];
    } else {
      assert queues[c := q][..n] == queues[..n][c := q];
      LackUpdate(queues[..n], me, share, c, q);
    }
  }

  lemma {:induction false} LackNone(queues: seq<seq<nat>>, me: nat, share: nat)
    requires forall c :: 0 <= c < |queues| && c != me ==> |queues[c]| >= share
    ensures Lack(queues, me, share) == 0
  {
    if queues != [] {
      LackNone(queues[..|queues| - 1], me, share);
    }
  }

  /** Distinct threads that are all assigned to processor `c`. */
  predicate Row(row: seq<nat>, home: map<nat, nat>, c: nat) {
    && (forall i, j :: 0 <= i < j < |row| ==> row[i] != row[j])
    && (forall t :: t in row ==> t in home && home[t] == c)
  }

  /**
   No thread is in two places, and every thread is assigned to the processor whose queue it is on,
   the victims still to `me`.
   */
  predicate Orderly(queues: seq<seq<nat>>, victims: seq<nat>, home: map<nat, nat>, me: nat) {
    && me < |queues|
    && Row(queues[me] + victims, home, me)
    && forall c :: 0 <= c < |queues| && c != me ==> Row(queues[c], home, c)
  }

  // The four ways in which a thread moves between a queue and the victims.

  lemma TakenOff(queues: seq<seq<nat>>, victims: seq<nat>, home: map<nat, nat>, me: nat)
    requires Orderly(queues, victims, home, me) && queues[me] != []
    ensures var last := |queues[me]| - 1; var q, v := queues[me := queues[me][..last]], [queues[me][last]] + victims;
      Orderly(q, v, home, me) && Ready(q) + multiset(v) == Ready(queues) + multiset(victims)
  {
    var last := |queues[me]| - 1;
    var q := queues[me := queues[me][..last]];
    assert queues[me] == queues[me][..last] + [queues[me][last]];
    Updated(queues, me, queues[me][..last], queues[me]);
    ReadyAdd(q, me, queues[me][last]);
    assert queues[me][..last] + ([queues[me][last]] + victims) == queues[me] + victims;
  }

  lemma BagMoved(queues: seq<seq<nat>>, victims: seq<nat>, c: nat)
    requires victims != [] && c < |queues|
    ensures Ready(queues[c := queues[c] + [victims[0]]]) + multiset(victims[1..]) == Ready(queues) + multiset(victims)
  {
    ReadyAdd(queues, c, victims[0]);
    hide Ready;
    assert victims == [victims[0]] + victims[1..];
  }

  lemma Sent(queues: seq<seq<nat>>, victims: seq<nat>, home: map<nat, nat>, me: nat, c: nat)
    requires Orderly(queues, victims, home, me) && victims != [] && c < |queues| && c != me
    ensures var t := victims[0]; var q, v := queues[c := queues[c] + [t]], victims[1..];
      Orderly(q, v, home[t := c], me) && Ready(q) + multiset(v) == Ready(queues) + multiset(victims)
  {
    hide Ready;
    BagMoved(queues, victims, c);
    var t := victims[0];
    assert victims == [t] + victims[1..];
    assert queues[me] + victims == queues[me] + ([t] + victims[1..]);
    RowWithout(queues[me], t, victims[1..], home, me, c);
    forall d | 0 <= d < |queues| && d != me && d != c ensures Row(queues[d], home[t := c], d) {
      assert t !in queues[d];
    }
  }

  lemma RowWithout(a: seq<nat>, t: nat, b: seq<nat>, home: map<nat, nat>, me: nat, c: nat)
    requires Row(a + ([t] + b), home, me)
    ensures Row(a + b, home[t := c], me) && t in home && home[t] == me
  {
    var row := a + ([t] + b);
    assert row[|a|] == t;
    forall i | 0 <= i < |a + b| ensures (a + b)[i] == row[if i < |a| then i else i + 1] && (a + b)[i] != t {}
  }

  lemma Rotated(queues: seq<seq<nat>>, victims: seq<nat>, home: map<nat, nat>, me: nat)
    requires Orderly(queues, victims, home, me) && victims != []
    ensures var v := victims[1..] + [victims[0]]; Orderly(queues, v, home, me) && multiset(v) == multiset(victims)
  {
    var t, v := victims[0], victims[1..];
    assert victims == [t] + v;
    assert queues[me] + victims == queues[me] + ([t] + v);
    RowWithout(queues[me], t, v, home, me, me);
    assert home[t := me] == home;
    var row := queues[me] + victims;
    forall i | 0 <= i < |queues[me] + v| ensures (queues[me] + v)[i] != t {
      assert (queues[me] + v)[i] == row[if i < |queues[me]| then i else i + 1] && row[|queues[me]|] == t;
    }
    assert queues[me] + (v + [t]) == (queues[me] + v) + [t];
  }

  lemma Returned(queues: seq<seq<nat>>, victims: seq<nat>, home: map<nat, nat>, me: nat)
    requires Orderly(queues, victims, home, me) && victims != []
    ensures var q, v := queues[me := queues[me] + [victims[0]]], victims[1..];
      Orderly(q, v, home, me) && Ready(q) + multiset(v) == Ready(queues) + multiset(victims)
  {
    hide Ready, Row;
    BagMoved(queues, victims, me);
    assert victims == [victims[0]] + victims[1..];
    assert queues[me] + [victims[0]] + victims[1..] == queues[me] + victims;
  }

  lemma Updated<T>(s: seq<T>, i: nat, x: T, y: T)
    requires i < |s|
    ensures s[i := x][i := y] == s[i := y] && s[i := s[i]] == s
  {
  }

  /** The victims wait in order; once the current thread has been passed over it is the last. */
  predicate Pending(victims: seq<nat>, toSend: nat, passed: bool, curthread: nat) {
    if passed then |victims| == toSend + 1 && victims[toSend] == curthread else |victims| == toSend
  }

  // ---------------------------------------------------------------------------------------
  // What the other processors do.
  // ---------------------------------------------------------------------------------------

  /** Thread `t` becomes ready on the queue of `c`, or `c` takes it off its own queue. */
  datatype Change = Arrive(c: nat, t: nat) | Depart(c: nat, t: nat)

  datatype Lists = Lists(queues: seq<seq<nat>>, home: map<nat, nat>)

  function Without(s: seq<nat>, t: nat): seq<nat> {
    if s == [] then [] else if s[0] == t then s[1..] else [s[0]] + Without(s[1..], t)
  }

  lemma {:induction false} WithoutIs(s: seq<nat>, t: nat)
    requires forall i, j :: 0 <= i < j < |s| ==> s[i] != s[j]
    ensures forall i, j :: 0 <= i < j < |Without(s, t)| ==> Without(s, t)[i] != Without(s, t)[j]
    ensures forall x :: x in Without(s, t) <==> x in s && x != t
    ensures |Without(s, t)| <= |s|
  {
    if s != [] {
      WithoutIs(s[1..], t);
      assert s == [s[0]] + s[1..];
      assert s[0] !in s[1..];
    }
  }

  lemma {:induction false} WithoutNone(s: seq<nat>, t: nat)
    requires t !in s
    ensures Without(s, t) == s && Without(s + [t], t) == s
  {
    if s != [] {
      WithoutNone(s[1..], t);
      assert (s + [t])[1..] == s[1..] + [t];
    }
  }

  /** Passing over `t` at the front, or taking another thread from there. */
  lemma WithoutFirst(s: seq<nat>, t: nat)
    requires s != []
    ensures s[0] == t && (forall i, j :: 0 <= i < j < |s| ==> s[i] != s[j]) ==>
      Without(s[1..] + [s[0]], t) == Without(s, t)
    ensures s[0] != t ==> Without(s, t) == [s[0]] + Without(s[1..], t)
  {
    if s[0] == t && forall i, j :: 0 <= i < j < |s| ==> s[i] != s[j] {
      assert t !in s[1..];
      WithoutNone(s[1..], t);
    }
  }

  /** Whether a change can happen: a thread that is not ready, or one on the processor's own queue. */
  predicate Possible(ch: Change, q: seq<seq<nat>>, victims: seq<nat>, me: nat, curthread: nat) {
    ch.c < |q| &&
    match ch
    case Arrive(c, t) => (forall d :: 0 <= d < |q| ==> t !in q[d]) && t !in victims && (t == curthread ==> c == me)
    case Depart(c, t) => c != me && t in q[c]
  }

  function Changed(ch: Change, l: Lists, victims: seq<nat>, me: nat, curthread: nat): Lists {
    if !Possible(ch, l.queues, victims, me, curthread) then l
    else
      match ch
      case Arrive(c, t) => Lists(l.queues[c := l.queues[c] + [t]], l.home[t := c])
      case Depart(c, t) => Lists(l.queues[c := Without(l.queues[c], t)], l.home)
  }

  function AfterMove(move: seq<Change>, l: Lists, victims: seq<nat>, me: nat, curthread: nat): Lists {
    if move == [] then l
    else Changed(move[|move| - 1], AfterMove(move[..|move| - 1], l, victims, me, curthread), victims, me, curthread)
  }

  /** Whether a thread is on a queue or among the victims. */
  ghost predicate InPlay(q: seq<seq<nat>>, victims: seq<nat>, t: nat) {
    t in victims || exists c :: 0 <= c < |q| && t in q[c]
  }

  lemma {:induction false} ReadyHas(q: seq<seq<nat>>, t: nat)
    ensures t in Ready(q) <==> exists c :: 0 <= c < |q| && t in q[c]
  {
    if q != [] {
      ReadyHas(q[..|q| - 1], t);
      if c :| 0 <= c < |q| && t in q[c] {
        assert c < |q| - 1 ==> t in q[..|q| - 1][c];
      }
    }
  }

  lemma {:induction false} DistinctOnce(s: seq<nat>, t: nat)
    requires forall i, j :: 0 <= i < j < |s| ==> s[i] != s[j]
    ensures multiset(s)[t] == if t in s then 1 else 0
  {
    if s != [] {
      var n := |s| - 1;
      DistinctOnce(s[..n], t);
      assert s == s[..n] + [s[n]];
      assert s[n] !in s[..n];
    }
  }

  lemma {:induction false} ReadyOnce(q: seq<seq<nat>>, home: map<nat, nat>, t: nat)
    requires forall c :: 0 <= c < |q| ==> Row(q[c], home, c)
    ensures Ready(q)[t] == if t in home && home[t] < |q| && t in q[home[t]] then 1 else 0
  {
    if q != [] {
      var n := |q| - 1;
      assert Row(q[n], home, n);
      ReadyOnce(q[..n], home, t);
      DistinctOnce(q[n], t);
    }
  }

  /** In orderly lists every thread is ready at most once, or a victim, but not both. */
  lemma NoneTwice(q: seq<seq<nat>>, victims: seq<nat>, home: map<nat, nat>, me: nat, t: nat)
    requires Orderly(q, victims, home, me)
    ensures (Ready(q) + multiset(victims))[t] <= 1
  {
    var row := q[me] + victims;
    forall i, j | 0 <= i < j < |q[me]| ensures q[me][i] != q[me][j] { assert row[i] != row[j]; }
    forall i, j | 0 <= i < j < |victims| ensures victims[i] != victims[j] {
      assert row[|q[me]| + i] != row[|q[me]| + j];
    }
    forall i, j | 0 <= i < |q[me]| && 0 <= j < |victims| ensures q[me][i] != victims[j] {
      assert row[i] != row[|q[me]| + j];
    }
    assert forall x :: x in q[me] ==> x in row;
    assert forall x :: x in victims ==> x in row;
    forall c | 0 <= c < |q| ensures Row(q[c], home, c) {}
    ReadyOnce(q, home, t);
    DistinctOnce(victims, t);
  }

  lemma InPlayIs(q: seq<seq<nat>>, victims: seq<nat>, t: nat)
    ensures InPlay(q, victims, t) <==> t in Ready(q) + multiset(victims)
  {
    ReadyHas(q, t);
  }

  /** How many threads a move brings to the queue of `c`. */
  function Arriving(move: seq<Change>, c: nat): nat {
    if move == [] then 0
    else Arriving(move[..|move| - 1], c) + if move[|move| - 1].Arrive? && move[|move| - 1].c == c then 1 else 0
  }

  /**
   What the moves so far say about one thread: it is nowhere, it is on the queue of another
   processor, it is on some queue or a victim, or any of these.
   */
  datatype Fate = Absent | On(c: nat) | Somewhere | Unknown

  /** A change of thread `t` among `n` processors. Only a thread that may have been sent to `c` departs to unknown. */
  function Fated(f: Fate, ch: Change, t: nat, n: nat, me: nat, curthread: nat): Fate {
    if ch.t != t || ch.c >= n then f
    else
      match ch
      case Arrive(c, _) =>
        if t == curthread && c != me then f
        else if f.Absent? then if c == me then Somewhere else On(c)
        else if f.Unknown? then Somewhere
        else f
      case Depart(c, _) =>
        if c == me then f
        else if f == On(c) then Absent
        else if f.Somewhere? then Unknown
        else f
  }

  function FatedByMove(f: Fate, move: seq<Change>, t: nat, n: nat, me: nat, curthread: nat): Fate {
    if move == [] then f
    else Fated(FatedByMove(f, move[..|move| - 1], t, n, me, curthread), move[|move| - 1], t, n, me, curthread)
  }

  lemma {:induction false} UnnamedInMove(f: Fate, move: seq<Change>, t: nat, n: nat, me: nat, curthread: nat)
    requires forall i :: 0 <= i < |move| ==> move[i].t != t
    ensures FatedByMove(f, move, t, n, me, curthread) == f
  {
    if move != [] { UnnamedInMove(f, move[..|move| - 1], t, n, me, curthread); }
  }

  lemma {:induction false} LastInMove(f: Fate, move: seq<Change>, k: nat, t: nat, n: nat, me: nat, curthread: nat)
    requires k < |move| && forall i :: k < i < |move| ==> move[i].t != t
    ensures FatedByMove(f, move, t, n, me, curthread)
         == Fated(FatedByMove(f, move[..k], t, n, me, curthread), move[k], t, n, me, curthread)
  {
    var m := |move| - 1;
    if k < m {
      LastInMove(f, move[..m], k, t, n, me, curthread);
      assert move[..m][..k] == move[..k];
    }
  }

  ghost predicate Fits(f: Fate, q: seq<seq<nat>>, victims: seq<nat>, me: nat, t: nat) {
    match f
    case Absent => !InPlay(q, victims, t)
    case On(c) => c != me && c < |q| && t in q[c]
    case Somewhere => InPlay(q, victims, t)
    case Unknown => true
  }

  /** What the lists say about a thread before any move. */
  ghost function Begin(q: seq<seq<nat>>, victims: seq<nat>, me: nat, t: nat): (f: Fate)
    ensures Fits(f, q, victims, me, t) && !f.Unknown?
  {
    if c: nat :| c < |q| && c != me && t in q[c] then On(c)
    else if InPlay(q, victims, t) then Somewhere
    else Absent
  }

  lemma OnOneOnly(q: seq<seq<nat>>, victims: seq<nat>, home: map<nat, nat>, me: nat, c: nat, t: nat)
    requires Orderly(q, victims, home, me) && c < |q| && c != me && t in q[c]
    ensures t !in victims && forall d :: 0 <= d < |q| && d != c ==> t !in q[d]
  {
    assert Row(q[c], home, c);
    forall d | 0 <= d < |q| && d != c && d != me ensures t !in q[d] { assert Row(q[d], home, d); }
    assert t !in q[me] + victims;
  }

  lemma ArriveFits(c: nat, x: nat, l: Lists, victims: seq<nat>, me: nat, curthread: nat, t: nat, f: Fate)
    requires Fits(f, l.queues, victims, me, t)
    ensures Fits(Fated(f, Arrive(c, x), t, |l.queues|, me, curthread),
                 Changed(Arrive(c, x), l, victims, me, curthread).queues, victims, me, t)
  {
    var m := Changed(Arrive(c, x), l, victims, me, curthread);
    assert forall d :: 0 <= d < |l.queues| ==> l.queues[d] <= m.queues[d];
    if Possible(Arrive(c, x), l.queues, victims, me, curthread) { assert x in m.queues[c]; }
  }

  lemma DepartFits(c: nat, x: nat, l: Lists, victims: seq<nat>, me: nat, curthread: nat, t: nat, f: Fate)
    requires Orderly(l.queues, victims, l.home, me) && Fits(f, l.queues, victims, me, t)
    ensures Fits(Fated(f, Depart(c, x), t, |l.queues|, me, curthread),
                 Changed(Depart(c, x), l, victims, me, curthread).queues, victims, me, t)
  {
    var m := Changed(Depart(c, x), l, victims, me, curthread);
    if Possible(Depart(c, x), l.queues, victims, me, curthread) {
      OnOneOnly(l.queues, victims, l.home, me, c, x);
      assert Row(l.queues[c], l.home, c);
      WithoutIs(l.queues[c], x);
      hide Orderly, Row;
      if t != x {
        forall d | 0 <= d < |l.queues| ensures t in m.queues[d] <==> t in l.queues[d] {}
      }
    }
  }

  /** The lists after a move fit what it says about every thread. */
  lemma {:induction false} MoveFits(move: seq<Change>, l: Lists, victims: seq<nat>, me: nat, curthread: nat,
                                    t: nat, f: Fate)
    requires Orderly(l.queues, victims, l.home, me) && Fits(f, l.queues, victims, me, t)
    ensures Fits(FatedByMove(f, move, t, |l.queues|, me, curthread),
                 AfterMove(move, l, victims, me, curthread).queues, victims, me, t)
  {
    hide Orderly, Fits, Possible, Changed, Fated;
    if move != [] {
      var rest, ch := move[..|move| - 1], move[|move| - 1];
      var m := AfterMove(rest, l, victims, me, curthread);
      MoveIs(rest, l, victims, me, curthread);
      MoveFits(rest, l, victims, me, curthread, t, f);
      var g := FatedByMove(f, rest, t, |l.queues|, me, curthread);
      match ch
      case Arrive(c, x) => ArriveFits(c, x, m, victims, me, curthread, t, g);
      case Depart(c, x) => DepartFits(c, x, m, victims, me, curthread, t, g);
    }
  }

  /**
   How lists before a move relate to those after it: nobody takes from the queue of `me`, no queue
   grows but by arrivals, and the current thread stays assigned to it.
   */
  ghost predicate Moved(l: Lists, m: Lists, victims: seq<nat>, me: nat, curthread: nat, move: seq<Change>) {
    && |m.queues| == |l.queues| && me < |l.queues|
    && l.queues[me] <= m.queues[me]
    && (forall c :: 0 <= c < |l.queues| ==> |m.queues[c]| <= |l.queues[c]| + Arriving(move, c))
    && (curthread in l.home && l.home[curthread] == me ==> curthread in m.home && m.home[curthread] == me)
  }

  lemma ArriveKeeps(c: nat, t: nat, l: Lists, victims: seq<nat>, me: nat, curthread: nat)
    requires Orderly(l.queues, victims, l.home, me) && Possible(Arrive(c, t), l.queues, victims, me, curthread)
    ensures var m := Changed(Arrive(c, t), l, victims, me, curthread); Orderly(m.queues, victims, m.home, me)
  {
    var m := Changed(Arrive(c, t), l, victims, me, curthread);
    assert t !in l.queues[me] + victims;
    forall d | 0 <= d < |m.queues| && d != me ensures Row(m.queues[d], m.home, d) {
      assert Row(l.queues[d], l.home, d) && t !in l.queues[d];
    }
    if c == me {
      RowInserted(l.queues[me], victims, l.home, me, t);
    } else {
      assert Row(l.queues[me] + victims, m.home, me);
    }
  }

  lemma RowInserted(a: seq<nat>, b: seq<nat>, home: map<nat, nat>, me: nat, t: nat)
    requires Row(a + b, home, me) && t !in a + b
    ensures Row(a + [t] + b, home[t := me], me)
  {
    var s, row := a + b, a + [t] + b;
    forall i, j | 0 <= i < j < |row| ensures row[i] != row[j] {
      assert i < |a| ==> row[i] == s[i];
      assert i > |a| ==> row[i] == s[i - 1];
      assert j < |a| ==> row[j] == s[j];
      assert j > |a| ==> row[j] == s[j - 1];
    }
    forall x | x in row ensures x in s || x == t {}
  }

  lemma DepartKeeps(c: nat, t: nat, l: Lists, victims: seq<nat>, me: nat, curthread: nat)
    requires Orderly(l.queues, victims, l.home, me) && Possible(Depart(c, t), l.queues, victims, me, curthread)
    ensures var m := Changed(Depart(c, t), l, victims, me, curthread); Orderly(m.queues, victims, m.home, me)
  {
    assert Row(l.queues[c], l.home, c);
    WithoutIs(l.queues[c], t);
  }

  lemma ChangeMoves(ch: Change, l: Lists, victims: seq<nat>, me: nat, curthread: nat)
    requires Orderly(l.queues, victims, l.home, me)
    ensures Moved(l, Changed(ch, l, victims, me, curthread), victims, me, curthread, [ch])
  {
    var m := Changed(ch, l, victims, me, curthread);
    assert [ch][..0] == [];
    if Possible(ch, l.queues, victims, me, curthread) && ch.Depart? {
      assert Row(l.queues[ch.c], l.home, ch.c);
      WithoutIs(l.queues[ch.c], ch.t);
    }
  }

  lemma ChangeKeeps(ch: Change, l: Lists, victims: seq<nat>, me: nat, curthread: nat)
    requires Orderly(l.queues, victims, l.home, me)
    ensures var m := Changed(ch, l, victims, me, curthread); Orderly(m.queues, victims, m.home, me)
  {
    if Possible(ch, l.queues, victims, me, curthread) {
      match ch
      case Arrive(c, t) => ArriveKeeps(c, t, l, victims, me, curthread);
      case Depart(c, t) => DepartKeeps(c, t, l, victims, me, curthread);
    }
  }

  lemma MovedTwice(l: Lists, m: Lists, n: Lists, victims: seq<nat>, me: nat, curthread: nat,
                   move: seq<Change>, ch: Change)
    requires Moved(l, m, victims, me, curthread, move) && Moved(m, n, victims, me, curthread, [ch])
    ensures Moved(l, n, victims, me, curthread, move + [ch])
  {
    var both := move + [ch];
    assert both[..|move|] == move && [ch][..0] == [];
    forall c: nat ensures Arriving(both, c) == Arriving(move, c) + Arriving([ch], c) {
      assert Arriving([ch][..0], c) == 0;
    }
    hide Arriving;
  }

  lemma {:induction false} MoveIs(move: seq<Change>, l: Lists, victims: seq<nat>, me: nat, curthread: nat)
    requires Orderly(l.queues, victims, l.home, me)
    ensures var m := AfterMove(move, l, victims, me, curthread);
      Moved(l, m, victims, me, curthread, move) && Orderly(m.queues, victims, m.home, me)
  {
    hide Row, Possible, Changed;
    if move != [] {
      var rest, ch := move[..|move| - 1], move[|move| - 1];
      var m := AfterMove(rest, l, victims, me, curthread);
      MoveIs(rest, l, victims, me, curthread);
      ChangeMoves(ch, m, victims, me, curthread);
      ChangeKeeps(ch, m, victims, me, curthread);
      MovedTwice(l, m, Changed(ch, m, victims, me, curthread), victims, me, curthread, rest, ch);
      assert move == rest + [ch];
    }
  }

  /** The lists, and the round, from which threads are accounted for. */
  datatype Start = Start(queues: seq<seq<nat>>, victims: seq<nat>, round: nat)

  ghost function Max(x: int, y: int): int { if x >= y then x else y }

  /** The lists between two sections, the victims, and how many are still to be sent. */
  datatype Moment = Moment(lists: Lists, victims: seq<nat>, round: nat, left: nat)

  class Scheduler {
    /** The processor that migrates, and the thread it calls current. */
    const me: nat
    const curthread: nat
    /** What the other processors do, each time they get to run. */
    const others: seq<seq<Change>>
    var round: nat
    var queues: seq<seq<nat>>
    var home: map<nat, nat>
    var victims: seq<nat>

    ghost predicate Valid()
      reads this
    {
      me < |queues| && Orderly(queues, victims, home, me)
    }

    function Move(k: nat): seq<Change> { if k < |others| then others[k] else [] }

    /** How many threads the moves before round `k` bring to the queue of `c`. */
    ghost function Arrived(k: nat, c: nat): nat {
      if k == 0 then 0 else Arrived(k - 1, c) + Arriving(Move(k - 1), c)
    }

    lemma {:induction false} ArrivedGrows(j: nat, k: nat, c: nat)
      requires j <= k
      ensures Arrived(j, c) <= Arrived(k, c)
    {
      if j < k { ArrivedGrows(j, k - 1, c); }
    }

    lemma ArrivedGrowsEverywhere(j: nat, k: nat)
      requires j <= k
      ensures forall c: nat :: Arrived(j, c) <= Arrived(k, c)
    {
      forall c: nat ensures Arrived(j, c) <= Arrived(k, c) { ArrivedGrows(j, k, c); }
    }

    /** The fate of thread `t` through the moves of the rounds from `i` on, before `j`. */
    ghost function Fared(f: Fate, i: nat, j: nat, t: nat, n: nat): Fate {
      if j <= i then f else FatedByMove(Fared(f, i, j - 1, t, n), Move(j - 1), t, n, me, curthread)
    }

    /** A thread that no change of these rounds names fares as it was. */
    lemma {:induction false} Unnamed(f: Fate, i: nat, j: nat, t: nat, n: nat)
      requires forall k, a :: i <= k < j && 0 <= a < |Move(k)| ==> Move(k)[a].t != t
      ensures Fared(f, i, j, t, n) == f
    {
      if i < j {
        Unnamed(f, i, j - 1, t, n);
        UnnamedInMove(f, Move(j - 1), t, n, me, curthread);
      }
    }

    /** A thread that was last named when it became ready, however often it ran before, is ready. */
    lemma ReadyAgain(f: Fate, i: nat, j: nat, t: nat, n: nat, k: nat, a: nat)
      requires i <= k < j && a < |Move(k)| && Move(k)[a].Arrive? && Move(k)[a].t == t
      requires Move(k)[a].c < n && (t == curthread ==> Move(k)[a].c == me)
      requires forall b :: a < b < |Move(k)| ==> Move(k)[b].t != t
      requires forall l, b :: k < l < j && 0 <= b < |Move(l)| ==> Move(l)[b].t != t
      ensures Fared(f, i, j, t, n).On? || Fared(f, i, j, t, n).Somewhere?
    {
      FaredFurther(f, i, k + 1, j, t, n);
      Unnamed(Fared(f, i, k + 1, t, n), k + 1, j, t, n);
      LastInMove(Fared(f, i, k, t, n), Move(k), a, t, n, me, curthread);
    }

    lemma {:induction false} FaredFurther(f: Fate, i: nat, j: nat, k: nat, t: nat, n: nat)
      requires i <= j <= k
      ensures Fared(f, i, k, t, n) == Fared(Fared(f, i, j, t, n), j, k, t, n)
    {
      if j < k { FaredFurther(f, i, j, k - 1, t, n); }
    }

    /** A thread on another queue that was last named when its processor took it to run is not ready. */
    lemma GoneToRun(f: Fate, i: nat, j: nat, t: nat, n: nat, k: nat, a: nat)
      requires i <= k < j && a < |Move(k)| && Move(k)[a].Depart? && Move(k)[a].t == t
      requires Move(k)[a].c < n && Move(k)[a].c != me
      requires FatedByMove(Fared(f, i, k, t, n), Move(k)[..a], t, n, me, curthread) in {On(Move(k)[a].c), Absent}
      requires forall b :: a < b < |Move(k)| ==> Move(k)[b].t != t
      requires forall l, b :: k < l < j && 0 <= b < |Move(l)| ==> Move(l)[b].t != t
      ensures Fared(f, i, j, t, n).Absent?
    {
      FaredFurther(f, i, k + 1, j, t, n);
      Unnamed(Fared(f, i, k + 1, t, n), k + 1, j, t, n);
      LastInMove(Fared(f, i, k, t, n), Move(k), a, t, n, me, curthread);
    }

    ghost predicate Quiet() { forall k :: 0 <= k < |others| ==> others[k] == [] }

    ghost function Now(): Start
      reads this
    {
      Start(queues, victims, round)
    }

    /** What was at the start, and what the moves since then say, accounts for every thread there is now. */
    ghost predicate Accounted(s: Start)
      reads this
    {
      && s.round <= round && |queues| == |s.queues|
      && forall t: nat :: Fits(FateOf(s, round, t), queues, victims, me, t)
    }

    ghost function FateOf(s: Start, k: nat, t: nat): Fate {
      Fared(Begin(s.queues, s.victims, me, t), s.round, k, t, |s.queues|)
    }

    lemma AccountedNow()
      ensures Accounted(Now())
    {
    }

    /** The assignment of the current thread, if it is to this processor, has not changed. */
    twostate predicate Stays()
      reads this
    {
      curthread in old(home) && old(home)[curthread] == me ==> curthread in home && home[curthread] == me
    }

    /** Other queues hold no more than a share, or than they held, but for threads that moves brought. */
    twostate predicate Shared(share: nat)
      reads this
    {
      SharedSince(old(queues), old(round), queues, round, share)
    }

    ghost predicate SharedSince(q: seq<seq<nat>>, r: nat, q': seq<seq<nat>>, r': nat, share: nat) {
      && |q'| == |q|
      && forall c: nat :: c < |q'| && c != me ==> |q'[c]| - Arrived(r', c) <= Max(share, |q[c]|) - Arrived(r, c)
    }

    lemma SharedTwice(q: seq<seq<nat>>, r: nat, q': seq<seq<nat>>, r': nat, q'': seq<seq<nat>>, r'': nat, share: nat)
      requires r <= r' <= r'' && SharedSince(q, r, q', r', share) && SharedSince(q', r', q'', r'', share)
      ensures SharedSince(q, r, q'', r'', share)
    {
      ArrivedGrowsEverywhere(r, r');
    }

    /**
     The turn of queue `c`, once the others have moved: it gets the first victims but the current
     thread, up to its share; the current thread counts as sent when it is passed over. If there are
     still some to send, the queue has its share.
     */
    ghost predicate Turn(a: Moment, b: Moment, c: nat, share: nat) {
      if c == me || a.left == 0 then b == a
      else
        var q := AfterMove(Move(a.round), a.lists, a.victims, me, curthread).queues;
        && b.round == a.round + 1 && c < |q| && |b.lists.queues| == |q|
        && q[c] <= b.lists.queues[c] && b.lists.queues == q[c := b.lists.queues[c]]
        && var moved := b.lists.queues[c][|q[c]|..];
           && Without(a.victims, curthread) == moved + Without(b.victims, curthread)
           && (a.left == b.left + |moved| || a.left == b.left + |moved| + 1)
           && (b.left > 0 ==> |b.lists.queues[c]| >= share)
           && (|b.lists.queues[c]| <= share || moved == [])
    }

    /** Every queue has its turn. */
    ghost predicate Offered(run: seq<Moment>, share: nat) {
      run != [] && forall c: nat :: c < |run| - 1 ==> Turn(run[c], run[c + 1], c, share)
    }

    /** The others having moved, the last `n` threads of the own queue become the victims. */
    ghost predicate Chosen(l: Lists, k: nat, m: Moment, n: nat) {
      var q := AfterMove(Move(k), l, [], me, curthread).queues;
      && me < |q| && n <= |q[me]| && m.round == k + 1 && m.left == n
      && m.victims == q[me][|q[me]| - n..] && m.lists.queues == q[me := q[me][..|q[me]| - n]]
    }

    /** If there are any victims left the others move, and they go back on the own queue. */
    ghost predicate GivenBack(m: Moment, q': seq<seq<nat>>) {
      if m.victims == [] then q' == m.lists.queues
      else
        var q := AfterMove(Move(m.round), m.lists, m.victims, me, curthread).queues;
        me < |q| && q' == q[me := q[me] + m.victims]
    }

    /**
     All that happens after the count: as many threads as the own queue had above the share are
     chosen, they are offered to all queues in turn, or until none is left to send, and the rest goes back.
     */
    ghost predicate Migrated(l: Lists, k: nat, share: nat, mine: nat, run: seq<Moment>, q': seq<seq<nat>>) {
      && share <= mine && Offered(run, share)
      && Chosen(l, k, run[0], mine - share) && GivenBack(run[|run| - 1], q')
      && (|run| == |q'| + 1 || run[|run| - 1].left == 0)
    }

    ghost function At(left: nat): Moment
      reads this
    {
      Moment(Lists(queues, home), victims, round, left)
    }

    /** The lists after the first `k` moves, with no victims about. */
    ghost function Later(l: Lists, k: nat): Lists {
      if k == 0 then l else AfterMove(Move(k - 1), Later(l, k - 1), [], me, curthread)
    }

    /** The ready threads counted on the first `n` queues, one more move being over at each. */
    ghost function Sampled(l: Lists, n: nat): nat {
      if n == 0 then 0
      else Sampled(l, n - 1) + if n - 1 < |Later(l, n).queues| then |Later(l, n).queues[n - 1]| else 0
    }

    /** The other processors make their next move. */
    method OthersRun(ghost s: Start)
      requires Valid() && Accounted(s)
      modifies `queues, `home, `round
      ensures Valid()
      ensures round == old(round) + 1
      ensures |queues| == |old(queues)|
      ensures Lists(queues, home) == AfterMove(Move(old(round)), old(Lists(queues, home)), victims, me, curthread)
      ensures old(queues)[me] <= queues[me]
      ensures Accounted(s) && Stays()
      ensures forall c: nat :: c < |queues| ==>
        |queues[c]| - Arrived(round, c) <= |old(queues)[c]| - Arrived(old(round), c)
      ensures Quiet() ==> queues == old(queues) && home == old(home)
    {
      hide Orderly, InPlay, Changed, Fits, FatedByMove;
      var move := Move(round);
      ghost var before := Lists(queues, home);
      var i := 0;
      while i < |move|
        invariant 0 <= i <= |move| && round == old(round)
        invariant Lists(queues, home) == AfterMove(move[..i], before, victims, me, curthread)
      {
        assert move[..i + 1][..i] == move[..i];
        var l := Changed(move[i], Lists(queues, home), victims, me, curthread);
        queues, home := l.queues, l.home;
        i := i + 1;
      }
      assert move[..i] == move;
      MoveIs(move, before, victims, me, curthread);
      ghost var next := round + 1;
      forall t: nat ensures Fits(FateOf(s, next, t), queues, victims, me, t) {
        assert old(Fits(FateOf(s, round, t), queues, victims, me, t));
        MoveFits(move, before, victims, me, curthread, t, FateOf(s, round, t));
      }
      assert Orderly(queues, victims, home, me) by {
        assert Lists(queues, home) == AfterMove(move, before, victims, me, curthread);
      }
      round := round + 1;
    }

    /** Counts the ready threads, here and in all, while the others go on. */
    method CountReady(ghost s: Start) returns (mine: nat, total: nat)
      requires Valid() && Accounted(s) && victims == [] && round == 0
      modifies `queues, `home, `round
      ensures Valid() && |queues| == |old(queues)| && round == |queues|
      ensures old(queues)[me] <= queues[me] && mine <= |queues[me]|
      ensures Accounted(s) && Stays()
      ensures forall c: nat :: c < |queues| ==> |queues[c]| - Arrived(round, c) <= |old(queues)[c]|
      ensures total == Sampled(old(Lists(queues, home)), |queues|)
      ensures var l := Later(old(Lists(queues, home)), me + 1); me < |l.queues| && mine == |l.queues[me]|
      ensures Quiet() ==> queues == old(queues) && home == old(home)
      ensures Lists(queues, home) == Later(old(Lists(queues, home)), |queues|)
    {
      hide Orderly, InPlay, AfterMove;
      mine, total := 0, 0;
      var i := 0;
      while i < |queues|
        invariant 0 <= i <= |queues| == |old(queues)| && Valid() && round == i
        invariant old(queues)[me] <= queues[me] && mine <= |queues[me]|
        invariant Accounted(s) && Stays()
        invariant forall c: nat :: c < |queues| ==> |queues[c]| - Arrived(round, c) <= |old(queues)[c]|
        invariant Lists(queues, home) == Later(old(Lists(queues, home)), i)
        invariant total == Sampled(old(Lists(queues, home)), i)
        invariant i > me ==>
          var l := Later(old(Lists(queues, home)), me + 1); me < |l.queues| && mine == |l.queues[me]|
        invariant Quiet() ==> queues == old(queues) && home == old(home)
        decreases |queues| - i
      {
        OthersRun(s);
        total := total + |queues[i]|;
        if i == me {
          mine := |queues[i]|;
        }
        i := i + 1;
      }
    }

    /** Takes the last threads off its own queue, keeping their order. */
    method TakeVictims(toSend: nat)
      requires Valid() && victims == [] && toSend <= |queues[me]|
      modifies `queues, `victims
      ensures Valid() && |victims| == toSend
      ensures Ready(queues) + multiset(victims) == old(Ready(queues) + multiset(victims))
      ensures queues == old(queues)[me := old(queues[me])[..|old(queues[me])| - toSend]]
      ensures victims == old(queues[me])[|old(queues[me])| - toSend..]
    {
      hide Row, Ready;
      var i := 0;
      ghost var q0, row := queues, queues[me];
      Updated(q0, me, row, row);
      assert row[..|row|] == row;
      while i < toSend
        invariant 0 <= i <= toSend && Valid() && |row| == |queues[me]| + i
        invariant Ready(queues) + multiset(victims) == old(Ready(queues) + multiset(victims))
        invariant queues == q0[me := row[..|row| - i]]
        invariant victims == row[|row| - i..]
      {
        var last := |queues[me]| - 1;
        var t := queues[me][last];
        TakenOff(queues, victims, home, me);
        Updated(q0, me, queues[me], queues[me][..last]);
        assert queues[me][..last] == row[..|row| - i - 1];
        queues := queues[me := queues[me][..last]];
        victims := [t] + victims;
        i := i + 1;
      }
    }

    /** Sends victims to one other queue until it has its share, passing over the current thread. */
    method SendTo(c: nat, share: nat, toSend: nat, ghost passed: bool)
        returns (left: nat, ghost passed': bool, ghost moved: seq<nat>)
      requires Valid() && c < |queues| && c != me && Pending(victims, toSend, passed, curthread)
      modifies `queues, `victims, `home
      ensures Valid() && Pending(victims, left, passed', curthread)
      ensures Ready(queues) + multiset(victims) == old(Ready(queues) + multiset(victims))
      ensures queues == old(queues)[c := old(queues)[c] + moved]
      ensures curthread !in moved && (curthread in victims <==> curthread in old(victims))
      ensures forall t :: t in old(home) && t !in moved ==> t in home && home[t] == old(home)[t]
      ensures |queues[c]| <= share || moved == []
      ensures left > 0 ==> |queues[c]| >= share
      ensures left + |moved| + (if passed' && !passed then 1 else 0) == toSend && (passed ==> passed')
      ensures Without(old(victims), curthread) == moved + Without(victims, curthread)
    {
      hide Orderly, Ready, Without;
      left, passed', moved := toSend, passed, [];
      assert [] + Without(victims, curthread) == Without(victims, curthread);
      ghost var q0 := queues;
      Updated(q0, c, q0[c], q0[c]);
      assert q0[c] + moved == q0[c];
      while |queues[c]| < share && left > 0
        invariant Valid() && Pending(victims, left, passed', curthread) && |queues| == |old(queues)|
        invariant Ready(queues) + multiset(victims) == old(Ready(queues) + multiset(victims))
        invariant queues == q0[c := q0[c] + moved]
        invariant curthread !in moved && (curthread in victims <==> curthread in old(victims))
        invariant forall t :: t in old(home) && t !in moved ==> t in home && home[t] == old(home)[t]
        invariant |queues[c]| <= share || moved == []
        invariant left + |moved| + (if passed' && !passed then 1 else 0) == toSend && (passed ==> passed')
        invariant Without(old(victims), curthread) == moved + Without(victims, curthread)
        decreases left
      {
        if victims[0] == curthread {
          FirstIsLast();
          VictimsDistinct();
          WithoutFirst(victims, curthread);
          PassOver();
          left, passed' := left - 1, true;
        } else {
          WithoutFirst(victims, curthread);
          moved := moved + [victims[0]];
          SendOne(c);
          left := left - 1;
        }
        assert queues[c] == q0[c] + moved;
      }
    }

    /** Moves the first victim to the end of the line. */
    method PassOver()
      requires Valid() && victims != []
      modifies `victims
      ensures Valid() && victims == old(victims)[1..] + [old(victims)[0]]
      ensures multiset(victims) == multiset(old(victims))
      ensures forall t :: t in victims <==> t in old(victims)
    {
      Rotated(queues, victims, home, me);
      assert victims == [victims[0]] + victims[1..];
      victims := victims[1..] + [victims[0]];
    }

    /** Gives the first victim to another processor. */
    method SendOne(c: nat)
      requires Valid() && victims != [] && c < |queues| && c != me
      modifies `queues, `victims, `home
      ensures Valid() && victims == old(victims)[1..] && home == old(home)[old(victims)[0] := c]
      ensures Ready(queues) + multiset(victims) == old(Ready(queues) + multiset(victims))
      ensures queues == old(queues)[c := old(queues)[c] + [old(victims)[0]]]
      ensures forall t :: t != old(victims)[0] ==> (t in victims <==> t in old(victims))
    {
      var t := victims[0];
      Sent(queues, victims, home, me, c);
      assert victims == [t] + victims[1..];
      home := home[t := c];
      queues := queues[c := queues[c] + [t]];
      victims := victims[1..];
    }

    lemma VictimsDistinct()
      requires Valid()
      ensures forall i, j :: 0 <= i < j < |victims| ==> victims[i] != victims[j]
    {
      var row := queues[me] + victims;
      forall i, j | 0 <= i < j < |victims| ensures victims[i] != victims[j] {
        assert row[|queues[me]| + i] == victims[i] && row[|queues[me]| + j] == victims[j];
      }
    }

    lemma FirstIsLast()
      requires Valid() && victims != []
      ensures |victims| > 1 ==> victims[0] != victims[|victims| - 1]
    {
      var row, n := queues[me] + victims, |queues[me]|;
      assert row[n] == victims[0] && row[|row| - 1] == victims[|victims| - 1];
    }

    /** Puts what is left back on its own queue. */
    method PutBack()
      requires Valid()
      modifies `queues, `victims
      ensures Valid() && victims == []
      ensures Ready(queues) == old(Ready(queues) + multiset(victims))
      ensures queues == old(queues)[me := old(queues)[me] + old(victims)]
    {
      hide Row, Ready;
      ghost var done: seq<nat> := [];
      ghost var q0 := queues;
      Updated(q0, me, q0[me], q0[me]);
      assert q0[me] + done == q0[me];
      while victims != []
        invariant Valid() && done + victims == old(victims) && |queues| == |old(queues)|
        invariant Ready(queues) + multiset(victims) == old(Ready(queues) + multiset(victims))
        invariant queues == old(queues)[me := old(queues)[me] + done]
        decreases |victims|
      {
        var t := victims[0];
        Returned(queues, victims, home, me);
        Updated(q0, me, queues[me], queues[me] + [t]);
        assert queues[me] + [t] == q0[me] + (done + [t]);
        queues := queues[me := queues[me] + [t]];
        victims := victims[1..];
        done := done + [t];
      }
      assert done + victims == done;
    }

    static function Share(total: nat, cpus: nat): nat
      requires cpus > 0
    {
      (total + cpus - 1) / cpus
    }

    /** While the others are quiet, no other queue loses a thread or is filled beyond the share. */
    static ghost predicate Filled(before: seq<seq<nat>>, after: seq<seq<nat>>, me: nat, share: nat) {
      && |before| == |after|
      && forall c :: 0 <= c < |after| && c != me ==>
           before[c] <= after[c] && (|after[c]| <= share || after[c] == before[c])
    }

    /** Moving threads about, but not off another queue, leaves them accounted for. */
    twostate lemma StillAccounted(s: Start)
      requires old(Accounted(s)) && round == old(round) && |queues| == |old(queues)|
      requires Ready(queues) + multiset(victims) == old(Ready(queues) + multiset(victims))
      requires forall c :: 0 <= c < |queues| && c != me ==> old(queues)[c] <= queues[c]
      ensures Accounted(s)
    {
      forall t: nat ensures Fits(FateOf(s, round, t), queues, victims, me, t) {
        InPlayIs(queues, victims, t);
        InPlayIs(old(queues), old(victims), t);
        assert old(Fits(FateOf(s, round, t), queues, victims, me, t));
      }
    }

    /** Offers the victims to the other queues in turn. */
    method SendAll(share: nat, toSend: nat, ghost s: Start)
      returns (left: nat, ghost passed: bool, ghost run: seq<Moment>)
      requires Valid() && Accounted(s) && |victims| == toSend && (Quiet() ==> Lack(queues, me, share) >= toSend)
      modifies `queues, `victims, `home, `round
      ensures Valid() && Pending(victims, left, passed, curthread)
      ensures Accounted(s) && Stays() && Shared(share)
      ensures |queues| == |old(queues)| && old(round) <= round <= old(round) + |queues|
      ensures old(queues)[me] <= queues[me] && (curthread in victims <==> curthread in old(victims))
      ensures Offered(run, share) && run[0] == old(At(toSend)) && run[|run| - 1] == At(left)
      ensures |run| == |queues| + 1 || left == 0
      ensures Quiet() ==> left == 0 && queues[me] == old(queues)[me] && Filled(old(queues), queues, me, share)
      ensures Quiet() ==> victims == if curthread in old(victims) then [curthread] else []
      ensures Quiet() ==> Ready(queues) + multiset(victims) == old(Ready(queues) + multiset(victims))
    {
      hide Orderly, Ready, Lack, InPlay, AfterMove;
      left, passed := toSend, false;
      run := [At(left)];
      var i := 0;
      while i < |queues| && left > 0
        invariant 0 <= i <= |queues| == |old(queues)| && old(round) <= round <= old(round) + i
        invariant Valid() && Pending(victims, left, passed, curthread)
        invariant Offered(run, share) && |run| == i + 1 && run[0] == old(At(toSend)) && run[i] == At(left)
        invariant Accounted(s) && Stays() && Shared(share)
        invariant old(queues)[me] <= queues[me] && (curthread in victims <==> curthread in old(victims))
        invariant Quiet() ==> queues[me] == old(queues)[me] && Lack(queues, me, share) >= left
        invariant Quiet() ==> Ready(queues) + multiset(victims) == old(Ready(queues) + multiset(victims))
        invariant Quiet() ==> Filled(old(queues), queues, me, share)
        invariant Quiet() && left > 0 ==> forall c :: 0 <= c < i && c != me ==> |queues[c]| >= share
        decreases |queues| - i
      {
        if i != me {
          ArrivedGrowsEverywhere(old(round), round);
          left, passed := SendNext(i, share, left, passed, s);
        }
        run := run + [At(left)];
        i := i + 1;
      }
      if Quiet() && left > 0 { LackNone(queues, me, share); }
    }

    /** One turn: the others move, then queue `c` gets what it lacks. */
    method SendNext(c: nat, share: nat, toSend: nat, ghost passed: bool, ghost s: Start)
      returns (left: nat, ghost passed': bool)
      requires Valid() && Accounted(s) && c < |queues| && c != me && Pending(victims, toSend, passed, curthread)
      modifies `queues, `victims, `home, `round
      ensures Valid() && Pending(victims, left, passed', curthread) && left <= toSend
      ensures Accounted(s) && Stays() && Shared(share)
      ensures |queues| == |old(queues)| && round == old(round) + 1
      ensures old(queues)[me] <= queues[me] && (curthread in victims <==> curthread in old(victims))
      ensures Quiet() ==> queues == old(queues)[c := queues[c]] && old(queues)[c] <= queues[c]
      ensures Quiet() ==> (|queues[c]| <= share || queues[c] == old(queues)[c])
      ensures Quiet() ==> Lack(queues, me, share) - left >= Lack(old(queues), me, share) - toSend
      ensures Quiet() ==> Ready(queues) + multiset(victims) == old(Ready(queues) + multiset(victims))
      ensures left > 0 ==> |queues[c]| >= share
      ensures toSend > 0 ==> Turn(old(At(toSend)), At(left), c, share)
    {
      hide Orderly, Ready, Lack, InPlay, AfterMove, Without;
      OthersRun(s);
      label others:
      ghost var moved;
      ghost var q := queues;
      left, passed', moved := SendTo(c, share, toSend, passed);
      StillAccounted@others(s);
      LackUpdate(q, me, share, c, queues[c]);
      ArrivedGrows(old(round), round, c);
      assert |queues[c]| - Arrived(round, c) <= Max(share, |old(queues)[c]|) - Arrived(old(round), c);
    }

    /** What follows the count: the victims are taken, offered round, and what is left put back. */
    method SendAway(share: nat, mine: nat, ghost s: Start) returns (ghost run: seq<Moment>)
      requires Valid() && Accounted(s) && victims == [] && share <= mine <= |queues[me]|
      requires Quiet() ==> mine == |queues[me]| && share == OneShare(queues)
      modifies `queues, `victims, `home, `round
      ensures Valid() && victims == [] && |queues| == |old(queues)| && old(round) <= round <= old(round) + |queues| + 2
      ensures Accounted(s) && Stays() && Shared(share)
      ensures curthread in old(queues)[me] ==> curthread in queues[me]
      ensures var kept := if share < |old(queues)[me]| then share else |old(queues)[me]|;
        old(queues)[me][..kept] <= queues[me]
      ensures Quiet() ==> Ready(queues) == old(Ready(queues)) && Filled(old(queues), queues, me, share)
      ensures Quiet() ==>
        queues[me] == old(queues)[me][..share] + if curthread in old(queues)[me][share..] then [curthread] else []
      ensures old(queues)[me][..share] <= queues[me]
      ensures Migrated(old(Lists(queues, home)), old(round), share, mine, run, queues)
    {
      hide Orderly, Ready, Lack, Total, InPlay, AfterMove, Fits, FateOf, Share, OneShare, Pending;
      hide Offered, Chosen, GivenBack, Filled, SharedSince;
      Choose(share, mine, s);
      ghost var q, r := queues, round;
      run := SendRound(share, mine - share, s);
      SharedTwice(old(queues), old(round), q, r, queues, round, share);
      ChosenFilled(old(queues), queues, share);
    }

    lemma ChosenFilled(q: seq<seq<nat>>, q': seq<seq<nat>>, share: nat)
      ensures me < |q| && share <= |q[me]| && Filled(q[me := q[me][..share]], q', me, share) ==>
        Filled(q, q', me, share)
    {
    }

    /** The victims are offered to all queues, and what is left is put back. */
    method SendRound(share: nat, toSend: nat, ghost s: Start) returns (ghost run: seq<Moment>)
      requires Valid() && Accounted(s) && |victims| == toSend && (Quiet() ==> Lack(queues, me, share) >= toSend)
      modifies `queues, `victims, `home, `round
      ensures Valid() && victims == [] && |queues| == |old(queues)| && old(round) <= round <= old(round) + |queues| + 1
      ensures Accounted(s) && Stays() && Shared(share)
      ensures old(queues)[me] <= queues[me]
      ensures curthread in old(queues)[me] || curthread in old(victims) ==> curthread in queues[me]
      ensures Offered(run, share) && run[0] == old(At(toSend)) && GivenBack(run[|run| - 1], queues)
      ensures |run| == |queues| + 1 || run[|run| - 1].left == 0
      ensures Quiet() ==> Ready(queues) == old(Ready(queues) + multiset(victims))
      ensures Quiet() ==> Filled(old(queues), queues, me, share)
      ensures Quiet() ==> queues[me] == old(queues)[me] + if curthread in old(victims) then [curthread] else []
    {
      hide Orderly, Ready, Lack, Total, InPlay, AfterMove, Fits, FateOf, Share, OneShare, Pending, Turn;
      var left; ghost var passed;
      left, passed, run := SendAll(share, toSend, s);
      ghost var r := round;
      GiveBack(s);
      ArrivedGrowsEverywhere(old(round), r);
      ArrivedGrowsEverywhere(r, round);
    }

    /** The others move, then the victims are taken: all beyond a share, if the count still holds. */
    method Choose(share: nat, mine: nat, ghost s: Start)
      requires Valid() && Accounted(s) && victims == [] && share <= mine <= |queues[me]|
      requires Quiet() ==> mine == |queues[me]| && share == OneShare(queues)
      modifies `queues, `victims, `home, `round
      ensures Valid() && |queues| == |old(queues)| && |victims| == mine - share && round == old(round) + 1
      ensures Accounted(s) && Stays() && Shared(share)
      ensures old(queues)[me] <= queues[me] + victims && share <= |queues[me]|
      ensures Quiet() ==> victims == old(queues)[me][share..] && queues == old(queues)[me := old(queues)[me][..share]]
      ensures Quiet() ==> Ready(queues) + multiset(victims) == old(Ready(queues))
      ensures Quiet() ==> Lack(queues, me, share) >= mine - share
      ensures Chosen(old(Lists(queues, home)), old(round), At(mine - share), mine - share)
    {
      hide Orderly, Ready, Lack, Total, InPlay, AfterMove, Share;
      assert multiset(victims) == multiset{};
      OthersRun(s);
      ghost var before := queues;
      label taking:
      TakeVictims(mine - share);
      StillAccounted@taking(s);
      assert before[me] == queues[me] + victims;
      if Quiet() { EnoughRoom(before, share); }
    }

    /** What is left, if anything, goes back on the own queue. */
    method GiveBack(ghost s: Start)
      requires Valid() && Accounted(s)
      modifies `queues, `victims, `home, `round
      ensures Valid() && victims == [] && |queues| == |old(queues)| && old(round) <= round <= old(round) + 1
      ensures Accounted(s) && Stays()
      ensures forall c: nat :: c < |queues| && c != me ==>
        |queues[c]| - Arrived(round, c) <= |old(queues)[c]| - Arrived(old(round), c)
      ensures forall t :: t in old(queues)[me] || t in old(victims) ==> t in queues[me]
      ensures Quiet() ==> queues == old(queues)[me := old(queues)[me] + old(victims)]
      ensures Quiet() ==> Ready(queues) == old(Ready(queues) + multiset(victims))
      ensures old(queues)[me] <= queues[me]
      ensures forall left: nat :: GivenBack(old(At(left)), queues)
    {
      hide Orderly, Ready, InPlay, AfterMove;
      if victims != [] {
        OthersRun(s);
        label putting:
        PutBack();
        assert multiset(victims) == multiset{};
        StillAccounted@putting(s);
      } else {
        assert multiset(victims) == multiset{};
        Updated(queues, me, queues[me], queues[me]);
        assert queues[me] + victims == queues[me];
      }
    }

    /**
     Sends away what this processor has above its share, and returns the share. Whatever the others
     do meanwhile, every thread is where it was and their moves, in their order, let it be: none is
     lost or comes back by itself. The first of its own threads, up to a share, and the current one
     stay, and no other queue is filled beyond the share. If the others are quiet, this processor is
     left with its share, and the current thread if that was to go.
     */
    method ConsiderMigration() returns (share: nat, ghost run: seq<Moment>)
      requires Valid() && victims == [] && round == 0
      modifies `queues, `victims, `home, `round
      ensures Valid() && victims == [] && |queues| == |old(queues)| && round <= 2 * |queues| + 2
      ensures Accounted(old(Now())) && Stays() && Shared(share)
      ensures share == Share(Sampled(old(Lists(queues, home)), |queues|), |queues|)
      ensures var l0 := old(Lists(queues, home)); var l, seen := Later(l0, |queues|), Later(l0, me + 1).queues;
        && me < |seen|
        && if |seen[me]| < share then Lists(queues, home) == l
           else Migrated(l, |queues|, share, |seen[me]|, run, queues)
      ensures curthread in old(queues)[me] ==> curthread in queues[me]
      ensures var kept := if share < |old(queues)[me]| then share else |old(queues)[me]|;
        old(queues)[me][..kept] <= queues[me]
      ensures Quiet() ==> share == OneShare(old(queues)) && Ready(queues) == old(Ready(queues))
      ensures Quiet() && |old(queues)[me]| < share ==> queues == old(queues)
      ensures Quiet() && |old(queues)[me]| >= share ==>
        && Filled(old(queues), queues, me, share)
        && queues[me] == old(queues)[me][..share] + if curthread in old(queues)[me][share..] then [curthread] else []
    {
      hide Orderly, Ready, Lack, Total, InPlay, AfterMove, Sampled, Later, Share, Migrated;
      if Quiet() {
        QuietSample(Lists(queues, home), |queues|);
        QuietSample(Lists(queues, home), me + 1);
        assert queues[..|queues|] == queues;
      }
      ghost var s := Now();
      AccountedNow();
      var mine, total := CountReady(s);
      share := Share(total, |queues|);
      ArrivedGrowsEverywhere(0, round);
      run := [];
      if mine >= share {
        run := SendAway(share, mine, s);
      }
    }

    ghost function OneShare(q: seq<seq<nat>>): nat
      requires q != []
    {
      Share(Total(q), |q|)
    }

    /** With nobody moving, the count is of the lists as they are. */
    lemma {:induction false} QuietSample(l: Lists, n: nat)
      requires Quiet() && n <= |l.queues|
      ensures Later(l, n) == l && Sampled(l, n) == Total(l.queues[..n])
    {
      if n > 0 {
        QuietSample(l, n - 1);
        TotalPrefix(l.queues, n - 1);
      }
    }

    /** What is taken from this queue the others have room for. */
    lemma EnoughRoom(before: seq<seq<nat>>, share: nat)
      requires me < |before| && share == Share(Total(before), |before|) && |before[me]| >= share
      requires queues == before[me := before[me][..share]]
      ensures Lack(queues, me, share) >= |before[me]| - share
    {
      LackIsEnough(before, me, share);
      LackUpdate(before, me, share, me, queues[me]);
      ShareCovers(Total(before), |before|);
    }

    static lemma ShareCovers(total: nat, cpus: nat)
      requires cpus > 0
      ensures cpus * Share(total, cpus) >= total
    {
      var n := total + cpus - 1;
      assert n == cpus * (n / cpus) + n % cpus;
    }
  }
}
