/**
 Counting the elements of a sequence that a predicate picks out.
 */
module Counting {

  function Count<T>(s: seq<T>, f: T -> bool): (n: nat)
    ensures n <= |s|
  {
    if s == [] then 0 else Count(s[..|s| - 1], f) + (if f(s[|s| - 1]) then 1 else 0)
  }

  lemma {:induction false} CountUpdate<T>(s: seq<T>, f: T -> bool, i: nat, x: T)
    requires i < |s|
    ensures Count(s[i := x], f) == Count(s, f) + (if f(x) then 1 else 0) - (if f(s[i]) then 1 else 0)
  {
    var n := |s| - 1;
    if i == n {
      assert s[i := x][..n] == s[..n];
    } else {
      assert s[i := x][..n] == s[..n][i := x];
      CountUpdate(s[..n], f, i, x);
    }
  }

  /** Where a sequence differs from another in at most two places. */
  lemma CountMoved<T>(s: seq<T>, s': seq<T>, f: T -> bool, i: nat, w: int)
    requires |s| == |s'| && i < |s| && w != i && (w == -1 || 0 <= w < |s|)
    requires forall j :: 0 <= j < |s| && j != i && j != w ==> s'[j] == s[j]
    ensures Count(s', f) == Count(s, f) + (if f(s'[i]) then 1 else 0) - (if f(s[i]) then 1 else 0)
      + if w == -1 then 0 else (if f(s'[w]) then 1 else 0) - (if f(s[w]) then 1 else 0)
  {
    hide Count;
    CountUpdate(s, f, i, s'[i]);
    var mid := s[i := s'[i]];
    if w != -1 {
      CountUpdate(mid, f, w, s'[w]);
      assert s' == mid[w := s'[w]];
    } else {
      assert s' == mid;
    }
  }

  lemma {:induction false} CountNone<T>(s: seq<T>, f: T -> bool)
    ensures Count(s, f) == 0 <==> forall i :: 0 <= i < |s| ==> !f(s[i])
  {
    if s != [] {
      CountNone(s[..|s| - 1], f);
    }
  }
}

/**
 A wait channel as a queue of thread numbers that holds exactly the threads asleep on it.
 */
module WaitChannels {

  ghost predicate Distinct(q: seq<nat>) { forall i, j :: 0 <= i < j < |q| ==> q[i] != q[j] }

  ghost predicate QueueIs<T>(threads: seq<T>, q: seq<nat>, who: T -> bool) {
    && Distinct(q)
    && (forall i :: i in q ==> i < |threads|)
    && (forall i: nat :: i < |threads| ==> (i in q <==> who(threads[i])))
  }

  lemma QueueSame<T>(threads: seq<T>, q: seq<nat>, who: T -> bool, i: nat, t: T)
    requires QueueIs(threads, q, who) && i < |threads| && who(t) == who(threads[i])
    ensures QueueIs(threads[i := t], q, who)
  {
  }

  lemma QueueJoined<T>(threads: seq<T>, q: seq<nat>, who: T -> bool, i: nat, t: T)
    requires QueueIs(threads, q, who) && i < |threads| && who(t) && !who(threads[i])
    ensures QueueIs(threads[i := t], q + [i], who)
  {
  }

  lemma DistinctTail(q: seq<nat>)
    requires Distinct(q) && q != []
    ensures Distinct(q[1..]) && q[0] !in q[1..]
    ensures forall j :: j in q <==> j == q[0] || j in q[1..]
  {
    assert q == [q[0]] + q[1..];
    forall j | 0 <= j < |q[1..]| ensures q[1..][j] == q[j + 1] && q[j + 1] != q[0] {}
  }

  lemma QueueLeft<T>(threads: seq<T>, q: seq<nat>, who: T -> bool, t: T)
    requires QueueIs(threads, q, who) && q != [] && !who(t)
    ensures q[0] < |threads| && QueueIs(threads[q[0] := t], q[1..], who)
  {
    assert q[0] in q;
    DistinctTail(q);
    forall j: nat | j in q[1..] ensures j < |threads| { assert j in q; }
    forall j: nat | j < |threads| ensures j in q[1..] <==> who(threads[q[0] := t][j]) {
      assert j in q <==> j == q[0] || j in q[1..];
    }
  }

  /** Who was at position `k` of a queue, and has moved up `n` places, moves up when the first leaves. */
  lemma Nearer(q0: seq<nat>, q: seq<nat>, q': seq<nat>, n: nat, left: bool, k: nat)
    requires k < |q0| && n + (if left then 1 else 0) <= k
    requires k - n < |q| && q[k - n] == q0[k]
    requires if left then q != [] && q' == q[1..] else q <= q'
    ensures var m := n + if left then 1 else 0; k - m < |q'| && q'[k - m] == q0[k]
  {
  }
}
