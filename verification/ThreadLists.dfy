/**
 The doubly linked list of threads under every run queue and wait channel. Two nodes that are no
 threads are always on the list, one at either end.
 */
module ThreadLists {

  /** A thread's list node; `isThread` says that tln_self is not null. */
  class Node {
    var prev: Node?
    var next: Node?
    const isThread: bool

    constructor (isThread: bool)
      ensures prev == null && next == null && this.isThread == isThread
    {
      this.isThread := isThread;
      prev, next := null, null;
    }
  }

  function Reversed<T>(s: seq<T>): seq<T> { if s == [] then [] else Reversed(s[1..]) + [s[0]] }

  lemma Without<T>(s: seq<T>, i: nat)
    requires i < |s| && forall j, k :: 0 <= j < k < |s| ==> s[j] != s[k]
    ensures forall x :: x in s[..i] + s[i + 1..] <==> x in s && x != s[i]
  {
    forall x | x in s && x != s[i] ensures x in s[..i] + s[i + 1..] {
      var k :| 0 <= k < |s| && s[k] == x;
      if k < i { assert s[..i][k] == x; } else { assert s[i + 1..][k - i - 1] == x; }
    }
  }

  function Inner<T>(c: seq<T>): seq<T>
    requires |c| >= 2
  {
    c[1..|c| - 1]
  }

  lemma InnerInserted<T>(c: seq<T>, i: nat, x: T)
    requires |c| >= 2 && 1 <= i < |c|
    ensures Inner(c[..i] + [x] + c[i..]) == Inner(c)[..i - 1] + [x] + Inner(c)[i - 1..]
    ensures Inner(c)[..0] == [] && Inner(c)[0..] == Inner(c)[..|c| - 2] == Inner(c) && Inner(c)[|c| - 2..] == []
  {
  }

  lemma InnerRemoved<T>(c: seq<T>, i: nat)
    requires 1 <= i < |c| - 1
    ensures Inner(c[..i] + c[i + 1..]) == Inner(c)[..i - 1] + Inner(c)[i..] && Inner(c)[i - 1] == c[i]
    ensures Inner(c) == Inner(c)[..i - 1] + [c[i]] + Inner(c)[i..]
    ensures Inner(c)[..0] == [] && Inner(c)[|c| - 2..] == []
  {
  }

  class ThreadList {
    const head: Node
    const tail: Node
    var count: nat
    ghost var chain: seq<Node>

    ghost function Nodes(): set<Node>
      reads this
    {
      set n | n in chain
    }

    /** The nodes from head to tail are distinct, and linked both ways; those in between are threads. */
    ghost predicate Valid()
      reads this, Nodes()
    {
      && |chain| >= 2 && Linked(chain)
      && chain[0] == head && chain[|chain| - 1] == tail && !head.isThread && !tail.isThread
      && (forall n :: n in Contents() ==> n.isThread)
      && count == |chain| - 2
    }

    static ghost predicate Linked(c: seq<Node>)
      reads c
    {
      && |c| >= 2
      && (forall i, j :: 0 <= i < j < |c| ==> c[i] != c[j])
      && (forall i :: 0 <= i < |c| - 1 ==> c[i].next == c[i + 1])
      && (forall i :: 0 < i < |c| ==> c[i].prev == c[i - 1])
      && c[0].prev == null && c[|c| - 1].next == null
    }

    ghost function Contents(): seq<Node>
      reads this
      requires |chain| >= 2
    {
      Inner(chain)
    }

    constructor ()
      ensures Valid() && Contents() == [] && fresh(Nodes())
    {
      var h := new Node(false);
      var t := new Node(false);
      head, tail, count, chain := h, t, 0, [h, t];
      new;
      h.next := t;
      t.prev := h;
    }

    method IsEmpty() returns (b: bool)
      requires Valid()
      ensures b <==> Contents() == []
    {
      b := count == 0;
    }

    /** Puts a node that is on no list after the one at position `i`. */
    method InsertAfterNode(ghost i: nat, onlist: Node, addee: Node)
      requires Linked(chain) && i < |chain| - 1 && chain[i] == onlist
      requires addee !in Nodes() && addee.prev == null && addee.next == null
      modifies this`chain, Nodes(), addee
      ensures chain == old(chain)[..i + 1] + [addee] + old(chain)[i + 1..] && Linked(chain)
    {
      assert chain[i].next == chain[i + 1] && chain[i + 1] in chain;
      var after := onlist.next;
      addee.prev := onlist;
      addee.next := after;
      onlist.next := addee;
      after.prev := addee;
      chain := chain[..i + 1] + [addee] + chain[i + 1..];
    }

    /** Puts a node that is on no list before the one at position `i`. */
    method InsertBeforeNode(addee: Node, ghost i: nat, onlist: Node)
      requires Linked(chain) && 0 < i < |chain| && chain[i] == onlist
      requires addee !in Nodes() && addee.prev == null && addee.next == null
      modifies this`chain, Nodes(), addee
      ensures chain == old(chain)[..i] + [addee] + old(chain)[i..] && Linked(chain)
    {
      assert chain[i].prev == chain[i - 1] && chain[i - 1] in chain;
      var before := onlist.prev;
      addee.prev := before;
      addee.next := onlist;
      before.next := addee;
      onlist.prev := addee;
      chain := chain[..i] + [addee] + chain[i..];
    }

    method RemoveNode(ghost i: nat, node: Node)
      requires Linked(chain) && 0 < i < |chain| - 1 && chain[i] == node
      modifies this`chain, Nodes()
      ensures chain == old(chain)[..i] + old(chain)[i + 1..] && Linked(chain)
      ensures node.prev == null && node.next == null
      ensures Nodes() == old(Nodes()) - {node}
    {
      assert chain[i].prev == chain[i - 1] && chain[i].next == chain[i + 1];
      assert chain[i - 1] in chain && chain[i + 1] in chain;
      var before, after := node.prev, node.next;
      before.next := after;
      after.prev := before;
      node.prev := null;
      node.next := null;
      Without(chain, i);
      chain := chain[..i] + chain[i + 1..];
    }

    method AddHead(t: Node)
      requires Valid() && t !in Nodes() && t.prev == null && t.next == null && t.isThread
      modifies this, Nodes(), t
      ensures Valid() && Contents() == [t] + old(Contents())
      ensures Nodes() == old(Nodes()) + {t}
    {
      InnerInserted(chain, 1, t);
      assert chain[0] == head && |chain| >= 2;
      hide Linked, Inner;
      InsertAfterNode(0, head, t);
      count := count + 1;
    }

    method AddTail(t: Node)
      requires Valid() && t !in Nodes() && t.prev == null && t.next == null && t.isThread
      modifies this, Nodes(), t
      ensures Valid() && Contents() == old(Contents()) + [t]
      ensures Nodes() == old(Nodes()) + {t}
    {
      InnerInserted(chain, |chain| - 1, t);
      hide Linked, Inner;
      InsertBeforeNode(t, |chain| - 1, tail);
      count := count + 1;
    }

    method RemHead() returns (t: Node?)
      requires Valid()
      modifies this, Nodes()
      ensures Valid() && (t == null <==> old(Contents()) == [])
      ensures t == null ==> Contents() == []
      ensures t != null ==> old(Contents()) == [t] + Contents() && t.prev == null && t.next == null && t.isThread
      ensures t != null ==> t in old(Nodes())
      ensures Nodes() == old(Nodes()) - {t}
    {
      assert chain[0].next == chain[1] && (|chain| > 2 ==> chain[1].next == chain[2]);
      t := head.next;
      if t.next == null {
        return null;
      }
      InnerRemoved(chain, 1);
      hide Linked, Inner;
      RemoveNode(1, t);
      count := count - 1;
    }

    method RemTail() returns (t: Node?)
      requires Valid()
      modifies this, Nodes()
      ensures Valid() && (t == null <==> old(Contents()) == [])
      ensures t == null ==> Contents() == []
      ensures t != null ==> old(Contents()) == Contents() + [t] && t.prev == null && t.next == null && t.isThread
      ensures t != null ==> t in old(Nodes())
      ensures Nodes() == old(Nodes()) - {t}
    {
      ghost var n := |chain|;
      assert chain[n - 1].prev == chain[n - 2] && (n > 2 ==> chain[n - 2].prev == chain[n - 3]);
      t := tail.prev;
      if t.prev == null {
        return null;
      }
      InnerRemoved(chain, |chain| - 2);
      hide Linked, Inner;
      RemoveNode(|chain| - 2, t);
      count := count - 1;
    }

    /** Inserts next to a thread that is on the list at position `i` of its contents. */
    method InsertAfter(ghost i: nat, onlist: Node, addee: Node)
      requires Valid() && i < |Contents()| && Contents()[i] == onlist
      requires addee !in Nodes() && addee.prev == null && addee.next == null && addee.isThread
      modifies this, Nodes(), addee
      ensures Valid() && Contents() == old(Contents())[..i + 1] + [addee] + old(Contents())[i + 1..]
    {
      InnerInserted(chain, i + 2, addee);
      hide Linked, Inner;
      InsertAfterNode(i + 1, onlist, addee);
      count := count + 1;
    }

    method InsertBefore(addee: Node, ghost i: nat, onlist: Node)
      requires Valid() && i < |Contents()| && Contents()[i] == onlist
      requires addee !in Nodes() && addee.prev == null && addee.next == null && addee.isThread
      modifies this, Nodes(), addee
      ensures Valid() && Contents() == old(Contents())[..i] + [addee] + old(Contents())[i..]
    {
      InnerInserted(chain, i + 1, addee);
      hide Linked, Inner;
      InsertBeforeNode(addee, i + 1, onlist);
      count := count + 1;
    }

    method Remove(ghost i: nat, t: Node)
      requires Valid() && i < |Contents()| && Contents()[i] == t
      modifies this, Nodes()
      ensures Valid() && Contents() == old(Contents())[..i] + old(Contents())[i + 1..]
      ensures t.prev == null && t.next == null
    {
      InnerRemoved(chain, i + 1);
      hide Linked, Inner;
      RemoveNode(i + 1, t);
      count := count - 1;
    }

    /** The loop of THREADLIST_FORALL: it meets every thread once, in order. */
    method ForAll() returns (met: seq<Node>)
      requires Valid()
      ensures met == Contents()
    {
      met := [];
      var node := head.next;
      ghost var k := 1;
      while node.isThread
        invariant 1 <= k < |chain| && node == chain[k] && met == chain[1..k]
        decreases |chain| - k
      {
        met := met + [node];
        node := node.next;
        k := k + 1;
      }
    }

    /** The loop of THREADLIST_FORALL_REV: the same threads the other way round. */
    method ForAllReverse() returns (met: seq<Node>)
      requires Valid()
      ensures met == Reversed(Contents())
    {
      met := [];
      var node := tail.prev;
      ghost var k := |chain| - 2;
      while node.isThread
        invariant 0 <= k < |chain| - 1 && node == chain[k] && Reversed(chain[k + 1..|chain| - 1]) == met
        decreases k
      {
        assert chain[k..|chain| - 1] == [chain[k]] + chain[k + 1..|chain| - 1];
        met := met + [node];
        node := node.prev;
        k := k - 1;
      }
    }
  }

  /** The first loop of wchan_wakeall: every thread of the channel goes to a private list. */
  method PullAll(channel: ThreadList, list: ThreadList)
    requires channel.Valid() && list.Valid() && channel != list
    requires channel.Nodes() !! list.Nodes()
    modifies channel, list, channel.Nodes(), list.Nodes()
    ensures channel.Valid() && list.Valid() && channel.Contents() == []
    ensures list.Contents() == old(list.Contents()) + old(channel.Contents())
    ensures channel.Nodes() <= old(channel.Nodes()) && channel.Nodes() !! list.Nodes()
    ensures list.Nodes() <= old(list.Nodes()) + old(channel.Nodes())
  {
    hide ThreadList.Linked, Inner;
    var target := channel.RemHead();
    while target != null
      invariant channel.Valid() && list.Valid()
      invariant old(list.Contents()) + old(channel.Contents()) ==
                list.Contents() + (if target == null then [] else [target]) + channel.Contents()
      invariant channel.Nodes() <= old(channel.Nodes()) && channel.Nodes() !! list.Nodes()
      invariant list.Nodes() <= old(list.Nodes()) + old(channel.Nodes())
      invariant target != null ==> target !in list.Nodes() && target !in channel.Nodes()
      invariant target != null ==> target in old(channel.Nodes())
      invariant target != null ==> target.isThread && target.prev == null && target.next == null
      invariant target == null ==> channel.Contents() == []
      decreases |channel.Contents()|, target
    {
      list.AddTail(target);
      target := channel.RemHead();
    }
  }

  /** The second: the private list is emptied, and its threads made runnable in order. */
  method RunAll(list: ThreadList) returns (woken: seq<Node>)
    requires list.Valid()
    modifies list, list.Nodes()
    ensures list.Valid() && list.Contents() == []
    ensures woken == old(list.Contents())
  {
    hide ThreadList.Linked, Inner;
    woken := [];
    var target := list.RemHead();
    while target != null
      invariant list.Valid() && list.Nodes() <= old(list.Nodes())
      invariant old(list.Contents()) == woken + (if target == null then [] else [target]) + list.Contents()
      invariant target == null ==> list.Contents() == []
      decreases |list.Contents()|, target
    {
      woken := woken + [target];
      target := list.RemHead();
    }
  }

  /** wchan_wakeall wakes every thread on the channel, in the order in which they went to sleep. */
  method WakeAll(channel: ThreadList) returns (woken: seq<Node>)
    requires channel.Valid()
    modifies channel, channel.Nodes()
    ensures channel.Valid() && channel.Contents() == []
    ensures woken == old(channel.Contents())
  {
    hide ThreadList.Linked, Inner;
    var list := new ThreadList();
    PullAll(channel, list);
    woken := RunAll(list);
  }
}
