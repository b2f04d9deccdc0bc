/**
 The buffer's list, as the queue it is used as: appending at the tail, which walks the whole list,
 and removing at the head. Appending leaves the back links of nodes unset and prepending sets
 them, so only the chain of forward links is relied on.
 */
module LinkedQueues {

  class Node<T> {
    var prev: Node?<T>
    var next: Node?<T>
    const key: int
    const data: T

    constructor (key: int, data: T)
      ensures this.key == key && this.data == data && prev == null && next == null
    {
      this.key, this.data := key, data;
      prev, next := null, null;
    }
  }

  datatype Removed<T> = Nothing | Item(key: int, data: T)

  class LinkedList<T> {
    var first: Node?<T>
    var last: Node?<T>
    var length: int
    ghost var chain: seq<Node<T>>
    ghost var freed: set<Node<T>>

    ghost function Nodes(): set<Node<T>>
      reads this
    {
      set n | n in chain
    }

    ghost predicate Valid()
      reads this, Nodes()
    {
      && Forward(chain)
      && Back(chain)
      && length == |chain|
      && first == (if chain == [] then null else chain[0])
      && last == (if chain == [] then null else chain[|chain| - 1])
      && freed !! Nodes()
    }

    /** Distinct nodes, each linked to the one after it, with consecutive keys. */
    static ghost predicate Forward(c: seq<Node<T>>)
      reads c
    {
      && (forall i, j :: 0 <= i < j < |c| ==> c[i] != c[j])
      && (forall i :: 0 <= i < |c| - 1 ==> c[i].next == c[i + 1])
      && (c != [] ==> c[|c| - 1].next == null)
      && (forall i :: 0 <= i < |c| ==> c[i].key == c[0].key + i)
    }

    /** A back link is unset or right. */
    static ghost predicate Back(c: seq<Node<T>>)
      reads c
    {
      && (c != [] ==> c[0].prev == null)
      && forall i :: 0 < i < |c| ==> c[i].prev == null || c[i].prev == c[i - 1]
    }

    ghost function Contents(): seq<T>
      reads this, Nodes()
    {
      seq(|chain|, i requires 0 <= i < |chain| reads this => chain[i].data)
    }

    /** Linking a new node behind the last one keeps the chain. */
    static twostate lemma Appended(c: seq<Node<T>>, new n: Node<T>)
      requires c != [] && n !in c && old(Forward(c) && Back(c))
      requires forall i :: 0 <= i < |c| - 1 ==> unchanged(c[i])
      requires c[|c| - 1].prev == old(c[|c| - 1].prev)
      requires c[|c| - 1].next == n && n.next == null && n.prev == null && n.key == c[|c| - 1].key + 1
      ensures Forward(c + [n]) && Back(c + [n])
    {
    }

    /** Linking a new node before the first one. */
    static twostate lemma Prepended(c: seq<Node<T>>, new n: Node<T>)
      requires c != [] && n !in c && old(Forward(c) && Back(c))
      requires forall i :: 0 < i < |c| ==> unchanged(c[i])
      requires c[0].next == old(c[0].next) && c[0].prev == n
      requires n.next == c[0] && n.prev == null && n.key == c[0].key - 1
      ensures Forward([n] + c) && Back([n] + c)
    {
    }

    /** Unlinking the first node of several. */
    static twostate lemma Dropped(c: seq<Node<T>>)
      requires |c| >= 2 && old(Forward(c) && Back(c))
      requires forall i :: 0 <= i < |c| ==> c[i].next == old(c[i].next)
      requires c[1].prev == null && forall i :: 1 < i < |c| ==> c[i].prev == old(c[i].prev)
      ensures Forward(c[1..]) && Back(c[1..]) && c[0] !in c[1..]
    {
    }

    constructor ()
      ensures Valid() && Contents() == [] && freed == {}
    {
      first, last, length := null, null, 0;
      chain, freed := [], {};
    }

    static lemma Single(n: Node<T>)
      requires n.prev == null && n.next == null
      ensures Forward([n]) && Back([n])
    {
    }

    lemma Distinct()
      requires Valid() && chain != []
      ensures forall i :: 0 <= i < |chain| - 1 ==> chain[i] != chain[|chain| - 1]
      ensures forall i :: 0 < i < |chain| ==> chain[i] != chain[0]
    {
    }

    lemma SecondNode()
      requires Valid() && |chain| >= 2
      ensures chain[0].next == chain[1] && chain[0] != chain[1]
      ensures chain[1].prev == null || chain[1].prev == chain[0]
      ensures forall i :: 1 < i < |chain| ==> chain[i] != chain[1]
    {
    }

    static lemma Empty()
      ensures Forward([]) && Back([])
    {
    }

    /** The runner's walk to the end of the list. */
    method LastNode(start: Node<T>) returns (runner: Node<T>)
      requires Valid() && first == start
      ensures runner == chain[|chain| - 1]
    {
      runner := start;
      ghost var k := 0;
      while runner.next != null
        invariant 0 <= k < |chain| && runner == chain[k]
        invariant k < |chain| - 1 ==> runner.next == chain[k + 1]
        decreases |chain| - k
      {
        runner := runner.next;
        k := k + 1;
      }
    }

    /** Walks to the end and appends there. */
    method Postpend(data: T)
      requires Valid()
      modifies this, Nodes()
      ensures Valid() && freed == old(freed)
      ensures Contents() == old(Contents()) + [data]
      ensures fresh(Nodes() - old(Nodes())) && old(chain) <= chain
      ensures chain[|chain| - 1].key == if old(chain) == [] then 0 else old(chain)[|old(chain)| - 1].key + 1
    {
      if first != null { Distinct(); }
      hide Forward, Back;
      var runner := first;
      if runner == null {
        first := new Node(0, data);
        last := first;
        chain := [first];
        Single(first);
      } else {
        runner := LastNode(runner);
        ghost var before := chain;
        var newnode := new Node(runner.key + 1, data);
        runner.next := newnode;
        last := newnode;
        chain := chain + [newnode];
        Appended(before, newnode);
      }
      length := length + 1;
    }

    method Prepend(data: T)
      requires Valid()
      modifies this, Nodes()
      ensures Valid() && freed == old(freed)
      ensures Contents() == [data] + old(Contents())
      ensures fresh(Nodes() - old(Nodes()))
      ensures chain[0].key == if old(chain) == [] then 0 else old(chain)[0].key - 1
    {
      if first != null { Distinct(); }
      hide Forward, Back;
      if first == null {
        first := new Node(0, data);
        last := first;
        chain := [first];
        Single(first);
      } else {
        var newnode := new Node(first.key - 1, data);
        newnode.next := first;
        first.prev := newnode;
        Prepended(chain, newnode);
        chain := [newnode] + chain;
        first := newnode;
      }
      length := length + 1;
    }

    /** The head with its key, or nothing; memory is freed only if it is off the list. */
    method RemoveHead() returns (r: Removed<T>)
      requires Valid()
      modifies this, Nodes()
      ensures Valid()
      ensures r.Nothing? <==> old(chain) == []
      ensures r.Nothing? ==> chain == [] && freed == old(freed)
      ensures r.Item? ==> chain == old(chain)[1..] && r.key == old(chain)[0].key
      ensures r.Item? ==> old(Contents()) == [r.data] + Contents()
      ensures old(freed) <= freed && freed - old(freed) <= old(Nodes()) - Nodes()
    {
      Empty();
      hide Forward, Back;
      if length == 0 {
        r := Nothing;
      } else if length == 1 {
        r := Item(first.key, first.data);
        first, last, length := null, null, 0;
        chain := [];
      } else {
        r := Item(first.key, first.data);
        SecondNode();
        first := first.next;
        if first.prev != null { freed := freed + {first.prev}; }
        first.prev := null;
        length := length - 1;
        Dropped(chain);
        chain := chain[1..];
      }
    }
  }
}
