/**
 Singly linked lists laid out in memory. `next` gives the successor of each cell, `nil` ends a
 list; `s` is the sequence of cells from `head` on.
 */
module LinkedLists {

  ghost predicate IsList(next: map<int, int>, nil: int, head: int, s: seq<int>)
    decreases |s|
  {
    if s == [] then head == nil
    else head == s[0] && head != nil && head in next && IsList(next, nil, next[head], s[1..])
  }

  /** The cell at position `k`, or the end. */
  function At(nil: int, s: seq<int>, k: nat): int {
    if k < |s| then s[k] else nil
  }

  lemma {:induction false} ListAt(next: map<int, int>, nil: int, head: int, s: seq<int>, k: nat)
    requires IsList(next, nil, head, s) && k <= |s|
    ensures IsList(next, nil, At(nil, s, k), s[k..])
    ensures k < |s| ==> s[k] != nil && s[k] in next && next[s[k]] == At(nil, s, k + 1)
    decreases |s|
  {
    if k == 0 {
      assert s[0..] == s;
    } else {
      ListAt(next, nil, next[head], s[1..], k - 1);
      assert s[1..][k - 1..] == s[k..];
    }
  }

  /** Memory determines the list. */
  lemma {:induction false} ListUnique(next: map<int, int>, nil: int, head: int, s: seq<int>, t: seq<int>)
    requires IsList(next, nil, head, s) && IsList(next, nil, head, t)
    ensures s == t
    decreases |s|
  {
    if s != [] && t != [] {
      ListUnique(next, nil, next[head], s[1..], t[1..]);
      assert s == [s[0]] + s[1..] && t == [t[0]] + t[1..];
    }
  }

  /** A list that ends does not meet a cell twice. */
  lemma ListDistinct(next: map<int, int>, nil: int, head: int, s: seq<int>, i: nat, j: nat)
    requires IsList(next, nil, head, s) && i < j < |s|
    ensures s[i] != s[j]
  {
    if s[i] == s[j] {
      ListAt(next, nil, head, s, i);
      ListAt(next, nil, head, s, j);
      ListUnique(next, nil, s[i], s[i..], s[j..]);
    }
  }

  lemma {:induction false} ListFrame(next: map<int, int>, next': map<int, int>, nil: int, head: int, s: seq<int>)
    requires IsList(next, nil, head, s)
    requires forall x :: x in s && x in next ==> x in next' && next'[x] == next[x]
    ensures IsList(next', nil, head, s)
    decreases |s|
  {
    if s != [] {
      ListFrame(next, next', nil, next[head], s[1..]);
    }
  }

  lemma ListPush(next: map<int, int>, nil: int, head: int, s: seq<int>, x: int)
    requires IsList(next, nil, head, s) && x !in s && x != nil
    ensures IsList(next[x := head], nil, x, [x] + s)
  {
    ListFrame(next, next[x := head], nil, head, s);
    assert ([x] + s)[1..] == s;
  }

  /** Unlinking the cell at position `k`. */
  lemma {:induction false} ListRemove(next: map<int, int>, nil: int, head: int, s: seq<int>, k: nat)
    requires IsList(next, nil, head, s) && k < |s|
    ensures s[k] in next && (k > 0 ==> s[k - 1] in next)
    ensures k == 0 ==> IsList(next, nil, next[s[k]], s[1..])
    ensures k > 0 ==> IsList(next[s[k - 1] := next[s[k]]], nil, head, s[..k] + s[k + 1..])
    decreases |s|
  {
    ListAt(next, nil, head, s, k);
    if k > 0 {
      ListAt(next, nil, head, s, k - 1);
      var next' := next[s[k - 1] := next[s[k]]];
      var rest := s[1..];
      forall j | 0 < j < |s| ensures s[j] != s[0] { ListDistinct(next, nil, head, s, 0, j); }
      if k == 1 {
        assert s[..1] + s[2..] == [s[0]] + s[2..];
        ListAt(next, nil, head, s, 2);
        ListFrame(next, next', nil, At(nil, s, 2), s[2..]);
        assert ([s[0]] + s[2..])[1..] == s[2..];
      } else {
        ListRemove(next, nil, next[head], rest, k - 1);
        assert (s[..k] + s[k + 1..])[1..] == rest[..k - 1] + rest[k..];
        assert (s[..k] + s[k + 1..])[0] == s[0];
      }
    }
  }

  lemma {:induction false} ListCount(next: map<int, int>, nil: int, head: int, s: seq<int>)
    requires IsList(next, nil, head, s)
    ensures |set x | x in s| == |s|
    decreases |s|
  {
    if s != [] {
      ListCount(next, nil, next[head], s[1..]);
      forall j | 0 < j < |s| ensures s[j] != s[0] { ListDistinct(next, nil, head, s, 0, j); }
      assert (set x | x in s) == {s[0]} + (set x | x in s[1..]);
      assert s[0] !in s[1..];
    }
  }
}
