// The intrusive lists of rtservice.h on a real heap: rt_list_* (a ring through a head node)
// and rt_slist_* (a null-terminated chain behind a head node). Each operation is proved
// against a sequence of nodes; what its modifies clause does not name stays as it was.
module IntrusiveLists {

  // ----- Doubly linked rings -----------------------------------------------------------------

  class ListNode {
    var next: ListNode
    var prev: ListNode

    // rt_list_init: a node linked to itself.
    constructor ()
      ensures Ring([this])
    {
      next := this;
      prev := this;
    }
  }

  ghost predicate Distinct<T>(r: seq<T>) {
    forall i, j :: 0 <= i < j < |r| ==> r[i] != r[j]
  }

  // The nodes of r, in this order and no others, form a ring: r[0] is the list head and
  // r[1..] the contents.
  ghost predicate Ring(r: seq<ListNode>)
    reads r
  {
    && |r| > 0 && Distinct(r)
    && (forall i :: 0 <= i < |r| - 1 ==> r[i].next == r[i + 1])
    && (forall i :: 0 < i < |r| ==> r[i].prev == r[i - 1])
    && r[|r| - 1].next == r[0] && r[0].prev == r[|r| - 1]
  }

  function InsertAt<T>(r: seq<T>, k: nat, n: T): seq<T>
    requires k <= |r|
  {
    r[..k] + [n] + r[k..]
  }

  function DeleteAt<T>(r: seq<T>, k: nat): seq<T>
    requires k < |r|
  {
    r[..k] + r[k + 1..]
  }

  method InsertAfter(l: ListNode, n: ListNode, ghost r: seq<ListNode>, ghost k: nat)
    requires Ring(r) && k < |r| && r[k] == l && n !in r
    modifies l`next, l.next`prev, n
    ensures Ring(InsertAt(r, k + 1, n))
  {
    assert l.next == if k + 1 < |r| then r[k + 1] else r[0];
    l.next.prev := n;
    n.next := l.next;
    l.next := n;
    n.prev := l;
  }

  // Inserting before the list head puts n at the tail.
  method InsertBefore(l: ListNode, n: ListNode, ghost r: seq<ListNode>, ghost k: nat)
    requires Ring(r) && k < |r| && r[k] == l && n !in r
    modifies l`prev, l.prev`next, n
    ensures Ring(InsertAt(r, if k == 0 then |r| else k, n))
  {
    assert l.prev == if k > 0 then r[k - 1] else r[|r| - 1];
    l.prev.next := n;
    n.prev := l.prev;
    l.prev := n;
    n.next := l;
  }

  // The removed node is left linked to itself, so removing it again does nothing.
  method Remove(n: ListNode, ghost r: seq<ListNode>, ghost k: nat)
    requires Ring(r) && k < |r| && r[k] == n
    modifies n, n.next`prev, n.prev`next
    ensures Ring([n])
    ensures |r| > 1 ==> Ring(DeleteAt(r, k))
  {
    assert n.next == if k + 1 < |r| then r[k + 1] else r[0];
    assert n.prev == if k > 0 then r[k - 1] else r[|r| - 1];
    n.next.prev := n.prev;
    n.prev.next := n.next;
    n.prev := n;
    n.next := n;
  }

  method IsEmpty(l: ListNode, ghost r: seq<ListNode>) returns (empty: bool)
    requires Ring(r) && r[0] == l
    ensures empty <==> r[1..] == []
  {
    empty := l.next == l;
    assert |r| > 1 ==> l.next == r[1];
  }

  method Len(l: ListNode, ghost r: seq<ListNode>) returns (len: nat)
    requires Ring(r) && r[0] == l
    ensures len == |r[1..]|
  {
    len := 0;
    var p := l;
    while p.next != l
      invariant len < |r| && p == r[len]
      invariant p.next == if len + 1 < |r| then r[len + 1] else l
      decreases |r| - len
    {
      p := p.next;
      len := len + 1;
    }
  }

  function Without<T(==)>(q: seq<T>, drop: set<T>): seq<T> {
    if q == [] then []
    else (if q[0] in drop then [] else [q[0]]) + Without(q[1..], drop)
  }

  lemma {:induction false} WithoutSnoc<T>(q: seq<T>, x: T, drop: set<T>)
    ensures Without(q + [x], drop) == Without(q, drop) + (if x in drop then [] else [x])
  {
    if q == [] {
      assert [] + [x] == [x];
    } else {
      WithoutSnoc(q[1..], x, drop);
      assert (q + [x])[1..] == q[1..] + [x];
    }
  }

  ghost predicate SelfLinked(n: ListNode)
    reads n
  {
    n.next == n && n.prev == n
  }

  // The loop body: drop the current node or leave it.
  method VisitOne(pos: ListNode, drop: set<ListNode>, ghost before: seq<ListNode>, ghost rest: seq<ListNode>)
    requires |before| > 0 && Ring(before + [pos] + rest)
    modifies pos, pos.next`prev, pos.prev`next
    ensures pos in drop ==> Ring(before + rest) && SelfLinked(pos)
    ensures pos !in drop ==> Ring(before + [pos] + rest)
  {
    if pos in drop {
      ghost var ring := before + [pos] + rest;
      assert ring[|before|] == pos;
      Remove(pos, ring, |before|);
      assert DeleteAt(ring, |before|) == before + rest;
    }
  }

  lemma RingNext(before: seq<ListNode>, pos: ListNode, rest: seq<ListNode>)
    requires |before| > 0 && Ring(before + [pos] + rest)
    ensures pos.next == (if rest == [] then before[0] else rest[0])
    ensures pos !in before && pos !in rest
    ensures pos.prev in before && (pos.next in rest || pos.next in before)
  {
    var ring := before + [pos] + rest;
    assert ring[|before|] == pos && ring[0] == before[0] && ring[|before| - 1] == before[|before| - 1];
    if rest != [] { assert ring[|before| + 1] == rest[0]; }
    forall i | 0 <= i < |before| ensures before[i] != pos { assert ring[i] == before[i]; }
    forall i | 0 <= i < |rest| ensures rest[i] != pos { assert ring[|before| + 1 + i] == rest[i]; }
  }

  // The nodes of `drop` that have been visited are out of the ring and linked to themselves.
  ghost predicate Dropped(visited: seq<ListNode>, drop: set<ListNode>, before: seq<ListNode>, rest: seq<ListNode>)
    reads visited
  {
    forall x :: x in visited && x in drop ==> x !in before && x !in rest && SelfLinked(x)
  }

  // One turn of the loop, `pos = n, n = pos->next` included.
  method Turn(head: ListNode, pos: ListNode, n: ListNode, drop: set<ListNode>, ghost visited: seq<ListNode>,
              ghost before: seq<ListNode>, ghost rest: seq<ListNode>)
    returns (pos': ListNode, n': ListNode, ghost before': seq<ListNode>)
    requires |before| > 0 && before[0] == head && Ring(before + [pos] + rest)
    requires n == pos.next
    requires Dropped(visited, drop, before, [pos] + rest)
    modifies pos, pos.next`prev, pos.prev`next
    ensures before' == before + (if pos in drop then [] else [pos])
    ensures Ring(before' + rest)
    ensures pos' == (if rest == [] then head else rest[0]) && n' == pos'.next
    ensures Dropped(visited + [pos], drop, before', rest)
  {
    RingNext(before, pos, rest);
    VisitOne(pos, drop, before, rest);
    before' := if pos in drop then before else before + [pos];
    pos', n' := n, n.next;
    forall x | x in visited + [pos] && x in drop
      ensures x !in before' && x !in rest && SelfLinked(x)
    {
      if x in visited { assert x !in before && x !in [pos] + rest; }
    }
  }

  lemma HeadIsApart(before: seq<ListNode>, rest: seq<ListNode>)
    requires |before| > 0 && Ring(before + rest)
    ensures rest != [] ==> rest[0] != before[0]
  {
    var ring := before + rest;
    if rest != [] { assert ring[0] == before[0] && ring[|before|] == rest[0]; }
  }

  // How the visited part, the remaining ring and the rest of the traversal fit together.
  ghost predicate Traversal(q: seq<ListNode>, head: ListNode, drop: set<ListNode>,
                            visited: seq<ListNode>, before: seq<ListNode>, rest: seq<ListNode>)
  {
    && visited + rest == q
    && before == [head] + Without(visited, drop)
    && (forall x :: x in before ==> x == head || x in visited)
  }

  lemma TraversalTurn(q: seq<ListNode>, head: ListNode, drop: set<ListNode>,
                      visited: seq<ListNode>, before: seq<ListNode>, rest: seq<ListNode>)
    requires Traversal(q, head, drop, visited, before, rest) && rest != []
    ensures var pos := rest[0];
      && before + rest == before + [pos] + rest[1..]
      && rest == [pos] + rest[1..]
      && Traversal(q, head, drop, visited + [pos], before + (if pos in drop then [] else [pos]), rest[1..])
  {
    WithoutSnoc(visited, rest[0], drop);
  }

  lemma TraversalWithin(r: seq<ListNode>, drop: set<ListNode>, visited: seq<ListNode>,
                        before: seq<ListNode>, rest: seq<ListNode>, x: ListNode)
    requires |r| > 0 && Traversal(r[1..], r[0], drop, visited, before, rest)
    requires x in before || x in rest
    ensures x in r
  {
    assert forall y :: y in visited + rest ==> y in r[1..];
    assert forall y :: y in r[1..] ==> y in r;
  }

  // rt_list_for_each_safe with a body that removes the current node when it is in `drop`:
  // every original node is visited once, in order, and exactly the nodes of `drop` are gone.
  method ForEachSafe(head: ListNode, drop: set<ListNode>, ghost r: seq<ListNode>)
    returns (visited: seq<ListNode>)
    requires Ring(r) && r[0] == head
    modifies r
    ensures visited == r[1..]
    ensures Ring([head] + Without(r[1..], drop))
    ensures forall x :: x in r[1..] && x in drop ==> SelfLinked(x)
  {
    visited := [];
    var pos, n := head.next, head.next.next;
    ghost var before, rest := [head], r[1..];
    assert r == before + rest;
    assert |r| > 1 ==> head.next == r[1];
    while pos != head
      invariant Traversal(r[1..], head, drop, visited, before, rest)
      invariant Ring(before + rest)
      invariant pos == (if rest == [] then head else rest[0]) && n == pos.next
      invariant Dropped(visited, drop, before, rest)
      decreases |rest|
    {
      TraversalTurn(r[1..], head, drop, visited, before, rest);
      RingNext(before, pos, rest[1..]);
      TraversalWithin(r, drop, visited, before, rest, pos);
      TraversalWithin(r, drop, visited, before, rest, pos.next);
      TraversalWithin(r, drop, visited, before, rest, pos.prev);
      var was := pos;
      pos, n, before := Turn(head, pos, n, drop, visited, before, rest[1..]);
      visited, rest := visited + [was], rest[1..];
    }
    HeadIsApart(before, rest);
    assert before + rest == before && visited == r[1..];
  }

  // ----- Singly linked lists --------------------------------------------------------------------

  class SlistNode {
    var next: SlistNode?

    constructor ()
      ensures Linked([this])
    {
      next := null;
    }
  }

  // r[0] is the list head, r[1..] the contents, and the last node points to null.
  ghost predicate Linked(r: seq<SlistNode>)
    reads r
  {
    && |r| > 0 && Distinct(r)
    && (forall i :: 0 <= i < |r| - 1 ==> r[i].next == r[i + 1])
    && r[|r| - 1].next == null
  }

  method Append(l: SlistNode, n: SlistNode, ghost r: seq<SlistNode>)
    requires Linked(r) && r[0] == l && n !in r
    modifies r[|r| - 1], n
    ensures Linked(r + [n])
  {
    var node := l;
    ghost var i := 0;
    while node.next != null
      invariant 0 <= i < |r| && node == r[i]
      invariant node.next == if i + 1 < |r| then r[i + 1] else null
      decreases |r| - i
    {
      node := node.next;
      i := i + 1;
    }
    node.next := n;
    n.next := null;
  }

  method Insert(l: SlistNode, n: SlistNode, ghost r: seq<SlistNode>)
    requires Linked(r) && r[0] == l && n !in r
    modifies l, n
    ensures Linked(InsertAt(r, 1, n))
  {
    n.next := l.next;
    l.next := n;
  }

  method SlistLen(l: SlistNode, ghost r: seq<SlistNode>) returns (len: nat)
    requires Linked(r) && r[0] == l
    ensures len == |r[1..]|
  {
    len := 0;
    var list := l.next;
    while list != null
      invariant len < |r|
      invariant list == if len + 1 < |r| then r[len + 1] else null
      decreases |r| - len
    {
      list := list.next;
      len := len + 1;
    }
  }

  method Pop(l: SlistNode, ghost r: seq<SlistNode>) returns (node: SlistNode?)
    requires Linked(r) && r[0] == l
    modifies l
    ensures |r| == 1 ==> node == null && Linked(r)
    ensures |r| > 1 ==> node == r[1] && Linked(DeleteAt(r, 1))
  {
    node := l.next;
    if node != null {
      l.next := node.next;
    }
  }

  // rt_slist_remove: takes n out wherever it is, and does nothing when it is absent. The
  // removed node keeps its own link.
  method SlistRemove(l: SlistNode, n: SlistNode, ghost r: seq<SlistNode>) returns (res: SlistNode)
    requires Linked(r) && r[0] == l
    modifies r
    ensures res == l
    ensures n !in r[1..] ==> Linked(r) && forall x :: x in r ==> x.next == old(x.next)
    ensures forall k :: 0 < k < |r| && r[k] == n ==> Linked(DeleteAt(r, k))
    ensures n.next == old(n.next)
  {
    var node := l;
    ghost var i := 0;
    while node.next != null && node.next != n
      invariant 0 <= i < |r| && node == r[i]
      invariant node.next == if i + 1 < |r| then r[i + 1] else null
      invariant forall j :: 0 < j <= i ==> r[j] != n
      decreases |r| - i
    {
      node := node.next;
      i := i + 1;
    }
    if node.next != null {
      assert r[i + 1] == n;
      assert i + 2 < |r| ==> n.next == r[i + 2];
      node.next := node.next.next;
      assert Linked(DeleteAt(r, i + 1));
    }
    res := l;
  }

  method Tail(l: SlistNode, ghost r: seq<SlistNode>) returns (t: SlistNode)
    requires Linked(r) && r[0] == l
    ensures t == r[|r| - 1]
  {
    t := l;
    ghost var i := 0;
    while t.next != null
      invariant 0 <= i < |r| && t == r[i]
      invariant t.next == if i + 1 < |r| then r[i + 1] else null
      decreases |r| - i
    {
      t := t.next;
      i := i + 1;
    }
  }
}
