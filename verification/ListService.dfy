/** The doubly linked rings of rtservice.h. A list is a ring of nodes; the ghost sequence names them in
    `next` order, starting anywhere. */
module ListService {
  class Node {
    var next: Node
    var prev: Node

    /** rt_list_init on a fresh node. */
    constructor ()
      ensures next == this && prev == this
    {
      next, prev := this, this;
    }
  }

  /** Following `next` visits exactly the nodes of `r`, each once, and returns; `prev` is the inverse. */
  ghost predicate Ring(r: seq<Node>)
    reads r
  {
    && r != []
    && (forall i, j :: 0 <= i < j < |r| ==> r[i] != r[j])
    && (forall i :: 0 <= i < |r| - 1 ==> r[i].next == r[i + 1] && r[i + 1].prev == r[i])
    && r[|r| - 1].next == r[0] && r[0].prev == r[|r| - 1]
  }

  /** A ring may be read from any of its nodes: whichever node leaves, the rest is still a ring. */
  lemma RingRotate(a: seq<Node>, b: seq<Node>)
    requires Ring(a + b)
    ensures Ring(b + a)
  {
    var r, s := a + b, b + a;
    forall i | 0 <= i < |s| ensures s[i] == if i < |b| then r[|a| + i] else r[i - |b|] {
    }
    assert |a| < |r| ==> s[0] == r[|a|];
    assert |a| > 0 && |b| > 0 ==> s[|b| - 1] == r[|r| - 1] && s[|b|] == r[0] && s[|s| - 1] == r[|a| - 1];
    assert a == [] || b == [] ==> s == r;
  }

  lemma RingNext(r: seq<Node>, i: nat)
    requires Ring(r) && i < |r|
    ensures r[i].next == r[if i + 1 == |r| then 0 else i + 1]
    ensures r[i].prev == r[if i == 0 then |r| - 1 else i - 1]
    ensures r[i].next.prev == r[i] && r[i].prev.next == r[i]
  {
    if i > 0 { assert r[i - 1].next == r[i] && r[i].prev == r[i - 1]; }
  }

  /** Two moments at which the same nodes are a ring in the same order: every link is the same. */
  twostate lemma RingLinks(r: seq<Node>)
    requires old(Ring(r)) && Ring(r)
    ensures forall x :: x in r ==> x.next == old(x.next) && x.prev == old(x.prev)
  {
    forall x | x in r ensures x.next == old(x.next) && x.prev == old(x.prev) {
      var i :| 0 <= i < |r| && r[i] == x;
      if i > 0 { assert r[i - 1].next == r[i] && old(r[i - 1].next) == r[i]; }
      if i < |r| - 1 { assert r[i].next == r[i + 1] && old(r[i].next) == r[i + 1]; }
    }
  }

  /** rt_list_init. */
  method Init(l: Node)
    modifies l
    ensures Ring([l])
  {
    l.prev := l;
    l.next := l.prev;
  }

  /** rt_list_insert_after: `n` becomes the node after `l`. */
  method InsertAfter(l: Node, n: Node, ghost rest: seq<Node>)
    requires Ring([l] + rest) && n !in [l] + rest
    modifies l, n, l.next
    ensures Ring([l, n] + rest)
  {
    ghost var r := [l] + rest;
    RingNext(r, 0);
    assert l.next == if rest == [] then l else rest[0];
    l.next.prev := n;
    n.next := l.next;
    l.next := n;
    n.prev := l;
    ghost var s := [l, n] + rest;
    assert forall i :: 2 <= i < |s| ==> s[i] == r[i - 1];
  }

  /** rt_list_insert_before: `n` becomes the node before `l`, the last one of the ring read from `l`. */
  method InsertBefore(l: Node, n: Node, ghost rest: seq<Node>)
    requires Ring([l] + rest) && n !in [l] + rest
    modifies l, n, l.prev
    ensures Ring([l] + rest + [n])
  {
    ghost var r := [l] + rest;
    assert l.prev == r[|r| - 1];
    l.prev.next := n;
    n.prev := l.prev;
    l.prev := n;
    n.next := l;
    ghost var s := [l] + rest + [n];
    assert forall i :: 0 <= i < |r| ==> s[i] == r[i];
  }

  /** rt_list_remove: the other nodes keep their ring, here read from the one after `n`, and `n` is a
      ring of its own. */
  method Remove(n: Node, ghost rest: seq<Node>)
    requires Ring([n] + rest)
    modifies n, n.next, n.prev
    ensures Ring([n])
    ensures rest != [] ==> Ring(rest)
  {
    ghost var r := [n] + rest;
    RingNext(r, 0);
    assert forall i :: 0 <= i < |rest| ==> rest[i] == r[i + 1];
    n.next.prev := n.prev;
    n.prev.next := n.next;
    n.prev := n;
    n.next := n.prev;
  }

  /** Removing the node that was just inserted gives every link its old value; the node, which may have held
      any links before, is a ring of its own. */
  method InsertAfterRemove(l: Node, n: Node, ghost rest: seq<Node>)
    requires Ring([l] + rest) && n !in [l] + rest
    modifies l, n, l.next
    ensures Ring([l] + rest) && Ring([n])
    ensures forall x :: x in [l] + rest ==> x.next == old(x.next) && x.prev == old(x.prev)
  {
    RingNext([l] + rest, 0);
    hide Ring;
    InsertAfter(l, n, rest);
    RingFromSecond(l, n, rest);
    Remove(n, rest + [l]);
    RingRotate(rest, [l]);
    RingLinks([l] + rest);
  }

  /** The same for a node inserted before another one. */
  method InsertBeforeRemove(l: Node, n: Node, ghost rest: seq<Node>)
    requires Ring([l] + rest) && n !in [l] + rest
    modifies l, n, l.prev
    ensures Ring([l] + rest) && Ring([n])
    ensures forall x :: x in [l] + rest ==> x.next == old(x.next) && x.prev == old(x.prev)
  {
    RingNext([l] + rest, 0);
    hide Ring;
    InsertBefore(l, n, rest);
    RingFromLast(l, n, rest);
    Remove(n, [l] + rest);
    RingLinks([l] + rest);
  }

  lemma RingFromLast(l: Node, n: Node, rest: seq<Node>)
    requires Ring([l] + rest + [n])
    ensures Ring([n] + ([l] + rest)) && n.next == l && n.prev == ([l] + rest)[|rest|]
  {
    RingRotate([l] + rest, [n]);
    RingNext([n] + ([l] + rest), 0);
  }

  lemma RingFromSecond(l: Node, n: Node, rest: seq<Node>)
    requires Ring([l, n] + rest)
    ensures Ring([n] + (rest + [l])) && n.prev == l && n.next == (rest + [l])[0]
  {
    assert [l] + ([n] + rest) == [l, n] + rest && ([n] + rest) + [l] == [n] + (rest + [l]);
    RingRotate([l], [n] + rest);
    RingNext([n] + (rest + [l]), 0);
  }

  /** rt_list_isempty: the head is the only node of its ring. */
  method IsEmpty(l: Node, ghost rest: seq<Node>) returns (empty: bool)
    requires Ring([l] + rest)
    ensures empty <==> rest == []
  {
    assert rest != [] ==> ([l] + rest)[0].next == ([l] + rest)[1];
    empty := l.next == l;
  }
}
