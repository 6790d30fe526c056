/** The circular doubly linked lists of include/core/list.h. The other modules keep such lists as sequences,
    prepend, append and take elements out with `Without`; that is what the rings of nodes do. */
module Lists {
  import opened Sets

  class Node {
    var next: Node?
    var prev: Node?

    constructor ()
    {
      next, prev := null, null;
    }
  }

  function Succ(i: nat, n: nat): (j: nat)
    requires i < n
    ensures j < n
  {
    if i + 1 < n then i + 1 else 0
  }

  ghost predicate Distinct(ring: seq<Node>) {
    forall i, j | 0 <= i < j < |ring| :: ring[i] != ring[j]
  }

  /** The nodes of `ring` in order, each linked to the next and the last to the first. */
  ghost predicate Ring(ring: seq<Node>)
    reads ring
  {
    && ring != []
    && Distinct(ring)
    && (forall i | 0 <= i < |ring| ::
          ring[i].next == ring[Succ(i, |ring|)] && ring[Succ(i, |ring|)].prev == ring[i])
  }

  /** `initList`. */
  method InitList(list: Node)
    modifies list
    ensures Ring([list])
  {
    list.next := list;
    list.prev := list;
  }

  /** `__listAdd`: between two neighbours. */
  method AddBetween(node: Node, before: Node, after: Node)
    requires node != before && node != after
    modifies node, before, after
    ensures before.next == node && after.prev == node && node.prev == before && node.next == after
    ensures before != after ==> before.prev == old(before.prev) && after.next == old(after.next)
  {
    before.next := node;
    after.prev := node;
    node.prev := before;
    node.next := after;
  }

  /** `listAdd`: behind the head, so in front of all members. */
  method ListAdd(node: Node, ghost ring: seq<Node>, head: Node)
    requires Ring(ring) && head == ring[0] && node !in ring
    modifies ring, node
    ensures Ring([head, node] + ring[1..])
  {
    assert head.next == ring[Succ(0, |ring|)];
    ghost var r := [head, node] + ring[1..];
    AddBetween(node, head, head.next);
    assert forall i | 2 <= i < |r| :: r[i] == ring[i - 1];
  }

  /** `listAddTail`: in front of `list`, which ends the members if it is the head. */
  method ListAddTail(node: Node, ghost ring: seq<Node>, head: Node)
    requires Ring(ring) && head == ring[0] && node !in ring
    modifies ring, node
    ensures Ring(ring + [node])
  {
    ghost var n := |ring|;
    assert Succ(n - 1, n) == 0 && ring[0].prev == ring[n - 1];
    AddBetween(node, head.prev, head);
  }

  /** Place `i` of a list without place `k` was place `Past(i, k)` of the list. */
  function Past(i: nat, k: nat): nat {
    if i < k then i else i + 1
  }

  lemma Bridge(i: nat, k: nat, n: nat)
    requires k < n && i < n - 1
    ensures Past(i, k) < n && Past(Succ(i, n - 1), k) == if Succ(Past(i, k), n) == k then Succ(k, n) else Succ(Past(i, k), n)
  {
  }

  /** What follows place `i` of the list without place `k`, when `p` is the place before `k`. */
  lemma NextPast(i: nat, k: nat, n: nat, p: nat)
    requires k < n && i < n - 1 && p < n && Succ(p, n) == k
    ensures var a, b := Past(i, k), Past(Succ(i, n - 1), k);
            && a < n && b < n && a != k && b != k
            && if a == p then b == Succ(k, n) else b == Succ(a, n) != Succ(k, n)
  {
    Bridge(i, k, n);
  }

  lemma StaysDistinct(ring: seq<Node>, k: nat)
    requires Distinct(ring) && k < |ring|
    ensures Distinct(ring[..k] + ring[k + 1..])
    ensures forall i | 0 <= i < |ring| - 1 :: (ring[..k] + ring[k + 1..])[i] == ring[Past(i, k)]
  {
  }

  /** The links lead past place `k`, from the place `p` before it. */
  ghost predicate Bypassed(ring: seq<Node>, k: nat, p: nat)
    requires k < |ring|
    reads ring
  {
    forall j | 0 <= j < |ring| && j != k ::
      var b := if j == p then Succ(k, |ring|) else Succ(j, |ring|);
      b < |ring| && ring[j].next == ring[b] && ring[b].prev == ring[j]
  }

  lemma BypassedIsRing(ring: seq<Node>, k: nat, p: nat)
    requires Distinct(ring) && |ring| > 1 && k < |ring| && p < |ring| && Succ(p, |ring|) == k && Bypassed(ring, k, p)
    ensures Ring(ring[..k] + ring[k + 1..])
  {
    var r := ring[..k] + ring[k + 1..];
    StaysDistinct(ring, k);
    forall i | 0 <= i < |r|
      ensures r[i].next == r[Succ(i, |r|)] && r[Succ(i, |r|)].prev == r[i]
    {
      NextPast(i, k, |ring|, p);
      assert r[i] == ring[Past(i, k)] && r[Succ(i, |r|)] == ring[Past(Succ(i, |r|), k)];
    }
  }

  /** Taking out place `k` is taking the member there out of the list behind the head. */
  lemma WithoutMember(ring: seq<Node>, k: nat)
    requires Distinct(ring) && 0 < k < |ring|
    ensures [ring[0]] + Without(ring[1..], ring[k]) == ring[..k] + ring[k + 1..]
  {
    var members := ring[1..];
    WithoutAt(members, k - 1);
    assert members[k - 1] == ring[k] && members[..k - 1] == ring[1..k] && members[k..] == ring[k + 1..];
    assert [ring[0]] + ring[1..k] == ring[..k];
  }

  lemma {:induction false} WithoutAt(members: seq<Node>, k: nat)
    requires Distinct(members) && k < |members|
    ensures Without(members, members[k]) == members[..k] + members[k + 1..]
  {
    if k > 0 {
      WithoutAt(members[1..], k - 1);
    }
  }

  /** `listDelete`: the node leaves its ring and becomes a ring of its own, so deleting it again is harmless. */
  method ListDelete(del: Node, ghost ring: seq<Node>, ghost k: nat)
    requires Ring(ring) && k < |ring| && del == ring[k]
    modifies ring
    ensures Ring([del])
    ensures |ring| > 1 ==> Ring(ring[..k] + ring[k + 1..])
    ensures k > 0 ==> Ring([ring[0]] + Without(ring[1..], del))
  {
    ghost var n := |ring|;
    ghost var p := if k == 0 then n - 1 else k - 1;
    assert Succ(p, n) == k && del.prev == ring[p] && del.next == ring[Succ(k, n)];
    var prev := del.prev;
    var next := del.next;
    next.prev := prev;
    prev.next := next;
    del.prev := del;
    del.next := del;
    if n > 1 {
      BypassedIsRing(ring, k, p);
    }
    if k > 0 {
      WithoutMember(ring, k);
    }
  }

  /** `listEmpty`. */
  method ListEmpty(list: Node, ghost ring: seq<Node>) returns (empty: bool)
    requires Ring(ring) && list == ring[0]
    ensures empty <==> |ring| == 1
  {
    empty := list.next == list && list.prev == list;
    assert list.next == ring[Succ(0, |ring|)];
  }
}
