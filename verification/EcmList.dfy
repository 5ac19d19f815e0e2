/** Intrusive circular doubly linked lists.  A node is embedded in a record; `entry` says in which. */
module EcmList {

  class ListHead<T> {
    var next: ListHead<T>
    var prev: ListHead<T>
    const entry: T

    constructor (entry: T)
      ensures this.entry == entry && SelfLinked(this)
    {
      next := this;
      prev := this;
      this.entry := entry;
    }
  }

  /** The nodes of r, in order, are linked into one circle in both directions. */
  ghost predicate IsRing<T>(r: seq<ListHead<T>>)
    reads r
  {
    && |r| > 0
    && (forall i, j :: 0 <= i < j < |r| ==> r[i] != r[j])
    && (forall i :: 0 <= i < |r| - 1 ==> r[i].next == r[i + 1])
    && (forall i :: 1 <= i < |r| ==> r[i].prev == r[i - 1])
    && r[|r| - 1].next == r[0] && r[0].prev == r[|r| - 1]
  }

  ghost predicate SelfLinked<T>(node: ListHead<T>)
    reads node
  {
    node.next == node && node.prev == node
  }

  /** Where a node ends up when it is inserted before position k; before the head is at the end. */
  ghost function InsertBefore<T>(r: seq<T>, k: nat, x: T): seq<T>
    requires k < |r|
  {
    if k == 0 then r + [x] else r[..k] + [x] + r[k..]
  }

  ghost function RemoveAt<T>(r: seq<T>, k: nat): seq<T>
    requires k < |r|
  {
    r[..k] + r[k + 1..]
  }

  method InitListHead<T>(node: ListHead<T>)
    modifies node
    ensures SelfLinked(node)
  {
    node.next := node;
    node.prev := node;
  }

  method ListAdd<T>(node: ListHead<T>, prev: ListHead<T>, next: ListHead<T>)
    requires node != prev && node != next
    modifies node, prev, next
    ensures node.next == next && node.prev == prev && next.prev == node && prev.next == node
    ensures prev != next ==> prev.prev == old(prev.prev) && next.next == old(next.next)
  {
    next.prev := node;
    node.next := next;
    node.prev := prev;
    prev.next := node;
  }

  method ListAddTail<T>(node: ListHead<T>, pos: ListHead<T>, ghost r: seq<ListHead<T>>, ghost k: nat)
    requires IsRing(r) && k < |r| && pos == r[k] && node !in r
    modifies r, node
    ensures IsRing(InsertBefore(r, k, node))
  {
    assert pos.prev == if k == 0 then r[|r| - 1] else r[k - 1];
    ListAdd(node, pos.prev, pos);
    InsertKeepsDistinct(r, k, node);
  }

  lemma InsertKeepsDistinct<T>(r: seq<T>, k: nat, x: T)
    requires k < |r| && x !in r
    requires forall i, j :: 0 <= i < j < |r| ==> r[i] != r[j]
    ensures forall i, j :: 0 <= i < j < |r| + 1 ==> InsertBefore(r, k, x)[i] != InsertBefore(r, k, x)[j]
  {}

  method ListDel<T>(prev: ListHead<T>, next: ListHead<T>)
    modifies prev, next
    ensures next.prev == prev && prev.next == next
    ensures prev != next ==> prev.prev == old(prev.prev) && next.next == old(next.next)
  {
    next.prev := prev;
    prev.next := next;
  }

  /** Takes a node out of its circle; a node that is alone stays alone. */
  method ListDelInit<T>(node: ListHead<T>, ghost r: seq<ListHead<T>>, ghost k: nat)
    requires IsRing(r) && k < |r| && node == r[k]
    modifies r
    ensures SelfLinked(node)
    ensures |r| > 1 ==> IsRing(RemoveAt(r, k))
  {
    assert node.prev == if k == 0 then r[|r| - 1] else r[k - 1];
    assert node.next == if k == |r| - 1 then r[0] else r[k + 1];
    ListDel(node.prev, node.next);
    InitListHead(node);
  }
}
