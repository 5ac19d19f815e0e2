/** One of the three sorted lists of genes. */
module GeneIndex {
  import opened EcmList
  import opened Gene

  ghost predicate Ascending(keys: seq<real>) {
    forall i, j :: 0 <= i < j < |keys| ==> keys[i] <= keys[j]
  }

  /** p is where a linear search for the first larger key stops. */
  ghost predicate InsertionPoint(keys: seq<real>, x: real, p: nat) {
    && p <= |keys|
    && (forall i :: 0 <= i < p ==> keys[i] <= x)
    && (p < |keys| ==> x < keys[p])
  }

  ghost function InsertAt<T>(s: seq<T>, p: nat, x: T): seq<T>
    requires p <= |s|
  {
    s[..p] + [x] + s[p..]
  }

  /** A ranking of some of the genes 0 .. n-1, without repetition. */
  ghost predicate Ranked(s: seq<nat>, n: nat) {
    && (forall i :: 0 <= i < |s| ==> s[i] < n)
    && forall i, j :: 0 <= i < j < |s| ==> s[i] != s[j]
  }

  lemma InsertKeepsRanked(s: seq<nat>, p: nat, x: nat, n: nat)
    requires Ranked(s, n) && p <= |s| && x < n && x !in s
    ensures Ranked(InsertAt(s, p, x), n)
    ensures forall y :: y in InsertAt(s, p, x) <==> y in s || y == x
  {}

  lemma RemoveKeepsRanked(s: seq<nat>, p: nat, n: nat)
    requires Ranked(s, n) && p < |s|
    ensures Ranked(RemoveAt(s, p), n)
    ensures forall y :: y in RemoveAt(s, p) <==> y in s && y != s[p]
  {}

  ghost function Upto(n: nat): (s: set<nat>)
    ensures forall i: int :: i in s <==> 0 <= i < n
  {
    if n == 0 then {} else Upto(n - 1) + {n - 1}
  }

  /** A ranking of exactly the genes below n has n entries. */
  lemma {:induction false} RankedLength(order: seq<nat>, n: nat)
    requires Ranked(order, n) && forall i :: i in order <==> i in Upto(n)
    ensures |order| == n
    decreases n
  {
    assert order != [] ==> order[0] < n;
    if n > 0 {
      assert n - 1 in Upto(n);
      var p :| 0 <= p < |order| && order[p] == n - 1;
      RemoveKeepsRanked(order, p, n);
      assert forall i :: i in Upto(n - 1) <==> i in Upto(n) && i != n - 1;
      RankedLength(RemoveAt(order, p), n - 1);
    }
  }

  // ---------- which nodes a ranking links together ----------

  /** The nodes of some genes, in order. */
  ghost function Along(genes: seq<Gene>, key: Key, order: seq<nat>): (r: seq<ListHead<Link>>)
    requires forall i :: 0 <= i < |order| ==> order[i] < |genes|
    ensures |r| == |order|
  {
    seq(|order|, i requires 0 <= i < |order| => genes[order[i]].Node(key))
  }

  ghost function RingOf(head: ListHead<Link>, genes: seq<Gene>, key: Key, order: seq<nat>): (r: seq<ListHead<Link>>)
    requires Ranked(order, |genes|)
    ensures |r| == |order| + 1 && r[0] == head
  {
    [head] + Along(genes, key, order)
  }

  /** Every node a list can ever hold. */
  ghost function NodesOf(head: ListHead<Link>, genes: seq<Gene>, key: Key): set<ListHead<Link>> {
    {head} + set i | 0 <= i < |genes| :: genes[i].Node(key)
  }

  ghost function UnlistedOf(genes: seq<Gene>, key: Key, order: seq<nat>): set<ListHead<Link>> {
    set i | 0 <= i < |genes| && i !in order :: genes[i].Node(key)
  }

  ghost predicate Wired(head: ListHead<Link>, genes: seq<Gene>, key: Key) {
    && head.entry == Link(|genes|, key)
    && forall i :: 0 <= i < |genes| ==> genes[i].Node(key).entry == Link(i, key)
  }

  ghost predicate AllAlone(nodes: set<ListHead<Link>>)
    reads nodes
  {
    forall x :: x in nodes ==> SelfLinked(x)
  }

  ghost predicate RingInNodes(head: ListHead<Link>, genes: seq<Gene>, key: Key, order: seq<nat>)
    requires Ranked(order, |genes|)
  {
    && (forall x :: x in RingOf(head, genes, key, order) ==> x in NodesOf(head, genes, key))
    && (forall x :: x in UnlistedOf(genes, key, order) ==> x in NodesOf(head, genes, key))
  }

  lemma RingIsInNodes(head: ListHead<Link>, genes: seq<Gene>, key: Key, order: seq<nat>)
    requires Ranked(order, |genes|)
    ensures RingInNodes(head, genes, key, order)
  {}

  lemma InsertRing(head: ListHead<Link>, genes: seq<Gene>, key: Key, order: seq<nat>, p: nat, i: nat, k: nat)
    requires Ranked(order, |genes|) && i < |genes| && i !in order && p <= |order|
    requires k == if p == |order| then 0 else p + 1
    ensures Ranked(InsertAt(order, p, i), |genes|)
    ensures RingOf(head, genes, key, InsertAt(order, p, i))
         == InsertBefore(RingOf(head, genes, key, order), k, genes[i].Node(key))
  {
    InsertKeepsRanked(order, p, i, |genes|);
    hide Along, InsertAt, InsertBefore, Ranked;
    AlongInsert(genes, key, order, p, i);
    InsertAfterHead(head, Along(genes, key, order), p, k, genes[i].Node(key));
  }

  lemma AlongInsert(genes: seq<Gene>, key: Key, order: seq<nat>, p: nat, i: nat)
    requires Ranked(order, |genes|) && i < |genes| && p <= |order| && Ranked(InsertAt(order, p, i), |genes|)
    ensures Along(genes, key, InsertAt(order, p, i)) == InsertAt(Along(genes, key, order), p, genes[i].Node(key))
  {}

  lemma InsertAfterHead<T>(head: T, s: seq<T>, p: nat, k: nat, x: T)
    requires p <= |s| && k == if p == |s| then 0 else p + 1
    ensures InsertBefore([head] + s, k, x) == [head] + InsertAt(s, p, x)
  {}

  lemma InsertUnlisted(head: ListHead<Link>, genes: seq<Gene>, key: Key, order: seq<nat>, p: nat, i: nat)
    requires Wired(head, genes, key) && Ranked(order, |genes|) && i < |genes| && i !in order && p <= |order|
    ensures UnlistedOf(genes, key, InsertAt(order, p, i)) == UnlistedOf(genes, key, order) - {genes[i].Node(key)}
  {}

  lemma RemoveRing(head: ListHead<Link>, genes: seq<Gene>, key: Key, order: seq<nat>, p: nat)
    requires Wired(head, genes, key) && Ranked(order, |genes|) && p < |order|
    ensures Ranked(RemoveAt(order, p), |genes|)
    ensures RingOf(head, genes, key, RemoveAt(order, p)) == RemoveAt(RingOf(head, genes, key, order), p + 1)
    ensures UnlistedOf(genes, key, RemoveAt(order, p))
         == UnlistedOf(genes, key, order) + {genes[order[p]].Node(key)}
    ensures RingOf(head, genes, key, order)[p + 1] == genes[order[p]].Node(key)
  {}

  class GeneIndex {
    const key: Key
    const genes: seq<Gene>
    const head: ListHead<Link>
    /** The listed genes, by rank. */
    ghost var order: seq<nat>
    /** The nodes on the circle, head first, and the nodes that are by themselves. */
    ghost var ring: seq<ListHead<Link>>
    ghost var alone: set<ListHead<Link>>

    constructor (key: Key, genes: seq<Gene>)
      requires forall i :: 0 <= i < |genes| ==> genes[i].Node(key).entry == Link(i, key)
      requires forall i :: 0 <= i < |genes| ==> SelfLinked(genes[i].Node(key))
      ensures this.key == key && this.genes == genes && fresh(head)
      ensures Valid() && order == []
    {
      this.key := key;
      this.genes := genes;
      var h := new ListHead(Link(|genes|, key));
      this.head := h;
      order := [];
      ring := [h];
      alone := UnlistedOf(genes, key, []);
    }

    /** No field is read, so the set never changes. */
    ghost function Nodes(): set<ListHead<Link>> {
      NodesOf(head, genes, key)
    }

    ghost predicate Threaded()
      reads this, ring, alone
    {
      IsRing(ring) && AllAlone(alone) && forall x :: x in alone ==> x !in ring
    }

    /** The pointers form one circle through the head and the listed genes in rank order; every other
        gene's node points to itself. */
    ghost predicate Valid()
      reads this, Nodes()
    {
      && Wired(head, genes, key)
      && Ranked(order, |genes|)
      && ring == RingOf(head, genes, key, order)
      && alone == UnlistedOf(genes, key, order)
      && RingInNodes(head, genes, key, order)
      && Threaded()
    }

    /** The keys along the list. */
    ghost function Keys(): (keys: seq<real>)
      reads this, genes
      ensures |keys| == |order|
    {
      seq(|order|, i requires 0 <= i < |order| reads this, genes =>
            if order[i] < |genes| then genes[order[i]].KeyOf(key) else 0.0)
    }

    // ---------- pointer level ----------

    method LinkNode(node: ListHead<Link>, pos: ListHead<Link>, ghost k: nat)
      requires Threaded() && node in alone && k < |ring| && pos == ring[k]
      modifies this`ring, this`alone, ring, node
      ensures Threaded()
      ensures ring == InsertBefore(old(ring), k, node) && alone == old(alone) - {node}
    {
      ListAddTail(node, pos, ring, k);
      ring := InsertBefore(ring, k, node);
      alone := alone - {node};
    }

    /** A node that is alone is unlinked again before it is inserted; nothing changes. */
    method UnlinkAlone(node: ListHead<Link>)
      requires Threaded() && node in alone
      modifies node
      ensures Threaded()
    {
      ListDelInit(node, [node], 0);
    }

    method UnlinkNode(node: ListHead<Link>, ghost k: nat)
      requires Threaded() && 0 < k < |ring| && node == ring[k]
      modifies this`ring, this`alone, ring
      ensures Threaded()
      ensures ring == RemoveAt(old(ring), k) && alone == old(alone) + {node}
    {
      ListDelInit(node, ring, k);
      ring := RemoveAt(ring, k);
      alone := alone + {node};
    }

    // ---------- gene level ----------

    /** Walks the list to the first gene with a larger key, or back to the head. */
    method FindPosition(x: real) returns (lp: ListHead<Link>, ghost p: nat)
      requires Valid()
      ensures InsertionPoint(Keys(), x, p)
      ensures lp == if p == |order| then head else ring[p + 1]
    {
      p := 0;
      lp := head.next;
      while lp != head
        invariant p <= |order| && lp == if p == |order| then head else ring[p + 1]
        invariant forall q :: 0 <= q < p ==> Keys()[q] <= x
        decreases |order| - p
      {
        var gene := genes[lp.entry.gene];
        if x < gene.KeyOf(key) {
          return;
        }
        lp := lp.next;
        p := p + 1;
      }
    }

    /** Inserts an unlisted gene before the first listed one with a larger key. */
    method SortGene(i: nat) returns (ghost p: nat)
      requires Valid() && i < |genes| && i !in order
      modifies this, Nodes()
      ensures Valid()
      ensures InsertionPoint(old(Keys()), old(genes[i].KeyOf(key)), p)
      ensures order == InsertAt(old(order), p, i)
    {
      hide IsRing, AllAlone, InsertAt, InsertBefore;
      var node := genes[i].Node(key);
      assert node in alone;
      UnlinkAlone(node);
      assert Keys() == old(Keys());
      var lp;
      lp, p := FindPosition(genes[i].KeyOf(key));
      ghost var k := if p == |order| then 0 else p + 1;
      InsertRing(head, genes, key, order, p, i, k);
      InsertUnlisted(head, genes, key, order, p, i);
      RingIsInNodes(head, genes, key, InsertAt(order, p, i));
      LinkNode(node, lp, k);
      order := InsertAt(order, p, i);
    }

    /** Takes the gene at rank p out; it is left self-linked. */
    method Remove(i: nat, ghost p: nat)
      requires Valid() && i < |genes| && p < |order| && order[p] == i
      modifies this, Nodes()
      ensures Valid() && order == RemoveAt(old(order), p)
    {
      hide IsRing, AllAlone, RemoveAt, Wired, RingOf, UnlistedOf, NodesOf, Ranked;
      RemoveRing(head, genes, key, order, p);
      RingIsInNodes(head, genes, key, RemoveAt(order, p));
      UnlinkNode(genes[i].Node(key), p + 1);
      order := RemoveAt(order, p);
    }

    /** The gene behind the last node. */
    method Last() returns (i: nat)
      requires Valid() && order != []
      ensures i == order[|order| - 1]
    {
      i := head.prev.entry.gene;
    }

    /** The gene behind the first node. */
    method First() returns (i: nat)
      requires Valid() && order != []
      ensures i == order[0]
    {
      assert ring[0].next == ring[1];
      i := head.next.entry.gene;
    }

    /** The gene at a rank, or the last one when the list is shorter. */
    method Select(rank: nat) returns (i: nat)
      requires Valid() && order != []
      ensures i == order[if rank < |order| then rank else |order| - 1]
    {
      var position := rank;
      ghost var p := 0;
      var lp := head.next;
      while lp != head
        invariant p <= |order| && p + position == rank
        invariant lp == if p == |order| then head else ring[p + 1]
        decreases |order| - p
      {
        if position == 0 {
          return lp.entry.gene;
        }
        position := position - 1;
        lp := lp.next;
        p := p + 1;
      }
      i := Last();
    }

    /** A gene that is not listed has its node linked to itself. */
    lemma UnlistedSelfLinked(i: nat)
      requires Valid() && i < |genes| && i !in order
      ensures SelfLinked(genes[i].Node(key))
    {}

    // ---------- sorted index over a set of genes ----------

    /** A well-formed list of exactly the given genes, sorted by this list's own key. */
    ghost predicate Indexed(members: set<nat>)
      reads this, Nodes(), genes
    {
      Valid() && Ascending(Keys()) && forall i :: i in order <==> i in members
    }

    method Insert(i: nat, ghost members: set<nat>) returns (ghost p: nat)
      requires Indexed(members) && i < |genes| && i !in members
      modifies this, Nodes()
      ensures Indexed(members + {i})
      ensures InsertionPoint(old(Keys()), genes[i].KeyOf(key), p)
      ensures order == InsertAt(old(order), p, i)
      ensures Keys() == InsertAt(old(Keys()), p, genes[i].KeyOf(key))
    {
      ghost var keys, before := Keys(), order;
      p := SortGene(i);
      InsertKeepsRanked(before, p, i, |genes|);
      KeysAfterInsert(keys, before, p, i);
      InsertKeepsAscending(keys, p, genes[i].KeyOf(key));
    }

    lemma KeysAfterInsert(keys: seq<real>, before: seq<nat>, p: nat, i: nat)
      requires Ranked(before, |genes|) && Ranked(order, |genes|) && i < |genes| && p <= |before| == |keys|
      requires order == InsertAt(before, p, i)
      requires forall q :: 0 <= q < |before| ==> keys[q] == genes[before[q]].KeyOf(key)
      ensures Keys() == InsertAt(keys, p, genes[i].KeyOf(key))
    {}

    method Evict(i: nat, ghost members: set<nat>) returns (ghost p: nat)
      requires Indexed(members) && i in members
      modifies this, Nodes()
      ensures Indexed(members - {i})
      ensures p < |old(order)| && old(order)[p] == i && order == RemoveAt(old(order), p)
      ensures Keys() == RemoveAt(old(Keys()), p)
    {
      ghost var keys, before := Keys(), order;
      p :| 0 <= p < |order| && order[p] == i;
      Remove(i, p);
      RemoveKeepsRanked(before, p, |genes|);
      KeysAfterRemove(keys, before, p);
      RemoveKeepsAscending(keys, p);
    }

    lemma KeysAfterRemove(keys: seq<real>, before: seq<nat>, p: nat)
      requires Ranked(before, |genes|) && Ranked(order, |genes|) && p < |before| == |keys|
      requires order == RemoveAt(before, p)
      requires forall q :: 0 <= q < |before| ==> keys[q] == genes[before[q]].KeyOf(key)
      ensures Keys() == RemoveAt(keys, p)
    {}
  }

  /** A list does not notice a change to a gene that it does not hold. */
  twostate lemma IndexKept(x: GeneIndex, new i: nat, new members: set<nat>)
    requires i !in members
    requires old(x.Indexed(members))
    requires unchanged(x)
    requires unchanged(x.Nodes())
    requires forall j :: 0 <= j < |x.genes| && j != i ==> unchanged(x.genes[j])
    ensures x.Indexed(members) && x.Keys() == old(x.Keys())
  {
    assert x.Valid();
    assert forall q :: 0 <= q < |x.order| ==> x.order[q] != i && x.Keys()[q] == old(x.Keys()[q]);
  }

  lemma InsertKeepsAscending(s: seq<real>, p: nat, x: real)
    requires Ascending(s) && InsertionPoint(s, x, p)
    ensures Ascending(InsertAt(s, p, x))
  {}

  lemma RemoveKeepsAscending(s: seq<real>, p: nat)
    requires Ascending(s) && p < |s|
    ensures Ascending(RemoveAt(s, p))
  {}
}
