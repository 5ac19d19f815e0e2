/** The population: all genes, threaded at once through three sorted lists. */
module Population {
  import opened Outcomes
  import opened Tables
  import opened Evaluation
  import opened Repair
  import opened EcmList
  import opened Gene
  import opened GeneIndex
  import opened Elitism
  import opened Generation
  import opened Random
  import Rank
  import TA = TaskAttrs

  /** All records and all nodes lie in two given sets. */
  ghost predicate Contained(genes: seq<Gene>, records: set<object>, nodes: set<object>) {
    && (forall i :: 0 <= i < |genes| ==> genes[i].Repr() <= records)
    && forall i, k :: 0 <= i < |genes| ==> genes[i].Node(k) in nodes
  }

  /** ... and every node points to itself. */
  ghost predicate Allocated(genes: seq<Gene>, records: set<object>, nodes: set<object>)
    reads nodes
  {
    && Contained(genes, records, nodes)
    && forall i, k :: 0 <= i < |genes| ==> SelfLinked(genes[i].Node(k))
  }

  /** Separate records, each with its own three nodes. */
  ghost predicate Separate(genes: seq<Gene>) {
    && (forall i :: 0 <= i < |genes| ==> genes[i].Shaped())
    && (forall i, k :: 0 <= i < |genes| ==> genes[i].Node(k).entry == Link(i, k))
    && forall i, j :: 0 <= i < j < |genes| ==> genes[i].Repr() !! genes[j].Repr()
  }

  /** The gene array; every node starts out linked to itself. */
  method Allocate(nPops: nat) returns (genes: seq<Gene>, ghost records: set<object>, ghost nodes: set<object>)
    ensures |genes| == nPops && Separate(genes) && Allocated(genes, records, nodes)
    ensures fresh(records) && fresh(nodes) && records !! nodes
  {
    genes, records, nodes := [], {}, {};
    for i := 0 to nPops
      invariant |genes| == i && Separate(genes) && Allocated(genes, records, nodes)
      invariant fresh(records) && fresh(nodes) && records !! nodes
    {
      var g := NewGene(i);
      AppendGene(genes, g, records, nodes);
      genes := genes + [g];
      records := records + g.Repr();
      nodes := nodes + {g.listUtil, g.listPower, g.listScore};
    }
  }

  lemma AppendGene(genes: seq<Gene>, g: Gene, records: set<object>, nodes: set<object>)
    requires Separate(genes) && Allocated(genes, records, nodes) && g.Repr() !! records
    requires g.Shaped()
    requires forall k :: g.Node(k).entry == Link(|genes|, k) && SelfLinked(g.Node(k))
    ensures Separate(genes + [g])
    ensures Allocated(genes + [g], records + g.Repr(), nodes + {g.listUtil, g.listPower, g.listScore})
  {
    forall i, j | 0 <= i < j < |genes| + 1
      ensures (genes + [g])[i].Repr() !! (genes + [g])[j].Repr()
    {}
  }

  method NewGene(i: nat) returns (g: Gene)
    ensures fresh(g.Repr()) && g.Shaped()
    ensures fresh({g.listUtil, g.listPower, g.listScore})
    ensures forall k :: g.Node(k).entry == Link(i, k) && SelfLinked(g.Node(k))
  {
    g := new Gene(i);
    assert g.listUtil == g.Node(ByUtil) && g.listPower == g.Node(ByPower) && g.listScore == g.Node(ByScore);
  }

  class Population {
    const sys: System
    const genes: seq<Gene>
    const byUtil: GeneIndex
    const byPower: GeneIndex
    const byScore: GeneIndex

    /** Everything the lists and the records are made of. */
    ghost const lists: set<object>
    ghost const records: set<object>

    constructor (sys: System, genes: seq<Gene>, byUtil: GeneIndex, byPower: GeneIndex, byScore: GeneIndex,
                 ghost lists: set<object>, ghost records: set<object>)
      ensures this.sys == sys && this.genes == genes
      ensures this.byUtil == byUtil && this.byPower == byPower && this.byScore == byScore
      ensures this.lists == lists && this.records == records
    {
      this.sys := sys;
      this.genes := genes;
      this.byUtil := byUtil;
      this.byPower := byPower;
      this.byScore := byScore;
      this.lists := lists;
      this.records := records;
    }

    function Index(k: Key): GeneIndex {
      match k
      case ByUtil => byUtil
      case ByPower => byPower
      case ByScore => byScore
    }

    /** What allocation fixes once and for all. */
    ghost predicate Shaped() {
      && sys.Valid() && |genes| >= 3 && Separate(genes) && lists !! records
      && (forall k :: Index(k).key == k && Index(k).genes == genes && Wired(Index(k).head, genes, k))
      && (forall k :: Index(k) in lists && Index(k).Nodes() <= lists)
      && forall i :: 0 <= i < |genes| ==> genes[i].Repr() <= records
    }

    /** The three lists hold exactly the given genes, each sorted by its own key, and every listed gene
        is feasible and caches exactly what its attributes evaluate to. */
    ghost predicate Valid(members: set<nat>)
      reads lists, records
    {
      && Shaped() && (forall i :: i in members ==> i < |genes|)
      && (forall k :: Index(k).Indexed(members))
      && forall i :: i in members ==> genes[i].Sound(sys)
    }

    lemma IndicesApart(k: Key)
      requires Shaped()
      ensures forall l :: l != k ==> Index(k) != Index(l) && Index(k).Nodes() !! Index(l).Nodes()
    {}

    /** Only list k has changed: the other lists and all genes read as before. */
    twostate predicate OthersKept(k: Key)
      requires Shaped()
      reads lists, records
    {
      && (forall l :: l != k ==> Index(l).order == old(Index(l).order) && Index(l).Keys() == old(Index(l).Keys()))
      && (forall j, l :: 0 <= j < |genes| ==> genes[j].KeyOf(l) == old(genes[j].KeyOf(l)))
      && forall j :: 0 <= j < |genes| && old(genes[j].Sound(sys)) ==> genes[j].Sound(sys)
    }

    /** Inserts into one list; the other two are untouched. */
    method InsertInto(k: Key, i: nat, ghost members: set<nat>) returns (ghost p: nat)
      requires Shaped() && Index(k).Indexed(members) && i < |genes| && i !in members
      modifies Index(k), Index(k).Nodes()
      ensures Index(k).Indexed(members + {i})
      ensures InsertionPoint(old(Index(k).Keys()), genes[i].KeyOf(k), p)
      ensures p <= |old(Index(k).order)| && Index(k).order == InsertAt(old(Index(k).order), p, i)
      ensures Index(k).Keys() == InsertAt(old(Index(k).Keys()), p, genes[i].KeyOf(k))
      ensures forall l, m :: l != k && old(Index(l).Indexed(m)) ==> Index(l).Indexed(m)
      ensures OthersKept(k)
    {
      hide IsRing, AllAlone, RingOf, UnlistedOf, NodesOf, Wired, Ranked, RingInNodes, Separate, Ascending;
      IndicesApart(k);
      p := Index(k).Insert(i, members);
    }

    /** Evicts from one list; the other two are untouched. */
    method EvictFrom(k: Key, i: nat, ghost members: set<nat>) returns (ghost p: nat)
      requires Shaped() && Index(k).Indexed(members) && i in members
      modifies Index(k), Index(k).Nodes()
      ensures Index(k).Indexed(members - {i})
      ensures p < |old(Index(k).order)| && old(Index(k).order)[p] == i
      ensures Index(k).order == RemoveAt(old(Index(k).order), p)
      ensures Index(k).Keys() == RemoveAt(old(Index(k).Keys()), p)
      ensures forall l, m :: l != k && old(Index(l).Indexed(m)) ==> Index(l).Indexed(m)
      ensures OthersKept(k)
    {
      hide IsRing, AllAlone, RingOf, UnlistedOf, NodesOf, Wired, Ranked, RingInNodes, Separate, Ascending;
      IndicesApart(k);
      p := Index(k).Evict(i, members);
    }

    /** Lists a gene everywhere.  The ghost results are its rank by score and its score. */
    method SortGene(i: nat, ghost members: set<nat>) returns (ghost p: nat, ghost x: real)
      requires Valid(members) && i < |genes| && i !in members && genes[i].Sound(sys)
      modifies lists
      ensures Valid(members + {i})
      ensures x == old(genes[i].KeyOf(ByScore))
      ensures InsertionPoint(old(byScore.Keys()), x, p)
      ensures p <= |old(byScore.order)| && byScore.order == InsertAt(old(byScore.order), p, i)
      ensures byScore.Keys() == InsertAt(old(byScore.Keys()), p, x)
    {
      hide IsRing, AllAlone, RingOf, UnlistedOf, NodesOf, Wired, Ranked, RingInNodes, Separate, Ascending,
           GeneIndex.Indexed, GeneIndex.Keys, Gene.Sound;
      ghost var _ := InsertInto(ByUtil, i, members);
      ghost var _ := InsertInto(ByPower, i, members);
      p := InsertInto(ByScore, i, members);
      x := genes[i].KeyOf(ByScore);
    }

    /** What the three lists are: circles through the three embedded nodes of exactly the given genes, in
        the order of utilisation, of power and of score. */
    lemma ThreeLists(members: set<nat>)
      requires Valid(members)
      ensures forall i :: (i in byUtil.order <==> i in members) && (i in byPower.order <==> i in members)
      ensures forall i :: i in byScore.order <==> i in members
      ensures ListedBy(byUtil, ByUtil) && ListedBy(byPower, ByPower) && ListedBy(byScore, ByScore)
      ensures forall p :: 0 <= p < |byUtil.order| ==> genes[byUtil.order[p]].listUtil == byUtil.ring[p + 1]
      ensures forall p :: 0 <= p < |byPower.order| ==> genes[byPower.order[p]].listPower == byPower.ring[p + 1]
      ensures forall p :: 0 <= p < |byScore.order| ==> genes[byScore.order[p]].listScore == byScore.ring[p + 1]
      ensures forall p, q :: 0 <= p < q < |byUtil.order| ==>
                genes[byUtil.order[p]].util <= genes[byUtil.order[q]].util
      ensures forall p, q :: 0 <= p < q < |byPower.order| ==>
                genes[byPower.order[p]].power <= genes[byPower.order[q]].power
      ensures forall p, q :: 0 <= p < q < |byScore.order| ==>
                genes[byScore.order[p]].score <= genes[byScore.order[q]].score
    {
      hide IsRing, AllAlone, UnlistedOf, RingInNodes, Wired, Separate, Gene.Sound, Ascending, GeneIndex.Keys, Ranked,
           GeneIndex.Valid, RingOf;
      ListIsSorted(ByUtil, members);
      ListIsSorted(ByPower, members);
      ListIsSorted(ByScore, members);
    }

    /** A circle from its head through as many nodes as genes are ranked, without repetition. */
    ghost predicate ListedBy(x: GeneIndex, k: Key)
      reads x, x.ring
    {
      && IsRing(x.ring) && |x.ring| == |x.order| + 1 && x.ring[0] == x.head
      && (forall p :: 0 <= p < |x.order| ==> x.order[p] < |genes|)
      && forall p, q :: 0 <= p < q < |x.order| ==> x.order[p] != x.order[q]
    }

    lemma ListIsSorted(k: Key, members: set<nat>)
      requires Valid(members)
      ensures var x := Index(k);
              && ListedBy(x, k) && (forall i :: i in x.order <==> i in members)
              && (forall p :: 0 <= p < |x.order| ==> genes[x.order[p]].Node(k) == x.ring[p + 1])
              && forall p, q :: 0 <= p < q < |x.order| ==>
                   genes[x.order[p]].KeyOf(k) <= genes[x.order[q]].KeyOf(k)
    {
      hide IsRing, AllAlone, UnlistedOf, RingInNodes, Wired, Separate, Gene.Sound;
      var x := Index(k);
      assert x.Indexed(members) && x.key == k && x.genes == genes;
      forall p, q | 0 <= p < q < |x.order|
        ensures genes[x.order[p]].KeyOf(k) <= genes[x.order[q]].KeyOf(k)
      {
        assert x.Keys()[p] <= x.Keys()[q];
      }
    }

    // ---------- selection ----------

    /** The rank a draw selects: positions range over all genes, but while a child is being bred the
        list is one shorter, and the position past its end falls back to the last gene. */
    ghost function SelectedRank(alpha: nat): (rank: nat)
      requires alpha < Rank.Draws(|genes|) && |genes| >= 1 && byScore.order != []
      reads byScore
      ensures rank < |byScore.order|
    {
      Rank.PositionInPool(|genes|, alpha);
      var position := Rank.Position(|genes|, alpha);
      if position < |byScore.order| then position else |byScore.order| - 1
    }

    /** The gene at the drawn position p; past the end of the list, its last gene. */
    method SelectGene(alpha: nat) returns (i: nat, ghost p: nat)
      requires alpha < Rank.Draws(|genes|) && |genes| >= 1 && byScore.order != []
      requires byScore.Valid()
      ensures i == byScore.order[SelectedRank(alpha)]
      ensures p < |genes| && i == byScore.order[if p < |byScore.order| then p else |byScore.order| - 1]
      ensures 2 * (|genes| - p - 1) * (|genes| - p) <= alpha * |genes|
      ensures alpha * |genes| < 2 * (|genes| - p) * (|genes| - p + 1)
    {
      var position := Rank.SelectPosition(|genes|, alpha);
      p := position;
      i := byScore.Select(position);
    }

    /** Some draw of the random source selects this gene. */
    ghost predicate Selectable(i: nat)
      requires |genes| >= 1 && byScore.order != []
      reads byScore
    {
      exists alpha :: 0 <= alpha < Rank.Draws(|genes|) && i == byScore.order[SelectedRank(alpha)]
    }

    lemma SelectableIsListed(i: nat)
      requires |genes| >= 1 && byScore.order != [] && Selectable(i)
      ensures i in byScore.order
    {}

    lemma EndsSelectable()
      requires 1 <= |byScore.order| <= |genes|
      ensures SelectedRank(0) == |byScore.order| - 1 && SelectedRank(2 * |genes| + 1) == 0
    {
      Rank.EndsReachable(|genes|);
    }

    method DrawGene() returns (i: nat)
      requires |genes| >= 1 && byScore.order != []
      requires byScore.Valid()
      ensures Selectable(i)
    {
      var alpha := GetRand(Rank.Draws(|genes|));
      ghost var p;
      i, p := SelectGene(alpha);
    }

    /** Draws until the gene differs from the first parent: any finite number of unlucky draws, then
        one that differs.  One always exists, since both ends of the list can be drawn. */
    method SelectOther(first: nat) returns (i: nat)
      requires |genes| >= 1 && 2 <= |byScore.order| <= |genes|
      requires byScore.Valid()
      ensures i != first && Selectable(i)
    {
      hide Selectable, IsRing, AllAlone, RingOf, UnlistedOf, Wired, RingInNodes;
      var unlucky: nat :| true;
      i := DrawGene();
      while i == first && unlucky > 0
        invariant Selectable(i)
      {
        i := DrawGene();
        unlucky := unlucky - 1;
      }
      if i == first {
        i := SelectEnd(first);
      }
    }

    /** One end of the list differs from any given gene. */
    method SelectEnd(first: nat) returns (i: nat)
      requires |genes| >= 1 && 2 <= |byScore.order| <= |genes|
      requires byScore.Valid()
      ensures i != first && Selectable(i)
    {
      EndsSelectable();
      ghost var p;
      i, p := SelectGene(0);
      if i == first {
        i, p := SelectGene(2 * |genes| + 1);
      }
    }

    // ---------- initialisation ----------

    /** Rewriting a gene that is not listed leaves every list as it was, keys included. */
    twostate lemma ListsKept(new i: nat, new members: set<nat>)
      requires old(Valid(members)) && i !in members
      requires unchanged(lists)
      requires forall j :: 0 <= j < |genes| && j != i ==> unchanged(genes[j])
      requires forall j :: j in members ==> genes[j].Sound(sys)
      ensures Valid(members)
      ensures byScore.Keys() == old(byScore.Keys()) && byScore.order == old(byScore.order)
    {
      hide IsRing, AllAlone, RingOf, UnlistedOf, NodesOf, Wired, Ranked, RingInNodes, Separate, Ascending,
           GeneIndex.Indexed, GeneIndex.Keys;
      assert old(Index(ByUtil).Indexed(members) && Index(ByPower).Indexed(members) && Index(ByScore).Indexed(members));
      IndexKept(byUtil, i, members);
      IndexKept(byPower, i, members);
      IndexKept(byScore, i, members);
    }

    /** The same when only the storage of that gene has changed. */
    twostate lemma RewriteKept(new i: nat, new members: set<nat>)
      requires old(Valid(members)) && i !in members && i < |genes|
      requires unchanged(lists)
      requires unchanged(records - genes[i].Repr())
      ensures Valid(members)
      ensures byScore.Keys() == old(byScore.Keys()) && byScore.order == old(byScore.order)
    {
      hide IsRing, AllAlone, RingOf, UnlistedOf, NodesOf, Wired, Ranked, RingInNodes, Ascending, GeneIndex.Indexed,
           GeneIndex.Keys, Evaluate, MemFits, NoOverrun;
      forall j | 0 <= j < |genes| && j != i
        ensures genes[j].Repr() <= records - genes[i].Repr()
      {}
      ListsKept(i, members);
    }

    /** Fills and lists one more gene, with the last assignment of its repair run. */
    method InitGene(i: nat, ghost members: set<nat>) returns (r: Outcome, ghost trace: seq<Assignment>)
      requires Valid(members) && i < |genes| && i !in members && CanBalance(sys)
      modifies lists, genes[i].Repr()
      ensures IsRepair(sys, trace) && EndsWith(sys, trace, r)
      ensures r == Done ==> Valid(members + {i}) && trace != [] && AssignedTo(i) == Last(trace)
      ensures forall j :: 0 <= j < |genes| && j != i ==> ContentsOf(j) == old(ContentsOf(j))
    {
      hide IsRing, AllAlone, RingOf, UnlistedOf, NodesOf, Wired, RingInNodes, Ranked, Ascending, IsRepair, EndsWith,
           GeneIndex.Indexed, Evaluate, MemFits, NoOverrun;
      r, trace := genes[i].InitGene(sys);
      if r == Done {
        RewriteKept(i, members);
        ghost var _, _ := SortGene(i, members);
        RunsAreNotEmpty(sys, trace);
      }
      OthersUnwritten(i);
    }

    /** A gene outside the lists has all three of its nodes linked to themselves. */
    lemma UnlistedIsAlone(i: nat, members: set<nat>)
      requires Valid(members) && i < |genes| && i !in members
      ensures forall k :: SelfLinked(genes[i].Node(k))
    {
      hide IsRing, Ascending, RingInNodes, GeneIndex.Keys, Gene.Sound, Separate;
      Index(ByUtil).UnlistedSelfLinked(i);
      Index(ByPower).UnlistedSelfLinked(i);
      Index(ByScore).UnlistedSelfLinked(i);
    }

    /** A list of all genes ranks all of them. */
    lemma FullList()
      requires Valid(Upto(|genes|))
      ensures byScore.Valid() && |byScore.order| == |genes| && byScore.order[|genes| - 1] in Upto(|genes|)
      ensures Ranked(byScore.order, |genes|)
      ensures forall p :: 0 <= p < |genes| && byScore.order[p] == byScore.order[|genes| - 1] ==> p == |genes| - 1
    {
      hide IsRing, AllAlone, Ascending, RingInNodes, GeneIndex.Keys, Gene.Sound, Separate;
      assert Index(ByScore).Indexed(Upto(|genes|));
      RankedLength(byScore.order, |genes|);
    }

    /** The gene at a rank of the score list is sound and shows its score there. */
    lemma ScoreAtRank(q: nat, members: set<nat>)
      requires Valid(members) && q < |byScore.order|
      ensures var i := byScore.order[q];
              i < |genes| && i in members && genes[i].Sound(sys) && byScore.Keys()[q] == genes[i].score
      ensures Ascending(byScore.Keys())
    {
      hide IsRing, AllAlone, Ascending, RingInNodes, Gene.Sound, Separate;
      assert Index(ByScore).Indexed(members);
    }

    /** The first genes hold the last assignments of their repair runs. */
    ghost predicate FilledFrom(traces: seq<seq<Assignment>>)
      requires Shaped()
      reads records
    {
      |traces| <= |genes| && forall i :: 0 <= i < |traces| ==> traces[i] != [] && AssignedTo(i) == Last(traces[i])
    }

    /** Fills the next gene in array order. */
    method FillNext(i: nat, ghost traces: seq<seq<Assignment>>) returns (r: Outcome, ghost trace: seq<Assignment>)
      requires Valid(Upto(i)) && |traces| == i < |genes| && FilledFrom(traces) && CanBalance(sys)
      modifies lists, genes[i].Repr()
      ensures IsRepair(sys, trace) && EndsWith(sys, trace, r)
      ensures r == Done ==> Valid(Upto(i + 1)) && FilledFrom(traces + [trace])
    {
      hide CanBalance, IsRepair, EndsWith, Gene.Sound, Gene.Contents, Separate, Wired, GeneIndex.Indexed, IsRing,
           AllAlone, RingInNodes, Ascending;
      r, trace := InitGene(i, Upto(i));
      assert Upto(i) + {i} == Upto(i + 1);
    }

    /** Every gene is filled, repaired and listed; one hopeless gene ends the run. */
    method InitPopulations() returns (r: Outcome, ghost traces: seq<seq<Assignment>>)
      requires Valid({}) && CanBalance(sys)
      modifies lists, records
      ensures AllRepaired(sys, traces, r)
      ensures r == Done ==> Valid(Upto(|genes|)) && |traces| == |genes| && FilledFrom(traces)
      ensures r == Fatal ==> |traces| <= |genes|
      ensures Generous(sys) ==> r == Done
    {
      hide Generous, AllRepaired, CanBalance, IsRepair, EndsWith, Gene.Sound, Gene.Contents, Separate, Wired,
           GeneIndex.Indexed, Population.AssignedTo, Population.ContentsOf;
      traces := [];
      NoneRepaired(sys);
      for i := 0 to |genes|
        invariant Valid(Upto(i)) && |traces| == i
        invariant AllRepaired(sys, traces, Done) && FilledFrom(traces)
      {
        ghost var trace;
        r, trace := FillNext(i, traces);
        OneMoreRepaired(sys, traces, trace, r);
        traces := traces + [trace];
        if r == Fatal {
          if Generous(sys) {
            GenerousSucceeds(sys, trace, r);
          }
          return;
        }
      }
      return Done, traces;
    }

    /** Takes a gene out of all three lists; afterwards its nodes are linked to themselves. */
    method EvictGene(i: nat, ghost members: set<nat>) returns (ghost p: nat)
      requires Valid(members) && i in members
      modifies lists
      ensures Valid(members - {i}) && i < |genes| && genes[i].Sound(sys)
      ensures forall k :: SelfLinked(genes[i].Node(k))
      ensures p < |old(byScore.order)| && old(byScore.order)[p] == i
      ensures byScore.order == RemoveAt(old(byScore.order), p)
      ensures byScore.Keys() == RemoveAt(old(byScore.Keys()), p)
    {
      hide IsRing, AllAlone, RingOf, UnlistedOf, NodesOf, Wired, RingInNodes, Separate, Ascending,
           GeneIndex.Indexed, GeneIndex.Valid, GeneIndex.Keys, Gene.Sound, Ranked;
      ghost var _ := EvictFrom(ByUtil, i, members);
      ghost var _ := EvictFrom(ByPower, i, members);
      p := EvictFrom(ByScore, i, members);
      UnlistedIsAlone(i, members - {i});
    }

    /** The gene with the worst score leaves the lists. */
    method GetNewborn() returns (i: nat)
      requires Valid(Upto(|genes|))
      modifies lists
      ensures i < |genes| && Valid(Upto(|genes|) - {i})
      ensures forall k :: SelfLinked(genes[i].Node(k))
      ensures genes[i].Valid(sys)
      ensures |old(byScore.Keys())| == |genes| && Ascending(old(byScore.Keys()))
      ensures byScore.Keys() == RemoveAt(old(byScore.Keys()), |genes| - 1)
      ensures |old(byScore.order)| == |genes| && i == old(byScore.order)[|genes| - 1]
      ensures byScore.order == old(byScore.order)[..|genes| - 1]
    {
      hide IsRing, AllAlone, RingOf, UnlistedOf, NodesOf, Wired, RingInNodes, Separate, Ascending,
           GeneIndex.Indexed, GeneIndex.Valid, GeneIndex.Keys, Gene.Sound, Ranked, Upto;
      FullList();
      ScoreAtRank(|genes| - 1, Upto(|genes|));
      i := byScore.Last();
      ghost var p := EvictGene(i, Upto(|genes|));
      assert p == |genes| - 1;
      SoundIsValid(i);
    }

    lemma SoundIsValid(i: nat)
      requires sys.Valid() && i < |genes| && genes[i].Sound(sys)
      ensures genes[i].Valid(sys)
    {}

    // ---------- what is stored ----------

    /** Everything stored for a gene. */
    ghost function ContentsOf(i: nat): Record
      requires Shaped() && i < |genes|
      reads records
    {
      genes[i].Contents(|sys.tasks|)
    }

    /** The attributes of a gene. */
    ghost function AssignedTo(i: nat): Assignment
      requires Shaped() && i < |genes|
      reads records
    {
      ContentsOf(i).chosen
    }

    /** The whole population: all that is stored, and the ranking by score. */
    ghost function Shot(): Snapshot
      requires Shaped()
      reads byScore, records
    {
      Snapshot(seq(|genes|, i requires 0 <= i < |genes| reads records => ContentsOf(i)), byScore.order)
    }

    lemma SoundIsRecorded(i: nat)
      requires Shaped() && i < |genes| && genes[i].Sound(sys)
      ensures SoundRecord(sys, ContentsOf(i))
    {
      hide MemFits, NoOverrun, Evaluate, Separate, Wired;
    }

    /** With all genes listed, the snapshot is a population, and its scores are the keys along the list. */
    lemma ShotIsPopulation()
      requires Valid(Upto(|genes|))
      ensures IsPopulation(sys, Shot()) && Scores(Shot()) == byScore.Keys()
    {
      hide IsRing, AllAlone, RingInNodes, RingOf, UnlistedOf, NodesOf, Wired, Gene.Sound, Separate, SoundRecord,
           Ascending, Ranked, Scores, GeneIndex.Indexed, GeneIndex.Valid, GeneIndex.Keys, Gene.Contents;
      FullList();
      forall i | 0 <= i < |genes|
        ensures SoundRecord(sys, ContentsOf(i))
      {
        SoundIsRecorded(i);
      }
      ScoresAreKeys();
      ScoreAtRank(0, Upto(|genes|));
    }

    lemma ScoresAreKeys()
      requires Shaped() && byScore.Valid()
      ensures Scores(Shot()) == byScore.Keys()
    {
      hide IsRing, AllAlone, RingInNodes, RingOf, UnlistedOf, NodesOf, Wired, Gene.Sound, Separate;
      assert Index(ByScore).key == ByScore && Index(ByScore).genes == genes;
    }

    /** The genes other than one have not been written. */
    twostate lemma OthersUnwritten(new newborn: nat)
      requires Shaped() && newborn < |genes|
      requires unchanged(records - genes[newborn].Repr())
      ensures forall i :: 0 <= i < |genes| && i != newborn ==> ContentsOf(i) == old(ContentsOf(i))
    {
      forall i | 0 <= i < |genes| && i != newborn
        ensures ContentsOf(i) == old(ContentsOf(i))
      {
        assert genes[i].Repr() <= records - genes[newborn].Repr();
      }
    }

    // ---------- crossover ----------

    /** The listed genes store what they stored before. */
    ghost predicate Shows(was: seq<Record>, listed: seq<nat>)
      requires Shaped()
      reads records
    {
      |was| == |genes| && forall i :: i in listed && i < |genes| ==> ContentsOf(i) == was[i]
    }

    /** A possible parent: listed, sound, apart from the newborn's storage. */
    ghost predicate Parent(i: nat, newborn: nat, listed: seq<nat>)
      requires sys.Valid() && newborn < |genes|
      reads if i < |genes| then genes[i].Repr() else {}
    {
      i < |genes| && genes[i].Sound(sys) && genes[newborn].Repr() !! genes[i].Repr() && i in listed
    }

    lemma ListedIsParent(i: nat, newborn: nat, members: set<nat>)
      requires Valid(members) && i in byScore.order && newborn < |genes| && newborn !in members
      ensures Parent(i, newborn, byScore.order)
    {
      hide IsRing, AllAlone, Ascending, RingInNodes, Gene.Sound;
      assert Index(ByScore).Indexed(members);
    }

    method SelectPair() returns (i1: nat, i2: nat)
      requires |genes| >= 1 && 2 <= |byScore.order| <= |genes|
      requires byScore.Valid()
      ensures i1 != i2 && Selectable(i1) && Selectable(i2)
    {
      hide IsRing, AllAlone, RingOf, UnlistedOf, NodesOf, Wired, RingInNodes, Ranked;
      i1 := DrawGene();
      i2 := SelectOther(i1);
    }

    method SelectParents(newborn: nat, ghost members: set<nat>) returns (i1: nat, i2: nat)
      requires Valid(members) && newborn < |genes| && newborn !in members
      requires 2 <= |byScore.order| <= |genes|
      ensures i1 != i2 && i1 < |genes| && i2 < |genes| && i1 in byScore.order && i2 in byScore.order
      ensures Parent(i1, newborn, byScore.order) && Parent(i2, newborn, byScore.order)
    {
      hide IsRing, AllAlone, RingOf, UnlistedOf, NodesOf, Wired, RingInNodes, Ascending, Ranked, Parent, Selectable;
      assert Index(ByScore).Indexed(members);
      i1, i2 := SelectPair();
      SelectableIsListed(i1);
      SelectableIsListed(i2);
      ListedIsParent(i1, newborn, members);
      ListedIsParent(i2, newborn, members);
    }

    /** The newborn's record is overwritten, apart from its cloud attributes.  The verdict is decided by
        the child and the two parents. */
    method BreedFrom(newborn: nat, i1: nat, i2: nat, ratioPt: nat, freqPt: nat, memPt: nat, ghost was: seq<Record>,
                     ghost listed: seq<nat>)
      returns (v: Verdict, ghost t: Try)
      requires Shaped() && newborn < |genes| && genes[newborn].Valid(sys) && i1 != i2
      requires Parent(i1, newborn, listed) && Parent(i2, newborn, listed)
      requires |was| == |genes| && ContentsOf(i1) == was[i1] && ContentsOf(i2) == was[i2]
      requires 0 < ratioPt < |sys.tasks| && 0 < freqPt < |sys.tasks| && 0 < memPt < |sys.tasks|
      modifies genes[newborn].Repr()
      ensures genes[newborn].Valid(sys) && AssignedTo(newborn).cloud == old(AssignedTo(newborn).cloud)
      ensures t == Try(AssignedTo(newborn), i1, i2) && IsTry(sys, was, listed, old(AssignedTo(newborn).cloud), t)
      ensures v == Accepted <==> Succeeds(sys, was, t)
      ensures v == Overrun <==> GivesUp(sys, t.child)
      ensures v == Accepted ==> genes[newborn].Sound(sys)
    {
      hide Evaluate, MemFits, NoOverrun, IsMix, TA.IsHistogram, Separate;
      v := genes[newborn].Breed(sys, genes[i1], genes[i2], ratioPt, freqPt, memPt);
      t := Try(AssignedTo(newborn), i1, i2);
      MixFits(sys, was[i1].chosen, was[i2].chosen, t.child, ratioPt, freqPt, memPt);
    }

    /** One try: two different listed parents overwrite the newborn. */
    method TryCrossover(newborn: nat, ghost members: set<nat>, ghost was: seq<Record>)
      returns (v: Verdict, ghost t: Try)
      requires Valid(members) && newborn < |genes| && newborn !in members && genes[newborn].Valid(sys)
      requires 2 <= |byScore.order| <= |genes| && Shows(was, byScore.order)
      modifies genes[newborn].Repr()
      ensures Valid(members) && genes[newborn].Valid(sys) && Shows(was, byScore.order)
      ensures byScore.order == old(byScore.order) && byScore.Keys() == old(byScore.Keys())
      ensures AssignedTo(newborn).cloud == old(AssignedTo(newborn).cloud)
      ensures t.child == AssignedTo(newborn)
      ensures IsTry(sys, was, byScore.order, old(AssignedTo(newborn).cloud), t)
      ensures v == Accepted <==> Succeeds(sys, was, t)
      ensures v == Overrun <==> GivesUp(sys, t.child)
      ensures v == Accepted ==> genes[newborn].Sound(sys)
    {
      hide IsRing, AllAlone, RingOf, UnlistedOf, NodesOf, Wired, RingInNodes, Ascending, Ranked, Evaluate, MemFits,
           NoOverrun, GeneIndex.Indexed, Parent, Separate, IsTry, Succeeds, GivesUp, Shows, Gene.Sound, Gene.Contents;
      ghost var listed := byScore.order;
      var i1, i2 := SelectParents(newborn, members);
      var ratioPt := GetRand(|sys.tasks| - 1);
      var freqPt := GetRand(|sys.tasks| - 1);
      var memPt := GetRand(|sys.tasks| - 1);
      ShowsAt(was, listed, i1);
      ShowsAt(was, listed, i2);
      v, t := BreedFrom(newborn, i1, i2, ratioPt + 1, freqPt + 1, memPt + 1, was, listed);
      RewriteKept(newborn, members);
      StillShows(newborn, members, was);
    }

    lemma ShowsAt(was: seq<Record>, listed: seq<nat>, i: nat)
      requires Shaped() && Shows(was, listed) && i in listed && i < |genes|
      ensures |was| == |genes| && ContentsOf(i) == was[i]
    {}

    /** Rewriting an unlisted gene does not change what the listed ones show. */
    twostate lemma StillShows(new newborn: nat, new members: set<nat>, new was: seq<Record>)
      requires old(Valid(members)) && newborn < |genes| && newborn !in members
      requires old(Shows(was, byScore.order)) && byScore.order == old(byScore.order)
      requires unchanged(records - genes[newborn].Repr())
      ensures Shows(was, byScore.order)
    {
      hide IsRing, AllAlone, Ascending, RingInNodes, Gene.Sound, Separate, Wired, NodesOf, Gene.Contents;
      assert old(Index(ByScore).Indexed(members));
      OthersUnwritten(newborn);
    }

    /** Breeds into the newborn until a child is accepted or overruns, or the tries are used up. */
    method BreedUntilAccepted(newborn: nat, ghost members: set<nat>, ghost was: seq<Record>)
      returns (r: Outcome, ghost tries: seq<Try>)
      requires Valid(members) && newborn < |genes| && newborn !in members && genes[newborn].Valid(sys)
      requires 2 <= |byScore.order| <= |genes| && Shows(was, byScore.order)
      modifies genes[newborn].Repr()
      ensures Valid(members)
      ensures byScore.order == old(byScore.order) && byScore.Keys() == old(byScore.Keys())
      ensures TriesEnd(sys, was, byScore.order, old(AssignedTo(newborn).cloud), tries, r)
      ensures AssignedTo(newborn) == tries[|tries| - 1].child
      ensures r == Done ==> genes[newborn].Sound(sys)
    {
      hide IsRing, AllAlone, RingOf, UnlistedOf, NodesOf, Wired, RingInNodes, Ascending, Ranked, Separate, Shows,
           GeneIndex.Indexed, GeneIndex.Valid, Evaluate, MemFits, NoOverrun, AllRejected, IsTry, Succeeds, GivesUp,
           TriesEnd, Gene.Sound, Gene.Valid, Gene.Contents, GeneIndex.Keys, Population.AssignedTo;
      ghost var listed, cloud := byScore.order, AssignedTo(newborn).cloud;
      tries := [];
      NothingTried(sys, was, listed, cloud);
      for i := 0 to MAX_TRY
        invariant Valid(members) && genes[newborn].Valid(sys) && Shows(was, byScore.order)
        invariant byScore.order == listed && byScore.Keys() == old(byScore.Keys())
        invariant AssignedTo(newborn).cloud == cloud
        invariant |tries| == i && AllRejected(sys, was, listed, cloud, tries)
        invariant i > 0 ==> AssignedTo(newborn) == tries[i - 1].child
      {
        var v;
        ghost var t;
        v, t := TryCrossover(newborn, members, was);
        if v == Overrun {
          DecisiveTry(sys, was, listed, cloud, tries, t, Fatal);
          tries := tries + [t];
          return Fatal, tries;
        }
        if v == Accepted {
          DecisiveTry(sys, was, listed, cloud, tries, t, Done);
          tries := tries + [t];
          return Done, tries;
        }
        AnotherRejected(sys, was, listed, cloud, tries, t);
        tries := tries + [t];
      }
      TriesUsedUp(sys, was, listed, cloud, tries);
      return Fatal, tries;
    }

    /** Overwrites the newborn with an accepted child and lists it; no other record is touched. */
    method BreedAndSort(newborn: nat, ghost was: seq<Record>)
      returns (r: Outcome, ghost tries: seq<Try>, ghost p: nat, ghost x: real)
      requires newborn < |genes| && Valid(Upto(|genes|) - {newborn}) && genes[newborn].Valid(sys)
      requires |byScore.order| == |genes| - 1 && Shows(was, byScore.order)
      modifies lists, genes[newborn].Repr()
      ensures TriesEnd(sys, was, old(byScore.order), old(AssignedTo(newborn).cloud), tries, r)
      ensures AssignedTo(newborn) == tries[|tries| - 1].child
      ensures r == Done ==>
                && Valid(Upto(|genes|)) && x == ContentsOf(newborn).stored.score
                && InsertionPoint(old(byScore.Keys()), x, p) && p <= |old(byScore.order)|
                && byScore.order == InsertAt(old(byScore.order), p, newborn)
      ensures r == Fatal ==>
                && Valid(Upto(|genes|) - {newborn})
                && byScore.order == old(byScore.order) && byScore.Keys() == old(byScore.Keys())
    {
      hide IsRing, AllAlone, RingOf, UnlistedOf, NodesOf, Wired, RingInNodes, Ascending, Ranked, InsertionPoint,
           InsertAt, GeneIndex.Indexed, GeneIndex.Valid, GeneIndex.Keys, Evaluate, MemFits, NoOverrun,
           Upto, Gene.Sound, Separate, TriesEnd, Shows;
      AddBack(newborn, |genes|);
      r, tries := BreedUntilAccepted(newborn, Upto(|genes|) - {newborn}, was);
      p, x := 0, genes[newborn].score;
      if r == Done {
        p, x := SortGene(newborn, Upto(|genes|) - {newborn});
      }
    }

    /** One generation: the gene with the worst score leaves the lists, becomes an accepted child of two
        others and is listed again; nothing else is written.  It ends fatally exactly when some child
        overruns a period or all tries are rejected. */
    method Crossover() returns (r: Outcome, ghost tries: seq<Try>)
      requires Valid(Upto(|genes|))
      modifies lists, records
      ensures Bred(sys, old(Shot()), tries, r)
      ensures r == Done ==> Valid(Upto(|genes|)) && NextGeneration(sys, old(Shot()), Shot(), tries)
      ensures r == Done ==> NoWorse(byScore.Keys(), old(byScore.Keys()))
      ensures r == Fatal ==>
                var s := old(Shot());
                && Valid(Upto(|genes|) - {Worst(s)}) && byScore.order == Others(s)
                && Shot().records == s.records[Worst(s) := ContentsOf(Worst(s))]
    {
      hide IsRing, AllAlone, RingOf, UnlistedOf, NodesOf, Wired, RingInNodes, Ascending, Ranked, InsertionPoint,
           InsertAt, GeneIndex.Indexed, GeneIndex.Valid, GeneIndex.Keys, Evaluate, MemFits, NoOverrun,
           NoWorse, Sum, Upto, Gene.Sound, Gene.Valid, Separate, TriesEnd, IsPopulation, Gene.Contents, Shows,
           NextGeneration, SoundRecord, RemoveAt, Scores, Population.ContentsOf;
      ghost var s := Shot();
      ShotIsPopulation();
      var worst := GetNewborn();
      SameRecords();
      OneOut(s.order);
      ShotShows(byScore.order);
      ghost var p, x;
      r, tries, p, x := BreedAndSort(worst, s.records);
      OneRewritten(worst);
      if r == Done {
        ShotIsPopulation();
        SoundAmong(worst);
        Completed(sys, s, Shot(), tries, ContentsOf(worst), p);
        GenerationImproves(sys, s, Shot(), tries);
      }
    }

    lemma SoundAmong(i: nat)
      requires Valid(Upto(|genes|)) && i < |genes|
      ensures SoundRecord(sys, ContentsOf(i))
    {
      hide Gene.Sound, Separate, Wired, GeneIndex.Indexed, SoundRecord;
      assert i in Upto(|genes|);
      SoundIsRecorded(i);
    }

    lemma ShotShows(listed: seq<nat>)
      requires Shaped()
      ensures Shows(Shot().records, listed)
    {}

    twostate lemma SameRecords()
      requires Shaped() && unchanged(records)
      ensures Shot().records == old(Shot().records)
    {
      hide Separate, Wired, Gene.Contents;
      forall i | 0 <= i < |genes|
        ensures ContentsOf(i) == old(ContentsOf(i))
      {
        assert genes[i].Repr() <= records;
      }
    }

    twostate lemma OneRewritten(new i: nat)
      requires Shaped() && i < |genes| && unchanged(records - genes[i].Repr())
      ensures Shot().records == old(Shot().records)[i := ContentsOf(i)]
    {
      hide Separate, Wired, Gene.Contents;
      OthersUnwritten(i);
    }
  }

  lemma OneOut(order: seq<nat>)
    requires order != []
    ensures RemoveAt(order, |order| - 1) == order[..|order| - 1]
  {}

  lemma NothingTried(sys: System, records: seq<Record>, listed: seq<nat>, cloud: seq<nat>)
    requires sys.Valid()
    ensures AllRejected(sys, records, listed, cloud, [])
  {}

  lemma AddBack(i: nat, n: nat)
    requires i < n
    ensures (Upto(n) - {i}) + {i} == Upto(n) && i !in Upto(n) - {i}
  {}

  /** An empty list that can hold any of the genes. */
  ghost predicate EmptyIndex(x: GeneIndex, key: Key, genes: seq<Gene>, nodes: set<object>)
    reads x, x.Nodes(), x.genes
  {
    x.key == key && x.genes == genes && Wired(x.head, genes, key) && x.Nodes() <= nodes + {x.head} && x.Indexed({})
  }

  method NewIndex(key: Key, genes: seq<Gene>, ghost records: set<object>, ghost nodes: set<object>)
    returns (x: GeneIndex)
    requires Separate(genes) && Allocated(genes, records, nodes)
    ensures fresh(x) && fresh(x.head) && EmptyIndex(x, key, genes, nodes)
  {
    hide IsRing, AllAlone, SelfLinked;
    x := new GeneIndex(key, genes);
  }

  method NewIndices(genes: seq<Gene>, ghost records: set<object>, ghost nodes: set<object>)
    returns (byUtil: GeneIndex, byPower: GeneIndex, byScore: GeneIndex)
    requires Separate(genes) && Allocated(genes, records, nodes)
    ensures fresh({byUtil, byPower, byScore, byUtil.head, byPower.head, byScore.head})
    ensures EmptyIndex(byUtil, ByUtil, genes, nodes)
    ensures EmptyIndex(byPower, ByPower, genes, nodes) && EmptyIndex(byScore, ByScore, genes, nodes)
  {
    hide IsRing, AllAlone, RingOf, UnlistedOf, Wired, Ranked, NodesOf, RingInNodes, Separate, SelfLinked,
         GeneIndex.Indexed, GeneIndex.Valid, Contained;
    byUtil := NewIndex(ByUtil, genes, records, nodes);
    byPower := NewIndex(ByPower, genes, records, nodes);
    byScore := NewIndex(ByScore, genes, records, nodes);
  }

  lemma EmptyIsValid(pop: Population, nodes: set<object>)
    requires pop.sys.Valid() && |pop.genes| >= 3
    requires Separate(pop.genes) && Contained(pop.genes, pop.records, nodes)
    requires forall k :: EmptyIndex(pop.Index(k), k, pop.genes, nodes)
    requires pop.lists == {pop.byUtil, pop.byPower, pop.byScore, pop.byUtil.head, pop.byPower.head, pop.byScore.head}
                          + nodes
    requires pop.lists !! pop.records
    ensures pop.Valid({})
  {
    hide Separate, Wired, GeneIndex.Indexed, NodesOf;
  }

  /** Puts an allocated array and its three empty lists together. */
  method Assemble(sys: System, genes: seq<Gene>, byUtil: GeneIndex, byPower: GeneIndex, byScore: GeneIndex,
                  ghost records: set<object>, ghost nodes: set<object>) returns (pop: Population)
    requires sys.Valid() && |genes| >= 3 && Separate(genes) && Contained(genes, records, nodes)
    requires EmptyIndex(byUtil, ByUtil, genes, nodes)
    requires EmptyIndex(byPower, ByPower, genes, nodes) && EmptyIndex(byScore, ByScore, genes, nodes)
    requires nodes + {byUtil, byPower, byScore, byUtil.head, byPower.head, byScore.head} !! records
    ensures pop.sys == sys && pop.genes == genes && pop.Valid({}) && pop.records == records
    ensures pop.lists == {byUtil, byPower, byScore, byUtil.head, byPower.head, byScore.head} + nodes
  {
    hide IsRing, AllAlone, RingOf, UnlistedOf, Wired, Ranked, NodesOf, RingInNodes, Separate, SelfLinked,
         Population.Valid, Contained, GeneIndex.Indexed;
    ghost var lists := {byUtil, byPower, byScore, byUtil.head, byPower.head, byScore.head} + nodes;
    pop := new Population(sys, genes, byUtil, byPower, byScore, lists, records);
    EmptyIsValid(pop, nodes);
  }

  /** The gene array as allocated, and three empty lists. */
  method NewPopulation(sys: System, nPops: nat) returns (pop: Population)
    requires sys.Valid() && nPops >= 3
    ensures pop.sys == sys && |pop.genes| == nPops && pop.Valid({})
    ensures fresh(pop.lists) && fresh(pop.records)
  {
    hide IsRing, AllAlone, RingOf, UnlistedOf, Wired, Ranked, NodesOf, RingInNodes, Separate, SelfLinked,
         Population.Valid, Contained, GeneIndex.Indexed;
    var genes, byUtil, byPower, byScore;
    ghost var records, nodes;
    genes, records, nodes := Allocate(nPops);
    byUtil, byPower, byScore := NewIndices(genes, records, nodes);
    pop := Assemble(sys, genes, byUtil, byPower, byScore, records, nodes);
  }
}
