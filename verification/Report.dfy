/** The periodic report: extremes read from the ends of the sorted lists, against a scan of the array. */
module Report {
  import opened Outcomes
  import opened Tables
  import opened Evaluation
  import opened EcmList
  import opened Gene
  import opened GeneIndex
  import opened Population
  import opened Objective
  import opened Elitism
  import opened Generation

  const VALID_UTIL: real := 3.0

  datatype Row = Row(nValid: nat, utilMin: real, utilMax: real, costMin: real, costMax: real)

  ghost predicate IsMinimum(x: real, s: seq<real>) {
    x in s && forall y :: y in s ==> x <= y
  }

  ghost predicate IsMaximum(x: real, s: seq<real>) {
    x in s && forall y :: y in s ==> y <= x
  }

  /** One key of every gene, in array order. */
  ghost function Column(genes: seq<Gene>, k: Key): (s: seq<real>)
    reads genes
    ensures |s| == |genes|
  {
    seq(|genes|, i requires 0 <= i < |genes| reads genes => genes[i].KeyOf(k))
  }

  function CountValid(utils: seq<real>): nat {
    if utils == [] then 0
    else CountValid(utils[..|utils| - 1]) + if utils[|utils| - 1] <= VALID_UTIL then 1 else 0
  }

  /** The count is the number of genes with utilisation at most 3.0. */
  lemma {:induction false} CountIsSize(utils: seq<real>)
    ensures CountValid(utils) == |set i: nat | i < |utils| && utils[i] <= 3.0|
  {
    var valid := set i: nat | i < |utils| && utils[i] <= 3.0;
    if utils == [] {
      assert valid == {};
    } else {
      var n := |utils| - 1;
      var front := utils[..n];
      CountIsSize(front);
      var before := set i: nat | i < |front| && front[i] <= 3.0;
      assert valid == if utils[n] <= 3.0 then before + {n} else before;
    }
  }

  /** The number of genes with utilisation at most 3.0. */
  ghost function ValidGenes(genes: seq<Gene>): nat
    reads genes
  {
    |set i: nat | i < |genes| && genes[i].util <= 3.0|
  }

  lemma {:induction false} AllValid(utils: seq<real>)
    requires forall i :: 0 <= i < |utils| ==> utils[i] <= VALID_UTIL
    ensures CountValid(utils) == |utils|
  {
    if utils != [] {
      AllValid(utils[..|utils| - 1]);
    }
  }

  /** A column read in the order of a ranking. */
  ghost function ReadAlong(order: seq<nat>, column: seq<real>): (s: seq<real>)
    ensures |s| == |order|
  {
    seq(|order|, q requires 0 <= q < |order| => if order[q] < |column| then column[order[q]] else 0.0)
  }

  lemma {:induction false} RankingPermutes(order: seq<nat>, column: seq<real>)
    requires Ranked(order, |column|) && forall i :: i in order <==> i in Upto(|column|)
    ensures multiset(ReadAlong(order, column)) == multiset(column)
    decreases |column|
  {
    hide Ranked, Upto, ReadAlong;
    RankedLength(order, |column|);
    if column != [] {
      var front := column[..|column| - 1];
      var p := LastRanked(order, |column|);
      RankingPermutes(RemoveAt(order, p), front);
      ReadAlongRemove(order, column, p);
      TakeOut(ReadAlong(order, column), p);
      TakeOut(column, |column| - 1);
      assert RemoveAt(column, |column| - 1) == front;
    }
  }

  /** Where the last index stands in a ranking; without it the indices below are ranked. */
  lemma LastRanked(order: seq<nat>, n: nat) returns (p: nat)
    requires n > 0 && Ranked(order, n) && forall i :: i in order <==> i in Upto(n)
    ensures p < |order| && order[p] == n - 1 && Ranked(RemoveAt(order, p), n - 1)
    ensures forall i :: i in RemoveAt(order, p) <==> i in Upto(n - 1)
  {
    assert n - 1 in Upto(n);
    p :| 0 <= p < |order| && order[p] == n - 1;
    RemoveKeepsRanked(order, p, n);
    assert forall i :: i in Upto(n - 1) <==> i in Upto(n) && i != n - 1;
    assert forall q :: 0 <= q < |RemoveAt(order, p)| ==> RemoveAt(order, p)[q] in RemoveAt(order, p);
  }

  lemma ReadAlongRemove(order: seq<nat>, column: seq<real>, p: nat)
    requires p < |order| && column != [] && Ranked(order, |column|)
    requires order[p] == |column| - 1 && Ranked(RemoveAt(order, p), |column| - 1)
    ensures ReadAlong(RemoveAt(order, p), column[..|column| - 1]) == RemoveAt(ReadAlong(order, column), p)
    ensures ReadAlong(order, column)[p] == column[|column| - 1]
  {}

  lemma TakeOut(s: seq<real>, p: nat)
    requires p < |s|
    ensures multiset(s) == multiset(RemoveAt(s, p)) + multiset{s[p]}
  {
    assert s == s[..p] + [s[p]] + s[p + 1..];
  }

  /** The keys read along a full list are the sorted version of the array's column: the same values, in
      ascending order, and no other sequence is that. */
  lemma KeysAreSortedColumn(x: GeneIndex, sorted: seq<real>)
    requires x.Indexed(Upto(|x.genes|))
    ensures sorted == x.Keys() <==> Ascending(sorted) && multiset(sorted) == multiset(Column(x.genes, x.key))
  {
    RankingPermutes(x.order, Column(x.genes, x.key));
    assert x.Keys() == ReadAlong(x.order, Column(x.genes, x.key));
    if Ascending(sorted) && multiset(sorted) == multiset(Column(x.genes, x.key)) {
      SortedVectorUnique(sorted, x.Keys());
    }
  }

  /** The ends of a full list are the extremes of the whole array. */
  lemma EndsAreExtremes(x: GeneIndex)
    requires x.Indexed(Upto(|x.genes|)) && x.genes != []
    ensures var keys := x.Keys();
            && keys != []
            && IsMinimum(keys[0], Column(x.genes, x.key))
            && IsMaximum(keys[|keys| - 1], Column(x.genes, x.key))
  {
    hide Column, GeneIndex.Valid;
    KeysAreSortedColumn(x, x.Keys());
    SameElements(x.Keys(), Column(x.genes, x.key));
  }

  lemma SameElements(s: seq<real>, t: seq<real>)
    requires multiset(s) == multiset(t)
    ensures |s| == |t| && forall y :: y in s <==> y in t
  {
    assert |multiset(s)| == |s| && |multiset(t)| == |t|;
    assert forall y :: y in s <==> y in multiset(s);
    assert forall y :: y in t <==> y in multiset(t);
  }

  /** The genes at the two ends of a list show the extremes of the whole array. */
  method ReadEnds(x: GeneIndex) returns (least: real, largest: real)
    requires x.Indexed(Upto(|x.genes|)) && x.genes != []
    ensures IsMinimum(least, Column(x.genes, x.key)) && IsMaximum(largest, Column(x.genes, x.key))
    ensures x.Valid() && x.order != [] && x.order[0] < |x.genes| && x.genes[x.order[0]].KeyOf(x.key) == least
    ensures x.Keys() != [] && x.Keys()[|x.Keys()| - 1] == largest
  {
    hide IsRing, AllAlone, IsMinimum, IsMaximum, Column;
    EndsAreExtremes(x);
    var first := x.First();
    var last := x.Last();
    least, largest := x.genes[first].KeyOf(x.key), x.genes[last].KeyOf(x.key);
  }

  /** The loop that looks for the cheapest valid gene only ever inspects the first gene of the list. */
  method FindCostMin(x: GeneIndex) returns (costMin: real)
    requires x.Valid() && x.order != []
    ensures var first := x.genes[x.order[0]];
            costMin == if first.util <= VALID_UTIL then first.score else -1.0
  {
    costMin := -1.0;
    ghost var p := 0;
    var lp := x.head.next;
    assert x.ring[0].next == x.ring[1];
    while lp != x.head
      invariant p <= |x.order| && lp == if p == |x.order| then x.head else x.ring[p + 1]
      invariant costMin == -1.0
      invariant p > 0 ==> x.genes[x.order[0]].util > VALID_UTIL
      decreases |x.order| - p
    {
      var first := x.First();
      if x.genes[first].util <= VALID_UTIL {
        return x.genes[first].score;
      }
      lp := lp.next;
      p := p + 1;
    }
  }

  method ScanValid(genes: seq<Gene>) returns (nValid: nat)
    ensures nValid == CountValid(Column(genes, ByUtil))
    ensures nValid == ValidGenes(genes)
  {
    nValid := 0;
    for i := 0 to |genes|
      invariant nValid == CountValid(Column(genes, ByUtil)[..i])
    {
      ghost var utils := Column(genes, ByUtil);
      assert utils[..i + 1][..i] == utils[..i];
      if genes[i].util <= VALID_UTIL {
        nValid := nValid + 1;
      }
    }
    ghost var all := Column(genes, ByUtil);
    assert all[..|genes|] == all;
    CountIsSize(all);
    assert (set i: nat | i < |genes| && genes[i].util <= 3.0) == set i: nat | i < |all| && all[i] <= 3.0;
  }

  lemma ScoreNonNegative(sys: System, a: Assignment)
    requires sys.Valid() && a.Fits(sys) && sys.penalty >= 0.0
    ensures Evaluate(sys, a).score >= 0.0
  {
    hide Accumulate, TotalCost;
    var t := Accumulate(sys, a, |sys.tasks|);
    CostsArePositive(sys, a, |sys.tasks|);
    LocalTotals(sys, a, |sys.tasks|);
    if t.util >= 1.0 {
      ProductNonNegative(TotalCost(t), t.util - 1.0);
      ProductNonNegative(TotalCost(t) * (t.util - 1.0), sys.penalty);
    }
  }

  lemma SoundGene(g: Gene, sys: System)
    requires sys.Valid() && g.Sound(sys)
    ensures g.util <= sys.cutoff && (sys.penalty >= 0.0 ==> g.score >= 0.0)
  {
    hide Evaluate, MemFits, NoOverrun;
    if sys.penalty >= 0.0 {
      ScoreNonNegative(sys, g.Assigned(|sys.tasks|));
    }
  }

  /** With a cutoff of at most 3.0 every listed gene counts as valid. */
  lemma CutoffMakesAllValid(pop: Population)
    requires pop.Valid(Upto(|pop.genes|)) && pop.sys.cutoff <= VALID_UTIL
    ensures CountValid(Column(pop.genes, ByUtil)) == |pop.genes|
  {
    hide Gene.Sound, GeneIndex.Indexed, Separate;
    forall i | 0 <= i < |pop.genes|
      ensures pop.genes[i].util <= VALID_UTIL
    {
      SoundGene(pop.genes[i], pop.sys);
    }
    AllValid(Column(pop.genes, ByUtil));
  }

  // ---------- the smallest cost ----------

  /** The first valid rank from q on, or the number of ranks. */
  function FirstValid(utils: seq<real>, q: nat): (first: nat)
    requires q <= |utils|
    ensures q <= first <= |utils|
    ensures first < |utils| ==> utils[first] <= VALID_UTIL
    ensures forall j :: q <= j < first ==> utils[j] > VALID_UTIL
    decreases |utils| - q
  {
    if q == |utils| || utils[q] <= VALID_UTIL then q else FirstValid(utils, q + 1)
  }

  /** What the column is for: the score of the cheapest valid gene, or the largest score when no gene is
      valid or that score is negative. */
  function CheapestValid(utils: seq<real>, scores: seq<real>): real
    requires |utils| == |scores| > 0
  {
    var q := FirstValid(utils, 0);
    if q < |utils| && scores[q] >= 0.0 then scores[q] else scores[|scores| - 1]
  }

  /** What the loop makes of it, since it inspects the first gene on every iteration. */
  function Reported(utils: seq<real>, scores: seq<real>): real
    requires |utils| == |scores| > 0
  {
    if utils[0] <= VALID_UTIL && scores[0] >= 0.0 then scores[0] else scores[|scores| - 1]
  }

  /** In a sorted list the first valid rank holds the cheapest of all valid genes. */
  lemma FirstValidIsCheapest(utils: seq<real>, scores: seq<real>)
    requires |utils| == |scores| > 0 && Ascending(scores)
    ensures var q := FirstValid(utils, 0);
            forall j :: 0 <= j < |utils| && utils[j] <= VALID_UTIL ==> q <= j && scores[q] <= scores[j]
  {}

  /** Exactly when the report is right: the first gene is valid, or none is, or the cheapest valid one is
      reported as the largest score anyway. */
  lemma ReportedIsCheapest(utils: seq<real>, scores: seq<real>)
    requires |utils| == |scores| > 0
    ensures var q := FirstValid(utils, 0);
            Reported(utils, scores) == CheapestValid(utils, scores) <==>
              q == 0 || q == |utils| || scores[q] < 0.0 || scores[q] == scores[|scores| - 1]
  {}

  /** Utilisations in the order of the score list. */
  ghost function UtilsAlong(records: seq<Record>, order: seq<nat>): (utils: seq<real>)
    ensures |utils| == |order|
  {
    seq(|order|, q requires 0 <= q < |order| => if order[q] < |records| then records[order[q]].stored.util else 0.0)
  }

  lemma FirstAlong(pop: Population)
    requires pop.Valid(Upto(|pop.genes|))
    ensures pop.byScore.Valid() && |pop.byScore.order| == |pop.genes| && pop.byScore.order[0] < |pop.genes|
    ensures var s, i := pop.Shot(), pop.byScore.order[0];
            && UtilsAlong(s.records, s.order)[0] == pop.genes[i].util
            && Scores(s) == pop.byScore.Keys() && pop.byScore.Keys()[0] == pop.genes[i].score
  {
    hide Gene.Sound, Separate, IsRing, AllAlone, RingOf, UnlistedOf, NodesOf, Wired, RingInNodes, Ascending,
         Upto, GeneIndex.Indexed, GeneIndex.Keys, Ranked, Scores, IsPopulation;
    pop.FullList();
    pop.ShotIsPopulation();
    pop.ScoreAtRank(0, Upto(|pop.genes|));
  }

  /** The two columns read from the score list. */
  method ReadCosts(pop: Population) returns (costMin: real, costMax: real)
    requires pop.Valid(Upto(|pop.genes|))
    ensures IsMaximum(costMax, Column(pop.genes, ByScore))
    ensures |pop.byScore.order| == |pop.genes| >= 3 && Scores(pop.Shot()) == pop.byScore.Keys()
    ensures var s := pop.Shot();
            costMin == Reported(UtilsAlong(s.records, s.order), Scores(s)) && costMax == Scores(s)[|s.order| - 1]
  {
    hide Gene.Sound, Separate, IsRing, AllAlone, RingOf, UnlistedOf, NodesOf, Wired, RingInNodes, Ascending,
         IsMinimum, IsMaximum, Column, Upto, GeneIndex.Indexed, GeneIndex.Valid, GeneIndex.Keys,
         Population.Shot, Scores, UtilsAlong, Ranked;
    assert pop.Index(ByScore).Indexed(Upto(|pop.genes|));
    FirstAlong(pop);
    var _, largest := ReadEnds(pop.byScore);
    costMax := largest;
    costMin := FindCostMin(pop.byScore);
    if costMin < 0.0 {
      costMin := costMax;
    }
  }

  /** Extremes of utilisation and the largest score are those of the whole array.  The smallest cost is
      the one of the cheapest valid gene exactly under the condition above, which a cutoff of at most 3.0
      guarantees; with a penalty of at least zero it is then the smallest of the array. */
  method AddReport(pop: Population) returns (row: Row)
    requires pop.Valid(Upto(|pop.genes|))
    ensures row.nValid == CountValid(Column(pop.genes, ByUtil))
    ensures row.nValid == ValidGenes(pop.genes)
    ensures pop.sys.cutoff <= VALID_UTIL ==> row.nValid == |pop.genes|
    ensures IsMinimum(row.utilMin, Column(pop.genes, ByUtil)) && IsMaximum(row.utilMax, Column(pop.genes, ByUtil))
    ensures IsMaximum(row.costMax, Column(pop.genes, ByScore))
    ensures |pop.byScore.order| == |pop.genes| >= 3 && Scores(pop.Shot()) == pop.byScore.Keys()
    ensures var s := pop.Shot();
            var utils, scores := UtilsAlong(s.records, s.order), Scores(s);
            var q := FirstValid(utils, 0);
            && row.costMin == Reported(utils, scores) && row.costMax == scores[|scores| - 1]
            && (row.costMin == CheapestValid(utils, scores) <==>
                  q == 0 || q == |utils| || scores[q] < 0.0 || scores[q] == scores[|scores| - 1])
            && (pop.sys.cutoff <= VALID_UTIL ==> q == 0)
    ensures pop.sys.cutoff <= VALID_UTIL && pop.sys.penalty >= 0.0 ==>
              IsMinimum(row.costMin, Column(pop.genes, ByScore))
  {
    hide Gene.Sound, Separate, IsRing, AllAlone, RingOf, UnlistedOf, NodesOf, Wired, RingInNodes, Ascending,
         CountValid, ValidGenes, IsMinimum, IsMaximum, Column, Upto, GeneIndex.Indexed, GeneIndex.Valid, GeneIndex.Keys,
         Population.Shot, Scores, UtilsAlong, Ranked;
    assert pop.Index(ByUtil).Indexed(Upto(|pop.genes|));
    var nValid := ScanValid(pop.genes);
    var utilMin, utilMax := ReadEnds(pop.byUtil);
    var costMin, costMax := ReadCosts(pop);
    row := Row(nValid, utilMin, utilMax, costMin, costMax);
    ghost var s := pop.Shot();
    ReportedIsCheapest(UtilsAlong(s.records, s.order), Scores(s));
    if pop.sys.cutoff <= VALID_UTIL {
      CutoffMakesAllValid(pop);
      FirstIsReported(pop);
    }
  }

  /** With a cutoff of at most 3.0 the first gene is valid, and with scores of at least zero it is reported. */
  lemma FirstIsReported(pop: Population)
    requires pop.Valid(Upto(|pop.genes|)) && pop.sys.cutoff <= VALID_UTIL
    ensures |pop.byScore.order| == |pop.genes|
    ensures var s := pop.Shot();
            var utils, scores := UtilsAlong(s.records, s.order), Scores(s);
            && FirstValid(utils, 0) == 0
            && (pop.sys.penalty >= 0.0 ==> IsMinimum(Reported(utils, scores), Column(pop.genes, ByScore)))
  {
    hide Gene.Sound, Separate, IsRing, AllAlone, RingOf, UnlistedOf, NodesOf, Wired, RingInNodes, Ascending,
         IsMinimum, Column, Upto, GeneIndex.Indexed, GeneIndex.Valid, GeneIndex.Keys,
         Population.Shot, Scores, UtilsAlong, Ranked;
    assert pop.Index(ByScore).Indexed(Upto(|pop.genes|));
    FirstAlong(pop);
    CheapestIsValid(pop);
    EndsAreExtremes(pop.byScore);
  }

  lemma CheapestIsValid(pop: Population)
    requires pop.Valid(Upto(|pop.genes|)) && pop.sys.cutoff <= VALID_UTIL
    ensures pop.byScore.order != []
    ensures var i := pop.byScore.order[0];
            i < |pop.genes| && pop.genes[i].util <= VALID_UTIL
            && (pop.sys.penalty >= 0.0 ==> pop.genes[i].score >= 0.0)
  {
    hide Gene.Sound, GeneIndex.Indexed, Separate;
    pop.FullList();
    pop.ScoreAtRank(0, Upto(|pop.genes|));
    SoundGene(pop.genes[pop.byScore.order[0]], pop.sys);
  }

  // ---------- the plan written at the end ----------

  const OVER_UTIL: real := 2.0

  /** The table indices written for one task. */
  datatype PlanRow = PlanRow(mem: nat, freq: nat, cloud: nat, ratio: nat)

  /** The rows hold, task by task, the indices of an assignment. */
  ghost predicate Lists(rows: seq<PlanRow>, a: Assignment) {
    && |rows| == |a.mem| == |a.freq| == |a.cloud| == |a.ratio|
    && forall i :: 0 <= i < |rows| ==>
         && rows[i].mem == a.mem[i] && rows[i].freq == a.freq[i]
         && rows[i].cloud == a.cloud[i] && rows[i].ratio == a.ratio[i]
  }

  /** The assignment that the rows are read back as. */
  function ReadBack(rows: seq<PlanRow>): Assignment {
    Assignment(seq(|rows|, i requires 0 <= i < |rows| => rows[i].mem),
               seq(|rows|, i requires 0 <= i < |rows| => rows[i].cloud),
               seq(|rows|, i requires 0 <= i < |rows| => rows[i].freq),
               seq(|rows|, i requires 0 <= i < |rows| => rows[i].ratio))
  }

  lemma ReadBackListed(rows: seq<PlanRow>, a: Assignment)
    ensures Lists(rows, a) <==> ReadBack(rows) == a
  {
    if ReadBack(rows) == a {
      var b := ReadBack(rows);
      assert forall i :: 0 <= i < |rows| ==> rows[i].mem == b.mem[i] && rows[i].freq == b.freq[i]
                                              && rows[i].cloud == b.cloud[i] && rows[i].ratio == b.ratio[i];
    }
  }

  /** What is stored for the gene with the smallest score. */
  ghost function Best(s: Snapshot): Record
    requires s.order != [] && s.order[0] < |s.records|
  {
    s.records[s.order[0]]
  }

  ghost function BestUtil(s: Snapshot): real {
    if s.order != [] && s.order[0] < |s.records| then Best(s).stored.util else 0.0
  }

  /** The rows are the assignment of the gene with the smallest score. */
  ghost predicate IsPlan(s: Snapshot, rows: seq<PlanRow>) {
    s.order != [] && s.order[0] < |s.records| && Lists(rows, Best(s).chosen)
  }

  lemma Nonempty(sys: System, s: Snapshot)
    requires sys.Valid() && IsPopulation(sys, s)
    ensures s.order != [] && |s.order| == |s.records| && s.order[0] < |s.records|
    ensures BestUtil(s) == Best(s).stored.util && Best(s).chosen.Fits(sys)
  {
    hide MemFits, NoOverrun, Evaluate;
  }

  method WriteRows(g: Gene, sys: System) returns (rows: seq<PlanRow>)
    requires sys.Valid() && g.Valid(sys)
    ensures Lists(rows, g.Assigned(|sys.tasks|))
  {
    ghost var a := g.Assigned(|sys.tasks|);
    rows := [];
    for i := 0 to |sys.tasks|
      invariant |rows| == i
      invariant forall j :: 0 <= j < i ==> rows[j] == PlanRow(a.mem[j], a.freq[j], a.cloud[j], a.ratio[j])
    {
      assert a.mem[i] == g.mem.attrs[i] && a.freq[i] == g.freq.attrs[i];
      assert a.cloud[i] == g.cloud.attrs[i] && a.ratio[i] == g.ratio.attrs[i];
      rows := rows + [PlanRow(g.mem.attrs[i], g.freq.attrs[i], g.cloud.attrs[i], g.ratio.attrs[i])];
    }
  }

  /** Writes the assignment of the first gene of the score list, unless that gene is over-utilised. */
  method SaveTaskInfos(pop: Population) returns (r: Outcome, rows: seq<PlanRow>)
    requires pop.Valid(Upto(|pop.genes|))
    ensures r == Fatal <==> BestUtil(pop.Shot()) > OVER_UTIL
    ensures r == Done ==> IsPlan(pop.Shot(), rows)
    ensures |pop.byScore.order| == |pop.genes| >= 3 && pop.byScore.order[0] < |pop.genes|
    ensures r == Fatal <==> pop.genes[pop.byScore.order[0]].util > 2.0
    ensures r == Done ==>
              var best := pop.AssignedTo(pop.byScore.order[0]);
              && |rows| == |best.mem| == |best.freq| == |best.cloud| == |best.ratio|
              && (forall i :: 0 <= i < |rows| ==> rows[i].mem == best.mem[i])
              && (forall i :: 0 <= i < |rows| ==> rows[i].freq == best.freq[i])
              && (forall i :: 0 <= i < |rows| ==> rows[i].cloud == best.cloud[i])
              && forall i :: 0 <= i < |rows| ==> rows[i].ratio == best.ratio[i]
  {
    hide IsRing, AllAlone, RingOf, UnlistedOf, NodesOf, Wired, RingInNodes, Ascending, Upto, GeneIndex.Indexed,
         GeneIndex.Keys, Ranked, Scores, IsPopulation, MemFits, NoOverrun, Evaluate, Separate;
    FirstAlong(pop);
    pop.ShotIsPopulation();
    pop.ScoreAtRank(0, Upto(|pop.genes|));
    Nonempty(pop.sys, pop.Shot());
    var i := pop.byScore.First();
    var gene := pop.genes[i];
    rows := [];
    if gene.util > OVER_UTIL {
      return Fatal, rows;
    }
    rows := WriteRows(gene, pop.sys);
    return Done, rows;
  }
}
