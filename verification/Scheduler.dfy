/** A whole run of the genetic scheduler. */
module Scheduler {
  import opened Outcomes
  import opened Tables
  import opened Repair
  import opened EcmList
  import opened GeneIndex
  import opened Generation
  import opened Gene
  import opened Population
  import opened Report
  import opened Histories

  /** Generations from a filled population on. */
  method Evolve(pop: Population, maxGen: nat)
    returns (r: Outcome, ghost shots: seq<Snapshot>, ghost tries: seq<seq<Try>>, ghost failed: seq<Try>)
    requires pop.Valid(Upto(|pop.genes|))
    modifies pop.lists, pop.records
    ensures |shots| == |tries| + 1 && shots[0] == old(pop.Shot()) && IsEvolution(pop.sys, shots, tries)
    ensures r == Done ==>
              pop.Valid(Upto(|pop.genes|)) && |tries| == maxGen && shots[maxGen] == pop.Shot()
    ensures r == Fatal ==> |tries| < maxGen && Bred(pop.sys, shots[|tries|], failed, Fatal)
  {
    hide GeneIndex.Indexed, Gene.Sound, Separate, Wired, Ranked, IsRing, AllAlone, Upto, Population.ContentsOf,
         IsMinimum, IsMaximum, Column, CountValid, RingInNodes, RingOf, NodesOf, UnlistedOf, GeneIndex.Valid, Bred,
         NextGeneration, IsPopulation, IsEvolution, Population.Shot, ValidGenes, Reported, CheapestValid, FirstValid,
         UtilsAlong, Scores, Ascending;
    var gen := 1;
    shots, tries, failed := [pop.Shot()], [], [];
    pop.ShotIsPopulation();
    StartEvolution(pop.sys, pop.Shot());
    var _ := AddReport(pop);
    while gen <= maxGen
      invariant 1 <= gen <= maxGen + 1 && |tries| == gen - 1 && |shots| == gen
      invariant pop.Valid(Upto(|pop.genes|)) && shots[gen - 1] == pop.Shot() && shots[0] == old(pop.Shot())
      invariant IsEvolution(pop.sys, shots, tries)
    {
      ghost var bred;
      r, bred := pop.Crossover();
      if r == Fatal {
        failed := bred;
        return;
      }
      gen := gen + 1;
      ExtendEvolution(pop.sys, shots, tries, pop.Shot(), bred);
      shots, tries := shots + [pop.Shot()], tries + [bred];
      var _ := AddReport(pop);
    }
    return Done, shots, tries, failed;
  }

  /** Allocation, initialisation, all generations, and the plan written at the end. */
  method RunGA(sys: System, nPops: nat, maxGen: nat)
    returns (e: Ending, pop: Population, rows: seq<PlanRow>, ghost h: History)
    requires sys.Valid() && nPops >= 3 && CanBalance(sys)
    ensures IsHistory(sys, nPops, maxGen, h, e)
    ensures pop.sys == sys && |pop.genes| == nPops
    ensures e in {OverUtilized, Finished} ==>
              pop.Valid(Upto(nPops)) && h.shots[maxGen] == pop.Shot()
    ensures e == Finished ==> IsPlan(pop.Shot(), rows) && IsPlan(h.shots[maxGen], rows)
    ensures e == Finished ==>
              var s := h.shots[maxGen];
              && s.order != [] && s.order[0] < |s.records|
              && var best := s.records[s.order[0]].chosen;
                 && |rows| == |best.mem| == |best.freq| == |best.cloud| == |best.ratio|
                 && (forall i :: 0 <= i < |rows| ==> rows[i].mem == best.mem[i])
                 && (forall i :: 0 <= i < |rows| ==> rows[i].freq == best.freq[i])
                 && (forall i :: 0 <= i < |rows| ==> rows[i].cloud == best.cloud[i])
                 && forall i :: 0 <= i < |rows| ==> rows[i].ratio == best.ratio[i]
    ensures Generous(sys) ==> e != Unrepaired
  {
    hide CanBalance, AllRepaired, Generous, GeneIndex.Indexed, Gene.Sound, Separate, Wired, Ranked, IsRing,
         AllAlone, Upto, Bred, IsEvolution, Population.ContentsOf, NodesOf, BestUtil;
    pop := NewPopulation(sys, nPops);
    rows := [];
    var r;
    ghost var traces, shots, tries, failed;
    r, traces := pop.InitPopulations();
    h := History(traces, [], [], []);
    if r == Fatal {
      return Unrepaired, pop, rows, h;
    }
    ghost var s := pop.Shot();
    assert Initialised(sys, traces, s);
    r, shots, tries, failed := Evolve(pop, maxGen);
    h := History(traces, shots, tries, failed);
    if r == Fatal {
      return Unbred, pop, rows, h;
    }
    r, rows := SaveTaskInfos(pop);
    e := if r == Fatal then OverUtilized else Finished;
  }
}
