/** Whole runs as histories of what happened, and what is true of all of them. */
module Histories {
  import opened Outcomes
  import opened Tables
  import opened Evaluation
  import opened Stretching
  import opened Repair
  import opened GeneIndex
  import opened Elitism
  import opened Gene
  import opened Generation
  import opened Report

  /** What happens in a run: the repair runs that fill the genes, the populations of the generations, the
      tries that lead from each to the next, and the tries of a generation that failed. */
  datatype History = History(traces: seq<seq<Assignment>>, shots: seq<Snapshot>, tries: seq<seq<Try>>, failed: seq<Try>)

  /** Every gene holds the assignment its repair run ended well with. */
  ghost predicate Initialised(sys: System, traces: seq<seq<Assignment>>, s: Snapshot)
    requires sys.Valid()
  {
    && |traces| == |s.records| && AllRepaired(sys, traces, Done)
    && forall i :: 0 <= i < |traces| ==> traces[i] != [] && s.records[i].chosen == Last(traces[i])
  }

  /** How a run ends: a gene could not be repaired; no try of a generation was accepted; the best gene of
      the last generation is over-utilised; or its assignment is written out. */
  datatype Ending = Unrepaired | Unbred | OverUtilized | Finished

  ghost predicate IsHistory(sys: System, nPops: nat, maxGen: nat, h: History, e: Ending)
    requires sys.Valid()
  {
    if e == Unrepaired then h.shots == [] && |h.traces| <= nPops && AllRepaired(sys, h.traces, Fatal)
    else
      && h.shots != [] && Initialised(sys, h.traces, h.shots[0]) && |h.traces| == nPops
      && IsEvolution(sys, h.shots, h.tries)
      && if e == Unbred then |h.tries| < maxGen && Bred(sys, h.shots[|h.tries|], h.failed, Fatal)
         else |h.tries| == maxGen && (e == OverUtilized <==> BestUtil(h.shots[maxGen]) > OVER_UTIL)
  }

  /** In every run, from any generation to any later one, the score at every rank and the sum of scores can
      only fall, and every generation consists of as many sound genes as were allocated. */
  lemma RunElitism(sys: System, nPops: nat, maxGen: nat, h: History, e: Ending, i: nat, j: nat)
    requires sys.Valid() && IsHistory(sys, nPops, maxGen, h, e) && i <= j < |h.shots|
    ensures IsPopulation(sys, h.shots[j]) && |h.shots[j].records| == nPops
    ensures NoWorse(Scores(h.shots[j]), Scores(h.shots[i]))
    ensures Sum(Scores(h.shots[j])) <= Sum(Scores(h.shots[i]))
  {
    hide IsPopulation, NextGeneration, NoWorse, Bred;
    ElitismOverRuns(sys, h.shots, h.tries, i, j);
  }

  lemma FirstIsBest(sys: System, s: Snapshot, q: nat)
    requires sys.Valid() && IsPopulation(sys, s) && q < |s.order|
    ensures s.order[0] < |s.records| && Scores(s)[0] == Best(s).stored.score <= Scores(s)[q]
    ensures SoundRecord(sys, Best(s)) && BestUtil(s) <= sys.cutoff
  {
    hide MemFits, NoOverrun, Evaluate;
  }

  /** The assignment read back from the rows that a finished run writes out is local and feasible, meets
      the cutoff and twice the processor, and no gene at any rank of any generation scored less. */
  lemma PlanIsBest(sys: System, nPops: nat, maxGen: nat, h: History, rows: seq<PlanRow>, i: nat, q: nat)
    requires sys.Valid() && nPops >= 3 && IsHistory(sys, nPops, maxGen, h, Finished)
    requires IsPlan(h.shots[maxGen], rows) && i < |h.shots| && q < |h.shots[i].order|
    ensures var plan := ReadBack(rows);
            && plan.Fits(sys) && plan.Local() && MemFits(sys, plan) && NoOverrun(sys, plan) && MeetsPeriods(sys, plan)
            && Evaluate(sys, plan).util <= sys.cutoff && Evaluate(sys, plan).util <= OVER_UTIL
            && Evaluate(sys, plan).score <= Scores(h.shots[i])[q]
  {
    hide MemFits, NoOverrun, MeetsPeriods, Evaluate, NextGeneration, Bred, Initialised;
    var s := h.shots[maxGen];
    RunElitism(sys, nPops, maxGen, h, Finished, i, maxGen);
    RunElitism(sys, nPops, maxGen, h, Finished, i, i);
    FirstIsBest(sys, s, 0);
    FirstIsBest(sys, h.shots[i], q);
    ReadBackListed(rows, Best(s).chosen);
    NoOverrunLaw(sys, ReadBack(rows));
  }

  /** A cutoff of at most 2.0 rules out an over-utilised best gene. */
  lemma LowCutoffFinishes(sys: System, nPops: nat, maxGen: nat, h: History, e: Ending)
    requires sys.Valid() && nPops >= 3 && IsHistory(sys, nPops, maxGen, h, e) && sys.cutoff <= OVER_UTIL
    ensures e != OverUtilized
  {
    hide IsPopulation, NextGeneration, Bred, Initialised, SoundRecord, BestUtil;
    if e == OverUtilized {
      RunElitism(sys, nPops, maxGen, h, e, maxGen, maxGen);
      Nonempty(sys, h.shots[maxGen]);
      FirstIsBest(sys, h.shots[maxGen], 0);
    }
  }

  /** The last report of a finished run shows the true smallest cost, whatever the cutoff. */
  lemma FinishedReportIsRight(sys: System, nPops: nat, maxGen: nat, h: History)
    requires sys.Valid() && nPops >= 3 && IsHistory(sys, nPops, maxGen, h, Finished)
    ensures var s := h.shots[maxGen];
            var utils, scores := UtilsAlong(s.records, s.order), Scores(s);
            s.order != [] && Reported(utils, scores) == CheapestValid(utils, scores)
  {
    hide IsPopulation, NextGeneration, Bred, Initialised, SoundRecord;
    RunElitism(sys, nPops, maxGen, h, Finished, maxGen, maxGen);
    var s := h.shots[maxGen];
    Nonempty(sys, s);
    FirstIsBest(sys, s, 0);
    assert UtilsAlong(s.records, s.order)[0] == BestUtil(s);
    ReportedIsCheapest(UtilsAlong(s.records, s.order), Scores(s));
  }

  // ---------- overruns ----------

  /** The run ended because some task filled its period. */
  ghost predicate EndsByOverrun(sys: System, h: History, e: Ending)
    requires sys.Valid()
  {
    match e
    case Unrepaired =>
      h.traces != [] && Overrunning(sys, h.traces[|h.traces| - 1])
    case Unbred =>
      h.failed != [] && Overrunning(sys, [h.failed[|h.failed| - 1].child])
    case _ => false
  }

  ghost predicate Overrunning(sys: System, trace: seq<Assignment>)
    requires sys.Valid()
  {
    trace != [] && Last(trace).Fits(sys) && GivesUp(sys, Last(trace))
  }

  /** Exactly when no run can end by an overrun. */
  lemma NoRunOverruns(sys: System)
    requires sys.Valid()
    ensures NeverOverruns(sys) <==>
              forall nPops: nat, maxGen: nat, h, e ::
                nPops >= 3 && IsHistory(sys, nPops, maxGen, h, e) ==> !EndsByOverrun(sys, h, e)
  {
    hide IsEvolution, MemFits, NoOverrun, IsPopulation;
    if NeverOverruns(sys) {
      forall nPops: nat, maxGen: nat, h, e | nPops >= 3 && IsHistory(sys, nPops, maxGen, h, e)
        ensures !EndsByOverrun(sys, h, e)
      {
        HistoryNeverOverruns(sys, nPops, maxGen, h, e);
      }
    } else {
      var a: Assignment :| a.Fits(sys) && a.Local() && MemFits(sys, a) && !NoOverrun(sys, a);
      OneTry(sys, a);
      var h := History([[a]], [], [], []);
      assert IsHistory(sys, 3, 0, h, Unrepaired) && EndsByOverrun(sys, h, Unrepaired);
    }
  }

  lemma HistoryNeverOverruns(sys: System, nPops: nat, maxGen: nat, h: History, e: Ending)
    requires sys.Valid() && NeverOverruns(sys) && IsHistory(sys, nPops, maxGen, h, e)
    ensures !EndsByOverrun(sys, h, e)
  {
    hide IsEvolution, MemFits, NoOverrun, IsPopulation, Evaluate, FailedTry, Initialised, Succeeds, IsChild;
  }

  /** With generous tables a run can only fail to finish because every try of a generation was rejected, or
      at the very end; nothing ever overruns. */
  lemma GenerousEndings(sys: System, nPops: nat, maxGen: nat, h: History, e: Ending)
    requires sys.Valid() && Generous(sys) && IsHistory(sys, nPops, maxGen, h, e)
    ensures e != Unrepaired && !EndsByOverrun(sys, h, e)
    ensures e == Unbred ==> |h.failed| == MAX_TRY
  {
    hide NextGeneration, MemFits, NoOverrun, IsPopulation, Evaluate, IsRun, Initialised, Succeeds, IsTry, Generous,
         NeverOverruns, GivesUp, AllRejected;
    GenerousNeverOverruns(sys);
    HistoryNeverOverruns(sys, nPops, maxGen, h, e);
    if e == Unrepaired {
      GenerousSucceeds(sys, h.traces[|h.traces| - 1], Fatal);
    }
    assert e == Unbred ==> h.failed != [] && Last([h.failed[|h.failed| - 1].child]).Fits(sys) by {
      if e == Unbred {
        LastTryFits(sys, h.shots[|h.tries|], h.failed, Fatal);
      }
    }
  }

  lemma LastTryFits(sys: System, s: Snapshot, tries: seq<Try>, r: Outcome)
    requires sys.Valid() && Bred(sys, s, tries, r)
    ensures tries != [] && tries[|tries| - 1].child.Fits(sys)
  {
    hide IsPopulation, AllRejected, Succeeds, GivesUp, IsChild;
  }
}
