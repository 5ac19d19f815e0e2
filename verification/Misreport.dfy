/** A population whose report shows the largest score as the smallest: the cheapest gene is not valid, and
    the loop never looks past it. */
module Misreport {
  import opened Tables
  import opened Evaluation
  import opened Objective
  import opened Gene
  import opened Repair
  import opened Generation
  import opened Report
  import opened Histories
  import opened Outcomes

  const WORK := Task(2000, 4800, 0, 0.0, 0, 0, 0)
  const NET := Network(1, 1)
  const COMMANDER := NetCommander(0, 0)

  /** Four equal tasks, a fast and a slow memory, two frequencies, and a cutoff above 3.0. */
  const SYS := System(
    [CpuFreq(1.0, 0.0, 0.0), CpuFreq(0.9, 0.0, 0.0)], [Mem(1, 1.0, 0.0, 0.0), Mem(1, 0.5, 0.0, 0.0)],
    [Cloud(1.0)], [0.0], [WORK, WORK, WORK, WORK], [NET, NET, NET, NET],
    [COMMANDER, COMMANDER, COMMANDER, COMMANDER], 4.0, 0.0)

  /** Every task in the same memory and at the same frequency. */
  function Uniform(mem: nat, freq: nat): Assignment {
    Assignment(seq(4, _ => mem), Zeros(4), seq(4, _ => freq), Zeros(4))
  }

  lemma SystemIsValid()
    ensures SYS.Valid() && Parsed(SYS)
  {}

  lemma UniformTask(mem: nat, freq: nat, i: nat)
    requires mem < 2 && freq < 2 && i < 4
    ensures TaskIndex(SYS, Uniform(mem, freq), i) && SYS.tasks[i] == WORK
    ensures Uniform(mem, freq).ratio[i] == 0 && Uniform(mem, freq).freq[i] == freq
    ensures var u := UtilPowerOf(SYS, Uniform(mem, freq), i);
            u.util == ScaledWcet(WORK, SYS.mems[mem], SYS.cpufreqs[freq]) / 4800.0 && u.deadline == 0.0
  {
    hide ScaledWcet, TaskUtilPower;
    SystemIsValid();
    LocalTask(SYS, Uniform(mem, freq), i);
  }

  lemma {:induction false} UniformTotals(mem: nat, freq: nat, n: nat)
    requires mem < 2 && freq < 2 && n <= 4
    ensures SYS.Valid() && Uniform(mem, freq).Fits(SYS)
    ensures var scaled := ScaledWcet(WORK, SYS.mems[mem], SYS.cpufreqs[freq]);
            var t := Accumulate(SYS, Uniform(mem, freq), n);
            && t.util == n as real * (scaled / 4800.0) && t.cost == n as real * LocalCost(WORK, freq)
            && t.usedMemory == 0.0 && t.violations == 0
  {
    hide LocalCost, ScaledWcet, UtilPowerOf, Uniform, System.Valid, Assignment.Fits;
    UniformTask(mem, freq, 0);
    if n > 0 {
      UniformTask(mem, freq, n - 1);
      UniformTotals(mem, freq, n - 1);
    }
  }

  lemma {:induction false} NothingUsed(mem: nat, freq: nat, t: nat, n: nat)
    requires mem < 2 && freq < 2 && n <= 4 && SYS.Valid() && Uniform(mem, freq).Fits(SYS)
    ensures MemUsed(SYS, Uniform(mem, freq), t, n) == 0.0
  {
    if n > 0 {
      NothingUsed(mem, freq, t, n - 1);
    }
  }

  function UtilOf(mem: nat, freq: nat): real {
    (if mem == 0 then 2000.0 else 4000.0) * (if freq == 0 then 1.0 else 1.0 / 0.9) * 4.0 / 4800.0
  }

  /** Its figures: with no penalty the score is the cost, which depends on the frequency alone. */
  lemma UniformFigures(mem: nat, freq: nat)
    requires mem < 2 && freq < 2 && !(mem == 1 && freq == 1)
    ensures SYS.Valid() && Uniform(mem, freq).Fits(SYS)
    ensures var e := Evaluate(SYS, Uniform(mem, freq));
            && e.util == UtilOf(mem, freq)
            && e.score == 4.0 * LocalCost(WORK, freq) + UnusedMemoryCost(0.0) + BASE_COST + DEPRECIATION_COST
    ensures SoundRecord(SYS, Record(Uniform(mem, freq), Evaluate(SYS, Uniform(mem, freq))))
  {
    hide LocalCost, Accumulate, MemUsed;
    var a := Uniform(mem, freq);
    UniformTotals(mem, freq, 4);
    forall t | 0 <= t < 2
      ensures MemUsed(SYS, a, t, 4) == 0.0
    {
      NothingUsed(mem, freq, t, 4);
    }
    forall i | 0 <= i < 4
      ensures !Overruns(SYS, a, i)
    {}
  }

  lemma SlowerCostsMore()
    ensures 0.0 <= LocalCost(WORK, 0) < LocalCost(WORK, 1)
  {}

  ghost function RecordOf(mem: nat, freq: nat): Record
    requires SYS.Valid() && Uniform(mem, freq).Fits(SYS)
  {
    Record(Uniform(mem, freq), Evaluate(SYS, Uniform(mem, freq)))
  }

  /** Above a cutoff of 3.0 the report can be wrong: from tables that are accepted when read, a run with
      three genes reaches a population whose cheapest valid gene has the smallest score of all, and the
      report shows the largest. */
  lemma ReportCanBeWrong() returns (sys: System, h: History, s: Snapshot)
    ensures sys.Valid() && Parsed(sys) && sys.cutoff > VALID_UTIL
    ensures IsHistory(sys, 3, 0, h, OverUtilized) && s in h.shots && IsPopulation(sys, s)
    ensures var utils, scores := UtilsAlong(s.records, s.order), Scores(s);
            && CheapestValid(utils, scores) == scores[1] == scores[0] < scores[2]
            && Reported(utils, scores) == scores[2]
  {
    hide Evaluate, SoundRecord, LocalCost, AllRepaired;
    SystemIsValid();
    UniformFigures(1, 0);
    UniformFigures(0, 0);
    UniformFigures(0, 1);
    SlowerCostsMore();
    sys := SYS;
    // The slow memory makes the first gene invalid but no dearer; the third is dearer than both.
    s := Snapshot([RecordOf(1, 0), RecordOf(0, 0), RecordOf(0, 1)], [0, 1, 2]);
    var utils, scores := UtilsAlong(s.records, s.order), Scores(s);
    assert utils[0] > VALID_UTIL && utils[1] <= VALID_UTIL;
    assert FirstValid(utils, 0) == FirstValid(utils, 1) == 1;
    var traces := [[Uniform(1, 0)], [Uniform(0, 0)], [Uniform(0, 1)]];
    DrawnSound(s.records, traces);
    h := History(traces, [s], [], []);
  }

  /** Sound assignments may be drawn at the first try. */
  lemma DrawnSound(records: seq<Record>, traces: seq<seq<Assignment>>)
    requires SYS.Valid() && |traces| == |records|
    requires forall i :: 0 <= i < |traces| ==> traces[i] == [records[i].chosen] && SoundRecord(SYS, records[i])
    ensures AllRepaired(SYS, traces, Done)
  {
    hide MemFits, NoOverrun, Evaluate, IsRun;
    forall i | 0 <= i < |traces|
      ensures IsRepair(SYS, traces[i]) && EndsWith(SYS, traces[i], Done)
    {
      OneTry(SYS, records[i].chosen);
    }
  }
}
