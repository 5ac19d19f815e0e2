/** Random tasks around a target utilisation. */
module Workload {
  import opened Random
  import opened Generator

  datatype GeneratedTask = GeneratedTask(wcet: nat, period: nat, memreq: nat, memActiveRatio: real)

  function Share(t: GeneratedTask): real {
    if t.period == 0 then 0.0 else t.wcet as real / t.period as real
  }

  /** Within a factor of 2/3 to 2 of the target utilisation per task. */
  ghost predicate NearTarget(t: GeneratedTask, u: real) {
    0 < t.period && 2.0 * u < 3.0 * Share(t) && Share(t) < 2.0 * u
  }

  /** Less than half of the target memory, up or down. */
  ghost predicate NearMemory(t: GeneratedTask, m: nat) {
    m < 2 * t.memreq && 2 * t.memreq < 3 * m
  }

  /** Not refused when it is read back. */
  ghost predicate Schedulable(t: GeneratedTask) {
    t.wcet < t.period
  }

  /** The period at exactly the target utilisation, truncated. */
  function Nominal(wcet: nat, u: real): nat
    requires 0.0 < u
  {
    (wcet as real / u).Floor
  }

  function UtilSum(tasks: seq<GeneratedTask>): real {
    if tasks == [] then 0.0 else UtilSum(tasks[..|tasks| - 1]) + Share(tasks[|tasks| - 1])
  }

  function MemreqSum(tasks: seq<GeneratedTask>): nat {
    if tasks == [] then 0 else MemreqSum(tasks[..|tasks| - 1]) + tasks[|tasks| - 1].memreq
  }

  /** At most half utilisation leaves room: half the nominal period is at least the execution time. */
  lemma NominalPeriod(wcet: nat, u: real)
    requires 1 <= wcet && 0.0 < u <= 0.5
    ensures Nominal(wcet, u) >= 2 * wcet
  {
    assert wcet as real / u >= 2.0 * wcet as real;
  }

  /** The perturbation can be drawn for every execution time from wcetMin on, without dividing by zero,
      exactly when two target utilisations do not exceed the least of them. */
  lemma EveryPeriodPerturbed(wcetMin: nat, wcetMax: nat, u: real)
    requires 0.0 < u && wcetMin <= wcetMax
    ensures (forall wcet: nat :: wcetMin <= wcet <= wcetMax ==> Nominal(wcet, u) / 2 > 0)
            <==> 2.0 * u <= wcetMin as real
  {
    AtLeastTwo(wcetMin as real, u);
    assert Nominal(wcetMin, u) / 2 > 0 <==> 2.0 * u <= wcetMin as real;
    forall wcet: nat | wcetMin <= wcet <= wcetMax && 2.0 * u <= wcetMin as real
      ensures Nominal(wcet, u) / 2 > 0
    {
      AtLeastTwo(wcet as real, u);
    }
  }

  lemma AtLeastTwo(wcet: real, u: real)
    requires 0.0 < u && 0.0 <= wcet
    ensures (wcet / u).Floor >= 2 <==> 2.0 * u <= wcet
  {
    assert wcet / u >= 2.0 <==> wcet >= 2.0 * u;
  }

  lemma QuotientBetween(wcet: real, period: real, u: real, exact: real)
    requires 0.0 < period && 0.0 < u && wcet == u * exact
    requires exact < 2.0 * period && 2.0 * period < 3.0 * exact
    ensures 2.0 * u < 3.0 * (wcet / period) && wcet / period < 2.0 * u
  {}

  /** The period after perturbing the nominal one. */
  function Perturbed(duration: nat, up: nat, down: nat): int {
    duration + up - down
  }

  /** Perturbing the nominal period by less than half of it, up or down, keeps utilisation within a factor
      of 2/3 to 2 of the target, and with a target of at most one half it keeps the task schedulable. */
  lemma PerturbedPeriod(wcet: nat, u: real, up: nat, down: nat)
    requires 0.0 < u && up < Nominal(wcet, u) / 2 && down < Nominal(wcet, u) / 2
    ensures var period := Perturbed(Nominal(wcet, u), up, down);
            && 0 < period
            && 2.0 * u < 3.0 * (wcet as real / period as real) && wcet as real / period as real < 2.0 * u
            && (wcet <= (Nominal(wcet, u) + 1) / 2 ==> wcet < period)
            && (u <= 0.5 ==> wcet < period)
  {
    var duration := Nominal(wcet, u);
    AtLeastTwo(wcet as real, u);
    if u <= 0.5 {
      NominalPeriod(wcet, u);
    }
    var period := Perturbed(duration, up, down);
    var exact := wcet as real / u;
    assert u * exact == wcet as real;
    assert duration + 2 <= 2 * period < 3 * duration;
    QuotientBetween(wcet as real, period as real, u, exact);
  }

  /** Exactly when no draw makes a task that would be refused: the execution time is at most half the
      nominal period, rounded up. */
  lemma EveryDrawAccepted(wcet: nat, duration: nat)
    requires duration >= 2
    ensures (forall up: nat, down: nat :: up < duration / 2 && down < duration / 2 ==>
               wcet < Perturbed(duration, up, down))
            <==> wcet <= (duration + 1) / 2
  {
    if wcet > (duration + 1) / 2 {
      assert Perturbed(duration, 0, duration / 2 - 1) <= wcet;
    }
  }

  /** The generator with its running sums. */
  class TaskGenerator {
    const wcetMin: nat
    const wcetMax: nat
    const utilCpu1task: real
    const memreq1task: nat
    var utilSumCpu: real
    var memreqTotal: nat

    constructor (wcetMin: nat, wcetMax: nat, utilCpu1task: real, memreq1task: nat)
      ensures this.wcetMin == wcetMin && this.wcetMax == wcetMax
      ensures this.utilCpu1task == utilCpu1task && this.memreq1task == memreq1task
      ensures utilSumCpu == 0.0 && memreqTotal == 0
    {
      this.wcetMin, this.wcetMax := wcetMin, wcetMax;
      this.utilCpu1task, this.memreq1task := utilCpu1task, memreq1task;
      utilSumCpu, memreqTotal := 0.0, 0;
    }

    /** No draw divides by zero. */
    ghost predicate Ready() {
      && wcetMin <= wcetMax && 0.0 < utilCpu1task && memreq1task / 2 > 0
      && forall wcet: nat :: wcetMin <= wcet <= wcetMax ==> Nominal(wcet, utilCpu1task) / 2 > 0
    }

    method DoGenTask() returns (t: GeneratedTask)
      requires Ready()
      modifies this
      ensures wcetMin <= t.wcet <= wcetMax && NearTarget(t, utilCpu1task)
      ensures t.wcet <= (Nominal(t.wcet, utilCpu1task) + 1) / 2 ==> Schedulable(t)
      ensures utilCpu1task <= 0.5 ==> Schedulable(t)
      ensures (t.wcet as real / utilCpu1task).Floor < 2 * t.period
      ensures 2 * t.period < 3 * (t.wcet as real / utilCpu1task).Floor
      ensures NearMemory(t, memreq1task)
      ensures 0.0 < t.memActiveRatio < 0.2
      ensures utilSumCpu == old(utilSumCpu) + Share(t)
      ensures memreqTotal == old(memreqTotal) + t.memreq
    {
      var extra := GetRand(wcetMax - wcetMin + 1);
      var wcet := wcetMin + extra;
      var duration := Nominal(wcet, utilCpu1task);
      var up := GetRand(duration / 2);
      var down := GetRand(duration / 2);
      PerturbedPeriod(wcet, utilCpu1task, up, down);
      var period: nat := Perturbed(duration, up, down);

      var more := GetRand(memreq1task / 2);
      var less := GetRand(memreq1task / 2);
      var memreq: nat := memreq1task + more - less;
      var a := GetRand(1000);
      var b := GetRand(1000);
      var ratio := 0.1 + a as real / 10000.0 - b as real / 10000.0;

      utilSumCpu := utilSumCpu + wcet as real / period as real;
      memreqTotal := memreqTotal + memreq;
      t := GeneratedTask(wcet, period, memreq, ratio);
    }

    /** All tasks.  The total utilisation stays within a factor of 2/3 to 2 of the target, and with at most
        half utilisation per task every one is accepted when it is read back. */
    method GenTask(nTasks: nat) returns (tasks: seq<GeneratedTask>)
      requires Ready() && 1 <= nTasks && utilSumCpu == 0.0 && memreqTotal == 0
      modifies this
      ensures |tasks| == nTasks
      ensures forall i :: 0 <= i < nTasks ==> NearTarget(tasks[i], utilCpu1task)
      ensures utilCpu1task <= 0.5 ==> forall i :: 0 <= i < nTasks ==> Schedulable(tasks[i])
      ensures utilSumCpu == UtilSum(tasks) && memreqTotal == MemreqSum(tasks)
      ensures nTasks * memreq1task < 2 * memreqTotal && 2 * memreqTotal < 3 * (nTasks * memreq1task)
      ensures var utilCpu := utilCpu1task * nTasks as real;
              2.0 * utilCpu < 3.0 * utilSumCpu && utilSumCpu < 2.0 * utilCpu
    {
      hide NearTarget, NearMemory, Schedulable, Nominal, Share;
      tasks := [];
      for i := 0 to nTasks
        invariant |tasks| == i
        invariant forall j :: 0 <= j < i ==> NearTarget(tasks[j], utilCpu1task)
        invariant utilCpu1task <= 0.5 ==> forall j :: 0 <= j < i ==> Schedulable(tasks[j])
        invariant forall j :: 0 <= j < i ==> NearMemory(tasks[j], memreq1task)
        invariant utilSumCpu == UtilSum(tasks) && memreqTotal == MemreqSum(tasks)
      {
        var t := DoGenTask();
        assert (tasks + [t])[..i] == tasks;
        tasks := tasks + [t];
      }
      SumNearTarget(tasks, utilCpu1task);
      SumNearMemory(tasks, memreq1task);
    }
  }

  lemma OneMore(u: real, n: nat)
    ensures u * (n + 1) as real == u * n as real + u
  {}

  lemma {:induction false} SumNearTarget(tasks: seq<GeneratedTask>, u: real)
    requires tasks != [] && 0.0 < u && forall i :: 0 <= i < |tasks| ==> NearTarget(tasks[i], u)
    ensures 2.0 * (u * |tasks| as real) < 3.0 * UtilSum(tasks)
    ensures UtilSum(tasks) < 2.0 * (u * |tasks| as real)
  {
    var front := tasks[..|tasks| - 1];
    OneMore(u, |front|);
    if front != [] {
      SumNearTarget(front, u);
    }
  }

  lemma {:induction false} SumNearMemory(tasks: seq<GeneratedTask>, m: nat)
    requires tasks != [] && forall i :: 0 <= i < |tasks| ==> NearMemory(tasks[i], m)
    ensures |tasks| * m < 2 * MemreqSum(tasks) && 2 * MemreqSum(tasks) < 3 * (|tasks| * m)
  {
    var front := tasks[..|tasks| - 1];
    assert |tasks| * m == |front| * m + m;
    if front != [] {
      SumNearMemory(front, m);
    }
  }

  /** The whole generator, with the full-power utilisation it prints.  With a first memory type of scale 1
      it lies between 2/3 and 2 times the processor target plus the capped memory budget, up to the
      overhead of half the nominal memory and, below, of one unit truncated per task. */
  method Generate(scales: seq<real>, memTotal: nat, utilTarget: real, utilCpu: real, wcetMin: nat, wcetMax: nat, n: nat,
                  ghost largest: real)
    returns (tasks: seq<GeneratedTask>, fullPower: real)
    requires Scales(scales) && scales[0] == 1.0 && memTotal > 0 && memTotal % |scales| == 0
    requires 0.0 < utilCpu <= utilTarget && n > 0 && wcetMin <= wcetMax
    requires forall j :: 0 <= j < |scales| ==> Overhead(scales[j]) <= largest
    requires 2.0 * (utilCpu / n as real) <= wcetMin as real
    requires (BudgetMemory(scales, memTotal, utilTarget - utilCpu) / n as real).Floor >= 2
    ensures |tasks| == n && 0 < memTotal / |scales|
    ensures forall i :: 0 <= i < n ==> NearTarget(tasks[i], utilCpu / n as real)
    ensures fullPower == UtilSum(tasks) + Cost(scales, (memTotal / |scales|) as real, 0, MemreqSum(tasks) as real)
    ensures var types := |scales| as real - 1.0;
            var target := Min(utilTarget - utilCpu, Reciprocals(scales, 1) - types);
            var rate := largest / (memTotal / |scales|) as real;
            var nominal := (BudgetMemory(scales, memTotal, utilTarget - utilCpu) / n as real).Floor;
            var half := (n * nominal) as real / 2.0;
            && 3.0 * (fullPower - target + n as real * rate + rate * half) > 2.0 * utilCpu
            && fullPower - target - rate * half < 2.0 * utilCpu
  {
    hide Cost, Bought, TotalOverhead, Reciprocals, Min, Overhead, BudgetMemory, NearTarget, UtilSum, MemreqSum,
         Nominal, Schedulable;
    var utilCpu1task := utilCpu / n as real;
    EveryPeriodPerturbed(wcetMin, wcetMax, utilCpu1task);
    TotalOverheadLaw(scales, 1);
    var memreq1task := MemreqPerTask(scales, memTotal, utilTarget, utilCpu, n);
    var g := new TaskGenerator(wcetMin, wcetMax, utilCpu1task, memreq1task);
    tasks := g.GenTask(n);
    var overhead := GetUtilOverheadBymem(scales, memTotal, g.memreqTotal);
    fullPower := g.utilSumCpu + overhead;
    PerturbedRoundTrip(scales, memTotal, utilTarget - utilCpu, n, memreq1task, g.memreqTotal, largest);
    assert utilCpu1task * n as real == utilCpu;
    ghost var p, half := (memTotal / |scales|) as real, (n * memreq1task) as real / 2.0;
    PrintedBounds(utilCpu, g.utilSumCpu, Min(utilTarget - utilCpu, TotalOverhead(scales, 1)), overhead, n as real,
                  largest, p, half);
  }

  lemma PrintedBounds(utilCpu: real, util: real, target: real, overhead: real, n: real, largest: real, p: real,
                      half: real)
    requires p > 0.0 && 2.0 * utilCpu < 3.0 * util && util < 2.0 * utilCpu
    requires target - n * largest / p - largest / p * half <= overhead <= target + largest / p * half
    ensures 3.0 * (util + overhead - target + n * (largest / p) + largest / p * half) > 2.0 * utilCpu
    ensures util + overhead - target - largest / p * half < 2.0 * utilCpu
  {
    assert n * largest / p == n * (largest / p);
  }
}
