/** Utilisation, power and monetary cost of an assignment: the formulas of one task, their
    accumulation over all tasks, and the figures a gene caches. */
module Evaluation {
  import opened Tables

  const C: real := 1.8e-9
  const V: seq<real> := [0.5, 0.65, 0.8, 0.95, 1.1]
  const F: seq<real> := [0.4e9, 0.7e9, 1.2e9, 1.6e9, 2.2e9]
  const S: seq<real> := [5.5, 3.1, 1.8, 1.375, 1.0]
  const P_ELEC: real := 0.08
  const P_BASELINE: real := 3.5
  const K_DYN: real := 2e-3
  const K_STAT: real := 0.5e-3
  const HW_COST: real := 2000.0
  const DEP_PERIOD_SEC: real := 94608000.0
  const ALL_PERIOD: real := 2592000.0
  const MU: real := 1.0
  const EPS: real := 1.0
  const TOTAL_MEMORY: real := 45000.0
  const NET_COM_POWER: real := 75.0
  const REAL_OFFLOADING: real := 0.0

  // ---------- one task ----------

  /** US dollars for an energy in watt-seconds. */
  function Price(energy: real): real {
    energy / 3600000.0 * P_ELEC
  }

  /** Cost of running the task locally.  The three quotients by 1000 are integer quotients. */
  function LocalCost(task: Task, freq: nat): real
    requires freq < MAX_CPU_FREQS && 1000 <= task.period
  {
    var wcet := (task.wcet / 1000) as real;
    var period := (task.period / 1000) as real;
    var eCpu := C * V[freq] * V[freq] * F[freq] * wcet * S[freq] / period;
    var sizeMb := (task.memreq / 1000) as real;
    var eMem := sizeMb * (task.memActiveRatio * K_DYN + K_STAT);
    Price((eCpu + eMem) * ALL_PERIOD)
  }

  function OffloadingCost(task: Task, uplink: real, downlink: real): real
    requires 1000 <= task.period && uplink > 0.0 && downlink > 0.0
  {
    var period := (task.period / 1000) as real;
    var tUpload := (task.inputSize * 1024) as real * 8.0 / (uplink * 1e6);
    var tDownload := (task.outputSize * 1024) as real * 8.0 / (downlink * 1e6);
    Price(1.2 * (tUpload + tDownload) * (ALL_PERIOD / period))
  }

  function ScaledWcet(task: Task, mem: Mem, freq: CpuFreq): real
    requires mem.wcetScale > 0.0 && freq.wcetScale > 0.0
  {
    task.wcet as real * (1.0 / freq.wcetScale) * (1.0 / mem.wcetScale)
  }

  /** Memory power of a task, active for part of its execution time. */
  function MemoryPower(memreq: real, activeRatio: real, active: real, idle: real, wcet: real, period: real): real
    requires period > 0.0
  {
    memreq * (activeRatio * active + (1.0 - activeRatio) * idle) * wcet / period
    + memreq * idle * (1.0 - wcet / period)
  }

  datatype UtilPower = UtilPower(util: real, powerCpu: real, powerMem: real, powerNet: real, deadline: real)

  function TaskUtilPower(task: Task, mem: Mem, cloud: Cloud, freq: CpuFreq, network: Network,
                         commander: NetCommander): UtilPower
    requires mem.wcetScale > 0.0 && freq.wcetScale > 0.0 && cloud.computationPower > 0.0
    requires network.uplink > 0 && network.downlink > 0 && task.period > 0
  {
    var scaledCpu := 1.0 / freq.wcetScale;
    var scaledMem := 1.0 / mem.wcetScale;
    var scaledCloud := 1.0 / cloud.computationPower;
    var wcet := ScaledWcet(task, mem, freq);
    var period := task.period as real;
    var transtime := (task.taskSize + task.inputSize) as real / network.uplink as real
                     + task.outputSize as real / network.downlink as real;
    var netcomtime := (commander.interceptOut + commander.interceptIn) as real;
    var unit := (freq.powerActive * scaledCpu + freq.powerIdle * scaledMem) / (scaledCpu + scaledMem);
    UtilPower(
      (wcet * (1.0 - REAL_OFFLOADING) + scaledCpu * netcomtime * REAL_OFFLOADING) / period,
      unit * (wcet / period) * (1.0 - REAL_OFFLOADING) + unit * (netcomtime / period) * REAL_OFFLOADING,
      if REAL_OFFLOADING == 1.0 then 0.0 else
        MemoryPower(task.memreq as real, task.memActiveRatio, mem.powerActive, mem.powerIdle, wcet, period),
      NET_COM_POWER * ((transtime + netcomtime) / period) * REAL_OFFLOADING,
      (scaledCloud * task.wcet as real + scaledCpu * netcomtime + transtime) / period * REAL_OFFLOADING)
  }

  // ---------- task i of an assignment ----------

  ghost predicate TaskIndex(sys: System, a: Assignment, i: nat) {
    sys.Valid() && a.Fits(sys) && i < |sys.tasks|
  }

  function ScaledWcetOf(sys: System, a: Assignment, i: nat): real
    requires TaskIndex(sys, a, i)
  {
    ScaledWcet(sys.tasks[i], sys.mems[a.mem[i]], sys.cpufreqs[a.freq[i]])
  }

  /** The task for which the program gives up: its stretched execution time fills its period. */
  predicate Overruns(sys: System, a: Assignment, i: nat)
    requires TaskIndex(sys, a, i)
  {
    ScaledWcetOf(sys, a, i) >= sys.tasks[i].period as real
  }

  ghost predicate NoOverrun(sys: System, a: Assignment)
    requires sys.Valid() && a.Fits(sys)
  {
    forall i :: 0 <= i < |sys.tasks| ==> !Overruns(sys, a, i)
  }

  function UtilPowerOf(sys: System, a: Assignment, i: nat): UtilPower
    requires TaskIndex(sys, a, i)
  {
    TaskUtilPower(sys.tasks[i], sys.mems[a.mem[i]], sys.clouds[a.cloud[i]], sys.cpufreqs[a.freq[i]],
                  sys.networks[i], sys.netCommanders[i])
  }

  /** Memory taken from the type the task is assigned to. */
  function MemShare(sys: System, a: Assignment, i: nat): real
    requires TaskIndex(sys, a, i)
  {
    sys.tasks[i].memreq as real * (1.0 - sys.ratios[a.ratio[i]])
  }

  function MemUsed(sys: System, a: Assignment, t: nat, n: nat): real
    requires sys.Valid() && a.Fits(sys) && n <= |sys.tasks|
  {
    if n == 0 then 0.0
    else MemUsed(sys, a, t, n - 1) + (if a.mem[n - 1] == t then MemShare(sys, a, n - 1) else 0.0)
  }

  ghost predicate MemFits(sys: System, a: Assignment)
    requires sys.Valid() && a.Fits(sys)
  {
    forall t :: 0 <= t < |sys.mems| ==> MemUsed(sys, a, t, |sys.tasks|) <= sys.mems[t].maxCapacity as real
  }

  // ---------- all tasks ----------

  /** The running sums of the evaluation loop. */
  datatype Totals = Totals(util: real, powerCpu: real, powerMem: real, powerNet: real, violations: nat,
                           remoteDelay: real, cost: real, costNetwork: real, costCpuMem: real, usedMemory: real)

  const NO_TOTALS := Totals(0.0, 0.0, 0.0, 0.0, 0, 0.0, 0.0, 0.0, 0.0, 0.0)

  function AddTask(sys: System, a: Assignment, i: nat, t: Totals): Totals
    requires TaskIndex(sys, a, i)
  {
    var u := UtilPowerOf(sys, a, i);
    var offloaded := a.ratio[i] != 0;
    var cost := if offloaded then OffloadingCost(sys.tasks[i], 30.0, 120.0) else LocalCost(sys.tasks[i], a.freq[i]);
    Totals(t.util + u.util, t.powerCpu + u.powerCpu, t.powerMem + u.powerMem, t.powerNet + u.powerNet,
           if u.deadline > 1.0 then t.violations + 1 else t.violations,
           if u.deadline > 1.0 && offloaded then t.remoteDelay + (u.deadline - 1.0) else t.remoteDelay,
           t.cost + cost,
           if offloaded then t.costNetwork + cost else t.costNetwork,
           if offloaded then t.costCpuMem else t.costCpuMem + cost,
           if offloaded then t.usedMemory else t.usedMemory + sys.tasks[i].memreq as real / 1000.0)
  }

  function Accumulate(sys: System, a: Assignment, n: nat): (t: Totals)
    requires sys.Valid() && a.Fits(sys) && n <= |sys.tasks|
  {
    if n == 0 then NO_TOTALS else AddTask(sys, a, n - 1, Accumulate(sys, a, n - 1))
  }

  /** Everything the program stores in a gene when it evaluates it. */
  datatype Figures = Figures(util: real, power: real, totalCost: real, score: real, memPower: real, cpuPower: real,
                             powerNetcom: real, costCpuMemory: real, costNetwork: real, costBase: real,
                             costHw: real, costRent: real, constraintPenalty: real, fitness: real,
                             periodViolation: nat)

  const BASE_COST: real := Price(P_BASELINE * ALL_PERIOD)
  const DEPRECIATION_COST: real := HW_COST / DEP_PERIOD_SEC * ALL_PERIOD

  function UnusedMemoryCost(usedMemory: real): real {
    var unused := TOTAL_MEMORY - usedMemory;
    if unused > 0.0 then Price(unused * K_STAT * ALL_PERIOD) else 0.0
  }

  function TotalCost(t: Totals): real {
    t.cost + UnusedMemoryCost(t.usedMemory) + BASE_COST + DEPRECIATION_COST
  }

  /** Idle power of the slowest frequency over the unused time. */
  function SlowestIdle(sys: System, util: real): real
    requires |sys.cpufreqs| > 0
  {
    sys.cpufreqs[|sys.cpufreqs| - 1].powerIdle * (1.0 - util)
  }

  function IdlePower(sys: System, t: Totals): real
    requires |sys.cpufreqs| > 0
  {
    if t.util < 1.0 && t.violations == 0 then SlowestIdle(sys, t.util) else 0.0
  }

  function ConstraintPenalty(t: Totals): real {
    (if t.util > 1.0 then t.util - 1.0 else 0.0) + MU * t.remoteDelay
  }

  /** What over-utilisation adds to the cost. */
  function Surcharge(cost: real, util: real, penalty: real): real {
    cost * (util - 1.0) * penalty
  }

  function Score(t: Totals, penalty: real): real {
    var cost := TotalCost(t);
    if t.util >= 1.0 || t.violations > 0 then cost + Surcharge(cost, t.util, penalty) else cost
  }

  function Fitness(cost: real, penalty: real): real
    requires cost + EPS * penalty != 0.0
  {
    1.0 / (cost + EPS * penalty)
  }

  function FiguresOf(sys: System, t: Totals): Figures
    requires |sys.cpufreqs| > 0 && TotalCost(t) + EPS * ConstraintPenalty(t) != 0.0
  {
    var idle := IdlePower(sys, t);
    Figures(t.util, t.powerCpu + t.powerMem + t.powerNet + idle, TotalCost(t), Score(t, sys.penalty),
            t.powerMem, t.powerCpu + idle, t.powerNet,
            t.costCpuMem + UnusedMemoryCost(t.usedMemory), t.costNetwork, BASE_COST, DEPRECIATION_COST, 0.0,
            ConstraintPenalty(t), Fitness(TotalCost(t), ConstraintPenalty(t)), t.violations)
  }

  function Evaluate(sys: System, a: Assignment): Figures
    requires sys.Valid() && a.Fits(sys)
  {
    var t := Accumulate(sys, a, |sys.tasks|);
    CostsArePositive(sys, a, |sys.tasks|);
    FiguresOf(sys, t)
  }

  // ---------- signs ----------

  lemma ProductNonNegative(x: real, y: real)
    requires x >= 0.0 && y >= 0.0
    ensures x * y >= 0.0
  {}

  lemma QuotientNonNegative(x: real, y: real)
    requires x >= 0.0 && y > 0.0
    ensures x / y >= 0.0
  {}

  /** Energy per unit of local execution at a frequency index. */
  function CpuEnergy(freq: nat): real
    requires freq < MAX_CPU_FREQS
  {
    C * V[freq] * V[freq] * F[freq] * S[freq]
  }

  lemma LocalCostFactored(task: Task, freq: nat)
    requires freq < MAX_CPU_FREQS && 1000 <= task.period
    ensures CpuEnergy(freq) > 0.0
    ensures LocalCost(task, freq)
         == Price((CpuEnergy(freq) * ((task.wcet / 1000) as real / (task.period / 1000) as real)
                   + (task.memreq / 1000) as real * (task.memActiveRatio * K_DYN + K_STAT)) * ALL_PERIOD)
  {}

  lemma LocalCostNonNegative(task: Task, freq: nat)
    requires freq < MAX_CPU_FREQS && 1000 <= task.period && 0.0 <= task.memActiveRatio
    ensures LocalCost(task, freq) >= 0.0
  {
    LocalCostFactored(task, freq);
    var duty := (task.wcet / 1000) as real / (task.period / 1000) as real;
    QuotientNonNegative((task.wcet / 1000) as real, (task.period / 1000) as real);
    ProductNonNegative(CpuEnergy(freq), duty);
    ProductNonNegative((task.memreq / 1000) as real, task.memActiveRatio * K_DYN + K_STAT);
  }

  lemma OffloadingCostNonNegative(task: Task)
    requires 1000 <= task.period
    ensures OffloadingCost(task, 30.0, 120.0) >= 0.0
  {}

  lemma {:induction false} CostsArePositive(sys: System, a: Assignment, n: nat)
    requires sys.Valid() && a.Fits(sys) && n <= |sys.tasks|
    ensures var t := Accumulate(sys, a, n);
            && t.cost >= 0.0 && t.remoteDelay >= 0.0
            && TotalCost(t) > 0.0 && TotalCost(t) + EPS * ConstraintPenalty(t) > 0.0
  {
    if n > 0 {
      CostsArePositive(sys, a, n - 1);
      LocalCostNonNegative(sys.tasks[n - 1], a.freq[n - 1]);
      OffloadingCostNonNegative(sys.tasks[n - 1]);
    }
  }
}
