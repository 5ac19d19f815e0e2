/** Every figure a gene caches, in closed form from the tables and the chosen indices. */
module LocalFigures {
  import opened Tables
  import opened Evaluation
  import opened Stretching
  import opened Objective

  // ---------- utilisation ----------

  lemma UtilLaw(sys: System, a: Assignment)
    requires sys.Valid() && a.Fits(sys)
    ensures Evaluate(sys, a).util == ShareSum(sys, a, |sys.tasks|)
  {
    hide Accumulate, LocalUtil, ShareSum;
    LocalTotals(sys, a, |sys.tasks|);
  }

  // ---------- power ----------

  /** Processor power of a task: an average of active and idle power, weighted by the two slow-downs, over
      the task's share. */
  function CpuPower(sys: System, a: Assignment, i: nat): real
    requires TaskIndex(sys, a, i)
  {
    var freq, m := sys.cpufreqs[a.freq[i]], sys.mems[a.mem[i]].wcetScale;
    var f := freq.wcetScale;
    (freq.powerActive * m + freq.powerIdle * f) / (m + f) * Share(sys, a, i)
  }

  /** Memory power of a task: idle power all the time, and the difference to active power while active. */
  function MemPower(sys: System, a: Assignment, i: nat): real
    requires TaskIndex(sys, a, i)
  {
    var task, mem := sys.tasks[i], sys.mems[a.mem[i]];
    task.memreq as real * (mem.powerIdle + Share(sys, a, i) * task.memActiveRatio * (mem.powerActive - mem.powerIdle))
  }

  function CpuPowerSum(sys: System, a: Assignment, n: nat): real
    requires sys.Valid() && a.Fits(sys) && n <= |sys.tasks|
  {
    if n == 0 then 0.0 else CpuPowerSum(sys, a, n - 1) + CpuPower(sys, a, n - 1)
  }

  function MemPowerSum(sys: System, a: Assignment, n: nat): real
    requires sys.Valid() && a.Fits(sys) && n <= |sys.tasks|
  {
    if n == 0 then 0.0 else MemPowerSum(sys, a, n - 1) + MemPower(sys, a, n - 1)
  }

  lemma WeightedAverage(pa: real, pi: real, f: real, m: real)
    requires f > 0.0 && m > 0.0
    ensures (pa * (1.0 / f) + pi * (1.0 / m)) / (1.0 / f + 1.0 / m) == (pa * m + pi * f) / (m + f)
  {
    var x, y := 1.0 / f, 1.0 / m;
    var s := x + y;
    assert x * f == 1.0 && y * m == 1.0 && s > 0.0;
    var q := (pa * x + pi * y) / s;
    assert q * s == pa * x + pi * y;
    Cleared(q, pa, pi, x, y, f, m);
  }

  lemma Cleared(q: real, pa: real, pi: real, x: real, y: real, f: real, m: real)
    requires f > 0.0 && m > 0.0 && x * f == 1.0 && y * m == 1.0 && q * (x + y) == pa * x + pi * y
    ensures q == (pa * m + pi * f) / (m + f)
  {
    assert q * (x + y) * f * m == q * ((x * f) * m + (y * m) * f) == q * (m + f);
    assert (pa * x + pi * y) * f * m == pa * (x * f) * m + pi * (y * m) * f;
    assert q * (m + f) == pa * m + pi * f;
  }

  lemma Spread(r: real, g: real, pa: real, pi: real, w: real, p: real, s: real)
    requires p > 0.0 && s == w / p
    ensures MemoryPower(r, g, pa, pi, w, p) == r * (pi + s * g * (pa - pi))
  {
    assert r * (g * pa + (1.0 - g) * pi) * w / p == r * (g * pa + (1.0 - g) * pi) * s;
  }

  lemma TaskCpuPower(sys: System, a: Assignment, i: nat)
    requires TaskIndex(sys, a, i)
    ensures UtilPowerOf(sys, a, i).powerCpu == CpuPower(sys, a, i)
  {
    hide Share, ScaledWcet;
    var mem, freq := sys.mems[a.mem[i]], sys.cpufreqs[a.freq[i]];
    var x, y, s := 1.0 / freq.wcetScale, 1.0 / mem.wcetScale, Share(sys, a, i);
    ShareLaw(sys, a, i);
    assert UtilPowerOf(sys, a, i).powerCpu == (freq.powerActive * x + freq.powerIdle * y) / (x + y) * s;
    WeightedAverage(freq.powerActive, freq.powerIdle, freq.wcetScale, mem.wcetScale);
  }

  lemma TaskMemPower(sys: System, a: Assignment, i: nat)
    requires TaskIndex(sys, a, i)
    ensures UtilPowerOf(sys, a, i).powerMem == MemPower(sys, a, i)
  {
    hide Share, ScaledWcet, MemoryPower;
    var task, mem := sys.tasks[i], sys.mems[a.mem[i]];
    var r, g, w, p := task.memreq as real, task.memActiveRatio, ScaledWcetOf(sys, a, i), task.period as real;
    ShareLaw(sys, a, i);
    assert UtilPowerOf(sys, a, i).powerMem == MemoryPower(r, g, mem.powerActive, mem.powerIdle, w, p);
    Spread(r, g, mem.powerActive, mem.powerIdle, w, p, Share(sys, a, i));
  }

  lemma {:induction false} PowerSums(sys: System, a: Assignment, n: nat)
    requires sys.Valid() && a.Fits(sys) && n <= |sys.tasks|
    ensures Accumulate(sys, a, n).powerCpu == CpuPowerSum(sys, a, n)
    ensures Accumulate(sys, a, n).powerMem == MemPowerSum(sys, a, n)
  {
    hide CpuPower, MemPower, UtilPowerOf, LocalCost, OffloadingCost;
    if n > 0 {
      PowerSums(sys, a, n - 1);
      TaskCpuPower(sys, a, n - 1);
      TaskMemPower(sys, a, n - 1);
    }
  }

  /** The stored powers: the sums over the tasks, and below full utilisation the idle power of the slowest
      frequency over the unused time.  In local mode the network takes none. */
  lemma PowerLaw(sys: System, a: Assignment)
    requires sys.Valid() && a.Fits(sys)
    ensures var e, n := Evaluate(sys, a), |sys.tasks|;
            var idle := if e.util < 1.0 then sys.cpufreqs[|sys.cpufreqs| - 1].powerIdle * (1.0 - e.util) else 0.0;
            && e.cpuPower == CpuPowerSum(sys, a, n) + idle && e.memPower == MemPowerSum(sys, a, n)
            && e.powerNetcom == 0.0 && e.power == e.cpuPower + e.memPower
  {
    hide Accumulate, CpuPowerSum, MemPowerSum;
    PowerSums(sys, a, |sys.tasks|);
    LocalTotals(sys, a, |sys.tasks|);
  }

  /** A task's processor power lies between idle and active power times its share. */
  lemma CpuPowerBetween(sys: System, a: Assignment, i: nat)
    requires TaskIndex(sys, a, i)
    ensures var freq := sys.cpufreqs[a.freq[i]];
            freq.powerIdle <= freq.powerActive ==>
              freq.powerIdle * Share(sys, a, i) <= CpuPower(sys, a, i) <= freq.powerActive * Share(sys, a, i)
  {
    hide Share;
    var freq, m := sys.cpufreqs[a.freq[i]], sys.mems[a.mem[i]].wcetScale;
    ShareLaw(sys, a, i);
    QuotientNonNegative(ScaledWcetOf(sys, a, i), sys.tasks[i].period as real);
    if freq.powerIdle <= freq.powerActive {
      AverageBetween(freq.powerIdle, freq.powerActive, m, freq.wcetScale, Share(sys, a, i));
    }
  }

  lemma AverageBetween(lo: real, hi: real, m: real, f: real, s: real)
    requires lo <= hi && m > 0.0 && f > 0.0 && s >= 0.0
    ensures lo * s <= (hi * m + lo * f) / (m + f) * s <= hi * s
  {
    var q := (hi * m + lo * f) / (m + f);
    assert q * (m + f) == hi * m + lo * f;
    assert (hi - lo) * m >= 0.0 && (hi - lo) * f >= 0.0;
    assert (q - lo) * (m + f) == (hi - lo) * m && (hi - q) * (m + f) == (hi - lo) * f;
    NonNegativeFactor(q - lo, m + f);
    NonNegativeFactor(hi - q, m + f);
    ProductNonNegative(q - lo, s);
    ProductNonNegative(hi - q, s);
    assert (q - lo) * s == q * s - lo * s && (hi - q) * s == hi * s - q * s;
  }

  lemma NonNegativeFactor(x: real, y: real)
    requires x * y >= 0.0 && y > 0.0
    ensures x >= 0.0
  {}

  // ---------- score ----------

  lemma ScoreOf(t: Totals, penalty: real)
    requires t.violations == 0
    ensures Score(t, penalty)
         == if t.util < 1.0 then TotalCost(t) else TotalCost(t) * (1.0 + (t.util - 1.0) * penalty)
  {
    hide TotalCost;
    Expand(TotalCost(t), t.util - 1.0, penalty);
  }

  lemma Expand(cost: real, over: real, penalty: real)
    ensures cost * (1.0 + over * penalty) == cost + cost * over * penalty
  {}

  lemma FitnessLaw(cost: real, penalty: real)
    requires cost + EPS * penalty != 0.0
    ensures Fitness(cost, penalty) * (cost + penalty) == 1.0
  {}

  /** The score is the cost up to full utilisation, and grows by the penalty for every unit above it. */
  ghost predicate ScorePays(e: Figures, penalty: real) {
    && e.score == (if e.util < 1.0 then e.totalCost else e.totalCost * (1.0 + (e.util - 1.0) * penalty))
    && e.constraintPenalty == (if e.util > 1.0 then e.util - 1.0 else 0.0)
    && e.fitness * (e.totalCost + e.constraintPenalty) == 1.0 && e.periodViolation == 0
  }

  lemma ScoreLaw(sys: System, a: Assignment)
    requires sys.Valid() && a.Fits(sys)
    ensures ScorePays(Evaluate(sys, a), sys.penalty)
  {
    hide Accumulate, TotalCost, Fitness, Score;
    var t := Accumulate(sys, a, |sys.tasks|);
    LocalTotals(sys, a, |sys.tasks|);
    CostsArePositive(sys, a, |sys.tasks|);
    ScoreOf(t, sys.penalty);
    FitnessLaw(TotalCost(t), ConstraintPenalty(t));
  }

  // ---------- cost ----------

  /** Power at each frequency index: 1.8e-9 * V * V * F * S. */
  function Watt(freq: nat): real
    requires freq < MAX_CPU_FREQS
  {
    match freq
    case 0 => 0.99
    case 1 => 1.650285
    case 2 => 2.48832
    case 3 => 3.5739
    case _ => 4.7916
  }

  /** A month of one watt costs 0.0576 USD. */
  lemma MonthOfOneWatt(energy: real)
    ensures Price(3600000.0) == 0.08 && Price(energy * ALL_PERIOD) == 0.0576 * energy
  {}

  /** The three quotients by 1000 are integer quotients. */
  function MonthlyCost(task: Task, freq: nat): real
    requires freq < MAX_CPU_FREQS && 1000 <= task.period
  {
    0.0576 * (Watt(freq) * ((task.wcet / 1000) as real / (task.period / 1000) as real)
              + (task.memreq / 1000) as real * (0.002 * task.memActiveRatio + 0.0005))
  }

  lemma LocalCostLaw(task: Task, freq: nat)
    requires freq < MAX_CPU_FREQS && 1000 <= task.period
    ensures LocalCost(task, freq) == MonthlyCost(task, freq)
  {
    hide LocalCost;
    LocalCostFactored(task, freq);
    assert CpuEnergy(freq) == Watt(freq);
    var duty, mb := (task.wcet / 1000) as real / (task.period / 1000) as real, (task.memreq / 1000) as real;
    MonthOfOneWatt(CpuEnergy(freq) * duty + mb * (task.memActiveRatio * K_DYN + K_STAT));
  }

  /** A kilobyte has 1024 bytes; the network takes 1.2 W at 30 Mbit/s up and 120 Mbit/s down. */
  lemma OffloadingCostLaw(task: Task)
    requires 1000 <= task.period
    ensures OffloadingCost(task, 30.0, 120.0) * (task.period / 1000) as real
         == 0.06912 * 0.008192 * (task.inputSize as real / 30.0 + task.outputSize as real / 120.0)
  {
    var period := (task.period / 1000) as real;
    var t := 0.008192 * (task.inputSize as real / 30.0 + task.outputSize as real / 120.0);
    assert (task.inputSize * 1024) as real == 1024.0 * task.inputSize as real;
    assert (task.outputSize * 1024) as real == 1024.0 * task.outputSize as real;
    var months := ALL_PERIOD / period;
    assert months * period == ALL_PERIOD;
    assert OffloadingCost(task, 30.0, 120.0) == Price(1.2 * t * months);
    PriceScaled(1.2 * t, months, period);
  }

  lemma PriceScaled(x: real, y: real, p: real)
    requires y * p == ALL_PERIOD
    ensures Price(x * y) * p == 0.0576 * x
  {
    assert x * y * p == x * (y * p);
  }

  function MonthlyCosts(sys: System, a: Assignment, n: nat): real
    requires sys.Valid() && a.Fits(sys) && n <= |sys.tasks|
  {
    if n == 0 then 0.0 else MonthlyCosts(sys, a, n - 1) + MonthlyCost(sys.tasks[n - 1], a.freq[n - 1])
  }

  function Megabytes(sys: System, n: nat): real
    requires n <= |sys.tasks|
  {
    if n == 0 then 0.0 else Megabytes(sys, n - 1) + sys.tasks[n - 1].memreq as real / 1000.0
  }

  lemma {:induction false} CostSums(sys: System, a: Assignment, n: nat)
    requires sys.Valid() && a.Fits(sys) && a.Local() && n <= |sys.tasks|
    ensures Accumulate(sys, a, n).costCpuMem == Accumulate(sys, a, n).cost == MonthlyCosts(sys, a, n)
    ensures Accumulate(sys, a, n).costNetwork == 0.0 && Accumulate(sys, a, n).usedMemory == Megabytes(sys, n)
  {
    hide MonthlyCost, LocalCost, OffloadingCost, UtilPowerOf;
    if n > 0 {
      CostSums(sys, a, n - 1);
      LocalCostLaw(sys.tasks[n - 1], a.freq[n - 1]);
    }
  }

  /** The stored costs of a local assignment, in USD a month: 0.2016 for the baseline, a 36.5th of 2000 for
      the hardware, and the tasks' shares topped up to the static power of 45000 MB. */
  lemma CostLaw(sys: System, a: Assignment)
    requires sys.Valid() && a.Fits(sys) && a.Local()
    ensures var e, n := Evaluate(sys, a), |sys.tasks|;
            var unused := if Megabytes(sys, n) < 45000.0 then 45000.0 - Megabytes(sys, n) else 0.0;
            && e.costCpuMemory == MonthlyCosts(sys, a, n) + 0.0000288 * unused
            && e.costNetwork == 0.0 && e.costRent == 0.0
            && e.costBase == 0.2016 && e.costHw == 2000.0 / 36.5
            && e.totalCost == MonthlyCosts(sys, a, n) + 0.0000288 * unused + 0.2016 + 2000.0 / 36.5
  {
    hide Accumulate, MonthlyCosts, Megabytes;
    CostSums(sys, a, |sys.tasks|);
  }
}
