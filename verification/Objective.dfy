/** What the objective promises: in local mode a slower processor setting never makes an assignment
    cheaper or less utilised, and the stored cost breakdown adds up to the total. */
module Objective {
  import opened Tables
  import opened Evaluation
  import opened Stretching

  // ---------- local mode ----------

  /** Utilisation as the sum of stretched execution times over periods. */
  function LocalUtil(sys: System, a: Assignment, n: nat): real
    requires sys.Valid() && a.Fits(sys) && n <= |sys.tasks|
  {
    if n == 0 then 0.0 else LocalUtil(sys, a, n - 1) + ScaledWcetOf(sys, a, n - 1) / sys.tasks[n - 1].period as real
  }

  lemma LocalTask(sys: System, a: Assignment, i: nat)
    requires TaskIndex(sys, a, i)
    ensures var u := UtilPowerOf(sys, a, i);
            && u.util == ScaledWcetOf(sys, a, i) / sys.tasks[i].period as real
            && u.powerNet == 0.0 && u.deadline == 0.0
  {}

  /** The offloading terms vanish whatever the assignment: no period is ever violated, no delay and
      no network power is ever charged, and utilisation is the plain sum. */
  lemma {:induction false} LocalTotals(sys: System, a: Assignment, n: nat)
    requires sys.Valid() && a.Fits(sys) && n <= |sys.tasks|
    ensures var t := Accumulate(sys, a, n);
            t.util == LocalUtil(sys, a, n) && t.violations == 0 && t.remoteDelay == 0.0 && t.powerNet == 0.0
    ensures Accumulate(sys, a, n).util == ShareSum(sys, a, n)
  {
    hide Share, ScaledWcetOf, UtilPowerOf;
    if n > 0 {
      LocalTotals(sys, a, n - 1);
      LocalTask(sys, a, n - 1);
      ShareLaw(sys, a, n - 1);
    }
  }

  // ---------- monotonicity in the frequency indices ----------

  /** b differs from a only in running some tasks at slower frequencies. */
  ghost predicate SlowedDown(a: Assignment, b: Assignment) {
    && a.mem == b.mem && a.cloud == b.cloud && a.ratio == b.ratio && |a.freq| == |b.freq|
    && forall i :: 0 <= i < |a.freq| ==> a.freq[i] <= b.freq[i]
  }

  lemma ProductMonotone(x: real, y: real, k: real)
    requires x <= y && 0.0 <= k
    ensures x * k <= y * k && k * x <= k * y
  {}

  lemma QuotientMonotone(x: real, y: real, d: real)
    requires x <= y && 0.0 < d
    ensures x / d <= y / d
  {}

  lemma ScaledWcetMonotone(sys: System, a: Assignment, b: Assignment, i: nat)
    requires TaskIndex(sys, a, i) && b.Fits(sys) && SlowedDown(a, b)
    ensures ScaledWcetOf(sys, a, i) <= ScaledWcetOf(sys, b, i)
  {}

  /** A task that meets its period keeps meeting it at a faster frequency. */
  lemma NoOverrunDownward(sys: System, a: Assignment, b: Assignment)
    requires sys.Valid() && a.Fits(sys) && b.Fits(sys) && SlowedDown(a, b)
    requires NoOverrun(sys, b)
    ensures NoOverrun(sys, a)
  {
    forall i | 0 <= i < |sys.tasks|
      ensures !Overruns(sys, a, i)
    {
      ScaledWcetMonotone(sys, a, b, i);
      assert !Overruns(sys, b, i);
    }
  }

  lemma {:induction false} UtilMonotone(sys: System, a: Assignment, b: Assignment, n: nat)
    requires sys.Valid() && a.Fits(sys) && b.Fits(sys) && SlowedDown(a, b) && n <= |sys.tasks|
    ensures LocalUtil(sys, a, n) <= LocalUtil(sys, b, n)
  {
    if n > 0 {
      UtilMonotone(sys, a, b, n - 1);
      ScaledWcetMonotone(sys, a, b, n - 1);
      QuotientMonotone(ScaledWcetOf(sys, a, n - 1), ScaledWcetOf(sys, b, n - 1), sys.tasks[n - 1].period as real);
    }
  }

  lemma CpuEnergyIncreasing(f: nat, g: nat)
    requires f <= g < MAX_CPU_FREQS
    ensures CpuEnergy(f) <= CpuEnergy(g)
  {}

  lemma LocalCostMonotone(task: Task, f: nat, g: nat)
    requires f <= g < MAX_CPU_FREQS && 1000 <= task.period
    ensures LocalCost(task, f) <= LocalCost(task, g)
  {
    LocalCostFactored(task, f);
    LocalCostFactored(task, g);
    CpuEnergyIncreasing(f, g);
    var duty := (task.wcet / 1000) as real / (task.period / 1000) as real;
    QuotientNonNegative((task.wcet / 1000) as real, (task.period / 1000) as real);
    ProductMonotone(CpuEnergy(f), CpuEnergy(g), duty);
  }

  lemma {:induction false} CostMonotone(sys: System, a: Assignment, b: Assignment, n: nat)
    requires sys.Valid() && a.Fits(sys) && b.Fits(sys) && SlowedDown(a, b) && n <= |sys.tasks|
    ensures Accumulate(sys, a, n).cost <= Accumulate(sys, b, n).cost
    ensures Accumulate(sys, a, n).usedMemory == Accumulate(sys, b, n).usedMemory
  {
    if n > 0 {
      CostMonotone(sys, a, b, n - 1);
      LocalCostMonotone(sys.tasks[n - 1], a.freq[n - 1], b.freq[n - 1]);
    }
  }

  lemma SurchargeMonotone(c: real, d: real, u: real, v: real, penalty: real)
    requires 0.0 <= c <= d && 0.0 <= u <= v && 0.0 <= penalty
    ensures c + c * u * penalty <= d + d * v * penalty
  {}

  lemma ScoreMonotone(s: Totals, t: Totals, penalty: real)
    requires 0.0 <= TotalCost(s) <= TotalCost(t) && s.util <= t.util && s.violations == t.violations == 0
    requires penalty >= 0.0
    ensures Score(s, penalty) <= Score(t, penalty)
  {
    if t.util >= 1.0 {
      SurchargeMonotone(TotalCost(s), TotalCost(t), if s.util >= 1.0 then s.util - 1.0 else 0.0, t.util - 1.0, penalty);
    }
  }

  /** Slowing tasks down never lowers utilisation, total cost or score. */
  lemma ObjectiveMonotone(sys: System, a: Assignment, b: Assignment)
    requires sys.Valid() && a.Fits(sys) && b.Fits(sys) && SlowedDown(a, b)
    ensures Evaluate(sys, a).util <= Evaluate(sys, b).util
    ensures Evaluate(sys, a).totalCost <= Evaluate(sys, b).totalCost
    ensures sys.penalty >= 0.0 ==> Evaluate(sys, a).score <= Evaluate(sys, b).score
  {
    var n := |sys.tasks|;
    LocalTotals(sys, a, n);
    LocalTotals(sys, b, n);
    UtilMonotone(sys, a, b, n);
    CostMonotone(sys, a, b, n);
    CostsArePositive(sys, a, n);
    if sys.penalty >= 0.0 {
      ScoreMonotone(Accumulate(sys, a, n), Accumulate(sys, b, n), sys.penalty);
    }
  }

  /** The assignment with every task at its fastest frequency and everything else unchanged. */
  function Fastest(a: Assignment): Assignment {
    a.(freq := Zeros(|a.freq|))
  }

  /** No assignment beats the all-fastest one with the same memory assignment. */
  lemma FastestIsBest(sys: System, a: Assignment)
    requires sys.Valid() && a.Fits(sys)
    ensures Fastest(a).Fits(sys)
    ensures Evaluate(sys, Fastest(a)).util <= Evaluate(sys, a).util
    ensures Evaluate(sys, Fastest(a)).totalCost <= Evaluate(sys, a).totalCost
    ensures sys.penalty >= 0.0 ==> Evaluate(sys, Fastest(a)).score <= Evaluate(sys, a).score
    ensures NoOverrun(sys, a) ==> NoOverrun(sys, Fastest(a))
  {
    ObjectiveMonotone(sys, Fastest(a), a);
    if NoOverrun(sys, a) {
      NoOverrunDownward(sys, Fastest(a), a);
    }
  }

  // ---------- cost conservation ----------

  lemma {:induction false} CostParts(sys: System, a: Assignment, n: nat)
    requires sys.Valid() && a.Fits(sys) && n <= |sys.tasks|
    ensures var t := Accumulate(sys, a, n); t.cost == t.costNetwork + t.costCpuMem
    ensures a.Local() ==> Accumulate(sys, a, n).costNetwork == 0.0
  {
    if n > 0 {
      CostParts(sys, a, n - 1);
    }
  }

  /** The stored parts add up to the stored total. */
  lemma CostConservation(sys: System, a: Assignment)
    requires sys.Valid() && a.Fits(sys)
    ensures var e := Evaluate(sys, a);
            e.totalCost == e.costCpuMemory + e.costNetwork + e.costBase + e.costHw + e.costRent
    ensures a.Local() ==> Evaluate(sys, a).costNetwork == 0.0
  {
    CostParts(sys, a, |sys.tasks|);
  }

  /** The price of keeping one MB powered over the whole simulated period. */
  const ONE_MB: real := Price(K_STAT * ALL_PERIOD)

  /** The share of a task's local cost that pays for keeping its memory powered. */
  function StaticMemoryCost(task: Task): real {
    Price((task.memreq / 1000) as real * K_STAT * ALL_PERIOD)
  }

  function StaticCost(sys: System, a: Assignment, n: nat): real
    requires sys.Valid() && a.Fits(sys) && n <= |sys.tasks|
  {
    if n == 0 then 0.0
    else StaticCost(sys, a, n - 1) + (if a.ratio[n - 1] == 0 then StaticMemoryCost(sys.tasks[n - 1]) else 0.0)
  }

  /** The share of a task's local cost that depends on its activity. */
  function ActiveCost(task: Task, freq: nat): real
    requires freq < MAX_CPU_FREQS && 1000 <= task.period
  {
    Price((CpuEnergy(freq) * ((task.wcet / 1000) as real / (task.period / 1000) as real)
           + (task.memreq / 1000) as real * task.memActiveRatio * K_DYN) * ALL_PERIOD)
  }

  function ActiveCosts(sys: System, a: Assignment, n: nat): real
    requires sys.Valid() && a.Fits(sys) && n <= |sys.tasks|
  {
    if n == 0 then 0.0
    else ActiveCosts(sys, a, n - 1)
         + (if a.ratio[n - 1] == 0 then ActiveCost(sys.tasks[n - 1], a.freq[n - 1]) else 0.0)
  }

  function LocalTasks(sys: System, a: Assignment, n: nat): nat
    requires sys.Valid() && a.Fits(sys) && n <= |sys.tasks|
  {
    if n == 0 then 0 else LocalTasks(sys, a, n - 1) + if a.ratio[n - 1] == 0 then 1 else 0
  }

  /** MB that the integer quotient `memreq / 1000` drops, over the local tasks. */
  function LostMB(sys: System, a: Assignment, n: nat): real
    requires sys.Valid() && a.Fits(sys) && n <= |sys.tasks|
  {
    if n == 0 then 0.0
    else LostMB(sys, a, n - 1) + if a.ratio[n - 1] == 0 then (sys.tasks[n - 1].memreq % 1000) as real / 1000.0 else 0.0
  }

  lemma LocalCostSplit(task: Task, freq: nat)
    requires freq < MAX_CPU_FREQS && 1000 <= task.period
    ensures LocalCost(task, freq) == ActiveCost(task, freq) + StaticMemoryCost(task)
  {
    LocalCostFactored(task, freq);
    var mb := (task.memreq / 1000) as real;
    assert mb * (task.memActiveRatio * K_DYN + K_STAT) == mb * task.memActiveRatio * K_DYN + mb * K_STAT;
  }

  lemma {:induction false} CpuMemSplit(sys: System, a: Assignment, n: nat)
    requires sys.Valid() && a.Fits(sys) && n <= |sys.tasks|
    ensures Accumulate(sys, a, n).costCpuMem == ActiveCosts(sys, a, n) + StaticCost(sys, a, n)
  {
    if n > 0 {
      CpuMemSplit(sys, a, n - 1);
      LocalCostSplit(sys.tasks[n - 1], a.freq[n - 1]);
    }
  }

  lemma StaticPerMB(task: Task)
    ensures StaticMemoryCost(task)
         == ONE_MB * (task.memreq as real / 1000.0 - (task.memreq % 1000) as real / 1000.0)
  {}

  /** MB held by the local tasks. */
  function UsedMB(sys: System, a: Assignment, n: nat): real
    requires sys.Valid() && a.Fits(sys) && n <= |sys.tasks|
  {
    if n == 0 then 0.0
    else UsedMB(sys, a, n - 1) + if a.ratio[n - 1] == 0 then sys.tasks[n - 1].memreq as real / 1000.0 else 0.0
  }

  lemma {:induction false} UsedMBIsAccumulated(sys: System, a: Assignment, n: nat)
    requires sys.Valid() && a.Fits(sys) && n <= |sys.tasks|
    ensures Accumulate(sys, a, n).usedMemory == UsedMB(sys, a, n)
  {
    if n > 0 {
      UsedMBIsAccumulated(sys, a, n - 1);
    }
  }

  lemma {:induction false} StaticCostExact(sys: System, a: Assignment, n: nat)
    requires sys.Valid() && a.Fits(sys) && n <= |sys.tasks|
    ensures StaticCost(sys, a, n) == ONE_MB * (UsedMB(sys, a, n) - LostMB(sys, a, n))
  {
    if n > 0 {
      StaticCostExact(sys, a, n - 1);
      StaticPerMB(sys.tasks[n - 1]);
    }
  }

  lemma {:induction false} LostLessThanOneMBPerTask(sys: System, a: Assignment, n: nat)
    requires sys.Valid() && a.Fits(sys) && n <= |sys.tasks|
    ensures 0.0 <= LostMB(sys, a, n) <= LocalTasks(sys, a, n) as real
    ensures LocalTasks(sys, a, n) > 0 ==> LostMB(sys, a, n) < LocalTasks(sys, a, n) as real
  {
    if n > 0 {
      LostLessThanOneMBPerTask(sys, a, n - 1);
    }
  }

  function Capacity(used: real): real {
    if used < TOTAL_MEMORY then TOTAL_MEMORY else used
  }

  lemma TopUpToCapacity(used: real, lost: real)
    ensures UnusedMemoryCost(used) + ONE_MB * (used - lost) == ONE_MB * (Capacity(used) - lost)
  {}

  /** The stored processor and memory cost without its activity-dependent share. */
  function StaticShare(sys: System, a: Assignment): real
    requires sys.Valid() && a.Fits(sys)
  {
    Evaluate(sys, a).costCpuMemory - ActiveCosts(sys, a, |sys.tasks|)
  }

  lemma StaticShareSplit(sys: System, a: Assignment)
    requires sys.Valid() && a.Fits(sys)
    ensures StaticShare(sys, a)
         == StaticCost(sys, a, |sys.tasks|) + UnusedMemoryCost(UsedMB(sys, a, |sys.tasks|))
  {
    CpuMemSplit(sys, a, |sys.tasks|);
    UsedMBIsAccumulated(sys, a, |sys.tasks|);
  }

  lemma PriceBetween(share: real, capacity: real, lost: real, localTasks: nat)
    requires share == ONE_MB * (capacity - lost)
    requires 0.0 <= lost <= localTasks as real && (localTasks > 0 ==> lost < localTasks as real)
    ensures share <= ONE_MB * capacity
    ensures localTasks == 0 ==> share == ONE_MB * capacity
    ensures localTasks > 0 ==> share > ONE_MB * (capacity - localTasks as real)
  {}

  lemma StaticShareExact(sys: System, a: Assignment)
    requires sys.Valid() && a.Fits(sys)
    ensures StaticShare(sys, a) == ONE_MB * (Capacity(UsedMB(sys, a, |sys.tasks|)) - LostMB(sys, a, |sys.tasks|))
  {
    hide StaticShare, UnusedMemoryCost, Capacity;
    StaticShareSplit(sys, a);
    StaticCostExact(sys, a, |sys.tasks|);
    TopUpToCapacity(UsedMB(sys, a, |sys.tasks|), LostMB(sys, a, |sys.tasks|));
  }

  /** Static memory is paid for exactly once, up to the truncation to whole MB: the stored share is the
      price of the larger of the used and the total memory, short of less than one MB per local task. */
  lemma StaticMemoryPaidOnce(sys: System, a: Assignment)
    requires sys.Valid() && a.Fits(sys)
    ensures var capacity := Capacity(UsedMB(sys, a, |sys.tasks|));
            var localTasks := LocalTasks(sys, a, |sys.tasks|);
            && StaticShare(sys, a) <= ONE_MB * capacity
            && (localTasks == 0 ==> StaticShare(sys, a) == ONE_MB * capacity)
            && (localTasks > 0 ==> StaticShare(sys, a) > ONE_MB * (capacity - localTasks as real))
  {
    hide StaticShare;
    var n := |sys.tasks|;
    StaticShareExact(sys, a);
    LostLessThanOneMBPerTask(sys, a, n);
    PriceBetween(StaticShare(sys, a), Capacity(UsedMB(sys, a, n)), LostMB(sys, a, n), LocalTasks(sys, a, n));
  }
}
