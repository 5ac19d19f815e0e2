/** The repair loop that turns a random assignment into a feasible one, as a relation between
    successive tries, and exactly when it succeeds. */
module Repair {
  import opened Outcomes
  import opened Tables
  import opened Evaluation
  import opened Stretching
  import opened Objective
  import TA = TaskAttrs

  const MAX_TRY := 10000

  ghost predicate Acceptable(sys: System, a: Assignment)
    requires sys.Valid() && a.Fits(sys)
  {
    MemFits(sys, a) && NoOverrun(sys, a) && Evaluate(sys, a).util <= sys.cutoff
  }

  /** s with entry i lowered by one. */
  function Lower(s: seq<nat>, i: nat): seq<nat>
    requires i < |s| && s[i] > 0
  {
    s[i := s[i] - 1]
  }

  /** One failed try: while the memory does not fit one task changes its memory type; after that
      one frequency index falls by one, or nothing changes when all are zero. */
  ghost predicate FailedTry(sys: System, a: Assignment, b: Assignment)
    requires sys.Valid() && a.Fits(sys) && b.Fits(sys)
  {
    if !MemFits(sys, a) then
      exists i :: 0 <= i < |a.mem| && b.mem[i] != a.mem[i] && b == a.(mem := a.mem[i := b.mem[i]])
    else
      && NoOverrun(sys, a) && Evaluate(sys, a).util > sys.cutoff
      && if a.freq == Zeros(|a.freq|) then b == a
         else exists i :: 0 <= i < |a.freq| && a.freq[i] > 0 && b == a.(freq := Lower(a.freq, i))
  }

  ghost predicate IsRun(sys: System, trace: seq<Assignment>)
    requires sys.Valid()
  {
    && |trace| > 0
    && (forall i :: 0 <= i < |trace| ==> trace[i].Fits(sys) && trace[i].Local())
    && forall i :: 0 <= i < |trace| - 1 ==> FailedTry(sys, trace[i], trace[i + 1])
  }

  /** The assignments met at the start of successive tries. */
  ghost predicate IsRepair(sys: System, trace: seq<Assignment>)
    requires sys.Valid()
  {
    IsRun(sys, trace) && |trace| <= MAX_TRY
  }

  lemma StartRun(sys: System, a: Assignment)
    requires sys.Valid() && a.Fits(sys) && a.Local()
    ensures IsRun(sys, [a])
  {}

  lemma ExtendRun(sys: System, trace: seq<Assignment>, b: Assignment)
    requires sys.Valid() && IsRun(sys, trace) && b.Fits(sys) && b.Local()
    requires FailedTry(sys, trace[|trace| - 1], b)
    ensures IsRun(sys, trace + [b])
  {
    hide FailedTry;
  }

  /** A run that has used every try has only unacceptable assignments but, perhaps, the next one. */
  lemma OutOfTries(sys: System, trace: seq<Assignment>)
    requires sys.Valid() && IsRun(sys, trace) && |trace| == MAX_TRY + 1
    ensures IsRepair(sys, trace[..MAX_TRY]) && EndsWith(sys, trace[..MAX_TRY], Fatal)
  {
    assert !Acceptable(sys, trace[MAX_TRY - 1]) by {
      FailedIsUnacceptable(sys, trace[MAX_TRY - 1], trace[MAX_TRY]);
    }
  }

  /** How the loop ends: with an acceptable assignment, or fatally because a task overruns its
      period or all tries are used up. */
  ghost predicate EndsWith(sys: System, trace: seq<Assignment>, r: Outcome)
    requires sys.Valid() && IsRepair(sys, trace)
  {
    var last := trace[|trace| - 1];
    match r
    case Done => Acceptable(sys, last)
    case Fatal =>
      || (MemFits(sys, last) && !NoOverrun(sys, last))
      || (|trace| == MAX_TRY && !Acceptable(sys, last))
  }

  function Last(trace: seq<Assignment>): Assignment
    requires trace != []
  {
    trace[|trace| - 1]
  }

  /** The repair runs of one gene after the other: all ended well, but the last if the outcome is fatal. */
  ghost predicate AllRepaired(sys: System, traces: seq<seq<Assignment>>, r: Outcome)
    requires sys.Valid()
  {
    && (forall i :: 0 <= i < |traces| ==> IsRepair(sys, traces[i]))
    && (r == Fatal ==> traces != [] && EndsWith(sys, traces[|traces| - 1], Fatal))
    && forall i :: 0 <= i < |traces| - (if r == Done then 0 else 1) ==> EndsWith(sys, traces[i], Done)
  }

  lemma NoneRepaired(sys: System)
    requires sys.Valid()
    ensures AllRepaired(sys, [], Done)
  {}

  lemma OneMoreRepaired(sys: System, traces: seq<seq<Assignment>>, trace: seq<Assignment>, r: Outcome)
    requires sys.Valid() && AllRepaired(sys, traces, Done) && IsRepair(sys, trace) && EndsWith(sys, trace, r)
    ensures AllRepaired(sys, traces + [trace], r) && trace != []
  {
    hide EndsWith, IsRun;
    RunsAreNotEmpty(sys, trace);
  }

  lemma RunsAreNotEmpty(sys: System, trace: seq<Assignment>)
    requires sys.Valid() && IsRepair(sys, trace)
    ensures trace != []
  {}

  lemma FailedIsUnacceptable(sys: System, a: Assignment, b: Assignment)
    requires sys.Valid() && a.Fits(sys) && b.Fits(sys) && FailedTry(sys, a, b)
    ensures !Acceptable(sys, a)
  {}

  lemma {:induction false} MemUsedDependsOn(sys: System, a: Assignment, b: Assignment, t: nat, n: nat)
    requires sys.Valid() && a.Fits(sys) && b.Fits(sys) && n <= |sys.tasks|
    requires a.mem == b.mem && a.ratio == b.ratio
    ensures MemUsed(sys, a, t, n) == MemUsed(sys, b, t, n)
  {
    if n > 0 {
      MemUsedDependsOn(sys, a, b, t, n - 1);
    }
  }

  lemma MemFitsDependsOn(sys: System, a: Assignment, b: Assignment)
    requires sys.Valid() && a.Fits(sys) && b.Fits(sys)
    requires a.mem == b.mem && a.ratio == b.ratio
    ensures MemFits(sys, a) == MemFits(sys, b)
  {
    forall t | 0 <= t < |sys.mems|
      ensures MemUsed(sys, a, t, |sys.tasks|) == MemUsed(sys, b, t, |sys.tasks|)
    {
      MemUsedDependsOn(sys, a, b, t, |sys.tasks|);
    }
  }

  function AllZero(n: nat): Assignment {
    Assignment(Zeros(n), Zeros(n), Zeros(n), Zeros(n))
  }

  /** Moving a task to another memory type needs a second type: with a single one the program would
      draw types forever, unless everything fits at once. */
  ghost predicate CanBalance(sys: System)
    requires sys.Valid()
  {
    |sys.mems| >= 2 || MemFits(sys, AllZero(|sys.tasks|))
  }

  /** Exactly then balancing, which needs a second type, is only ever reached with two types. */
  lemma BalanceNeedsTwoTypes(sys: System)
    requires sys.Valid()
    ensures CanBalance(sys) <==>
              forall a: Assignment :: a.Fits(sys) && a.Local() && !MemFits(sys, a) ==> |sys.mems| >= 2
  {
    var zero := AllZero(|sys.tasks|);
    assert zero.Fits(sys) && zero.Local();
    if CanBalance(sys) && |sys.mems| == 1 {
      forall a: Assignment | a.Fits(sys) && a.Local()
        ensures MemFits(sys, a)
      {
        assert a.mem == Zeros(|sys.tasks|);
        MemFitsDependsOn(sys, a, zero);
      }
    }
  }

  lemma {:induction false} TotalPositive(s: seq<nat>)
    ensures Zeros(|s|) != s ==> TA.Total(s) > 0
  {
    if s != [] {
      TotalPositive(s[1..]);
      if s[0] == 0 && s[1..] == Zeros(|s| - 1) {
        assert s == Zeros(|s|);
      }
    }
  }

  lemma {:induction false} TotalBound(s: seq<nat>, bound: nat)
    requires bound > 0 && InRange(s, bound)
    ensures TA.Total(s) <= |s| * (bound - 1)
  {
    if s != [] {
      TotalBound(s[1..], bound);
      assert |s| * (bound - 1) == (|s| - 1) * (bound - 1) + (bound - 1);
    }
  }

  /** Once memory fits it stays as it is, and every failed try lowers the sum of the frequency
      indices by exactly one (as long as it is positive) without raising utilisation. */
  lemma FailedTryProgress(sys: System, a: Assignment, b: Assignment)
    requires sys.Valid() && a.Fits(sys) && b.Fits(sys)
    requires MemFits(sys, a) && FailedTry(sys, a, b)
    ensures MemFits(sys, b) && SlowedDown(b, a)
    ensures Evaluate(sys, b).util <= Evaluate(sys, a).util
    ensures if a.freq == Zeros(|a.freq|) then b == a else TA.Total(b.freq) == TA.Total(a.freq) - 1
  {
    hide Evaluate, NoOverrun;
    if a.freq != Zeros(|a.freq|) {
      var i :| 0 <= i < |a.freq| && a.freq[i] > 0 && b == a.(freq := Lower(a.freq, i));
      TA.TotalUpdate(a.freq, i, a.freq[i] - 1);
    }
    MemFitsDependsOn(sys, a, b);
    ObjectiveMonotone(sys, b, a);
  }

  /** From the try j at which memory fits, try i has used exactly i - j units of the frequency sum,
      provided the all-fastest assignment meets the cutoff. */
  lemma {:induction false} RepairMeasure(sys: System, trace: seq<Assignment>, j: nat, i: nat)
    requires sys.Valid() && IsRepair(sys, trace) && j <= i < |trace| && MemFits(sys, trace[j])
    ensures MemFits(sys, trace[i]) && SlowedDown(trace[i], trace[j])
    ensures Evaluate(sys, Fastest(trace[j])).util <= sys.cutoff
            ==> i - j + TA.Total(trace[i].freq) == TA.Total(trace[j].freq)
  {
    hide Evaluate, NoOverrun, MemFits, FailedTry;
    if j < i {
      RepairMeasure(sys, trace, j, i - 1);
      var a, b := trace[i - 1], trace[i];
      FailedTryProgress(sys, a, b);
      if a.freq == Zeros(|a.freq|) {
        assert Evaluate(sys, a).util > sys.cutoff by { FailedTryMisses(sys, a, b); }
        assert Fastest(trace[j]) == a;
      }
    }
  }

  lemma FailedTryMisses(sys: System, a: Assignment, b: Assignment)
    requires sys.Valid() && a.Fits(sys) && b.Fits(sys) && MemFits(sys, a) && FailedTry(sys, a, b)
    ensures NoOverrun(sys, a) && Evaluate(sys, a).util > sys.cutoff
  {}

  /** Exactly when repair succeeds.  Let memory fit at try j with enough tries left to lower every
      frequency index to zero.  Then the loop ends well if and only if no task overruns at the
      frequencies of try j and the all-fastest assignment meets the cutoff. */
  lemma RepairCompleteness(sys: System, trace: seq<Assignment>, r: Outcome, j: nat)
    requires sys.Valid() && IsRepair(sys, trace) && EndsWith(sys, trace, r)
    requires j < |trace| && MemFits(sys, trace[j])
    requires j + TA.Total(trace[j].freq) < MAX_TRY
    ensures r == Done <==> NoOverrun(sys, trace[j]) && Evaluate(sys, Fastest(trace[j])).util <= sys.cutoff
  {
    hide Evaluate, NoOverrun, MemFits, FailedTry;
    var last := trace[|trace| - 1];
    RepairMeasure(sys, trace, j, |trace| - 1);
    if r == Done {
      FastestIsBest(sys, last);
      assert Fastest(last) == Fastest(trace[j]);
      if j < |trace| - 1 {
        FailedTryMisses(sys, trace[j], trace[j + 1]);
      }
    } else if NoOverrun(sys, trace[j]) && Evaluate(sys, Fastest(trace[j])).util <= sys.cutoff {
      NoOverrunDownward(sys, last, trace[j]);
      assert Evaluate(sys, last).util > sys.cutoff;
      TotalPositive(last.freq);
      assert false;
    }
  }

  /** The same with a bound known before the run: there are at most n_tasks * (n_cpufreqs - 1) units. */
  lemma RepairSucceedsInTime(sys: System, trace: seq<Assignment>, r: Outcome, j: nat)
    requires sys.Valid() && IsRepair(sys, trace) && EndsWith(sys, trace, r)
    requires j < |trace| && MemFits(sys, trace[j])
    requires j + |sys.tasks| * (|sys.cpufreqs| - 1) < MAX_TRY
    ensures r == Done <==> NoOverrun(sys, trace[j]) && Evaluate(sys, Fastest(trace[j])).util <= sys.cutoff
  {
    TotalBound(trace[j].freq, |sys.cpufreqs|);
    RepairCompleteness(sys, trace, r, j);
  }

  // ---------- success known from the tables alone ----------

  /** Every task local, in memory type m, at the slowest frequency. */
  function Slowest(sys: System, m: nat): Assignment
    requires |sys.cpufreqs| > 0
  {
    var n := |sys.tasks|;
    Assignment(seq(n, _ => m), Zeros(n), seq(n, _ => |sys.cpufreqs| - 1), Zeros(n))
  }

  ghost predicate SlowestMem(sys: System, m: nat) {
    m < |sys.mems| && forall t :: 0 <= t < |sys.mems| ==> sys.mems[t].wcetScale >= sys.mems[m].wcetScale
  }

  /** Memory fits however the tasks are spread, no task overruns even at the slowest frequency in the
      slowest memory, and at the fastest frequency that memory still meets the cutoff. */
  ghost predicate Generous(sys: System)
    requires sys.Valid()
  {
    && (forall a: Assignment :: a.Fits(sys) && a.Local() ==> MemFits(sys, a))
    && exists m: nat :: SlowestMem(sys, m) && Slowest(sys, m).Fits(sys) && NoOverrun(sys, Slowest(sys, m))
                   && Evaluate(sys, Fastest(Slowest(sys, m))).util <= sys.cutoff
  }

  /** No task takes longer under a than under b. */
  ghost predicate NoSlower(sys: System, a: Assignment, b: Assignment)
    requires sys.Valid() && a.Fits(sys) && b.Fits(sys)
  {
    forall i :: 0 <= i < |sys.tasks| ==> ScaledWcetOf(sys, a, i) <= ScaledWcetOf(sys, b, i)
  }

  lemma WcetFollowsScales(task: Task, m: Mem, f: CpuFreq, n: Mem, g: CpuFreq)
    requires m.wcetScale >= n.wcetScale > 0.0 && f.wcetScale >= g.wcetScale > 0.0
    ensures ScaledWcet(task, m, f) <= ScaledWcet(task, n, g)
  {
    var wcet := task.wcet as real;
    ProductMonotone(1.0 / f.wcetScale, 1.0 / g.wcetScale, wcet);
    ProductMonotone(wcet * (1.0 / f.wcetScale), wcet * (1.0 / g.wcetScale), 1.0 / m.wcetScale);
    ProductMonotone(1.0 / m.wcetScale, 1.0 / n.wcetScale, wcet * (1.0 / g.wcetScale));
  }

  lemma SlowestIsSlowest(sys: System, m: nat, a: Assignment)
    requires sys.Valid() && SlowestMem(sys, m) && a.Fits(sys) && Slowest(sys, m).Fits(sys)
    ensures NoSlower(sys, a, Slowest(sys, m))
    ensures NoSlower(sys, Fastest(a), Fastest(Slowest(sys, m)))
  {
    var b := Slowest(sys, m);
    forall i | 0 <= i < |sys.tasks|
      ensures ScaledWcetOf(sys, a, i) <= ScaledWcetOf(sys, b, i)
      ensures ScaledWcetOf(sys, Fastest(a), i) <= ScaledWcetOf(sys, Fastest(b), i)
    {
      var task, mems, freqs := sys.tasks[i], sys.mems, sys.cpufreqs;
      WcetFollowsScales(task, mems[a.mem[i]], freqs[a.freq[i]], mems[m], freqs[b.freq[i]]);
      WcetFollowsScales(task, mems[a.mem[i]], freqs[0], mems[m], freqs[0]);
    }
  }

  lemma {:induction false} UtilFollowsWcet(sys: System, a: Assignment, b: Assignment, n: nat)
    requires sys.Valid() && a.Fits(sys) && b.Fits(sys) && NoSlower(sys, a, b) && n <= |sys.tasks|
    ensures LocalUtil(sys, a, n) <= LocalUtil(sys, b, n)
  {
    if n > 0 {
      UtilFollowsWcet(sys, a, b, n - 1);
      QuotientMonotone(ScaledWcetOf(sys, a, n - 1), ScaledWcetOf(sys, b, n - 1), sys.tasks[n - 1].period as real);
    }
  }

  lemma FollowsSlower(sys: System, a: Assignment, b: Assignment)
    requires sys.Valid() && a.Fits(sys) && b.Fits(sys) && NoSlower(sys, a, b)
    ensures NoOverrun(sys, b) ==> NoOverrun(sys, a)
    ensures Evaluate(sys, a).util <= Evaluate(sys, b).util
  {
    hide Accumulate, TotalCost, Score, ScaledWcetOf;
    var n := |sys.tasks|;
    UtilFollowsWcet(sys, a, b, n);
    LocalTotals(sys, a, n);
    LocalTotals(sys, b, n);
    if NoOverrun(sys, b) {
      forall i | 0 <= i < n
        ensures !Overruns(sys, a, i)
      {
        assert !Overruns(sys, b, i);
      }
    }
  }

  lemma TriesSuffice(sys: System)
    requires sys.Valid()
    ensures |sys.tasks| * (|sys.cpufreqs| - 1) < MAX_TRY
  {
    var n, k := |sys.tasks|, |sys.cpufreqs| - 1;
    assert n * k <= n * 4;
  }

  /** With generous tables every repair run ends well, whatever is drawn. */
  lemma GenerousSucceeds(sys: System, trace: seq<Assignment>, r: Outcome)
    requires sys.Valid() && Generous(sys) && IsRepair(sys, trace) && EndsWith(sys, trace, r)
    ensures r == Done
  {
    hide Evaluate, NoOverrun, MemFits, FailedTry, Slowest, NoSlower;
    var m: nat :| SlowestMem(sys, m) && Slowest(sys, m).Fits(sys) && NoOverrun(sys, Slowest(sys, m))
             && Evaluate(sys, Fastest(Slowest(sys, m))).util <= sys.cutoff;
    var a, b := trace[0], Slowest(sys, m);
    SlowestIsSlowest(sys, m, a);
    FollowsSlower(sys, a, b);
    FollowsSlower(sys, Fastest(a), Fastest(b));
    TriesSuffice(sys);
    RepairSucceedsInTime(sys, trace, r, 0);
  }

  // ---------- overruns known from the tables alone ----------

  /** No local assignment that fits the memories makes a task fill its period. */
  ghost predicate NeverOverruns(sys: System)
    requires sys.Valid()
  {
    forall a: Assignment :: a.Fits(sys) && a.Local() && MemFits(sys, a) ==> NoOverrun(sys, a)
  }

  /** Task i can be in memory type t while everything fits. */
  ghost predicate CanHold(sys: System, i: nat, t: nat)
    requires sys.Valid()
  {
    exists a: Assignment :: a.Fits(sys) && a.Local() && MemFits(sys, a) && i < |a.mem| && a.mem[i] == t
  }

  /** Task i meets its period in memory type t at the slowest frequency. */
  ghost predicate MeetsSlowest(sys: System, i: nat, t: nat)
    requires sys.Valid() && i < |sys.tasks| && t < |sys.mems|
  {
    sys.tasks[i].wcet as real
      < sys.tasks[i].period as real * sys.cpufreqs[|sys.cpufreqs| - 1].wcetScale * sys.mems[t].wcetScale
  }

  /** Exactly then every task meets its period at the slowest frequency in every memory that can hold it. */
  lemma NeverOverrunsPerTask(sys: System)
    requires sys.Valid()
    ensures NeverOverruns(sys) <==>
              forall i, t :: 0 <= i < |sys.tasks| && 0 <= t < |sys.mems| && CanHold(sys, i, t) ==>
                MeetsSlowest(sys, i, t)
  {
    if NeverOverruns(sys) {
      forall i, t | 0 <= i < |sys.tasks| && 0 <= t < |sys.mems| && CanHold(sys, i, t)
        ensures MeetsSlowest(sys, i, t)
      {
        HeldMeetsPeriod(sys, i, t);
      }
    } else {
      var a: Assignment :| a.Fits(sys) && a.Local() && MemFits(sys, a) && !NoOverrun(sys, a);
      OverrunIsHeld(sys, a);
    }
  }

  lemma HeldMeetsPeriod(sys: System, i: nat, t: nat)
    requires sys.Valid() && NeverOverruns(sys) && i < |sys.tasks| && t < |sys.mems| && CanHold(sys, i, t)
    ensures MeetsSlowest(sys, i, t)
  {
    hide MemFits;
    var a: Assignment :| a.Fits(sys) && a.Local() && MemFits(sys, a) && i < |a.mem| && a.mem[i] == t;
    var slow := a.(freq := seq(|a.freq|, _ => |sys.cpufreqs| - 1));
    MemFitsDependsOn(sys, a, slow);
    assert !Overruns(sys, slow, i);
    OverrunLaw(sys, slow, i);
  }

  lemma OverrunIsHeld(sys: System, a: Assignment)
    requires sys.Valid() && a.Fits(sys) && a.Local() && MemFits(sys, a) && !NoOverrun(sys, a)
    ensures exists i, t :: 0 <= i < |sys.tasks| && 0 <= t < |sys.mems| && CanHold(sys, i, t)
                           && !MeetsSlowest(sys, i, t)
  {
    hide MemFits;
    var i :| 0 <= i < |sys.tasks| && Overruns(sys, a, i);
    var f, t := sys.cpufreqs, a.mem[i];
    var slow := a.(freq := seq(|a.freq|, _ => |f| - 1));
    WcetFollowsScales(sys.tasks[i], sys.mems[t], f[a.freq[i]], sys.mems[t], f[|f| - 1]);
    assert Overruns(sys, slow, i);
    OverrunLaw(sys, slow, i);
    assert CanHold(sys, i, t);
  }

  /** Where memory always fits: exactly then every task meets its period in the slowest memory. */
  lemma NeverOverrunsRoomy(sys: System, m: nat)
    requires sys.Valid() && SlowestMem(sys, m) && Slowest(sys, m).Fits(sys)
    requires forall a: Assignment :: a.Fits(sys) && a.Local() ==> MemFits(sys, a)
    ensures NeverOverruns(sys) <==> NoOverrun(sys, Slowest(sys, m))
  {
    hide MemFits, NoOverrun, NoSlower, Evaluate;
    assert Slowest(sys, m).Local();
    if NoOverrun(sys, Slowest(sys, m)) {
      forall a: Assignment | a.Fits(sys) && a.Local() && MemFits(sys, a)
        ensures NoOverrun(sys, a)
      {
        SlowestIsSlowest(sys, m, a);
        FollowsSlower(sys, a, Slowest(sys, m));
      }
    }
  }

  lemma GenerousNeverOverruns(sys: System)
    requires sys.Valid() && Generous(sys)
    ensures NeverOverruns(sys)
  {
    hide MemFits, NoOverrun, Evaluate;
    var m: nat :| SlowestMem(sys, m) && Slowest(sys, m).Fits(sys) && NoOverrun(sys, Slowest(sys, m));
    NeverOverrunsRoomy(sys, m);
  }

  /** A repair run of one try, when the first assignment drawn already ends it. */
  lemma OneTry(sys: System, a: Assignment)
    requires sys.Valid() && a.Fits(sys) && a.Local()
    ensures IsRepair(sys, [a])
    ensures Acceptable(sys, a) ==> EndsWith(sys, [a], Done)
    ensures MemFits(sys, a) && !NoOverrun(sys, a) ==> EndsWith(sys, [a], Fatal)
  {
    hide FailedTry;
  }
}
