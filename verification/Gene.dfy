/** One gene: four attribute arrays, the figures cached from them, and its three list nodes. */
module Gene {
  import opened Outcomes
  import opened Tables
  import opened Evaluation
  import opened MemoryUse
  import opened Stretching
  import opened Objective
  import opened LocalFigures
  import opened Repair
  import opened EcmList
  import opened Random
  import TA = TaskAttrs

  datatype Key = ByUtil | ByPower | ByScore

  /** Which gene a list node is embedded in, and as which of its three members. */
  datatype Link = Link(gene: nat, member: Key)

  /** What is stored for one gene. */
  datatype Record = Record(chosen: Assignment, stored: Figures)

  datatype Verdict = Accepted | NoMemory | OverCutoff | Overrun | Worse

  class Gene {
    const mem: TA.TaskAttrs
    const cloud: TA.TaskAttrs
    const freq: TA.TaskAttrs
    const ratio: TA.TaskAttrs
    var util: real
    var power: real
    var totalCost: real
    var score: real
    var memPower: real
    var cpuPower: real
    var powerNetcom: real
    var costCpuMemory: real
    var costNetwork: real
    var costBase: real
    var costHw: real
    var costRent: real
    var constraintPenalty: real
    var fitness: real
    var periodViolation: nat
    const listUtil: ListHead<Link>
    const listPower: ListHead<Link>
    const listScore: ListHead<Link>

    constructor (index: nat)
      ensures Shaped() && fresh(Repr())
      ensures forall k :: Node(k).entry == Link(index, k) && fresh(Node(k)) && SelfLinked(Node(k))
    {
      mem := new TA.TaskAttrs();
      cloud := new TA.TaskAttrs();
      freq := new TA.TaskAttrs();
      ratio := new TA.TaskAttrs();
      util, power, totalCost, score := 0.0, 0.0, 0.0, 0.0;
      memPower, cpuPower, powerNetcom := 0.0, 0.0, 0.0;
      costCpuMemory, costNetwork, costBase, costHw, costRent := 0.0, 0.0, 0.0, 0.0, 0.0;
      constraintPenalty, fitness, periodViolation := 0.0, 0.0, 0;
      listUtil := new ListHead(Link(index, ByUtil));
      listPower := new ListHead(Link(index, ByPower));
      listScore := new ListHead(Link(index, ByScore));
    }

    function Node(k: Key): ListHead<Link> {
      match k
      case ByUtil => listUtil
      case ByPower => listPower
      case ByScore => listScore
    }

    function KeyOf(k: Key): real
      reads this
    {
      match k
      case ByUtil => util
      case ByPower => power
      case ByScore => score
    }

    ghost function Repr(): set<object> {
      {this} + Attrs()
    }

    ghost function Attrs(): set<object> {
      mem.Repr() + cloud.Repr() + freq.Repr() + ratio.Repr()
    }

    ghost predicate Shaped() {
      && mem.Shaped() && cloud.Shaped() && freq.Shaped() && ratio.Shaped()
      && mem.Repr() !! cloud.Repr() !! freq.Repr() !! ratio.Repr()
    }

    /** The assignment the attribute arrays hold. */
    ghost function Assigned(n: nat): Assignment
      requires Shaped() && n <= MAX_TASKS
      reads Attrs()
    {
      Assignment(mem.Values(n), cloud.Values(n), freq.Values(n), ratio.Values(n))
    }

    ghost function Stored(): Figures
      reads this
    {
      Figures(util, power, totalCost, score, memPower, cpuPower, powerNetcom, costCpuMemory, costNetwork,
              costBase, costHw, costRent, constraintPenalty, fitness, periodViolation)
    }

    /** Everything a gene stores: its attributes and its cached figures. */
    ghost function Contents(n: nat): Record
      requires Shaped() && n <= MAX_TASKS
      reads Repr()
    {
      Record(Assigned(n), Stored())
    }

    /** Exact histograms and attributes inside the tables. */
    ghost predicate Valid(sys: System)
      requires sys.Valid()
      reads Repr()
    {
      var n := |sys.tasks|;
      && Shaped()
      && mem.Valid(n) && cloud.Valid(n) && freq.Valid(n) && ratio.Valid(n)
      && Assigned(n).Fits(sys)
    }

    /** What every listed gene satisfies: it keeps all tasks local, fits the memories, meets the
        cutoff, and everything it caches is what a fresh evaluation of its arrays would give. */
    ghost predicate Sound(sys: System)
      requires sys.Valid()
      reads Repr()
    {
      && Valid(sys)
      && var a := Assigned(|sys.tasks|);
         && a.Local() && MemFits(sys, a) && NoOverrun(sys, a)
         && Evaluate(sys, a).util <= sys.cutoff
         && Stored() == Evaluate(sys, a)
    }

    /** The fields of a sound gene show the figures of its attributes, one by one. */
    lemma SoundShows(sys: System)
      requires sys.Valid() && Sound(sys)
      ensures var e := Evaluate(sys, Assigned(|sys.tasks|));
              && util == e.util && power == e.power && totalCost == e.totalCost && score == e.score
              && memPower == e.memPower && cpuPower == e.cpuPower && powerNetcom == e.powerNetcom
              && costCpuMemory == e.costCpuMemory && costNetwork == e.costNetwork && costBase == e.costBase
              && costHw == e.costHw && costRent == e.costRent && constraintPenalty == e.constraintPenalty
              && fitness == e.fitness && periodViolation == e.periodViolation
    {
      hide Evaluate, MemFits, NoOverrun;
    }

    /** The first loop of the memory check: what each type is asked to hold. */
    method SumMemory(sys: System) returns (memUsed: array<real>)
      requires sys.Valid() && Valid(sys)
      ensures fresh(memUsed) && memUsed.Length == MAX_ATTRTYPES
      ensures forall t :: 0 <= t < |sys.mems| ==> memUsed[t] == MemUsed(sys, Assigned(|sys.tasks|), t, |sys.tasks|)
    {
      hide TA.IsHistogram;
      ghost var a := Assigned(|sys.tasks|);
      memUsed := new real[MAX_ATTRTYPES](_ => 0.0);
      for i := 0 to |sys.tasks|
        invariant a == Assigned(|sys.tasks|)
        invariant forall t :: 0 <= t < |sys.mems| ==> memUsed[t] == MemUsed(sys, a, t, i)
      {
        assert a.mem[i] == mem.attrs[i] && a.ratio[i] == ratio.attrs[i];
        memUsed[mem.attrs[i]] := memUsed[mem.attrs[i]]
                                 + sys.tasks[i].memreq as real * (1.0 - sys.ratios[ratio.attrs[i]]);
      }
    }

    /** No type is asked to hold more than its capacity.  Then, with ratios of at most one, it can hold each
        of its tasks. */
    method CheckMemusage(sys: System) returns (ok: bool)
      requires sys.Valid() && Valid(sys)
      ensures ok <==> MemFits(sys, Assigned(|sys.tasks|))
      ensures ok && (forall j :: 0 <= j < |sys.ratios| ==> sys.ratios[j] <= 1.0) ==>
                EachHeld(sys, Assigned(|sys.tasks|))
    {
      hide EachHeld, MemUsed, TA.IsHistogram;
      ghost var a := Assigned(|sys.tasks|);
      var memUsed := SumMemory(sys);
      for t := 0 to |sys.mems|
        invariant forall u :: 0 <= u < t ==> MemUsed(sys, a, u, |sys.tasks|) <= sys.mems[u].maxCapacity as real
      {
        if memUsed[t] > sys.mems[t].maxCapacity as real {
          return false;
        }
      }
      if forall j :: 0 <= j < |sys.ratios| ==> sys.ratios[j] <= 1.0 {
        FittingHolds(sys, a);
      }
      return true;
    }

    /** The loop of the evaluation: gives up at the first task that overruns its period. */
    method SumTasks(sys: System) returns (fits: bool, t: Totals)
      requires sys.Valid() && Valid(sys)
      ensures fits <==> NoOverrun(sys, Assigned(|sys.tasks|))
      ensures fits ==> t == Accumulate(sys, Assigned(|sys.tasks|), |sys.tasks|)
      ensures fits <==> MeetsPeriods(sys, Assigned(|sys.tasks|))
      ensures fits ==> t.util == ShareSum(sys, Assigned(|sys.tasks|), |sys.tasks|)
    {
      hide TaskUtilPower, LocalCost, OffloadingCost, ScaledWcet, TA.IsHistogram, MeetsPeriods, ShareSum;
      ghost var a := Assigned(|sys.tasks|);
      var util, powerCpu, powerMem, powerNet, violations := 0.0, 0.0, 0.0, 0.0, 0;
      var cost, network, cpuMemory, usedMemory, remoteDelay := 0.0, 0.0, 0.0, 0.0, 0.0;
      for i := 0 to |sys.tasks|
        invariant forall j :: 0 <= j < i ==> !Overruns(sys, a, j)
        invariant Totals(util, powerCpu, powerMem, powerNet, violations, remoteDelay, cost, network,
                         cpuMemory, usedMemory) == Accumulate(sys, a, i)
      {
        var m, c, f, r := mem.attrs[i], cloud.attrs[i], freq.attrs[i], ratio.attrs[i];
        assert a.mem[i] == m && a.cloud[i] == c && a.freq[i] == f && a.ratio[i] == r;
        var task := sys.tasks[i];
        if ScaledWcet(task, sys.mems[m], sys.cpufreqs[f]) >= task.period as real {
          assert Overruns(sys, a, i);
          NoOverrunLaw(sys, a);
          return false, NO_TOTALS;
        }
        var u := TaskUtilPower(task, sys.mems[m], sys.clouds[c], sys.cpufreqs[f], sys.networks[i],
                               sys.netCommanders[i]);
        util, powerCpu := util + u.util, powerCpu + u.powerCpu;
        powerMem, powerNet := powerMem + u.powerMem, powerNet + u.powerNet;
        if u.deadline > 1.0 {
          violations := violations + 1;
          if r != 0 {
            remoteDelay := remoteDelay + (u.deadline - 1.0);
          }
        }
        if r != 0 {
          var d := OffloadingCost(task, 30.0, 120.0);
          cost, network := cost + d, network + d;
        } else {
          usedMemory := usedMemory + task.memreq as real / 1000.0;
          var d := LocalCost(task, f);
          cost, cpuMemory := cost + d, cpuMemory + d;
        }
      }
      NoOverrunLaw(sys, a);
      LocalTotals(sys, a, |sys.tasks|);
      return true, Totals(util, powerCpu, powerMem, powerNet, violations, remoteDelay, cost, network,
                          cpuMemory, usedMemory);
    }

    /** The figures that are stored whatever the utilisation. */
    method StoreParts(e: Figures)
      modifies this`costCpuMemory, this`costNetwork, this`costBase, this`costHw, this`costRent, this`cpuPower,
               this`memPower, this`powerNetcom, this`periodViolation, this`constraintPenalty, this`fitness
      ensures Stored() == e.(util := util, power := power, totalCost := totalCost, score := score)
    {
      costCpuMemory, costNetwork, costBase, costHw := e.costCpuMemory, e.costNetwork, e.costBase, e.costHw;
      costRent, cpuPower, memPower, powerNetcom := e.costRent, e.cpuPower, e.memPower, e.powerNetcom;
      periodViolation, constraintPenalty, fitness := e.periodViolation, e.constraintPenalty, e.fitness;
    }

    /** Above the cutoff, power, total cost and score keep their old values. */
    method StoreFigures(e: Figures, cutoff: real) returns (within: bool)
      modifies this
      ensures within <==> e.util <= cutoff
      ensures within ==> Stored() == e
      ensures !within ==> Stored() == e.(power := old(power), totalCost := old(totalCost), score := old(score))
    {
      StoreParts(e);
      util := e.util;
      within := e.util <= cutoff;
      if within {
        power, totalCost, score := e.power, e.totalCost, e.score;
      }
    }

    /** Evaluates the assignment.  Above the cutoff, power, total cost and score keep their old values. */
    method CheckUtilpower(sys: System) returns (v: Verdict)
      requires sys.Valid() && Valid(sys)
      modifies this
      ensures v in {Accepted, OverCutoff, Overrun}
      ensures v == Overrun <==> !NoOverrun(sys, Assigned(|sys.tasks|))
      ensures v != Overrun ==>
                var e := Evaluate(sys, Assigned(|sys.tasks|));
                && (v == Accepted <==> e.util <= sys.cutoff)
                && Stored() == if v == Accepted then e
                               else e.(power := old(power), totalCost := old(totalCost), score := old(score))
      ensures v != Overrun <==> MeetsPeriods(sys, Assigned(|sys.tasks|))
      ensures v != Overrun ==> util == ShareSum(sys, Assigned(|sys.tasks|), |sys.tasks|)
      ensures v == Accepted ==> ScorePays(Stored(), sys.penalty)
    {
      hide Accumulate, FiguresOf, Overruns, Evaluate, NoOverrun, ShareSum, MeetsPeriods, ScorePays;
      ghost var a := Assigned(|sys.tasks|);
      NoOverrunLaw(sys, a);
      var fits, t := SumTasks(sys);
      if !fits {
        return Overrun;
      }
      UtilLaw(sys, a);
      ScoreLaw(sys, a);
      EvaluateIs(sys, a);
      var e := ComputeFigures(sys, t);
      var within := StoreFigures(e, sys.cutoff);
      assert a == Assigned(|sys.tasks|);
      return if within then Accepted else OverCutoff;
    }

    /** Memory first, then utilisation: the two checks every new assignment goes through. */
    method Check(sys: System) returns (v: Verdict)
      requires sys.Valid() && Valid(sys)
      modifies this
      ensures Valid(sys) && Assigned(|sys.tasks|) == old(Assigned(|sys.tasks|))
      ensures var a := Assigned(|sys.tasks|);
              && v != Worse
              && (v == NoMemory <==> !MemFits(sys, a))
              && (v == Overrun <==> MemFits(sys, a) && !NoOverrun(sys, a))
              && (v == Accepted <==> Acceptable(sys, a))
              && (v == Accepted ==> Stored() == Evaluate(sys, a))
    {
      hide TA.IsHistogram, MemFits, Evaluate, NoOverrun;
      ghost var a := Assigned(|sys.tasks|);
      var memOk := CheckMemusage(sys);
      if !memOk {
        return NoMemory;
      }
      v := CheckUtilpower(sys);
      assert Assigned(|sys.tasks|) == a && Valid(sys);
    }

    method LowerFreq(sys: System) returns (lowered: bool, ghost changed: nat)
      requires sys.Valid() && Valid(sys)
      modifies freq.Repr()
      ensures Valid(sys)
      ensures var n := |sys.tasks|;
              var before, after := old(Assigned(n)), Assigned(n);
              && (!lowered ==> before.freq == Zeros(n) && after == before)
              && (lowered ==> changed < n && before.freq[changed] > 0
                              && after == before.(freq := before.freq[changed := before.freq[changed] - 1]))
    {
      hide TA.IsHistogram;
      lowered, changed := freq.LowerByAttr(|sys.tasks|);
    }

    /** With every task local there is no offloading index to lower. */
    method LowerRatio(sys: System) returns (lowered: bool)
      requires sys.Valid() && Valid(sys) && Assigned(|sys.tasks|).Local()
      modifies ratio.Repr()
      ensures !lowered && Valid(sys) && Assigned(|sys.tasks|) == old(Assigned(|sys.tasks|))
    {
      hide TA.IsHistogram;
      ghost var changed;
      lowered, changed := ratio.LowerByAttr(|sys.tasks|);
    }

    /** Lowers one frequency or offloading index; with every task local only frequencies can fall. */
    method LowerUtilization(sys: System) returns (ghost changed: nat)
      requires sys.Valid() && Valid(sys) && Assigned(|sys.tasks|).Local()
      modifies freq.Repr(), ratio.Repr()
      ensures Valid(sys)
      ensures var n := |sys.tasks|;
              var before, after := old(Assigned(n)), Assigned(n);
              if before.freq == Zeros(n) then after == before
              else changed < n && before.freq[changed] > 0
                   && after == before.(freq := before.freq[changed := before.freq[changed] - 1])
    {
      hide TA.IsHistogram;
      var pick := GetRand(|sys.cpufreqs| + |sys.ratios|);
      var lowered;
      if pick < |sys.cpufreqs| {
        lowered, changed := LowerFreq(sys);
        if !lowered {
          lowered := LowerRatio(sys);
        }
      } else {
        lowered := LowerRatio(sys);
        if !lowered {
          lowered, changed := LowerFreq(sys);
        }
      }
    }

    method BalanceMemTypes(sys: System) returns (ghost changed: nat)
      requires sys.Valid() && Valid(sys) && 2 <= |sys.mems|
      modifies mem.Repr()
      ensures Valid(sys)
      ensures var n := |sys.tasks|;
              var before, after := old(Assigned(n)), Assigned(n);
              && changed < n && after.mem[changed] != before.mem[changed]
              && after == before.(mem := before.mem[changed := after.mem[changed]])
    {
      hide TA.IsHistogram;
      changed := mem.Balance(|sys.tasks|, |sys.mems|);
    }

    method AssignAttributes(sys: System)
      requires sys.Valid() && Shaped()
      modifies Attrs()
      ensures Valid(sys) && Assigned(|sys.tasks|).Local()
    {
      hide TA.IsHistogram;
      var n := |sys.tasks|;
      mem.Assign(n, |sys.mems|);
      freq.Assign(n, |sys.cpufreqs|);
      cloud.Assign(n, |sys.clouds|);
      ratio.AssignZero(n);
    }

    /** One try: accept, give up, or change the assignment for the next try. */
    method TryOnce(sys: System) returns (v: Verdict)
      requires sys.Valid() && Valid(sys) && Assigned(|sys.tasks|).Local() && CanBalance(sys)
      modifies Repr()
      ensures Valid(sys) && Assigned(|sys.tasks|).Local()
      ensures v == Accepted ==> Sound(sys)
      ensures v == Overrun ==> MemFits(sys, Assigned(|sys.tasks|)) && !NoOverrun(sys, Assigned(|sys.tasks|))
      ensures var before, after := old(Assigned(|sys.tasks|)), Assigned(|sys.tasks|);
              before.Fits(sys)
              && if v in {Accepted, Overrun} then after == before else FailedTry(sys, before, after)
    {
      hide TA.IsHistogram, MemFits, Evaluate, NoOverrun;
      ghost var a := Assigned(|sys.tasks|);
      v := Check(sys);
      if v == NoMemory {
        BalanceNeedsTwoTypes(sys);
        ghost var _ := BalanceMemTypes(sys);
      } else if v == OverCutoff {
        ghost var _ := LowerUtilization(sys);
      }
    }

    /** Fills the gene at random and repairs it; insertion into the lists is left to the caller. */
    method InitGene(sys: System) returns (r: Outcome, ghost trace: seq<Assignment>)
      requires sys.Valid() && Shaped() && CanBalance(sys)
      modifies Repr()
      ensures IsRepair(sys, trace) && EndsWith(sys, trace, r)
      ensures r == Done ==> Sound(sys) && Assigned(|sys.tasks|) == trace[|trace| - 1]
    {
      hide TA.IsHistogram, MemFits, Evaluate, NoOverrun, FailedTry, IsRun;
      AssignAttributes(sys);
      ghost var n := |sys.tasks|;
      trace := [Assigned(n)];
      StartRun(sys, Assigned(n));
      for i := 0 to MAX_TRY
        invariant Valid(sys) && Assigned(n).Local()
        invariant |trace| == i + 1 && trace[i] == Assigned(n) && IsRun(sys, trace)
      {
        var v := TryOnce(sys);
        if v == Overrun {
          return Fatal, trace;
        }
        if v == Accepted {
          return Done, trace;
        }
        ExtendRun(sys, trace, Assigned(n));
        trace := trace + [Assigned(n)];
      }
      OutOfTries(sys, trace);
      trace := trace[..MAX_TRY];
      return Fatal, trace;
    }

    /** Overwrites memory, offloading and frequency attributes with a mix of two parents and evaluates
        the child; the cloud attributes are never inherited.  Acceptance needs a feasible child that is
        no worse than either parent. */
    method Breed(sys: System, gene1: Gene, gene2: Gene, ratioPt: nat, freqPt: nat, memPt: nat) returns (v: Verdict)
      requires sys.Valid() && Shaped() && gene1.Sound(sys) && gene2.Sound(sys)
      requires Repr() !! gene1.Repr() && Repr() !! gene2.Repr()
      requires ratioPt <= |sys.tasks| && freqPt <= |sys.tasks| && memPt <= |sys.tasks|
      requires cloud.Valid(|sys.tasks|) && InRange(cloud.Values(|sys.tasks|), |sys.clouds|)
      modifies Repr()
      ensures Valid(sys)
      ensures var n := |sys.tasks|;
              var child, a, b := Assigned(n), gene1.Assigned(n), gene2.Assigned(n);
              && child.cloud == old(cloud.Values(n)) && |child.mem| == |child.freq| == |child.ratio| == n
              && IsMix(child, a, b, ratioPt, freqPt, memPt)
              && (forall i :: 0 <= i < n ==> child.mem[i] == if i < memPt then a.mem[i] else b.mem[i])
              && (forall i :: 0 <= i < n ==> child.freq[i] == if i < freqPt then a.freq[i] else b.freq[i])
              && forall i :: 0 <= i < n ==> child.ratio[i] == if i < ratioPt then a.ratio[i] else b.ratio[i]
      ensures var a := Assigned(|sys.tasks|);
              && (v == Overrun <==> MemFits(sys, a) && !NoOverrun(sys, a))
              && (v == Accepted <==> Acceptable(sys, a) && Evaluate(sys, a).score <= gene1.score
                                     && Evaluate(sys, a).score <= gene2.score)
      ensures v == Accepted ==> Sound(sys)
    {
      hide TA.IsHistogram, MemFits, Evaluate, NoOverrun;
      InheritAttributes(sys, gene1, gene2, ratioPt, freqPt, memPt);
      v := Check(sys);
      if v == Accepted && (score > gene1.score || score > gene2.score) {
        return Worse;
      }
    }

    method InheritAttributes(sys: System, gene1: Gene, gene2: Gene, ratioPt: nat, freqPt: nat, memPt: nat)
      requires sys.Valid() && Shaped() && gene1.Valid(sys) && gene2.Valid(sys)
      requires gene1.Assigned(|sys.tasks|).Local() && gene2.Assigned(|sys.tasks|).Local()
      requires Repr() !! gene1.Repr() && Repr() !! gene2.Repr()
      requires ratioPt <= |sys.tasks| && freqPt <= |sys.tasks| && memPt <= |sys.tasks|
      requires cloud.Valid(|sys.tasks|) && InRange(cloud.Values(|sys.tasks|), |sys.clouds|)
      modifies Attrs()
      ensures Valid(sys) && Assigned(|sys.tasks|).Local()
      ensures var n := |sys.tasks|;
              && Assigned(n).cloud == old(cloud.Values(n))
              && IsMix(Assigned(n), gene1.Assigned(n), gene2.Assigned(n), ratioPt, freqPt, memPt)
    {
      hide TA.IsHistogram, IsMix;
      ghost var n := |sys.tasks|;
      ghost var a1, a2 := gene1.Assigned(n), gene2.Assigned(n);
      mem.Inherit(gene1.mem, gene2.mem, memPt, |sys.tasks|);
      ratio.Inherit(gene1.ratio, gene2.ratio, ratioPt, |sys.tasks|);
      freq.Inherit(gene1.freq, gene2.freq, freqPt, |sys.tasks|);
      MixOfValues(a1, a2, Assigned(n), ratioPt, freqPt, memPt);
      MixFits(sys, a1, a2, Assigned(n), ratioPt, freqPt, memPt);
    }
  }

  /** Every attribute but the cloud is the first assignment's below a crossover point of its own and the
      second's from there on. */
  ghost predicate IsMix(child: Assignment, a: Assignment, b: Assignment, ratioPt: nat, freqPt: nat, memPt: nat) {
    && |child.mem| == |a.mem| == |b.mem| && |child.freq| == |a.freq| == |b.freq|
    && |child.ratio| == |a.ratio| == |b.ratio|
    && (forall i :: 0 <= i < |child.mem| ==> child.mem[i] == if i < memPt then a.mem[i] else b.mem[i])
    && (forall i :: 0 <= i < |child.freq| ==> child.freq[i] == if i < freqPt then a.freq[i] else b.freq[i])
    && forall i :: 0 <= i < |child.ratio| ==> child.ratio[i] == if i < ratioPt then a.ratio[i] else b.ratio[i]
  }

  /** A child of two assignments, for some crossover point of each attribute strictly inside the tasks;
      its cloud attributes come from neither. */
  ghost predicate IsChild(child: Assignment, a: Assignment, b: Assignment, cloud: seq<nat>, n: nat) {
    && child.cloud == cloud && |child.mem| == |child.freq| == |child.ratio| == n
    && exists ratioPt, freqPt, memPt ::
         && 0 < ratioPt < n && 0 < freqPt < n && 0 < memPt < n
         && IsMix(child, a, b, ratioPt, freqPt, memPt)
  }

  /** Where the attributes of a child come from; the first task always takes after the first parent and
      the last task after the second. */
  lemma ChildTakesAfterBoth(child: Assignment, a: Assignment, b: Assignment, cloud: seq<nat>, n: nat)
    returns (ratioPt: nat, freqPt: nat, memPt: nat)
    requires IsChild(child, a, b, cloud, n)
    ensures 0 < ratioPt < n && 0 < freqPt < n && 0 < memPt < n
    ensures |a.mem| == |b.mem| == |child.mem| == n && |a.freq| == |b.freq| == |child.freq| == n
    ensures |a.ratio| == |b.ratio| == |child.ratio| == n && child.cloud == cloud
    ensures forall i :: 0 <= i < n ==> child.mem[i] == if i < memPt then a.mem[i] else b.mem[i]
    ensures forall i :: 0 <= i < n ==> child.freq[i] == if i < freqPt then a.freq[i] else b.freq[i]
    ensures forall i :: 0 <= i < n ==> child.ratio[i] == if i < ratioPt then a.ratio[i] else b.ratio[i]
    ensures child.mem[0] == a.mem[0] && child.freq[0] == a.freq[0] && child.ratio[0] == a.ratio[0]
    ensures child.mem[n - 1] == b.mem[n - 1] && child.freq[n - 1] == b.freq[n - 1]
    ensures child.ratio[n - 1] == b.ratio[n - 1]
  {
    ratioPt, freqPt, memPt :| 0 < ratioPt < n && 0 < freqPt < n && 0 < memPt < n
                              && IsMix(child, a, b, ratioPt, freqPt, memPt);
  }

  lemma MixOfValues(a: Assignment, b: Assignment, child: Assignment, ratioPt: nat, freqPt: nat, memPt: nat)
    requires memPt <= |a.mem| == |b.mem| && child.mem == a.mem[..memPt] + b.mem[memPt..]
    requires freqPt <= |a.freq| == |b.freq| && child.freq == a.freq[..freqPt] + b.freq[freqPt..]
    requires ratioPt <= |a.ratio| == |b.ratio| && child.ratio == a.ratio[..ratioPt] + b.ratio[ratioPt..]
    ensures IsMix(child, a, b, ratioPt, freqPt, memPt)
  {}

  /** Mixes of local assignments inside the tables are local and inside the tables. */
  lemma MixFits(sys: System, a: Assignment, b: Assignment, child: Assignment, ratioPt: nat, freqPt: nat, memPt: nat)
    requires a.Fits(sys) && b.Fits(sys) && a.Local() && b.Local() && IsMix(child, a, b, ratioPt, freqPt, memPt)
    requires |child.cloud| == |sys.tasks| && InRange(child.cloud, |sys.clouds|)
    ensures child.Fits(sys) && child.Local()
  {}

  lemma EvaluateIs(sys: System, a: Assignment)
    requires sys.Valid() && a.Fits(sys)
    ensures var t := Accumulate(sys, a, |sys.tasks|);
            TotalCost(t) + EPS * ConstraintPenalty(t) != 0.0 && Evaluate(sys, a) == FiguresOf(sys, t)
  {
    CostsArePositive(sys, a, |sys.tasks|);
  }

  /** The part of the evaluation after its loop. */
  method ComputeFigures(sys: System, t: Totals) returns (e: Figures)
    requires |sys.cpufreqs| > 0 && TotalCost(t) + EPS * ConstraintPenalty(t) != 0.0
    ensures e == FiguresOf(sys, t)
  {
    hide Price, Surcharge, SlowestIdle, Fitness;
    var cost, cpuMem := t.cost, t.costCpuMem;
    var unusedMemory := TOTAL_MEMORY - t.usedMemory;
    if unusedMemory > 0.0 {
      var costStaticUnused := Price(unusedMemory * K_STAT * ALL_PERIOD);
      cost := cost + costStaticUnused;
      cpuMem := cpuMem + costStaticUnused;
    }
    cost := cost + BASE_COST;
    cost := cost + DEPRECIATION_COST;
    var power, cpu := t.powerCpu + t.powerMem + t.powerNet, t.powerCpu;
    if t.util < 1.0 && t.violations == 0 {
      var idle := SlowestIdle(sys, t.util);
      power := power + idle;
      cpu := cpu + idle;
    }
    var localOverutil := if t.util > 1.0 then t.util - 1.0 else 0.0;
    var penalty := localOverutil + MU * t.remoteDelay;
    var score := cost;
    if t.util >= 1.0 || t.violations > 0 {
      score := score + Surcharge(cost, t.util, sys.penalty);
    }
    e := Figures(t.util, power, cost, score, t.powerMem, cpu, t.powerNet, cpuMem, t.costNetwork, BASE_COST,
                 DEPRECIATION_COST, 0.0, penalty, Fitness(cost, penalty), t.violations);
  }
}
