/** How frequency and memory stretch execution times, without quotients. */
module Stretching {
  import opened Tables
  import opened Evaluation

  // ---------- the stretched execution time ----------

  /** Both slow-downs multiply: a frequency and a memory of scale 1/2 each make a task take four times as long. */
  lemma ScaledWcetLaw(task: Task, mem: Mem, freq: CpuFreq)
    requires mem.wcetScale > 0.0 && freq.wcetScale > 0.0
    ensures ScaledWcet(task, mem, freq) * freq.wcetScale * mem.wcetScale == task.wcet as real
  {
    var w, f, m := task.wcet as real, freq.wcetScale, mem.wcetScale;
    var p := w * (1.0 / f);
    var s := p * (1.0 / m);
    assert s == ScaledWcet(task, mem, freq) && p * f == w && s * m == p;
    Swap(s, f, m, p, w);
  }

  lemma Swap(s: real, f: real, m: real, p: real, w: real)
    requires s * m == p && p * f == w
    ensures s * f * m == w
  {
    assert s * f * m == (s * m) * f;
  }

  /** Exactly when a task makes the program give up. */
  lemma OverrunLaw(sys: System, a: Assignment, i: nat)
    requires TaskIndex(sys, a, i)
    ensures Overruns(sys, a, i) <==>
              sys.tasks[i].wcet as real
                >= sys.tasks[i].period as real * sys.cpufreqs[a.freq[i]].wcetScale * sys.mems[a.mem[i]].wcetScale
  {
    var mem, freq := sys.mems[a.mem[i]], sys.cpufreqs[a.freq[i]];
    ScaledWcetLaw(sys.tasks[i], mem, freq);
    ScaleBoth(ScaledWcetOf(sys, a, i), sys.tasks[i].period as real, freq.wcetScale, mem.wcetScale);
  }

  lemma ScaleBoth(x: real, y: real, f: real, m: real)
    requires f > 0.0 && m > 0.0
    ensures x >= y <==> x * f * m >= y * f * m
  {
    var c := f * m;
    assert x * f * m == x * c && y * f * m == y * c;
    assert c > 0.0;
    assert (x - y) * c == x * c - y * c;
    if x >= y {
      assert (x - y) * c >= 0.0;
    } else {
      assert (y - x) * c > 0.0;
    }
  }

  /** Every task, slowed down by its frequency and its memory, stays below its period. */
  ghost predicate MeetsPeriods(sys: System, a: Assignment)
    requires sys.Valid() && a.Fits(sys)
  {
    forall i :: 0 <= i < |sys.tasks| ==>
      sys.tasks[i].wcet as real
        < sys.tasks[i].period as real * sys.cpufreqs[a.freq[i]].wcetScale * sys.mems[a.mem[i]].wcetScale
  }

  lemma NoOverrunLaw(sys: System, a: Assignment)
    requires sys.Valid() && a.Fits(sys)
    ensures NoOverrun(sys, a) <==> MeetsPeriods(sys, a)
  {
    hide Overruns;
    forall i | 0 <= i < |sys.tasks|
      ensures Overruns(sys, a, i) <==>
                sys.tasks[i].wcet as real
                  >= sys.tasks[i].period as real * sys.cpufreqs[a.freq[i]].wcetScale * sys.mems[a.mem[i]].wcetScale
    {
      OverrunLaw(sys, a, i);
    }
  }

  // ---------- utilisation ----------

  /** The part of its period that a task takes. */
  function Share(sys: System, a: Assignment, i: nat): real
    requires TaskIndex(sys, a, i)
  {
    sys.tasks[i].wcet as real
      / (sys.tasks[i].period as real * (sys.cpufreqs[a.freq[i]].wcetScale * sys.mems[a.mem[i]].wcetScale))
  }

  function ShareSum(sys: System, a: Assignment, n: nat): real
    requires sys.Valid() && a.Fits(sys) && n <= |sys.tasks|
  {
    if n == 0 then 0.0 else ShareSum(sys, a, n - 1) + Share(sys, a, n - 1)
  }

  lemma ShareLaw(sys: System, a: Assignment, i: nat)
    requires TaskIndex(sys, a, i)
    ensures ScaledWcetOf(sys, a, i) / sys.tasks[i].period as real == Share(sys, a, i)
  {
    var mem, freq := sys.mems[a.mem[i]], sys.cpufreqs[a.freq[i]];
    ScaledWcetLaw(sys.tasks[i], mem, freq);
    Divide(ScaledWcetOf(sys, a, i), sys.tasks[i].period as real, freq.wcetScale, mem.wcetScale,
           sys.tasks[i].wcet as real);
  }

  lemma Divide(x: real, p: real, f: real, m: real, w: real)
    requires p > 0.0 && f > 0.0 && m > 0.0 && x * f * m == w
    ensures p * (f * m) > 0.0 && x / p == w / (p * (f * m))
  {
    var c := f * m;
    assert c > 0.0 && p * c > 0.0;
    assert x * c == w;
    DivideBy(x, p, c, w);
  }

  lemma DivideBy(x: real, p: real, c: real, w: real)
    requires p > 0.0 && c > 0.0 && p * c > 0.0 && x * c == w
    ensures x / p == w / (p * c)
  {
    var q := x / p;
    assert q * p == x;
    assert q * (p * c) == (q * p) * c;
  }
}
