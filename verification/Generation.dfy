/** One generation of the genetic algorithm as a relation between snapshots of the population. */
module Generation {
  import opened Outcomes
  import opened Tables
  import opened Evaluation
  import opened Repair
  import opened EcmList
  import opened Gene
  import opened GeneIndex
  import opened Elitism

  /** Everything stored for every gene, and the genes ranked by score. */
  datatype Snapshot = Snapshot(records: seq<Record>, order: seq<nat>)

  /** A feasible local assignment with the figures it evaluates to. */
  ghost predicate SoundRecord(sys: System, r: Record)
    requires sys.Valid()
  {
    var a := r.chosen;
    && a.Fits(sys) && a.Local() && Acceptable(sys, a) && r.stored == Evaluate(sys, a)
  }

  ghost function ScoresAlong(records: seq<Record>, order: seq<nat>): (keys: seq<real>)
    ensures |keys| == |order|
  {
    seq(|order|, q requires 0 <= q < |order| =>
          if order[q] < |records| then records[order[q]].stored.score else 0.0)
  }

  ghost function Scores(s: Snapshot): (keys: seq<real>)
    ensures |keys| == |s.order|
  {
    ScoresAlong(s.records, s.order)
  }

  /** Sound genes, all of them ranked, by ascending score. */
  ghost predicate IsPopulation(sys: System, s: Snapshot)
    requires sys.Valid()
  {
    && |s.records| == |s.order| >= 3 && Ranked(s.order, |s.records|)
    && Ascending(Scores(s))
    && forall i :: 0 <= i < |s.records| ==> SoundRecord(sys, s.records[i])
  }

  // ---------- the tries of one generation ----------

  /** A child and the two genes it was bred from. */
  datatype Try = Try(child: Assignment, first: nat, second: nat)

  /** Two different listed parents, mixed at some crossover points, with cloud attributes from neither. */
  ghost predicate IsTry(sys: System, records: seq<Record>, listed: seq<nat>, cloud: seq<nat>, t: Try) {
    && t.first in listed && t.second in listed && t.first != t.second
    && t.first < |records| && t.second < |records| && t.child.Fits(sys) && t.child.Local()
    && IsChild(t.child, records[t.first].chosen, records[t.second].chosen, cloud, |sys.tasks|)
  }

  /** The child is feasible and no worse than either parent. */
  ghost predicate Succeeds(sys: System, records: seq<Record>, t: Try)
    requires sys.Valid() && t.child.Fits(sys) && t.first < |records| && t.second < |records|
  {
    && Acceptable(sys, t.child)
    && Evaluate(sys, t.child).score <= records[t.first].stored.score
    && Evaluate(sys, t.child).score <= records[t.second].stored.score
  }

  /** The child fits the memories but some task fills its period, which ends the program. */
  ghost predicate GivesUp(sys: System, child: Assignment)
    requires sys.Valid() && child.Fits(sys)
  {
    MemFits(sys, child) && !NoOverrun(sys, child)
  }

  ghost predicate AllRejected(sys: System, records: seq<Record>, listed: seq<nat>, cloud: seq<nat>, tries: seq<Try>)
    requires sys.Valid()
  {
    forall i :: 0 <= i < |tries| ==> IsTry(sys, records, listed, cloud, tries[i])
                                     && !Succeeds(sys, records, tries[i]) && !GivesUp(sys, tries[i].child)
  }

  /** The tries of one generation.  All but the last were rejected.  It is done if and only if the last
      child was accepted; otherwise that child overran, or was the last of MAX_TRY rejected ones. */
  ghost predicate TriesEnd(sys: System, records: seq<Record>, listed: seq<nat>, cloud: seq<nat>, tries: seq<Try>,
                           r: Outcome)
    requires sys.Valid()
  {
    && 0 < |tries| <= MAX_TRY
    && var last := tries[|tries| - 1];
       && AllRejected(sys, records, listed, cloud, tries[..|tries| - 1])
       && IsTry(sys, records, listed, cloud, last)
       && (r == Done <==> Succeeds(sys, records, last))
       && (r == Fatal ==> GivesUp(sys, last.child) || |tries| == MAX_TRY)
  }

  lemma AnotherRejected(sys: System, records: seq<Record>, listed: seq<nat>, cloud: seq<nat>, tries: seq<Try>, t: Try)
    requires sys.Valid() && AllRejected(sys, records, listed, cloud, tries)
    requires IsTry(sys, records, listed, cloud, t) && !Succeeds(sys, records, t) && !GivesUp(sys, t.child)
    ensures AllRejected(sys, records, listed, cloud, tries + [t])
  {}

  /** A last try that is accepted or overruns ends the generation. */
  lemma DecisiveTry(sys: System, records: seq<Record>, listed: seq<nat>, cloud: seq<nat>, tries: seq<Try>, t: Try,
                    r: Outcome)
    requires sys.Valid() && AllRejected(sys, records, listed, cloud, tries) && |tries| < MAX_TRY
    requires IsTry(sys, records, listed, cloud, t)
    requires if r == Done then Succeeds(sys, records, t) else GivesUp(sys, t.child)
    ensures TriesEnd(sys, records, listed, cloud, tries + [t], r)
  {
    hide IsTry, AllRejected, MemFits, NoOverrun, Evaluate;
    assert (tries + [t])[..|tries|] == tries;
  }

  lemma TriesUsedUp(sys: System, records: seq<Record>, listed: seq<nat>, cloud: seq<nat>, tries: seq<Try>)
    requires sys.Valid() && AllRejected(sys, records, listed, cloud, tries) && |tries| == MAX_TRY
    ensures TriesEnd(sys, records, listed, cloud, tries, Fatal)
  {
    hide IsTry, Succeeds, GivesUp;
    assert forall i :: 0 <= i < MAX_TRY - 1 ==> tries[..MAX_TRY - 1][i] == tries[i];
  }

  // ---------- one generation ----------

  /** The gene with the largest score, and the others. */
  ghost function Worst(s: Snapshot): nat
    requires s.order != []
  {
    s.order[|s.order| - 1]
  }

  ghost function Others(s: Snapshot): seq<nat>
    requires s.order != []
  {
    RemoveAt(s.order, |s.order| - 1)
  }

  /** The tries made from a population, all from the genes other than the worst. */
  ghost predicate Bred(sys: System, s: Snapshot, tries: seq<Try>, r: Outcome)
    requires sys.Valid()
  {
    && IsPopulation(sys, s)
    && TriesEnd(sys, s.records, Others(s), s.records[Worst(s)].chosen.cloud, tries, r)
  }

  /** Gene i joins the others, ranked by ascending keys, at the place where a search for x stops. */
  ghost predicate JoinsAt(others: seq<nat>, keys: seq<real>, i: nat, x: real, order: seq<nat>, p: nat) {
    p <= |others| && InsertionPoint(keys, x, p) && order == InsertAt(others, p, i)
  }

  /** The worst gene becomes the accepted child and moves to the rank of its score; nothing else changes. */
  ghost predicate NextGeneration(sys: System, s: Snapshot, t: Snapshot, tries: seq<Try>)
    requires sys.Valid()
  {
    && Bred(sys, s, tries, Done)
    && var child := tries[|tries| - 1].child;
       var e := Evaluate(sys, child);
       && t.records == s.records[Worst(s) := Record(child, e)]
       && exists p: nat :: JoinsAt(Others(s), ScoresAlong(s.records, Others(s)), Worst(s), e.score, t.order, p)
  }

  lemma OthersRanked(sys: System, s: Snapshot)
    requires sys.Valid() && IsPopulation(sys, s)
    ensures Ranked(Others(s), |s.records|) && Worst(s) !in Others(s) && Worst(s) < |s.records|
    ensures ScoresAlong(s.records, Others(s)) == RemoveAt(Scores(s), |s.order| - 1)
    ensures Scores(s)[|s.order| - 1] == s.records[Worst(s)].stored.score
  {
    hide SoundRecord;
    RemoveKeepsRanked(s.order, |s.order| - 1, |s.records|);
  }

  /** A child is no worse than a listed parent, so no worse than the worst. */
  lemma ChildBound(sys: System, s: Snapshot, tries: seq<Try>)
    requires sys.Valid() && Bred(sys, s, tries, Done)
    ensures |tries| > 0
    ensures var child := tries[|tries| - 1].child;
            && child.Fits(sys) && SoundRecord(sys, Record(child, Evaluate(sys, child)))
            && Evaluate(sys, child).score <= Scores(s)[|s.order| - 1]
  {
    hide MemFits, NoOverrun, Evaluate, AllRejected, IsChild;
    var t := tries[|tries| - 1];
    var q :| 0 <= q < |Others(s)| && Others(s)[q] == t.first;
    assert s.order[q] == t.first;
    assert Scores(s)[q] <= Scores(s)[|s.order| - 1];
  }

  lemma ScoresInserted(records: seq<Record>, others: seq<nat>, worst: nat, x: Record, p: nat)
    requires Ranked(others, |records|) && worst < |records| && worst !in others && p <= |others|
    ensures ScoresAlong(records[worst := x], InsertAt(others, p, worst))
         == InsertAt(ScoresAlong(records, others), p, x.stored.score)
  {
    assert forall q :: 0 <= q < |others| ==> others[q] != worst;
  }

  /** A generation leads from a population to a population whose scores are no worse at any rank. */
  lemma GenerationImproves(sys: System, s: Snapshot, t: Snapshot, tries: seq<Try>)
    requires sys.Valid() && NextGeneration(sys, s, t, tries)
    ensures IsPopulation(sys, t) && |t.records| == |s.records|
    ensures NoWorse(Scores(t), Scores(s))
    ensures Sum(Scores(t)) <= Sum(Scores(s))
  {
    hide SoundRecord, TriesEnd, Evaluate, ScoresAlong, InsertionPoint, InsertAt, Ascending, RemoveAt, NoWorse;
    OthersRanked(sys, s);
    ChildBound(sys, s, tries);
    var child := tries[|tries| - 1].child;
    var x := Record(child, Evaluate(sys, child));
    var p: nat :| JoinsAt(Others(s), ScoresAlong(s.records, Others(s)), Worst(s), x.stored.score, t.order, p);
    InsertKeepsRanked(Others(s), p, Worst(s), |s.records|);
    ScoresInserted(s.records, Others(s), Worst(s), x, p);
    ReplaceWorst(Scores(s), x.stored.score, p);
    NoWorseSum(Scores(t), Scores(s));
    InsertLonger(Others(s), p, Worst(s));
  }

  lemma InsertLonger(s: seq<nat>, p: nat, x: nat)
    requires p <= |s|
    ensures |InsertAt(s, p, x)| == |s| + 1
  {}

  /** The accepted child takes the place of the worst gene at the rank p of its score. */
  lemma Completed(sys: System, s: Snapshot, t: Snapshot, tries: seq<Try>, x: Record, p: nat)
    requires sys.Valid() && Bred(sys, s, tries, Done)
    requires SoundRecord(sys, x) && x.chosen == tries[|tries| - 1].child
    requires t.records == s.records[Worst(s) := x]
    requires InsertionPoint(RemoveAt(Scores(s), |s.order| - 1), x.stored.score, p)
    requires p <= |Others(s)| && t.order == InsertAt(Others(s), p, Worst(s))
    ensures NextGeneration(sys, s, t, tries)
  {
    hide TriesEnd, Evaluate, MemFits, NoOverrun, ScoresAlong, InsertionPoint, InsertAt, RemoveAt;
    OthersRanked(sys, s);
    assert JoinsAt(Others(s), ScoresAlong(s.records, Others(s)), Worst(s), x.stored.score, t.order, p);
  }

  // ---------- whole runs ----------

  /** The populations of successive generations, with the tries that lead from each to the next. */
  ghost predicate IsEvolution(sys: System, shots: seq<Snapshot>, tries: seq<seq<Try>>)
    requires sys.Valid()
  {
    && |shots| == |tries| + 1 && IsPopulation(sys, shots[0])
    && forall g :: 0 <= g < |tries| ==> NextGeneration(sys, shots[g], shots[g + 1], tries[g])
  }

  lemma StartEvolution(sys: System, s: Snapshot)
    requires sys.Valid() && IsPopulation(sys, s)
    ensures IsEvolution(sys, [s], [])
  {}

  lemma ExtendEvolution(sys: System, shots: seq<Snapshot>, tries: seq<seq<Try>>, t: Snapshot, last: seq<Try>)
    requires sys.Valid() && IsEvolution(sys, shots, tries) && NextGeneration(sys, shots[|shots| - 1], t, last)
    ensures IsEvolution(sys, shots + [t], tries + [last])
  {
    hide NextGeneration, IsPopulation;
  }

  /** Elitism over whole runs: from any generation to any later one the score at every rank, and so the
      best, the worst and the sum, can only fall, and every generation is a population of sound genes. */
  lemma {:induction false} ElitismOverRuns(sys: System, shots: seq<Snapshot>, tries: seq<seq<Try>>, g: nat, h: nat)
    requires sys.Valid() && IsEvolution(sys, shots, tries) && g <= h < |shots|
    ensures IsPopulation(sys, shots[h]) && |shots[h].records| == |shots[0].records|
    ensures NoWorse(Scores(shots[h]), Scores(shots[g]))
    ensures Sum(Scores(shots[h])) <= Sum(Scores(shots[g]))
    decreases h
  {
    hide IsPopulation, NextGeneration, NoWorse, Scores;
    if h == 0 {
      NoWorseReflexive(Scores(shots[0]));
    } else {
      assert NextGeneration(sys, shots[h - 1], shots[h], tries[h - 1]);
      GenerationImproves(sys, shots[h - 1], shots[h], tries[h - 1]);
      if g == h {
        ElitismOverRuns(sys, shots, tries, h - 1, h - 1);
        NoWorseReflexive(Scores(shots[h]));
      } else {
        ElitismOverRuns(sys, shots, tries, g, h - 1);
        NoWorseTransitive(Scores(shots[h]), Scores(shots[h - 1]), Scores(shots[g]));
      }
    }
  }

  lemma NoWorseReflexive(s: seq<real>)
    ensures NoWorse(s, s)
  {}
}
