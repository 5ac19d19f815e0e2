/** What the memory check adds up: each task's local part, in the one memory type it is assigned to. */
module MemoryUse {
  import opened Tables
  import opened Evaluation

  /** The part of a task's memory that stays local. */
  function LocalPart(sys: System, a: Assignment, i: nat): real
    requires TaskIndex(sys, a, i)
  {
    sys.tasks[i].memreq as real * (1.0 - sys.ratios[a.ratio[i]])
  }

  lemma {:induction false} NothingAssigned(sys: System, a: Assignment, t: nat, n: nat)
    requires sys.Valid() && a.Fits(sys) && n <= |sys.tasks|
    requires forall i :: 0 <= i < n ==> a.mem[i] != t
    ensures MemUsed(sys, a, t, n) == 0.0
  {
    if n > 0 {
      NothingAssigned(sys, a, t, n - 1);
    }
  }

  /** Moving one task moves exactly its local memory. */
  lemma {:induction false} MoveTask(sys: System, a: Assignment, b: Assignment, i: nat, t: nat, n: nat)
    requires sys.Valid() && a.Fits(sys) && b.Fits(sys) && i < |sys.tasks| && n <= |sys.tasks|
    requires b.ratio == a.ratio && b.mem[i] != a.mem[i]
    requires forall j :: 0 <= j < |sys.tasks| && j != i ==> b.mem[j] == a.mem[j]
    ensures var moved := if i < n then sys.tasks[i].memreq as real * (1.0 - sys.ratios[a.ratio[i]]) else 0.0;
            MemUsed(sys, b, t, n) == MemUsed(sys, a, t, n)
                                     + (if t == b.mem[i] then moved else if t == a.mem[i] then -moved else 0.0)
  {
    if n > 0 {
      MoveTask(sys, a, b, i, t, n - 1);
    }
  }

  /** Memory of all tasks together. */
  function AllRequired(sys: System, n: nat): real
    requires n <= |sys.tasks|
  {
    if n == 0 then 0.0 else AllRequired(sys, n - 1) + sys.tasks[n - 1].memreq as real
  }

  function AllUsed(sys: System, a: Assignment, types: nat, n: nat): real
    requires sys.Valid() && a.Fits(sys) && n <= |sys.tasks|
  {
    if types == 0 then 0.0 else AllUsed(sys, a, types - 1, n) + MemUsed(sys, a, types - 1, n)
  }

  lemma {:induction false} OneMoreTask(sys: System, a: Assignment, types: nat, n: nat)
    requires sys.Valid() && a.Fits(sys) && 0 < n <= |sys.tasks|
    ensures AllUsed(sys, a, types, n) == AllUsed(sys, a, types, n - 1)
                                         + if a.mem[n - 1] < types then LocalPart(sys, a, n - 1) else 0.0
  {
    if types > 0 {
      OneMoreTask(sys, a, types - 1, n);
    }
  }

  lemma {:induction false} NothingYet(sys: System, a: Assignment, types: nat)
    requires sys.Valid() && a.Fits(sys)
    ensures AllUsed(sys, a, types, 0) == 0.0
  {
    if types > 0 {
      NothingYet(sys, a, types - 1);
    }
  }

  /** With every task local and ratio 0.0, the types together hold exactly the memory of all tasks. */
  lemma {:induction false} MemoryConserved(sys: System, a: Assignment, n: nat)
    requires sys.Valid() && a.Fits(sys) && a.Local() && sys.ratios[0] == 0.0 && n <= |sys.tasks|
    ensures AllUsed(sys, a, |sys.mems|, n) == AllRequired(sys, n)
  {
    if n == 0 {
      NothingYet(sys, a, |sys.mems|);
    } else {
      MemoryConserved(sys, a, n - 1);
      OneMoreTask(sys, a, |sys.mems|, n);
    }
  }

  lemma {:induction false} UsedNonNegative(sys: System, a: Assignment, t: nat, n: nat)
    requires sys.Valid() && a.Fits(sys) && n <= |sys.tasks|
    requires forall j :: 0 <= j < |sys.ratios| ==> sys.ratios[j] <= 1.0
    ensures MemUsed(sys, a, t, n) >= 0.0
  {
    if n > 0 {
      UsedNonNegative(sys, a, t, n - 1);
      ProductNonNegative(sys.tasks[n - 1].memreq as real, 1.0 - sys.ratios[a.ratio[n - 1]]);
    }
  }

  /** With ratios of at most one, no task takes more than its type is asked to hold. */
  lemma {:induction false} PartOfType(sys: System, a: Assignment, i: nat, n: nat)
    requires sys.Valid() && a.Fits(sys) && i < n <= |sys.tasks|
    requires forall j :: 0 <= j < |sys.ratios| ==> sys.ratios[j] <= 1.0
    ensures sys.tasks[i].memreq as real * (1.0 - sys.ratios[a.ratio[i]]) <= MemUsed(sys, a, a.mem[i], n)
  {
    UsedNonNegative(sys, a, a.mem[i], n - 1);
    if i < n - 1 {
      PartOfType(sys, a, i, n - 1);
      ProductNonNegative(sys.tasks[n - 1].memreq as real, 1.0 - sys.ratios[a.ratio[n - 1]]);
    }
  }

  /** Each task by itself is held by its memory type. */
  ghost predicate EachHeld(sys: System, a: Assignment)
    requires sys.Valid() && a.Fits(sys)
  {
    forall i :: 0 <= i < |sys.tasks| ==>
      sys.tasks[i].memreq as real * (1.0 - sys.ratios[a.ratio[i]]) <= sys.mems[a.mem[i]].maxCapacity as real
  }

  /** Where memory fits, each type holds each of its tasks. */
  lemma FittingHolds(sys: System, a: Assignment)
    requires sys.Valid() && a.Fits(sys) && MemFits(sys, a)
    requires forall j :: 0 <= j < |sys.ratios| ==> sys.ratios[j] <= 1.0
    ensures EachHeld(sys, a)
  {
    hide MemUsed;
    forall i | 0 <= i < |sys.tasks|
      ensures sys.tasks[i].memreq as real * (1.0 - sys.ratios[a.ratio[i]]) <= sys.mems[a.mem[i]].maxCapacity as real
    {
      PartOfType(sys, a, i, |sys.tasks|);
    }
  }

  function AllCapacity(sys: System, types: nat): int
    requires types <= |sys.mems|
  {
    if types == 0 then 0 else AllCapacity(sys, types - 1) + sys.mems[types - 1].maxCapacity
  }

  lemma {:induction false} UsedWithinCapacity(sys: System, a: Assignment, types: nat)
    requires sys.Valid() && a.Fits(sys) && MemFits(sys, a) && types <= |sys.mems|
    ensures AllUsed(sys, a, types, |sys.tasks|) <= AllCapacity(sys, types) as real
  {
    if types > 0 {
      UsedWithinCapacity(sys, a, types - 1);
    }
  }

  /** Tasks that need more memory than there is never fit, however they are spread. */
  lemma TooMuchNeverFits(sys: System, a: Assignment)
    requires sys.Valid() && a.Fits(sys) && a.Local() && sys.ratios[0] == 0.0
    requires AllRequired(sys, |sys.tasks|) > AllCapacity(sys, |sys.mems|) as real
    ensures !MemFits(sys, a)
  {
    MemoryConserved(sys, a, |sys.tasks|);
    if MemFits(sys, a) {
      UsedWithinCapacity(sys, a, |sys.mems|);
    }
  }
}
