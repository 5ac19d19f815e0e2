/** One attribute of every task, with its histogram and the type the balancing step draws from. */
module TaskAttrs {
  import opened Tables
  import opened Random

  // ---------- the histogram as a sequence ----------

  ghost predicate IsHistogram(counts: seq<nat>, s: seq<nat>) {
    forall t :: 0 <= t < |counts| ==> counts[t] == multiset(s)[t]
  }

  ghost predicate IsArgmax(counts: seq<nat>, m: nat) {
    m < |counts| && forall t :: 0 <= t < |counts| ==> counts[t] <= counts[m]
  }

  function Total(counts: seq<nat>): nat {
    if counts == [] then 0 else counts[0] + Total(counts[1..])
  }

  /** The counts after one task moves from one type to another. */
  function MoveOne(counts: seq<nat>, from: nat, to: nat): seq<nat>
    requires from < |counts| && to < |counts| && from != to && counts[from] > 0
  {
    counts[from := counts[from] - 1][to := counts[to] + 1]
  }

  /** How max_type follows a move: it is only ever compared with the type that gained a task. */
  function NextMaxType(counts: seq<nat>, m: nat, to: nat): nat
    requires m < |counts| && to < |counts|
  {
    if counts[m] < counts[to] then to else m
  }

  lemma MoveKeepsHistogram(counts: seq<nat>, s: seq<nat>, i: nat, to: nat)
    requires IsHistogram(counts, s) && i < |s| && s[i] < |counts| && to < |counts| && s[i] != to
    ensures counts[s[i]] > 0 && IsHistogram(MoveOne(counts, s[i], to), s[i := to])
  {}

  lemma {:induction false} CountsSumTo(counts: seq<nat>, s: seq<nat>)
    requires IsHistogram(counts, s) && InRange(s, |counts|)
    ensures Total(counts) == |s|
    decreases |s|
  {
    if s == [] {
      TotalOfZeros(counts);
    } else {
      var front, t := s[..|s| - 1], s[|s| - 1];
      assert s == front + [t];
      assert t in multiset(s);
      var fewer := counts[t := counts[t] - 1];
      CountsSumTo(fewer, front);
      TotalUpdate(counts, t, counts[t] - 1);
    }
  }

  lemma {:induction false} TotalOfZeros(counts: seq<nat>)
    requires forall t :: 0 <= t < |counts| ==> counts[t] == 0
    ensures Total(counts) == 0
  {
    if counts != [] {
      TotalOfZeros(counts[1..]);
    }
  }

  lemma {:induction false} TotalUpdate(counts: seq<nat>, t: nat, v: nat)
    requires t < |counts|
    ensures Total(counts[t := v]) + counts[t] == Total(counts) + v
  {
    if t > 0 {
      TotalUpdate(counts[1..], t - 1, v);
      assert counts[t := v][1..] == counts[1..][t - 1 := v];
    } else {
      assert counts[t := v][1..] == counts[1..];
    }
  }

  /** max_type always names a type that some task has, so balancing is never disabled. */
  lemma MaxTypeStaysPositive(counts: seq<nat>, m: nat, from: nat, to: nat)
    requires from < |counts| && to < |counts| && from != to && counts[from] > 0
    requires m < |counts| && counts[m] > 0
    ensures var c := MoveOne(counts, from, to); c[NextMaxType(c, m, to)] > 0
  {}

  /** Exactly when max_type remains a most frequent type: it becomes stale just when it lost the task
      itself, the gaining type stays below it, and a third type was tied with it. */
  lemma ArgmaxAfterMove(counts: seq<nat>, m: nat, from: nat, to: nat)
    requires from < |counts| && to < |counts| && from != to && counts[from] > 0
    requires IsArgmax(counts, m)
    ensures var c := MoveOne(counts, from, to);
            IsArgmax(c, NextMaxType(c, m, to)) <==>
              (from != m || counts[m] <= counts[to] + 1
               || forall u :: 0 <= u < |counts| && u != m && u != to ==> counts[u] < counts[m])
  {
    var c := MoveOne(counts, from, to);
    if !(from != m || counts[m] <= counts[to] + 1
         || forall u :: 0 <= u < |counts| && u != m && u != to ==> counts[u] < counts[m]) {
      var u :| 0 <= u < |counts| && u != m && u != to && counts[u] >= counts[m];
      assert c[u] > c[NextMaxType(c, m, to)];
    }
  }

  /** With tasks of two types only, max_type is always a most frequent type. */
  lemma TwoTypesKeepArgmax(counts: seq<nat>, m: nat, from: nat, to: nat)
    requires 2 <= |counts| && from < 2 && to < 2 && from != to && counts[from] > 0
    requires IsArgmax(counts, m) && m < 2
    requires forall u :: 2 <= u < |counts| ==> counts[u] == 0
    ensures var c := MoveOne(counts, from, to);
            IsArgmax(c, NextMaxType(c, m, to)) && NextMaxType(c, m, to) < 2
  {}

  /** Four tasks of two types and a third type in the table: after one balancing move max_type is not a
      most frequent type. */
  lemma ThreeTypesCanGoStale()
    ensures var before, after := [2, 2, 0, 0, 0], MoveOne([2, 2, 0, 0, 0], 0, 2);
            && |before| == MAX_ATTRTYPES && IsHistogram(before, [0, 0, 1, 1]) && IsHistogram(after, [2, 0, 1, 1])
            && IsArgmax(before, 0) && !IsArgmax(after, NextMaxType(after, 0, 2))
  {
    hide IsHistogram;
    var before, after := [2, 2, 0, 0, 0], MoveOne([2, 2, 0, 0, 0], 0, 2);
    TwoOfEach();
    MoveKeepsHistogram(before, [0, 0, 1, 1], 0, 2);
    assert [0, 0, 1, 1][0 := 2] == [2, 0, 1, 1];
    assert after == [1, 2, 1, 0, 0];
    assert after[NextMaxType(after, 0, 2)] < after[1];
  }

  lemma TwoOfEach()
    ensures IsHistogram([2, 2, 0, 0, 0], [0, 0, 1, 1])
  {
    assert multiset([0, 0, 1, 1]) == multiset{0, 0, 1, 1};
  }

  lemma NothingCounted(counts: seq<nat>)
    requires |counts| > 0 && forall t :: 0 <= t < |counts| ==> counts[t] == 0
    ensures IsHistogram(counts, []) && IsArgmax(counts, 0)
  {}

  /** Counting one more task keeps the histogram exact, and the type it belongs to replaces the most
      frequent one exactly when it overtakes it. */
  lemma CountOne(counts: seq<nat>, s: seq<nat>, t: nat, m: nat)
    requires IsHistogram(counts, s) && IsArgmax(counts, m) && t < |counts|
    ensures var c := counts[t := counts[t] + 1];
            IsHistogram(c, s + [t]) && IsArgmax(c, if c[m] < c[t] then t else m)
  {}

  lemma MostFrequentIsUsed(counts: seq<nat>, s: seq<nat>, m: nat)
    requires IsHistogram(counts, s) && IsArgmax(counts, m) && InRange(s, |counts|)
    ensures s != [] ==> counts[m] > 0
  {
    if s != [] {
      assert s[0] in multiset(s);
    }
  }

  lemma TwoTypesOnly(counts: seq<nat>, s: seq<nat>, m: nat)
    requires IsHistogram(counts, s) && InRange(s, 2) && 2 <= |counts| && m < |counts| && counts[m] > 0
    ensures m < 2 && forall u :: 2 <= u < |counts| ==> counts[u] == 0
  {
    forall u | 2 <= u < |counts|
      ensures counts[u] == 0
    {
      assert u !in multiset(s);
    }
  }

  lemma NextIndex(idx: nat, n: nat)
    requires idx < n
    ensures (idx + 1) % n == if idx + 1 == n then 0 else idx + 1
  {}

  // ---------- the attributes of one gene ----------

  class TaskAttrs {
    const attrs: array<nat>
    const counts: array<nat>
    var maxType: nat

    constructor ()
      ensures Shaped() && fresh(attrs) && fresh(counts)
    {
      attrs := new nat[MAX_TASKS](_ => 0);
      counts := new nat[MAX_ATTRTYPES](_ => 0);
      maxType := 0;
    }

    ghost predicate Shaped() {
      attrs.Length == MAX_TASKS && counts.Length == MAX_ATTRTYPES && attrs != counts
    }

    ghost function Repr(): set<object> {
      {this, attrs, counts}
    }

    ghost function Values(n: nat): seq<nat>
      requires n <= attrs.Length
      reads Repr()
    {
      attrs[..n]
    }

    /** The histogram is exact for the first n tasks and max_type names a type in use. */
    ghost predicate Valid(n: nat)
      reads Repr()
    {
      && Shaped() && n <= MAX_TASKS
      && InRange(Values(n), MAX_ATTRTYPES)
      && IsHistogram(counts[..], Values(n))
      && maxType < MAX_ATTRTYPES
      && (n > 0 ==> counts[maxType] > 0)
    }

    /** Only two types are in use and max_type is a more frequent one. */
    ghost predicate TwoTyped(n: nat)
      reads Repr()
    {
      Valid(n) && InRange(Values(n), 2) && IsArgmax(counts[..], maxType)
    }

    method ClearCounts()
      requires Shaped()
      modifies counts
      ensures forall t :: 0 <= t < |counts[..]| ==> counts[..][t] == 0
    {
      forall t | 0 <= t < MAX_ATTRTYPES {
        counts[t] := 0;
      }
    }

    method Setup(n: nat)
      requires Shaped() && n <= MAX_TASKS && InRange(Values(n), MAX_ATTRTYPES)
      modifies this, counts
      ensures Valid(n) && IsArgmax(counts[..], maxType)
    {
      hide IsHistogram, IsArgmax;
      ClearCounts();
      maxType := 0;
      NothingCounted(counts[..]);
      assert attrs[..0] == [];
      for i := 0 to n
        invariant maxType < MAX_ATTRTYPES
        invariant IsHistogram(counts[..], attrs[..i])
        invariant IsArgmax(counts[..], maxType)
      {
        var attrtype := attrs[i];
        ghost var before := counts[..];
        assert attrs[..i + 1] == attrs[..i] + [attrtype];
        CountOne(before, attrs[..i], attrtype, maxType);
        counts[attrtype] := counts[attrtype] + 1;
        assert counts[..] == before[attrtype := before[attrtype] + 1];
        if counts[maxType] < counts[attrtype] {
          maxType := attrtype;
        }
      }
      MostFrequentIsUsed(counts[..], Values(n), maxType);
    }

    method Assign(n: nat, maxValue: nat)
      requires Shaped() && n <= MAX_TASKS && 0 < maxValue <= MAX_ATTRTYPES
      modifies Repr()
      ensures Valid(n) && InRange(Values(n), maxValue) && IsArgmax(counts[..], maxType)
    {
      for i := 0 to n
        invariant InRange(attrs[..i], maxValue)
      {
        var attrtype := GetRand(maxValue);
        attrs[i] := attrtype;
        assert attrs[..i + 1] == attrs[..i] + [attrtype];
      }
      Setup(n);
    }

    /** All attributes zero: offloading is switched off. */
    method AssignZero(n: nat)
      requires Shaped() && n <= MAX_TASKS
      modifies Repr()
      ensures Valid(n) && Values(n) == Zeros(n)
    {
      for i := 0 to n
        invariant forall j :: 0 <= j < i ==> attrs[j] == 0
      {
        attrs[i] := 0;
      }
      Setup(n);
    }

    /** One-point crossover of two parents, then a fresh histogram. */
    method Inherit(first: TaskAttrs, second: TaskAttrs, crosspt: nat, n: nat)
      requires Shaped() && first.Valid(n) && second.Valid(n) && crosspt <= n
      requires Repr() !! first.Repr() && Repr() !! second.Repr()
      modifies Repr()
      ensures Valid(n) && IsArgmax(counts[..], maxType)
      ensures Values(n) == first.Values(n)[..crosspt] + second.Values(n)[crosspt..]
    {
      forall i | 0 <= i < crosspt {
        attrs[i] := first.attrs[i];
      }
      forall i | crosspt <= i < n {
        attrs[i] := second.attrs[i];
      }
      assert Values(n) == first.Values(n)[..crosspt] + second.Values(n)[crosspt..];
      Setup(n);
    }

    /** Changes the attribute of one task, keeping histogram and max_type in step. */
    method Retype(i: nat, to: nat, n: nat)
      requires Valid(n) && i < n && to < MAX_ATTRTYPES && to != attrs[i]
      modifies Repr()
      ensures Valid(n)
      ensures Values(n) == old(Values(n))[i := to]
      ensures counts[..] == MoveOne(old(counts[..]), old(attrs[i]), to)
      ensures maxType == NextMaxType(counts[..], old(maxType), to)
      ensures n > 0 && to < 2 && old(TwoTyped(n)) ==> TwoTyped(n)
    {
      ghost var before, s, m := counts[..], Values(n), maxType;
      if to < 2 && TwoTyped(n) {
        TwoTypesOnly(before, s, m);
        TwoTypesKeepArgmax(before, m, s[i], to);
      }
      var from := attrs[i];
      assert s[i] == from;
      MoveKeepsHistogram(before, s, i, to);
      MaxTypeStaysPositive(before, maxType, from, to);
      attrs[i] := to;
      assert Values(n) == s[i := to];
      counts[from] := counts[from] - 1;
      counts[to] := counts[to] + 1;
      assert counts[..] == MoveOne(before, from, to);
      if counts[maxType] < counts[to] {
        maxType := to;
      }
    }

    /** Moves one random task of type max_type to another memory type. */
    method Balance(n: nat, nMems: nat) returns (ghost changed: nat)
      requires Valid(n) && n > 0 && 2 <= nMems <= MAX_ATTRTYPES
      modifies Repr()
      ensures Valid(n)
      ensures changed < n && old(Values(n))[changed] == old(maxType)
      ensures var to := Values(n)[changed];
              && to != old(maxType) && to < nMems
              && Values(n) == old(Values(n))[changed := to]
              && counts[..] == MoveOne(old(counts[..]), old(maxType), to)
              && maxType == NextMaxType(counts[..], old(maxType), to)
      ensures nMems == 2 && old(TwoTyped(n)) ==> TwoTyped(n)
    {
      var nTasksType := counts[maxType];
      assert nTasksType > 0;
      var idxChanged := GetRand(nTasksType);
      ghost var draw := idxChanged;
      var i := 0;
      while i < n
        invariant 0 <= i <= n
        invariant multiset(attrs[..i])[maxType] + idxChanged == draw
      {
        assert attrs[..i + 1] == attrs[..i] + [attrs[i]];
        if attrs[i] == maxType {
          if idxChanged == 0 {
            break;
          }
          idxChanged := idxChanged - 1;
        }
        i := i + 1;
      }
      assert i < n;
      changed := i;
      var typeNew := GetRandExcept(nMems, maxType);
      Retype(i, typeNew, n);
    }

    /** Scans circularly from a given task for one whose attribute is above zero. */
    method FindPositive(n: nat, idxOrg: nat) returns (found: bool, idx: nat)
      requires Shaped() && n <= MAX_TASKS && idxOrg < n
      ensures found ==> idx < n && attrs[idx] > 0
      ensures !found ==> Values(n) == Zeros(n)
    {
      idx := idxOrg;
      var again := true;
      ghost var wrapped := false;
      while again
        invariant 0 <= idx < n
        invariant again <==> !(wrapped && idx == idxOrg)
        invariant !wrapped ==> idxOrg <= idx && forall j :: idxOrg <= j < idx ==> attrs[j] == 0
        invariant wrapped ==> idx <= idxOrg && forall j :: idxOrg <= j < n || 0 <= j < idx ==> attrs[j] == 0
        decreases !wrapped, n - idx
      {
        if attrs[idx] > 0 {
          return true, idx;
        }
        wrapped := wrapped || idx + 1 == n;
        NextIndex(idx, n);
        idx := (idx + 1) % n;
        again := idx != idxOrg;
      }
      return false, idx;
    }

    /** Lowers the attribute of one task by one; fails exactly when every attribute is zero. */
    method LowerByAttr(n: nat) returns (lowered: bool, ghost changed: nat)
      requires Valid(n) && n > 0
      modifies Repr()
      ensures Valid(n)
      ensures !lowered ==> old(Values(n)) == Values(n) == Zeros(n) && counts[..] == old(counts[..])
                           && maxType == old(maxType)
      ensures lowered ==>
                && changed < n && old(Values(n))[changed] > 0
                && Values(n) == old(Values(n))[changed := old(Values(n))[changed] - 1]
                && counts[..] == MoveOne(old(counts[..]), old(Values(n))[changed], old(Values(n))[changed] - 1)
                && maxType == NextMaxType(counts[..], old(maxType), old(Values(n))[changed] - 1)
      ensures old(TwoTyped(n)) ==> TwoTyped(n)
    {
      var idxOrg := GetRand(n);
      var idx;
      lowered, idx := FindPositive(n, idxOrg);
      changed := idx;
      if lowered {
        assert Values(n)[idx] == attrs[idx];
        Retype(idx, attrs[idx] - 1, n);
      }
    }
  }
}
