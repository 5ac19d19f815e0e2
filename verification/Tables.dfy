/** The configuration tables of the scheduler: processor frequencies, memory types, clouds,
    offloading ratios, tasks and their network figures, and an assignment of every task to one
    entry of each table. */
module Tables {
  import opened Outcomes

  const MAX_TASKS := 200
  const MAX_CPU_FREQS := 5
  const MAX_ATTRTYPES := 5

  datatype CpuFreq = CpuFreq(wcetScale: real, powerActive: real, powerIdle: real)

  datatype Mem = Mem(maxCapacity: nat, wcetScale: real, powerActive: real, powerIdle: real)

  datatype Cloud = Cloud(computationPower: real)

  datatype Task = Task(wcet: nat, period: nat, memreq: nat, memActiveRatio: real,
                       taskSize: nat, inputSize: nat, outputSize: nat)

  datatype Network = Network(uplink: nat, downlink: nat)

  datatype NetCommander = NetCommander(interceptOut: nat, interceptIn: nat)

  datatype System = System(cpufreqs: seq<CpuFreq>, mems: seq<Mem>, clouds: seq<Cloud>, ratios: seq<real>,
                           tasks: seq<Task>, networks: seq<Network>, netCommanders: seq<NetCommander>,
                           cutoff: real, penalty: real)
  {
    /** What parsing establishes, plus what the formulas divide by.  A period below 1000 would make
        the integer quotient `period / 1000` of the cost formula zero. */
    ghost predicate Valid() {
      && 2 <= |tasks| <= MAX_TASKS
      && |networks| >= |tasks| && |netCommanders| >= |tasks|
      && 1 <= |cpufreqs| <= MAX_CPU_FREQS
      && 1 <= |mems| <= MAX_ATTRTYPES
      && 1 <= |clouds| <= MAX_ATTRTYPES
      && 1 <= |ratios| <= MAX_ATTRTYPES
      && (forall i :: 0 <= i < |cpufreqs| ==> 0.0 < cpufreqs[i].wcetScale <= 1.0)
      && Decreasing(cpufreqs)
      && (forall i :: 0 <= i < |mems| ==> 0.0 < mems[i].wcetScale <= 1.0)
      && (forall i :: 0 <= i < |clouds| ==> 0.0 < clouds[i].computationPower)
      && (forall i :: 0 <= i < |networks| ==> networks[i].uplink > 0 && networks[i].downlink > 0)
      && (forall i :: 0 <= i < |tasks| ==> 1000 <= tasks[i].period && 0.0 <= tasks[i].memActiveRatio)
    }
  }

  /** What parsing also demands of the tables, and the proofs here do not need. */
  ghost predicate Parsed(sys: System) {
    && (forall i :: 0 <= i < |sys.cpufreqs| ==> sys.cpufreqs[i].powerActive >= 0.0 && sys.cpufreqs[i].powerIdle >= 0.0)
    && (forall i :: 0 <= i < |sys.mems| ==> sys.mems[i].maxCapacity > 0)
    && (forall i :: 0 <= i < |sys.mems| ==> sys.mems[i].powerActive >= 0.0 && sys.mems[i].powerIdle >= 0.0)
    && (forall i :: 0 <= i < |sys.tasks| ==> sys.tasks[i].wcet < sys.tasks[i].period)
    && (forall i :: 0 <= i < |sys.ratios| ==> 0.0 <= sys.ratios[i] <= 1.0)
    && forall i, j :: 0 <= i < j < |sys.ratios| ==> sys.ratios[i] <= sys.ratios[j]
  }

  /** Frequencies are listed from the fastest to the slowest. */
  ghost predicate Decreasing(freqs: seq<CpuFreq>) {
    forall i, j :: 0 <= i < j < |freqs| ==> freqs[i].wcetScale >= freqs[j].wcetScale
  }

  /** The table index chosen for every task, one sequence per attribute. */
  datatype Assignment = Assignment(mem: seq<nat>, cloud: seq<nat>, freq: seq<nat>, ratio: seq<nat>)
  {
    ghost predicate Fits(sys: System) {
      && |mem| == |cloud| == |freq| == |ratio| == |sys.tasks|
      && InRange(mem, |sys.mems|) && InRange(cloud, |sys.clouds|)
      && InRange(freq, |sys.cpufreqs|) && InRange(ratio, |sys.ratios|)
    }

    ghost predicate Local() {
      ratio == Zeros(|ratio|)
    }
  }

  ghost predicate InRange(s: seq<nat>, bound: nat) {
    forall i :: 0 <= i < |s| ==> s[i] < bound
  }

  function Zeros(n: nat): (s: seq<nat>)
    ensures |s| == n && forall i :: 0 <= i < n ==> s[i] == 0
  {
    seq(n, _ => 0)
  }

  /** The fixed-size frequency table, filled one entry at a time while the configuration is read. */
  class CpuFreqTable {
    const cpufreqs: array<CpuFreq>
    var nCpufreqs: nat

    ghost predicate Valid()
      reads this, cpufreqs
    {
      cpufreqs.Length == MAX_CPU_FREQS && nCpufreqs <= MAX_CPU_FREQS && Decreasing(Contents())
    }

    ghost function Contents(): seq<CpuFreq>
      reads this, cpufreqs
      requires nCpufreqs <= cpufreqs.Length
    {
      cpufreqs[..nCpufreqs]
    }

    constructor ()
      ensures Valid() && Contents() == [] && fresh(cpufreqs)
    {
      cpufreqs := new CpuFreq[MAX_CPU_FREQS](_ => CpuFreq(0.0, 0.0, 0.0));
      nCpufreqs := 0;
    }

    /** Refuses a full table and an entry faster than the last one; otherwise appends. */
    method AddCpufreq(wcetScale: real, powerActive: real, powerIdle: real) returns (r: Outcome)
      requires Valid()
      modifies this, cpufreqs
      ensures Valid()
      ensures r == Fatal <==> old(nCpufreqs) == MAX_CPU_FREQS
                              || exists f :: f in old(Contents()) && f.wcetScale < wcetScale
      ensures Contents() == if r == Fatal then old(Contents())
                            else old(Contents()) + [CpuFreq(wcetScale, powerActive, powerIdle)]
    {
      if nCpufreqs >= MAX_CPU_FREQS {
        return Fatal;
      }
      if nCpufreqs > 0 && cpufreqs[nCpufreqs - 1].wcetScale < wcetScale {
        assert cpufreqs[nCpufreqs - 1] in Contents();
        return Fatal;
      }
      nCpufreqs := nCpufreqs + 1;
      cpufreqs[nCpufreqs - 1] := CpuFreq(wcetScale, powerActive, powerIdle);
      return Done;
    }
  }
}
