/**
 * The getcpu suite: the affinity migration that forces the scheduler to
 * move the process, the verification loop that checks every CPU number it
 * observes against the mask it last wrote, and the binding of the getcpu
 * entry with its fallback to the system-call wrapper.
 *
 * The CPU numbers returned by getcpu and SYS_getcpu, random() and the
 * stop condition are outside the model: they arrive as inputs, and the
 * number of iterations is the number of readings supplied.
 */
module Getcpu {
  import opened Vdso

  /** A CPU number. */
  type Cpu = nat

  /** A cpu_set_t: the set of CPUs a mask lets the process run on. */
  type CpuSet = set<Cpu>

  /** The bound of the inner loop: random() % 1000000. */
  const LoopsModulus: nat := 1000000

  // ---------------------------------------------------------------------
  // Affinity

  /**
   * The mask migrate writes when the process reads `mask` while running
   * on `cur`: the mask without `cur`, or the start-up mask `allowed` when
   * nothing else is left.
   */
  function NextMask(mask: CpuSet, cur: Cpu, allowed: CpuSet): (r: CpuSet)
    ensures r == mask - {cur} || r == allowed
    ensures r <= mask + allowed
    ensures cur in mask && mask != {cur} ==> r == mask - {cur} && cur !in r
    ensures mask <= {cur} ==> r == allowed
    ensures allowed != {} ==> r != {}
  {
    var cleared := mask - {cur};
    if cleared == {} then allowed else cleared
  }

  /** The scheduler's view of the process: its affinity mask. */
  class Process {
    var affinity: CpuSet

    constructor (allowed: CpuSet)
      ensures affinity == allowed
    {
      affinity := allowed;
    }

    /** getcpu_setup: pin the process to `cpu`, the CPU SYS_getcpu reported. */
    method Setup(cpu: Cpu)
      modifies this
      ensures affinity == {cpu}
    {
      var mask: CpuSet := {};
      mask := mask + {cpu};
      affinity := mask;
    }

    /**
     * migrate: read the affinity, clear `cur` (the CPU SYS_getcpu
     * reported, which must be in it), fall back to `allowed` when the mask
     * became empty, write the result back and leave it to the caller.
     */
    method Migrate(allowed: CpuSet, cur: Cpu) returns (cpusAllowed: CpuSet)
      requires cur in affinity
      modifies this
      ensures cpusAllowed == NextMask(old(affinity), cur, allowed)
      ensures affinity == cpusAllowed
    {
      cpusAllowed := affinity;
      cpusAllowed := cpusAllowed - {cur};
      if |cpusAllowed| == 0 {
        cpusAllowed := allowed;
      }
      affinity := cpusAllowed;
    }
  }

  /** Every mask migrate writes lies within `allowed` and, when `allowed` is not empty, is not empty. */
  lemma MigrationStaysAllowed(mask: CpuSet, cur: Cpu, allowed: CpuSet)
    requires mask <= allowed
    ensures NextMask(mask, cur, allowed) <= allowed
    ensures allowed != {} ==> NextMask(mask, cur, allowed) != {}
  {
  }

  // ---------------------------------------------------------------------
  // Verification loop: specification

  /** What the two calls of one inner iteration return: the bound getcpu first, then SYS_getcpu. */
  datatype Sample = Sample(bound: Cpu, sys: Cpu)

  /**
   * One iteration of the outer loop: the CPU SYS_getcpu reports inside
   * migrate, the value random() returns, and the samples available before
   * the stop condition fires.
   */
  datatype Burst = Burst(cur: Cpu, rnd: nat, samples: seq<Sample>)

  /** Which call reported a CPU. */
  datatype Source = BoundGetcpu | SysGetcpu

  /** A logged failure: a CPU outside the mask migrate wrote. */
  datatype CpuFailure = Unallowed(source: Source, cpu: Cpu)

  /** The iterations a burst runs: random() % 1000000, cut short when the samples run out. */
  function Taken(b: Burst): (n: nat)
    ensures n < LoopsModulus
    ensures n <= b.rnd % LoopsModulus
    ensures n <= |b.samples|
    ensures n == b.rnd % LoopsModulus || n == |b.samples|
  {
    var loops := b.rnd % LoopsModulus;
    if loops <= |b.samples| then loops else |b.samples|
  }

  /** The failures one sample logs against `mask`, in call order. */
  function SampleLog(mask: CpuSet, s: Sample): seq<CpuFailure>
  {
    (if s.bound in mask then [] else [Unallowed(BoundGetcpu, s.bound)])
    + (if s.sys in mask then [] else [Unallowed(SysGetcpu, s.sys)])
  }

  /** The failures of the first `n` samples. */
  function BurstLog(mask: CpuSet, samples: seq<Sample>, n: nat): seq<CpuFailure>
    requires n <= |samples|
  {
    if n == 0 then [] else BurstLog(mask, samples, n - 1) + SampleLog(mask, samples[n - 1])
  }

  /** The affinity mask after the first `n` migrations, starting from the mask setup wrote. */
  function MaskAfter(setupCpu: Cpu, allowed: CpuSet, bursts: seq<Burst>, n: nat): CpuSet
    requires n <= |bursts|
  {
    if n == 0 then {setupCpu}
    else NextMask(MaskAfter(setupCpu, allowed, bursts, n - 1), bursts[n - 1].cur, allowed)
  }

  /** The mask the checks of burst `j` use: the one its own migration wrote. */
  function BurstMask(setupCpu: Cpu, allowed: CpuSet, bursts: seq<Burst>, j: nat): CpuSet
    requires j < |bursts|
  {
    MaskAfter(setupCpu, allowed, bursts, j + 1)
  }

  /** migrate's assertion holds throughout: each migration starts on a CPU of the current mask. */
  ghost predicate MigrationsValid(setupCpu: Cpu, allowed: CpuSet, bursts: seq<Burst>)
  {
    forall j :: 0 <= j < |bursts| ==> bursts[j].cur in MaskAfter(setupCpu, allowed, bursts, j)
  }

  /** The failure log of the first `n` bursts. */
  function VerifyLog(setupCpu: Cpu, allowed: CpuSet, bursts: seq<Burst>, n: nat): seq<CpuFailure>
    requires n <= |bursts|
  {
    if n == 0 then []
    else
      var b := bursts[n - 1];
      VerifyLog(setupCpu, allowed, bursts, n - 1)
      + BurstLog(BurstMask(setupCpu, allowed, bursts, n - 1), b.samples, Taken(b))
  }

  // ---------------------------------------------------------------------
  // Verification loop: properties

  /** When the start-up mask holds the setup CPU, every mask the loop writes lies within it and is not empty. */
  lemma {:induction false} MasksStayAllowed(setupCpu: Cpu, allowed: CpuSet, bursts: seq<Burst>, n: nat)
    requires setupCpu in allowed && n <= |bursts|
    ensures MaskAfter(setupCpu, allowed, bursts, n) <= allowed
    ensures MaskAfter(setupCpu, allowed, bursts, n) != {}
  {
    if n > 0 {
      MasksStayAllowed(setupCpu, allowed, bursts, n - 1);
      MigrationStaysAllowed(MaskAfter(setupCpu, allowed, bursts, n - 1), bursts[n - 1].cur, allowed);
    }
  }

  /** A sample is logged against `mask` exactly for the calls that reported a CPU outside it. */
  lemma SampleLogged(mask: CpuSet, s: Sample, f: CpuFailure)
    ensures f in SampleLog(mask, s) <==>
      (f == Unallowed(BoundGetcpu, s.bound) && s.bound !in mask)
      || (f == Unallowed(SysGetcpu, s.sys) && s.sys !in mask)
  {
  }

  /**
   * A failure is in the log of the first `n` samples exactly when one of
   * them reported its CPU, through its call, outside the mask; logging a
   * failure never ends the burst early.
   */
  lemma {:induction false} BurstLogged(mask: CpuSet, samples: seq<Sample>, n: nat, f: CpuFailure)
    requires n <= |samples|
    ensures f in BurstLog(mask, samples, n) <==>
      f.cpu !in mask && exists i :: 0 <= i < n && f == Unallowed(f.source, Reported(samples[i], f.source))
  {
    if n > 0 {
      BurstLogged(mask, samples, n - 1, f);
      SampleLogged(mask, samples[n - 1], f);
      if f in SampleLog(mask, samples[n - 1]) {
        assert f == Unallowed(f.source, Reported(samples[n - 1], f.source));
      }
      if f.cpu !in mask && f == Unallowed(f.source, Reported(samples[n - 1], f.source)) {
        assert f in SampleLog(mask, samples[n - 1]);
      }
    }
  }

  /** The CPU that `source` reported in sample `s`. */
  function Reported(s: Sample, source: Source): Cpu
  {
    match source
    case BoundGetcpu => s.bound
    case SysGetcpu => s.sys
  }

  /** A burst logs nothing exactly when every CPU its samples reported lies in the mask. */
  lemma {:induction false} BurstCleanIff(mask: CpuSet, samples: seq<Sample>, n: nat)
    requires n <= |samples|
    ensures BurstLog(mask, samples, n) == [] <==>
      forall i :: 0 <= i < n ==> samples[i].bound in mask && samples[i].sys in mask
  {
    if n > 0 {
      BurstCleanIff(mask, samples, n - 1);
    }
  }

  /**
   * The loop logs nothing exactly when every CPU reported during every
   * burst lies in the mask that burst's migration wrote.
   */
  lemma {:induction false} VerifyCleanIff(setupCpu: Cpu, allowed: CpuSet, bursts: seq<Burst>, n: nat)
    requires n <= |bursts|
    ensures VerifyLog(setupCpu, allowed, bursts, n) == [] <==>
      forall j :: 0 <= j < n ==> BurstClean(BurstMask(setupCpu, allowed, bursts, j), bursts[j])
  {
    if n > 0 {
      VerifyCleanIff(setupCpu, allowed, bursts, n - 1);
      var b := bursts[n - 1];
      var m := BurstMask(setupCpu, allowed, bursts, n - 1);
      BurstCleanIff(m, b.samples, Taken(b));
      assert VerifyLog(setupCpu, allowed, bursts, n)
          == VerifyLog(setupCpu, allowed, bursts, n - 1) + BurstLog(m, b.samples, Taken(b));
      assert BurstClean(m, b) <==> BurstLog(m, b.samples, Taken(b)) == [];
    }
  }

  /** Every CPU reported during the iterations a burst runs lies in `mask`. */
  ghost predicate BurstClean(mask: CpuSet, b: Burst)
  {
    forall i :: 0 <= i < Taken(b) ==> b.samples[i].bound in mask && b.samples[i].sys in mask
  }

  // ---------------------------------------------------------------------
  // The suite

  /** What the getcpu pointer holds: nothing yet, a vDSO entry, or getcpu_syscall_wrapper. */
  datatype Binding = Unbound | VdsoEntry(addr: Addr) | SyscallWrapper

  /** getcpu_vdso_names: the candidate vDSO symbols, in the order they are tried. */
  const GetcpuNames: seq<string> := ["__kernel_getcpu", "__vdso_getcpu"]

  /** The binding getcpu_init leaves: the first candidate the vDSO exports, else the wrapper. */
  function InitBinding(table: SymbolTable): (b: Binding)
    ensures b != Unbound
  {
    match FirstResolved(table, GetcpuNames)
    case Some(addr) => VdsoEntry(addr)
    case None => SyscallWrapper
  }

  /** The fallback is bound exactly when neither candidate name is exported. */
  lemma FallbackIffNoCandidate(table: SymbolTable)
    ensures InitBinding(table) == SyscallWrapper <==>
      "__kernel_getcpu" !in table && "__vdso_getcpu" !in table
  {
    NoneIffNoCandidate(table, GetcpuNames);
    assert GetcpuNames[0] == "__kernel_getcpu" && GetcpuNames[1] == "__vdso_getcpu";
  }

  /** A vDSO entry is bound only from the first exported candidate, in the order of the list. */
  lemma EntryIsFirstCandidate(table: SymbolTable)
    ensures "__kernel_getcpu" in table ==> InitBinding(table) == VdsoEntry(table["__kernel_getcpu"])
    ensures "__kernel_getcpu" !in table && "__vdso_getcpu" in table ==>
      InitBinding(table) == VdsoEntry(table["__vdso_getcpu"])
  {
    FirstResolvedIsFirst(table, GetcpuNames);
    assert GetcpuNames[0] == "__kernel_getcpu" && GetcpuNames[1] == "__vdso_getcpu";
  }

  class Suite {
    /** The getcpu function pointer. */
    var getcpu: Binding

    constructor ()
      ensures getcpu == Unbound
    {
      getcpu := Unbound;
    }

    /** getcpu_init: try the candidates in order, stop at the first that resolves, else bind the wrapper. */
    method Init(table: SymbolTable)
      modifies this
      ensures getcpu == InitBinding(table)
    {
      var i := 0;
      while i < |GetcpuNames|
        invariant 0 <= i <= |GetcpuNames|
        invariant i == 0 || getcpu == Unbound
        invariant FirstResolved(table, GetcpuNames) == FirstResolved(table, GetcpuNames[i..])
      {
        var sym := GetSym(table, GetcpuNames[i]);
        getcpu := if sym.Some? then VdsoEntry(sym.value) else Unbound;
        if getcpu != Unbound {
          break;
        }
        assert GetcpuNames[i..][1..] == GetcpuNames[i + 1..];
        i := i + 1;
      }
      if getcpu == Unbound {
        getcpu := SyscallWrapper;
      }
    }

    /** getcpu_notes: whether the "vDSO version not found" note is printed. */
    method Notes() returns (note: bool)
      ensures note <==> getcpu == SyscallWrapper
    {
      note := getcpu == SyscallWrapper;
    }

    /**
     * getcpu_verify. `setupCpu` is the CPU SYS_getcpu reports to
     * getcpu_setup, `allowed` the affinity mask at start-up, and `bursts`
     * the outer iterations that run before the stop condition fires.
     * Returns the failure log; the process is left on the last mask written.
     */
    method Verify(p: Process, allowed: CpuSet, setupCpu: Cpu, bursts: seq<Burst>) returns (log: seq<CpuFailure>)
      requires MigrationsValid(setupCpu, allowed, bursts)
      modifies p
      ensures log == VerifyLog(setupCpu, allowed, bursts, |bursts|)
      ensures p.affinity == MaskAfter(setupCpu, allowed, bursts, |bursts|)
    {
      p.Setup(setupCpu);
      log := [];
      var j := 0;
      while j < |bursts|
        invariant 0 <= j <= |bursts|
        invariant p.affinity == MaskAfter(setupCpu, allowed, bursts, j)
        invariant log == VerifyLog(setupCpu, allowed, bursts, j)
      {
        var b := bursts[j];
        VerifyStep(setupCpu, allowed, bursts, j);
        var cpusAllowed := p.Migrate(allowed, b.cur);
        log := CheckBurst(log, cpusAllowed, b);
        j := j + 1;
      }
    }
  }

  /** One more outer iteration: migrate writes the next mask and the burst's failures follow the log. */
  lemma VerifyStep(setupCpu: Cpu, allowed: CpuSet, bursts: seq<Burst>, j: nat)
    requires j < |bursts|
    ensures MaskAfter(setupCpu, allowed, bursts, j + 1)
         == NextMask(MaskAfter(setupCpu, allowed, bursts, j), bursts[j].cur, allowed)
    ensures VerifyLog(setupCpu, allowed, bursts, j + 1)
         == VerifyLog(setupCpu, allowed, bursts, j)
            + BurstLog(MaskAfter(setupCpu, allowed, bursts, j + 1), bursts[j].samples, Taken(bursts[j]))
  {
  }

  /**
   * The inner loop of getcpu_verify: random() % 1000000 iterations, or
   * fewer when the stop condition fires, each checking both calls'
   * CPUs against the mask migrate wrote.
   */
  method CheckBurst(log: seq<CpuFailure>, cpusAllowed: CpuSet, b: Burst) returns (log': seq<CpuFailure>)
    ensures log' == log + BurstLog(cpusAllowed, b.samples, Taken(b))
  {
    log' := log;
    var loops := b.rnd % LoopsModulus;
    var i := 0;
    while i < loops && i < |b.samples|
      invariant 0 <= i <= Taken(b)
      invariant log' == log + BurstLog(cpusAllowed, b.samples, i)
    {
      assert BurstLog(cpusAllowed, b.samples, i + 1)
          == BurstLog(cpusAllowed, b.samples, i) + SampleLog(cpusAllowed, b.samples[i]);
      log' := CheckSample(log', cpusAllowed, b.samples[i]);
      i := i + 1;
    }
    assert i == Taken(b);
  }

  /** The two membership checks of one inner iteration, logging each CPU outside the mask. */
  method CheckSample(log: seq<CpuFailure>, cpusAllowed: CpuSet, s: Sample) returns (log': seq<CpuFailure>)
    ensures log' == log + SampleLog(cpusAllowed, s)
  {
    log' := log;
    var cpu := s.bound;
    if cpu !in cpusAllowed {
      log' := log' + [Unallowed(BoundGetcpu, cpu)];
    }
    cpu := s.sys;
    if cpu !in cpusAllowed {
      log' := log' + [Unallowed(SysGetcpu, cpu)];
    }
  }
}
