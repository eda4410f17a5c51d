/**
 * The gettimeofday suite: the bound vDSO entry, the verification loop that
 * alternates vDSO and system-call readings, and the ABI matrix that runs
 * every pair of argument classes in a child process.
 *
 * Clock readings, the stop condition and the child processes are outside
 * the model: readings arrive as inputs, the number of loop iterations is
 * the number of readings supplied, and each run_as_child call is logged.
 */
module Gettimeofday {
  import opened Vdso
  import opened Timeval
  import opened GtodAbi

  /** gettimeofday_vdso_names: the candidate vDSO symbols, in the order they are tried. */
  const VdsoNames: seq<string> := ["__kernel_gettimeofday", "__vdso_gettimeofday"]

  /**
   * Bound with the first-match lookup of the candidate names, the suite
   * has no vDSO entry (and prints its note) exactly when neither name is
   * exported, and otherwise holds the earlier exported name's address.
   */
  lemma BindingFromCandidates(table: SymbolTable)
    ensures FirstResolved(table, VdsoNames) == None <==>
      "__kernel_gettimeofday" !in table && "__vdso_gettimeofday" !in table
    ensures "__kernel_gettimeofday" in table ==>
      FirstResolved(table, VdsoNames) == Some(table["__kernel_gettimeofday"])
    ensures "__kernel_gettimeofday" !in table && "__vdso_gettimeofday" in table ==>
      FirstResolved(table, VdsoNames) == Some(table["__vdso_gettimeofday"])
  {
    NoneIffNoCandidate(table, VdsoNames);
    FirstResolvedIsFirst(table, VdsoNames);
    assert VdsoNames[0] == "__kernel_gettimeofday" && VdsoNames[1] == "__vdso_gettimeofday";
  }

  // ---------------------------------------------------------------------
  // Verification loop: specification

  /** One reading and the path that produced it. */
  datatype Reading = Reading(path: CallPath, tv: Timeval)

  /**
   * What the clocks return during one iteration of the loop: first the
   * vDSO reading (taken only when a vDSO symbol is bound), then the
   * system-call reading.
   */
  datatype Round = Round(vdso: Timeval, sys: Timeval)

  /** A logged failure, naming the path of the offending (newer) reading. */
  datatype Failure =
    | NotNormalized(path: CallPath, now: Timeval)
    | Predates(path: CallPath, prev: Timeval, now: Timeval)

  /** The readings of one iteration, in call order. */
  function RoundReadings(hasVdso: bool, r: Round): seq<Reading>
  {
    (if hasVdso then [Reading(ViaVdso, r.vdso)] else []) + [Reading(ViaSyscall, r.sys)]
  }

  /** All readings in call order: the system-call reading taken before the loop, then each iteration's. */
  function Trace(hasVdso: bool, start: Timeval, rounds: seq<Round>): (t: seq<Reading>)
    ensures |t| >= 1 && t[0] == Reading(ViaSyscall, start)
  {
    if rounds == [] then [Reading(ViaSyscall, start)]
    else Trace(hasVdso, start, rounds[..|rounds| - 1]) + RoundReadings(hasVdso, rounds[|rounds| - 1])
  }

  /** The failures one new reading raises against the reading just before it. */
  function Check(prev: Timeval, cur: Reading): seq<Failure>
  {
    (if !Normalized(cur.tv) then [NotNormalized(cur.path, cur.tv)] else [])
    + (if !Ordered(prev, cur.tv) then [Predates(cur.path, prev, cur.tv)] else [])
  }

  /** The failure log of a trace: every reading after the first checked against its predecessor. */
  function Failures(t: seq<Reading>): seq<Failure>
  {
    FailuresUpTo(t, |t|)
  }

  /** The failures raised by the first `n` readings of `t`. */
  function FailuresUpTo(t: seq<Reading>, n: nat): seq<Failure>
    requires n <= |t|
  {
    if n <= 1 then []
    else FailuresUpTo(t, n - 1) + Check(t[n - 2].tv, t[n - 1])
  }

  function Last(t: seq<Reading>): Reading
    requires |t| >= 1
  {
    t[|t| - 1]
  }

  lemma {:induction false} PrefixFailures(t: seq<Reading>, u: seq<Reading>, n: nat)
    requires n <= |t| && n <= |u| && t[..n] == u[..n]
    ensures FailuresUpTo(t, n) == FailuresUpTo(u, n)
  {
    if n > 1 {
      assert t[..n - 1] == t[..n][..n - 1] && u[..n - 1] == u[..n][..n - 1];
      PrefixFailures(t, u, n - 1);
      assert t[n - 2] == t[..n][n - 2] && u[n - 2] == u[..n][n - 2];
      assert t[n - 1] == t[..n][n - 1] && u[n - 1] == u[..n][n - 1];
    }
  }

  /** A new reading extends the log by its own checks. */
  lemma FailuresSnoc(t: seq<Reading>, r: Reading)
    requires |t| >= 1
    ensures Failures(t + [r]) == Failures(t) + Check(Last(t).tv, r)
  {
    var u := t + [r];
    assert u[..|t|] == t[..|t|];
    PrefixFailures(u, t, |t|);
  }

  /** One more iteration extends the log by the checks of its readings, in call order. */
  lemma RoundStep(h: bool, start: Timeval, rounds: seq<Round>, i: nat)
    requires i < |rounds|
    ensures var t := Trace(h, start, rounds[..i]);
      var t' := Trace(h, start, rounds[..i + 1]);
      var r := rounds[i];
      && Last(t').tv == r.sys
      && Failures(t') == Failures(t) +
           if h then Check(Last(t).tv, Reading(ViaVdso, r.vdso)) + Check(r.vdso, Reading(ViaSyscall, r.sys))
           else Check(Last(t).tv, Reading(ViaSyscall, r.sys))
  {
    var t := Trace(h, start, rounds[..i]);
    var r := rounds[i];
    var a, b := Reading(ViaVdso, r.vdso), Reading(ViaSyscall, r.sys);
    assert rounds[..i + 1][..i] == rounds[..i];
    if h {
      var t1 := t + [a];
      assert Trace(h, start, rounds[..i + 1]) == t1 + [b];
      FailuresSnoc(t, a);
      FailuresSnoc(t1, b);
    } else {
      assert Trace(h, start, rounds[..i + 1]) == t + [b];
      FailuresSnoc(t, b);
    }
  }

  // ---------------------------------------------------------------------
  // Verification loop: properties

  /** The log stays empty exactly when every later reading is normalized and not earlier than its predecessor. */
  lemma NoFailuresIff(t: seq<Reading>)
    ensures Failures(t) == [] <==>
      forall i :: 0 < i < |t| ==> Normalized(t[i].tv) && Ordered(t[i - 1].tv, t[i].tv)
  {
    NoFailuresUpToIff(t, |t|);
  }

  lemma {:induction false} NoFailuresUpToIff(t: seq<Reading>, n: nat)
    requires n <= |t|
    ensures FailuresUpTo(t, n) == [] <==>
      forall i :: 0 < i < n ==> Normalized(t[i].tv) && Ordered(t[i - 1].tv, t[i].tv)
  {
    if n > 1 {
      NoFailuresUpToIff(t, n - 1);
    }
  }

  /** With an empty log, any reading is not earlier than every reading taken before it, whatever the paths. */
  lemma CleanTraceIsMonotone(t: seq<Reading>)
    requires Failures(t) == []
    ensures forall i, j :: 0 <= i <= j < |t| ==> Ordered(t[i].tv, t[j].tv)
  {
    NoFailuresIff(t);
    forall i, j | 0 <= i <= j < |t|
      ensures Ordered(t[i].tv, t[j].tv)
    {
      MonotoneFrom(t, i, j);
    }
  }

  lemma {:induction false} MonotoneFrom(t: seq<Reading>, i: nat, j: nat)
    requires i <= j < |t|
    requires forall k :: 0 < k < |t| ==> Ordered(t[k - 1].tv, t[k].tv)
    ensures Ordered(t[i].tv, t[j].tv)
  {
    if i == j {
      OrderedReflexive(t[i].tv);
    } else {
      MonotoneFrom(t, i, j - 1);
      OrderedTransitive(t[i].tv, t[j - 1].tv, t[j].tv);
    }
  }

  /** A reading that is not normalized, or earlier than its predecessor, is in the log under its own path. */
  lemma ViolationIsLogged(t: seq<Reading>, i: nat)
    requires 0 < i < |t|
    ensures !Normalized(t[i].tv) ==> NotNormalized(t[i].path, t[i].tv) in Failures(t)
    ensures !Ordered(t[i - 1].tv, t[i].tv) ==> Predates(t[i].path, t[i - 1].tv, t[i].tv) in Failures(t)
  {
    ViolationIsLoggedUpTo(t, i, |t|);
  }

  lemma {:induction false} ViolationIsLoggedUpTo(t: seq<Reading>, i: nat, n: nat)
    requires 0 < i < n <= |t|
    ensures forall f :: f in Check(t[i - 1].tv, t[i]) ==> f in FailuresUpTo(t, n)
  {
    if i < n - 1 {
      ViolationIsLoggedUpTo(t, i, n - 1);
    }
  }

  /** Every logged failure comes from some reading checked against its predecessor. */
  lemma LoggedFailureHasCause(t: seq<Reading>, f: Failure)
    requires f in Failures(t)
    ensures exists i :: 0 < i < |t| && f in Check(t[i - 1].tv, t[i])
  {
    LoggedFailureHasCauseUpTo(t, |t|, f);
  }

  lemma {:induction false} LoggedFailureHasCauseUpTo(t: seq<Reading>, n: nat, f: Failure)
    requires n <= |t| && f in FailuresUpTo(t, n)
    ensures exists i :: 0 < i < n && f in Check(t[i - 1].tv, t[i])
  {
    if f !in Check(t[n - 2].tv, t[n - 1]) {
      LoggedFailureHasCauseUpTo(t, n - 1, f);
    }
  }

  /**
   * The readings alternate in the order the loop takes them: with a vDSO
   * symbol each iteration contributes a vDSO reading then a system-call
   * reading; without one, only system-call readings.
   */
  lemma {:induction false} TraceShape(hasVdso: bool, start: Timeval, rounds: seq<Round>)
    ensures var t := Trace(hasVdso, start, rounds);
      && |t| == 1 + |rounds| * RunsPerCell(hasVdso)
      && forall k :: 0 <= k < |rounds| ==>
           t[(k + 1) * RunsPerCell(hasVdso)] == Reading(ViaSyscall, rounds[k].sys)
           && (hasVdso ==> t[2 * k + 1] == Reading(ViaVdso, rounds[k].vdso))
  {
    if rounds != [] {
      var n := |rounds| - 1;
      TraceShape(hasVdso, start, rounds[..n]);
      var u := Trace(hasVdso, start, rounds[..n]);
      var t := Trace(hasVdso, start, rounds);
      assert t == u + RoundReadings(hasVdso, rounds[n]);
      forall k | 0 <= k < n
        ensures t[(k + 1) * RunsPerCell(hasVdso)] == Reading(ViaSyscall, rounds[k].sys)
        ensures hasVdso ==> t[2 * k + 1] == Reading(ViaVdso, rounds[k].vdso)
      {
        assert rounds[..n][k] == rounds[k];
        assert (k + 1) * RunsPerCell(hasVdso) <= n * RunsPerCell(hasVdso);
      }
    }
  }

  /** Without a vDSO symbol every reading comes from the system call. */
  lemma {:induction false} WithoutVdsoOnlySyscall(start: Timeval, rounds: seq<Round>)
    ensures forall r :: r in Trace(false, start, rounds) ==> r.path == ViaSyscall
  {
    if rounds != [] {
      WithoutVdsoOnlySyscall(start, rounds[..|rounds| - 1]);
    }
  }

  /** A vDSO reading that is not normalized is reported as such, under the vDSO path. */
  lemma UnnormalizedVdsoReadingIsLogged(start: Timeval, rounds: seq<Round>, k: nat)
    requires k < |rounds| && !Normalized(rounds[k].vdso)
    ensures NotNormalized(ViaVdso, rounds[k].vdso) in Failures(Trace(true, start, rounds))
  {
    TraceShape(true, start, rounds);
    ViolationIsLogged(Trace(true, start, rounds), 2 * k + 1);
  }

  /**
   * The two checks the loop applies to a new reading `now` from `path`:
   * normalization, then order against the reading `prev` just before it.
   */
  method LogViolations(log: seq<Failure>, path: CallPath, prev: Timeval, now: Timeval)
    returns (log': seq<Failure>)
    ensures log' == log + Check(prev, Reading(path, now))
  {
    log' := log;
    if !Normalized(now) {
      log' := log' + [NotNormalized(path, now)];
    }
    if !Ordered(prev, now) {
      log' := log' + [Predates(path, prev, now)];
    }
  }

  // ---------------------------------------------------------------------
  // The suite's state and entry points

  /** The suite's global state: the vDSO entry bound at start-up, if any. */
  class Suite {
    /** gettimeofday_vdso: the bound vDSO entry, None for a null pointer. */
    var vdso: Option<Addr>

    constructor ()
      ensures vdso == None
    {
      vdso := None;
    }

    /** vdso_has_gettimeofday. */
    predicate HasVdso()
      reads this
    {
      vdso.Some?
    }

    /** gettimeofday_bind: records the resolved symbol, or its absence. */
    method Bind(sym: Option<Addr>)
      modifies this
      ensures vdso == sym
      ensures HasVdso() <==> sym.Some?
    {
      vdso := sym;
    }

    /** gettimeofday_notes: whether the "vDSO version not found" note is printed. */
    method Notes() returns (note: bool)
      ensures note <==> vdso == None
    {
      note := !HasVdso();
    }

    /**
     * gettimeofday_verify. `start` is the system-call reading taken before
     * the loop; `rounds` are the readings of the iterations that run before
     * the stop condition fires. Returns the failure log.
     */
    method Verify(start: Timeval, rounds: seq<Round>) returns (log: seq<Failure>)
      ensures log == Failures(Trace(HasVdso(), start, rounds))
    {
      ghost var h := HasVdso();
      var now := start;
      log := [];
      var i := 0;
      while i < |rounds|
        invariant 0 <= i <= |rounds|
        invariant now == Last(Trace(h, start, rounds[..i])).tv
        invariant log == Failures(Trace(h, start, rounds[..i]))
      {
        RoundStep(h, start, rounds, i);
        var prev: Timeval;
        if HasVdso() {
          prev := now;
          now := rounds[i].vdso;
          log := LogViolations(log, ViaVdso, prev, now);
        }
        prev := now;
        now := rounds[i].sys;
        log := LogViolations(log, ViaSyscall, prev, now);
        i := i + 1;
      }
      assert rounds[..i] == rounds;
    }

    /**
     * The body of the matrix for one (tv, tz) cell: allocate the tz
     * argument, run the cell, then release the tz argument. Returns the
     * cell's runs in order and the tz pointer they use.
     */
    method AbiCell(mem: Memory, tv: Buf, tvType: ArgType, tzType: ArgType) returns (cell: seq<ChildRun>, tz: Buf)
      requires mem.Valid()
      requires Owned(tv) <= mem.live
      modifies mem
      ensures mem.Valid() && mem.live == old(mem.live)
      ensures tz == AllocResult(tzType, old(mem.serial))
      ensures old(mem.serial) <= mem.serial && (Allocated(tz) ==> old(mem.serial) < mem.serial)
      ensures |cell| == RunsPerCell(HasVdso())
      ensures cell[0] == ChildRun(Expected(tvType, tzType, ViaSyscall), Args(tv, tz, true))
      ensures HasVdso() ==> cell[1] == ChildRun(Expected(tvType, tzType, ViaVdso), Args(tv, tz, false))
    {
      ghost var start := mem.serial;
      tz := mem.Alloc(tzType);
      cell := RunCell(mem, tv, tz, tvType, tzType);
      ReleaseUndoesAlloc(old(mem.live), tzType, start);
      mem.Release(tz, tzType);
    }

    /**
     * The runs of one cell: the forced system call with the expectations
     * of the cell's classes and, with a vDSO symbol, the vDSO run with the
     * same arguments and the same parameters, its description and signal
     * set updated. Both runs are made while the cell's buffers are live.
     */
    method RunCell(mem: Memory, tv: Buf, tz: Buf, tvType: ArgType, tzType: ArgType) returns (cell: seq<ChildRun>)
      requires Owned(tv) + Owned(tz) <= mem.live
      ensures |cell| == RunsPerCell(HasVdso())
      ensures cell[0] == ChildRun(Expected(tvType, tzType, ViaSyscall), Args(tv, tz, true))
      ensures HasVdso() ==> cell[1] == ChildRun(Expected(tvType, tzType, ViaVdso), Args(tv, tz, false))
    {
      // First, force the system call.
      var args := Args(tv, tz, true);
      var expectedRet := 0;
      if ArgsShouldFault(tvType, tzType) {
        expectedRet := -1;
      }
      var expectedErrno := 0;
      if ArgsShouldFault(tvType, tzType) {
        expectedErrno := EFAULT;
      }
      var signalSet: set<int> := {};
      var parms := ChildParams(Desc(tvType, tzType, ViaSyscall), expectedRet, expectedErrno, signalSet);
      assert parms == Expected(tvType, tzType, ViaSyscall);
      cell := [ChildRun(parms, args)];

      // Now the vDSO, with the same arguments and parameters.
      if HasVdso() {
        args := args.(forceSyscall := false);
        if ArgsShouldFault(tvType, tzType) {
          signalSet := signalSet + {SIGSEGV};
        }
        parms := parms.(desc := Desc(tvType, tzType, ViaVdso), signals := signalSet);
        assert parms == Expected(tvType, tzType, ViaVdso);
        cell := cell + [ChildRun(parms, args)];
      }
    }

    /**
     * gettimeofday_abi: every (tv, tz) pair of argument classes, row by
     * row; a syscall run per cell and, with a vDSO symbol, a vDSO run that
     * reuses the cell's arguments and parameters. Returns the runs handed
     * to run_as_child, in order.
     */
    method Abi(mem: Memory) returns (runs: seq<ChildRun>)
      requires mem.Valid()
      modifies mem
      ensures mem.Valid() && mem.live == old(mem.live)
      ensures |runs| == Cells * RunsPerCell(HasVdso())
      ensures forall k :: 0 <= k < |runs| ==> PlannedRun(runs[k], k, HasVdso())
      ensures Sharing(runs)
    {
      runs := [];
      var tvIdx := 0;
      while tvIdx < ArgTypeMax
        invariant 0 <= tvIdx <= ArgTypeMax
        invariant mem.Valid() && mem.live == old(mem.live)
        invariant RowsDone(runs, HasVdso(), tvIdx, mem.serial)
      {
        runs := AbiRow(mem, tvIdx, runs);
        tvIdx := tvIdx + 1;
      }
    }

    /**
     * One row of the matrix: allocate the tv argument of class `tvIdx`,
     * run the five cells of the row with it, then release it. Returns
     * `runs` followed by the row's runs.
     */
    method AbiRow(mem: Memory, tvIdx: nat, runs: seq<ChildRun>) returns (runs': seq<ChildRun>)
      requires mem.Valid() && tvIdx < ArgTypeMax
      requires RowsDone(runs, HasVdso(), tvIdx, mem.serial)
      modifies mem
      ensures mem.Valid() && mem.live == old(mem.live)
      ensures RowsDone(runs', HasVdso(), tvIdx + 1, mem.serial)
      ensures |runs| <= |runs'| && runs'[..|runs|] == runs
    {
      ghost var h := HasVdso();
      runs' := runs;
      var tvType := ArgTypeOf(tvIdx);
      ghost var rowStart := mem.serial;
      var tv := mem.Alloc(tvType);
      BeginRow(runs', h, tvIdx, tv, rowStart, mem.serial);
      var tzIdx := 0;
      while tzIdx < ArgTypeMax
        invariant 0 <= tzIdx <= ArgTypeMax
        invariant mem.Valid() && mem.live == old(mem.live) + Owned(tv)
        invariant RowProgress(runs', h, tvIdx, tzIdx, tv, rowStart, mem.serial)
        invariant |runs| <= |runs'| && runs'[..|runs|] == runs
      {
        var tzType := ArgTypeOf(tzIdx);
        ghost var cellStart := mem.serial;
        var cell, tz := AbiCell(mem, tv, tvType, tzType);
        AddCell(runs', cell, h, tvIdx, tzIdx, tv, tz, rowStart, cellStart, mem.serial);
        runs' := runs' + cell;
        tzIdx := tzIdx + 1;
      }
      EndRow(runs', h, tvIdx, tv, rowStart, mem.serial);
      ReleaseUndoesAlloc(old(mem.live), tvType, rowStart);
      mem.Release(tv, tvType);
    }
  }

  // ---------------------------------------------------------------------
  // How the matrix shares pointers between runs. A run's description
  // names its cell: (desc.tv, desc.tz).

  /** The runs of one cell (its syscall run and its vDSO run) use the very same tz pointer. */
  ghost predicate TzSharedInCell(runs: seq<ChildRun>)
  {
    forall k1, k2 :: 0 <= k1 < |runs| && 0 <= k2 < |runs|
      && runs[k1].parms.desc.tv == runs[k2].parms.desc.tv && runs[k1].parms.desc.tz == runs[k2].parms.desc.tz
      ==> runs[k1].args.tz == runs[k2].args.tz
  }

  /** One tv pointer serves every run of a row, that is of one tv class. */
  ghost predicate TvSharedInRow(runs: seq<ChildRun>)
  {
    forall k1, k2 :: 0 <= k1 < |runs| && 0 <= k2 < |runs| && runs[k1].parms.desc.tv == runs[k2].parms.desc.tv
      ==> runs[k1].args.tv == runs[k2].args.tv
  }

  /** Rows never share an allocated tv buffer. */
  ghost predicate TvDistinctAcrossRows(runs: seq<ChildRun>)
  {
    forall k1, k2 :: 0 <= k1 < |runs| && 0 <= k2 < |runs| && Allocated(runs[k1].args.tv)
      && runs[k1].parms.desc.tv != runs[k2].parms.desc.tv
      ==> runs[k1].args.tv != runs[k2].args.tv
  }

  /** Cells never share an allocated tz buffer. */
  ghost predicate TzDistinctAcrossCells(runs: seq<ChildRun>)
  {
    forall k1, k2 :: 0 <= k1 < |runs| && 0 <= k2 < |runs| && Allocated(runs[k1].args.tz)
      && (runs[k1].parms.desc.tv != runs[k2].parms.desc.tv || runs[k1].parms.desc.tz != runs[k2].parms.desc.tz)
      ==> runs[k1].args.tz != runs[k2].args.tz
  }

  /** An allocated tz buffer is never passed as a tv pointer. */
  ghost predicate TzNeverTv(runs: seq<ChildRun>)
  {
    forall k1, k2 :: 0 <= k1 < |runs| && 0 <= k2 < |runs| && Allocated(runs[k1].args.tz)
      ==> runs[k1].args.tz != runs[k2].args.tv
  }

  ghost predicate Sharing(runs: seq<ChildRun>)
  {
    && TzSharedInCell(runs) && TvSharedInRow(runs)
    && TvDistinctAcrossRows(runs) && TzDistinctAcrossCells(runs)
    && TzNeverTv(runs)
  }

  // ---------------------------------------------------------------------
  // Bookkeeping for the matrix proof

  /** The first `n` cells of the matrix, in row-major order, with the pointer sharing of the matrix. */
  ghost predicate MatrixPrefix(runs: seq<ChildRun>, h: bool, n: nat)
  {
    && n <= Cells
    && |runs| == n * RunsPerCell(h)
    && (forall k :: 0 <= k < |runs| ==> PlannedRun(runs[k], k, h))
    && Sharing(runs)
  }

  /** Between rows: the first `row` rows are done and their buffers were numbered before `serial`. */
  ghost predicate RowsDone(runs: seq<ChildRun>, h: bool, row: nat, serial: nat)
  {
    && row <= ArgTypeMax
    && MatrixPrefix(runs, h, row * ArgTypeMax)
    && RunsBuffersBelow(runs, serial)
    && (forall k :: 0 <= k < |runs| ==> Ordinal(runs[k].parms.desc.tv) < row)
  }

  /** Inside row `row`, after `col` cells, with the row's tv pointer allocated as number `rowStart`. */
  ghost predicate RowProgress(runs: seq<ChildRun>, h: bool, row: nat, col: nat, tv: Buf, rowStart: nat, serial: nat)
  {
    && row < ArgTypeMax && col <= ArgTypeMax
    && MatrixPrefix(runs, h, row * ArgTypeMax + col)
    && RunsBuffersBelow(runs, serial)
    && Visited(runs, ArgTypeOf(row), col)
    && RowUses(runs, ArgTypeOf(row), tv, rowStart)
    && tv == AllocResult(ArgTypeOf(row), rowStart) && rowStart <= serial
    && (Allocated(tv) ==> rowStart < serial)
  }

  lemma BeginRow(runs: seq<ChildRun>, h: bool, row: nat, tv: Buf, rowStart: nat, serial: nat)
    requires RowsDone(runs, h, row, rowStart) && row < ArgTypeMax
    requires tv == AllocResult(ArgTypeOf(row), rowStart) && rowStart <= serial
    requires Allocated(tv) ==> rowStart < serial
    ensures RowProgress(runs, h, row, 0, tv, rowStart, serial)
  {
    OrdinalOfArgType(row);
    forall k | 0 <= k < |runs|
      ensures runs[k].parms.desc.tv != ArgTypeOf(row)
    {
      assert Ordinal(runs[k].parms.desc.tv) < row;
    }
  }

  lemma EndRow(runs: seq<ChildRun>, h: bool, row: nat, tv: Buf, rowStart: nat, serial: nat)
    requires RowProgress(runs, h, row, ArgTypeMax, tv, rowStart, serial)
    ensures RowsDone(runs, h, row + 1, serial)
  {
    OrdinalOfArgType(row);
    assert row * ArgTypeMax + ArgTypeMax == (row + 1) * ArgTypeMax;
    forall k | 0 <= k < |runs|
      ensures Ordinal(runs[k].parms.desc.tv) < row + 1
    {
      assert Ordinal(runs[k].parms.desc.tz) < ArgTypeMax;
    }
  }

  /** Appending the runs of the next cell of the row keeps every fact of the matrix proof. */
  lemma AddCell(before: seq<ChildRun>, cell: seq<ChildRun>, h: bool, row: nat, col: nat, tv: Buf, tz: Buf,
                rowStart: nat, cellStart: nat, serial: nat)
    requires RowProgress(before, h, row, col, tv, rowStart, cellStart) && col < ArgTypeMax
    requires tz == AllocResult(ArgTypeOf(col), cellStart) && cellStart <= serial
    requires Allocated(tz) ==> cellStart < serial
    requires |cell| == RunsPerCell(h)
    requires cell[0] == ChildRun(Expected(ArgTypeOf(row), ArgTypeOf(col), ViaSyscall), Args(tv, tz, true))
    requires h ==> cell[1] == ChildRun(Expected(ArgTypeOf(row), ArgTypeOf(col), ViaVdso), Args(tv, tz, false))
    ensures RowProgress(before + cell, h, row, col + 1, tv, rowStart, serial)
  {
    var c := row * ArgTypeMax + col;
    CellSplit(row, col);
    assert CellTv(c) == ArgTypeOf(row) && CellTz(c) == ArgTypeOf(col) && c % ArgTypeMax == col;
    ConcatIsCellAppended(before, cell, h, c, tv, tz);
    AddCellMatrix(before, before + cell, h, c, tv, tz, rowStart, cellStart);
    AppendKeepsBookkeeping(before, before + cell, h, c, tv, tz, rowStart, cellStart, serial);
  }

  lemma ConcatIsCellAppended(before: seq<ChildRun>, cell: seq<ChildRun>, h: bool, c: nat, tv: Buf, tz: Buf)
    requires c < Cells && |before| == c * RunsPerCell(h) && |cell| == RunsPerCell(h)
    requires cell[0] == ChildRun(Expected(CellTv(c), CellTz(c), ViaSyscall), Args(tv, tz, true))
    requires h ==> cell[1] == ChildRun(Expected(CellTv(c), CellTz(c), ViaVdso), Args(tv, tz, false))
    ensures CellAppended(before, before + cell, h, c, tv, tz)
  {
  }

  lemma AddCellMatrix(before: seq<ChildRun>, runs: seq<ChildRun>, h: bool, c: nat, tv: Buf, tz: Buf,
                      rowStart: nat, cellStart: nat)
    requires CellAppended(before, runs, h, c, tv, tz)
    requires MatrixPrefix(before, h, c)
    requires Visited(before, CellTv(c), c % ArgTypeMax)
    requires RowUses(before, CellTv(c), tv, rowStart)
    requires RunsBuffersBelow(before, cellStart)
    requires tv == AllocResult(CellTv(c), rowStart) && tz == AllocResult(CellTz(c), cellStart)
    requires Allocated(tv) ==> rowStart < cellStart
    ensures MatrixPrefix(runs, h, c + 1)
  {
    AppendKeepsPlan(before, runs, h, c, tv, tz);
    AppendKeepsSharing(before, runs, h, c, tv, tz, rowStart, cellStart);
  }

  /** Every allocated pointer of the arguments was numbered before `serial`. */
  ghost predicate BuffersBelow(args: Args, serial: nat)
  {
    && (Allocated(args.tv) ==> args.tv.serial < serial)
    && (Allocated(args.tz) ==> args.tz.serial < serial)
  }

  ghost predicate RunsBuffersBelow(runs: seq<ChildRun>, serial: nat)
  {
    forall k :: 0 <= k < |runs| ==> BuffersBelow(runs[k].args, serial)
  }

  /** The runs so far belong to earlier rows, or to the row of `tvType` and an earlier column. */
  ghost predicate Visited(runs: seq<ChildRun>, tvType: ArgType, tzIdx: nat)
  {
    forall k :: 0 <= k < |runs| ==>
      Ordinal(runs[k].parms.desc.tv) < Ordinal(tvType)
      || (runs[k].parms.desc.tv == tvType && Ordinal(runs[k].parms.desc.tz) < tzIdx)
  }

  /** Runs of the row of `tvType` use `tv`; runs of other rows hold only allocations older than the row. */
  ghost predicate RowUses(runs: seq<ChildRun>, tvType: ArgType, tv: Buf, rowStart: nat)
  {
    && (forall k :: 0 <= k < |runs| && runs[k].parms.desc.tv == tvType ==> runs[k].args.tv == tv)
    && (forall k :: 0 <= k < |runs| && runs[k].parms.desc.tv != tvType ==> BuffersBelow(runs[k].args, rowStart))
  }

  /** `runs` is `before` followed by the runs of cell `c`, made with pointers `tv` and `tz`. */
  ghost predicate CellAppended(before: seq<ChildRun>, runs: seq<ChildRun>, h: bool, c: nat, tv: Buf, tz: Buf)
  {
    var n := |before|;
    && c < Cells
    && n == c * RunsPerCell(h) && |runs| == n + RunsPerCell(h)
    && (forall k :: 0 <= k < n ==> runs[k] == before[k])
    && runs[n] == ChildRun(Expected(CellTv(c), CellTz(c), ViaSyscall), Args(tv, tz, true))
    && (h ==> runs[n + 1] == ChildRun(Expected(CellTv(c), CellTz(c), ViaVdso), Args(tv, tz, false)))
  }

  /** Cell `c` of the row-major matrix sits in row `row` and column `col`. */
  lemma CellSplit(row: nat, col: nat)
    requires row < ArgTypeMax && col < ArgTypeMax
    ensures row * ArgTypeMax + col < Cells
    ensures (row * ArgTypeMax + col) / ArgTypeMax == row
    ensures (row * ArgTypeMax + col) % ArgTypeMax == col
  {
  }

  lemma CellIndices(h: bool, c: nat, n: nat)
    requires n == c * RunsPerCell(h)
    ensures forall k :: 0 <= k < n ==> CellOf(k, h) < c
    ensures forall k :: n <= k < n + RunsPerCell(h) ==> CellOf(k, h) == c
  {
  }

  lemma AppendKeepsPlan(before: seq<ChildRun>, runs: seq<ChildRun>, h: bool, c: nat, tv: Buf, tz: Buf)
    requires CellAppended(before, runs, h, c, tv, tz)
    requires KindOf(tv) == CellTv(c) && KindOf(tz) == CellTz(c)
    requires forall k :: 0 <= k < |before| ==> PlannedRun(before[k], k, h)
    ensures forall k :: 0 <= k < |runs| ==> PlannedRun(runs[k], k, h)
  {
    CellIndices(h, c, |before|);
  }

  lemma AppendKeepsBookkeeping(before: seq<ChildRun>, runs: seq<ChildRun>, h: bool, c: nat, tv: Buf, tz: Buf,
                               rowStart: nat, cellStart: nat, serial: nat)
    requires CellAppended(before, runs, h, c, tv, tz)
    requires Visited(before, CellTv(c), c % ArgTypeMax)
    requires RowUses(before, CellTv(c), tv, rowStart)
    requires RunsBuffersBelow(before, cellStart) && cellStart <= serial
    requires Allocated(tv) ==> tv.serial < serial
    requires Allocated(tz) ==> tz.serial < serial
    ensures Visited(runs, CellTv(c), c % ArgTypeMax + 1)
    ensures RowUses(runs, CellTv(c), tv, rowStart)
    ensures RunsBuffersBelow(runs, serial)
  {
    OrdinalOfArgType(c % ArgTypeMax);
  }

  lemma AppendKeepsSharing(before: seq<ChildRun>, runs: seq<ChildRun>, h: bool, c: nat, tv: Buf, tz: Buf,
                           rowStart: nat, cellStart: nat)
    requires CellAppended(before, runs, h, c, tv, tz)
    requires Sharing(before)
    requires Visited(before, CellTv(c), c % ArgTypeMax)
    requires RowUses(before, CellTv(c), tv, rowStart)
    requires RunsBuffersBelow(before, cellStart)
    requires Allocated(tv) ==> tv.serial == rowStart && rowStart < cellStart
    requires Allocated(tz) ==> tz.serial == cellStart
    ensures Sharing(runs)
  {
    OrdinalOfArgType(c % ArgTypeMax);
    assert forall k :: 0 <= k < |before| ==>
      runs[k].parms.desc.tv != CellTv(c) || runs[k].parms.desc.tz != CellTz(c);
    AppendTzShared(before, runs, h, c, tv, tz);
    AppendTvShared(before, runs, h, c, tv, tz, rowStart);
    AppendTvDistinct(before, runs, h, c, tv, tz, rowStart);
    AppendTzDistinct(before, runs, h, c, tv, tz, cellStart);
    AppendTzNeverTv(before, runs, h, c, tv, tz, rowStart, cellStart);
  }

  lemma AppendTzShared(before: seq<ChildRun>, runs: seq<ChildRun>, h: bool, c: nat, tv: Buf, tz: Buf)
    requires CellAppended(before, runs, h, c, tv, tz)
    requires forall k :: 0 <= k < |before| ==>
      runs[k].parms.desc.tv != CellTv(c) || runs[k].parms.desc.tz != CellTz(c)
    requires TzSharedInCell(before)
    ensures TzSharedInCell(runs)
  {
  }

  lemma AppendTvShared(before: seq<ChildRun>, runs: seq<ChildRun>, h: bool, c: nat, tv: Buf, tz: Buf, rowStart: nat)
    requires CellAppended(before, runs, h, c, tv, tz)
    requires TvSharedInRow(before)
    requires RowUses(before, CellTv(c), tv, rowStart)
    ensures TvSharedInRow(runs)
  {
  }

  lemma AppendTvDistinct(before: seq<ChildRun>, runs: seq<ChildRun>, h: bool, c: nat, tv: Buf, tz: Buf, rowStart: nat)
    requires CellAppended(before, runs, h, c, tv, tz)
    requires TvDistinctAcrossRows(before)
    requires RowUses(before, CellTv(c), tv, rowStart)
    requires Allocated(tv) ==> tv.serial == rowStart
    ensures TvDistinctAcrossRows(runs)
  {
  }

  lemma AppendTzDistinct(before: seq<ChildRun>, runs: seq<ChildRun>, h: bool, c: nat, tv: Buf, tz: Buf, cellStart: nat)
    requires CellAppended(before, runs, h, c, tv, tz)
    requires TzDistinctAcrossCells(before)
    requires RunsBuffersBelow(before, cellStart)
    requires Allocated(tz) ==> tz.serial == cellStart
    ensures TzDistinctAcrossCells(runs)
  {
  }

  lemma AppendTzNeverTv(before: seq<ChildRun>, runs: seq<ChildRun>, h: bool, c: nat, tv: Buf, tz: Buf,
                        rowStart: nat, cellStart: nat)
    requires CellAppended(before, runs, h, c, tv, tz)
    requires TzNeverTv(before)
    requires RowUses(before, CellTv(c), tv, rowStart)
    requires RunsBuffersBelow(before, cellStart)
    requires Allocated(tv) ==> tv.serial == rowStart && rowStart < cellStart
    requires Allocated(tz) ==> tz.serial == cellStart
    ensures TzNeverTv(runs)
  {
    forall k1, k2 | 0 <= k1 < |runs| && 0 <= k2 < |runs| && Allocated(runs[k1].args.tz)
      ensures runs[k1].args.tz != runs[k2].args.tv
    {
      if k1 < |before| && k2 >= |before| && runs[k1].parms.desc.tv == CellTv(c) {
        assert before[k1].args.tv == tv;
      }
    }
  }
}
