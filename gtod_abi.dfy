/**
 * The pieces of the gettimeofday ABI matrix: the five argument classes, the
 * fault predicate over a pair of them, the buffers each class allocates
 * and releases, and the outcome each child run is expected to have.
 */
module GtodAbi {
  import opened Vdso

  /** errno value of a bad user address (EFAULT on Linux). */
  const EFAULT: int := 14
  /** Signal number of a segmentation violation (SIGSEGV on Linux). */
  const SIGSEGV: int := 11

  /** enum gtod_arg_type, in declaration order. */
  datatype ArgType = Valid | NullPtr | Bogus | ProtNone | ProtRead

  /** gtod_arg_type_max: the number of argument classes. */
  const ArgTypeMax: nat := 5

  /** The class with ordinal `i` in the enum. */
  function ArgTypeOf(i: nat): ArgType
    requires i < ArgTypeMax
  {
    [Valid, NullPtr, Bogus, ProtNone, ProtRead][i]
  }

  /** The ordinal of a class in the enum. */
  function Ordinal(t: ArgType): (i: nat)
    ensures i < ArgTypeMax && ArgTypeOf(i) == t
  {
    match t
    case Valid => 0
    case NullPtr => 1
    case Bogus => 2
    case ProtNone => 3
    case ProtRead => 4
  }

  /** gtod_arg_type_str: how a class is named in a run's description. */
  function ArgTypeStr(t: ArgType): (name: string)
    ensures |name| > 0
  {
    match t
    case Valid => "valid"
    case NullPtr => "NULL"
    case Bogus => "UINTPTR_MAX"
    case ProtNone => "page (PROT_NONE)"
    case ProtRead => "page (PROT_READ)"
  }

  /** Distinct classes are named differently, so a description tells its cell apart. */
  lemma ArgTypeStrInjective(t: ArgType, u: ArgType)
    ensures ArgTypeStr(t) == ArgTypeStr(u) <==> t == u
  {
  }

  /** The classes whose pointer the callee cannot write through. */
  const FaultingClasses: set<ArgType> := {Bogus, ProtNone, ProtRead}

  /** gtod_args_should_fault: the tv class is examined first, then the tz class. */
  function ArgsShouldFault(tv: ArgType, tz: ArgType): (fault: bool)
    ensures fault <==> tv in FaultingClasses || tz in FaultingClasses
  {
    match tv
    case Valid | NullPtr =>
      (match tz
       case Valid | NullPtr => false
       case Bogus | ProtNone | ProtRead => true)
    case Bogus | ProtNone | ProtRead => true
  }

  /** Valid and null pointers, in any combination, never fault. */
  lemma ValidAndNullNeverFault(tv: ArgType, tz: ArgType)
    requires tv in {Valid, NullPtr} && tz in {Valid, NullPtr}
    ensures !ArgsShouldFault(tv, tz)
  {
  }

  lemma ShouldFaultSymmetric(tv: ArgType, tz: ArgType)
    ensures ArgsShouldFault(tv, tz) == ArgsShouldFault(tz, tv)
  {
  }

  // ---------------------------------------------------------------------
  // Buffers

  /** Protection of a page allocated for an argument. */
  datatype Prot = ProtNoAccess | ProtReadOnly

  /**
   * The pointer passed for an argument. Heap buffers and pages carry the
   * serial number of their allocation, which makes distinct allocations
   * distinct values; NULL and the end of the address space are the same
   * pointer every time.
   */
  datatype Buf = NullBuf | BogusBuf | HeapBuf(serial: nat) | PageBuf(serial: nat, prot: Prot)

  /** The class of argument a pointer stands for. */
  function KindOf(b: Buf): ArgType
  {
    match b
    case NullBuf => NullPtr
    case BogusBuf => Bogus
    case HeapBuf(_) => Valid
    case PageBuf(_, p) => if p == ProtNoAccess then ProtNone else ProtRead
  }

  /** The pointer refers to memory the harness allocated and must give back. */
  predicate Allocated(b: Buf)
  {
    b.HeapBuf? || b.PageBuf?
  }

  /** The classes whose allocation rule takes memory (xmalloc or alloc_page). */
  const AllocatingClasses: set<ArgType> := {Valid, ProtNone, ProtRead}

  /** gtod_arg_alloc: the pointer a class yields, `serial` numbering the allocation. */
  function AllocResult(t: ArgType, serial: nat): (b: Buf)
    ensures KindOf(b) == t
    ensures Allocated(b) <==> t in AllocatingClasses
    ensures Allocated(b) ==> b.serial == serial
  {
    match t
    case Valid => HeapBuf(serial)
    case NullPtr => NullBuf
    case Bogus => BogusBuf
    case ProtNone => PageBuf(serial, ProtNoAccess)
    case ProtRead => PageBuf(serial, ProtReadOnly)
  }

  /** The allocation a pointer holds, as an element of the live multiset. */
  function Owned(b: Buf): multiset<Buf>
  {
    if Allocated(b) then multiset{b} else multiset{}
  }

  /** What gtod_arg_release(b, t) gives back: nothing for NULL and bogus pointers. */
  function Freed(b: Buf, t: ArgType): multiset<Buf>
  {
    match t
    case Valid => multiset{b}
    case NullPtr | Bogus => multiset{}
    case ProtNone | ProtRead => multiset{b}
  }

  /** Releasing a pointer with the class that allocated it gives back exactly that allocation. */
  lemma ReleaseUndoesAlloc(live: multiset<Buf>, t: ArgType, serial: nat)
    ensures Freed(AllocResult(t, serial), t) == Owned(AllocResult(t, serial))
    ensures Freed(AllocResult(t, serial), t) <= live + Owned(AllocResult(t, serial))
    ensures live + Owned(AllocResult(t, serial)) - Freed(AllocResult(t, serial), t) == live
  {
  }

  /**
   * The allocator behind xmalloc/xfree and alloc_page/free_page: the
   * multiset of allocations not yet given back and the next serial number.
   */
  class Memory {
    var live: multiset<Buf>
    var serial: nat

    /** Every live allocation was numbered before the next serial. */
    ghost predicate Valid()
      reads this
    {
      forall b :: b in live ==> Allocated(b) && b.serial < serial
    }

    constructor ()
      ensures Valid() && live == multiset{} && serial == 0
    {
      live := multiset{};
      serial := 0;
    }

    /** gtod_arg_alloc. */
    method Alloc(t: ArgType) returns (b: Buf)
      requires Valid()
      modifies this
      ensures Valid()
      ensures b == AllocResult(t, old(serial))
      ensures Allocated(b) ==> b !in old(live)
      ensures live == old(live) + Owned(b)
      ensures serial == if Allocated(b) then old(serial) + 1 else old(serial)
    {
      match t {
        case Valid =>
          b := HeapBuf(serial);
        case NullPtr =>
          b := NullBuf;
        case Bogus =>
          b := BogusBuf;
        case ProtNone =>
          b := PageBuf(serial, ProtNoAccess);
        case ProtRead =>
          b := PageBuf(serial, ProtReadOnly);
      }
      if Allocated(b) {
        live := live + multiset{b};
        serial := serial + 1;
      }
    }

    /**
     * gtod_arg_release: the class `t` decides how the pointer is given
     * back. What it frees must be live: freeing anything else would be a
     * double free or a free of memory never allocated. `xfree` takes only a
     * heap buffer and `free_page` only a page.
     */
    method Release(b: Buf, t: ArgType)
      requires Valid()
      requires t == ArgType.Valid ==> b.HeapBuf?
      requires t == ProtNone || t == ProtRead ==> b.PageBuf?
      requires Freed(b, t) <= live
      modifies this
      ensures Valid()
      ensures live == old(live) - Freed(b, t)
      ensures live + Freed(b, t) == old(live)
      ensures serial == old(serial)
    {
      match t {
        case Valid =>
          live := live - multiset{b};
        case NullPtr =>
        case Bogus =>
        case ProtNone =>
          live := live - multiset{b};
        case ProtRead =>
          live := live - multiset{b};
      }
    }
  }

  // ---------------------------------------------------------------------
  // Child runs

  /** The description of a run, "gettimeofday(<tv>, <tz>) (syscall|VDSO)", by its parts. */
  datatype Desc = Desc(tv: ArgType, tz: ArgType, path: CallPath)

  /** The text the description stands for. */
  function DescText(d: Desc): string
  {
    "gettimeofday(" + ArgTypeStr(d.tv) + ", " + ArgTypeStr(d.tz) + ") "
    + (if d.path == ViaSyscall then "(syscall)" else "(VDSO)")
  }

  /** struct gettimeofday_args: the two pointers and the choice of call path. */
  datatype Args = Args(tv: Buf, tz: Buf, forceSyscall: bool)

  /**
   * struct child_params, without its `func` (always do_gettimeofday) and
   * `arg` (a pointer to the caller's Args, logged with the run instead).
   * `signals` is the tolerated-signal mask, as a set of signal numbers.
   */
  datatype ChildParams = ChildParams(desc: Desc, expectedRet: int, expectedErrno: int, signals: set<int>)

  /** One run_as_child call: the parameters and the arguments `arg` pointed to at that moment. */
  datatype ChildRun = ChildRun(parms: ChildParams, args: Args)

  /** The parameters the matrix cell (tv, tz) hands over for a run on `path`. */
  function Expected(tv: ArgType, tz: ArgType, path: CallPath): ChildParams
  {
    var fault := ArgsShouldFault(tv, tz);
    ChildParams(
      Desc(tv, tz, path),
      if fault then -1 else 0,
      if fault then EFAULT else 0,
      if path == ViaVdso && fault then {SIGSEGV} else {})
  }

  /** The syscall run expects -1/EFAULT exactly when the cell faults, 0/0 otherwise, and no signal. */
  lemma SyscallRunExpectation(tv: ArgType, tz: ArgType)
    ensures var p := Expected(tv, tz, ViaSyscall);
      && (ArgsShouldFault(tv, tz) <==> p.expectedRet == -1 && p.expectedErrno == EFAULT)
      && (!ArgsShouldFault(tv, tz) <==> p.expectedRet == 0 && p.expectedErrno == 0)
      && p.signals == {}
  {
  }

  /**
   * The vDSO run tolerates SIGSEGV exactly when the cell faults and keeps the
   * syscall run's expected return value and errno.
   */
  lemma VdsoRunExpectation(tv: ArgType, tz: ArgType)
    ensures var p := Expected(tv, tz, ViaVdso);
      var s := Expected(tv, tz, ViaSyscall);
      && p.signals == (if ArgsShouldFault(tv, tz) then {SIGSEGV} else {})
      && p.expectedRet == s.expectedRet && p.expectedErrno == s.expectedErrno
      && p == s.(desc := Desc(tv, tz, ViaVdso), signals := p.signals)
  {
  }

  // ---------------------------------------------------------------------
  // Shape of the matrix

  /** Number of cells: every pair of classes. */
  const Cells: nat := ArgTypeMax * ArgTypeMax

  /** Child runs per cell: the syscall run, and the vDSO run when a vDSO symbol is bound. */
  function RunsPerCell(hasVdso: bool): nat
  {
    if hasVdso then 2 else 1
  }

  /** The tv class of cell `c`, cells numbered row by row. */
  function CellTv(c: nat): ArgType
    requires c < Cells
  {
    ArgTypeOf(c / ArgTypeMax)
  }

  /** The tz class of cell `c`. */
  function CellTz(c: nat): ArgType
    requires c < Cells
  {
    ArgTypeOf(c % ArgTypeMax)
  }

  /** The cell that the k-th child run belongs to. */
  function CellOf(k: nat, hasVdso: bool): nat
  {
    if hasVdso then k / 2 else k
  }

  /** The call path of the k-th child run: the syscall run comes first in its cell. */
  function PathOf(k: nat, hasVdso: bool): CallPath
  {
    if hasVdso && k % 2 == 1 then ViaVdso else ViaSyscall
  }

  /** The k-th child run is the one planned for its cell and path. */
  ghost predicate PlannedRun(run: ChildRun, k: nat, hasVdso: bool)
    requires k < Cells * RunsPerCell(hasVdso)
  {
    var c := CellOf(k, hasVdso);
    var path := PathOf(k, hasVdso);
    && run.parms == Expected(CellTv(c), CellTz(c), path)
    && KindOf(run.args.tv) == CellTv(c)
    && KindOf(run.args.tz) == CellTz(c)
    && run.args.forceSyscall == (path == ViaSyscall)
  }

  /** Each pair of classes is the cell of exactly one index, the row-major one. */
  lemma CellOfPairIsUnique(tv: ArgType, tz: ArgType, c: nat)
    requires c < Cells
    ensures CellTv(c) == tv && CellTz(c) == tz <==> c == Ordinal(tv) * ArgTypeMax + Ordinal(tz)
  {
    OrdinalOfArgType(c / ArgTypeMax);
    OrdinalOfArgType(c % ArgTypeMax);
  }

  lemma OrdinalOfArgType(i: nat)
    requires i < ArgTypeMax
    ensures Ordinal(ArgTypeOf(i)) == i
  {
  }

  /** Cells are visited row by row: a later cell has a later tv class, or the same one and a later tz class. */
  lemma CellsInRowMajorOrder(c1: nat, c2: nat)
    requires c1 < c2 < Cells
    ensures Ordinal(CellTv(c1)) < Ordinal(CellTv(c2))
         || (CellTv(c1) == CellTv(c2) && Ordinal(CellTz(c1)) < Ordinal(CellTz(c2)))
  {
    OrdinalOfArgType(c1 / ArgTypeMax);
    OrdinalOfArgType(c2 / ArgTypeMax);
    OrdinalOfArgType(c1 % ArgTypeMax);
    OrdinalOfArgType(c2 % ArgTypeMax);
  }

  /**
   * Among the runs of a matrix, each cell has exactly one syscall run, and
   * one vDSO run when a symbol is bound and none otherwise.
   */
  lemma RunOfCellIsUnique(hasVdso: bool, c: nat, path: CallPath, k: nat)
    requires c < Cells && k < Cells * RunsPerCell(hasVdso)
    ensures CellOf(k, hasVdso) == c && PathOf(k, hasVdso) == path
        <==> (path == ViaSyscall || hasVdso)
             && k == c * RunsPerCell(hasVdso) + (if path == ViaSyscall then 0 else 1)
  {
  }
}
