# vdsotest: gettimeofday and getcpu suites, modelled in Dafny

vdsotest checks the kernel's vDSO fast paths against the real system calls.
This project models the sequential logic of two of its test suites.

- **gettimeofday** (`src/gettimeofday.c`):
  - the two timestamp predicates, `timevals_ordered` and `timeval_normalized`;
  - the verification loop, which alternates vDSO and system-call readings and logs every reading that is not normalized or that predates the reading just before it;
  - the ABI fault-injection matrix, which runs every pair of argument classes for the `tv` and `tz` pointers in a child process, once through the forced system call and once through the vDSO;
  - the binding of the vDSO entry and the notes.
- **getcpu** (`src/getcpu.c`):
  - the affinity set-up and the migration step;
  - the verification loop, which checks every CPU number it observes against the mask the migration wrote;
  - the symbol binding with its fallback to the system-call wrapper, and the notes.

Files and modules:

| file | module | contents |
|---|---|---|
| `vdso.dfy` | `Vdso` | the symbol table as a `map<string, Addr>`, the first-match lookup over a list of candidate names, the two call paths |
| `timeval.dfy` | `Timeval` | `struct timeval` and the two predicates, with their reference definitions: lexicographic order, and the instant in microseconds |
| `gtod_abi.dfy` | `GtodAbi` | the argument classes, the fault predicate, the pointers each class yields, an allocator class `Memory` that keeps the live allocations as a multiset, the child-run parameters and the plan of the matrix |
| `gettimeofday.dfy` | `Gettimeofday` | the specification of the verification loop (trace of readings, failure log) and its properties; class `Suite` with the bound vDSO entry and the `Verify`, `Abi`, `Bind` and `Notes` entry points |
| `getcpu.dfy` | `Getcpu` | the mask function, class `Process` (the scheduler's affinity mask) with `Setup` and `Migrate`, the specification of the verification loop, and class `Suite` with the `getcpu` pointer and the `Init`, `Notes` and `Verify` entry points |

Every real call becomes an input:

- clock readings become a sequence of `Round`s, and CPU numbers a sequence of `Burst`s of `Sample`s;
- the stop condition is represented by the length of those sequences: a loop runs as many iterations as readings are supplied;
- `random()` becomes the `rnd` field of a burst;
- the vDSO image becomes a `SymbolTable`; its addresses are never 0, because a null result from the lookup is the absence of the symbol (`None`);
- each `run_as_child` call becomes a `ChildRun` entry in the list `Abi` returns.

A `ChildRun` records a snapshot of the arguments at the moment of the call. In the source, `parms.arg` points to the caller's `args`, and `args.force_syscall` changes between the two runs of a cell.

How the matrix uses its buffers:

- **Buffer sharing.** The code allocates one `tv` buffer per row and passes it to all five cells of that row (src/gettimeofday.c:297, :369). `Gettimeofday.Suite.Abi` states this sharing (`TvSharedInRow`), along with the buffers that are never shared.
- **Cell order.** The cells are visited row by row: the `tv` class in the outer loop, the `tz` class in the inner one. The model states that order.

## Model

| member | source | states |
|---|---|---|
| Timeval.Ordered | src/gettimeofday.c:71-81 | `timevals_ordered(a, b)` holds exactly when the pair (sec, usec) of `a` is lexicographically ≤ that of `b` |
| Timeval.OrderedIffEarlier | src/gettimeofday.c:71-81 | on normalized timestamps, the order holds exactly when `a` denotes an instant no later than `b` |
| Timeval.OrderedReflexive | src/gettimeofday.c:71-81 | every timestamp is ordered before itself |
| Timeval.OrderedTotal | src/gettimeofday.c:71-81 | of any two timestamps, one is ordered before the other |
| Timeval.OrderedAntisymmetric | src/gettimeofday.c:71-81 | two timestamps each ordered before the other are equal |
| Timeval.OrderedTransitive | src/gettimeofday.c:71-81 | the order is transitive |
| Timeval.Normalized | src/gettimeofday.c:83-92 | `timeval_normalized` holds exactly when the timestamp denotes a non-negative instant whose quotient and remainder by USEC_PER_SEC (1000000) are its seconds and microseconds |
| Timeval.NormalizedIffCanonical | src/gettimeofday.c:83-92 | `timeval_normalized` holds exactly when the timestamp denotes a non-negative instant and is that instant's normal form: seconds ≥ 0 and 0 ≤ usec < USEC_PER_SEC (1000000) |
| GtodAbi.ArgTypeStr | src/gettimeofday.c:187-193 | every argument class has a non-empty name in a run's description |
| GtodAbi.ArgTypeStrInjective | src/gettimeofday.c:187-193 | distinct classes have distinct names, so a description identifies its cell |
| GtodAbi.ArgsShouldFault | src/gettimeofday.c:255-287 | a call is expected to fault exactly when at least one argument is `bogus`, `prot_none` or `prot_read` |
| GtodAbi.ValidAndNullNeverFault | src/gettimeofday.c:255-287 | no combination of `valid` and `nullptr` arguments is expected to fault |
| GtodAbi.ShouldFaultSymmetric | src/gettimeofday.c:255-287 | swapping the tv and tz classes does not change the prediction |
| GtodAbi.AllocResult | src/gettimeofday.c:208-234 | `gtod_arg_alloc` yields a pointer of the requested class; it takes memory exactly for `valid`, `prot_none` and `prot_read`, and each allocation carries its own serial number |
| GtodAbi.Memory.Alloc | src/gettimeofday.c:208-234 | allocating adds exactly the new allocation, if any, to the live multiset; a new allocation is distinct from every allocation still live; the serial number advances only when memory is taken |
| GtodAbi.Memory.Release | src/gettimeofday.c:236-253 | what the class frees must be live, so a double free or a free of memory never allocated cannot be called; `xfree` (class `valid`) takes only a heap buffer and `free_page` (`prot_none`, `prot_read`) only a page; releasing removes what the class frees: the buffer for `valid`, `prot_none` and `prot_read`, nothing for `nullptr` and `bogus` |
| GtodAbi.ReleaseUndoesAlloc | src/gettimeofday.c:208-253 | releasing a pointer with the class that allocated it restores the live multiset exactly |
| GtodAbi.SyscallRunExpectation | src/gettimeofday.c:317-339 | the syscall run of a cell expects -1 and EFAULT exactly when the cell should fault, 0 and 0 otherwise, and tolerates no signal |
| GtodAbi.VdsoRunExpectation | src/gettimeofday.c:348-361 | the vDSO run tolerates exactly {SIGSEGV} when the cell should fault and nothing otherwise; its expected return value and errno are those of the syscall run, and only the description and signal set differ |
| GtodAbi.CellOfPairIsUnique | src/gettimeofday.c:293-299 | each (tv, tz) pair of classes is the cell of exactly one index, the row-major one |
| GtodAbi.CellsInRowMajorOrder | src/gettimeofday.c:293-299 | a later cell has a later tv class, or the same tv class and a later tz class |
| GtodAbi.RunOfCellIsUnique | src/gettimeofday.c:343-362 | each cell has exactly one syscall run, and one vDSO run when a vDSO symbol is bound and none otherwise, at a fixed position |
| Gettimeofday.BindingFromCandidates | src/gettimeofday.c:379-388 | bound with the first-match lookup of the candidate names, the suite has no vDSO entry exactly when neither name is exported; otherwise it holds the address of `__kernel_gettimeofday`, or of `__vdso_gettimeofday` when only that one is exported |
| Gettimeofday.Suite.Bind | src/gettimeofday.c:385-388 | the suite keeps the resolved address, and `vdso_has_gettimeofday` holds exactly when an address was given |
| Gettimeofday.Suite.Notes | src/gettimeofday.c:373-377 | the note is printed exactly when no vDSO entry is bound |
| Gettimeofday.Suite.Verify | src/gettimeofday.c:94-154 | the loop's log is the failure log of the trace of readings in call order: the initial syscall reading, then per iteration the vDSO reading (only when a symbol is bound) and the syscall reading |
| Gettimeofday.LogViolations | src/gettimeofday.c:112-127 | one reading appends a not-normalized entry when it is not normalized, then a predates entry when it is earlier than the reading before it, and keeps the log before them |
| Gettimeofday.NoFailuresIff | src/gettimeofday.c:98-151 | the log is empty exactly when every reading after the first is normalized and not earlier than the reading just before it, whichever path took it |
| Gettimeofday.CleanTraceIsMonotone | src/gettimeofday.c:98-151 | with an empty log, every reading is no earlier than all readings taken before it, across both paths |
| Gettimeofday.ViolationIsLogged | src/gettimeofday.c:112-149 | a reading that is not normalized, or that predates its predecessor, is logged under its own path; the loop continues after logging |
| Gettimeofday.LoggedFailureHasCause | src/gettimeofday.c:112-149 | every logged entry comes from a reading checked against its immediate predecessor |
| Gettimeofday.TraceShape | src/gettimeofday.c:98-132 | the first reading is the syscall reading taken before the loop; with a vDSO symbol, each iteration contributes its vDSO reading and then its syscall reading; without one, only its syscall reading |
| Gettimeofday.WithoutVdsoOnlySyscall | src/gettimeofday.c:105-106 | without a vDSO symbol, every reading compared comes from the system call |
| Gettimeofday.UnnormalizedVdsoReadingIsLogged | src/gettimeofday.c:108-117 | a vDSO reading that is not normalized is always reported as such under the vDSO path |
| Gettimeofday.Suite.RunCell | src/gettimeofday.c:310-361 | a cell yields its syscall run with forced syscall and the cell's expected outcome, then, only with a vDSO symbol, the vDSO run with the same pointers and the vDSO expectations; both runs require the tv and tz buffers to be live |
| Gettimeofday.Suite.AbiCell | src/gettimeofday.c:308-365 | given a live tv buffer, a cell allocates its tz pointer of the cell's class, uses it in both runs while it is live, and only then releases it, exactly once and with its own class, leaving the live allocations as it found them |
| Gettimeofday.Suite.Abi | src/gettimeofday.c:289-371 | the matrix makes 25 runs, or 50 with a vDSO symbol. The k-th run is the planned run of its cell and path, in row-major order. One tv buffer serves a whole row and one tz buffer a whole cell; rows and cells never share an allocated buffer; a tz buffer is never passed as tv. Every allocation is released exactly once, while live: the live multiset is unchanged |
| Gettimeofday.Suite.AbiRow | src/gettimeofday.c:293-370 | one row allocates its tv pointer, runs its five cells in tz order with it while it is live, and releases it only after the last cell. The runs of the earlier rows are kept unchanged as a prefix of the result, followed by the planned runs of this row |
| Getcpu.NextMask | src/getcpu.c:61-72 | the mask written is the mask read without the current CPU, or the start-up mask when that is empty; it moves off the current CPU whenever another CPU remains, and it is never empty when the start-up mask is not |
| Getcpu.Process.Setup | src/getcpu.c:42-54 | after set-up the affinity mask is exactly the singleton of the current CPU |
| Getcpu.Process.Migrate | src/getcpu.c:57-76 | for a current CPU that is in the affinity mask, the mask written to the scheduler is the next mask, and the caller is left with that same mask |
| Getcpu.MigrationStaysAllowed | src/getcpu.c:68-72 | from a mask within the start-up mask, migration writes a mask within it that is not empty when the start-up mask is not |
| Getcpu.MasksStayAllowed | src/getcpu.c:110-120 | when the start-up mask holds the set-up CPU, every mask the loop writes lies within the start-up mask and is not empty |
| Getcpu.Taken | src/getcpu.c:120-124 | a burst runs `random() % 1000000` iterations, cut short when the stop condition fires: never more than `random() % 1000000`, so fewer than 1000000, and exactly that many unless the samples run out |
| Getcpu.SampleLogged | src/getcpu.c:127-139 | one iteration logs a failure for the bound getcpu's CPU, and one for SYS_getcpu's CPU, exactly when that CPU is outside the mask |
| Getcpu.BurstLogged | src/getcpu.c:124-140 | a failure is in a burst's log exactly when some iteration's call reported that CPU outside the mask |
| Getcpu.BurstCleanIff | src/getcpu.c:124-140 | a burst logs nothing exactly when every CPU it observed lies in the mask |
| Getcpu.VerifyCleanIff | src/getcpu.c:114-141 | the whole loop logs nothing exactly when every CPU observed in each burst lies in the mask that burst's migration wrote |
| Getcpu.CheckSample | src/getcpu.c:127-139 | the two membership checks append the iteration's failures, in call order, to the log |
| Getcpu.CheckBurst | src/getcpu.c:120-140 | the inner loop appends the failures of exactly the iterations the burst runs |
| Getcpu.Suite.Verify | src/getcpu.c:108-142 | after set-up, each outer iteration migrates and then checks its burst against the mask just written. The log is the concatenation of the bursts' logs, and the process is left on the last mask written |
| Getcpu.InitBinding | src/getcpu.c:162-173 | the binding init leaves is never a null pointer |
| Getcpu.FallbackIffNoCandidate | src/getcpu.c:162-173 | the system-call wrapper is bound exactly when neither `__kernel_getcpu` nor `__vdso_getcpu` is exported |
| Getcpu.EntryIsFirstCandidate | src/getcpu.c:157-170 | a vDSO entry is bound from `__kernel_getcpu` when it is exported, and from `__vdso_getcpu` only when it is the one exported |
| Getcpu.Suite.Init | src/getcpu.c:162-173 | init tries the names in order, stops at the first that resolves, and falls back to the wrapper |
| Getcpu.Suite.Notes | src/getcpu.c:144-148 | the note is printed exactly when the system-call wrapper was bound |
| Vdso.FirstResolvedIsFirst | src/getcpu.c:166-170 | the first-match lookup finds nothing exactly when no candidate is exported, and otherwise returns the address of the earliest exported candidate |
| Vdso.NoneIffNoCandidate | src/getcpu.c:166-173 | the lookup is absent exactly when none of the candidate names is in the symbol table |

## Left out

- The system calls, the vDSO calls through `DO_VDSO_CALL`, and the `getcpu` calls. These are foreign calls; their results are inputs.
- The `*_nofail` wrappers that abort on error. A failed call ends the process, so each supplied reading is one that succeeded.
- `test_should_stop`, `ctx_start_timer` and `ctx_cleanup_timer`. These depend on wall-clock time; the number of readings supplied stands for the moment the stop condition fires. For getcpu, a burst's samples running out before `random() % 1000000` iterations stands for the stop condition firing inside the inner loop. The model lets later bursts follow such a burst, where the source would stop; this allows more traces than the source, never fewer.
- `gettimeofday_bench` and `getcpu_bench`. These only time call loops.
- `run_as_child`, `do_gettimeofday`, `syscall_prepare` and `record_syscall_result`: the fork, signal disposition, wait and comparison of outcomes. Each call is recorded with its parameters and arguments; whether a child met its expectations is not modelled.
- `xmalloc`/`xfree`, `alloc_page`/`free_page` with their `PROT_*` protections, the page size, and `ADDR_SPACE_END`. Pointers are values that carry the class and an allocation number; only the allocate/release pairing is kept.
- `xasprintf`/`xfree` of run descriptions and the text of `printf` and `log_failure` messages. A description is kept by its parts (`Desc`, with its text given by `DescText`); a failure is kept as a datatype value; a note is the boolean saying whether it is printed.
- `sched_getaffinity`/`sched_setaffinity`, `getpid` and `random()`. These are OS state and randomness; the affinity mask is a field of `Process`, and `random()`'s value is an input.
- The `assert(CPU_ISSET(cpu, cpus_allowed))` in `migrate` (src/getcpu.c:66). It becomes a precondition of `Getcpu.Process.Migrate` and of `Getcpu.Suite.Verify`.
- `cpu_set_t`'s fixed capacity (CPU_SETSIZE, 1024 CPUs). CPU numbers are unbounded `nat`s.
- `long`/`time_t` widths of `struct timeval` fields. The fields are unbounded integers; the comparisons in both predicates never overflow, so nothing is lost.
- `register_testsuite` and `get_vdso_sym`, and the registry that calls `gettimeofday_bind` with the lookup of `gettimeofday_vdso_names`. They are not part of this model. The lookup is modelled as a first-match over a `SymbolTable`, the same rule `getcpu_init` spells out.
