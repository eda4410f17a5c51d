/**
 * The vDSO symbol table and the first-match lookup that binds a suite's
 * fast path: the candidate names are tried in order and the first one the
 * vDSO exports wins.
 */
module Vdso {

  /** An entry address inside the vDSO image; address 0 is the null pointer, which no entry has. */
  type Addr = a: nat | a > 0 witness 1

  datatype Option<T> = None | Some(value: T)

  /** The two ways a suite reaches the kernel's answer: the raw system call or the vDSO entry. */
  datatype CallPath = ViaSyscall | ViaVdso

  /** The exported symbols of the vDSO image, by name. */
  type SymbolTable = map<string, Addr>

  /** One lookup in the vDSO: the address of `name`, or nothing (a null pointer). */
  function GetSym(table: SymbolTable, name: string): Option<Addr>
  {
    if name in table then Some(table[name]) else None
  }

  /** The address of the first name in `names` that the vDSO exports, if any. */
  function FirstResolved(table: SymbolTable, names: seq<string>): Option<Addr>
  {
    if names == [] then None
    else if names[0] in table then Some(table[names[0]])
    else FirstResolved(table, names[1..])
  }

  /** Index of the first exported name, |names| when there is none. */
  function FirstIndex(table: SymbolTable, names: seq<string>): (i: nat)
    ensures i <= |names|
    ensures forall j :: 0 <= j < i ==> names[j] !in table
    ensures i < |names| ==> names[i] in table
  {
    if names == [] then 0
    else if names[0] in table then 0
    else 1 + FirstIndex(table, names[1..])
  }

  /**
   * The lookup finds nothing exactly when no candidate is exported, and
   * otherwise returns the address of the earliest exported candidate.
   */
  lemma {:induction false} FirstResolvedIsFirst(table: SymbolTable, names: seq<string>)
    ensures FirstResolved(table, names).None? <==> FirstIndex(table, names) == |names|
    ensures FirstResolved(table, names).Some? ==>
              FirstResolved(table, names).value == table[names[FirstIndex(table, names)]]
  {
    if names != [] && names[0] !in table {
      FirstResolvedIsFirst(table, names[1..]);
    }
  }

  /** The lookup is absent exactly when none of the candidates is exported. */
  lemma NoneIffNoCandidate(table: SymbolTable, names: seq<string>)
    ensures FirstResolved(table, names).None? <==> forall j :: 0 <= j < |names| ==> names[j] !in table
  {
    FirstResolvedIsFirst(table, names);
  }
}
