/**
 * The two timestamp predicates of the gettimeofday suite: the ordering of
 * two `struct timeval` readings and the range check on one of them.
 */
module Timeval {

  /** Microseconds per second (USEC_PER_SEC). */
  const UsecPerSec: int := 1000000

  /** A `struct timeval`: whole seconds and microseconds, both signed. */
  datatype Timeval = Timeval(sec: int, usec: int)

  /**
   * timevals_ordered: `first` is not later than `second`, that is, the pair
   * (seconds, microseconds) of `first` is lexicographically at most that of
   * `second`.
   */
  predicate Ordered(first: Timeval, second: Timeval)
    ensures Ordered(first, second) <==> LexLeq([first.sec, first.usec], [second.sec, second.usec])
  {
    assert [first.sec, first.usec][1..] == [first.usec] && [second.sec, second.usec][1..] == [second.usec];
    assert [first.usec][1..] == [] && [second.usec][1..] == [];
    assert LexLeq([first.usec], [second.usec]) <==> first.usec <= second.usec;
    if first.sec < second.sec then true
    else if first.sec == second.sec then first.usec <= second.usec
    else false
  }

  /**
   * timeval_normalized: no negative seconds, microseconds within one second;
   * that is, the timestamp denotes a non-negative instant and its seconds and
   * microseconds are the quotient and remainder of that instant by one second.
   */
  predicate Normalized(tv: Timeval)
    ensures Normalized(tv) <==>
      Micros(tv) >= 0 && Micros(tv) / UsecPerSec == tv.sec && Micros(tv) % UsecPerSec == tv.usec
  {
    if tv.sec < 0 then false
    else if tv.usec < 0 then false
    else if tv.usec >= UsecPerSec then false
    else true
  }

  /** Lexicographic order on integer sequences of equal length: the reference for Ordered. */
  predicate LexLeq(a: seq<int>, b: seq<int>)
    requires |a| == |b|
  {
    a == [] || a[0] < b[0] || (a[0] == b[0] && LexLeq(a[1..], b[1..]))
  }

  /** The instant a timestamp denotes, in microseconds since the epoch. */
  function Micros(tv: Timeval): int
  {
    tv.sec * UsecPerSec + tv.usec
  }

  /** The normalized timestamp of a non-negative instant. */
  function FromMicros(n: nat): (tv: Timeval)
    ensures Normalized(tv)
    ensures Micros(tv) == n
  {
    Timeval(n / UsecPerSec, n % UsecPerSec)
  }

  /** On normalized timestamps, Ordered compares the instants they denote. */
  lemma OrderedIffEarlier(a: Timeval, b: Timeval)
    requires Normalized(a) && Normalized(b)
    ensures Ordered(a, b) <==> Micros(a) <= Micros(b)
  {
    if a.sec < b.sec {
      assert Micros(a) < (a.sec + 1) * UsecPerSec <= b.sec * UsecPerSec <= Micros(b);
    } else if a.sec > b.sec {
      assert Micros(b) < (b.sec + 1) * UsecPerSec <= a.sec * UsecPerSec <= Micros(a);
    }
  }

  /** A timestamp is normalized exactly when it is the normal form of a non-negative instant. */
  lemma NormalizedIffCanonical(tv: Timeval)
    ensures Normalized(tv) <==> Micros(tv) >= 0 && FromMicros(Micros(tv)) == tv
  {
    if Normalized(tv) {
      var n := Micros(tv);
      assert n / UsecPerSec == tv.sec && n % UsecPerSec == tv.usec by {
        DivModUnique(n, tv.sec, tv.usec);
      }
    }
  }

  lemma DivModUnique(n: int, q: int, r: int)
    requires 0 <= r < UsecPerSec
    requires n == q * UsecPerSec + r
    ensures n / UsecPerSec == q && n % UsecPerSec == r
  {
  }

  lemma OrderedReflexive(a: Timeval)
    ensures Ordered(a, a)
  {
  }

  lemma OrderedTotal(a: Timeval, b: Timeval)
    ensures Ordered(a, b) || Ordered(b, a)
  {
  }

  lemma OrderedAntisymmetric(a: Timeval, b: Timeval)
    requires Ordered(a, b) && Ordered(b, a)
    ensures a == b
  {
  }

  lemma OrderedTransitive(a: Timeval, b: Timeval, c: Timeval)
    requires Ordered(a, b) && Ordered(b, c)
    ensures Ordered(a, c)
  {
  }
}
