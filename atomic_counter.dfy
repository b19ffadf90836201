/** A 32-bit atomic integer used as a process-wide id counter (the Java `AtomicInteger`). */
module Atomics {
  const INT_MIN: int := -0x8000_0000
  const INT_MAX: int := 0x7fff_ffff

  type Int32 = x: int | INT_MIN <= x <= INT_MAX

  /** The value after one increment, with Java's two's-complement wrap-around. */
  function Next(v: Int32): (r: Int32)
    ensures v < INT_MAX ==> r == v + 1
    ensures v == INT_MAX ==> r == INT_MIN
  {
    if v == INT_MAX then INT_MIN else v + 1
  }

  /** The values handed out by `n` successive `getAndIncrement` calls starting from `v`. */
  function Issued(v: Int32, n: nat): seq<Int32>
    decreases n
  {
    if n == 0 then [] else [v] + Issued(Next(v), n - 1)
  }

  /** Until the counter wraps, the values handed out are consecutive: `v, v+1, …, v+n-1`. */
  lemma {:induction false} IssuedConsecutive(v: Int32, n: nat)
    requires v + n - 1 <= INT_MAX
    ensures |Issued(v, n)| == n
    ensures forall i :: 0 <= i < n ==> Issued(v, n)[i] == v + i
    decreases n
  {
    if n > 0 {
      if n > 1 {
        IssuedConsecutive(Next(v), n - 1);
      }
    }
  }

  /** Until the counter wraps, successive values are strictly increasing and so pairwise distinct. */
  lemma IssuedStrictlyIncreasing(v: Int32, n: nat)
    requires v + n - 1 <= INT_MAX
    ensures forall i, j :: 0 <= i < j < |Issued(v, n)| ==> Issued(v, n)[i] < Issued(v, n)[j]
  {
    IssuedConsecutive(v, n);
  }

  class AtomicCounter {
    var value: Int32

    constructor()
      ensures value == 0
    {
      value := 0;
    }

    /** Returns the current value and advances the counter by one. */
    method GetAndIncrement() returns (v: Int32)
      modifies this
      ensures v == old(value) && value == Next(old(value))
    {
      v := value;
      value := Next(value);
    }
  }
}
