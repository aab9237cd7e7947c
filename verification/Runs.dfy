/** Histories: sequences of timed calls, oldest first. */
module Runs {

  /** Instants count nanoseconds of the steady clock. */
  const SECOND: nat := 1_000_000_000

  /** What is asked, and the instant at which the callee reads the clock. */
  datatype Call<+T> = Call(op: T, now: int)

  function Before<T>(calls: seq<T>): seq<T>
    requires calls != []
  {
    calls[..|calls| - 1]
  }

  function Last<T>(calls: seq<T>): T
    requires calls != []
  {
    calls[|calls| - 1]
  }

  /** The clock never runs backwards and reads at most `t` at the end. */
  predicate Timely<T>(calls: seq<Call<T>>, t: int) {
    calls == [] || (Last(calls).now <= t && Timely(Before(calls), Last(calls).now))
  }

  lemma TimelyLater<T>(calls: seq<Call<T>>, t: int, t': int)
    requires Timely(calls, t) && t <= t'
    ensures Timely(calls, t')
  {
  }
}
