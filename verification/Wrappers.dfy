/** Optional values, and the outcome of a call that may raise an exception. */
module Wrappers {

  datatype Option<+T> = None | Some(value: T)

  /** `Failure` is any exception leaving the call. The source iterates over Python sets, so when several
      exceptions are possible it is left open which comes first; no payload is kept. */
  datatype Result<+T> = Failure | Ok(value: T) {
    predicate IsFailure() {
      Failure?
    }

    function PropagateFailure<U>(): Result<U>
      requires Failure?
    {
      Failure
    }

    function Extract(): T
      requires Ok?
    {
      value
    }
  }

  function Lookup<K, V>(m: map<K, V>, k: K): Option<V> {
    if k in m then Some(m[k]) else None
  }

  function Reverse<T>(s: seq<T>): (r: seq<T>)
    ensures |r| == |s|
    ensures forall i :: 0 <= i < |s| ==> r[i] == s[|s| - 1 - i]
  {
    if s == [] then [] else Reverse(s[1..]) + [s[0]]
  }
}
