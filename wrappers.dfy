/** Optional values and exceptional outcomes shared by every module of the model. */
module Wrappers {

  /** A value that may be missing: the model's stand-in for a C# null reference. */
  datatype Option<+T> = None | Some(value: T)

  /** The value stored under `k`, or None when `m` has no such key. */
  function Get<K, V>(m: map<K, V>, k: K): (r: Option<V>)
    ensures r.Some? <==> k in m
    ensures r.Some? ==> r.value == m[k]
  {
    if k in m then Some(m[k]) else None
  }

  /** The zero- or one-element sequence holding the value of `o`. */
  function AsSeq<T>(o: Option<T>): (s: seq<T>)
    ensures |s| <= 1
    ensures o.Some? ==> s == [o.value]
    ensures o.None? ==> s == []
  {
    if o.Some? then [o.value] else []
  }

  /** The exceptions that the modelled code lets escape to its caller. */
  datatype Fault =
    | OperationCanceled   // CancellationToken.ThrowIfCancellationRequested
    | FormatError         // int.Parse on a string that is not a number
    | NullReference       // a member access through a null reference
    | InvalidOperation    // Enumerable.First with no matching element

  /** Either the value an operation returns or the exception it throws instead. */
  datatype Outcome<+T> = Done(value: T) | Thrown(fault: Fault)
}
