/** Optional values, the model of Python's `None`-or-value results, and a sequence helper. */
module Wrappers {

  datatype Option<+T> = None | Some(value: T)

  /** The empty sequence for `None`, the one-element sequence for `Some(v)`. */
  function OptionToSeq<T>(o: Option<T>): (s: seq<T>)
    ensures |s| <= 1
    ensures o.None? <==> s == []
    ensures o.Some? ==> s == [o.value]
  {
    match o
    case None => []
    case Some(v) => [v]
  }

  lemma AppendAssociative<T>(a: seq<T>, b: seq<T>, c: seq<T>)
    ensures (a + b) + c == a + (b + c)
  {
  }
}
