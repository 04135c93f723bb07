/** Optional values and results with an error, used by every other module. */
module Wrappers {
  datatype Option<+T> = None | Some(value: T) {
    function GetOr(default: T): T {
      match this
      case Some(v) => v
      case None => default
    }
  }

  /** A string used as a key or moved as a whole, and rarely looked into. */
  datatype Text = Text(chars: string)

  datatype Result<+T, +E> = Ok(value: T) | Err(error: E)

  /**
   * Always true. A fact written `forall q {:trigger Asked(q)} :: Asked(q) ==> P` stays folded in the
   * solver until a proof asserts `Asked(true)`.
   */
  ghost predicate Asked(q: bool) {
    true
  }

  lemma Regroup<T>(a: seq<T>, b: seq<T>, c: seq<T>)
    ensures a + (b + c) == (a + b) + c
  {
  }
}
