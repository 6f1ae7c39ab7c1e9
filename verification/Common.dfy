/** What several components share. */
module Common {

  datatype Option<+T> = None | Some(value: T)

  /** A value, or a refusal that the library reports by an exception. */
  datatype Result<+T> = Ok(value: T) | Invalid {
    predicate IsFailure() { Invalid? }
    function PropagateFailure<U>(): Result<U> requires Invalid? { Invalid }
    function Extract(): T requires Ok? { value }
  }

  /** 0, 1, ..., n - 1. */
  function UpTo(n: nat): seq<nat> {
    seq(n, i => i)
  }

  lemma UpToGrows(n: nat)
    ensures UpTo(0) == [] && UpTo(n) + [n] == UpTo(n + 1)
  {
  }

  lemma Associative<T>(a: seq<T>, b: seq<T>, c: seq<T>)
    ensures (a + b) + c == a + (b + c)
  {
  }
}
