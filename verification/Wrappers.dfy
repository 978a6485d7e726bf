// Option and Result, the shapes every other module returns.
module Wrappers {

  datatype Option<+T> = None | Some(value: T)

  // Usable with `:-`, which returns early on an error.
  datatype Result<+T, +E> = Ok(value: T) | Err(error: E) {
    predicate IsFailure() {
      Err?
    }

    function PropagateFailure<U>(): Result<U, E>
      requires Err?
    {
      Err(error)
    }

    function Extract(): T
      requires Ok?
    {
      value
    }
  }

  // What a loop that has produced `out` still owes, given the rest's outcome.
  function Prepend<T>(out: seq<T>, rest: Option<seq<T>>): Option<seq<T>> {
    match rest
    case None => None
    case Some(tail) => Some(out + tail)
  }

  lemma PrependTwice<T>(out: seq<T>, more: seq<T>, rest: Option<seq<T>>)
    ensures Prepend(out + more, rest) == Prepend(out, Prepend(more, rest))
    ensures Prepend([], rest) == rest
  {
    if rest.Some? {
      assert (out + more) + rest.value == out + (more + rest.value);
      assert [] + rest.value == rest.value;
    }
  }

  // The same for a loop whose rest may report an error.
  function After<T, E>(out: seq<T>, rest: Result<seq<T>, E>): Result<seq<T>, E> {
    match rest
    case Err(e) => Err(e)
    case Ok(more) => Ok(out + more)
  }

  lemma AfterTwice<T, E>(out: seq<T>, mine: seq<T>, rest: Result<seq<T>, E>)
    ensures After(out, After(mine, rest)) == After(out + mine, rest)
    ensures After([], rest) == rest
  {
    if rest.Ok? {
      assert out + (mine + rest.value) == (out + mine) + rest.value;
      assert [] + rest.value == rest.value;
    }
  }
}
