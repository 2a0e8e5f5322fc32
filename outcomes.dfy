/**
 * Outcomes of Python calls: a value, or the exception the call raises.
 * Every modelled operation that can raise returns a `Result`.
 */
module Outcomes {

  /** The Python exception classes the modelled code can raise. */
  datatype Error =
    | IndexError         // indexing past the end of a list or string
    | KeyError           // a dictionary lookup of a missing key
    | ValueError         // `random.randint(0, -1)`, `min([])`, a failed tuple unpacking
    | TypeError          // comparing `None` with an integer
    | ZeroDivisionError  // dividing by a zero number of games
    | RuntimeError       // raised explicitly by the tree search

  datatype Result<+T> = Ok(value: T) | Err(error: Error) {
    predicate IsFailure() { Err? }

    function PropagateFailure<U>(): Result<U>
      requires Err?
    {
      Err(error)
    }

    function Extract(): T
      requires Ok?
    {
      value
    }
  }

  datatype Option<+T> = None | Some(value: T)

  /** A source of random numbers: the `k`-th draw of a run. */
  type Rng = nat -> nat

  /**
   * The `k`-th draw of `rng` reduced to `0 .. bound - 1`: the model of
   * `random.randint(0, bound - 1)` and of `random._randbelow(bound)`.
   * Every outcome a real generator can produce is some `rng`.
   */
  function Draw(rng: Rng, k: nat, bound: nat): (r: nat)
    requires bound > 0
    ensures r < bound
  {
    rng(k) % bound
  }
}
