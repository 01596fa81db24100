/** Repeating a step: what a step keeps, repetition keeps; and a measure that every step lowers by
    at least one is used up. */
module Iteration {

  function Iterate<T>(f: T -> T, x: T, n: nat): T
    decreases n
  {
    if n == 0 then x else Iterate(f, f(x), n - 1)
  }

  lemma {:induction false} Kept<T(!new)>(f: T -> T, keep: T -> bool, x: T, n: nat)
    requires keep(x) && forall y :: keep(y) ==> keep(f(y))
    ensures keep(Iterate(f, x, n))
    decreases n
  {
    if n > 0 {
      Kept(f, keep, f(x), n - 1);
    }
  }

  lemma {:induction false} UsedUp<T(!new)>(f: T -> T, keep: T -> bool, measure: T -> nat, x: T, n: nat)
    requires keep(x) && n >= measure(x)
    requires forall y :: keep(y) ==> keep(f(y))
    requires forall y :: keep(y) && measure(y) > 0 ==> measure(f(y)) < measure(y)
    requires forall y :: keep(y) && measure(y) == 0 ==> measure(f(y)) == 0
    ensures keep(Iterate(f, x, n)) && measure(Iterate(f, x, n)) == 0
    decreases n
  {
    if n > 0 {
      UsedUp(f, keep, measure, f(x), n - 1);
    }
  }
}
