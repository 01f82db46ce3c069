/** The record id counters of the program's accounts: read one, then advance it, wrapping past the
    largest value of its integer type to 1. */
module IdAllocator {
  import opened Bn

  function CheckedAdd(id: nat, max: nat): Option<nat> {
    if id + 1 <= max then Some(id + 1) else None
  }

  /** One, if the addition overflowed. */
  function Next(id: nat, max: nat): nat {
    CheckedAdd(id, max).GetOr(1)
  }

  class Counter {
    const max: nat
    var nextId: nat

    ghost predicate Valid()
      reads this
    {
      1 <= max && nextId <= max
    }

    constructor (max: nat, start: nat)
      requires 1 <= max && start <= max
      ensures Valid() && this.max == max && nextId == start
    {
      this.max := max;
      nextId := start;
    }

    method GetThenUpdateId() returns (id: nat)
      requires Valid()
      modifies this`nextId
      ensures Valid()
      ensures id == old(nextId) && nextId == Next(id, max)
    {
      id := nextId;
      nextId := CheckedAdd(id, max).GetOr(1);
    }
  }

  /** The id issued after `n` others, starting from `start`. */
  function Issued(start: nat, max: nat, n: nat): nat {
    if n == 0 then start else Next(Issued(start, max, n - 1), max)
  }

  /** Ids cycle through 1 to the maximum. */
  lemma {:induction false} IssuedClosedForm(start: nat, max: nat, n: nat)
    requires 1 <= start <= max
    ensures Issued(start, max, n) == Rem(start - 1 + n, max) + 1
  {
    if n != 0 {
      IssuedClosedForm(start, max, n - 1);
      RemStep(start - 1 + (n - 1), max);
    }
  }

  lemma {:induction false} RemStep(x: nat, max: nat)
    requires max != 0
    ensures Rem(x + 1, max) == if Rem(x, max) == max - 1 then 0 else Rem(x, max) + 1
  {
    if max <= x {
      RemStep(x - max, max);
    }
  }

  /** From a start of at least 1 no id is ever 0 or beyond the type. */
  lemma {:induction false} IdsInRange(start: nat, max: nat, n: nat)
    requires 1 <= start <= max
    ensures 1 <= Issued(start, max, n) <= max
  {
    if n != 0 {
      IdsInRange(start, max, n - 1);
    }
  }

  /** A counter started at 0 issues 0 once, first, and then the ids of a counter started at 1. */
  lemma {:induction false} ZeroIssuedOnce(max: nat, n: nat)
    requires 1 <= max
    ensures Issued(0, max, n) == if n == 0 then 0 else Issued(1, max, n - 1)
    ensures Issued(0, max, n) == 0 <==> n == 0
  {
    if n > 1 {
      ZeroIssuedOnce(max, n - 1);
    }
    if n > 0 {
      IdsInRange(1, max, n - 1);
    }
  }

  /** Within any run of ids as long as the type has nonzero values no id repeats, and the next one
      after such a run is the first again. */
  lemma IdsDistinct(start: nat, max: nat, i: nat, j: nat)
    requires 1 <= start <= max
    requires i < j <= i + max
    ensures Issued(start, max, i) == Issued(start, max, j) <==> j == i + max
  {
    IssuedClosedForm(start, max, i);
    IssuedClosedForm(start, max, j);
    RemApart(start - 1 + i, j - i, max);
  }

  lemma {:induction false} RemApart(x: nat, d: nat, max: nat)
    requires 0 < d <= max
    ensures Rem(x + d, max) == Rem(x, max) <==> d == max
  {
    if max <= x {
      RemApart(x - max, d, max);
    }
  }
}
