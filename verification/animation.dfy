/** `Update`'s animation of the triangle: the constant buffer's `offset.x`
    moves right by a fixed step every update and jumps back to the left bound
    once it passes the right bound.

    The source computes in 32-bit `float`; this model computes in exact `real`
    arithmetic, where the step 0.005 and the bound 1.25 are exact. */
module Animation {
  import opened Arith

  const TranslationSpeed: real := 0.005
  const OffsetBounds: real := 1.25

  /** One update of `offset.x`. An offset inside the bounds stays inside them;
      the result is either one step to the right or exactly the left bound, and
      passing the right bound resets to the left bound rather than clamping to
      the right one. */
  function StepOffset(x: real): (r: real)
    ensures -OffsetBounds <= x <= OffsetBounds ==> -OffsetBounds <= r <= OffsetBounds
    ensures r == x + TranslationSpeed || r == -OffsetBounds
    ensures r != x + TranslationSpeed ==> x > OffsetBounds - TranslationSpeed
  {
    var moved := x + TranslationSpeed;
    if moved > OffsetBounds then -OffsetBounds else moved
  }

  /** `offset.x` after `n` updates starting from `x`. */
  function Advance(x: real, n: nat): real {
    if n == 0 then x else StepOffset(Advance(x, n - 1))
  }

  /** `offset.x` after `n` updates, starting from the zero-initialised constant
      buffer. */
  function OffsetAfter(n: nat): real {
    Advance(0.0, n)
  }

  /** One more update at the front is one more update at the back. */
  lemma {:induction false} AdvanceShift(x: real, n: nat)
    ensures Advance(StepOffset(x), n) == Advance(x, n + 1)
  {
    if n > 0 {
      AdvanceShift(x, n - 1);
    }
  }

  /** Number of updates from the left bound until the next reset. */
  const Period: nat := 501

  /** The sweep described directly: 250 steps from 0 to the right bound, then
      round after round of 501 updates, each starting at the left bound and
      ending at the right bound. */
  function Sweep(n: nat): real {
    if n <= 250 then (n as real) * TranslationSpeed
    else -OffsetBounds + (((n - 251) % Period) as real) * TranslationSpeed
  }

  /** The iterated update is exactly the sweep. */
  lemma {:induction false} OffsetClosedForm(n: nat)
    ensures OffsetAfter(n) == Sweep(n)
  {
    if n > 0 {
      OffsetClosedForm(n - 1);
      if n > 251 {
        var m := (n - 1 - 251) % Period;
        if m < 500 {
          DivModUnique(n - 251, Period, (n - 1 - 251) / Period, m + 1);
        } else {
          DivModUnique(n - 251, Period, (n - 1 - 251) / Period + 1, 0);
        }
      }
    }
  }

  /** Starting from zero the offset never leaves the bounds. */
  lemma {:induction false} OffsetStaysInBounds(n: nat)
    ensures -OffsetBounds <= OffsetAfter(n) <= OffsetBounds
  {
    if n > 0 {
      OffsetStaysInBounds(n - 1);
    }
  }

  /** After the first pass the motion repeats every `Period` updates; the right
      bound itself is reached, and the update after it lands on the left bound. */
  lemma Periodic(n: nat)
    requires n >= 251
    ensures OffsetAfter(n + Period) == OffsetAfter(n)
    ensures OffsetAfter(250) == OffsetBounds && OffsetAfter(251) == -OffsetBounds
  {
    OffsetClosedForm(n);
    OffsetClosedForm(n + Period);
    OffsetClosedForm(250);
    OffsetClosedForm(251);
    DivModUnique(n + Period - 251, Period, (n - 251) / Period + 1, (n - 251) % Period);
  }
}
