/** Measuring sets of instants: one instant per millisecond. */
module Instants {
  /** How many instants from a up to but excluding b satisfy f. */
  ghost function CountIf(f: int -> bool, a: int, b: int): nat
    decreases b - a
  {
    if b <= a then 0 else CountIf(f, a, b - 1) + if f(b - 1) then 1 else 0
  }

  lemma {:induction false} CountSplits(f: int -> bool, a: int, b: int, c: int)
    requires a <= b <= c
    ensures CountIf(f, a, c) == CountIf(f, a, b) + CountIf(f, b, c)
    decreases c - b
  {
    if b < c {
      CountSplits(f, a, b, c - 1);
    }
  }

  lemma {:induction false} CountAgrees(f: int -> bool, g: int -> bool, a: int, b: int)
    requires forall t :: a <= t < b ==> f(t) == g(t)
    ensures CountIf(f, a, b) == CountIf(g, a, b)
    decreases b - a
  {
    if a < b {
      CountAgrees(f, g, a, b - 1);
    }
  }

  lemma {:induction false} CountsAll(f: int -> bool, a: int, b: int)
    requires a <= b && forall t :: a <= t < b ==> f(t)
    ensures CountIf(f, a, b) == b - a
    decreases b - a
  {
    if a < b {
      CountsAll(f, a, b - 1);
    }
  }

  lemma {:induction false} CountsNone(f: int -> bool, a: int, b: int)
    requires forall t :: a <= t < b ==> !f(t)
    ensures CountIf(f, a, b) == 0
    decreases b - a
  {
    if a < b {
      CountsNone(f, a, b - 1);
    }
  }
}
