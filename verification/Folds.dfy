/** Left folds, the meaning of processing a stream one event at a time. */
module Folds {
  function Fold<S, E>(step: (S, E) -> S, s: S, es: seq<E>): S {
    if es == [] then s
    else step(Fold(step, s, es[..|es| - 1]), es[|es| - 1])
  }

  lemma FoldConcat<S, E>(step: (S, E) -> S, s: S, a: seq<E>, b: seq<E>)
    ensures Fold(step, s, a + b) == Fold(step, Fold(step, s, a), b)
  {
    if b == [] {
      assert a + b == a;
    } else {
      assert (a + b)[..|a + b| - 1] == a + b[..|b| - 1];
      FoldConcat(step, s, a, b[..|b| - 1]);
    }
  }

  lemma FoldSnoc<S, E>(step: (S, E) -> S, s: S, es: seq<E>, e: E)
    ensures Fold(step, s, es + [e]) == step(Fold(step, s, es), e)
  {
    assert (es + [e])[..|es|] == es;
  }

  lemma FoldCons<S, E>(step: (S, E) -> S, s: S, e: E, es: seq<E>)
    ensures Fold(step, s, [e] + es) == Fold(step, step(s, e), es)
  {
    FoldConcat(step, s, [e], es);
    assert [e][..0] == [];
    assert Fold(step, s, [e]) == step(s, e);
  }

  lemma Assoc<T>(a: seq<T>, b: seq<T>, c: seq<T>)
    ensures a + (b + c) == (a + b) + c
  {
  }

  // ---- Fetching a growing list again ----

  /** The lengths a growing list had at successive fetches. */
  ghost predicate Growing(lengths: seq<nat>, bound: nat) {
    && (forall i :: 0 <= i < |lengths| ==> lengths[i] <= bound)
    && (forall i, j :: 0 <= i < j < |lengths| ==> lengths[i] <= lengths[j])
  }

  /** The list as it stood at successive fetches, one after the other. */
  function Refetched<T>(list: seq<T>, lengths: seq<nat>): seq<T>
    requires forall i :: 0 <= i < |lengths| ==> lengths[i] <= |list|
  {
    if lengths == [] then []
    else Refetched(list, lengths[..|lengths| - 1]) + list[..lengths[|lengths| - 1]]
  }

  /** The part of the list that has been fetched. */
  function FetchedPart<T>(list: seq<T>, lengths: seq<nat>): seq<T>
    requires forall i :: 0 <= i < |lengths| ==> lengths[i] <= |list|
  {
    if lengths == [] then [] else list[..lengths[|lengths| - 1]]
  }

  lemma {:induction false} RefetchedFrom<T>(list: seq<T>, lengths: seq<nat>, j: nat) returns (rest: seq<T>)
    requires Growing(lengths, |list|) && j + 1 < |lengths| && lengths[j] <= lengths[j + 1]
    ensures Refetched(list, lengths) == Refetched(list, lengths[..j + 1]) + (list[..lengths[j]] + rest)
  {
    var k, m := |lengths| - 1, lengths[j];
    if j + 1 == k {
      rest := list[m..lengths[k]];
      assert list[..lengths[k]] == list[..m] + rest;
    } else {
      var before := RefetchedFrom(list, lengths[..k], j);
      assert lengths[..k][..j + 1] == lengths[..j + 1];
      rest := before + list[..lengths[k]];
      Assoc(list[..m], before, list[..lengths[k]]);
      Assoc(Refetched(list, lengths[..j + 1]), list[..m] + before, list[..lengths[k]]);
    }
  }

  lemma {:induction false} RefetchedElements<T>(list: seq<T>, lengths: seq<nat>)
    requires Growing(lengths, |list|)
    ensures forall x :: x in Refetched(list, lengths) ==> x in list
  {
    if lengths != [] {
      RefetchedElements(list, lengths[..|lengths| - 1]);
    }
  }
}
