/**
 Folding a step over the first `k` elements of a list, with the induction
 principle that lifts a fact about one step to the whole fold.
 */
module Folds {
  ghost function Fold<S, E>(f: (S, E) -> S, s: S, es: seq<E>, k: nat): S
    requires k <= |es|
  {
    if k == 0 then s else f(Fold(f, s, es, k - 1), es[k - 1])
  }

  lemma {:induction false} FoldKeeps<S(!new), E>(f: (S, E) -> S, s: S, es: seq<E>, k: nat, P: (S, nat) -> bool)
    requires k <= |es| && P(s, 0)
    requires forall s', j {:trigger f(s', es[j])} :: 0 <= j < |es| && P(s', j) ==> P(f(s', es[j]), j + 1)
    ensures P(Fold(f, s, es, k), k)
  {
    if k > 0 {
      FoldKeeps(f, s, es, k - 1, P);
    }
  }

  /** A state that no further element changes is final. */
  lemma {:induction false} FoldStays<S, E>(f: (S, E) -> S, s: S, es: seq<E>, k: nat, m: nat)
    requires k <= m <= |es|
    requires forall e :: e in es ==> f(Fold(f, s, es, k), e) == Fold(f, s, es, k)
    ensures Fold(f, s, es, m) == Fold(f, s, es, k)
    decreases m
  {
    if k < m {
      FoldStays(f, s, es, k, m - 1);
    }
  }

  ghost function Iterate<S>(f: S -> S, s: S, n: nat): S {
    if n == 0 then s else f(Iterate(f, s, n - 1))
  }

  lemma {:induction false} IterateKeeps<S(!new)>(f: S -> S, s: S, n: nat, P: S -> bool)
    requires P(s)
    requires forall s' {:trigger f(s')} :: P(s') ==> P(f(s'))
    ensures P(Iterate(f, s, n))
  {
    if n > 0 {
      IterateKeeps(f, s, n - 1, P);
    }
  }

  lemma {:induction false} IterateStays<S>(f: S -> S, s: S, n: nat, m: nat)
    requires n <= m && f(Iterate(f, s, n)) == Iterate(f, s, n)
    ensures Iterate(f, s, m) == Iterate(f, s, n)
    decreases m
  {
    if n < m {
      IterateStays(f, s, n, m - 1);
    }
  }

  /** Two folds over the same list stay related when their steps do. */
  lemma {:induction false} FoldsRelate<S(!new), T(!new), E>(
      f: (S, E) -> S, s: S, g: (T, E) -> T, t: T, es: seq<E>, k: nat, R: (S, T) -> bool)
    requires k <= |es| && R(s, t)
    requires forall s', t', j {:trigger f(s', es[j]), g(t', es[j])} ::
      0 <= j < |es| && R(s', t') ==> R(f(s', es[j]), g(t', es[j]))
    ensures R(Fold(f, s, es, k), Fold(g, t, es, k))
  {
    if k > 0 {
      FoldsRelate(f, s, g, t, es, k - 1, R);
    }
  }

  lemma {:induction false} IteratesRelate<S(!new), T(!new)>(f: S -> S, s: S, g: T -> T, t: T, n: nat, R: (S, T) -> bool)
    requires R(s, t)
    requires forall s', t' {:trigger f(s'), g(t')} :: R(s', t') ==> R(f(s'), g(t'))
    ensures R(Iterate(f, s, n), Iterate(g, t, n))
  {
    if n > 0 {
      IteratesRelate(f, s, g, t, n - 1, R);
    }
  }
}
