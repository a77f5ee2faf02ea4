/**
 * Folds that stop at the first failure: the shape of a Kotlin `forEach` whose
 * body may throw, filling a list or a map.
 */
module Folds {
  import opened Wrappers

  /** Runs `step` over `xs` from the left; the first failing step is the result. */
  function Fold<A, B>(xs: seq<B>, init: A, step: (A, B) -> Result<A>): Result<A>
    decreases |xs|
  {
    if |xs| == 0 then Success(init)
    else
      match Fold(xs[..|xs| - 1], init, step)
      case Failure(e) => Failure(e)
      case Success(acc) => step(acc, xs[|xs| - 1])
  }

  /** One more element: the fold of a longer prefix in terms of the shorter one. */
  lemma FoldNext<A, B>(xs: seq<B>, init: A, step: (A, B) -> Result<A>, i: nat)
    requires i < |xs|
    ensures Fold(xs[..i + 1], init, step) == match Fold(xs[..i], init, step)
      case Failure(e) => Failure(e)
      case Success(acc) => step(acc, xs[i])
  {
    assert xs[..i + 1][..i] == xs[..i];
  }

  /** Once the fold has failed on a prefix, the whole fold fails with the same exception. */
  lemma {:induction false} FoldFailureStays<A, B>(xs: seq<B>, init: A, step: (A, B) -> Result<A>, i: nat)
    requires i <= |xs| && Fold(xs[..i], init, step).Failure?
    ensures Fold(xs, init, step) == Fold(xs[..i], init, step)
    decreases |xs| - i
  {
    if i == |xs| {
      assert xs[..i] == xs;
    } else {
      FoldNext(xs, init, step, i);
      FoldFailureStays(xs, init, step, i + 1);
    }
  }

  /** A step that fails whatever came before makes the whole fold fail. */
  lemma FoldFailsAt<A, B>(xs: seq<B>, init: A, step: (A, B) -> Result<A>, i: nat)
    requires i < |xs| && forall acc :: step(acc, xs[i]).Failure?
    ensures Fold(xs, init, step).Failure?
  {
    FoldNext(xs, init, step, i);
    FoldFailureStays(xs, init, step, i + 1);
  }

  /** `list.add(item(x))` for each x. */
  function ListStep<T, B>(item: B -> Result<T>): (seq<T>, B) -> Result<seq<T>> {
    (acc: seq<T>, x: B) =>
      match item(x)
      case Failure(e) => Failure(e)
      case Success(t) => Success(acc + [t])
  }

  lemma ListStepApply<T, B>(item: B -> Result<T>, acc: seq<T>, x: B)
    ensures ListStep(item)(acc, x) == match item(x)
      case Failure(e) => Failure(e)
      case Success(t) => Success(acc + [t])
  {
  }

  /** Filling a list succeeds iff every item does, and then holds the items in input order. */
  lemma {:induction false} ListFoldItems<T, B>(xs: seq<B>, item: B -> Result<T>)
    ensures Fold(xs, [], ListStep(item)).Success? <==> forall i :: 0 <= i < |xs| ==> item(xs[i]).Success?
    ensures Fold(xs, [], ListStep(item)).Success? ==>
      |Fold(xs, [], ListStep(item)).value| == |xs| &&
      forall i :: 0 <= i < |xs| ==> Fold(xs, [], ListStep(item)).value[i] == item(xs[i]).value
  {
    if |xs| > 0 {
      var n := |xs| - 1;
      FoldNext(xs, [], ListStep(item), n);
      assert xs[..n + 1] == xs;
      ListFoldItems(xs[..n], item);
      assert forall i :: 0 <= i < n ==> xs[..n][i] == xs[i];
    }
  }

  /** What one map step does with an element: store a key and value, or skip it. */
  datatype Entry<K, V> = Put(key: K, value: V) | Skip

  /** `map[key] = value` for each element that yields an entry. */
  function MapStep<K(==), V, B>(entry: B -> Result<Entry<K, V>>): (map<K, V>, B) -> Result<map<K, V>> {
    (acc: map<K, V>, x: B) =>
      match entry(x)
      case Failure(e) => Failure(e)
      case Success(Skip) => Success(acc)
      case Success(Put(k, v)) => Success(acc[k := v])
  }

  lemma MapStepApply<K, V, B>(entry: B -> Result<Entry<K, V>>, acc: map<K, V>, x: B)
    ensures MapStep(entry)(acc, x) == match entry(x)
      case Failure(e) => Failure(e)
      case Success(Skip) => Success(acc)
      case Success(Put(k, v)) => Success(acc[k := v])
  {
  }

  predicate PutsKey<K(==), V, B>(entry: B -> Result<Entry<K, V>>, x: B, k: K) {
    entry(x).Success? && entry(x).value.Put? && entry(x).value.key == k
  }

  /**
   * Filling a map succeeds iff every element is read; its keys are exactly the
   * keys put, and every stored value was put under its key by some element.
   */
  lemma {:induction false} MapFoldEntries<K, V, B>(xs: seq<B>, entry: B -> Result<Entry<K, V>>)
    ensures Fold(xs, map[], MapStep(entry)).Success? <==> forall i :: 0 <= i < |xs| ==> entry(xs[i]).Success?
    ensures Fold(xs, map[], MapStep(entry)).Success? ==>
      forall k :: k in Fold(xs, map[], MapStep(entry)).value <==> exists i :: 0 <= i < |xs| && PutsKey(entry, xs[i], k)
    ensures Fold(xs, map[], MapStep(entry)).Success? ==>
      forall k :: k in Fold(xs, map[], MapStep(entry)).value ==>
        exists i :: 0 <= i < |xs| && entry(xs[i]) == Success(Put(k, Fold(xs, map[], MapStep(entry)).value[k]))
  {
    if |xs| > 0 {
      var n := |xs| - 1;
      FoldNext(xs, map[], MapStep(entry), n);
      assert xs[..n + 1] == xs;
      MapFoldEntries(xs[..n], entry);
      assert forall i :: 0 <= i < n ==> xs[..n][i] == xs[i];
    }
  }

  /** An element's entry stands in the map unless a later element puts the same key: the last one wins. */
  lemma {:induction false} MapFoldLastWins<K, V, B>(xs: seq<B>, entry: B -> Result<Entry<K, V>>, i: nat)
    requires Fold(xs, map[], MapStep(entry)).Success? && i < |xs|
    requires entry(xs[i]).Success? && entry(xs[i]).value.Put?
    requires forall j :: i < j < |xs| ==> !PutsKey(entry, xs[j], entry(xs[i]).value.key)
    ensures entry(xs[i]).value.key in Fold(xs, map[], MapStep(entry)).value
    ensures Fold(xs, map[], MapStep(entry)).value[entry(xs[i]).value.key] == entry(xs[i]).value.value
  {
    var n := |xs| - 1;
    FoldNext(xs, map[], MapStep(entry), n);
    assert xs[..n + 1] == xs;
    if i < n {
      assert xs[..n][i] == xs[i];
      assert forall j :: i < j < n ==> xs[..n][j] == xs[j];
      MapFoldLastWins(xs[..n], entry, i);
    }
  }
}
