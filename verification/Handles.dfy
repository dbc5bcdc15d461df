/** Counting how many of a number of handles hold the same object. */
module Handles {

  /** How many handles hold the array. */
  ghost function Count<T>(hs: seq<T>, a: T): nat {
    if hs == [] then 0 else (if hs[0] == a then 1 else 0) + Count(hs[1..], a)
  }

  lemma {:induction false} CountUpdate<T>(hs: seq<T>, i: nat, b: T, a: T)
    requires i < |hs|
    ensures Count(hs[i := b], a) == Count(hs, a) - (if hs[i] == a then 1 else 0) + (if b == a then 1 else 0)
    decreases |hs|
  {
    if i > 0 {
      assert hs[i := b][1..] == hs[1..][i - 1 := b];
      CountUpdate(hs[1..], i - 1, b, a);
    } else {
      assert hs[i := b][1..] == hs[1..];
    }
  }

  lemma {:induction false} CountTwo<T>(hs: seq<T>, i: nat, j: nat)
    requires i < j < |hs| && hs[i] == hs[j]
    ensures Count(hs, hs[i]) > 1
    decreases |hs|
  {
    if i == 0 {
      CountOne(hs[1..], j - 1);
    } else {
      CountTwo(hs[1..], i - 1, j - 1);
    }
  }

  lemma {:induction false} CountOne<T>(hs: seq<T>, i: nat)
    requires i < |hs|
    ensures Count(hs, hs[i]) > 0
    decreases |hs|
  {
    if i > 0 {
      CountOne(hs[1..], i - 1);
    }
  }

  lemma {:induction false} CountNone<T>(hs: seq<T>, a: T)
    requires a !in hs
    ensures Count(hs, a) == 0
    decreases |hs|
  {
    if hs != [] {
      CountNone(hs[1..], a);
    }
  }
}
