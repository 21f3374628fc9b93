/** Small things used throughout. */
module Basics {
  datatype Option<+T> = None | Some(value: T)

  function Min(a: nat, b: nat): nat { if a < b then a else b }

  function Values(s: seq<nat>): set<nat> { set x | x in s }

  lemma SubsetSize(a: set<nat>, b: set<nat>)
    requires a <= b
    ensures |a| <= |b|
  {
    assert b == a + (b - a);
  }

  // What is left of a list when its first n are gone: was[n..].
  ghost predicate Rest<T>(was: seq<T>, now: seq<T>, n: nat)
  {
    |was| == n + |now| && forall i {:trigger now[i]} :: 0 <= i < |now| ==> now[i] == was[n + i]
  }

  lemma RestOfRest<T>(s: seq<T>, now: seq<T>, now': seq<T>, a: nat, b: nat)
    requires Rest(s, now, a) && Rest(now, now', b)
    ensures Rest(s, now', a + b)
  {
  }
}
