/** Facts about sequences of keys that several components share. */
module Sequences {

  /** No key occurs twice. */
  ghost predicate Distinct<T>(s: seq<T>) {
    forall i, j :: 0 <= i < j < |s| ==> s[i] != s[j]
  }

  ghost predicate Increasing(at: seq<nat>) {
    forall i, j :: 0 <= i < j < |at| ==> at[i] < at[j]
  }

  ghost predicate Decreasing(at: seq<nat>) {
    forall i, j :: 0 <= i < j < |at| ==> at[i] > at[j]
  }

  /** The elements of `s` at the given positions, in the order of the positions. */
  ghost predicate Picks<T(!new)>(s: seq<T>, at: seq<nat>, picked: seq<T>) {
    && |picked| == |at|
    && forall k :: 0 <= k < |at| ==> at[k] < |s| && picked[k] == s[at[k]]
  }

  /** One more element: it may be picked last, or not. */
  lemma PicksNext<T(!new)>(s: seq<T>, at: seq<nat>, picked: seq<T>)
    requires s != [] && Increasing(at) && Picks(s[..|s| - 1], at, picked)
    ensures Picks(s, at, picked)
    ensures Increasing(at + [|s| - 1]) && Picks(s, at + [|s| - 1], picked + [s[|s| - 1]])
    ensures forall i: nat :: i in at + [|s| - 1] <==> i in at || i == |s| - 1
  {
  }

  /** The position of the first occurrence, or the length when there is none. */
  function IndexOf<T(==)>(keys: seq<T>, key: T): (i: nat)
    ensures i <= |keys|
    ensures i < |keys| ==> keys[i] == key
    ensures forall j :: 0 <= j < i ==> keys[j] != key
    ensures i < |keys| <==> key in keys
  {
    if keys == [] || keys[0] == key then 0 else 1 + IndexOf(keys[1..], key)
  }

  /** Nothing but the first occurrence satisfies the specification of `IndexOf`. */
  lemma IndexOfUnique<T>(keys: seq<T>, key: T, i: nat)
    requires i < |keys| && keys[i] == key
    requires forall j :: 0 <= j < i ==> keys[j] != key
    ensures IndexOf(keys, key) == i
  {
    assert key in keys;
  }

  lemma IndexOfDistinct<T>(keys: seq<T>, i: nat)
    requires Distinct(keys) && i < |keys|
    ensures IndexOf(keys, keys[i]) == i
  {
    IndexOfUnique(keys, keys[i], i);
  }

  /** The sequence without its `i`th element, as `erase` leaves it. */
  function Erase<T>(s: seq<T>, i: nat): (r: seq<T>)
    requires i < |s|
    ensures |r| == |s| - 1
  {
    s[..i] + s[i + 1..]
  }

  lemma EraseDistinct<T>(s: seq<T>, i: nat)
    requires i < |s| && Distinct(s)
    ensures Distinct(Erase(s, i))
    ensures forall x :: x in Erase(s, i) <==> x in s && x != s[i]
  {
    var r := Erase(s, i);
    forall x | x in s && x != s[i] ensures x in r {
      var k :| 0 <= k < |s| && s[k] == x;
      assert r[if k < i then k else k - 1] == x;
    }
  }

  /** A sequence without repetitions is as long as the set of its elements. */
  lemma DistinctCount<T>(s: seq<T>, all: set<T>)
    requires Distinct(s) && forall x :: x in s <==> x in all
    ensures |s| == |all|
  {
    if s == [] {
      assert all == {};
    } else {
      var front, last := s[..|s| - 1], s[|s| - 1];
      assert forall x :: x in front <==> x in all && x != last;
      DistinctCount(front, all - {last});
    }
  }
}
