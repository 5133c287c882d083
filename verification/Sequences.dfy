/** Lists without repetition, and the removal of one element. */
module Sequences {
  ghost predicate NoDup<T>(s: seq<T>) {
    forall i: nat, j: nat | i < j < |s| :: s[i] != s[j]
  }

  /** list without its first b, as list_remove leaves it. */
  function Remove(list: seq<nat>, b: nat): seq<nat> {
    if list == [] then [] else if list[0] == b then list[1..] else [list[0]] + Remove(list[1..], b)
  }

  lemma {:induction false} RemoveOnce(list: seq<nat>, b: nat)
    requires NoDup(list)
    ensures NoDup(Remove(list, b)) && forall x :: x in Remove(list, b) <==> x in list && x != b
  {
    if list != [] {
      assert list[0] !in list[1..] && NoDup(list[1..]);
      assert forall x :: x in list <==> x == list[0] || x in list[1..];
      if list[0] != b {
        RemoveOnce(list[1..], b);
        Prepend(list[0], Remove(list[1..], b));
      }
    }
  }

  lemma Prepend(x: nat, list: seq<nat>)
    requires NoDup(list) && x !in list
    ensures NoDup([x] + list)
  {
  }
}
