/**
 Least elements and ascending listings of finite sets: what the ordered maps, ordered sets and sorts of the engine
 give.
 */
module Ordering {
  ghost predicate TotalOrder<T(!new)>(le: (T, T) -> bool) {
    && (forall x, y :: le(x, y) || le(y, x))
    && (forall x, y, z :: le(x, y) && le(y, z) ==> le(x, z))
  }

  lemma {:induction false} HasLeast<T(!new)>(s: set<T>, le: (T, T) -> bool)
    requires s != {} && TotalOrder(le)
    ensures exists x | x in s :: forall y | y in s :: le(x, y)
    decreases |s|
  {
    var x :| x in s;
    var rest := s - {x};
    assert forall y | y in s :: y == x || y in rest;
    assert le(x, x);
    if rest == {} {
      assert x in s && forall y | y in s :: le(x, y);
    } else {
      HasLeast(rest, le);
      var m :| m in rest && forall y | y in rest :: le(m, y);
      var best := if le(x, m) then x else m;
      assert best in s && forall y | y in s :: le(best, y);
    }
  }

  predicate Ascending(s: seq<nat>) {
    forall i, j | 0 <= i < j < |s| :: s[i] < s[j]
  }

  /** `sort` and `dedup`: the elements of a set, each once, in order. */
  function Sorted(s: set<nat>): (r: seq<nat>)
    ensures Ascending(r) && (forall x :: x in r <==> x in s)
    decreases |s|
  {
    if s == {} then [] else
      var m := Least(s);
      [m] + Sorted(s - {m})
  }

  function Least(s: set<nat>): (m: nat)
    requires s != {}
    ensures m in s && forall y | y in s :: m <= y
  {
    HasLeast(s, (x: nat, y: nat) => x <= y);
    var m: nat :| m in s && forall y | y in s :: m <= y;
    m
  }

  ghost function Members(s: seq<nat>): set<nat> {
    set x | x in s
  }
}
