/** Least elements and ascending listings of finite sets of numbers. */
module Order {
  predicate IsLeast(m: nat, s: set<nat>) { m in s && forall k :: k in s ==> m <= k }

  lemma {:induction false} LeastExists(s: set<nat>)
    requires s != {}
    ensures exists m :: IsLeast(m, s)
  {
    var x :| x in s;
    var rest := s - {x};
    if rest == {} {
      forall k | k in s ensures k == x { assert k == x || k in rest; }
      assert IsLeast(x, s);
    } else {
      LeastExists(rest);
      var y :| IsLeast(y, rest);
      assert forall k :: k in s ==> k == x || k in rest;
      assert IsLeast(if x < y then x else y, s);
    }
  }

  ghost predicate Ascending(s: seq<nat>) { forall i, j :: 0 <= i < j < |s| ==> s[i] < s[j] }

  /** The elements of a set from least to greatest, as a `BTreeMap` yields its keys. */
  function Sorted(s: set<nat>): (r: seq<nat>)
    ensures forall k :: k in r <==> k in s
    ensures Ascending(r)
  {
    if s == {} then []
    else
      LeastExists(s);
      var m :| m in s && IsLeast(m, s);
      [m] + Sorted(s - {m})
  }
}
