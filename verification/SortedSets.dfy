/** The ascending enumeration of a finite set of integers. */
module SortedSets {

  predicate Ascending(r: seq<int>) { forall i, j :: 0 <= i < j < |r| ==> r[i] < r[j] }

  predicate IsLeast(s: set<int>, m: int) { m in s && forall x :: x in s ==> m <= x }

  lemma Member<T>(s: set<T>) returns (y: T)
    requires s != {}
    ensures y in s
  {
    y :| y in s;
  }

  lemma {:induction false} LeastExists(s: set<int>)
    requires s != {}
    ensures exists m :: IsLeast(s, m)
    decreases |s|
  {
    var y := Member(s);
    var rest := s - {y};
    if rest == {} {
      assert s == {y};
      assert IsLeast(s, y);
    } else {
      LeastExists(rest);
      var m :| IsLeast(rest, m);
      var least := if y < m then y else m;
      forall x | x in s
        ensures least <= x
      {
        assert x == y || x in rest;
      }
      assert IsLeast(s, least);
    }
  }

  function Least(s: set<int>): (m: int)
    requires s != {}
    ensures IsLeast(s, m)
  {
    LeastExists(s);
    var m :| IsLeast(s, m);
    m
  }

  function Sorted(s: set<int>): (r: seq<int>)
    ensures Ascending(r)
    ensures forall x :: x in r <==> x in s
    ensures |r| == |s|
    decreases |s|
  {
    if s == {} then []
    else
      var m := Least(s);
      var rest := Sorted(s - {m});
      assert forall k :: 0 <= k < |rest| ==> rest[k] in s - {m};
      [m] + rest
  }
}
