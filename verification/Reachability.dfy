/** Paths in a finite directed graph given by successor lists. */
module Reachability {

  /** A node is a key; successors that are not keys are not nodes. */
  type Graph = map<string, seq<string>>

  predicate Edge(g: Graph, u: string, v: string) { u in g && v in g && v in g[u] }

  ghost predicate Path(g: Graph, p: seq<string>) {
    && |p| > 0 && p[0] in g
    && forall i :: 0 <= i < |p| - 1 ==> Edge(g, p[i], p[i + 1])
  }

  ghost predicate PathBetween(g: Graph, u: string, v: string, p: seq<string>) {
    Path(g, p) && p[0] == u && p[|p| - 1] == v
  }

  /** There is a path from u to v, possibly of one node. */
  ghost predicate Reaches(g: Graph, u: string, v: string) { exists p :: PathBetween(g, u, v, p) }

  ghost predicate ReachedFrom(g: Graph, roots: seq<string>, v: string) {
    exists r :: r in roots && Reaches(g, r, v)
  }

  lemma ReachesSelf(g: Graph, u: string)
    requires u in g
    ensures Reaches(g, u, u)
  {
    assert PathBetween(g, u, u, [u]);
  }

  lemma ReachesStep(g: Graph, u: string, v: string, w: string)
    requires Reaches(g, u, v) && Edge(g, v, w)
    ensures Reaches(g, u, w)
  {
    var p :| PathBetween(g, u, v, p);
    assert PathBetween(g, u, w, p + [w]);
  }

  lemma ReachesTrans(g: Graph, u: string, v: string, w: string)
    requires Reaches(g, u, v) && Reaches(g, v, w)
    ensures Reaches(g, u, w)
  {
    var p :| PathBetween(g, u, v, p);
    var q :| PathBetween(g, v, w, q);
    var chain := p + q[1..];
    forall i | 0 <= i < |chain| - 1
      ensures Edge(g, chain[i], chain[i + 1])
    {
      if i >= |p| - 1 {
        assert chain[i] == q[i - |p| + 1] && chain[i + 1] == q[i - |p| + 2];
      }
    }
    assert PathBetween(g, u, w, chain);
  }

  lemma ReachesBefore(g: Graph, u: string, v: string, w: string)
    requires Edge(g, u, v) && Reaches(g, v, w)
    ensures Reaches(g, u, w)
  {
    ReachesSelf(g, u);
    ReachesStep(g, u, u, v);
    ReachesTrans(g, u, v, w);
  }

  lemma ReachesWithin(g: Graph, p: seq<string>, i: nat)
    requires Path(g, p) && i < |p|
    ensures Reaches(g, p[i], p[|p| - 1])
  {
    var q := p[i..];
    forall j | 0 <= j < |q| - 1
      ensures Edge(g, q[j], q[j + 1])
    {
      assert Edge(g, p[i + j], p[i + j + 1]);
    }
    assert i > 0 ==> Edge(g, p[i - 1], p[i]);
    assert PathBetween(g, p[i], p[|p| - 1], q);
  }

  lemma ReachesNode(g: Graph, u: string, v: string)
    requires Reaches(g, u, v)
    ensures u in g && v in g
  {
    var p :| PathBetween(g, u, v, p);
    assert |p| > 1 ==> Edge(g, p[|p| - 2], p[|p| - 1]);
  }

  ghost predicate Closed(g: Graph, s: set<string>) {
    forall u, v :: u in s && Edge(g, u, v) ==> v in s
  }

  lemma {:induction false} PathStaysIn(g: Graph, s: set<string>, p: seq<string>, i: nat)
    requires Closed(g, s) && Path(g, p) && p[0] in s && i < |p|
    ensures p[i] in s
  {
    if i > 0 {
      PathStaysIn(g, s, p, i - 1);
      assert Edge(g, p[i - 1], p[i]);
    }
  }

  /** What a closed set contains, it contains with everything reachable. */
  lemma ClosedHoldsReach(g: Graph, s: set<string>, u: string, v: string)
    requires Closed(g, s) && u in s && Reaches(g, u, v)
    ensures v in s
  {
    var p :| PathBetween(g, u, v, p);
    PathStaysIn(g, s, p, |p| - 1);
  }

  predicate NoDuplicates<T(==)>(s: seq<T>) { forall i, j :: 0 <= i < j < |s| ==> s[i] != s[j] }
}
