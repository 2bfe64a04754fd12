/** The dependency closure: the modules to emit, dependencies before dependents. */
module Closure {
  import opened Reachability
  import opened BuildGraph

  datatype Mark = Visiting | Done

  // What holds between the steps of the walk. `trail` is the chain of modules being visited.

  /** v stands before the position i of u, or u is on a cycle with v. */
  ghost predicate Ordered(g: Graph, order: seq<string>, i: nat, v: string)
    requires i < |order|
  {
    v in order[..i] || Reaches(g, v, order[i])
  }

  ghost predicate OrderOk(g: Graph, order: seq<string>) {
    forall i, v :: 0 <= i < |order| && Edge(g, order[i], v) ==> Ordered(g, order, i, v)
  }

  /** The marks name nodes; visited nodes have all their successors marked. */
  ghost predicate MarksOk(g: Graph, state: map<string, Mark>, order: seq<string>, trail: seq<string>) {
    && (forall n :: n in state ==> n in g)
    && (forall n :: n in order <==> n in state && state[n] == Done)
    && (forall n :: n in trail <==> n in state && state[n] == Visiting)
    && (forall u, v :: u in order && Edge(g, u, v) ==> v in state)
  }

  ghost predicate WalkOk(g: Graph, roots: seq<string>, state: map<string, Mark>, order: seq<string>,
                         trail: seq<string>)
  {
    && MarksOk(g, state, order, trail)
    && NoDuplicates(order)
    && OrderOk(g, order)
    && (trail == [] || Path(g, trail))
    && (forall n :: n in state ==> ReachedFrom(g, roots, n))
  }

  /** The walk may move on to n: it extends the trail, and is reached from a root. */
  ghost predicate MayVisit(g: Graph, roots: seq<string>, trail: seq<string>, n: string) {
    n in g ==> Path(g, trail + [n]) && ReachedFrom(g, roots, n)
  }

  ghost predicate MayVisitAll(g: Graph, roots: seq<string>, trail: seq<string>, deps: seq<string>) {
    forall d :: d in deps ==> MayVisit(g, roots, trail, d)
  }

  /** The walk may start at a root. */
  lemma MayVisitRoots(g: Graph, roots: seq<string>)
    ensures MayVisitAll(g, roots, [], roots)
  {
    forall r | r in roots && r in g
      ensures Path(g, [] + [r]) && ReachedFrom(g, roots, r)
    {
      assert [] + [r] == [r];
      ReachesSelf(g, r);
    }
  }

  /** The walk may go from the module being visited to its successors. */
  lemma MayVisitSuccessor(g: Graph, roots: seq<string>, trail: seq<string>, n: string, d: string)
    requires n in g && Path(g, trail) && trail[|trail| - 1] == n && ReachedFrom(g, roots, n) && d in g[n]
    ensures MayVisit(g, roots, trail, d)
  {
    if d in g {
      var r :| r in roots && Reaches(g, r, n);
      ReachesStep(g, r, n, d);
      Extends(g, trail, d);
    }
  }

  lemma Extends(g: Graph, trail: seq<string>, n: string)
    requires Path(g, trail) && Edge(g, trail[|trail| - 1], n)
    ensures Path(g, trail + [n])
  {
  }

  ghost predicate SuccessorsMarked(g: Graph, state: map<string, Mark>, n: string) {
    forall v :: Edge(g, n, v) ==> v in state
  }

  lemma WalkStarts(g: Graph, roots: seq<string>)
    ensures WalkOk(g, roots, map[], [], [])
  {
  }

  lemma EnterMarks(g: Graph, state: map<string, Mark>, order: seq<string>, trail: seq<string>, n: string)
    requires MarksOk(g, state, order, trail) && n in g && n !in state
    ensures MarksOk(g, state[n := Visiting], order, trail + [n])
  {
  }

  /** Marking an unmarked node as being visited. */
  lemma Enter(g: Graph, roots: seq<string>, state: map<string, Mark>, order: seq<string>, trail: seq<string>, n: string)
    requires WalkOk(g, roots, state, order, trail) && MayVisit(g, roots, trail, n)
    requires n in g && n !in state
    ensures n !in trail && WalkOk(g, roots, state[n := Visiting], order, trail + [n])
  {
    EnterMarks(g, state, order, trail, n);
  }

  lemma LeaveMarks(g: Graph, state: map<string, Mark>, order: seq<string>, trail: seq<string>, n: string)
    requires MarksOk(g, state, order, trail + [n]) && n !in trail
    requires SuccessorsMarked(g, state, n)
    ensures n !in order
    ensures MarksOk(g, state[n := Done], order + [n], trail)
  {
    assert n in trail + [n];
  }

  /** A marked successor of the last node of the trail is emitted already, or leads back to it. */
  lemma SuccessorOrdered(g: Graph, state: map<string, Mark>, order: seq<string>, trail: seq<string>,
                         n: string, v: string)
    requires MarksOk(g, state, order, trail + [n]) && Path(g, trail + [n]) && v in state
    ensures v in order || Reaches(g, v, n)
  {
    if v !in order {
      var chain := trail + [n];
      assert v in chain;
      var i :| 0 <= i < |chain| && chain[i] == v;
      ReachesWithin(g, chain, i);
    }
  }

  lemma LeaveOrder(g: Graph, order: seq<string>, n: string)
    requires OrderOk(g, order)
    requires forall v :: Edge(g, n, v) ==> v in order || Reaches(g, v, n)
    ensures OrderOk(g, order + [n])
  {
    var longer := order + [n];
    forall i, v | 0 <= i < |longer| && Edge(g, longer[i], v)
      ensures Ordered(g, longer, i, v)
    {
      assert longer[..i] == order[..i];
      assert i < |order| ==> Ordered(g, order, i, v);
    }
  }

  lemma TrailPrefix(g: Graph, trail: seq<string>, n: string)
    requires Path(g, trail + [n]) && trail != []
    ensures Path(g, trail)
  {
    var chain := trail + [n];
    forall i | 0 <= i < |trail| - 1
      ensures Edge(g, trail[i], trail[i + 1])
    {
      assert Edge(g, chain[i], chain[i + 1]);
    }
    assert chain[0] == trail[0];
  }

  /** Emitting the module whose dependencies have all been visited. */
  lemma Leave(g: Graph, roots: seq<string>, state: map<string, Mark>, order: seq<string>, trail: seq<string>, n: string)
    requires WalkOk(g, roots, state, order, trail + [n]) && n !in trail
    requires SuccessorsMarked(g, state, n)
    ensures WalkOk(g, roots, state[n := Done], order + [n], trail)
  {
    assert n in trail + [n];
    LeaveMarks(g, state, order, trail, n);
    forall v | Edge(g, n, v)
      ensures v in order || Reaches(g, v, n)
    {
      SuccessorOrdered(g, state, order, trail, n, v);
    }
    LeaveOrder(g, order, n);
    if trail != [] {
      TrailPrefix(g, trail, n);
    }
  }

  /** The successors are what the two dependency loops visit. */
  lemma SuccessorsInTwoLists(w: World, roots: seq<string>, state: map<string, Mark>, order: seq<string>,
                             trail: seq<string>, n: string, linked: seq<string>, absorbed: seq<string>)
    requires var g := LinkGraph(w); WalkOk(g, roots, state, order, trail) && n in g
    requires trail != [] && trail[|trail| - 1] == n
    requires linked == LinkedDeps(w.modules[n], PolicyFor(w, n))
    requires absorbed == AbsorbedDeps(w.modules[n], PolicyFor(w, n))
    ensures MayVisitAll(LinkGraph(w), roots, trail, linked)
    ensures MayVisitAll(LinkGraph(w), roots, trail, ThroughAbsorbed(w, absorbed))
    ensures forall v :: Edge(LinkGraph(w), n, v) ==> v in linked || v in ThroughAbsorbed(w, absorbed)
  {
    var g := LinkGraph(w);
    assert n in trail;
    assert g[n] == linked + ThroughAbsorbed(w, absorbed);
    forall d | d in g[n]
      ensures MayVisit(g, roots, trail, d)
    {
      MayVisitSuccessor(g, roots, trail, n, d);
    }
  }

  /** The walk, with the marks and the emission order it builds up. */
  class Walker {
    const w: World
    var state: map<string, Mark>
    var order: seq<string>

    constructor (w: World)
      ensures this.w == w && state == map[] && order == []
    {
      this.w := w;
      state := map[];
      order := [];
    }

    ghost function Unmarked(): set<string> reads this { w.modules.Keys - state.Keys }

    ghost predicate Walking(roots: seq<string>, trail: seq<string>) reads this {
      WalkOk(LinkGraph(w), roots, state, order, trail)
    }

    method Visit(name: string, ghost roots: seq<string>, ghost trail: seq<string>)
      requires Walking(roots, trail) && MayVisit(LinkGraph(w), roots, trail, name)
      modifies this
      ensures Walking(roots, trail)
      ensures old(state.Keys) <= state.Keys && old(order) <= order
      ensures Emittable(w, name) ==> name in state
      decreases Unmarked(), 0
    {
      hide LinkedDeps, WalkOk, MayVisit;
      if name in w.hostLibs || (name in state && state[name] == Done) {
        return;
      }
      if name in state {
        return;
      }
      if name !in w.modules {
        return;
      }
      var m, p := w.modules[name], PolicyFor(w, name);
      if !Buildable(m, p) {
        return;
      }
      ghost var g := LinkGraph(w);
      Enter(g, roots, state, order, trail, name);
      state := state[name := Visiting];
      assert name in old(Unmarked()) && name !in Unmarked();

      VisitSuccessors(name, roots, trail + [name]);

      Leave(g, roots, state, order, trail, name);
      state := state[name := Done];
      order := order + [name];
    }

    /** The two dependency loops. */
    method VisitSuccessors(name: string, ghost roots: seq<string>, ghost trail: seq<string>)
      requires Walking(roots, trail) && trail != [] && trail[|trail| - 1] == name
      requires name in LinkGraph(w)
      modifies this
      ensures Walking(roots, trail)
      ensures old(state.Keys) <= state.Keys && old(order) <= order
      ensures SuccessorsMarked(LinkGraph(w), state, name)
      decreases Unmarked(), 3
    {
      hide LinkedDeps;
      var m, p := w.modules[name], PolicyFor(w, name);
      var linked, absorbed := LinkedDeps(m, p), AbsorbedDeps(m, p);
      SuccessorsInTwoLists(w, roots, state, order, trail, name, linked, absorbed);
      VisitEach(linked, roots, trail);
      VisitThrough(absorbed, roots, trail);
    }

    /** Visits some of the successors of the module being visited, or some of the roots. */
    method VisitEach(deps: seq<string>, ghost roots: seq<string>, ghost trail: seq<string>)
      requires Walking(roots, trail)
      requires MayVisitAll(LinkGraph(w), roots, trail, deps)
      modifies this
      ensures Walking(roots, trail)
      ensures old(state.Keys) <= state.Keys && old(order) <= order
      ensures forall d :: d in deps && Emittable(w, d) ==> d in state
      decreases Unmarked(), 1
    {
      hide LinkedDeps;
      for i := 0 to |deps|
        invariant Walking(roots, trail)
        invariant old(state.Keys) <= state.Keys && old(order) <= order
        invariant forall d :: d in deps[..i] && Emittable(w, d) ==> d in state
      {
        assert deps[..i + 1] == deps[..i] + [deps[i]];
        Visit(deps[i], roots, trail);
      }
      assert deps[..|deps|] == deps;
    }

    /** Absorbed libraries are not visited, but what they link is. */
    method VisitThrough(absorbed: seq<string>, ghost roots: seq<string>, ghost trail: seq<string>)
      requires Walking(roots, trail)
      requires MayVisitAll(LinkGraph(w), roots, trail, ThroughAbsorbed(w, absorbed))
      modifies this
      ensures Walking(roots, trail)
      ensures old(state.Keys) <= state.Keys && old(order) <= order
      ensures forall d :: d in ThroughAbsorbed(w, absorbed) && Emittable(w, d) ==> d in state
      decreases Unmarked(), 2
    {
      hide LinkedDeps;
      for i := 0 to |absorbed|
        invariant Walking(roots, trail)
        invariant old(state.Keys) <= state.Keys && old(order) <= order
        invariant forall d :: d in ThroughAbsorbed(w, absorbed[i..]) ==> d in ThroughAbsorbed(w, absorbed)
        invariant forall d :: d in ThroughAbsorbed(w, absorbed) && Emittable(w, d) ==>
                                d in state || d in ThroughAbsorbed(w, absorbed[i..])
      {
        var a := absorbed[i];
        assert absorbed[i..][1..] == absorbed[i + 1..] && absorbed[i..][0] == a;
        if a in w.hostLibs {
          continue;
        }
        if a !in w.modules {
          continue;
        }
        VisitEach(LinkedDeps(w.modules[a], PolicyFor(w, a)), roots, trail);
      }
    }
  }

  /** What the closure promises. */
  ghost predicate IsClosure(g: Graph, roots: seq<string>, order: seq<string>) {
    && NoDuplicates(order)
    && (forall n :: n in order <==> ReachedFrom(g, roots, n))
    && OrderOk(g, order)
  }

  lemma OrderClosed(g: Graph, state: map<string, Mark>, order: seq<string>)
    requires MarksOk(g, state, order, [])
    ensures Closed(g, (set n | n in order))
    ensures forall n :: n in state ==> n in order
  {
  }

  /** A finished walk has emitted exactly what the roots reach. */
  lemma WalkFinished(g: Graph, roots: seq<string>, state: map<string, Mark>, order: seq<string>)
    requires WalkOk(g, roots, state, order, [])
    requires forall r :: r in roots && r in g ==> r in state
    ensures IsClosure(g, roots, order)
  {
    OrderClosed(g, state, order);
    forall n | ReachedFrom(g, roots, n)
      ensures n in order
    {
      var r :| r in roots && Reaches(g, r, n);
      ReachesNode(g, r, n);
      ClosedHoldsReach(g, (set m | m in order), r, n);
    }
  }

  method DependencyClosure(w: World, roots: seq<string>) returns (order: seq<string>)
    ensures IsClosure(LinkGraph(w), roots, order)
  {
    hide LinkedDeps, WalkOk, IsClosure;
    var walker := new Walker(w);
    WalkStarts(LinkGraph(w), roots);
    MayVisitRoots(LinkGraph(w), roots);
    walker.VisitEach(roots, roots, []);
    WalkFinished(LinkGraph(w), roots, walker.state, walker.order);
    return walker.order;
  }

  /** No module reaches itself through a dependency of its own. */
  ghost predicate Acyclic(g: Graph) { forall u, v :: Edge(g, u, v) ==> !Reaches(g, v, u) }

  /** Without cycles the order is topological: every dependency comes first. */
  lemma AcyclicIsTopological(w: World, roots: seq<string>, order: seq<string>, i: nat, v: string)
    requires IsClosure(LinkGraph(w), roots, order) && Acyclic(LinkGraph(w))
    requires i < |order| && Edge(LinkGraph(w), order[i], v)
    ensures v in order[..i]
  {
    assert Ordered(LinkGraph(w), order, i, v);
  }
}
