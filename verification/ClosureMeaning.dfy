/** What the dependency walk means, said of the modules, the policies and the host libraries
    alone. */
module ClosureMeaning {
  import opened Reachability
  import opened BuildGraph
  import opened PolicyEdits
  import Closure
  import Emitter

  // A module without a policy absorbs its whole-static libraries and is not edited.

  predicate Absorbs(w: World, n: string) { n in w.policies ==> w.policies[n].absorbWholeStatic }

  /** n is linked with d as its own dependency. */
  predicate Wants(w: World, n: string, d: string)
    requires n in w.modules
  {
    var m := w.modules[n];
    if n !in w.policies then
      d in m.sharedLibs || d in m.staticLibs
    else
      var p := w.policies[n];
      || (d in m.sharedLibs && d !in p.removeSharedLibs) || d in p.addSharedLibs
      || (d in m.staticLibs && d !in p.removeStaticLibs) || d in p.addStaticLibs
      || (!p.absorbWholeStatic && d in m.wholeStaticLibs)
  }

  /** n makes the walk go to d: as its own dependency or as one of a library it absorbs. */
  predicate Pulls(w: World, n: string, d: string) {
    && n in w.modules
    && (|| Wants(w, n, d)
        || (Absorbs(w, n)
            && exists a :: a in w.modules[n].wholeStaticLibs && a !in w.hostLibs && a in w.modules && Wants(w, a, d)))
  }

  /** n is no host library, resolves, and has a source, an added source, or a library to
      absorb. */
  predicate Emits(w: World, n: string) {
    && n !in w.hostLibs && n in w.modules
    && (|| (exists x :: x in w.modules[n].srcs && x !in w.modules[n].excludeSrcs)
        || (n in w.policies && w.policies[n].addSrcs != [])
        || (Absorbs(w, n) && w.modules[n].wholeStaticLibs != []))
  }

  lemma EmitsIsEmittable(w: World, n: string)
    ensures Emittable(w, n) <==> Emits(w, n)
  {
    if n in w.modules {
      var m := w.modules[n];
      assert forall x :: x in EffectiveSrcs(m) <==> x in m.srcs && x !in m.excludeSrcs;
      if EffectiveSrcs(m) != [] {
        assert EffectiveSrcs(m)[0] in EffectiveSrcs(m);
      }
    }
  }

  lemma WantsIsLinked(w: World, n: string, d: string)
    requires n in w.modules
    ensures d in LinkedDeps(w.modules[n], PolicyFor(w, n)) <==> Wants(w, n, d)
  {
  }

  lemma {:induction false} ThroughIsPulled(w: World, absorbed: seq<string>, d: string)
    ensures d in ThroughAbsorbed(w, absorbed) <==>
            exists a :: a in absorbed && a !in w.hostLibs && a in w.modules && Wants(w, a, d)
    decreases |absorbed|
  {
    hide LinkedDeps, Wants;
    if absorbed != [] {
      var a := absorbed[0];
      assert absorbed == [a] + absorbed[1..];
      ThroughIsPulled(w, absorbed[1..], d);
      if a in w.modules {
        WantsIsLinked(w, a, d);
      }
    }
  }

  /** The walk's graph has the modules that can be emitted, and what each of them pulls. */
  lemma GraphMeans(w: World, n: string, d: string)
    ensures n in LinkGraph(w) <==> Emits(w, n)
    ensures Edge(LinkGraph(w), n, d) <==> Emits(w, n) && Emits(w, d) && Pulls(w, n, d)
  {
    hide LinkedDeps, Wants, Emittable;
    EmitsIsEmittable(w, n);
    EmitsIsEmittable(w, d);
    if n in w.modules {
      WantsIsLinked(w, n, d);
      ThroughIsPulled(w, AbsorbedDeps(w.modules[n], PolicyFor(w, n)), d);
    }
  }

  /** The set has the roots that can be emitted, and with a module what can be emitted of what
      it pulls. */
  ghost predicate PullClosed(w: World, roots: seq<string>, s: set<string>) {
    && (forall r :: r in roots && Emits(w, r) ==> r in s)
    && forall n, d :: n in s && Emits(w, n) && Emits(w, d) && Pulls(w, n, d) ==> d in s
  }

  /** The emission order has nothing that cannot be emitted, and is closed under pulling. */
  lemma OrderMeans(w: World, roots: seq<string>, order: seq<string>)
    requires Closure.IsClosure(LinkGraph(w), roots, order)
    ensures forall n :: n in order ==> Emits(w, n)
    ensures PullClosed(w, roots, (set n | n in order))
  {
    hide Pulls, Emits;
    var g := LinkGraph(w);
    forall r | r in roots && Emits(w, r)
      ensures r in order
    {
      GraphMeans(w, r, r);
      ReachesSelf(g, r);
      assert ReachedFrom(g, roots, r);
    }
    forall n | n in order
      ensures Emits(w, n)
    {
      EmittedNode(w, roots, order, n);
    }
    forall n, d | n in order && Emits(w, n) && Emits(w, d) && Pulls(w, n, d)
      ensures d in order
    {
      GraphMeans(w, n, d);
      ReachedOn(g, roots, n, d);
    }
  }

  lemma ReachedOn(g: Graph, roots: seq<string>, n: string, d: string)
    requires ReachedFrom(g, roots, n) && Edge(g, n, d)
    ensures ReachedFrom(g, roots, d)
  {
    var r :| r in roots && Reaches(g, r, n);
    ReachesStep(g, r, n, d);
  }

  /** Nothing is emitted without need: every set closed under pulling has the whole order. */
  lemma OrderIsLeast(w: World, roots: seq<string>, order: seq<string>, s: set<string>)
    requires Closure.IsClosure(LinkGraph(w), roots, order) && PullClosed(w, roots, s)
    ensures forall n :: n in order ==> n in s
  {
    hide Pulls, Emits;
    var g := LinkGraph(w);
    forall u, v | u in s && Edge(g, u, v)
      ensures v in s
    {
      GraphMeans(w, u, v);
    }
    forall n | n in order
      ensures n in s
    {
      var r :| r in roots && Reaches(g, r, n);
      ReachesNode(g, r, n);
      GraphMeans(w, r, r);
      ClosedHoldsReach(g, s, r, n);
    }
  }

  lemma EmittedNode(w: World, roots: seq<string>, order: seq<string>, n: string)
    requires Closure.IsClosure(LinkGraph(w), roots, order) && n in order
    ensures Emits(w, n)
  {
    var r :| r in roots && Reaches(LinkGraph(w), r, n);
    ReachesNode(LinkGraph(w), r, n);
    GraphMeans(w, n, n);
  }

  /** Dependencies come first: what an emitted module pulls stands before it, unless it leads
      back to the module. */
  lemma PulledComeFirst(w: World, roots: seq<string>, order: seq<string>, i: nat, d: string)
    requires Closure.IsClosure(LinkGraph(w), roots, order) && i < |order|
    requires Pulls(w, order[i], d) && Emits(w, d)
    ensures d in order[..i] || Reaches(LinkGraph(w), d, order[i])
  {
    hide Pulls, Emits;
    assert order[i] in order;
    EmittedNode(w, roots, order, order[i]);
    GraphMeans(w, order[i], d);
    assert Closure.Ordered(LinkGraph(w), order, i, d);
  }

  // What there is to compile

  /** After the policy's edits the module has a source of its own that is not excluded, or the
      emitter inlines a library into it. */
  ghost predicate Compiles(w: World, n: string)
    requires n in w.modules
  {
    var m, p := w.modules[n], PolicyFor(w, n);
    || (exists x :: x in InPlace(m.srcs, p.removeSrcs, p.addSrcs) && x !in m.excludeSrcs)
    || exists lib :: Emitter.Inlines(w, n, lib)
  }

  /** A module with something to compile is emitted when the walk gets to it. */
  lemma CompilableIsEmitted(w: World, n: string)
    requires n in w.modules && n !in w.hostLibs && Compiles(w, n)
    ensures Emits(w, n)
  {
    var m, p := w.modules[n], PolicyFor(w, n);
    if x :| x in InPlace(m.srcs, p.removeSrcs, p.addSrcs) && x !in m.excludeSrcs {
      assert x in p.addSrcs || x in m.srcs;
    } else {
      var lib :| Emitter.Inlines(w, n, lib);
      var r :| r in m.wholeStaticLibs && Reaches(Emitter.WholeGraph(w), r, lib);
    }
  }

  /** An emitted module has something to compile, or a source that only the policy takes away,
      or a policy-added source, or absorbs a listed library. */
  lemma EmittedHasReason(w: World, n: string)
    requires Emits(w, n)
    ensures var m, p := w.modules[n], PolicyFor(w, n);
            || Compiles(w, n)
            || (exists x :: x in m.srcs && x !in m.excludeSrcs && x in p.removeSrcs)
            || p.addSrcs != []
            || (p.absorbWholeStatic && m.wholeStaticLibs != [])
  {
    var m, p := w.modules[n], PolicyFor(w, n);
    if x :| x in m.srcs && x !in m.excludeSrcs {
      if x !in p.removeSrcs {
        assert x in InPlace(m.srcs, p.removeSrcs, p.addSrcs);
      }
    }
  }
}
