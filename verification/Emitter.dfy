/** The graph walks of the CMake emitter: absorbed libraries, link lines, exported include
    directories. */
module Emitter {
  import opened Reachability
  import opened BuildGraph
  import opened PolicyEdits
  import Closure

  // Libraries absorbed through whole_static_libs, transitively

  function WholeGraph(w: World): (g: Graph)
    ensures forall n :: n in g <==> n in w.modules
    ensures forall n :: n in g ==> g[n] == w.modules[n].wholeStaticLibs
  {
    map n | n in w.modules :: w.modules[n].wholeStaticLibs
  }

  /** Everything found so far is reached from the starting names, and everything reached is
      found or still waiting. */
  ghost predicate WorklistOk(g: Graph, start: seq<string>, seen: set<string>, stack: seq<string>, out: seq<string>) {
    && NoDuplicates(out)
    && (forall n :: n in out <==> n in seen && n in g)
    && (forall n :: n in start ==> n in seen || n in stack)
    && (forall u, v :: u in out && Edge(g, u, v) ==> v in seen || v in stack)
    && (forall n :: n in g && (n in seen || n in stack) ==> ReachedFrom(g, start, n))
  }

  lemma WorklistStarts(g: Graph, start: seq<string>)
    ensures WorklistOk(g, start, {}, start, [])
  {
    forall n | n in g && n in start
      ensures ReachedFrom(g, start, n)
    {
      ReachesSelf(g, n);
    }
  }

  lemma WorklistSkips(g: Graph, start: seq<string>, seen: set<string>, stack: seq<string>, out: seq<string>)
    requires WorklistOk(g, start, seen, stack, out) && stack != []
    requires stack[0] in seen || stack[0] !in g
    ensures WorklistOk(g, start, seen + {stack[0]}, stack[1..], out)
  {
    assert stack == [stack[0]] + stack[1..];
  }

  lemma WorklistExpands(g: Graph, start: seq<string>, seen: set<string>, stack: seq<string>, out: seq<string>)
    requires WorklistOk(g, start, seen, stack, out) && stack != []
    requires stack[0] !in seen && stack[0] in g
    ensures WorklistOk(g, start, seen + {stack[0]}, stack[1..] + g[stack[0]], out + [stack[0]])
  {
    var n := stack[0];
    assert stack == [n] + stack[1..];
    assert ReachedFrom(g, start, n);
    forall v | v in g[n] && v in g
      ensures ReachedFrom(g, start, v)
    {
      var r :| r in start && Reaches(g, r, n);
      ReachesStep(g, r, n, v);
    }
  }

  lemma WorklistEnds(g: Graph, start: seq<string>, seen: set<string>, out: seq<string>)
    requires WorklistOk(g, start, seen, [], out)
    ensures forall n :: n in out <==> ReachedFrom(g, start, n)
  {
    var found := set n | n in out;
    assert Closed(g, found);
    forall n | ReachedFrom(g, start, n)
      ensures n in out
    {
      var r :| r in start && Reaches(g, r, n);
      ReachesNode(g, r, n);
      ClosedHoldsReach(g, found, r, n);
    }
  }

  /** The worklist finds exactly the resolvable modules reached through whole-static edges,
      each once. */
  method AbsorbedModules(w: World, wholeStaticLibs: seq<string>) returns (out: seq<string>)
    ensures NoDuplicates(out)
    ensures forall n :: n in out <==> ReachedFrom(WholeGraph(w), wholeStaticLibs, n)
  {
    hide WorklistOk;
    out := [];
    var seen: set<string> := {};
    var stack := wholeStaticLibs;
    ghost var g := WholeGraph(w);
    WorklistStarts(g, wholeStaticLibs);
    while stack != []
      invariant WorklistOk(g, wholeStaticLibs, seen, stack, out)
      decreases w.modules.Keys - seen, |stack|
    {
      var name := stack[0];
      if name in seen {
        WorklistSkips(g, wholeStaticLibs, seen, stack, out);
        assert seen + {name} == seen;
        stack := stack[1..];
        continue;
      }
      if name !in w.modules {
        WorklistSkips(g, wholeStaticLibs, seen, stack, out);
        seen, stack := seen + {name}, stack[1..];
        continue;
      }
      WorklistExpands(g, wholeStaticLibs, seen, stack, out);
      seen, stack, out := seen + {name}, stack[1..] + w.modules[name].wholeStaticLibs, out + [name];
    }
    WorklistEnds(g, wholeStaticLibs, seen, out);
    WorklistUnique(g, wholeStaticLibs, seen, stack, out);
  }

  lemma WorklistUnique(g: Graph, start: seq<string>, seen: set<string>, stack: seq<string>, out: seq<string>)
    requires WorklistOk(g, start, seen, stack, out)
    ensures NoDuplicates(out)
  {
  }

  // Link lines

  predicate StartsWithLib(name: string) { |name| > 3 && name[..3] == "lib" }

  function TargetName(w: World, name: string): string {
    if name in w.nameMap then w.nameMap[name]
    else if w.stripLibPrefix && StartsWithLib(name) then name[3..]
    else name
  }

  /** Where the map has no entry, only a leading `lib` is dropped, if asked and if something
      is left. */
  lemma TargetNames(w: World, rest: string)
    ensures forall name :: name in w.nameMap ==> TargetName(w, name) == w.nameMap[name]
    ensures "lib" + rest !in w.nameMap ==>
              TargetName(w, "lib" + rest) == if w.stripLibPrefix && rest != "" then rest else "lib" + rest
    ensures forall name :: name !in w.nameMap && (|name| < 3 || name[..3] != "lib") ==> TargetName(w, name) == name
  {
    var name := "lib" + rest;
    assert name[..3] == "lib" && name[3..] == rest;
  }

  /** The libraries whose sources a module absorbs. */
  ghost predicate Absorbed(w: World, p: Policy, wholeStaticLibs: seq<string>, n: string) {
    p.absorbWholeStatic && (n in wholeStaticLibs || ReachedFrom(WholeGraph(w), wholeStaticLibs, n))
  }

  /** The targets of the libraries that are not absorbed, one by one. */
  ghost function Targets(w: World, p: Policy, wholeStaticLibs: seq<string>, libs: seq<string>): seq<string> {
    if libs == [] then []
    else
      (if Absorbed(w, p, wholeStaticLibs, libs[0]) then [] else [TargetName(w, libs[0])])
      + Targets(w, p, wholeStaticLibs, libs[1..])
  }

  lemma {:induction false} TargetsHold(w: World, p: Policy, wholeStaticLibs: seq<string>, libs: seq<string>, t: string)
    ensures t in Targets(w, p, wholeStaticLibs, libs) <==>
            exists lib :: lib in libs && !Absorbed(w, p, wholeStaticLibs, lib) && TargetName(w, lib) == t
    decreases |libs|
  {
    hide Absorbed, TargetName;
    if libs != [] {
      assert libs == [libs[0]] + libs[1..];
      TargetsHold(w, p, wholeStaticLibs, libs[1..], t);
    }
  }

  /** The shared libraries' targets, then the static libraries', each at its first mention. */
  method LinkTargets(w: World, name: string, sharedLibs: seq<string>, staticLibs: seq<string>,
                     wholeStaticLibs: seq<string>)
      returns (targets: seq<string>)
    ensures NoDuplicates(targets)
    ensures targets == Deduped(Targets(w, PolicyFor(w, name), wholeStaticLibs, sharedLibs + staticLibs), {})
    ensures forall t :: t in targets <==>
              exists lib :: (lib in sharedLibs || lib in staticLibs) && TargetName(w, lib) == t
                            && !Absorbed(w, PolicyFor(w, name), wholeStaticLibs, lib)
  {
    hide TargetName;
    var skip: set<string> := {};
    if PolicyFor(w, name).absorbWholeStatic {
      var absorbed := AbsorbedModules(w, wholeStaticLibs);
      skip := Elements(absorbed) + Elements(wholeStaticLibs);
    }
    assert forall n :: n in skip <==> Absorbed(w, PolicyFor(w, name), wholeStaticLibs, n);
    targets := CollectTargets(w, PolicyFor(w, name), wholeStaticLibs, sharedLibs + staticLibs, skip);
    targets := Deduped(targets, {});
    forall t
      ensures t in targets <==> exists lib :: (lib in sharedLibs || lib in staticLibs) && TargetName(w, lib) == t
                                              && !Absorbed(w, PolicyFor(w, name), wholeStaticLibs, lib)
    {
      TargetsHold(w, PolicyFor(w, name), wholeStaticLibs, sharedLibs + staticLibs, t);
    }
  }

  lemma TargetsNext(w: World, p: Policy, wholeStaticLibs: seq<string>, libs: seq<string>, i: nat,
                    before: seq<string>)
    requires i < |libs|
    ensures var skipped := Absorbed(w, p, wholeStaticLibs, libs[i]);
            var after := if skipped then before else before + [TargetName(w, libs[i])];
            before + Targets(w, p, wholeStaticLibs, libs[i..]) == after + Targets(w, p, wholeStaticLibs, libs[i + 1..])
  {
    hide Absorbed, TargetName;
    assert libs[i..][0] == libs[i] && libs[i..][1..] == libs[i + 1..];
  }

  lemma TargetsEnds(w: World, p: Policy, wholeStaticLibs: seq<string>, libs: seq<string>, targets: seq<string>)
    ensures targets + Targets(w, p, wholeStaticLibs, libs[|libs|..]) == targets
    ensures [] + Targets(w, p, wholeStaticLibs, libs[0..]) == Targets(w, p, wholeStaticLibs, libs)
  {
    assert libs[0..] == libs;
  }

  method CollectTargets(w: World, ghost p: Policy, ghost wholeStaticLibs: seq<string>, libs: seq<string>,
                        skip: set<string>)
      returns (targets: seq<string>)
    requires forall n :: n in skip <==> Absorbed(w, p, wholeStaticLibs, n)
    ensures targets == Targets(w, p, wholeStaticLibs, libs)
  {
    hide Absorbed, TargetName, Targets;
    targets := [];
    TargetsEnds(w, p, wholeStaticLibs, libs, []);
    for i := 0 to |libs|
      invariant Targets(w, p, wholeStaticLibs, libs) == targets + Targets(w, p, wholeStaticLibs, libs[i..])
    {
      TargetsNext(w, p, wholeStaticLibs, libs, i, targets);
      if libs[i] in skip {
        continue;
      }
      targets := targets + [TargetName(w, libs[i])];
    }
    TargetsEnds(w, p, wholeStaticLibs, libs, targets);
  }

  /** Provided by the host, or no buildable module, or emitted. */
  predicate Provided(w: World, order: seq<string>, lib: string) {
    || lib in w.hostLibs
    || lib !in w.modules || !Buildable(w.modules[lib], PolicyFor(w, lib))
    || lib in order
  }

  /** Every library an emitted module links, after the policy's edits, is provided. */
  lemma LinkedIsProvided(w: World, roots: seq<string>, order: seq<string>, n: string, lib: string)
    requires Closure.IsClosure(LinkGraph(w), roots, order) && n in order && n in w.modules
    requires var m, p := w.modules[n], PolicyFor(w, n);
             || lib in InPlace(m.sharedLibs, p.removeSharedLibs, p.addSharedLibs)
             || lib in InPlace(m.staticLibs, p.removeStaticLibs, p.addStaticLibs)
    ensures Provided(w, order, lib)
  {
    var g := LinkGraph(w);
    if Emittable(w, lib) {
      var r :| r in roots && Reaches(g, r, n);
      ReachesNode(g, r, n);
      assert lib in LinkedDeps(w.modules[n], PolicyFor(w, n));
      assert Edge(g, n, lib);
      ReachesStep(g, r, n, lib);
    }
  }

  lemma EmittedResolves(w: World, roots: seq<string>, order: seq<string>, n: string)
    requires Closure.IsClosure(LinkGraph(w), roots, order) && n in order
    ensures n in w.modules
  {
    var r :| r in roots && Reaches(LinkGraph(w), r, n);
    ReachesNode(LinkGraph(w), r, n);
  }

  /** The dependencies a module is linked with: those the policy leaves or adds, without the
      libraries whose sources it absorbs. */
  ghost predicate Links(w: World, name: string, lib: string)
    requires name in w.modules
  {
    var m, p := w.modules[name], PolicyFor(w, name);
    (lib in SharedDeps(m, p) || lib in StaticDeps(m, p)) && !Absorbed(w, p, m.wholeStaticLibs, lib)
  }

  /** The link line of an emitted module names exactly the targets of the dependencies it is
      linked with, and each of those is provided. */
  method LinkLine(w: World, name: string, ghost roots: seq<string>, ghost order: seq<string>)
      returns (targets: seq<string>)
    requires name in order && Closure.IsClosure(LinkGraph(w), roots, order)
    ensures name in w.modules && NoDuplicates(targets)
    ensures var m, p := w.modules[name], PolicyFor(w, name);
            var shared := InPlace(m.sharedLibs, p.removeSharedLibs, p.addSharedLibs);
            var static_ := InPlace(m.staticLibs, p.removeStaticLibs, p.addStaticLibs);
            targets == Deduped(Targets(w, p, m.wholeStaticLibs, shared + static_), {})
    ensures forall t :: t in targets <==> exists lib :: Links(w, name, lib) && TargetName(w, lib) == t
    ensures forall lib :: Links(w, name, lib) ==> Provided(w, order, lib)
  {
    hide LinkGraph, Closure.IsClosure, Provided, Absorbed;
    EmittedResolves(w, roots, order, name);
    var m, p := w.modules[name], PolicyFor(w, name);
    var lists := new Lists(m);
    lists.ApplyPolicy(p);
    targets := LinkTargets(w, name, lists.sharedLibs, lists.staticLibs, m.wholeStaticLibs);
    forall lib
      ensures Links(w, name, lib) <==>
              (lib in lists.sharedLibs || lib in lists.staticLibs) && !Absorbed(w, p, m.wholeStaticLibs, lib)
      ensures Links(w, name, lib) ==> Provided(w, order, lib)
    {
      if Links(w, name, lib) {
        LinkedIsProvided(w, roots, order, name, lib);
      }
    }
  }

  // Link dependencies of absorbed libraries

  /** The emitter inlines the sources of lib into n. */
  ghost predicate Inlines(w: World, n: string, lib: string)
    requires n in w.modules
  {
    PolicyFor(w, n).absorbWholeStatic && ReachedFrom(WholeGraph(w), w.modules[n].wholeStaticLibs, lib)
  }

  /** The walk looks at what lib links when it visits n: lib is listed by n itself, and no host
      library. */
  predicate LooksThrough(w: World, n: string, lib: string)
    requires n in w.modules
  {
    lib in w.modules[n].wholeStaticLibs && lib !in w.hostLibs
  }

  lemma {:induction false} ThroughHolds(w: World, absorbed: seq<string>, a: string, d: string)
    requires a in absorbed && a !in w.hostLibs && a in w.modules && d in LinkedDeps(w.modules[a], PolicyFor(w, a))
    ensures d in ThroughAbsorbed(w, absorbed)
  {
    if absorbed[0] != a {
      assert a in absorbed[1..];
      ThroughHolds(w, absorbed[1..], a, d);
    }
  }

  lemma LookedThroughReached(w: World, n: string, lib: string, d: string)
    requires n in LinkGraph(w) && Inlines(w, n, lib) && LooksThrough(w, n, lib)
    requires lib in w.modules && d in LinkedDeps(w.modules[lib], PolicyFor(w, lib)) && Emittable(w, d)
    ensures Reaches(LinkGraph(w), n, d)
  {
    var g := LinkGraph(w);
    ThroughHolds(w, w.modules[n].wholeStaticLibs, lib, d);
    assert Edge(g, n, d);
    ReachesSelf(g, n);
    ReachesStep(g, n, n, d);
  }

  /** Whatever the roots, the walk reaches what the libraries inlined into the modules it emits
      link. */
  ghost predicate InlinedLinksEmitted(w: World) {
    forall roots, n, lib, d ::
      ReachedFrom(LinkGraph(w), roots, n) && n in w.modules && Inlines(w, n, lib) && InlinedLink(w, lib, d) ==>
        ReachedFrom(LinkGraph(w), roots, d)
  }

  /** d is emittable, and lib links it. */
  predicate InlinedLink(w: World, lib: string, d: string) {
    lib in w.modules && d in LinkedDeps(w.modules[lib], PolicyFor(w, lib)) && Emittable(w, d)
  }

  /** What a library links that is inlined through another one only, or is a host library, can
      be reached from the module in some other way. */
  ghost predicate DeepLinksReached(w: World) {
    forall n, lib, d ::
      n in LinkGraph(w) && Inlines(w, n, lib) && !LooksThrough(w, n, lib) && InlinedLink(w, lib, d) ==>
        Reaches(LinkGraph(w), n, d)
  }

  /** The walk looks one level down, the emitter absorbs transitively: what inlined libraries
      link is always emitted exactly when the deeper ones link nothing that is not reached
      anyway. */
  lemma InlinedLinksExactlyWhen(w: World)
    ensures InlinedLinksEmitted(w) <==> DeepLinksReached(w)
  {
    hide LinkedDeps, Inlines, InlinedLink, LooksThrough;
    var g := LinkGraph(w);
    if DeepLinksReached(w) {
      forall roots, n, lib, d |
        ReachedFrom(g, roots, n) && n in w.modules && Inlines(w, n, lib) && InlinedLink(w, lib, d)
        ensures ReachedFrom(g, roots, d)
      {
        var r :| r in roots && Reaches(g, r, n);
        ReachesNode(g, r, n);
        InlinedReached(w, n, lib, d);
        ReachesTrans(g, r, n, d);
      }
    } else {
      var n, lib, d :| n in g && Inlines(w, n, lib) && !LooksThrough(w, n, lib) && InlinedLink(w, lib, d)
                       && !Reaches(g, n, d);
      ReachesSelf(g, n);
      assert ReachedFrom(g, [n], n) && n in w.modules;
      assert !ReachedFrom(g, [n], d);
    }
  }

  lemma InlinedReached(w: World, n: string, lib: string, d: string)
    requires DeepLinksReached(w) && n in LinkGraph(w) && Inlines(w, n, lib) && InlinedLink(w, lib, d)
    ensures Reaches(LinkGraph(w), n, d)
  {
    if LooksThrough(w, n, lib) {
      LookedThroughReached(w, n, lib, d);
    }
  }

  /** Then the emitted modules provide what the inlined libraries link. */
  lemma InlinedLinksProvided(w: World, roots: seq<string>, order: seq<string>, n: string, lib: string, d: string)
    requires DeepLinksReached(w) && Closure.IsClosure(LinkGraph(w), roots, order) && n in order
    requires n in w.modules && Inlines(w, n, lib)
    requires lib in w.modules && d in LinkedDeps(w.modules[lib], PolicyFor(w, lib))
    ensures Provided(w, order, d)
  {
    if Emittable(w, d) {
      InlinedLinksExactlyWhen(w);
      assert InlinedLink(w, lib, d) && ReachedFrom(LinkGraph(w), roots, n);
    }
  }

  function Library(srcs: seq<string>, whole: seq<string>, shared: seq<string>): Module {
    Module(srcs, [], shared, [], whole, [], [])
  }

  /** "r" absorbs "a", which absorbs "b", which links "c". */
  const CHAIN := World(
    map["r" := Library(["r.cc"], ["a"], []), "a" := Library(["a.cc"], ["b"], []),
        "b" := Library(["b.cc"], [], ["c"]), "c" := Library(["c.cc"], [], [])],
    map[], [], map[], false)

  lemma LibraryLinks(srcs: seq<string>, whole: seq<string>, shared: seq<string>, d: string)
    ensures d in LinkedDeps(Library(srcs, whole, shared), DEFAULT_POLICY) <==> d in shared
  {
  }

  lemma LibraryBuildable(src: string, whole: seq<string>, shared: seq<string>)
    ensures Buildable(Library([src], whole, shared), DEFAULT_POLICY)
  {
    assert src in EffectiveSrcs(Library([src], whole, shared));
  }

  /** The walk sees nothing beyond "a". */
  lemma ChainStops(d: string)
    ensures d !in Visited(CHAIN, "r")
  {
    hide LinkedDeps, ThroughAbsorbed;
    LibraryLinks(["r.cc"], ["a"], [], d);
    LibraryLinks(["a.cc"], ["b"], [], d);
    if d in ThroughAbsorbed(CHAIN, ["a"]) {
      ThroughOne(CHAIN, "a", d);
    }
  }

  lemma ThroughOne(w: World, a: string, d: string)
    requires a in w.modules && d in ThroughAbsorbed(w, [a])
    ensures d in LinkedDeps(w.modules[a], PolicyFor(w, a))
  {
    assert [a][1..] == [];
  }

  /** The library that the inlined "b" links is not emitted. */
  lemma DeepLinkLost(order: seq<string>)
    requires Closure.IsClosure(LinkGraph(CHAIN), ["r"], order)
    ensures "r" in order && Inlines(CHAIN, "r", "b")
    ensures "c" in LinkedDeps(CHAIN.modules["b"], PolicyFor(CHAIN, "b")) && !Provided(CHAIN, order, "c")
  {
    hide LinkedDeps, Visited, Buildable;
    var g, whole := LinkGraph(CHAIN), WholeGraph(CHAIN);
    LibraryLinks(["b.cc"], [], ["c"], "c");
    LibraryBuildable("r.cc", ["a"], []);
    LibraryBuildable("c.cc", [], []);
    ReachesSelf(g, "r");
    assert ReachedFrom(g, ["r"], "r");
    ReachesSelf(whole, "a");
    ReachesStep(whole, "a", "a", "b");
    assert ReachedFrom(whole, ["a"], "b");
    forall d
      ensures !Edge(g, "r", d)
    {
      ChainStops(d);
    }
    if "c" in order {
      ClosedHoldsReach(g, {"r"}, "r", "c");
    }
  }
}
