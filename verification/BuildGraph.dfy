/** Resolved modules, the port policy, and the dependency edits that the closure walk and
    the emitter each apply. */
module BuildGraph {
  import opened Reachability

  /** The properties of a resolved module that the graph walks read. */
  datatype Module = Module(
    srcs: seq<string>, excludeSrcs: seq<string>,
    sharedLibs: seq<string>, staticLibs: seq<string>, wholeStaticLibs: seq<string>,
    headerLibs: seq<string>, exportedDirs: seq<string>)

  datatype Policy = Policy(
    absorbWholeStatic: bool, addSrcs: seq<string>, removeSrcs: seq<string>,
    addSharedLibs: seq<string>, removeSharedLibs: seq<string>,
    addStaticLibs: seq<string>, removeStaticLibs: seq<string>)

  /** `modules` holds the names that resolve. */
  datatype World = World(
    modules: map<string, Module>, policies: map<string, Policy>, hostLibs: seq<string>,
    nameMap: map<string, string>, stripLibPrefix: bool)

  const DEFAULT_POLICY := Policy(true, [], [], [], [], [], [])

  function PolicyFor(w: World, name: string): Policy {
    if name in w.policies then w.policies[name] else DEFAULT_POLICY
  }

  /** The elements of s that are not in `out`, in order. */
  function Without(s: seq<string>, out: seq<string>): (r: seq<string>)
    ensures forall x :: x in r <==> x in s && x !in out
  {
    if s == [] then []
    else
      var rest := Without(s[1..], out);
      if s[0] in out then rest else [s[0]] + rest
  }

  /** The walk's edit: remove, then add what was not there before any addition. */
  function Edited(libs: seq<string>, remove: seq<string>, add: seq<string>): (r: seq<string>)
    ensures forall x :: x in r <==> (x in libs && x !in remove) || x in add
  {
    var kept := Without(libs, remove);
    kept + Without(add, kept)
  }

  function SharedDeps(m: Module, p: Policy): seq<string> {
    Edited(m.sharedLibs, p.removeSharedLibs, p.addSharedLibs)
  }

  function StaticDeps(m: Module, p: Policy): seq<string> {
    Edited(m.staticLibs, p.removeStaticLibs, p.addStaticLibs)
  }

  function LinkedDeps(m: Module, p: Policy): seq<string> {
    SharedDeps(m, p) + StaticDeps(m, p) + if p.absorbWholeStatic then [] else m.wholeStaticLibs
  }

  function AbsorbedDeps(m: Module, p: Policy): seq<string> {
    if p.absorbWholeStatic then m.wholeStaticLibs else []
  }

  /** First occurrences only, in order, skipping what is already in `seen`. */
  function Deduped(s: seq<string>, seen: set<string>): (r: seq<string>)
    ensures forall x :: x in r <==> x in s && x !in seen
    ensures NoDuplicates(r)
  {
    if s == [] then []
    else if s[0] in seen then Deduped(s[1..], seen)
    else
      var rest := Deduped(s[1..], seen + {s[0]});
      assert forall k :: 0 <= k < |rest| ==> rest[k] in rest;
      [s[0]] + rest
  }

  // The order of what is kept

  /** Removal works on each part of a list by itself, so what is left keeps its order and its
      repetitions. */
  lemma {:induction false} WithoutConcat(a: seq<string>, b: seq<string>, out: seq<string>)
    ensures Without(a + b, out) == Without(a, out) + Without(b, out)
  {
    if a == [] {
      assert a + b == b;
    } else {
      assert (a + b)[0] == a[0] && (a + b)[1..] == a[1..] + b;
      WithoutConcat(a[1..], b, out);
    }
  }

  lemma WithoutEach(x: string, out: seq<string>)
    ensures Without([x], out) == if x in out then [] else [x]
  {
  }

  /** x occurs in s for the first time at position k. */
  predicate FirstAt(s: seq<string>, x: string, k: int) { 0 <= k < |s| && s[k] == x && x !in s[..k] }

  lemma {:induction false} FirstExists(s: seq<string>, x: string) returns (k: int)
    requires x in s
    ensures FirstAt(s, x, k)
  {
    if s[0] == x {
      k := 0;
    } else {
      var j := FirstExists(s[1..], x);
      k := j + 1;
      assert s[..k] == [s[0]] + s[1..][..j];
    }
  }

  lemma FirstInTail(s: seq<string>, x: string, k: int)
    requires FirstAt(s, x, k) && s[0] != x
    ensures k > 0 && FirstAt(s[1..], x, k - 1)
  {
    assert s[..k] == [s[0]] + s[1..][..k - 1];
  }

  /** What is kept stands in the order of first occurrences. */
  lemma {:induction false} DedupedInOrder(s: seq<string>, seen: set<string>, i: nat, j: nat, a: int, b: int)
    requires i < j < |Deduped(s, seen)|
    requires FirstAt(s, Deduped(s, seen)[i], a) && FirstAt(s, Deduped(s, seen)[j], b)
    ensures a < b
    decreases |s|
  {
    hide FirstAt;
    var x, y := Deduped(s, seen)[i], Deduped(s, seen)[j];
    assert x in Deduped(s, seen) && y in Deduped(s, seen);
    if s[0] in seen {
      FirstInTail(s, x, a);
      FirstInTail(s, y, b);
      DedupedInOrder(s[1..], seen, i, j, a - 1, b - 1);
    } else {
      var rest := Deduped(s[1..], seen + {s[0]});
      assert Deduped(s, seen) == [s[0]] + rest;
      assert y == rest[j - 1] && y in rest;
      FirstInTail(s, y, b);
      if i == 0 {
        FirstHere(s, a);
      } else {
        assert x == rest[i - 1] && x in rest;
        FirstInTail(s, x, a);
        DedupedInOrder(s[1..], seen + {s[0]}, i - 1, j - 1, a - 1, b - 1);
      }
    }
  }

  lemma FirstHere(s: seq<string>, k: int)
    requires s != [] && FirstAt(s, s[0], k)
    ensures k == 0
  {
  }

  function EffectiveSrcs(m: Module): seq<string> { Deduped(Without(m.srcs, m.excludeSrcs), {}) }

  predicate Buildable(m: Module, p: Policy) {
    EffectiveSrcs(m) != [] || p.addSrcs != [] || (p.absorbWholeStatic && m.wholeStaticLibs != [])
  }

  /** Whether a name is emitted when the walk gets to it. */
  predicate Emittable(w: World, name: string) {
    name !in w.hostLibs && name in w.modules && Buildable(w.modules[name], PolicyFor(w, name))
  }

  /** The link dependencies that an absorbed library contributes. */
  function ThroughAbsorbed(w: World, absorbed: seq<string>): (r: seq<string>) {
    if absorbed == [] then []
    else
      var a := absorbed[0];
      (if a !in w.hostLibs && a in w.modules then LinkedDeps(w.modules[a], PolicyFor(w, a)) else [])
      + ThroughAbsorbed(w, absorbed[1..])
  }

  /** What the walk visits from a module: its own link dependencies, then those of the
      libraries it absorbs. */
  function Visited(w: World, name: string): seq<string>
    requires name in w.modules
  {
    var m, p := w.modules[name], PolicyFor(w, name);
    LinkedDeps(m, p) + ThroughAbsorbed(w, AbsorbedDeps(m, p))
  }

  function LinkGraph(w: World): (g: Graph)
    ensures forall n :: n in g <==> Emittable(w, n)
    ensures forall n :: n in g ==> n in w.modules && g[n] == Visited(w, n)
  {
    map n | n in w.modules && Emittable(w, n) :: Visited(w, n)
  }
}
