/** The include directories a library exports to its consumers: a memo shared by all queries
    and a visited set shared within one query. */
module ExportedIncludes {
  import opened BuildGraph
  import opened Reachability

  type Cache = map<string, seq<string>>

  /** The directories of a visit, and the memo and visited set after it. */
  datatype Answer = Answer(dirs: seq<string>, cache: Cache, seen: set<string>)

  function VisitLib(w: World, cache: Cache, seen: set<string>, name: string): (r: Answer)
    ensures seen <= r.seen && cache.Keys <= r.cache.Keys
    decreases w.modules.Keys - seen, 0
  {
    if name in cache then Answer(cache[name], cache, seen)
    else if name in seen then Answer([], cache, seen)
    else if name !in w.modules then Answer([], cache, seen + {name})
    else
      var through := VisitLibs(w, cache, seen + {name}, w.modules[name].headerLibs);
      var dirs := Deduped(w.modules[name].exportedDirs + through.dirs, {});
      Answer(dirs, through.cache[name := dirs], through.seen)
  }

  function VisitLibs(w: World, cache: Cache, seen: set<string>, libs: seq<string>): (r: Answer)
    ensures seen <= r.seen && cache.Keys <= r.cache.Keys
    decreases w.modules.Keys - seen, 1, |libs|
  {
    if libs == [] then Answer([], cache, seen)
    else
      var first := VisitLib(w, cache, seen, libs[0]);
      var others := VisitLibs(w, first.cache, first.seen, libs[1..]);
      others.(dirs := first.dirs + others.dirs)
  }

  function Ask(w: World, cache: Cache, name: string): Answer { VisitLib(w, cache, {}, name) }

  /** The memo after a sequence of queries. */
  function Remembered(w: World, history: seq<string>): Cache {
    if history == [] then map[]
    else
      var last := |history| - 1;
      Ask(w, Remembered(w, history[..last]), history[last]).cache
  }

  class Memo {
    const w: World
    var cache: Cache
    /** The queries answered so far. */
    ghost var history: seq<string>

    constructor (w: World)
      ensures this.w == w && Valid() && history == []
    {
      this.w, cache, history := w, map[], [];
    }

    ghost predicate Valid() reads this { cache == Remembered(w, history) }

    method Query(name: string) returns (dirs: seq<string>)
      requires Valid()
      modifies this
      ensures Valid() && history == old(history) + [name]
      ensures dirs == Ask(w, Remembered(w, old(history)), name).dirs
    {
      var seen: set<string> := {};
      dirs, seen := Visit(name, seen);
      assert (history + [name])[..|history|] == history;
      history := history + [name];
    }

    method Visit(name: string, seen: set<string>) returns (dirs: seq<string>, seen': set<string>)
      modifies this`cache
      ensures VisitLib(w, old(cache), seen, name) == Answer(dirs, cache, seen')
      decreases w.modules.Keys - seen, 0
    {
      seen' := seen;
      if name in cache {
        return cache[name], seen';
      }
      if name in seen {
        return [], seen';
      }
      seen' := seen' + {name};
      if name !in w.modules {
        return [], seen';
      }
      var through: seq<string>;
      through, seen' := VisitHeaders(w.modules[name].headerLibs, seen');
      dirs := Deduped(w.modules[name].exportedDirs + through, {});
      cache := cache[name := dirs];
    }

    /** The header libraries' contributions, in order. */
    method VisitHeaders(headers: seq<string>, seen: set<string>) returns (dirs: seq<string>, seen': set<string>)
      modifies this`cache
      ensures VisitLibs(w, old(cache), seen, headers) == Answer(dirs, cache, seen')
      decreases w.modules.Keys - seen, 1
    {
      hide VisitLib, VisitLibs;
      dirs, seen' := [], seen;
      ghost var whole := VisitLibs(w, cache, seen, headers);
      assert headers[0..] == headers;
      for i := 0 to |headers|
        invariant seen <= seen'
        invariant var ahead := VisitLibs(w, cache, seen', headers[i..]); whole == ahead.(dirs := dirs + ahead.dirs)
      {
        VisitLibsNext(w, cache, seen', headers, i);
        var more: seq<string>;
        more, seen' := Visit(headers[i], seen');
        dirs := dirs + more;
      }
      NoLibs(w, cache, seen');
      assert headers[|headers|..] == [] && dirs + [] == dirs;
    }
  }

  lemma VisitLibsNext(w: World, cache: Cache, seen: set<string>, libs: seq<string>, i: nat)
    requires i < |libs|
    ensures var first := VisitLib(w, cache, seen, libs[i]);
            var others := VisitLibs(w, first.cache, first.seen, libs[i + 1..]);
            VisitLibs(w, cache, seen, libs[i..]) == others.(dirs := first.dirs + others.dirs)
  {
    assert libs[i..][1..] == libs[i + 1..] && libs[i..][0] == libs[i];
  }

  lemma NoLibs(w: World, cache: Cache, seen: set<string>)
    ensures VisitLibs(w, cache, seen, []) == Answer([], cache, seen)
  {
  }

  // Any graph, cyclic or not

  function HeaderGraph(w: World): (g: Graph)
    ensures forall n :: n in g <==> n in w.modules
    ensures forall n :: n in g ==> g[n] == w.modules[n].headerLibs
  {
    map n | n in w.modules :: w.modules[n].headerLibs
  }

  /** A library reachable from the name through header edges exports d. */
  ghost predicate Contributes(w: World, name: string, d: string) {
    exists lib :: lib in w.modules && Reaches(HeaderGraph(w), name, lib) && d in w.modules[lib].exportedDirs
  }

  ghost predicate Sound(w: World, name: string, dirs: seq<string>) {
    NoDuplicates(dirs) && forall d :: d in dirs ==> Contributes(w, name, d)
  }

  ghost predicate CacheSound(w: World, cache: Cache) { forall n :: n in cache ==> Sound(w, n, cache[n]) }

  lemma OwnContributes(w: World, name: string, d: string)
    requires name in w.modules && d in w.modules[name].exportedDirs
    ensures Contributes(w, name, d)
  {
    ReachesSelf(HeaderGraph(w), name);
  }

  lemma HeaderContributes(w: World, name: string, h: string, d: string)
    requires name in w.modules && h in w.modules[name].headerLibs && Contributes(w, h, d)
    ensures Contributes(w, name, d)
  {
    var g := HeaderGraph(w);
    var lib :| lib in w.modules && Reaches(g, h, lib) && d in w.modules[lib].exportedDirs;
    ReachesNode(g, h, lib);
    ReachesBefore(g, name, h, lib);
  }

  lemma {:induction false} VisitSound(w: World, cache: Cache, seen: set<string>, name: string)
    requires CacheSound(w, cache)
    ensures var r := VisitLib(w, cache, seen, name); CacheSound(w, r.cache) && Sound(w, name, r.dirs)
    decreases w.modules.Keys - seen, 0
  {
    hide Contributes;
    if name !in cache && name !in seen && name in w.modules {
      var m := w.modules[name];
      VisitLibsSound(w, cache, seen + {name}, m.headerLibs, name);
      forall d | d in m.exportedDirs
        ensures Contributes(w, name, d)
      {
        OwnContributes(w, name, d);
      }
    }
  }

  lemma {:induction false} VisitLibsSound(w: World, cache: Cache, seen: set<string>, libs: seq<string>, of: string)
    requires CacheSound(w, cache) && of in w.modules && forall h :: h in libs ==> h in w.modules[of].headerLibs
    ensures var r := VisitLibs(w, cache, seen, libs);
            CacheSound(w, r.cache) && forall d :: d in r.dirs ==> Contributes(w, of, d)
    decreases w.modules.Keys - seen, 1, |libs|
  {
    hide Contributes;
    if libs != [] {
      assert libs[0] in libs && forall h :: h in libs[1..] ==> h in libs;
      VisitSound(w, cache, seen, libs[0]);
      var first := VisitLib(w, cache, seen, libs[0]);
      VisitLibsSound(w, first.cache, first.seen, libs[1..], of);
      forall d | d in first.dirs
        ensures Contributes(w, of, d)
      {
        HeaderContributes(w, of, libs[0], d);
      }
    }
  }

  /** Whatever queries came before, every directory of an answer is exported by a library
      reachable from the name, and none is listed twice. */
  lemma {:induction false} AnswersAreSound(w: World, history: seq<string>, name: string)
    ensures CacheSound(w, Remembered(w, history))
    ensures Sound(w, name, Ask(w, Remembered(w, history), name).dirs)
    decreases |history|
  {
    if history != [] {
      var last := |history| - 1;
      AnswersAreSound(w, history[..last], history[last]);
      VisitSound(w, Remembered(w, history[..last]), {}, history[last]);
    }
    VisitSound(w, Remembered(w, history), {}, name);
  }

  /** What a visit has newly seen, it has remembered, collected from, and seen the header
      libraries of. */
  ghost predicate Collected(w: World, r: Answer, seen: set<string>) {
    && r.cache.Keys <= r.seen
    && forall n :: n in r.seen && n !in seen && n in w.modules ==>
         n in r.cache
         && (forall d :: d in w.modules[n].exportedDirs ==> d in r.dirs)
         && (forall h :: h in w.modules[n].headerLibs ==> h in r.seen)
  }

  lemma {:induction false} VisitCollects(w: World, cache: Cache, seen: set<string>, name: string)
    requires cache.Keys <= seen
    ensures var r := VisitLib(w, cache, seen, name); Collected(w, r, seen) && name in r.seen
    decreases w.modules.Keys - seen, 0
  {
    if name !in cache && name !in seen && name in w.modules {
      VisitLibsCollects(w, cache, seen + {name}, w.modules[name].headerLibs);
    }
  }

  lemma {:induction false} VisitLibsCollects(w: World, cache: Cache, seen: set<string>, libs: seq<string>)
    requires cache.Keys <= seen
    ensures var r := VisitLibs(w, cache, seen, libs); Collected(w, r, seen) && forall h :: h in libs ==> h in r.seen
    decreases w.modules.Keys - seen, 1, |libs|
  {
    if libs != [] {
      VisitCollects(w, cache, seen, libs[0]);
      var first := VisitLib(w, cache, seen, libs[0]);
      VisitLibsCollects(w, first.cache, first.seen, libs[1..]);
      assert libs == [libs[0]] + libs[1..];
    }
  }

  /** A first query gives exactly the directories of the reachable libraries, each once, on
      any header graph. */
  lemma FirstQueryIsExact(w: World, name: string)
    ensures NoDuplicates(Ask(w, map[], name).dirs)
    ensures forall d :: d in Ask(w, map[], name).dirs <==> Contributes(w, name, d)
  {
    var r := Ask(w, map[], name);
    VisitSound(w, map[], {}, name);
    VisitCollects(w, map[], {}, name);
    forall d | Contributes(w, name, d)
      ensures d in r.dirs
    {
      var lib :| lib in w.modules && Reaches(HeaderGraph(w), name, lib) && d in w.modules[lib].exportedDirs;
      FirstQueryRemembers(w, name, lib);
    }
  }

  /** A first query remembers every library that it reaches. */
  lemma FirstQueryRemembers(w: World, name: string, lib: string)
    requires Reaches(HeaderGraph(w), name, lib)
    ensures lib in Ask(w, map[], name).seen && lib in Ask(w, map[], name).cache
  {
    var r := Ask(w, map[], name);
    VisitCollects(w, map[], {}, name);
    assert Closed(HeaderGraph(w), r.seen);
    ReachesNode(HeaderGraph(w), name, lib);
    ClosedHoldsReach(HeaderGraph(w), r.seen, name, lib);
  }

  // Graphs in which no two libraries reach each other

  ghost predicate OneWay(w: World) {
    var g := HeaderGraph(w);
    forall m, n :: m in g && n in g && m != n && Reaches(g, m, n) ==> !Reaches(g, n, m)
  }

  /** A ranking that falls along every header edge between different libraries. */
  ghost predicate Ranked(w: World, rank: map<string, nat>) {
    && rank.Keys == w.modules.Keys
    && forall n, h :: n in w.modules && h in w.modules[n].headerLibs && h in w.modules && h != n ==> rank[h] < rank[n]
  }

  ghost function ReachSet(w: World, n: string): set<string> {
    set m | m in w.modules && Reaches(HeaderGraph(w), n, m)
  }

  lemma SmallerSet(a: set<string>, b: set<string>, x: string)
    requires a <= b && x in b && x !in a
    ensures |a| < |b|
  {
    assert b == a + (b - a) && x in b - a;
  }

  lemma RankOf(w: World) returns (rank: map<string, nat>)
    requires OneWay(w)
    ensures Ranked(w, rank)
  {
    var g := HeaderGraph(w);
    rank := map n | n in w.modules :: |ReachSet(w, n)|;
    forall n, h | n in w.modules && h in w.modules[n].headerLibs && h in w.modules && h != n
      ensures rank[h] < rank[n]
    {
      assert Edge(g, n, h);
      forall m | m in ReachSet(w, h)
        ensures m in ReachSet(w, n)
      {
        ReachesBefore(g, n, h, m);
      }
      ReachesSelf(g, n);
      ReachesStep(g, n, n, h);
      SmallerSet(ReachSet(w, h), ReachSet(w, n), n);
    }
  }

  ghost function Height(w: World, rank: map<string, nat>, name: string): nat
    requires Ranked(w, rank)
  {
    if name in w.modules then rank[name] + 1 else 0
  }

  /** The recursion without memo or visited set; a library's mention of itself adds nothing. */
  ghost function Exported(w: World, rank: map<string, nat>, name: string): seq<string>
    requires Ranked(w, rank)
    decreases Height(w, rank, name), 0
  {
    if name !in w.modules then []
    else
      var m := w.modules[name];
      Deduped(m.exportedDirs + ExportedAll(w, rank, m.headerLibs, name), {})
  }

  ghost function ExportedAll(w: World, rank: map<string, nat>, libs: seq<string>, of: string): seq<string>
    requires Ranked(w, rank) && of in w.modules
    requires forall h :: h in libs ==> h in w.modules[of].headerLibs
    decreases Height(w, rank, of), 0, |libs|
  {
    if libs == [] then []
    else
      assert libs[0] in libs && forall h :: h in libs[1..] ==> h in libs;
      (if libs[0] == of then [] else Exported(w, rank, libs[0])) + ExportedAll(w, rank, libs[1..], of)
  }

  ghost predicate CacheOk(w: World, rank: map<string, nat>, cache: Cache) {
    Ranked(w, rank) && forall n :: n in cache ==> cache[n] == Exported(w, rank, n)
  }

  /** What is seen but not cached does not resolve, or lies above height h. */
  ghost predicate SeenOk(w: World, rank: map<string, nat>, cache: Cache, seen: set<string>, h: nat) {
    Ranked(w, rank) && forall n :: n in seen && n in w.modules && n !in cache ==> Height(w, rank, n) > h
  }

  /** A visit up to height h left a sound memo, and remembers all it saw and nothing higher. */
  ghost predicate Settled(w: World, rank: map<string, nat>, cache: Cache, seen: set<string>, r: Answer, h: nat) {
    && CacheOk(w, rank, r.cache)
    && (forall n :: n in r.seen && n !in seen && n in w.modules ==> n in r.cache)
    && forall n :: n in r.cache && n !in cache ==> Height(w, rank, n) <= h
  }

  lemma {:induction false} VisitIsExported(w: World, rank: map<string, nat>, cache: Cache, seen: set<string>,
                                           name: string)
    requires CacheOk(w, rank, cache) && SeenOk(w, rank, cache, seen, Height(w, rank, name))
    ensures var r := VisitLib(w, cache, seen, name);
            Settled(w, rank, cache, seen, r, Height(w, rank, name)) && r.dirs == Exported(w, rank, name)
    decreases w.modules.Keys - seen, 0
  {
    if name !in cache && name !in seen && name in w.modules {
      VisitLibsIsExported(w, rank, cache, seen + {name}, w.modules[name].headerLibs, name);
    }
  }

  lemma {:induction false} VisitLibsIsExported(w: World, rank: map<string, nat>, cache: Cache, seen: set<string>,
                                               libs: seq<string>, of: string)
    requires CacheOk(w, rank, cache) && of in w.modules && SeenOk(w, rank, cache, seen, rank[of])
    requires of in seen && of !in cache && forall h :: h in libs ==> h in w.modules[of].headerLibs
    ensures var r := VisitLibs(w, cache, seen, libs);
            Settled(w, rank, cache, seen, r, rank[of]) && r.dirs == ExportedAll(w, rank, libs, of)
    decreases w.modules.Keys - seen, 1, |libs|
  {
    if libs != [] {
      assert libs[0] in libs && forall h :: h in libs[1..] ==> h in libs;
      if libs[0] != of {
        VisitIsExported(w, rank, cache, seen, libs[0]);
      }
      var first := VisitLib(w, cache, seen, libs[0]);
      VisitLibsIsExported(w, rank, first.cache, first.seen, libs[1..], of);
    }
  }

  /** Every query gives the plain recursion's list, whatever queries came before. */
  lemma {:induction false} MemoIsExported(w: World, rank: map<string, nat>, history: seq<string>, name: string)
    requires Ranked(w, rank)
    ensures CacheOk(w, rank, Remembered(w, history))
    ensures Ask(w, Remembered(w, history), name).dirs == Exported(w, rank, name)
    decreases |history|
  {
    if history != [] {
      var last := |history| - 1;
      MemoIsExported(w, rank, history[..last], history[last]);
      VisitIsExported(w, rank, Remembered(w, history[..last]), {}, history[last]);
    }
    VisitIsExported(w, rank, Remembered(w, history), {}, name);
  }

  // Exactly those graphs make the answers independent of earlier queries

  ghost predicate Independent(w: World) {
    forall history, name :: Ask(w, Remembered(w, history), name).dirs == Ask(w, map[], name).dirs
  }

  /** The library is the only one that exports d. */
  predicate OwnDir(w: World, lib: string, d: string) {
    lib in w.modules && d in w.modules[lib].exportedDirs
    && forall n :: n in w.modules && n != lib ==> d !in w.modules[n].exportedDirs
  }

  /** The memo knows nothing of library a and its own directory d. */
  ghost predicate Ignorant(cache: Cache, a: string, d: string) {
    a !in cache && forall n :: n in cache ==> d !in cache[n]
  }

  /** While a is being visited, nothing below it learns of its directories. */
  lemma {:induction false} VisitIgnores(w: World, cache: Cache, seen: set<string>, name: string, a: string, d: string)
    requires OwnDir(w, a, d) && a in seen && Ignorant(cache, a, d)
    ensures var r := VisitLib(w, cache, seen, name); Ignorant(r.cache, a, d) && d !in r.dirs
    decreases w.modules.Keys - seen, 0
  {
    if name !in cache && name !in seen && name in w.modules {
      VisitLibsIgnores(w, cache, seen + {name}, w.modules[name].headerLibs, a, d);
    }
  }

  lemma {:induction false} VisitLibsIgnores(w: World, cache: Cache, seen: set<string>, libs: seq<string>,
                                            a: string, d: string)
    requires OwnDir(w, a, d) && a in seen && Ignorant(cache, a, d)
    ensures var r := VisitLibs(w, cache, seen, libs); Ignorant(r.cache, a, d) && d !in r.dirs
    decreases w.modules.Keys - seen, 1, |libs|
  {
    if libs != [] {
      VisitIgnores(w, cache, seen, libs[0], a, d);
      var first := VisitLib(w, cache, seen, libs[0]);
      VisitLibsIgnores(w, first.cache, first.seen, libs[1..], a, d);
    }
  }

  /** If a and b reach each other, then asked after a, library b has lost a's directory. */
  lemma LaterForgets(w: World, a: string, b: string, d: string)
    requires OwnDir(w, a, d) && a != b
    requires Reaches(HeaderGraph(w), a, b) && Reaches(HeaderGraph(w), b, a)
    ensures d in Ask(w, map[], b).dirs && d !in Ask(w, Remembered(w, [a]), b).dirs
  {
    FirstQueryIsExact(w, b);
    assert Contributes(w, b, d);
    assert [a][..0] == [];
    FirstQueryRemembers(w, a, b);
    assert {} + {a} == {a};
    VisitLibsIgnores(w, map[], {a}, w.modules[a].headerLibs, a, d);
  }

  /** Wherever answers never depend on earlier queries, a library that reaches another one and
      is reached by it exports no directory of its own. */
  lemma IndependentSharesDirs(w: World, a: string, b: string, d: string)
    requires Independent(w) && a != b
    requires Reaches(HeaderGraph(w), a, b) && Reaches(HeaderGraph(w), b, a)
    ensures !OwnDir(w, a, d)
  {
    if OwnDir(w, a, d) {
      ReachesNode(HeaderGraph(w), a, b);
      LaterForgets(w, a, b, d);
    }
  }

  lemma OneWayIndependent(w: World)
    requires OneWay(w)
    ensures Independent(w)
  {
    var rank := RankOf(w);
    forall history, name
      ensures Ask(w, Remembered(w, history), name).dirs == Ask(w, map[], name).dirs
    {
      MemoIsExported(w, rank, history, name);
      MemoIsExported(w, rank, [], name);
    }
  }

  /** The same libraries with the same header libraries, whatever they export. */
  ghost predicate SameHeaders(v: World, w: World) { HeaderGraph(v) == HeaderGraph(w) }

  /** w with libraries that export just their own names. */
  function Labelled(w: World): World {
    w.(modules := map n | n in w.modules :: w.modules[n].(exportedDirs := [n]))
  }

  lemma LabelledSame(w: World)
    ensures SameHeaders(Labelled(w), w)
    ensures forall n :: n in w.modules ==> OwnDir(Labelled(w), n, n)
  {
  }

  /** Header edges make answers independent of earlier queries, whatever the libraries export,
      exactly when no two libraries reach each other. */
  lemma HistoryMattersExactlyWhen(w: World)
    ensures OneWay(w) <==> forall v :: SameHeaders(v, w) ==> Independent(v)
  {
    if OneWay(w) {
      forall v | SameHeaders(v, w)
        ensures Independent(v)
      {
        OneWayIndependent(v);
      }
    } else {
      var g := HeaderGraph(w);
      var a, b :| a in g && b in g && a != b && Reaches(g, a, b) && Reaches(g, b, a);
      LabelledSame(w);
      if Independent(Labelled(w)) {
        IndependentSharesDirs(Labelled(w), a, b, a);
      }
    }
  }

  function Headers(dirs: seq<string>, libs: seq<string>): Module { Module([], [], [], [], [], libs, dirs) }

  /** Two libraries that list each other. */
  const PAIR := World(map["a" := Headers(["x"], ["b"]), "b" := Headers(["y"], ["a"])], map[], [], map[], false)

  /** Asked after a, library b has lost the directory that it exports through a. */
  lemma CycleForgets()
    ensures Ask(PAIR, Remembered(PAIR, []), "b").dirs == ["y", "x"]
    ensures Ask(PAIR, Remembered(PAIR, ["a"]), "b").dirs == ["y"]
  {
    VisitPair("b", "a", "y", "x");
    VisitPair("a", "b", "x", "y");
    assert ["a"][..0] == [];
  }

  lemma VisitPair(n: string, h: string, d: string, e: string)
    requires n in PAIR.modules && h in PAIR.modules && n != h
    requires PAIR.modules[n] == Headers([d], [h]) && PAIR.modules[h] == Headers([e], [n]) && d != e
    ensures VisitLib(PAIR, map[], {}, n) == Answer([d, e], map[h := [e], n := [d, e]], {n, h})
  {
    var empty: Cache := map[];
    var none: set<string> := {};
    assert none + {n} == {n} && {n} + {h} == {n, h};
    assert VisitLibs(PAIR, empty, {n, h}, [n]) == Answer([], empty, {n, h});
    DedupedOne(e, {});
    assert [e] + [] == [e];
    assert VisitLib(PAIR, empty, {n}, h) == Answer([e], map[h := [e]], {n, h});
    assert VisitLibs(PAIR, empty, {n}, [h]) == Answer([e], map[h := [e]], {n, h});
    DedupedTwo(d, e);
    assert [d] + [e] == [d, e];
    assert map[h := [e]][n := [d, e]] == map[h := [e], n := [d, e]];
  }

  lemma DedupedOne(e: string, seen: set<string>)
    requires e !in seen
    ensures Deduped([e], seen) == [e]
  {
  }

  lemma DedupedTwo(d: string, e: string)
    requires d != e
    ensures Deduped([d, e], {}) == [d, e]
  {
    assert {} + {d} == {d} && [d, e][1..] == [e];
    DedupedOne(e, {d});
  }
}
