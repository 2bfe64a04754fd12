/** The order in which a library's exported directories are listed. */
module ExportedOrder {
  import opened BuildGraph
  import opened ExportedIncludes

  type Parts = seq<seq<string>>

  function Joined(parts: Parts): (r: seq<string>) {
    if parts == [] then [] else Joined(parts[..|parts| - 1]) + parts[|parts| - 1]
  }

  /** x occurs for the first time in part p, at its position q. */
  predicate StandsAt(parts: Parts, x: string, p: nat, q: int) {
    p < |parts| && FirstAt(parts[p], x, q) && forall k :: 0 <= k < p ==> x !in parts[k]
  }

  lemma {:induction false} NotJoined(parts: Parts, x: string)
    requires forall k :: 0 <= k < |parts| ==> x !in parts[k]
    ensures x !in Joined(parts)
  {
    if parts != [] {
      NotJoined(parts[..|parts| - 1], x);
    }
  }

  /** Where a part begins in the joined list. */
  function Start(parts: Parts, p: nat): nat
    requires p <= |parts|
  {
    |Joined(parts[..p])|
  }

  lemma StartNext(parts: Parts, p: nat)
    requires p < |parts|
    ensures Start(parts, p + 1) == Start(parts, p) + |parts[p]|
  {
    assert parts[..p + 1][..p] == parts[..p];
  }

  lemma {:induction false} StartsGrow(parts: Parts, p: nat, p': nat)
    requires p <= p' <= |parts|
    ensures Start(parts, p) <= Start(parts, p')
  {
    if p < p' {
      StartsGrow(parts, p, p' - 1);
      StartNext(parts, p' - 1);
    }
  }

  lemma FirstInFront(a: seq<string>, b: seq<string>, x: string, k: int)
    requires FirstAt(a, x, k)
    ensures FirstAt(a + b, x, k)
  {
    assert (a + b)[..k] == a[..k];
  }

  lemma FirstBehind(a: seq<string>, b: seq<string>, x: string, k: int)
    requires x !in a && FirstAt(b, x, k)
    ensures FirstAt(a + b, x, |a| + k)
  {
    assert (a + b)[..|a| + k] == a + b[..k];
  }

  lemma {:induction false} FirstJoined(parts: Parts, x: string, p: nat, q: int)
    requires StandsAt(parts, x, p, q)
    ensures FirstAt(Joined(parts), x, Start(parts, p) + q)
    decreases |parts|
  {
    var last := |parts| - 1;
    if p == last {
      NotJoined(parts[..last], x);
      FirstBehind(Joined(parts[..last]), parts[last], x, q);
    } else {
      assert parts[..last][..p] == parts[..p];
      FirstJoined(parts[..last], x, p, q);
      FirstInFront(Joined(parts[..last]), parts[last], x, Start(parts, p) + q);
    }
  }

  /** What is kept of joined parts: earlier parts come first, and each part keeps its order. */
  lemma KeptInOrder(parts: Parts, i: nat, j: nat, p: nat, q: int, p': nat, q': int)
    requires var r := Deduped(Joined(parts), {});
             i < j < |r| && StandsAt(parts, r[i], p, q) && StandsAt(parts, r[j], p', q')
    ensures p < p' || (p == p' && q < q')
  {
    var r := Deduped(Joined(parts), {});
    FirstJoined(parts, r[i], p, q);
    FirstJoined(parts, r[j], p', q');
    DedupedInOrder(Joined(parts), {}, i, j, Start(parts, p) + q, Start(parts, p') + q');
    if p' < p {
      StartNext(parts, p');
      StartsGrow(parts, p' + 1, p);
    }
  }

  /** What a header library of `name` answers; a library's mention of itself adds nothing. */
  function HeaderAnswer(w: World, cache: Cache, name: string, header: string): seq<string> {
    if header == name then [] else Ask(w, cache, header).dirs
  }

  /** A library's own directories, then the answer of each of its header libraries. */
  function Sources(w: World, cache: Cache, name: string): (parts: Parts)
    requires name in w.modules
    ensures |parts| == 1 + |w.modules[name].headerLibs|
  {
    var headers := w.modules[name].headerLibs;
    [w.modules[name].exportedDirs] + seq(|headers|, k requires 0 <= k < |headers| =>
                                           HeaderAnswer(w, cache, name, headers[k]))
  }

  lemma JoinedNext(parts: Parts, k: nat, behind: seq<string>)
    requires k < |parts|
    ensures Joined(parts[..k + 1]) + behind == Joined(parts[..k]) + (parts[k] + behind)
  {
    assert parts[..k + 1][..k] == parts[..k];
  }

  lemma ExportedAllNext(w: World, rank: map<string, nat>, history: seq<string>, name: string, k: nat)
    requires Ranked(w, rank) && name in w.modules && k < |w.modules[name].headerLibs|
    ensures var headers := w.modules[name].headerLibs;
            && (forall h :: h in headers[k..] ==> h in headers)
            && ExportedAll(w, rank, headers[k..], name)
               == Sources(w, Remembered(w, history), name)[k + 1] + ExportedAll(w, rank, headers[k + 1..], name)
  {
    hide VisitLib;
    var headers := w.modules[name].headerLibs;
    MemoIsExported(w, rank, history, headers[k]);
    assert headers[k..][0] == headers[k] && headers[k..][1..] == headers[k + 1..];
  }

  lemma {:induction false} ExportedAllJoined(w: World, rank: map<string, nat>, history: seq<string>, name: string,
                                             k: nat)
    requires Ranked(w, rank) && name in w.modules && k <= |w.modules[name].headerLibs|
    ensures var headers := w.modules[name].headerLibs;
            var parts := Sources(w, Remembered(w, history), name);
            && (forall h :: h in headers[k..] ==> h in headers)
            && Joined(parts) == Joined(parts[..k + 1]) + ExportedAll(w, rank, headers[k..], name)
    decreases |w.modules[name].headerLibs| - k
  {
    hide Sources, Exported;
    var headers := w.modules[name].headerLibs;
    var parts := Sources(w, Remembered(w, history), name);
    if k == |headers| {
      assert parts[..k + 1] == parts && headers[k..] == [];
      assert Joined(parts) + [] == Joined(parts);
    } else {
      ExportedAllJoined(w, rank, history, name, k + 1);
      ExportedAllNext(w, rank, history, name, k);
      JoinedNext(parts, k + 1, ExportedAll(w, rank, headers[k + 1..], name));
    }
  }

  /** Without cycles, an answer lists the library's own directories first, as written, then what
      each header library adds in the order of the list, each in the order that library gives. */
  lemma AnswersInOrder(w: World, history: seq<string>, name: string, i: nat, j: nat,
                       p: nat, q: int, p': nat, q': int)
    requires OneWay(w) && name in w.modules
    requires var cache := Remembered(w, history);
             var r := Ask(w, cache, name).dirs;
             && i < j < |r|
             && StandsAt(Sources(w, cache, name), r[i], p, q)
             && StandsAt(Sources(w, cache, name), r[j], p', q')
    ensures p < p' || (p == p' && q < q')
  {
    var rank := RankOf(w);
    var m := w.modules[name];
    var parts := Sources(w, Remembered(w, history), name);
    MemoIsExported(w, rank, history, name);
    ExportedAllJoined(w, rank, history, name, 0);
    assert m.headerLibs[0..] == m.headerLibs;
    assert parts[..1] == [m.exportedDirs] && Joined(parts[..1]) == m.exportedDirs;
    KeptInOrder(parts, i, j, p, q, p', q');
  }

  // Any graph, cyclic or not

  /** Every own directory is listed, and none of them after another library's. */
  ghost predicate OwnFirst(w: World, name: string, dirs: seq<string>) {
    name in w.modules ==>
      var own := w.modules[name].exportedDirs;
      && (forall d :: d in own ==> d in dirs)
      && (forall i, j :: 0 <= i < j < |dirs| && dirs[j] in own ==> dirs[i] in own)
  }

  ghost predicate AllOwnFirst(w: World, cache: Cache) { forall n :: n in cache ==> OwnFirst(w, n, cache[n]) }

  lemma KeptFromFront(own: seq<string>, others: seq<string>, i: nat, j: nat)
    requires var r := Deduped(own + others, {}); i < j < |r| && r[j] in own
    ensures Deduped(own + others, {})[i] in own
  {
    var r := Deduped(own + others, {});
    var b := FirstExists(own, r[j]);
    FirstInFront(own, others, r[j], b);
    assert r[i] in r;
    var a := FirstExists(own + others, r[i]);
    DedupedInOrder(own + others, {}, i, j, a, b);
    assert (own + others)[a] == own[a];
  }

  lemma {:induction false} VisitOwnFirst(w: World, cache: Cache, seen: set<string>, name: string)
    requires AllOwnFirst(w, cache)
    ensures var r := VisitLib(w, cache, seen, name);
            AllOwnFirst(w, r.cache) && (name !in seen ==> OwnFirst(w, name, r.dirs))
    decreases w.modules.Keys - seen, 0
  {
    if name !in cache && name !in seen && name in w.modules {
      var m := w.modules[name];
      VisitLibsOwnFirst(w, cache, seen + {name}, m.headerLibs);
      var others := VisitLibs(w, cache, seen + {name}, m.headerLibs).dirs;
      var r := Deduped(m.exportedDirs + others, {});
      forall i, j | 0 <= i < j < |r| && r[j] in m.exportedDirs
        ensures r[i] in m.exportedDirs
      {
        KeptFromFront(m.exportedDirs, others, i, j);
      }
    }
  }

  lemma {:induction false} VisitLibsOwnFirst(w: World, cache: Cache, seen: set<string>, libs: seq<string>)
    requires AllOwnFirst(w, cache)
    ensures AllOwnFirst(w, VisitLibs(w, cache, seen, libs).cache)
    decreases w.modules.Keys - seen, 1, |libs|
  {
    if libs != [] {
      VisitOwnFirst(w, cache, seen, libs[0]);
      var first := VisitLib(w, cache, seen, libs[0]);
      VisitLibsOwnFirst(w, first.cache, first.seen, libs[1..]);
    }
  }

  /** On any header graph and after any queries, a library's own directories are all listed and
      come first. */
  lemma {:induction false} OwnDirsFirst(w: World, history: seq<string>, name: string)
    ensures AllOwnFirst(w, Remembered(w, history))
    ensures OwnFirst(w, name, Ask(w, Remembered(w, history), name).dirs)
    decreases |history|
  {
    if history != [] {
      var last := |history| - 1;
      OwnDirsFirst(w, history[..last], history[last]);
      VisitOwnFirst(w, Remembered(w, history[..last]), {}, history[last]);
    }
    VisitOwnFirst(w, Remembered(w, history), {}, name);
  }
}
