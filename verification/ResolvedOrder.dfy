/** The order of a resolved list: place by place, and within a place defaults before the
    module's own entries. */
module ResolvedOrder {
  import opened Defaults
  import opened Options
  import opened PropertyMaps
  import opened Selects

  // Which branches are active

  /** Host branches are active everywhere, those of the other operating system nowhere. */
  lemma ActiveTargetsMean(cfg: Config, key: string)
    requires key in {"host", "not_darwin", "not_fuchsia", "windows", "not_windows", "linux", "host_linux",
                     "linux_glibc", "glibc", "darwin", "android", "not_linux"}
    requires cfg.arch in {"x86_64", "x86", "arm64", "arm"}
    ensures key in ActiveKeys(cfg, "target") <==>
            || key in {"host", "not_darwin", "not_fuchsia"}
            || (cfg.os == "windows" && key == "windows")
            || (cfg.os != "windows" && key in {"not_windows", "linux", "host_linux", "linux_glibc", "glibc"})
  {
    WithPrefix("windows_", cfg.arch, key);
    WithPrefix("linux_", cfg.arch, key);
    WithPrefix("linux_glibc_", cfg.arch, key);
    WithPrefix("glibc_", cfg.arch, key);
    NotArch(key, cfg.arch);
  }

  /** A name that is not the prefix and something else. */
  lemma WithPrefix(prefix: string, rest: string, name: string)
    ensures prefix + rest == name ==>
              |name| == |prefix| + |rest| && name[..|prefix|] == prefix && name[|prefix|..] == rest
  {
    assert (prefix + rest)[..|prefix|] == prefix && (prefix + rest)[|prefix|..] == rest;
  }

  /** The targets that name no architecture. */
  const PLAIN_TARGETS: set<string> :=
    {"host", "not_darwin", "not_fuchsia", "windows", "not_windows", "linux", "host_linux", "linux_glibc", "glibc",
     "darwin", "android", "not_linux"}

  lemma NotArch(key: string, arch: string)
    requires key in PLAIN_TARGETS
    requires arch in {"x86_64", "x86", "arm64", "arm"}
    ensures "windows_" + arch != key && "linux_" + arch != key && "linux_glibc_" + arch != key && "glibc_" + arch != key
  {
    WithPrefix("windows_", arch, key);
    WithPrefix("linux_", arch, key);
    WithPrefix("linux_glibc_", arch, key);
    WithPrefix("glibc_", arch, key);
    assert key == "linux_glibc" ==> key[6..] == "glibc";
    assert "glibc" !in {"x86_64", "x86", "arm64", "arm"};
  }

  /** Branches for one architecture are active for the build's own. */
  lemma ActiveArchTargetsMean(cfg: Config, arch: string)
    requires cfg.arch in {"x86_64", "x86", "arm64", "arm"} && arch in {"x86_64", "x86", "arm64", "arm"}
    ensures "windows_" + arch in ActiveKeys(cfg, "target") <==> cfg.os == "windows" && arch == cfg.arch
    ensures "linux_" + arch in ActiveKeys(cfg, "target") <==> cfg.os != "windows" && arch == cfg.arch
  {
    SamePrefix("windows_", arch, cfg.arch);
    SamePrefix("linux_", arch, cfg.arch);
    forall key | key in PLAIN_TARGETS
      ensures "windows_" + arch != key && "linux_" + arch != key
    {
      NotArch(key, arch);
    }
    OtherPrefix("windows_", arch, "linux_", cfg.arch, 0);
    OtherPrefix("windows_", arch, "linux_glibc_", cfg.arch, 0);
    OtherPrefix("windows_", arch, "glibc_", cfg.arch, 0);
    OtherPrefix("linux_", arch, "windows_", cfg.arch, 0);
    OtherPrefix("linux_", arch, "glibc_", cfg.arch, 0);
    assert ("linux_" + arch)[6] == arch[0] && ("linux_glibc_" + cfg.arch)[6] == 'g';
  }

  lemma SamePrefix(prefix: string, a: string, b: string)
    ensures prefix + a == prefix + b <==> a == b
  {
    WithPrefix(prefix, a, prefix + b);
    WithPrefix(prefix, b, prefix + b);
  }

  lemma OtherPrefix(p: string, a: string, q: string, b: string, i: nat)
    requires i < |p| && i < |q| && p[i] != q[i]
    ensures p + a != q + b
  {
    assert (p + a)[i] == p[i] && (q + b)[i] == q[i];
  }

  /** The build's own architecture and word size, and the code generators of the architecture
      and of its 32-bit sibling. */
  lemma ActiveArchesMean(cfg: Config, key: string)
    ensures key in ActiveKeys(cfg, "arch") <==> key == cfg.arch
    ensures key in ActiveKeys(cfg, "multilib") <==> key == if cfg.bitness == 64 then "lib64" else "lib32"
    ensures key in ActiveKeys(cfg, "codegen") <==>
            key == cfg.arch || (cfg.arch == "x86_64" && key == "x86") || (cfg.arch == "arm64" && key == "arm")
    ensures key in ActiveKeys(cfg, "soong_config_variables") <==> key == "source_build"
  {
  }

  // The places where a property can be written, in the order in which they count

  /** The keys that lead to a place: none for the module itself, then a select and a branch for
      each level (a select alone for avx2). */
  type Place = seq<string>

  function Under(key: string, places: seq<Place>): seq<Place> {
    if places == [] then [] else [[key] + places[0]] + Under(key, places[1..])
  }

  /** The value itself, then its active branches by select and branch, each with the places
      below it. */
  function Places(cfg: Config, v: Value): seq<Place>
    requires v.Dict?
    decreases v, 1
  {
    [[]] + SelectPlaces(cfg, v, SELECT_KEYS)
  }

  function SelectPlaces(cfg: Config, v: Value, selects: seq<string>): seq<Place>
    requires v.Dict?
    decreases v, 0, |selects|
  {
    if selects == [] then []
    else
      var s := selects[0];
      (if s in v.fields && v.fields[s].Dict? then Under(s, BlockPlaces(cfg, s, v.fields[s])) else [])
      + SelectPlaces(cfg, v, selects[1..])
  }

  function BlockPlaces(cfg: Config, select: string, block: Value): seq<Place>
    requires block.Dict?
    decreases block, 2
  {
    if select != "avx2" then BranchPlaces(cfg, block, ActiveKeys(cfg, select))
    else if cfg.avx2 then Places(cfg, block)
    else []
  }

  function BranchPlaces(cfg: Config, block: Value, keys: seq<string>): seq<Place>
    requires block.Dict?
    decreases block, 0, |keys|
  {
    if keys == [] then []
    else
      var key := keys[0];
      (if key in block.fields && block.fields[key].Dict? then Under(key, Places(cfg, block.fields[key])) else [])
      + BranchPlaces(cfg, block, keys[1..])
  }

  /** The items of the list that v has at the end of a path. */
  function Items(v: Value, path: seq<string>): seq<Value> {
    match At(v, path)
    case Some(Many(items)) => items
    case _ => []
  }

  function Gathered(v: Value, places: seq<Place>, k: string): seq<Value> {
    if places == [] then [] else Items(v, places[0] + [k]) + Gathered(v, places[1..], k)
  }

  lemma {:induction false} GatheredConcat(v: Value, a: seq<Place>, b: seq<Place>, k: string)
    ensures Gathered(v, a + b, k) == Gathered(v, a, k) + Gathered(v, b, k)
  {
    if a == [] {
      assert a + b == b;
    } else {
      assert (a + b)[0] == a[0] && (a + b)[1..] == a[1..] + b;
      GatheredConcat(v, a[1..], b, k);
    }
  }

  lemma {:induction false} GatheredUnder(v: Value, key: string, places: seq<Place>, k: string)
    requires v.Dict? && key in v.fields
    ensures Gathered(v, Under(key, places), k) == Gathered(v.fields[key], places, k)
  {
    if places != [] {
      GatheredUnder(v, key, places[1..], k);
      var path := ([key] + places[0]) + [k];
      assert path[0] == key && path[1..] == places[0] + [k];
      var all := Under(key, places);
      assert all[0] == [key] + places[0] && all[1..] == Under(key, places[1..]);
    }
  }

  /** The list under k, in order. */
  function OwnList(fields: Properties, k: string): seq<Value> {
    if k in fields && fields[k].Many? then fields[k].items else []
  }

  lemma MergeOwnList(a: Properties, b: Properties, k: string)
    requires ListAt(a, k) && ListAt(b, k)
    ensures ListAt(Merge(a, b), k) && OwnList(Merge(a, b), k) == OwnList(a, k) + OwnList(b, k)
  {
    if k in a || k in b {
      MergeAt(a, b, k);
    }
  }

  /** A collapsed list is gathered place by place. */
  lemma {:induction false} CollapseGathers(cfg: Config, k: string, v: Value)
    requires v.Dict? && k !in SELECT_KEYS && ListOnly(cfg, k, v)
    ensures ListAt(Collapse(cfg, v), k) && OwnList(Collapse(cfg, v), k) == Gathered(v, Places(cfg, v), k)
    decreases v, 1
  {
    SelectsGather(cfg, k, v, SELECT_KEYS, Plain(v.fields));
    OwnPlace(v, k);
    GatheredConcat(v, [[]], SelectPlaces(cfg, v, SELECT_KEYS), k);
  }

  lemma OwnPlace(v: Value, k: string)
    requires v.Dict? && k !in SELECT_KEYS
    ensures Gathered(v, [[]], k) == OwnList(v.fields, k) == OwnList(Plain(v.fields), k)
  {
    assert [] + [k] == [k] && [k][1..] == [];
    var none: seq<Place> := [[]];
    assert none[1..] == [];
    if k in v.fields {
      assert At(v, [k]) == At(v.fields[k], []) == Some(v.fields[k]);
    }
    assert Items(v, [k]) == OwnList(v.fields, k);
  }

  lemma {:induction false} SelectsGather(cfg: Config, k: string, v: Value, selects: seq<string>, out: Properties)
    requires v.Dict? && k !in SELECT_KEYS && ListOnly(cfg, k, v) && ListAt(out, k)
    requires forall s :: s in selects ==> s in SELECT_KEYS
    ensures ListAt(CollapseSelects(cfg, v, selects, out), k)
    ensures OwnList(CollapseSelects(cfg, v, selects, out), k)
         == OwnList(out, k) + Gathered(v, SelectPlaces(cfg, v, selects), k)
    decreases v, 0, |selects|
  {
    hide Merge, OwnList, ListAt, BlockPlaces, Gathered, CollapseBlock, ListBlock, Under;
    if selects == [] {
      GatheredNone(v, k);
    } else {
      var s := selects[0];
      assert s in selects && forall t :: t in selects[1..] ==> t in selects;
      if s in v.fields && v.fields[s].Dict? {
        var places := BlockPlaces(cfg, s, v.fields[s]);
        BlockGathers(cfg, k, s, v.fields[s], out);
        SelectsGather(cfg, k, v, selects[1..], CollapseBlock(cfg, s, v.fields[s], out));
        GatheredUnder(v, s, places, k);
        GatheredConcat(v, Under(s, places), SelectPlaces(cfg, v, selects[1..]), k);
      } else {
        SelectsGather(cfg, k, v, selects[1..], out);
        assert [] + SelectPlaces(cfg, v, selects[1..]) == SelectPlaces(cfg, v, selects[1..]);
      }
    }
  }

  lemma GatheredNone(v: Value, k: string)
    ensures Gathered(v, [], k) == []
  {
  }

  lemma {:induction false} BlockGathers(cfg: Config, k: string, select: string, block: Value, out: Properties)
    requires block.Dict? && k !in SELECT_KEYS && ListBlock(cfg, k, select, block) && ListAt(out, k)
    ensures ListAt(CollapseBlock(cfg, select, block, out), k)
    ensures OwnList(CollapseBlock(cfg, select, block, out), k)
         == OwnList(out, k) + Gathered(block, BlockPlaces(cfg, select, block), k)
    decreases block, 2
  {
    if select != "avx2" {
      BranchesGather(cfg, k, select, block, ActiveKeys(cfg, select), out);
    } else if cfg.avx2 {
      CollapseGathers(cfg, k, block);
      MergeOwnList(out, Collapse(cfg, block), k);
    }
  }

  lemma BranchListOnly(cfg: Config, k: string, select: string, block: Value, key: string)
    requires block.Dict? && select != "avx2" && ListBlock(cfg, k, select, block)
    requires key in ActiveKeys(cfg, select) && key in block.fields && block.fields[key].Dict?
    ensures ListOnly(cfg, k, block.fields[key])
  {
    hide ListOnly, ActiveKeys;
  }

  lemma {:induction false} BranchesGather(cfg: Config, k: string, select: string, block: Value, keys: seq<string>,
                                          out: Properties)
    requires block.Dict? && k !in SELECT_KEYS && ListAt(out, k)
    requires select != "avx2" && ListBlock(cfg, k, select, block)
    requires forall key :: key in keys ==> key in ActiveKeys(cfg, select)
    ensures ListAt(CollapseKeys(cfg, block, keys, out), k)
    ensures OwnList(CollapseKeys(cfg, block, keys, out), k)
         == OwnList(out, k) + Gathered(block, BranchPlaces(cfg, block, keys), k)
    decreases block, 0, |keys|
  {
    hide Merge, OwnList, ListAt, Places, Gathered, ActiveKeys, ListBlock, ListOnly, Collapse, Under;
    if keys == [] {
      GatheredNone(block, k);
    } else {
      var key := keys[0];
      assert key in keys && forall t :: t in keys[1..] ==> t in keys;
      if key in block.fields && block.fields[key].Dict? {
        var places := Places(cfg, block.fields[key]);
        BranchListOnly(cfg, k, select, block, key);
        CollapseGathers(cfg, k, block.fields[key]);
        MergeOwnList(out, Collapse(cfg, block.fields[key]), k);
        BranchesGather(cfg, k, select, block, keys[1..], Merge(out, Collapse(cfg, block.fields[key])));
        GatheredUnder(block, key, places, k);
        GatheredConcat(block, Under(key, places), BranchPlaces(cfg, block, keys[1..]), k);
      } else {
        BranchesGather(cfg, k, select, block, keys[1..], out);
        assert [] + BranchPlaces(cfg, block, keys[1..]) == BranchPlaces(cfg, block, keys[1..]);
      }
    }
  }

  // At each place, the maps' lists one after the other

  lemma {:induction false} ItemsJoin(kind: Kind, u: Value, v: Value, path: seq<string>)
    requires Conforms(kind, u) && Conforms(kind, v)
    ensures Items(Join(u, v), path) == Items(u, path) + Items(v, path)
    decreases |path|
  {
    if path != [] && u.Dict? && v.Dict? {
      var k, rest := path[0], path[1..];
      if k in u.fields && k in v.fields {
        ItemsJoin(kind.field(k), u.fields[k], v.fields[k], rest);
      }
    }
  }

  /** The items that the maps have at the end of a path, map by map. */
  function ItemsOf(maps: seq<Properties>, path: seq<string>): seq<Value> {
    if maps == [] then [] else Items(Dict(maps[0]), path) + ItemsOf(maps[1..], path)
  }

  lemma {:induction false} FoldItems(kind: Kind, a: Properties, maps: seq<Properties>, path: seq<string>)
    requires Conforms(kind, Dict(a)) && AllConform(kind, maps)
    ensures Items(Dict(Fold(a, maps)), path) == Items(Dict(a), path) + ItemsOf(maps, path)
    decreases |maps|
  {
    hide Items, Conforms;
    if maps != [] {
      assert maps[0] in maps && forall m :: m in maps[1..] ==> m in maps;
      JoinConforms(kind, Dict(a), Dict(maps[0]));
      ItemsJoin(kind, Dict(a), Dict(maps[0]), path);
      FoldItems(kind, Merge(a, maps[0]), maps[1..], path);
    }
  }

  /** Place by place, and in each place map by map. */
  function InSourceOrder(maps: seq<Properties>, places: seq<Place>, k: string): seq<Value> {
    if places == [] then [] else ItemsOf(maps, places[0] + [k]) + InSourceOrder(maps, places[1..], k)
  }

  lemma {:induction false} GatheredInOrder(kind: Kind, maps: seq<Properties>, places: seq<Place>, k: string)
    requires kind.Maps? && AllConform(kind, maps)
    ensures Gathered(Dict(Fold(map[], maps)), places, k) == InSourceOrder(maps, places, k)
    decreases |places|
  {
    hide Items, ItemsOf, Fold;
    if places != [] {
      NoItems(places[0] + [k]);
      FoldItems(kind, map[], maps, places[0] + [k]);
      GatheredInOrder(kind, maps, places[1..], k);
    }
  }

  lemma NoItems(path: seq<string>)
    ensures Items(Dict(map[]), path) == []
  {
  }

  /** A resolved list has the entries written in the module itself before those of its active
      branches, these by select and branch, and in each place the entries of the defaults, in
      their written order, before the module's own. */
  lemma ResolvedInOrder(cfg: Config, k: string, kind: Kind, d: Decls, depth: nat, name: string)
    requires DeclsConform(kind, d) && k !in SELECT_KEYS
    requires PropMap(d, depth, name).Some?
    requires Flat(d, depth, name).Some? ==> forall m :: m in Flat(d, depth, name).value ==> ListOnly(cfg, k, Dict(m))
    ensures Flat(d, depth, name).Some?
    ensures var merged := Dict(PropMap(d, depth, name).value);
            (OwnList(Collapse(cfg, merged), k)
             == InSourceOrder(Flat(d, depth, name).value, Places(cfg, merged), k))
  {
    hide Collapse, Places, ListOnly;
    ResolutionIsFold(kind, d, depth, name);
    var maps := Flat(d, depth, name).value;
    FlatConforms(kind, d, depth, name);
    EmptyListOnly(cfg, k);
    FoldTotal(cfg, k, kind, map[], maps);
    var merged := Dict(Fold(map[], maps));
    CollapseGathers(cfg, k, merged);
    GatheredInOrder(kind, maps, Places(cfg, merged), k);
  }

  lemma EmptyListOnly(cfg: Config, k: string)
    ensures ListOnly(cfg, k, Dict(map[]))
  {
  }

  // The order of the selects and of a select's branches

  /** A select block with one branch that has only this list. */
  function Branch(branch: string, k: string, xs: seq<Value>): Value {
    Dict(map[branch := Dict(map[k := Many(xs)])])
  }

  lemma {:induction false} LeafPlaces(cfg: Config, k: string, xs: seq<Value>, selects: seq<string>)
    requires k !in selects
    ensures SelectPlaces(cfg, Dict(map[k := Many(xs)]), selects) == []
    decreases |selects|
  {
    if selects != [] {
      assert selects[0] in selects && forall s :: s in selects[1..] ==> s in selects;
      LeafPlaces(cfg, k, xs, selects[1..]);
    }
  }

  /** x occurs at most once. */
  predicate Once(keys: seq<string>, x: string)
    decreases |keys|
  {
    keys != [] ==> if keys[0] == x then x !in keys[1..] else Once(keys[1..], x)
  }

  /** In a block with one branch, only that branch counts, if it is active. */
  lemma {:induction false} OneBranch(cfg: Config, branch: string, k: string, xs: seq<Value>, keys: seq<string>)
    requires k !in SELECT_KEYS && Once(keys, branch)
    ensures Gathered(Branch(branch, k, xs), BranchPlaces(cfg, Branch(branch, k, xs), keys), k)
         == if branch in keys then xs else []
    decreases |keys|
  {
    var block := Branch(branch, k, xs);
    if keys != [] {
      var rest := BranchPlaces(cfg, block, keys[1..]);
      assert branch in keys <==> branch == keys[0] || branch in keys[1..];
      if keys[0] == branch {
        OnceAbsent(keys[1..], branch);
        OneBranch(cfg, branch, k, xs, keys[1..]);
        var leaf := block.fields[branch];
        LeafPlaces(cfg, k, xs, SELECT_KEYS);
        assert Places(cfg, leaf) == [[]];
        OwnPlace(leaf, k);
        GatheredUnder(block, branch, [[]], k);
        GatheredConcat(block, Under(branch, [[]]), rest, k);
        assert xs + [] == xs;
      } else {
        OneBranch(cfg, branch, k, xs, keys[1..]);
        assert [] + rest == rest;
      }
    }
  }

  lemma {:induction false} OnceAbsent(keys: seq<string>, x: string)
    requires x !in keys
    ensures Once(keys, x)
    decreases |keys|
  {
    if keys != [] {
      assert keys[0] in keys && forall y :: y in keys[1..] ==> y in keys;
      OnceAbsent(keys[1..], x);
    }
  }

  /** What one select block contributes. */
  function Contribution(cfg: Config, v: Value, select: string, k: string): seq<Value>
    requires v.Dict?
  {
    if select in v.fields && v.fields[select].Dict?
    then Gathered(v.fields[select], BlockPlaces(cfg, select, v.fields[select]), k)
    else []
  }

  lemma SelectStep(cfg: Config, v: Value, selects: seq<string>, k: string)
    requires v.Dict? && selects != []
    ensures Gathered(v, SelectPlaces(cfg, v, selects), k)
         == Contribution(cfg, v, selects[0], k) + Gathered(v, SelectPlaces(cfg, v, selects[1..]), k)
  {
    hide Gathered;
    var s, rest := selects[0], SelectPlaces(cfg, v, selects[1..]);
    if s in v.fields && v.fields[s].Dict? {
      var places := BlockPlaces(cfg, s, v.fields[s]);
      GatheredUnder(v, s, places, k);
      GatheredConcat(v, Under(s, places), rest, k);
    } else {
      assert [] + rest == rest;
    }
  }

  lemma ThreeSelects(cfg: Config, v: Value, a: string, b: string, c: string, rest: seq<string>, k: string)
    requires v.Dict?
    ensures Gathered(v, SelectPlaces(cfg, v, [a, b, c] + rest), k)
         == Contribution(cfg, v, a, k) + Contribution(cfg, v, b, k) + Contribution(cfg, v, c, k)
            + Gathered(v, SelectPlaces(cfg, v, rest), k)
  {
    hide Gathered, Contribution, SelectPlaces;
    SelectStep(cfg, v, [a, b, c] + rest, k);
    assert ([a, b, c] + rest)[1..] == [b, c] + rest;
    SelectStep(cfg, v, [b, c] + rest, k);
    assert ([b, c] + rest)[1..] == [c] + rest;
    SelectStep(cfg, v, [c] + rest, k);
    assert ([c] + rest)[1..] == rest;
  }

  /** The module's own list, then what its target, architecture, word-size, variable, code
      generator and AVX2 blocks contribute, in this order. */
  lemma SelectsInOrder(cfg: Config, v: Value, k: string)
    requires v.Dict? && k !in SELECT_KEYS && ListOnly(cfg, k, v)
    ensures OwnList(Collapse(cfg, v), k) ==
            OwnList(v.fields, k)
            + (Contribution(cfg, v, "target", k) + Contribution(cfg, v, "arch", k) + Contribution(cfg, v, "multilib", k)
               + (Contribution(cfg, v, "soong_config_variables", k) + Contribution(cfg, v, "codegen", k)
                  + Contribution(cfg, v, "avx2", k)))
  {
    hide Collapse, ListOnly, Contribution, Gathered, SelectPlaces;
    CollapseGathers(cfg, k, v);
    OwnPlace(v, k);
    GatheredConcat(v, [[]], SelectPlaces(cfg, v, SELECT_KEYS), k);
    var later: seq<string> := ["soong_config_variables", "codegen", "avx2"];
    assert SELECT_KEYS == ["target", "arch", "multilib"] + later;
    ThreeSelects(cfg, v, "target", "arch", "multilib", later, k);
    assert later == later + [];
    ThreeSelects(cfg, v, "soong_config_variables", "codegen", "avx2", [], k);
    NoSelects(cfg, v, k);
  }

  lemma NoSelects(cfg: Config, v: Value, k: string)
    requires v.Dict?
    ensures Gathered(v, SelectPlaces(cfg, v, []), k) == []
  {
  }

  /** A block with a single branch contributes that branch's list when the branch is active. */
  lemma BranchContributes(cfg: Config, v: Value, select: string, branch: string, k: string, xs: seq<Value>)
    requires v.Dict? && select in v.fields && v.fields[select] == Branch(branch, k, xs)
    requires k !in SELECT_KEYS && select in {"arch", "multilib", "soong_config_variables", "codegen"}
    ensures Contribution(cfg, v, select, k) == if branch in ActiveKeys(cfg, select) then xs else []
  {
    assert Once(ActiveKeys(cfg, select), branch);
    OneBranch(cfg, branch, k, xs, ActiveKeys(cfg, select));
  }

  /** The AVX2 block contributes its own list when AVX2 is enabled. */
  lemma Avx2Contributes(cfg: Config, v: Value, k: string, xs: seq<Value>)
    requires v.Dict? && "avx2" in v.fields && v.fields["avx2"] == Dict(map[k := Many(xs)]) && k !in SELECT_KEYS
    ensures Contribution(cfg, v, "avx2", k) == if cfg.avx2 then xs else []
  {
    var block := v.fields["avx2"];
    LeafPlaces(cfg, k, xs, SELECT_KEYS);
    assert Places(cfg, block) == [[]];
    OwnPlace(block, k);
  }

  /** On Windows, the branches for hosts, for Windows, and for what is not Darwin or Fuchsia
      contribute in this order. */
  lemma WindowsTargetsInOrder(cfg: Config, v: Value, k: string, host: seq<Value>, windows: seq<Value>,
                              notDarwin: seq<Value>, notFuchsia: seq<Value>)
    requires v.Dict? && k !in SELECT_KEYS && cfg.os == "windows"
    requires "target" in v.fields && v.fields["target"] == Dict(map[
               "host" := Dict(map[k := Many(host)]), "windows" := Dict(map[k := Many(windows)]),
               "not_darwin" := Dict(map[k := Many(notDarwin)]), "not_fuchsia" := Dict(map[k := Many(notFuchsia)])])
    ensures Contribution(cfg, v, "target", k) == host + windows + notDarwin + notFuchsia
  {
    hide Gathered;
    var block, keys := v.fields["target"], ActiveKeys(cfg, "target");
    BranchStep(cfg, block, keys, k, host);
    BranchStep(cfg, block, keys[1..], k, windows);
    BranchStep(cfg, block, keys[1..][1..], k, notDarwin);
    BranchStep(cfg, block, keys[1..][1..][1..], k, notFuchsia);
    var last := keys[1..][1..][1..][1..];
    assert last == ["windows_" + cfg.arch];
    WithPrefix("windows_", cfg.arch, "windows");
    OtherPrefix("windows_", cfg.arch, "not_darwin", "", 0);
    OtherPrefix("windows_", cfg.arch, "not_fuchsia", "", 0);
    OtherPrefix("windows_", cfg.arch, "host", "", 0);
    assert "not_darwin" + "" == "not_darwin" && "not_fuchsia" + "" == "not_fuchsia" && "host" + "" == "host";
    assert last[0] !in block.fields && last[1..] == [];
    assert BranchPlaces(cfg, block, last) == [];
    GatheredNone(block, k);
  }

  lemma BranchStep(cfg: Config, block: Value, keys: seq<string>, k: string, xs: seq<Value>)
    requires block.Dict? && keys != [] && keys[0] in block.fields && k !in SELECT_KEYS
    requires block.fields[keys[0]] == Dict(map[k := Many(xs)])
    ensures Gathered(block, BranchPlaces(cfg, block, keys), k)
         == xs + Gathered(block, BranchPlaces(cfg, block, keys[1..]), k)
  {
    var leaf := block.fields[keys[0]];
    LeafPlaces(cfg, k, xs, SELECT_KEYS);
    assert Places(cfg, leaf) == [[]];
    OwnPlace(leaf, k);
    GatheredUnder(block, keys[0], [[]], k);
    GatheredConcat(block, Under(keys[0], [[]]), BranchPlaces(cfg, block, keys[1..]), k);
  }
}
