/** Collapsing target, architecture and configuration selects, and the conservation of list
    entries through defaults and selects. */
module Selects {
  import opened Defaults
  import opened Options
  import opened PropertyMaps

  datatype Config = Config(os: string, arch: string, bitness: int, avx2: bool)

  const SELECT_KEYS: seq<string> := ["target", "arch", "multilib", "soong_config_variables", "codegen", "avx2"]

  function ActiveTargets(cfg: Config): seq<string> {
    if cfg.os == "windows" then ["host", "windows", "not_darwin", "not_fuchsia", "windows_" + cfg.arch]
    else ["host", "host_linux", "linux", "linux_glibc", "glibc", "not_windows", "not_darwin", "not_fuchsia",
          "linux_" + cfg.arch, "linux_glibc_" + cfg.arch, "glibc_" + cfg.arch]
  }

  function CodegenArches(cfg: Config): seq<string> {
    if cfg.arch == "x86_64" then ["x86_64", "x86"]
    else if cfg.arch == "arm64" then ["arm64", "arm"]
    else [cfg.arch]
  }

  function MultilibKey(cfg: Config): string { if cfg.bitness == 64 then "lib64" else "lib32" }

  /** The configuration variables that resolve to true. */
  const SET_VARIABLES: seq<string> := ["source_build"]

  /** The names of the branches of a select block that are active. */
  function ActiveKeys(cfg: Config, select: string): seq<string> {
    match select
    case "target" => ActiveTargets(cfg)
    case "arch" => [cfg.arch]
    case "multilib" => [MultilibKey(cfg)]
    case "codegen" => CodegenArches(cfg)
    case "soong_config_variables" => SET_VARIABLES
    case _ => []
  }

  // Collapsing

  function Plain(fields: Properties): (r: Properties) {
    map k | k in fields && k !in SELECT_KEYS :: fields[k]
  }

  /** The plain properties with every active branch, itself collapsed, merged in. */
  function Collapse(cfg: Config, v: Value): Properties
    requires v.Dict?
    decreases v, 1
  {
    CollapseSelects(cfg, v, SELECT_KEYS, Plain(v.fields))
  }

  function CollapseSelects(cfg: Config, v: Value, selects: seq<string>, out: Properties): Properties
    requires v.Dict?
    decreases v, 0, |selects|
  {
    if selects == [] then out
    else
      var s := selects[0];
      var next := if s in v.fields && v.fields[s].Dict? then CollapseBlock(cfg, s, v.fields[s], out) else out;
      CollapseSelects(cfg, v, selects[1..], next)
  }

  function CollapseBlock(cfg: Config, select: string, block: Value, out: Properties): Properties
    requires block.Dict?
    decreases block, 2
  {
    if select != "avx2" then CollapseKeys(cfg, block, ActiveKeys(cfg, select), out)
    else if cfg.avx2 then Merge(out, Collapse(cfg, block))
    else out
  }

  function CollapseKeys(cfg: Config, block: Value, keys: seq<string>, out: Properties): Properties
    requires block.Dict?
    decreases block, 0, |keys|
  {
    if keys == [] then out
    else
      var k := keys[0];
      var next :=
        if k in block.fields && block.fields[k].Dict? then Merge(out, Collapse(cfg, block.fields[k])) else out;
      CollapseKeys(cfg, block, keys[1..], next)
  }

  /** The loop of `_collapse_selects`. */
  method CollapseLoop(cfg: Config, v: Value) returns (out: Properties)
    requires v.Dict?
    ensures out == Collapse(cfg, v)
    decreases v, 1
  {
    out := Plain(v.fields);
    assert SELECT_KEYS[0..] == SELECT_KEYS;
    for i := 0 to |SELECT_KEYS|
      invariant CollapseSelects(cfg, v, SELECT_KEYS[i..], out) == Collapse(cfg, v)
    {
      var s := SELECT_KEYS[i];
      assert SELECT_KEYS[i..][1..] == SELECT_KEYS[i + 1..] && SELECT_KEYS[i..][0] == s;
      if s in v.fields && v.fields[s].Dict? {
        out := BranchLoop(cfg, s, v.fields[s], out);
      }
    }
  }

  method BranchLoop(cfg: Config, select: string, block: Value, base: Properties) returns (out: Properties)
    requires block.Dict?
    ensures out == CollapseBlock(cfg, select, block, base)
    decreases block, 2
  {
    out := base;
    if select == "avx2" {
      if cfg.avx2 {
        var branch := CollapseLoop(cfg, block);
        out := DeepMerge(out, branch);
      }
      return;
    }
    var keys := ActiveKeys(cfg, select);
    assert keys[0..] == keys;
    for i := 0 to |keys|
      invariant CollapseKeys(cfg, block, keys[i..], out) == CollapseKeys(cfg, block, keys, base)
    {
      var k := keys[i];
      assert keys[i..][1..] == keys[i + 1..] && keys[i..][0] == k;
      if k in block.fields && block.fields[k].Dict? {
        var branch := CollapseLoop(cfg, block.fields[k]);
        out := DeepMerge(out, branch);
      }
    }
  }

  // Conservation

  /** The entries of the list under key k. */
  function Own(fields: Properties, k: string): multiset<Value> {
    if k in fields && fields[k].Many? then multiset(fields[k].items) else multiset{}
  }

  /** The entries under k in v itself and in its active branches, at any depth. */
  function Total(cfg: Config, k: string, v: Value): multiset<Value>
    requires v.Dict?
    decreases v, 1
  {
    Own(v.fields, k) + TotalSelects(cfg, k, v, SELECT_KEYS)
  }

  function TotalSelects(cfg: Config, k: string, v: Value, selects: seq<string>): multiset<Value>
    requires v.Dict?
    decreases v, 0, |selects|
  {
    if selects == [] then multiset{} else TotalAt(cfg, k, v, selects[0]) + TotalSelects(cfg, k, v, selects[1..])
  }

  function TotalAt(cfg: Config, k: string, v: Value, select: string): multiset<Value>
    requires v.Dict?
    decreases v, 0, 0
  {
    if select in v.fields && v.fields[select].Dict? then TotalBlock(cfg, k, select, v.fields[select]) else multiset{}
  }

  function TotalBlock(cfg: Config, k: string, select: string, block: Value): multiset<Value>
    requires block.Dict?
    decreases block, 2
  {
    if select != "avx2" then TotalKeys(cfg, k, block, ActiveKeys(cfg, select))
    else if cfg.avx2 then Total(cfg, k, block)
    else multiset{}
  }

  function TotalKeys(cfg: Config, k: string, block: Value, keys: seq<string>): multiset<Value>
    requires block.Dict?
    decreases block, 0, |keys|
  {
    if keys == [] then multiset{} else TotalKey(cfg, k, block, keys[0]) + TotalKeys(cfg, k, block, keys[1..])
  }

  function TotalKey(cfg: Config, k: string, block: Value, key: string): multiset<Value>
    requires block.Dict?
    decreases block, 0, 0
  {
    if key in block.fields && block.fields[key].Dict? then Total(cfg, k, block.fields[key]) else multiset{}
  }

  predicate ListAt(fields: Properties, k: string) { k in fields ==> fields[k].Many? }

  /** In v and in its active branches, at any depth, k is a list wherever it is set. */
  ghost predicate ListOnly(cfg: Config, k: string, v: Value)
    requires v.Dict?
    decreases v, 1
  {
    && ListAt(v.fields, k)
    && forall s :: s in SELECT_KEYS && s in v.fields && v.fields[s].Dict? ==> ListBlock(cfg, k, s, v.fields[s])
  }

  ghost predicate ListBlock(cfg: Config, k: string, select: string, block: Value)
    requires block.Dict?
    decreases block, 2
  {
    if select == "avx2" then cfg.avx2 ==> ListOnly(cfg, k, block)
    else forall key :: key in ActiveKeys(cfg, select) && key in block.fields && block.fields[key].Dict?
           ==> ListOnly(cfg, k, block.fields[key])
  }

  lemma MergeOwn(a: Properties, b: Properties, k: string)
    requires ListAt(a, k) && ListAt(b, k)
    ensures ListAt(Merge(a, b), k) && Own(Merge(a, b), k) == Own(a, k) + Own(b, k)
  {
    if k in a || k in b {
      MergeAt(a, b, k);
    }
  }

  /** Collapsing keeps every entry of v and of its active branches, and adds none. */
  lemma {:induction false} CollapseConserves(cfg: Config, k: string, v: Value)
    requires v.Dict? && k !in SELECT_KEYS && ListOnly(cfg, k, v)
    ensures ListAt(Collapse(cfg, v), k) && Own(Collapse(cfg, v), k) == Total(cfg, k, v)
    decreases v, 1
  {
    SelectsConserve(cfg, k, v, SELECT_KEYS, Plain(v.fields));
  }

  lemma {:induction false} SelectsConserve(cfg: Config, k: string, v: Value, selects: seq<string>, out: Properties)
    requires v.Dict? && k !in SELECT_KEYS && ListOnly(cfg, k, v) && ListAt(out, k)
    requires forall s :: s in selects ==> s in SELECT_KEYS
    ensures ListAt(CollapseSelects(cfg, v, selects, out), k)
    ensures Own(CollapseSelects(cfg, v, selects, out), k) == Own(out, k) + TotalSelects(cfg, k, v, selects)
    decreases v, 0, |selects|
  {
    hide Merge, Own, ListAt;
    if selects != [] {
      var s := selects[0];
      assert s in selects && forall t :: t in selects[1..] ==> t in selects;
      if s in v.fields && v.fields[s].Dict? {
        BlockConserves(cfg, k, s, v.fields[s], out);
        SelectsConserve(cfg, k, v, selects[1..], CollapseBlock(cfg, s, v.fields[s], out));
      } else {
        SelectsConserve(cfg, k, v, selects[1..], out);
      }
    }
  }

  lemma {:induction false} BlockConserves(cfg: Config, k: string, select: string, block: Value, out: Properties)
    requires block.Dict? && k !in SELECT_KEYS && ListBlock(cfg, k, select, block) && ListAt(out, k)
    ensures ListAt(CollapseBlock(cfg, select, block, out), k)
    ensures Own(CollapseBlock(cfg, select, block, out), k) == Own(out, k) + TotalBlock(cfg, k, select, block)
    decreases block, 2
  {
    if select != "avx2" {
      KeysConserve(cfg, k, select, block, ActiveKeys(cfg, select), out);
    } else if cfg.avx2 {
      CollapseConserves(cfg, k, block);
      MergeOwn(out, Collapse(cfg, block), k);
    }
  }

  lemma {:induction false} KeysConserve(cfg: Config, k: string, select: string, block: Value, keys: seq<string>,
                                        out: Properties)
    requires block.Dict? && k !in SELECT_KEYS && ListAt(out, k)
    requires select != "avx2" && ListBlock(cfg, k, select, block)
    requires forall key :: key in keys ==> key in ActiveKeys(cfg, select)
    ensures ListAt(CollapseKeys(cfg, block, keys, out), k)
    ensures Own(CollapseKeys(cfg, block, keys, out), k) == Own(out, k) + TotalKeys(cfg, k, block, keys)
    decreases block, 0, |keys|
  {
    hide Merge, Own, ListAt;
    if keys != [] {
      var key := keys[0];
      assert key in keys && forall t :: t in keys[1..] ==> t in keys;
      if key in block.fields && block.fields[key].Dict? {
        CollapseConserves(cfg, k, block.fields[key]);
        MergeOwn(out, Collapse(cfg, block.fields[key]), k);
        KeysConserve(cfg, k, select, block, keys[1..], Merge(out, Collapse(cfg, block.fields[key])));
      } else {
        KeysConserve(cfg, k, select, block, keys[1..], out);
      }
    }
  }

  // Totals add up under merging

  lemma {:induction false} TotalJoin(cfg: Config, k: string, kind: Kind, u: Value, v: Value)
    requires u.Dict? && v.Dict? && Conforms(kind, u) && Conforms(kind, v) && k !in SELECT_KEYS
    requires ListOnly(cfg, k, u) && ListOnly(cfg, k, v)
    ensures ListOnly(cfg, k, Join(u, v))
    ensures Total(cfg, k, Join(u, v)) == Total(cfg, k, u) + Total(cfg, k, v)
    decreases v, 1
  {
    MergeOwn(u.fields, v.fields, k);
    TotalSelectsJoin(cfg, k, kind, u, v, SELECT_KEYS);
  }

  lemma {:induction false} TotalSelectsJoin(cfg: Config, k: string, kind: Kind, u: Value, v: Value,
                                            selects: seq<string>)
    requires u.Dict? && v.Dict? && Conforms(kind, u) && Conforms(kind, v) && k !in SELECT_KEYS
    requires ListOnly(cfg, k, u) && ListOnly(cfg, k, v)
    requires forall s :: s in selects ==> s in SELECT_KEYS
    ensures TotalSelects(cfg, k, Join(u, v), selects) ==
            TotalSelects(cfg, k, u, selects) + TotalSelects(cfg, k, v, selects)
    ensures var w := Join(u, v);
            forall s :: s in selects && s in w.fields && w.fields[s].Dict? ==> ListBlock(cfg, k, s, w.fields[s])
    decreases v, 0, |selects|
  {
    hide Total, Conforms;
    if selects != [] {
      assert selects[0] in selects && forall t :: t in selects[1..] ==> t in selects;
      TotalAtJoin(cfg, k, kind, u, v, selects[0]);
      TotalSelectsJoin(cfg, k, kind, u, v, selects[1..]);
    }
  }

  lemma {:induction false} TotalAtJoin(cfg: Config, k: string, kind: Kind, u: Value, v: Value, s: string)
    requires u.Dict? && v.Dict? && Conforms(kind, u) && Conforms(kind, v) && k !in SELECT_KEYS
    requires ListOnly(cfg, k, u) && ListOnly(cfg, k, v) && s in SELECT_KEYS
    ensures TotalAt(cfg, k, Join(u, v), s) == TotalAt(cfg, k, u, s) + TotalAt(cfg, k, v, s)
    ensures s in Join(u, v).fields && Join(u, v).fields[s].Dict? ==> ListBlock(cfg, k, s, Join(u, v).fields[s])
    decreases v, 0, 0
  {
    if s in u.fields && s in v.fields {
      var a, b := u.fields[s], v.fields[s];
      assert Conforms(kind.field(s), a) && Conforms(kind.field(s), b);
      if a.Dict? && b.Dict? {
        TotalBlockJoin(cfg, k, kind.field(s), a, b, s);
      }
    }
  }

  lemma {:induction false} TotalBlockJoin(cfg: Config, k: string, kind: Kind, u: Value, v: Value, s: string)
    requires u.Dict? && v.Dict? && Conforms(kind, u) && Conforms(kind, v) && k !in SELECT_KEYS
    requires ListBlock(cfg, k, s, u) && ListBlock(cfg, k, s, v)
    ensures TotalBlock(cfg, k, s, Join(u, v)) == TotalBlock(cfg, k, s, u) + TotalBlock(cfg, k, s, v)
    ensures ListBlock(cfg, k, s, Join(u, v))
    decreases v, 2
  {
    hide Total;
    if s == "avx2" {
      if cfg.avx2 {
        TotalJoin(cfg, k, kind, u, v);
      }
    } else {
      TotalKeysJoin(cfg, k, kind, u, v, s, ActiveKeys(cfg, s));
    }
  }

  lemma {:induction false} TotalKeysJoin(cfg: Config, k: string, kind: Kind, u: Value, v: Value, s: string,
                                         keys: seq<string>)
    requires u.Dict? && v.Dict? && Conforms(kind, u) && Conforms(kind, v) && k !in SELECT_KEYS && s != "avx2"
    requires ListBlock(cfg, k, s, u) && ListBlock(cfg, k, s, v)
    requires forall key :: key in keys ==> key in ActiveKeys(cfg, s)
    ensures TotalKeys(cfg, k, Join(u, v), keys) == TotalKeys(cfg, k, u, keys) + TotalKeys(cfg, k, v, keys)
    ensures var w := Join(u, v);
            forall key :: key in keys && key in w.fields && w.fields[key].Dict? ==> ListOnly(cfg, k, w.fields[key])
    decreases v, 0, |keys|
  {
    hide Total, ListOnly, ActiveKeys;
    if keys != [] {
      hide ListBlock, Join;
      assert keys[0] in keys && forall t :: t in keys[1..] ==> t in keys;
      TotalKeysJoin(cfg, k, kind, u, v, s, keys[1..]);
      TotalKeyJoin(cfg, k, kind, u, v, s, keys[0]);
    }
  }

  lemma {:induction false} TotalKeyJoin(cfg: Config, k: string, kind: Kind, u: Value, v: Value, s: string, key: string)
    requires u.Dict? && v.Dict? && Conforms(kind, u) && Conforms(kind, v) && k !in SELECT_KEYS && s != "avx2"
    requires ListBlock(cfg, k, s, u) && ListBlock(cfg, k, s, v) && key in ActiveKeys(cfg, s)
    ensures TotalKey(cfg, k, Join(u, v), key) == TotalKey(cfg, k, u, key) + TotalKey(cfg, k, v, key)
    ensures var w := Join(u, v); key in w.fields && w.fields[key].Dict? ==> ListOnly(cfg, k, w.fields[key])
    decreases v, 0, 0
  {
    hide Total, ListOnly, ActiveKeys;
    if key in u.fields && key in v.fields {
      var a, b := u.fields[key], v.fields[key];
      assert Conforms(kind.field(key), a) && Conforms(kind.field(key), b);
      if a.Dict? && b.Dict? {
        TotalJoin(cfg, k, kind.field(key), a, b);
      }
    }
  }

  ghost function TotalOf(cfg: Config, k: string, maps: seq<Properties>): multiset<Value> {
    if maps == [] then multiset{} else Total(cfg, k, Dict(maps[0])) + TotalOf(cfg, k, maps[1..])
  }

  lemma {:induction false} FoldTotal(cfg: Config, k: string, kind: Kind, a: Properties, maps: seq<Properties>)
    requires Conforms(kind, Dict(a)) && AllConform(kind, maps) && k !in SELECT_KEYS
    requires ListOnly(cfg, k, Dict(a)) && forall m :: m in maps ==> ListOnly(cfg, k, Dict(m))
    ensures ListOnly(cfg, k, Dict(Fold(a, maps)))
    ensures Total(cfg, k, Dict(Fold(a, maps))) == Total(cfg, k, Dict(a)) + TotalOf(cfg, k, maps)
    decreases |maps|
  {
    if maps != [] {
      assert maps[0] in maps && forall m :: m in maps[1..] ==> m in maps;
      JoinConforms(kind, Dict(a), Dict(maps[0]));
      TotalJoin(cfg, k, kind, Dict(a), Dict(maps[0]));
      FoldTotal(cfg, k, kind, Merge(a, maps[0]), maps[1..]);
    }
  }

  /** A module's properties: defaults expanded, selects collapsed. */
  method Resolve(cfg: Config, d: Decls, depth: nat, name: string) returns (r: Option<Properties>)
    ensures r.Some? == PropMap(d, depth, name).Some?
    ensures r.Some? ==> r.value == Collapse(cfg, Dict(PropMap(d, depth, name).value))
  {
    var merged := ResolvePropMap(d, depth, name);
    if merged == None {
      return None;
    }
    var collapsed := CollapseLoop(cfg, Dict(merged.value));
    return Some(collapsed);
  }

  /** Under a list-valued key, the resolved module holds exactly the entries written in the
      module, in its transitive defaults, and in all their active branches at any depth. */
  lemma EntriesConserved(cfg: Config, k: string, kind: Kind, d: Decls, depth: nat, name: string)
    requires DeclsConform(kind, d) && k !in SELECT_KEYS
    requires PropMap(d, depth, name).Some?
    requires Flat(d, depth, name).Some? ==> forall m :: m in Flat(d, depth, name).value ==> ListOnly(cfg, k, Dict(m))
    ensures Flat(d, depth, name).Some?
    ensures Own(Collapse(cfg, Dict(PropMap(d, depth, name).value)), k) == TotalOf(cfg, k, Flat(d, depth, name).value)
  {
    ResolutionIsFold(kind, d, depth, name);
    var maps := Flat(d, depth, name).value;
    FlatConforms(kind, d, depth, name);
    EmptyTotal(cfg, k, SELECT_KEYS);
    FoldTotal(cfg, k, kind, map[], maps);
    CollapseConserves(cfg, k, Dict(Fold(map[], maps)));
  }

  lemma {:induction false} EmptyTotal(cfg: Config, k: string, selects: seq<string>)
    ensures TotalSelects(cfg, k, Dict(map[]), selects) == multiset{}
  {
    if selects != [] {
      EmptyTotal(cfg, k, selects[1..]);
    }
  }
}
