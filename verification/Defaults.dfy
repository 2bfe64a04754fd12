/** Defaults inheritance: a module's property map with its defaults merged in first,
    recursively. Property expressions are evaluated already. */
module Defaults {
  import opened Options
  import opened PropertyMaps

  /** The declared modules' own properties, and the order in which a map's keys were written. */
  datatype Decls = Decls(modules: map<string, Properties>, keys: map<string, Value> -> seq<string>)

  /** The names a list of values gives; None when one of them is no string. */
  function Names(items: seq<Value>): Option<seq<string>> {
    if items == [] then Some([])
    else
      match Names(items[1..])
      case None => None
      case Some(rest) =>
        if items[0].One? && items[0].scalar.Text? then Some([items[0].scalar.text] + rest) else None
  }

  /** A list names its items' texts, one by one, when all of them are texts. */
  lemma {:induction false} NamesOneByOne(items: seq<Value>)
    ensures Names(items).Some? <==>
            forall i :: 0 <= i < |items| ==> items[i].One? && items[i].scalar.Text?
    ensures Names(items).Some? ==>
              |Names(items).value| == |items|
              && forall i :: 0 <= i < |items| ==> items[i] == One(Text(Names(items).value[i]))
  {
    if items != [] {
      NamesOneByOne(items[1..]);
      assert forall i :: 0 <= i < |items| - 1 ==> items[1..][i] == items[i + 1];
      if Names(items).Some? {
        assert Names(items).value == [items[0].scalar.text] + Names(items[1..]).value;
      }
    }
  }

  function Letters(text: string): seq<string> { seq(|text|, i requires 0 <= i < |text| => [text[i]]) }

  /** What iterating over the `defaults` property yields; an absent or empty one yields
      nothing, a string its letters, a map its keys, and any other value cannot be iterated. */
  function DefaultNames(d: Decls, name: string): Option<seq<string>>
    requires name in d.modules
  {
    var raw := d.modules[name];
    if "defaults" !in raw then Some([])
    else
      match raw["defaults"]
      case Many(items) => Names(items)
      case One(Text(text)) => Some(Letters(text))
      case One(Number(n)) => if n == 0 then Some([]) else None
      case One(Flag(on)) => if on then None else Some([])
      case One(Missing) => Some([])
      case Dict(fields) => Some(if fields == map[] then [] else d.keys(fields))
  }

  function NamesOf(d: Decls, name: string): seq<string>
    requires name in d.modules
  {
    if DefaultNames(d, name).Some? then DefaultNames(d, name).value else []
  }

  /** Defaults first, then the module's own properties, with `depth` calls of
      `_resolve_propmap` left on the stack; None where that function raises. */
  function PropMap(d: Decls, depth: nat, name: string): Option<Properties>
    decreases depth, 0
  {
    if depth == 0 || name !in d.modules || DefaultNames(d, name) == None then None
    else
      match MergeDefaults(d, depth - 1, NamesOf(d, name), map[])
      case None => None
      case Some(merged) => Some(Merge(merged, d.modules[name]))
  }

  function MergeDefaults(d: Decls, depth: nat, names: seq<string>, merged: Properties): Option<Properties>
    decreases depth, 1, |names|
  {
    if names == [] then Some(merged)
    else
      match PropMap(d, depth, names[0])
      case None => None
      case Some(base) => MergeDefaults(d, depth, names[1..], Merge(merged, base))
  }

  method ResolvePropMap(d: Decls, depth: nat, name: string) returns (r: Option<Properties>)
    ensures r == PropMap(d, depth, name)
    decreases depth
  {
    if depth == 0 || name !in d.modules {
      return None;
    }
    var names := DefaultNames(d, name);
    if names == None {
      return None;
    }
    var merged: Properties := map[];
    ghost var all := names.value;
    assert all[0..] == all;
    for i := 0 to |names.value|
      invariant MergeDefaults(d, depth - 1, all[i..], merged) == MergeDefaults(d, depth - 1, all, map[])
    {
      assert all[i..][1..] == all[i + 1..] && all[i..][0] == all[i];
      var base := ResolvePropMap(d, depth - 1, names.value[i]);
      if base == None {
        return None;
      }
      merged := DeepMerge(merged, base.value);
    }
    r := Some(Merge(merged, d.modules[name]));
  }

  // When resolution succeeds

  /** Each name after the first is a default of the one before it. */
  ghost predicate Chain(d: Decls, p: seq<string>) {
    p != [] && forall i :: 0 <= i < |p| - 1 ==> p[i] in d.modules && p[i + 1] in NamesOf(d, p[i])
  }

  predicate Known(d: Decls, name: string) { name in d.modules && DefaultNames(d, name).Some? }

  /** Every chain of defaults from the name is short enough and ends in a known module. */
  ghost predicate ChainsFit(d: Decls, depth: nat, name: string) {
    forall p :: Chain(d, p) && p[0] == name ==> |p| <= depth && Known(d, p[|p| - 1])
  }

  lemma ChainBefore(d: Decls, name: string, b: string, p: seq<string>)
    requires name in d.modules && b in NamesOf(d, name) && Chain(d, p) && p[0] == b
    ensures Chain(d, [name] + p)
  {
    var q := [name] + p;
    forall i | 0 <= i < |q| - 1
      ensures q[i] in d.modules && q[i + 1] in NamesOf(d, q[i])
    {
      assert i > 0 ==> q[i] == p[i - 1] && q[i + 1] == p[i];
    }
  }

  lemma ChainAfter(d: Decls, p: seq<string>)
    requires Chain(d, p) && |p| > 1
    ensures Chain(d, p[1..]) && p[0] in d.modules && p[1] in NamesOf(d, p[0])
  {
    var q := p[1..];
    forall i | 0 <= i < |q| - 1
      ensures q[i] in d.modules && q[i + 1] in NamesOf(d, q[i])
    {
      assert q[i] == p[i + 1] && q[i + 1] == p[i + 2];
    }
  }

  lemma FitsBelow(d: Decls, depth: nat, name: string, b: string)
    requires ChainsFit(d, depth, name) && name in d.modules && b in NamesOf(d, name)
    ensures depth > 0 && ChainsFit(d, depth - 1, b)
  {
    assert Chain(d, [name]);
    forall p | Chain(d, p) && p[0] == b
      ensures |p| <= depth - 1 && Known(d, p[|p| - 1])
    {
      ChainBefore(d, name, b, p);
      assert ([name] + p)[|p|] == p[|p| - 1];
    }
  }

  lemma FitsStart(d: Decls, depth: nat, name: string)
    requires ChainsFit(d, depth, name)
    ensures depth > 0 && Known(d, name)
  {
    assert Chain(d, [name]);
  }

  lemma FitsAbove(d: Decls, depth: nat, name: string)
    requires depth > 0 && Known(d, name) && forall b :: b in NamesOf(d, name) ==> ChainsFit(d, depth - 1, b)
    ensures ChainsFit(d, depth, name)
  {
    forall p | Chain(d, p) && p[0] == name
      ensures |p| <= depth && Known(d, p[|p| - 1])
    {
      if |p| > 1 {
        ChainAfter(d, p);
        assert ChainsFit(d, depth - 1, p[1]);
      }
    }
  }

  /** A chain from the name goes on from one of its defaults. */
  lemma FitsExactlyWhen(d: Decls, depth: nat, name: string)
    ensures ChainsFit(d, depth, name) <==>
            depth > 0 && Known(d, name) && forall b :: b in NamesOf(d, name) ==> ChainsFit(d, depth - 1, b)
  {
    hide ChainsFit;
    if ChainsFit(d, depth, name) {
      FitsStart(d, depth, name);
      forall b | b in NamesOf(d, name)
        ensures ChainsFit(d, depth - 1, b)
      {
        FitsBelow(d, depth, name, b);
      }
    } else if depth > 0 && Known(d, name) && forall b :: b in NamesOf(d, name) ==> ChainsFit(d, depth - 1, b) {
      FitsAbove(d, depth, name);
    }
  }

  /** Resolution succeeds exactly when every chain of defaults fits the stack and ends in a
      known module. */
  lemma {:induction false} ResolvesExactlyWhen(d: Decls, depth: nat, name: string)
    ensures PropMap(d, depth, name).Some? <==> ChainsFit(d, depth, name)
    decreases depth, 0
  {
    hide ChainsFit;
    FitsExactlyWhen(d, depth, name);
    if depth > 0 && Known(d, name) {
      DefaultsResolveExactlyWhen(d, depth - 1, NamesOf(d, name), map[]);
    }
  }

  lemma {:induction false} DefaultsResolveExactlyWhen(d: Decls, depth: nat, names: seq<string>, merged: Properties)
    ensures MergeDefaults(d, depth, names, merged).Some? <==> forall b :: b in names ==> ChainsFit(d, depth, b)
    decreases depth, 1, |names|
  {
    hide ChainsFit;
    if names != [] {
      assert names == [names[0]] + names[1..];
      ResolvesExactlyWhen(d, depth, names[0]);
      if PropMap(d, depth, names[0]).Some? {
        DefaultsResolveExactlyWhen(d, depth, names[1..], Merge(merged, PropMap(d, depth, names[0]).value));
      }
    }
  }

  /** A deeper stack gives the same properties. */
  lemma {:induction false} DeeperSame(d: Decls, depth: nat, more: nat, name: string)
    requires PropMap(d, depth, name).Some? && depth <= more
    ensures PropMap(d, more, name) == PropMap(d, depth, name)
    decreases depth, 0
  {
    hide MergeDefaults, Merge;
    DefaultsDeeperSame(d, depth - 1, more - 1, NamesOf(d, name), map[]);
  }

  lemma {:induction false} DefaultsDeeperSame(d: Decls, depth: nat, more: nat, names: seq<string>, merged: Properties)
    requires MergeDefaults(d, depth, names, merged).Some? && depth <= more
    ensures MergeDefaults(d, more, names, merged) == MergeDefaults(d, depth, names, merged)
    decreases depth, 1, |names|
  {
    if names != [] {
      DeeperSame(d, depth, more, names[0]);
      DefaultsDeeperSame(d, depth, more, names[1..], Merge(merged, PropMap(d, depth, names[0]).value));
    }
  }

  /** A ranking that falls from every module to its defaults: no module inherits from itself. */
  ghost predicate Ranked(d: Decls, rank: map<string, nat>) {
    && rank.Keys == d.modules.Keys
    && forall n, b :: n in d.modules && b in d.modules && b in NamesOf(d, n) ==> rank[b] < rank[n]
  }

  /** With acyclic defaults, a stack deeper than the rank never runs out: resolution fails
      only for a chain that ends in an unknown module. */
  lemma AcyclicResolves(d: Decls, rank: map<string, nat>, depth: nat, name: string)
    requires Ranked(d, rank) && name in d.modules && depth > rank[name] + 1
    ensures PropMap(d, depth, name).Some? <==> forall p :: Chain(d, p) && p[0] == name ==> Known(d, p[|p| - 1])
  {
    ResolvesExactlyWhen(d, depth, name);
    forall p | Chain(d, p) && p[0] == name
      ensures |p| <= depth
    {
      RankBounds(d, rank, p);
    }
  }

  lemma {:induction false} RankBounds(d: Decls, rank: map<string, nat>, p: seq<string>)
    requires Ranked(d, rank) && Chain(d, p) && p[0] in d.modules
    ensures |p| <= rank[p[0]] + 2
    decreases |p|
  {
    if |p| > 1 {
      ChainAfter(d, p);
      if p[1] in d.modules {
        RankBounds(d, rank, p[1..]);
      }
    }
  }

  /** A module that inherits from itself exhausts every stack. */
  lemma CyclicFails(d: Decls, depth: nat, p: seq<string>)
    requires Chain(d, p) && |p| > 1 && p[0] == p[|p| - 1]
    ensures PropMap(d, depth, p[0]) == None
  {
    ResolvesExactlyWhen(d, depth, p[0]);
    var q := LongChain(d, p, depth);
  }

  lemma {:induction false} LongChain(d: Decls, p: seq<string>, n: nat) returns (q: seq<string>)
    requires Chain(d, p) && |p| > 1 && p[0] == p[|p| - 1]
    ensures Chain(d, q) && q[0] == p[0] && |q| > n
  {
    if n == 0 {
      q := p;
    } else {
      var r := LongChain(d, p, n - 1);
      q := p + r[1..];
      forall i | 0 <= i < |q| - 1
        ensures q[i] in d.modules && q[i + 1] in NamesOf(d, q[i])
      {
        if i >= |p| - 1 {
          assert q[i] == r[i - |p| + 1] && q[i + 1] == r[i - |p| + 2];
        }
      }
    }
  }

  // The flattened list of raw property maps

  function Flat(d: Decls, depth: nat, name: string): Option<seq<Properties>>
    decreases depth, 0
  {
    if depth == 0 || name !in d.modules || DefaultNames(d, name) == None then None
    else
      match FlatAll(d, depth - 1, NamesOf(d, name))
      case None => None
      case Some(maps) => Some(maps + [d.modules[name]])
  }

  function FlatAll(d: Decls, depth: nat, names: seq<string>): Option<seq<Properties>>
    decreases depth, 1, |names|
  {
    if names == [] then Some([])
    else
      match Flat(d, depth, names[0])
      case None => None
      case Some(first) =>
        match FlatAll(d, depth, names[1..])
        case None => None
        case Some(rest) => Some(first + rest)
  }

  function Concat<T>(parts: seq<seq<T>>): seq<T> {
    if parts == [] then [] else parts[0] + Concat(parts[1..])
  }

  /** The flattened list has the flattened lists of the defaults, in the order in which the
      defaults are written, and then the module's own map. */
  lemma FlatInOrder(d: Decls, depth: nat, name: string, names: seq<string>) returns (parts: seq<seq<Properties>>)
    requires name in d.modules && DefaultNames(d, name) == Some(names) && depth > 0 && Flat(d, depth, name).Some?
    ensures |parts| == |names|
    ensures forall i :: 0 <= i < |names| ==> Flat(d, depth - 1, names[i]) == Some(parts[i])
    ensures Flat(d, depth, name).value == Concat(parts) + [d.modules[name]]
  {
    parts := FlatAllInOrder(d, depth - 1, names);
  }

  lemma {:induction false} FlatAllInOrder(d: Decls, depth: nat, names: seq<string>)
      returns (parts: seq<seq<Properties>>)
    requires FlatAll(d, depth, names).Some?
    ensures |parts| == |names| && FlatAll(d, depth, names).value == Concat(parts)
    ensures forall i :: 0 <= i < |names| ==> Flat(d, depth, names[i]) == Some(parts[i])
    decreases |names|
  {
    hide Flat;
    if names == [] {
      parts := [];
    } else {
      var rest := FlatAllInOrder(d, depth, names[1..]);
      parts := [Flat(d, depth, names[0]).value] + rest;
      assert forall i :: 0 < i < |names| ==> names[i] == names[1..][i - 1];
      assert parts[1..] == rest;
    }
  }

  function Fold(a: Properties, maps: seq<Properties>): Properties
    decreases |maps|
  {
    if maps == [] then a else Fold(Merge(a, maps[0]), maps[1..])
  }

  lemma {:induction false} FoldConcat(a: Properties, xs: seq<Properties>, ys: seq<Properties>)
    ensures Fold(a, xs + ys) == Fold(Fold(a, xs), ys)
    decreases |xs|
  {
    if xs == [] {
      assert xs + ys == ys;
    } else {
      assert (xs + ys)[1..] == xs[1..] + ys;
      FoldConcat(Merge(a, xs[0]), xs[1..], ys);
    }
  }

  ghost predicate AllConform(kind: Kind, maps: seq<Properties>) {
    forall m :: m in maps ==> Conforms(kind, Dict(m))
  }

  lemma {:induction false} FoldConforms(kind: Kind, a: Properties, maps: seq<Properties>)
    requires Conforms(kind, Dict(a)) && AllConform(kind, maps)
    ensures Conforms(kind, Dict(Fold(a, maps)))
    decreases |maps|
  {
    if maps != [] {
      assert maps[0] in maps && forall m :: m in maps[1..] ==> m in maps;
      JoinConforms(kind, Dict(a), Dict(maps[0]));
      FoldConforms(kind, Merge(a, maps[0]), maps[1..]);
    }
  }

  /** Merging onto a commutes with folding. */
  lemma {:induction false} FoldMerge(kind: Kind, a: Properties, b: Properties, maps: seq<Properties>)
    requires Conforms(kind, Dict(a)) && Conforms(kind, Dict(b)) && AllConform(kind, maps)
    ensures Fold(Merge(a, b), maps) == Merge(a, Fold(b, maps))
    decreases |maps|
  {
    if maps != [] {
      assert maps[0] in maps && forall m :: m in maps[1..] ==> m in maps;
      MergeAssociative(kind, a, b, maps[0]);
      JoinConforms(kind, Dict(b), Dict(maps[0]));
      FoldMerge(kind, a, Merge(b, maps[0]), maps[1..]);
    }
  }

  ghost predicate DeclsConform(kind: Kind, d: Decls) {
    kind.Maps? && forall n :: n in d.modules ==> Conforms(kind, Dict(d.modules[n]))
  }

  lemma {:induction false} FlatConforms(kind: Kind, d: Decls, depth: nat, name: string)
    requires DeclsConform(kind, d)
    ensures Flat(d, depth, name).Some? ==> AllConform(kind, Flat(d, depth, name).value)
    decreases depth, 0
  {
    if Flat(d, depth, name).Some? {
      FlatAllConforms(kind, d, depth - 1, NamesOf(d, name));
    }
  }

  lemma {:induction false} FlatAllConforms(kind: Kind, d: Decls, depth: nat, names: seq<string>)
    requires DeclsConform(kind, d)
    ensures FlatAll(d, depth, names).Some? ==> AllConform(kind, FlatAll(d, depth, names).value)
    decreases depth, 1, |names|
  {
    if names != [] && FlatAll(d, depth, names).Some? {
      FlatConforms(kind, d, depth, names[0]);
      FlatAllConforms(kind, d, depth, names[1..]);
    }
  }

  /** Nested resolution is one left fold of the merge over the flattened list of raw maps. */
  lemma {:induction false} ResolutionIsFold(kind: Kind, d: Decls, depth: nat, name: string)
    requires DeclsConform(kind, d)
    ensures PropMap(d, depth, name) ==
            match Flat(d, depth, name) case None => None case Some(maps) => Some(Fold(map[], maps))
    decreases depth, 0
  {
    if depth > 0 && name in d.modules && DefaultNames(d, name).Some? {
      var names := NamesOf(d, name);
      DefaultsAreFold(kind, d, depth - 1, names, map[]);
      if Flat(d, depth, name).Some? {
        FoldConcat(map[], FlatAll(d, depth - 1, names).value, [d.modules[name]]);
      }
    }
  }

  lemma {:induction false} DefaultsAreFold(kind: Kind, d: Decls, depth: nat, names: seq<string>, merged: Properties)
    requires DeclsConform(kind, d) && Conforms(kind, Dict(merged))
    ensures MergeDefaults(d, depth, names, merged) ==
            match FlatAll(d, depth, names) case None => None case Some(maps) => Some(Fold(merged, maps))
    decreases depth, 1, |names|
  {
    if names != [] {
      ResolutionIsFold(kind, d, depth, names[0]);
      if Flat(d, depth, names[0]).Some? {
        var first := Flat(d, depth, names[0]).value;
        FirstDefault(kind, d, depth, names[0], merged, first);
        DefaultsAreFold(kind, d, depth, names[1..], Fold(merged, first));
        if FlatAll(d, depth, names[1..]).Some? {
          FoldConcat(merged, first, FlatAll(d, depth, names[1..]).value);
        }
      }
    }
  }

  lemma FirstDefault(kind: Kind, d: Decls, depth: nat, name: string, merged: Properties, maps: seq<Properties>)
    requires DeclsConform(kind, d) && Conforms(kind, Dict(merged))
    requires Flat(d, depth, name) == Some(maps)
    ensures Conforms(kind, Dict(Fold(merged, maps)))
    ensures Merge(merged, Fold(map[], maps)) == Fold(merged, maps)
  {
    FlatConforms(kind, d, depth, name);
    FoldConforms(kind, merged, maps);
    FoldMerge(kind, merged, map[], maps);
    EmptyIsIdentity(merged);
  }
}
