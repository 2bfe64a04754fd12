/** Evaluated property values and the deep merge that defaults and selects are combined with. */
module PropertyMaps {
  import opened Options

  datatype Scalar = Text(text: string) | Number(n: int) | Flag(on: bool) | Missing

  datatype Value =
    | One(scalar: Scalar)
    | Many(items: seq<Value>)
    | Dict(fields: map<string, Value>)

  type Properties = map<string, Value>

  /** What one key holds after merging v onto u: lists append, maps merge, else v wins. */
  function Join(u: Value, v: Value): (r: Value)
    ensures u.Dict? && v.Dict? ==> r.Dict?
    decreases v
  {
    if u.Many? && v.Many? then Many(u.items + v.items)
    else if u.Dict? && v.Dict? then
      Dict(map k | k in u.fields.Keys + v.fields.Keys ::
        if k !in v.fields then u.fields[k]
        else if k !in u.fields then v.fields[k]
        else Join(u.fields[k], v.fields[k]))
    else v
  }

  function Merge(a: Properties, b: Properties): Properties { Join(Dict(a), Dict(b)).fields }

  lemma MergeAt(a: Properties, b: Properties, k: string)
    requires k in a || k in b
    ensures k in Merge(a, b)
    ensures Merge(a, b)[k] == if k !in b then a[k] else if k !in a then b[k] else Join(a[k], b[k])
  {
  }

  /** The loop of `_deep_merge`. */
  method DeepMerge(a: Properties, b: Properties) returns (out: Properties)
    ensures out == Merge(a, b)
    decreases Dict(b), 1
  {
    out := a;
    var left := b.Keys;
    while left != {}
      invariant left <= b.Keys && out.Keys == a.Keys + (b.Keys - left)
      invariant forall k :: k in out ==> out[k] == if k in b && k !in left then Merge(a, b)[k] else a[k]
      decreases left
    {
      var k :| k in left;
      MergeAt(a, b, k);
      var merged := b[k];
      if k in out {
        merged := MergeOne(out[k], b[k]);
      }
      out := out[k := merged];
      left := left - {k};
    }
    assert Merge(a, b).Keys == a.Keys + b.Keys;
  }

  method MergeOne(u: Value, v: Value) returns (r: Value)
    ensures r == Join(u, v)
    decreases v, 2
  {
    if u.Many? && v.Many? {
      return Many(u.items + v.items);
    } else if u.Dict? && v.Dict? {
      var nested := DeepMerge(u.fields, v.fields);
      return Dict(nested);
    } else {
      return v;
    }
  }

  // What a merged map holds along a path of keys

  /** What v holds at the end of a path of keys, if the path leads anywhere. */
  function At(v: Value, path: seq<string>): Option<Value>
    decreases |path|
  {
    if path == [] then Some(v)
    else if v.Dict? && path[0] in v.fields then At(v.fields[path[0]], path[1..])
    else None
  }

  /** Something that is no map stands in v before the end of the path. */
  predicate Blocked(v: Value, path: seq<string>)
    decreases |path|
  {
    path != [] && (!v.Dict? || (path[0] in v.fields && Blocked(v.fields[path[0]], path[1..])))
  }

  /** At any depth, a merged map holds what the later map has there, joined to what the
      earlier one has there; and where the later map has nothing, what the earlier one has,
      unless the later one put something that is no map above it. */
  lemma {:induction false} MergedAlong(a: Properties, b: Properties, path: seq<string>)
    requires path != []
    ensures var before, after, merged := At(Dict(a), path), At(Dict(b), path), At(Dict(Merge(a, b)), path);
            && (after.Some? && before.Some? ==> merged == Some(Join(before.value, after.value)))
            && (after.Some? && before.None? ==> merged == after)
            && (after.None? && !Blocked(Dict(b), path) ==> merged == before)
            && (after.None? && Blocked(Dict(b), path) ==> merged == None)
    decreases |path|
  {
    var k, rest := path[0], path[1..];
    if k in a || k in b {
      MergeAt(a, b, k);
    }
    if k in a && k in b {
      var u, v := a[k], b[k];
      if rest != [] && u.Dict? && v.Dict? {
        MergedAlong(u.fields, v.fields, rest);
      } else if rest != [] {
        assert !u.Dict? ==> At(u, rest) == None;
        assert !v.Dict? ==> Blocked(v, rest);
      }
    }
  }

  /** Where both maps have lists at the end of a path, the merged map has the earlier map's
      items and then the later map's, each in their own order. */
  lemma ListsAppend(a: Properties, b: Properties, path: seq<string>, xs: seq<Value>, ys: seq<Value>)
    requires path != [] && At(Dict(a), path) == Some(Many(xs)) && At(Dict(b), path) == Some(Many(ys))
    ensures var merged := At(Dict(Merge(a, b)), path);
            && merged.Some? && merged.value.Many? && |merged.value.items| == |xs| + |ys|
            && (forall i :: 0 <= i < |xs| ==> merged.value.items[i] == xs[i])
            && (forall j :: 0 <= j < |ys| ==> merged.value.items[|xs| + j] == ys[j])
  {
    MergedAlong(a, b, path);
  }

  /** Where the later map has a scalar, so has the merged map. */
  lemma LaterScalarWins(a: Properties, b: Properties, path: seq<string>, x: Scalar)
    requires path != [] && At(Dict(b), path) == Some(One(x))
    ensures At(Dict(Merge(a, b)), path) == Some(One(x))
  {
    MergedAlong(a, b, path);
  }

  // Algebra

  /** The empty map changes nothing on either side. */
  lemma EmptyIsIdentity(a: Properties)
    ensures Merge(map[], a) == a && Merge(a, map[]) == a
  {
  }

  /** Merging w onto u leaves no trace of u: it has an empty list where w has a list, and
      where both have maps, its keys are in w and leave no trace there. */
  predicate Absorbed(u: Value, w: Value)
    decreases w
  {
    if u.Many? && w.Many? then u.items == []
    else if u.Dict? && w.Dict? then
      forall k :: k in u.fields ==> k in w.fields && Absorbed(u.fields[k], w.fields[k])
    else true
  }

  lemma {:induction false} AbsorbedExactlyWhen(u: Value, w: Value)
    ensures Join(u, w) == w <==> Absorbed(u, w)
    decreases w
  {
    if u.Many? && w.Many? {
      if u.items != [] {
        assert |u.items + w.items| != |w.items|;
      } else {
        assert u.items + w.items == w.items;
      }
    } else if u.Dict? && w.Dict? {
      var merged := Join(u, w).fields;
      forall k | k in u.fields && k in w.fields
        ensures merged[k] == w.fields[k] <==> Absorbed(u.fields[k], w.fields[k])
      {
        AbsorbedExactlyWhen(u.fields[k], w.fields[k]);
      }
      assert merged == w.fields <==> forall k :: k in u.fields ==> k in w.fields && merged[k] == w.fields[k];
    }
  }

  /** What stops the merge from being associative: somewhere the middle map replaces a list
      by something else, or a map by something else, that would have left a trace in what the
      last map has there. */
  predicate Clash(u: Value, v: Value, w: Value)
    decreases w
  {
    if (u.Many? && w.Many? && !v.Many?) || (u.Dict? && w.Dict? && !v.Dict?) then !Absorbed(u, w)
    else
      u.Dict? && v.Dict? && w.Dict?
      && exists k :: k in w.fields && k in u.fields && k in v.fields && Clash(u.fields[k], v.fields[k], w.fields[k])
  }

  /** The merge of three values is associative exactly when they do not clash. */
  lemma {:induction false} AssociativeExactlyWhen(u: Value, v: Value, w: Value)
    ensures Join(Join(u, v), w) == Join(u, Join(v, w)) <==> !Clash(u, v, w)
    decreases w
  {
    if u.Dict? && v.Dict? && w.Dict? {
      var left, right := Join(Join(u, v), w).fields, Join(u, Join(v, w)).fields;
      assert left.Keys == right.Keys;
      forall k | k in left
        ensures left[k] == right[k] <==>
                !(k in u.fields && k in v.fields && k in w.fields && Clash(u.fields[k], v.fields[k], w.fields[k]))
      {
        if k in u.fields && k in v.fields && k in w.fields {
          AssociativeExactlyWhen(u.fields[k], v.fields[k], w.fields[k]);
        }
      }
      assert left == right <==> forall k :: k in left ==> left[k] == right[k];
    } else {
      AbsorbedExactlyWhen(u, w);
    }
  }

  // One kind per key

  datatype Kind = Scalars | Lists | Maps(field: string -> Kind)

  /** Every value below v has the kind that the keys leading to it prescribe. */
  ghost predicate Conforms(kind: Kind, v: Value)
    decreases v
  {
    match v
    case One(_) => kind.Scalars?
    case Many(_) => kind.Lists?
    case Dict(fields) => kind.Maps? && forall k :: k in fields ==> Conforms(kind.field(k), fields[k])
  }

  lemma {:induction false} JoinConforms(kind: Kind, u: Value, v: Value)
    requires Conforms(kind, u) && Conforms(kind, v)
    ensures Conforms(kind, Join(u, v))
    decreases v
  {
    if v.Dict? {
      forall k | k in Join(u, v).fields
        ensures Conforms(kind.field(k), Join(u, v).fields[k])
      {
        if k in u.fields && k in v.fields {
          JoinConforms(kind.field(k), u.fields[k], v.fields[k]);
        }
      }
    }
  }

  lemma {:induction false} OneKindNoClash(kind: Kind, u: Value, v: Value, w: Value)
    requires Conforms(kind, u) && Conforms(kind, v) && Conforms(kind, w)
    ensures !Clash(u, v, w)
    decreases w
  {
    if w.Dict? {
      forall k | k in u.fields && k in v.fields && k in w.fields
        ensures !Clash(u.fields[k], v.fields[k], w.fields[k])
      {
        OneKindNoClash(kind.field(k), u.fields[k], v.fields[k], w.fields[k]);
      }
    }
  }

  /** With one kind per key the merge is associative. */
  lemma MergeAssociative(kind: Kind, a: Properties, b: Properties, c: Properties)
    requires Conforms(kind, Dict(a)) && Conforms(kind, Dict(b)) && Conforms(kind, Dict(c))
    ensures Merge(Merge(a, b), c) == Merge(a, Merge(b, c))
  {
    OneKindNoClash(kind, Dict(a), Dict(b), Dict(c));
    AssociativeExactlyWhen(Dict(a), Dict(b), Dict(c));
  }

  /** A list, then a scalar, then a list under one key: the grouping matters. */
  lemma MixedKindsDiffer(k: string, x: Value, s: Scalar)
    ensures var a, b := map[k := Many([x])], map[k := One(s)];
            && Merge(Merge(a, b), a)[k] == Many([x])
            && Merge(a, Merge(b, a))[k] == Many([x, x])
  {
    var a, b := map[k := Many([x])], map[k := One(s)];
    MergeAt(a, b, k);
    MergeAt(b, a, k);
    MergeAt(Merge(a, b), a, k);
    MergeAt(a, Merge(b, a), k);
  }
}
