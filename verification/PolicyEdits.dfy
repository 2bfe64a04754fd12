/** The emitter's dependency edits, applied to a resolved module in place, and how they
    compare with the closure walk's. */
module PolicyEdits {
  import opened Reachability
  import opened BuildGraph

  function Elements(s: seq<string>): (r: set<string>)
    ensures forall x :: x in r <==> x in s
  {
    set x | x in s
  }

  /** Appending one at a time whatever is not there yet. */
  function Extended(libs: seq<string>, add: seq<string>): (r: seq<string>)
    ensures forall x :: x in r <==> x in libs || x in add
  {
    libs + Deduped(add, Elements(libs))
  }

  function InPlace(libs: seq<string>, remove: seq<string>, add: seq<string>): (r: seq<string>)
    ensures forall x :: x in r <==> (x in libs && x !in remove) || x in add
  {
    Extended(Without(libs, remove), add)
  }

  // The edits, on the lists of one module

  function FirstIndex(s: seq<string>, x: string): (i: nat)
    requires x in s
    ensures i < |s| && s[i] == x && x !in s[..i]
  {
    if s[0] == x then 0
    else
      var i := FirstIndex(s[1..], x) + 1;
      assert s[..i] == [s[0]] + s[1..][..i - 1];
      i
  }

  /** Dropping one occurrence of x does not matter to what drops all of them. */
  lemma {:induction false} WithoutOne(s: seq<string>, i: nat)
    requires i < |s|
    ensures Without(s[..i] + s[i + 1..], [s[i]]) == Without(s, [s[i]])
  {
    if i == 0 {
      assert s[..0] + s[1..] == s[1..];
    } else {
      var dropped := s[..i] + s[i + 1..];
      assert dropped[1..] == s[1..][..i - 1] + s[1..][i..];
      WithoutOne(s[1..], i - 1);
      assert dropped[0] == s[0];
    }
  }

  lemma {:induction false} WithoutNone(s: seq<string>, out: seq<string>)
    requires forall x :: x in s ==> x !in out
    ensures Without(s, out) == s
  {
    if s != [] {
      assert s[0] in s;
      assert forall x :: x in s[1..] ==> x in s;
      WithoutNone(s[1..], out);
    }
  }

  lemma {:induction false} WithoutTwice(s: seq<string>, a: seq<string>, b: seq<string>)
    ensures Without(Without(s, a), b) == Without(s, a + b)
  {
    if s != [] {
      WithoutTwice(s[1..], a, b);
    }
  }

  method RemoveEvery(list: seq<string>, x: string) returns (r: seq<string>)
    ensures r == Without(list, [x])
  {
    r := list;
    while x in r
      invariant Without(r, [x]) == Without(list, [x])
      decreases |r|
    {
      var i := FirstIndex(r, x);
      WithoutOne(r, i);
      r := r[..i] + r[i + 1..];
    }
    WithoutNone(r, [x]);
  }

  method RemoveListed(list: seq<string>, remove: seq<string>) returns (r: seq<string>)
    ensures r == Without(list, remove)
  {
    r := list;
    WithoutNone(list, []);
    for i := 0 to |remove|
      invariant r == Without(list, remove[..i])
    {
      WithoutTwice(list, remove[..i], [remove[i]]);
      assert remove[..i + 1] == remove[..i] + [remove[i]];
      r := RemoveEvery(r, remove[i]);
    }
    assert remove[..|remove|] == remove;
  }

  method ExtendWith(list: seq<string>, add: seq<string>) returns (r: seq<string>)
    ensures r == Extended(list, add)
  {
    r := list;
    assert add[0..] == add;
    for i := 0 to |add|
      invariant Extended(list, add) == r + Deduped(add[i..], Elements(r))
    {
      assert add[i..][1..] == add[i + 1..] && add[i..][0] == add[i];
      if add[i] !in r {
        assert Elements(r + [add[i]]) == Elements(r) + {add[i]};
        r := r + [add[i]];
      }
    }
  }

  /** The lists of a resolved module that a policy edits. */
  class Lists {
    var srcs: seq<string>
    var sharedLibs: seq<string>
    var staticLibs: seq<string>

    constructor (m: Module)
      ensures srcs == m.srcs && sharedLibs == m.sharedLibs && staticLibs == m.staticLibs
    {
      srcs, sharedLibs, staticLibs := m.srcs, m.sharedLibs, m.staticLibs;
    }

    method ApplyPolicy(p: Policy)
      modifies this
      ensures srcs == InPlace(old(srcs), p.removeSrcs, p.addSrcs)
      ensures sharedLibs == InPlace(old(sharedLibs), p.removeSharedLibs, p.addSharedLibs)
      ensures staticLibs == InPlace(old(staticLibs), p.removeStaticLibs, p.addStaticLibs)
    {
      srcs := RemoveListed(srcs, p.removeSrcs);
      srcs := ExtendWith(srcs, p.addSrcs);
      sharedLibs := RemoveListed(sharedLibs, p.removeSharedLibs);
      sharedLibs := ExtendWith(sharedLibs, p.addSharedLibs);
      staticLibs := RemoveListed(staticLibs, p.removeStaticLibs);
      staticLibs := ExtendWith(staticLibs, p.addStaticLibs);
    }
  }

  // The two implementations compared

  lemma {:induction false} DedupedOfNovel(add: seq<string>, kept: seq<string>, seen: set<string>)
    ensures Deduped(add, Elements(kept) + seen) == Deduped(Without(add, kept), seen)
  {
    if add != [] {
      if add[0] in kept || add[0] in seen {
        DedupedOfNovel(add[1..], kept, seen);
      } else {
        DedupedOfNovel(add[1..], kept, seen + {add[0]});
        assert Elements(kept) + seen + {add[0]} == Elements(kept) + (seen + {add[0]});
      }
    }
  }

  lemma {:induction false} DedupedKeeps(s: seq<string>, seen: set<string>)
    requires NoDuplicates(s) && forall x :: x in s ==> x !in seen
    ensures Deduped(s, seen) == s
  {
    if s != [] {
      assert s[0] in s;
      forall x | x in s[1..]
        ensures x in s && x != s[0]
      {
        var i :| 0 <= i < |s| - 1 && s[1..][i] == x;
        assert s[i + 1] == x;
      }
      DedupedKeeps(s[1..], seen + {s[0]});
    }
  }

  /** The closure walk and the emitter see the same dependencies of a module, whatever the
      policy; they see them as the same list exactly when the additions that are new do not
      repeat themselves. */
  lemma EditsAgree(libs: seq<string>, remove: seq<string>, add: seq<string>)
    ensures Elements(Edited(libs, remove, add)) == Elements(InPlace(libs, remove, add))
    ensures Edited(libs, remove, add) == InPlace(libs, remove, add)
       <==> NoDuplicates(Without(add, Without(libs, remove)))
  {
    var kept := Without(libs, remove);
    var novel := Without(add, kept);
    assert Elements(kept) + {} == Elements(kept);
    DedupedOfNovel(add, kept, {});
    assert InPlace(libs, remove, add) == kept + Deduped(novel, {});
    if Edited(libs, remove, add) == InPlace(libs, remove, add) {
      assert novel == Edited(libs, remove, add)[|kept|..];
      assert Deduped(novel, {}) == InPlace(libs, remove, add)[|kept|..];
    }
    if NoDuplicates(novel) {
      DedupedKeeps(novel, {});
    }
  }

  /** A policy that adds a new library twice: the walk lists it twice, the emitter once. */
  lemma RepeatedAddition(x: string)
    ensures Edited([], [], [x, x]) == [x, x]
    ensures InPlace([], [], [x, x]) == [x]
  {
    var add := [x, x];
    assert Without([], []) == [] && Elements([]) == {};
    WithoutNone(add, []);
    assert add[1..] == [x];
    assert Deduped([x], {x}) == Deduped([x][1..], {x});
    assert Deduped(add, {}) == [x] + Deduped([x], {} + {x});
  }
}
