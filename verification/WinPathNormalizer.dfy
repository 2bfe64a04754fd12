/** The path normaliser: one pass that collapses separators, one that stacks the segments,
    and one that writes the result. */
module WinPathNormalizer {
  import opened Options
  import opened UnitText
  import opened WinPath

  // Collapsing runs of separators keeps the root and the names

  function Collapsed(t: Text, after: bool): Text {
    if t.End? then End
    else if !IsSep(t.c) then Put(t.c, Collapsed(t.rest, false))
    else if after then Collapsed(t.rest, true)
    else Put(BACKSLASH, Collapsed(t.rest, true))
  }

  lemma {:induction false} CollapsedHead(t: Text, after: bool)
    ensures t.Put? && !IsSep(t.c) ==> Head(Collapsed(t, after)) == Head(t)
    ensures t.Put? && !IsSep(t.c) ==> NamesOf(Beyond(Collapsed(t, after))) == NamesOf(Collapsed(Beyond(t), false))
  {
    if t.Put? && !IsSep(t.c) {
      if t.rest.Put? && !IsSep(t.rest.c) {
        CollapsedHead(t.rest, false);
      }
    }
  }

  lemma {:induction false} CollapsedNames(t: Text, after: bool)
    ensures NamesOf(Collapsed(t, after)) == NamesOf(t)
    decreases Length(t)
  {
    if t.Put? {
      if IsSep(t.c) {
        CollapsedNames(t.rest, true);
      } else {
        CollapsedHead(t, after);
        CollapsedNames(Beyond(t), false);
      }
    }
  }

  lemma CollapsedRoot(t: Text)
    ensures RootOf(Collapsed(t, false)) == RootOf(t) && PathNames(Collapsed(t, false)) == PathNames(t)
    ensures var u := Collapsed(t, false); u.Put? && u.c == BACKSLASH ==> !(u.rest.Put? && u.rest.c == BACKSLASH)
  {
    CollapsedNames(t, false);
    if HasDrive(t) {
      CollapsedNames(t.rest.rest, false);
    }
    if t.Put? && IsSep(t.c) {
      NoSepAfter(t.rest);
    }
  }

  lemma {:induction false} NoSepAfter(t: Text)
    ensures var u := Collapsed(t, true); u.Put? ==> !IsSep(u.c)
  {
    if t.Put? && IsSep(t.c) {
      NoSepAfter(t.rest);
    }
  }

  /** A separator at the end names nothing. */
  lemma {:induction false} TrailingNames(t: Text)
    ensures NamesOf(Append(t, Put(BACKSLASH, End))) == NamesOf(t)
    decreases Length(t)
  {
    if t.Put? {
      if IsSep(t.c) {
        TrailingNames(t.rest);
      } else {
        AppendHead(t, Put(BACKSLASH, End));
        TrailingNames(Beyond(t));
      }
    }
  }

  lemma {:induction false} AppendHead(t: Text, tail: Text)
    requires tail.Put? ==> IsSep(tail.c)
    ensures Head(Append(t, tail)) == Head(t)
    ensures Beyond(Append(t, tail)) == Append(Beyond(t), tail)
  {
    if t.Put? && !IsSep(t.c) {
      AppendHead(t.rest, tail);
    }
  }

  lemma {:induction false} FromAppend(s: seq<Unit>, c: Unit, i: nat)
    requires i <= |s|
    ensures From(s + [c], i) == Append(From(s, i), Put(c, End))
    decreases |s| - i
  {
    if i < |s| {
      FromAppend(s, c, i + 1);
      assert (s + [c])[i] == s[i];
    } else {
      assert From(s + [c], i) == Put(c, From(s + [c], i + 1));
    }
  }

  method Collapse(input: seq<Unit>) returns (tmp: seq<Unit>)
    ensures From(tmp, 0) == Collapsed(From(input, 0), false)
    ensures |tmp| <= |input| && SLASH !in tmp
  {
    tmp := [];
    var after := false;
    assert Prefixed([], Collapsed(From(input, 0), false)) == Collapsed(From(input, 0), false);
    for i := 0 to |input|
      invariant |tmp| <= i && SLASH !in tmp
      invariant Prefixed(tmp, Collapsed(From(input, i), after)) == Collapsed(From(input, 0), false)
    {
      var c := input[i];
      if IsSep(c) {
        if after {
          continue;
        }
        PrefixedStep(tmp, BACKSLASH, Collapsed(From(input, i + 1), true));
        tmp := tmp + [BACKSLASH];
        after := true;
      } else {
        PrefixedStep(tmp, c, Collapsed(From(input, i + 1), false));
        tmp := tmp + [c];
        after := false;
      }
    }
    PrefixedFrom(tmp, |tmp|);
    assert tmp[..|tmp|] == tmp;
  }

  predicate DriveStart(s: seq<Unit>) { |s| >= 2 && IsAlpha(s[0]) && s[1] == COLON }

  lemma StartsFrom(s: seq<Unit>)
    ensures HasDrive(From(s, 0)) <==> DriveStart(s)
    ensures DriveStart(s) ==> From(s, 0).c == s[0] && From(s, 0).rest.rest == From(s, 2)
    ensures |s| > 0 ==> From(s, 0).Put? && From(s, 0).c == s[0] && From(s, 0).rest == From(s, 1)
    ensures |s| > 1 ==> From(s, 1).Put? && From(s, 1).c == s[1]
  {
  }

  lemma StripKeeps(s: seq<Unit>)
    requires |s| > 1 && s[|s| - 1] == BACKSLASH && !(|s| == 3 && DriveStart(s))
    ensures RootOf(From(s[..|s| - 1], 0)) == RootOf(From(s, 0))
    ensures PathNames(From(s[..|s| - 1], 0)) == PathNames(From(s, 0))
  {
    var r := s[..|s| - 1];
    assert s == r + [BACKSLASH];
    FromAppend(r, BACKSLASH, 0);
    TrailingNames(From(r, 0));
    StartsFrom(s);
    StartsFrom(r);
    if DriveStart(s) {
      FromAppend(r, BACKSLASH, 2);
      TrailingNames(From(r, 2));
    }
  }

  lemma DriveAlone(s: seq<Unit>)
    requires |s| == 2 && DriveStart(s)
    ensures RootOf(From(s + [BACKSLASH], 0)) == RootOf(From(s, 0))
    ensures PathNames(From(s + [BACKSLASH], 0)) == PathNames(From(s, 0))
  {
    StartsFrom(s);
    StartsFrom(s + [BACKSLASH]);
    FromAppend(s, BACKSLASH, 2);
    TrailingNames(From(s, 2));
  }

  /** Trailing separators and bare drives. */
  method Adjust(tmp: seq<Unit>) returns (r: seq<Unit>)
    requires tmp != []
    ensures r != [] && RootOf(From(r, 0)) == RootOf(From(tmp, 0)) && PathNames(From(r, 0)) == PathNames(From(tmp, 0))
    ensures |r| <= |tmp| + 1 && (SLASH !in tmp ==> SLASH !in r)
    ensures r[0] == tmp[0] && (|r| > 1 ==> |tmp| > 1 && r[1] == tmp[1])
  {
    r := tmp;
    if |r| > 1 && r[|r| - 1] == BACKSLASH {
      var driveRoot := |r| == 3 && IsAlpha(r[0]) && r[1] == COLON;
      if !driveRoot {
        StripKeeps(r);
        r := r[..|r| - 1];
      }
    }
    if |r| == 2 && IsAlpha(r[0]) && r[1] == COLON {
      DriveAlone(r);
      r := r + [BACKSLASH];
    }
  }

  /** The length of the root. The branch for a leading double separator is never taken. */
  method PrefixLength(s: seq<Unit>) returns (prefix: nat)
    requires s != [] && !(|s| > 1 && s[0] == BACKSLASH && s[1] == BACKSLASH) && SLASH !in s
    ensures prefix <= |s| && NamesOf(From(s, prefix)) == PathNames(From(s, 0))
    ensures match RootOf(From(s, 0))
            case Drive(c) => c == s[0] && DriveStart(s) && (prefix == 2 || (prefix == 3 && s[2] == BACKSLASH))
            case Rooted => prefix == 1
            case Relative => prefix == 0
  {
    StartsFrom(s);
    if |s| >= 2 && s[1] == COLON && IsAlpha(s[0]) {
      prefix := if |s| >= 3 && s[2] == BACKSLASH then 3 else 2;
    } else if |s| >= 2 && s[0] == BACKSLASH && s[1] == BACKSLASH {
      assert false;
    } else if s[0] == BACKSLASH {
      prefix := 1;
    } else {
      prefix := 0;
    }
  }

  // Stacking the segments

  /** The array's first np segments as a stack, last one first. */
  function StackOf(segments: seq<seq<Unit>>): Stack {
    if segments == [] then Nil
    else Seg(From(segments[|segments| - 1], 0), StackOf(segments[..|segments| - 1]))
  }

  lemma {:induction false} StackCount(segments: seq<seq<Unit>>)
    ensures Count(StackOf(segments)) == |segments|
  {
    if segments != [] {
      StackCount(segments[..|segments| - 1]);
    }
  }

  lemma FromIs(s: seq<Unit>)
    ensures From(s, 0) == CURRENT <==> s == [DOT]
    ensures From(s, 0) == PARENT <==> s == [DOT, DOT]
    ensures From(s, 0) == End <==> s == []
  {
    if |s| > 0 {
      assert From(s, 1) == End <==> |s| == 1;
    }
    if |s| > 1 {
      assert From(s, 2) == End <==> |s| == 2;
    }
  }

  /** The segment from `start` up to the next separator is the first name left. */
  lemma {:induction false} SegmentIsHead(s: seq<Unit>, start: nat, end: nat)
    requires start <= end <= |s| && (end < |s| ==> IsSep(s[end]))
    requires forall k :: start <= k < end ==> !IsSep(s[k])
    ensures Head(From(s, start)) == From(s[start..end], 0) && Beyond(From(s, start)) == From(s, end)
    decreases end - start
  {
    if start < end {
      SegmentIsHead(s, start + 1, end);
      FromShift(s[start..end], s[start + 1..end]);
    }
  }

  lemma FromShift(s: seq<Unit>, r: seq<Unit>)
    requires s != [] && r == s[1..]
    ensures From(s, 0) == Put(s[0], From(r, 0))
  {
    FromTail(s, 0);
  }

  lemma {:induction false} FromTail(s: seq<Unit>, i: nat)
    requires i < |s|
    ensures From(s, i + 1) == From(s[1..], i)
    decreases |s| - i
  {
    if i + 1 < |s| {
      FromTail(s, i + 1);
    }
  }

  /** One segment: dropped, popped, or pushed; None when the stack is full or memory is. */
  method PushSegment(segments: seq<seq<Unit>>, segment: seq<Unit>, unrooted: bool, allocates: bool)
      returns (r: Option<seq<seq<Unit>>>)
    requires segment != []
    ensures r.Some? ==> Step(StackOf(segments), From(segment, 0), unrooted) == Some(StackOf(r.value))
    ensures r.Some? ==> |r.value| <= |segments| + 1
    ensures r.None? && allocates ==> Step(StackOf(segments), From(segment, 0), unrooted) == None
  {
    FromIs(segment);
    StackCount(segments);
    if |segment| == 1 && segment[0] == DOT {
      return Some(segments);
    } else if |segment| == 2 && segment[0] == DOT && segment[1] == DOT {
      if |segments| > 0 {
        return Some(segments[..|segments| - 1]);
      } else if unrooted {
        if !allocates {
          return None;
        }
        assert [segment][..0] == [];
        return Some([segment]);
      }
      return Some(segments);
    }
    if |segments| >= LIMIT || !allocates {
      return None;
    }
    assert (segments + [segment])[..|segments|] == segments;
    return Some(segments + [segment]);
  }

  /** The segment loop. */
  method StackSegments(s: seq<Unit>, prefix: nat, unrooted: bool, allocates: nat -> bool)
      returns (r: Option<seq<seq<Unit>>>)
    requires prefix <= |s| && SLASH !in s
    ensures r.Some? ==> Steps(Nil, NamesOf(From(s, prefix)), unrooted) == Some(StackOf(r.value))
    ensures r.None? && (forall k: nat :: allocates(k)) ==> Steps(Nil, NamesOf(From(s, prefix)), unrooted) == None
  {
    var segments: seq<seq<Unit>> := [];
    var i := prefix;
    while i <= |s|
      invariant prefix <= i <= |s|
      invariant Steps(StackOf(segments), NamesOf(From(s, i)), unrooted) ==
                Steps(Nil, NamesOf(From(s, prefix)), unrooted)
      decreases |s| - i
    {
      var start := i;
      while i < |s| && s[i] != BACKSLASH
        invariant start <= i <= |s| && forall k :: start <= k < i ==> !IsSep(s[k])
      {
        i := i + 1;
      }
      SegmentIsHead(s, start, i);
      if start < i {
        var next := PushSegment(segments, s[start..i], unrooted, allocates(start));
        if next == None {
          return None;
        }
        segments := next.value;
      }
      if i >= |s| {
        return Some(segments);
      }
      i := i + 1;
    }
  }

  // Writing the result

  /** The text of a C string: up to the terminator. */
  function CString(cells: seq<Cell>, i: nat): Text
    requires i <= |cells|
    decreases |cells| - i
  {
    if i == |cells| || cells[i] == 0 then End else Put(cells[i], CString(cells, i + 1))
  }

  /** What is still to be written: a separator first if one is due. */
  function More(ns: Names, due: bool): Text {
    if ns.Nil? then End else if due then Put(BACKSLASH, Join(ns)) else Join(ns)
  }

  lemma JoinMore(ns: Names)
    requires ns.Seg?
    ensures Join(ns) == Append(ns.name, More(ns.rest, true))
  {
    AppendEnd(ns.name);
  }

  lemma {:induction false} AppendLength(a: Text, b: Text)
    ensures Length(Append(a, b)) == Length(a) + Length(b)
  {
    if a.Put? {
      AppendLength(a.rest, b);
    }
  }

  lemma {:induction false} CStringOf(cells: seq<Cell>, o: nat, i: nat)
    requires i <= o < |cells| && cells[o] == 0 && forall k :: 0 <= k < o ==> cells[k] != 0
    ensures Prefixed(cells[..i], CString(cells, i)) == CString(cells, 0)
    ensures CString(cells, o) == End
  {
    if i > 0 {
      CStringOf(cells, o, i - 1);
      assert cells[..i] == cells[..i - 1] + [cells[i - 1]];
      PrefixedStep(cells[..i - 1], cells[i - 1], CString(cells, i));
    } else {
      assert cells[..0] == [];
    }
  }

  /** The output buffer and how much of it is written. */
  class Output {
    const cells: array<Cell>
    var o: nat

    constructor (cells: array<Cell>)
      requires cells.Length > 0
      ensures this.cells == cells && o == 0 && Valid()
    {
      this.cells, o := cells, 0;
    }

    ghost predicate Valid() reads this, cells {
      o < cells.Length && forall k :: 0 <= k < o ==> cells[k] != 0
    }

    /** What has been written, going on as t. */
    ghost function Going(t: Text): Text
      requires Valid()
      reads this, cells
    {
      Prefixed(cells[..o], t)
    }

    method Emit(c: Unit, ghost t: Text)
      requires Valid() && o + 1 < cells.Length
      modifies this`o, cells
      ensures Valid() && o == old(o) + 1 && cells[o - 1] == c
      ensures Going(t) == old(Going(Put(c, t)))
      ensures cells[..old(o)] == old(cells[..o])
    {
      ghost var before := cells[..o];
      PrefixedStep(before, c, t);
      cells[o] := c;
      o := o + 1;
      assert cells[..o] == before + [c];
    }

    /** Writes the units if they fit with a terminator after them. */
    method Write(units: seq<Unit>, ghost t: Text) returns (ok: bool)
      requires Valid()
      modifies this`o, cells
      ensures Valid() && ok == (old(o) + |units| < cells.Length)
      ensures ok ==> o == old(o) + |units| && Going(t) == old(Going(Append(From(units, 0), t)))
      ensures ok && units != [] ==> cells[o - 1] == units[|units| - 1]
      ensures ok ==> cells[old(o)..o] == units && cells[..old(o)] == old(cells[..o])
    {
      if o + |units| >= cells.Length {
        return false;
      }
      ghost var start := o;
      for i := 0 to |units|
        invariant Valid() && o == start + i && cells[..start] == old(cells[..o]) && cells[start..o] == units[..i]
        invariant Going(Append(From(units, i), t)) == old(Going(Append(From(units, 0), t)))
      {
        ghost var before := cells[..o];
        Emit(units[i], Append(From(units, i + 1), t));
        assert cells[..start] == before[..start] && cells[start..o - 1] == before[start..];
        assert units[..i + 1] == units[..i] + [units[i]];
        assert cells[start..o] == cells[start..o - 1] + [units[i]];
      }
      assert units[..|units|] == units;
      assert units != [] ==> cells[start..o][|units| - 1] == units[|units| - 1];
      return true;
    }

    /** Ends the string; the buffer then holds what was written. */
    method Finish()
      requires Valid()
      modifies cells
      ensures CString(cells[..], 0) == old(Going(End)) && o < cells.Length
    {
      cells[o] := 0;
      CStringOf(cells[..], o, o);
      assert cells[..][..o] == cells[..o];
    }
  }

  /** The segments from the k-th on, as names. */
  function NamesFrom(segments: seq<seq<Unit>>, k: nat): Names
    requires k <= |segments|
    decreases |segments| - k
  {
    if k == |segments| then Nil else Seg(From(segments[k], 0), NamesFrom(segments, k + 1))
  }

  lemma {:induction false} UprightFrom(segments: seq<seq<Unit>>, k: nat)
    requires k <= |segments|
    ensures Upright(StackOf(segments[..k]), NamesFrom(segments, k)) == NamesFrom(segments, 0)
  {
    if k > 0 {
      assert segments[..k][..k - 1] == segments[..k - 1];
      UprightFrom(segments, k - 1);
    }
  }

  lemma {:induction false} NoSepUnits(s: seq<Unit>, i: nat)
    requires i <= |s| && NoSep(From(s, i))
    ensures forall k :: i <= k < |s| ==> !IsSep(s[k])
    decreases |s| - i
  {
    if i < |s| {
      NoSepUnits(s, i + 1);
    }
  }

  lemma {:induction false} CleanFrom(segments: seq<seq<Unit>>, k: nat, i: nat)
    requires k <= i < |segments| && Clean(NamesFrom(segments, k))
    ensures segments[i] != [] && !IsSep(segments[i][|segments[i]| - 1])
    decreases i - k
  {
    if k == i {
      NoSepUnits(segments[i], 0);
    } else {
      CleanFrom(segments, k + 1, i);
    }
  }

  predicate Due(cells: seq<Cell>) { cells != [] && cells[|cells| - 1] != BACKSLASH }

  /** The segments, with separators between them. */
  method WriteSegments(output: Output, segments: seq<seq<Unit>>) returns (ok: bool)
    requires output.Valid() && Clean(NamesFrom(segments, 0))
    modifies output`o, output.cells
    ensures output.Valid()
    ensures var due := Due(old(output.cells[..output.o]));
            && ok == (old(output.o) + Length(More(NamesFrom(segments, 0), due)) < output.cells.Length)
            && (ok ==> output.Going(End) ==
                       old(output.Going(More(NamesFrom(segments, 0), Due(output.cells[..output.o])))))
  {
    ghost var due := Due(output.cells[..output.o]);
    ghost var length := output.o + Length(More(NamesFrom(segments, 0), due));
    ghost var target := output.Going(More(NamesFrom(segments, 0), due));
    for k := 0 to |segments|
      invariant output.Valid() && due == Due(output.cells[..output.o])
      invariant output.o + Length(More(NamesFrom(segments, k), due)) == length
      invariant output.Going(More(NamesFrom(segments, k), due)) == target
    {
      CleanFrom(segments, 0, k);
      ok := WriteSegment(output, segments[k], NamesFrom(segments, k + 1));
      if !ok {
        return false;
      }
      due := true;
    }
    ok := true;
  }

  /** One segment, after the separator that may be due. */
  method WriteSegment(output: Output, segment: seq<Unit>, ghost rest: Names) returns (ok: bool)
    requires output.Valid() && segment != [] && !IsSep(segment[|segment| - 1])
    modifies output`o, output.cells
    ensures output.Valid()
    ensures var ns := Seg(From(segment, 0), rest);
            var length := old(output.o) + Length(More(ns, Due(old(output.cells[..output.o]))));
            && (ok ==> Due(output.cells[..output.o]) && output.o + Length(More(rest, true)) == length)
            && (ok ==> output.Going(More(rest, true)) == old(output.Going(More(ns, Due(output.cells[..output.o])))))
            && (!ok ==> length >= output.cells.Length)
  {
    ghost var ns := Seg(From(segment, 0), rest);
    JoinMore(ns);
    AppendLength(ns.name, More(rest, true));
    FromLength(segment, 0);
    if output.o > 0 && output.cells[output.o - 1] != BACKSLASH {
      ok := output.Write([BACKSLASH], Join(ns));
      if !ok {
        return;
      }
      assert From([BACKSLASH], 0) == Put(BACKSLASH, End);
    }
    ok := output.Write(segment, More(rest, true));
  }

  lemma {:induction false} PrefixedLength(s: seq<Cell>, t: Text)
    requires forall k :: 0 <= k < |s| ==> s[k] != 0
    ensures Length(Prefixed(s, t)) == |s| + Length(t)
  {
    if s != [] {
      PrefixedLength(s[..|s| - 1], Put(s[|s| - 1], t));
    }
  }

  lemma TwoUnits(s: seq<Cell>, t: Text)
    requires |s| == 2 && s[0] != 0 && s[1] != 0
    ensures Prefixed(s, t) == Put(s[0], Put(s[1], t))
  {
    assert s[..1][..0] == [];
    assert Prefixed(s[..1], Put(s[1], t)) == Put(s[0], Put(s[1], t));
  }

  /** The last touches, and the terminator. */
  method FinishResult(output: Output) returns (ok: bool)
    requires output.Valid()
    modifies output`o, output.cells
    ensures var t := Finished(old(output.Going(End)));
            && ok == (Length(t) < output.cells.Length)
            && (ok ==> CString(output.cells[..], 0) == t)
  {
    ghost var t := output.Going(End);
    PrefixedLength(output.cells[..output.o], End);
    assert Length(t) == output.o;
    ok := true;
    if output.o == 2 {
      TwoUnits(output.cells[..2], End);
      TwoUnits(output.cells[..2], Put(BACKSLASH, End));
      assert From([BACKSLASH], 0) == Put(BACKSLASH, End);
      if output.cells[1] == COLON {
        ok := output.Write([BACKSLASH], End);
      }
    } else if output.o == 0 {
      assert From([DOT], 0) == Put(DOT, End);
      ok := output.Write([DOT], End);
    }
    if ok {
      output.Finish();
    }
  }

  /** The root as it stands in the buffer and the names that follow, finished, are the result. */
  lemma Assembled(s: seq<Unit>, prefix: nat, ns: Names)
    requires s != [] && prefix <= |s| && Clean(ns)
    requires match RootOf(From(s, 0))
             case Drive(c) => c == s[0] && DriveStart(s) && (prefix == 2 || (prefix == 3 && s[2] == BACKSLASH))
             case Rooted => prefix == 1 && s[0] == BACKSLASH
             case Relative => prefix == 0
    ensures Finished(Prefixed(s[..prefix], More(ns, Due(s[..prefix])))) == Rendered(RootOf(From(s, 0)), ns)
  {
    var t := More(ns, Due(s[..prefix]));
    if prefix == 1 {
      assert s[..1] == [] + [BACKSLASH];
      PrefixedStep([], BACKSLASH, t);
    } else if prefix >= 2 {
      TwoUnits(s[..2], t);
      if prefix == 3 {
        assert s[..3] == s[..2] + [BACKSLASH];
        PrefixedStep(s[..2], BACKSLASH, t);
        TwoUnits(s[..2], Put(BACKSLASH, t));
      }
    }
  }

  lemma LongEnough(t: Text)
    ensures Length(Finished(t)) >= Length(t)
  {
  }

  /** 0 and the normal path in the buffer, or -1; `allocates` tells which allocations succeed. */
  method Normalize(input: Option<seq<Unit>>, out: array<Cell>, allocates: nat -> bool) returns (r: int)
    modifies out
    ensures r == 0 || r == -1
    ensures input == None || out.Length == 0 ==> r == -1
    ensures input.Some? && r == 0 ==>
              out.Length > 0 && Normal(From(input.value, 0)) == Some(CString(out[..], 0))
              && Length(CString(out[..], 0)) < out.Length
    ensures input.Some? && (forall k: nat :: allocates(k)) && r == -1 ==>
              || out.Length == 0
              || Normal(From(input.value, 0)) == None
              || Length(Normal(From(input.value, 0)).value) >= out.Length
  {
    if input == None || out.Length == 0 {
      return -1;
    }
    if |input.value| == 0 {
      out[0] := 0;
      return 0;
    }
    if !allocates(0) {
      return -1;
    }
    var tmp := Collapse(input.value);
    CollapsedStart(input.value, tmp);
    tmp := Adjust(tmp);
    var prefix := PrefixLength(tmp);
    var segments := StackSegments(tmp, prefix, prefix == 0, allocates);
    if segments == None {
      return -1;
    }
    NormalIs(input.value, segments.value);
    Assembled(tmp, prefix, NamesFrom(segments.value, 0));
    r := WriteResult(out, tmp[..prefix], segments.value);
  }

  lemma CollapsedStart(input: seq<Unit>, tmp: seq<Unit>)
    requires input != [] && From(tmp, 0) == Collapsed(From(input, 0), false)
    ensures tmp != [] && RootOf(From(tmp, 0)) == RootOf(From(input, 0))
    ensures PathNames(From(tmp, 0)) == PathNames(From(input, 0))
    ensures !(|tmp| > 1 && tmp[0] == BACKSLASH && tmp[1] == BACKSLASH)
  {
    CollapsedRoot(From(input, 0));
    StartsFrom(tmp);
    assert From(input, 0).Put? && Collapsed(From(input, 0), false).Put?;
  }

  lemma NormalIs(input: seq<Unit>, segments: seq<seq<Unit>>)
    requires input != []
    requires Steps(Nil, PathNames(From(input, 0)), RootOf(From(input, 0)) == Relative) == Some(StackOf(segments))
    ensures Clean(NamesFrom(segments, 0))
    ensures Normal(From(input, 0)) == Some(Rendered(RootOf(From(input, 0)), NamesFrom(segments, 0)))
  {
    var t := From(input, 0);
    UprightFrom(segments, |segments|);
    assert segments[..|segments|] == segments;
    NamesClean(if HasDrive(t) then t.rest.rest else t);
    StepsKeep(Nil, PathNames(t), RootOf(t) == Relative);
    UprightNormal(StackOf(segments), Nil, RootOf(t) == Relative);
    NormalClean(NamesFrom(segments, 0), RootOf(t) == Relative);
  }

  method WriteResult(out: array<Cell>, prefix: seq<Unit>, segments: seq<seq<Unit>>) returns (r: int)
    requires out.Length > 0 && Clean(NamesFrom(segments, 0))
    modifies out
    ensures var t := Finished(Prefixed(prefix, More(NamesFrom(segments, 0), Due(prefix))));
            && r == (if Length(t) < out.Length then 0 else -1)
            && (r == 0 ==> CString(out[..], 0) == t)
  {
    ghost var rest := More(NamesFrom(segments, 0), Due(prefix));
    ghost var whole := Prefixed(prefix, rest);
    PrefixedLength(prefix, rest);
    LongEnough(whole);
    var output := new Output(out);
    var ok := output.Write(prefix, rest);
    if !ok {
      return -1;
    }
    assert output.cells[..output.o] == prefix;
    ok := WriteSegments(output, segments);
    if !ok {
      return -1;
    }
    assert output.Going(End) == whole;
    ok := FinishResult(output);
    r := if ok then 0 else -1;
  }
}
