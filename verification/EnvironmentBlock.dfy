/** The process environment block: the entries' order, the flattened form, and reading it back. */
module EnvironmentBlock {

  import opened Options
  import opened UnitText

  type Entry = seq<Unit>

  // The order: without regard to case first, exactly second. `fold` is the case folding.

  /** Lexicographic order. */
  predicate Before(a: seq<int>, b: seq<int>) {
    a == [] || (b != [] && (a[0] < b[0] || (a[0] == b[0] && Before(a[1..], b[1..]))))
  }

  lemma {:induction false} BeforeTotal(a: seq<int>, b: seq<int>)
    ensures Before(a, b) || Before(b, a)
  {
    if a != [] && b != [] {
      BeforeTotal(a[1..], b[1..]);
    }
  }

  lemma {:induction false} BeforeAntisymmetric(a: seq<int>, b: seq<int>)
    requires Before(a, b) && Before(b, a)
    ensures a == b
  {
    if a != [] {
      BeforeAntisymmetric(a[1..], b[1..]);
      assert a == [a[0]] + a[1..] && b == [b[0]] + b[1..];
    }
  }

  lemma {:induction false} BeforeTransitive(a: seq<int>, b: seq<int>, c: seq<int>)
    requires Before(a, b) && Before(b, c)
    ensures Before(a, c)
  {
    if a != [] && a[0] == b[0] && b[0] == c[0] {
      BeforeTransitive(a[1..], b[1..], c[1..]);
    }
  }

  function Folded(e: Entry, fold: int -> int): seq<int> { seq(|e|, i requires 0 <= i < |e| => fold(e[i])) }

  function Exact(e: Entry): seq<int> { seq(|e|, i requires 0 <= i < |e| => e[i] as int) }

  predicate Ordered(a: Entry, b: Entry, fold: int -> int) {
    && Before(Folded(a, fold), Folded(b, fold))
    && (Folded(a, fold) == Folded(b, fold) ==> Before(Exact(a), Exact(b)))
  }

  lemma OrderedTotal(a: Entry, b: Entry, fold: int -> int)
    ensures Ordered(a, b, fold) || Ordered(b, a, fold)
  {
    BeforeTotal(Folded(a, fold), Folded(b, fold));
    BeforeTotal(Exact(a), Exact(b));
    if Before(Folded(a, fold), Folded(b, fold)) && Before(Folded(b, fold), Folded(a, fold)) {
      BeforeAntisymmetric(Folded(a, fold), Folded(b, fold));
    }
  }

  lemma OrderedTransitive(a: Entry, b: Entry, c: Entry, fold: int -> int)
    requires Ordered(a, b, fold) && Ordered(b, c, fold)
    ensures Ordered(a, c, fold)
  {
    BeforeTransitive(Folded(a, fold), Folded(b, fold), Folded(c, fold));
    if Folded(a, fold) == Folded(c, fold) {
      BeforeAntisymmetric(Folded(a, fold), Folded(b, fold));
      BeforeTransitive(Exact(a), Exact(b), Exact(c));
    }
  }

  lemma OrderedAntisymmetric(a: Entry, b: Entry, fold: int -> int)
    requires Ordered(a, b, fold) && Ordered(b, a, fold)
    ensures a == b
  {
    BeforeAntisymmetric(Folded(a, fold), Folded(b, fold));
    BeforeAntisymmetric(Exact(a), Exact(b));
    assert |a| == |Exact(a)| && |b| == |Exact(b)|;
    forall i | 0 <= i < |a|
      ensures a[i] == b[i]
    {
      assert Exact(a)[i] == a[i] && Exact(b)[i] == b[i];
    }
  }

  // The order at the first difference

  /** a and b agree below i, where a ends first or has the smaller unit. */
  predicate SmallerAt(a: seq<int>, b: seq<int>, i: int) {
    && 0 <= i <= |a| && i <= |b|
    && (forall j :: 0 <= j < i ==> a[j] == b[j])
    && ((i == |a| && i < |b|) || (i < |a| && i < |b| && a[i] < b[i]))
  }

  lemma {:induction false} BeforeAtDifference(a: seq<int>, b: seq<int>)
    ensures Before(a, b) <==> a == b || exists i :: SmallerAt(a, b, i)
  {
    if a == [] {
      assert b != [] ==> SmallerAt(a, b, 0);
    } else if b != [] {
      var c, d := a[1..], b[1..];
      assert a == [a[0]] + c && b == [b[0]] + d;
      BeforeAtDifference(c, d);
      if a[0] == b[0] {
        forall i | SmallerAt(c, d, i)
          ensures SmallerAt(a, b, i + 1)
        {
        }
        forall i | SmallerAt(a, b, i)
          ensures SmallerAt(c, d, i - 1)
        {
          assert forall j :: 0 <= j < i - 1 ==> c[j] == a[j + 1] && d[j] == b[j + 1];
        }
      } else if a[0] < b[0] {
        assert SmallerAt(a, b, 0);
      }
    }
  }

  /** The folded units agree below i, where a ends first or has the smaller folded unit. */
  predicate FoldedSmallerAt(a: Entry, b: Entry, fold: int -> int, i: int) {
    && 0 <= i <= |a| && i <= |b|
    && (forall j :: 0 <= j < i ==> fold(a[j]) == fold(b[j]))
    && ((i == |a| && i < |b|) || (i < |a| && i < |b| && fold(a[i]) < fold(b[i])))
  }

  predicate FoldedEqual(a: Entry, b: Entry, fold: int -> int) {
    |a| == |b| && forall j :: 0 <= j < |a| ==> fold(a[j]) == fold(b[j])
  }

  predicate UnitSmallerAt(a: Entry, b: Entry, i: int) {
    0 <= i < |a| && i < |b| && (forall j :: 0 <= j < i ==> a[j] == b[j]) && a[i] < b[i]
  }

  /** Of two different entries the one is ordered first whose folded units are smaller at the
      first difference, or which ends there; and when all folded units agree, the one whose
      exact unit is smaller at the first difference. */
  lemma OrderedAtDifference(a: Entry, b: Entry, fold: int -> int)
    requires a != b
    ensures Ordered(a, b, fold) <==>
            || (exists i :: FoldedSmallerAt(a, b, fold, i))
            || (FoldedEqual(a, b, fold) && exists i :: UnitSmallerAt(a, b, i))
  {
    var fa, fb, ea, eb := Folded(a, fold), Folded(b, fold), Exact(a), Exact(b);
    BeforeAtDifference(fa, fb);
    BeforeAtDifference(ea, eb);
    forall i
      ensures SmallerAt(fa, fb, i) <==> FoldedSmallerAt(a, b, fold, i)
    {
      SmallerFolded(a, b, fold, i);
    }
    FoldedEqualMeans(a, b, fold);
    ExactDiffer(a, b);
    if FoldedEqual(a, b, fold) {
      forall i
        ensures SmallerAt(ea, eb, i) <==> UnitSmallerAt(a, b, i)
      {
        SmallerExact(a, b, i);
      }
    }
  }

  lemma SmallerFolded(a: Entry, b: Entry, fold: int -> int, i: int)
    ensures SmallerAt(Folded(a, fold), Folded(b, fold), i) <==> FoldedSmallerAt(a, b, fold, i)
  {
    var fa, fb := Folded(a, fold), Folded(b, fold);
    assert |fa| == |a| && |fb| == |b|;
    assert forall j :: 0 <= j < |a| ==> fa[j] == fold(a[j]);
    assert forall j :: 0 <= j < |b| ==> fb[j] == fold(b[j]);
    if 0 <= i <= |a| && i <= |b| {
      assert (forall j :: 0 <= j < i ==> fa[j] == fb[j]) <==> (forall j :: 0 <= j < i ==> fold(a[j]) == fold(b[j]));
    }
  }

  lemma SmallerExact(a: Entry, b: Entry, i: int)
    requires |a| == |b|
    ensures SmallerAt(Exact(a), Exact(b), i) <==> UnitSmallerAt(a, b, i)
  {
    var ea, eb := Exact(a), Exact(b);
    assert |ea| == |a| && |eb| == |b|;
    assert forall j :: 0 <= j < |a| ==> ea[j] == a[j] && eb[j] == b[j];
    if 0 <= i <= |a| {
      assert (forall j :: 0 <= j < i ==> ea[j] == eb[j]) <==> (forall j :: 0 <= j < i ==> a[j] == b[j]);
    }
  }

  lemma FoldedEqualMeans(a: Entry, b: Entry, fold: int -> int)
    ensures Folded(a, fold) == Folded(b, fold) <==> FoldedEqual(a, b, fold)
    ensures FoldedEqual(a, b, fold) ==> forall i :: !FoldedSmallerAt(a, b, fold, i)
  {
    if Folded(a, fold) == Folded(b, fold) {
      assert |a| == |Folded(a, fold)| == |b|;
      forall j | 0 <= j < |a|
        ensures fold(a[j]) == fold(b[j])
      {
        assert Folded(a, fold)[j] == Folded(b, fold)[j];
      }
    }
  }

  lemma ExactDiffer(a: Entry, b: Entry)
    requires a != b
    ensures Exact(a) != Exact(b)
  {
    if |a| == |b| {
      var j :| 0 <= j < |a| && a[j] != b[j];
      assert Exact(a)[j] != Exact(b)[j];
    } else {
      assert |Exact(a)| == |a| && |Exact(b)| == |b|;
    }
  }

  // Sorting

  predicate Sorted(es: seq<Entry>, fold: int -> int) {
    |es| > 1 ==> Ordered(es[0], es[1], fold) && Sorted(es[1..], fold)
  }

  function Insert<T>(x: T, xs: seq<T>, before: (T, T) -> bool): (r: seq<T>)
    ensures |r| == |xs| + 1
  {
    if xs == [] || before(x, xs[0]) then [x] + xs else [xs[0]] + Insert(x, xs[1..], before)
  }

  function SortBy<T>(xs: seq<T>, before: (T, T) -> bool): (r: seq<T>)
    ensures |r| == |xs|
  {
    if xs == [] then [] else Insert(xs[0], SortBy(xs[1..], before), before)
  }

  function ByName(fold: int -> int): (Entry, Entry) -> bool { (a, b) => Ordered(a, b, fold) }

  function Sort(es: seq<Entry>, fold: int -> int): seq<Entry> { SortBy(es, ByName(fold)) }

  lemma {:induction false} InsertSorted(e: Entry, es: seq<Entry>, fold: int -> int)
    requires Sorted(es, fold)
    ensures Sorted(Insert(e, es, ByName(fold)), fold)
  {
    hide Ordered;
    if es != [] && !Ordered(e, es[0], fold) {
      OrderedTotal(e, es[0], fold);
      InsertSorted(e, es[1..], fold);
      var rest := Insert(e, es[1..], ByName(fold));
      assert rest[0] == e || rest[0] == es[1];
      assert ([es[0]] + rest)[1..] == rest;
    } else {
      assert ([e] + es)[1..] == es;
    }
  }

  lemma {:induction false} InsertAdds(e: Entry, es: seq<Entry>, fold: int -> int)
    ensures multiset(Insert(e, es, ByName(fold))) == multiset(es) + multiset{e}
  {
    hide Ordered;
    if es != [] && !Ordered(e, es[0], fold) {
      InsertAdds(e, es[1..], fold);
      assert es == [es[0]] + es[1..];
    }
  }

  /** Sorting permutes, and puts in order. */
  lemma {:induction false} SortSorts(es: seq<Entry>, fold: int -> int)
    ensures Sorted(Sort(es, fold), fold)
    ensures multiset(Sort(es, fold)) == multiset(es)
  {
    if es != [] {
      SortSorts(es[1..], fold);
      InsertSorted(es[0], Sort(es[1..], fold), fold);
      InsertAdds(es[0], Sort(es[1..], fold), fold);
      assert es == [es[0]] + es[1..];
    }
  }

  lemma {:induction false} FirstIsLeast(es: seq<Entry>, fold: int -> int, e: Entry)
    requires Sorted(es, fold) && e in es
    ensures Ordered(es[0], e, fold)
  {
    if e == es[0] {
      OrderedTotal(e, e, fold);
    } else {
      assert es == [es[0]] + es[1..];
      FirstIsLeast(es[1..], fold, e);
      OrderedTransitive(es[0], es[1], e, fold);
    }
  }

  lemma SameFirst(a: seq<Entry>, b: seq<Entry>, fold: int -> int)
    requires a != [] && b != [] && Sorted(a, fold) && Sorted(b, fold) && a[0] in b && b[0] in a
    ensures a[0] == b[0]
  {
    FirstIsLeast(a, fold, b[0]);
    FirstIsLeast(b, fold, a[0]);
    OrderedAntisymmetric(a[0], b[0], fold);
  }

  lemma WithoutFirst(a: seq<Entry>)
    requires a != []
    ensures multiset(a) == multiset(a[1..]) + multiset{a[0]} && a[0] in multiset(a)
  {
    assert a == [a[0]] + a[1..];
  }

  /** The order is total and antisymmetric, so whatever sorts, sorts to the same block. */
  lemma {:induction false} SortedIsUnique(a: seq<Entry>, b: seq<Entry>, fold: int -> int)
    requires Sorted(a, fold) && Sorted(b, fold) && multiset(a) == multiset(b)
    ensures a == b
  {
    hide Ordered;
    assert |a| == |multiset(a)| == |multiset(b)| == |b|;
    if a != [] {
      WithoutFirst(a);
      WithoutFirst(b);
      SameFirst(a, b, fold);
      assert multiset(a[1..]) == multiset(a) - multiset{a[0]} == multiset(b[1..]);
      SortedIsUnique(a[1..], b[1..], fold);
      assert a == [a[0]] + a[1..] && b == [b[0]] + b[1..];
    }
  }

  // The block

  /** An entry and its terminator. */
  function Ended(e: Entry): (r: seq<Cell>)
    ensures |r| == |e| + 1 && r[|e|] == 0 && forall k :: 0 <= k < |e| ==> r[k] == e[k]
  {
    var units: seq<Cell> := e;
    units + [0]
  }

  function Flat(es: seq<Entry>): seq<Cell> {
    if es == [] then [] else Ended(es[0]) + Flat(es[1..])
  }

  function Total(es: seq<Entry>): nat { if es == [] then 1 else |es[0]| + 1 + Total(es[1..]) }

  /** The first terminator at or after `at`. */
  function Terminator(block: seq<Cell>, at: nat): (i: nat)
    requires at <= |block|
    ensures at <= i <= |block| && (i < |block| ==> block[i] == 0)
    ensures forall k :: at <= k < i ==> block[k] != 0
    decreases |block| - at
  {
    if at == |block| || block[at] == 0 then at else Terminator(block, at + 1)
  }

  /** The entries of a block from `at` on; None unless the empty entry comes exactly at the end. */
  function EntriesFrom(block: seq<Cell>, at: nat): Option<seq<seq<Cell>>>
    requires at <= |block|
    decreases |block| - at
  {
    var end := Terminator(block, at);
    if end == |block| then None
    else if end == at then if at == |block| - 1 then Some([]) else None
    else
      match EntriesFrom(block, end + 1)
      case None => None
      case Some(rest) => Some([block[at..end]] + rest)
  }

  predicate NonEmpty(es: seq<Entry>) { forall i :: 0 <= i < |es| ==> es[i] != [] }

  lemma FirstEntry(block: seq<Cell>, at: nat, e: Entry, tail: seq<Cell>)
    requires at <= |block| && block[at..] == Ended(e) + tail
    ensures at + |e| < |block| && Terminator(block, at) == at + |e| && block[at..at + |e|] == e
    ensures block[at + |e| + 1..] == tail
  {
    var n := |e|;
    assert |block[at..]| == n + 1 + |tail|;
    forall k | 0 <= k <= n
      ensures block[at + k] == Ended(e)[k]
    {
      assert block[at..][k] == Ended(e)[k];
    }
    forall k | 0 <= k < |tail|
      ensures block[at + n + 1..][k] == tail[k]
    {
      assert block[at..][n + 1 + k] == tail[k];
    }
  }

  lemma Regroup(a: seq<Cell>, b: seq<Cell>, c: seq<Cell>)
    ensures (a + b) + c == a + (b + c)
  {
  }

  lemma EmptyEnd(block: seq<Cell>, at: nat)
    requires at <= |block| && block[at..] == [0]
    ensures EntriesFrom(block, at) == Some([])
  {
    assert |block[at..]| == 1 && block[at..][0] == block[at];
  }

  lemma EntriesStep(block: seq<Cell>, at: nat, e: Entry, rest: seq<Entry>)
    requires e != [] && at + |e| < |block| && Terminator(block, at) == at + |e| && block[at..at + |e|] == e
    requires EntriesFrom(block, at + |e| + 1) == Some(rest)
    ensures EntriesFrom(block, at) == Some([e] + rest)
  {
  }

  /** Reading a flattened list of non-empty entries gives the list back. */
  lemma {:induction false} FlatBack(block: seq<Cell>, at: nat, es: seq<Entry>)
    requires at <= |block| && block[at..] == Flat(es) + [0] && NonEmpty(es)
    ensures EntriesFrom(block, at) == Some(es)
    decreases |es|
  {
    hide EntriesFrom, Terminator, Ended;
    if es == [] {
      EmptyEnd(block, at);
    } else {
      var tail := Flat(es[1..]) + [0];
      Regroup(Ended(es[0]), Flat(es[1..]), [0]);
      FirstEntry(block, at, es[0], tail);
      FlatBack(block, at + |es[0]| + 1, es[1..]);
      EntriesStep(block, at, es[0], es[1..]);
      assert es == [es[0]] + es[1..];
    }
  }

  lemma {:induction false} FlatLength(es: seq<Entry>)
    ensures |Flat(es)| + 1 == Total(es)
  {
    if es != [] {
      FlatLength(es[1..]);
    }
  }

  lemma {:induction false} FlatAppend(es: seq<Entry>, e: Entry)
    ensures Flat(es + [e]) == Flat(es) + Ended(e)
  {
    if es == [] {
      assert es + [e] == [e];
    } else {
      assert (es + [e])[1..] == es[1..] + [e];
      FlatAppend(es[1..], e);
    }
  }

  lemma {:induction false} TotalAppend(es: seq<Entry>, e: Entry)
    ensures Total(es + [e]) == Total(es) + |e| + 1
  {
    if es == [] {
      assert es + [e] == [e];
    } else {
      assert (es + [e])[1..] == es[1..] + [e];
      TotalAppend(es[1..], e);
    }
  }
}
