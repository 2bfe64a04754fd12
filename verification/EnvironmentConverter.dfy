/** Conversion of a Unix environment block to the sorted UTF-16 block that CreateProcessW
    takes, with every heap allocation accounted for. */
module EnvironmentConverter {
  import opened EnvironmentBlock
  import opened Options
  import opened UnitText
  import opened Widths

  datatype Error = InvalidParameter | NotEnoughMemory | NotConvertible

  // The entries of the input

  /** One entry: terminated, not too long, well-formed, not empty. */
  function Decoded(block: seq<Byte>, at: nat, decode: Decoder): Option<Entry> {
    if at >= |block| || NulFrom(block, at) == None then None
    else
      var end := NulFrom(block, at).value;
      if end - at > INT_MAX || end == at then None
      else
        var entry := decode(block[at..end]);
        if entry == Some([]) then None else entry
  }

  function NextAt(block: seq<Byte>, at: nat): nat {
    if at < |block| && NulFrom(block, at).Some? then NulFrom(block, at).value + 1 else at
  }

  predicate Zeros(block: seq<Byte>, at: nat) { forall k :: at <= k < |block| ==> block[k] == 0 }

  /** The next `left` entries, followed by NULs only. */
  function Parsed(block: seq<Byte>, at: nat, left: nat, decode: Decoder): Option<seq<Entry>>
    decreases left
  {
    if left == 0 then if at <= |block| && Zeros(block, at) then Some([]) else None
    else if Decoded(block, at, decode) == None then None
    else
      match Parsed(block, NextAt(block, at), left - 1, decode)
      case None => None
      case Some(rest) => Some([Decoded(block, at, decode).value] + rest)
  }

  // The heap

  /** Allocations of at most `available` cells succeed. Freeing requires a live allocation. */
  class Heap {
    ghost var live: set<nat>
    var next: nat
    const available: nat

    constructor (available: nat)
      ensures Valid() && live == {} && this.available == available
    {
      this.available, live, next := available, {}, 0;
    }

    ghost predicate Valid() reads this { forall p :: p in live ==> p < next }

    method Allocate(size: nat) returns (p: Option<nat>)
      requires Valid()
      modifies this
      ensures Valid() && p.Some? == (size <= available)
      ensures p.Some? ==> p.value !in old(live) && live == old(live) + {p.value}
      ensures p.None? ==> live == old(live)
    {
      if size > available {
        return None;
      }
      p := Some(next);
      live := live + {next};
      next := next + 1;
    }

    method Free(p: nat)
      requires Valid() && p in live
      modifies this`live
      ensures Valid() && live == old(live) - {p}
    {
      live := live - {p};
    }
  }

  /** A converted entry and the allocation that holds it. */
  datatype Held = Held(p: nat, entry: Entry)

  function Texts(hs: seq<Held>): (r: seq<Entry>)
    ensures |r| == |hs|
  {
    if hs == [] then [] else [hs[0].entry] + Texts(hs[1..])
  }

  function Places(hs: seq<Held>): set<nat> {
    if hs == [] then {} else {hs[0].p} + Places(hs[1..])
  }

  /** The entries hold allocations of their own. */
  predicate Apart(hs: seq<Held>) {
    hs != [] ==> hs[0].p !in Places(hs[1..]) && Apart(hs[1..])
  }

  lemma {:induction false} AppendHeld(hs: seq<Held>, h: Held)
    ensures Texts(hs + [h]) == Texts(hs) + [h.entry] && Places(hs + [h]) == Places(hs) + {h.p}
    ensures Apart(hs) && h.p !in Places(hs) ==> Apart(hs + [h])
  {
    if hs == [] {
      assert hs + [h] == [h];
    } else {
      assert (hs + [h])[1..] == hs[1..] + [h];
      AppendHeld(hs[1..], h);
    }
  }

  // The library sort, by its contract: a permutation of the entries, in order

  function ByText(fold: int -> int): (Held, Held) -> bool {
    (a: Held, b: Held) => Ordered(a.entry, b.entry, fold)
  }

  function SortHeld(hs: seq<Held>, fold: int -> int): seq<Held> { SortBy(hs, ByText(fold)) }

  lemma {:induction false} InsertHeld(h: Held, hs: seq<Held>, fold: int -> int)
    requires Apart(hs) && h.p !in Places(hs)
    ensures Apart(Insert(h, hs, ByText(fold))) && Places(Insert(h, hs, ByText(fold))) == Places(hs) + {h.p}
    ensures Texts(Insert(h, hs, ByText(fold))) == Insert(h.entry, Texts(hs), ByName(fold))
  {
    if hs == [] || Ordered(h.entry, hs[0].entry, fold) {
      assert ([h] + hs)[1..] == hs;
    } else {
      var rest := Insert(h, hs[1..], ByText(fold));
      assert ([hs[0]] + rest)[1..] == rest;
      InsertHeld(h, hs[1..], fold);
    }
  }

  lemma {:induction false} SortKeeps(hs: seq<Held>, fold: int -> int)
    requires Apart(hs)
    ensures Apart(SortHeld(hs, fold)) && Places(SortHeld(hs, fold)) == Places(hs)
    ensures Texts(SortHeld(hs, fold)) == Sort(Texts(hs), fold)
  {
    if hs != [] {
      SortKeeps(hs[1..], fold);
      InsertHeld(hs[0], SortHeld(hs[1..], fold), fold);
    }
  }

  // The entry array

  /** The array holds these entries first, and nothing after them. */
  ghost predicate Filled(entries: array<Option<Held>>, hs: seq<Held>)
    reads entries
  {
    && |hs| <= entries.Length
    && (forall i :: 0 <= i < |hs| ==> entries[i] == Some(hs[i]))
    && forall i :: |hs| <= i < entries.Length ==> entries[i] == None
  }

  /** Frees what the array holds up to and including `last`. */
  method FreeAll(heap: Heap, entries: array<Option<Held>>, last: nat, ghost hs: seq<Held>, ghost base: set<nat>)
    requires heap.Valid() && Filled(entries, hs) && |hs| <= last + 1
    requires heap.live == base + Places(hs) && base !! Places(hs) && Apart(hs)
    modifies heap`live
    ensures heap.Valid() && heap.live == base
  {
    var index := 0;
    assert hs[0..] == hs;
    while index <= last && index < entries.Length
      invariant 0 <= index <= entries.Length && heap.Valid()
      invariant index <= |hs| ==>
                  && heap.live == base + Places(hs[index..])
                  && base !! Places(hs[index..]) && Apart(hs[index..])
      invariant index >= |hs| ==> heap.live == base
      decreases entries.Length - index
    {
      if index < |hs| {
        assert hs[index..][1..] == hs[index + 1..] && hs[index..][0] == hs[index];
      }
      if entries[index].Some? {
        heap.Free(entries[index].value.p);
      }
      index := index + 1;
    }
  }

  // The conversion loop

  /** What the remaining heap must be able to give for these entries. */
  predicate Ample(words: seq<Entry>, available: nat) {
    8 * |words| + 2 * Total(words) <= available && Total(words) <= SIZE_MAX / 2
  }

  lemma {:induction false} TotalParts(a: seq<Entry>, b: seq<Entry>)
    ensures Total(a + b) == Total(a) + Total(b) - 1 && Total(a) >= 1 && Total(b) >= 1
  {
    if a == [] {
      assert a + b == b;
      TotalPositive(b);
    } else {
      assert (a + b)[1..] == a[1..] + b;
      TotalParts(a[1..], b);
    }
  }

  lemma {:induction false} TotalPositive(a: seq<Entry>)
    ensures Total(a) >= 1
  {
    if a != [] {
      TotalPositive(a[1..]);
    }
  }

  /** One entry: decoded into an allocation of its own. `again` is whether the second of the
      two conversions succeeds as well. */
  method ConvertEntry(heap: Heap, block: seq<Byte>, at: nat, total: nat, decode: Decoder, again: bool)
      returns (held: Option<Held>, error: Option<Error>)
    requires heap.Valid()
    modifies heap
    ensures heap.Valid()
    ensures held.None? ==> error.Some? && heap.live == old(heap.live)
    ensures held.Some? ==> held.value.p !in old(heap.live) && heap.live == old(heap.live) + {held.value.p}
    ensures error.None? ==> held.Some? && Decoded(block, at, decode) == Some(held.value.entry)
                            && total + |held.value.entry| + 1 <= SIZE_MAX
    ensures error.Some? && Decoded(block, at, decode).Some? ==>
              var n := |Decoded(block, at, decode).value|;
              !again || total + n + 1 > SIZE_MAX || 2 * (n + 1) > heap.available
  {
    if at >= |block| {
      return None, Some(InvalidParameter);
    }
    var end := NulFrom(block, at);
    if end == None || end.value - at > INT_MAX {
      return None, Some(InvalidParameter);
    }
    var decoded := if end.value == at then None else decode(block[at..end.value]);
    var length := if decoded.Some? then |decoded.value| else 0;
    if length == 0 || total > SIZE_MAX - length - 1 {
      return None, Some(if length == 0 then NotConvertible else NotEnoughMemory);
    }
    var p := heap.Allocate(2 * (length + 1));
    if p == None {
      return None, Some(NotEnoughMemory);
    }
    held := Some(Held(p.value, decoded.value));
    if !again {
      return held, Some(NotConvertible);
    }
    return held, None;
  }

  /** The parsed entries, after those already held. */
  ghost function After(hs: seq<Held>, rest: Option<seq<Entry>>): Option<seq<Entry>> {
    match rest
    case None => None
    case Some(words) => Some(Texts(hs) + words)
  }

  lemma NoHeld()
    ensures Texts([]) == [] && Places([]) == {} && Apart([]) && Total([]) == 1
  {
  }

  lemma AfterNothing(rest: Option<seq<Entry>>)
    ensures After([], rest) == rest
  {
    if rest.Some? {
      assert [] + rest.value == rest.value;
    }
  }

  lemma AfterLast(block: seq<Byte>, offset: nat, decode: Decoder, hs: seq<Held>)
    requires offset <= |block|
    ensures After(hs, Parsed(block, offset, 0, decode)) == if Zeros(block, offset) then Some(Texts(hs)) else None
  {
    assert Texts(hs) + [] == Texts(hs);
  }

  lemma AfterOne(block: seq<Byte>, offset: nat, left: nat, decode: Decoder, hs: seq<Held>, h: Held)
    requires left > 0 && Decoded(block, offset, decode) == Some(h.entry)
    ensures After(hs, Parsed(block, offset, left, decode))
         == After(hs + [h], Parsed(block, NextAt(block, offset), left - 1, decode))
  {
    AppendHeld(hs, h);
    var rest := Parsed(block, NextAt(block, offset), left - 1, decode);
    if rest.Some? {
      assert Texts(hs) + ([h.entry] + rest.value) == (Texts(hs) + [h.entry]) + rest.value;
    }
  }

  /** Running out on the next entry means that the heap could not hold them all. */
  lemma NotAmple(block: seq<Byte>, offset: nat, left: nat, decode: Decoder, hs: seq<Held>, total: nat, available: nat)
    requires left > 0 && Parsed(block, offset, left, decode).Some? && total == Total(Texts(hs))
    requires var n := |Decoded(block, offset, decode).value|; total + n + 1 > SIZE_MAX || 2 * (n + 1) > available
    ensures !Ample(Texts(hs) + Parsed(block, offset, left, decode).value, available)
  {
    var word := Decoded(block, offset, decode).value;
    var rest := Parsed(block, NextAt(block, offset), left - 1, decode).value;
    TotalParts(Texts(hs), [word] + rest);
    assert ([word] + rest)[1..] == rest;
    TotalPositive(rest);
  }

  method StoreEntry(entries: array<Option<Held>>, h: Held, ghost hs: seq<Held>, index: nat)
      returns (ghost longer: seq<Held>)
    requires Filled(entries, hs) && |hs| == index < entries.Length
    modifies entries
    ensures longer == hs + [h] && Filled(entries, longer)
    ensures Places(longer) == Places(hs) + {h.p} && (Apart(hs) && h.p !in Places(hs) ==> Apart(longer))
  {
    entries[index] := Some(h);
    AppendHeld(hs, h);
    longer := hs + [h];
  }

  /** The live allocations are those of `base` and of the entries. */
  ghost predicate Owned(heap: Heap, base: set<nat>, hs: seq<Held>)
    reads heap
  {
    heap.Valid() && heap.live == base + Places(hs) && base !! Places(hs) && Apart(hs)
  }

  /** One turn of the conversion loop. */
  method FillNext(heap: Heap, entries: array<Option<Held>>, block: seq<Byte>, offset: nat, total: nat, decode: Decoder,
                  again: bool, index: nat, ghost hs: seq<Held>, ghost base: set<nat>)
      returns (error: Option<Error>, length: nat, ghost h: Held, ghost longer: seq<Held>)
    requires Filled(entries, hs) && |hs| == index < entries.Length && Owned(heap, base, hs)
    modifies heap, entries
    ensures Filled(entries, longer) && |longer| <= index + 1 && Owned(heap, base, longer)
    ensures error.None? ==> longer == hs + [h] && length == |h.entry| && Decoded(block, offset, decode) == Some(h.entry)
                            && total + length + 1 <= SIZE_MAX
    ensures error.Some? && Decoded(block, offset, decode).Some? && again ==>
              var n := |Decoded(block, offset, decode).value|; total + n + 1 > SIZE_MAX || 2 * (n + 1) > heap.available
  {
    hide Decoded, Apart, Places;
    var held;
    held, error := ConvertEntry(heap, block, offset, total, decode, again);
    length, h, longer := 0, Held(0, []), hs;
    if held.Some? {
      length, h := |held.value.entry|, held.value;
      longer := StoreEntry(entries, held.value, hs, index);
    }
  }

  /** The loop over the input entries. */
  method Fill(heap: Heap, entries: array<Option<Held>>, block: seq<Byte>, decode: Decoder, again: nat -> bool,
              ghost base: set<nat>)
      returns (error: Option<Error>, converted: nat, offset: nat, total: nat, ghost hs: seq<Held>)
    requires heap.Valid() && heap.live == base && Filled(entries, [])
    modifies heap, entries
    ensures Filled(entries, hs) && |hs| <= converted + 1 && converted <= entries.Length && Owned(heap, base, hs)
    ensures error.None? ==> |hs| == entries.Length && offset <= |block| && total == Total(Texts(hs)) <= SIZE_MAX
    ensures error.None? ==>
              Parsed(block, 0, entries.Length, decode) == if Zeros(block, offset) then Some(Texts(hs)) else None
    ensures error.Some? && Parsed(block, 0, entries.Length, decode).Some? && (forall i: nat :: again(i)) ==>
              !Ample(Parsed(block, 0, entries.Length, decode).value, heap.available)
  {
    hide Parsed, Decoded, After, Total, Ample, Texts, Owned, Filled;
    NoHeld();
    hs, converted, offset, total := [], 0, 0, 1;
    var n := entries.Length;
    AfterNothing(Parsed(block, 0, n, decode));
    OwnsNothing(heap, base);
    while converted < n
      invariant Filled(entries, hs) && |hs| == converted <= n && offset <= |block| && Owned(heap, base, hs)
      invariant total == Total(Texts(hs)) <= SIZE_MAX
      invariant Parsed(block, 0, n, decode) == After(hs, Parsed(block, offset, n - converted, decode))
    {
      var e, length;
      ghost var h, longer;
      e, length, h, longer :=
        FillNext(heap, entries, block, offset, total, decode, again(converted), converted, hs, base);
      if e.Some? {
        FailedTurn(block, offset, n - converted, decode, hs, total, heap.available, again(converted));
        return e, converted, offset, total, longer;
      }
      AfterOne(block, offset, n - converted, decode, hs, h);
      AppendHeld(hs, h);
      TotalAppend(Texts(hs), h.entry);
      hs := longer;
      total := total + length + 1;
      offset := NextAt(block, offset);
      converted := converted + 1;
    }
    AfterLast(block, offset, decode, hs);
    error := None;
  }

  lemma OwnsNothing(heap: Heap, base: set<nat>)
    requires heap.Valid() && heap.live == base
    ensures Owned(heap, base, [])
  {
  }

  /** A turn that fails although the input is well formed ran out of room. */
  lemma FailedTurn(block: seq<Byte>, offset: nat, left: nat, decode: Decoder, hs: seq<Held>, total: nat,
                   available: nat, again: bool)
    requires left > 0 && total == Total(Texts(hs))
    requires Decoded(block, offset, decode).Some? && again ==>
               var n := |Decoded(block, offset, decode).value|; total + n + 1 > SIZE_MAX || 2 * (n + 1) > available
    ensures var all := After(hs, Parsed(block, offset, left, decode));
            all.Some? && again ==> !Ample(all.value, available)
  {
    if Parsed(block, offset, left, decode).Some? && again {
      NotAmple(block, offset, left, decode, hs, total, available);
    }
  }

  // After the conversion

  method SkipNuls(block: seq<Byte>, offset: nat) returns (end: nat)
    requires offset <= |block|
    ensures offset <= end <= |block|
    ensures end == |block| <==> Zeros(block, offset)
  {
    end := offset;
    while end < |block| && block[end] == 0
      invariant offset <= end <= |block| && forall k :: offset <= k < end ==> block[k] == 0
    {
      end := end + 1;
    }
  }

  /** The library sort, permuting the array in place. */
  method SortEntries(entries: array<Option<Held>>, hs: seq<Held>, fold: int -> int)
    requires Filled(entries, hs)
    modifies entries
    ensures Filled(entries, SortHeld(hs, fold))
  {
    var sorted := SortHeld(hs, fold);
    for i := 0 to |sorted|
      invariant forall k :: 0 <= k < i ==> entries[k] == Some(sorted[k])
      invariant forall k :: |hs| <= k < entries.Length ==> entries[k] == None
    {
      entries[i] := Some(sorted[i]);
    }
  }

  method HeldOf(entries: array<Option<Held>>, ghost hs: seq<Held>) returns (r: seq<Held>)
    requires Filled(entries, hs) && |hs| == entries.Length
    ensures r == hs
  {
    r := [];
    for i := 0 to entries.Length
      invariant r == hs[..i]
    {
      r := r + [entries[i].value];
    }
  }

  /** One entry and its terminator, copied to its place. */
  method CopyEntry(result: array<Cell>, at: nat, e: Entry)
    requires at + |e| < result.Length
    modifies result
    ensures result[..at] == old(result[..at]) && result[at..at + |e| + 1] == Ended(e)
    ensures forall k :: at + |e| + 1 <= k < result.Length ==> result[k] == old(result[k])
  {
    for i := 0 to |e|
      invariant result[..at] == old(result[..at]) && forall k :: 0 <= k < i ==> result[at + k] == e[k]
      invariant forall k :: at + i <= k < result.Length ==> result[k] == old(result[k])
    {
      result[at + i] := e[i];
    }
    result[at + |e|] := 0;
  }

  lemma {:induction false} TotalPrefix(es: seq<Entry>, i: nat)
    requires i < |es|
    ensures Total(es[..i]) + |es[i]| + 1 <= Total(es)
    ensures Flat(es[..i + 1]) == Flat(es[..i]) + Ended(es[i])
  {
    assert es[..i + 1] == es[..i] + [es[i]] && es == es[..i] + es[i..];
    FlatAppend(es[..i], es[i]);
    TotalParts(es[..i], es[i..]);
    assert es[i..][1..] == es[i + 1..];
    TotalPositive(es[i + 1..]);
  }

  /** The first i entries have been copied, up to `at`; the rest is still zero. */
  ghost predicate Copied(result: array<Cell>, words: seq<Entry>, i: nat, at: nat)
    requires i <= |words|
    reads result
  {
    && result.Length == Total(words) && at < result.Length && at + 1 == Total(words[..i])
    && result[..at] == Flat(words[..i])
    && forall k :: at <= k < result.Length ==> result[k] == 0
  }

  method CopyNext(result: array<Cell>, ghost words: seq<Entry>, ghost i: nat, at: nat, e: Entry)
    requires i < |words| && words[i] == e && Copied(result, words, i, at)
    modifies result
    ensures Copied(result, words, i + 1, at + |e| + 1)
  {
    TotalPrefix(words, i);
    FlatLength(words[..i + 1]);
    FlatLength(words[..i]);
    assert |Flat(words[..i + 1])| == |Flat(words[..i])| + |e| + 1;
    CopyEntry(result, at, e);
    assert result[..at + |e| + 1] == result[..at] + result[at..at + |e| + 1];
  }

  method FreeNext(heap: Heap, hs: seq<Held>, i: nat, ghost base: set<nat>)
    requires i < |hs| && Owned(heap, base, hs[i..])
    modifies heap`live
    ensures Owned(heap, base, hs[i + 1..])
  {
    assert hs[i..][1..] == hs[i + 1..] && hs[i..][0] == hs[i];
    heap.Free(hs[i].p);
  }

  lemma AllCopied(result: array<Cell>, words: seq<Entry>, at: nat)
    requires Copied(result, words, |words|, at)
    ensures result[..] == Flat(words) + [0]
  {
    assert words[..|words|] == words;
    assert result[..] == result[..at] + [0];
  }

  /** Copies the entries out, freeing each as it goes. */
  method CopyOut(heap: Heap, entries: array<Option<Held>>, result: array<Cell>, hs: seq<Held>, ghost base: set<nat>)
    requires Filled(entries, hs) && |hs| == entries.Length && Owned(heap, base, hs)
    requires result.Length == Total(Texts(hs)) && forall k :: 0 <= k < result.Length ==> result[k] == 0
    modifies heap`live, result
    ensures heap.Valid() && heap.live == base
    ensures result[..] == Flat(Texts(hs)) + [0]
  {
    ghost var words := Texts(hs);
    assert hs[0..] == hs && words[..0] == [];
    TotalPositive(words);
    CopyEach(heap, entries, result, hs, base);
    assert hs[|hs|..] == [];
  }

  method CopyEach(heap: Heap, entries: array<Option<Held>>, result: array<Cell>, hs: seq<Held>, ghost base: set<nat>)
    requires Filled(entries, hs) && |hs| == entries.Length
    requires Owned(heap, base, hs[0..]) && Copied(result, Texts(hs), 0, 0)
    modifies heap`live, result
    ensures Owned(heap, base, hs[|hs|..]) && result[..] == Flat(Texts(hs)) + [0]
  {
    hide Owned, Copied, Texts, Flat;
    var at: nat := 0;
    for index := 0 to entries.Length
      invariant Owned(heap, base, hs[index..]) && Copied(result, Texts(hs), index, at)
    {
      var h := entries[index].value;
      TextAt(hs, index);
      CopyNext(result, Texts(hs), index, at, h.entry);
      FreeNext(heap, hs, index, base);
      at := at + |h.entry| + 1;
    }
    AllCopied(result, Texts(hs), at);
  }

  lemma {:induction false} TextAt(hs: seq<Held>, i: nat)
    requires i < |hs|
    ensures Texts(hs)[i] == hs[i].entry
  {
    if i > 0 {
      TextAt(hs[1..], i - 1);
    }
  }

  // The whole conversion

  datatype Outcome = Done(p: nat, block: seq<Cell>) | Failed(error: Error)

  /** What `unix_env_to_win_block` rejects before it allocates anything. */
  predicate BadRequest(hasBlock: bool, envc: int, length: int) {
    envc < 0 || length < 0 || (envc > 0 && (!hasBlock || length == 0)) || (envc == 0 && length != 0)
  }

  /** Failure gives every allocation back; success keeps exactly the returned one. On success
      the block is the sorted entries, each terminated, and one more terminator, filling the
      computed size exactly. */
  method Convert(block: Option<seq<Byte>>, envc: int, length: int, decode: Decoder, fold: int -> int,
                 again: nat -> bool, heap: Heap) returns (r: Outcome)
    requires heap.Valid() && (block.Some? ==> length <= |block.value|)
    modifies heap
    ensures heap.Valid()
    ensures r.Failed? ==> heap.live == old(heap.live)
    ensures r.Done? ==> r.p !in old(heap.live) && heap.live == old(heap.live) + {r.p}
    ensures BadRequest(block.Some?, envc, length) ==> r == Failed(InvalidParameter)
    ensures !BadRequest(block.Some?, envc, length) && envc == 0 ==>
              if heap.available >= 4 then r.Done? && r.block == [0, 0] else r.Failed?
    ensures !BadRequest(block.Some?, envc, length) && envc > 0 ==>
              match Parsed(block.value[..length], 0, envc, decode)
              case None => r.Failed?
              case Some(words) =>
                && (r.Done? ==> r.block == Flat(Sort(words, fold)) + [0] && |r.block| == Total(words))
                && (Ample(words, heap.available) && (forall i: nat :: again(i)) ==> r.Done?)
  {
    if envc < 0 || length < 0 || (envc > 0 && (block == None || length == 0)) {
      return Failed(InvalidParameter);
    }
    if envc == 0 {
      if length != 0 {
        return Failed(InvalidParameter);
      }
      var p := heap.Allocate(4);
      return if p.Some? then Done(p.value, [0, 0]) else Failed(NotEnoughMemory);
    }
    r := ConvertEntries(block.value[..length], envc, decode, fold, again, heap);
  }

  lemma {:induction false} ParsedLength(block: seq<Byte>, at: nat, left: nat, decode: Decoder)
    ensures Parsed(block, at, left, decode).Some? ==> |Parsed(block, at, left, decode).value| == left
    decreases left
  {
    if left > 0 {
      ParsedLength(block, NextAt(block, at), left - 1, decode);
    }
  }

  lemma TooFewPlaces(block: seq<Byte>, envc: nat, decode: Decoder, available: nat)
    requires 8 * envc > available
    ensures Parsed(block, 0, envc, decode).Some? ==> !Ample(Parsed(block, 0, envc, decode).value, available)
  {
    ParsedLength(block, 0, envc, decode);
    if Parsed(block, 0, envc, decode).Some? {
      TotalPositive(Parsed(block, 0, envc, decode).value);
    }
  }

  lemma NotAmpleTotal(words: seq<Entry>, available: nat)
    ensures Total(words) > SIZE_MAX / 2 || 2 * Total(words) > available ==> !Ample(words, available)
  {
  }

  lemma {:induction false} InsertTotal(e: Entry, es: seq<Entry>, fold: int -> int)
    ensures Total(Insert(e, es, ByName(fold))) == Total(es) + |e| + 1
  {
    if es == [] || Ordered(e, es[0], fold) {
      assert ([e] + es)[1..] == es;
    } else {
      var rest := Insert(e, es[1..], ByName(fold));
      assert ([es[0]] + rest)[1..] == rest;
      InsertTotal(e, es[1..], fold);
    }
  }

  /** Sorting does not change the size of the block. */
  lemma {:induction false} SortTotal(es: seq<Entry>, fold: int -> int)
    ensures Total(Sort(es, fold)) == Total(es)
  {
    if es != [] {
      SortTotal(es[1..], fold);
      InsertTotal(es[0], Sort(es[1..], fold), fold);
    }
  }

  /** Sorting, then copying into a block of the computed size. */
  method Assemble(heap: Heap, entries: array<Option<Held>>, hs: seq<Held>, total: nat, list: nat, fold: int -> int,
                  ghost before: set<nat>) returns (r: Outcome)
    requires Filled(entries, hs) && |hs| == entries.Length && list !in before && Owned(heap, before + {list}, hs)
    requires total == Total(Texts(hs))
    modifies heap, entries
    ensures heap.Valid()
    ensures r.Failed? ==> heap.live == before && 2 * total > heap.available
    ensures r.Done? ==> r.p !in before && heap.live == before + {r.p}
    ensures r.Done? ==> r.block == Flat(Sort(Texts(hs), fold)) + [0] && |r.block| == total
  {
    ghost var base := before + {list};
    SortEntries(entries, hs, fold);
    ghost var sorted := SortHeld(hs, fold);
    SortKeeps(hs, fold);
    SortTotal(Texts(hs), fold);
    assert Owned(heap, base, sorted);
    var p := heap.Allocate(2 * total);
    if p == None {
      FreeAll(heap, entries, entries.Length, sorted, base);
      heap.Free(list);
      return Failed(NotEnoughMemory);
    }
    var result := new Cell[total](_ => 0);
    CopyOut(heap, entries, result, SortHeld(hs, fold), base + {p.value});
    heap.Free(list);
    FlatLength(Texts(sorted));
    r := Done(p.value, result[..]);
  }

  method ConvertEntries(block: seq<Byte>, envc: nat, decode: Decoder, fold: int -> int, again: nat -> bool, heap: Heap)
      returns (r: Outcome)
    requires heap.Valid()
    modifies heap
    ensures heap.Valid()
    ensures r.Failed? ==> heap.live == old(heap.live)
    ensures r.Done? ==> r.p !in old(heap.live) && heap.live == old(heap.live) + {r.p}
    ensures match Parsed(block, 0, envc, decode)
            case None => r.Failed?
            case Some(words) =>
              && (r.Done? ==> r.block == Flat(Sort(words, fold)) + [0] && |r.block| == Total(words))
              && (Ample(words, heap.available) && (forall i: nat :: again(i)) ==> r.Done?)
  {
    hide Parsed, Total, Ample, Flat, Sort;
    ghost var before := heap.live;
    var list := heap.Allocate(8 * envc);
    if list == None {
      TooFewPlaces(block, envc, decode, heap.available);
      return Failed(NotEnoughMemory);
    }
    var entries: array<Option<Held>> := new Option<Held>[envc](_ => None);
    ghost var base := heap.live;
    ghost var hs;
    var error, converted, offset, total;
    error, converted, offset, total, hs := Fill(heap, entries, block, decode, again, base);
    if error.Some? {
      FreeAll(heap, entries, converted, hs, base);
      heap.Free(list.value);
      return Failed(error.value);
    }
    var end := SkipNuls(block, offset);
    if end != |block| || total > SIZE_MAX / 2 {
      NotAmpleTotal(Texts(hs), heap.available);
      FreeAll(heap, entries, converted, hs, base);
      heap.Free(list.value);
      return Failed(InvalidParameter);
    }
    var held := HeldOf(entries, hs);
    r := Assemble(heap, entries, held, total, list.value, fold, before);
    NotAmpleTotal(Texts(hs), heap.available);
  }

  lemma {:induction false} ParsedNonEmpty(block: seq<Byte>, at: nat, left: nat, decode: Decoder)
    ensures Parsed(block, at, left, decode).Some? ==> NonEmpty(Parsed(block, at, left, decode).value)
    decreases left
  {
    if left > 0 {
      ParsedNonEmpty(block, NextAt(block, at), left - 1, decode);
    }
  }

  lemma SortedNonEmpty(es: seq<Entry>, fold: int -> int)
    requires NonEmpty(es)
    ensures NonEmpty(Sort(es, fold))
  {
    SortSorts(es, fold);
    forall i | 0 <= i < |Sort(es, fold)|
      ensures Sort(es, fold)[i] != []
    {
      assert Sort(es, fold)[i] in multiset(Sort(es, fold));
      assert Sort(es, fold)[i] in es;
    }
  }

  /** Reading the finished block up to its empty entry, which comes exactly at its end, gives
      the decoded input entries, sorted. */
  lemma BlockReadsBack(block: seq<Byte>, envc: nat, decode: Decoder, fold: int -> int, words: seq<Entry>)
    requires Parsed(block, 0, envc, decode) == Some(words)
    ensures |words| == envc
    ensures EntriesFrom(Flat(Sort(words, fold)) + [0], 0) == Some(Sort(words, fold))
    ensures Sorted(Sort(words, fold), fold) && multiset(Sort(words, fold)) == multiset(words)
  {
    ParsedLength(block, 0, envc, decode);
    ParsedNonEmpty(block, 0, envc, decode);
    SortedNonEmpty(words, fold);
    SortSorts(words, fold);
    var whole := Flat(Sort(words, fold)) + [0];
    assert whole[0..] == whole;
    FlatBack(whole, 0, Sort(words, fold));
  }

  /** The entries of a written block, with any number of NULs after it, are read back. */
  lemma {:induction false} WrittenEntriesBack(block: seq<Byte>, at: nat, words: seq<seq<Byte>>, decode: Decoder)
    requires Holds(block, at, NulBlock(words)) && Zeros(block, at + |NulBlock(words)|)
    requires forall k :: 0 <= k < |words| ==>
               NulFree(words[k]) && 0 < |words[k]| <= INT_MAX && decode(words[k]) != Some([])
    ensures Parsed(block, at, |words|, decode) == AllDecoded(words, decode)
    decreases |words|
  {
    if words == [] {
      assert at <= |block|;
    } else {
      hide Holds, NulFrom, NulFree;
      FirstWord(block, at, words);
      assert Decoded(block, at, decode) == decode(words[0]);
      WrittenEntriesBack(block, at + |words[0]| + 1, words[1..], decode);
    }
  }
}
