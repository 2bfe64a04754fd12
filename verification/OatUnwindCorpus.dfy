/** The generator of corrupted unwind tables: one edit per case, checksum rewritten. */
module OatUnwindCorpus {
  import opened OatBytes
  import opened OatEdits
  import opened OatUnwind
  import opened Options
  import opened SortedSets

  // The tables of mutations

  function HeaderMutations(p: Bytes): (ms: seq<Mutation>)
    requires Room(p)
    ensures |ms| == 12 && AllFit(p, ms)
  {
    [ Mutation("magic", PutByte(0, Flip(p[0])), true),
      Mutation("version", PutWord(4, 2), true),
      Mutation("header-size", PutWord(8, 52), true),
      Mutation("target-machine", PutWord(12, 0xAA64), true),
      Mutation("entry-size", PutWord(16, 16), true),
      Mutation("entry-count", PutWord(20, 0), true),
      Mutation("entries-offset", PutWord(24, 52), true),
      Mutation("unwind-offset", PutWord(28, BlobAt(p) + 4), true),
      Mutation("unwind-size", PutWord(32, U32(p, 32) - 4), true),
      Mutation("code-begin", PutWord(36, CodeBegin(p) + 1), true),
      Mutation("code-end", PutWord(40, CodeEnd(p) - 1), true),
      Mutation("checksum", PutByte(CHECKSUM_AT, Flip(p[CHECKSUM_AT])), false) ]
  }

  function EntryMutations(p: Bytes, section: int): (ms: seq<Mutation>)
    requires Room(p) && Count(p) >= 2
    ensures |ms| == 7 && AllFit(p, ms)
  {
    var first, second, last := EntryAt(0), EntryAt(1), EntryAt(Count(p) - 1);
    [ Mutation("entry-before-code", PutTriple(first, CodeBegin(p) - 1, End(p, 0), InfoAt(p, 0)), true),
      Mutation("entry-overlap", PutTriple(second, End(p, 0) - 1, End(p, 1), InfoAt(p, 1)), true),
      Mutation("entry-empty", PutTriple(first, Begin(p, 0), Begin(p, 0), InfoAt(p, 0)), true),
      Mutation("entry-after-code",
               PutTriple(last, Begin(p, Count(p) - 1), CodeEnd(p) + 1, InfoAt(p, Count(p) - 1)), true),
      Mutation("entry-unaligned-info", PutTriple(first, Begin(p, 0), End(p, 0), InfoAt(p, 0) + 1), true),
      Mutation("entry-info-before-blob", PutTriple(first, Begin(p, 0), End(p, 0), section + BlobAt(p) - 4), true),
      Mutation("entry-info-at-end", PutTriple(last, Begin(p, Count(p) - 1), CodeEnd(p), section + |p|), true) ]
  }

  function SlotCount(p: Bytes, local: int): int
    requires 0 <= local <= |p| - 4
  {
    p[local + 2]
  }

  function DescriptorEnd(p: Bytes, local: int): int
    requires 0 <= local <= |p| - 4
  {
    local + 4 + (SlotCount(p, local) + 1) / 2 * 2 * 2
  }

  function InfoMutations(p: Bytes, first: int, operation: int, odd: int): (ms: seq<Mutation>)
    requires 0 <= first < |p| && 0 <= operation < |p| - 5
    requires 0 <= odd <= |p| - 4 && odd + 4 + SlotCount(p, odd) * 2 < |p|
    ensures |ms| == 4 && AllFit(p, ms)
  {
    [ Mutation("info-version", PutByte(first, 2), true),
      Mutation("info-volatile-register", PutByte(operation + 5, 0x10), true),
      Mutation("info-unsupported-operation", PutByte(operation + 5, 0x06), true),
      Mutation("info-nonzero-padding", PutByte(odd + 4 + SlotCount(p, odd) * 2, 1), true) ]
  }

  // The generator

  predicate Usable(p: Bytes) {
    && |p| >= 64
    && Count(p) >= 2
    && U32(p, 24) == HEADER
    && HEADER + Count(p) * ENTRY == BlobAt(p)
    && BlobAt(p) < |p|
  }

  /** The descriptors' positions in the payload, ascending. */
  function Locals(p: Bytes, section: int): (r: seq<int>)
    requires Room(p)
    ensures |r| == |Sorted(Infos(p))|
    ensures forall k :: 0 <= k < |r| ==> r[k] == Sorted(Infos(p))[k] - section
  {
    var offsets := Sorted(Infos(p));
    seq(|offsets|, k requires 0 <= k < |offsets| => offsets[k] - section)
  }

  predicate LocalsUsable(p: Bytes, locals: seq<int>)
    requires Room(p)
  {
    && (forall k :: 0 <= k < |locals| ==> BlobAt(p) <= locals[k] <= |p| - 4)
    && (forall k :: 0 <= k < |locals| ==> DescriptorEnd(p, locals[k]) <= |p|)
  }

  /** The first descriptor with any operation, or with an odd number of slots. */
  function FirstWith(p: Bytes, locals: seq<int>, odd: bool): (r: Option<int>)
    requires forall k :: 0 <= k < |locals| ==> 0 <= locals[k] <= |p| - 4
    ensures r.Some? ==> exists k :: 0 <= k < |locals| && locals[k] == r.value && Wanted(p, locals[k], odd)
    ensures r.None? ==> forall k :: 0 <= k < |locals| ==> !Wanted(p, locals[k], odd)
  {
    if locals == [] then None
    else if Wanted(p, locals[0], odd) then Some(locals[0])
    else
      var r := FirstWith(p, locals[1..], odd);
      assert r.Some? ==> forall k :: 0 <= k < |locals| - 1 ==> locals[1..][k] == locals[k + 1];
      r
  }

  /** The descriptor chosen is the first that will do. */
  lemma {:induction false} FirstIsChosen(p: Bytes, locals: seq<int>, odd: bool, k: nat)
    requires forall j :: 0 <= j < |locals| ==> 0 <= locals[j] <= |p| - 4
    requires k < |locals| && Wanted(p, locals[k], odd) && forall j :: 0 <= j < k ==> !Wanted(p, locals[j], odd)
    ensures FirstWith(p, locals, odd) == Some(locals[k])
  {
    hide Wanted;
    if k > 0 {
      assert forall j :: 0 <= j < |locals| - 1 ==> locals[1..][j] == locals[j + 1];
      FirstIsChosen(p, locals[1..], odd, k - 1);
    }
  }

  predicate Wanted(p: Bytes, local: int, odd: bool)
    requires 0 <= local <= |p| - 4
  {
    if odd then SlotCount(p, local) % 2 == 1 else SlotCount(p, local) > 0
  }

  /** The descriptors the generator edits. */
  datatype Targets = Targets(first: int, operation: int, odd: int)

  predicate TargetsFit(p: Bytes, t: Targets) {
    && 0 <= t.first < |p|
    && 0 <= t.operation < |p| - 5
    && 0 <= t.odd <= |p| - 4 && t.odd + 4 + SlotCount(p, t.odd) * 2 < |p|
  }

  lemma WantedHasRoom(p: Bytes, local: int, odd: bool)
    requires 0 <= local <= |p| - 4 && DescriptorEnd(p, local) <= |p| && Wanted(p, local, odd)
    ensures local < |p| - 5
    ensures odd ==> local + 4 + SlotCount(p, local) * 2 < |p|
  {
  }

  function FindTargets(p: Bytes, section: int): (r: Option<Targets>)
    ensures r.Some? ==> Usable(p) && TargetsFit(p, r.value)
  {
    if !Usable(p) then None
    else
      var locals := Locals(p, section);
      if locals == [] || !LocalsUsable(p, locals) then None
      else
        var operation, odd := FirstWith(p, locals, false), FirstWith(p, locals, true);
        if operation == None || odd == None then None
        else
          WantedHasRoom(p, operation.value, false);
          WantedHasRoom(p, odd.value, true);
          Some(Targets(locals[0], operation.value, odd.value))
  }

  function MutationTable(p: Bytes, section: int, t: Targets): (ms: seq<Mutation>)
    requires Usable(p) && TargetsFit(p, t)
    ensures |ms| == 23 && AllFit(p, ms)
  {
    HeaderMutations(p) + EntryMutations(p, section) + InfoMutations(p, t.first, t.operation, t.odd)
  }

  /** The corpus; None where the generator raises. */
  function Corpus(p: Bytes, section: int): (r: Option<seq<Case>>) {
    match FindTargets(p, section)
    case None => None
    case Some(t) =>
      var ms := MutationTable(p, section, t);
      if AllPackable(ms) then Some(Mutants(p, ms, CHECKSUM_AT)) else None
  }
}
