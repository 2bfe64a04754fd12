/** Every corrupted unwind table the generator builds is rejected by the validator. */
module OatUnwindRejection {
  import opened OatBytes
  import opened OatEdits
  import opened OatUnwind
  import opened OatUnwindCorpus
  import opened Options
  import opened SortedSets
  import opened Widths

  /** Header words other than the entry count that are constant in every accepted table. */
  lemma ConstantWordRejected(p: Bytes, at: int, v: int, codeBegin: int, codeEnd: int, section: int)
    requires |p| >= HEADER && at in {4, 8, 12, 16, 20, 24} && Word(v)
    requires at == 4 ==> v != 1
    requires at == 8 || at == 24 ==> v != HEADER
    requires at == 12 ==> v != 0x8664
    requires at == 16 ==> v != ENTRY
    requires at == 20 ==> v < 7
    ensures !UnwindOk(Reseal(Put32(p, at, v), CHECKSUM_AT), codeBegin, codeEnd, section)
  {
    var q := WordMutant(p, at, v, CHECKSUM_AT);
  }

  /** The blob offset is determined by the entry count, its size by the payload. */
  lemma BlobWordRejected(p: Bytes, at: int, v: int, codeBegin: int, codeEnd: int, section: int)
    requires HeaderOk(p) && at in {28, 32} && Word(v) && v != U32(p, at)
    ensures !UnwindOk(Reseal(Put32(p, at, v), CHECKSUM_AT), codeBegin, codeEnd, section)
  {
    var q := WordMutant(p, at, v, CHECKSUM_AT);
    WordKept(p, q, at, 4, 20, CHECKSUM_AT);
    WordKept(p, q, at, 4, 60 - at, CHECKSUM_AT);
  }

  lemma BoundWordRejected(p: Bytes, at: int, v: int, codeBegin: int, codeEnd: int, section: int)
    requires |p| >= HEADER && BoundsOk(p, codeBegin, codeEnd) && at in {36, 40} && Word(v) && v != U32(p, at)
    ensures !UnwindOk(Reseal(Put32(p, at, v), CHECKSUM_AT), codeBegin, codeEnd, section)
  {
    var q := WordMutant(p, at, v, CHECKSUM_AT);
  }

  lemma MagicRejected(p: Bytes, codeBegin: int, codeEnd: int, section: int)
    requires HeaderOk(p)
    ensures !UnwindOk(Reseal(p[0 := Flip(p[0])], CHECKSUM_AT), codeBegin, codeEnd, section)
  {
    var q := Reseal(p[0 := Flip(p[0])], CHECKSUM_AT);
    ResealKeeps(p[0 := Flip(p[0])], CHECKSUM_AT);
    assert q[0] == Flip(p[0]) && q[..4][0] == q[0] && p[..4][0] == p[0];
  }

  /** The mutation's result is not accepted. */
  predicate Rejects(p: Bytes, m: Mutation, codeBegin: int, codeEnd: int, section: int) {
    && |p| >= HEADER && Packable(m.edit) && Fits(p, m.edit)
    && !UnwindOk(Mutant(p, m, CHECKSUM_AT), codeBegin, codeEnd, section)
  }

  lemma HeaderMutantRejected(p: Bytes, codeBegin: int, codeEnd: int, section: int, k: nat, m: Mutation)
    requires UnwindOk(p, codeBegin, codeEnd, section) && k < 12
    requires m == HeaderMutations(p)[k] && Packable(m.edit)
    ensures Rejects(p, m, codeBegin, codeEnd, section)
  {
    if k == 0 {
      MagicRejected(p, codeBegin, codeEnd, section);
    } else if k == 11 {
      OneByteRejected(p, codeBegin, codeEnd, section, CHECKSUM_AT, Flip(p[CHECKSUM_AT]));
    } else if k <= 6 {
      ConstantWordRejected(p, m.edit.at, m.edit.v, codeBegin, codeEnd, section);
    } else if k <= 8 {
      BlobWordRejected(p, m.edit.at, m.edit.v, codeBegin, codeEnd, section);
    } else {
      BoundWordRejected(p, m.edit.at, m.edit.v, codeBegin, codeEnd, section);
    }
  }

  // Entries

  lemma HeaderKept(p: Bytes, q: Bytes, at: int, n: int)
    requires Room(p) && Agree(p, q, at, n, CHECKSUM_AT) && at >= HEADER
    ensures Room(q) && Count(q) == Count(p) && BlobAt(q) == BlobAt(p)
    ensures CodeBegin(q) == CodeBegin(p) && CodeEnd(q) == CodeEnd(p)
  {
    WordKept(p, q, at, n, 20, CHECKSUM_AT);
    WordKept(p, q, at, n, 28, CHECKSUM_AT);
    WordKept(p, q, at, n, 36, CHECKSUM_AT);
    WordKept(p, q, at, n, 40, CHECKSUM_AT);
  }

  /** The entry list is wrong at entry i. */
  predicate BadEntry(p: Bytes, section: int, i: int, b: int, e: int, o: int)
    requires Room(p) && 0 <= i < Count(p)
  {
    || b < CodeBegin(p) || b < PreviousEnd(p, i) || e <= b || e > CodeEnd(p)
    || o % 4 != 0 || o < section + BlobAt(p) || o >= section + |p|
  }

  lemma BadEntryStays(p: Bytes, section: int, i: int, b: int, e: int, o: int) returns (q: Bytes)
    requires Room(p) && 0 <= i < Count(p) && Word(b) && Word(e) && Word(o)
    requires BadEntry(p, section, i, b, e, o)
    ensures EntryAt(i) <= |p| - 12 && q == Reseal(Apply(p, PutTriple(EntryAt(i), b, e, o)), CHECKSUM_AT)
    ensures Room(q) && !EntriesOk(q, section)
  {
    q := TripleMutant(p, EntryAt(i), b, e, o, CHECKSUM_AT);
    HeaderKept(p, q, EntryAt(i), 12);
    if i > 0 {
      WordKept(p, q, EntryAt(i), 12, EntryAt(i - 1) + 4, CHECKSUM_AT);
    }
    assert !EntryOk(q, section, i);
  }

  lemma BadEntryRejected(p: Bytes, codeBegin: int, codeEnd: int, section: int, i: int, b: int, e: int, o: int)
    requires Room(p) && 0 <= i < Count(p) && Word(b) && Word(e) && Word(o)
    requires BadEntry(p, section, i, b, e, o)
    ensures EntryAt(i) <= |p| - 12
    ensures !UnwindOk(Reseal(Apply(p, PutTriple(EntryAt(i), b, e, o)), CHECKSUM_AT), codeBegin, codeEnd, section)
  {
    var q := BadEntryStays(p, section, i, b, e, o);
  }

  /** The index of the entry that the k-th entry mutation rewrites. */
  function Rewritten(p: Bytes, k: nat): (i: int)
    requires Room(p) && Count(p) >= 2
    ensures 0 <= i < Count(p)
  {
    if k == 1 then 1 else if k == 3 || k == 6 then Count(p) - 1 else 0
  }

  lemma EntryMutationsBad(p: Bytes, section: int, k: nat)
    requires Room(p) && Count(p) >= 2 && k < 7
    requires EntryOk(p, section, 0) && EntryOk(p, section, Rewritten(p, k))
    ensures var m := EntryMutations(p, section)[k];
            var e := m.edit;
            && m.reseal && e.PutTriple? && e.at == EntryAt(Rewritten(p, k))
            && BadEntry(p, section, Rewritten(p, k), e.begin, e.end, e.info)
  {
  }

  lemma EntryMutantRejected(p: Bytes, codeBegin: int, codeEnd: int, section: int, k: nat, m: Mutation)
    requires Room(p) && Count(p) >= 2 && EntriesOk(p, section) && k < 7
    requires m == EntryMutations(p, section)[k] && Packable(m.edit)
    ensures Rejects(p, m, codeBegin, codeEnd, section)
  {
    EntryMutationsBad(p, section, k);
    BadEntryRejected(p, codeBegin, codeEnd, section, Rewritten(p, k), m.edit.begin, m.edit.end, m.edit.info);
  }

  // Descriptors

  /** A byte of the blob does not affect the entries. */
  lemma InfosKept(p: Bytes, q: Bytes, at: int)
    requires Room(p) && BlobAt(p) <= at && Agree(p, q, at, 1, CHECKSUM_AT)
    ensures Room(q) && Infos(q) == Infos(p)
  {
    HeaderKept(p, q, at, 1);
    forall i | 0 <= i < Count(p)
      ensures InfoAt(q, i) == InfoAt(p, i)
    {
      WordKept(p, q, at, 1, EntryAt(i) + 8, CHECKSUM_AT);
    }
  }

  lemma LocalsKept(p: Bytes, section: int, at: int, b: Byte) returns (q: Bytes)
    requires Room(p) && BlobAt(p) <= at < |p|
    ensures q == Reseal(p[at := b], CHECKSUM_AT) && Room(q) && Locals(q, section) == Locals(p, section)
    ensures q[at] == b && forall i :: HEADER <= i < |p| && i != at ==> q[i] == p[i]
  {
    var r := p[at := b];
    q := Reseal(r, CHECKSUM_AT);
    ResealKeeps(r, CHECKSUM_AT);
    InfosKept(p, q, at);
  }

  /** The k-th descriptor of an accepted table is accepted. */
  lemma DescriptorAccepted(q: Bytes, section: int, k: nat, local: int) returns (d: Bytes)
    requires Room(q) && EntriesOk(q, section) && InfosOk(q, section)
    requires k < |Locals(q, section)| && Locals(q, section)[k] == local
    ensures |d| >= 4 && Info.Decode(d).Some? && 0 <= local && local + |d| <= |q|
    ensures forall j :: 0 <= j < |d| ==> d[j] == q[local + j]
  {
    hide Info.Decode, Sorted, EntriesOk;
    var offsets := Sorted(Infos(q));
    SortedInside(q, section);
    d := Slice(q, section, offsets, k);
    assert Slices(q, section, offsets)[k] == d;
    DecodedIsLong(d);
    NextBeyond(q, section, offsets, k);
  }

  lemma DecodedIsLong(d: Bytes)
    requires Info.Decode(d).Some?
    ensures |d| >= 4
  {
  }

  lemma NextBeyond(q: Bytes, section: int, offsets: seq<int>, k: nat)
    requires Inside(q, section, offsets) && k < |offsets|
    ensures k + 1 < |offsets| ==> offsets[k] < offsets[k + 1]
  {
  }

  /** Writing b at position j of a record makes it undecodable. */
  predicate Spoils(slots: int, j: int, b: Byte) {
    || (j == 0 && b != 1)
    || (j == 5 && slots > 0 && Info.Slots(b % 16, b / 16) == 0)
    || (j == 4 + 2 * slots && slots % 2 == 1 && b != 0)
  }

  lemma SpoiledUndecodable(d: Bytes, j: nat)
    requires |d| >= 4 && (j < |d| ==> Spoils(d[2], j, d[j]))
    requires |d| <= j ==> 4 + (d[2] as int + 1) / 2 * 2 * 2 > j && j > 0
    ensures Info.Decode(d) == None
  {
    if 5 < j < |d| {
      assert d[j..][0] == d[j];
    }
  }

  /** The record at `local`, whatever its length, cannot be decoded. */
  lemma Undecodable(q: Bytes, local: int, j: nat, d: Bytes)
    requires |d| >= 4 && 0 <= local <= |q| - |d| && local + j < |q|
    requires forall i :: 0 <= i < |d| ==> d[i] == q[local + i]
    requires Spoils(q[local + 2], j, q[local + j])
    ensures Info.Decode(d) == None
  {
    assert d[2] == q[local + 2];
    SpoiledUndecodable(d, j);
  }

  lemma SpoiledRejected(q: Bytes, codeBegin: int, codeEnd: int, section: int, k: nat, local: int, j: nat)
    requires Room(q) && k < |Locals(q, section)| && Locals(q, section)[k] == local
    requires 0 <= local <= |q| - 4 && local + j < |q|
    requires Spoils(q[local + 2], j, q[local + j])
    ensures !UnwindOk(q, codeBegin, codeEnd, section)
  {
    if UnwindOk(q, codeBegin, codeEnd, section) {
      var d := DescriptorAccepted(q, section, k, local);
      Undecodable(q, local, j, d);
    }
  }

  /** A byte written into the k-th descriptor so that it cannot be decoded. */
  lemma DescriptorMutantRejected(p: Bytes, codeBegin: int, codeEnd: int, section: int,
                                 k: nat, local: int, at: int, b: Byte)
    requires Room(p) && k < |Locals(p, section)| && Locals(p, section)[k] == local
    requires BlobAt(p) <= local <= |p| - 4 && local <= at < |p| && at != local + 2
    requires Spoils(p[local + 2], at - local, b)
    ensures !UnwindOk(Reseal(p[at := b], CHECKSUM_AT), codeBegin, codeEnd, section)
  {
    var q := LocalsKept(p, section, at, b);
    SpoiledRejected(q, codeBegin, codeEnd, section, k, local, at - local);
  }

  /** The targets are descriptors of the table, fit for their mutations. */
  predicate TargetsAt(p: Bytes, section: int, t: Targets, operation: nat, odd: nat)
    requires Usable(p) && TargetsFit(p, t)
  {
    var locals := Locals(p, section);
    && operation < |locals| && odd < |locals|
    && t == Targets(locals[0], locals[operation], locals[odd])
    && BlobAt(p) <= t.first <= |p| - 4 && BlobAt(p) <= t.operation && BlobAt(p) <= t.odd
    && SlotCount(p, t.operation) > 0 && SlotCount(p, t.odd) % 2 == 1
  }

  lemma TargetsOfTable(p: Bytes, section: int, t: Targets) returns (operation: nat, odd: nat)
    requires FindTargets(p, section) == Some(t)
    ensures TargetsAt(p, section, t, operation, odd)
  {
    hide Locals, FirstWith;
    var locals := Locals(p, section);
    operation := PositionOf(p, locals, false, t.operation);
    odd := PositionOf(p, locals, true, t.odd);
  }

  lemma PositionOf(p: Bytes, locals: seq<int>, odd: bool, local: int) returns (k: nat)
    requires forall k :: 0 <= k < |locals| ==> 0 <= locals[k] <= |p| - 4
    requires FirstWith(p, locals, odd) == Some(local)
    ensures k < |locals| && locals[k] == local && Wanted(p, local, odd)
  {
    hide FirstWith, Wanted;
    k :| 0 <= k < |locals| && locals[k] == local && Wanted(p, locals[k], odd);
  }

  /** The descriptor that the k-th descriptor mutation edits, as a position in the payload. */
  function Edited(t: Targets, k: nat): int {
    if k == 0 then t.first else if k == 3 then t.odd else t.operation
  }

  lemma InfoMutationsSpoil(p: Bytes, t: Targets, k: nat)
    requires TargetsFit(p, t) && k < 4
    requires SlotCount(p, t.operation) > 0 && SlotCount(p, t.odd) % 2 == 1 && t.first <= |p| - 4
    ensures var m := InfoMutations(p, t.first, t.operation, t.odd)[k];
            var local := Edited(t, k);
            && m == Mutation(m.name, PutByte(m.edit.at, m.edit.b), true)
            && 0 <= local <= m.edit.at && local + 4 <= |p| && m.edit.at != local + 2
            && Spoils(p[local + 2], m.edit.at - local, m.edit.b)
  {
  }

  lemma InfoMutantRejected(p: Bytes, codeBegin: int, codeEnd: int, section: int,
                           t: Targets, operation: nat, odd: nat, k: nat)
    requires Usable(p) && TargetsFit(p, t) && TargetsAt(p, section, t, operation, odd) && k < 4
    ensures Rejects(p, InfoMutations(p, t.first, t.operation, t.odd)[k], codeBegin, codeEnd, section)
  {
    hide Locals, UnwindOk;
    InfoMutationsSpoil(p, t, k);
    var e := InfoMutations(p, t.first, t.operation, t.odd)[k].edit;
    DescriptorMutantRejected(p, codeBegin, codeEnd, section,
                             if k == 0 then 0 else if k == 3 then odd else operation, Edited(t, k), e.at, e.b);
  }

  /** The mutations of the list are all rejected. */
  predicate AllRejected(p: Bytes, ms: seq<Mutation>, codeBegin: int, codeEnd: int, section: int) {
    forall k :: 0 <= k < |ms| && Packable(ms[k].edit) ==> Rejects(p, ms[k], codeBegin, codeEnd, section)
  }

  lemma HeaderMutantsRejected(p: Bytes, codeBegin: int, codeEnd: int, section: int)
    requires UnwindOk(p, codeBegin, codeEnd, section)
    ensures AllRejected(p, HeaderMutations(p), codeBegin, codeEnd, section)
  {
    forall k | 0 <= k < 12 && Packable(HeaderMutations(p)[k].edit)
      ensures Rejects(p, HeaderMutations(p)[k], codeBegin, codeEnd, section)
    {
      HeaderMutantRejected(p, codeBegin, codeEnd, section, k, HeaderMutations(p)[k]);
    }
  }

  lemma EntryMutantsRejected(p: Bytes, codeBegin: int, codeEnd: int, section: int)
    requires Room(p) && Count(p) >= 2 && EntriesOk(p, section)
    ensures AllRejected(p, EntryMutations(p, section), codeBegin, codeEnd, section)
  {
    forall k | 0 <= k < 7 && Packable(EntryMutations(p, section)[k].edit)
      ensures Rejects(p, EntryMutations(p, section)[k], codeBegin, codeEnd, section)
    {
      EntryMutantRejected(p, codeBegin, codeEnd, section, k, EntryMutations(p, section)[k]);
    }
  }

  lemma InfoMutantsRejected(p: Bytes, codeBegin: int, codeEnd: int, section: int,
                            t: Targets, operation: nat, odd: nat)
    requires Usable(p) && TargetsFit(p, t) && TargetsAt(p, section, t, operation, odd)
    ensures AllRejected(p, InfoMutations(p, t.first, t.operation, t.odd), codeBegin, codeEnd, section)
  {
    forall k | 0 <= k < 4
      ensures Rejects(p, InfoMutations(p, t.first, t.operation, t.odd)[k], codeBegin, codeEnd, section)
    {
      InfoMutantRejected(p, codeBegin, codeEnd, section, t, operation, odd, k);
    }
  }

  lemma AllRejectedConcat(p: Bytes, ms: seq<Mutation>, ns: seq<Mutation>, codeBegin: int, codeEnd: int, section: int)
    requires AllRejected(p, ms, codeBegin, codeEnd, section) && AllRejected(p, ns, codeBegin, codeEnd, section)
    ensures AllRejected(p, ms + ns, codeBegin, codeEnd, section)
  {
  }

  lemma TableRejected(p: Bytes, codeBegin: int, codeEnd: int, section: int, t: Targets)
    requires UnwindOk(p, codeBegin, codeEnd, section)
    requires FindTargets(p, section) == Some(t)
    ensures AllRejected(p, MutationTable(p, section, t), codeBegin, codeEnd, section)
  {
    var operation, odd := TargetsOfTable(p, section, t);
    HeaderMutantsRejected(p, codeBegin, codeEnd, section);
    EntryMutantsRejected(p, codeBegin, codeEnd, section);
    InfoMutantsRejected(p, codeBegin, codeEnd, section, t, operation, odd);
    var infos := InfoMutations(p, t.first, t.operation, t.odd);
    AllRejectedConcat(p, HeaderMutations(p), EntryMutations(p, section), codeBegin, codeEnd, section);
    AllRejectedConcat(p, HeaderMutations(p) + EntryMutations(p, section), infos, codeBegin, codeEnd, section);
  }

  lemma OnlyChecksumUnsealed(p: Bytes, section: int, t: Targets, k: nat)
    requires Usable(p) && TargetsFit(p, t) && k < |MutationTable(p, section, t)|
    requires MutationTable(p, section, t)[k].name != "checksum"
    ensures MutationTable(p, section, t)[k].reseal
  {
  }

  /** Whatever accepted table the corpus is built from, it has 23 cases and all are rejected,
      although all but the one that spoils the checksum have a right one. */
  lemma EveryMutantRejected(p: Bytes, codeBegin: int, codeEnd: int, section: int)
    requires UnwindOk(p, codeBegin, codeEnd, section)
    requires Corpus(p, section).Some?
    ensures |Corpus(p, section).value| == 23
    ensures forall k :: 0 <= k < 23 ==> !UnwindOk(Corpus(p, section).value[k].1, codeBegin, codeEnd, section)
    ensures forall k :: 0 <= k < 23 && Corpus(p, section).value[k].0 != "checksum" ==>
              |Corpus(p, section).value[k].1| == |p| && Sealed(Corpus(p, section).value[k].1, CHECKSUM_AT)
  {
    var t := FindTargets(p, section).value;
    TableRejected(p, codeBegin, codeEnd, section, t);
    var ms := MutationTable(p, section, t);
    forall k | 0 <= k < 23
      ensures !UnwindOk(Corpus(p, section).value[k].1, codeBegin, codeEnd, section)
    {
      assert Packable(ms[k].edit);
      assert Rejects(p, ms[k], codeBegin, codeEnd, section);
    }
    forall k | 0 <= k < 23 && ms[k].name != "checksum"
      ensures Sealed(Corpus(p, section).value[k].1, CHECKSUM_AT)
    {
      OnlyChecksumUnsealed(p, section, t, k);
      MutantSealed(p, ms[k], CHECKSUM_AT);
    }
  }
}
