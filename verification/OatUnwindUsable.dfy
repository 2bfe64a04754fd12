/** Exactly when the corpus can be built from an accepted unwind table. */
module OatUnwindUsable {
  import opened OatBytes
  import opened OatEdits
  import opened OatUnwind
  import opened OatUnwindCorpus
  import Rejection = OatUnwindRejection

  predicate OddSlots(p: Bytes, local: int) { 0 <= local <= |p| - 4 && SlotCount(p, local) % 2 == 1 }

  /** Some descriptor has an odd number of slots. */
  predicate HasOdd(p: Bytes, locals: seq<int>) { exists k :: 0 <= k < |locals| && OddSlots(p, locals[k]) }

  /** What the 32-bit packing of the mutations asks of an accepted table. */
  predicate PackingFits(p: Bytes, codeBegin: int, codeEnd: int, section: int)
    requires Room(p)
  {
    && codeBegin >= 1 && codeEnd + 1 < WORD
    && BlobAt(p) + 4 < WORD && section + BlobAt(p) >= 4 && section + |p| < WORD
  }

  lemma LocalUsable(p: Bytes, section: int, k: nat, local: int)
    requires Room(p) && EntriesOk(p, section) && InfosOk(p, section)
    requires k < |Locals(p, section)| && Locals(p, section)[k] == local
    ensures BlobAt(p) <= local <= |p| - 4 && DescriptorEnd(p, local) <= |p|
  {
    SortedInside(p, section);
    var d := Rejection.DescriptorAccepted(p, section, k, local);
    DecodedFits(d);
  }

  lemma DecodedFits(d: Bytes)
    requires Info.Decode(d).Some?
    ensures |d| >= 4 && |d| >= 4 + (d[2] as int + 1) / 2 * 2 * 2
  {
  }

  /** The descriptors of an accepted table lie in the blob, whole. */
  lemma AcceptedLocals(p: Bytes, section: int)
    requires Room(p) && EntriesOk(p, section) && InfosOk(p, section)
    ensures LocalsUsable(p, Locals(p, section))
  {
    var locals := Locals(p, section);
    forall k | 0 <= k < |locals|
      ensures BlobAt(p) <= locals[k] <= |p| - 4 && DescriptorEnd(p, locals[k]) <= |p|
    {
      LocalUsable(p, section, k, locals[k]);
    }
  }

  predicate Readable(p: Bytes, locals: seq<int>) { forall k :: 0 <= k < |locals| ==> 0 <= locals[k] <= |p| - 4 }

  lemma WantedIsOdd(p: Bytes, local: int)
    requires 0 <= local <= |p| - 4 && Wanted(p, local, true)
    ensures OddSlots(p, local)
  {
  }

  /** The generator finds its descriptors exactly when some slot count is odd. */
  lemma OddIsEnough(p: Bytes, locals: seq<int>)
    requires Readable(p, locals)
    ensures HasOdd(p, locals) <==> FirstWith(p, locals, true).Some?
    ensures HasOdd(p, locals) ==> FirstWith(p, locals, false).Some?
  {
    if HasOdd(p, locals) {
      var k :| 0 <= k < |locals| && OddSlots(p, locals[k]);
      assert Wanted(p, locals[k], true) && Wanted(p, locals[k], false);
    }
    if FirstWith(p, locals, true).Some? {
      var k :| 0 <= k < |locals| && Wanted(p, locals[k], true);
      WantedIsOdd(p, locals[k]);
    }
  }

  lemma HeaderPacks(p: Bytes)
    requires HeaderOk(p) && Room(p) && U32(p, 32) >= 4 && CodeBegin(p) < CodeEnd(p)
    ensures AllPackable(HeaderMutations(p)) <==> BlobAt(p) + 4 < WORD
  {
    U32Bytes(p, 40);
    assert Packable(HeaderMutations(p)[7].edit) <==> BlobAt(p) + 4 < WORD;
  }

  lemma EntryWords(p: Bytes, i: int)
    requires Room(p) && 0 <= i < Count(p)
    ensures Begin(p, i) < WORD && End(p, i) < WORD && InfoAt(p, i) < WORD
  {
    U32Bytes(p, EntryAt(i));
    U32Bytes(p, EntryAt(i) + 4);
    U32Bytes(p, EntryAt(i) + 8);
  }

  /** What the packing of the seven entry mutations asks. */
  predicate EntryPacks(p: Bytes, section: int)
    requires Room(p)
  {
    && CodeBegin(p) >= 1 && CodeEnd(p) + 1 < WORD
    && section + BlobAt(p) >= 4 && section + |p| < WORD
  }

  lemma EntriesPack(p: Bytes, section: int)
    requires Room(p) && Count(p) >= 2 && CodeEnd(p) < WORD
    requires EntryOk(p, section, 0) && EntryOk(p, section, 1) && EntryOk(p, section, Count(p) - 1)
    ensures AllPackable(EntryMutations(p, section)) <==> EntryPacks(p, section)
  {
    hide Begin, End, InfoAt, PreviousEnd;
    var ms := EntryMutations(p, section);
    EntryWords(p, 0);
    EntryWords(p, 1);
    EntryWords(p, Count(p) - 1);
    assert Packable(ms[0].edit) <==> CodeBegin(p) >= 1;
    assert Packable(ms[1].edit) && Packable(ms[2].edit) && Packable(ms[4].edit);
    assert Packable(ms[3].edit) <==> CodeEnd(p) + 1 < WORD;
    assert Packable(ms[5].edit) <==> section + BlobAt(p) >= 4;
    assert Packable(ms[6].edit) <==> section + |p| < WORD;
  }

  lemma TablePacks(p: Bytes, codeBegin: int, codeEnd: int, section: int, t: Targets)
    requires HeaderOk(p) && Room(p) && BoundsOk(p, codeBegin, codeEnd) && EntriesOk(p, section)
    requires Usable(p) && TargetsFit(p, t) && U32(p, 32) >= 4
    ensures AllPackable(MutationTable(p, section, t)) <==> PackingFits(p, codeBegin, codeEnd, section)
  {
    assert EntryOk(p, section, 0) && EntryOk(p, section, 1) && EntryOk(p, section, Count(p) - 1);
    U32Bytes(p, 40);
    HeaderPacks(p);
    EntriesPack(p, section);
    var hs, es, ds := HeaderMutations(p), EntryMutations(p, section), InfoMutations(p, t.first, t.operation, t.odd);
    PackConcat(hs, es);
    PackConcat(hs + es, ds);
  }

  /** From an accepted table the corpus is built exactly when the edited words still fit in
      32 bits and some descriptor has an odd number of slots. */
  lemma BuiltExactlyWhen(p: Bytes, codeBegin: int, codeEnd: int, section: int)
    requires UnwindOk(p, codeBegin, codeEnd, section)
    ensures Corpus(p, section).Some?
       <==> PackingFits(p, codeBegin, codeEnd, section) && HasOdd(p, Locals(p, section))
  {
    hide Sealed, EntriesOk, InfosOk, MutationTable, PackingFits, HasOdd, FirstWith, Locals;
    HeaderGivesRoom(p);
    AcceptedLocals(p, section);
    OddIsEnough(p, Locals(p, section));
    if FindTargets(p, section).Some? {
      TablePacks(p, codeBegin, codeEnd, section, FindTargets(p, section).value);
    }
  }
}
