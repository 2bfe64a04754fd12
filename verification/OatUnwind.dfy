/** The Windows unwind table of a boot OAT file: its validator.

    The payload, the code bounds expected from the text section, and the section's offset
    from the OAT header are inputs; the ELF envelope is not modelled. */
module OatUnwind {
  import opened OatBytes
  import opened Options
  import opened SortedSets
  import Info = OatUnwindInfo
  import opened Widths

  const MAGIC: Bytes := [0x6f, 0x75, 0x77, 0x0a]
  const HEADER := 48
  const ENTRY := 12
  const CHECKSUM_AT := 44

  function Count(p: Bytes): nat requires |p| >= HEADER { U32(p, 20) }
  function BlobAt(p: Bytes): nat requires |p| >= HEADER { U32(p, 28) }
  function CodeBegin(p: Bytes): nat requires |p| >= HEADER { U32(p, 36) }
  function CodeEnd(p: Bytes): nat requires |p| >= HEADER { U32(p, 40) }

  function RoundUp4(n: int): int { (n + 3) / 4 * 4 }

  predicate HeaderOk(p: Bytes) {
    && |p| >= HEADER
    && p[..4] == MAGIC
    && U32(p, 4) == 1
    && U32(p, 8) == HEADER
    && U32(p, 12) == 0x8664
    && U32(p, 16) == ENTRY
    && Count(p) >= 7
    && U32(p, 24) == HEADER
    && RoundUp4(HEADER + Count(p) * ENTRY) == BlobAt(p)
    && BlobAt(p) + U32(p, 32) == |p|
  }

  predicate BoundsOk(p: Bytes, codeBegin: int, codeEnd: int)
    requires |p| >= HEADER
  {
    CodeBegin(p) == codeBegin && CodeEnd(p) == codeEnd
  }

  /** There is room for the entries. */
  predicate Room(p: Bytes) { |p| >= HEADER && HEADER + ENTRY * Count(p) <= BlobAt(p) <= |p| }

  lemma HeaderGivesRoom(p: Bytes)
    requires HeaderOk(p)
    ensures Room(p) && BlobAt(p) == HEADER + ENTRY * Count(p)
  {
    var quarters := 12 + 3 * Count(p);
    assert HEADER + ENTRY * Count(p) == 4 * quarters;
    assert RoundUp4(4 * quarters) == 4 * quarters;
  }

  function EntryAt(i: int): int { HEADER + ENTRY * i }

  function Begin(p: Bytes, i: int): nat requires Room(p) && 0 <= i < Count(p) { U32(p, EntryAt(i)) }
  function End(p: Bytes, i: int): nat requires Room(p) && 0 <= i < Count(p) { U32(p, EntryAt(i) + 4) }
  function InfoAt(p: Bytes, i: int): nat requires Room(p) && 0 <= i < Count(p) { U32(p, EntryAt(i) + 8) }

  function PreviousEnd(p: Bytes, i: int): nat
    requires Room(p) && 0 <= i <= Count(p)
  {
    if i == 0 then CodeBegin(p) else End(p, i - 1)
  }

  /** Code ranges are non-empty, in order, disjoint and inside the code; descriptors are
      aligned and inside the blob. */
  predicate EntryOk(p: Bytes, section: int, i: int)
    requires Room(p) && 0 <= i < Count(p)
  {
    && CodeBegin(p) <= Begin(p, i)
    && PreviousEnd(p, i) <= Begin(p, i) < End(p, i) <= CodeEnd(p)
    && InfoAt(p, i) % 4 == 0
    && section + BlobAt(p) <= InfoAt(p, i) < section + |p|
  }

  predicate EntriesOk(p: Bytes, section: int)
    requires Room(p)
  {
    forall i :: 0 <= i < Count(p) ==> EntryOk(p, section, i)
  }

  function Infos(p: Bytes): set<int>
    requires Room(p)
  {
    set i | 0 <= i < Count(p) :: InfoAt(p, i)
  }

  // Descriptors

  /** Descriptor offsets lie inside the payload. */
  predicate Inside(p: Bytes, section: int, offsets: seq<int>) {
    Ascending(offsets) && forall k :: 0 <= k < |offsets| ==> 0 <= offsets[k] - section < |p|
  }

  /** The bytes from the k-th descriptor up to the next one, or to the end. */
  function Slice(p: Bytes, section: int, offsets: seq<int>, k: int): Bytes
    requires Inside(p, section, offsets) && 0 <= k < |offsets|
  {
    var end := if k + 1 < |offsets| then offsets[k + 1] - section else |p|;
    assert k + 1 < |offsets| ==> offsets[k] < offsets[k + 1];
    p[offsets[k] - section..end]
  }

  function Slices(p: Bytes, section: int, offsets: seq<int>): (r: seq<Bytes>)
    requires Inside(p, section, offsets)
    ensures |r| == |offsets|
    ensures forall k :: 0 <= k < |r| ==> r[k] == Slice(p, section, offsets, k)
  {
    seq(|offsets|, k requires 0 <= k < |offsets| => Slice(p, section, offsets, k))
  }

  lemma InfosInside(p: Bytes, section: int)
    requires Room(p) && EntriesOk(p, section)
    ensures forall o :: o in Infos(p) ==> BlobAt(p) <= o - section < |p|
  {
    forall o | o in Infos(p)
      ensures BlobAt(p) <= o - section < |p|
    {
      var i :| 0 <= i < Count(p) && InfoAt(p, i) == o;
      assert EntryOk(p, section, i);
    }
  }

  lemma SortedInside(p: Bytes, section: int)
    requires Room(p) && EntriesOk(p, section)
    ensures Inside(p, section, Sorted(Infos(p)))
    ensures forall k :: 0 <= k < |Sorted(Infos(p))| ==> BlobAt(p) <= Sorted(Infos(p))[k] - section
  {
    var offsets := Sorted(Infos(p));
    InfosInside(p, section);
    forall k | 0 <= k < |offsets|
      ensures BlobAt(p) <= offsets[k] - section < |p|
    {
      assert offsets[k] in offsets;
    }
  }

  predicate AllAccepted(slices: seq<Bytes>) {
    forall k :: 0 <= k < |slices| ==> Info.Decode(slices[k]).Some?
  }

  predicate InfosOk(p: Bytes, section: int)
    requires Room(p) && EntriesOk(p, section)
  {
    SortedInside(p, section);
    AllAccepted(Slices(p, section, Sorted(Infos(p))))
  }

  predicate UnwindOk(p: Bytes, codeBegin: int, codeEnd: int, section: int) {
    && HeaderOk(p)
    && Sealed(p, CHECKSUM_AT)
    && BoundsOk(p, codeBegin, codeEnd)
    && Room(p)
    && EntriesOk(p, section)
    && InfosOk(p, section)
  }

  datatype Summary = Summary(entries: nat, descriptors: nat)

  /** None where `validate_windows_oat_unwind` raises. */
  method Validate(p: Bytes, codeBegin: int, codeEnd: int, section: int) returns (r: Option<Summary>)
    ensures r.Some? == UnwindOk(p, codeBegin, codeEnd, section)
    ensures r.Some? ==> r.value == Summary(Count(p), |Infos(p)|)
  {
    if !HeaderOk(p) {
      return None;
    }
    HeaderGivesRoom(p);
    if U32(p, CHECKSUM_AT) != Adler32(Blanked(p, CHECKSUM_AT)) {
      return None;
    }
    if CodeBegin(p) != codeBegin || CodeEnd(p) != codeEnd {
      return None;
    }
    var unique := CollectEntries(p, section);
    if unique == None {
      return None;
    }
    var sorted := Sorted(unique.value);
    SortedInside(p, section);
    var ok := CheckDescriptors(Slices(p, section, sorted));
    if !ok {
      return None;
    }
    return Some(Summary(Count(p), |unique.value|));
  }

  /** The descriptor loop. */
  method CheckDescriptors(slices: seq<Bytes>) returns (ok: bool)
    ensures ok == AllAccepted(slices)
  {
    for k := 0 to |slices|
      invariant forall j :: 0 <= j < k ==> Info.Decode(slices[j]).Some?
    {
      ok := Info.Validate(slices[k]);
      if !ok {
        return false;
      }
    }
    return true;
  }

  /** The entry loop: the set of descriptor offsets, unless an entry is invalid. */
  method CollectEntries(p: Bytes, section: int) returns (unique: Option<set<int>>)
    requires Room(p)
    ensures unique == if EntriesOk(p, section) then Some(Infos(p)) else None
  {
    var previousEnd := CodeBegin(p);
    var offsets: set<int> := {};
    for i := 0 to Count(p)
      invariant previousEnd == PreviousEnd(p, i)
      invariant forall j :: 0 <= j < i ==> EntryOk(p, section, j)
      invariant offsets == set j | 0 <= j < i :: InfoAt(p, j)
    {
      var at := EntryAt(i);
      var begin, end, info := U32(p, at), U32(p, at + 4), U32(p, at + 8);
      if begin < CodeBegin(p) || begin < previousEnd || end <= begin || end > CodeEnd(p)
         || info % 4 != 0 || info < section + BlobAt(p) || info >= section + |p| {
        assert !EntryOk(p, section, i);
        return None;
      }
      previousEnd := end;
      offsets := offsets + {info};
    }
    return Some(offsets);
  }

  // Single-byte corruption

  /** Changing any one byte of an accepted payload, and nothing else, is always rejected. */
  lemma OneByteRejected(p: Bytes, codeBegin: int, codeEnd: int, section: int, k: nat, b: Byte)
    requires UnwindOk(p, codeBegin, codeEnd, section)
    requires k < |p| && b != p[k]
    ensures !UnwindOk(p[k := b], codeBegin, codeEnd, section)
  {
    OneByteUnseals(p, CHECKSUM_AT, k, b);
  }
}
