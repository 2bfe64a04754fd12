/** Unwind tables as they are written, and the validator's agreement with them. */
module OatUnwindTables {
  import opened OatBytes
  import opened OatUnwind
  import opened OatWords
  import opened SortedSets
  import Forms = OatUnwindForms
  import Info = OatUnwindInfo

  /** A code range and where its descriptor lies, all from the OAT header. */
  datatype Entry = Entry(begin: int, end: int, info: int)

  /** `blob` holds the descriptors. */
  datatype Table = Table(codeBegin: int, codeEnd: int, entries: seq<Entry>, blob: Bytes)

  function BlobStart(t: Table): nat { 48 + 12 * |t.entries| }

  /** A range is not empty, inside the code and after the one before it; its descriptor is
      aligned and inside the blob. */
  predicate EntryFits(t: Table, section: int, i: nat)
    requires i < |t.entries|
  {
    var e := t.entries[i];
    && (if i == 0 then t.codeBegin else t.entries[i - 1].end) <= e.begin < e.end <= t.codeEnd
    && e.info % 4 == 0 && 0 <= e.info < 0x1_0000_0000
    && section + BlobStart(t) <= e.info < section + BlobStart(t) + |t.blob|
  }

  /** Where the descriptor at `info` ends: at the nearest one after it, or with the blob. */
  ghost predicate EndsAt(t: Table, section: int, info: int, end: int) {
    if forall i :: 0 <= i < |t.entries| ==> t.entries[i].info <= info
    then end == section + BlobStart(t) + |t.blob|
    else
      && (exists i :: 0 <= i < |t.entries| && t.entries[i].info == end)
      && info < end
      && forall i :: 0 <= i < |t.entries| && info < t.entries[i].info ==> end <= t.entries[i].info
  }

  /** A documented record and zeros. */
  ghost predicate Documented(d: Bytes) {
    exists r, n: nat :: Forms.WellFormed(r) && d == Forms.RecordBytes(r) + Info.Zeros(n)
  }

  ghost predicate DescriptorFits(t: Table, section: int, i: nat)
    requires i < |t.entries|
  {
    var start := section + BlobStart(t);
    forall end :: EndsAt(t, section, t.entries[i].info, end) ==>
      && start <= t.entries[i].info <= end <= start + |t.blob|
      && Documented(t.blob[t.entries[i].info - start..end - start])
  }

  /** At least seven entries, all fitting, with documented descriptors. */
  ghost predicate WellFormed(t: Table, section: int) {
    && 0 <= t.codeBegin < 0x1_0000_0000 && 0 <= t.codeEnd < 0x1_0000_0000
    && 7 <= |t.entries| && BlobStart(t) < 0x1_0000_0000 && |t.blob| < 0x1_0000_0000
    && forall i :: 0 <= i < |t.entries| ==> EntryFits(t, section, i) && DescriptorFits(t, section, i)
  }

  function EntryWords(entries: seq<Entry>): (ws: seq<int>)
    ensures |ws| == 3 * |entries|
  {
    if entries == [] then [] else [entries[0].begin, entries[0].end, entries[0].info] + EntryWords(entries[1..])
  }

  /** `ouw` and a newline, version 1, header size, machine, entry size, the number of entries,
      their offset, the blob's offset and size, the code's bounds, and the checksum; then the
      entries. */
  function Words(t: Table, sum: int): seq<int> {
    [0x0a77_756f, 1, 48, 0x8664, 12, |t.entries|, 48, BlobStart(t), |t.blob|, t.codeBegin, t.codeEnd, sum]
    + EntryWords(t.entries)
  }

  lemma {:induction false} EntryWordsAt(entries: seq<Entry>, i: nat)
    requires i < |entries|
    ensures var ws, e := EntryWords(entries), entries[i];
            ws[3 * i] == e.begin && ws[3 * i + 1] == e.end && ws[3 * i + 2] == e.info
  {
    if i > 0 {
      EntryWordsAt(entries[1..], i - 1);
    }
  }

  lemma {:induction false} BeginsInside(t: Table, section: int, i: nat)
    requires i < |t.entries| && forall j :: 0 <= j <= i ==> EntryFits(t, section, j)
    ensures t.codeBegin <= t.entries[i].begin < t.entries[i].end <= t.codeEnd
  {
    assert EntryFits(t, section, i);
    if i > 0 {
      BeginsInside(t, section, i - 1);
    }
  }

  lemma WordsFit(t: Table, section: int, sum: int)
    requires WellFormed(t, section) && 0 <= sum < WORD
    ensures forall k :: 0 <= k < |Words(t, sum)| ==> 0 <= Words(t, sum)[k] < WORD
  {
    hide DescriptorFits;
    var ws := Words(t, sum);
    forall k | 12 <= k < |ws|
      ensures 0 <= ws[k] < WORD
    {
      var i := (k - 12) / 3;
      EntryWordsAt(t.entries, i);
      BeginsInside(t, section, i);
      assert EntryFits(t, section, i);
    }
  }

  /** The checksum of the table's bytes with a zero in its place. */
  ghost function Checksum(t: Table, section: int): (sum: int)
    requires WellFormed(t, section)
    ensures 0 <= sum < WORD
  {
    WordsFit(t, section, 0);
    Adler32(WordBytes(Words(t, 0)) + t.blob)
  }

  ghost function Serialized(t: Table, section: int): (p: Bytes)
    requires WellFormed(t, section)
    ensures |p| == BlobStart(t) + |t.blob|
  {
    WordsFit(t, section, Checksum(t, section));
    WordBytes(Words(t, Checksum(t, section))) + t.blob
  }

  // What is written is accepted

  lemma ReadWord(t: Table, section: int, k: nat)
    requires WellFormed(t, section) && k < 12 + 3 * |t.entries|
    ensures U32(Serialized(t, section), 4 * k) == Words(t, Checksum(t, section))[k]
  {
    WordsFit(t, section, Checksum(t, section));
    WordAt(Words(t, Checksum(t, section)), t.blob, k);
  }

  lemma MagicBytes(t: Table, section: int)
    requires WellFormed(t, section)
    ensures Serialized(t, section)[..4] == [0x6f, 0x75, 0x77, 0x0a]
  {
    var ws := Words(t, Checksum(t, section));
    WordsFit(t, section, Checksum(t, section));
    assert WordBytes(ws) == [0x6f, 0x75, 0x77, 0x0a] + WordBytes(ws[1..]);
  }

  lemma WrittenHeader(t: Table, section: int)
    requires WellFormed(t, section)
    ensures var p := Serialized(t, section);
            && HeaderOk(p) && BoundsOk(p, t.codeBegin, t.codeEnd) && Room(p)
            && Count(p) == |t.entries| && BlobAt(p) == BlobStart(t)
  {
    var p := Serialized(t, section);
    MagicBytes(t, section);
    hide Serialized, U32, Checksum, WellFormed, EntryWords;
    ReadWord(t, section, 1);
    ReadWord(t, section, 2);
    ReadWord(t, section, 3);
    ReadWord(t, section, 4);
    ReadWord(t, section, 5);
    ReadWord(t, section, 6);
    ReadWord(t, section, 7);
    ReadWord(t, section, 8);
    ReadWord(t, section, 9);
    ReadWord(t, section, 10);
    RoundedBlob(|t.entries|);
    AtLeastSeven(t, section);
  }

  lemma AtLeastSeven(t: Table, section: int)
    requires WellFormed(t, section)
    ensures |t.entries| >= 7
  {
  }

  lemma RoundedBlob(n: nat)
    ensures RoundUp4(48 + n * 12) == 48 + 12 * n
  {
    var quarters := 12 + 3 * n;
    assert 48 + n * 12 == 4 * quarters;
  }

  lemma WrittenSealed(t: Table, section: int)
    requires WellFormed(t, section)
    ensures Sealed(Serialized(t, section), 44)
  {
    var sum := Checksum(t, section);
    WordsFit(t, section, sum);
    WordsFit(t, section, 0);
    ReadWord(t, section, 11);
    PackedWords(Words(t, sum), t.blob, 11, 0);
    assert Words(t, sum)[11 := 0] == Words(t, 0);
  }

  lemma WrittenEntry(t: Table, section: int, i: nat)
    requires WellFormed(t, section) && i < |t.entries|
    ensures var p, e := Serialized(t, section), t.entries[i];
            && Room(p) && Count(p) == |t.entries|
            && Begin(p, i) == e.begin && End(p, i) == e.end && InfoAt(p, i) == e.info
  {
    hide Serialized, U32, Checksum, WellFormed;
    WrittenHeader(t, section);
    ReadWord(t, section, 12 + 3 * i);
    ReadWord(t, section, 13 + 3 * i);
    ReadWord(t, section, 14 + 3 * i);
    EntryWordsAt(t.entries, i);
  }

  lemma EntryFitsOf(t: Table, section: int, i: nat)
    requires WellFormed(t, section) && i < |t.entries|
    ensures EntryFits(t, section, i) && t.codeBegin <= t.entries[i].begin
  {
    BeginsInside(t, section, i);
  }

  lemma WrittenEntryOk(t: Table, section: int, i: nat)
    requires WellFormed(t, section) && i < |t.entries|
    ensures var p := Serialized(t, section); Room(p) && i < Count(p) && EntryOk(p, section, i)
  {
    hide Serialized, WellFormed, U32;
    WrittenHeader(t, section);
    WrittenEntry(t, section, i);
    if i > 0 {
      WrittenEntry(t, section, i - 1);
    }
    EntryFitsOf(t, section, i);
  }

  /** The offsets are those of the entries' descriptors, in ascending order. */
  ghost predicate Enumerates(t: Table, offsets: seq<int>) {
    && Ascending(offsets)
    && forall x :: x in offsets <==> exists i :: 0 <= i < |t.entries| && t.entries[i].info == x
  }

  /** Where the slice of the k-th offset ends. */
  function SliceEnd(t: Table, section: int, offsets: seq<int>, k: nat): int
    requires k < |offsets|
  {
    if k + 1 < |offsets| then offsets[k + 1] else section + BlobStart(t) + |t.blob|
  }

  /** The table's entries are those of p. */
  ghost predicate Reads(t: Table, p: Bytes) {
    && Room(p) && Count(p) == |t.entries| && BlobAt(p) == BlobStart(t) && p[BlobAt(p)..] == t.blob
    && forall i :: 0 <= i < |t.entries| ==>
         Begin(p, i) == t.entries[i].begin && End(p, i) == t.entries[i].end && InfoAt(p, i) == t.entries[i].info
  }

  lemma SortedEnumerates(t: Table, p: Bytes)
    requires Reads(t, p)
    ensures Enumerates(t, Sorted(Infos(p)))
  {
    hide U32;
    forall x
      ensures x in Infos(p) <==> exists i :: 0 <= i < |t.entries| && t.entries[i].info == x
    {
      InfoIsEntry(t, p, x);
    }
  }

  lemma InfoIsEntry(t: Table, p: Bytes, x: int)
    requires Reads(t, p)
    ensures x in Infos(p) <==> exists i :: 0 <= i < |t.entries| && t.entries[i].info == x
  {
    hide U32;
    forall i | 0 <= i < |t.entries|
      ensures t.entries[i].info in Infos(p)
    {
      assert InfoAt(p, i) == t.entries[i].info;
    }
  }

  /** A slice ends where the descriptor that it holds ends. */
  lemma SliceEndsAt(t: Table, section: int, offsets: seq<int>, k: nat)
    requires Enumerates(t, offsets) && k < |offsets|
    ensures EndsAt(t, section, offsets[k], SliceEnd(t, section, offsets, k))
  {
    var x, end := offsets[k], SliceEnd(t, section, offsets, k);
    forall i | 0 <= i < |t.entries|
      ensures t.entries[i].info <= x || (k + 1 < |offsets| && end <= t.entries[i].info)
    {
      var j := Position(offsets, t.entries[i].info);
      AscendingApart(offsets, k, j);
    }
    if k + 1 < |offsets| {
      assert end in offsets;
      AscendingApart(offsets, k, k + 1);
    }
  }

  lemma Position(s: seq<int>, x: int) returns (j: nat)
    requires x in s
    ensures j < |s| && s[j] == x
  {
    j :| 0 <= j < |s| && s[j] == x;
  }

  /** In an ascending list, what is not up to position k is from position k + 1 on. */
  lemma AscendingApart(s: seq<int>, k: nat, j: nat)
    requires Ascending(s) && k < |s| && j < |s|
    ensures s[j] <= s[k] || (k + 1 < |s| && s[k + 1] <= s[j])
    ensures j == k + 1 ==> s[k] < s[j]
  {
  }

  lemma EndIsUnique(t: Table, section: int, info: int, a: int, b: int)
    requires EndsAt(t, section, info, a) && EndsAt(t, section, info, b)
    ensures a == b
  {
    if !forall i :: 0 <= i < |t.entries| ==> t.entries[i].info <= info {
      var i :| 0 <= i < |t.entries| && t.entries[i].info == a;
      var j :| 0 <= j < |t.entries| && t.entries[j].info == b;
    }
  }

  lemma DocumentedMeans(d: Bytes)
    ensures Documented(d) <==> Info.Decode(d).Some?
  {
    Forms.AcceptsExactlyDocumented(d);
  }

  lemma SliceIsBlob(t: Table, p: Bytes, section: int, offsets: seq<int>, k: nat)
    requires Reads(t, p) && Inside(p, section, offsets) && k < |offsets|
    requires section + BlobStart(t) <= offsets[k]
    ensures var start, end := section + BlobStart(t), SliceEnd(t, section, offsets, k);
            && start <= offsets[k] <= end <= start + |t.blob|
            && Slice(p, section, offsets, k) == t.blob[offsets[k] - start..end - start]
  {
    hide U32;
    var start, end := section + BlobStart(t), SliceEnd(t, section, offsets, k);
    if k + 1 < |offsets| {
      AscendingApart(offsets, k, k + 1);
    }
    assert |p| == BlobAt(p) + |t.blob|;
    assert Slice(p, section, offsets, k) == p[offsets[k] - section..end - section];
    TailSlice(p, BlobAt(p), offsets[k] - section, end - section);
  }

  lemma TailSlice(p: Bytes, at: int, lo: int, hi: int)
    requires 0 <= at <= lo <= hi <= |p|
    ensures p[lo..hi] == p[at..][lo - at..hi - at]
  {
  }

  lemma OneSliceAccepted(t: Table, p: Bytes, section: int, offsets: seq<int>, k: nat)
    requires Reads(t, p) && Inside(p, section, offsets) && Enumerates(t, offsets) && k < |offsets|
    requires section + BlobStart(t) <= offsets[k]
    requires forall i :: 0 <= i < |t.entries| ==> DescriptorFits(t, section, i)
    ensures Info.Decode(Slice(p, section, offsets, k)).Some?
  {
    hide Reads, Slice, EndsAt, Documented, Info.Decode;
    SliceIsBlob(t, p, section, offsets, k);
    SliceEndsAt(t, section, offsets, k);
    var i := EntryOf(t, offsets, k);
    assert DescriptorFits(t, section, i);
    DocumentedMeans(Slice(p, section, offsets, k));
  }

  lemma EntryOf(t: Table, offsets: seq<int>, k: nat) returns (i: nat)
    requires Enumerates(t, offsets) && k < |offsets|
    ensures i < |t.entries| && t.entries[i].info == offsets[k]
  {
    assert offsets[k] in offsets;
    i :| 0 <= i < |t.entries| && t.entries[i].info == offsets[k];
  }

  /** The blob part of the descriptor at each offset. */
  lemma SlicesDocumented(t: Table, p: Bytes, section: int)
    requires Reads(t, p) && EntriesOk(p, section)
    requires forall i :: 0 <= i < |t.entries| ==> DescriptorFits(t, section, i)
    ensures InfosOk(p, section)
  {
    hide Reads, Slice, DescriptorFits, Enumerates, EntryOk, Infos, U32;
    ReadsRoom(t, p);
    SortedInside(p, section);
    SortedEnumerates(t, p);
    var offsets := Sorted(Infos(p));
    forall k | 0 <= k < |offsets|
      ensures Info.Decode(Slices(p, section, offsets)[k]).Some?
    {
      OneSliceAccepted(t, p, section, offsets, k);
    }
  }

  lemma ReadsRoom(t: Table, p: Bytes)
    requires Reads(t, p)
    ensures Room(p) && Count(p) == |t.entries| && BlobAt(p) == BlobStart(t)
  {
  }

  lemma WrittenReads(t: Table, section: int)
    requires WellFormed(t, section)
    ensures Reads(t, Serialized(t, section))
  {
    hide WellFormed, U32;
    var p := Serialized(t, section);
    WrittenHeader(t, section);
    forall i | 0 <= i < |t.entries|
      ensures Begin(p, i) == t.entries[i].begin && End(p, i) == t.entries[i].end && InfoAt(p, i) == t.entries[i].info
    {
      WrittenEntry(t, section, i);
    }
  }

  lemma WrittenAccepted(t: Table, section: int)
    requires WellFormed(t, section)
    ensures UnwindOk(Serialized(t, section), t.codeBegin, t.codeEnd, section)
  {
    var p := Serialized(t, section);
    AllDescriptorsFit(t, section);
    hide Serialized, WellFormed, U32, Sealed, EntryOk, InfosOk, HeaderOk, DescriptorFits;
    WrittenHeader(t, section);
    WrittenSealed(t, section);
    forall i | 0 <= i < Count(p)
      ensures EntryOk(p, section, i)
    {
      WrittenEntryOk(t, section, i);
    }
    WrittenReads(t, section);
    SlicesDocumented(t, p, section);
  }

  lemma AllDescriptorsFit(t: Table, section: int)
    requires WellFormed(t, section)
    ensures forall i :: 0 <= i < |t.entries| ==> DescriptorFits(t, section, i)
  {
  }

  // What is accepted is written

  function TableOf(p: Bytes): Table
    requires Room(p)
  {
    Table(CodeBegin(p), CodeEnd(p),
          seq(Count(p), i requires 0 <= i < Count(p) => Entry(Begin(p, i), End(p, i), InfoAt(p, i))), p[BlobAt(p)..])
  }

  lemma TableOfReads(p: Bytes)
    requires Room(p) && BlobAt(p) == 48 + 12 * Count(p)
    ensures Reads(TableOf(p), p)
  {
    hide U32;
  }

  lemma FitsWhen(t: Table, section: int, i: nat, end: int)
    requires i < |t.entries| && EndsAt(t, section, t.entries[i].info, end)
    requires section + BlobStart(t) <= t.entries[i].info <= end <= section + BlobStart(t) + |t.blob|
    requires var start := section + BlobStart(t); Documented(t.blob[t.entries[i].info - start..end - start])
    ensures DescriptorFits(t, section, i)
  {
    hide EndsAt, Documented;
    forall e | EndsAt(t, section, t.entries[i].info, e)
      ensures e == end
    {
      EndIsUnique(t, section, t.entries[i].info, e, end);
    }
  }

  lemma SliceDocumented(p: Bytes, section: int, offsets: seq<int>, k: nat)
    requires Inside(p, section, offsets) && k < |offsets| && AllAccepted(Slices(p, section, offsets))
    ensures Documented(Slice(p, section, offsets, k))
  {
    hide Slice, Documented;
    assert Slices(p, section, offsets)[k] == Slice(p, section, offsets, k);
    DocumentedMeans(Slice(p, section, offsets, k));
  }

  lemma OneDescriptorFits(t: Table, p: Bytes, section: int, offsets: seq<int>, i: nat)
    requires Reads(t, p) && Inside(p, section, offsets) && Enumerates(t, offsets) && i < |t.entries|
    requires section + BlobStart(t) <= t.entries[i].info
    requires AllAccepted(Slices(p, section, offsets))
    ensures DescriptorFits(t, section, i)
  {
    hide Reads, Slice, Slices, EndsAt, Documented, AllAccepted, SliceEnd, DescriptorFits;
    assert t.entries[i].info in offsets;
    var k := Position(offsets, t.entries[i].info);
    SliceIsBlob(t, p, section, offsets, k);
    SliceEndsAt(t, section, offsets, k);
    SliceDocumented(p, section, offsets, k);
    FitsWhen(t, section, i, SliceEnd(t, section, offsets, k));
  }

  lemma AcceptedDescriptor(p: Bytes, section: int, i: nat)
    requires Room(p) && BlobAt(p) == 48 + 12 * Count(p) && EntriesOk(p, section) && InfosOk(p, section)
    requires i < Count(p)
    ensures DescriptorFits(TableOf(p), section, i)
  {
    assert EntryOk(p, section, i);
    hide U32, Reads, Slices, DescriptorFits, Enumerates, Infos;
    var t := TableOf(p);
    TableOfReads(p);
    SortedInside(p, section);
    SortedEnumerates(t, p);
    OneDescriptorFits(t, p, section, Sorted(Infos(p)), i);
  }

  lemma AcceptedEntry(p: Bytes, section: int, i: nat)
    requires Room(p) && BlobAt(p) == 48 + 12 * Count(p) && EntriesOk(p, section) && i < Count(p)
    ensures EntryFits(TableOf(p), section, i)
  {
    assert EntryOk(p, section, i);
    U32Bytes(p, EntryAt(i) + 8);
    hide U32;
  }

  lemma TableOfWellFormed(p: Bytes, codeBegin: int, codeEnd: int, section: int)
    requires UnwindOk(p, codeBegin, codeEnd, section)
    ensures WellFormed(TableOf(p), section)
  {
    HeaderGivesRoom(p);
    U32Bytes(p, 28);
    U32Bytes(p, 32);
    U32Bytes(p, 36);
    U32Bytes(p, 40);
    hide U32, EntriesOk, InfosOk, Sealed, EntryFits, DescriptorFits;
    forall i | 0 <= i < Count(p)
      ensures EntryFits(TableOf(p), section, i) && DescriptorFits(TableOf(p), section, i)
    {
      AcceptedEntry(p, section, i);
      AcceptedDescriptor(p, section, i);
    }
  }

  lemma AcceptedHeaderWords(p: Bytes, codeBegin: int, codeEnd: int, section: int, k: nat)
    requires UnwindOk(p, codeBegin, codeEnd, section) && k < 12
    ensures Words(TableOf(p), U32(p, 44))[k] == U32(p, 4 * k)
  {
    hide Sealed, U32, EntryWords, EntriesOk, InfosOk;
    HeaderGivesRoom(p);
    U32Bytes(p, 0);
    assert p[0] == p[..4][0] && p[1] == p[..4][1] && p[2] == p[..4][2] && p[3] == p[..4][3];
  }

  lemma AcceptedWords(p: Bytes, codeBegin: int, codeEnd: int, section: int)
    requires UnwindOk(p, codeBegin, codeEnd, section)
    ensures var ws := Words(TableOf(p), U32(p, 44));
            4 * |ws| == BlobAt(p) && forall k :: 0 <= k < |ws| ==> ws[k] == U32(p, 4 * k)
  {
    hide Sealed, U32, EntriesOk, InfosOk;
    HeaderGivesRoom(p);
    var t := TableOf(p);
    var ws := Words(t, U32(p, 44));
    forall k | 0 <= k < |ws|
      ensures ws[k] == U32(p, 4 * k)
    {
      if k < 12 {
        AcceptedHeaderWords(p, codeBegin, codeEnd, section, k);
      } else {
        EntryWordsAt(t.entries, (k - 12) / 3);
      }
    }
  }

  lemma AcceptedIsWritten(p: Bytes, codeBegin: int, codeEnd: int, section: int)
    requires UnwindOk(p, codeBegin, codeEnd, section)
    ensures var t := TableOf(p);
            && t.codeBegin == codeBegin && t.codeEnd == codeEnd
            && WellFormed(t, section) && p == Serialized(t, section)
  {
    var t, sum := TableOf(p), U32(p, 44);
    TableOfWellFormed(p, codeBegin, codeEnd, section);
    U32Bytes(p, 44);
    hide U32, EntriesOk, InfosOk, WellFormed, EntryWords;
    AcceptedWords(p, codeBegin, codeEnd, section);
    WordsFit(t, section, sum);
    WordsFit(t, section, 0);
    WordsOf(p, Words(t, sum));
    PackedWords(Words(t, sum), t.blob, 11, 0);
    assert Words(t, sum)[11 := 0] == Words(t, 0);
    assert sum == Checksum(t, section);
  }

  /** A payload is accepted exactly when it is what is written for a well-formed table with
      these bounds. */
  lemma AcceptsExactlyWritten(p: Bytes, codeBegin: int, codeEnd: int, section: int)
    ensures UnwindOk(p, codeBegin, codeEnd, section) <==>
            exists t :: WellFormed(t, section) && t.codeBegin == codeBegin && t.codeEnd == codeEnd
                        && p == Serialized(t, section)
  {
    hide UnwindOk, WellFormed, Serialized;
    if UnwindOk(p, codeBegin, codeEnd, section) {
      AcceptedRoom(p, codeBegin, codeEnd, section);
      AcceptedIsWritten(p, codeBegin, codeEnd, section);
    }
    forall t | WellFormed(t, section) && t.codeBegin == codeBegin && t.codeEnd == codeEnd && p == Serialized(t, section)
      ensures UnwindOk(p, codeBegin, codeEnd, section)
    {
      WrittenAccepted(t, section);
    }
  }

  lemma AcceptedRoom(p: Bytes, codeBegin: int, codeEnd: int, section: int)
    requires UnwindOk(p, codeBegin, codeEnd, section)
    ensures Room(p)
  {
  }
}
