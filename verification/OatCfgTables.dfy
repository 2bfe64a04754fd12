/** CFG tables as they are written, and the validator's agreement with them. */
module OatCfgTables {
  import opened OatBytes
  import opened OatCfg
  import opened OatWords

  datatype Target = Target(code: int, quick: bool, jni: bool, trampoline: bool, thunk: bool)

  datatype Table = Table(codeBegin: int, codeEnd: int, targets: seq<Target>)

  function KindOf(t: Target): (kind: int)
    ensures 0 <= kind < 16
  {
    (if t.quick then 1 else 0) + (if t.jni then 2 else 0) + (if t.trampoline then 4 else 0) + if t.thunk then 8 else 0
  }

  /** A target is inside the code, aligned to 16 in memory, after the one before it, and has a
      role. */
  predicate TargetFits(t: Table, rodata: int, i: nat)
    requires i < |t.targets|
  {
    var target := t.targets[i];
    && t.codeBegin <= target.code < t.codeEnd
    && (rodata + target.code) % 16 == 0
    && (i > 0 ==> t.targets[i - 1].code < target.code)
    && (target.quick || target.jni || target.trampoline || target.thunk)
  }

  /** Some target, none that does not fit, and exactly seven trampolines. */
  predicate WellFormed(t: Table, rodata: int) {
    && 0 <= t.codeBegin < 0x1_0000_0000 && 0 <= t.codeEnd < 0x1_0000_0000
    && 0 < |t.targets| < 0x1_0000_0000
    && (forall i :: 0 <= i < |t.targets| ==> TargetFits(t, rodata, i))
    && |set i | 0 <= i < |t.targets| && t.targets[i].trampoline| == 7
  }

  function TargetWords(targets: seq<Target>): (ws: seq<int>)
    ensures |ws| == 2 * |targets|
  {
    if targets == [] then [] else [targets[0].code, KindOf(targets[0])] + TargetWords(targets[1..])
  }

  /** `ocfg`, version 1, header size, machine, flags, target size, the number of targets, their
      offset, the code's bounds, the checksum, and a reserved word; then the targets. */
  function Words(t: Table, sum: int): seq<int> {
    [0x6766_636f, 1, 48, 0x8664, 1, 8, |t.targets|, 48, t.codeBegin, t.codeEnd, sum, 0] + TargetWords(t.targets)
  }

  lemma {:induction false} TargetWordsAt(targets: seq<Target>, i: nat)
    requires i < |targets|
    ensures TargetWords(targets)[2 * i] == targets[i].code && TargetWords(targets)[2 * i + 1] == KindOf(targets[i])
  {
    if i > 0 {
      TargetWordsAt(targets[1..], i - 1);
    }
  }

  lemma WordsFit(t: Table, rodata: int, sum: int)
    requires WellFormed(t, rodata) && 0 <= sum < WORD
    ensures forall k :: 0 <= k < |Words(t, sum)| ==> 0 <= Words(t, sum)[k] < WORD
  {
    var ws := Words(t, sum);
    forall k | 12 <= k < |ws|
      ensures 0 <= ws[k] < WORD
    {
      TargetWordsAt(t.targets, (k - 12) / 2);
      assert TargetFits(t, rodata, (k - 12) / 2);
    }
  }

  /** The checksum of the table's bytes with a zero in its place. */
  function Checksum(t: Table, rodata: int): (sum: int)
    requires WellFormed(t, rodata)
    ensures 0 <= sum < WORD
  {
    WordsFit(t, rodata, 0);
    Adler32(WordBytes(Words(t, 0)))
  }

  function Serialized(t: Table, rodata: int): (p: Bytes)
    requires WellFormed(t, rodata)
    ensures |p| == 48 + 8 * |t.targets|
  {
    WordsFit(t, rodata, Checksum(t, rodata));
    WordBytes(Words(t, Checksum(t, rodata)))
  }

  // What is written is accepted

  lemma ReadWord(t: Table, rodata: int, k: nat)
    requires WellFormed(t, rodata) && k < 12 + 2 * |t.targets|
    ensures U32(Serialized(t, rodata), 4 * k) == Words(t, Checksum(t, rodata))[k]
  {
    WordsFit(t, rodata, Checksum(t, rodata));
    WordAt(Words(t, Checksum(t, rodata)), [], k);
    assert Serialized(t, rodata) + [] == Serialized(t, rodata);
  }

  lemma WrittenHeader(t: Table, rodata: int)
    requires WellFormed(t, rodata)
    ensures var p := Serialized(t, rodata); HeaderOk(p) && BoundsOk(p, t.codeBegin, t.codeEnd)
    ensures Count(Serialized(t, rodata)) == |t.targets|
  {
    var p := Serialized(t, rodata);
    assert p[..4] == MAGIC by {
      MagicBytes(t, rodata);
    }
    hide Serialized, U32, Checksum;
    ReadWord(t, rodata, 1);
    ReadWord(t, rodata, 2);
    ReadWord(t, rodata, 3);
    ReadWord(t, rodata, 4);
    ReadWord(t, rodata, 5);
    ReadWord(t, rodata, 6);
    ReadWord(t, rodata, 7);
    ReadWord(t, rodata, 8);
    ReadWord(t, rodata, 9);
    ReadWord(t, rodata, 11);
  }

  lemma MagicBytes(t: Table, rodata: int)
    requires WellFormed(t, rodata)
    ensures Serialized(t, rodata)[..4] == [0x6f, 0x63, 0x66, 0x67]
  {
    var ws := Words(t, Checksum(t, rodata));
    WordsFit(t, rodata, Checksum(t, rodata));
    assert WordBytes(ws) == [0x6f, 0x63, 0x66, 0x67] + WordBytes(ws[1..]);
  }

  lemma WrittenSealed(t: Table, rodata: int)
    requires WellFormed(t, rodata)
    ensures Sealed(Serialized(t, rodata), 40)
  {
    var sum := Checksum(t, rodata);
    WordsFit(t, rodata, sum);
    WordsFit(t, rodata, 0);
    ReadWord(t, rodata, 10);
    PackedWords(Words(t, sum), [], 10, 0);
    assert Words(t, sum)[10 := 0] == Words(t, 0);
    assert WordBytes(Words(t, sum)) + [] == WordBytes(Words(t, sum));
    assert WordBytes(Words(t, 0)) + [] == WordBytes(Words(t, 0));
  }

  lemma WrittenTarget(t: Table, rodata: int, i: nat)
    requires WellFormed(t, rodata) && i < |t.targets|
    ensures var p := Serialized(t, rodata);
            Room(p) && Count(p) == |t.targets| && Code(p, i) == t.targets[i].code && Kind(p, i) == KindOf(t.targets[i])
  {
    hide Serialized, U32, Checksum;
    WrittenHeader(t, rodata);
    ReadWord(t, rodata, 12 + 2 * i);
    ReadWord(t, rodata, 13 + 2 * i);
    TargetWordsAt(t.targets, i);
  }

  lemma KindBits(target: Target)
    ensures KindOf(target) % 2 == 1 <==> target.quick
    ensures KindOf(target) / 2 % 2 == 1 <==> target.jni
    ensures KindOf(target) / 4 % 2 == 1 <==> target.trampoline
    ensures KindOf(target) / 8 % 2 == 1 <==> target.thunk
    ensures KindOf(target) > 0 <==> target.quick || target.jni || target.trampoline || target.thunk
  {
  }

  lemma WrittenAccepted(t: Table, rodata: int)
    requires WellFormed(t, rodata)
    ensures CfgOk(Serialized(t, rodata), t.codeBegin, t.codeEnd, rodata)
  {
    hide Serialized, U32, Sealed;
    var p := Serialized(t, rodata);
    WrittenHeader(t, rodata);
    WrittenSealed(t, rodata);
    forall i | 0 <= i < Count(p)
      ensures TargetOk(p, rodata, i) && (Kind(p, i) / 4 % 2 == 1 <==> t.targets[i].trampoline)
    {
      WrittenTarget(t, rodata, i);
      if i > 0 {
        WrittenTarget(t, rodata, i - 1);
      }
      assert TargetFits(t, rodata, i);
      KindBits(t.targets[i]);
    }
    RolesCounted(p, Count(p));
    assert WithRole(p, Count(p), 4) == set i | 0 <= i < |t.targets| && t.targets[i].trampoline;
  }

  // What is accepted is written

  function TargetOf(p: Bytes, i: int): Target
    requires Room(p) && 0 <= i < Count(p)
  {
    var kind := Kind(p, i);
    Target(Code(p, i), kind % 2 == 1, kind / 2 % 2 == 1, kind / 4 % 2 == 1, kind / 8 % 2 == 1)
  }

  function TableOf(p: Bytes): Table
    requires Room(p)
  {
    Table(CodeBegin(p), CodeEnd(p), seq(Count(p), i requires 0 <= i < Count(p) => TargetOf(p, i)))
  }

  lemma TableOfWellFormed(p: Bytes, codeBegin: int, codeEnd: int, rodata: int)
    requires CfgOk(p, codeBegin, codeEnd, rodata)
    ensures WellFormed(TableOf(p), rodata)
  {
    hide U32, Sealed;
    var t := TableOf(p);
    U32Bytes(p, 24);
    U32Bytes(p, 32);
    U32Bytes(p, 36);
    forall i | 0 <= i < |t.targets|
      ensures TargetFits(t, rodata, i)
    {
      assert TargetOk(p, rodata, i);
      KindOfBits(p, i);
    }
    RolesCounted(p, Count(p));
    assert WithRole(p, Count(p), 4) == set i | 0 <= i < |t.targets| && t.targets[i].trampoline;
  }

  lemma KindOfBits(p: Bytes, i: int)
    requires Room(p) && 0 <= i < Count(p) && 0 < Kind(p, i) < 16
    ensures KindOf(TargetOf(p, i)) == Kind(p, i)
  {
    hide U32;
  }

  lemma AcceptedHeaderWords(p: Bytes, codeBegin: int, codeEnd: int, rodata: int, k: nat)
    requires CfgOk(p, codeBegin, codeEnd, rodata) && k < 12
    ensures Words(TableOf(p), U32(p, 40))[k] == U32(p, 4 * k)
  {
    hide Sealed, U32, TargetWords;
    U32Bytes(p, 0);
    assert p[0] == p[..4][0] && p[1] == p[..4][1] && p[2] == p[..4][2] && p[3] == p[..4][3];
  }

  lemma AcceptedWords(p: Bytes, codeBegin: int, codeEnd: int, rodata: int)
    requires CfgOk(p, codeBegin, codeEnd, rodata)
    ensures var ws := Words(TableOf(p), U32(p, 40));
            4 * |ws| == |p| && forall k :: 0 <= k < |ws| ==> ws[k] == U32(p, 4 * k)
  {
    hide Sealed, U32;
    var t := TableOf(p);
    var ws := Words(t, U32(p, 40));
    forall k | 0 <= k < |ws|
      ensures ws[k] == U32(p, 4 * k)
    {
      if k < 12 {
        AcceptedHeaderWords(p, codeBegin, codeEnd, rodata, k);
      } else {
        var i := (k - 12) / 2;
        TargetWordsAt(t.targets, i);
        assert TargetOk(p, rodata, i);
        KindOfBits(p, i);
      }
    }
  }

  lemma AcceptedIsWritten(p: Bytes, codeBegin: int, codeEnd: int, rodata: int)
    requires CfgOk(p, codeBegin, codeEnd, rodata)
    ensures WellFormed(TableOf(p), rodata) && p == Serialized(TableOf(p), rodata)
  {
    var t, sum := TableOf(p), U32(p, 40);
    TableOfWellFormed(p, codeBegin, codeEnd, rodata);
    U32Bytes(p, 40);
    AcceptedWords(p, codeBegin, codeEnd, rodata);
    WordsFit(t, rodata, sum);
    WordsFit(t, rodata, 0);
    WordsOf(p, Words(t, sum));
    assert p == WordBytes(Words(t, sum)) + [];
    PackedWords(Words(t, sum), [], 10, 0);
    assert Words(t, sum)[10 := 0] == Words(t, 0);
    assert WordBytes(Words(t, 0)) + [] == WordBytes(Words(t, 0));
    assert sum == Checksum(t, rodata);
  }

  /** A payload is accepted exactly when it is what is written for a well-formed table with
      these bounds. */
  lemma AcceptsExactlyWritten(p: Bytes, codeBegin: int, codeEnd: int, rodata: int)
    ensures CfgOk(p, codeBegin, codeEnd, rodata) <==>
            exists t :: WellFormed(t, rodata) && t.codeBegin == codeBegin && t.codeEnd == codeEnd
                        && p == Serialized(t, rodata)
  {
    hide CfgOk, WellFormed, Serialized;
    if CfgOk(p, codeBegin, codeEnd, rodata) {
      AcceptedIsWritten(p, codeBegin, codeEnd, rodata);
      AcceptedBounds(p, codeBegin, codeEnd, rodata);
    }
    forall t | WellFormed(t, rodata) && t.codeBegin == codeBegin && t.codeEnd == codeEnd && p == Serialized(t, rodata)
      ensures CfgOk(p, codeBegin, codeEnd, rodata)
    {
      WrittenAccepted(t, rodata);
    }
  }

  lemma AcceptedBounds(p: Bytes, codeBegin: int, codeEnd: int, rodata: int)
    requires CfgOk(p, codeBegin, codeEnd, rodata)
    ensures Room(p) && TableOf(p).codeBegin == codeBegin && TableOf(p).codeEnd == codeEnd
  {
  }

  /** The summary's counters count the targets with each role. */
  lemma RolesMean(t: Table, rodata: int)
    requires WellFormed(t, rodata)
    ensures var p := Serialized(t, rodata);
            && Room(p) && Count(p) == |t.targets|
            && RoleCounts(p, Count(p)) == Roles(
                 |set i | 0 <= i < |t.targets| && t.targets[i].quick|,
                 |set i | 0 <= i < |t.targets| && t.targets[i].jni|,
                 |set i | 0 <= i < |t.targets| && t.targets[i].trampoline|,
                 |set i | 0 <= i < |t.targets| && t.targets[i].thunk|)
  {
    hide Serialized, U32;
    var p := Serialized(t, rodata);
    WrittenHeader(t, rodata);
    RolesCounted(p, Count(p));
    forall i | 0 <= i < Count(p)
      ensures Kind(p, i) == KindOf(t.targets[i])
    {
      WrittenTarget(t, rodata, i);
    }
    forall i | 0 <= i < |t.targets|
      ensures Kind(p, i) % 2 == 1 <==> t.targets[i].quick
      ensures Kind(p, i) / 2 % 2 == 1 <==> t.targets[i].jni
      ensures Kind(p, i) / 4 % 2 == 1 <==> t.targets[i].trampoline
      ensures Kind(p, i) / 8 % 2 == 1 <==> t.targets[i].thunk
    {
      KindBits(t.targets[i]);
    }
    assert WithRole(p, Count(p), 1) == set i | 0 <= i < |t.targets| && t.targets[i].quick;
    assert WithRole(p, Count(p), 2) == set i | 0 <= i < |t.targets| && t.targets[i].jni;
    assert WithRole(p, Count(p), 4) == set i | 0 <= i < |t.targets| && t.targets[i].trampoline;
    assert WithRole(p, Count(p), 8) == set i | 0 <= i < |t.targets| && t.targets[i].thunk;
  }
}
