/** The Windows control-flow-guard target table of a boot OAT file: its validator, its
    corruption corpus, and the proof that every corrupted table is rejected. */
module OatCfg {
  import opened OatBytes
  import opened OatEdits
  import opened Options
  import opened Widths

  const MAGIC: Bytes := [0x6f, 0x63, 0x66, 0x67]
  const HEADER := 48
  const TARGET := 8
  const CHECKSUM_AT := 40
  const TRAMPOLINES := 7

  function Count(p: Bytes): nat requires |p| >= HEADER { U32(p, 24) }
  function TargetsAt(p: Bytes): nat requires |p| >= HEADER { U32(p, 28) }
  function CodeBegin(p: Bytes): nat requires |p| >= HEADER { U32(p, 32) }
  function CodeEnd(p: Bytes): nat requires |p| >= HEADER { U32(p, 36) }

  predicate HeaderOk(p: Bytes) {
    && |p| >= HEADER
    && p[..4] == MAGIC
    && U32(p, 4) == 1
    && U32(p, 8) == HEADER
    && U32(p, 12) == 0x8664
    && U32(p, 16) == 1
    && U32(p, 20) == TARGET
    && Count(p) != 0
    && TargetsAt(p) == HEADER
    && HEADER + Count(p) * TARGET == |p|
    && U32(p, 44) == 0
  }

  predicate BoundsOk(p: Bytes, codeBegin: int, codeEnd: int)
    requires |p| >= HEADER
  {
    CodeBegin(p) == codeBegin && CodeEnd(p) == codeEnd
  }

  predicate Room(p: Bytes) { |p| >= HEADER && HEADER + TARGET * Count(p) <= |p| }

  function TargetAt(i: int): int { HEADER + TARGET * i }

  function Code(p: Bytes, i: int): nat requires Room(p) && 0 <= i < Count(p) { U32(p, TargetAt(i)) }
  function Kind(p: Bytes, i: int): nat requires Room(p) && 0 <= i < Count(p) { U32(p, TargetAt(i) + 4) }

  /** Targets are inside the code, 16-aligned in memory, strictly ascending, with a known kind. */
  predicate TargetOk(p: Bytes, rodata: int, i: int)
    requires Room(p) && 0 <= i < Count(p)
  {
    && CodeBegin(p) <= Code(p, i) < CodeEnd(p)
    && (rodata + Code(p, i)) % 16 == 0
    && (i > 0 ==> Code(p, i - 1) < Code(p, i))
    && 0 < Kind(p, i) < 16
  }

  predicate TargetsOk(p: Bytes, rodata: int)
    requires Room(p)
  {
    forall i :: 0 <= i < Count(p) ==> TargetOk(p, rodata, i)
  }

  datatype Roles = Roles(quick: nat, jni: nat, trampoline: nat, thunk: nat)

  function Bit(kind: nat, weight: nat): nat
    requires weight > 0
  {
    kind / weight % 2
  }

  /** How many of the first n targets have each role. */
  function RoleCounts(p: Bytes, n: nat): Roles
    requires Room(p) && n <= Count(p)
  {
    if n == 0 then Roles(0, 0, 0, 0)
    else
      var r, k := RoleCounts(p, n - 1), Kind(p, n - 1);
      Roles(r.quick + Bit(k, 1), r.jni + Bit(k, 2), r.trampoline + Bit(k, 4), r.thunk + Bit(k, 8))
  }

  predicate CfgOk(p: Bytes, codeBegin: int, codeEnd: int, rodata: int) {
    && HeaderOk(p)
    && Sealed(p, CHECKSUM_AT)
    && BoundsOk(p, codeBegin, codeEnd)
    && Room(p)
    && TargetsOk(p, rodata)
    && RoleCounts(p, Count(p)).trampoline == TRAMPOLINES
  }

  datatype Summary = Summary(targets: nat, roles: Roles)

  /** None where `validate_windows_oat_cfg` raises. */
  method Validate(p: Bytes, codeBegin: int, codeEnd: int, rodata: int) returns (r: Option<Summary>)
    ensures r.Some? == CfgOk(p, codeBegin, codeEnd, rodata)
    ensures r.Some? ==> r.value == Summary(Count(p), RoleCounts(p, Count(p)))
  {
    if !HeaderOk(p) {
      return None;
    }
    if U32(p, CHECKSUM_AT) != Adler32(Blanked(p, CHECKSUM_AT)) {
      return None;
    }
    if CodeBegin(p) != codeBegin || CodeEnd(p) != codeEnd {
      return None;
    }
    var roles := CountRoles(p, rodata);
    if roles == None || roles.value.trampoline != TRAMPOLINES {
      return None;
    }
    return Some(Summary(Count(p), roles.value));
  }

  /** The target loop: how many targets have each role, unless a target is invalid. */
  method CountRoles(p: Bytes, rodata: int) returns (roles: Option<Roles>)
    requires Room(p)
    ensures roles == if TargetsOk(p, rodata) then Some(RoleCounts(p, Count(p))) else None
  {
    var previous: Option<nat> := None;
    var quick: nat, jni: nat, trampoline: nat, thunk: nat := 0, 0, 0, 0;
    for i := 0 to Count(p)
      invariant previous == if i == 0 then None else Some(Code(p, i - 1))
      invariant forall j :: 0 <= j < i ==> TargetOk(p, rodata, j)
      invariant RoleCounts(p, i) == Roles(quick, jni, trampoline, thunk)
    {
      var code, kind := U32(p, TargetAt(i)), U32(p, TargetAt(i) + 4);
      if code < CodeBegin(p) || code >= CodeEnd(p) || (rodata + code) % 16 != 0
         || (previous.Some? && code <= previous.value) || kind == 0 || kind >= 16 {
        assert !TargetOk(p, rodata, i);
        return None;
      }
      previous := Some(code);
      quick, jni := quick + Bit(kind, 1), jni + Bit(kind, 2);
      trampoline, thunk := trampoline + Bit(kind, 4), thunk + Bit(kind, 8);
    }
    return Some(Roles(quick, jni, trampoline, thunk));
  }

  /** The targets among the first n that have the role of this weight. */
  function WithRole(p: Bytes, n: nat, weight: nat): set<int>
    requires Room(p) && n <= Count(p) && weight > 0
  {
    set i | 0 <= i < n && Kind(p, i) / weight % 2 == 1
  }

  lemma RoleStep(p: Bytes, n: nat, weight: nat)
    requires Room(p) && n < Count(p) && weight > 0
    ensures |WithRole(p, n + 1, weight)| == |WithRole(p, n, weight)| + Bit(Kind(p, n), weight)
  {
    var before := WithRole(p, n, weight);
    assert n !in before;
    assert WithRole(p, n + 1, weight) == before + if Kind(p, n) / weight % 2 == 1 then {n} else {};
  }

  lemma NoneWithRole(p: Bytes, weight: nat)
    requires Room(p) && weight > 0
    ensures |WithRole(p, 0, weight)| == 0
  {
    assert WithRole(p, 0, weight) == {};
  }

  /** The running counters count the targets with the first, second, third and fourth bit set. */
  lemma {:induction false} RolesCounted(p: Bytes, n: nat)
    requires Room(p) && n <= Count(p)
    ensures RoleCounts(p, n) ==
            Roles(|WithRole(p, n, 1)|, |WithRole(p, n, 2)|, |WithRole(p, n, 4)|, |WithRole(p, n, 8)|)
  {
    hide WithRole, Bit;
    if n == 0 {
      NoneWithRole(p, 1);
      NoneWithRole(p, 2);
      NoneWithRole(p, 4);
      NoneWithRole(p, 8);
    } else {
      RolesCounted(p, n - 1);
      RoleStep(p, n - 1, 1);
      RoleStep(p, n - 1, 2);
      RoleStep(p, n - 1, 4);
      RoleStep(p, n - 1, 8);
    }
  }

  /** Changing any one byte of an accepted table, and nothing else, is always rejected. */
  lemma OneByteRejected(p: Bytes, codeBegin: int, codeEnd: int, rodata: int, k: nat, b: Byte)
    requires CfgOk(p, codeBegin, codeEnd, rodata)
    requires k < |p| && b != p[k]
    ensures !CfgOk(p[k := b], codeBegin, codeEnd, rodata)
  {
    OneByteUnseals(p, CHECKSUM_AT, k, b);
  }

  // The corpus generator

  predicate Usable(p: Bytes) {
    && |p| >= 64
    && Count(p) >= 2
    && TargetsAt(p) + Count(p) * TARGET == |p|
  }

  function FlipByte(b: Byte): (c: Byte)
    ensures c != b
  {
    Flip(b)
  }

  function HeaderMutations(p: Bytes): (ms: seq<Mutation>)
    requires |p| >= HEADER
    ensures |ms| == 12 && AllFit(p, ms)
  {
    [ Mutation("magic", PutByte(0, FlipByte(p[0])), true),
      Mutation("version", PutWord(4, 2), true),
      Mutation("header-size", PutWord(8, 52), true),
      Mutation("target-machine", PutWord(12, 0xAA64), true),
      Mutation("table-flags", PutWord(16, 3), true),
      Mutation("target-size", PutWord(20, 12), true),
      Mutation("target-count", PutWord(24, 0), true),
      Mutation("targets-offset", PutWord(28, 52), true),
      Mutation("code-begin", PutWord(32, CodeBegin(p) + 1), true),
      Mutation("code-end", PutWord(36, CodeEnd(p) - 1), true),
      Mutation("checksum", PutWord(40, Flip(U32(p, 40))), false),
      Mutation("reserved", PutWord(44, 1), true) ]
  }

  function TargetMutations(p: Bytes): (ms: seq<Mutation>)
    requires Usable(p)
    ensures |ms| == 6 && AllFit(p, ms)
  {
    var first := TargetsAt(p);
    var second, last := first + TARGET, first + (Count(p) - 1) * TARGET;
    var code, kind := U32(p, first), U32(p, first + 4);
    [ Mutation("entry-before-code", PutPair(first, CodeBegin(p) - 1, kind), true),
      Mutation("entry-at-code-end", PutPair(last, CodeEnd(p), 4), true),
      Mutation("entry-misaligned", PutPair(first, code + 1, kind), true),
      Mutation("entry-duplicate", PutPair(second, code, 1), true),
      Mutation("entry-zero-kind", PutPair(first, code, 0), true),
      Mutation("entry-unknown-kind", PutPair(first, code, 0x10), true) ]
  }

  /** The corpus; None where the generator raises. */
  function Corpus(p: Bytes): (r: Option<seq<Case>>) {
    if !Usable(p) then None
    else
      var ms := HeaderMutations(p) + TargetMutations(p);
      if AllPackable(ms) then Some(Mutants(p, ms, CHECKSUM_AT)) else None
  }

  method Build(p: Bytes) returns (r: Option<seq<Case>>)
    ensures r == Corpus(p)
  {
    if !Usable(p) {
      return None;
    }
    r := WriteCases(p, HeaderMutations(p) + TargetMutations(p), CHECKSUM_AT);
  }

  // Every case is rejected

  predicate Rejects(p: Bytes, m: Mutation, codeBegin: int, codeEnd: int, rodata: int) {
    && |p| >= HEADER && Packable(m.edit) && Fits(p, m.edit)
    && !CfgOk(Mutant(p, m, CHECKSUM_AT), codeBegin, codeEnd, rodata)
  }

  predicate AllRejected(p: Bytes, ms: seq<Mutation>, codeBegin: int, codeEnd: int, rodata: int) {
    forall k :: 0 <= k < |ms| && Packable(ms[k].edit) ==> Rejects(p, ms[k], codeBegin, codeEnd, rodata)
  }

  lemma ConstantWordRejected(p: Bytes, at: int, v: int, codeBegin: int, codeEnd: int, rodata: int)
    requires |p| >= HEADER && at in {4, 8, 12, 16, 20, 24, 28, 44} && Word(v)
    requires at == 4 || at == 16 ==> v != 1
    requires at == 8 || at == 28 ==> v != HEADER
    requires at == 12 ==> v != 0x8664
    requires at == 20 ==> v != TARGET
    requires at == 24 ==> v == 0
    requires at == 44 ==> v != 0
    ensures !CfgOk(Reseal(Put32(p, at, v), CHECKSUM_AT), codeBegin, codeEnd, rodata)
  {
    var q := WordMutant(p, at, v, CHECKSUM_AT);
  }

  lemma BoundWordRejected(p: Bytes, at: int, v: int, codeBegin: int, codeEnd: int, rodata: int)
    requires |p| >= HEADER && BoundsOk(p, codeBegin, codeEnd) && at in {32, 36} && Word(v) && v != U32(p, at)
    ensures !CfgOk(Reseal(Put32(p, at, v), CHECKSUM_AT), codeBegin, codeEnd, rodata)
  {
    var q := WordMutant(p, at, v, CHECKSUM_AT);
  }

  lemma MagicRejected(p: Bytes, codeBegin: int, codeEnd: int, rodata: int)
    requires HeaderOk(p)
    ensures !CfgOk(Reseal(p[0 := FlipByte(p[0])], CHECKSUM_AT), codeBegin, codeEnd, rodata)
  {
    var r := p[0 := FlipByte(p[0])];
    var q := Reseal(r, CHECKSUM_AT);
    ResealKeeps(r, CHECKSUM_AT);
    assert q[0] == FlipByte(p[0]) && q[..4][0] == q[0] && p[..4][0] == p[0];
  }

  lemma ChecksumRejected(p: Bytes, v: int, codeBegin: int, codeEnd: int, rodata: int)
    requires |p| >= HEADER && Sealed(p, CHECKSUM_AT) && Word(v) && v != U32(p, CHECKSUM_AT)
    ensures !CfgOk(Put32(p, CHECKSUM_AT, v), codeBegin, codeEnd, rodata)
  {
    var q := Put32(p, CHECKSUM_AT, v);
    ReadPacked(p, CHECKSUM_AT, v);
    Overwrite(p, q, CHECKSUM_AT, 0, 4);
  }

  lemma HeaderMutantRejected(p: Bytes, codeBegin: int, codeEnd: int, rodata: int, k: nat, m: Mutation)
    requires CfgOk(p, codeBegin, codeEnd, rodata) && k < 12
    requires m == HeaderMutations(p)[k] && Packable(m.edit)
    ensures Rejects(p, m, codeBegin, codeEnd, rodata)
  {
    if k == 0 {
      MagicRejected(p, codeBegin, codeEnd, rodata);
    } else if k == 8 || k == 9 {
      BoundWordRejected(p, m.edit.at, m.edit.v, codeBegin, codeEnd, rodata);
    } else if k == 10 {
      ChecksumRejected(p, m.edit.v, codeBegin, codeEnd, rodata);
    } else {
      ConstantWordRejected(p, m.edit.at, m.edit.v, codeBegin, codeEnd, rodata);
    }
  }

  lemma HeaderKept(p: Bytes, q: Bytes, at: int)
    requires Room(p) && Agree(p, q, at, 8, CHECKSUM_AT) && at >= HEADER
    ensures Room(q) && Count(q) == Count(p) && CodeBegin(q) == CodeBegin(p) && CodeEnd(q) == CodeEnd(p)
  {
    WordKept(p, q, at, 8, 24, CHECKSUM_AT);
    WordKept(p, q, at, 8, 32, CHECKSUM_AT);
    WordKept(p, q, at, 8, 36, CHECKSUM_AT);
  }

  /** A target that cannot stand at position i. */
  predicate BadTarget(p: Bytes, rodata: int, i: int, code: int, kind: int)
    requires Room(p) && 0 <= i < Count(p)
  {
    || code < CodeBegin(p) || code >= CodeEnd(p) || (rodata + code) % 16 != 0
    || (i > 0 && code <= Code(p, i - 1)) || kind == 0 || kind >= 16
  }

  lemma BadTargetStays(p: Bytes, rodata: int, i: int, code: int, kind: int) returns (q: Bytes)
    requires Room(p) && 0 <= i < Count(p) && Word(code) && Word(kind) && BadTarget(p, rodata, i, code, kind)
    ensures TargetAt(i) <= |p| - 8 && q == Reseal(Apply(p, PutPair(TargetAt(i), code, kind)), CHECKSUM_AT)
    ensures Room(q) && !TargetsOk(q, rodata)
  {
    q := PairMutant(p, TargetAt(i), code, kind, CHECKSUM_AT);
    HeaderKept(p, q, TargetAt(i));
    if i > 0 {
      WordKept(p, q, TargetAt(i), 8, TargetAt(i - 1), CHECKSUM_AT);
    }
    assert !TargetOk(q, rodata, i);
  }

  /** The index of the target that the k-th target mutation rewrites. */
  function Rewritten(p: Bytes, k: nat): (i: int)
    requires Room(p) && Count(p) >= 2
    ensures 0 <= i < Count(p)
  {
    if k == 3 then 1 else if k == 1 then Count(p) - 1 else 0
  }

  lemma TargetMutationsBad(p: Bytes, rodata: int, k: nat)
    requires Usable(p) && Room(p) && TargetsAt(p) == HEADER && TargetOk(p, rodata, 0) && k < 6
    ensures var m := TargetMutations(p)[k];
            var e := m.edit;
            && m.reseal && e.PutPair? && e.at == TargetAt(Rewritten(p, k))
            && BadTarget(p, rodata, Rewritten(p, k), e.v, e.w)
  {
  }

  lemma TargetMutantRejected(p: Bytes, codeBegin: int, codeEnd: int, rodata: int, k: nat, m: Mutation)
    requires Usable(p) && Room(p) && TargetsAt(p) == HEADER && TargetsOk(p, rodata) && k < 6
    requires m == TargetMutations(p)[k] && Packable(m.edit)
    ensures Rejects(p, m, codeBegin, codeEnd, rodata)
  {
    assert TargetOk(p, rodata, 0);
    TargetMutationsBad(p, rodata, k);
    var q := BadTargetStays(p, rodata, Rewritten(p, k), m.edit.v, m.edit.w);
  }

  lemma HeaderMutantsRejected(p: Bytes, codeBegin: int, codeEnd: int, rodata: int)
    requires CfgOk(p, codeBegin, codeEnd, rodata)
    ensures AllRejected(p, HeaderMutations(p), codeBegin, codeEnd, rodata)
  {
    forall k | 0 <= k < 12 && Packable(HeaderMutations(p)[k].edit)
      ensures Rejects(p, HeaderMutations(p)[k], codeBegin, codeEnd, rodata)
    {
      HeaderMutantRejected(p, codeBegin, codeEnd, rodata, k, HeaderMutations(p)[k]);
    }
  }

  lemma TargetMutantsRejected(p: Bytes, codeBegin: int, codeEnd: int, rodata: int)
    requires Usable(p) && Room(p) && TargetsAt(p) == HEADER && TargetsOk(p, rodata)
    ensures AllRejected(p, TargetMutations(p), codeBegin, codeEnd, rodata)
  {
    forall k | 0 <= k < 6 && Packable(TargetMutations(p)[k].edit)
      ensures Rejects(p, TargetMutations(p)[k], codeBegin, codeEnd, rodata)
    {
      TargetMutantRejected(p, codeBegin, codeEnd, rodata, k, TargetMutations(p)[k]);
    }
  }

  lemma AllRejectedConcat(p: Bytes, ms: seq<Mutation>, ns: seq<Mutation>, codeBegin: int, codeEnd: int, rodata: int)
    requires AllRejected(p, ms, codeBegin, codeEnd, rodata) && AllRejected(p, ns, codeBegin, codeEnd, rodata)
    ensures AllRejected(p, ms + ns, codeBegin, codeEnd, rodata)
  {
  }

  lemma OnlyChecksumUnsealed(p: Bytes, k: nat)
    requires Usable(p) && k < 18
    ensures var m := (HeaderMutations(p) + TargetMutations(p))[k]; m.name != "checksum" ==> m.reseal
  {
  }

  lemma CasesSealed(p: Bytes)
    requires Corpus(p).Some?
    ensures forall k :: 0 <= k < |Corpus(p).value| && Corpus(p).value[k].0 != "checksum" ==>
              |Corpus(p).value[k].1| == |p| && Sealed(Corpus(p).value[k].1, CHECKSUM_AT)
  {
    hide HeaderMutations, TargetMutations, Sealed;
    var ms := HeaderMutations(p) + TargetMutations(p);
    forall k | 0 <= k < |ms| && ms[k].name != "checksum"
      ensures Sealed(Mutant(p, ms[k], CHECKSUM_AT), CHECKSUM_AT)
    {
      OnlyChecksumUnsealed(p, k);
      MutantSealed(p, ms[k], CHECKSUM_AT);
    }
  }

  /** Whatever accepted table the corpus is built from, it has 18 cases and all are rejected,
      although all but the one that spoils the checksum have a right one. */
  lemma EveryMutantRejected(p: Bytes, codeBegin: int, codeEnd: int, rodata: int)
    requires CfgOk(p, codeBegin, codeEnd, rodata) && Corpus(p).Some?
    ensures |Corpus(p).value| == 18
    ensures forall k :: 0 <= k < 18 ==> !CfgOk(Corpus(p).value[k].1, codeBegin, codeEnd, rodata)
    ensures forall k :: 0 <= k < 18 && Corpus(p).value[k].0 != "checksum" ==>
              |Corpus(p).value[k].1| == |p| && Sealed(Corpus(p).value[k].1, CHECKSUM_AT)
  {
    var hs, ts := HeaderMutations(p), TargetMutations(p);
    HeaderMutantsRejected(p, codeBegin, codeEnd, rodata);
    TargetMutantsRejected(p, codeBegin, codeEnd, rodata);
    AllRejectedConcat(p, hs, ts, codeBegin, codeEnd, rodata);
    forall k | 0 <= k < 18
      ensures !CfgOk(Corpus(p).value[k].1, codeBegin, codeEnd, rodata)
    {
      assert Packable((hs + ts)[k].edit);
      assert Rejects(p, (hs + ts)[k], codeBegin, codeEnd, rodata);
    }
    CasesSealed(p);
  }

  // When the generator succeeds

  lemma {:induction false} TrampolinesBound(p: Bytes, n: nat)
    requires Room(p) && n <= Count(p)
    ensures RoleCounts(p, n).trampoline <= n
  {
    if n > 0 {
      TrampolinesBound(p, n - 1);
    }
  }

  lemma HeaderPacks(p: Bytes)
    requires |p| >= HEADER && CodeBegin(p) < CodeEnd(p)
    ensures AllPackable(HeaderMutations(p))
  {
    U32Bytes(p, 36);
    U32Bytes(p, 40);
  }

  lemma TargetsPack(p: Bytes, rodata: int)
    requires Usable(p) && Room(p) && TargetsAt(p) == HEADER && TargetOk(p, rodata, 0)
    ensures AllPackable(TargetMutations(p)) <==> CodeBegin(p) >= 1
  {
    U32Bytes(p, 32);
    U32Bytes(p, 36);
    U32Bytes(p, HEADER);
    U32Bytes(p, HEADER + 4);
    assert Packable(TargetMutations(p)[0].edit) <==> CodeBegin(p) >= 1;
  }

  /** From an accepted table the corpus is built exactly when the code does not start at
      offset 0: the only word that may not fit in 32 bits is the one before the code. */
  lemma BuiltExactlyWhen(p: Bytes, codeBegin: int, codeEnd: int, rodata: int)
    requires CfgOk(p, codeBegin, codeEnd, rodata)
    ensures Corpus(p).Some? <==> codeBegin >= 1
  {
    TrampolinesBound(p, Count(p));
    assert TargetOk(p, rodata, 0);
    HeaderPacks(p);
    TargetsPack(p, rodata);
    PackConcat(HeaderMutations(p), TargetMutations(p));
  }
}
