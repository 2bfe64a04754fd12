/** What the corrupted tables are corrupted in: every case spoils the field that it is named
    after, and nothing else but the checksum. */
module OatCorpusFields {
  import opened OatBytes
  import opened OatEdits
  import opened Options
  import opened Widths
  import Cfg = OatCfg
  import Corpus = OatUnwindCorpus
  import Rejection = OatUnwindRejection
  import Unwind = OatUnwind

  /** A stretch of bytes. */
  datatype Field = Field(at: int, size: int)

  predicate In(f: Field, i: int) { f.at <= i < f.at + f.size }

  /** q is p outside the field and outside the checksum, which lies at c. */
  predicate OnlyIn(f: Field, p: Bytes, q: Bytes, c: nat) {
    |q| == |p| && forall i :: 0 <= i < |p| && !In(f, i) && !(c <= i < c + 4) ==> q[i] == p[i]
  }

  /** The bytes that an edit may change. */
  function Touched(e: Edit): Field {
    match e
    case PutWord(at, _) => Field(at, 4)
    case PutPair(at, _, _) => Field(at, 8)
    case PutTriple(at, _, _, _) => Field(at, 12)
    case PutByte(at, _) => Field(at, 1)
  }

  lemma EditTouches(p: Bytes, m: Mutation, c: nat)
    requires c + 4 <= |p| && Packable(m.edit) && Fits(p, m.edit)
    ensures OnlyIn(Touched(m.edit), p, Mutant(p, m, c), c)
  {
    var r := Apply(p, m.edit);
    if m.reseal {
      ResealKeeps(r, c);
    }
  }

  lemma Widen(small: Field, large: Field, p: Bytes, q: Bytes, c: nat)
    requires OnlyIn(small, p, q, c) && large.at <= small.at && small.at + small.size <= large.at + large.size
    ensures OnlyIn(large, p, q, c)
  {
  }

  /** A sealed table that agrees with p outside the checksum is p. */
  lemma SealedAgain(p: Bytes, q: Bytes, c: nat)
    requires c + 4 <= |p| && Sealed(p, c) && |q| == |p| && Sealed(q, c)
    requires forall i :: 0 <= i < |p| && !(c <= i < c + 4) ==> q[i] == p[i]
    ensures p == q
  {
    Overwrite(p, q, c, 0, 4);
    assert U32(p, c) == U32(q, c);
    U32Bytes(p, c);
    U32Bytes(q, c);
    Same(p[c], p[c + 1], p[c + 2], p[c + 3], q[c], q[c + 1], q[c + 2], q[c + 3]);
  }

  lemma Same(a: Byte, b: Byte, c: Byte, d: Byte, a': Byte, b': Byte, c': Byte, d': Byte)
    requires a + 0x100 * (b + 0x100 * (c + 0x100 * d)) == a' + 0x100 * (b' + 0x100 * (c' + 0x100 * d'))
    ensures a == a' && b == b' && c == c' && d == d'
  {
  }

  // Unwind tables

  /** The field that a case of the unwind corpus is named after: a header word, the first, the
      second or the last entry, or the descriptors. */
  function UnwindField(name: string, count: int, size: int): Field {
    match name
    case "magic" => Field(0, 4)
    case "version" => Field(4, 4)
    case "header-size" => Field(8, 4)
    case "target-machine" => Field(12, 4)
    case "entry-size" => Field(16, 4)
    case "entry-count" => Field(20, 4)
    case "entries-offset" => Field(24, 4)
    case "unwind-offset" => Field(28, 4)
    case "unwind-size" => Field(32, 4)
    case "code-begin" => Field(36, 4)
    case "code-end" => Field(40, 4)
    case "checksum" => Field(44, 4)
    case "entry-before-code" => Field(48, 12)
    case "entry-overlap" => Field(60, 12)
    case "entry-empty" => Field(48, 12)
    case "entry-after-code" => Field(48 + 12 * (count - 1), 12)
    case "entry-unaligned-info" => Field(48, 12)
    case "entry-info-before-blob" => Field(48, 12)
    case "entry-info-at-end" => Field(48 + 12 * (count - 1), 12)
    case "info-version" => Field(48 + 12 * count, size - 48 - 12 * count)
    case "info-volatile-register" => Field(48 + 12 * count, size - 48 - 12 * count)
    case "info-unsupported-operation" => Field(48 + 12 * count, size - 48 - 12 * count)
    case "info-nonzero-padding" => Field(48 + 12 * count, size - 48 - 12 * count)
    case _ => Field(0, 0)
  }

  predicate Inside(small: Field, large: Field) {
    large.at <= small.at && small.at + small.size <= large.at + large.size
  }

  lemma HeaderFields(p: Bytes, k: nat)
    requires Unwind.Room(p) && k < 12
    ensures var m := Corpus.HeaderMutations(p)[k];
            Inside(Touched(m.edit), UnwindField(m.name, Unwind.Count(p), |p|))
  {
  }

  lemma EntryFields(p: Bytes, section: int, k: nat)
    requires Unwind.Room(p) && Unwind.Count(p) >= 2 && k < 7
    ensures var m := Corpus.EntryMutations(p, section)[k];
            Inside(Touched(m.edit), UnwindField(m.name, Unwind.Count(p), |p|))
  {
    hide U32;
  }

  lemma InfoFields(p: Bytes, section: int, t: Corpus.Targets, operation: nat, odd: nat, k: nat)
    requires Corpus.Usable(p) && Corpus.TargetsFit(p, t) && Rejection.TargetsAt(p, section, t, operation, odd) && k < 4
    ensures var m := Corpus.InfoMutations(p, t.first, t.operation, t.odd)[k];
            Inside(Touched(m.edit), UnwindField(m.name, Unwind.Count(p), |p|))
  {
    hide U32;
  }

  lemma UnwindTableAt(p: Bytes, section: int, t: Corpus.Targets, k: nat)
    requires Corpus.Usable(p) && Corpus.TargetsFit(p, t) && k < 23
    ensures Corpus.MutationTable(p, section, t)[k] ==
            if k < 12 then Corpus.HeaderMutations(p)[k]
            else if k < 19 then Corpus.EntryMutations(p, section)[k - 12]
            else Corpus.InfoMutations(p, t.first, t.operation, t.odd)[k - 19]
  {
    hide Corpus.HeaderMutations, Corpus.EntryMutations, Corpus.InfoMutations, U32;
  }

  lemma UnwindFields(p: Bytes, section: int, t: Corpus.Targets, k: nat)
    requires Corpus.FindTargets(p, section) == Some(t) && k < 23
    ensures var m := Corpus.MutationTable(p, section, t)[k];
            Inside(Touched(m.edit), UnwindField(m.name, Unwind.Count(p), |p|))
  {
    hide Corpus.HeaderMutations, Corpus.EntryMutations, Corpus.InfoMutations, Corpus.MutationTable;
    hide UnwindField, Inside, Touched, Corpus.FindTargets, Rejection.TargetsAt, U32;
    var operation, odd := Rejection.TargetsOfTable(p, section, t);
    UnwindTableAt(p, section, t, k);
    if k < 12 {
      HeaderFields(p, k);
    } else if k < 19 {
      EntryFields(p, section, k - 12);
    } else {
      InfoFields(p, section, t, operation, odd, k - 19);
    }
  }

  /** Every case of the corpus of an accepted table differs from the table in the field that it
      is named after, and nowhere else but in the checksum. */
  lemma UnwindCasesSpoilTheirFields(p: Bytes, codeBegin: int, codeEnd: int, section: int, k: nat)
    requires Unwind.UnwindOk(p, codeBegin, codeEnd, section) && Corpus.Corpus(p, section).Some? && k < 23
    ensures |Corpus.Corpus(p, section).value| == 23
    ensures var case_ := Corpus.Corpus(p, section).value[k];
            var f := UnwindField(case_.0, Unwind.Count(p), |p|);
            OnlyIn(f, p, case_.1, 44) && exists i :: 0 <= i < |p| && In(f, i) && case_.1[i] != p[i]
  {
    hide Corpus.MutationTable, UnwindField, Corpus.FindTargets, U32;
    Rejection.EveryMutantRejected(p, codeBegin, codeEnd, section);
    var t := Corpus.FindTargets(p, section).value;
    var m, q := Corpus.MutationTable(p, section, t)[k], Corpus.Corpus(p, section).value[k].1;
    var f := UnwindField(m.name, Unwind.Count(p), |p|);
    UnwindFields(p, section, t, k);
    EditTouches(p, m, 44);
    Widen(Touched(m.edit), f, p, q, 44);
    if forall i :: 0 <= i < |p| && In(f, i) ==> q[i] == p[i] {
      UnwindChecksumField(Unwind.Count(p), |p|);
      UnwindSame(p, codeBegin, codeEnd, section, q, m.name, f);
    }
  }

  lemma UnwindChecksumField(count: int, size: int)
    ensures UnwindField("checksum", count, size) == Field(44, 4)
  {
  }

  lemma UnwindSame(p: Bytes, codeBegin: int, codeEnd: int, section: int, q: Bytes, name: string, f: Field)
    requires Unwind.UnwindOk(p, codeBegin, codeEnd, section) && OnlyIn(f, p, q, 44)
    requires if name == "checksum" then f == Field(44, 4) else Sealed(q, 44)
    requires forall i :: 0 <= i < |p| && In(f, i) ==> q[i] == p[i]
    ensures Unwind.UnwindOk(q, codeBegin, codeEnd, section)
  {
    hide Unwind.UnwindOk;
    AcceptedIsSealed(p, codeBegin, codeEnd, section);
    if name == "checksum" {
      assert p == q;
    } else {
      SealedAgain(p, q, 44);
    }
  }

  lemma AcceptedIsSealed(p: Bytes, codeBegin: int, codeEnd: int, section: int)
    requires Unwind.UnwindOk(p, codeBegin, codeEnd, section)
    ensures |p| >= 48 && Sealed(p, 44)
  {
  }

  // CFG tables

  /** The field that a case of the CFG corpus is named after. */
  function CfgField(name: string, count: int): Field {
    match name
    case "magic" => Field(0, 4)
    case "version" => Field(4, 4)
    case "header-size" => Field(8, 4)
    case "target-machine" => Field(12, 4)
    case "table-flags" => Field(16, 4)
    case "target-size" => Field(20, 4)
    case "target-count" => Field(24, 4)
    case "targets-offset" => Field(28, 4)
    case "code-begin" => Field(32, 4)
    case "code-end" => Field(36, 4)
    case "checksum" => Field(40, 4)
    case "reserved" => Field(44, 4)
    case "entry-before-code" => Field(48, 8)
    case "entry-at-code-end" => Field(48 + 8 * (count - 1), 8)
    case "entry-misaligned" => Field(48, 8)
    case "entry-duplicate" => Field(56, 8)
    case "entry-zero-kind" => Field(48, 8)
    case "entry-unknown-kind" => Field(48, 8)
    case _ => Field(0, 0)
  }

  lemma CfgHeaderFields(p: Bytes, k: nat)
    requires Cfg.Usable(p) && k < 12
    ensures var m := Cfg.HeaderMutations(p)[k]; Inside(Touched(m.edit), CfgField(m.name, Cfg.Count(p)))
  {
    hide U32;
  }

  lemma CfgTargetFields(p: Bytes, k: nat)
    requires Cfg.Usable(p) && Cfg.TargetsAt(p) == 48 && k < 6
    ensures var m := Cfg.TargetMutations(p)[k]; Inside(Touched(m.edit), CfgField(m.name, Cfg.Count(p)))
  {
    hide U32;
  }

  lemma CfgFields(p: Bytes, k: nat)
    requires Cfg.Usable(p) && Cfg.TargetsAt(p) == 48 && k < 18
    ensures var m := (Cfg.HeaderMutations(p) + Cfg.TargetMutations(p))[k];
            Inside(Touched(m.edit), CfgField(m.name, Cfg.Count(p)))
  {
    hide Cfg.HeaderMutations, Cfg.TargetMutations, CfgField, Inside, Touched, U32;
    if k < 12 {
      CfgHeaderFields(p, k);
    } else {
      CfgTargetFields(p, k - 12);
    }
  }

  /** The same for CFG tables. */
  lemma CfgCasesSpoilTheirFields(p: Bytes, codeBegin: int, codeEnd: int, rodata: int, k: nat)
    requires Cfg.CfgOk(p, codeBegin, codeEnd, rodata) && Cfg.Corpus(p).Some? && k < 18
    ensures |Cfg.Corpus(p).value| == 18
    ensures var case_ := Cfg.Corpus(p).value[k];
            var f := CfgField(case_.0, Cfg.Count(p));
            OnlyIn(f, p, case_.1, 40) && exists i :: 0 <= i < |p| && In(f, i) && case_.1[i] != p[i]
  {
    hide Cfg.HeaderMutations, Cfg.TargetMutations, CfgField, U32;
    Cfg.EveryMutantRejected(p, codeBegin, codeEnd, rodata);
    var m, q := (Cfg.HeaderMutations(p) + Cfg.TargetMutations(p))[k], Cfg.Corpus(p).value[k].1;
    var f := CfgField(m.name, Cfg.Count(p));
    CfgFields(p, k);
    EditTouches(p, m, 40);
    Widen(Touched(m.edit), f, p, q, 40);
    if forall i :: 0 <= i < |p| && In(f, i) ==> q[i] == p[i] {
      CfgChecksumField(Cfg.Count(p));
      CfgSame(p, codeBegin, codeEnd, rodata, q, m.name, f);
    }
  }

  lemma CfgChecksumField(count: int)
    ensures CfgField("checksum", count) == Field(40, 4)
  {
  }

  lemma CfgSame(p: Bytes, codeBegin: int, codeEnd: int, rodata: int, q: Bytes, name: string, f: Field)
    requires Cfg.CfgOk(p, codeBegin, codeEnd, rodata) && OnlyIn(f, p, q, 40)
    requires if name == "checksum" then f == Field(40, 4) else Sealed(q, 40)
    requires forall i :: 0 <= i < |p| && In(f, i) ==> q[i] == p[i]
    ensures Cfg.CfgOk(q, codeBegin, codeEnd, rodata)
  {
    hide Cfg.CfgOk;
    AcceptedCfgIsSealed(p, codeBegin, codeEnd, rodata);
    if name == "checksum" {
      assert p == q;
    } else {
      SealedAgain(p, q, 40);
    }
  }

  lemma AcceptedCfgIsSealed(p: Bytes, codeBegin: int, codeEnd: int, rodata: int)
    requires Cfg.CfgOk(p, codeBegin, codeEnd, rodata)
    ensures |p| >= 48 && Sealed(p, 40)
  {
  }
}
