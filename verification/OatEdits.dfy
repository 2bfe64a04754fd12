/** Edits of a checksummed table: what a corpus generator does to a copy of it. */
module OatEdits {
  import opened OatBytes
  import opened Options
  import opened Widths

  datatype Edit =
    | PutWord(at: int, v: int)
    | PutPair(at: int, v: int, w: int)
    | PutTriple(at: int, begin: int, end: int, info: int)
    | PutByte(at: int, b: Byte)

  /** One case of a corpus; `reseal` says whether the checksum is rewritten. */
  datatype Mutation = Mutation(name: string, edit: Edit, reseal: bool)

  type Case = (string, Bytes)

  predicate Word(v: int) { 0 <= v < WORD }

  /** Whether 32-bit packing accepts the values. */
  predicate Packable(e: Edit) {
    match e
    case PutWord(_, v) => Word(v)
    case PutPair(_, v, w) => Word(v) && Word(w)
    case PutTriple(_, b, e, i) => Word(b) && Word(e) && Word(i)
    case PutByte(_, _) => true
  }

  predicate Fits(p: Bytes, e: Edit) {
    match e
    case PutWord(at, _) => 0 <= at <= |p| - 4
    case PutPair(at, _, _) => 0 <= at <= |p| - 8
    case PutTriple(at, _, _, _) => 0 <= at <= |p| - 12
    case PutByte(at, _) => 0 <= at < |p|
  }

  function Apply(p: Bytes, e: Edit): (q: Bytes)
    requires Packable(e) && Fits(p, e)
    ensures |q| == |p|
  {
    match e
    case PutWord(at, v) => Put32(p, at, v)
    case PutPair(at, v, w) => Put32(Put32(p, at, v), at + 4, w)
    case PutTriple(at, b, e, i) => Put32(Put32(Put32(p, at, b), at + 4, e), at + 8, i)
    case PutByte(at, b) => p[at := b]
  }

  /** The table with its checksum field c recomputed. */
  function Reseal(p: Bytes, c: nat): (q: Bytes)
    requires c + 4 <= |p|
    ensures |q| == |p|
  {
    Put32(p, c, Adler32(Blanked(p, c)))
  }

  lemma ResealSeals(p: Bytes, c: nat)
    requires c + 4 <= |p|
    ensures Sealed(Reseal(p, c), c)
  {
    var sum := Adler32(Blanked(p, c));
    ReadPacked(p, c, sum);
    Overwrite(p, Reseal(p, c), c, 0, 4);
  }

  function Mutant(p: Bytes, m: Mutation, c: nat): (q: Bytes)
    requires c + 4 <= |p| && Packable(m.edit) && Fits(p, m.edit)
    ensures |q| == |p|
  {
    if m.reseal then Reseal(Apply(p, m.edit), c) else Apply(p, m.edit)
  }

  /** A mutant whose checksum is rewritten has a right one. */
  lemma MutantSealed(p: Bytes, m: Mutation, c: nat)
    requires c + 4 <= |p| && Packable(m.edit) && Fits(p, m.edit) && m.reseal
    ensures Sealed(Mutant(p, m, c), c)
  {
    ResealSeals(Apply(p, m.edit), c);
  }

  predicate AllFit(p: Bytes, ms: seq<Mutation>) { forall k :: 0 <= k < |ms| ==> Fits(p, ms[k].edit) }

  predicate AllPackable(ms: seq<Mutation>) { forall k :: 0 <= k < |ms| ==> Packable(ms[k].edit) }

  lemma PackConcat(ms: seq<Mutation>, ns: seq<Mutation>)
    ensures AllPackable(ms + ns) <==> AllPackable(ms) && AllPackable(ns)
  {
    var all := ms + ns;
    assert forall k :: 0 <= k < |ms| ==> all[k] == ms[k];
    assert forall k :: 0 <= k < |ns| ==> all[|ms| + k] == ns[k];
  }

  function Mutants(p: Bytes, ms: seq<Mutation>, c: nat): (cases: seq<Case>)
    requires c + 4 <= |p| && AllFit(p, ms) && AllPackable(ms)
    ensures |cases| == |ms|
    ensures forall k :: 0 <= k < |ms| ==> cases[k] == (ms[k].name, Mutant(p, ms[k], c))
  {
    seq(|ms|, k requires 0 <= k < |ms| => (ms[k].name, Mutant(p, ms[k], c)))
  }

  /** Bitwise exclusive or with 1. */
  function Flip(v: nat): (w: nat)
    ensures w != v && w / 2 == v / 2
  {
    if v % 2 == 0 then v + 1 else v - 1
  }

  // What an edit keeps

  /** q is p except in [at, at + n) and in the checksum field. */
  predicate Agree(p: Bytes, q: Bytes, at: int, n: int, c: nat) {
    && |q| == |p|
    && forall i :: 0 <= i < |p| && !(at <= i < at + n) && !(c <= i < c + 4) ==> q[i] == p[i]
  }

  predicate Apart(w: int, at: int, n: int) { w + 4 <= at || at + n <= w }

  lemma WordKept(p: Bytes, q: Bytes, at: int, n: int, w: int, c: nat)
    requires Agree(p, q, at, n, c) && 0 <= w <= |p| - 4 && Apart(w, at, n) && Apart(w, c, 4)
    ensures U32(q, w) == U32(p, w)
  {
    LittleFrame(q, p, w, 4);
  }

  /** Resealing touches the checksum field only. */
  lemma ResealKeeps(p: Bytes, c: nat)
    requires c + 4 <= |p|
    ensures Agree(p, Reseal(p, c), 0, 0, c)
  {
  }

  lemma ResealKeepsWord(p: Bytes, w: int, c: nat)
    requires c + 4 <= |p| && 0 <= w <= |p| - 4 && Apart(w, c, 4)
    ensures U32(Reseal(p, c), w) == U32(p, w)
  {
    ResealKeeps(p, c);
    WordKept(p, Reseal(p, c), 0, 0, w, c);
  }

  /** A resealed word edit: the word is the new one, and everything else is kept. */
  lemma WordMutant(p: Bytes, at: int, v: int, c: nat) returns (q: Bytes)
    requires c + 4 <= |p| && 0 <= at <= |p| - 4 && Apart(at, c, 4) && Word(v)
    ensures q == Reseal(Put32(p, at, v), c) && Agree(p, q, at, 4, c)
    ensures U32(q, at) == v
  {
    q := Reseal(Put32(p, at, v), c);
    ReadPacked(p, at, v);
    ResealKeepsWord(Put32(p, at, v), at, c);
  }

  lemma PairBack(p: Bytes, at: int, v: int, w: int)
    requires 0 <= at <= |p| - 8 && Word(v) && Word(w)
    ensures U32(Apply(p, PutPair(at, v, w)), at) == v
    ensures U32(Apply(p, PutPair(at, v, w)), at + 4) == w
  {
    var p1 := Put32(p, at, v);
    ReadPacked(p, at, v);
    ReadPacked(p1, at + 4, w);
    ReadOther(p1, at + 4, w, at);
  }

  lemma PairMutant(p: Bytes, at: int, v: int, w: int, c: nat) returns (q: Bytes)
    requires c + 4 <= at <= |p| - 8 && Word(v) && Word(w)
    ensures q == Reseal(Apply(p, PutPair(at, v, w)), c) && Agree(p, q, at, 8, c)
    ensures U32(q, at) == v && U32(q, at + 4) == w
  {
    var r := Apply(p, PutPair(at, v, w));
    q := Reseal(r, c);
    PairBack(p, at, v, w);
    ResealKeepsWord(r, at, c);
    ResealKeepsWord(r, at + 4, c);
  }

  lemma TripleBack(p: Bytes, at: int, b: int, e: int, o: int)
    requires 0 <= at <= |p| - 12 && Word(b) && Word(e) && Word(o)
    ensures var r := Apply(p, PutTriple(at, b, e, o));
            && U32(r, at) == b && U32(r, at + 4) == e && U32(r, at + 8) == o
  {
    var r := Apply(p, PutPair(at, b, e));
    PairBack(p, at, b, e);
    ReadPacked(r, at + 8, o);
    ReadOther(r, at + 8, o, at);
    ReadOther(r, at + 8, o, at + 4);
  }

  /** A resealed record edit: the record's three words are the new ones. */
  lemma TripleMutant(p: Bytes, at: int, b: int, e: int, o: int, c: nat) returns (q: Bytes)
    requires c + 4 <= at <= |p| - 12 && Word(b) && Word(e) && Word(o)
    ensures q == Reseal(Apply(p, PutTriple(at, b, e, o)), c) && Agree(p, q, at, 12, c)
    ensures U32(q, at) == b && U32(q, at + 4) == e && U32(q, at + 8) == o
  {
    var r := Apply(p, PutTriple(at, b, e, o));
    q := Reseal(r, c);
    TripleBack(p, at, b, e, o);
    ResealKeepsWord(r, at, c);
    ResealKeepsWord(r, at + 4, c);
    ResealKeepsWord(r, at + 8, c);
  }

  // Editing a copy in place

  method PackInto(a: array<Byte>, at: nat, v: nat)
    requires at + 4 <= a.Length && v < WORD
    modifies a
    ensures a[..] == Put32(old(a[..]), at, v)
  {
    ghost var was := a[..];
    var left := v;
    for k := 0 to 4
      invariant PutLittle(a[..], at + k, left, 4 - k) == PutLittle(was, at, v, 4)
    {
      ghost var before := a[..];
      a[at + k] := left % 0x100;
      assert a[..] == before[at + k := left % 0x100];
      left := left / 0x100;
    }
  }

  method RewriteChecksum(a: array<Byte>, c: nat)
    requires c + 4 <= a.Length
    modifies a
    ensures a[..] == Reseal(old(a[..]), c)
  {
    ghost var was := a[..];
    PackInto(a, c, 0);
    var sum := Adler32(a[..]);
    PackInto(a, c, sum);
    PackTwice(was, sum, c);
  }

  lemma PackTwice(p: Bytes, v: nat, c: nat)
    requires c + 4 <= |p| && v < WORD
    ensures Put32(Put32(p, c, 0), c, v) == Put32(p, c, v)
  {
    Overwrite(p, Put32(p, c, 0), c, v, 4);
  }

  method ApplyInto(a: array<Byte>, e: Edit)
    requires Packable(e) && Fits(a[..], e)
    modifies a
    ensures a[..] == Apply(old(a[..]), e)
  {
    match e
    case PutWord(at, v) =>
      PackInto(a, at, v);
    case PutPair(at, v, w) =>
      PackInto(a, at, v);
      PackInto(a, at + 4, w);
    case PutTriple(at, begin, end, info) =>
      PackInto(a, at, begin);
      PackInto(a, at + 4, end);
      PackInto(a, at + 8, info);
    case PutByte(at, b) =>
      a[at] := b;
  }

  method WriteCase(p: Bytes, m: Mutation, c: nat) returns (q: Bytes)
    requires c + 4 <= |p| && Packable(m.edit) && Fits(p, m.edit)
    ensures q == Mutant(p, m, c)
  {
    var data := new Byte[|p|](i requires 0 <= i < |p| => p[i]);
    assert data[..] == p;
    ApplyInto(data, m.edit);
    if m.reseal {
      RewriteChecksum(data, c);
    }
    return data[..];
  }

  method WriteCases(p: Bytes, ms: seq<Mutation>, c: nat) returns (r: Option<seq<Case>>)
    requires c + 4 <= |p| && AllFit(p, ms)
    ensures r == if AllPackable(ms) then Some(Mutants(p, ms, c)) else None
  {
    var cases: seq<Case> := [];
    for k := 0 to |ms|
      invariant |cases| == k
      invariant forall j :: 0 <= j < k ==> Packable(ms[j].edit) && cases[j] == (ms[j].name, Mutant(p, ms[j], c))
    {
      if !Packable(ms[k].edit) {
        return None;
      }
      var q := WriteCase(p, ms[k], c);
      cases := cases + [(ms[k].name, q)];
    }
    assert cases == Mutants(p, ms, c);
    return Some(cases);
  }
}
