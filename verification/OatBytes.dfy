/** Little-endian words in byte strings, and the Adler-32 checksum (section 2.2 of RFC 1950). */
module OatBytes {
  import opened Widths

  type Bytes = seq<Byte>

  const WORD := 0x1_0000_0000

  /** The n-byte little-endian number at `at`. */
  function Little(p: Bytes, at: int, n: nat): (v: nat)
    requires 0 <= at && at + n <= |p|
    decreases n
  {
    if n == 0 then 0 else (p[at] as int) + 0x100 * Little(p, at + 1, n - 1)
  }

  function U32(p: Bytes, at: int): (v: nat)
    requires 0 <= at <= |p| - 4
  {
    Little(p, at, 4)
  }

  lemma U32Bytes(p: Bytes, at: int)
    requires 0 <= at <= |p| - 4
    ensures U32(p, at) == (p[at] as int)
                          + 0x100 * ((p[at + 1] as int) + 0x100 * ((p[at + 2] as int) + 0x100 * (p[at + 3] as int)))
    ensures U32(p, at) < WORD
  {
    assert Little(p, at + 1, 3) == (p[at + 1] as int) + 0x100 * Little(p, at + 2, 2);
    assert Little(p, at + 2, 2) == (p[at + 2] as int) + 0x100 * Little(p, at + 3, 1);
    assert Little(p, at + 3, 1) == (p[at + 3] as int) + 0x100 * Little(p, at + 4, 0);
  }

  lemma {:induction false} LittleFrame(p: Bytes, q: Bytes, at: int, n: nat)
    requires 0 <= at && at + n <= |p| && at + n <= |q|
    requires forall i :: at <= i < at + n ==> p[i] == q[i]
    ensures Little(p, at, n) == Little(q, at, n)
    decreases n
  {
    if n > 0 {
      LittleFrame(p, q, at + 1, n - 1);
    }
  }

  /** p with the low n bytes of v written at `at`, least significant first. */
  function PutLittle(p: Bytes, at: int, v: nat, n: nat): (q: Bytes)
    requires 0 <= at && at + n <= |p|
    ensures |q| == |p|
    ensures forall i :: 0 <= i < |p| && !(at <= i < at + n) ==> q[i] == p[i]
    decreases n
  {
    if n == 0 then p else PutLittle(p[at := v % 0x100], at + 1, v / 0x100, n - 1)
  }

  /** p with the word v packed at `at`. */
  function Put32(p: Bytes, at: int, v: int): (q: Bytes)
    requires 0 <= at <= |p| - 4 && 0 <= v < WORD
    ensures |q| == |p|
    ensures forall i :: 0 <= i < |p| && !(at <= i < at + 4) ==> q[i] == p[i]
  {
    PutLittle(p, at, v, 4)
  }

  /** v fits in n bytes. */
  predicate Narrow(v: nat, n: nat) { if n == 0 then v == 0 else Narrow(v / 0x100, n - 1) }

  lemma WordIsNarrow(v: nat)
    requires v < WORD
    ensures Narrow(v, 4)
  {
    var v1 := v / 0x100;
    var v2 := v1 / 0x100;
    assert Narrow(v2 / 0x100, 1);
    assert Narrow(v2, 2);
  }

  lemma {:induction false} LittleBack(p: Bytes, at: int, v: nat, n: nat)
    requires 0 <= at && at + n <= |p| && Narrow(v, n)
    ensures Little(PutLittle(p, at, v, n), at, n) == v
    decreases n
  {
    if n > 0 {
      LittleBack(p[at := v % 0x100], at + 1, v / 0x100, n - 1);
    }
  }

  lemma ReadPacked(p: Bytes, at: int, v: int)
    requires 0 <= at <= |p| - 4 && 0 <= v < WORD
    ensures U32(Put32(p, at, v), at) == v
  {
    WordIsNarrow(v);
    LittleBack(p, at, v, 4);
  }

  /** Words that do not overlap the packed one are unchanged. */
  lemma ReadOther(p: Bytes, at: int, v: int, other: int)
    requires 0 <= at <= |p| - 4 && 0 <= v < WORD && 0 <= other <= |p| - 4
    requires other + 4 <= at || at + 4 <= other
    ensures U32(Put32(p, at, v), other) == U32(p, other)
  {
    LittleFrame(Put32(p, at, v), p, other, 4);
  }

  // Adler-32

  const MODULUS := 65521

  function AdlerLow(s: Bytes): (a: nat)
    ensures a < MODULUS
  {
    if s == [] then 1 else (AdlerLow(s[..|s| - 1]) + s[|s| - 1]) % MODULUS
  }

  function AdlerHigh(s: Bytes): (b: nat)
    ensures b < MODULUS
  {
    if s == [] then 0 else (AdlerHigh(s[..|s| - 1]) + AdlerLow(s)) % MODULUS
  }

  function Adler32(s: Bytes): (sum: nat)
    ensures sum < WORD
  {
    0x1_0000 * AdlerHigh(s) + AdlerLow(s)
  }

  function Sum(s: Bytes): nat {
    if s == [] then 0 else Sum(s[..|s| - 1]) + s[|s| - 1]
  }

  lemma {:induction false} LowIsSum(s: Bytes)
    ensures AdlerLow(s) == (1 + Sum(s)) % MODULUS
  {
    if s != [] {
      LowIsSum(s[..|s| - 1]);
      AddResidue(1 + Sum(s[..|s| - 1]), s[|s| - 1]);
    }
  }

  lemma AddResidue(x: nat, b: nat)
    ensures (x % MODULUS + b) % MODULUS == (x + b) % MODULUS
  {
    var q, r := x / MODULUS, x % MODULUS;
    assert x + b == MODULUS * q + (r + b);
    assert (MODULUS * q + (r + b)) % MODULUS == (r + b) % MODULUS;
  }

  lemma {:induction false} SumOfChange(s: Bytes, k: nat, b: Byte)
    requires k < |s|
    ensures Sum(s[k := b]) == Sum(s) - s[k] + b
  {
    var t, n := s[k := b], |s| - 1;
    if k == n {
      assert t[..n] == s[..n];
    } else {
      assert t[..n] == s[..n][k := b];
      SumOfChange(s[..n], k, b);
    }
  }

  /** Changing one byte always changes the checksum. */
  lemma ChangeChangesAdler(s: Bytes, k: nat, b: Byte)
    requires k < |s| && b != s[k]
    ensures Adler32(s[k := b]) != Adler32(s)
  {
    LowIsSum(s);
    LowIsSum(s[k := b]);
    SumOfChange(s, k, b);
    if AdlerLow(s) == AdlerLow(s[k := b]) {
      CloseResidues(1 + Sum(s), 1 + Sum(s[k := b]));
    }
    HighLow(AdlerHigh(s), AdlerLow(s), AdlerHigh(s[k := b]), AdlerLow(s[k := b]));
  }

  lemma HighLow(h: nat, l: nat, h': nat, l': nat)
    requires l < MODULUS && l' < MODULUS && l != l'
    ensures 0x1_0000 * h + l != 0x1_0000 * h' + l'
  {
  }

  lemma CloseResidues(x: nat, y: nat)
    requires x % MODULUS == y % MODULUS && -MODULUS < x - y < MODULUS
    ensures x == y
  {
    assert x == MODULUS * (x / MODULUS) + x % MODULUS;
    assert y == MODULUS * (y / MODULUS) + y % MODULUS;
  }

  // A table carries its own checksum, computed with the checksum field zeroed

  function Blanked(p: Bytes, c: nat): Bytes requires c + 4 <= |p| { Put32(p, c, 0) }

  predicate Sealed(p: Bytes, c: nat)
    requires c + 4 <= |p|
  {
    U32(p, c) == Adler32(Blanked(p, c))
  }

  lemma WordDetermines(p: Bytes, q: Bytes, c: nat, k: nat)
    requires c + 4 <= |p| == |q| && c <= k < c + 4 && p[k] != q[k]
    requires forall i :: c <= i < c + 4 && i != k ==> p[i] == q[i]
    ensures U32(p, c) != U32(q, c)
  {
    U32Bytes(p, c);
    U32Bytes(q, c);
  }

  /** Writing n bytes forgets what was there. */
  lemma {:induction false} Overwrite(p: Bytes, q: Bytes, at: int, v: nat, n: nat)
    requires 0 <= at && at + n <= |p| == |q|
    requires forall i :: 0 <= i < |p| && !(at <= i < at + n) ==> q[i] == p[i]
    ensures PutLittle(q, at, v, n) == PutLittle(p, at, v, n)
    decreases n
  {
    if n == 0 {
      assert p == q;
    } else {
      Overwrite(p[at := v % 0x100], q[at := v % 0x100], at + 1, v / 0x100, n - 1);
    }
  }

  /** Changing any one byte of a sealed table, and nothing else, breaks its checksum. */
  lemma OneByteUnseals(p: Bytes, c: nat, k: nat, b: Byte)
    requires c + 4 <= |p| && Sealed(p, c) && k < |p| && b != p[k]
    ensures !Sealed(p[k := b], c)
  {
    var q := p[k := b];
    if c <= k < c + 4 {
      Overwrite(p, q, c, 0, 4);
      WordDetermines(p, q, c, k);
    } else {
      assert Blanked(q, c) == Blanked(p, c)[k := b];
      ChangeChangesAdler(Blanked(p, c), k, b);
      LittleFrame(p, q, c, 4);
    }
  }
}
