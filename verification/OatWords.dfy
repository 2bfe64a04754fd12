/** Byte strings given by their 32-bit little-endian words, and the meaning of the checksum. */
module OatWords {
  import opened OatBytes
  import opened Widths

  /** Every word, least significant byte first. */
  function WordBytes(ws: seq<int>): (b: Bytes)
    requires forall k :: 0 <= k < |ws| ==> 0 <= ws[k] < WORD
    ensures |b| == 4 * |ws|
  {
    if ws == [] then []
    else
      var w := ws[0];
      var first: Bytes := [w % 0x100, w / 0x100 % 0x100, w / 0x1_0000 % 0x100, w / 0x100_0000];
      first + WordBytes(ws[1..])
  }

  lemma FourBytes(w: int)
    requires 0 <= w < WORD
    ensures 0 <= w / 0x100_0000 < 0x100
    ensures w == w % 0x100 + 0x100 * (w / 0x100 % 0x100 + 0x100 * (w / 0x1_0000 % 0x100 + 0x100 * (w / 0x100_0000)))
  {
    assert w / 0x100 / 0x100 == w / 0x1_0000 && w / 0x1_0000 / 0x100 == w / 0x100_0000;
  }

  lemma {:induction false} WordAt(ws: seq<int>, tail: Bytes, k: nat)
    requires forall k :: 0 <= k < |ws| ==> 0 <= ws[k] < WORD
    requires k < |ws|
    ensures U32(WordBytes(ws) + tail, 4 * k) == ws[k]
  {
    var p := WordBytes(ws) + tail;
    if k == 0 {
      FourBytes(ws[0]);
      U32Bytes(p, 0);
    } else {
      var rest := WordBytes(ws[1..]) + tail;
      WordAt(ws[1..], tail, k - 1);
      assert forall i :: 0 <= i < |rest| ==> p[4 + i] == rest[i];
      LittleShift(p, rest, 4 * (k - 1), 4);
    }
  }

  lemma {:induction false} LittleShift(p: Bytes, rest: Bytes, at: nat, n: nat)
    requires at + n <= |rest| && |p| == 4 + |rest|
    requires forall i :: 0 <= i < |rest| ==> p[4 + i] == rest[i]
    ensures Little(p, 4 + at, n) == Little(rest, at, n)
    decreases n
  {
    if n > 0 {
      LittleShift(p, rest, at + 1, n - 1);
    }
  }

  /** A word determines its four bytes. */
  lemma SameWord(p: Bytes, q: Bytes, at: nat)
    requires at + 4 <= |p| && at + 4 <= |q| && U32(p, at) == U32(q, at)
    ensures forall i :: at <= i < at + 4 ==> p[i] == q[i]
  {
    U32Bytes(p, at);
    U32Bytes(q, at);
    Digits(p[at], p[at + 1], p[at + 2], p[at + 3], q[at], q[at + 1], q[at + 2], q[at + 3]);
  }

  lemma Digits(a: Byte, b: Byte, c: Byte, d: Byte, a': Byte, b': Byte, c': Byte, d': Byte)
    requires a + 0x100 * (b + 0x100 * (c + 0x100 * d)) == a' + 0x100 * (b' + 0x100 * (c' + 0x100 * d'))
    ensures a == a' && b == b' && c == c' && d == d'
  {
  }

  /** Words that agree make bytes that agree. */
  lemma WordsAgree(p: Bytes, q: Bytes, n: nat)
    requires 4 * n <= |p| && 4 * n <= |q| && forall k :: 0 <= k < n ==> U32(p, 4 * k) == U32(q, 4 * k)
    ensures p[..4 * n] == q[..4 * n]
  {
    forall i | 0 <= i < 4 * n
      ensures p[i] == q[i]
    {
      SameWord(p, q, 4 * (i / 4));
    }
  }

  /** The bytes of p's first n words. */
  lemma WordsOf(p: Bytes, ws: seq<int>)
    requires 4 * |ws| <= |p| && forall k :: 0 <= k < |ws| ==> 0 <= ws[k] < WORD && ws[k] == U32(p, 4 * k)
    ensures p == WordBytes(ws) + p[4 * |ws|..]
  {
    hide U32, WordBytes;
    var q := WordBytes(ws) + p[4 * |ws|..];
    forall k | 0 <= k < |ws|
      ensures U32(p, 4 * k) == U32(q, 4 * k)
    {
      WordAt(ws, p[4 * |ws|..], k);
    }
    WordsAgree(p, q, |ws|);
    assert p == p[..4 * |ws|] + p[4 * |ws|..];
    assert q[..4 * |ws|] == WordBytes(ws);
  }

  /** Packing a word replaces it among the words. */
  lemma PackedWords(ws: seq<int>, tail: Bytes, k: nat, v: int)
    requires (forall k :: 0 <= k < |ws| ==> 0 <= ws[k] < WORD) && k < |ws| && 0 <= v < WORD
    ensures Put32(WordBytes(ws) + tail, 4 * k, v) == WordBytes(ws[k := v]) + tail
  {
    var p := WordBytes(ws) + tail;
    var q := Put32(p, 4 * k, v);
    forall j | 0 <= j < |ws|
      ensures U32(q, 4 * j) == ws[k := v][j]
    {
      WordAt(ws, tail, j);
      if j == k {
        ReadPacked(p, 4 * k, v);
      } else {
        ReadOther(p, 4 * k, v, 4 * j);
      }
    }
    WordsOf(q, ws[k := v]);
    assert q[4 * |ws|..] == tail;
  }

  // Adler-32: s1 is one more than the sum of the bytes, s2 the sum of all values of s1

  function SumOfSums(s: Bytes): nat {
    if s == [] then 0 else SumOfSums(s[..|s| - 1]) + 1 + Sum(s)
  }

  lemma {:induction false} HighIsSums(s: Bytes)
    ensures AdlerHigh(s) == SumOfSums(s) % 65521
  {
    if s != [] {
      HighIsSums(s[..|s| - 1]);
      LowIsSum(s);
      AddResidues(SumOfSums(s[..|s| - 1]), 1 + Sum(s));
    }
  }

  lemma AddResidues(x: nat, y: nat)
    ensures (x % MODULUS + y % MODULUS) % MODULUS == (x + y) % MODULUS
  {
    AddResidue(x, y % MODULUS);
    AddResidue(y, x);
  }

  /** Both sums are taken modulo 65521, and s2 is the high half. */
  lemma AdlerMeans(s: Bytes)
    ensures Adler32(s) == SumOfSums(s) % 65521 * 65536 + (1 + Sum(s)) % 65521
  {
    HighIsSums(s);
    LowIsSum(s);
  }
}
