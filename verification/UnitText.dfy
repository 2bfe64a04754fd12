/** Code units, strings of them as lists, and blocks of NUL-terminated bytes. */
module UnitText {
  import opened Options
  import opened Widths

  /** A UTF-16 code unit other than the terminator. */
  type Unit = x: int | 0 < x < 0x1_0000 witness 1

  const BACKSLASH: Unit := 92

  datatype Text = End | Put(c: Unit, rest: Text)

  function Length(t: Text): nat { if t.End? then 0 else 1 + Length(t.rest) }

  /** A code unit, the terminator 0 included. */
  type Cell = x: int | 0 <= x < 0x1_0000

  /** A zero-free string of units, and its text from position i on. */
  function From(s: seq<Unit>, i: nat): Text
    requires i <= |s|
    decreases |s| - i
  {
    if i == |s| then End else Put(s[i], From(s, i + 1))
  }

  lemma {:induction false} FromLength(s: seq<Unit>, i: nat)
    requires i <= |s|
    ensures Length(From(s, i)) == |s| - i
    decreases |s| - i
  {
    if i < |s| {
      FromLength(s, i + 1);
    }
  }

  /** The text that starts with the units written so far and goes on as t. */
  function Prefixed(s: seq<Cell>, t: Text): Text
    requires forall k :: 0 <= k < |s| ==> s[k] != 0
  {
    if s == [] then t else Prefixed(s[..|s| - 1], Put(s[|s| - 1], t))
  }

  lemma PrefixedStep(s: seq<Cell>, c: Unit, t: Text)
    requires forall k :: 0 <= k < |s| ==> s[k] != 0
    ensures Prefixed(s + [c], t) == Prefixed(s, Put(c, t))
  {
    assert (s + [c])[..|s|] == s;
  }

  lemma {:induction false} PrefixedFrom(s: seq<Unit>, i: nat)
    requires i <= |s|
    ensures Prefixed(s[..i], From(s, i)) == From(s, 0)
  {
    if i == 0 {
      assert s[..0] == [];
    } else {
      assert s[..i][..i - 1] == s[..i - 1];
      PrefixedFrom(s, i - 1);
    }
  }

  // Bytes

  /** A strict UTF-8 decoder; None on malformed input. */
  type Decoder = seq<Byte> -> Option<seq<Unit>>

  /** The position of the first NUL at or after `at`. */
  function NulFrom(block: seq<Byte>, at: nat): (r: Option<nat>)
    requires at <= |block|
    ensures r.Some? ==> at <= r.value < |block| && block[r.value] == 0
    ensures r.Some? ==> forall k :: at <= k < r.value ==> block[k] != 0
    ensures r.None? ==> forall k :: at <= k < |block| ==> block[k] != 0
    decreases |block| - at
  {
    if at == |block| then None else if block[at] == 0 then Some(at) else NulFrom(block, at + 1)
  }

  // Blocks as they are written: every word followed by a NUL

  predicate NulFree(word: seq<Byte>) { forall k :: 0 <= k < |word| ==> word[k] != 0 }

  function NulBlock(words: seq<seq<Byte>>): seq<Byte> {
    if words == [] then [] else words[0] + [0] + NulBlock(words[1..])
  }

  /** The words' decodings, if all of them decode. */
  function AllDecoded(words: seq<seq<Byte>>, decode: Decoder): Option<seq<seq<Unit>>> {
    if words == [] then Some([])
    else
      match AllDecoded(words[1..], decode)
      case None => None
      case Some(rest) => if decode(words[0]) == None then None else Some([decode(words[0]).value] + rest)
  }

  /** The block has these bytes at position `at`. */
  predicate Holds(block: seq<Byte>, at: nat, bytes: seq<Byte>) {
    at + |bytes| <= |block| && block[at..at + |bytes|] == bytes
  }

  /** The first word of a written block, its NUL, and the words after it. */
  lemma FirstWord(block: seq<Byte>, at: nat, words: seq<seq<Byte>>)
    requires words != [] && Holds(block, at, NulBlock(words)) && NulFree(words[0])
    ensures at + |words[0]| < |block| && block[at..at + |words[0]|] == words[0]
    ensures NulFrom(block, at) == Some(at + |words[0]|)
    ensures Holds(block, at + |words[0]| + 1, NulBlock(words[1..]))
  {
    var word, bytes := words[0], NulBlock(words);
    var end := at + |word|;
    assert bytes == word + [0] + NulBlock(words[1..]);
    assert forall k :: 0 <= k < |bytes| ==> block[at + k] == bytes[k];
    assert forall k :: at <= k < end ==> block[k] == word[k - at];
    assert block[end] == 0;
    HeldBehind(block, at, word + [0], NulBlock(words[1..]));
  }

  lemma HeldBehind(block: seq<Byte>, at: nat, front: seq<Byte>, back: seq<Byte>)
    requires Holds(block, at, front + back)
    ensures Holds(block, at + |front|, back)
  {
    var bytes := front + back;
    assert bytes[|front|..] == back;
    assert block[at..at + |bytes|][|front|..] == block[at + |front|..at + |bytes|];
  }
}
