/** Building a command line from a program name and a block of NUL-terminated arguments. */
module CommandBuilder {
  import opened CommandBuffer
  import opened CommandLine
  import opened Options
  import opened UnitText
  import opened Widths

  /** The next `left` arguments of the block; None when one is missing, unterminated, or no
      valid UTF-8. */
  function Arguments(block: seq<Byte>, at: nat, left: nat, decode: Decoder): Option<seq<seq<Unit>>>
    decreases left
  {
    if left == 0 then Some([])
    else if at >= |block| || NulFrom(block, at) == None then None
    else
      var end := NulFrom(block, at).value;
      var word := decode(block[at..end]);
      if word == None then None
      else
        match Arguments(block, end + 1, left - 1, decode)
        case None => None
        case Some(rest) => Some([word.value] + rest)
  }

  function TextsOf(args: seq<seq<Unit>>): (r: seq<Text>)
    ensures |r| == |args|
  {
    if args == [] then [] else [From(args[0], 0)] + TextsOf(args[1..])
  }

  /** The cells that the reservations for these arguments ask for. */
  function Need(args: seq<seq<Unit>>): nat {
    if args == [] then 0 else 2 * |args[0]| + 3 + Need(args[1..])
  }

  method Build(program: seq<Unit>, block: seq<Byte>, argc: int, decode: Decoder, available: nat)
      returns (line: Option<seq<Unit>>)
    ensures argc < 0 || Arguments(block, 0, argc, decode) == None ==> line == None
    ensures argc >= 0 && Arguments(block, 0, argc, decode).Some? && line.Some? ==>
              From(line.value, 0) == Line(From(program, 0), TextsOf(Arguments(block, 0, argc, decode).value))
    ensures argc >= 0 && Arguments(block, 0, argc, decode).Some? && line.None? ==>
              TooLarge(2 * |program| + 3 + Need(Arguments(block, 0, argc, decode).value), available)
  {
    if argc < 0 {
      return None;
    }
    var buffer := new Buffer(available);
    ghost var parsed := Arguments(block, 0, argc, decode);
    ghost var args := if parsed.Some? then parsed.value else [];
    ghost var need := 2 * |program| + 3 + Need(args);
    EnoughIsGranted(0, 0, 2 * |program| + 2, available, need);
    var ok := buffer.AppendQuoted(program, Rest(TextsOf(args)));
    if !ok {
      return None;
    }
    assert Prefixed([], Line(From(program, 0), TextsOf(args))) == Line(From(program, 0), TextsOf(args));
    ok := AppendArguments(buffer, block, argc, decode, need);
    if !ok {
      return None;
    }
    line := Some(buffer.cells[..buffer.len]);
    PrefixedFrom(line.value, |line.value|);
    assert line.value[..|line.value|] == line.value;
  }

  /** More than the heap gives out at a time, or than can be represented. */
  predicate TooLarge(need: nat, available: nat) { Enough(need) > available || Enough(need) > SIZE_MAX / 2 }

  /** The argument loop. */
  method AppendArguments(buffer: Buffer, block: seq<Byte>, argc: nat, decode: Decoder, ghost need: nat)
      returns (ok: bool)
    requires buffer.Valid()
    requires Arguments(block, 0, argc, decode).Some? ==>
               buffer.len + Need(Arguments(block, 0, argc, decode).value) < need && buffer.cells.Length <= Enough(need)
    modifies buffer, buffer.cells
    ensures buffer.Valid()
    ensures Arguments(block, 0, argc, decode) == None ==> !ok
    ensures Arguments(block, 0, argc, decode).Some? && ok ==>
              Prefixed(buffer.Written(), End) ==
              Prefixed(old(buffer.Written()), Rest(TextsOf(Arguments(block, 0, argc, decode).value)))
    ensures Arguments(block, 0, argc, decode).Some? && !ok ==> TooLarge(need, buffer.available)
  {
    hide Prefixed, Quoted, TooLarge, Ready, Need, TextsOf, Rest, Arguments;
    NoArguments(block, decode);
    if Arguments(block, 0, argc, decode).Some? {
      ReadyStart(buffer, Arguments(block, 0, argc, decode).value, need);
    }
    ghost var parsed := Arguments(block, 0, argc, decode);
    var offset: nat := 0;
    ghost var whole := if parsed.Some? then Prefixed(buffer.Written(), Rest(TextsOf(parsed.value))) else End;
    for i := 0 to argc
      invariant buffer.Valid() && (buffer.cells == old(buffer.cells) || fresh(buffer.cells))
      invariant parsed.Some? <==> Arguments(block, offset, argc - i, decode).Some?
      invariant parsed.Some? ==> Ready(buffer, Arguments(block, offset, argc - i, decode).value, need, whole)
    {
      var word, next := NextArgument(block, offset, argc - i, decode);
      if word == None {
        return false;
      }
      ghost var rest := Arguments(block, next, argc - i - 1, decode);
      ok := AppendArgument(buffer, word.value, if rest.Some? then rest.value else [], need, whole);
      if !ok {
        return false;
      }
      offset := next;
    }
    if parsed.Some? {
      ReadyEnd(buffer, need, whole);
    }
    return true;
  }

  lemma NoArguments(block: seq<Byte>, decode: Decoder)
    ensures forall at: nat :: Arguments(block, at, 0, decode) == Some([])
  {
  }

  /** One argument of the block and where the next one starts. */
  method NextArgument(block: seq<Byte>, offset: nat, left: nat, decode: Decoder)
      returns (word: Option<seq<Unit>>, next: nat)
    requires left > 0
    ensures word == None ==> Arguments(block, offset, left, decode) == None
    ensures word.Some? ==>
              Arguments(block, offset, left, decode) ==
              match Arguments(block, next, left - 1, decode)
              case None => None
              case Some(rest) => Some([word.value] + rest)
  {
    if offset >= |block| {
      return None, 0;
    }
    var end := NulFrom(block, offset);
    if end == None {
      return None, 0;
    }
    word, next := decode(block[offset..end.value]), end.value + 1;
  }

  lemma ReadyStart(buffer: Buffer, args: seq<seq<Unit>>, need: nat)
    requires buffer.Valid() && buffer.len + Need(args) < need && buffer.cells.Length <= Enough(need)
    ensures Ready(buffer, args, need, Prefixed(buffer.Written(), Rest(TextsOf(args))))
  {
  }

  lemma ReadyEnd(buffer: Buffer, need: nat, whole: Text)
    requires Ready(buffer, [], need, whole)
    ensures Prefixed(buffer.Written(), End) == whole
  {
  }

  /** What has been written, followed by these arguments, is the whole line, and there is room. */
  ghost predicate Ready(buffer: Buffer, args: seq<seq<Unit>>, need: nat, whole: Text)
    reads buffer, buffer.cells
  {
    && buffer.Valid()
    && buffer.len + Need(args) < need && buffer.cells.Length <= Enough(need)
    && Prefixed(buffer.Written(), Rest(TextsOf(args))) == whole
  }

  /** A space and one argument. */
  method AppendArgument(buffer: Buffer, word: seq<Unit>, ghost rest: seq<seq<Unit>>, ghost need: nat, ghost whole: Text)
      returns (ok: bool)
    requires buffer.Valid()
    modifies buffer, buffer.cells
    ensures buffer.Valid() && (buffer.cells == old(buffer.cells) || fresh(buffer.cells))
    ensures old(Ready(buffer, [word] + rest, need, whole)) ==>
              if ok then Ready(buffer, rest, need, whole) else TooLarge(need, buffer.available)
  {
    hide Prefixed, Quoted, Granted, Rest, Enough;
    ghost var ready := Ready(buffer, [word] + rest, need, whole);
    ghost var tail := Rest(TextsOf(rest));
    RestOfMore(word, rest);
    if ready {
      EnoughIsGranted(buffer.cells.Length, buffer.len, 1, buffer.available, need);
    }
    ok := buffer.AppendSpace(Quoted(From(word, 0), tail));
    if !ok {
      return;
    }
    if ready {
      EnoughIsGranted(buffer.cells.Length, buffer.len, 2 * |word| + 2, buffer.available, need);
    }
    ok := buffer.AppendQuoted(word, tail);
  }

  lemma RestOfMore(word: seq<Unit>, rest: seq<seq<Unit>>)
    ensures Rest(TextsOf([word] + rest)) == Put(SPACE, Quoted(From(word, 0), Rest(TextsOf(rest))))
    ensures Need([word] + rest) == 2 * |word| + 3 + Need(rest)
  {
    assert ([word] + rest)[1..] == rest;
  }

  /** The words of a written block are read back one by one, whatever follows them. */
  lemma {:induction false} WrittenArgumentsBack(block: seq<Byte>, at: nat, words: seq<seq<Byte>>, decode: Decoder)
    requires Holds(block, at, NulBlock(words)) && forall k :: 0 <= k < |words| ==> NulFree(words[k])
    ensures Arguments(block, at, |words|, decode) == AllDecoded(words, decode)
    decreases |words|
  {
    hide Holds, NulBlock, NulFrom, NulFree;
    if words != [] {
      FirstWord(block, at, words);
      WrittenArgumentsBack(block, at + |words[0]| + 1, words[1..], decode);
    }
  }
}
