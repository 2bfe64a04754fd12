/** Quoting of command lines, and the splitting that undoes it. */
module CommandLine {

  import opened UnitText

  const QUOTE: Unit := 34
  const SPACE: Unit := 32
  const TAB: Unit := 9

  predicate Blank(c: Unit) { c == SPACE || c == TAB }

  predicate Has(t: Text, c: Unit) { t.Put? && (t.c == c || Has(t.rest, c)) }

  // Quoting. The writers take what follows, so that no concatenation is needed.

  predicate Special(t: Text) { t.Put? && (Blank(t.c) || t.c == QUOTE || Special(t.rest)) }

  predicate NeedsQuotes(arg: Text) { arg.End? || Special(arg) }

  function Slashes(k: nat, tail: Text): Text { if k == 0 then tail else Put(BACKSLASH, Slashes(k - 1, tail)) }

  function Plain(arg: Text, tail: Text): Text { if arg.End? then tail else Put(arg.c, Plain(arg.rest, tail)) }

  /** The inside of a quoted argument and its closing quote, with k backslashes pending. */
  function Body(arg: Text, k: nat, tail: Text): Text {
    match arg
    case End => Slashes(2 * k, Put(QUOTE, tail))
    case Put(c, rest) =>
      if c == BACKSLASH then Body(rest, k + 1, tail)
      else if c == QUOTE then Slashes(2 * k + 1, Put(QUOTE, Body(rest, 0, tail)))
      else Slashes(k, Put(c, Body(rest, 0, tail)))
  }

  function Quoted(arg: Text, tail: Text): Text {
    if NeedsQuotes(arg) then Put(QUOTE, Body(arg, 0, tail)) else Plain(arg, tail)
  }

  function Rest(args: seq<Text>): Text {
    if args == [] then End else Put(SPACE, Quoted(args[0], Rest(args[1..])))
  }

  /** The command line for a program and its arguments. */
  function Line(program: Text, args: seq<Text>): Text { Quoted(program, Rest(args)) }

  // Splitting, by the rules documented for CommandLineToArgvW. The rules differ between
  // releases on two quotes in a row inside quotes: `doubled` says whether they stand for one.

  /** The first word of t and what follows it, k backslashes into it. */
  function Word(t: Text, inQuotes: bool, k: nat, doubled: bool): (r: (Text, Text))
    ensures Length(r.1) <= Length(t)
    ensures t.Put? && !(Blank(t.c) && !inQuotes) ==> Length(r.1) < Length(t)
  {
    if t.End? then (Slashes(k, End), End)
    else if t.c == BACKSLASH then Word(t.rest, inQuotes, k + 1, doubled)
    else if t.c == QUOTE then
      if k % 2 == 1 then
        var r := Word(t.rest, inQuotes, 0, doubled);
        (Slashes(k / 2, Put(QUOTE, r.0)), r.1)
      else if inQuotes && doubled && t.rest.Put? && t.rest.c == QUOTE then
        var r := Word(t.rest.rest, true, 0, doubled);
        (Slashes(k / 2, Put(QUOTE, r.0)), r.1)
      else
        var r := Word(t.rest, !inQuotes, 0, doubled);
        (Slashes(k / 2, r.0), r.1)
    else if Blank(t.c) && !inQuotes then (Slashes(k, End), t)
    else
      var r := Word(t.rest, inQuotes, 0, doubled);
      (Slashes(k, Put(t.c, r.0)), r.1)
  }

  function Words(t: Text, doubled: bool): seq<Text>
    decreases Length(t)
  {
    if t.End? then []
    else if Blank(t.c) then Words(t.rest, doubled)
    else
      var r := Word(t, false, 0, doubled);
      [r.0] + Words(r.1, doubled)
  }

  /** The program name: no backslash is special in it. It ends at the second quote if it
      starts with one, and at the first blank otherwise. */
  function UpToQuote(t: Text): (Text, Text) {
    if t.End? then (End, End)
    else if t.c == QUOTE then (End, t.rest)
    else (Put(t.c, UpToQuote(t.rest).0), UpToQuote(t.rest).1)
  }

  function UpToBlank(t: Text): (Text, Text) {
    if t.End? then (End, End)
    else if Blank(t.c) then (End, t)
    else (Put(t.c, UpToBlank(t.rest).0), UpToBlank(t.rest).1)
  }

  function Program(t: Text): (Text, Text) {
    if t.Put? && t.c == QUOTE then UpToQuote(t.rest) else UpToBlank(t)
  }

  function Split(t: Text, doubled: bool): seq<Text> { [Program(t).0] + Words(Program(t).1, doubled) }

  // Arguments come back

  /** What may follow an argument. */
  predicate Follows(tail: Text) { tail.End? || tail.c == SPACE }

  lemma {:induction false} WordSlashes(m: nat, t: Text, inQuotes: bool, k: nat, doubled: bool)
    ensures Word(Slashes(m, t), inQuotes, k, doubled) == Word(t, inQuotes, k + m, doubled)
  {
    if m > 0 {
      WordSlashes(m - 1, t, inQuotes, k + 1, doubled);
    }
  }

  lemma WordEnds(tail: Text, doubled: bool)
    requires Follows(tail)
    ensures Word(tail, false, 0, doubled) == (End, tail)
  {
  }

  lemma {:induction false} SlashesMove(k: nat, t: Text)
    ensures Slashes(k + 1, t) == Slashes(k, Put(BACKSLASH, t))
  {
    if k > 0 {
      SlashesMove(k - 1, t);
    }
  }

  /** Reading the inside of a quoted argument gives the argument back. */
  lemma {:induction false} BodyBack(arg: Text, k: nat, tail: Text, doubled: bool)
    requires Follows(tail)
    ensures Word(Body(arg, k, tail), true, 0, doubled) == (Slashes(k, arg), tail)
  {
    match arg
    case End =>
      WordSlashes(2 * k, Put(QUOTE, tail), true, 0, doubled);
      WordEnds(tail, doubled);
    case Put(c, rest) =>
      if c == BACKSLASH {
        BodyBack(rest, k + 1, tail, doubled);
        SlashesMove(k, rest);
      } else if c == QUOTE {
        WordSlashes(2 * k + 1, Put(QUOTE, Body(rest, 0, tail)), true, 0, doubled);
        BodyBack(rest, 0, tail, doubled);
      } else {
        WordSlashes(k, Put(c, Body(rest, 0, tail)), true, 0, doubled);
        BodyBack(rest, 0, tail, doubled);
      }
  }

  lemma {:induction false} PlainBack(arg: Text, k: nat, tail: Text, doubled: bool)
    requires Follows(tail) && !Special(arg)
    ensures Word(Plain(arg, tail), false, k, doubled) == (Slashes(k, arg), tail)
  {
    if arg.Put? {
      if arg.c == BACKSLASH {
        PlainBack(arg.rest, k + 1, tail, doubled);
        SlashesMove(k, arg.rest);
      } else {
        PlainBack(arg.rest, 0, tail, doubled);
      }
    }
  }

  lemma RestFollows(args: seq<Text>)
    ensures Follows(Rest(args))
  {
  }

  lemma QuotedBack(arg: Text, tail: Text, doubled: bool)
    requires Follows(tail)
    ensures Quoted(arg, tail).Put? && !Blank(Quoted(arg, tail).c)
    ensures Word(Quoted(arg, tail), false, 0, doubled) == (arg, tail)
  {
    if NeedsQuotes(arg) {
      BodyBack(arg, 0, tail, doubled);
    } else {
      PlainBack(arg, 0, tail, doubled);
    }
  }

  lemma {:induction false} ArgumentsBack(args: seq<Text>, doubled: bool)
    ensures Words(Rest(args), doubled) == args
  {
    if args != [] {
      RestFollows(args[1..]);
      QuotedBack(args[0], Rest(args[1..]), doubled);
      ArgumentsBack(args[1..], doubled);
    }
  }

  // The program name

  /** The backslashes at the end of arg, k of them pending. */
  function Trailing(arg: Text, k: nat): nat {
    if arg.End? then k else if arg.c == BACKSLASH then Trailing(arg.rest, k + 1) else Trailing(arg.rest, 0)
  }

  lemma {:induction false} UpToQuoteSlashes(k: nat, t: Text)
    ensures UpToQuote(Slashes(k, t)) == (Slashes(k, UpToQuote(t).0), UpToQuote(t).1)
  {
    if k > 0 {
      UpToQuoteSlashes(k - 1, t);
    }
  }

  lemma {:induction false} SlashesLength(k: nat, t: Text)
    ensures Length(Slashes(k, t)) == k + Length(t)
  {
    if k > 0 {
      SlashesLength(k - 1, t);
    }
  }

  /** A quoted program name comes back with its trailing backslashes doubled. */
  lemma {:induction false} ProgramBody(arg: Text, k: nat, tail: Text)
    requires !Has(arg, QUOTE)
    ensures UpToQuote(Body(arg, k, tail)).1 == tail
    ensures Trailing(arg, k) == 0 ==> UpToQuote(Body(arg, k, tail)).0 == Slashes(k, arg)
    ensures Length(UpToQuote(Body(arg, k, tail)).0) == k + Length(arg) + Trailing(arg, k)
  {
    match arg
    case End =>
      UpToQuoteSlashes(2 * k, Put(QUOTE, tail));
      SlashesLength(2 * k, End);
    case Put(c, rest) =>
      if c == BACKSLASH {
        ProgramBody(rest, k + 1, tail);
        SlashesMove(k, rest);
      } else {
        ProgramBody(rest, 0, tail);
        UpToQuoteSlashes(k, Put(c, Body(rest, 0, tail)));
        SlashesLength(k, Put(c, UpToQuote(Body(rest, 0, tail)).0));
      }
  }

  lemma {:induction false} ProgramPlain(arg: Text, tail: Text)
    requires Follows(tail) && !Special(arg)
    ensures UpToBlank(Plain(arg, tail)) == (arg, tail)
  {
    if arg.Put? {
      ProgramPlain(arg.rest, tail);
    }
  }

  lemma {:induction false} NoQuoteUpTo(t: Text)
    ensures !Has(UpToQuote(t).0, QUOTE)
  {
    if t.Put? && t.c != QUOTE {
      NoQuoteUpTo(t.rest);
    }
  }

  lemma {:induction false} QuoteIsSpecial(t: Text)
    requires Has(t, QUOTE)
    ensures Special(t)
  {
    if t.c != QUOTE {
      QuoteIsSpecial(t.rest);
    }
  }

  lemma PlainStart(arg: Text, tail: Text)
    requires arg.Put? && !Special(arg)
    ensures Plain(arg, tail).Put? && Plain(arg, tail).c != QUOTE
  {
  }

  /** A program name survives when it has no quote and, if it must be quoted, does not end in
      a backslash. */
  predicate ProgramOk(program: Text) {
    !Has(program, QUOTE) && (NeedsQuotes(program) ==> Trailing(program, 0) == 0)
  }

  /** Splitting the built command line gives the program and every argument back unchanged,
      whatever the arguments, exactly when the program name can be written. */
  lemma SplitBuilt(program: Text, args: seq<Text>, doubled: bool)
    ensures Split(Line(program, args), doubled) == [program] + args <==> ProgramOk(program)
  {
    RestFollows(args);
    ArgumentsBack(args, doubled);
    if !NeedsQuotes(program) {
      PlainStart(program, Rest(args));
      ProgramPlain(program, Rest(args));
      if Has(program, QUOTE) {
        QuoteIsSpecial(program);
      }
    } else if Has(program, QUOTE) {
      NoQuoteUpTo(Body(program, 0, Rest(args)));
      assert Split(Line(program, args), doubled)[0] != program;
    } else {
      ProgramBody(program, 0, Rest(args));
      if Trailing(program, 0) != 0 {
        assert Split(Line(program, args), doubled)[0] != program;
      }
    }
  }

  /** A program name in quotes that ends in a backslash comes back with two of them. */
  lemma BackslashDoubled(doubled: bool)
    ensures var program := Put(97, Put(SPACE, Put(BACKSLASH, End)));
            && !ProgramOk(program)
            && Split(Line(program, []), doubled) == [Put(97, Put(SPACE, Put(BACKSLASH, Put(BACKSLASH, End))))]
            && Split(Line(program, []), doubled) != [program]
  {
  }

  // The size of a quoted argument

  /** The length of a quoted argument's inside and closing quote. */
  function BodyLength(arg: Text, k: nat): nat {
    match arg
    case End => 2 * k + 1
    case Put(c, rest) =>
      if c == BACKSLASH then BodyLength(rest, k + 1)
      else if c == QUOTE then 2 * k + 2 + BodyLength(rest, 0)
      else k + 1 + BodyLength(rest, 0)
  }

  lemma {:induction false} BodyBound(arg: Text, k: nat)
    ensures BodyLength(arg, k) <= 2 * (Length(arg) + k) + 1
  {
    if arg.Put? {
      BodyBound(arg.rest, if arg.c == BACKSLASH then k + 1 else 0);
    }
  }

  lemma {:induction false} BodyHasLength(arg: Text, k: nat, tail: Text)
    ensures Length(Body(arg, k, tail)) == BodyLength(arg, k) + Length(tail)
  {
    match arg
    case End => SlashesLength(2 * k, Put(QUOTE, tail));
    case Put(c, rest) =>
      if c == BACKSLASH {
        BodyHasLength(rest, k + 1, tail);
      } else {
        BodyHasLength(rest, 0, tail);
        SlashesLength(if c == QUOTE then 2 * k + 1 else k, Put(c, Body(rest, 0, tail)));
      }
  }

  lemma {:induction false} PlainLength(arg: Text, tail: Text)
    ensures Length(Plain(arg, tail)) == Length(arg) + Length(tail)
  {
    if arg.Put? {
      PlainLength(arg.rest, tail);
    }
  }

  function Quotes(n: nat): Text { if n == 0 then End else Put(QUOTE, Quotes(n - 1)) }

  lemma {:induction false} QuotesBody(n: nat)
    ensures Length(Quotes(n)) == n && BodyLength(Quotes(n), 0) == 2 * n + 1
  {
    if n > 0 {
      QuotesBody(n - 1);
    }
  }

  /** An argument of n units takes at most 2n + 2 units when quoted, and for every n some
      argument takes exactly that many. */
  lemma TightBound(arg: Text)
    ensures Length(Quoted(arg, End)) <= 2 * Length(arg) + 2
    ensures Length(Quotes(Length(arg))) == Length(arg)
    ensures Length(Quoted(Quotes(Length(arg)), End)) == 2 * Length(arg) + 2
  {
    BodyBound(arg, 0);
    BodyHasLength(arg, 0, End);
    PlainLength(arg, End);
    QuotesBody(Length(arg));
    BodyHasLength(Quotes(Length(arg)), 0, End);
  }

  /** Only an argument that is empty or has a space, a tab or a quote is written otherwise than
      as it is. */
  lemma PlainExactlyWhen(arg: Text)
    ensures Quoted(arg, End) == arg <==> arg.Put? && !Has(arg, SPACE) && !Has(arg, TAB) && !Has(arg, QUOTE)
  {
    SpecialMeans(arg);
    BodyHasLength(arg, 0, End);
    LongBody(arg, 0);
    PlainIs(arg);
  }

  lemma {:induction false} SpecialMeans(arg: Text)
    ensures Special(arg) <==> Has(arg, SPACE) || Has(arg, TAB) || Has(arg, QUOTE)
  {
    if arg.Put? {
      SpecialMeans(arg.rest);
    }
  }

  lemma {:induction false} LongBody(arg: Text, k: nat)
    ensures BodyLength(arg, k) > Length(arg) + k
  {
    if arg.Put? {
      LongBody(arg.rest, if arg.c == BACKSLASH then k + 1 else 0);
    }
  }

  lemma {:induction false} PlainIs(arg: Text)
    ensures Plain(arg, End) == arg
  {
    if arg.Put? {
      PlainIs(arg.rest);
    }
  }

  /** The characters that the units stand for. */
  lemma UnitsAreCharacters()
    ensures QUOTE == '\"' as int && BACKSLASH == '\\' as int && SPACE == ' ' as int && TAB == '\t' as int
  {
  }
}
