/** The front end as a whole: text to syntax tree.

    A tree is a Blueprint file exactly when some text parses to it, and printing it
    under any layout and parsing again returns it. */
module BlueprintFrontEnd {
  import opened BlueprintGrammar
  import opened BlueprintPrinter
  import opened BlueprintSpelling
  import opened BlueprintTokens
  import opened Options
  import BlueprintLexer
  import BlueprintSyntax
  import P = BlueprintParser
  import RT = BlueprintRoundTrip

  /** Lexing then parsing; None where either raises. */
  function ParseText(cc: CharClasses, text: string): Option<seq<Statement>>
    requires cc.alpha <= cc.alnum
  {
    match Lex(cc, text, 0)
    case LexError(_, _, _) => None
    case Lexed(tokens) =>
      match ParseFile(cc, From(Lexemes(tokens), 0))
      case Fail => None
      case Got(file, _) => Some(file)
  }

  lemma {:induction false} LexEndsWithEof(cc: CharClasses, text: string, i: nat)
    requires i <= |text|
    requires cc.alpha <= cc.alnum
    ensures var r := Lex(cc, text, i);
            r.Lexed? ==> r.tokens != [] && r.tokens[|r.tokens| - 1].lexeme.kind == EOF
    decreases |text| - i
  {
    hide ScanOne;
    if i < |text| {
      var step := ScanOne(cc, text[i..]);
      if !step.Bad? {
        LexEndsWithEof(cc, text, i + step.width);
      }
    }
  }

  method Parse(cc: CharClasses, text: string) returns (r: Option<seq<Statement>>)
    requires cc.alpha <= cc.alnum
    ensures r == ParseText(cc, text)
  {
    var lexed := BlueprintLexer.Tokenize(cc, text);
    if lexed.LexError? {
      return None;
    }
    LexEndsWithEof(cc, text, 0);
    var parser := new P.Parser(cc, lexed.tokens);
    r := parser.ParseFile();
  }

  // Streams of spellable tokens

  predicate Clean(cc: CharClasses, ts: Stream) {
    ts.Next? ==> Spellable(cc, ts.head) && Clean(cc, ts.tail)
  }

  /** The tokens before the end of file. */
  function Contents(ts: Stream): seq<Lexeme> {
    if ts.End? then [] else [ts.head] + Contents(ts.tail)
  }

  lemma {:induction false} ContentsSpellable(cc: CharClasses, ts: Stream)
    requires Clean(cc, ts)
    ensures forall k :: 0 <= k < |Contents(ts)| ==> Spellable(cc, Contents(ts)[k])
  {
    if ts.Next? {
      ContentsSpellable(cc, ts.tail);
    }
  }

  lemma {:induction false} FromContents(cc: CharClasses, ts: Stream, before: seq<Lexeme>)
    requires Clean(cc, ts)
    ensures From(before + Contents(ts) + [Lexeme(EOF, "")], |before|) == ts
  {
    if ts.Next? {
      FromContents(cc, ts.tail, before + [ts.head]);
      assert before + Contents(ts) == (before + [ts.head]) + Contents(ts.tail);
    }
  }

  lemma {:induction false} FromClean(cc: CharClasses, xs: seq<Lexeme>, i: nat)
    requires i <= |xs|
    requires forall k :: 0 <= k < |xs| ==> xs[k].kind == EOF || Spellable(cc, xs[k])
    ensures Clean(cc, From(xs, i))
    decreases |xs| - i
  {
    if i < |xs| {
      FromClean(cc, xs, i + 1);
    }
  }

  // The printer writes spellable tokens

  lemma KeywordsAreWords(cc: CharClasses)
    requires cc.Valid()
    ensures IsIdent(cc, "true") && IsIdent(cc, "false") && IsIdent(cc, "any")
    ensures IsIdent(cc, "default") && IsIdent(cc, "select")
  {
  }

  lemma MarkClean(cc: CharClasses, k: Kind, rest: Stream)
    requires Clean(cc, rest)
    requires k !in {IDENT, STRING, NUMBER, EOF}
    ensures Clean(cc, Mark(k, rest))
  {
  }

  lemma {:induction false} ExprClean(st: Style, e: Expr, rest: Stream)
    requires st.cc.Valid() && ValidExpr(st.cc, e) && Clean(st.cc, rest)
    ensures Clean(st.cc, WriteExpr(st, e, rest))
    decreases e, 0
  {
    match e
    case StringLit(_) =>
    case BoolLit(_) => KeywordsAreWords(st.cc);
    case VarRef(_) =>
    case IntLit(n) => RT.SignedBack(st.cc, n);
    case ListExpr(items) =>
      MarkClean(st.cc, RBRACK, rest);
      ItemsClean(st, items, Mark(RBRACK, rest));
    case MapExpr(entries) =>
      MarkClean(st.cc, RBRACE, rest);
      EntriesClean(st, entries, Mark(RBRACE, rest));
    case Concat(left, right) =>
      ExprClean(st, right, rest);
      MarkClean(st.cc, PLUS, WriteExpr(st, right, rest));
      ExprClean(st, left, Mark(PLUS, WriteExpr(st, right, rest)));
    case Select(conditions, cases) => SelectClean(st, conditions, cases, rest);
  }

  lemma {:induction false} SelectClean(st: Style, conditions: seq<Condition>, cases: seq<Case>, rest: Stream)
    requires st.cc.Valid() && ValidExpr(st.cc, Select(conditions, cases)) && Clean(st.cc, rest)
    ensures Clean(st.cc, WriteExpr(st, Select(conditions, cases), rest))
    decreases cases, 2
  {
    var after := Comma(st, true, Mark(RPAREN, rest));
    var brace := Mark(RBRACE, after);
    var body := Mark(LBRACE, WriteCaseList(st, cases, brace));
    MarkClean(st.cc, RPAREN, rest);
    MarkClean(st.cc, RBRACE, after);
    CaseListClean(st, cases, brace);
    MarkClean(st.cc, LBRACE, WriteCaseList(st, cases, brace));
    MarkClean(st.cc, COMMA, body);
    ConditionsClean(st, conditions, Mark(COMMA, body));
    MarkClean(st.cc, LPAREN, WriteConditions(st, conditions, Mark(COMMA, body)));
    KeywordsAreWords(st.cc);
  }

  lemma {:induction false} ItemsClean(st: Style, items: seq<Expr>, rest: Stream)
    requires st.cc.Valid() && Clean(st.cc, rest)
    requires forall k :: 0 <= k < |items| ==> ValidExpr(st.cc, items[k])
    ensures Clean(st.cc, WriteItems(st, items, rest))
    decreases items, 1
  {
    if items != [] {
      ItemsClean(st, items[1..], rest);
      ExprClean(st, items[0], Comma(st, |items| == 1, WriteItems(st, items[1..], rest)));
    }
  }

  lemma {:induction false} EntriesClean(st: Style, entries: seq<Entry>, rest: Stream)
    requires st.cc.Valid() && Clean(st.cc, rest)
    requires forall k :: 0 <= k < |entries| ==> ValidEntry(st.cc, entries[k])
    ensures Clean(st.cc, WriteEntries(st, entries, rest))
    decreases entries, 1
  {
    if entries != [] {
      EntriesClean(st, entries[1..], rest);
      ExprClean(st, entries[0].value, Comma(st, |entries| == 1, WriteEntries(st, entries[1..], rest)));
    }
  }

  lemma {:induction false} ArgsClean(st: Style, args: seq<string>, rest: Stream)
    requires Clean(st.cc, rest)
    ensures Clean(st.cc, WriteArgs(st, args, rest))
  {
    if args != [] {
      ArgsClean(st, args[1..], rest);
    }
  }

  lemma {:induction false} ConditionTupleClean(st: Style, cs: seq<Condition>, rest: Stream)
    requires Clean(st.cc, rest)
    requires forall k :: 0 <= k < |cs| ==> IsIdent(st.cc, cs[k].func)
    ensures Clean(st.cc, WriteConditionTuple(st, cs, rest))
  {
    if cs != [] {
      ConditionTupleClean(st, cs[1..], rest);
      ArgsClean(st, cs[0].args, Mark(RPAREN, Comma(st, |cs| == 1, WriteConditionTuple(st, cs[1..], rest))));
    }
  }

  lemma ConditionsClean(st: Style, cs: seq<Condition>, rest: Stream)
    requires Clean(st.cc, rest)
    requires forall k :: 0 <= k < |cs| ==> IsIdent(st.cc, cs[k].func)
    ensures Clean(st.cc, WriteConditions(st, cs, rest))
  {
    if |cs| == 1 {
      ArgsClean(st, cs[0].args, Mark(RPAREN, rest));
    } else {
      ConditionTupleClean(st, cs, Mark(RPAREN, rest));
    }
  }

  lemma PatternClean(cc: CharClasses, p: Pattern, binding: Option<string>, rest: Stream)
    requires cc.Valid() && Clean(cc, rest)
    requires binding.Some? ==> IsIdent(cc, binding.value) && Carries(cc, p)
    ensures Clean(cc, WritePattern(p, binding, rest))
  {
    KeywordsAreWords(cc);
  }

  lemma {:induction false} PatternTupleClean(st: Style, ps: seq<Pattern>, binding: Option<string>, rest: Stream)
    requires st.cc.Valid() && Clean(st.cc, rest)
    requires ValidKey(st.cc, ps, binding)
    ensures Clean(st.cc, WritePatternTuple(st, ps, binding, rest))
  {
    if ps != [] {
      var later := BindingLater(st, ps[0], binding);
      RT.LaterKey(st, ps, binding);
      PatternTupleClean(st, ps[1..], later, rest);
      PatternClean(st.cc, ps[0], BindingHere(st, ps[0], binding),
                   Comma(st, |ps| == 1, WritePatternTuple(st, ps[1..], later, rest)));
    }
  }

  lemma {:induction false} CaseListClean(st: Style, cases: seq<Case>, rest: Stream)
    requires st.cc.Valid() && Clean(st.cc, rest)
    requires forall k :: 0 <= k < |cases| ==> ValidCase(st.cc, cases[k])
    ensures Clean(st.cc, WriteCaseList(st, cases, rest))
    decreases cases, 1
  {
    if cases != [] {
      CaseListClean(st, cases[1..], rest);
      CaseClean(st, cases[0], Comma(st, |cases| == 1, WriteCaseList(st, cases[1..], rest)));
    }
  }

  lemma {:induction false} CaseClean(st: Style, c: Case, rest: Stream)
    requires st.cc.Valid() && Clean(st.cc, rest) && ValidCase(st.cc, c)
    ensures Clean(st.cc, WriteCase(st, c, rest))
    decreases c, 1
  {
    hide WriteExpr, WritePattern, WritePatternTuple, ValidExpr;
    ExprClean(st, c.value, rest);
    var colon := Mark(COLON, WriteExpr(st, c.value, rest));
    if |c.patterns| == 1 {
      PatternClean(st.cc, c.patterns[0], c.binding, colon);
    } else {
      PatternTupleClean(st, c.patterns, c.binding, Mark(RPAREN, colon));
    }
  }

  lemma {:induction false} FileClean(st: Style, file: seq<Statement>)
    requires st.cc.Valid() && ValidFile(st.cc, file)
    ensures Clean(st.cc, WriteFile(st, file, End))
  {
    if file != [] {
      FileClean(st, file[1..]);
      var rest := WriteFile(st, file[1..], End);
      match file[0]
      case Assignment(name, value, append) => ExprClean(st, value, rest);
      case Module(kind, properties) => EntriesClean(st, properties, Mark(RBRACE, rest));
    }
  }

  // The parser builds well-formed trees

  /** A parse of clean tokens leaves clean tokens. */
  ghost predicate Keeps<T>(cc: CharClasses, r: Parse<T>) {
    r.Got? ==> Clean(cc, r.rest)
  }

  lemma TwoAhead(cc: CharClasses, ts: Stream)
    requires Clean(cc, ts) && ts.Next? && ts.tail.Next?
    ensures Spellable(cc, ts.tail.head) && Clean(cc, ts.tail.tail) && ts.Len() == ts.tail.tail.Len() + 2
    ensures ts.tail.tail.Next? ==> Spellable(cc, ts.tail.tail.head) && Clean(cc, ts.tail.tail.tail)
  {
    assert Clean(cc, ts.tail);
  }

  lemma {:induction false} ExprValid(cc: CharClasses, ts: Stream)
    requires Clean(cc, ts)
    ensures var r := ParseExpr(cc, ts); Keeps(cc, r) && (r.Got? ==> ValidExpr(cc, r.value))
    decreases ts.Len(), 3
  {
    OperandValid(cc, ts);
    var first := ParseOperand(cc, ts);
    if first.Got? {
      SumValid(cc, first.value, first.rest);
    }
  }

  lemma {:induction false} SumValid(cc: CharClasses, left: Expr, ts: Stream)
    requires Clean(cc, ts) && ValidExpr(cc, left)
    ensures var r := ParseSum(cc, left, ts); Keeps(cc, r) && (r.Got? ==> ValidExpr(cc, r.value))
    decreases ts.Len(), 0
  {
    if ts.Kind() == PLUS {
      OperandValid(cc, ts.tail);
      var right := ParseOperand(cc, ts.tail);
      if right.Got? {
        SumValid(cc, Concat(left, right.value), right.rest);
      }
    }
  }

  lemma {:induction false} OperandValid(cc: CharClasses, ts: Stream)
    requires Clean(cc, ts)
    ensures var r := ParseOperand(cc, ts);
            Keeps(cc, r) && (r.Got? ==> ValidExpr(cc, r.value) && !r.value.Concat?)
    decreases ts.Len(), 2
  {
    if ts.Kind() == LBRACK {
      ItemsValid(cc, ts.tail);
    } else if ts.Kind() == LBRACE {
      MapValid(cc, ts);
    } else if ts.Kind() == IDENT && ts.head.value == "select" && ts.tail.Kind() == LPAREN {
      SelectValid(cc, ts);
    }
  }

  lemma {:induction false} ItemsValid(cc: CharClasses, ts: Stream)
    requires Clean(cc, ts)
    ensures var r := ParseItems(cc, ts);
            Keeps(cc, r) && (r.Got? ==> forall k :: 0 <= k < |r.value| ==> ValidExpr(cc, r.value[k]))
    decreases ts.Len(), 4
  {
    if ts.Kind() != RBRACK {
      ExprValid(cc, ts);
      var item := ParseExpr(cc, ts);
      if item.Got? && item.rest.Kind() == COMMA {
        ItemsValid(cc, item.rest.tail);
      }
    }
  }

  lemma {:induction false} MapValid(cc: CharClasses, ts: Stream)
    requires Clean(cc, ts)
    ensures var r := ParseMap(cc, ts);
            Keeps(cc, r) && (r.Got? ==> forall k :: 0 <= k < |r.value| ==> ValidEntry(cc, r.value[k]))
    decreases ts.Len(), 1
  {
    if ts.Kind() == LBRACE {
      EntriesValid(cc, ts.tail);
    }
  }

  lemma {:induction false} EntriesValid(cc: CharClasses, ts: Stream)
    requires Clean(cc, ts)
    ensures var r := ParseEntries(cc, ts);
            Keeps(cc, r) && (r.Got? ==> forall k :: 0 <= k < |r.value| ==> ValidEntry(cc, r.value[k]))
    decreases ts.Len(), 4
  {
    if ts.Kind() == IDENT && ts.tail.Kind() == COLON {
      TwoAhead(cc, ts);
      ExprValid(cc, ts.tail.tail);
      var entry := ParseEntry(cc, ts);
      if entry.Got? && entry.rest.Kind() == COMMA {
        EntriesValid(cc, entry.rest.tail);
      }
    }
  }

  lemma {:induction false} ArgsKeep(cc: CharClasses, ts: Stream)
    requires Clean(cc, ts)
    ensures Keeps(cc, ParseArgs(ts))
    decreases ts.Len()
  {
    if ts.Kind() == STRING && ts.tail.Kind() == COMMA {
      TwoAhead(cc, ts);
      ArgsKeep(cc, ts.tail.tail);
    }
  }

  lemma ConditionValid(cc: CharClasses, ts: Stream)
    requires Clean(cc, ts)
    ensures var r := ParseCondition(ts); Keeps(cc, r) && (r.Got? ==> IsIdent(cc, r.value.func))
  {
    if ts.Kind() == IDENT && ts.tail.Kind() == LPAREN {
      TwoAhead(cc, ts);
      ArgsKeep(cc, ts.tail.tail);
    }
  }

  lemma {:induction false} ConditionTupleValid(cc: CharClasses, ts: Stream)
    requires Clean(cc, ts)
    ensures var r := ParseConditionTuple(ts);
            Keeps(cc, r) && (r.Got? ==> forall k :: 0 <= k < |r.value| ==> IsIdent(cc, r.value[k].func))
    decreases ts.Len()
  {
    if ts.Kind() != RPAREN {
      ConditionValid(cc, ts);
      var condition := ParseCondition(ts);
      if condition.Got? && condition.rest.Kind() == COMMA {
        ConditionTupleValid(cc, condition.rest.tail);
      }
    }
  }

  lemma ConditionsValid(cc: CharClasses, ts: Stream)
    requires Clean(cc, ts)
    ensures var r := ParseConditions(ts);
            Keeps(cc, r) && (r.Got? ==> forall k :: 0 <= k < |r.value| ==> IsIdent(cc, r.value[k].func))
  {
    if ts.Kind() == LPAREN {
      ConditionTupleValid(cc, ts.tail);
    } else {
      ConditionValid(cc, ts);
    }
  }

  lemma PatternValid(cc: CharClasses, ts: Stream)
    requires Clean(cc, ts)
    ensures var r := ParsePattern(ts);
            Keeps(cc, r) && (r.Got? && r.value.1.Some? ==> IsIdent(cc, r.value.1.value) && Carries(cc, r.value.0))
  {
    if ts.Next? && ts.tail.Next? {
      TwoAhead(cc, ts);
    }
  }

  lemma {:induction false} PatternTupleValid(cc: CharClasses, ts: Stream)
    requires Clean(cc, ts)
    ensures var r := ParsePatternTuple(ts); Keeps(cc, r) && (r.Got? ==> ValidKey(cc, r.value.0, r.value.1))
    decreases ts.Len()
  {
    if ts.Kind() != RPAREN {
      PatternValid(cc, ts);
      var one := ParsePattern(ts);
      if one.Got? && one.rest.Kind() == COMMA {
        PatternTupleValid(cc, one.rest.tail);
        var key := ParsePatternTuple(one.rest.tail);
        if key.Got? {
          LatestValid(cc, one.value.0, one.value.1, key.value.0, key.value.1);
        }
      } else if one.Got? {
        assert Carries(cc, one.value.0) ==> Carries(cc, [one.value.0][0]);
      }
    }
  }

  lemma LatestValid(cc: CharClasses, p: Pattern, b: Option<string>, ps: seq<Pattern>, later: Option<string>)
    requires b.Some? ==> IsIdent(cc, b.value) && Carries(cc, p)
    requires ValidKey(cc, ps, later)
    ensures ValidKey(cc, [p] + ps, Latest(b, later))
  {
    if later.Some? {
      var k :| 0 <= k < |ps| && Carries(cc, ps[k]);
      assert Carries(cc, ([p] + ps)[k + 1]);
    } else if b.Some? {
      assert Carries(cc, ([p] + ps)[0]);
    }
  }

  lemma PatternsValid(cc: CharClasses, ts: Stream)
    requires Clean(cc, ts)
    ensures var r := ParsePatterns(ts); Keeps(cc, r) && (r.Got? ==> ValidKey(cc, r.value.0, r.value.1))
  {
    if ts.Kind() == LPAREN {
      PatternTupleValid(cc, ts.tail);
    } else {
      PatternValid(cc, ts);
      var one := ParsePattern(ts);
      if one.Got? {
        assert Carries(cc, one.value.0) ==> Carries(cc, [one.value.0][0]);
      }
    }
  }

  lemma {:induction false} CaseListValid(cc: CharClasses, ts: Stream)
    requires Clean(cc, ts)
    ensures var r := ParseCaseList(cc, ts);
            Keeps(cc, r) && (r.Got? ==> forall k :: 0 <= k < |r.value| ==> ValidCase(cc, r.value[k]))
    decreases ts.Len(), 5
  {
    if ts.Kind() != RBRACE {
      CaseValid(cc, ts);
      var c := ParseCase(cc, ts);
      if c.Got? && c.rest.Kind() == COMMA {
        CaseListValid(cc, c.rest.tail);
      }
    }
  }

  lemma {:induction false} CaseValid(cc: CharClasses, ts: Stream)
    requires Clean(cc, ts)
    ensures var r := ParseCase(cc, ts); Keeps(cc, r) && (r.Got? ==> ValidCase(cc, r.value))
    decreases ts.Len(), 4
  {
    PatternsValid(cc, ts);
    var key := ParsePatterns(ts);
    if key.Got? && key.rest.Kind() == COLON {
      ExprValid(cc, key.rest.tail);
    }
  }

  lemma {:induction false} CasesValid(cc: CharClasses, ts: Stream)
    requires Clean(cc, ts)
    ensures var r := ParseCases(cc, ts);
            Keeps(cc, r) && (r.Got? ==> forall k :: 0 <= k < |r.value| ==> ValidCase(cc, r.value[k]))
    decreases ts.Len(), 1
  {
    if ts.Kind() == LBRACE {
      CaseListValid(cc, ts.tail);
    }
  }

  lemma ExpectKeeps(cc: CharClasses, ts: Stream, k: Kind)
    requires Clean(cc, ts) && k != EOF
    ensures Keeps(cc, Expect(ts, k)) && Clean(cc, Accept(ts, k))
    ensures k == IDENT && Expect(ts, k).Got? ==> IsIdent(cc, Expect(ts, k).value)
  {
  }

  lemma {:induction false} SelectValid(cc: CharClasses, ts: Stream)
    requires Clean(cc, ts)
    ensures var r := ParseSelect(cc, ts); Keeps(cc, r) && (r.Got? ==> ValidExpr(cc, r.value) && r.value.Select?)
    decreases ts.Len(), 1
  {
    if ts.Kind() == IDENT && ts.tail.Kind() == LPAREN {
      var inner := ts.tail.tail;
      TwoAhead(cc, ts);
      ConditionsValid(cc, inner);
      var conditions := ParseConditions(inner);
      if conditions.Got? && conditions.rest.Kind() == COMMA {
        ExpectKeeps(cc, conditions.rest, COMMA);
        CasesValid(cc, conditions.rest.tail);
        var cases := ParseCases(cc, conditions.rest.tail);
        if cases.Got? {
          ExpectKeeps(cc, cases.rest, COMMA);
          ExpectKeeps(cc, Accept(cases.rest, COMMA), RPAREN);
        }
      }
    }
  }

  lemma StatementValid(cc: CharClasses, ts: Stream)
    requires Clean(cc, ts)
    ensures var r := ParseStatement(cc, ts); Keeps(cc, r) && (r.Got? ==> ValidStatement(cc, r.value))
  {
    if ts.Kind() == IDENT {
      if ts.tail.Kind() == LBRACE {
        MapValid(cc, ts.tail);
      } else if ts.tail.Next? {
        TwoAhead(cc, ts);
        ExprValid(cc, ts.tail.tail);
      }
    }
  }

  lemma {:induction false} FileValid(cc: CharClasses, ts: Stream)
    requires Clean(cc, ts)
    ensures var r := ParseFile(cc, ts); r.Got? ==> ValidFile(cc, r.value) && r.rest == End
    decreases ts.Len()
  {
    if ts.Kind() != EOF {
      StatementValid(cc, ts);
      var statement := ParseStatement(cc, ts);
      if statement.Got? {
        FileValid(cc, statement.rest);
      }
    }
  }

  // Text

  /** Printing a well-formed file under any layout and parsing the text returns the file. */
  lemma PrintThenParse(st: Style, gaps: seq<Gap>, file: seq<Statement>)
    requires st.cc.Valid() && ValidFile(st.cc, file)
    requires ValidLayout(st.cc, gaps, Contents(WriteFile(st, file, End)))
    ensures ParseText(st.cc, Layout(gaps, Contents(WriteFile(st, file, End)))) == Some(file)
  {
    var ts := WriteFile(st, file, End);
    var text := Layout(gaps, Contents(ts));
    FileClean(st, file);
    ReadLayout(st.cc, gaps, Contents(ts));
    LexReads(st.cc, text, 0);
    assert text[0..] == text;
    FromContents(st.cc, ts, []);
    assert [] + Contents(ts) == Contents(ts);
    RT.FileBack(st, file);
  }

  lemma TokensClean(cc: CharClasses, text: string)
    requires cc.Valid()
    requires Lex(cc, text, 0).Lexed?
    ensures Clean(cc, From(Lexemes(Lex(cc, text, 0).tokens), 0))
  {
    var tokens := Lex(cc, text, 0).tokens;
    LexReads(cc, text, 0);
    assert text[0..] == text;
    ReadGivesSpellable(cc, text);
    var xs := Lexemes(tokens);
    forall k | 0 <= k < |xs|
      ensures xs[k].kind == EOF || Spellable(cc, xs[k])
    {
      if k < |xs| - 1 {
        assert xs[..|xs| - 1][k] == xs[k];
      }
    }
    FromClean(cc, xs, 0);
  }

  /** Whatever parses is well formed. */
  lemma ParsedIsValid(cc: CharClasses, text: string)
    requires cc.Valid()
    requires ParseText(cc, text).Some?
    ensures ValidFile(cc, ParseText(cc, text).value)
  {
    TokensClean(cc, text);
    FileValid(cc, From(Lexemes(Lex(cc, text, 0).tokens), 0));
  }

  /** A text parses to a file exactly when its tokens are the file's as the grammar writes them. */
  lemma TextExactlyWhen(cc: CharClasses, text: string, file: seq<Statement>)
    requires cc.Valid()
    ensures var lexed := Lex(cc, text, 0);
            ParseText(cc, text) == Some(file) <==>
              lexed.Lexed? && BlueprintSyntax.StripFile(cc, file, From(Lexemes(lexed.tokens), 0)) == Got((), End)
  {
    if Lex(cc, text, 0).Lexed? {
      var ts := From(Lexemes(Lex(cc, text, 0).tokens), 0);
      TokensClean(cc, text);
      FileValid(cc, ts);
      BlueprintSyntax.ParsesExactlyWhen(cc, file, ts);
    }
  }

  /** One blank around every token. */
  function Blanks(n: nat): (gaps: seq<Gap>)
    ensures |gaps| == n
  {
    seq(n, _ => [Blank(' ')])
  }

  /** A tree is well formed exactly when some text parses to it. */
  lemma ValidIffParsed(cc: CharClasses, file: seq<Statement>)
    requires cc.Valid()
    ensures ValidFile(cc, file) <==> exists text :: ParseText(cc, text) == Some(file)
  {
    if ValidFile(cc, file) {
      var st := Style(cc, false);
      var xs := Contents(WriteFile(st, file, End));
      var gaps := Blanks(|xs| + 1);
      FileClean(st, file);
      ContentsSpellable(cc, WriteFile(st, file, End));
      forall k | 0 <= k < |gaps|
        ensures ValidGap(gaps[k])
      {
        assert gaps[k] == [Blank(' ')];
      }
      assert ValidLayout(cc, gaps, xs);
      PrintThenParse(st, gaps, file);
      assert ParseText(cc, Layout(gaps, xs)) == Some(file);
    }
    if text :| ParseText(cc, text) == Some(file) {
      ParsedIsValid(cc, text);
    }
  }
}
