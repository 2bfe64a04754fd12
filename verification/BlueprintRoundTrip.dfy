/** Parsing what the printer wrote gives the tree back. */
module BlueprintRoundTrip {
  import opened BlueprintGrammar
  import opened BlueprintPrinter
  import opened BlueprintSpelling
  import opened BlueprintTokens
  import opened Options

  // Numbers

  lemma {:induction false} DecimalBack(cc: CharClasses, n: nat)
    requires cc.Valid()
    ensures Digits(cc, Decimal(n)) == Some(n)
    ensures Decimal(n)[0] != '-' && forall c <- Decimal(n) :: c in cc.digit
  {
    var d := DIGITS[n % 10];
    assert d in cc.value && cc.value[d] == n % 10;
    if n < 10 {
      assert Decimal(n)[..0] == [];
    } else {
      var high := Decimal(n / 10);
      DecimalBack(cc, n / 10);
      assert Decimal(n)[..|high|] == high;
    }
  }

  lemma SignedBack(cc: CharClasses, n: int)
    requires cc.Valid()
    ensures Number(cc, Signed(n)) == Some(n)
    ensures IsNumber(cc, Signed(n))
  {
    DecimalBack(cc, if n < 0 then -n else n);
    if n < 0 {
      assert Signed(n)[1..] == Decimal(-n);
    }
  }

  lemma HeadTail<T>(xs: seq<T>)
    requires xs != []
    ensures xs == [xs[0]] + xs[1..]
    ensures |xs| == 1 ==> xs == [xs[0]]
  {
  }

  // Expressions

  /** What may follow an expression. */
  predicate After(rest: Stream) {
    rest.Kind() != PLUS && rest.Kind() != LPAREN
  }

  lemma {:induction false} ExprBack(st: Style, e: Expr, rest: Stream)
    requires st.cc.Valid() && ValidExpr(st.cc, e)
    requires rest.Kind() != LPAREN
    ensures ParseExpr(st.cc, WriteExpr(st, e, rest)) == ParseSum(st.cc, e, rest)
    decreases e, 1
  {
    if e.Concat? {
      var right := WriteExpr(st, e.right, rest);
      OperandBack(st, e.right, rest);
      ExprBack(st, e.left, Mark(PLUS, right));
    } else {
      OperandBack(st, e, rest);
    }
  }

  lemma {:induction false} OperandBack(st: Style, e: Expr, rest: Stream)
    requires st.cc.Valid() && ValidExpr(st.cc, e) && !e.Concat?
    requires rest.Kind() != LPAREN
    ensures ParseOperand(st.cc, WriteExpr(st, e, rest)) == Got(e, rest)
    decreases e, 0
  {
    hide ParseList, WriteItems, ParseMap, WriteEntries, ParseSelect, WriteConditions, WriteCaseList;
    match e
    case StringLit(_) =>
    case BoolLit(_) =>
    case VarRef(_) =>
    case IntLit(n) => SignedBack(st.cc, n);
    case ListExpr(items) => ListBack(st, items, rest);
    case MapExpr(entries) => MapBack(st, entries, rest);
    case Select(conditions, cases) => SelectBack(st, conditions, cases, rest);
  }

  lemma {:induction false} ListBack(st: Style, items: seq<Expr>, rest: Stream)
    requires st.cc.Valid() && ValidExpr(st.cc, ListExpr(items))
    ensures ParseOperand(st.cc, WriteExpr(st, ListExpr(items), rest)) == Got(ListExpr(items), rest)
    decreases items, 5
  {
    hide ParseItems, WriteItems;
    ItemsBack(st, items, Mark(RBRACK, rest));
  }

  lemma {:induction false} MapBack(st: Style, entries: seq<Entry>, rest: Stream)
    requires st.cc.Valid() && ValidExpr(st.cc, MapExpr(entries))
    ensures ParseOperand(st.cc, WriteExpr(st, MapExpr(entries), rest)) == Got(MapExpr(entries), rest)
    decreases entries, 5
  {
    hide ParseEntries, WriteEntries;
    EntriesBack(st, entries, Mark(RBRACE, rest));
  }

  lemma {:induction false} ItemsBack(st: Style, items: seq<Expr>, rest: Stream)
    requires st.cc.Valid() && forall k :: 0 <= k < |items| ==> ValidExpr(st.cc, items[k])
    requires rest.Kind() == RBRACK
    ensures ParseItems(st.cc, WriteItems(st, items, rest)) == Got(items, rest)
    decreases items, 4
  {
    if items != [] {
      ItemsBack(st, items[1..], rest);
      ExprBack(st, items[0], Comma(st, |items| == 1, WriteItems(st, items[1..], rest)));
      HeadTail(items);
    }
  }

  lemma {:induction false} EntryBack(st: Style, e: Entry, rest: Stream)
    requires st.cc.Valid() && ValidEntry(st.cc, e)
    requires After(rest)
    ensures WriteEntry(st, e, rest).Kind() == IDENT
    ensures ParseEntry(st.cc, WriteEntry(st, e, rest)) == Got(e, rest)
    decreases e, 3
  {
    ExprBack(st, e.value, rest);
  }

  lemma {:induction false} EntriesBack(st: Style, entries: seq<Entry>, rest: Stream)
    requires st.cc.Valid() && forall k :: 0 <= k < |entries| ==> ValidEntry(st.cc, entries[k])
    requires rest.Kind() == RBRACE
    ensures ParseEntries(st.cc, WriteEntries(st, entries, rest)) == Got(entries, rest)
    decreases entries, 4
  {
    if entries != [] {
      EntriesBack(st, entries[1..], rest);
      EntryBack(st, entries[0], Comma(st, |entries| == 1, WriteEntries(st, entries[1..], rest)));
      HeadTail(entries);
    }
  }

  // select()

  lemma {:induction false} ArgsBack(st: Style, args: seq<string>, rest: Stream)
    requires rest.Kind() == RPAREN
    ensures ParseArgs(WriteArgs(st, args, rest)) == Got(args, rest)
  {
    if args != [] {
      ArgsBack(st, args[1..], rest);
      HeadTail(args);
    }
  }

  lemma ConditionBack(st: Style, c: Condition, rest: Stream)
    ensures WriteCondition(st, c, rest).Kind() == IDENT
    ensures ParseCondition(WriteCondition(st, c, rest)) == Got(c, rest)
  {
    ArgsBack(st, c.args, Mark(RPAREN, rest));
  }

  lemma {:induction false} ConditionTupleBack(st: Style, cs: seq<Condition>, rest: Stream)
    requires rest.Kind() == RPAREN
    ensures ParseConditionTuple(WriteConditionTuple(st, cs, rest)) == Got(cs, rest)
  {
    if cs != [] {
      ConditionTupleBack(st, cs[1..], rest);
      ConditionBack(st, cs[0], Comma(st, |cs| == 1, WriteConditionTuple(st, cs[1..], rest)));
      HeadTail(cs);
    }
  }

  lemma ConditionsBack(st: Style, cs: seq<Condition>, rest: Stream)
    ensures ParseConditions(WriteConditions(st, cs, rest)) == Got(cs, rest)
  {
    if |cs| == 1 {
      ConditionBack(st, cs[0], rest);
      assert cs == [cs[0]];
    } else {
      ConditionTupleBack(st, cs, Mark(RPAREN, rest));
    }
  }

  lemma PatternBack(cc: CharClasses, p: Pattern, binding: Option<string>, rest: Stream)
    requires rest.Kind() != AT
    requires binding.Some? ==> Carries(cc, p)
    ensures var ts := WritePattern(p, binding, rest);
            ts.Kind() in {IDENT, STRING} && ParsePattern(ts) == Got((p, binding), rest)
  {
    if binding.Some? {
      assert PatternWord(WordOf(p)) == p;
    }
  }

  lemma {:induction false} PatternTupleBack(st: Style, ps: seq<Pattern>, binding: Option<string>, rest: Stream)
    requires rest.Kind() == RPAREN
    requires ValidKey(st.cc, ps, binding)
    ensures ParsePatternTuple(WritePatternTuple(st, ps, binding, rest)) == Got((ps, binding), rest)
  {
    if ps != [] {
      var here, later := BindingHere(st, ps[0], binding), BindingLater(st, ps[0], binding);
      LaterKey(st, ps, binding);
      PatternTupleBack(st, ps[1..], later, rest);
      PatternBack(st.cc, ps[0], here, Comma(st, |ps| == 1, WritePatternTuple(st, ps[1..], later, rest)));
      HeadTail(ps);
    }
  }

  lemma LaterKey(st: Style, ps: seq<Pattern>, binding: Option<string>)
    requires ps != [] && ValidKey(st.cc, ps, binding)
    ensures ValidKey(st.cc, ps[1..], BindingLater(st, ps[0], binding))
    ensures Latest(BindingHere(st, ps[0], binding), BindingLater(st, ps[0], binding)) == binding
  {
    if binding.Some? && !Carries(st.cc, ps[0]) {
      var k :| 0 <= k < |ps| && Carries(st.cc, ps[k]);
      assert Carries(st.cc, ps[1..][k - 1]);
    }
  }

  lemma KeyBack(st: Style, ps: seq<Pattern>, binding: Option<string>, rest: Stream)
    requires rest.Kind() == COLON
    requires ValidKey(st.cc, ps, binding)
    ensures WriteKey(st, ps, binding, rest).Kind() != RBRACE
    ensures ParsePatterns(WriteKey(st, ps, binding, rest)) == Got((ps, binding), rest)
  {
    if |ps| == 1 {
      PatternBack(st.cc, ps[0], binding, rest);
      assert ps == [ps[0]];
    } else {
      PatternTupleBack(st, ps, binding, Mark(RPAREN, rest));
    }
  }

  lemma {:induction false} CaseBack(st: Style, c: Case, rest: Stream)
    requires st.cc.Valid() && ValidCase(st.cc, c)
    requires After(rest)
    ensures WriteCase(st, c, rest).Kind() != RBRACE
    ensures ParseCase(st.cc, WriteCase(st, c, rest)) == Got(c, rest)
    decreases c, 3
  {
    ExprBack(st, c.value, rest);
    KeyBack(st, c.patterns, c.binding, Mark(COLON, WriteExpr(st, c.value, rest)));
  }

  lemma {:induction false} CaseListBack(st: Style, cases: seq<Case>, rest: Stream)
    requires st.cc.Valid() && forall k :: 0 <= k < |cases| ==> ValidCase(st.cc, cases[k])
    requires rest.Kind() == RBRACE
    ensures ParseCaseList(st.cc, WriteCaseList(st, cases, rest)) == Got(cases, rest)
    decreases cases, 4
  {
    if cases != [] {
      CaseListBack(st, cases[1..], rest);
      CaseBack(st, cases[0], Comma(st, |cases| == 1, WriteCaseList(st, cases[1..], rest)));
      HeadTail(cases);
    }
  }

  lemma {:induction false} SelectBack(st: Style, conditions: seq<Condition>, cases: seq<Case>, rest: Stream)
    requires st.cc.Valid() && ValidExpr(st.cc, Select(conditions, cases))
    ensures ParseOperand(st.cc, WriteExpr(st, Select(conditions, cases), rest)) == Got(Select(conditions, cases), rest)
    decreases cases, 5
  {
    hide ParseCaseList, WriteCaseList, ParseConditions, WriteConditions;
    var after := Comma(st, true, Mark(RPAREN, rest));
    var brace := Mark(RBRACE, after);
    var body := Mark(LBRACE, WriteCaseList(st, cases, brace));
    CaseListBack(st, cases, brace);
    assert ParseCases(st.cc, body) == Got(cases, after);
    assert Accept(after, COMMA) == Mark(RPAREN, rest);
    ConditionsBack(st, conditions, Mark(COMMA, body));
  }

  // Statements and files

  lemma StatementBack(st: Style, s: Statement, rest: Stream)
    requires st.cc.Valid() && ValidStatement(st.cc, s)
    requires After(rest)
    ensures ParseStatement(st.cc, WriteStatement(st, s, rest)) == Got(s, rest)
  {
    hide WriteExpr, ParseExpr, WriteEntries, ParseEntries, ValidExpr;
    match s
    case Assignment(name, value, append) =>
      ExprBack(st, value, rest);
    case Module(kind, properties) =>
      EntriesBack(st, properties, Mark(RBRACE, rest));
  }

  /** Parsing the tokens a file prints to gives the file. */
  lemma {:induction false} FileBack(st: Style, file: seq<Statement>)
    requires st.cc.Valid() && ValidFile(st.cc, file)
    ensures var ts := WriteFile(st, file, End);
            After(ts) && ParseFile(st.cc, ts) == Got(file, End)
  {
    if file != [] {
      FileBack(st, file[1..]);
      StatementBack(st, file[0], WriteFile(st, file[1..], End));
      HeadTail(file);
    }
  }
}
