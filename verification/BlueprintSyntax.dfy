/** The written grammar, told by the tree: what the tokens of a given tree are.

    Every function here takes the tokens of one tree off the front of a stream, or fails.
    A stream parses to a tree exactly when the tree's tokens are what it holds. */
module BlueprintSyntax {
  import opened BlueprintGrammar
  import opened BlueprintTokens
  import opened Options

  type Strip = Parse<()>

  function Mark(ts: Stream, kind: Kind): Strip {
    if ts.Next? && ts.head.kind == kind then Got((), ts.tail) else Fail
  }

  function Word(ts: Stream, kind: Kind, v: string): Strip {
    if ts.Next? && ts.head == Lexeme(kind, v) then Got((), ts.tail) else Fail
  }

  /** A trailing comma may be left out. */
  function Trailing(ts: Stream): Stream {
    if ts.Next? && ts.head.kind == COMMA then ts.tail else ts
  }

  function StripExpr(cc: CharClasses, e: Expr, ts: Stream): (r: Strip)
    decreases e, 0
  {
    match e
    case StringLit(v) => Word(ts, STRING, v)
    case BoolLit(b) => Word(ts, IDENT, if b then "true" else "false")
    case IntLit(n) =>
      if ts.Next? && ts.head.kind == NUMBER && Number(cc, ts.head.value) == Some(n) then Got((), ts.tail) else Fail
    case VarRef(name) =>
      var (_, rest) :- Word(ts, IDENT, name);
      if name == "true" || name == "false" || (name == "select" && Mark(rest, LPAREN).Got?) then Fail
      else Got((), rest)
    case ListExpr(items) =>
      var (_, inner) :- Mark(ts, LBRACK);
      var (_, after) :- StripItems(cc, items, inner);
      Mark(after, RBRACK)
    case MapExpr(entries) => StripMap(cc, entries, ts)
    case Concat(left, right) =>
      if right.Concat? then Fail else
      var (_, plus) :- StripExpr(cc, left, ts);
      var (_, after) :- Mark(plus, PLUS);
      StripExpr(cc, right, after)
    case Select(conditions, cases) => StripSelect(cc, conditions, cases, ts)
  }

  function StripItems(cc: CharClasses, items: seq<Expr>, ts: Stream): (r: Strip)
    decreases items, 1
  {
    if items == [] then Got((), ts)
    else
      var (_, after) :- StripExpr(cc, items[0], ts);
      if |items| == 1 then Got((), Trailing(after))
      else
        var (_, next) :- Mark(after, COMMA);
        StripItems(cc, items[1..], next)
  }

  function StripMap(cc: CharClasses, entries: seq<Entry>, ts: Stream): (r: Strip)
    decreases entries, 2
  {
    var (_, inner) :- Mark(ts, LBRACE);
    var (_, after) :- StripEntries(cc, entries, inner);
    Mark(after, RBRACE)
  }

  function StripEntry(cc: CharClasses, entry: Entry, ts: Stream): (r: Strip)
    decreases entry, 1
  {
    var (_, colon) :- Word(ts, IDENT, entry.key);
    var (_, inner) :- Mark(colon, COLON);
    StripExpr(cc, entry.value, inner)
  }

  function StripEntries(cc: CharClasses, entries: seq<Entry>, ts: Stream): (r: Strip)
    decreases entries, 1
  {
    if entries == [] then Got((), ts)
    else
      var (_, after) :- StripEntry(cc, entries[0], ts);
      if |entries| == 1 then Got((), Trailing(after))
      else
        var (_, next) :- Mark(after, COMMA);
        StripEntries(cc, entries[1..], next)
  }

  // select()

  function StripSelect(cc: CharClasses, conditions: seq<Condition>, cases: seq<Case>, ts: Stream): (r: Strip)
    decreases cases, 2
  {
    var (_, open) :- Word(ts, IDENT, "select");
    var (_, inner) :- Mark(open, LPAREN);
    var (_, comma) :- StripConditions(conditions, inner);
    var (_, brace) :- Mark(comma, COMMA);
    var (_, first) :- Mark(brace, LBRACE);
    var (_, last) :- StripCases(cc, cases, first);
    var (_, after) :- Mark(last, RBRACE);
    Mark(Trailing(after), RPAREN)
  }

  /** One condition stands alone or in parentheses; any other number stands in parentheses. */
  function StripConditions(conditions: seq<Condition>, ts: Stream): (r: Strip) {
    if Mark(ts, LPAREN).Got? then
      var (_, after) :- StripConditionTuple(conditions, ts.tail);
      Mark(after, RPAREN)
    else if |conditions| == 1 then StripCondition(conditions[0], ts)
    else Fail
  }

  function StripConditionTuple(conditions: seq<Condition>, ts: Stream): (r: Strip) {
    if conditions == [] then Got((), ts)
    else
      var (_, after) :- StripCondition(conditions[0], ts);
      if |conditions| == 1 then Got((), Trailing(after))
      else
        var (_, next) :- Mark(after, COMMA);
        StripConditionTuple(conditions[1..], next)
  }

  function StripCondition(condition: Condition, ts: Stream): (r: Strip) {
    var (_, open) :- Word(ts, IDENT, condition.func);
    var (_, inner) :- Mark(open, LPAREN);
    var (_, after) :- StripArgs(condition.args, inner);
    Mark(after, RPAREN)
  }

  function StripArgs(args: seq<string>, ts: Stream): (r: Strip) {
    if args == [] then Got((), ts)
    else
      var (_, after) :- Word(ts, STRING, args[0]);
      if |args| == 1 then Got((), Trailing(after))
      else
        var (_, next) :- Mark(after, COMMA);
        StripArgs(args[1..], next)
  }

  function StripCases(cc: CharClasses, cases: seq<Case>, ts: Stream): (r: Strip)
    decreases cases, 1
  {
    if cases == [] then Got((), ts)
    else
      var (_, after) :- StripCase(cc, cases[0], ts);
      if |cases| == 1 then Got((), Trailing(after))
      else
        var (_, next) :- Mark(after, COMMA);
        StripCases(cc, cases[1..], next)
  }

  function StripCase(cc: CharClasses, c: Case, ts: Stream): (r: Strip)
    decreases c, 1
  {
    var (bindings, colon) :- StripPatterns(c.patterns, ts);
    if !LastBinding(bindings, c.binding) then Fail else
    var (_, inner) :- Mark(colon, COLON);
    StripExpr(cc, c.value, inner)
  }

  type Bindings = seq<Option<string>>

  /** The name a key binds: the last one written in it. */
  predicate LastBinding(bindings: Bindings, binding: Option<string>) {
    match binding
    case None => forall k :: 0 <= k < |bindings| ==> bindings[k] == None
    case Some(_) =>
      exists k :: 0 <= k < |bindings| && bindings[k] == binding &&
                  forall j :: k < j < |bindings| ==> bindings[j] == None
  }

  /** Takes a key off and returns what each of its patterns binds. */
  function StripPatterns(patterns: seq<Pattern>, ts: Stream): (r: Parse<Bindings>) {
    if Mark(ts, LPAREN).Got? then
      var (bindings, after) :- StripPatternTuple(patterns, ts.tail);
      var (_, rest) :- Mark(after, RPAREN);
      Got(bindings, rest)
    else if |patterns| == 1 then
      var (binding, rest) :- StripPattern(patterns[0], ts);
      Got([binding], rest)
    else Fail
  }

  function StripPatternTuple(patterns: seq<Pattern>, ts: Stream): (r: Parse<Bindings>) {
    if patterns == [] then Got([], ts)
    else
      var (binding, after) :- StripPattern(patterns[0], ts);
      if |patterns| == 1 then Got([binding], Trailing(after))
      else
        var (_, next) :- Mark(after, COMMA);
        var (bindings, rest) :- StripPatternTuple(patterns[1..], next);
        Got([binding] + bindings, rest)
  }

  predicate Denotes(v: string, p: Pattern) {
    match p
    case Truth(b) => v == if b then "true" else "false"
    case Any => v == "any"
    case Default => v == "default"
    case Literal(text) => v == text && v != "true" && v != "false" && v != "any" && v != "default"
  }

  function StripPattern(p: Pattern, ts: Stream): (r: Parse<Option<string>>) {
    if ts.Next? && p.Literal? && ts.head == Lexeme(STRING, p.text) then Got(None, ts.tail)
    else if ts.Next? && ts.head.kind == IDENT && Denotes(ts.head.value, p) then
      if Mark(ts.tail, AT).Fail? then Got(None, ts.tail)
      else if Mark(ts.tail.tail, IDENT).Got? then Got(Some(ts.tail.tail.head.value), ts.tail.tail.tail)
      else Fail
    else Fail
  }

  // Statements

  function StripStatement(cc: CharClasses, s: Statement, ts: Stream): (r: Strip) {
    match s
    case Assignment(name, value, append) =>
      var (_, op) :- Word(ts, IDENT, name);
      var (_, after) :- Mark(op, if append then PLUSEQ else EQUALS);
      StripExpr(cc, value, after)
    case Module(kind, properties) =>
      var (_, after) :- Word(ts, IDENT, kind);
      StripMap(cc, properties, after)
  }

  function StripFile(cc: CharClasses, file: seq<Statement>, ts: Stream): (r: Strip) {
    if file == [] then Got((), ts)
    else
      var (_, after) :- StripStatement(cc, file[0], ts);
      StripFile(cc, file[1..], after)
  }

  // What is parsed is what is written

  lemma Cons<T>(x: T, xs: seq<T>, ys: seq<T>)
    ensures [x] + xs == ys <==> ys != [] && ys[0] == x && ys[1..] == xs
    ensures [x] == ys <==> |ys| == 1 && ys[0] == x
  {
  }

  lemma {:induction false} ArgsExact(args: seq<string>, ts: Stream, rest: Stream)
    requires rest.Kind() == RPAREN
    ensures ParseArgs(ts) == Got(args, rest) <==> StripArgs(args, ts) == Got((), rest)
  {
    if args != [] && ts.Kind() == STRING {
      Cons(ts.head.value, [], args);
      if ts.tail.Kind() == COMMA {
        var next := ts.tail.tail;
        ArgsExact(args[1..], next, rest);
        if ParseArgs(next).Got? {
          Cons(ts.head.value, ParseArgs(next).value, args);
        }
      }
    }
  }

  lemma ConditionExact(condition: Condition, ts: Stream, rest: Stream)
    ensures ParseCondition(ts) == Got(condition, rest) <==> StripCondition(condition, ts) == Got((), rest)
  {
    if ts.Kind() == IDENT && ts.tail.Kind() == LPAREN {
      var inner := ts.tail.tail;
      var parsed := ParseArgs(inner);
      if parsed.Got? && parsed.rest.Kind() == RPAREN {
        ArgsExact(parsed.value, inner, parsed.rest);
      }
      var stripped := StripArgs(condition.args, inner);
      if stripped.Got? && stripped.rest.Kind() == RPAREN {
        ArgsExact(condition.args, inner, stripped.rest);
        assert stripped.value == ();
        assert condition == Condition(condition.func, condition.args);
      }
    }
  }

  lemma {:induction false} ConditionTupleParsed(ts: Stream)
    ensures var r := ParseConditionTuple(ts);
            r.Got? ==> StripConditionTuple(r.value, ts) == Got((), r.rest)
    decreases ts.Len()
  {
    if ts.Kind() != RPAREN && ParseCondition(ts).Got? {
      var (condition, after) := ParseCondition(ts).Extract();
      ConditionExact(condition, ts, after);
      if after.Kind() == COMMA {
        ConditionTupleParsed(after.tail);
        if ParseConditionTuple(after.tail).Got? {
          Cons(condition, ParseConditionTuple(after.tail).value, ParseConditionTuple(ts).value);
        }
      }
    }
  }

  lemma {:induction false} ConditionTupleWritten(conditions: seq<Condition>, ts: Stream)
    ensures var r := StripConditionTuple(conditions, ts);
            r.Got? && r.rest.Kind() == RPAREN ==> ParseConditionTuple(ts) == Got(conditions, r.rest)
  {
    if conditions != [] && StripConditionTuple(conditions, ts).Got? {
      var after := StripCondition(conditions[0], ts).rest;
      ConditionExact(conditions[0], ts, after);
      Cons(conditions[0], conditions[1..], conditions);
      if after.Kind() == COMMA {
        ConditionTupleWritten(conditions[1..], after.tail);
      }
    }
  }

  lemma ConditionsParsed(ts: Stream)
    ensures var r := ParseConditions(ts);
            r.Got? ==> StripConditions(r.value, ts) == Got((), r.rest)
  {
    if ts.Kind() == LPAREN {
      ConditionTupleParsed(ts.tail);
    } else if ParseCondition(ts).Got? {
      ConditionExact(ParseCondition(ts).value, ts, ParseCondition(ts).rest);
    }
  }

  lemma ConditionsWritten(conditions: seq<Condition>, ts: Stream)
    ensures var r := StripConditions(conditions, ts);
            r.Got? ==> ParseConditions(ts) == Got(conditions, r.rest)
  {
    if ts.Kind() == LPAREN {
      ConditionTupleWritten(conditions, ts.tail);
    } else if |conditions| == 1 && StripCondition(conditions[0], ts).Got? {
      ConditionExact(conditions[0], ts, StripCondition(conditions[0], ts).rest);
      Cons(conditions[0], [], conditions);
    }
  }

  lemma PatternExact(p: Pattern, binding: Option<string>, ts: Stream, rest: Stream)
    ensures ParsePattern(ts) == Got((p, binding), rest) <==> StripPattern(p, ts) == Got(binding, rest)
  {
  }

  lemma LaterBinding(first: Option<string>, others: Bindings, binding: Option<string>)
    requires LastBinding(others, binding)
    ensures LastBinding([first] + others, Latest(first, binding))
  {
    var all := [first] + others;
    assert forall k :: 1 <= k < |all| ==> all[k] == others[k - 1];
    if binding.Some? {
      var k :| 0 <= k < |others| && others[k] == binding && forall j :: k < j < |others| ==> others[j] == None;
      assert all[k + 1] == binding;
    } else if first.Some? {
      assert all[0] == first;
    }
  }

  lemma OneLastBinding(bindings: Bindings, a: Option<string>, b: Option<string>)
    requires LastBinding(bindings, a) && LastBinding(bindings, b)
    ensures a == b
  {
  }

  lemma {:induction false} PatternTupleParsed(ts: Stream)
    ensures var r := ParsePatternTuple(ts);
            r.Got? ==> var s := StripPatternTuple(r.value.0, ts);
                       s.Got? && s.rest == r.rest && LastBinding(s.value, r.value.1)
    decreases ts.Len()
  {
    if ts.Kind() != RPAREN && ParsePattern(ts).Got? {
      var (one, after) := ParsePattern(ts).Extract();
      PatternExact(one.0, one.1, ts, after);
      if after.Kind() == COMMA {
        PatternTupleParsed(after.tail);
        if ParsePatternTuple(after.tail).Got? {
          var key := ParsePatternTuple(after.tail).value;
          Cons(one.0, key.0, ParsePatternTuple(ts).value.0);
          LaterBinding(one.1, StripPatternTuple(key.0, after.tail).value, key.1);
        }
      } else {
        OneBinding(one.1);
      }
    }
  }

  lemma OneBinding(binding: Option<string>)
    ensures LastBinding([binding], binding)
  {
    assert [binding][0] == binding;
  }

  lemma {:induction false} PatternTupleWritten(patterns: seq<Pattern>, ts: Stream)
    ensures var s := StripPatternTuple(patterns, ts);
            s.Got? && s.rest.Kind() == RPAREN ==>
              var r := ParsePatternTuple(ts);
              r.Got? && r.value.0 == patterns && r.rest == s.rest && LastBinding(s.value, r.value.1)
  {
    if patterns != [] && StripPatternTuple(patterns, ts).Got? {
      var (binding, after) := StripPattern(patterns[0], ts).Extract();
      PatternExact(patterns[0], binding, ts, after);
      Cons(patterns[0], patterns[1..], patterns);
      OneBinding(binding);
      if after.Kind() == COMMA {
        PatternTupleWritten(patterns[1..], after.tail);
        var s := StripPatternTuple(patterns[1..], after.tail);
        if s.Got? && s.rest.Kind() == RPAREN {
          LaterBinding(binding, s.value, ParsePatternTuple(after.tail).value.1);
        }
      }
    }
  }

  lemma PatternsParsed(ts: Stream)
    ensures var r := ParsePatterns(ts);
            r.Got? ==> var s := StripPatterns(r.value.0, ts);
                       s.Got? && s.rest == r.rest && LastBinding(s.value, r.value.1)
  {
    if ts.Kind() == LPAREN {
      PatternTupleParsed(ts.tail);
    } else if ParsePattern(ts).Got? {
      var (one, after) := ParsePattern(ts).Extract();
      PatternExact(one.0, one.1, ts, after);
      OneBinding(one.1);
    }
  }

  lemma PatternsWritten(patterns: seq<Pattern>, binding: Option<string>, ts: Stream)
    ensures var s := StripPatterns(patterns, ts);
            s.Got? && LastBinding(s.value, binding) ==> ParsePatterns(ts) == Got((patterns, binding), s.rest)
  {
    var s := StripPatterns(patterns, ts);
    if s.Got? && LastBinding(s.value, binding) {
      if ts.Kind() == LPAREN {
        PatternTupleWritten(patterns, ts.tail);
        OneLastBinding(s.value, binding, ParsePatternTuple(ts.tail).value.1);
      } else {
        PatternExact(patterns[0], s.value[0], ts, s.rest);
        OneBinding(s.value[0]);
        OneLastBinding(s.value, binding, s.value[0]);
        Cons(patterns[0], [], patterns);
      }
    }
  }

  // Expressions, along the tokens

  lemma {:induction false} ExprParsed(cc: CharClasses, ts: Stream)
    ensures var r := ParseExpr(cc, ts);
            r.Got? ==> StripExpr(cc, r.value, ts) == Got((), r.rest)
    decreases ts.Len(), 3
  {
    OperandParsed(cc, ts);
    if ParseOperand(cc, ts).Got? {
      SumParsed(cc, ts, ParseOperand(cc, ts).value, ParseOperand(cc, ts).rest);
    }
  }

  lemma {:induction false} SumParsed(cc: CharClasses, start: Stream, left: Expr, ts: Stream)
    requires StripExpr(cc, left, start) == Got((), ts)
    ensures var r := ParseSum(cc, left, ts);
            r.Got? ==> StripExpr(cc, r.value, start) == Got((), r.rest)
    decreases ts.Len(), 0
  {
    hide ParseOperand;
    if ts.Kind() == PLUS {
      OperandParsed(cc, ts.tail);
      if ParseOperand(cc, ts.tail).Got? {
        var (right, rest) := ParseOperand(cc, ts.tail).Extract();
        assert StripExpr(cc, Concat(left, right), start) == Got((), rest);
        SumParsed(cc, start, Concat(left, right), rest);
      }
    }
  }

  lemma {:induction false} OperandParsed(cc: CharClasses, ts: Stream)
    ensures var r := ParseOperand(cc, ts);
            r.Got? ==> !r.value.Concat? && StripExpr(cc, r.value, ts) == Got((), r.rest)
    decreases ts.Len(), 2
  {
    hide StripSelect;
    hide ParseSelect;
    hide StripMap;
    hide ParseMap;
    hide ParseList;
    if ts.Next? {
      match ts.head.kind
      case LBRACK => ListParsed(cc, ts);
      case LBRACE => MapParsed(cc, ts);
      case IDENT =>
        if ts.head.value == "select" && ts.tail.Kind() == LPAREN {
          SelectParsed(cc, ts);
        }
      case _ =>
    }
  }

  lemma {:induction false} ListParsed(cc: CharClasses, ts: Stream)
    ensures var r := ParseList(cc, ts);
            r.Got? ==> !r.value.Concat? && StripExpr(cc, r.value, ts) == Got((), r.rest)
    decreases ts.Len(), 1
  {
    if ts.Kind() == LBRACK {
      ItemsParsed(cc, ts.tail);
    }
  }

  lemma {:induction false} ItemsParsed(cc: CharClasses, ts: Stream)
    ensures var r := ParseItems(cc, ts);
            r.Got? ==> StripItems(cc, r.value, ts) == Got((), r.rest)
    decreases ts.Len(), 4
  {
    if ts.Kind() != RBRACK {
      ExprParsed(cc, ts);
      if ParseExpr(cc, ts).Got? {
        var (item, after) := ParseExpr(cc, ts).Extract();
        if after.Kind() == COMMA {
          ItemsParsed(cc, after.tail);
          if ParseItems(cc, after.tail).Got? {
            Cons(item, ParseItems(cc, after.tail).value, ParseItems(cc, ts).value);
          }
        }
      }
    }
  }

  lemma {:induction false} MapParsed(cc: CharClasses, ts: Stream)
    ensures var r := ParseMap(cc, ts);
            r.Got? ==> StripMap(cc, r.value, ts) == Got((), r.rest)
    decreases ts.Len(), 1
  {
    if ts.Kind() == LBRACE {
      EntriesParsed(cc, ts.tail);
    }
  }

  lemma {:induction false} EntryParsed(cc: CharClasses, ts: Stream)
    ensures var r := ParseEntry(cc, ts);
            r.Got? ==> StripEntry(cc, r.value, ts) == Got((), r.rest)
    decreases ts.Len(), 4
  {
    if ts.Kind() == IDENT && ts.tail.Kind() == COLON {
      assert ts.Len() == 2 + ts.tail.tail.Len();
      ExprParsed(cc, ts.tail.tail);
    }
  }

  lemma {:induction false} EntriesParsed(cc: CharClasses, ts: Stream)
    ensures var r := ParseEntries(cc, ts);
            r.Got? ==> StripEntries(cc, r.value, ts) == Got((), r.rest)
    decreases ts.Len(), 5
  {
    if ts.Kind() != RBRACE {
      EntryParsed(cc, ts);
      if ParseEntry(cc, ts).Got? {
        var (entry, after) := ParseEntry(cc, ts).Extract();
        if after.Kind() == COMMA {
          EntriesParsed(cc, after.tail);
          if ParseEntries(cc, after.tail).Got? {
            Cons(entry, ParseEntries(cc, after.tail).value, ParseEntries(cc, ts).value);
          }
        }
      }
    }
  }

  lemma {:induction false} SelectParsed(cc: CharClasses, ts: Stream)
    requires ts.Next? && ts.head == Lexeme(IDENT, "select")
    ensures var r := ParseSelect(cc, ts);
            r.Got? ==> r.value.Select? && StripSelect(cc, r.value.conditions, r.value.cases, ts) == Got((), r.rest)
    decreases ts.Len(), 1
  {
    hide StripConditions;
    hide ParseConditions;
    hide StripCases;
    if ParseSelect(cc, ts).Got? {
      ConditionsParsed(ts.tail.tail);
      var brace := ParseConditions(ts.tail.tail).rest.tail;
      CasesParsed(cc, brace.tail);
    }
  }

  lemma {:induction false} CaseParsed(cc: CharClasses, ts: Stream)
    ensures var r := ParseCase(cc, ts);
            r.Got? ==> StripCase(cc, r.value, ts) == Got((), r.rest)
    decreases ts.Len(), 4
  {
    hide ParsePatterns;
    hide StripPatterns;
    hide LastBinding;
    PatternsParsed(ts);
    if ParsePatterns(ts).Got? && ParsePatterns(ts).rest.Kind() == COLON {
      ExprParsed(cc, ParsePatterns(ts).rest.tail);
    }
  }

  lemma {:induction false} CasesParsed(cc: CharClasses, ts: Stream)
    ensures var r := ParseCaseList(cc, ts);
            r.Got? ==> StripCases(cc, r.value, ts) == Got((), r.rest)
    decreases ts.Len(), 5
  {
    if ts.Kind() != RBRACE {
      CaseParsed(cc, ts);
      if ParseCase(cc, ts).Got? {
        var (c, after) := ParseCase(cc, ts).Extract();
        if after.Kind() == COMMA {
          CasesParsed(cc, after.tail);
          if ParseCaseList(cc, after.tail).Got? {
            Cons(c, ParseCaseList(cc, after.tail).value, ParseCaseList(cc, ts).value);
          }
        }
      }
    }
  }

  // Expressions, along the tree

  /** The tokens of a tree parse to it, as far as a sum goes. */
  lemma {:induction false} ExprWritten(cc: CharClasses, e: Expr, ts: Stream)
    ensures var r := StripExpr(cc, e, ts);
            r.Got? ==> && ParseExpr(cc, ts) == ParseSum(cc, e, r.rest)
                       && (!e.Concat? ==> ParseOperand(cc, ts) == Got(e, r.rest))
    decreases e, 3
  {
    hide StripExpr;
    hide ParseOperand;
    if e.Concat? {
      SumWritten(cc, e.left, e.right, ts);
    } else {
      OperandWritten(cc, e, ts);
    }
  }

  lemma {:induction false} OperandWritten(cc: CharClasses, e: Expr, ts: Stream)
    requires !e.Concat?
    ensures var r := StripExpr(cc, e, ts);
            r.Got? ==> ParseOperand(cc, ts) == Got(e, r.rest)
    decreases e, 2
  {
    match e
    case ListExpr(items) => ListWritten(cc, items, ts);
    case MapExpr(entries) =>
      MapWritten(cc, entries, ts);
      assert ts.Kind() == LBRACE && ParseMap(cc, ts).Got? ==> ParseOperand(cc, ts).Got?;
    case Select(conditions, cases) =>
      SelectWritten(cc, conditions, cases, ts);
      if StripSelect(cc, conditions, cases, ts).Got? {
        SelectStarts(cc, conditions, cases, ts);
      }
    case _ => WordWritten(cc, e, ts);
  }

  lemma SelectStarts(cc: CharClasses, conditions: seq<Condition>, cases: seq<Case>, ts: Stream)
    requires StripSelect(cc, conditions, cases, ts).Got?
    ensures ts.Next? && ts.head == Lexeme(IDENT, "select") && ts.tail.Kind() == LPAREN
  {
  }

  lemma WordWritten(cc: CharClasses, e: Expr, ts: Stream)
    requires e.StringLit? || e.BoolLit? || e.IntLit? || e.VarRef?
    ensures var r := StripExpr(cc, e, ts);
            r.Got? ==> ParseOperand(cc, ts) == Got(e, r.rest)
  {
    hide ParseSelect;
    hide ParseMap;
    hide ParseList;
  }

  lemma {:induction false} ListWritten(cc: CharClasses, items: seq<Expr>, ts: Stream)
    ensures var r := StripExpr(cc, ListExpr(items), ts);
            r.Got? ==> ParseOperand(cc, ts) == Got(ListExpr(items), r.rest)
    decreases items, 2
  {
    hide ParseItems;
    hide StripItems;
    if StripExpr(cc, ListExpr(items), ts).Got? {
      ItemsWritten(cc, items, ts.tail);
    }
  }

  lemma {:induction false} SumWritten(cc: CharClasses, left: Expr, right: Expr, ts: Stream)
    ensures var r := StripExpr(cc, Concat(left, right), ts);
            r.Got? ==> ParseExpr(cc, ts) == ParseSum(cc, Concat(left, right), r.rest)
    decreases Concat(left, right), 0
  {
    if StripExpr(cc, Concat(left, right), ts).Got? {
      ExprWritten(cc, left, ts);
      ExprWritten(cc, right, StripExpr(cc, left, ts).rest.tail);
    }
  }

  lemma {:induction false} ItemsWritten(cc: CharClasses, items: seq<Expr>, ts: Stream)
    ensures var r := StripItems(cc, items, ts);
            r.Got? && r.rest.Kind() == RBRACK ==> ParseItems(cc, ts) == Got(items, r.rest)
    decreases items, 1
  {
    if items != [] && StripItems(cc, items, ts).Got? {
      var after := StripExpr(cc, items[0], ts).rest;
      ExprWritten(cc, items[0], ts);
      Cons(items[0], items[1..], items);
      if after.Kind() == COMMA {
        ItemsWritten(cc, items[1..], after.tail);
      }
    }
  }

  lemma {:induction false} MapWritten(cc: CharClasses, entries: seq<Entry>, ts: Stream)
    ensures var r := StripMap(cc, entries, ts);
            r.Got? ==> ParseMap(cc, ts) == Got(entries, r.rest)
    decreases entries, 2
  {
    if StripMap(cc, entries, ts).Got? {
      EntriesWritten(cc, entries, ts.tail);
    }
  }

  lemma {:induction false} EntryWritten(cc: CharClasses, entry: Entry, ts: Stream)
    ensures var r := StripEntry(cc, entry, ts);
            r.Got? && r.rest.Kind() != PLUS ==> ParseEntry(cc, ts) == Got(entry, r.rest)
    decreases entry, 1
  {
    if StripEntry(cc, entry, ts).Got? {
      ExprWritten(cc, entry.value, ts.tail.tail);
    }
  }

  lemma {:induction false} EntriesWritten(cc: CharClasses, entries: seq<Entry>, ts: Stream)
    ensures var r := StripEntries(cc, entries, ts);
            r.Got? && r.rest.Kind() == RBRACE ==> ParseEntries(cc, ts) == Got(entries, r.rest)
    decreases entries, 1
  {
    if entries != [] && StripEntries(cc, entries, ts).Got? {
      var after := StripEntry(cc, entries[0], ts).rest;
      EntryWritten(cc, entries[0], ts);
      Cons(entries[0], entries[1..], entries);
      if after.Kind() == COMMA {
        EntriesWritten(cc, entries[1..], after.tail);
      }
    }
  }

  lemma {:induction false} SelectWritten(cc: CharClasses, conditions: seq<Condition>, cases: seq<Case>, ts: Stream)
    ensures var r := StripSelect(cc, conditions, cases, ts);
            r.Got? ==> ParseSelect(cc, ts) == Got(Select(conditions, cases), r.rest)
    decreases cases, 2
  {
    hide StripConditions;
    hide ParseConditions;
    hide StripCases;
    hide ParseCaseList;
    if StripSelect(cc, conditions, cases, ts).Got? {
      ConditionsWritten(conditions, ts.tail.tail);
      var brace := StripConditions(conditions, ts.tail.tail).rest.tail;
      CasesWritten(cc, cases, brace.tail);
    }
  }

  lemma {:induction false} CaseWritten(cc: CharClasses, c: Case, ts: Stream)
    ensures var r := StripCase(cc, c, ts);
            r.Got? && r.rest.Kind() != PLUS ==> ParseCase(cc, ts) == Got(c, r.rest)
    decreases c, 1
  {
    hide ParsePatterns;
    hide StripPatterns;
    hide LastBinding;
    if StripCase(cc, c, ts).Got? {
      PatternsWritten(c.patterns, c.binding, ts);
      ExprWritten(cc, c.value, StripPatterns(c.patterns, ts).rest.tail);
    }
  }

  lemma {:induction false} CasesWritten(cc: CharClasses, cases: seq<Case>, ts: Stream)
    ensures var r := StripCases(cc, cases, ts);
            r.Got? && r.rest.Kind() == RBRACE ==> ParseCaseList(cc, ts) == Got(cases, r.rest)
    decreases cases, 1
  {
    if cases != [] && StripCases(cc, cases, ts).Got? {
      var after := StripCase(cc, cases[0], ts).rest;
      CaseWritten(cc, cases[0], ts);
      Cons(cases[0], cases[1..], cases);
      if after.Kind() == COMMA {
        CasesWritten(cc, cases[1..], after.tail);
      }
    }
  }

  // Files

  lemma StatementParsed(cc: CharClasses, ts: Stream)
    ensures var r := ParseStatement(cc, ts);
            r.Got? ==> StripStatement(cc, r.value, ts) == Got((), r.rest)
  {
    if ts.Kind() == IDENT && ts.tail.Next? {
      ExprParsed(cc, ts.tail.tail);
      MapParsed(cc, ts.tail);
    }
  }

  lemma StatementWritten(cc: CharClasses, s: Statement, ts: Stream)
    ensures var r := StripStatement(cc, s, ts);
            r.Got? && r.rest.Kind() != PLUS ==> ParseStatement(cc, ts) == Got(s, r.rest)
  {
    if StripStatement(cc, s, ts).Got? {
      match s
      case Assignment(_, value, _) => ExprWritten(cc, value, ts.tail.tail);
      case Module(_, properties) => MapWritten(cc, properties, ts.tail);
    }
  }

  lemma {:induction false} FileParsed(cc: CharClasses, ts: Stream)
    ensures var r := ParseFile(cc, ts);
            r.Got? ==> StripFile(cc, r.value, ts) == Got((), r.rest)
    decreases ts.Len()
  {
    if ts.Kind() != EOF && ParseStatement(cc, ts).Got? {
      StatementParsed(cc, ts);
      var (statement, after) := ParseStatement(cc, ts).Extract();
      FileParsed(cc, after);
      if ParseFile(cc, after).Got? {
        Cons(statement, ParseFile(cc, after).value, ParseFile(cc, ts).value);
      }
    }
  }

  lemma {:induction false} FileWritten(cc: CharClasses, file: seq<Statement>, ts: Stream)
    requires StripFile(cc, file, ts) == Got((), End)
    ensures ParseFile(cc, ts) == Got(file, End)
  {
    if file != [] {
      var after := StripStatement(cc, file[0], ts).rest;
      assert after.Kind() != PLUS by {
        if file[1..] != [] {
          assert StripStatement(cc, file[1], after).Got?;
        }
      }
      StatementWritten(cc, file[0], ts);
      FileWritten(cc, file[1..], after);
      Cons(file[0], file[1..], file);
    }
  }

  /** A stream parses to a file exactly when it holds the file's tokens and no others. */
  lemma ParsesExactlyWhen(cc: CharClasses, file: seq<Statement>, ts: Stream)
    ensures ParseFile(cc, ts) == Got(file, End) <==> StripFile(cc, file, ts) == Got((), End)
  {
    FileParsed(cc, ts);
    if StripFile(cc, file, ts) == Got((), End) {
      FileWritten(cc, file, ts);
    }
  }

  /** Two trees never share their tokens. */
  lemma OneTreePerStream(cc: CharClasses, a: seq<Statement>, b: seq<Statement>, ts: Stream)
    requires StripFile(cc, a, ts) == Got((), End) && StripFile(cc, b, ts) == Got((), End)
    ensures a == b
  {
    FileWritten(cc, a, ts);
    FileWritten(cc, b, ts);
  }
}
