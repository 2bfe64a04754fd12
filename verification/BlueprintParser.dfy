/** The recursive-descent parser: a cursor over the token list, moved by every method.

    Each method is tied to the function of the same name in `BlueprintGrammar` on the
    tokens still ahead. None stands for the raised syntax error. */
module BlueprintParser {
  import opened BlueprintTokens
  import opened Options
  import G = BlueprintGrammar

  /** A method's result and new cursor against the specified parse. */
  ghost predicate Agrees<T>(r: Option<T>, ahead: G.Stream, spec: G.Parse<T>) {
    if spec.Got? then r == Some(spec.value) && ahead == spec.rest else r == None
  }

  /** A parsed list with elements already collected in front. */
  ghost function Front<T>(front: seq<T>, r: G.Parse<seq<T>>): G.Parse<seq<T>> {
    if r.Got? then G.Got(front + r.value, r.rest) else G.Fail
  }

  lemma FrontGrows<T>(front: seq<T>, x: T, r: G.Parse<seq<T>>)
    ensures Front(front, Front([x], r)) == Front(front + [x], r)
  {
    if r.Got? {
      assert front + ([x] + r.value) == (front + [x]) + r.value;
    }
  }

  lemma FrontMeets<T>(r: G.Parse<seq<T>>)
    ensures Front([], r) == r
  {
    if r.Got? {
      assert [] + r.value == r.value;
    }
  }

  class Parser {
    const cc: CharClasses
    const toks: seq<Lexeme>
    var pos: nat

    ghost predicate Valid() reads this {
      pos < |toks| && toks[|toks| - 1].kind == EOF
    }

    ghost function Ahead(): (ts: G.Stream)
      requires Valid()
      reads this
      ensures ts.Kind() == toks[pos].kind
    {
      G.From(toks, pos)
    }

    constructor (cc: CharClasses, tokens: seq<Token>)
      requires tokens != [] && tokens[|tokens| - 1].lexeme.kind == EOF
      ensures Valid() && this.cc == cc && Ahead() == G.From(Lexemes(tokens), 0)
    {
      this.cc, this.toks, this.pos := cc, Lexemes(tokens), 0;
    }

    function Cur(): (t: Lexeme)
      requires Valid()
      reads this
      ensures t.kind == Ahead().Kind() && (Ahead().Next? ==> t == Ahead().head)
    {
      toks[pos]
    }

    method Advance() returns (t: Lexeme)
      requires Valid()
      modifies this
      ensures Valid()
      ensures t == old(Cur())
      ensures if t.kind == EOF then pos == old(pos) else pos == old(pos) + 1 && Ahead() == old(Ahead()).tail
    {
      t := toks[pos];
      if t.kind != EOF {
        pos := pos + 1;
      }
    }

    method Expect(k: Kind) returns (r: Option<string>)
      requires Valid() && k != EOF
      modifies this
      ensures Valid()
      ensures Agrees(r, Ahead(), G.Expect(old(Ahead()), k))
      ensures pos == if r.Some? then old(pos) + 1 else old(pos)
    {
      if Cur().kind != k {
        return None;
      }
      var t := Advance();
      return Some(t.value);
    }

    method Accept(k: Kind) returns (found: bool)
      requires Valid() && k != EOF
      modifies this
      ensures Valid()
      ensures found == (old(Ahead()).Kind() == k) && pos >= old(pos)
      ensures Ahead() == G.Accept(old(Ahead()), k)
    {
      found := Cur().kind == k;
      if found {
        var _ := Advance();
      }
    }

    method ParseFile() returns (r: Option<seq<G.Statement>>)
      requires Valid()
      modifies this
      ensures Valid()
      ensures Agrees(r, Ahead(), G.ParseFile(cc, old(Ahead())))
    {
      ghost var start := Ahead();
      var statements := [];
      FrontMeets(G.ParseFile(cc, start));
      while Cur().kind != EOF
        invariant Valid()
        invariant G.ParseFile(cc, start) == Front(statements, G.ParseFile(cc, Ahead()))
        decreases |toks| - pos
      {
        var statement := ParseStatement();
        if statement == None {
          return None;
        }
        FrontGrows(statements, statement.value, G.ParseFile(cc, Ahead()));
        statements := statements + [statement.value];
      }
      assert statements + [] == statements;
      return Some(statements);
    }

    method ParseStatement() returns (r: Option<G.Statement>)
      requires Valid()
      modifies this
      ensures Valid()
      ensures Agrees(r, Ahead(), G.ParseStatement(cc, old(Ahead())))
      ensures r.Some? ==> pos > old(pos)
    {
      if Cur().kind != IDENT {
        return None;
      }
      var name := Advance();
      if Cur().kind == EQUALS || Cur().kind == PLUSEQ {
        var op := Advance();
        var value := ParseExpr();
        if value == None {
          return None;
        }
        return Some(G.Assignment(name.value, value.value, op.kind == PLUSEQ));
      }
      if Cur().kind == LBRACE {
        var properties := ParseMap();
        if properties == None {
          return None;
        }
        return Some(G.Module(name.value, properties.value));
      }
      return None;
    }

    method ParseExpr() returns (r: Option<G.Expr>)
      requires Valid()
      modifies this
      ensures Valid()
      ensures Agrees(r, Ahead(), G.ParseExpr(cc, old(Ahead())))
      ensures r.Some? ==> pos > old(pos)
      decreases |toks| - pos, 3
    {
      ghost var start := Ahead();
      var first := ParseOperand();
      if first == None {
        return None;
      }
      var left := first.value;
      while Cur().kind == PLUS
        invariant Valid() && pos > old(pos)
        invariant G.ParseExpr(cc, start) == G.ParseSum(cc, left, Ahead())
        decreases |toks| - pos
      {
        var _ := Advance();
        var right := ParseOperand();
        if right == None {
          return None;
        }
        left := G.Concat(left, right.value);
      }
      return Some(left);
    }

    method ParseOperand() returns (r: Option<G.Expr>)
      requires Valid()
      modifies this
      ensures Valid()
      ensures Agrees(r, Ahead(), G.ParseOperand(cc, old(Ahead())))
      ensures r.Some? ==> pos > old(pos)
      decreases |toks| - pos, 2
    {
      var t := Cur();
      match t.kind
      case STRING =>
        var _ := Advance();
        return Some(G.StringLit(t.value));
      case NUMBER =>
        var _ := Advance();
        match G.Number(cc, t.value) {
          case Some(n) => return Some(G.IntLit(n));
          case None => return None;
        }
      case LBRACK =>
        r := ParseList();
      case LBRACE =>
        var entries := ParseMap();
        r := if entries == None then None else Some(G.MapExpr(entries.value));
      case IDENT =>
        assert Ahead().tail == G.From(toks, pos + 1) && Ahead().tail.Kind() == toks[pos + 1].kind;
        if t.value == "select" && toks[pos + 1].kind == LPAREN {
          r := ParseSelect();
        } else {
          var _ := Advance();
          r := Some(if t.value == "true" then G.BoolLit(true)
                    else if t.value == "false" then G.BoolLit(false)
                    else G.VarRef(t.value));
        }
      case _ =>
        return None;
    }

    method ParseList() returns (r: Option<G.Expr>)
      requires Valid()
      modifies this
      ensures Valid()
      ensures Agrees(r, Ahead(), G.ParseList(cc, old(Ahead())))
      ensures r.Some? ==> pos > old(pos)
      decreases |toks| - pos, 1
    {
      var open := Expect(LBRACK);
      if open == None {
        return None;
      }
      var items := ParseItems();
      if items == None {
        return None;
      }
      var close := Expect(RBRACK);
      return if close == None then None else Some(G.ListExpr(items.value));
    }

    method ParseItems() returns (r: Option<seq<G.Expr>>)
      requires Valid()
      modifies this
      ensures Valid()
      ensures Agrees(r, Ahead(), G.ParseItems(cc, old(Ahead())))
      ensures r.Some? ==> pos >= old(pos)
      decreases |toks| - pos, 5
    {
      ghost var start := Ahead();
      var items := [];
      FrontMeets(G.ParseItems(cc, start));
      while Cur().kind != RBRACK
        invariant Valid() && pos >= old(pos)
        invariant G.ParseItems(cc, start) == Front(items, G.ParseItems(cc, Ahead()))
        decreases |toks| - pos
      {
        var item := ParseExpr();
        if item == None {
          return None;
        }
        ghost var front := items;
        items := items + [item.value];
        var comma := Accept(COMMA);
        if !comma {
          return Some(items);
        }
        FrontGrows(front, item.value, G.ParseItems(cc, Ahead()));
      }
      assert items + [] == items;
      return Some(items);
    }

    method ParseMap() returns (r: Option<seq<G.Entry>>)
      requires Valid()
      modifies this
      ensures Valid()
      ensures Agrees(r, Ahead(), G.ParseMap(cc, old(Ahead())))
      ensures r.Some? ==> pos > old(pos)
      decreases |toks| - pos, 1
    {
      var open := Expect(LBRACE);
      if open == None {
        return None;
      }
      var entries := ParseEntries();
      if entries == None {
        return None;
      }
      var close := Expect(RBRACE);
      return if close == None then None else entries;
    }

    method ParseEntries() returns (r: Option<seq<G.Entry>>)
      requires Valid()
      modifies this
      ensures Valid()
      ensures Agrees(r, Ahead(), G.ParseEntries(cc, old(Ahead())))
      ensures r.Some? ==> pos >= old(pos)
      decreases |toks| - pos, 5
    {
      ghost var start := Ahead();
      var entries := [];
      FrontMeets(G.ParseEntries(cc, start));
      while Cur().kind != RBRACE
        invariant Valid() && pos >= old(pos)
        invariant G.ParseEntries(cc, start) == Front(entries, G.ParseEntries(cc, Ahead()))
        decreases |toks| - pos
      {
        var entry := ParseEntry();
        if entry == None {
          return None;
        }
        ghost var front := entries;
        entries := entries + [entry.value];
        var comma := Accept(COMMA);
        if !comma {
          return Some(entries);
        }
        FrontGrows(front, entry.value, G.ParseEntries(cc, Ahead()));
      }
      assert entries + [] == entries;
      return Some(entries);
    }

    method ParseEntry() returns (r: Option<G.Entry>)
      requires Valid()
      modifies this
      ensures Valid()
      ensures Agrees(r, Ahead(), G.ParseEntry(cc, old(Ahead())))
      ensures r.Some? ==> pos > old(pos)
      decreases |toks| - pos, 4
    {
      var key := Expect(IDENT);
      if key == None {
        return None;
      }
      var colon := Expect(COLON);
      if colon == None {
        return None;
      }
      var value := ParseExpr();
      return if value == None then None else Some(G.Entry(key.value, value.value));
    }

    method ParseSelect() returns (r: Option<G.Expr>)
      requires Valid()
      modifies this
      ensures Valid()
      ensures Agrees(r, Ahead(), G.ParseSelect(cc, old(Ahead())))
      ensures r.Some? ==> pos > old(pos)
      decreases |toks| - pos, 1
    {
      var keyword := Expect(IDENT);
      if keyword == None {
        return None;
      }
      var open := Expect(LPAREN);
      if open == None {
        return None;
      }
      var conditions := ParseConditions();
      if conditions == None {
        return None;
      }
      var comma := Expect(COMMA);
      if comma == None {
        return None;
      }
      var cases := ParseCases();
      if cases == None {
        return None;
      }
      var _ := Accept(COMMA);
      var close := Expect(RPAREN);
      return if close == None then None else Some(G.Select(conditions.value, cases.value));
    }

    method ParseConditions() returns (r: Option<seq<G.Condition>>)
      requires Valid()
      modifies this
      ensures Valid()
      ensures Agrees(r, Ahead(), G.ParseConditions(old(Ahead())))
      ensures r.Some? ==> pos > old(pos)
    {
      if Cur().kind != LPAREN {
        var only := ParseCondition();
        return if only == None then None else Some([only.value]);
      }
      var _ := Advance();
      var conditions := ParseConditionTuple();
      if conditions == None {
        return None;
      }
      var close := Expect(RPAREN);
      return if close == None then None else conditions;
    }

    method ParseConditionTuple() returns (r: Option<seq<G.Condition>>)
      requires Valid()
      modifies this
      ensures Valid()
      ensures Agrees(r, Ahead(), G.ParseConditionTuple(old(Ahead())))
      ensures r.Some? ==> pos >= old(pos)
      decreases |toks| - pos, 5
    {
      ghost var start := Ahead();
      var conditions := [];
      FrontMeets(G.ParseConditionTuple(start));
      while Cur().kind != RPAREN
        invariant Valid() && pos >= old(pos)
        invariant G.ParseConditionTuple(start) == Front(conditions, G.ParseConditionTuple(Ahead()))
        decreases |toks| - pos
      {
        var condition := ParseCondition();
        if condition == None {
          return None;
        }
        ghost var front := conditions;
        conditions := conditions + [condition.value];
        var comma := Accept(COMMA);
        if !comma {
          return Some(conditions);
        }
        FrontGrows(front, condition.value, G.ParseConditionTuple(Ahead()));
      }
      assert conditions + [] == conditions;
      return Some(conditions);
    }

    method ParseCondition() returns (r: Option<G.Condition>)
      requires Valid()
      modifies this
      ensures Valid()
      ensures Agrees(r, Ahead(), G.ParseCondition(old(Ahead())))
      ensures r.Some? ==> pos > old(pos)
    {
      var func := Expect(IDENT);
      if func == None {
        return None;
      }
      var open := Expect(LPAREN);
      if open == None {
        return None;
      }
      var args := ParseArgs();
      if args == None {
        return None;
      }
      var close := Expect(RPAREN);
      return if close == None then None else Some(G.Condition(func.value, args.value));
    }

    method ParseArgs() returns (r: Option<seq<string>>)
      requires Valid()
      modifies this
      ensures Valid()
      ensures Agrees(r, Ahead(), G.ParseArgs(old(Ahead())))
      ensures r.Some? ==> pos >= old(pos)
      decreases |toks| - pos, 5
    {
      ghost var start := Ahead();
      var args := [];
      FrontMeets(G.ParseArgs(start));
      while Cur().kind != RPAREN
        invariant Valid() && pos >= old(pos)
        invariant G.ParseArgs(start) == Front(args, G.ParseArgs(Ahead()))
        decreases |toks| - pos
      {
        var arg := Expect(STRING);
        if arg == None {
          return None;
        }
        ghost var front := args;
        args := args + [arg.value];
        var comma := Accept(COMMA);
        if !comma {
          return Some(args);
        }
        FrontGrows(front, arg.value, G.ParseArgs(Ahead()));
      }
      assert args + [] == args;
      return Some(args);
    }

    method ParseCases() returns (r: Option<seq<G.Case>>)
      requires Valid()
      modifies this
      ensures Valid()
      ensures Agrees(r, Ahead(), G.ParseCases(cc, old(Ahead())))
      ensures r.Some? ==> pos > old(pos)
      decreases |toks| - pos, 1
    {
      var open := Expect(LBRACE);
      if open == None {
        return None;
      }
      var cases := ParseCaseList();
      if cases == None {
        return None;
      }
      var close := Expect(RBRACE);
      return if close == None then None else cases;
    }

    method ParseCaseList() returns (r: Option<seq<G.Case>>)
      requires Valid()
      modifies this
      ensures Valid()
      ensures Agrees(r, Ahead(), G.ParseCaseList(cc, old(Ahead())))
      ensures r.Some? ==> pos >= old(pos)
      decreases |toks| - pos, 5
    {
      ghost var start := Ahead();
      var cases := [];
      FrontMeets(G.ParseCaseList(cc, start));
      while Cur().kind != RBRACE
        invariant Valid() && pos >= old(pos)
        invariant G.ParseCaseList(cc, start) == Front(cases, G.ParseCaseList(cc, Ahead()))
        decreases |toks| - pos
      {
        var c := ParseCase();
        if c == None {
          return None;
        }
        ghost var front := cases;
        cases := cases + [c.value];
        var comma := Accept(COMMA);
        if !comma {
          return Some(cases);
        }
        FrontGrows(front, c.value, G.ParseCaseList(cc, Ahead()));
      }
      assert cases + [] == cases;
      return Some(cases);
    }

    method ParseCase() returns (r: Option<G.Case>)
      requires Valid()
      modifies this
      ensures Valid()
      ensures Agrees(r, Ahead(), G.ParseCase(cc, old(Ahead())))
      ensures r.Some? ==> pos > old(pos)
      decreases |toks| - pos, 4
    {
      var key := ParsePatterns();
      if key == None {
        return None;
      }
      var colon := Expect(COLON);
      if colon == None {
        return None;
      }
      var value := ParseExpr();
      return if value == None then None else Some(G.Case(key.value.0, value.value, key.value.1));
    }

    method ParsePatterns() returns (r: Option<G.Key>)
      requires Valid()
      modifies this
      ensures Valid()
      ensures Agrees(r, Ahead(), G.ParsePatterns(old(Ahead())))
      ensures r.Some? ==> pos > old(pos)
    {
      if Cur().kind != LPAREN {
        var only := ParsePattern();
        return if only == None then None else Some(([only.value.0], only.value.1));
      }
      var _ := Advance();
      var key := ParsePatternTuple();
      if key == None {
        return None;
      }
      var close := Expect(RPAREN);
      return if close == None then None else key;
    }

    method ParsePatternTuple() returns (r: Option<G.Key>)
      requires Valid()
      modifies this
      ensures Valid()
      ensures Agrees(r, Ahead(), G.ParsePatternTuple(old(Ahead())))
      ensures r.Some? ==> pos >= old(pos)
    {
      ghost var start := Ahead();
      var patterns, binding := [], None;
      FrontKeyMeets(G.ParsePatternTuple(start));
      while Cur().kind != RPAREN
        invariant Valid() && pos >= old(pos)
        invariant G.ParsePatternTuple(start) == FrontKey(patterns, binding, G.ParsePatternTuple(Ahead()))
        decreases |toks| - pos
      {
        var one := ParsePattern();
        if one == None {
          return None;
        }
        ghost var front, bound := patterns, binding;
        patterns := patterns + [one.value.0];
        if one.value.1 != None {
          binding := one.value.1;
        }
        var comma := Accept(COMMA);
        if !comma {
          return Some((patterns, binding));
        }
        KeyGrows(front, bound, one.value.0, one.value.1, G.ParsePatternTuple(Ahead()));
      }
      assert patterns + [] == patterns;
      return Some((patterns, binding));
    }

    method ParsePattern() returns (r: Option<(G.Pattern, Option<string>)>)
      requires Valid()
      modifies this
      ensures Valid()
      ensures Agrees(r, Ahead(), G.ParsePattern(old(Ahead())))
      ensures r.Some? ==> pos > old(pos)
    {
      var t := Cur();
      if t.kind == STRING {
        var _ := Advance();
        return Some((G.Literal(t.value), None));
      }
      if t.kind != IDENT {
        return None;
      }
      var _ := Advance();
      var binding := None;
      if Cur().kind == AT {
        var _ := Advance();
        binding := Expect(IDENT);
        if binding == None {
          return None;
        }
      }
      return Some((G.PatternWord(t.value), binding));
    }
  }

  /** As `Front`, for a case key: later bindings win. */
  ghost function FrontKey(front: seq<G.Pattern>, binding: Option<string>, r: G.Parse<G.Key>): G.Parse<G.Key> {
    if r.Got? then G.Got((front + r.value.0, G.Latest(binding, r.value.1)), r.rest) else G.Fail
  }

  lemma KeyGrows(front: seq<G.Pattern>, binding: Option<string>,
                 p: G.Pattern, b: Option<string>, r: G.Parse<G.Key>)
    ensures FrontKey(front, binding, FrontKey([p], b, r)) == FrontKey(front + [p], G.Latest(binding, b), r)
  {
    if r.Got? {
      assert front + ([p] + r.value.0) == (front + [p]) + r.value.0;
    }
  }

  lemma FrontKeyMeets(r: G.Parse<G.Key>)
    ensures FrontKey([], None, r) == r
  {
    if r.Got? {
      assert [] + r.value.0 == r.value.0;
    }
  }
}
