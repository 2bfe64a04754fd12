/** Blueprint syntax trees, and the parse of a token stream as a function of what is ahead. */
module BlueprintGrammar {
  import opened BlueprintTokens
  import opened Options

  datatype Expr =
    | StringLit(text: string)
    | BoolLit(truth: bool)
    | IntLit(number: int)
    | VarRef(name: string)
    | ListExpr(items: seq<Expr>)
    | MapExpr(entries: seq<Entry>)
    | Concat(left: Expr, right: Expr)
    | Select(conditions: seq<Condition>, cases: seq<Case>)

  datatype Entry = Entry(key: string, value: Expr)

  datatype Condition = Condition(func: string, args: seq<string>)

  datatype Pattern = Literal(text: string) | Truth(truth: bool) | Any | Default

  datatype Case = Case(patterns: seq<Pattern>, value: Expr, binding: Option<string>)

  datatype Statement =
    | Assignment(name: string, value: Expr, append: bool)
    | Module(kind: string, properties: seq<Entry>)

  /** The tokens still ahead; `End` is the end-of-file token, which is never passed. */
  datatype Stream = End | Next(head: Lexeme, tail: Stream)
  {
    function Kind(): Kind { if End? then EOF else head.kind }

    function Len(): nat { if End? then 0 else 1 + tail.Len() }
  }

  /** The stream of a token list, from position i up to the first end-of-file token. */
  function From(toks: seq<Lexeme>, i: nat): (ts: Stream)
    requires i <= |toks|
    decreases |toks| - i
  {
    if i == |toks| || toks[i].kind == EOF then End else Next(toks[i], From(toks, i + 1))
  }

  /** What a parsing step yields: a value and the tokens still ahead, or a syntax error. */
  datatype Parse<+T> = Got(value: T, rest: Stream) | Fail
  {
    predicate IsFailure() { Fail? }
    function PropagateFailure<U>(): Parse<U> requires Fail? { Fail }
    function Extract(): (T, Stream) requires Got? { (value, rest) }

    /** At least n tokens are consumed. */
    ghost predicate Advances(ts: Stream, n: nat) {
      Got? ==> rest.Len() + n <= ts.Len()
    }
  }

  function Expect(ts: Stream, k: Kind): (r: Parse<string>)
    requires k != EOF
    ensures r.Advances(ts, 1)
  {
    if ts.Kind() == k then Got(ts.head.value, ts.tail) else Fail
  }

  /** Consumes one k if it is next. */
  function Accept(ts: Stream, k: Kind): (rest: Stream)
    requires k != EOF
    ensures rest.Len() <= ts.Len()
  {
    if ts.Kind() == k then ts.tail else ts
  }

  /** The value of a digit string, most significant digit first. */
  function Digits(cc: CharClasses, v: string): (r: Option<nat>) {
    if v == [] then Some(0)
    else
      var c := v[|v| - 1];
      match Digits(cc, v[..|v| - 1])
      case None => None
      case Some(high) => if c in cc.value then Some(10 * high + cc.value[c]) else None
  }

  /** `int()` on a number token; None where it raises. */
  function Number(cc: CharClasses, v: string): (r: Option<int>) {
    if v != [] && v[0] == '-' then
      match Digits(cc, v[1..])
      case None => None
      case Some(n) => Some(-(n as int))
    else
      match Digits(cc, v)
      case None => None
      case Some(n) => Some(n)
  }

  // Expressions

  function ParseExpr(cc: CharClasses, ts: Stream): (r: Parse<Expr>)
    ensures r.Advances(ts, 1)
    decreases ts.Len(), 3
  {
    var (left, rest) :- ParseOperand(cc, ts);
    ParseSum(cc, left, rest)
  }

  function ParseSum(cc: CharClasses, left: Expr, ts: Stream): (r: Parse<Expr>)
    ensures r.Advances(ts, 0)
    decreases ts.Len(), 0
  {
    if ts.Kind() != PLUS then Got(left, ts)
    else
      var (right, rest) :- ParseOperand(cc, ts.tail);
      ParseSum(cc, Concat(left, right), rest)
  }

  function ParseOperand(cc: CharClasses, ts: Stream): (r: Parse<Expr>)
    ensures r.Advances(ts, 1)
    decreases ts.Len(), 2
  {
    if ts.End? then Fail else
    var v := ts.head.value;
    match ts.head.kind
    case STRING => Got(StringLit(v), ts.tail)
    case NUMBER =>
      (match Number(cc, v)
       case Some(n) => Got(IntLit(n), ts.tail)
       case None => Fail)
    case LBRACK => ParseList(cc, ts)
    case LBRACE =>
      var (entries, rest) :- ParseMap(cc, ts);
      Got(MapExpr(entries), rest)
    case IDENT =>
      if v == "select" && ts.tail.Kind() == LPAREN then ParseSelect(cc, ts)
      else if v == "true" then Got(BoolLit(true), ts.tail)
      else if v == "false" then Got(BoolLit(false), ts.tail)
      else Got(VarRef(v), ts.tail)
    case _ => Fail
  }

  function ParseList(cc: CharClasses, ts: Stream): (r: Parse<Expr>)
    ensures r.Advances(ts, 1)
    decreases ts.Len(), 1
  {
    var (_, inner) :- Expect(ts, LBRACK);
    var (items, after) :- ParseItems(cc, inner);
    var (_, rest) :- Expect(after, RBRACK);
    Got(ListExpr(items), rest)
  }

  function ParseItems(cc: CharClasses, ts: Stream): (r: Parse<seq<Expr>>)
    ensures r.Advances(ts, 0)
    decreases ts.Len(), 4
  {
    if ts.Kind() == RBRACK then Got([], ts)
    else
      var (item, after) :- ParseExpr(cc, ts);
      if after.Kind() != COMMA then Got([item], after)
      else
        var (items, rest) :- ParseItems(cc, after.tail);
        Got([item] + items, rest)
  }

  function ParseMap(cc: CharClasses, ts: Stream): (r: Parse<seq<Entry>>)
    ensures r.Advances(ts, 1)
    decreases ts.Len(), 1
  {
    var (_, inner) :- Expect(ts, LBRACE);
    var (entries, after) :- ParseEntries(cc, inner);
    var (_, rest) :- Expect(after, RBRACE);
    Got(entries, rest)
  }

  function ParseEntry(cc: CharClasses, ts: Stream): (r: Parse<Entry>)
    ensures r.Advances(ts, 1)
    decreases ts.Len(), 4
  {
    var (key, colon) :- Expect(ts, IDENT);
    var (_, inner) :- Expect(colon, COLON);
    var (value, rest) :- ParseExpr(cc, inner);
    Got(Entry(key, value), rest)
  }

  function ParseEntries(cc: CharClasses, ts: Stream): (r: Parse<seq<Entry>>)
    ensures r.Advances(ts, 0)
    decreases ts.Len(), 5
  {
    if ts.Kind() == RBRACE then Got([], ts)
    else
      var (entry, after) :- ParseEntry(cc, ts);
      if after.Kind() != COMMA then Got([entry], after)
      else
        var (entries, rest) :- ParseEntries(cc, after.tail);
        Got([entry] + entries, rest)
  }

  // select()

  function ParseSelect(cc: CharClasses, ts: Stream): (r: Parse<Expr>)
    ensures r.Advances(ts, 1)
    decreases ts.Len(), 1
  {
    var (_, open) :- Expect(ts, IDENT);
    var (_, inner) :- Expect(open, LPAREN);
    var (conditions, comma) :- ParseConditions(inner);
    var (_, brace) :- Expect(comma, COMMA);
    var (cases, after) :- ParseCases(cc, brace);
    var (_, rest) :- Expect(Accept(after, COMMA), RPAREN);
    Got(Select(conditions, cases), rest)
  }

  function ParseConditions(ts: Stream): (r: Parse<seq<Condition>>)
    ensures r.Advances(ts, 1)
  {
    if ts.Kind() == LPAREN then
      var (conditions, after) :- ParseConditionTuple(ts.tail);
      var (_, rest) :- Expect(after, RPAREN);
      Got(conditions, rest)
    else
      var (condition, rest) :- ParseCondition(ts);
      Got([condition], rest)
  }

  function ParseConditionTuple(ts: Stream): (r: Parse<seq<Condition>>)
    ensures r.Advances(ts, 0)
    decreases ts.Len()
  {
    if ts.Kind() == RPAREN then Got([], ts)
    else
      var (condition, after) :- ParseCondition(ts);
      if after.Kind() != COMMA then Got([condition], after)
      else
        var (conditions, rest) :- ParseConditionTuple(after.tail);
        Got([condition] + conditions, rest)
  }

  function ParseCondition(ts: Stream): (r: Parse<Condition>)
    ensures r.Advances(ts, 1)
  {
    var (func, open) :- Expect(ts, IDENT);
    var (_, inner) :- Expect(open, LPAREN);
    var (args, after) :- ParseArgs(inner);
    var (_, rest) :- Expect(after, RPAREN);
    Got(Condition(func, args), rest)
  }

  function ParseArgs(ts: Stream): (r: Parse<seq<string>>)
    ensures r.Advances(ts, 0)
    decreases ts.Len()
  {
    if ts.Kind() == RPAREN then Got([], ts)
    else
      var (arg, after) :- Expect(ts, STRING);
      if after.Kind() != COMMA then Got([arg], after)
      else
        var (args, rest) :- ParseArgs(after.tail);
        Got([arg] + args, rest)
  }

  function ParseCases(cc: CharClasses, ts: Stream): (r: Parse<seq<Case>>)
    ensures r.Advances(ts, 1)
    decreases ts.Len(), 1
  {
    var (_, inner) :- Expect(ts, LBRACE);
    var (cases, after) :- ParseCaseList(cc, inner);
    var (_, rest) :- Expect(after, RBRACE);
    Got(cases, rest)
  }

  function ParseCase(cc: CharClasses, ts: Stream): (r: Parse<Case>)
    ensures r.Advances(ts, 1)
    decreases ts.Len(), 4
  {
    var (key, colon) :- ParsePatterns(ts);
    var (_, inner) :- Expect(colon, COLON);
    var (value, rest) :- ParseExpr(cc, inner);
    Got(Case(key.0, value, key.1), rest)
  }

  function ParseCaseList(cc: CharClasses, ts: Stream): (r: Parse<seq<Case>>)
    ensures r.Advances(ts, 0)
    decreases ts.Len(), 5
  {
    if ts.Kind() == RBRACE then Got([], ts)
    else
      var (c, after) :- ParseCase(cc, ts);
      if after.Kind() != COMMA then Got([c], after)
      else
        var (cases, rest) :- ParseCaseList(cc, after.tail);
        Got([c] + cases, rest)
  }

  type Key = (seq<Pattern>, Option<string>)

  function ParsePatterns(ts: Stream): (r: Parse<Key>)
    ensures r.Advances(ts, 1)
  {
    if ts.Kind() == LPAREN then
      var (key, after) :- ParsePatternTuple(ts.tail);
      var (_, rest) :- Expect(after, RPAREN);
      Got(key, rest)
    else
      var (one, rest) :- ParsePattern(ts);
      Got(([one.0], one.1), rest)
  }

  /** The last binding in the tuple wins. */
  function ParsePatternTuple(ts: Stream): (r: Parse<Key>)
    ensures r.Advances(ts, 0)
    decreases ts.Len()
  {
    if ts.Kind() == RPAREN then Got(([], None), ts)
    else
      var (one, after) :- ParsePattern(ts);
      if after.Kind() != COMMA then Got(([one.0], one.1), after)
      else
        var (key, rest) :- ParsePatternTuple(after.tail);
        Got(([one.0] + key.0, Latest(one.1, key.1)), rest)
  }

  function Latest(earlier: Option<string>, later: Option<string>): Option<string> {
    if later.Some? then later else earlier
  }

  function PatternWord(v: string): Pattern {
    if v == "true" then Truth(true)
    else if v == "false" then Truth(false)
    else if v == "any" then Any
    else if v == "default" then Default
    else Literal(v)
  }

  function ParsePattern(ts: Stream): (r: Parse<(Pattern, Option<string>)>)
    ensures r.Advances(ts, 1)
  {
    if ts.End? then Fail else
    var v := ts.head.value;
    match ts.head.kind
    case STRING => Got((Literal(v), None), ts.tail)
    case IDENT =>
      if ts.tail.Kind() == AT then
        var (name, rest) :- Expect(ts.tail.tail, IDENT);
        Got((PatternWord(v), Some(name)), rest)
      else Got((PatternWord(v), None), ts.tail)
    case _ => Fail
  }

  // Statements

  function ParseStatement(cc: CharClasses, ts: Stream): (r: Parse<Statement>)
    ensures r.Advances(ts, 1)
  {
    var (name, after) :- Expect(ts, IDENT);
    if after.Kind() == EQUALS || after.Kind() == PLUSEQ then
      var (value, rest) :- ParseExpr(cc, after.tail);
      Got(Assignment(name, value, after.Kind() == PLUSEQ), rest)
    else if after.Kind() == LBRACE then
      var (properties, rest) :- ParseMap(cc, after);
      Got(Module(name, properties), rest)
    else Fail
  }

  function ParseFile(cc: CharClasses, ts: Stream): (r: Parse<seq<Statement>>)
    ensures r.Advances(ts, 0)
    decreases ts.Len()
  {
    if ts.Kind() == EOF then Got([], ts)
    else
      var (statement, after) :- ParseStatement(cc, ts);
      var (statements, rest) :- ParseFile(cc, after);
      Got([statement] + statements, rest)
  }
}
