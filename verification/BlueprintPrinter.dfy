/** Which syntax trees are Blueprint files, and a printer for them. */
module BlueprintPrinter {
  import opened BlueprintGrammar
  import opened BlueprintSpelling
  import opened BlueprintTokens
  import opened Options

  // Well-formed trees

  /** An identifier pattern is never one of the pattern keywords. */
  predicate PlainWord(cc: CharClasses, v: string) {
    IsIdent(cc, v) && v !in {"true", "false", "any", "default"}
  }

  /** Patterns that can be written as an identifier, and so can capture a binding. */
  predicate Carries(cc: CharClasses, p: Pattern) {
    p.Literal? ==> PlainWord(cc, p.text)
  }

  predicate ValidExpr(cc: CharClasses, e: Expr) {
    match e
    case StringLit(_) => true
    case BoolLit(_) => true
    case IntLit(_) => true
    case VarRef(name) => IsIdent(cc, name) && name != "true" && name != "false"
    case ListExpr(items) => forall k :: 0 <= k < |items| ==> ValidExpr(cc, items[k])
    case MapExpr(entries) => forall k :: 0 <= k < |entries| ==> ValidEntry(cc, entries[k])
    case Concat(left, right) => ValidExpr(cc, left) && ValidExpr(cc, right) && !right.Concat?
    case Select(conditions, cases) =>
      && (forall k :: 0 <= k < |conditions| ==> IsIdent(cc, conditions[k].func))
      && (forall k :: 0 <= k < |cases| ==> ValidCase(cc, cases[k]))
  }

  predicate ValidEntry(cc: CharClasses, e: Entry) {
    IsIdent(cc, e.key) && ValidExpr(cc, e.value)
  }

  predicate ValidKey(cc: CharClasses, patterns: seq<Pattern>, binding: Option<string>) {
    binding.Some? ==> IsIdent(cc, binding.value) && exists k :: 0 <= k < |patterns| && Carries(cc, patterns[k])
  }

  predicate ValidCase(cc: CharClasses, c: Case) {
    ValidExpr(cc, c.value) && ValidKey(cc, c.patterns, c.binding)
  }

  predicate ValidStatement(cc: CharClasses, s: Statement) {
    match s
    case Assignment(name, value, _) => IsIdent(cc, name) && ValidExpr(cc, value)
    case Module(kind, properties) =>
      IsIdent(cc, kind) && forall k :: 0 <= k < |properties| ==> ValidEntry(cc, properties[k])
  }

  predicate ValidFile(cc: CharClasses, file: seq<Statement>) {
    forall k :: 0 <= k < |file| ==> ValidStatement(cc, file[k])
  }

  // The printer

  /** `commas` chooses whether lists, maps and tuples end with a trailing comma. */
  datatype Style = Style(cc: CharClasses, commas: bool)

  function Spelling(k: Kind): string {
    match k
    case LBRACE => "{"
    case RBRACE => "}"
    case LBRACK => "["
    case RBRACK => "]"
    case LPAREN => "("
    case RPAREN => ")"
    case COLON => ":"
    case COMMA => ","
    case PLUS => "+"
    case EQUALS => "="
    case PLUSEQ => "+="
    case AT => "@"
    case _ => ""
  }

  // Every writer puts its tokens in front of `rest`.

  function Mark(k: Kind, rest: Stream): Stream { Next(Lexeme(k, Spelling(k)), rest) }

  function Word(v: string, rest: Stream): Stream { Next(Lexeme(IDENT, v), rest) }

  function Text(v: string, rest: Stream): Stream { Next(Lexeme(STRING, v), rest) }

  function Decimal(n: nat): (v: string)
    ensures v != []
  {
    if n < 10 then [DIGITS[n]] else Decimal(n / 10) + [DIGITS[n % 10]]
  }

  function Signed(n: int): (v: string) {
    if n < 0 then "-" + Decimal(-n) else Decimal(n)
  }

  /** What separates an element from the rest: a comma, unless it is last and bare. */
  function Comma(st: Style, last: bool, rest: Stream): Stream {
    if last && !st.commas then rest else Mark(COMMA, rest)
  }

  function WriteExpr(st: Style, e: Expr, rest: Stream): (ts: Stream)
    ensures ts.Kind() in {STRING, NUMBER, LBRACK, LBRACE, IDENT}
    decreases e, 0
  {
    match e
    case StringLit(v) => Text(v, rest)
    case BoolLit(b) => Word(if b then "true" else "false", rest)
    case IntLit(n) => Next(Lexeme(NUMBER, Signed(n)), rest)
    case VarRef(name) => Word(name, rest)
    case ListExpr(items) => Mark(LBRACK, WriteItems(st, items, Mark(RBRACK, rest)))
    case MapExpr(entries) => Mark(LBRACE, WriteEntries(st, entries, Mark(RBRACE, rest)))
    case Concat(left, right) => WriteExpr(st, left, Mark(PLUS, WriteExpr(st, right, rest)))
    case Select(conditions, cases) =>
      Word("select", Mark(LPAREN, WriteConditions(st, conditions, Mark(COMMA,
      Mark(LBRACE, WriteCaseList(st, cases, Mark(RBRACE,
      Comma(st, true, Mark(RPAREN, rest)))))))))
  }

  function WriteItems(st: Style, items: seq<Expr>, rest: Stream): Stream
    decreases items, 1
  {
    if items == [] then rest
    else WriteExpr(st, items[0], Comma(st, |items| == 1, WriteItems(st, items[1..], rest)))
  }

  function WriteEntry(st: Style, e: Entry, rest: Stream): Stream
    decreases e, 1
  {
    Word(e.key, Mark(COLON, WriteExpr(st, e.value, rest)))
  }

  function WriteEntries(st: Style, entries: seq<Entry>, rest: Stream): Stream
    decreases entries, 2
  {
    if entries == [] then rest
    else WriteEntry(st, entries[0], Comma(st, |entries| == 1, WriteEntries(st, entries[1..], rest)))
  }

  function WriteArgs(st: Style, args: seq<string>, rest: Stream): Stream {
    if args == [] then rest
    else Text(args[0], Comma(st, |args| == 1, WriteArgs(st, args[1..], rest)))
  }

  function WriteCondition(st: Style, c: Condition, rest: Stream): Stream {
    Word(c.func, Mark(LPAREN, WriteArgs(st, c.args, Mark(RPAREN, rest))))
  }

  function WriteConditionTuple(st: Style, cs: seq<Condition>, rest: Stream): Stream {
    if cs == [] then rest
    else WriteCondition(st, cs[0], Comma(st, |cs| == 1, WriteConditionTuple(st, cs[1..], rest)))
  }

  /** A single condition stands alone; any other number is a tuple. */
  function WriteConditions(st: Style, cs: seq<Condition>, rest: Stream): Stream {
    if |cs| == 1 then WriteCondition(st, cs[0], rest)
    else Mark(LPAREN, WriteConditionTuple(st, cs, Mark(RPAREN, rest)))
  }

  function WordOf(p: Pattern): string {
    match p
    case Truth(b) => if b then "true" else "false"
    case Any => "any"
    case Default => "default"
    case Literal(v) => v
  }

  function WritePattern(p: Pattern, binding: Option<string>, rest: Stream): Stream {
    if binding.Some? then Word(WordOf(p), Mark(AT, Word(binding.value, rest)))
    else if p.Literal? then Text(p.text, rest)
    else Word(WordOf(p), rest)
  }

  /** The binding is written on the first pattern that can carry it. */
  function BindingHere(st: Style, p: Pattern, binding: Option<string>): Option<string> {
    if Carries(st.cc, p) then binding else None
  }

  function BindingLater(st: Style, p: Pattern, binding: Option<string>): Option<string> {
    if Carries(st.cc, p) then None else binding
  }

  function WritePatternTuple(st: Style, ps: seq<Pattern>, binding: Option<string>, rest: Stream): Stream {
    if ps == [] then rest
    else
      WritePattern(ps[0], BindingHere(st, ps[0], binding), Comma(st, |ps| == 1,
      WritePatternTuple(st, ps[1..], BindingLater(st, ps[0], binding), rest)))
  }

  /** A single pattern stands alone; any other number is a tuple. */
  function WriteKey(st: Style, ps: seq<Pattern>, binding: Option<string>, rest: Stream): Stream {
    if |ps| == 1 then WritePattern(ps[0], binding, rest)
    else Mark(LPAREN, WritePatternTuple(st, ps, binding, Mark(RPAREN, rest)))
  }

  function WriteCase(st: Style, c: Case, rest: Stream): Stream
    decreases c, 1
  {
    WriteKey(st, c.patterns, c.binding, Mark(COLON, WriteExpr(st, c.value, rest)))
  }

  function WriteCaseList(st: Style, cases: seq<Case>, rest: Stream): Stream
    decreases cases, 2
  {
    if cases == [] then rest
    else WriteCase(st, cases[0], Comma(st, |cases| == 1, WriteCaseList(st, cases[1..], rest)))
  }

  function WriteStatement(st: Style, s: Statement, rest: Stream): (ts: Stream)
    ensures ts.Kind() == IDENT
  {
    match s
    case Assignment(name, value, append) =>
      Word(name, Mark(if append then PLUSEQ else EQUALS, WriteExpr(st, value, rest)))
    case Module(kind, properties) =>
      Word(kind, Mark(LBRACE, WriteEntries(st, properties, Mark(RBRACE, rest))))
  }

  function WriteFile(st: Style, file: seq<Statement>, rest: Stream): Stream {
    if file == [] then rest else WriteStatement(st, file[0], WriteFile(st, file[1..], rest))
  }
}
