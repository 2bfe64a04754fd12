/** The token language of Blueprint files and what one scanning step consumes.

    `Scan` describes one turn of the tokenizer's main loop on the remaining text;
    `Lex` chains the turns and stamps each token with its line and column. */
module BlueprintTokens {
  import opened Options

  datatype Kind =
    | IDENT | STRING | NUMBER
    | LBRACE | RBRACE | LBRACK | RBRACK | LPAREN | RPAREN
    | COLON | COMMA | PLUS | EQUALS | PLUSEQ | AT | EOF

  datatype Lexeme = Lexeme(kind: Kind, value: string)

  datatype Token = Token(lexeme: Lexeme, line: nat, col: nat)

  datatype Reason = UnterminatedComment | UnterminatedString | UnexpectedCharacter

  datatype LexResult<+T> =
    | Lexed(tokens: T)
    | LexError(reason: Reason, line: nat, col: nat)

  /** Python's Unicode character classes: `isalpha`, `isalnum`, `isdigit`, and the
      decimal value `int()` gives a digit (some digits, such as superscripts, have none).
      Only their ASCII part is fixed. */
  datatype CharClasses = CharClasses(alpha: set<char>, alnum: set<char>, digit: set<char>, value: map<char, nat>)
  {
    ghost predicate Valid() {
      && alpha + digit <= alnum
      && alpha !! digit
      && value.Keys <= digit
      && (forall c :: c in value ==> value[c] <= 9)
      && (forall d: nat :: d < 10 ==> DIGITS[d] in value && value[DIGITS[d]] == d)
      && (forall c :: 'a' <= c <= 'z' || 'A' <= c <= 'Z' ==> c in alpha)
      && (forall c :: c in alnum && (c as int) < 128 ==> 'a' <= c <= 'z' || 'A' <= c <= 'Z' || '0' <= c <= '9')
    }

    predicate IdentStart(c: char) { c in alpha || c == '_' }

    function IdentPart(): set<char> { alnum + {'_', '.', '-'} }
  }

  const DIGITS := "0123456789"
  const WHITESPACE := {' ', '\t', '\r', '\n'}

  /** The one-character tokens. */
  function Punctuation(c: char): (k: Option<Kind>)
  {
    match c
    case '{' => Some(LBRACE)
    case '}' => Some(RBRACE)
    case '[' => Some(LBRACK)
    case ']' => Some(RBRACK)
    case '(' => Some(LPAREN)
    case ')' => Some(RPAREN)
    case ':' => Some(COLON)
    case ',' => Some(COMMA)
    case '+' => Some(PLUS)
    case '=' => Some(EQUALS)
    case '@' => Some(AT)
    case _ => None
  }

  /** How many leading characters of s lie in cs. */
  function Span(s: string, cs: set<char>): (n: nat)
    ensures n <= |s|
  {
    if s == [] || s[0] !in cs then 0 else 1 + Span(s[1..], cs)
  }

  /** How many characters precede the first newline, or the end. */
  function LineEnd(s: string): (n: nat)
    ensures n <= |s|
  {
    if s == [] || s[0] == '\n' then 0 else 1 + LineEnd(s[1..])
  }

  /** How many characters precede the first comment terminator, or the end. */
  function CommentEnd(s: string): (n: nat)
    ensures n <= |s|
    ensures n < |s| ==> n + 1 < |s| && s[n] == '*' && s[n + 1] == '/'
  {
    if s == [] || (s[0] == '*' && 1 < |s| && s[1] == '/') then 0 else 1 + CommentEnd(s[1..])
  }

  function Unescape(c: char): char {
    if c == 'n' then '\n' else if c == 't' then '\t' else c
  }

  /** The contents of a string literal whose opening quote is just before s, and
      how many characters precede its closing quote, or the end. */
  function StringBody(s: string): (r: (string, nat))
    ensures r.1 <= |s|
  {
    if s == [] || s[0] == '"' then ("", 0)
    else if s[0] == '\\' && 1 < |s| then
      var (v, w) := StringBody(s[2..]);
      ([Unescape(s[1])] + v, w + 2)
    else
      var (v, w) := StringBody(s[1..]);
      ([s[0]] + v, w + 1)
  }

  datatype Scan =
    | Skip(width: nat)
    | Emit(lexeme: Lexeme, width: nat)
    | Bad(reason: Reason)

  function ScanLineComment(s: string): (r: Scan)
    requires 2 <= |s|
    ensures r.Skip? && 0 < r.width <= |s|
  {
    Skip(2 + LineEnd(s[2..]))
  }

  function ScanBlockComment(s: string): (r: Scan)
    requires 2 <= |s|
    ensures !r.Emit? && (r.Skip? ==> 0 < r.width <= |s|)
  {
    var w := CommentEnd(s[2..]);
    if w == |s| - 2 then Bad(UnterminatedComment) else Skip(w + 4)
  }

  function ScanString(s: string): (r: Scan)
    requires 1 <= |s|
    ensures !r.Skip? && (r.Emit? ==> r.lexeme.kind == STRING && 0 < r.width <= |s|)
  {
    var (v, w) := StringBody(s[1..]);
    if w == |s| - 1 then Bad(UnterminatedString) else Emit(Lexeme(STRING, v), w + 2)
  }

  predicate StartsNumber(cc: CharClasses, s: string)
    requires s != []
  {
    s[0] in cc.digit || (s[0] == '-' && 1 < |s| && s[1] in cc.digit)
  }

  function ScanWord(cc: CharClasses, s: string): (r: Scan)
    requires s != []
    requires cc.alpha <= cc.alnum
    ensures !r.Skip? && (r.Emit? ==> r.lexeme.kind in {NUMBER, IDENT} && 0 < r.width <= |s|)
  {
    if StartsNumber(cc, s) then
      var w := 1 + Span(s[1..], cc.digit);
      Emit(Lexeme(NUMBER, s[..w]), w)
    else if cc.IdentStart(s[0]) then
      var w := Span(s, cc.IdentPart());
      Emit(Lexeme(IDENT, s[..w]), w)
    else Bad(UnexpectedCharacter)
  }

  /** What the tokenizer consumes at the head of the remaining text. */
  function ScanOne(cc: CharClasses, s: string): (r: Scan)
    requires s != []
    requires cc.alpha <= cc.alnum
    ensures !r.Bad? ==> 0 < r.width <= |s|
    ensures r.Emit? ==> r.lexeme.kind != EOF
  {
    var c := s[0];
    if c in WHITESPACE then Skip(1)
    else if c == '/' && 1 < |s| && s[1] == '/' then ScanLineComment(s)
    else if c == '/' && 1 < |s| && s[1] == '*' then ScanBlockComment(s)
    else if c == '"' then ScanString(s)
    else if c == '+' && 1 < |s| && s[1] == '=' then Emit(Lexeme(PLUSEQ, "+="), 2)
    else if Punctuation(c).Some? then Emit(Lexeme(Punctuation(c).value, [c]), 1)
    else ScanWord(cc, s)
  }

  /** One plus the number of newlines before position i. */
  function LineAt(text: string, i: nat): (line: nat)
    requires i <= |text|
  {
    if i == 0 then 1 else LineAt(text, i - 1) + (if text[i - 1] == '\n' then 1 else 0)
  }

  /** One plus the number of characters since the last newline before position i. */
  function ColAt(text: string, i: nat): (col: nat)
    requires i <= |text|
    ensures 1 <= col <= i + 1
  {
    if i == 0 || text[i - 1] == '\n' then 1 else ColAt(text, i - 1) + 1
  }

  /** The tokens of text[i..], each with the position it starts at. */
  function Lex(cc: CharClasses, text: string, i: nat): (r: LexResult<seq<Token>>)
    requires i <= |text|
    requires cc.alpha <= cc.alnum
    decreases |text| - i
  {
    if i == |text| then Lexed([Token(Lexeme(EOF, ""), LineAt(text, i), ColAt(text, i))])
    else
      match ScanOne(cc, text[i..])
      case Bad(reason) => LexError(reason, LineAt(text, i), ColAt(text, i))
      case Skip(w) => Lex(cc, text, i + w)
      case Emit(lexeme, w) => Prepend([Token(lexeme, LineAt(text, i), ColAt(text, i))], Lex(cc, text, i + w))
  }

  function Prepend<T>(front: seq<T>, r: LexResult<seq<T>>): LexResult<seq<T>> {
    if r.Lexed? then Lexed(front + r.tokens) else r
  }

  /** The same tokens without their positions. */
  function Lexemes(tokens: seq<Token>): (r: seq<Lexeme>)
    ensures |r| == |tokens|
    ensures forall k :: 0 <= k < |r| ==> r[k] == tokens[k].lexeme
  {
    seq(|tokens|, k requires 0 <= k < |tokens| => tokens[k].lexeme)
  }

  /** `LineAt` counts newlines. */
  lemma {:induction false} LineCountsNewlines(text: string, i: nat)
    requires i <= |text|
    ensures LineAt(text, i) == 1 + multiset(text[..i])['\n']
  {
    if i > 0 {
      LineCountsNewlines(text, i - 1);
      assert text[..i] == text[..i - 1] + [text[i - 1]];
    }
  }

  /** `ColAt` measures back to the last newline, or to the start of the text. */
  lemma {:induction false} ColumnMeasuresFromNewline(text: string, i: nat)
    requires i <= |text|
    ensures var start := i + 1 - ColAt(text, i);
            && '\n' !in text[start..i]
            && (start == 0 || text[start - 1] == '\n')
  {
    if i > 0 && text[i - 1] != '\n' {
      ColumnMeasuresFromNewline(text, i - 1);
      var start := i + 1 - ColAt(text, i);
      assert text[start..i] == text[start..i - 1] + [text[i - 1]];
    }
  }
}
