/** What the tokenizer reads at the head of a text, character by character: white space,
    comments, strings with their escapes, numbers, identifiers and marks. */
module BlueprintLexicon {
  import opened BlueprintGrammar
  import opened BlueprintTokens
  import opened Options

  predicate Opens(s: string, a: char, b: char) {
    |s| >= 2 && s[0] == a && s[1] == b
  }

  predicate Blank(c: char) {
    c == ' ' || c == '\t' || c == '\r' || c == '\n'
  }

  /** The comment runs to the end of the line, or of the text. */
  ghost predicate LineCommentOf(s: string, w: nat) {
    && Opens(s, '/', '/')
    && 2 <= w <= |s|
    && (forall k :: 2 <= k < w ==> s[k] != '\n')
    && (w < |s| ==> s[w] == '\n')
  }

  predicate Closes(s: string, k: nat) {
    k + 1 < |s| && s[k] == '*' && s[k + 1] == '/'
  }

  /** The comment runs to the first terminator after its opening. */
  ghost predicate BlockCommentOf(s: string, w: nat) {
    && Opens(s, '/', '*')
    && 4 <= w <= |s|
    && Closes(s, w - 2)
    && forall k :: 2 <= k < w - 2 ==> !Closes(s, k)
  }

  /** What a backslash in front of `c` stands for. */
  predicate Escapes(c: char, meant: char) {
    || (c == 'n' && meant == '\n')
    || (c == 't' && meant == '\t')
    || (c != 'n' && c != 't' && meant == c)
  }

  /** `body`, between quotes, is a literal of value `v`. */
  predicate Quotes(body: string, v: string) {
    if body == [] || v == [] then body == [] && v == []
    else if body[0] == '\\' then |body| >= 2 && Escapes(body[1], v[0]) && Quotes(body[2..], v[1..])
    else body[0] != '"' && v[0] == body[0] && Quotes(body[1..], v[1..])
  }

  /** The text opens with a quoted literal of value v and w characters. */
  predicate LiteralOf(s: string, v: string, w: nat) {
    2 <= w <= |s| && s[0] == '"' && s[w - 1] == '"' && Quotes(s[1..w - 1], v)
  }

  /** All the digits that follow the first character, which is a digit or the sign of one. */
  predicate NumberOf(cc: CharClasses, s: string, w: nat) {
    && 1 <= w <= |s|
    && (s[0] in cc.digit || (s[0] == '-' && w >= 2))
    && (forall k :: 1 <= k < w ==> s[k] in cc.digit)
    && (w < |s| ==> s[w] !in cc.digit)
  }

  predicate InsideName(cc: CharClasses, c: char) {
    c in cc.alnum || c == '_' || c == '.' || c == '-'
  }

  predicate NameOf(cc: CharClasses, s: string, w: nat) {
    && 1 <= w <= |s|
    && (s[0] in cc.alpha || s[0] == '_')
    && (forall k :: 0 <= k < w ==> InsideName(cc, s[k]))
    && (w < |s| ==> !InsideName(cc, s[w]))
  }

  predicate MarkOf(c: char, kind: Kind) {
    || (c == '{' && kind == LBRACE)
    || (c == '}' && kind == RBRACE)
    || (c == '[' && kind == LBRACK)
    || (c == ']' && kind == RBRACK)
    || (c == '(' && kind == LPAREN)
    || (c == ')' && kind == RPAREN)
    || (c == ':' && kind == COLON)
    || (c == ',' && kind == COMMA)
    || (c == '+' && kind == PLUS)
    || (c == '=' && kind == EQUALS)
    || (c == '@' && kind == AT)
  }

  ghost predicate TokenOf(cc: CharClasses, s: string, x: Lexeme, w: nat)
    requires s != []
  {
    match x.kind
    case STRING => LiteralOf(s, x.value, w)
    case NUMBER => NumberOf(cc, s, w) && x.value == s[..w]
    case IDENT => NameOf(cc, s, w) && x.value == s[..w]
    case PLUSEQ => Opens(s, '+', '=') && w == 2 && x.value == "+="
    case PLUS => s[0] == '+' && !Opens(s, '+', '=') && w == 1 && x.value == "+"
    case _ => MarkOf(s[0], x.kind) && w == 1 && x.value == [s[0]]
  }

  /** Nothing Blueprint writes begins this way. */
  predicate Foreign(cc: CharClasses, s: string)
    requires s != []
  {
    && !Blank(s[0]) && s[0] != '"' && s[0] !in "{}[]():,+=@"
    && !Opens(s, '/', '/') && !Opens(s, '/', '*')
    && s[0] !in cc.digit && !(s[0] == '-' && |s| >= 2 && s[1] in cc.digit)
    && s[0] !in cc.alpha && s[0] != '_'
  }

  /** What the head of a text is. */
  ghost predicate HeadOf(cc: CharClasses, s: string, step: Scan)
    requires s != []
  {
    match step
    case Skip(w) => (Blank(s[0]) && w == 1) || LineCommentOf(s, w) || BlockCommentOf(s, w)
    case Emit(x, w) => TokenOf(cc, s, x, w)
    case Bad(UnterminatedComment) => Opens(s, '/', '*') && forall k :: 2 <= k ==> !Closes(s, k)
    case Bad(UnterminatedString) => s[0] == '"' && forall v, w: nat :: !LiteralOf(s, v, w)
    case Bad(UnexpectedCharacter) => Foreign(cc, s)
  }

  // Runs of characters

  lemma {:induction false} SpanExactlyWhen(s: string, cs: set<char>, n: nat)
    ensures Span(s, cs) == n <==>
              && n <= |s|
              && (forall k :: 0 <= k < n ==> s[k] in cs)
              && (n < |s| ==> s[n] !in cs)
  {
    if s != [] && s[0] in cs && n > 0 {
      SpanExactlyWhen(s[1..], cs, n - 1);
      assert forall k :: 1 <= k < n && k < |s| ==> s[k] == s[1..][k - 1];
      assert forall k :: 0 <= k < n - 1 && k < |s| - 1 ==> s[1..][k] == s[k + 1];
    }
  }

  lemma {:induction false} LineEndExactlyWhen(s: string, n: nat)
    ensures LineEnd(s) == n <==>
              && n <= |s|
              && (forall k :: 0 <= k < n ==> s[k] != '\n')
              && (n < |s| ==> s[n] == '\n')
  {
    if s != [] && s[0] != '\n' && n > 0 {
      LineEndExactlyWhen(s[1..], n - 1);
      assert forall k :: 1 <= k < n && k < |s| ==> s[k] == s[1..][k - 1];
      assert forall k :: 0 <= k < n - 1 && k < |s| - 1 ==> s[1..][k] == s[k + 1];
    }
  }

  lemma {:induction false} CommentEndExactlyWhen(s: string, n: nat)
    ensures CommentEnd(s) == n <==>
              && n <= |s|
              && (forall k :: 0 <= k < n ==> !Closes(s, k))
              && (n < |s| ==> Closes(s, n))
  {
    if s != [] && !Closes(s, 0) && n > 0 {
      CommentEndExactlyWhen(s[1..], n - 1);
      assert forall k :: 1 <= k ==> Closes(s, k) == Closes(s[1..], k - 1);
      assert forall k: nat :: Closes(s[1..], k) == Closes(s, k + 1);
    }
  }

  // Literals

  /** The scan of a literal's body finds its value, when it has one. */
  lemma {:induction false} QuotesScanned(s: string, v: string, n: nat)
    requires n < |s| && s[n] == '"' && Quotes(s[..n], v)
    ensures StringBody(s) == (v, n)
  {
    if n > 0 {
      var step := if s[0] == '\\' then 2 else 1;
      assert s[..n][step..] == s[step..][..n - step];
      QuotesScanned(s[step..], v[1..], n - step);
      assert v == [v[0]] + v[1..];
    }
  }

  /** A scan that stops at a quote has read a literal's body. */
  lemma {:induction false} ScannedQuotes(s: string)
    ensures var (v, n) := StringBody(s);
            n < |s| ==> s[n] == '"' && Quotes(s[..n], v)
  {
    var (v, n) := StringBody(s);
    if s != [] && s[0] != '"' && n < |s| {
      var step := if s[0] == '\\' && 1 < |s| then 2 else 1;
      ScannedQuotes(s[step..]);
      assert s[..n][step..] == s[step..][..n - step];
      assert v[1..] == StringBody(s[step..]).0;
    }
  }

  lemma StringExactlyWhen(cc: CharClasses, s: string, step: Scan)
    requires cc.Valid() && s != [] && s[0] == '"'
    ensures ScanString(s) == step <==> HeadOf(cc, s, step)
  {
    var (v, n) := StringBody(s[1..]);
    ScannedQuotes(s[1..]);
    forall u, w: nat | LiteralOf(s, u, w)
      ensures u == v && w == n + 2 && w <= |s|
    {
      assert s[1..w - 1] == s[1..][..w - 2];
      QuotesScanned(s[1..], u, w - 2);
    }
    if n + 1 < |s| {
      assert s[1..][..n] == s[1..n + 1];
      assert LiteralOf(s, v, n + 2);
    }
  }

  // Comments

  lemma LineCommentExactlyWhen(cc: CharClasses, s: string, step: Scan)
    requires cc.Valid() && Opens(s, '/', '/')
    ensures ScanLineComment(s) == step <==> HeadOf(cc, s, step)
  {
    if step.Skip? && step.width >= 2 {
      var w := step.width;
      LineEndExactlyWhen(s[2..], w - 2);
      assert forall k :: 2 <= k < |s| ==> s[k] == s[2..][k - 2];
      assert forall k :: 0 <= k < |s| - 2 ==> s[2..][k] == s[k + 2];
    }
  }

  lemma BlockCommentExactlyWhen(cc: CharClasses, s: string, step: Scan)
    requires cc.Valid() && Opens(s, '/', '*')
    ensures ScanBlockComment(s) == step <==> HeadOf(cc, s, step)
  {
    assert forall k :: 2 <= k ==> Closes(s, k) == Closes(s[2..], k - 2);
    assert forall k: nat :: Closes(s[2..], k) == Closes(s, k + 2);
    CommentEndExactlyWhen(s[2..], |s| - 2);
    if step.Skip? && step.width >= 4 {
      CommentEndExactlyWhen(s[2..], step.width - 4);
    }
  }

  // Words

  lemma WordExactlyWhen(cc: CharClasses, s: string, step: Scan)
    requires cc.Valid() && s != []
    requires !Blank(s[0]) && s[0] != '"' && s[0] !in "{}[]():,+=@"
    requires !Opens(s, '/', '/') && !Opens(s, '/', '*')
    ensures ScanWord(cc, s) == step <==> HeadOf(cc, s, step)
  {
    if step.Emit? && step.width >= 1 {
      var w := step.width;
      SpanExactlyWhen(s[1..], cc.digit, w - 1);
      assert forall k :: 1 <= k < |s| ==> s[k] == s[1..][k - 1];
      assert forall k :: 0 <= k < |s| - 1 ==> s[1..][k] == s[k + 1];
      SpanExactlyWhen(s, cc.IdentPart(), w);
    }
  }

  lemma MarksTable(c: char, kind: Kind)
    ensures Punctuation(c) == Some(kind) <==> MarkOf(c, kind)
    ensures Punctuation(c).Some? <==> c in "{}[]():,+=@"
  {
  }

  lemma MarkIsNoWord(cc: CharClasses, c: char)
    requires cc.Valid() && c in "{}[]():,+=@"
    ensures c !in cc.digit && c !in cc.alpha && !Blank(c) && c != '"' && c != '/' && c != '-' && c != '_'
  {
  }

  lemma MarkScanned(cc: CharClasses, s: string)
    requires cc.Valid() && s != [] && Punctuation(s[0]).Some?
    ensures ScanOne(cc, s) == if Opens(s, '+', '=') then Emit(Lexeme(PLUSEQ, "+="), 2)
                              else Emit(Lexeme(Punctuation(s[0]).value, [s[0]]), 1)
  {
    hide ScanWord;
    hide ScanString;
    hide ScanLineComment;
    hide ScanBlockComment;
  }

  lemma MarkExactlyWhen(cc: CharClasses, s: string, step: Scan)
    requires cc.Valid() && s != []
    requires s[0] in "{}[]():,+=@"
    ensures ScanOne(cc, s) == step <==> HeadOf(cc, s, step)
  {
    hide ScanOne;
    hide Punctuation;
    hide CharClasses.Valid;
    MarksTable(s[0], PLUS);
    MarkScanned(cc, s);
    MarkIsNoWord(cc, s[0]);
    if step.Emit? {
      MarksTable(s[0], step.lexeme.kind);
    }
  }

  /** The tokenizer's turn is exactly what the head of the text is. */
  lemma ScanExactlyWhen(cc: CharClasses, s: string, step: Scan)
    requires cc.Valid() && s != []
    ensures ScanOne(cc, s) == step <==> HeadOf(cc, s, step)
  {
    if s[0] == '"' {
      StringExactlyWhen(cc, s, step);
    } else if Opens(s, '/', '/') {
      LineCommentExactlyWhen(cc, s, step);
    } else if Opens(s, '/', '*') {
      BlockCommentExactlyWhen(cc, s, step);
    } else if !Blank(s[0]) && s[0] !in "{}[]():,+=@" {
      WordExactlyWhen(cc, s, step);
    } else if !Blank(s[0]) {
      MarkExactlyWhen(cc, s, step);
    }
  }

  // Numbers

  function Power(n: nat): nat {
    if n == 0 then 1 else 10 * Power(n - 1)
  }

  predicate Decimals(v: string) {
    forall k :: 0 <= k < |v| ==> '0' <= v[k] <= '9'
  }

  function Worth(c: char): nat
    requires '0' <= c <= '9'
  {
    c as int - '0' as int
  }

  /** The number a string of decimal digits writes, read from its front. */
  function Weight(v: string): nat
    requires Decimals(v)
  {
    if v == [] then 0 else Worth(v[0]) * Power(|v| - 1) + Weight(v[1..])
  }

  lemma {:induction false} WeightOfLast(v: string, c: char)
    requires Decimals(v) && '0' <= c <= '9'
    ensures Decimals(v + [c]) && Weight(v + [c]) == 10 * Weight(v) + Worth(c)
  {
    var u := v + [c];
    if v != [] {
      assert u[1..] == v[1..] + [c];
      WeightOfLast(v[1..], c);
      Scaled(Worth(v[0]), Power(|v| - 1));
    } else {
      assert u == [c];
      assert Weight(u[1..]) == 0;
    }
  }

  lemma Scaled(a: nat, b: nat)
    ensures a * (10 * b) == 10 * (a * b)
  {
  }

  lemma DigitWorth(cc: CharClasses, c: char)
    requires cc.Valid() && '0' <= c <= '9'
    ensures c in cc.value && cc.value[c] == Worth(c)
  {
    assert DIGITS[Worth(c)] == c;
  }

  lemma {:induction false} DigitsWeigh(cc: CharClasses, v: string)
    requires cc.Valid() && Decimals(v)
    ensures Digits(cc, v) == Some(Weight(v))
  {
    if v != [] {
      var front := v[..|v| - 1];
      var c := v[|v| - 1];
      assert v == front + [c];
      DigitsWeigh(cc, front);
      DigitWorth(cc, c);
      WeightOfLast(front, c);
    }
  }

  /** A number is worth what its decimal digits say, under its sign. */
  lemma NumberWorth(cc: CharClasses, v: string)
    requires cc.Valid() && Decimals(v)
    ensures Number(cc, v) == Some(Weight(v) as int)
    ensures Number(cc, "-" + v) == Some(-(Weight(v) as int))
  {
    DigitsWeigh(cc, v);
    assert ("-" + v)[1..] == v;
  }
}
