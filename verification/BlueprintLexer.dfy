/** The tokenizer loop: an offset, a line and a column advanced in step. */
module BlueprintLexer {
  import opened BlueprintTokens

  /** Steps over `count` characters, keeping line and column up to date. */
  method Advance(text: string, i: nat, line: nat, col: nat, count: nat)
    returns (i': nat, line': nat, col': nat)
    requires i + count <= |text|
    requires line == LineAt(text, i) && col == ColAt(text, i)
    ensures i' == i + count
    ensures line' == LineAt(text, i') && col' == ColAt(text, i')
  {
    i', line', col' := i, line, col;
    for k := 0 to count
      invariant i' == i + k
      invariant line' == LineAt(text, i') && col' == ColAt(text, i')
    {
      if text[i'] == '\n' {
        line', col' := line' + 1, 1;
      } else {
        col' := col' + 1;
      }
      i' := i' + 1;
    }
  }

  method SkipLine(text: string, i: nat, line: nat, col: nat)
    returns (i': nat, line': nat, col': nat)
    requires i <= |text|
    requires line == LineAt(text, i) && col == ColAt(text, i)
    ensures i' == i + LineEnd(text[i..])
    ensures line' == LineAt(text, i') && col' == ColAt(text, i')
  {
    i', line', col' := i, line, col;
    while i' < |text| && text[i'] != '\n'
      invariant i <= i' <= |text|
      invariant i + LineEnd(text[i..]) == i' + LineEnd(text[i'..])
      invariant line' == LineAt(text, i') && col' == ColAt(text, i')
    {
      i', line', col' := Advance(text, i', line', col', 1);
    }
  }

  method SkipComment(text: string, i: nat, line: nat, col: nat)
    returns (i': nat, line': nat, col': nat)
    requires i <= |text|
    requires line == LineAt(text, i) && col == ColAt(text, i)
    ensures i' == i + CommentEnd(text[i..])
    ensures line' == LineAt(text, i') && col' == ColAt(text, i')
  {
    i', line', col' := i, line, col;
    while i' < |text| && !(text[i'] == '*' && i' + 1 < |text| && text[i' + 1] == '/')
      invariant i <= i' <= |text|
      invariant i + CommentEnd(text[i..]) == i' + CommentEnd(text[i'..])
      invariant line' == LineAt(text, i') && col' == ColAt(text, i')
    {
      i', line', col' := Advance(text, i', line', col', 1);
    }
  }

  lemma StringBodyStep(text: string, i: nat)
    requires i < |text| && text[i] != '"'
    ensures var step := if text[i] == '\\' && i + 1 < |text| then 2 else 1;
            var c := if step == 2 then Unescape(text[i + 1]) else text[i];
            var (v, w) := StringBody(text[i + step..]);
            StringBody(text[i..]) == ([c] + v, w + step)
  {
    assert text[i..][1..] == text[i + 1..];
    if i + 1 < |text| {
      assert text[i..][2..] == text[i + 2..];
    }
  }

  lemma MoveFront<T>(front: seq<T>, x: T, back: seq<T>)
    ensures front + ([x] + back) == (front + [x]) + back
  {
  }

  /** The body of a string literal, from just after its opening quote. */
  method StringLiteral(text: string, i: nat, line: nat, col: nat)
    returns (value: string, i': nat, line': nat, col': nat)
    requires i <= |text|
    requires line == LineAt(text, i) && col == ColAt(text, i)
    ensures (value, i' - i) == StringBody(text[i..])
    ensures line' == LineAt(text, i') && col' == ColAt(text, i')
  {
    i', line', col' := i, line, col;
    value := "";
    ghost var (body, width) := StringBody(text[i..]);
    while i' < |text| && text[i'] != '"'
      invariant i <= i' <= |text|
      invariant body == value + StringBody(text[i'..]).0
      invariant i + width == i' + StringBody(text[i'..]).1
      invariant line' == LineAt(text, i') && col' == ColAt(text, i')
    {
      StringBodyStep(text, i');
      var step := if text[i'] == '\\' && i' + 1 < |text| then 2 else 1;
      var c := if step == 2 then Unescape(text[i' + 1]) else text[i'];
      MoveFront(value, c, StringBody(text[i' + step..]).0);
      value := value + [c];
      i', line', col' := Advance(text, i', line', col', step);
    }
    assert value + "" == value;
  }

  method ScanSpan(text: string, i: nat, cs: set<char>) returns (j: nat)
    requires i <= |text|
    ensures j == i + Span(text[i..], cs)
  {
    j := i;
    while j < |text| && text[j] in cs
      invariant i <= j <= |text|
      invariant i + Span(text[i..], cs) == j + Span(text[j..], cs)
    {
      j := j + 1;
    }
  }

  method LineComment(text: string, i: nat, line: nat, col: nat)
    returns (step: Scan, i': nat, line': nat, col': nat)
    requires i + 2 <= |text|
    requires line == LineAt(text, i) && col == ColAt(text, i)
    ensures step == ScanLineComment(text[i..])
    ensures i' == i + step.width && line' == LineAt(text, i') && col' == ColAt(text, i')
  {
    assert text[i..][2..] == text[i + 2..];
    i', line', col' := Advance(text, i, line, col, 2);
    i', line', col' := SkipLine(text, i', line', col');
    step := Skip(i' - i);
  }

  method BlockComment(text: string, i: nat, line: nat, col: nat)
    returns (step: Scan, i': nat, line': nat, col': nat)
    requires i + 2 <= |text|
    requires line == LineAt(text, i) && col == ColAt(text, i)
    ensures step == ScanBlockComment(text[i..])
    ensures step.Skip? ==> i' == i + step.width && line' == LineAt(text, i') && col' == ColAt(text, i')
  {
    assert text[i..][2..] == text[i + 2..];
    i', line', col' := Advance(text, i, line, col, 2);
    i', line', col' := SkipComment(text, i', line', col');
    if i' >= |text| {
      step := Bad(UnterminatedComment);
    } else {
      i', line', col' := Advance(text, i', line', col', 2);
      step := Skip(i' - i);
    }
  }

  method QuotedString(text: string, i: nat, line: nat, col: nat)
    returns (step: Scan, i': nat, line': nat, col': nat)
    requires i < |text|
    requires line == LineAt(text, i) && col == ColAt(text, i)
    ensures step == ScanString(text[i..])
    ensures step.Emit? ==> i' == i + step.width && line' == LineAt(text, i') && col' == ColAt(text, i')
  {
    assert text[i..][1..] == text[i + 1..];
    i', line', col' := Advance(text, i, line, col, 1);
    var value;
    value, i', line', col' := StringLiteral(text, i', line', col');
    if i' >= |text| {
      step := Bad(UnterminatedString);
    } else {
      i', line', col' := Advance(text, i', line', col', 1);
      step := Emit(Lexeme(STRING, value), i' - i);
    }
  }

  method Word(cc: CharClasses, text: string, i: nat) returns (step: Scan)
    requires i < |text|
    requires cc.alpha <= cc.alnum
    ensures step == ScanWord(cc, text[i..])
  {
    var c := text[i];
    assert text[i..][1..] == text[i + 1..];
    if c in cc.digit || (c == '-' && i + 1 < |text| && text[i + 1] in cc.digit) {
      var j := ScanSpan(text, i + 1, cc.digit);
      assert text[i..][..j - i] == text[i..j];
      step := Emit(Lexeme(NUMBER, text[i..j]), j - i);
    } else if cc.IdentStart(c) {
      var j := ScanSpan(text, i, cc.IdentPart());
      assert text[i..][..j - i] == text[i..j];
      step := Emit(Lexeme(IDENT, text[i..j]), j - i);
    } else {
      step := Bad(UnexpectedCharacter);
    }
  }

  /** One turn of the main loop: consumes what `ScanOne` describes. */
  method Turn(cc: CharClasses, text: string, i: nat, line: nat, col: nat)
    returns (step: Scan, i': nat, line': nat, col': nat)
    requires i < |text|
    requires cc.alpha <= cc.alnum
    requires line == LineAt(text, i) && col == ColAt(text, i)
    ensures step == ScanOne(cc, text[i..])
    ensures !step.Bad? ==> i' == i + step.width && line' == LineAt(text, i') && col' == ColAt(text, i')
  {
    var c := text[i];
    if c in WHITESPACE {
      step := Skip(1);
      i', line', col' := Advance(text, i, line, col, 1);
    } else if c == '/' && i + 1 < |text| && text[i + 1] == '/' {
      step, i', line', col' := LineComment(text, i, line, col);
    } else if c == '/' && i + 1 < |text| && text[i + 1] == '*' {
      step, i', line', col' := BlockComment(text, i, line, col);
    } else if c == '"' {
      step, i', line', col' := QuotedString(text, i, line, col);
    } else if c == '+' && i + 1 < |text| && text[i + 1] == '=' {
      step := Emit(Lexeme(PLUSEQ, "+="), 2);
      i', line', col' := Advance(text, i, line, col, 2);
    } else if Punctuation(c).Some? {
      step := Emit(Lexeme(Punctuation(c).value, [c]), 1);
      i', line', col' := Advance(text, i, line, col, 1);
    } else {
      step := Word(cc, text, i);
      i', line', col' := i, line, col;
      if step.Emit? {
        i', line', col' := Advance(text, i, line, col, step.width);
      }
    }
  }

  lemma PrependTwice<T>(a: seq<T>, b: seq<T>, r: LexResult<seq<T>>)
    ensures Prepend(a, Prepend(b, r)) == Prepend(a + b, r)
    ensures Prepend([], r) == r
  {
    if r.Lexed? {
      assert a + (b + r.tokens) == (a + b) + r.tokens;
      assert [] + r.tokens == r.tokens;
    }
  }

  method Tokenize(cc: CharClasses, text: string) returns (r: LexResult<seq<Token>>)
    requires cc.alpha <= cc.alnum
    ensures r == Lex(cc, text, 0)
  {
    var tokens: seq<Token> := [];
    var i, line, col := 0, 1, 1;
    ghost var all := Lex(cc, text, 0);
    PrependTwice([], [], all);
    while i < |text|
      invariant i <= |text|
      invariant line == LineAt(text, i) && col == ColAt(text, i)
      invariant all == Prepend(tokens, Lex(cc, text, i))
    {
      var startLine, startCol := line, col;
      var step;
      step, i, line, col := Turn(cc, text, i, line, col);
      match step
      case Bad(reason) => return LexError(reason, startLine, startCol);
      case Skip(_) =>
      case Emit(lexeme, _) =>
        var token := Token(lexeme, startLine, startCol);
        PrependTwice(tokens, [token], Lex(cc, text, i));
        tokens := tokens + [token];
    }
    return Lexed(tokens + [Token(Lexeme(EOF, ""), line, col)]);
  }
}
