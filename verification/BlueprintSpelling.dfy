/** Writing tokens as text under any layout, and reading them back. */
module BlueprintSpelling {
  import opened BlueprintTokens
  import opened Options

  predicate IsIdent(cc: CharClasses, s: string) {
    s != [] && cc.IdentStart(s[0]) && forall c <- s :: c in cc.IdentPart()
  }

  predicate IsNumber(cc: CharClasses, s: string) {
    var digits := if s != [] && s[0] == '-' then s[1..] else s;
    digits != [] && forall c <- digits :: c in cc.digit
  }

  /** The tokens the tokenizer can emit before the end of file. */
  predicate Spellable(cc: CharClasses, x: Lexeme) {
    match x.kind
    case EOF => false
    case STRING => true
    case IDENT => IsIdent(cc, x.value)
    case NUMBER => IsNumber(cc, x.value)
    case PLUSEQ => x.value == "+="
    case _ => |x.value| == 1 && Punctuation(x.value[0]) == Some(x.kind)
  }

  function Escape(c: char): string {
    if c == '\n' then "\\n"
    else if c == '\t' then "\\t"
    else if c == '\\' then "\\\\"
    else if c == '"' then "\\\""
    else [c]
  }

  function EscapeAll(v: string): string {
    if v == [] then [] else Escape(v[0]) + EscapeAll(v[1..])
  }

  function Spell(x: Lexeme): string {
    if x.kind == STRING then "\"" + EscapeAll(x.value) + "\"" else x.value
  }

  /** What may stand between tokens. */
  datatype Trivia = Blank(c: char) | LineComment(body: string) | BlockComment(body: string)
  {
    ghost predicate Valid() {
      match this
      case Blank(c) => c in WHITESPACE
      case LineComment(body) => '\n' !in body
      case BlockComment(body) => forall k :: 0 <= k < |body| - 1 ==> !(body[k] == '*' && body[k + 1] == '/')
    }

    function Text(): string {
      match this
      case Blank(c) => [c]
      case LineComment(body) => "//" + body + "\n"
      case BlockComment(body) => "/*" + body + "*/"
    }
  }

  type Gap = seq<Trivia>

  ghost predicate ValidGap(gap: Gap) {
    forall k :: 0 <= k < |gap| ==> gap[k].Valid()
  }

  function GapText(gap: Gap): string {
    if gap == [] then [] else gap[0].Text() + GapText(gap[1..])
  }

  /** gaps[0] xs[0] gaps[1] xs[1] ... gaps[|xs|] */
  function Layout(gaps: seq<Gap>, xs: seq<Lexeme>): string
    requires |gaps| == |xs| + 1
  {
    if xs == [] then GapText(gaps[0])
    else GapText(gaps[0]) + Spell(xs[0]) + Layout(gaps[1..], xs[1..])
  }

  /** Whether text starting with c leaves a preceding x intact. */
  predicate Ends(cc: CharClasses, x: Lexeme, c: char) {
    match x.kind
    case IDENT => c !in cc.IdentPart()
    case NUMBER => c !in cc.digit
    case PLUS => c != '='
    case _ => true
  }

  predicate Apart(cc: CharClasses, gap: Gap, x: Lexeme, y: Lexeme) {
    gap != [] || (Spell(y) != [] && Ends(cc, x, Spell(y)[0]))
  }

  /** Neighbouring tokens that would run together are kept apart by a gap. */
  ghost predicate ValidLayout(cc: CharClasses, gaps: seq<Gap>, xs: seq<Lexeme>) {
    && |gaps| == |xs| + 1
    && (forall k :: 0 <= k < |gaps| ==> ValidGap(gaps[k]))
    && (forall k :: 0 <= k < |xs| ==> Spellable(cc, xs[k]))
    && (forall k :: 1 <= k < |xs| ==> Apart(cc, gaps[k], xs[k - 1], xs[k]))
  }

  /** `Lex` without positions. */
  function Read(cc: CharClasses, s: string): (r: Option<seq<Lexeme>>)
    requires cc.alpha <= cc.alnum
  {
    if s == [] then Some([Lexeme(EOF, "")])
    else
      match ScanOne(cc, s)
      case Bad(_) => None
      case Skip(w) => Read(cc, s[w..])
      case Emit(x, w) =>
        match Read(cc, s[w..])
        case None => None
        case Some(xs) => Some([x] + xs)
  }

  lemma {:induction false} LexReads(cc: CharClasses, text: string, i: nat)
    requires i <= |text|
    requires cc.alpha <= cc.alnum
    ensures var r := Lex(cc, text, i);
            Read(cc, text[i..]) == if r.Lexed? then Some(Lexemes(r.tokens)) else None
    decreases |text| - i
  {
    hide ScanOne;
    if i < |text| {
      var step := ScanOne(cc, text[i..]);
      if !step.Bad? {
        LexReads(cc, text, i + step.width);
        assert text[i..][step.width..] == text[i + step.width..];
        var r := Lex(cc, text, i + step.width);
        if step.Emit? && r.Lexed? {
          var token := Token(step.lexeme, LineAt(text, i), ColAt(text, i));
          assert Lexemes([token] + r.tokens) == [step.lexeme] + Lexemes(r.tokens);
        }
      }
    } else {
      assert Lexemes(Lex(cc, text, i).tokens) == [Lexeme(EOF, "")];
    }
  }

  // Scanning one spelled token

  lemma {:induction false} SpanExact(word: string, rest: string, cs: set<char>)
    requires forall c <- word :: c in cs
    requires rest == [] || rest[0] !in cs
    ensures Span(word + rest, cs) == |word|
  {
    if word == [] {
      assert word + rest == rest;
    } else {
      assert (word + rest)[1..] == word[1..] + rest;
      SpanExact(word[1..], rest, cs);
    }
  }

  lemma StringBodyEscape(c: char, tail: string)
    ensures var (v, w) := StringBody(tail);
            StringBody(Escape(c) + tail) == ([c] + v, |Escape(c)| + w)
  {
    var s := Escape(c) + tail;
    assert s[|Escape(c)|..] == tail;
  }

  lemma {:induction false} StringBodyExact(v: string, rest: string)
    ensures StringBody(EscapeAll(v) + "\"" + rest) == (v, |EscapeAll(v)|)
  {
    var s := EscapeAll(v) + "\"" + rest;
    if v != [] {
      var tail := EscapeAll(v[1..]) + "\"" + rest;
      assert s == Escape(v[0]) + tail;
      StringBodyExact(v[1..], rest);
      StringBodyEscape(v[0], tail);
      assert [v[0]] + v[1..] == v;
    }
  }

  lemma ScanQuoted(cc: CharClasses, v: string, rest: string)
    requires cc.Valid()
    ensures var w := "\"" + EscapeAll(v) + "\"";
            ScanOne(cc, w + rest) == Emit(Lexeme(STRING, v), |w|)
  {
    hide EscapeAll;
    var s := "\"" + EscapeAll(v) + "\"" + rest;
    StringBodyExact(v, rest);
    assert s[1..] == EscapeAll(v) + "\"" + rest;
  }

  lemma ScanIdent(cc: CharClasses, w: string, rest: string)
    requires cc.Valid()
    requires IsIdent(cc, w)
    requires rest == [] || rest[0] !in cc.IdentPart()
    ensures ScanOne(cc, w + rest) == Emit(Lexeme(IDENT, w), |w|)
  {
    var s := w + rest;
    SpanExact(w, rest, cc.IdentPart());
    WordStart(cc, w[0]);
    assert s[..|w|] == w;
    assert ScanOne(cc, s) == ScanWord(cc, s);
  }

  lemma ScanNumber(cc: CharClasses, w: string, rest: string)
    requires cc.Valid()
    requires IsNumber(cc, w)
    requires rest == [] || rest[0] !in cc.digit
    ensures ScanOne(cc, w + rest) == Emit(Lexeme(NUMBER, w), |w|)
  {
    var s := w + rest;
    assert forall c <- w[1..] :: c in w;
    SpanExact(w[1..], rest, cc.digit);
    assert s[1..] == w[1..] + rest;
    assert s[..|w|] == w;
    WordStart(cc, w[0]);
    if w[0] == '-' {
      assert s[1] == w[1..][0];
    }
    assert StartsNumber(cc, s);
    assert ScanOne(cc, s) == ScanWord(cc, s);
  }

  lemma ScanSpelled(cc: CharClasses, x: Lexeme, rest: string)
    requires cc.Valid()
    requires Spellable(cc, x)
    requires rest == [] || Ends(cc, x, rest[0])
    ensures Spell(x) != []
    ensures ScanOne(cc, Spell(x) + rest) == Emit(x, |Spell(x)|)
  {
    match x.kind
    case STRING => ScanQuoted(cc, x.value, rest);
    case IDENT => ScanIdent(cc, x.value, rest);
    case NUMBER => ScanNumber(cc, x.value, rest);
    case PLUSEQ =>
    case _ =>
  }

  /** Letters, digits, `_` and `-` start neither white space, comment, string nor punctuation. */
  lemma WordStart(cc: CharClasses, c: char)
    requires cc.Valid()
    requires c in cc.alnum || c == '_' || c == '-'
    ensures c !in WHITESPACE && c != '/' && c != '"' && Punctuation(c) == None
    ensures c == '_' || c == '-' ==> c !in cc.alnum
  {
  }

  // Skipping one gap

  lemma {:induction false} LineEndExact(body: string, rest: string)
    requires '\n' !in body
    ensures LineEnd(body + "\n" + rest) == |body|
  {
    if body != [] {
      assert (body + "\n" + rest)[1..] == body[1..] + "\n" + rest;
      LineEndExact(body[1..], rest);
    }
  }

  lemma {:induction false} CommentEndExact(body: string, rest: string)
    requires forall k :: 0 <= k < |body| - 1 ==> !(body[k] == '*' && body[k + 1] == '/')
    ensures CommentEnd(body + "*/" + rest) == |body|
  {
    var s := body + "*/" + rest;
    if body != [] {
      assert s[1..] == body[1..] + "*/" + rest;
      assert s[1] == if |body| > 1 then body[1] else '*';
      CommentEndExact(body[1..], rest);
    }
  }

  lemma SkipLineComment(cc: CharClasses, body: string, rest: string)
    requires cc.Valid()
    requires '\n' !in body
    ensures Read(cc, "//" + body + "\n" + rest) == Read(cc, rest)
  {
    var s := "//" + body + "\n" + rest;
    LineEndExact(body, rest);
    assert s[2..] == body + "\n" + rest;
    assert ScanOne(cc, s) == Skip(|body| + 2);
    var tail := "\n" + rest;
    assert s[|body| + 2..] == tail;
    assert ScanOne(cc, tail) == Skip(1);
    assert tail[1..] == rest;
  }

  lemma SkipBlockComment(cc: CharClasses, body: string, rest: string)
    requires cc.Valid()
    requires BlockComment(body).Valid()
    ensures Read(cc, "/*" + body + "*/" + rest) == Read(cc, rest)
  {
    var s := "/*" + body + "*/" + rest;
    CommentEndExact(body, rest);
    assert s[2..] == body + "*/" + rest;
    assert ScanOne(cc, s) == Skip(|body| + 4);
    assert s[|body| + 4..] == rest;
  }

  lemma SkipTrivia(cc: CharClasses, t: Trivia, rest: string)
    requires cc.Valid()
    requires t.Valid()
    ensures Read(cc, t.Text() + rest) == Read(cc, rest)
  {
    match t
    case Blank(c) =>
      assert (t.Text() + rest)[1..] == rest;
    case LineComment(body) => SkipLineComment(cc, body, rest);
    case BlockComment(body) => SkipBlockComment(cc, body, rest);
  }

  lemma {:induction false} SkipGap(cc: CharClasses, gap: Gap, rest: string)
    requires cc.Valid()
    requires ValidGap(gap)
    ensures Read(cc, GapText(gap) + rest) == Read(cc, rest)
  {
    if gap == [] {
      assert GapText(gap) + rest == rest;
    } else {
      SkipTrivia(cc, gap[0], GapText(gap[1..]) + rest);
      SkipGap(cc, gap[1..], rest);
      assert GapText(gap) + rest == gap[0].Text() + (GapText(gap[1..]) + rest);
    }
  }

  lemma GapEnds(cc: CharClasses, x: Lexeme, gap: Gap)
    requires cc.Valid()
    requires gap != [] && ValidGap(gap)
    ensures GapText(gap) != [] && Ends(cc, x, GapText(gap)[0])
  {
    var t := gap[0];
    assert t.Valid();
    assert t.Text() != [] && (t.Text()[0] in WHITESPACE || t.Text()[0] == '/');
    assert GapText(gap)[0] == t.Text()[0];
  }

  /** What follows the first token never extends it. */
  lemma LayoutEnds(cc: CharClasses, gaps: seq<Gap>, xs: seq<Lexeme>)
    requires cc.Valid()
    requires xs != [] && ValidLayout(cc, gaps, xs)
    ensures var rest := Layout(gaps[1..], xs[1..]);
            rest == [] || Ends(cc, xs[0], rest[0])
  {
    assert ValidGap(gaps[1]);
    if gaps[1] != [] {
      GapEnds(cc, xs[0], gaps[1]);
    }
  }

  lemma LayoutTail(cc: CharClasses, gaps: seq<Gap>, xs: seq<Lexeme>)
    requires xs != [] && ValidLayout(cc, gaps, xs)
    ensures ValidGap(gaps[0]) && Spellable(cc, xs[0])
    ensures ValidLayout(cc, gaps[1..], xs[1..])
  {
    forall k | 1 <= k < |xs[1..]|
      ensures Apart(cc, gaps[1..][k], xs[1..][k - 1], xs[1..][k])
    {
      assert Apart(cc, gaps[k + 1], xs[k], xs[k + 1]);
    }
  }

  lemma LayoutHead(gaps: seq<Gap>, xs: seq<Lexeme>)
    requires xs != [] && |gaps| == |xs| + 1
    ensures Layout(gaps, xs) == GapText(gaps[0]) + (Spell(xs[0]) + Layout(gaps[1..], xs[1..]))
  {
    assert forall a: string, b: string, c: string :: (a + b) + c == a + (b + c);
  }

  lemma ReadSpelled(cc: CharClasses, x: Lexeme, rest: string, xs: seq<Lexeme>)
    requires cc.Valid()
    requires Spellable(cc, x)
    requires rest == [] || Ends(cc, x, rest[0])
    requires Read(cc, rest) == Some(xs)
    ensures Read(cc, Spell(x) + rest) == Some([x] + xs)
  {
    var s := Spell(x) + rest;
    ScanSpelled(cc, x, rest);
    assert s[|Spell(x)|..] == rest;
  }

  lemma ReadEmptyLayout(cc: CharClasses, gap: Gap)
    requires cc.Valid()
    requires ValidGap(gap)
    ensures Read(cc, GapText(gap)) == Some([Lexeme(EOF, "")])
  {
    SkipGap(cc, gap, "");
    assert GapText(gap) + "" == GapText(gap);
  }

  lemma ReadLayoutStep(cc: CharClasses, gaps: seq<Gap>, xs: seq<Lexeme>, tail: seq<Lexeme>)
    requires cc.Valid()
    requires xs != [] && ValidLayout(cc, gaps, xs)
    requires Read(cc, Layout(gaps[1..], xs[1..])) == Some(tail)
    ensures Read(cc, Layout(gaps, xs)) == Some([xs[0]] + tail)
  {
    var rest := Layout(gaps[1..], xs[1..]);
    LayoutTail(cc, gaps, xs);
    LayoutEnds(cc, gaps, xs);
    ReadSpelled(cc, xs[0], rest, tail);
    SkipGap(cc, gaps[0], Spell(xs[0]) + rest);
    LayoutHead(gaps, xs);
  }

  /** Whatever the layout, reading a laid-out token list returns the tokens. */
  lemma {:induction false} ReadLayout(cc: CharClasses, gaps: seq<Gap>, xs: seq<Lexeme>)
    requires cc.Valid()
    requires ValidLayout(cc, gaps, xs)
    ensures Read(cc, Layout(gaps, xs)) == Some(xs + [Lexeme(EOF, "")])
  {
    hide Read;
    var eof := [Lexeme(EOF, "")];
    if xs == [] {
      assert xs + eof == eof;
      assert ValidGap(gaps[0]);
      ReadEmptyLayout(cc, gaps[0]);
    } else {
      LayoutTail(cc, gaps, xs);
      ReadLayout(cc, gaps[1..], xs[1..]);
      ReadLayoutStep(cc, gaps, xs, xs[1..] + eof);
      assert [xs[0]] + (xs[1..] + eof) == xs + eof;
    }
  }

  // Everything the tokenizer emits can be spelled

  lemma {:induction false} SpanMembers(s: string, cs: set<char>)
    ensures forall c <- s[..Span(s, cs)] :: c in cs
  {
    if s != [] && s[0] in cs {
      SpanMembers(s[1..], cs);
      assert s[..Span(s, cs)] == [s[0]] + s[1..][..Span(s[1..], cs)];
    }
  }

  lemma ScanGivesSpellable(cc: CharClasses, s: string)
    requires cc.Valid()
    requires s != [] && ScanOne(cc, s).Emit?
    ensures Spellable(cc, ScanOne(cc, s).lexeme)
  {
    var step := ScanOne(cc, s);
    var v := step.lexeme.value;
    if step.lexeme.kind == NUMBER {
      SpanMembers(s[1..], cc.digit);
      assert v[1..] == s[1..][..Span(s[1..], cc.digit)];
      if s[0] != '-' {
        assert v == [s[0]] + v[1..];
      } else {
        assert s[1..][0] in cc.digit;
      }
    } else if step.lexeme.kind == IDENT {
      SpanMembers(s, cc.IdentPart());
    }
  }

  lemma {:induction false} ReadGivesSpellable(cc: CharClasses, s: string)
    requires cc.Valid()
    requires Read(cc, s).Some?
    ensures var xs := Read(cc, s).value;
            xs != [] && xs[|xs| - 1] == Lexeme(EOF, "") && forall x <- xs[..|xs| - 1] :: Spellable(cc, x)
  {
    if s != [] {
      var step := ScanOne(cc, s);
      ReadGivesSpellable(cc, s[step.width..]);
      if step.Emit? {
        ScanGivesSpellable(cc, s);
        var xs := Read(cc, s[step.width..]).value;
        assert ([step.lexeme] + xs)[..|xs|] == [step.lexeme] + xs[..|xs| - 1];
      }
    }
  }
}
