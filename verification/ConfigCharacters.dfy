/** The characters that matter to the configuration scanner, each named, and the exact shape of the
    printed form. */
module ConfigCharacters {
  import opened Common
  import opened ConfigTree
  import opened ConfigLexer

  /** Spaces, tabs, carriage returns and line feeds. */
  predicate Blanks(s: string) {
    forall i :: 0 <= i < |s| ==> s[i] == ' ' || s[i] == '\t' || s[i] == '\r' || s[i] == '\n'
  }

  /** Any blanks before a token are skipped. */
  lemma {:induction false} BlanksAreSkipped(blanks: string, rest: string)
    requires Blanks(blanks)
    ensures LexAll(blanks + rest) == LexAll(rest)
  {
    if blanks == "" {
      assert blanks + rest == rest;
    } else {
      assert blanks + rest == [blanks[0]] + (blanks[1..] + rest);
      LexBlank(blanks[0], blanks[1..] + rest);
      BlanksAreSkipped(blanks[1..], rest);
    }
  }

  /** What ends a bare token. A carriage return does not. */
  predicate Ends(c: char) { c == ' ' || c == '\t' || c == '\n' || c == ';' || c == '{' || c == '}' }

  /** No such character inside, and at the start no quote, number sign or carriage return either. */
  predicate IsWord(t: string) {
    && t != "" && t[0] != '#' && t[0] != '"' && t[0] != '\'' && t[0] != '\r'
    && forall i :: 0 <= i < |t| ==> !Ends(t[i])
  }

  /** A word is one token before anything that ends it. */
  lemma WordIsToken(t: string, rest: string)
    requires IsWord(t) && rest != "" && Ends(rest[0])
    ensures LexAll(t + rest) == [Token(Normal, t)] + LexAll(rest)
  {
    NextTokenPrinted(t, rest);
    LexStep(t + rest, Token(Normal, t), rest);
  }

  /** A comment runs to the next line feed or carriage return. */
  lemma CommentIsToken(body: string, end: char, rest: string)
    requires (end == '\n' || end == '\r') && '\n' !in body && '\r' !in body
    ensures LexAll("#" + body + [end] + rest) == [Token(Comment, "#" + body)] + LexAll(rest)
  {
    var s := "#" + body + [end] + rest;
    assert s[1..] == body + [end] + rest;
    CommentRuns("#", body, end, rest);
    LexStep(s, Token(Comment, "#" + body), rest);
  }

  lemma {:induction false} CommentRuns(value: string, body: string, end: char, rest: string)
    requires (end == '\n' || end == '\r') && '\n' !in body && '\r' !in body
    ensures Scan(InComment, value, body + [end] + rest) == Lexed(Token(Comment, value + body), rest)
    decreases |body|
  {
    var s := body + [end] + rest;
    if body == "" {
      assert s[1..] == rest && value + body == value;
    } else {
      assert s[0] == body[0] && s[1..] == body[1..] + [end] + rest;
      assert value + [body[0]] + body[1..] == value + body;
      CommentRuns(value + [body[0]], body[1..], end, rest);
    }
  }

  /** A quoted text, in either quotes and whatever is in it, is one token up to its closing quote. */
  lemma QuotedIsToken(quote: char, body: string, rest: string)
    requires (quote == '"' || quote == '\'') && quote !in body
    ensures LexAll([quote] + body + [quote] + rest) == [Token(Normal, [quote] + body + [quote])] + LexAll(rest)
  {
    var s := [quote] + body + [quote] + rest;
    assert s[1..] == body + [quote] + rest;
    QuoteRuns(quote, [quote], body, rest);
    LexStep(s, Token(Normal, [quote] + body + [quote]), rest);
  }

  lemma {:induction false} QuoteRuns(quote: char, value: string, body: string, rest: string)
    requires (quote == '"' || quote == '\'') && quote !in body
    ensures Scan(if quote == '"' then DoubleQuote else SingleQuote, value, body + [quote] + rest)
         == Lexed(Token(Normal, value + body + [quote]), rest)
    decreases |body|
  {
    var s := body + [quote] + rest;
    if body == "" {
      assert s[1..] == rest && value + body == value;
    } else {
      assert s[0] == body[0] && s[1..] == body[1..] + [quote] + rest;
      assert value + [body[0]] + body[1..] == value + body;
      QuoteRuns(quote, value + [body[0]], body[1..], rest);
    }
  }

  /** A text that ends inside quotes is never accepted. */
  lemma OpenQuoteFails(quote: char, body: string)
    requires (quote == '"' || quote == '\'') && quote !in body
    ensures LexAll([quote] + body) == [Token(Error, [quote] + body)]
  {
    assert ([quote] + body)[1..] == body;
    OpenQuoteRuns(quote, [quote], body);
  }

  lemma {:induction false} OpenQuoteRuns(quote: char, value: string, body: string)
    requires (quote == '"' || quote == '\'') && quote !in body
    ensures Scan(if quote == '"' then DoubleQuote else SingleQuote, value, body) == Lexed(Token(Error, value + body), "")
    decreases |body|
  {
    if body == "" {
      assert value + body == value;
    } else {
      assert value + [body[0]] + body[1..] == value + body;
      OpenQuoteRuns(quote, value + [body[0]], body[1..]);
    }
  }

  /* ---------- the printed form ---------- */

  lemma {:induction false} IndentIs(depth: nat)
    ensures |Indent(depth)| == 2 * depth && forall i :: 0 <= i < |Indent(depth)| ==> Indent(depth)[i] == ' '
  {
    if depth > 0 {
      IndentIs(depth - 1);
    }
  }

  /** A statement of two words prints on one line, two spaces per level in; a block opens on the line
      of its words and closes on a line of its own. */
  lemma PrintedLines(a: string, b: string, c: Config, depth: int)
    ensures PrintStatement(Statement([a, b], None), depth) == Indent(depth) + a + " " + b + ";" + "\n"
    ensures PrintStatement(Statement([a, b], Some(c)), depth)
         == Indent(depth) + a + " " + b + " {\n" + Print(c, depth + 1) + Indent(depth) + "}" + "\n"
  {
    hide Indent, PrintStatements;
    TwoWords(a, b);
    var i, w := Indent(depth), a + " " + b;
    assert i + w == i + a + " " + b;
    var body := Print(c, depth + 1);
    assert i + w + (" {\n" + body + i + "}") + "\n" == i + w + " {\n" + body + i + "}" + "\n";
  }

  lemma TwoWords(a: string, b: string)
    ensures PrintTokens([a, b], false) == a + " " + b
  {
    assert [a, b][1..] == [b] && [b][1..] == [];
    assert PrintTokens([b], true) == " " + b + PrintTokens([], true);
    assert "" + a + (" " + b + "") == a + " " + b;
  }

  /** A file with CRLF line ends: a statement, a block and its content, read as with plain ones. */
  lemma CrlfLines(a: string, b: string, rest: string)
    requires IsWord(a) && IsWord(b)
    ensures LexAll(a + (" " + (b + (";" + ("\r\n" + rest))))) == [Token(Normal, a), Token(Normal, b), SEMICOLON] + LexAll(rest)
    ensures LexAll(a + (" " + (b + (" " + ("{" + ("\r\n" + rest)))))) == [Token(Normal, a), Token(Normal, b), OPEN] + LexAll(rest)
    ensures LexAll("}" + ("\r\n" + rest)) == [CLOSE] + LexAll(rest)
  {
    hide LexAll, IsWord;
    var end := "\r\n" + rest;
    BlanksAreSkipped("\r\n", rest);
    LexPunctuation(';', end);
    LexPunctuation('{', end);
    LexPunctuation('}', end);
    LexBlank(' ', "{" + end);
    TwoWordsLex(a, b, ";" + end);
    TwoWordsLex(a, b, " " + ("{" + end));
  }

  lemma TwoWordsLex(a: string, b: string, rest: string)
    requires IsWord(a) && IsWord(b) && rest != "" && Ends(rest[0])
    ensures LexAll(a + (" " + (b + rest))) == [Token(Normal, a), Token(Normal, b)] + LexAll(rest)
  {
    hide LexAll;
    WordIsToken(b, rest);
    LexBlank(' ', b + rest);
    WordIsToken(a, " " + (b + rest));
  }
}
