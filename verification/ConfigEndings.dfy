/** How a configuration text ends: a last bare token that nothing ends is dropped, and a line break
    after the text shows exactly which accepted texts this happened to. */
module ConfigEndings {
  import opened ConfigTree
  import opened ConfigLexer
  import opened ConfigParser
  import opened ConfigTheorems

  /** The value of the last token: what was being read when the text ended. */
  function EndValue(s: string): string {
    var ts := LexAll(s);
    ts[|ts| - 1].value
  }

  /** What a line break turns a final token into. */
  function Ended(t: Token): seq<Token> {
    if t.kind == Error then [Token(Error, t.value + ['\n'])]
    else if t.value == "" then [Token(Eof, "")]
    else [Token(if t.value[0] == '#' then Comment else Normal, t.value), Token(Eof, "")]
  }

  /** The next token of a text, without and with a line break after the text. */
  predicate Breaks(l: Lexed, broken: Lexed) {
    if !Final(l.token.kind) then broken == Lexed(l.token, l.rest + ['\n'])
    else && broken.token == Ended(l.token)[0]
         && (!Final(broken.token.kind) ==> broken.rest == "" || broken.rest == "\n")
  }

  lemma ScanBreak(state: LexState, value: string)
    requires Collected(state, value)
    ensures Breaks(Scan(state, value, ""), Scan(state, value, "" + ['\n']))
  {
    assert "" + ['\n'] == ['\n'] && ['\n'][1..] == "";
  }

  lemma {:induction false} QuotedWithBreak(state: LexState, value: string, s: string)
    requires Collected(state, value) && (state == SingleQuote || state == DoubleQuote)
    ensures Breaks(Scan(state, value, s), Scan(state, value, s + ['\n']))
    decreases |s|
  {
    if s == "" {
      ScanBreak(state, value);
    } else {
      hide Breaks;
      var c, r := s[0], s[1..];
      assert (s + ['\n'])[0] == c && (s + ['\n'])[1..] == r + ['\n'];
      if c == (if state == SingleQuote then '\'' else '"') {
        BreaksAfter(Token(Normal, value + [c]), r);
      } else {
        CollectMore(state, value, c);
        QuotedWithBreak(state, value + [c], r);
      }
    }
  }

  lemma {:induction false} CommentWithBreak(value: string, s: string)
    requires Collected(InComment, value)
    ensures Breaks(Scan(InComment, value, s), Scan(InComment, value, s + ['\n']))
    decreases |s|
  {
    if s == "" {
      ScanBreak(InComment, value);
    } else {
      hide Breaks;
      var c, r := s[0], s[1..];
      assert (s + ['\n'])[0] == c && (s + ['\n'])[1..] == r + ['\n'];
      if c == '\n' || c == '\r' {
        BreaksAfter(Token(Comment, value), r);
      } else {
        CommentWithBreak(value + [c], r);
      }
    }
  }

  lemma {:induction false} BareWithBreak(value: string, s: string)
    requires Collected(InNormal, value)
    ensures Breaks(Scan(InNormal, value, s), Scan(InNormal, value, s + ['\n']))
    decreases |s|
  {
    if s == "" {
      ScanBreak(InNormal, value);
    } else {
      hide Breaks;
      var c, r := s[0], s[1..];
      assert (s + ['\n'])[0] == c && (s + ['\n'])[1..] == r + ['\n'];
      if EndsBare(c) {
        BreaksAfter(Token(Normal, value), s);
      } else {
        CollectMore(InNormal, value, c);
        BareWithBreak(value + [c], r);
      }
    }
  }

  lemma BreaksAfter(t: Token, rest: string)
    requires !Final(t.kind)
    ensures Breaks(Lexed(t, rest), Lexed(t, rest + ['\n']))
  {
  }

  lemma {:induction false} TokenWithBreak(s: string)
    ensures Breaks(NextToken(s), NextToken(s + ['\n']))
    decreases |s|
  {
    if s == "" {
      ScanBreak(Initial, "");
    } else {
      hide Breaks;
      var c, r := s[0], s[1..];
      assert (s + ['\n'])[0] == c && (s + ['\n'])[1..] == r + ['\n'];
      if c == '{' || c == '}' || c == ';' {
        BreaksAfter(if c == '{' then OPEN else if c == '}' then CLOSE else SEMICOLON, r);
      } else if c == '#' {
        CommentWithBreak([c], r);
      } else if c == '"' || c == '\'' {
        QuotedWithBreak(if c == '"' then DoubleQuote else SingleQuote, [c], r);
      } else if IsBlank(c) {
        TokenWithBreak(r);
      } else {
        BareWithBreak("" + [c], r);
      }
    }
  }

  lemma LexBreak()
    ensures LexAll("") == [Token(Eof, "")] && LexAll("\n") == [Token(Eof, "")]
  {
    assert "\n"[1..] == "";
  }

  /** A line break after a text changes the last token only. */
  lemma {:induction false} LexWithBreak(s: string)
    ensures var ts := LexAll(s);
            LexAll(s + ['\n']) == ts[..|ts| - 1] + Ended(ts[|ts| - 1])
    decreases |s|
  {
    hide Scan;
    TokenWithBreak(s);
    ScanProper(Initial, "", s);
    LexBreak();
    var l, broken := NextToken(s), NextToken(s + ['\n']);
    if !Final(l.token.kind) {
      LexWithBreak(l.rest);
    }
  }

  lemma {:induction false} FlattenEnds(ss: seq<Statement>)
    ensures Flatten(ss) != [] ==> Flatten(ss)[|Flatten(ss)| - 1].kind != Normal
  {
    if ss != [] {
      FlattenEnds(ss[1..]);
      StatementEnds(ss[0]);
    }
  }

  lemma StatementEnds(s: Statement)
    ensures var ts := FlattenStatement(s);
            ts != [] && ts[|ts| - 1].kind != Normal
  {
  }

  /** A text with a line break after it is a layout of c exactly when the text itself is one and
      does not end inside a bare token. */
  lemma LayoutWithBreak(s: string, c: Config)
    ensures IsLayoutOf(s + ['\n'], c) <==> IsLayoutOf(s, c) && !IsBare(EndValue(s))
  {
    hide LexAll, Flatten, WellFormed, NonComments;
    var ts := LexAll(s);
    var front, last := ts[..|ts| - 1], ts[|ts| - 1];
    LexAllDelivered(s);
    LexWithBreak(s);
    FlattenEnds(c.statements);
    assert Proper(last) && Final(last.kind);
    if |Ended(last)| == 2 {
      var t := Ended(last)[0];
      assert (front + Ended(last))[..|ts|] == front + [t];
      NonCommentsAppend(front, [t]);
      OneToken(t);
    } else {
      assert (front + Ended(last))[..|ts| - 1] == front;
    }
  }

  lemma OneToken(t: Token)
    ensures NonComments([t]) == if t.kind == Comment then [] else [t]
  {
  }

  /** With a line break after it, so that its last token counts, a text is accepted if and only if it
      is accepted without one and does not end inside a bare token; the tree is the same. */
  lemma NothingDroppedIff(s: string)
    ensures ParseText(s + ['\n']).ok <==> ParseText(s).ok && !IsBare(EndValue(s))
    ensures ParseText(s + ['\n']).ok ==> ParseText(s + ['\n']).tree == ParseText(s).tree
  {
    hide ParseText, IsLayoutOf, EndValue;
    var c, d := ParseText(s).tree, ParseText(s + ['\n']).tree;
    ParseIffGrammar(s, c);
    ParseIffGrammar(s, d);
    ParseIffGrammar(s + ['\n'], c);
    ParseIffGrammar(s + ['\n'], d);
    LayoutWithBreak(s, c);
    LayoutWithBreak(s, d);
  }
}
