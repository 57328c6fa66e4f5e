/** The token scanner of the configuration parser. */
module ConfigLexer {
  import opened Common
  import opened ConfigTree

  datatype LexState = Initial | SingleQuote | DoubleQuote | InComment | InNormal
  datatype Lexed = Lexed(token: Token, rest: string)

  /** One token from input s, started in `state` with `value` already collected. */
  function Scan(state: LexState, value: string, s: string): (r: Lexed)
    ensures |r.rest| <= |s|
    ensures state == Initial && s != "" ==> |r.rest| < |s|
    ensures r.token.kind == Eof || r.token.kind == Error ==> r.rest == ""
    ensures s == "" ==> r.token.kind == Eof || r.token.kind == Error
    decreases |s|
  {
    if s == "" then
      Lexed(Token(if state == SingleQuote || state == DoubleQuote then Error else Eof, value), "")
    else
      var c, r := s[0], s[1..];
      match state
      case Initial =>
        if c == '{' then Lexed(OPEN, r)
        else if c == '}' then Lexed(CLOSE, r)
        else if c == '#' then Scan(InComment, [c], r)
        else if c == '"' then Scan(DoubleQuote, [c], r)
        else if c == '\'' then Scan(SingleQuote, [c], r)
        else if c == ';' then Lexed(SEMICOLON, r)
        else if IsBlank(c) then Scan(Initial, value, r)
        else Scan(InNormal, value + [c], r)
      case SingleQuote =>
        if c == '\'' then Lexed(Token(Normal, value + [c]), r) else Scan(SingleQuote, value + [c], r)
      case DoubleQuote =>
        if c == '"' then Lexed(Token(Normal, value + [c]), r) else Scan(DoubleQuote, value + [c], r)
      case InComment =>
        if c == '\n' || c == '\r' then Lexed(Token(Comment, value), r) else Scan(InComment, value + [c], r)
      case InNormal =>
        if EndsBare(c) then Lexed(Token(Normal, value), s) else Scan(InNormal, value + [c], r)
  }

  function NextToken(s: string): Lexed {
    Scan(Initial, "", s)
  }

  predicate Final(k: Kind) { k == Eof || k == Error }

  /** All tokens of s, up to and including the first end-of-input or error token. */
  function LexAll(s: string): (ts: seq<Token>)
    ensures ts != []
    decreases |s|
  {
    var l := NextToken(s);
    if Final(l.token.kind) then [l.token] else [l.token] + LexAll(l.rest)
  }

  /** An istream: `good` turns false when a read hits the end of the text. */
  class CharStream {
    const text: string
    var pos: nat
    var good: bool

    ghost predicate Valid()
      reads this
    {
      pos <= |text| && (!good ==> pos == |text|)
    }

    ghost function Rest(): string
      requires Valid()
      reads this
    {
      text[pos..]
    }

    constructor (contents: string)
      ensures Valid() && Rest() == contents
    {
      text, pos, good := contents, 0, true;
    }

    method Get() returns (c: Option<char>)
      requires Valid()
      modifies this
      ensures Valid() && good == c.Some?
      ensures c.None? <==> old(Rest()) == ""
      ensures c.None? ==> Rest() == ""
      ensures c.Some? ==> c.value == old(Rest())[0] && Rest() == old(Rest())[1..] && pos == old(pos) + 1
    {
      if pos == |text| {
        good := false;
        return None;
      }
      c := Some(text[pos]);
      pos := pos + 1;
      good := true;
    }

    method Unget()
      requires Valid() && good && pos > 0
      modifies this
      ensures Valid() && good && pos == old(pos) - 1
      ensures Rest() == [text[pos]] + old(Rest())
    {
      pos := pos - 1;
    }
  }

  method ParseToken(input: CharStream) returns (kind: Kind, value: string)
    requires input.Valid()
    modifies input
    ensures input.Valid()
    ensures Lexed(Token(kind, value), input.Rest()) == NextToken(old(input.Rest()))
  {
    var state := Initial;
    value := "";
    while input.good
      invariant input.Valid()
      invariant Scan(state, value, input.Rest()) == NextToken(old(input.Rest()))
      invariant !input.good ==> input.Rest() == ""
      decreases |input.text| - input.pos, input.good
    {
      var got := input.Get();
      if got.None? {
        break;
      }
      var c := got.value;
      match state {
        case Initial =>
          if c == '{' {
            return StartBlock, [c];
          } else if c == '}' {
            return EndBlock, [c];
          } else if c == '#' {
            state, value := InComment, [c];
          } else if c == '"' {
            state, value := DoubleQuote, [c];
          } else if c == '\'' {
            state, value := SingleQuote, [c];
          } else if c == ';' {
            return StatementEnd, [c];
          } else if !IsBlank(c) {
            state, value := InNormal, value + [c];
          }
        case SingleQuote =>
          value := value + [c];
          if c == '\'' {
            return Normal, value;
          }
        case DoubleQuote =>
          value := value + [c];
          if c == '"' {
            return Normal, value;
          }
        case InComment =>
          if c == '\n' || c == '\r' {
            return Comment, value;
          }
          value := value + [c];
        case InNormal =>
          if EndsBare(c) {
            input.Unget();
            return Normal, value;
          }
          value := value + [c];
      }
    }
    kind := if state == SingleQuote || state == DoubleQuote then Error else Eof;
  }

  method GetToken(input: CharStream) returns (value: string)
    requires input.Valid()
    modifies input
    ensures input.Valid()
    ensures value == NextToken(old(input.Rest())).token.value
    ensures input.Rest() == NextToken(old(input.Rest())).rest
  {
    var _, v := ParseToken(input);
    value := v;
  }

  /* ---------- what the scanner can produce ---------- */

  /** The value collected so far, in each scanner state. */
  predicate Collected(state: LexState, value: string) {
    match state
    case Initial => value == ""
    case SingleQuote => value != "" && value[0] == '\'' && '\'' !in value[1..]
    case DoubleQuote => value != "" && value[0] == '"' && '"' !in value[1..]
    case InComment => value != "" && value[0] == '#'
    case InNormal => IsBare(value)
  }

  /** Which values each kind of token can carry. */
  predicate Proper(t: Token) {
    match t.kind
    case Start => false
    case Normal => Lexable(t.value)
    case StartBlock => t == OPEN
    case EndBlock => t == CLOSE
    case StatementEnd => t == SEMICOLON
    case Comment => t.value != "" && t.value[0] == '#'
    case Eof => t.value == "" || IsBare(t.value) || t.value[0] == '#'
    case Error => t.value != "" && (t.value[0] == '"' || t.value[0] == '\'')
  }

  lemma CollectMore(state: LexState, value: string, c: char)
    requires Collected(state, value) && state != Initial
    requires state == SingleQuote ==> c != '\''
    requires state == DoubleQuote ==> c != '"'
    requires state == InNormal ==> !EndsBare(c)
    ensures Collected(state, value + [c])
  {
    assert (value + [c])[1..] == value[1..] + [c];
  }

  lemma QuoteCloses(value: string, quote: char)
    requires value != "" && value[0] == quote && quote !in value[1..]
    ensures IsQuoted(value + [quote], quote)
  {
    var t := value + [quote];
    forall i | 0 < i < |t| - 1 ensures t[i] != quote {
      assert value[1..][i - 1] == t[i];
    }
  }

  lemma {:induction false} ScanProper(state: LexState, value: string, s: string)
    requires Collected(state, value)
    ensures Proper(Scan(state, value, s).token)
    decreases |s|
  {
    if s != "" {
      var c, r := s[0], s[1..];
      match state {
        case Initial =>
          if c == '#' {
            ScanProper(InComment, [c], r);
          } else if c == '"' {
            ScanProper(DoubleQuote, [c], r);
          } else if c == '\'' {
            ScanProper(SingleQuote, [c], r);
          } else if IsBlank(c) {
            ScanProper(Initial, value, r);
          } else if !EndsBare(c) {
            ScanProper(InNormal, value + [c], r);
          }
        case SingleQuote =>
          if c == '\'' {
            QuoteCloses(value, c);
          } else {
            CollectMore(state, value, c);
            ScanProper(state, value + [c], r);
          }
        case DoubleQuote =>
          if c == '"' {
            QuoteCloses(value, c);
          } else {
            CollectMore(state, value, c);
            ScanProper(state, value + [c], r);
          }
        case InComment =>
          if c != '\n' && c != '\r' {
            ScanProper(state, value + [c], r);
          }
        case InNormal =>
          if !EndsBare(c) {
            CollectMore(state, value, c);
            ScanProper(state, value + [c], r);
          }
      }
    }
  }

  /** A token list as the scanner delivers it: proper tokens, only the last one final. */
  predicate Delivered(ts: seq<Token>) {
    && ts != []
    && (forall i :: 0 <= i < |ts| ==> Proper(ts[i]))
    && (forall i :: 0 <= i < |ts| ==> (Final(ts[i].kind) <==> i == |ts| - 1))
  }

  lemma {:induction false} LexAllDelivered(s: string)
    ensures Delivered(LexAll(s))
    decreases |s|
  {
    ScanProper(Initial, "", s);
    var l := NextToken(s);
    if !Final(l.token.kind) {
      LexAllDelivered(l.rest);
    }
  }

  /* ---------- scanning printed text ---------- */

  lemma {:induction false} ScanBare(value: string, t: string, rest: string)
    requires forall i :: 0 <= i < |t| ==> !EndsBare(t[i])
    requires rest != "" && EndsBare(rest[0])
    ensures Scan(InNormal, value, t + rest) == Lexed(Token(Normal, value + t), rest)
    decreases |t|
  {
    if t == "" {
      assert t + rest == rest && value + t == value;
    } else {
      assert (t + rest)[1..] == t[1..] + rest;
      assert value + [t[0]] + t[1..] == value + t;
      ScanBare(value + [t[0]], t[1..], rest);
    }
  }

  lemma {:induction false} ScanQuoted(quote: char, value: string, t: string, rest: string)
    requires quote == '"' || quote == '\''
    requires t != "" && t[|t| - 1] == quote
    requires forall i :: 0 <= i < |t| - 1 ==> t[i] != quote
    ensures Scan(if quote == '"' then DoubleQuote else SingleQuote, value, t + rest)
         == Lexed(Token(Normal, value + t), rest)
    decreases |t|
  {
    assert (t + rest)[1..] == t[1..] + rest;
    assert value + [t[0]] + t[1..] == value + t;
    if |t| > 1 {
      ScanQuoted(quote, value + [t[0]], t[1..], rest);
    } else {
      assert t[1..] + rest == rest && value + t == value + [t[0]];
    }
  }

  /** A lexable token followed by a character that ends bare tokens scans as itself. */
  lemma NextTokenPrinted(t: string, rest: string)
    requires Lexable(t) && rest != "" && EndsBare(rest[0])
    ensures NextToken(t + rest) == Lexed(Token(Normal, t), rest)
  {
    assert (t + rest)[1..] == t[1..] + rest;
    assert [t[0]] + t[1..] == t;
    if IsBare(t) {
      assert "" + [t[0]] == [t[0]];
      ScanBare([t[0]], t[1..], rest);
    } else {
      ScanQuoted(t[0], [t[0]], t[1..], rest);
    }
  }

  lemma LexBlank(c: char, rest: string)
    requires IsBlank(c)
    ensures LexAll([c] + rest) == LexAll(rest)
  {
    assert ([c] + rest)[1..] == rest;
    assert NextToken([c] + rest) == NextToken(rest);
  }

  lemma {:induction false} LexIndent(depth: int, rest: string)
    ensures LexAll(Indent(depth) + rest) == LexAll(rest)
  {
    if depth <= 0 {
      assert Indent(depth) + rest == rest;
    } else {
      var more := Indent(depth - 1) + rest;
      assert Indent(depth) + rest == [' '] + ([' '] + more);
      LexBlank(' ', [' '] + more);
      LexBlank(' ', more);
      LexIndent(depth - 1, rest);
    }
  }

  lemma LexStep(s: string, t: Token, rest: string)
    requires NextToken(s) == Lexed(t, rest) && !Final(t.kind)
    ensures LexAll(s) == [t] + LexAll(rest)
  {
  }

  lemma LexOneToken(t: string, separate: bool, rest: string)
    requires Lexable(t) && rest != "" && EndsBare(rest[0])
    ensures LexAll((if separate then " " else "") + t + rest) == [Token(Normal, t)] + LexAll(rest)
  {
    NextTokenPrinted(t, rest);
    LexStep(t + rest, Token(Normal, t), rest);
    if separate {
      assert " " + t + rest == [' '] + (t + rest);
      LexBlank(' ', t + rest);
    } else {
      assert "" + t + rest == t + rest;
    }
  }

  lemma LexPunctuation(c: char, rest: string)
    requires c == ';' || c == '{' || c == '}'
    ensures LexAll([c] + rest)
         == [if c == ';' then SEMICOLON else if c == '{' then OPEN else CLOSE] + LexAll(rest)
  {
    assert ([c] + rest)[1..] == rest;
    LexStep([c] + rest, if c == ';' then SEMICOLON else if c == '{' then OPEN else CLOSE, rest);
  }

  lemma {:induction false} LexTokens(tokens: seq<string>, separate: bool, rest: string)
    requires forall i :: 0 <= i < |tokens| ==> Lexable(tokens[i])
    requires rest != "" && EndsBare(rest[0])
    ensures LexAll(PrintTokens(tokens, separate) + rest) == Names(tokens) + LexAll(rest)
  {
    if tokens == [] {
      assert PrintTokens(tokens, separate) + rest == rest;
    } else {
      PrintTokensSplit(tokens, separate, rest);
      LexOneToken(tokens[0], separate, PrintTokens(tokens[1..], true) + rest);
      LexTokens(tokens[1..], true, rest);
    }
  }

  lemma PrintTokensSplit(tokens: seq<string>, separate: bool, rest: string)
    requires tokens != [] && rest != "" && EndsBare(rest[0])
    ensures var after := PrintTokens(tokens[1..], true) + rest;
            && after != "" && EndsBare(after[0])
            && PrintTokens(tokens, separate) + rest == (if separate then " " else "") + tokens[0] + after
  {
  }

  lemma LexBlockOpen(rest: string)
    ensures LexAll(" {\n" + rest) == [OPEN] + LexAll(rest)
  {
    assert " {\n" + rest == [' '] + (['{'] + (['\n'] + rest));
    LexBlank(' ', ['{'] + (['\n'] + rest));
    LexPunctuation('{', ['\n'] + rest);
    LexBlank('\n', rest);
  }

  lemma LexBlockClose(depth: int, rest: string)
    ensures LexAll(Indent(depth) + (['}'] + rest)) == [CLOSE] + LexAll(rest)
  {
    LexIndent(depth, ['}'] + rest);
    LexPunctuation('}', rest);
  }

  lemma {:induction false} LexChild(child: Option<Config>, depth: int, rest: string)
    requires child.Some? ==> WellFormed(child.value)
    ensures LexAll(PrintChild(child, depth) + rest) == FlattenChild(child) + LexAll(rest)
    decreases child, 1
  {
    hide LexAll, StatementWellFormed;
    match child
    case None =>
      LexPunctuation(';', rest);
    case Some(c) =>
      var body := PrintStatements(c.statements, depth + 1);
      var close := Indent(depth) + (['}'] + rest);
      assert PrintChild(child, depth) + rest == " {\n" + (body + close);
      LexBlockOpen(body + close);
      LexStatements(c.statements, depth + 1, close);
      LexBlockClose(depth, rest);
      assert FlattenChild(child) + LexAll(rest) == [OPEN] + (Flatten(c.statements) + ([CLOSE] + LexAll(rest)));
  }

  lemma {:induction false} LexStatement(s: Statement, depth: int, rest: string)
    requires StatementWellFormed(s)
    ensures LexAll(PrintStatement(s, depth) + rest) == FlattenStatement(s) + LexAll(rest)
    decreases s, 2
  {
    hide LexAll;
    var names, child, line := PrintTokens(s.tokens, false), PrintChild(s.child, depth), ['\n'] + rest;
    assert PrintStatement(s, depth) + rest == Indent(depth) + (names + (child + line));
    LexIndent(depth, names + (child + line));
    assert EndsBare((child + line)[0]);
    LexTokens(s.tokens, false, child + line);
    LexChild(s.child, depth, line);
    LexBlank('\n', rest);
  }

  /** Printed statements scan to their flattening, whatever follows. */
  lemma {:induction false} LexStatements(ss: seq<Statement>, depth: int, rest: string)
    requires forall i :: 0 <= i < |ss| ==> StatementWellFormed(ss[i])
    ensures LexAll(PrintStatements(ss, depth) + rest) == Flatten(ss) + LexAll(rest)
    decreases ss, 3
  {
    hide LexAll, StatementWellFormed, PrintStatement, FlattenStatement;
    if ss == [] {
      assert PrintStatements(ss, depth) + rest == rest;
      assert Flatten(ss) + LexAll(rest) == LexAll(rest);
    } else {
      var more := PrintStatements(ss[1..], depth) + rest;
      LexStatement(ss[0], depth, more);
      LexStatements(ss[1..], depth, rest);
      assert PrintStatements(ss, depth) + rest == PrintStatement(ss[0], depth) + more;
      assert Flatten(ss) + LexAll(rest) == FlattenStatement(ss[0]) + (Flatten(ss[1..]) + LexAll(rest));
    }
  }
}
