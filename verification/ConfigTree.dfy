/** The parsed nginx configuration, its printer, and two flattenings of the tree
    against which the parser is specified. */
module ConfigTree {
  import opened Common

  datatype Config = Config(statements: seq<Statement>)
  datatype Statement = Statement(tokens: seq<string>, child: Option<Config>)

  /* ---------- printing ---------- */

  function Indent(depth: int): string {
    if depth <= 0 then "" else "  " + Indent(depth - 1)
  }

  function PrintTokens(tokens: seq<string>, separate: bool): string {
    if tokens == [] then ""
    else (if separate then " " else "") + tokens[0] + PrintTokens(tokens[1..], true)
  }

  function PrintChild(child: Option<Config>, depth: int): string
    decreases child, 1
  {
    match child
    case None => ";"
    case Some(c) => " {\n" + PrintStatements(c.statements, depth + 1) + Indent(depth) + "}"
  }

  function PrintStatement(s: Statement, depth: int): string
    decreases s, 2
  {
    Indent(depth) + PrintTokens(s.tokens, false) + PrintChild(s.child, depth) + "\n"
  }

  function PrintStatements(ss: seq<Statement>, depth: int): string
    decreases ss, 3
  {
    if ss == [] then "" else PrintStatement(ss[0], depth) + PrintStatements(ss[1..], depth)
  }

  function Print(c: Config, depth: int): string {
    PrintStatements(c.statements, depth)
  }

  lemma {:induction false} IndentSnoc(depth: int)
    requires depth > 0
    ensures Indent(depth) == Indent(depth - 1) + "  "
  {
    if depth > 1 {
      IndentSnoc(depth - 1);
    }
  }

  method AppendIndent(text: string, depth: int) returns (r: string)
    ensures r == text + Indent(depth)
  {
    r := text;
    var i := 0;
    while i < depth
      invariant 0 <= i && (i <= depth || i == 0)
      invariant r == text + Indent(i)
    {
      r := r + "  ";
      i := i + 1;
      IndentSnoc(i);
    }
    assert depth < 0 ==> Indent(depth) == Indent(0);
  }

  method AppendTokens(text: string, tokens: seq<string>) returns (r: string)
    ensures r == text + PrintTokens(tokens, false)
  {
    r := text;
    for i := 0 to |tokens|
      invariant r + PrintTokens(tokens[i..], i != 0) == text + PrintTokens(tokens, false)
    {
      assert tokens[i..][1..] == tokens[i + 1..];
      if i != 0 {
        r := r + " ";
      }
      r := r + tokens[i];
    }
  }

  method StatementToString(s: Statement, depth: int) returns (r: string)
    ensures r == PrintStatement(s, depth)
    decreases s
  {
    r := AppendIndent("", depth);
    r := AppendTokens(r, s.tokens);
    assert r == Indent(depth) + PrintTokens(s.tokens, false);
    if s.child.Some? {
      r := r + " {\n";
      var body := ConfigToString(s.child.value, depth + 1);
      r := r + body;
      r := AppendIndent(r, depth);
      r := r + "}";
    } else {
      r := r + ";";
    }
    assert r == Indent(depth) + PrintTokens(s.tokens, false) + PrintChild(s.child, depth);
    r := r + "\n";
  }

  method ConfigToString(c: Config, depth: int) returns (r: string)
    ensures r == Print(c, depth)
    decreases c
  {
    r := "";
    for i := 0 to |c.statements|
      invariant r + PrintStatements(c.statements[i..], depth) == Print(c, depth)
    {
      assert c.statements[i..][1..] == c.statements[i + 1..];
      var line := StatementToString(c.statements[i], depth);
      r := r + line;
    }
  }

  /* ---------- lexical classes and well-formedness ---------- */

  predicate IsBlank(c: char) { c == ' ' || c == '\t' || c == '\n' || c == '\r' }

  /** Characters that end a bare token; carriage return is not one of them. */
  predicate EndsBare(c: char) {
    c == ' ' || c == '\t' || c == '\n' || c == ';' || c == '{' || c == '}'
  }

  predicate StartsBare(c: char) {
    !IsBlank(c) && !EndsBare(c) && c != '#' && c != '"' && c != '\''
  }

  predicate IsBare(t: string) {
    && t != ""
    && StartsBare(t[0])
    && forall i :: 0 < i < |t| ==> !EndsBare(t[i])
  }

  predicate IsQuoted(t: string, quote: char) {
    && |t| >= 2
    && t[0] == quote && t[|t| - 1] == quote
    && forall i :: 0 < i < |t| - 1 ==> t[i] != quote
  }

  predicate Lexable(t: string) {
    IsBare(t) || IsQuoted(t, '"') || IsQuoted(t, '\'')
  }

  predicate StatementWellFormed(s: Statement)
    decreases s, 0
  {
    && s.tokens != []
    && (forall i :: 0 <= i < |s.tokens| ==> Lexable(s.tokens[i]))
    && (s.child.Some? ==> WellFormed(s.child.value))
  }

  /** Every statement, at every depth, has a token and only lexable tokens. */
  predicate WellFormed(c: Config)
    decreases c, 0
  {
    forall i :: 0 <= i < |c.statements| ==> StatementWellFormed(c.statements[i])
  }

  /* ---------- flattenings ---------- */

  datatype Kind = Start | Normal | StartBlock | EndBlock | Comment | StatementEnd | Eof | Error
  datatype Token = Token(kind: Kind, value: string)

  const OPEN := Token(StartBlock, "{")
  const CLOSE := Token(EndBlock, "}")
  const SEMICOLON := Token(StatementEnd, ";")

  function Names(tokens: seq<string>): seq<Token> {
    if tokens == [] then [] else [Token(Normal, tokens[0])] + Names(tokens[1..])
  }

  function FlattenChild(child: Option<Config>): seq<Token>
    decreases child, 1
  {
    match child
    case None => [SEMICOLON]
    case Some(c) => [OPEN] + Flatten(c.statements) + [CLOSE]
  }

  function FlattenStatement(s: Statement): seq<Token>
    decreases s, 2
  {
    Names(s.tokens) + FlattenChild(s.child)
  }

  /** The token sequence of a statement list: what any layout of it must lex to. */
  function Flatten(ss: seq<Statement>): seq<Token>
    decreases ss, 3
  {
    if ss == [] then [] else FlattenStatement(ss[0]) + Flatten(ss[1..])
  }

  function ChildBlocks(child: Option<Config>): seq<Config>
    decreases child, 1
  {
    match child
    case None => []
    case Some(c) => PostOrder(c.statements) + [c]
  }

  /** All child blocks of a statement list, each after the blocks nested in it. */
  function PostOrder(ss: seq<Statement>): seq<Config>
    decreases ss, 3
  {
    if ss == [] then [] else ChildBlocks(ss[0].child) + PostOrder(ss[1..])
  }

  lemma {:induction false} NamesAppend(a: seq<string>, b: seq<string>)
    ensures Names(a + b) == Names(a) + Names(b)
  {
    if a == [] {
      assert a + b == b;
    } else {
      assert (a + b)[1..] == a[1..] + b;
      NamesAppend(a[1..], b);
    }
  }

  lemma {:induction false} FlattenAppend(a: seq<Statement>, b: seq<Statement>)
    ensures Flatten(a + b) == Flatten(a) + Flatten(b)
  {
    if a == [] {
      assert a + b == b;
    } else {
      assert (a + b)[1..] == a[1..] + b;
      FlattenAppend(a[1..], b);
    }
  }

  lemma {:induction false} PostOrderAppend(a: seq<Statement>, b: seq<Statement>)
    ensures PostOrder(a + b) == PostOrder(a) + PostOrder(b)
  {
    if a == [] {
      assert a + b == b;
    } else {
      assert (a + b)[1..] == a[1..] + b;
      PostOrderAppend(a[1..], b);
    }
  }
}
