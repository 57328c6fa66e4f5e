/** Which handlers' blocks setConfigBlocks skips whole, by name, and the shipped backend
    configuration. */
module BlockHandlers {
  import opened Common
  import opened ConfigTree
  import opened ConfigLexer
  import opened ConfigTheorems
  import opened ConfigCharacters
  import opened ConfigBlocks
  import opened BlockAgreement
  import opened BlockLayouts

  /** The six handlers whose blocks may be empty anywhere. */
  predicate MayBeEmpty(handler: string) {
    || handler == "EchoHandler" || handler == "StatusHandler" || handler == "ErrorHandler"
    || handler == "HealthHandler" || handler == "ProxyHandler" || handler == "CacheHandler"
  }

  /** An empty block of any other handler is directly followed by a plain statement. */
  predicate EmptyBlocksFollowed(ss: seq<Statement>) {
    forall i :: 0 <= i < |ss| && IsEmptyOther(ss[i]) ==> i + 1 < |ss| && ss[i + 1].child.None?
  }

  predicate IsEmptyOther(s: Statement) {
    s.child == Some(Config([])) && |s.tokens| == 3 && !MayBeEmpty(s.tokens[2])
  }

  /** After `location` comes no comment before the handler, nor, unless that is one of the six, right
      after it. */
  predicate NoCommentInHeader(ts: seq<Token>) {
    forall i :: 0 <= i < |ts| && ts[i] == Token(Normal, "location") ==> NoCommentAfter(ts, i)
  }

  predicate NoCommentAfter(ts: seq<Token>, i: nat) {
    && (i + 1 < |ts| ==> ts[i + 1].kind != Comment)
    && (i + 2 < |ts| ==> ts[i + 2].kind != Comment)
    && (i + 3 < |ts| && !MayBeEmpty(ts[i + 2].value) ==> ts[i + 3].kind != Comment)
  }

  lemma EmptyConfig(c: Config)
    ensures c.statements == [] <==> c == Config([])
  {
  }

  lemma GuardedIff(ss: seq<Statement>)
    ensures Guarded(ss) <==> EmptyBlocksFollowed(ss)
  {
    forall i | 0 <= i < |ss| ensures Swallows(ss[i]) <==> IsEmptyOther(ss[i]) {
      if ss[i].child.Some? {
        EmptyConfig(ss[i].child.value);
      }
    }
  }

  lemma HeaderAheadIff(ts: seq<Token>, i: nat)
    requires i < |ts|
    ensures HeaderAhead(ts[i + 1..]) <==> NoCommentAfter(ts, i)
  {
    var rest := ts[i + 1..];
    if |rest| >= 2 {
      assert rest[1..][1..] == rest[2..];
    }
  }

  lemma {:induction false} IntactAt(ts: seq<Token>, n: nat)
    requires n <= |ts|
    ensures HeadersIntact(ts[n..]) <==>
              forall i :: n <= i < |ts| && ts[i] == Token(Normal, "location") ==> HeaderAhead(ts[i + 1..])
    decreases |ts| - n
  {
    hide HeaderAhead;
    if n < |ts| {
      assert ts[n..][1..] == ts[n + 1..];
      IntactAt(ts, n + 1);
    }
  }

  lemma IntactIff(ts: seq<Token>)
    ensures HeadersIntact(ts) <==> NoCommentInHeader(ts)
  {
    hide HeaderAhead, HeadersIntact, NoCommentAfter;
    assert ts[0..] == ts;
    IntactAt(ts, 0);
    forall i: nat | i < |ts| ensures HeaderAhead(ts[i + 1..]) <==> NoCommentAfter(ts, i) {
      HeaderAheadIff(ts, i);
    }
  }

  /** The exact condition for a complete set-up, with the six handlers named: on every layout of a
      flat config each header gets its own block if and only if each empty block of another handler is
      directly followed by a plain statement and no comment stands in a header. */
  lemma SetUpIff(text: string, c: Config)
    requires IsLayoutOf(text, c) && FlatList(c.statements)
    ensures SetUp([], text, Config([])) == Ready(Paired(c.statements))
            <==> EmptyBlocksFollowed(c.statements) && NoCommentInHeader(LexAll(text))
  {
    hide IsLayoutOf, FlatList, SetUp, HeadersIntact, Guarded, EmptyBlocksFollowed, NoCommentInHeader;
    ScansAgreeIff(text, c);
    GuardedIff(c.statements);
    IntactIff(LexAll(text));
  }

  function EmptyBlock(prefix: string, handler: string): Statement {
    Statement(["location", prefix, handler], Some(Config([])))
  }

  lemma PairedCons(s: Statement, ss: seq<Statement>)
    requires FlatList([s]) && FlatList(ss)
    ensures FlatList([s] + ss) && FlatStatement(s)
    ensures Paired([s] + ss)
         == (if s.child.Some? then [ConfigBlock(HeaderOf(s), s.child.value)] else []) + Paired(ss)
  {
    hide Plain, LocationBlock;
    assert [s][0] == s && ([s] + ss)[1..] == ss;
    FlatAppend([s], ss);
    assert FlatStatement(s) by { FlatHasHeader(s); }
  }

  predicate FlatStatement(s: Statement) { s.child.Some? ==> |s.tokens| == 3 }

  lemma FlatHasHeader(s: Statement)
    requires Plain(s) || LocationBlock(s)
    ensures FlatStatement(s)
  {
  }

  lemma FlatAppend(a: seq<Statement>, b: seq<Statement>)
    requires FlatList(a) && FlatList(b)
    ensures FlatList(a + b)
  {
    hide Plain, LocationBlock;
  }

  lemma FlatFirst(a: seq<Statement>)
    requires FlatList(a) && a != []
    ensures FlatList([a[0]]) && FlatList(a[1..])
  {
    hide Plain, LocationBlock;
  }

  lemma {:induction false} PairedAppend(a: seq<Statement>, b: seq<Statement>)
    requires FlatList(a) && FlatList(b)
    ensures FlatList(a + b) && Paired(a + b) == Paired(a) + Paired(b)
    decreases |a|
  {
    hide FlatList, Paired;
    FlatAppend(a, b);
    if a == [] {
      PairedNone();
      assert a + b == b && [] + Paired(b) == Paired(b);
    } else {
      var s, more := a[0], a[1..];
      FlatFirst(a);
      PairedAppend(more, b);
      PairedCons(s, more);
      PairedCons(s, more + b);
      assert a == [s] + more && a + b == [s] + (more + b);
      var first := if s.child.Some? then [ConfigBlock(HeaderOf(s), s.child.value)] else [];
      assert first + (Paired(more) + Paired(b)) == first + Paired(more) + Paired(b);
    }
  }

  /** Among blocks that are not empty, an empty block of one of the six handlers gets its header and
      its block, wherever it stands, and so do all blocks before and after it. */
  lemma {:induction false} EmptyBlockIsSetUp(text: string, before: seq<Statement>, prefix: string, handler: string, after: seq<Statement>)
    requires FlatList(before) && FlatList(after) && LocationBlock(EmptyBlock(prefix, handler)) && MayBeEmpty(handler)
    requires forall s :: s in before + after ==> s.child != Some(Config([]))
    requires IsLayoutOf(text, Config(before + [EmptyBlock(prefix, handler)] + after)) && NoCommentInHeader(LexAll(text))
    ensures FlatList(before + [EmptyBlock(prefix, handler)] + after)
    ensures SetUp([], text, Config([]))
         == Ready(Paired(before) + [ConfigBlock(Header(prefix, handler), Config([]))] + Paired(after))
  {
    hide LocationBlock, Plain, IsLayoutOf, SetUp, NoCommentInHeader, MayBeEmpty;
    var b := EmptyBlock(prefix, handler);
    var ss := before + [b] + after;
    PairedAppend(before, [b]);
    PairedAppend(before + [b], after);
    assert Paired([b]) == [ConfigBlock(Header(prefix, handler), Config([]))] by {
      assert [b][1..] == [];
    }
    forall i | 0 <= i < |ss| ensures !IsEmptyOther(ss[i]) {
      assert ss[i] == b || ss[i] in before + after;
    }
    SetUpIff(text, Config(ss));
  }

  /** An empty block of any other handler that ends the config, or stands right before a block, is not
      set up, nor is the rest: no layout at all gives every header its block. */
  lemma {:induction false} OtherEmptyBlockFails(text: string, before: seq<Statement>, prefix: string, handler: string, after: seq<Statement>)
    requires FlatList(before) && FlatList(after) && LocationBlock(EmptyBlock(prefix, handler)) && !MayBeEmpty(handler)
    requires after != [] ==> after[0].child.Some?
    requires IsLayoutOf(text, Config(before + [EmptyBlock(prefix, handler)] + after))
    ensures FlatList(before + [EmptyBlock(prefix, handler)] + after)
    ensures SetUp([], text, Config([])) != Ready(Paired(before + [EmptyBlock(prefix, handler)] + after))
  {
    hide LocationBlock, Plain, IsLayoutOf, SetUp, NoCommentInHeader, MayBeEmpty;
    var b := EmptyBlock(prefix, handler);
    var ss := before + [b] + after;
    PairedAppend(before, [b]);
    PairedAppend(before + [b], after);
    assert ss[|before|] == b && IsEmptyOther(ss[|before|]);
    assert |before| + 1 < |ss| ==> ss[|before| + 1] == after[0];
    SetUpIff(text, Config(ss));
  }

  /* ---------- conf/backend.conf ---------- */

  const PORT := Statement(["port", "8081"], None)
  const ECHO := EmptyBlock("\"/echo\"", "EchoHandler")
  const ROOT := Statement(["root", "\"./data/www\""], None)
  const STATIC := Statement(["location", "\"/static_files\"", "StaticHandler"], Some(Config([ROOT])))

  /** From the comment on. */
  function BackendEnd(): string {
    "#" + " supports relative path" + ['\n'] + ("}" + "")
  }

  function BackendStatic(): string {
    "location" + (" " + "\"/static_files\"" + (" " + "StaticHandler" + (" {\n" + ("   " +
      ("root" + (" " + "\"./data/www\"" + (";" + ("  " + BackendEnd()))))))))
  }

  /** The whole file. */
  function Backend(): string {
    "port" + (" " + "8081" + (";" + ("\n\n" +
      ("location" + (" " + "\"/echo\"" + (" " + "EchoHandler" + (" {\n" + ("}" + ("\n\n" + BackendStatic())))))))))
  }

  lemma BackendEndTokens()
    ensures LexAll(BackendEnd()) == [Token(Comment, "#" + " supports relative path"), CLOSE, Token(Eof, "")]
  {
    hide LexAll;
    LexEmpty();
    LexPunctuation('}', "");
    NoBreak();
    CommentIsToken(" supports relative path", '\n', "}" + "");
  }

  lemma NoBreak()
    ensures '\n' !in " supports relative path" && '\r' !in " supports relative path"
  {
  }

  lemma TokensLexable()
    ensures Lexable("port") && Lexable("8081") && Lexable("location") && Lexable("EchoHandler") && Lexable("root")
    ensures Lexable("StaticHandler") && Lexable("\"/echo\"") && Lexable("\"/static_files\"") && Lexable("\"./data/www\"")
  {
    assert IsQuoted("\"/echo\"", '"') && IsQuoted("\"/static_files\"", '"') && IsQuoted("\"./data/www\"", '"');
    assert IsBare("port") && IsBare("8081") && IsBare("location");
    assert IsBare("EchoHandler") && IsBare("root") && IsBare("StaticHandler");
  }

  lemma BackendStaticTokens()
    ensures LexAll(BackendStatic())
         == [Token(Normal, "location"), Token(Normal, "\"/static_files\""), Token(Normal, "StaticHandler"), OPEN,
             Token(Normal, "root"), Token(Normal, "\"./data/www\""), SEMICOLON] + LexAll(BackendEnd())
  {
    hide LexAll, Lexable, BackendEnd;
    TokensLexable();
    var end := ";" + ("  " + BackendEnd());
    BlanksAreSkipped("  ", BackendEnd());
    LexPunctuation(';', "  " + BackendEnd());
    LexOneToken("\"./data/www\"", true, end);
    var root := "root" + (" " + "\"./data/www\"" + end);
    LexOneToken("root", false, " " + "\"./data/www\"" + end);
    assert "" + "root" + (" " + "\"./data/www\"" + end) == root;
    BlanksAreSkipped("   ", root);
    LexBlockOpen("   " + root);
    LexOneToken("StaticHandler", true, " {\n" + ("   " + root));
    var handler := " " + "StaticHandler" + (" {\n" + ("   " + root));
    LexOneToken("\"/static_files\"", true, handler);
    LexOneToken("location", false, " " + "\"/static_files\"" + handler);
    assert "" + "location" + (" " + "\"/static_files\"" + handler) == BackendStatic();
  }

  lemma BackendTokens()
    ensures LexAll(Backend())
         == [Token(Normal, "port"), Token(Normal, "8081"), SEMICOLON,
             Token(Normal, "location"), Token(Normal, "\"/echo\""), Token(Normal, "EchoHandler"), OPEN, CLOSE]
            + LexAll(BackendStatic())
  {
    hide LexAll, Lexable, BackendStatic;
    TokensLexable();
    var after := "\n\n" + BackendStatic();
    BlanksAreSkipped("\n\n", BackendStatic());
    LexPunctuation('}', after);
    LexBlockOpen("}" + after);
    var handler := " " + "EchoHandler" + (" {\n" + ("}" + after));
    LexOneToken("EchoHandler", true, " {\n" + ("}" + after));
    LexOneToken("\"/echo\"", true, handler);
    var echo := "location" + (" " + "\"/echo\"" + handler);
    LexOneToken("location", false, " " + "\"/echo\"" + handler);
    assert "" + "location" + (" " + "\"/echo\"" + handler) == echo;
    BlanksAreSkipped("\n\n", echo);
    LexPunctuation(';', "\n\n" + echo);
    LexOneToken("8081", true, ";" + ("\n\n" + echo));
    LexOneToken("port", false, " " + "8081" + (";" + ("\n\n" + echo)));
    assert "" + "port" + (" " + "8081" + (";" + ("\n\n" + echo))) == Backend();
  }

  const BACKEND_FRONT := [Token(Normal, "port"), Token(Normal, "8081"), SEMICOLON,
                          Token(Normal, "location"), Token(Normal, "\"/echo\""), Token(Normal, "EchoHandler"), OPEN, CLOSE,
                          Token(Normal, "location"), Token(Normal, "\"/static_files\""), Token(Normal, "StaticHandler"), OPEN,
                          Token(Normal, "root"), Token(Normal, "\"./data/www\""), SEMICOLON]
  const BACKEND_COMMENT := Token(Comment, "#" + " supports relative path")

  lemma BackendFlattened()
    ensures Flatten([PORT, ECHO, STATIC]) == BACKEND_FRONT + [CLOSE]
  {
    hide Flatten, Names;
    NameTokens(PORT.tokens);
    NameTokens(ECHO.tokens);
    NameTokens(ROOT.tokens);
    NameTokens(STATIC.tokens);
    FlattenNone();
    FlattenOne(ROOT);
    FlattenOne(STATIC);
    FlattenCons(PORT, [ECHO, STATIC]);
    FlattenCons(ECHO, [STATIC]);
    assert [PORT] + [ECHO, STATIC] == [PORT, ECHO, STATIC] && [ECHO] + [STATIC] == [ECHO, STATIC];
  }

  lemma FlattenNone()
    ensures Flatten([]) == []
  {
  }

  lemma FlattenCons(s: Statement, ss: seq<Statement>)
    ensures Flatten([s] + ss) == FlattenStatement(s) + Flatten(ss)
  {
    assert ([s] + ss)[1..] == ss;
  }

  lemma BackendIsFlat()
    ensures Plain(PORT) && LocationBlock(ECHO) && LocationBlock(STATIC)
    ensures FlatList([PORT, ECHO, STATIC]) && WellFormed(Config([PORT, ECHO, STATIC]))
  {
    hide Lexable;
    TokensLexable();
    assert StatementWellFormed(PORT) && StatementWellFormed(ROOT);
    assert Plain(ROOT) && WellFormed(Config([ROOT])) && WellFormed(Config([]));
    assert StatementWellFormed(ECHO) && StatementWellFormed(STATIC);
  }

  lemma BackendIsLayout(ts: seq<Token>)
    requires ts == BACKEND_FRONT + [BACKEND_COMMENT, CLOSE, Token(Eof, "")] && LexAll(Backend()) == ts
    ensures IsLayoutOf(Backend(), Config([PORT, ECHO, STATIC])) && NoCommentInHeader(ts)
  {
    hide LexAll, NonComments, Flatten, WellFormed, Backend;
    BackendIsFlat();
    BackendFlattened();
    assert ts[..|ts| - 1] == BACKEND_FRONT + ([BACKEND_COMMENT] + [CLOSE]);
    NonCommentsAppend(BACKEND_FRONT, [BACKEND_COMMENT] + [CLOSE]);
    NonCommentsAppend([BACKEND_COMMENT], [CLOSE]);
    CommentGoes(BACKEND_COMMENT);
    WithoutNone([CLOSE]);
    WithoutNone(BACKEND_FRONT);
  }

  lemma CommentGoes(t: Token)
    requires t.kind == Comment
    ensures NonComments([t]) == []
  {
  }

  /** The shipped backend configuration, an empty EchoHandler block before a StaticHandler block and a
      comment at its end, is set up with both headers and their own blocks. */
  lemma BackendIsSetUp()
    ensures SetUp([], Backend(), Config([]))
         == Ready([ConfigBlock(Header("\"/echo\"", "EchoHandler"), Config([])),
                   ConfigBlock(Header("\"/static_files\"", "StaticHandler"), Config([Statement(["root", "\"./data/www\""], None)]))])
  {
    hide LexAll, Backend, BackendStatic, BackendEnd, SetUp, IsLayoutOf, NoCommentInHeader, FlatList;
    BackendTokens();
    BackendStaticTokens();
    BackendEndTokens();
    var ts := LexAll(Backend());
    assert ts == BACKEND_FRONT + [BACKEND_COMMENT, CLOSE, Token(Eof, "")];
    BackendIsLayout(ts);
    BackendIsFlat();
    var ss := [PORT, ECHO, STATIC];
    BackendPaired();
    assert EmptyBlocksFollowed(ss);
    SetUpIff(Backend(), Config(ss));
  }

  lemma BackendPaired()
    requires FlatList([PORT, ECHO, STATIC])
    ensures Paired([PORT, ECHO, STATIC])
         == [ConfigBlock(Header("\"/echo\"", "EchoHandler"), Config([])),
             ConfigBlock(Header("\"/static_files\"", "StaticHandler"), Config([ROOT]))]
  {
    hide Plain, LocationBlock, FlatList, Paired;
    assert FlatList([]) && FlatList([PORT]) && FlatList([ECHO]) && FlatList([STATIC]) by { BackendPartsFlat(); }
    PairedNone();
    PairedCons(STATIC, []);
    PairedCons(ECHO, [STATIC]);
    assert [STATIC] + [] == [STATIC] && [ECHO] + [STATIC] == [ECHO, STATIC];
    PairedCons(PORT, [ECHO, STATIC]);
    assert [PORT] + [ECHO, STATIC] == [PORT, ECHO, STATIC];
  }

  lemma BackendPartsFlat()
    ensures FlatList([]) && FlatList([PORT]) && FlatList([ECHO]) && FlatList([STATIC])
  {
    hide Plain, LocationBlock;
    BackendIsFlat();
  }

  lemma PairedNone()
    ensures FlatList([]) && Paired([]) == []
  {
  }
}
