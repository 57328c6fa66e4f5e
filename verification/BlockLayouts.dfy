/** When the header scan and the parser agree, over every layout of a flat config: each empty block
    of an unlisted handler must be directly followed by a plain statement, and no comment may stand
    in a header where the scan would take it for a part of it. */
module BlockLayouts {
  import opened Common
  import opened ConfigTree
  import opened ConfigLexer
  import opened ConfigParser
  import opened ConfigTheorems
  import opened ConfigCharacters
  import opened ConfigBlocks
  import opened BlockAgreement

  /* ---------- comments in headers ---------- */

  const LOCATION := Token(Normal, "location")

  predicate BraceAhead(ts: seq<Token>) {
    ts != [] ==> ts[0].kind != Comment
  }

  predicate HandlerAhead(ts: seq<Token>) {
    ts != [] ==> ts[0].kind != Comment && (Listed(ts[0].value) || BraceAhead(ts[1..]))
  }

  predicate HeaderAhead(ts: seq<Token>) {
    ts != [] ==> ts[0].kind != Comment && HandlerAhead(ts[1..])
  }

  /** After every `location` no comment comes before the handler type, nor, unless that is a listed
      one, between it and the next token. */
  predicate HeadersIntact(ts: seq<Token>) {
    ts != [] ==> (ts[0] == LOCATION ==> HeaderAhead(ts[1..])) && HeadersIntact(ts[1..])
  }

  /** The same, for a scan that is already inside a header. */
  predicate Intact(mode: Mode, ts: seq<Token>) {
    match mode
    case Between(after) => after ==> HeaderAhead(ts)
    case NeedHandler(_) => HandlerAhead(ts)
    case NeedBrace(_) => BraceAhead(ts)
    case SkipToClose => true
    case SkipToSemicolon => true
  }

  /** Tokens as the scanner delivers them, or a tail of them. */
  predicate Tail(ts: seq<Token>) {
    forall i :: 0 <= i < |ts| ==> Proper(ts[i]) && (Final(ts[i].kind) ==> i == |ts| - 1)
  }

  lemma TailStep(ts: seq<Token>)
    requires Tail(ts) && ts != []
    ensures Tail(ts[1..]) && Proper(ts[0])
    ensures ts[0].kind == Comment ==> ts[0].value != "" && ts[0].value[0] == '#'
    ensures ts[0].value == "location" && ts[1..] != [] ==> ts[0] == LOCATION
  {
  }

  lemma IntactStep(sc: Scanner, ts: seq<Token>)
    requires ts != [] && HeadersIntact(ts) && Intact(sc.mode, ts)
    requires ts[0].kind == Comment ==> ts[0].value != "" && ts[0].value[0] == '#'
    requires ts[0].value == "location" && ts[1..] != [] ==> ts[0] == LOCATION
    ensures HeadersIntact(ts[1..])
    ensures ts[0].kind == Comment ==> Advance(sc, ts[0].value) == sc && Intact(sc.mode, ts[1..])
    ensures ts[0].kind != Comment ==> Intact(Advance(sc, ts[0].value).mode, ts[1..])
  {
  }

  /** Comments that leave the headers intact do not change the scan. */
  lemma {:induction false} ScanIgnoresComments(sc: Scanner, ts: seq<Token>)
    requires Tail(ts) && HeadersIntact(ts) && Intact(sc.mode, ts)
    ensures ScanValues(sc, Values(ts)) == ScanValues(sc, Values(NonComments(ts)))
    decreases |ts|
  {
    hide Tail, Advance, Intact, HeadersIntact;
    if ts != [] {
      var t, rest := ts[0], ts[1..];
      TailStep(ts);
      IntactStep(sc, ts);
      assert Values(ts)[1..] == Values(rest);
      if t.kind == Comment {
        assert NonComments(ts) == NonComments(rest);
        ScanIgnoresComments(sc, rest);
      } else {
        assert NonComments(ts) == [t] + NonComments(rest);
        assert Values(NonComments(ts))[1..] == Values(NonComments(rest));
        if !(sc.mode.Between? && t.value == "") {
          ScanIgnoresComments(Advance(sc, t.value), rest);
        }
      }
    }
  }

  /* ---------- a header that is not intact is lost ---------- */

  predicate CleanWord(s: string) { s == "" || s[0] != '#' }

  predicate CleanHeader(h: Header) { CleanWord(h.prefix) && CleanWord(h.handler) }

  /** How many headers hold no comment. */
  function CleanCount(hs: seq<Header>): nat {
    if hs == [] then 0
    else CleanCount(hs[..|hs| - 1]) + (if CleanHeader(hs[|hs| - 1]) then 1 else 0)
  }

  function LocationCount(ts: seq<Token>): nat {
    if ts == [] then 0 else (if ts[0] == LOCATION then 1 else 0) + LocationCount(ts[1..])
  }

  function IntactCount(ts: seq<Token>): nat {
    if ts == [] then 0
    else (if ts[0] == LOCATION && HeaderAhead(ts[1..]) then 1 else 0) + IntactCount(ts[1..])
  }

  /** Whether the header the scan is inside can still be found without a comment in it. */
  function Credit(mode: Mode, ts: seq<Token>): nat {
    match mode
    case Between(after) => if after && HeaderAhead(ts) then 1 else 0
    case NeedHandler(p) => if CleanWord(p) && HandlerAhead(ts) then 1 else 0
    case NeedBrace(h) => if CleanHeader(h) && BraceAhead(ts) then 1 else 0
    case SkipToClose => 0
    case SkipToSemicolon => 0
  }

  lemma CleanSnoc(hs: seq<Header>, h: Header)
    ensures CleanCount(hs + [h]) == CleanCount(hs) + (if CleanHeader(h) then 1 else 0)
  {
    assert (hs + [h])[..|hs|] == hs;
  }

  lemma CreditStep(sc: Scanner, t: Token, rest: seq<Token>)
    requires t.kind == Comment ==> t.value != "" && t.value[0] == '#'
    requires t.value == "location" ==> t == LOCATION
    ensures var next, ts := Advance(sc, t.value), [t] + rest;
            CleanCount(next.found) + Credit(next.mode, rest)
            <= CleanCount(sc.found) + Credit(sc.mode, ts) + (if t == LOCATION && HeaderAhead(rest) then 1 else 0)
  {
    assert ([t] + rest)[1..] == rest;
    match sc.mode
    case NeedHandler(p) => CleanSnoc(sc.found, Header(p, t.value));
    case NeedBrace(h) => CleanSnoc(sc.found, h);
    case _ =>
  }

  /** The scan finds no more headers without comments than there are intact ones. */
  lemma {:induction false} ScanFindsIntactOnly(sc: Scanner, ts: seq<Token>)
    requires Tail(ts)
    ensures var r := ScanValues(sc, Values(ts));
            r.Headers? ==> CleanCount(r.found) <= CleanCount(sc.found) + Credit(sc.mode, ts) + IntactCount(ts)
    decreases |ts|
  {
    hide Tail, CleanCount, Credit;
    if ts != [] {
      var t, rest := ts[0], ts[1..];
      TailStep(ts);
      assert Values(ts)[1..] == Values(rest) && [t] + rest == ts;
      if !(sc.mode.Between? && t.value == "") && rest != [] {
        CreditStep(sc, t, rest);
        ScanFindsIntactOnly(Advance(sc, t.value), rest);
      }
    }
  }

  lemma {:induction false} BrokenHeaderNotCounted(ts: seq<Token>)
    ensures IntactCount(ts) <= LocationCount(ts)
    ensures !HeadersIntact(ts) ==> IntactCount(ts) < LocationCount(ts)
  {
    if ts != [] {
      BrokenHeaderNotCounted(ts[1..]);
    }
  }

  lemma {:induction false} LocationsAppend(a: seq<Token>, b: seq<Token>)
    ensures LocationCount(a + b) == LocationCount(a) + LocationCount(b)
  {
    if a == [] {
      assert a + b == b;
    } else {
      assert (a + b)[1..] == a[1..] + b;
      LocationsAppend(a[1..], b);
    }
  }

  lemma {:induction false} LocationsWithoutComments(ts: seq<Token>)
    ensures LocationCount(NonComments(ts)) == LocationCount(ts)
  {
    if ts != [] {
      LocationsWithoutComments(ts[1..]);
      var first := if ts[0].kind == Comment then [] else [ts[0]];
      LocationsAppend(first, NonComments(ts[1..]));
      assert NonComments(ts) == first + NonComments(ts[1..]);
    }
  }

  lemma {:induction false} NoLocationNames(names: seq<string>)
    requires "location" !in names
    ensures LocationCount(Names(names)) == 0
  {
    if names != [] {
      assert names[0] in names;
      assert Names(names)[1..] == Names(names[1..]);
      NoLocationNames(names[1..]);
    }
  }

  lemma PlainHasNoLocation(s: Statement)
    requires Plain(s)
    ensures LocationCount(FlattenStatement(s)) == 0
  {
    NoLocationNames(s.tokens);
    LocationsAppend(Names(s.tokens), [SEMICOLON]);
    assert LocationCount([SEMICOLON]) == 0;
  }

  lemma {:induction false} PlainHasNoLocations(ss: seq<Statement>)
    requires PlainList(ss)
    ensures LocationCount(Flatten(ss)) == 0
  {
    if ss != [] {
      PlainHasNoLocation(ss[0]);
      LocationsAppend(FlattenStatement(ss[0]), Flatten(ss[1..]));
      PlainHasNoLocations(ss[1..]);
    }
  }

  lemma BlockHasOneLocation(s: Statement)
    requires LocationBlock(s)
    ensures LocationCount(FlattenStatement(s)) == 1
  {
    var inner := Flatten(s.child.value.statements);
    assert s.tokens == ["location"] + s.tokens[1..];
    NamesAppend(["location"], s.tokens[1..]);
    NoLocationNames(s.tokens[1..]);
    assert Names(["location"]) == [LOCATION];
    LocationsAppend([LOCATION], Names(s.tokens[1..]));
    LocationsAppend(Names(s.tokens), [OPEN] + inner + [CLOSE]);
    LocationsAppend([OPEN] + inner, [CLOSE]);
    LocationsAppend([OPEN], inner);
    PlainHasNoLocations(s.child.value.statements);
  }

  lemma {:induction false} LocationsOfFlat(ss: seq<Statement>)
    requires FlatList(ss)
    ensures LocationCount(Flatten(ss)) == |HeadersOf(ss)|
  {
    hide Plain, LocationBlock, FlattenStatement;
    if ss != [] {
      LocationsAppend(FlattenStatement(ss[0]), Flatten(ss[1..]));
      LocationsOfFlat(ss[1..]);
      FlatStatementLocations(ss[0]);
    }
  }

  lemma FlatStatementLocations(s: Statement)
    requires Plain(s) || LocationBlock(s)
    ensures LocationCount(FlattenStatement(s)) == if s.child.Some? then 1 else 0
  {
    if s.child.Some? {
      BlockHasOneLocation(s);
    } else {
      PlainHasNoLocation(s);
    }
  }

  lemma {:induction false} FlatHeadersAreClean(ss: seq<Statement>)
    requires FlatList(ss)
    ensures forall i :: 0 <= i < |HeadersOf(ss)| ==> CleanHeader(HeadersOf(ss)[i])
  {
    if ss != [] {
      FlatHeadersAreClean(ss[1..]);
      if ss[0].child.Some? {
        assert Lexable(ss[0].tokens[1]) && Lexable(ss[0].tokens[2]);
      }
    }
  }

  lemma {:induction false} AllCleanCount(hs: seq<Header>)
    requires forall i :: 0 <= i < |hs| ==> CleanHeader(hs[i])
    ensures CleanCount(hs) == |hs|
  {
    if hs != [] {
      AllCleanCount(hs[..|hs| - 1]);
    }
  }

  /* ---------- main result ---------- */

  lemma LayoutTail(text: string, c: Config) returns (front: seq<Token>, last: Token)
    requires IsLayoutOf(text, c)
    ensures LexAll(text) == front + [last] && Tail(front + [last])
    ensures last.kind == Eof && EndValue(last.value)
    ensures NonComments(front + [last]) == Flatten(c.statements) + [last]
  {
    hide LexAll, Proper, Flatten, WellFormed, NonComments, EndValue;
    var ts := LexAll(text);
    LexAllDelivered(text);
    front, last := ts[..|ts| - 1], ts[|ts| - 1];
    assert ts == front + [last] && Proper(last);
    NonCommentsAppend(front, [last]);
    EndToken(last);
  }

  lemma EndToken(t: Token)
    requires Proper(t) && t.kind == Eof
    ensures EndValue(t.value) && NonComments([t]) == [t]
  {
  }

  lemma ScanOfLayout(text: string, c: Config) returns (e: string)
    requires IsLayoutOf(text, c) && HeadersIntact(LexAll(text))
    ensures EndValue(e)
    ensures ScanText(Scanner(IDLE, []), text) == ScanFlat(IDLE, [], c.statements, e)
  {
    hide LexAll, IsLayoutOf, Tail, HeadersIntact;
    var front, last := LayoutTail(text, c);
    e := last.value;
    ValuesAppend(Flatten(c.statements), [last]);
    assert Values([last]) == [e];
    ScanIgnoresComments(Scanner(IDLE, []), front + [last]);
  }

  lemma BrokenHeaderIsMissed(text: string, c: Config)
    requires IsLayoutOf(text, c) && FlatList(c.statements) && !HeadersIntact(LexAll(text))
    ensures ScanText(Scanner(IDLE, []), text) != Headers(HeadersOf(c.statements))
  {
    hide LexAll, IsLayoutOf, Tail, HeadersIntact, FlatList, Flatten;
    var front, last := LayoutTail(text, c);
    var ts := front + [last];
    ScanFindsIntactOnly(Scanner(IDLE, []), ts);
    BrokenHeaderNotCounted(ts);
    LocationsWithoutComments(ts);
    LocationsAppend(Flatten(c.statements), [last]);
    assert LocationCount([last]) == 0;
    LocationsOfFlat(c.statements);
    FlatHeadersAreClean(c.statements);
    AllCleanCount(HeadersOf(c.statements));
  }

  function HeaderList(blocks: seq<ConfigBlock>): seq<Header> {
    if blocks == [] then [] else [blocks[0].header] + HeaderList(blocks[1..])
  }

  lemma {:induction false} UnfilledHeaders(hs: seq<Header>)
    ensures HeaderList(Unfilled(hs)) == hs
  {
    if hs != [] {
      UnfilledHeaders(hs[1..]);
      assert Unfilled(hs)[1..] == Unfilled(hs[1..]);
    }
  }

  lemma {:induction false} FillKeepsHeaders(blocks: seq<ConfigBlock>, contents: seq<Config>)
    requires |contents| <= |blocks|
    ensures HeaderList(Fill(blocks, contents)) == HeaderList(blocks)
    decreases |blocks|
  {
    if contents != [] {
      FillKeepsHeaders(blocks[1..], contents[1..]);
      assert Fill(blocks, contents)[1..] == Fill(blocks[1..], contents[1..]);
    }
  }

  /** The set-up pairs every header with its block exactly when the scan finds all headers. */
  lemma SetUpDecidedByScan(text: string, c: Config)
    requires IsLayoutOf(text, c) && FlatList(c.statements)
    ensures SetUp([], text, Config([])) == Ready(Paired(c.statements))
            <==> ScanText(Scanner(IDLE, []), text) == Headers(HeadersOf(c.statements))
    ensures var r := ScanText(Scanner(IDLE, []), text);
            r == Hangs || |r.found| < |HeadersOf(c.statements)| ==>
              SetUp([], text, Config([])).NeverReturns? || SetUp([], text, Config([])).OutOfRange?
  {
    hide IsLayoutOf, FlatList, ScanText, HeadersOf, Paired, PostOrder, Fill, HeaderList;
    var ss := c.statements;
    LayoutIsAccepted(text, c);
    AcceptedIsLayout(text);
    PostOrderOfFlat(ss);
    var r := ScanText(Scanner(IDLE, []), text);
    if r.Headers? {
      UnfilledLength(r.found);
      assert [] + Unfilled(r.found) == Unfilled(r.found);
      UnfilledHeaders(r.found);
      UnfilledHeaders(HeadersOf(ss));
      FillKeepsHeaders(Unfilled(HeadersOf(ss)), PostOrder(ss));
      if |PostOrder(ss)| <= |r.found| {
        FillKeepsHeaders(Unfilled(r.found), PostOrder(ss));
      }
    }
  }

  /** For every layout of a flat config a fresh port ends up with every header paired with its own
      block if and only if the config is guarded and the layout's comments leave the headers intact.
      With intact headers and an unguarded config, the call never returns or assigns past the end of
      the header list. */
  lemma ScansAgreeIff(text: string, c: Config)
    requires IsLayoutOf(text, c) && FlatList(c.statements)
    ensures SetUp([], text, Config([])) == Ready(Paired(c.statements))
            <==> Guarded(c.statements) && HeadersIntact(LexAll(text))
    ensures !Guarded(c.statements) && HeadersIntact(LexAll(text)) ==>
              SetUp([], text, Config([])).NeverReturns? || SetUp([], text, Config([])).OutOfRange?
  {
    hide IsLayoutOf, FlatList, SetUp, ScanText, HeadersIntact, Guarded;
    SetUpDecidedByScan(text, c);
    if HeadersIntact(LexAll(text)) {
      var e := ScanOfLayout(text, c);
      ScanFindsAllIffGuarded([], c.statements, e);
      assert [] + HeadersOf(c.statements) == HeadersOf(c.statements);
    } else {
      BrokenHeaderIsMissed(text, c);
    }
  }

  /** The printed form of a flat config is read back header by header and block by block exactly when
      the config is guarded. */
  lemma PrintedConfigSetsUp(c: Config, depth: int)
    requires FlatList(c.statements)
    ensures SetUp([], Print(c, depth), Config([])) == Ready(Paired(c.statements)) <==> Guarded(c.statements)
  {
    hide SetUp, Print, ParseText, HeadersIntact;
    var text := Print(c, depth);
    RoundTrip(c, depth);
    ParseIffGrammar(text, c);
    PrintedIsIntact(c, depth);
    ScansAgreeIff(text, c);
  }

  lemma PrintedIsIntact(c: Config, depth: int)
    requires WellFormed(c)
    ensures HeadersIntact(LexAll(Print(c, depth)))
  {
    LexStatements(c.statements, depth, "");
    assert Print(c, depth) + "" == Print(c, depth);
    assert LexAll("") == [Token(Eof, "")];
    FlattenHasNoComments(c.statements);
    NonCommentsAppend(Flatten(c.statements), [Token(Eof, "")]);
    NoCommentsIn(LexAll(Print(c, depth)));
    NoCommentsIntact(LexAll(Print(c, depth)));
  }

  lemma {:induction false} NoCommentsIntact(ts: seq<Token>)
    requires forall i :: 0 <= i < |ts| ==> ts[i].kind != Comment
    ensures HeadersIntact(ts)
  {
    if ts != [] {
      NoCommentsIntact(ts[1..]);
    }
  }

  lemma {:induction false} NoCommentsIn(ts: seq<Token>)
    requires NonComments(ts) == ts
    ensures forall i :: 0 <= i < |ts| ==> ts[i].kind != Comment
    decreases |ts|
  {
    if ts != [] {
      NonCommentsShorter(ts[1..]);
      assert ts[0].kind != Comment;
      assert NonComments(ts)[1..] == NonComments(ts[1..]);
      NoCommentsIn(ts[1..]);
    }
  }

  lemma {:induction false} NonCommentsShorter(ts: seq<Token>)
    ensures |NonComments(ts)| <= |ts|
  {
    if ts != [] {
      NonCommentsShorter(ts[1..]);
    }
  }

  /* ---------- concrete failures ---------- */

  /** A file whose only block is an empty one of an unlisted handler is accepted by the parser, yet
      setConfigBlocks does not set it up. */
  lemma EmptyStaticBlockFails()
    ensures var c := Config([Statement(["location", "\"/s\"", "StaticHandler"], Some(Config([])))]);
            && ParseText(Print(c, 0)).ok
            && !SetUp([], Print(c, 0), Config([])).Ready?
  {
    hide ParseText, SetUp, LexAll, Print, HeadersIntact;
    var s := Statement(["location", "\"/s\"", "StaticHandler"], Some(Config([])));
    var c := Config([s]);
    assert Lexable(s.tokens[0]) && Lexable(s.tokens[1]) && Lexable(s.tokens[2]);
    assert LocationBlock(s) && Swallows(c.statements[0]);
    RoundTrip(c, 0);
    ParseIffGrammar(Print(c, 0), c);
    PrintedIsIntact(c, 0);
    ScansAgreeIff(Print(c, 0), c);
  }

  const PREFIX := "\"/x\""
  const HANDLER := "StaticHandler"

  /** `location "/x" #c`, a line break and `StaticHandler {`, `root a;}`. */
  function CommentedHeader(rest: string): string {
    "location" + (" " + PREFIX + (" " + ("#" + "c" + ['\n'] + rest)))
  }

  function CommentedBody(): string {
    HANDLER + (" {\n" + ("root" + (" " + "a" + (";" + ("}" + "")))))
  }

  lemma CommentedHeaderTokens(rest: string)
    ensures LexAll(CommentedHeader(rest)) == [LOCATION, Token(Normal, PREFIX), Token(Comment, "#c")] + LexAll(rest)
  {
    hide LexAll;
    var comment := "#" + "c" + ['\n'] + rest;
    CommentIsToken("c", '\n', rest);
    LexBlank(' ', comment);
    LexOneToken(PREFIX, true, " " + comment);
    var after := " " + PREFIX + (" " + comment);
    LexOneToken("location", false, after);
    assert "" + "location" + after == CommentedHeader(rest);
    assert "#" + "c" == "#c";
  }

  lemma CommentedBodyTokens()
    ensures LexAll(CommentedBody()) == [Token(Normal, HANDLER), OPEN, Token(Normal, "root"), Token(Normal, "a"), SEMICOLON, CLOSE, Token(Eof, "")]
  {
    hide LexAll;
    var end := ";" + ("}" + "");
    LexEmpty();
    LexPunctuation('}', "");
    LexPunctuation(';', "}" + "");
    LexOneToken("a", true, end);
    var root := "root" + (" " + "a" + end);
    LexOneToken("root", false, " " + "a" + end);
    assert "" + "root" + (" " + "a" + end) == root;
    LexBlockOpen(root);
    LexOneToken(HANDLER, false, " {\n" + root);
    assert "" + HANDLER + (" {\n" + root) == CommentedBody();
  }

  lemma LexEmpty()
    ensures LexAll("") == [Token(Eof, "")]
  {
  }

  const ROOT_LINE := Statement(["root", "a"], None)
  const COMMENTED := Statement(["location", PREFIX, HANDLER], Some(Config([ROOT_LINE])))

  lemma CommentedIsFlat()
    ensures Plain(ROOT_LINE) && LocationBlock(COMMENTED) && StatementWellFormed(COMMENTED) && !Swallows(COMMENTED)
  {
    assert Lexable(ROOT_LINE.tokens[0]) && Lexable(ROOT_LINE.tokens[1]);
    assert StatementWellFormed(ROOT_LINE);
    assert Lexable(COMMENTED.tokens[0]) && Lexable(COMMENTED.tokens[1]) && Lexable(COMMENTED.tokens[2]);
  }

  lemma CommentedFlattened()
    ensures Flatten([COMMENTED]) == [LOCATION, Token(Normal, PREFIX), Token(Normal, HANDLER), OPEN,
                                     Token(Normal, "root"), Token(Normal, "a"), SEMICOLON, CLOSE]
  {
    hide Flatten, Names;
    NameTokens(ROOT_LINE.tokens);
    NameTokens(COMMENTED.tokens);
    FlattenOne(ROOT_LINE);
    FlattenOne(COMMENTED);
  }

  lemma FlattenOne(s: Statement)
    ensures Flatten([s]) == FlattenStatement(s)
  {
  }

  lemma {:induction false} NameTokens(names: seq<string>)
    ensures Names(names) == seq(|names|, i requires 0 <= i < |names| => Token(Normal, names[i]))
  {
    if names != [] {
      NameTokens(names[1..]);
    }
  }

  /** A flat, guarded config and an accepted layout of it whose comment stands between prefix and
      handler type: the scan loses the header, and the one parsed block is assigned out of range. */
  lemma CommentInHeaderFails()
    ensures var c, text := Config([COMMENTED]), CommentedHeader(CommentedBody());
            && IsLayoutOf(text, c) && FlatList(c.statements) && Guarded(c.statements)
            && SetUp([], text, Config([])) == OutOfRange
  {
    hide LexAll, CommentedHeader, CommentedBody, SetUp, Flatten, NonComments, FlatList, Plain, LocationBlock, StatementWellFormed;
    var c, text := Config([COMMENTED]), CommentedHeader(CommentedBody());
    CommentedHeaderTokens(CommentedBody());
    CommentedBodyTokens();
    CommentedIsLayout(text);
    CommentedScan(text);
    CommentedOutOfRange(text);
  }

  const COMMENTED_FRONT := [LOCATION, Token(Normal, PREFIX), Token(Comment, "#c")]
  const COMMENTED_BACK := [Token(Normal, HANDLER), OPEN, Token(Normal, "root"), Token(Normal, "a"), SEMICOLON, CLOSE]
  const END := Token(Eof, "")

  lemma CommentedIsLayout(text: string)
    requires LexAll(text) == COMMENTED_FRONT + (COMMENTED_BACK + [END])
    ensures IsLayoutOf(text, Config([COMMENTED])) && FlatList([COMMENTED]) && Guarded([COMMENTED])
  {
    hide LexAll, Flatten, NonComments;
    CommentedIsFlat();
    CommentedFlattened();
    var ts := LexAll(text);
    assert ts[..|ts| - 1] == COMMENTED_FRONT + COMMENTED_BACK;
    NonCommentsAppend(COMMENTED_FRONT, COMMENTED_BACK);
    CommentedWithout();
  }

  lemma CommentedWithout()
    ensures NonComments(COMMENTED_FRONT) == [LOCATION, Token(Normal, PREFIX)]
    ensures NonComments(COMMENTED_BACK) == COMMENTED_BACK
  {
    var c := [Token(Comment, "#c")];
    assert NonComments(c) == [];
    WithoutNone([LOCATION, Token(Normal, PREFIX)]);
    NonCommentsAppend([LOCATION, Token(Normal, PREFIX)], c);
    assert COMMENTED_FRONT == [LOCATION, Token(Normal, PREFIX)] + c;
    WithoutNone(COMMENTED_BACK);
  }

  lemma {:induction false} WithoutNone(ts: seq<Token>)
    requires forall i :: 0 <= i < |ts| ==> ts[i].kind != Comment
    ensures NonComments(ts) == ts
  {
    if ts != [] {
      WithoutNone(ts[1..]);
    }
  }

  lemma CommentedScan(text: string)
    requires LexAll(text) == COMMENTED_FRONT + (COMMENTED_BACK + [END])
    ensures ScanText(Scanner(IDLE, []), text) == Headers([])
  {
    hide LexAll, Values, ScanValues;
    var back := ["{", "root", "a", ";", "}"];
    var fromHandler := back + [""];
    var fromComment := [HANDLER] + fromHandler;
    var fromPrefix := ["#c"] + fromComment;
    var vs := ["location"] + ([PREFIX] + fromPrefix);
    assert Values(LexAll(text)) == vs by {
      ValueTokens(LexAll(text));
    }
    ScanOne(Scanner(IDLE, []), "location", [PREFIX] + fromPrefix);
    ScanOne(Scanner(Between(true), []), PREFIX, fromPrefix);
    ScanOne(Scanner(NeedHandler(PREFIX), []), "#c", fromComment);
    ScanOne(Scanner(NeedBrace(Header(PREFIX, "#c")), []), HANDLER, fromHandler);
    ScanStays(Scanner(IDLE, []), back, [""]);
    ScanEnd(Scanner(IDLE, []), "");
  }

  lemma {:induction false} ValueTokens(ts: seq<Token>)
    ensures Values(ts) == seq(|ts|, i requires 0 <= i < |ts| => ts[i].value)
  {
    if ts != [] {
      ValueTokens(ts[1..]);
    }
  }

  lemma CommentedOutOfRange(text: string)
    requires IsLayoutOf(text, Config([COMMENTED])) && FlatList([COMMENTED])
    requires ScanText(Scanner(IDLE, []), text) == Headers([])
    ensures SetUp([], text, Config([])) == OutOfRange
  {
    hide IsLayoutOf, FlatList, ScanText, PostOrder;
    LayoutIsAccepted(text, Config([COMMENTED]));
    AcceptedIsLayout(text);
    PostOrderOfFlat([COMMENTED]);
    assert |HeadersOf([COMMENTED])| == 1;
  }
}
