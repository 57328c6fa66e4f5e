/** port::setConfigBlocks: a second scan of the config file finds the `location` headers, and the
    blocks collected by the parser are assigned to them by position. */
module ConfigBlocks {
  import opened ConfigTree
  import opened ConfigLexer
  import opened ConfigParser

  datatype Header = Header(prefix: string, handler: string)
  datatype ConfigBlock = ConfigBlock(header: Header, content: Config)

  /** Handlers whose blocks are skipped up to their closing brace. */
  predicate Listed(handler: string) {
    handler in {"EchoHandler", "StatusHandler", "ErrorHandler", "HealthHandler", "ProxyHandler", "CacheHandler"}
  }

  /* ---------- the header scan, one token at a time ---------- */

  datatype Mode =
    | Between(afterLocation: bool)
    | NeedHandler(prefix: string)
    | NeedBrace(header: Header)
    | SkipToClose
    | SkipToSemicolon
  datatype Scanner = Scanner(mode: Mode, found: seq<Header>)

  /** The scan ends with some headers, or spins forever at the end of the file. */
  datatype Scanned = Headers(found: seq<Header>) | Hangs

  function Advance(sc: Scanner, t: string): Scanner {
    match sc.mode
    case Between(true) => sc.(mode := NeedHandler(t))
    case Between(false) => sc.(mode := Between(t == "location"))
    case NeedHandler(p) =>
      if Listed(t) then Scanner(SkipToClose, sc.found + [Header(p, t)])
      else sc.(mode := NeedBrace(Header(p, t)))
    case NeedBrace(h) =>
      if t == "{" then Scanner(SkipToSemicolon, sc.found + [h]) else sc.(mode := Between(t == "location"))
    case SkipToClose => if t == "}" then sc.(mode := Between(false)) else sc
    case SkipToSemicolon => if t == ";" then sc.(mode := Between(false)) else sc
  }

  /** The scan over the values of all remaining tokens; past the last one every read gives "". */
  function ScanValues(sc: Scanner, vs: seq<string>): Scanned
    decreases |vs|
  {
    if vs == [] then
      if sc.mode.SkipToClose? || sc.mode.SkipToSemicolon? then Hangs else Headers(sc.found)
    else if sc.mode.Between? && vs[0] == "" then Headers(sc.found)
    else ScanValues(Advance(sc, vs[0]), vs[1..])
  }

  function Values(ts: seq<Token>): seq<string> {
    if ts == [] then [] else [ts[0].value] + Values(ts[1..])
  }

  function ScanText(sc: Scanner, s: string): Scanned {
    ScanValues(sc, Values(LexAll(s)))
  }

  lemma ScanPull(sc: Scanner, s: string)
    ensures var l := NextToken(s);
            ScanText(sc, s) == if sc.mode.Between? && l.token.value == "" then Headers(sc.found)
                               else ScanText(Advance(sc, l.token.value), l.rest)
  {
    var l := NextToken(s);
    if Final(l.token.kind) {
      var next := Advance(sc, l.token.value);
      assert l.rest == "" && LexAll("") == [Token(Eof, "")];
      assert Values([Token(Eof, "")]) == [""];
      assert Values(LexAll(s)) == [l.token.value];
      assert ScanValues(next, [""]) == ScanValues(next, []);
    } else {
      assert Values(LexAll(s)) == [l.token.value] + Values(LexAll(l.rest));
    }
  }

  lemma ScanExhausted(sc: Scanner)
    requires sc.mode.SkipToClose? || sc.mode.SkipToSemicolon?
    ensures ScanText(sc, "") == Hangs
  {
    assert LexAll("") == [Token(Eof, "")];
    assert Values([Token(Eof, "")]) == [""];
    assert ScanValues(sc, [""]) == ScanValues(sc, []);
  }

  /** What setConfigBlocks comes to: the file never finishes scanning, or there are more parsed
      blocks than headers and the assignment runs off the end, or the blocks are ready. */
  datatype Setup = Ready(blocks: seq<ConfigBlock>) | NeverReturns | OutOfRange

  function Unfilled(hs: seq<Header>): seq<ConfigBlock> {
    if hs == [] then [] else [ConfigBlock(hs[0], Config([]))] + Unfilled(hs[1..])
  }

  lemma {:induction false} UnfilledAppend(a: seq<Header>, b: seq<Header>)
    ensures Unfilled(a + b) == Unfilled(a) + Unfilled(b)
  {
    if a == [] {
      assert a + b == b;
    } else {
      assert (a + b)[1..] == a[1..] + b;
      UnfilledAppend(a[1..], b);
    }
  }

  function Fill(blocks: seq<ConfigBlock>, contents: seq<Config>): seq<ConfigBlock>
    requires |contents| <= |blocks|
  {
    if contents == [] then blocks
    else [blocks[0].(content := contents[0])] + Fill(blocks[1..], contents[1..])
  }

  function SetUp(existing: seq<ConfigBlock>, text: string, config: Config): Setup {
    var contents := Run(Begin(config, []), LexAll(text)).blocks;
    match ScanText(Scanner(Between(false), []), text)
    case Hangs => NeverReturns
    case Headers(found) =>
      var blocks := existing + Unfilled(found);
      if |contents| > |blocks| then OutOfRange else Ready(Fill(blocks, contents))
  }

  /** The inner loops `while (token != stop) token = getToken()`. Once the input is used up every
      further token is "", so a loop still waiting then never ends. */
  method SkipTo(input: CharStream, stop: string, ghost sc: Scanner) returns (hangs: bool)
    requires input.Valid()
    requires (stop == "}" && sc.mode == SkipToClose) || (stop == ";" && sc.mode == SkipToSemicolon)
    modifies input
    ensures input.Valid()
    ensures hangs ==> ScanText(sc, old(input.Rest())) == Hangs
    ensures !hangs ==> ScanText(sc, old(input.Rest())) == ScanText(sc.(mode := Between(false)), input.Rest())
    ensures |input.Rest()| <= |old(input.Rest())|
  {
    var token := "";
    while token != stop
      invariant input.Valid() && |input.Rest()| <= |old(input.Rest())|
      invariant ScanText(sc, old(input.Rest()))
             == ScanText(if token == stop then sc.(mode := Between(false)) else sc, input.Rest())
      decreases |input.Rest()|, token != stop
    {
      if input.pos == |input.text| {
        ScanExhausted(sc);
        return true;
      }
      ScanPull(sc, input.Rest());
      token := GetToken(input);
    }
    hangs := false;
  }

  class Port {
    var configBlocks: seq<ConfigBlock>

    constructor ()
      ensures configBlocks == []
    {
      configBlocks := [];
    }

    /** The part of the scan after `location` and a prefix; returns the last token it read. */
    method ReadHeader(input: CharStream, prefix: string, ghost base: seq<ConfigBlock>, ghost found: seq<Header>)
      returns (hangs: bool, token: string, ghost found': seq<Header>)
      requires input.Valid() && configBlocks == base + Unfilled(found)
      modifies this, input
      ensures input.Valid() && |input.Rest()| <= |old(input.Rest())|
      ensures hangs ==> ScanText(Scanner(NeedHandler(prefix), found), old(input.Rest())) == Hangs
      ensures !hangs ==>
                && ScanText(Scanner(NeedHandler(prefix), found), old(input.Rest()))
                   == ScanText(Scanner(Between(token == "location"), found'), input.Rest())
                && configBlocks == base + Unfilled(found')
    {
      found' := found;
      ScanPull(Scanner(NeedHandler(prefix), found), input.Rest());
      token := GetToken(input);
      var block := ConfigBlock(Header(prefix, token), Config([]));
      UnfilledAppend(found, [block.header]);
      assert Unfilled([block.header]) == [block];
      hangs := false;
      if Listed(token) {
        configBlocks := configBlocks + [block];
        found' := found' + [block.header];
        hangs := SkipTo(input, "}", Scanner(SkipToClose, found'));
        token := "}";
      } else {
        ScanPull(Scanner(NeedBrace(block.header), found), input.Rest());
        token := GetToken(input);
      }
      if token == "{" {
        configBlocks := configBlocks + [block];
        found' := found' + [block.header];
        hangs := SkipTo(input, ";", Scanner(SkipToSemicolon, found'));
        token := ";";
      }
    }

    /** The scan for block headers, which appends them to configBlocks. */
    method ScanHeaders(input: CharStream) returns (hangs: bool)
      requires input.Valid()
      modifies this, input
      ensures match ScanText(Scanner(Between(false), []), old(input.Rest()))
              case Hangs => hangs
              case Headers(found) => !hangs && configBlocks == old(configBlocks) + Unfilled(found)
    {
      ghost var found := [];
      ScanPull(Scanner(Between(false), []), input.Rest());
      var lastToken := "";
      var token := GetToken(input);
      while token != ""
        invariant input.Valid()
        invariant configBlocks == old(configBlocks) + Unfilled(found)
        invariant ScanText(Scanner(Between(false), []), old(input.Rest()))
               == if token == "" then Headers(found)
                  else ScanText(Advance(Scanner(Between(lastToken == "location"), found), token), input.Rest())
        decreases |input.Rest()|, token != ""
      {
        if lastToken == "location" {
          hangs, token, found := ReadHeader(input, token, old(configBlocks), found);
          if hangs {
            return;
          }
        }
        lastToken := token;
        ScanPull(Scanner(Between(lastToken == "location"), found), input.Rest());
        token := GetToken(input);
      }
      hangs := false;
    }

    /** The i-th parsed block becomes the content of the i-th header. */
    method AssignContents(blocks: seq<Config>) returns (ok: bool)
      modifies this
      ensures ok <==> |blocks| <= |old(configBlocks)|
      ensures ok ==> configBlocks == Fill(old(configBlocks), blocks)
    {
      ghost var start := configBlocks;
      var i := 0;
      while i < |blocks|
        invariant 0 <= i <= |blocks| && i <= |configBlocks| == |start|
        invariant configBlocks[i..] == start[i..]
        invariant |blocks| <= |start| ==> configBlocks[..i] + Fill(start[i..], blocks[i..]) == Fill(start, blocks)
      {
        if i >= |configBlocks| {
          return false;
        }
        assert start[i..][1..] == start[i + 1..] && blocks[i..][1..] == blocks[i + 1..];
        configBlocks := configBlocks[i := configBlocks[i].(content := blocks[i])];
        i := i + 1;
      }
      ok := true;
    }

    method SetConfigBlocks(text: string, config: ConfigCell) returns (r: Setup)
      modifies this, config
      ensures r == SetUp(old(configBlocks), text, old(config.tree))
      ensures config.tree == Run(Begin(old(config.tree), []), LexAll(text)).tree
      ensures r.Ready? ==> configBlocks == r.blocks
    {
      var parser := new NginxConfigParser();
      var file := new CharStream(text);
      var _ := parser.Parse(file, config);

      var input := new CharStream(text);
      var hangs := ScanHeaders(input);
      if hangs {
        return NeverReturns;
      }
      var ok := AssignContents(parser.configBlocksContent);
      r := if ok then Ready(configBlocks) else OutOfRange;
    }
  }
}
