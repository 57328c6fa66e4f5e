/** The header scan over the tokens of a flat config, comments aside: it finds every `location`
    header exactly when each empty block of an unlisted handler is directly followed by a plain
    statement. */
module BlockAgreement {
  import opened ConfigTree
  import opened ConfigBlocks

  predicate Plain(s: Statement) {
    StatementWellFormed(s) && s.child.None? && "location" !in s.tokens
  }

  predicate PlainList(ss: seq<Statement>) {
    forall i :: 0 <= i < |ss| ==> Plain(ss[i])
  }

  predicate LocationBlock(s: Statement) {
    && StatementWellFormed(s)
    && |s.tokens| == 3 && s.tokens[0] == "location"
    && s.tokens[1] != "location" && s.tokens[2] != "location"
    && s.child.Some? && PlainList(s.child.value.statements)
  }

  /** Plain statements and `location P H { plain statements }` blocks, nothing else. */
  predicate FlatList(ss: seq<Statement>) {
    forall i :: 0 <= i < |ss| ==> Plain(ss[i]) || LocationBlock(ss[i])
  }

  /** A block the scan leaves only at the first `;` after its opening brace, and that has none. */
  predicate Swallows(s: Statement) {
    && s.child.Some? && |s.tokens| == 3
    && !Listed(s.tokens[2]) && s.child.value.statements == []
  }

  /** Every such block is directly followed by a plain statement, whose `;` stops the scan. */
  predicate Guarded(ss: seq<Statement>) {
    forall i :: 0 <= i < |ss| && Swallows(ss[i]) ==> i + 1 < |ss| && ss[i + 1].child.None?
  }

  function HeaderOf(s: Statement): Header
    requires |s.tokens| == 3
  {
    Header(s.tokens[1], s.tokens[2])
  }

  function HeadersOf(ss: seq<Statement>): seq<Header>
    requires FlatList(ss)
  {
    if ss == [] then []
    else (if ss[0].child.Some? then [HeaderOf(ss[0])] else []) + HeadersOf(ss[1..])
  }

  /** Each block statement's header with its own block. */
  function Paired(ss: seq<Statement>): seq<ConfigBlock>
    requires FlatList(ss)
  {
    if ss == [] then []
    else (if ss[0].child.Some? then [ConfigBlock(HeaderOf(ss[0]), ss[0].child.value)] else []) + Paired(ss[1..])
  }

  /* ---------- values of flattened statements ---------- */

  lemma {:induction false} ValuesAppend(a: seq<Token>, b: seq<Token>)
    ensures Values(a + b) == Values(a) + Values(b)
  {
    if a == [] {
      assert a + b == b;
    } else {
      assert (a + b)[1..] == a[1..] + b;
      ValuesAppend(a[1..], b);
    }
  }

  lemma {:induction false} ValuesOfNames(names: seq<string>)
    ensures Values(Names(names)) == names
  {
    if names != [] {
      assert Names(names)[1..] == Names(names[1..]);
      ValuesOfNames(names[1..]);
    }
  }

  lemma ValuesOfPlain(s: Statement)
    requires Plain(s)
    ensures Values(FlattenStatement(s)) == s.tokens + [";"]
  {
    ValuesAppend(Names(s.tokens), [SEMICOLON]);
    ValuesOfNames(s.tokens);
    assert Values([SEMICOLON]) == [";"];
  }

  lemma ValuesOfBlock(s: Statement)
    requires LocationBlock(s)
    ensures Values(FlattenStatement(s))
         == ["location", s.tokens[1], s.tokens[2], "{"] + Values(Flatten(s.child.value.statements)) + ["}"]
  {
    var inner := Flatten(s.child.value.statements);
    ValuesAppend(Names(s.tokens), [OPEN] + inner + [CLOSE]);
    ValuesOfNames(s.tokens);
    ValuesAppend([OPEN] + inner, [CLOSE]);
    ValuesAppend([OPEN], inner);
    assert Values([OPEN]) == ["{"] && Values([CLOSE]) == ["}"];
    assert s.tokens == ["location", s.tokens[1], s.tokens[2]];
  }

  /** No value is empty, a brace or `location`. */
  predicate Harmless(vs: seq<string>) {
    forall i :: 0 <= i < |vs| ==> vs[i] != "" && vs[i] != "location" && vs[i] != "{" && vs[i] != "}"
  }

  lemma {:induction false} ValuesOfPlainList(ss: seq<Statement>)
    requires PlainList(ss)
    ensures Harmless(Values(Flatten(ss)))
  {
    if ss != [] {
      ValuesOfPlain(ss[0]);
      ValuesOfPlainList(ss[1..]);
      ValuesAppend(FlattenStatement(ss[0]), Flatten(ss[1..]));
    }
  }

  /* ---------- the scan over runs of values ---------- */

  lemma ScanOne(sc: Scanner, v: string, rest: seq<string>)
    requires v != ""
    ensures ScanValues(sc, [v] + rest) == ScanValues(Advance(sc, v), rest)
  {
    assert ([v] + rest)[1..] == rest;
  }

  lemma {:induction false} ScanStays(sc: Scanner, vs: seq<string>, rest: seq<string>)
    requires forall i :: 0 <= i < |vs| ==> vs[i] != "" && Advance(sc, vs[i]) == sc
    ensures ScanValues(sc, vs + rest) == ScanValues(sc, rest)
    decreases |vs|
  {
    if vs == [] {
      assert vs + rest == rest;
    } else {
      assert vs + rest == [vs[0]] + (vs[1..] + rest);
      ScanOne(sc, vs[0], vs[1..] + rest);
      ScanStays(sc, vs[1..], rest);
    }
  }

  const IDLE := Between(false)

  lemma ScanPlain(found: seq<Header>, s: Statement, rest: seq<string>)
    requires Plain(s)
    ensures ScanValues(Scanner(IDLE, found), Values(FlattenStatement(s)) + rest) == ScanValues(Scanner(IDLE, found), rest)
    ensures ScanValues(Scanner(SkipToSemicolon, found), Values(FlattenStatement(s)) + rest)
         == ScanValues(Scanner(IDLE, found), rest)
  {
    ValuesOfPlain(s);
    assert s.tokens + [";"] + rest == s.tokens + ([";"] + rest);
    forall i | 0 <= i < |s.tokens| ensures s.tokens[i] != "" && s.tokens[i] != ";" && s.tokens[i] != "location" {
      assert Lexable(s.tokens[i]);
      assert s.tokens[i] in s.tokens;
    }
    ScanStays(Scanner(IDLE, found), s.tokens, [";"] + rest);
    ScanOne(Scanner(IDLE, found), ";", rest);
    ScanStays(Scanner(SkipToSemicolon, found), s.tokens, [";"] + rest);
    ScanOne(Scanner(SkipToSemicolon, found), ";", rest);
  }

  /** From `location` to the opening brace. */
  lemma ScanHeader(found: seq<Header>, h: Header, rest: seq<string>)
    requires Lexable(h.prefix) && Lexable(h.handler)
    ensures ScanValues(Scanner(IDLE, found), ["location", h.prefix, h.handler, "{"] + rest)
         == ScanValues(Scanner(if Listed(h.handler) then SkipToClose else SkipToSemicolon, found + [h]), rest)
  {
    var vs := ["location", h.prefix, h.handler, "{"] + rest;
    assert vs[1..] == [h.prefix, h.handler, "{"] + rest;
    assert vs[1..][1..] == [h.handler, "{"] + rest;
    assert vs[1..][1..][1..] == ["{"] + rest;
    ScanOne(Scanner(IDLE, found), "location", vs[1..]);
    ScanOne(Scanner(Between(true), found), h.prefix, vs[1..][1..]);
    ScanOne(Scanner(NeedHandler(h.prefix), found), h.handler, vs[1..][1..][1..]);
    ScanOne(Advance(Scanner(NeedHandler(h.prefix), found), h.handler), "{", rest);
  }

  /** A non-empty list of plain statements and the closing brace, entered while waiting for `;`. */
  lemma ScanBody(found: seq<Header>, body: seq<Statement>, rest: seq<string>)
    requires PlainList(body) && body != []
    ensures ScanValues(Scanner(SkipToSemicolon, found), Values(Flatten(body)) + (["}"] + rest))
         == ScanValues(Scanner(IDLE, found), rest)
  {
    var more := Values(Flatten(body[1..]));
    ValuesAppend(FlattenStatement(body[0]), Flatten(body[1..]));
    ValuesOfPlainList(body[1..]);
    assert Values(Flatten(body)) + (["}"] + rest) == Values(FlattenStatement(body[0])) + (more + (["}"] + rest));
    ScanPlain(found, body[0], more + (["}"] + rest));
    ScanStays(Scanner(IDLE, found), more, ["}"] + rest);
    ScanOne(Scanner(IDLE, found), "}", rest);
  }

  lemma ScanListed(found: seq<Header>, body: seq<Statement>, rest: seq<string>)
    requires PlainList(body)
    ensures ScanValues(Scanner(SkipToClose, found), Values(Flatten(body)) + (["}"] + rest))
         == ScanValues(Scanner(IDLE, found), rest)
  {
    ValuesOfPlainList(body);
    ScanStays(Scanner(SkipToClose, found), Values(Flatten(body)), ["}"] + rest);
    ScanOne(Scanner(SkipToClose, found), "}", rest);
  }

  lemma ScanEmptyBody(found: seq<Header>, rest: seq<string>)
    ensures ScanValues(Scanner(SkipToSemicolon, found), ["}"] + rest) == ScanValues(Scanner(SkipToSemicolon, found), rest)
  {
    ScanOne(Scanner(SkipToSemicolon, found), "}", rest);
  }

  /** A location block met while idle: its header is found, and the scan is idle again after it
      unless the block swallows what follows. */
  lemma ScanBlock(found: seq<Header>, s: Statement, rest: seq<string>)
    requires LocationBlock(s)
    ensures ScanValues(Scanner(IDLE, found), Values(FlattenStatement(s)) + rest)
         == ScanValues(Scanner(if Swallows(s) then SkipToSemicolon else IDLE, found + [HeaderOf(s)]), rest)
  {
    var h, body := HeaderOf(s), s.child.value.statements;
    var inside := Values(Flatten(body)) + (["}"] + rest);
    ValuesOfBlock(s);
    assert Values(FlattenStatement(s)) + rest == ["location", h.prefix, h.handler, "{"] + inside;
    ScanHeader(found, h, inside);
    if Listed(h.handler) {
      ScanListed(found + [h], body, rest);
    } else if body != [] {
      ScanBody(found + [h], body, rest);
    } else {
      assert inside == ["}"] + rest;
      ScanEmptyBody(found + [h], rest);
    }
  }

  /** A location block met while waiting for `;`: its header is lost. */
  lemma ScanLostBlock(found: seq<Header>, s: Statement, rest: seq<string>)
    requires LocationBlock(s)
    ensures ScanValues(Scanner(SkipToSemicolon, found), Values(FlattenStatement(s)) + rest)
         == ScanValues(Scanner(if s.child.value.statements == [] then SkipToSemicolon else IDLE, found), rest)
  {
    var body := s.child.value.statements;
    var inside := Values(Flatten(body)) + (["}"] + rest);
    ValuesOfBlock(s);
    var head := ["location", s.tokens[1], s.tokens[2], "{"];
    assert Values(FlattenStatement(s)) + rest == head + inside;
    assert Lexable(s.tokens[1]) && Lexable(s.tokens[2]);
    ScanStays(Scanner(SkipToSemicolon, found), head, inside);
    if body != [] {
      ScanBody(found, body, rest);
    } else {
      assert inside == ["}"] + rest;
      ScanEmptyBody(found, rest);
    }
  }

  /* ---------- the scan over a flat config ---------- */

  /** The value of the last token of an accepted text: empty, an unfinished token or a comment. */
  predicate EndValue(e: string) {
    e != ";" && e != "}" && e != "{"
  }

  lemma ScanEnd(sc: Scanner, e: string)
    requires EndValue(e)
    requires sc.mode == IDLE || sc.mode == SkipToSemicolon
    ensures ScanValues(sc, [e]) == if sc.mode == IDLE then Headers(sc.found) else Hangs
  {
  }

  function FlatValues(ss: seq<Statement>, e: string): seq<string> {
    Values(Flatten(ss)) + [e]
  }

  lemma FlatValuesSplit(ss: seq<Statement>, e: string)
    requires ss != []
    ensures FlatValues(ss, e) == Values(FlattenStatement(ss[0])) + FlatValues(ss[1..], e)
  {
    ValuesAppend(FlattenStatement(ss[0]), Flatten(ss[1..]));
  }

  /** One scan of statements ss, entered idle or waiting for `;`. */
  function ScanFlat(mode: Mode, found: seq<Header>, ss: seq<Statement>, e: string): Scanned {
    ScanValues(Scanner(mode, found), FlatValues(ss, e))
  }

  lemma ScanFlatStep(mode: Mode, found: seq<Header>, ss: seq<Statement>, e: string)
    requires FlatList(ss) && ss != [] && (mode == IDLE || mode == SkipToSemicolon)
    ensures ScanFlat(mode, found, ss, e) ==
            if ss[0].child.None? then ScanFlat(IDLE, found, ss[1..], e)
            else if mode == IDLE then
              ScanFlat(if Swallows(ss[0]) then SkipToSemicolon else IDLE, found + [HeaderOf(ss[0])], ss[1..], e)
            else
              ScanFlat(if ss[0].child.value.statements == [] then SkipToSemicolon else IDLE, found, ss[1..], e)
  {
    FlatValuesSplit(ss, e);
    if ss[0].child.None? {
      ScanPlain(found, ss[0], FlatValues(ss[1..], e));
    } else if mode == IDLE {
      ScanBlock(found, ss[0], FlatValues(ss[1..], e));
    } else {
      ScanLostBlock(found, ss[0], FlatValues(ss[1..], e));
    }
  }

  /** The scan never finds more headers than there are blocks. */
  lemma {:induction false} ScanFindsAtMost(mode: Mode, found: seq<Header>, ss: seq<Statement>, e: string)
    requires FlatList(ss) && EndValue(e) && (mode == IDLE || mode == SkipToSemicolon)
    ensures var r := ScanFlat(mode, found, ss, e);
            r.Headers? ==> |r.found| <= |found| + |HeadersOf(ss)|
    decreases |ss|
  {
    if ss == [] {
      assert FlatValues(ss, e) == [e];
      ScanEnd(Scanner(mode, found), e);
    } else {
      ScanFlatStep(mode, found, ss, e);
      ScanFindsAtMost(IDLE, found, ss[1..], e);
      ScanFindsAtMost(SkipToSemicolon, found, ss[1..], e);
      if ss[0].child.Some? {
        ScanFindsAtMost(IDLE, found + [HeaderOf(ss[0])], ss[1..], e);
        ScanFindsAtMost(SkipToSemicolon, found + [HeaderOf(ss[0])], ss[1..], e);
      }
    }
  }

  /** Every header is found, in order, exactly when the config is guarded. */
  lemma {:induction false} ScanFindsAllIffGuarded(found: seq<Header>, ss: seq<Statement>, e: string)
    requires FlatList(ss) && EndValue(e)
    ensures Guarded(ss) ==> ScanFlat(IDLE, found, ss, e) == Headers(found + HeadersOf(ss))
    ensures !Guarded(ss) ==>
              var r := ScanFlat(IDLE, found, ss, e);
              r == Hangs || |r.found| < |found| + |HeadersOf(ss)|
    decreases |ss|
  {
    hide StatementWellFormed;
    if ss == [] {
      assert FlatValues(ss, e) == [e] && found + HeadersOf(ss) == found;
      ScanEnd(Scanner(IDLE, found), e);
    } else {
      var found' := if ss[0].child.Some? then found + [HeaderOf(ss[0])] else found;
      assert found' + HeadersOf(ss[1..]) == found + HeadersOf(ss);
      ScanFlatStep(IDLE, found, ss, e);
      ScanFindsAllIffGuarded(found', ss[1..], e);
      GuardedSplit(ss);
      if Swallows(ss[0]) {
        SwallowedRest(found', ss[1..], e);
      }
    }
  }

  lemma GuardedSplit(ss: seq<Statement>)
    requires ss != []
    ensures Guarded(ss) <==>
              Guarded(ss[1..]) && (Swallows(ss[0]) ==> 1 < |ss| && ss[1].child.None?)
  {
    var tail := ss[1..];
    if Guarded(ss) {
      forall i | 0 <= i < |tail| && Swallows(tail[i]) ensures i + 1 < |tail| && tail[i + 1].child.None? {
        assert Swallows(ss[i + 1]);
      }
    }
    if Guarded(tail) && (Swallows(ss[0]) ==> 1 < |ss| && ss[1].child.None?) {
      forall i | 0 <= i < |ss| && Swallows(ss[i]) ensures i + 1 < |ss| && ss[i + 1].child.None? {
        if i > 0 {
          assert Swallows(tail[i - 1]);
        }
      }
    }
  }

  /** After a swallowing block: a plain statement puts the scan back in step, a block is lost, and
      the end of the file is never passed. */
  lemma SwallowedRest(found: seq<Header>, ss: seq<Statement>, e: string)
    requires FlatList(ss) && EndValue(e)
    ensures ss != [] && ss[0].child.None? ==>
              ScanFlat(SkipToSemicolon, found, ss, e) == ScanFlat(IDLE, found, ss, e)
    ensures ss == [] || ss[0].child.Some? ==>
              var r := ScanFlat(SkipToSemicolon, found, ss, e);
              r == Hangs || |r.found| < |found| + |HeadersOf(ss)|
  {
    if ss == [] {
      assert FlatValues(ss, e) == [e];
      ScanEnd(Scanner(SkipToSemicolon, found), e);
    } else {
      ScanFlatStep(SkipToSemicolon, found, ss, e);
      ScanFlatStep(IDLE, found, ss, e);
      ScanFindsAtMost(IDLE, found, ss[1..], e);
      ScanFindsAtMost(SkipToSemicolon, found, ss[1..], e);
    }
  }

  /* ---------- pairing blocks with headers ---------- */

  lemma {:induction false} PostOrderOfFlat(ss: seq<Statement>)
    requires FlatList(ss)
    ensures |PostOrder(ss)| == |HeadersOf(ss)|
    ensures |Unfilled(HeadersOf(ss))| == |HeadersOf(ss)|
    ensures Fill(Unfilled(HeadersOf(ss)), PostOrder(ss)) == Paired(ss)
  {
    hide StatementWellFormed, Lexable;
    if ss != [] {
      PostOrderOfFlat(ss[1..]);
      if ss[0].child.Some? {
        var c := ss[0].child.value;
        PlainHasNoBlocks(c.statements);
        assert PostOrder(ss) == [c] + PostOrder(ss[1..]);
        assert HeadersOf(ss) == [HeaderOf(ss[0])] + HeadersOf(ss[1..]);
        assert HeadersOf(ss)[1..] == HeadersOf(ss[1..]) && PostOrder(ss)[1..] == PostOrder(ss[1..]);
      } else {
        assert PostOrder(ss) == PostOrder(ss[1..]) && HeadersOf(ss) == HeadersOf(ss[1..]);
      }
    }
  }

  lemma {:induction false} PlainHasNoBlocks(ss: seq<Statement>)
    requires PlainList(ss)
    ensures PostOrder(ss) == []
  {
    if ss != [] {
      PlainHasNoBlocks(ss[1..]);
    }
  }

  lemma {:induction false} UnfilledLength(hs: seq<Header>)
    ensures |Unfilled(hs)| == |hs|
  {
    if hs != [] {
      UnfilledLength(hs[1..]);
    }
  }
}
