/** The parser accepts exactly the token sequences of well-formed trees, builds that tree, and
    undoes the printer. */
module ConfigTheorems {
  import opened Common
  import opened ConfigTree
  import opened ConfigLexer
  import opened ConfigParser

  function NonComments(ts: seq<Token>): seq<Token> {
    if ts == [] then []
    else (if ts[0].kind == Comment then [] else [ts[0]]) + NonComments(ts[1..])
  }

  /* ---------- soundness: the stack is a record of the tokens read ---------- */

  function FrameTokens(c: Config, open: bool): seq<Token>
    requires open ==> c.statements != []
  {
    if open then Flatten(Earlier(c)) + Names(LastStatement(c).tokens) else Flatten(c.statements)
  }

  function BelowTokens(below: Stack): seq<Token>
    requires AllOpen(below)
  {
    match below
    case Bottom => []
    case Push(c, under) => BelowTokens(under) + FrameTokens(c, true) + [OPEN]
  }

  /** The tokens, comments aside, that bring the parser to this state. */
  function TokensRead(st: State): seq<Token>
    requires Valid(st)
  {
    BelowTokens(st.below) + FrameTokens(st.top, st.last == Normal)
  }

  function BelowBlocks(below: Stack): seq<Config> {
    match below
    case Bottom => []
    case Push(c, under) => BelowBlocks(under) + PostOrder(c.statements)
  }

  /** The blocks already closed in the trees under construction, in post-order. */
  function ClosedBlocks(st: State): seq<Config> {
    BelowBlocks(st.below) + PostOrder(st.top.statements)
  }

  predicate StackWellFormed(s: Stack) {
    s.Push? ==> WellFormed(s.config) && StackWellFormed(s.under)
  }

  lemma FlattenSnoc(ss: seq<Statement>, s: Statement)
    ensures Flatten(ss + [s]) == Flatten(ss) + FlattenStatement(s)
    ensures PostOrder(ss + [s]) == PostOrder(ss) + ChildBlocks(s.child)
  {
    FlattenAppend(ss, [s]);
    PostOrderAppend(ss, [s]);
    assert [s][1..] == [];
    assert Flatten([s]) == FlattenStatement(s) + [];
    assert PostOrder([s]) == ChildBlocks(s.child) + [];
  }

  lemma FrameClosed(c: Config, child: Option<Config>)
    requires IsOpen(c)
    ensures var d := Config(Earlier(c) + [LastStatement(c).(child := child)]);
            && Flatten(d.statements) == FrameTokens(c, true) + FlattenChild(child)
            && PostOrder(d.statements) == PostOrder(c.statements) + ChildBlocks(child)
  {
    hide Flatten, PostOrder, Names, FlattenChild;
    FlattenSnoc(Earlier(c), LastStatement(c).(child := child));
    FlattenSnoc(Earlier(c), LastStatement(c));
    assert ChildBlocks(None) == [];
    assert Earlier(c) + [LastStatement(c)] == c.statements;
  }

  lemma FrameNamed(c: Config, open: bool, name: string)
    requires open ==> IsOpen(c)
    ensures var d := if open then AddName(c, name) else AddStatement(c, name);
            && IsOpen(d)
            && FrameTokens(d, true) == FrameTokens(c, open) + [Token(Normal, name)]
            && PostOrder(d.statements) == PostOrder(c.statements)
  {
    var d := if open then AddName(c, name) else AddStatement(c, name);
    assert Names([name]) == [Token(Normal, name)];
    if open {
      assert Earlier(d) == Earlier(c);
      NamesAppend(LastStatement(c).tokens, [name]);
      FlattenSnoc(Earlier(c), LastStatement(c));
      FlattenSnoc(Earlier(d), LastStatement(d));
      assert Earlier(c) + [LastStatement(c)] == c.statements;
    } else {
      assert Earlier(d) == c.statements;
      FlattenSnoc(c.statements, Statement([name], None));
    }
  }

  lemma BlockRecords(top: Config, c: Config, under: Stack)
    requires IsOpen(c) && AllOpen(under)
    ensures BelowTokens(under) + Flatten(SetChild(c, top).statements)
         == BelowTokens(Push(c, under)) + Flatten(top.statements) + [CLOSE]
  {
    hide FlattenStatement, Names, PostOrder, Flatten;
    FrameClosed(c, Some(top));
    var x, y, z := BelowTokens(under), FrameTokens(c, true), Flatten(top.statements);
    assert x + (y + ([OPEN] + z + [CLOSE])) == x + y + [OPEN] + z + [CLOSE];
  }

  /** Every step that goes on extends the record by the token it read. */
  lemma StepRecords(st: State, t: Token)
    requires Valid(st) && Proper(t) && t.kind != Comment && Step(st, t).Continue?
    ensures Valid(Step(st, t).state)
    ensures TokensRead(Step(st, t).state) == TokensRead(st) + [t]
  {
    hide FlattenStatement, PostOrder, Lexable;
    match t.kind {
      case Normal =>
        FrameNamed(st.top, st.last == Normal, t.value);
      case StatementEnd =>
        FrameClosed(st.top, None);
        assert Config(Earlier(st.top) + [LastStatement(st.top).(child := None)]) == st.top;
      case StartBlock =>
        assert Flatten([]) == [];
      case EndBlock =>
        BlockRecords(st.top, st.below.config, st.below.under);
    }
  }

  /** The collected blocks stay the post-order of what is closed. */
  lemma StepCollects(st: State, t: Token)
    requires Valid(st) && Proper(t) && Step(st, t).Continue?
    requires st.blocks == ClosedBlocks(st)
    ensures Step(st, t).state.blocks == ClosedBlocks(Step(st, t).state)
  {
    match t.kind {
      case Normal =>
        FrameNamed(st.top, st.last == Normal, t.value);
      case StartBlock =>
        assert PostOrder([]) == [];
      case EndBlock =>
        FrameClosed(st.below.config, Some(st.top));
      case _ =>
    }
  }

  lemma SnocWellFormed(ss: seq<Statement>, s: Statement)
    requires forall i :: 0 <= i < |ss| ==> StatementWellFormed(ss[i])
    requires StatementWellFormed(s)
    ensures WellFormed(Config(ss + [s]))
  {
  }

  lemma StepWellFormed(st: State, t: Token)
    requires Valid(st) && Proper(t) && Step(st, t).Continue?
    requires WellFormed(st.top) && StackWellFormed(st.below)
    ensures WellFormed(Step(st, t).state.top) && StackWellFormed(Step(st, t).state.below)
  {
    if t.kind == Normal {
      if st.last == Normal {
        var s := LastStatement(st.top);
        assert StatementWellFormed(s);
        SnocWellFormed(Earlier(st.top), s.(tokens := s.tokens + [t.value]));
      } else {
        SnocWellFormed(st.top.statements, Statement([t.value], None));
      }
    } else if t.kind == EndBlock {
      var under := st.below.config;
      assert StatementWellFormed(LastStatement(under));
      SnocWellFormed(Earlier(under), LastStatement(under).(child := Some(st.top)));
    }
  }

  predicate Accurate(st: State)
    requires Valid(st)
  {
    st.blocks == ClosedBlocks(st) && WellFormed(st.top) && StackWellFormed(st.below)
  }

  /** What every step that goes on keeps. */
  lemma StepKeeps(st: State, t: Token)
    requires Valid(st) && Proper(t) && Step(st, t).Continue? && Accurate(st)
    ensures var next := Step(st, t).state;
            && Valid(next) && Accurate(next)
            && TokensRead(next) == TokensRead(st) + NonComments([t])
  {
    hide Flatten, PostOrder, WellFormed;
    assert [t][1..] == [] && NonComments([]) == [];
    StepValid(st, t);
    StepWellFormed(st, t);
    StepCollects(st, t);
    if t.kind == Comment {
      assert TokensRead(st) + [] == TokensRead(st);
    } else {
      StepRecords(st, t);
    }
  }

  lemma {:induction false} RunSound(st: State, front: seq<Token>, last: Token)
    requires Valid(st) && Final(last.kind)
    requires forall i :: 0 <= i < |front| ==> Proper(front[i]) && !Final(front[i].kind)
    requires Accurate(st) && Run(st, front + [last]).ok
    ensures var r := Run(st, front + [last]);
            && last.kind == Eof
            && Flatten(r.tree.statements) == TokensRead(st) + NonComments(front)
            && r.blocks == PostOrder(r.tree.statements)
            && WellFormed(r.tree)
    decreases |front|
  {
    hide Run, Step, Valid, Proper, TokensRead, ClosedBlocks, Flatten, PostOrder, WellFormed, StackWellFormed;
    if front == [] {
      assert front + [last] == [last];
      assert NonComments(front) == [];
      RunLastSound(st, last);
    } else {
      var t, rest := front[0], front[1..];
      assert front + [last] == [t] + (rest + [last]);
      NonFinalContinues(st, t, rest + [last]);
      RunOne(st, t, rest + [last]);
      StepKeeps(st, t);
      RunSound(Step(st, t).state, rest, last);
      NonCommentsAppend([t], rest);
      assert [t] + rest == front;
    }
  }

  lemma RunLastSound(st: State, last: Token)
    requires Valid(st) && Final(last.kind)
    requires st.blocks == ClosedBlocks(st) && Run(st, [last]).ok
    ensures var r := Run(st, [last]);
            && last.kind == Eof && r.tree == st.top
            && Flatten(r.tree.statements) == TokensRead(st)
            && r.blocks == PostOrder(r.tree.statements)
  {
    hide Flatten, PostOrder;
  }

  lemma NonFinalContinues(st: State, t: Token, rest: seq<Token>)
    requires Valid(st) && Proper(t) && !Final(t.kind) && Run(st, [t] + rest).ok
    ensures Step(st, t).Continue?
  {
  }

  /* ---------- completeness ---------- */

  lemma {:induction false} RunSkipsComments(st: State, ts: seq<Token>)
    requires Valid(st)
    ensures Run(st, ts) == Run(st, NonComments(ts))
    decreases |ts|
  {
    if ts != [] {
      if ts[0].kind == Comment {
        RunSkipsComments(st, ts[1..]);
        assert NonComments(ts) == NonComments(ts[1..]);
      } else {
        assert NonComments(ts)[1..] == NonComments(ts[1..]);
        if Step(st, ts[0]).Continue? {
          StepValid(st, ts[0]);
          RunSkipsComments(Step(st, ts[0]).state, ts[1..]);
        }
      }
    }
  }

  lemma RunOne(st: State, t: Token, rest: seq<Token>)
    requires Valid(st) && Step(st, t).Continue?
    ensures Valid(Step(st, t).state)
    ensures Run(st, [t] + rest) == Run(Step(st, t).state, rest)
  {
    StepValid(st, t);
    assert ([t] + rest)[1..] == rest;
  }

  lemma {:induction false} RunNames(st: State, ss: seq<Statement>, before: seq<string>, names: seq<string>, rest: seq<Token>)
    requires Valid(st) && st.last == Normal
    requires st.top == Config(ss + [Statement(before, None)])
    ensures var next := st.(top := Config(ss + [Statement(before + names, None)]));
            Valid(next) && Run(st, Names(names) + rest) == Run(next, rest)
    decreases |names|
  {
    if names == [] {
      assert before + names == before;
      assert Names(names) + rest == rest;
    } else {
      var t := Token(Normal, names[0]);
      assert Names(names) + rest == [t] + (Names(names[1..]) + rest);
      RunOne(st, t, Names(names[1..]) + rest);
      assert Earlier(st.top) == ss;
      RunNames(Step(st, t).state, ss, before + [names[0]], names[1..], rest);
      assert before + [names[0]] + names[1..] == before + names;
    }
  }

  /** The state after reading the statements ss. */
  function After(st: State, ss: seq<Statement>): State {
    if ss == [] then st
    else st.(last := if ss[|ss| - 1].child.None? then StatementEnd else EndBlock,
             top := Config(st.top.statements + ss),
             blocks := st.blocks + PostOrder(ss))
  }

  lemma {:induction false} RunStatement(st: State, s: Statement, rest: seq<Token>)
    requires Valid(st) && st.last != Normal && StatementWellFormed(s)
    ensures Valid(After(st, [s]))
    ensures Run(st, FlattenStatement(s) + rest) == Run(After(st, [s]), rest)
    decreases s, 2
  {
    var t := Token(Normal, s.tokens[0]);
    var tail := FlattenChild(s.child) + rest;
    assert FlattenStatement(s) + rest == [t] + (Names(s.tokens[1..]) + tail);
    RunOne(st, t, Names(s.tokens[1..]) + tail);
    RunNames(Step(st, t).state, st.top.statements, [s.tokens[0]], s.tokens[1..], tail);
    assert [s.tokens[0]] + s.tokens[1..] == s.tokens;
    RunChild(st, s, rest);
  }

  lemma {:induction false} RunChild(st: State, s: Statement, rest: seq<Token>)
    requires Valid(st) && st.last != Normal && StatementWellFormed(s)
    ensures var mid := st.(last := Normal, top := Config(st.top.statements + [Statement(s.tokens, None)]));
            && Valid(mid) && Valid(After(st, [s]))
            && Run(mid, FlattenChild(s.child) + rest) == Run(After(st, [s]), rest)
    decreases s, 1
  {
    hide Run, FlattenStatement, Lexable, TokensRead;
    var mid := st.(last := Normal, top := Config(st.top.statements + [Statement(s.tokens, None)]));
    FlattenSnoc([], s);
    assert [] + [s] == [s];
    match s.child
    case None =>
      RunOne(mid, SEMICOLON, rest);
      assert st.blocks + [] == st.blocks;
      assert s == Statement(s.tokens, None);
    case Some(c) =>
      assert FlattenChild(s.child) + rest == [OPEN] + (Flatten(c.statements) + ([CLOSE] + rest));
      RunOne(mid, OPEN, Flatten(c.statements) + ([CLOSE] + rest));
      RunBlock(mid, c, rest);
      assert Earlier(mid.top) == st.top.statements;
      assert st.blocks + PostOrder(c.statements) + [c] == st.blocks + PostOrder([s]);
  }

  lemma {:induction false} RunBlock(mid: State, c: Config, rest: seq<Token>)
    requires Valid(mid) && mid.last == Normal && WellFormed(c)
    ensures var done := State(EndBlock, SetChild(mid.top, c), mid.below, mid.blocks + PostOrder(c.statements) + [c]);
            && Valid(Step(mid, OPEN).state) && Valid(done)
            && Run(Step(mid, OPEN).state, Flatten(c.statements) + ([CLOSE] + rest)) == Run(done, rest)
    decreases c, 0
  {
    var entered := Step(mid, OPEN).state;
    RunStatements(entered, c.statements, [CLOSE] + rest);
    assert [] + c.statements == c.statements;
    var filled := After(entered, c.statements);
    assert filled.blocks == mid.blocks + PostOrder(c.statements);
    RunOne(filled, CLOSE, rest);
  }

  lemma {:induction false} RunStatements(st: State, ss: seq<Statement>, rest: seq<Token>)
    requires Valid(st) && st.last != Normal
    requires forall i :: 0 <= i < |ss| ==> StatementWellFormed(ss[i])
    ensures Valid(After(st, ss))
    ensures Run(st, Flatten(ss) + rest) == Run(After(st, ss), rest)
    decreases ss, 3
  {
    if ss == [] {
      assert Flatten(ss) + rest == rest;
    } else {
      assert Flatten(ss) + rest == FlattenStatement(ss[0]) + (Flatten(ss[1..]) + rest);
      RunStatement(st, ss[0], Flatten(ss[1..]) + rest);
      RunStatements(After(st, [ss[0]]), ss[1..], rest);
      AfterTwice(st, ss);
    }
  }

  lemma AfterTwice(st: State, ss: seq<Statement>)
    requires ss != []
    ensures After(After(st, [ss[0]]), ss[1..]) == After(st, ss)
  {
    PostOrderAppend([ss[0]], ss[1..]);
    assert [ss[0]] + ss[1..] == ss;
    assert st.top.statements + [ss[0]] + ss[1..] == st.top.statements + ss;
    assert st.blocks + PostOrder([ss[0]]) + PostOrder(ss[1..]) == st.blocks + PostOrder(ss);
  }

  /* ---------- main results ---------- */

  /** A text is parsed to tree c exactly when c is well formed and the text, comments aside, is a
      layout of c's tokens. The text after the last `;` or `}` may hold one unfinished bare token
      or comment, which is dropped. */
  lemma ParseIffGrammar(s: string, c: Config)
    ensures (ParseText(s).ok && ParseText(s).tree == c) <==> IsLayoutOf(s, c)
  {
    if ParseText(s).ok {
      AcceptedIsLayout(s);
    }
    if IsLayoutOf(s, c) {
      LayoutIsAccepted(s, c);
    }
  }

  predicate IsLayoutOf(s: string, c: Config) {
    var ts := LexAll(s);
    && WellFormed(c)
    && ts[|ts| - 1].kind == Eof
    && NonComments(ts[..|ts| - 1]) == Flatten(c.statements)
  }

  lemma AcceptedIsLayout(s: string)
    requires ParseText(s).ok
    ensures IsLayoutOf(s, ParseText(s).tree)
    ensures ParseText(s).blocks == PostOrder(ParseText(s).tree.statements)
  {
    LexAllDelivered(s);
    var st := Begin(Config([]), []);
    assert TokensRead(st) == [] && ClosedBlocks(st) == [];
    var ts := LexAll(s);
    assert ts == ts[..|ts| - 1] + [ts[|ts| - 1]];
    RunSound(st, ts[..|ts| - 1], ts[|ts| - 1]);
  }

  lemma RunLayout(c0: Config, b0: seq<Config>, s: string, c: Config)
    requires IsLayoutOf(s, c)
    ensures Run(Begin(c0, b0), LexAll(s)) == Outcome(true, Config(c0.statements + c.statements), b0 + PostOrder(c.statements))
  {
    hide LexAll, Run, Flatten, WellFormed, PostOrder;
    var st := Begin(c0, b0);
    var ts := LexAll(s);
    var front, last := ts[..|ts| - 1], ts[|ts| - 1];
    RunSkipsComments(st, ts);
    NonCommentsAppend(front, [last]);
    assert front + [last] == ts;
    assert NonComments([last]) == [last];
    RunFrom(c0, b0, c, last);
  }

  lemma RunFrom(c0: Config, b0: seq<Config>, c: Config, last: Token)
    requires WellFormed(c) && last.kind == Eof
    ensures Run(Begin(c0, b0), Flatten(c.statements) + [last])
         == Outcome(true, Config(c0.statements + c.statements), b0 + PostOrder(c.statements))
  {
    hide Flatten;
    var st := Begin(c0, b0);
    RunStatements(st, c.statements, [last]);
    if c.statements == [] {
      assert c0.statements + [] == c0.statements && b0 + PostOrder([]) == b0;
    }
    assert Run(After(st, c.statements), [last]).ok;
  }

  lemma LayoutIsAccepted(s: string, c: Config)
    requires IsLayoutOf(s, c)
    ensures ParseText(s).ok && ParseText(s).tree == c
  {
    RunLayout(Config([]), [], s, c);
    assert [] + c.statements == c.statements;
  }

  lemma {:induction false} NonCommentsAppend(a: seq<Token>, b: seq<Token>)
    ensures NonComments(a + b) == NonComments(a) + NonComments(b)
  {
    if a == [] {
      assert a + b == b;
    } else {
      assert (a + b)[1..] == a[1..] + b;
      NonCommentsAppend(a[1..], b);
    }
  }

  lemma {:induction false} FlattenHasNoComments(ss: seq<Statement>)
    ensures NonComments(Flatten(ss)) == Flatten(ss)
    decreases ss, 3
  {
    if ss != [] {
      StatementHasNoComments(ss[0]);
      FlattenHasNoComments(ss[1..]);
      NonCommentsAppend(FlattenStatement(ss[0]), Flatten(ss[1..]));
    }
  }

  lemma {:induction false} StatementHasNoComments(s: Statement)
    ensures NonComments(FlattenStatement(s)) == FlattenStatement(s)
    decreases s, 2
  {
    NamesHaveNoComments(s.tokens);
    NonCommentsAppend(Names(s.tokens), FlattenChild(s.child));
    if s.child.Some? {
      var inner := Flatten(s.child.value.statements);
      FlattenHasNoComments(s.child.value.statements);
      NonCommentsAppend([OPEN], inner);
      NonCommentsAppend([OPEN] + inner, [CLOSE]);
    }
  }

  lemma {:induction false} NamesHaveNoComments(names: seq<string>)
    ensures NonComments(Names(names)) == Names(names)
  {
    if names != [] {
      assert Names(names)[1..] == Names(names[1..]);
      NamesHaveNoComments(names[1..]);
    }
  }

  /** Printing at any depth and parsing back gives the same tree exactly for well-formed trees. */
  lemma RoundTrip(c: Config, depth: int)
    ensures (ParseText(Print(c, depth)).ok && ParseText(Print(c, depth)).tree == c) <==> WellFormed(c)
  {
    var text := Print(c, depth);
    ParseIffGrammar(text, c);
    if WellFormed(c) {
      LexStatements(c.statements, depth, "");
      assert text + "" == text;
      assert LexAll("") == [Token(Eof, "")];
      assert LexAll(text)[..|LexAll(text)| - 1] == Flatten(c.statements);
      FlattenHasNoComments(c.statements);
    }
  }

  /** Whatever text is accepted, its tree is well formed, and printing and reparsing it reproduces
      the tree; so the second and every later print is the same text. */
  lemma NormalForm(s: string, depth: int)
    requires ParseText(s).ok
    ensures var c := ParseText(s).tree;
            && WellFormed(c)
            && ParseText(Print(c, depth)).ok
            && ParseText(Print(c, depth)).tree == c
  {
    ParseIffGrammar(s, ParseText(s).tree);
    RoundTrip(ParseText(s).tree, depth);
  }

  /** The blocks collected at closing braces are the final tree's blocks in post-order. */
  lemma CollectedBlocks(s: string)
    requires ParseText(s).ok
    ensures ParseText(s).blocks == PostOrder(ParseText(s).tree.statements)
  {
    AcceptedIsLayout(s);
  }

  lemma {:induction false} ScanBareToEnd(value: string, t: string)
    requires forall i :: 0 <= i < |t| ==> !EndsBare(t[i])
    ensures Scan(InNormal, value, t) == Lexed(Token(Eof, value + t), "")
    decreases |t|
  {
    if t == "" {
      assert value + t == value;
    } else {
      assert value + [t[0]] + t[1..] == value + t;
      ScanBareToEnd(value + [t[0]], t[1..]);
    }
  }

  /** A valid config followed by a bare token and the end of the file is accepted, and the token is
      lost: an unfinished last statement of one word is no error. */
  lemma UnfinishedTokenIsDropped(c: Config, depth: int, t: string)
    requires WellFormed(c) && IsBare(t)
    ensures ParseText(Print(c, depth) + t).ok && ParseText(Print(c, depth) + t).tree == c
  {
    hide ParseText, Flatten;
    var text := Print(c, depth) + t;
    LexStatements(c.statements, depth, t);
    ScanBareToEnd([t[0]], t[1..]);
    assert "" + [t[0]] == [t[0]] && [t[0]] + t[1..] == t;
    assert LexAll(t) == [Token(Eof, t)];
    assert LexAll(text)[..|LexAll(text)| - 1] == Flatten(c.statements);
    FlattenHasNoComments(c.statements);
    LayoutIsAccepted(text, c);
  }

  /* ---------- parsing into a config that is not empty, with a parser that is not fresh ---------- */

  /** The parser's verdicts depend only on the last token and the height of the stack. */
  predicate SameControl(a: State, b: State) {
    a.last == b.last && Height(a.below) == Height(b.below)
  }

  lemma {:induction false} SameControlSameVerdict(a: State, b: State, ts: seq<Token>)
    requires Valid(a) && Valid(b) && SameControl(a, b)
    ensures Run(a, ts).ok == Run(b, ts).ok
    decreases |ts|
  {
    if ts != [] {
      StepValid(a, ts[0]);
      StepValid(b, ts[0]);
      if Step(a, ts[0]).Continue? && Step(b, ts[0]).Continue? {
        SameControlSameVerdict(Step(a, ts[0]).state, Step(b, ts[0]).state, ts[1..]);
      }
    }
  }

  /** Into any config and with any blocks already collected, a text is accepted exactly when it is
      accepted on its own; its statements and blocks are then added after the earlier ones. */
  lemma ParseAppends(c0: Config, b0: seq<Config>, s: string)
    ensures Run(Begin(c0, b0), LexAll(s)).ok == ParseText(s).ok
    ensures ParseText(s).ok ==>
              Run(Begin(c0, b0), LexAll(s)) ==
              Outcome(true, Config(c0.statements + ParseText(s).tree.statements), b0 + ParseText(s).blocks)
  {
    hide Run, LexAll, IsLayoutOf;
    SameControlSameVerdict(Begin(c0, b0), Begin(Config([]), []), LexAll(s));
    if ParseText(s).ok {
      AcceptedIsLayout(s);
      RunLayout(c0, b0, s, ParseText(s).tree);
    }
  }
}
