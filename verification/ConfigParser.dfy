/** The stack-driven configuration parser and its correctness against the token grammar. */
module ConfigParser {
  import opened Common
  import opened ConfigTree
  import opened ConfigLexer

  datatype Stack = Bottom | Push(config: Config, under: Stack)

  /** The parser's variables between two tokens. The stack of configs under construction is its
      top and the ones below it; each of those waits for its last statement to receive the config
      above it as child block. */
  datatype State = State(last: Kind, top: Config, below: Stack, blocks: seq<Config>)
  datatype Verdict = Continue(state: State) | Stop(ok: bool)
  datatype Outcome = Outcome(ok: bool, tree: Config, blocks: seq<Config>)

  function Height(s: Stack): nat {
    if s.Bottom? then 0 else 1 + Height(s.under)
  }

  predicate IsOpen(c: Config) {
    c.statements != [] && c.statements[|c.statements| - 1].child.None?
  }

  predicate AllOpen(s: Stack) {
    s.Push? ==> IsOpen(s.config) && AllOpen(s.under)
  }

  /** What holds of the parser's variables at every loop head. */
  predicate Valid(st: State) {
    && st.last in {Start, Normal, StartBlock, EndBlock, StatementEnd}
    && AllOpen(st.below)
    && (st.last == Normal ==> IsOpen(st.top))
    && (st.last == Start ==> st.below == Bottom)
  }

  function AddStatement(c: Config, name: string): Config {
    Config(c.statements + [Statement([name], None)])
  }

  function LastStatement(c: Config): Statement
    requires c.statements != []
  {
    c.statements[|c.statements| - 1]
  }

  function Earlier(c: Config): seq<Statement>
    requires c.statements != []
  {
    c.statements[..|c.statements| - 1]
  }

  function AddName(c: Config, name: string): Config
    requires c.statements != []
  {
    Config(Earlier(c) + [LastStatement(c).(tokens := LastStatement(c).tokens + [name])])
  }

  lemma NewStatement(c: Config, name: string)
    ensures AddName(Config(c.statements + [Statement([], None)]), name) == AddStatement(c, name)
  {
    var d := Config(c.statements + [Statement([], None)]);
    assert Earlier(d) == c.statements;
    assert [] + [name] == [name];
  }

  function SetChild(c: Config, child: Config): Config
    requires c.statements != []
  {
    Config(Earlier(c) + [LastStatement(c).(child := Some(child))])
  }

  /** The tree a parse in progress has built so far. */
  function Collapse(top: Config, below: Stack): Config
    requires AllOpen(below)
    decreases below
  {
    match below
    case Bottom => top
    case Push(c, under) => Collapse(SetChild(c, top), under)
  }

  function Step(st: State, t: Token): Verdict
    requires Valid(st)
  {
    match t.kind
    case Comment => Continue(st)
    case Normal =>
      Continue(st.(last := Normal,
                   top := if st.last == Normal then AddName(st.top, t.value)
                          else AddStatement(st.top, t.value)))
    case StatementEnd =>
      if st.last == Normal then Continue(st.(last := StatementEnd)) else Stop(false)
    case StartBlock =>
      if st.last == Normal then
        Continue(st.(last := StartBlock, top := Config([]), below := Push(st.top, st.below)))
      else Stop(false)
    case EndBlock =>
      if st.below.Push? && st.last in {StatementEnd, EndBlock, StartBlock} then
        Continue(State(EndBlock, SetChild(st.below.config, st.top), st.below.under, st.blocks + [st.top]))
      else Stop(false)
    case Eof => Stop(st.last in {StatementEnd, EndBlock, Start} && st.below == Bottom)
    case Start => Stop(false)
    case Error => Stop(false)
  }

  lemma StepValid(st: State, t: Token)
    requires Valid(st)
    ensures Step(st, t).Continue? ==> Valid(Step(st, t).state)
  {
  }

  /** The parser on a token list. */
  function Run(st: State, ts: seq<Token>): Outcome
    requires Valid(st)
    decreases |ts|
  {
    if ts == [] then Outcome(false, Collapse(st.top, st.below), st.blocks)
    else
      match Step(st, ts[0])
      case Stop(ok) => Outcome(ok, Collapse(st.top, st.below), st.blocks)
      case Continue(next) =>
        StepValid(st, ts[0]);
        Run(next, ts[1..])
  }

  /** Reading one more token from the text is one more step of the run. */
  lemma RunToken(st: State, s: string)
    requires Valid(st)
    ensures var l := NextToken(s);
            && Proper(l.token)
            && match Step(st, l.token)
               case Stop(ok) => Run(st, LexAll(s)) == Outcome(ok, Collapse(st.top, st.below), st.blocks)
               case Continue(next) =>
                 s != "" && Valid(next) && Run(st, LexAll(s)) == Run(next, LexAll(l.rest))
  {
    ScanProper(Initial, "", s);
    StepValid(st, NextToken(s).token);
  }

  function Begin(c: Config, blocks: seq<Config>): State {
    State(Start, c, Bottom, blocks)
  }

  /** Parsing a text into an empty config with a fresh parser. */
  function ParseText(s: string): Outcome {
    Run(Begin(Config([]), []), LexAll(s))
  }

  /** The NginxConfig object passed to the parser. */
  class ConfigCell {
    var tree: Config

    constructor ()
      ensures tree == Config([])
    {
      tree := Config([]);
    }
  }

  class NginxConfigParser {
    var configBlocksContent: seq<Config>

    constructor ()
      ensures configBlocksContent == []
    {
      configBlocksContent := [];
    }

    /** One iteration of the parser's loop, after its token is read. The checks that can never
        fail are kept, as branches proved dead. */
    method HandleToken(kind: Kind, value: string, last: Kind, top0: Config, below0: Stack, braces0: string)
      returns (done: bool, ok: bool, top: Config, below: Stack, braces: string)
      requires Valid(State(last, top0, below0, configBlocksContent)) && |braces0| == Height(below0)
      requires Proper(Token(kind, value))
      modifies this
      ensures match Step(State(last, top0, below0, old(configBlocksContent)), Token(kind, value))
              case Stop(verdict) =>
                && done && ok == verdict && top == top0 && below == below0
                && configBlocksContent == old(configBlocksContent)
              case Continue(next) =>
                && !done && |braces| == Height(below)
                && next == State(if kind == Comment then last else kind, top, below, configBlocksContent)
    {
      done, ok, top, below, braces := true, false, top0, below0, braces0;
      if value != "" && value[0] == '{' {
        braces := braces + "{";
      } else if value != "" && value[0] == '}' && braces != "" {
        braces := braces[..|braces| - 1];
      } else if value != "" && value[0] == '}' && braces == "" {
        return;
      }
      if kind == Error {
        return;
      }
      if kind == Comment {
        done := false;
        return;
      }
      if kind == Normal {
        if last != Normal {
          NewStatement(top, value);
          top := Config(top.statements + [Statement([], None)]);
        }
        top := AddName(top, value);
      } else if kind == StatementEnd {
        if last != Normal {
          return;
        }
      } else if kind == StartBlock {
        if last != Normal {
          return;
        }
        top, below := Config([]), Push(top, below);
      } else if kind == EndBlock {
        if last != StatementEnd && last != EndBlock && last != StartBlock {
          return;
        } else if below == Bottom {
          assert false;
        }
        configBlocksContent := configBlocksContent + [top];
        top, below := SetChild(below.config, top), below.under;
      } else {
        if last != StatementEnd && last != EndBlock && last != Start {
          return;
        } else if below != Bottom {
          return;
        }
        if braces != "" {
          assert false;
        }
        ok := true;
        return;
      }
      done := false;
    }

    method Parse(input: CharStream, config: ConfigCell) returns (ok: bool)
      requires input.Valid()
      modifies this, input, config
      ensures Outcome(ok, config.tree, configBlocksContent)
           == Run(Begin(old(config.tree), old(configBlocksContent)), LexAll(old(input.Rest())))
    {
      var braces, top, below, last := "", config.tree, Bottom, Start;
      while true
        invariant input.Valid()
        invariant Valid(State(last, top, below, configBlocksContent))
        invariant |braces| == Height(below)
        invariant Run(State(last, top, below, configBlocksContent), LexAll(input.Rest()))
               == Run(Begin(old(config.tree), old(configBlocksContent)), LexAll(old(input.Rest())))
        decreases |input.Rest()|
      {
        RunToken(State(last, top, below, configBlocksContent), input.Rest());
        var kind, value := ParseToken(input);
        var done;
        done, ok, top, below, braces := HandleToken(kind, value, last, top, below, braces);
        if done {
          break;
        }
        if kind != Comment {
          last := kind;
        }
      }
      config.tree := Collapse(top, below);
    }
  }
}
