/** Every verdict of a new request parser, told by the grammar alone: it waits exactly as long as the
    text can still become a message, and gives up at the first character after which it cannot. */
module RequestVerdicts {
  import opened RequestSyntax
  import opened RequestMachine
  import opened RequestTheorems

  /* ---------- every partial message can be completed ---------- */

  /** How far a state is from the end of a message. */
  function Phase(p: Progress): nat {
    match p
    case MethodStart => 14
    case InMethod(_) => 13
    case InUri(_, _) => 12
    case InVersion(_, _, _) => 11
    case InMajor(_, _, _) => 10
    case MinorStart(_, _, _) => 9
    case InMinor(_) => 8
    case Newline1(_) => 7
    case HeaderName(_, _, _) => 6
    case SpaceBeforeValue(_, _, _) => 5
    case HeaderLws(_, _, _) => 4
    case InValue(_, _, _) => 4
    case Newline2(_, _, _) => 3
    case HeaderStart(_, _) => 2
    case Newline3(_, _) => 1
    case InBody(_, _, _, _) => 0
  }

  function Left(p: Progress): nat
    requires Valid(p)
  {
    match p
    case InUri(_, u) => if u == "" then 1 else 0
    case InVersion(_, _, n) => |PROTOCOL| - n
    case InBody(_, _, _, n) => n
    case _ => 0
  }

  /** A character that leads on towards the end. */
  function NextChar(p: Progress): char
    requires Valid(p)
  {
    match p
    case MethodStart => 'a'
    case InMethod(_) => ' '
    case InUri(_, u) => if u == "" then 'a' else ' '
    case InVersion(_, _, n) => if n < |PROTOCOL| then PROTOCOL[n] else '1'
    case InMajor(_, _, _) => '.'
    case MinorStart(_, _, _) => '1'
    case InMinor(_) => '\r'
    case Newline1(_) => '\n'
    case HeaderName(_, _, _) => ':'
    case SpaceBeforeValue(_, _, _) => ' '
    case HeaderLws(_, _, _) => '\r'
    case InValue(_, _, _) => '\r'
    case Newline2(_, _, _) => '\n'
    case HeaderStart(_, _) => '\r'
    case Newline3(_, _) => '\n'
    case InBody(_, _, _, _) => 'a'
  }

  lemma LeadsOn(p: Progress)
    requires Valid(p)
    ensures var o := Step(p, NextChar(p));
            || o.Accept?
            || (o.More? && Valid(o.progress)
                && (Phase(o.progress) < Phase(p) || (Phase(o.progress) == Phase(p) && Left(o.progress) < Left(p))))
  {
    hide BodyLength, TextOf;
    StepSound(p, NextChar(p));
  }

  lemma {:induction false} Finish(p: Progress) returns (rest: string, m: Message)
    requires Valid(p)
    ensures rest != "" && Feed(p, rest).outcome == Accept(m) && Feed(p, rest).used == |rest|
    decreases Phase(p), Left(p)
  {
    hide RequestMachine.Valid, Step, Phase, Left;
    LeadsOn(p);
    var c := NextChar(p);
    var o := Step(p, c);
    if o.Accept? {
      rest, m := [c], o.message;
    } else {
      var more;
      more, m := Finish(o.progress);
      rest := [c] + more;
      assert rest[1..] == more;
    }
  }

  /* ---------- where a text was refused ---------- */

  lemma {:induction false} RefusedAt(p: Progress, s: string)
    requires Valid(p) && !Feed(p, s).outcome.More?
    ensures var f := Feed(p, s);
            && Reaches(p, s[..f.used - 1], f.at)
            && Step(f.at, s[f.used - 1]) == f.outcome
            && TextOf(f.at) == TextOf(p) + s[..f.used - 1]
    decreases |s|
  {
    hide RequestMachine.Valid, Step, TextOf;
    var c, r, f := s[0], s[1..], Feed(p, s);
    StepSound(p, c);
    if Step(p, c).More? {
      var q, n := Step(p, c).progress, f.used - 2;
      RefusedAt(q, r);
      assert s[f.used - 1] == r[n] && s[..f.used - 1] == [c] + r[..n];
      ReachesAfter(p, c, r[..n], q, f.at);
      assert TextOf(p) + [c] + r[..n] == TextOf(p) + ([c] + r[..n]);
    } else {
      assert s[..0] == "" && TextOf(p) + "" == TextOf(p);
      ReachNothing(p);
    }
  }

  lemma ReachesAfter(p: Progress, c: char, r: string, q: Progress, last: Progress)
    requires Valid(p) && Step(p, c) == More(q) && Valid(q) && Reaches(q, r, last)
    ensures Reaches(p, [c] + r, last)
  {
    hide RequestMachine.Valid, Step;
    assert ([c] + r)[1..] == r;
  }

  /* ---------- main results ---------- */

  /** A message begins with the text. */
  ghost predicate CanBecome(t: string) {
    exists m: Message :: WellFormed(m) && t <= Serialize(m)
  }

  /** A message begins with the text and goes on after it. */
  ghost predicate Unfinished(t: string) {
    exists m: Message :: WellFormed(m) && t <= Serialize(m) && |t| < |Serialize(m)|
  }

  /** The text begins with a message. */
  ghost predicate HasMessage(t: string) {
    exists m: Message :: WellFormed(m) && Serialize(m) <= t
  }

  /** The text begins with a method name and two spaces. */
  ghost predicate EmptyTarget(t: string) {
    exists v: string :: ValidName(v) && v + "  " <= t
  }

  lemma MoreIff(s: string)
    ensures Feed(MethodStart, s).outcome.More? <==> Unfinished(s)
  {
    hide Feed, Serialize, WellFormed;
    if Feed(MethodStart, s).outcome.More? {
      WaitsForMessage(s);
    }
    if m: Message :| WellFormed(m) && s <= Serialize(m) && |s| < |Serialize(m)| {
      var rest := Serialize(m)[|s|..];
      assert s + rest == Serialize(m) && Serialize(m) + "" == Serialize(m);
      Completeness(m, "");
      FeedAppend(MethodStart, s, rest);
    }
  }

  lemma WaitsForMessage(s: string)
    requires Feed(MethodStart, s).outcome.More?
    ensures Unfinished(s)
  {
    hide Feed, Serialize, WellFormed;
    var rest, m := Finish(Feed(MethodStart, s).outcome.progress);
    FeedAppend(MethodStart, s, rest);
    Soundness(s + rest);
    assert (s + rest)[..|s + rest|] == s + rest;
    assert s <= s + rest;
  }

  lemma AcceptIff(s: string)
    ensures Feed(MethodStart, s).outcome.Accept? <==> HasMessage(s)
  {
    hide Feed, Serialize, WellFormed;
    Soundness(s);
    if m: Message :| WellFormed(m) && Serialize(m) <= s {
      assert s == Serialize(m) + s[|Serialize(m)|..];
      Completeness(m, s[|Serialize(m)|..]);
    }
  }

  lemma BrokenIff(s: string)
    ensures Feed(MethodStart, s).outcome.Broken? <==> EmptyTarget(s)
  {
    hide Feed, ValidName;
    if Feed(MethodStart, s).outcome.Broken? {
      BrokenAfterTwoSpaces(s);
    }
    if v: string :| ValidName(v) && v + "  " <= s {
      var rest := s[|v| + 2..];
      assert s == v + " " + (" " + rest);
      TwoSpacesBreak(v, rest);
    }
  }

  lemma BrokenAfterTwoSpaces(s: string)
    requires Feed(MethodStart, s).outcome.Broken?
    ensures EmptyTarget(s)
  {
    hide Feed, Step;
    var f := Feed(MethodStart, s);
    RefusedAt(MethodStart, s);
    var v := BrokenStep(f.at, s[f.used - 1]);
    assert "" + s[..f.used - 1] == s[..f.used - 1];
    assert s[..f.used] == s[..f.used - 1] + [s[f.used - 1]];
    assert v + " " + [' '] == v + "  ";
  }

  lemma TwoSpacesBreak(v: string, rest: string)
    requires ValidName(v)
    ensures Feed(MethodStart, v + " " + (" " + rest)).outcome == Broken
  {
    hide Feed, BodyLength;
    ReachMethod(v);
    ReachOneMore(MethodStart, v, InMethod(v), ' ', InUri(v, ""));
    FeedAppend(MethodStart, v + " ", " " + rest);
    SecondSpace(v, rest);
  }

  lemma BrokenStep(p: Progress, c: char) returns (v: string)
    requires Valid(p) && Step(p, c).Broken?
    ensures ValidName(v) && TextOf(p) == v + " " && c == ' '
  {
    hide BodyLength;
    v := p.verb;
  }

  lemma SecondSpace(v: string, rest: string)
    requires ValidName(v)
    ensures Feed(InUri(v, ""), " " + rest).outcome == Broken
  {
  }

  /** The parser accepts exactly if the text begins with a message, waits exactly if a message begins
      with it and goes on, is undefined exactly after a method name and two spaces, and otherwise
      rejects. It does so at the first character after which no message is possible. */
  lemma Verdicts(s: string)
    ensures var f := Feed(MethodStart, s);
            && (f.outcome.Accept? <==> HasMessage(s))
            && (f.outcome.More? <==> Unfinished(s))
            && (f.outcome.Broken? <==> EmptyTarget(s))
            && (f.outcome.Reject? || f.outcome.Broken? ==> Unfinished(s[..f.used - 1]) && !CanBecome(s[..f.used]))
  {
    hide Feed, Unfinished, HasMessage, EmptyTarget, CanBecome;
    MoreIff(s);
    AcceptIff(s);
    BrokenIff(s);
    var f := Feed(MethodStart, s);
    if f.outcome.Reject? || f.outcome.Broken? {
      RefusedAt(MethodStart, s);
      MoreIff(s[..f.used - 1]);
      RefusedForGood(s);
    }
  }

  lemma RefusedForGood(s: string)
    requires Feed(MethodStart, s).outcome.Reject? || Feed(MethodStart, s).outcome.Broken?
    ensures !CanBecome(s[..Feed(MethodStart, s).used])
  {
    hide Feed, Serialize, WellFormed;
    var n := Feed(MethodStart, s).used;
    var t := s[..n];
    RefusedAlready(s);
    MoreIff(t);
    AcceptIff(t);
    forall m: Message | WellFormed(m) && t <= Serialize(m) ensures |t| < |Serialize(m)| || Serialize(m) <= t {
    }
  }

  lemma RefusedAlready(s: string)
    requires !Feed(MethodStart, s).outcome.More?
    ensures Feed(MethodStart, s[..Feed(MethodStart, s).used]).outcome == Feed(MethodStart, s).outcome
  {
    hide Feed;
    var n := Feed(MethodStart, s).used;
    assert s[..n] + s[n..] == s;
    FeedAppend(MethodStart, s[..n], s[n..]);
    RefusedNotBefore(MethodStart, s);
  }

  /** A verdict needs the character it came at, and nothing more. */
  lemma {:induction false} RefusedNotBefore(p: Progress, s: string)
    requires Valid(p) && !Feed(p, s).outcome.More?
    ensures !Feed(p, s[..Feed(p, s).used]).outcome.More?
    decreases |s|
  {
    hide RequestMachine.Valid, Step;
    var c, r, n := s[0], s[1..], Feed(p, s).used;
    StepSound(p, c);
    assert s[..n][0] == c && s[..n][1..] == r[..n - 1];
    if Step(p, c).More? {
      RefusedNotBefore(Step(p, c).progress, r);
    }
  }

  /* ---------- characters ---------- */

  const SEPARATORS := "()<>@,;:\\\"/[]?={}"

  /** What a method name, and a header name, can begin with and go on with. */
  lemma NameCharacters(c: char)
    ensures Feed(MethodStart, [c]).outcome.More? <==> 32 < c as int < 127 && c !in SEPARATORS
    ensures forall v: string :: ValidName(v) ==>
              (Step(InMethod(v), c) == More(InMethod(v + [c])) <==> 32 < c as int < 127 && c !in SEPARATORS)
    ensures forall l: Line, n: string :: ValidLine(l) && ValidName(n) ==>
              (Step(HeaderName(l, [], n), c) == More(HeaderName(l, [], n + [c])) <==> 32 < c as int < 127 && c !in SEPARATORS)
  {
    hide ValidName, ValidLine, BodyLength;
    TokenCharIff(c);
    assert [c][1..] == "";
  }

  lemma TokenCharIff(c: char)
    ensures IsTokenChar(c) <==> 32 < c as int < 127 && c !in SEPARATORS
  {
    var s := SEPARATORS;
    assert s[0] == '(' && s[1] == ')' && s[2] == '<' && s[3] == '>' && s[4] == '@' && s[5] == ',' && s[6] == ';';
    assert s[7] == ':' && s[8] == '\\' && s[9] == '"' && s[10] == '/' && s[11] == '[' && s[12] == ']';
    assert s[13] == '?' && s[14] == '=' && s[15] == '{' && s[16] == '}';
  }

  /** What a URI and a header value can go on with: no control character and, for a URI, no space. */
  lemma TextCharacters(v: string, u: string, l: Line, f: Field, c: char)
    requires Valid(InUri(v, u)) && Valid(InValue(l, [], f))
    ensures Step(InUri(v, u), c) == More(InUri(v, u + [c])) <==> c as int > 32 && c as int != 127
    ensures Step(InValue(l, [], f), c) == More(InValue(l, [], AddChar(f, c))) <==> c as int >= 32 && c as int != 127
  {
    hide ValidName, ValidLine, ValidField, BodyLength, AddChar;
  }
}
