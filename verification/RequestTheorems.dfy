/** What the request parser accepts, how it splits its input, and why neither the cutting of the
    input into chunks nor what follows a request makes a difference. */
module RequestTheorems {
  import opened Common
  import opened RequestSyntax
  import opened RequestMachine

  /** The result of feeding a text: the last outcome, the progress it was reached from (for More,
      the progress reached), and the number of characters used. */
  datatype Fed = Fed(outcome: Outcome, at: Progress, used: nat)

  function Feed(p: Progress, s: string): (f: Fed)
    requires Valid(p)
    ensures f.used <= |s| && Valid(f.at)
    ensures f.outcome.More? ==> Valid(f.outcome.progress) && f.used == |s|
    ensures !f.outcome.More? ==> f.used > 0
    decreases |s|
  {
    if s == "" then Fed(More(p), p, 0)
    else
      var o := Step(p, s[0]);
      StepSound(p, s[0]);
      if o.More? then
        var f := Feed(o.progress, s[1..]);
        f.(used := f.used + 1)
      else Fed(o, p, 1)
  }

  function Later(f: Fed, n: nat): Fed {
    f.(used := f.used + n)
  }

  lemma {:induction false} FeedAppend(p: Progress, a: string, b: string)
    requires Valid(p)
    ensures var f := Feed(p, a);
            Feed(p, a + b) == if f.outcome.More? then Later(Feed(f.outcome.progress, b), |a|) else f
    decreases |a|
  {
    hide RequestMachine.Valid, TextOf, Step;
    if a == "" {
      assert a + b == b;
    } else {
      assert (a + b)[1..] == a[1..] + b;
      StepSound(p, a[0]);
      if Step(p, a[0]).More? {
        FeedAppend(Step(p, a[0]).progress, a[1..], b);
      }
    }
  }

  /** Feeding chunk after chunk until the first result. */
  function FeedChunks(p: Progress, chunks: seq<string>): Fed
    requires Valid(p)
    decreases |chunks|
  {
    if chunks == [] then Fed(More(p), p, 0)
    else
      var f := Feed(p, chunks[0]);
      if f.outcome.More? then Later(FeedChunks(f.outcome.progress, chunks[1..]), |chunks[0]|) else f
  }

  /** However an input is cut into chunks, the result, the characters used and the parser's progress
      are those of the whole input in one call. */
  lemma {:induction false} ChunkingIndependence(p: Progress, chunks: seq<string>)
    requires Valid(p)
    ensures FeedChunks(p, chunks) == Feed(p, Flat(chunks))
    decreases |chunks|
  {
    if chunks != [] {
      FeedAppend(p, chunks[0], Flat(chunks[1..]));
      var f := Feed(p, chunks[0]);
      if f.outcome.More? {
        ChunkingIndependence(f.outcome.progress, chunks[1..]);
      }
    }
  }

  /* ---------- soundness ---------- */

  lemma {:induction false} FeedSound(p: Progress, s: string)
    requires Valid(p)
    ensures var f := Feed(p, s);
            && (f.outcome.More? ==> TextOf(f.outcome.progress) == TextOf(p) + s)
            && (f.outcome.Accept? ==>
                  WellFormed(f.outcome.message) && Serialize(f.outcome.message) == TextOf(p) + s[..f.used])
    decreases |s|
  {
    hide RequestMachine.Valid, TextOf, Step, Serialize, WellFormed;
    if s == "" {
      assert TextOf(p) + s == TextOf(p);
    } else {
      StepSound(p, s[0]);
      var o := Step(p, s[0]);
      var f := Feed(p, s);
      if o.More? {
        FeedSound(o.progress, s[1..]);
        assert TextOf(p) + [s[0]] + s[1..] == TextOf(p) + s;
        assert TextOf(p) + [s[0]] + s[1..][..f.used - 1] == TextOf(p) + s[..f.used];
      } else {
        assert s[..1] == [s[0]];
      }
    }
  }

  /* ---------- completeness ---------- */

  predicate Reaches(p: Progress, s: string, q: Progress)
    requires Valid(p)
  {
    Feed(p, s) == Fed(More(q), q, |s|)
  }

  lemma ReachNothing(p: Progress)
    requires Valid(p)
    ensures Reaches(p, "", p)
  {
  }

  lemma ReachChar(p: Progress, c: char, q: Progress)
    requires Valid(p) && Step(p, c) == More(q)
    ensures Valid(q) && Reaches(p, [c], q)
  {
    StepSound(p, c);
    assert [c][1..] == "";
    assert Feed(q, "") == Fed(More(q), q, 0);
  }

  lemma ReachOn(p: Progress, a: string, q: Progress, b: string, r: Progress)
    requires Valid(p) && Valid(q) && Reaches(p, a, q) && Reaches(q, b, r)
    ensures Reaches(p, a + b, r)
  {
    FeedAppend(p, a, b);
  }

  lemma ReachOneMore(p: Progress, a: string, q: Progress, c: char, r: Progress)
    requires Valid(p) && Valid(q) && Reaches(p, a, q) && Step(q, c) == More(r)
    ensures Valid(r) && Reaches(p, a + [c], r)
  {
    ReachChar(q, c, r);
    ReachOn(p, a, q, [c], r);
  }

  lemma ReachEnd(p: Progress, a: string, q: Progress, c: char, m: Message, rest: string)
    requires Valid(p) && Valid(q) && Reaches(p, a, q) && Step(q, c) == Accept(m)
    ensures Feed(p, a + ([c] + rest)) == Fed(Accept(m), q, |a| + 1)
  {
    FeedAppend(p, a, [c] + rest);
    assert ([c] + rest)[0] == c;
  }

  lemma {:induction false} ReachMethod(v: string)
    requires ValidName(v)
    ensures Reaches(MethodStart, v, InMethod(v))
  {
    hide Feed, BodyLength;
    var c := Last(v);
    assert IsTokenChar(c);
    if |v| == 1 {
      assert v == [c];
      ReachChar(MethodStart, c, InMethod(v));
    } else {
      ReachMethod(Front(v));
      assert Front(v) + [c] == v;
      ReachOneMore(MethodStart, Front(v), InMethod(Front(v)), c, InMethod(v));
    }
  }

  lemma {:induction false} ReachUri(v: string, u: string)
    requires ValidName(v) && All(IsUriChar, u)
    ensures Reaches(InUri(v, ""), u, InUri(v, u))
    decreases |u|
  {
    hide Feed, BodyLength;
    if u == "" {
      ReachNothing(InUri(v, ""));
    } else {
      ReachUri(v, Front(u));
      assert Front(u) + [Last(u)] == u;
      ReachOneMore(InUri(v, ""), Front(u), InUri(v, Front(u)), Last(u), InUri(v, u));
    }
  }

  lemma {:induction false} ReachProtocol(v: string, u: string, n: nat)
    requires ValidTarget(v, u) && n <= |PROTOCOL|
    ensures Reaches(InVersion(v, u, 0), PROTOCOL[..n], InVersion(v, u, n))
  {
    hide Feed, BodyLength;
    if n == 0 {
      ReachNothing(InVersion(v, u, 0));
      assert PROTOCOL[..0] == "";
    } else {
      ReachProtocol(v, u, n - 1);
      assert PROTOCOL[..n] == PROTOCOL[..n - 1] + [PROTOCOL[n - 1]];
      ReachOneMore(InVersion(v, u, 0), PROTOCOL[..n - 1], InVersion(v, u, n - 1), PROTOCOL[n - 1], InVersion(v, u, n));
    }
  }

  lemma {:induction false} ReachMajor(v: string, u: string, major: string)
    requires ValidTarget(v, u) && ValidDigits(major)
    ensures Reaches(InVersion(v, u, 5), major, InMajor(v, u, major))
  {
    hide Feed, BodyLength;
    var c := Last(major);
    if |major| == 1 {
      assert major == [c];
      ReachChar(InVersion(v, u, 5), c, InMajor(v, u, major));
    } else {
      ReachMajor(v, u, Front(major));
      assert Front(major) + [c] == major;
      ReachOneMore(InVersion(v, u, 5), Front(major), InMajor(v, u, Front(major)), c, InMajor(v, u, major));
    }
  }

  lemma {:induction false} ReachMinor(l: Line)
    requires ValidLine(l)
    ensures Reaches(MinorStart(l.verb, l.uri, l.major), l.minor, InMinor(l))
    decreases |l.minor|
  {
    hide Feed, BodyLength;
    var c := Last(l.minor);
    var start := MinorStart(l.verb, l.uri, l.major);
    if |l.minor| == 1 {
      assert l.minor == [c];
      ReachChar(start, c, InMinor(l));
    } else {
      var l' := l.(minor := Front(l.minor));
      ReachMinor(l');
      assert Front(l.minor) + [c] == l.minor;
      ReachOneMore(start, l'.minor, InMinor(l'), c, InMinor(l));
    }
  }

  lemma ReachTarget(v: string, u: string)
    requires ValidTarget(v, u)
    ensures Reaches(MethodStart, TargetText(v, u) + " ", InVersion(v, u, 0))
  {
    hide Feed, BodyLength;
    ReachMethod(v);
    ReachOneMore(MethodStart, v, InMethod(v), ' ', InUri(v, ""));
    ReachUri(v, u);
    ReachOn(MethodStart, v + " ", InUri(v, ""), u, InUri(v, u));
    ReachOneMore(MethodStart, TargetText(v, u), InUri(v, u), ' ', InVersion(v, u, 0));
  }

  lemma ReachVersion(l: Line)
    requires ValidLine(l)
    ensures Reaches(InVersion(l.verb, l.uri, 0), "HTTP/" + l.major + "." + l.minor, InMinor(l))
  {
    hide Feed, BodyLength;
    var v, u := l.verb, l.uri;
    ReachProtocol(v, u, 5);
    assert PROTOCOL[..5] == "HTTP/";
    ReachMajor(v, u, l.major);
    ReachOn(InVersion(v, u, 0), "HTTP/", InVersion(v, u, 5), l.major, InMajor(v, u, l.major));
    ReachOneMore(InVersion(v, u, 0), "HTTP/" + l.major, InMajor(v, u, l.major), '.', MinorStart(v, u, l.major));
    ReachMinor(l);
    ReachOn(InVersion(v, u, 0), "HTTP/" + l.major + ".", MinorStart(v, u, l.major), l.minor, InMinor(l));
  }

  lemma ReachLine(l: Line)
    requires ValidLine(l)
    ensures Reaches(MethodStart, LineText(l) + "\r\n", HeaderStart(l, []))
  {
    hide Feed, BodyLength;
    ReachTarget(l.verb, l.uri);
    ReachVersion(l);
    var a, b := TargetText(l.verb, l.uri), "HTTP/" + l.major + "." + l.minor;
    ReachOn(MethodStart, a + " ", InVersion(l.verb, l.uri, 0), b, InMinor(l));
    assert a + " " + b == LineText(l);
    ReachOneMore(MethodStart, LineText(l), InMinor(l), '\r', Newline1(l));
    ReachOneMore(MethodStart, LineText(l) + "\r", Newline1(l), '\n', HeaderStart(l, []));
    assert LineText(l) + "\r" + "\n" == LineText(l) + "\r\n";
  }

  /** The state in which field f is open. */
  function Opened(l: Line, fs: seq<Field>, f: Field): Progress {
    if Waiting(f) then HeaderLws(l, fs, f) else InValue(l, fs, f)
  }

  lemma {:induction false} ReachName(l: Line, fs: seq<Field>, n: string)
    requires ValidLine(l) && ValidFields(fs) && ValidName(n)
    ensures Reaches(HeaderStart(l, fs), n, HeaderName(l, fs, n))
    decreases |n|
  {
    hide Feed, BodyLength;
    var c := Last(n);
    assert IsTokenChar(c);
    if |n| == 1 {
      assert n == [c];
      ReachChar(HeaderStart(l, fs), c, HeaderName(l, fs, n));
    } else {
      ReachName(l, fs, Front(n));
      assert Front(n) + [c] == n;
      ReachOneMore(HeaderStart(l, fs), Front(n), HeaderName(l, fs, Front(n)), c, HeaderName(l, fs, n));
    }
  }

  lemma {:induction false} ReachFirst(l: Line, fs: seq<Field>, n: string, first: string)
    requires ValidLine(l) && ValidFields(fs) && ValidField(Field(n, first, []))
    ensures Reaches(InValue(l, fs, Field(n, "", [])), first, InValue(l, fs, Field(n, first, [])))
    decreases |first|
  {
    hide Feed, BodyLength;
    var start := InValue(l, fs, Field(n, "", []));
    if first == "" {
      ReachNothing(start);
    } else {
      ReachFirst(l, fs, n, Front(first));
      assert Front(first) + [Last(first)] == first;
      var shorter := InValue(l, fs, Field(n, Front(first), []));
      ReachOneMore(start, Front(first), shorter, Last(first), InValue(l, fs, Field(n, first, [])));
    }
  }

  lemma {:induction false} ReachBlanks(l: Line, fs: seq<Field>, f: Field, blanks: string)
    requires ValidLine(l) && ValidOpen(fs, f) && blanks != "" && All(IsBlank, blanks)
    ensures ValidField(f.(folds := f.folds + [Fold(blanks, "")]))
    ensures Reaches(HeaderStart(l, fs + [f]), blanks, HeaderLws(l, fs, f.(folds := f.folds + [Fold(blanks, "")])))
    decreases |blanks|
  {
    hide Feed, BodyLength;
    var start := HeaderStart(l, fs + [f]);
    var c := Last(blanks);
    if |blanks| == 1 {
      assert blanks == [c];
      assert Front(fs + [f]) == fs;
      ReachChar(start, c, HeaderLws(l, fs, AddFold(f, c)));
    } else {
      var g := f.(folds := f.folds + [Fold(Front(blanks), "")]);
      ReachBlanks(l, fs, f, Front(blanks));
      assert Front(blanks) + [c] == blanks;
      assert Front(g.folds) == f.folds;
      ReachOneMore(start, Front(blanks), HeaderLws(l, fs, g), c, HeaderLws(l, fs, AddBlank(g, c)));
    }
  }

  lemma {:induction false} ReachText(l: Line, fs: seq<Field>, f: Field, fold: Fold)
    requires ValidLine(l) && ValidOpen(fs, f) && ValidFold(fold)
    ensures ValidField(f.(folds := f.folds + [fold.(text := "")]))
    ensures Reaches(HeaderLws(l, fs, f.(folds := f.folds + [fold.(text := "")])), fold.text,
                    Opened(l, fs, f.(folds := f.folds + [fold])))
    decreases |fold.text|
  {
    hide Feed, BodyLength;
    var start := HeaderLws(l, fs, f.(folds := f.folds + [fold.(text := "")]));
    assert ValidFold(fold.(text := ""));
    if fold.text == "" {
      ReachNothing(start);
    } else {
      var short := fold.(text := Front(fold.text));
      var c := Last(fold.text);
      var g := f.(folds := f.folds + [short]);
      ReachText(l, fs, f, short);
      assert Front(fold.text) + [c] == fold.text;
      assert Front(g.folds) == f.folds;
      ReachOneMore(start, short.text, Opened(l, fs, g), c, InValue(l, fs, AddChar(g, c)));
    }
  }

  lemma ReachFold(l: Line, fs: seq<Field>, f: Field, fold: Fold)
    requires ValidLine(l) && ValidOpen(fs, f) && ValidFold(fold)
    ensures Reaches(Opened(l, fs, f), "\r\n" + fold.blanks + fold.text, Opened(l, fs, f.(folds := f.folds + [fold])))
  {
    hide Feed, BodyLength;
    var start := Opened(l, fs, f);
    var blank := HeaderLws(l, fs, f.(folds := f.folds + [fold.(text := "")]));
    ReachChar(start, '\r', Newline2(l, fs, f));
    ReachOneMore(start, "\r", Newline2(l, fs, f), '\n', HeaderStart(l, fs + [f]));
    assert "\r" + ['\n'] == "\r\n";
    ReachBlanks(l, fs, f, fold.blanks);
    ReachOn(start, "\r\n", HeaderStart(l, fs + [f]), fold.blanks, blank);
    ReachText(l, fs, f, fold);
    ReachOn(start, "\r\n" + fold.blanks, blank, fold.text, Opened(l, fs, f.(folds := f.folds + [fold])));
  }

  lemma ReachUnfolded(l: Line, fs: seq<Field>, n: string, first: string)
    requires ValidLine(l) && ValidOpen(fs, Field(n, first, []))
    ensures Reaches(HeaderStart(l, fs), n + ": " + first, InValue(l, fs, Field(n, first, [])))
  {
    hide Feed, BodyLength;
    var start, value := HeaderStart(l, fs), InValue(l, fs, Field(n, "", []));
    ReachName(l, fs, n);
    ReachOneMore(start, n, HeaderName(l, fs, n), ':', SpaceBeforeValue(l, fs, n));
    ReachOneMore(start, n + ":", SpaceBeforeValue(l, fs, n), ' ', value);
    assert n + ":" + " " == n + ": ";
    ReachFirst(l, fs, n, first);
    ReachOn(start, n + ": ", value, first, InValue(l, fs, Field(n, first, [])));
  }

  lemma FieldTextSplit(f: Field)
    requires f.folds != []
    ensures FieldText(f) == FieldText(f.(folds := Front(f.folds))) + ("\r\n" + Last(f.folds).blanks + Last(f.folds).text)
  {
  }

  lemma {:induction false} ReachField(l: Line, fs: seq<Field>, f: Field)
    requires ValidLine(l) && ValidOpen(fs, f)
    ensures Reaches(HeaderStart(l, fs), FieldText(f), Opened(l, fs, f))
    decreases |f.folds|
  {
    hide Feed, BodyLength;
    if f.folds == [] {
      ReachUnfolded(l, fs, f.name, f.first);
      assert FieldText(f) == f.name + ": " + f.first;
    } else {
      var g := f.(folds := Front(f.folds));
      var fold := Last(f.folds);
      assert ValidFold(fold) && ValidField(g);
      ReachField(l, fs, g);
      ReachFold(l, fs, g, fold);
      assert g.folds + [fold] == f.folds;
      FieldTextSplit(f);
      ReachOn(HeaderStart(l, fs), FieldText(g), Opened(l, fs, g), "\r\n" + fold.blanks + fold.text, Opened(l, fs, f));
    }
  }

  lemma ReachFieldLine(l: Line, fs: seq<Field>, f: Field)
    requires ValidLine(l) && ValidOpen(fs, f)
    ensures Valid(HeaderStart(l, fs + [f]))
    ensures Reaches(HeaderStart(l, fs), FieldText(f) + "\r\n", HeaderStart(l, fs + [f]))
  {
    hide Feed, BodyLength, FieldText, ValidField, ValidLine;
    var start := HeaderStart(l, fs);
    ReachField(l, fs, f);
    ReachOneMore(start, FieldText(f), Opened(l, fs, f), '\r', Newline2(l, fs, f));
    ReachOneMore(start, FieldText(f) + "\r", Newline2(l, fs, f), '\n', HeaderStart(l, fs + [f]));
    assert FieldText(f) + "\r" + "\n" == FieldText(f) + "\r\n";
  }

  lemma {:induction false} ReachFields(l: Line, fs: seq<Field>)
    requires ValidLine(l) && ValidFields(fs)
    ensures Reaches(HeaderStart(l, []), FieldsText(fs), HeaderStart(l, fs))
    decreases |fs|
  {
    hide Feed, BodyLength, FieldText, ValidField, ValidLine, Step, Reaches;
    var start := HeaderStart(l, []);
    if fs == [] {
      ReachNothing(start);
    } else {
      var gs, f := Front(fs), Last(fs);
      ReachFields(l, gs);
      ReachFieldLine(l, gs, f);
      assert gs + [f] == fs;
      ReachOn(start, FieldsText(gs), HeaderStart(l, gs), FieldText(f) + "\r\n", HeaderStart(l, fs));
      assert FieldsText(gs) + (FieldText(f) + "\r\n") == FieldsText(fs);
    }
  }

  lemma {:induction false} ReachBody(start: Progress, b: string)
    requires Valid(start) && start.InBody? && start.body == "" && |b| < start.remaining
    ensures Reaches(start, b, start.(body := b, remaining := start.remaining - |b|))
    decreases |b|
  {
    hide Feed, BodyLength;
    if b == "" {
      ReachNothing(start);
    } else {
      ReachBody(start, Front(b));
      assert Front(b) + [Last(b)] == b;
      var n := start.remaining - |b|;
      ReachOneMore(start, Front(b), start.(body := Front(b), remaining := n + 1), Last(b), start.(body := b, remaining := n));
    }
  }

  lemma ReachHead(l: Line, fs: seq<Field>)
    requires ValidLine(l) && ValidFields(fs)
    ensures Reaches(MethodStart, HeadText(l, fs) + "\r", Newline3(l, fs))
  {
    hide Feed, BodyLength;
    ReachLine(l);
    ReachFields(l, fs);
    ReachOn(MethodStart, LineText(l) + "\r\n", HeaderStart(l, []), FieldsText(fs), HeaderStart(l, fs));
    ReachOneMore(MethodStart, HeadText(l, fs), HeaderStart(l, fs), '\r', Newline3(l, fs));
  }

  lemma CompleteWithoutBody(l: Line, fs: seq<Field>, rest: string)
    requires ValidLine(l) && ValidFields(fs) && BodyLength(fs) == 0
    ensures var s := HeadText(l, fs) + "\r" + ("\n" + rest);
            Feed(MethodStart, s) == Fed(Accept(Message(l, fs, "")), Newline3(l, fs), |HeadText(l, fs)| + 2)
  {
    hide Feed;
    ReachHead(l, fs);
    ReachEnd(MethodStart, HeadText(l, fs) + "\r", Newline3(l, fs), '\n', Message(l, fs, ""), rest);
  }

  lemma CompleteWithBody(l: Line, fs: seq<Field>, b: string, c: char, rest: string)
    requires ValidLine(l) && ValidFields(fs) && |b| + 1 == BodyLength(fs)
    ensures var s := HeadText(l, fs) + "\r" + "\n" + b + ([c] + rest);
            Feed(MethodStart, s) == Fed(Accept(Message(l, fs, b + [c])), InBody(l, fs, b, 1), |HeadText(l, fs)| + |b| + 3)
  {
    hide Feed, BodyLength, HeadText, ValidLine, ValidFields;
    var head, start := HeadText(l, fs) + "\r", InBody(l, fs, "", BodyLength(fs));
    ReachHead(l, fs);
    ReachOneMore(MethodStart, head, Newline3(l, fs), '\n', start);
    ReachBody(start, b);
    ReachOn(MethodStart, head + "\n", start, b, InBody(l, fs, b, 1));
    ReachEnd(MethodStart, head + "\n" + b, InBody(l, fs, b, 1), c, Message(l, fs, b + [c]), rest);
  }

  lemma SerializeSplit(m: Message, rest: string)
    ensures var head := HeadText(m.line, m.fields);
            && |Serialize(m)| == |head| + 2 + |m.body|
            && Serialize(m) + rest ==
               if m.body == "" then head + "\r" + ("\n" + rest)
               else head + "\r" + "\n" + Front(m.body) + ([Last(m.body)] + rest)
  {
    if m.body != "" {
      assert Front(m.body) + [Last(m.body)] == m.body;
    }
  }

  /** Every well-formed message, followed by anything, is accepted as itself, at its last character. */
  lemma Completeness(m: Message, rest: string)
    requires WellFormed(m)
    ensures var f := Feed(MethodStart, Serialize(m) + rest);
            f.outcome == Accept(m) && f.used == |Serialize(m)|
  {
    hide Feed, BodyLength, HeadText;
    SerializeSplit(m, rest);
    if m.body == "" {
      CompleteWithoutBody(m.line, m.fields, rest);
    } else {
      CompleteWithBody(m.line, m.fields, Front(m.body), Last(m.body), rest);
      assert Front(m.body) + [Last(m.body)] == m.body;
    }
  }

  /* ---------- main results ---------- */

  /** A fresh parser accepts after n characters exactly when those characters are the serialisation
      of a well-formed message, and the message it reports is that one. */
  lemma AcceptIffMessage(s: string, n: nat, m: Message)
    requires n <= |s|
    ensures (Feed(MethodStart, s).outcome == Accept(m) && Feed(MethodStart, s).used == n)
            <==> (WellFormed(m) && s[..n] == Serialize(m))
  {
    hide Feed, BodyLength, HeadText;
    Soundness(s);
    if WellFormed(m) && s[..n] == Serialize(m) {
      CompletePrefix(s, n, m);
    }
  }

  lemma CompletePrefix(s: string, n: nat, m: Message)
    requires n <= |s| && WellFormed(m) && s[..n] == Serialize(m)
    ensures Feed(MethodStart, s).outcome == Accept(m) && Feed(MethodStart, s).used == n
  {
    hide Feed, BodyLength, HeadText;
    assert Serialize(m) + s[n..] == s;
    Completeness(m, s[n..]);
  }

  lemma Soundness(s: string)
    ensures var f := Feed(MethodStart, s);
            f.outcome.Accept? ==> WellFormed(f.outcome.message) && Serialize(f.outcome.message) == s[..f.used]
  {
    hide Feed, BodyLength, HeadText;
    FeedSound(MethodStart, s);
    var n := Feed(MethodStart, s).used;
    assert "" + s[..n] == s[..n];
  }

  /** A text splits in at most one way into a message and what follows it. */
  lemma UniqueSplit(m1: Message, rest1: string, m2: Message, rest2: string)
    requires WellFormed(m1) && WellFormed(m2)
    requires Serialize(m1) + rest1 == Serialize(m2) + rest2
    ensures m1 == m2 && rest1 == rest2
  {
    hide Feed, BodyLength, HeadText;
    Completeness(m1, rest1);
    Completeness(m2, rest2);
    var s := Serialize(m1) + rest1;
    assert s[|Serialize(m1)|..] == rest1 && s[|Serialize(m2)|..] == rest2;
  }

  /** A Content-Length written as a plain numeral announces that many body characters. */
  lemma LengthAsWritten(fs: seq<Field>, n: nat)
    requires HeaderValue(HeadersOf(fs), "Content-Length") == Numeral(n) && n < TWO_TO_THE_64
    ensures BodyLength(fs) == n
  {
    NumeralReads(n);
  }

  /** In general the length is the number a Content-Length value begins with, after blanks and a sign:
      none or one past 64 bits announces no body, a negative one wraps around. */
  lemma LengthIs(fs: seq<Field>, blanks: string, sign: string, digits: string, rest: string)
    requires forall i :: 0 <= i < |blanks| ==> blanks[i] == ' ' || 9 <= blanks[i] as int <= 13
    requires sign == "" || sign == "+" || sign == "-"
    requires digits != "" && forall c :: c in digits ==> IsDigit(c)
    requires rest != "" ==> !IsDigit(rest[0])
    requires HeaderValue(HeadersOf(fs), "Content-Length") == blanks + (sign + (digits + rest))
    ensures var v := Decimal(digits);
            BodyLength(fs) == if v > 18446744073709551615 then 0
                              else if sign == "-" && v > 0 then 18446744073709551616 - v
                              else v
  {
    hide StoULL, ReadNumber;
    NumberReads(blanks, sign, digits, rest);
    NumbersConvert(HeaderValue(HeadersOf(fs), "Content-Length"));
  }

  /** Calling the parser again and again from where it stopped, as long as it accepts. */
  function ParseAll(p: Progress, s: string): (seq<Request>, Fed)
    requires Valid(p)
    decreases |s|
  {
    var f := Feed(p, s);
    if f.outcome.Accept? then
      var (requests, last) := ParseAll(MethodStart, s[f.used..]);
      ([RequestOf(f.outcome.message)] + requests, last)
    else ([], f)
  }

  function SerializeAll(ms: seq<Message>): string {
    if ms == [] then "" else Serialize(ms[0]) + SerializeAll(ms[1..])
  }

  function RequestsOf(ms: seq<Message>): seq<Request> {
    if ms == [] then [] else [RequestOf(ms[0])] + RequestsOf(ms[1..])
  }

  /** Requests sent back to back come out one by one, in order, with nothing left over and the
      parser ready for the next one. */
  lemma {:induction false} Pipelining(ms: seq<Message>)
    requires forall i :: 0 <= i < |ms| ==> WellFormed(ms[i])
    ensures ParseAll(MethodStart, SerializeAll(ms)) == (RequestsOf(ms), Fed(More(MethodStart), MethodStart, 0))
  {
    if ms != [] {
      var rest := SerializeAll(ms[1..]);
      Completeness(ms[0], rest);
      assert (Serialize(ms[0]) + rest)[|Serialize(ms[0])|..] == rest;
      Pipelining(ms[1..]);
    }
  }
}
