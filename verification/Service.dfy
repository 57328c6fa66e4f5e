/** From reads to handlers: the reads of any number of sessions, in the order they arrive, become
    hand-offs to the one shared parser. */
module Service {
  import opened Common
  import opened RequestSyntax
  import opened Routing
  import opened Intake
  import opened HandOffs
  import Session

  /** A read completed by one of the sessions. */
  datatype Arrival = Arrival(session: nat, chunk: Session.Chunk)

  /** The reads of one session. */
  function ChunksOf(arrivals: seq<Arrival>, session: nat): seq<Session.Chunk> {
    if arrivals == [] then []
    else
      var before, a := ChunksOf(Front(arrivals), session), Last(arrivals);
      if a.session == session then before + [a.chunk] else before
  }

  /** What the last of these reads comes to in its session. */
  function LastEvent(ck: Session.Checks, arrivals: seq<Arrival>): Session.Event
    requires arrivals != []
  {
    var a := Last(arrivals);
    Session.Read(ck, Session.StateAfter(ck, ChunksOf(Front(arrivals), a.session)), a.chunk.text, a.chunk.bytes).0
  }

  function HandedOn(e: Session.Event): seq<HandOff> {
    match e
    case Good(text) => [HandOff(text, true)]
    case Bad(text) => [HandOff(text, false)]
    case Kept => []
    case Dropped => []
  }

  /** The texts handed on, whichever session they come from, in order. */
  function HandOffsOf(ck: Session.Checks, arrivals: seq<Arrival>): seq<HandOff> {
    if arrivals == [] then []
    else HandOffsOf(ck, Front(arrivals)) + HandedOn(LastEvent(ck, arrivals))
  }

  predicate Letter(c: char) { 'A' <= c <= 'Z' || 'a' <= c <= 'z' }

  /** How a text begins that matches one of the request line patterns: letters, one space character
      of any kind, and a target. */
  ghost predicate MatchesLine(text: string) {
    exists verb, sep, target :: MatchesAs(text, verb, sep, target)
  }

  predicate MatchesAs(text: string, verb: string, sep: char, target: string) {
    text == verb + ([sep] + target) && verb != "" && All(Letter, verb) && IsSpace(sep) && StartsTarget(target)
  }

  /** Both checks match the line pattern; the one for whole requests also looks the method up. */
  ghost predicate ChecksLines(ck: Session.Checks) {
    forall t: string ::
      && (ck.requestLine(t) ==> MatchesLine(t))
      && (ck.whole(t) ==> MatchesLine(t) && Session.KnownMethod(Session.FirstWord(t)))
  }

  lemma KnownMethodIsLetters(name: string)
    requires Session.KnownMethod(name)
    ensures All(Letter, name)
  {
  }

  lemma LettersMakeName(verb: string)
    requires verb != "" && All(Letter, verb)
    ensures ValidName(verb) && ' ' !in verb
  {
  }

  /** The method is looked up to the first space, so what follows a known one is a space. */
  lemma KnownMethodChecked(t: string)
    requires MatchesLine(t) && Session.KnownMethod(Session.FirstWord(t))
    ensures Checked(t)
  {
    hide Session.KnownMethod, Session.FirstWord, ValidName, StartsTarget;
    var verb, sep, target :| MatchesAs(t, verb, sep, target);
    LettersMakeName(verb);
    KnownMethodIsLetters(Session.FirstWord(t));
    FirstWordRunsOn(t, verb, sep, target);
    assert sep == ' ' && verb + ([sep] + target) == verb + " " + target;
    assert CheckedAs(t, verb, target);
  }

  /** After any other space character the first word runs on over it. */
  lemma FirstWordRunsOn(t: string, verb: string, sep: char, target: string)
    requires t == verb + ([sep] + target) && ' ' !in verb
    ensures sep != ' ' ==> |Session.FirstWord(t)| > |verb| && Session.FirstWord(t)[|verb|] == sep
  {
    assert t[|verb|] == sep && forall i :: 0 <= i < |verb| ==> t[i] == verb[i] && t[i] in verb;
  }

  /** What a session has collected is empty while idle and begins like a checked text otherwise. */
  ghost predicate BodyChecked(st: Session.State) {
    if st.requestStart then Checked(st.httpBody) else st.httpBody == ""
  }

  lemma ReadKeepsChecked(ck: Session.Checks, st: Session.State, chunk: string, bytes: nat)
    requires ChecksLines(ck) && BodyChecked(st)
    ensures BodyChecked(Session.Read(ck, st, chunk, bytes).1)
    ensures var e := Session.Read(ck, st, chunk, bytes).0;
            e.Good? ==> Checked(e.text)
  {
    hide Checked, MatchesLine, Session.KnownMethod, Session.FirstWord;
    if st.requestStart {
      CheckedAppends(st.httpBody, chunk);
    } else {
      assert st.httpBody + chunk == chunk;
      if MatchesLine(chunk) && Session.KnownMethod(Session.FirstWord(chunk)) {
        KnownMethodChecked(chunk);
      }
    }
  }

  lemma {:induction false} BodyStaysChecked(ck: Session.Checks, chunks: seq<Session.Chunk>)
    requires ChecksLines(ck)
    ensures BodyChecked(Session.StateAfter(ck, chunks))
  {
    hide BodyChecked, ChecksLines;
    if chunks == [] {
      IdleIsChecked();
    } else {
      var c := chunks[|chunks| - 1];
      BodyStaysChecked(ck, chunks[..|chunks| - 1]);
      ReadKeepsChecked(ck, Session.StateAfter(ck, chunks[..|chunks| - 1]), c.text, c.bytes);
    }
  }

  lemma IdleIsChecked()
    ensures BodyChecked(Session.IDLE)
  {
  }

  /** Every text a run of reads hands on as good begins like a checked text. */
  lemma {:induction false} ReadsAreScreened(ck: Session.Checks, arrivals: seq<Arrival>)
    requires ChecksLines(ck)
    ensures Screened(HandOffsOf(ck, arrivals))
    decreases |arrivals|
  {
    hide Checked, ChecksLines, BodyChecked;
    if arrivals != [] {
      var a, st := Last(arrivals), Session.StateAfter(ck, ChunksOf(Front(arrivals), Last(arrivals).session));
      ReadsAreScreened(ck, Front(arrivals));
      BodyStaysChecked(ck, ChunksOf(Front(arrivals), a.session));
      ReadKeepsChecked(ck, st, a.chunk.text, a.chunk.bytes);
    }
  }

  /** For every run of reads of any number of sessions, with real handlers: no null handler is called
      if the texts handed on are harmless to each other and the admissible URIs are covered; and if
      "/" is registered, none is called as long as the parser's behaviour is defined. */
  lemma ReadsAreSafe(ck: Session.Checks, m: Handlers, arrivals: seq<Arrival>)
    requires ChecksLines(ck) && NoNulls(m)
    ensures var offs := HandOffsOf(ck, arrivals);
            && (Covered(m) && HarmlessRun(Texts(offs)) ==> Safe(m, offs))
            && (ROOT in m && UrisLookedUp(offs).Some? ==> Safe(m, offs))
  {
    hide ChecksLines, NoNulls, Covered, HarmlessRun, Screened, UrisLookedUp, Crashes;
    var offs := HandOffsOf(ck, arrivals);
    ReadsAreScreened(ck, arrivals);
    if Covered(m) && HarmlessRun(Texts(offs)) {
      HarmlessRunsSafe(m, offs);
    }
    if ROOT in m && UrisLookedUp(offs).Some? {
      RootKeepsRunsSafe(m, UrisLookedUp(offs).value);
    }
  }

  /* ---------- reads that call a null handler ---------- */

  function At(text: string): Arrival {
    Arrival(0, Session.Chunk(text, |text|))
  }

  /** One more read, by a session that has handed on everything before. */
  lemma ReadOne(ck: Session.Checks, arrivals: seq<Arrival>, text: string, e: Session.Event)
    requires Session.StateAfter(ck, ChunksOf(arrivals, 0)) == Session.IDLE
    requires Session.Read(ck, Session.IDLE, text, |text|) == (e, Session.IDLE)
    ensures Session.StateAfter(ck, ChunksOf(arrivals + [At(text)], 0)) == Session.IDLE
    ensures HandOffsOf(ck, arrivals + [At(text)]) == HandOffsOf(ck, arrivals) + HandedOn(e)
  {
    hide Session.Read;
    var all, chunks := arrivals + [At(text)], ChunksOf(arrivals, 0);
    assert Front(all) == arrivals && Last(all) == At(text);
    assert (chunks + [At(text).chunk])[..|chunks|] == chunks;
  }

  lemma NoMatch(u: string)
    requires u != "" && u[0] == 'a'
    ensures !MatchesLine("X" + " " + u)
  {
    forall verb, sep, target ensures !MatchesAs("X" + " " + u, verb, sep, target) {
      NoMatchAs(u, verb, sep, target);
    }
  }

  lemma NoMatchAs(u: string, verb: string, sep: char, target: string)
    requires u != "" && u[0] == 'a'
    ensures !MatchesAs("X" + " " + u, verb, sep, target)
  {
    var t := "X" + " " + u;
    assert t[1] == ' ' && t[2] == 'a' && !Letter(' ');
    var s := verb + ([sep] + target);
    assert |verb| >= 2 ==> s[1] == verb[1];
    assert |verb| == 1 && target != "" ==> s[2] == target[0];
  }

  lemma ReadBad(ck: Session.Checks, u: string)
    requires ChecksLines(ck) && u != "" && u[0] == 'a'
    ensures var t := "X" + " " + u;
            Session.Read(ck, Session.IDLE, t, |t|) == (Session.Bad(t), Session.IDLE)
  {
    hide MatchesLine;
    var t := "X" + " " + u;
    NoMatch(u);
    assert "" + t == t && t[0] == 'X';
  }

  lemma ReadGood(ck: Session.Checks, t: string)
    requires ck.whole(t) && t != Session.CRLF
    ensures Session.Read(ck, Session.IDLE, t, |t|) == (Session.Good(t), Session.IDLE)
  {
    assert "" + t == t;
  }

  /** Reads that hand on letters as a pending URI and then two requests for "/". */
  lemma ReadsGarbled(ck: Session.Checks, n: nat) returns (arrivals: seq<Arrival>)
    requires ChecksLines(ck) && ck.whole(Get("/")) && n > 0
    ensures HandOffsOf(ck, arrivals) == [HandOff("X" + " " + Unmatched(n), false), GET_ROOT, GET_ROOT]
  {
    hide ChecksLines, Session.Read, HandOffsOf, Session.StateAfter;
    var bad, get := "X" + " " + Unmatched(n), Get("/");
    ReadBad(ck, Unmatched(n));
    ReadGood(ck, get);
    NoReads(ck);
    ReadOne(ck, [], bad, Session.Bad(bad));
    ReadOne(ck, [] + [At(bad)], get, Session.Good(get));
    ReadOne(ck, [] + [At(bad)] + [At(get)], get, Session.Good(get));
    arrivals := [] + [At(bad)] + [At(get)] + [At(get)];
  }

  lemma NoReads(ck: Session.Checks)
    ensures Session.StateAfter(ck, ChunksOf([], 0)) == Session.IDLE && HandOffsOf(ck, []) == []
  {
  }

  ghost predicate ReadsAlwaysSafe(ck: Session.Checks, m: Handlers) {
    forall arrivals: seq<Arrival> ::
      UrisLookedUp(HandOffsOf(ck, arrivals)).Some? ==> Safe(m, HandOffsOf(ck, arrivals))
  }

  /** With checks that match the line pattern and let a request for "/" pass, and with real handlers:
      no run of reads calls through a null handler if and only if "/" is registered. */
  lemma ReadsSafeIff(ck: Session.Checks, m: Handlers)
    requires ChecksLines(ck) && ck.whole(Get("/")) && NoNulls(m)
    ensures ReadsAlwaysSafe(ck, m) <==> ROOT in m
  {
    hide ChecksLines, NoNulls, Crashes, UrisLookedUp, HandOffsOf;
    if ROOT in m {
      forall arrivals: seq<Arrival> | UrisLookedUp(HandOffsOf(ck, arrivals)).Some?
        ensures Safe(m, HandOffsOf(ck, arrivals))
      {
        ReadsAreSafe(ck, m, arrivals);
      }
    } else {
      var n := LongerThanKeys(m.Keys);
      var arrivals := ReadsGarbled(ck, n);
      GarbledThenRoot(n);
      LettersHaveNoKey(m, n);
      StrayThenRoot(m, Unmatched(n) + "GET");
      assert !Safe(m, HandOffsOf(ck, arrivals));
    }
  }
}
