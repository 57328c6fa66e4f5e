/** Runs of hand-offs in which only checked texts are routed: exactly which leftovers in the shared
    parser such texts can notice, and which handlers keep every run from calling a null handler. */
module HandOffs {
  import opened Common
  import opened RequestSyntax
  import opened RequestMachine
  import opened RequestTheorems
  import opened Routing
  import opened Intake

  /** How every text given to good_request begins: a method name, a space and a target. */
  ghost predicate Checked(text: string) {
    exists verb, target :: CheckedAs(text, verb, target)
  }

  predicate CheckedAs(text: string, verb: string, target: string) {
    text == verb + " " + target && ValidName(verb) && StartsTarget(target)
  }

  lemma CheckedAppends(text: string, more: string)
    requires Checked(text)
    ensures Checked(text + more)
  {
    var verb, target :| CheckedAs(text, verb, target);
    assert text + more == verb + " " + (target + more);
    assert CheckedAs(text + more, verb, target + more);
  }

  lemma CheckedStartsName(text: string)
    requires Checked(text)
    ensures text != "" && IsTokenChar(text[0])
  {
  }

  lemma CheckedIsAdmissible(t: string)
    requires Checked(t)
    ensures UriRouted(MethodStart, t).Some? && Admissible(UriRouted(MethodStart, t).value)
  {
    hide UriRouted, Admissible, ValidName;
    var verb, target :| CheckedAs(t, verb, target);
    CheckedUriIsAdmissible(verb, target);
  }

  /* ---------- the method name makes no difference ---------- */

  predicate AlikeLines(l: Line, k: Line) { l.uri == k.uri && l.major == k.major && l.minor == k.minor }

  /** Partial messages that differ in the method name at most. */
  predicate Alike(p: Progress, q: Progress) {
    match p
    case MethodStart => q.MethodStart?
    case InMethod(_) => q.InMethod?
    case InUri(_, u) => q.InUri? && q.uri == u
    case InVersion(_, u, n) => q.InVersion? && q.uri == u && q.seen == n
    case InMajor(_, u, major) => q.InMajor? && q.uri == u && q.major == major
    case MinorStart(_, u, major) => q.MinorStart? && q.uri == u && q.major == major
    case InMinor(l) => q.InMinor? && AlikeLines(q.line, l)
    case Newline1(l) => q.Newline1? && AlikeLines(q.line, l)
    case HeaderStart(l, fs) => q.HeaderStart? && AlikeLines(q.line, l) && q.fields == fs
    case HeaderName(l, fs, n) => q.HeaderName? && AlikeLines(q.line, l) && q.fields == fs && q.name == n
    case SpaceBeforeValue(l, fs, n) => q.SpaceBeforeValue? && AlikeLines(q.line, l) && q.fields == fs && q.name == n
    case HeaderLws(l, fs, f) => q.HeaderLws? && AlikeLines(q.line, l) && q.fields == fs && q.open == f
    case InValue(l, fs, f) => q.InValue? && AlikeLines(q.line, l) && q.fields == fs && q.open == f
    case Newline2(l, fs, f) => q.Newline2? && AlikeLines(q.line, l) && q.fields == fs && q.open == f
    case Newline3(l, fs) => q.Newline3? && AlikeLines(q.line, l) && q.fields == fs
    case InBody(l, fs, b, n) =>
      q.InBody? && AlikeLines(q.line, l) && q.fields == fs && q.body == b && q.remaining == n
  }

  predicate AlikeOutcomes(a: Outcome, b: Outcome) {
    match a
    case More(p) => b.More? && Alike(p, b.progress)
    case Accept(m) => b.Accept? && m.line.uri == b.message.line.uri
    case Reject => b.Reject?
    case Broken => b.Broken?
  }

  lemma AlikeStep(p: Progress, q: Progress, c: char)
    requires Valid(p) && Valid(q) && Alike(p, q)
    ensures AlikeOutcomes(Step(p, c), Step(q, c))
  {
    hide RequestMachine.Valid, Step, AlikeOutcomes;
    if InFields(p) {
      AlikeFieldStep(p, q, c);
    } else {
      AlikeOtherStep(p, q, c);
    }
  }

  lemma AlikeFieldStep(p: Progress, q: Progress, c: char)
    requires Valid(p) && Valid(q) && Alike(p, q) && InFields(p)
    ensures AlikeOutcomes(Step(p, c), Step(q, c))
  {
    hide IsTokenChar, IsControl, AddChar, AddBlank, AddFold, ValidLine, ValidFields, ValidOpen;
  }

  lemma AlikeOtherStep(p: Progress, q: Progress, c: char)
    requires Valid(p) && Valid(q) && Alike(p, q) && !InFields(p)
    ensures AlikeOutcomes(Step(p, c), Step(q, c))
  {
    hide BodyLength, IsTokenChar, IsControl, ValidLine, ValidFields, ValidTarget;
  }

  lemma {:induction false} AlikeFeed(p: Progress, q: Progress, t: string)
    requires Valid(p) && Valid(q) && Alike(p, q)
    ensures AlikeOutcomes(Feed(p, t).outcome, Feed(q, t).outcome)
    ensures Alike(Feed(p, t).at, Feed(q, t).at)
    decreases |t|
  {
    hide RequestMachine.Valid, Step, Alike;
    if t != "" {
      AlikeStep(p, q, t[0]);
      StepSound(p, t[0]);
      StepSound(q, t[0]);
      if Step(p, t[0]).More? {
        AlikeFeed(Step(p, t[0]).progress, Step(q, t[0]).progress, t[1..]);
      }
    }
  }

  lemma AlikeUris(p: Progress, q: Progress)
    requires Alike(p, q)
    ensures UriRead(p) == UriRead(q)
  {
  }

  lemma NewIsAlike()
    ensures Alike(MethodStart, MethodStart)
  {
  }

  lemma AlikeRouted(p: Progress, q: Progress, t: string)
    requires Valid(p) && Valid(q) && Alike(p, q)
    ensures UriRouted(p, t) == UriRouted(q, t)
    ensures Carried(p, t).Some? <==> Carried(q, t).Some?
    ensures Carried(p, t).Some? ==> Alike(Carried(p, t).value, Carried(q, t).value)
  {
    hide RequestMachine.Valid, Feed, Alike, UriRead;
    AlikeFeed(p, q, t);
    AlikeUris(Feed(p, t).at, Feed(q, t).at);
    NewIsAlike();
  }

  /** A text that begins with a name character does not notice a leftover name before it. */
  lemma NameGoesUnnoticed(v: string, t: string)
    requires ValidName(v) && t != "" && IsTokenChar(t[0])
    ensures UriRouted(InMethod(v), t) == UriRouted(MethodStart, t)
    ensures Carried(MethodStart, t) == Some(MethodStart) ==> Carried(InMethod(v), t) == Some(MethodStart)
  {
    hide UriRouted, Carried, Feed;
    var c, r := t[0], t[1..];
    var p, q := InMethod(v + [c]), InMethod([c]);
    FirstChar(InMethod(v), p, t);
    FirstChar(MethodStart, q, t);
    AlikeRouted(p, q, r);
  }

  lemma FirstChar(p: Progress, q: Progress, t: string)
    requires Valid(p) && t != "" && Step(p, t[0]) == More(q)
    ensures Valid(q) && UriRouted(p, t) == UriRouted(q, t[1..]) && Carried(p, t) == Carried(q, t[1..])
  {
    hide RequestMachine.Valid, Step;
    StepSound(p, t[0]);
  }

  /* ---------- which leftovers a checked text notices ---------- */

  /** Past the URI, no further character changes it. */
  lemma {:induction false} UriIsFixed(p: Progress, t: string)
    requires Valid(p) && !InTarget(p)
    ensures UriRouted(p, t) == Some("") || UriRouted(p, t) == Some(UriRead(p))
    decreases |t|
  {
    hide UriRouted;
    if t == "" {
      NothingRouted(p);
    } else {
      UriFixedStep(p, t[0]);
      FirstOutcome(p, t);
      if Step(p, t[0]).More? {
        UriIsFixed(Step(p, t[0]).progress, t[1..]);
      }
    }
  }

  lemma NothingRouted(p: Progress)
    requires Valid(p)
    ensures UriRouted(p, "") == Some("")
  {
  }

  lemma UriFixedStep(p: Progress, c: char)
    requires Valid(p) && !InTarget(p)
    ensures var o := Step(p, c);
            && !o.Broken?
            && (o.Accept? ==> o.message.line.uri == UriRead(p))
            && (o.More? ==> !InTarget(o.progress) && UriRead(o.progress) == UriRead(p))
  {
    hide BodyLength;
  }

  lemma FirstOutcome(p: Progress, t: string)
    requires Valid(p) && t != ""
    ensures match Step(p, t[0])
            case More(q) => Valid(q) && UriRouted(p, t) == UriRouted(q, t[1..])
            case Accept(m) => UriRouted(p, t) == Some(m.line.uri)
            case Reject => UriRouted(p, t) == Some(UriRead(p))
            case Broken => UriRouted(p, t) == None
  {
    hide RequestMachine.Valid, Step, UriRead, TextOf;
    StepSound(p, t[0]);
  }

  /** A path longer, by four, than n characters. */
  function LongPath(n: nat): string {
    "/" + Unmatched(n + 3)
  }

  /** A request whose target is longer than anything the leftover can make of it. */
  lemma LongRequestNotices(p: Progress)
    requires Valid(p) && !p.MethodStart? && !p.InMethod?
    ensures var t := Get(LongPath(|UriRead(p)|));
            Checked(t) && UriRouted(p, t) != UriRouted(MethodStart, t)
  {
    hide UriRouted, Carried;
    var u := LongPath(|UriRead(p)|);
    PlainGet(u);
    GetIsChecked(u);
    if p.InUri? {
      PendingUriTakesMethod(p.verb, p.uri, "GET", u + " HTTP/1.1\r\n\r\n");
    } else {
      UriIsFixed(p, Get(u));
    }
  }

  lemma GetIsChecked(u: string)
    requires StartsTarget(u)
    ensures Checked(Get(u))
  {
    hide StartsTarget;
    var end := " HTTP/1.1\r\n\r\n";
    TargetGrows(u, end);
    assert CheckedAs(Get(u), "GET", u + end);
  }

  lemma TargetGrows(u: string, more: string)
    requires StartsTarget(u)
    ensures StartsTarget(u + more)
  {
  }

  /** Every checked text that could be handed on next is routed as by a new parser. */
  ghost predicate RoutesAlike(p: Option<Progress>)
    requires p.Some? ==> Valid(p.value)
  {
    p.Some? && forall t :: Checked(t) ==> UriRouted(p.value, t) == UriRouted(MethodStart, t)
  }

  /** Nothing is left in the parser, or a method name only. */
  predicate Clear(p: Option<Progress>) {
    p.Some? && (p.value.MethodStart? || p.value.InMethod?)
  }

  lemma RoutesAlikeIffClear(p: Option<Progress>)
    requires p.Some? ==> Valid(p.value)
    ensures RoutesAlike(p) <==> Clear(p)
  {
    hide UriRouted, Checked;
    if p.Some? && p.value.InMethod? {
      forall t | Checked(t) ensures UriRouted(p.value, t) == UriRouted(MethodStart, t) {
        CheckedStartsName(t);
        NameGoesUnnoticed(p.value.verb, t);
      }
    } else if p.Some? && !p.value.MethodStart? {
      LongRequestNotices(p.value);
    }
  }

  /* ---------- the same over runs, in terms of the texts ---------- */

  predicate NameOnly(t: string) { All(IsTokenChar, t) }

  /** The last texts, not all empty, are parts of a name. */
  predicate InName(texts: seq<string>) {
    texts != [] && NameOnly(Last(texts)) && (Last(texts) != "" || InName(Front(texts)))
  }

  /** A parser at the start, or inside a name. */
  function Starting(inName: bool): (p: Progress)
    ensures Valid(p)
  {
    if inName then InMethod("X") else MethodStart
  }

  /** The text is a part of a name, or the parser comes to a verdict within it. */
  predicate Harmless(inName: bool, t: string) {
    var o := Feed(Starting(inName), t).outcome;
    NameOnly(t) || o.Accept? || o.Reject?
  }

  predicate HarmlessRun(texts: seq<string>) {
    texts != [] ==> HarmlessRun(Front(texts)) && Harmless(InName(Front(texts)), Last(texts))
  }

  lemma {:induction false} FeedName(p: Progress, t: string)
    requires Valid(p) && (p.MethodStart? || p.InMethod?) && NameOnly(t)
    ensures var q := if t == "" then p else InMethod((if p.InMethod? then p.verb else "") + t);
            Feed(p, t).outcome == More(q)
    decreases |t|
  {
    if t != "" {
      var c := t[0];
      var q := InMethod((if p.InMethod? then p.verb else "") + [c]);
      assert "" + [c] == [c];
      assert Step(p, c) == More(q);
      assert q.verb + t[1..] == (if p.InMethod? then p.verb else "") + t;
      FeedName(q, t[1..]);
    }
  }

  /** A clear parser stays clear exactly on a harmless text. */
  lemma HarmlessIffClear(inName: bool, t: string)
    ensures Harmless(inName, t) <==> Clear(Carried(Starting(inName), t))
    ensures Harmless(inName, t) ==>
              (Carried(Starting(inName), t).value.InMethod? <==> NameOnly(t) && (t != "" || inName))
  {
    hide Feed;
    var p := Starting(inName);
    FeedSound(p, t);
    if NameOnly(t) {
      FeedName(p, t);
    } else if Clear(Carried(p, t)) && Feed(p, t).outcome.More? {
      OnlyNamesStayClear(p, t, Feed(p, t).outcome.progress);
      assert false;
    }
  }

  lemma OnlyNamesStayClear(p: Progress, t: string, q: Progress)
    requires Valid(p) && Valid(q) && (p.MethodStart? || p.InMethod?) && (q.MethodStart? || q.InMethod?)
    requires TextOf(q) == TextOf(p) + t
    ensures NameOnly(t)
  {
    var n := |TextOf(p)|;
    assert forall i :: 0 <= i < |t| ==> t[i] == (TextOf(p) + t)[n + i];
  }

  lemma {:induction false} HarmlessLeftover(texts: seq<string>)
    requires HarmlessRun(texts)
    ensures Clear(Leftover(texts)) && Alike(Leftover(texts).value, Starting(InName(texts)))
    decreases |texts|
  {
    hide Harmless, Carried, RequestMachine.Valid, NameOnly;
    if texts != [] {
      var before, t := Front(texts), Last(texts);
      HarmlessLeftover(before);
      HarmlessIffClear(InName(before), t);
      AlikeRouted(Leftover(before).value, Starting(InName(before)), t);
    }
  }

  lemma RunContinues(texts: seq<string>)
    requires texts != [] && HarmlessRun(Front(texts))
    ensures Clear(Leftover(texts)) <==> HarmlessRun(texts)
  {
    hide Harmless, Carried, RequestMachine.Valid, NameOnly;
    var before, t := Front(texts), Last(texts);
    HarmlessLeftover(before);
    HarmlessIffClear(InName(before), t);
    AlikeRouted(Leftover(before).value, Starting(InName(before)), t);
  }

  /** Throughout a run of hand-offs every checked text is routed by its own URI if and only if each
      text of the run is a part of a method name or brings the parser, which is then at the start or
      inside a name, to a verdict. */
  lemma {:induction false} RoutedByOwnUriIff(texts: seq<string>)
    ensures (forall k :: 0 <= k <= |texts| ==> RoutesAlike(Leftover(texts[..k]))) <==> HarmlessRun(texts)
    decreases |texts|
  {
    hide RoutesAlike, Harmless, Carried, RequestMachine.Valid, Clear;
    var n := |texts|;
    assert texts[..n] == texts;
    RoutesAlikeIffClear(Leftover(texts));
    if n > 0 {
      var front := Front(texts);
      RoutedByOwnUriIff(front);
      assert forall k :: 0 <= k < n ==> texts[..k] == front[..k];
      if HarmlessRun(front) {
        RunContinues(texts);
      }
    } else {
      NewIsClear();
    }
  }

  lemma NewIsClear()
    ensures Clear(Leftover([]))
  {
  }

  /** After a harmless run a text beginning with a well-formed message is routed by the URI it was
      written with, and leaves nothing behind. */
  lemma RoutedAsWritten(texts: seq<string>, m: Message, rest: string)
    requires HarmlessRun(texts) && WellFormed(m)
    ensures Leftover(texts).Some?
    ensures UriRouted(Leftover(texts).value, Serialize(m) + rest) == Some(m.line.uri)
    ensures Carried(Leftover(texts).value, Serialize(m) + rest) == Some(MethodStart)
  {
    hide HarmlessRun, Serialize, Feed, BodyLength;
    var t := Serialize(m) + rest;
    HarmlessLeftover(texts);
    Completeness(m, rest);
    var p := Leftover(texts).value;
    if p.InMethod? {
      MessageStartsName(m);
      assert t[0] == Serialize(m)[0];
      NameGoesUnnoticed(p.verb, t);
    }
  }

  lemma MessageStartsName(m: Message)
    requires WellFormed(m)
    ensures Serialize(m) != "" && IsTokenChar(Serialize(m)[0])
  {
    hide BodyLength, FieldsText;
    assert Serialize(m)[0] == m.line.verb[0];
  }

  /* ---------- which handlers keep runs safe ---------- */

  /** A text handed to good_request or to bad_request. */
  datatype HandOff = HandOff(text: string, good: bool)

  function Texts(offs: seq<HandOff>): seq<string> {
    if offs == [] then [] else Texts(Front(offs)) + [Last(offs).text]
  }

  lemma TextsSplit(offs: seq<HandOff>)
    requires offs != []
    ensures Texts(offs) != [] && Front(Texts(offs)) == Texts(Front(offs)) && Last(Texts(offs)) == Last(offs).text
  {
  }

  /** Only checked texts are handed on as good. */
  ghost predicate Screened(offs: seq<HandOff>) {
    forall k :: 0 <= k < |offs| && offs[k].good ==> Checked(offs[k].text)
  }

  /** The URIs a run of hand-offs looks up handlers for. */
  function UrisLookedUp(offs: seq<HandOff>): Option<seq<string>> {
    if offs == [] then Some([])
    else
      var before := Leftover(Texts(Front(offs)));
      var uris := UrisLookedUp(Front(offs));
      if before.None? || uris.None? then None
      else
        match UriRouted(before.value, Last(offs).text)
        case None => None
        case Some(uri) => Some(if Last(offs).good then uris.value + [uri] else uris.value)
  }

  /** No call through a null handler, and nothing undefined before. */
  predicate Safe(m: Handlers, offs: seq<HandOff>) {
    UrisLookedUp(offs).Some? && !Crashes(m, UrisLookedUp(offs).value)
  }

  lemma RoutedIffCarried(p: Progress, t: string)
    requires Valid(p)
    ensures UriRouted(p, t).Some? <==> Carried(p, t).Some?
  {
    hide RequestMachine.Valid, Feed;
  }

  lemma {:induction false} HarmlessRunsAreAdmissible(offs: seq<HandOff>)
    requires HarmlessRun(Texts(offs)) && Screened(offs)
    ensures UrisLookedUp(offs).Some? && AllAdmissible(UrisLookedUp(offs).value)
    decreases |offs|
  {
    hide HarmlessRun, Checked, UriRouted, Admissible, Leftover, Texts;
    if offs != [] {
      TextsSplit(offs);
      FrontIsHarmless(Texts(offs));
      HarmlessRunsAreAdmissible(Front(offs));
      HarmlessRouted(Texts(offs));
      if Last(offs).good {
        AdmissiblyRouted(Texts(Front(offs)), Last(offs).text);
      }
    }
  }

  lemma HarmlessRouted(texts: seq<string>)
    requires texts != [] && HarmlessRun(texts)
    ensures Leftover(Front(texts)).Some? && UriRouted(Leftover(Front(texts)).value, Last(texts)).Some?
  {
    hide HarmlessRun, UriRouted, Carried, RequestMachine.Valid;
    HarmlessLeftover(texts);
    RoutedIffCarried(Leftover(Front(texts)).value, Last(texts));
  }

  lemma AdmissiblyRouted(before: seq<string>, t: string)
    requires HarmlessRun(before) && Checked(t)
    ensures Leftover(before).Some?
    ensures var uri := UriRouted(Leftover(before).value, t);
            uri.Some? && Admissible(uri.value)
  {
    hide HarmlessRun, Checked, UriRouted, Admissible, Leftover, RequestMachine.Valid;
    HarmlessLeftover(before);
    RoutedLikeNew(Leftover(before), t);
    CheckedIsAdmissible(t);
  }

  lemma FrontIsHarmless(texts: seq<string>)
    requires HarmlessRun(texts) && texts != []
    ensures HarmlessRun(Front(texts))
  {
  }

  lemma RoutedLikeNew(p: Option<Progress>, t: string)
    requires p.Some? && Valid(p.value) && Clear(p) && Checked(t)
    ensures UriRouted(p.value, t) == UriRouted(MethodStart, t)
  {
    hide UriRouted, Checked;
    RoutesAlikeIffClear(p);
  }

  /** With real handlers that cover the admissible URIs, a harmless run in which every good text was
      checked is safe. */
  lemma HarmlessRunsSafe(m: Handlers, offs: seq<HandOff>)
    requires NoNulls(m) && Covered(m) && HarmlessRun(Texts(offs)) && Screened(offs)
    ensures Safe(m, offs)
  {
    hide HarmlessRun, Screened, UrisLookedUp, Crashes;
    HarmlessRunsAreAdmissible(offs);
    CoveredRunsSafe(m, UrisLookedUp(offs).value);
  }

  ghost predicate HarmlessAlwaysSafe(m: Handlers) {
    forall offs: seq<HandOff> :: HarmlessRun(Texts(offs)) && Screened(offs) ==> Safe(m, offs)
  }

  /** Not undefined before, no screened run calls through a null handler. */
  ghost predicate AlwaysSafe(m: Handlers) {
    forall offs: seq<HandOff> :: UrisLookedUp(offs).Some? && Screened(offs) ==> Safe(m, offs)
  }

  /* ---------- runs that call a null handler ---------- */

  /** Appending a hand-off to a run whose texts left p. */
  lemma LookUpOne(offs: seq<HandOff>, p: Progress, off: HandOff)
    requires Leftover(Texts(offs)) == Some(p) && UrisLookedUp(offs).Some?
    requires UriRouted(p, off.text).Some?
    ensures Leftover(Texts(offs + [off])) == Carried(p, off.text)
    ensures off.good ==> UrisLookedUp(offs + [off]) == Some(UrisLookedUp(offs).value + [UriRouted(p, off.text).value])
    ensures !off.good ==> UrisLookedUp(offs + [off]) == UrisLookedUp(offs)
  {
    hide UriRouted, Carried;
    var all := offs + [off];
    assert Front(all) == offs && Last(all) == off;
    TextsSplit(all);
  }

  lemma LookUpNothing()
    ensures Leftover(Texts([])) == Some(MethodStart) && UrisLookedUp([]) == Some([])
  {
  }

  lemma HarmlessOnce(texts: seq<string>, t: string)
    requires HarmlessRun(texts) && Leftover(texts) == Some(MethodStart) && Carried(MethodStart, t) == Some(MethodStart)
    ensures HarmlessRun(texts + [t]) && Leftover(texts + [t]) == Some(MethodStart)
  {
    hide HarmlessRun, Carried;
    assert Front(texts + [t]) == texts && Last(texts + [t]) == t;
    RunContinues(texts + [t]);
  }

  /** Two requests handed on as good that look up the given URI and then "/". */
  lemma TwoRequests(stray: string) returns (offs: seq<HandOff>)
    requires StartsTarget(stray) && All(IsUriChar, stray)
    ensures Screened(offs) && HarmlessRun(Texts(offs)) && UrisLookedUp(offs) == Some([stray, "/"])
  {
    hide UriRouted, Carried, UrisLookedUp, HarmlessRun, Checked;
    var a, b := HandOff(Get(stray), true), HandOff(Get("/"), true);
    PlainGet(stray);
    GetIsChecked(stray);
    PlainGet("/");
    GetIsChecked("/");
    LookUpNothing();
    LookUpOne([], MethodStart, a);
    LookUpOne([a], MethodStart, b);
    offs := [a, b];
    assert [] + [a] == [a] && [a] + [b] == offs && [] + [stray] == [stray] && [stray] + ["/"] == [stray, "/"];
    HarmlessPair(a.text, b.text);
    TextsOfTwo(a, b);
  }

  lemma TextsOfTwo(a: HandOff, b: HandOff)
    ensures Texts([a, b]) == [a.text, b.text]
  {
    TextsSplit([a, b]);
    TextsSplit([a]);
    assert Front([a, b]) == [a] && Front([a]) == [];
  }

  lemma HarmlessPair(s: string, t: string)
    requires Carried(MethodStart, s) == Some(MethodStart) && Carried(MethodStart, t) == Some(MethodStart)
    ensures HarmlessRun([s, t])
  {
    hide Carried;
    HarmlessOnce([], s);
    HarmlessOnce([s], t);
    assert [] + [s] == [s] && [s] + [t] == [s, t];
  }

  const GET_ROOT := HandOff(Get("/"), true)

  /** A bad text that leaves u as a pending URI, then a request for "/". */
  lemma GarbledRequest(u: string, bad: HandOff)
    requires All(IsUriChar, u) && bad == HandOff("X" + " " + u, false)
    ensures Leftover(Texts([bad, GET_ROOT])) == Some(MethodStart)
    ensures UrisLookedUp([bad, GET_ROOT]) == Some([u + "GET"])
  {
    hide UriRouted, Carried, UrisLookedUp;
    assert ValidName("X") && ValidName("GET") && Valid(InUri("X", u));
    PendingUriLeft("X", u);
    OneText(bad.text);
    RoutedIffCarried(MethodStart, bad.text);
    LookUpNothing();
    LookUpOne([], MethodStart, bad);
    assert [] + [bad] == [bad];
    PendingUriTakesMethod("X", u, "GET", "/" + " HTTP/1.1\r\n\r\n");
    PendingUriRejects("X", u);
    LookUpOne([bad], InUri("X", u), GET_ROOT);
    assert [bad] + [GET_ROOT] == [bad, GET_ROOT] && [] + [u + "GET"] == [u + "GET"];
  }

  /** A second request for "/" after that. */
  lemma GarbledThenRoot(n: nat)
    ensures var offs := [HandOff("X" + " " + Unmatched(n), false), GET_ROOT, GET_ROOT];
            Screened(offs) && UrisLookedUp(offs) == Some([Unmatched(n) + "GET", "/"])
  {
    hide UriRouted, Carried, UrisLookedUp, Checked;
    var u := Unmatched(n);
    var bad := HandOff("X" + " " + u, false);
    GarbledRequest(u, bad);
    GetIsChecked("/");
    PlainGet("/");
    LookUpOne([bad, GET_ROOT], MethodStart, GET_ROOT);
    assert [u + "GET"] + ["/"] == [u + "GET", "/"];
    assert [bad, GET_ROOT] + [GET_ROOT] == [bad, GET_ROOT, GET_ROOT];
  }

  lemma OneText(t: string)
    ensures Leftover([t]) == Carried(MethodStart, t)
  {
    hide Carried;
    assert Front([t]) == [] && Leftover([]) == Some(MethodStart);
  }

  lemma PendingUriRejects(v: string, u: string)
    requires Valid(InUri(v, u))
    ensures Carried(InUri(v, u), Get("/")) == Some(MethodStart)
  {
    hide Feed, BodyLength;
    ReachUriFrom(v, u, "GET");
    var q := InVersion(v, u + "GET", 0);
    ReachOneMore(InUri(v, u), "GET", InUri(v, u + "GET"), ' ', q);
    assert PROTOCOL[0] == 'H';
    var rest := " HTTP/1.1\r\n\r\n";
    RejectedAt(InUri(v, u), "GET" + " ", q, '/', rest);
    assert Get("/") == "GET" + " " + (['/'] + rest);
  }

  /* ---------- main results ---------- */

  /** If every registered handler is real, every harmless run whose good texts were checked is safe
      if and only if the handlers cover the admissible URIs. */
  lemma HarmlessRunsSafeIff(m: Handlers)
    requires NoNulls(m)
    ensures HarmlessAlwaysSafe(m) <==> Covered(m)
  {
    hide Crashes, Covered, NoNulls, HarmlessRun, Screened, UrisLookedUp, Admissible;
    if Covered(m) {
      forall offs: seq<HandOff> | HarmlessRun(Texts(offs)) && Screened(offs) ensures Safe(m, offs) {
        HarmlessRunsSafe(m, offs);
      }
    } else {
      var stray := UncoveredCrashes(m);
      HarmlessCharacters(stray);
      var offs := TwoRequests(stray);
      assert !Safe(m, offs);
    }
  }

  lemma HarmlessCharacters(s: string)
    requires forall i :: 0 <= i < |s| ==> s[i] in "htps:/.a"
    ensures All(IsUriChar, s)
  {
    forall i | 0 <= i < |s| ensures IsUriChar(s[i]) {
      var k :| 0 <= k < 8 && "htps:/.a"[k] == s[i];
    }
  }

  /** Without that, leftovers included, every run whose good texts were checked is safe if and only if
      a handler is registered for "/". */
  lemma ScreenedRunsSafeIff(m: Handlers)
    requires NoNulls(m)
    ensures AlwaysSafe(m) <==> ROOT in m
  {
    hide Crashes, NoNulls, Screened, UrisLookedUp;
    if ROOT in m {
      forall offs: seq<HandOff> | UrisLookedUp(offs).Some? && Screened(offs) ensures Safe(m, offs) {
        RootKeepsRunsSafe(m, UrisLookedUp(offs).value);
      }
    } else {
      var n := LongerThanKeys(m.Keys);
      GarbledThenRoot(n);
      LettersHaveNoKey(m, n);
      StrayThenRoot(m, Unmatched(n) + "GET");
      assert !Safe(m, [HandOff("X" + " " + Unmatched(n), false), GET_ROOT, GET_ROOT]);
    }
  }

  lemma LettersHaveNoKey(m: Handlers, n: nat)
    requires n > 0 && forall k :: k in m ==> |k| <= n
    ensures KeyFor(m, Unmatched(n) + "GET").None?
  {
    var u := Unmatched(n) + "GET";
    assert u[0] == 'a' && !IsAbsolute(u);
    assert forall i :: 0 <= i < |u| ==> u[i] != '/';
    assert |Quote(u)| > n;
    assert LongestCut(m, u, |u|).None?;
  }
}
