/** Texts handed to session::good_request and session::bad_request go through one parser shared by
    all sessions. Whatever a text leaves in it is read as the beginning of the next one. */
module Intake {
  import opened Common
  import opened RequestSyntax
  import opened RequestMachine
  import opened RequestTheorems
  import RequestParser
  import opened Routing

  /** The URI read so far. */
  function UriRead(p: Progress): string {
    if p.MethodStart? || p.InMethod? then ""
    else if p.InUri? || p.InVersion? || p.InMajor? || p.MinorStart? then p.uri
    else p.line.uri
  }

  lemma UriReadIsField(p: Progress)
    requires Valid(p)
    ensures RequestParser.FieldsOf(p).uri == UriRead(p)
  {
  }

  /** The URI of the request object after parsing t from state p: that of the message read, of what
      was read before a rejected character, or the empty one that was there before. None: the
      source has no defined behaviour. */
  function UriRouted(p: Progress, t: string): Option<string>
    requires Valid(p)
  {
    var f := Feed(p, t);
    match f.outcome
    case More(_) => Some("")
    case Accept(m) => Some(m.line.uri)
    case Reject => Some(UriRead(f.at))
    case Broken => None
  }

  /** What the next text starts from. */
  function Carried(p: Progress, t: string): (r: Option<Progress>)
    requires Valid(p)
    ensures r.Some? ==> Valid(r.value)
  {
    match Feed(p, t).outcome
    case More(q) => Some(q)
    case Accept(_) => Some(MethodStart)
    case Reject => Some(MethodStart)
    case Broken => None
  }

  /** What a run of hand-offs, whatever sessions they come from, leaves in a new parser. */
  function Leftover(texts: seq<string>): (r: Option<Progress>)
    ensures r.Some? ==> Valid(r.value)
  {
    if texts == [] then Some(MethodStart)
    else match Leftover(Front(texts))
         case None => None
         case Some(p) => Carried(p, Last(texts))
  }

  class FrontDesk {
    const parser: RequestParser.RequestParser
    const server: Server

    constructor (server: Server)
      ensures parser.Valid() && parser.progress == MethodStart && this.server == server && fresh(parser)
    {
      this.server := server;
      parser := new RequestParser.RequestParser();
    }

    /** One parse of a handed text into a request object that was cleared after its last use. */
    method ReadUri(text: string) returns (uri: Option<string>)
      requires parser.Valid()
      modifies parser
      ensures uri == UriRouted(old(parser.progress), text)
      ensures uri.Some? ==> parser.Valid() && Carried(old(parser.progress), text) == Some(parser.progress)
    {
      hide Feed, RequestMachine.Valid;
      var r, _, written := parser.Parse(text, 0);
      assert text[0..] == text;
      if r == RequestParser.NoMeaning {
        return None;
      }
      UriReadIsField(Feed(old(parser.progress), text).at);
      uri := Some(if written.Some? then written.value.uri else "");
    }

    method GoodRequest(text: string) returns (d: Option<Dispatch>)
      requires parser.Valid()
      modifies parser, server
      ensures var uri := UriRouted(old(parser.progress), text);
              if uri.None? then d == None
              else && d == Some(DispatchOf(old(server.handlers), uri.value))
                   && server.handlers == HandlersAfter(old(server.handlers), uri.value)
                   && Routed(old(server.handlers), uri.value, d.value, server.handlers)
                   && parser.Valid() && Carried(old(parser.progress), text) == Some(parser.progress)
    {
      hide Feed, RequestMachine.Valid, UriRouted, Carried;
      var uri := ReadUri(text);
      if uri.None? {
        return None;
      }
      var dispatch := server.RouteRequest(uri.value);
      d := Some(dispatch);
    }

    /** No handler is looked up; the URI is only logged. */
    method BadRequest(text: string) returns (logged: Option<string>)
      requires parser.Valid()
      modifies parser
      ensures logged == UriRouted(old(parser.progress), text)
      ensures logged.Some? ==> parser.Valid() && Carried(old(parser.progress), text) == Some(parser.progress)
    {
      logged := ReadUri(text);
    }
  }

  /* ---------- what a leftover does to the next text ---------- */

  const CONTROL := 1 as char

  lemma RejectedAt(p: Progress, a: string, q: Progress, c: char, rest: string)
    requires Valid(p) && Valid(q) && Reaches(p, a, q) && Step(q, c) == Reject
    ensures Feed(p, a + ([c] + rest)) == Fed(Reject, q, |a| + 1)
    ensures UriRouted(p, a + ([c] + rest)) == Some(UriRead(q))
    ensures Carried(p, a + ([c] + rest)) == Some(MethodStart)
  {
    hide RequestMachine.Valid, Step;
    FeedAppend(p, a, [c] + rest);
    assert ([c] + rest)[0] == c;
  }

  /** A pending body of n characters takes them from the next text, which is then handled as a
      request for the URI of the earlier one. */
  lemma {:induction false} PendingBodyTakesText(p: Progress, t: string)
    requires Valid(p) && p.InBody? && p.remaining <= |t|
    ensures UriRouted(p, t) == Some(p.line.uri)
    decreases |t|
  {
    hide BodyLength;
    StepSound(p, t[0]);
    if p.remaining > 1 {
      PendingBodyTakesText(Step(p, t[0]).progress, t[1..]);
    }
  }

  /** A pending URI u takes in the method of the next request: unless its URI begins with H, the
      request is rejected and routed under u followed by its method. */
  lemma PendingUriTakesMethod(v: string, u: string, verb: string, rest: string)
    requires Valid(InUri(v, u)) && ValidName(verb) && rest != "" && rest[0] != 'H'
    ensures UriRouted(InUri(v, u), verb + " " + rest) == Some(u + verb)
  {
    hide Feed, BodyLength;
    ReachUriFrom(v, u, verb);
    var q := InVersion(v, u + verb, 0);
    ReachOneMore(InUri(v, u), verb, InUri(v, u + verb), ' ', q);
    assert PROTOCOL[0] == 'H';
    RejectedAt(InUri(v, u), verb + " ", q, rest[0], rest[1..]);
    assert verb + " " + rest == verb + " " + ([rest[0]] + rest[1..]);
  }

  lemma {:induction false} ReachUriFrom(v: string, u: string, more: string)
    requires Valid(InUri(v, u)) && ValidName(more)
    ensures Valid(InUri(v, u + more)) && Reaches(InUri(v, u), more, InUri(v, u + more))
    decreases |more|
  {
    hide Feed, BodyLength;
    if |more| == 1 {
      assert more == [more[0]];
      ReachChar(InUri(v, u), more[0], InUri(v, u + more));
    } else {
      ReachUriFrom(v, u, Front(more));
      assert u + Front(more) + [Last(more)] == u + more && Front(more) + [Last(more)] == more;
      ReachOneMore(InUri(v, u), Front(more), InUri(v, u + Front(more)), Last(more), InUri(v, u + more));
    }
  }

  /** After the bad text "X aaaa", a request for "/" is routed as "aaaaGET". */
  lemma LeftoverGarblesUri()
    ensures Leftover(["X aaaa"]).Some?
    ensures UriRouted(Leftover(["X aaaa"]).value, "GET / HTTP/1.1\r\n\r\n") == Some("aaaaGET")
    ensures UriRouted(MethodStart, "GET / HTTP/1.1\r\n\r\n") == Some("/")
  {
    hide UriRouted, Leftover, Carried;
    PendingUriLeft("X", "aaaa");
    PendingUriTakesMethod("X", "aaaa", "GET", "/" + " HTTP/1.1\r\n\r\n");
    assert "X" + " " + "aaaa" == "X aaaa" && "aaaa" + "GET" == "aaaaGET";
    GetRoot();
    PlainGet("/");
  }

  lemma PendingUriLeft(v: string, u: string)
    requires ValidName(v) && All(IsUriChar, u)
    ensures Leftover([v + " " + u]) == Some(InUri(v, u))
  {
    hide Feed, BodyLength;
    ReachMethod(v);
    ReachOneMore(MethodStart, v, InMethod(v), ' ', InUri(v, ""));
    ReachUri(v, u);
    ReachOn(MethodStart, v + " ", InUri(v, ""), u, InUri(v, u));
    assert Front([v + " " + u]) == [] && Leftover([]) == Some(MethodStart);
  }

  /** A GET request for u without headers. */
  function Get(u: string): string {
    "GET" + " " + (u + " HTTP/1.1\r\n\r\n")
  }

  lemma GetRoot()
    ensures Get("/") == "GET / HTTP/1.1\r\n\r\n"
  {
  }

  lemma PlainGet(u: string)
    requires u != "" && All(IsUriChar, u)
    ensures UriRouted(MethodStart, Get(u)) == Some(u) && Carried(MethodStart, Get(u)) == Some(MethodStart)
  {
    hide Feed;
    var m := Message(Line("GET", u, "1", "1"), [], "");
    assert HeadersOf([]) == [] && HeaderValue([], "Content-Length") == "";
    assert ReadNumber("") == None;
    assert WellFormed(m);
    GetIsSerialized(u);
    Completeness(m, "");
  }

  lemma GetIsSerialized(u: string)
    ensures Serialize(Message(Line("GET", u, "1", "1"), [], "")) + "" == Get(u)
  {
    var l := Line("GET", u, "1", "1");
    assert LineText(l) == "GET" + " " + u + " HTTP/" + "1" + "." + "1";
    assert FieldsText([]) == "";
    assert " HTTP/" + "1" + "." + "1" + "\r\n" + "\r\n" == " HTTP/1.1\r\n\r\n";
    assert HeadText(l, []) == LineText(l) + "\r\n";
  }

  /* ---------- when hand-offs do not influence each other ---------- */

  function Controls(n: nat): string {
    seq(n, i => CONTROL)
  }

  /** A text that tells p from a new parser. */
  function Revealing(p: Progress): string
    requires Valid(p)
  {
    match p
    case InMethod(_) => " a" + [CONTROL]
    case InUri(_, u) => if u == "" then "a" + [CONTROL] else [CONTROL]
    case InBody(_, _, _, n) => Controls(n)
    case _ => [CONTROL]
  }

  lemma NewParserRejects(t: string)
    requires t != "" && !IsTokenChar(t[0])
    ensures UriRouted(MethodStart, t) == Some("")
  {
  }

  lemma ControlRejected(p: Progress)
    requires Valid(p) && !p.InBody?
    ensures UriRouted(p, [CONTROL]) == Some(UriRead(p))
  {
    hide BodyLength;
    ReachNothing(p);
    assert "" + ([CONTROL] + "") == [CONTROL];
    assert Step(p, CONTROL) == Reject;
    RejectedAt(p, "", p, CONTROL, "");
  }

  lemma PendingTargetShows(p: Progress)
    requires Valid(p) && (p.InMethod? || (p.InUri? && p.uri == ""))
    ensures UriRouted(p, Revealing(p)) == Some("a")
  {
    hide Feed, BodyLength;
    var q := InUri(p.verb, "a");
    assert Valid(q);
    if p.InMethod? {
      ReachChar(p, ' ', InUri(p.verb, ""));
      ReachOneMore(p, " ", InUri(p.verb, ""), 'a', q);
      RejectedAt(p, " " + "a", q, CONTROL, "");
      assert " " + "a" + ([CONTROL] + "") == Revealing(p);
    } else {
      ReachChar(p, 'a', q);
      RejectedAt(p, "a", q, CONTROL, "");
      assert "a" + ([CONTROL] + "") == Revealing(p);
    }
  }

  lemma NewParserOnTarget(p: Progress)
    requires Valid(p) && (p.InMethod? || (p.InUri? && p.uri == ""))
    ensures UriRouted(MethodStart, Revealing(p)) == Some("")
  {
    hide Feed, BodyLength;
    if p.InMethod? {
      NewParserRejects(Revealing(p));
    } else {
      ReachChar(MethodStart, 'a', InMethod("a"));
      RejectedAt(MethodStart, "a", InMethod("a"), CONTROL, "");
      assert "a" + ([CONTROL] + "") == Revealing(p);
    }
  }

  lemma LeftoverShows(p: Progress)
    requires Valid(p) && p != MethodStart
    ensures UriRouted(p, Revealing(p)) != UriRouted(MethodStart, Revealing(p))
  {
    hide Feed, UriRouted, BodyLength;
    if p.InMethod? || (p.InUri? && p.uri == "") {
      PendingTargetShows(p);
      NewParserOnTarget(p);
    } else {
      NewParserRejects(Revealing(p));
      if p.InBody? {
        PendingBodyTakesText(p, Revealing(p));
      } else {
        ControlRejected(p);
      }
    }
  }

  /** Whatever text is handed on next, the URI of the request object, logged or routed, is the one a
      new parser gives. */
  ghost predicate Unbiased(p: Option<Progress>)
    requires p.Some? ==> Valid(p.value)
  {
    p.Some? && forall t :: UriRouted(p.value, t) == UriRouted(MethodStart, t)
  }

  lemma UnbiasedIffNew(p: Option<Progress>)
    requires p.Some? ==> Valid(p.value)
    ensures Unbiased(p) <==> p == Some(MethodStart)
  {
    hide UriRouted;
    if p.Some? && p.value != MethodStart {
      LeftoverShows(p.value);
    }
  }

  /** A new parser comes to a verdict within the text, or there is nothing to read. */
  predicate Settles(t: string) {
    var o := Feed(MethodStart, t).outcome;
    t == "" || o.Accept? || o.Reject?
  }

  lemma SettledIffNothingLeft(t: string)
    ensures Settles(t) <==> Carried(MethodStart, t) == Some(MethodStart)
  {
    hide Step;
    FeedSound(MethodStart, t);
  }

  /** In a run of hand-offs any text, at every moment, leads to its own URI, logged or routed, if and
      only if each text before it settles by itself. */
  lemma {:induction false} HandOffsIndependentIff(texts: seq<string>)
    ensures (forall k :: 0 <= k <= |texts| ==> Unbiased(Leftover(texts[..k])))
            <==> forall k :: 0 <= k < |texts| ==> Settles(texts[k])
    decreases |texts|
  {
    hide Unbiased, Settles, Carried, RequestMachine.Valid;
    var n := |texts|;
    assert texts[..n] == texts;
    UnbiasedIffNew(Leftover(texts));
    if n > 0 {
      var front := Front(texts);
      HandOffsIndependentIff(front);
      assert forall k :: 0 <= k < n ==> texts[..k] == front[..k];
      assert front[..n - 1] == front;
      UnbiasedIffNew(Leftover(front));
      SettledIffNothingLeft(Last(texts));
      assert forall k :: 0 <= k < n - 1 ==> texts[k] == front[k];
    }
  }

  /* ---------- the URIs checked request lines lead to ---------- */

  lemma {:induction false} UriGrows(p: Progress, t: string)
    requires Valid(p) && UriRead(p) != ""
    ensures var f := Feed(p, t);
            && !f.outcome.Broken?
            && (f.outcome.Accept? ==> UriRead(p) <= f.outcome.message.line.uri)
            && UriRead(p) <= UriRead(f.at)
    decreases |t|
  {
    hide BodyLength;
    if t != "" {
      UriStep(p, t[0]);
      StepSound(p, t[0]);
      if Step(p, t[0]).More? {
        UriGrows(Step(p, t[0]).progress, t[1..]);
      }
    }
  }

  lemma UriStep(p: Progress, c: char)
    requires Valid(p) && UriRead(p) != ""
    ensures var o := Step(p, c);
            && !o.Broken?
            && (o.Accept? ==> o.message.line.uri == UriRead(p))
            && (o.More? ==> UriRead(p) <= UriRead(o.progress))
  {
    hide BodyLength;
  }

  function TargetStart(target: string): (u: string)
    requires StartsTarget(target)
    ensures u <= target && All(IsUriChar, u) && u != ""
    ensures forall more :: u <= more ==> Admissible(more)
  {
    if "/" <= target then "/" else if "http://" <= target then "http://" else "https://"
  }

  /** A text handed on as good begins with a method name, a space and such a target. A new parser
      takes any text beginning so to an admissible URI. */
  lemma CheckedUriIsAdmissible(verb: string, target: string)
    requires ValidName(verb) && StartsTarget(target)
    ensures UriRouted(MethodStart, verb + " " + target).Some?
    ensures Admissible(UriRouted(MethodStart, verb + " " + target).value)
  {
    hide Feed, BodyLength, Admissible, StartsTarget;
    var u := TargetStart(target);
    var rest := target[|u|..];
    ReachMethod(verb);
    ReachOneMore(MethodStart, verb, InMethod(verb), ' ', InUri(verb, ""));
    ReachUri(verb, u);
    ReachOn(MethodStart, verb + " ", InUri(verb, ""), u, InUri(verb, u));
    FeedAppend(MethodStart, verb + " " + u, rest);
    assert verb + " " + u + rest == verb + " " + target;
    UriGrows(InUri(verb, u), rest);
    EmptyIsAdmissible();
  }

  lemma EmptyIsAdmissible()
    ensures Admissible("")
  {
  }
}
