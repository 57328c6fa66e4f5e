/** The RequestParser object: flat fields updated character by character, kept in step with the
    machine over partial messages. */
module RequestParser {
  import opened Common
  import opened RequestSyntax
  import opened RequestMachine
  import opened RequestTheorems
  import opened UrlPath

  datatype State =
    | AtMethodStart | AtMethod | AtUri
    | AtVersionH | AtVersionFirstT | AtVersionSecondT | AtVersionP | AtVersionSlash
    | AtVersionMajorStart | AtVersionMajor | AtVersionMinorStart | AtVersionMinor
    | AtNewline1 | AtHeaderStart | AtHeaderLws | AtHeaderName | AtSpaceBeforeValue | AtHeaderValue
    | AtNewline2 | AtNewline3 | AtBody

  /** NoMeaning: the source has no defined behaviour from here on. */
  datatype Result = Good | Bad | Undefined | NoMeaning

  function ResultOf(o: Outcome): Result {
    match o
    case More(_) => Undefined
    case Accept(_) => Good
    case Reject => Bad
    case Broken => NoMeaning
  }

  /** The values of the parser's fields. */
  datatype Fields = Fields(state: State, verb: string, uri: string, path: string, version: string,
                           headers: seq<Header>, body: string)

  const VERSION_STATES: seq<State> :=
    [AtVersionH, AtVersionFirstT, AtVersionSecondT, AtVersionP, AtVersionSlash, AtVersionMajorStart]

  function AfterLine(state: State, l: Line, headers: seq<Header>, body: string): Fields {
    Fields(state, l.verb, l.uri, PathOf(l.uri), VersionOf(l), headers, body)
  }

  function OpenHeader(fs: seq<Field>, f: Field): seq<Header> {
    HeadersOf(fs) + [Header(f.name, ValueOf(f))]
  }

  /** The fields that go with a partial message. */
  function FieldsOf(p: Progress): Fields
    requires Valid(p)
  {
    match p
    case MethodStart => Fields(AtMethodStart, "", "", "", "", [], "")
    case InMethod(v) => Fields(AtMethod, v, "", "", "", [], "")
    case InUri(v, u) => Fields(AtUri, v, u, "", "", [], "")
    case InVersion(v, u, n) => Fields(VERSION_STATES[n], v, u, PathOf(u), PROTOCOL[..n], [], "")
    case InMajor(v, u, major) => Fields(AtVersionMajor, v, u, PathOf(u), "HTTP/" + major, [], "")
    case MinorStart(v, u, major) => Fields(AtVersionMinorStart, v, u, PathOf(u), "HTTP/" + major + ".", [], "")
    case InMinor(l) => AfterLine(AtVersionMinor, l, [], "")
    case Newline1(l) => AfterLine(AtNewline1, l, [], "")
    case HeaderStart(l, fs) => AfterLine(AtHeaderStart, l, HeadersOf(fs), "")
    case HeaderName(l, fs, n) => AfterLine(AtHeaderName, l, HeadersOf(fs) + [Header(n, "")], "")
    case SpaceBeforeValue(l, fs, n) => AfterLine(AtSpaceBeforeValue, l, HeadersOf(fs) + [Header(n, "")], "")
    case HeaderLws(l, fs, f) => AfterLine(AtHeaderLws, l, OpenHeader(fs, f), "")
    case InValue(l, fs, f) => AfterLine(AtHeaderValue, l, OpenHeader(fs, f), "")
    case Newline2(l, fs, f) => AfterLine(AtNewline2, l, OpenHeader(fs, f), "")
    case Newline3(l, fs) => AfterLine(AtNewline3, l, HeadersOf(fs), "")
    case InBody(l, fs, b, _) => AfterLine(AtBody, l, HeadersOf(fs), b)
  }

  /** The request object written when a character is rejected: whatever was read before it. */
  function PartialRequest(p: Progress): Request
    requires Valid(p)
  {
    var v := FieldsOf(p);
    Request(MethodOf(v.verb), v.uri, v.version, HeaderMap(v.headers), v.body)
  }

  lemma OpenHeaderCloses(fs: seq<Field>, f: Field)
    ensures HeadersOf(fs + [f]) == OpenHeader(fs, f)
  {
    assert Front(fs + [f]) == fs;
  }

  lemma ReopenKeepsHeaders(fs: seq<Field>, c: char)
    requires fs != []
    ensures OpenHeader(Front(fs), AddFold(Last(fs), c)) == HeadersOf(fs)
  {
    var f := Last(fs);
    assert Front(AddFold(f, c).folds) == f.folds;
    assert FoldsValue(AddFold(f, c).folds) == FoldsValue(f.folds) + "" == FoldsValue(f.folds);
    assert ValueOf(AddFold(f, c)) == ValueOf(f);
  }

  lemma BlankKeepsValue(f: Field, c: char)
    requires f.folds != []
    ensures ValueOf(AddBlank(f, c)) == ValueOf(f)
  {
    assert Front(AddBlank(f, c).folds) == Front(f.folds);
  }

  class RequestParser {
    var state: State
    var remaining: nat
    var rawRequest: string
    var path: string
    var version: string
    var verb: string
    var uri: string
    var headers: seq<Header>
    var body: string
    ghost var progress: Progress

    ghost predicate Holds(v: Fields)
      reads this
    {
      Fields(state, verb, uri, path, version, headers, body) == v
    }

    ghost predicate Consistent()
      reads this
    {
      && RequestMachine.Valid(progress)
      && Holds(FieldsOf(progress))
      && (progress.InBody? ==> remaining == progress.remaining)
    }

    /** The fields are those of the partial message, and raw_request_ is all the text read. */
    ghost predicate Valid()
      reads this
    {
      Consistent() && rawRequest == TextOf(progress)
    }

    ghost predicate HoldsMessage(m: Message)
      reads this
    {
      && verb == m.line.verb && uri == m.line.uri && path == PathOf(m.line.uri)
      && version == VersionOf(m.line) && headers == HeadersOf(m.fields) && body == m.body
    }

    constructor ()
      ensures Valid() && progress == MethodStart
    {
      state, rawRequest, path, version, verb, uri := AtMethodStart, "", "", "", "", "";
      headers, body, progress := [], "", MethodStart;
    }

    method Reset()
      modifies this
      ensures Valid() && progress == MethodStart && remaining == old(remaining)
    {
      rawRequest, verb, uri, path, version, headers, body := "", "", "", "", "", [], "";
      state := AtMethodStart;
      progress := MethodStart;
    }

    method GetHeaderValue(name: string) returns (value: string)
      ensures value == HeaderValue(headers, name)
    {
      var i := 0;
      assert headers[0..] == headers;
      while i < |headers|
        invariant 0 <= i <= |headers|
        invariant HeaderValue(headers, name) == HeaderValue(headers[i..], name)
      {
        if headers[i].name == name {
          return headers[i].value;
        }
        assert headers[i..][1..] == headers[i + 1..];
        i := i + 1;
      }
      value := "";
    }

    method HandleTarget(c: char) returns (r: Result)
      requires Consistent() && InTarget(progress)
      modifies this
      ensures rawRequest == old(rawRequest)
      ensures var o := StepTarget(old(progress), c);
              && r == ResultOf(o) && !o.Accept?
              && (o.More? ==> progress == o.progress && Consistent())
              && (o.Reject? ==> progress == old(progress) && Holds(FieldsOf(progress)))
    {
      hide TextOf, PathOf, IsSpecial, All, Serialize, RequestSyntax.WellFormed;
      TargetSound(progress, c);
      if state == AtMethodStart {
        if !IsChar(c) || IsControl(c) || IsSpecial(c) {
          return Bad;
        }
        state := AtMethod;
        verb := verb + [c];
        progress := InMethod([c]);
      } else if state == AtMethod {
        if c == ' ' {
          state := AtUri;
          progress := InUri(verb, "");
        } else if !IsChar(c) || IsControl(c) || IsSpecial(c) {
          return Bad;
        } else {
          verb := verb + [c];
          progress := InMethod(verb);
        }
      } else {
        if c == ' ' {
          state := AtVersionH;
          if uri == "" {
            return NoMeaning;
          }
          path := DerivePath(uri);
          progress := InVersion(verb, uri, 0);
        } else if IsControl(c) {
          return Bad;
        } else {
          uri := uri + [c];
          progress := InUri(verb, uri);
        }
      }
      r := Undefined;
    }

    method HandleProtocol(c: char) returns (r: Result)
      requires Consistent() && progress.InVersion?
      modifies this
      ensures rawRequest == old(rawRequest)
      ensures var o := StepVersion(old(progress), c);
              && r == ResultOf(o) && !o.Accept?
              && (o.More? ==> progress == o.progress && Consistent())
              && (o.Reject? ==> progress == old(progress) && Holds(FieldsOf(progress)))
    {
      hide TextOf, PathOf, IsSpecial, All, Serialize, RequestSyntax.WellFormed;
      VersionSound(progress, c);
      ghost var n := progress.seen;
      assert n < 5 ==> PROTOCOL[..n + 1] == PROTOCOL[..n] + [PROTOCOL[n]];
      r := Bad;
      if state == AtVersionH {
        if c == 'H' {
          state, version, r := AtVersionFirstT, version + ['H'], Undefined;
        }
      } else if state == AtVersionFirstT {
        if c == 'T' {
          state, version, r := AtVersionSecondT, version + ['T'], Undefined;
        }
      } else if state == AtVersionSecondT {
        if c == 'T' {
          state, version, r := AtVersionP, version + ['T'], Undefined;
        }
      } else if state == AtVersionP {
        if c == 'P' {
          state, version, r := AtVersionSlash, version + ['P'], Undefined;
        }
      } else if state == AtVersionSlash {
        if c == '/' {
          state, version, r := AtVersionMajorStart, version + ['/'], Undefined;
        }
      } else {
        if IsDigit(c) {
          state, version, r := AtVersionMajor, version + [c], Undefined;
        }
      }
      if r == Undefined {
        progress := StepVersion(progress, c).progress;
      }
    }

    method HandleVersionNumber(c: char) returns (r: Result)
      requires Consistent() && InProtocol(progress) && !progress.InVersion?
      modifies this
      ensures rawRequest == old(rawRequest)
      ensures var o := StepVersion(old(progress), c);
              && r == ResultOf(o) && !o.Accept?
              && (o.More? ==> progress == o.progress && Consistent())
              && (o.Reject? ==> progress == old(progress) && Holds(FieldsOf(progress)))
    {
      hide TextOf, PathOf, IsSpecial, All, Serialize, RequestSyntax.WellFormed;
      VersionSound(progress, c);
      r := Bad;
      if state == AtVersionMajor {
        if c == '.' {
          state, version, r := AtVersionMinorStart, version + ".", Undefined;
        } else if IsDigit(c) {
          version, r := version + [c], Undefined;
        }
      } else if state == AtVersionMinorStart {
        if IsDigit(c) {
          state, version, r := AtVersionMinor, version + [c], Undefined;
        }
      } else {
        if c == '\r' {
          state, r := AtNewline1, Undefined;
        } else if IsDigit(c) {
          version, r := version + [c], Undefined;
        }
      }
      if r == Undefined {
        progress := StepVersion(progress, c).progress;
      }
    }

    method HandleHeaderStart(c: char) returns (r: Result)
      requires Consistent() && progress.HeaderStart?
      modifies this
      ensures rawRequest == old(rawRequest)
      ensures var o := StepField(old(progress), c);
              && r == ResultOf(o) && !o.Accept?
              && (o.More? ==> progress == o.progress && Consistent())
              && (o.Reject? ==> progress == old(progress) && Holds(FieldsOf(progress)))
    {
      hide TextOf, PathOf, VersionOf, ValidLine, ValidFields, ValidName, IsSpecial;
      HeaderStartSound(progress.line, progress.fields, c);
      if c == '\r' {
        state := AtNewline3;
      } else if headers != [] && (c == ' ' || c == '\t') {
        ReopenKeepsHeaders(progress.fields, c);
        state := AtHeaderLws;
      } else if !IsChar(c) || IsControl(c) || IsSpecial(c) {
        return Bad;
      } else {
        headers := headers + [Header([c], "")];
        state := AtHeaderName;
      }
      progress := StepField(progress, c).progress;
      r := Undefined;
    }

    method HandleHeaderName(c: char) returns (r: Result)
      requires Consistent() && progress.HeaderName?
      modifies this
      ensures rawRequest == old(rawRequest)
      ensures var o := StepField(old(progress), c);
              && r == ResultOf(o) && !o.Accept?
              && (o.More? ==> progress == o.progress && Consistent())
              && (o.Reject? ==> progress == old(progress) && Holds(FieldsOf(progress)))
    {
      hide TextOf, PathOf, VersionOf, ValidLine, ValidFields, ValidName, IsSpecial, HeadersOf;
      NameSound(progress, c);
      ghost var done := HeadersOf(progress.fields);
      assert headers == done + [Header(progress.name, "")];
      assert Front(headers) == done;
      if c == ':' {
        state := AtSpaceBeforeValue;
      } else if !IsChar(c) || IsControl(c) || IsSpecial(c) {
        return Bad;
      } else {
        headers := Front(headers) + [Header(Last(headers).name + [c], Last(headers).value)];
      }
      progress := StepField(progress, c).progress;
      r := Undefined;
    }

    method HandleSpaceBeforeValue(c: char) returns (r: Result)
      requires Consistent() && progress.SpaceBeforeValue?
      modifies this
      ensures rawRequest == old(rawRequest)
      ensures var o := StepField(old(progress), c);
              && r == ResultOf(o) && !o.Accept?
              && (o.More? ==> progress == o.progress && Consistent())
              && (o.Reject? ==> progress == old(progress) && Holds(FieldsOf(progress)))
    {
      hide TextOf, PathOf, VersionOf, ValidLine, ValidFields, ValidName;
      NameSound(progress, c);
      if c != ' ' {
        return Bad;
      }
      assert ValueOf(Field(progress.name, "", [])) == "";
      state := AtHeaderValue;
      progress := StepField(progress, c).progress;
      r := Undefined;
    }

    method HandleHeaderLws(c: char) returns (r: Result)
      requires Consistent() && progress.HeaderLws?
      modifies this
      ensures rawRequest == old(rawRequest)
      ensures var o := StepField(old(progress), c);
              && r == ResultOf(o) && !o.Accept?
              && (o.More? ==> progress == o.progress && Consistent())
              && (o.Reject? ==> progress == old(progress) && Holds(FieldsOf(progress)))
    {
      hide TextOf, PathOf, VersionOf, Serialize, RequestSyntax.WellFormed;
      hide ValidLine, ValueOf, ValidField, ValidFields, AddChar, HeadersOf;
      ValueSound(progress, c);
      if c == '\r' {
        state := AtNewline2;
      } else if c == ' ' || c == '\t' {
        BlankKeepsValue(progress.open, c);
      } else if IsControl(c) {
        return Bad;
      } else {
        PushValueOpens(progress.fields, progress.open, c);
        state := AtHeaderValue;
        headers := PushValue(headers, c);
      }
      progress := StepField(progress, c).progress;
      r := Undefined;
    }

    method HandleHeaderValue(c: char) returns (r: Result)
      requires Consistent() && progress.InValue?
      modifies this
      ensures rawRequest == old(rawRequest)
      ensures var o := StepField(old(progress), c);
              && r == ResultOf(o) && !o.Accept?
              && (o.More? ==> progress == o.progress && Consistent())
              && (o.Reject? ==> progress == old(progress) && Holds(FieldsOf(progress)))
    {
      hide TextOf, PathOf, VersionOf, Serialize, RequestSyntax.WellFormed;
      hide ValidLine, ValueOf, ValidField, ValidFields, AddChar, HeadersOf;
      ValueSound(progress, c);
      if c == '\r' {
        state := AtNewline2;
      } else if IsControl(c) {
        return Bad;
      } else {
        PushValueOpens(progress.fields, progress.open, c);
        headers := PushValue(headers, c);
      }
      progress := StepField(progress, c).progress;
      r := Undefined;
    }

    method HandleNewline2(c: char) returns (r: Result)
      requires Consistent() && progress.Newline2?
      modifies this
      ensures rawRequest == old(rawRequest)
      ensures var o := StepField(old(progress), c);
              && r == ResultOf(o) && !o.Accept?
              && (o.More? ==> progress == o.progress && Consistent())
              && (o.Reject? ==> progress == old(progress) && Holds(FieldsOf(progress)))
    {
      hide TextOf, PathOf, VersionOf, Serialize, RequestSyntax.WellFormed, ValidLine, ValueOf, ValidField, ValidFields, AddChar;
      Newline2Sound(progress.line, progress.fields, progress.open, c);
      if c != '\n' {
        return Bad;
      }
      OpenHeaderCloses(progress.fields, progress.open);
      state := AtHeaderStart;
      progress := StepField(progress, c).progress;
      r := Undefined;
    }

    method HandleLineEnd(c: char) returns (r: Result)
      requires Consistent() && (progress.Newline1? || progress.Newline3?)
      modifies this
      ensures rawRequest == old(rawRequest)
      ensures var o := StepLineEnd(old(progress), c);
              && r == ResultOf(o)
              && (o.More? ==> progress == o.progress && Consistent())
              && (o.Accept? ==> HoldsMessage(o.message))
              && (o.Reject? ==> progress == old(progress) && Holds(FieldsOf(progress)))
    {
      hide TextOf, StoULL, HeaderValue, PathOf, VersionOf, Serialize, RequestSyntax.WellFormed, ValidLine, ValidFields;
      LineEndSound(progress, c);
      if state == AtNewline1 {
        if c != '\n' {
          return Bad;
        }
        state := AtHeaderStart;
      } else {
        if c != '\n' {
          return Bad;
        }
        var value := GetHeaderValue("Content-Length");
        var number := StoULL(value);
        if number.None? {
          return Good;
        }
        remaining := number.value;
        if remaining == 0 {
          return Good;
        }
        state := AtBody;
      }
      progress := StepLineEnd(progress, c).progress;
      r := Undefined;
    }

    method HandleBody(c: char) returns (r: Result)
      requires Consistent() && progress.InBody?
      modifies this
      ensures rawRequest == old(rawRequest)
      ensures var o := StepLineEnd(old(progress), c);
              && r == ResultOf(o)
              && (o.More? ==> progress == o.progress && Consistent())
              && (o.Accept? ==> HoldsMessage(o.message))
              && (o.Reject? ==> progress == old(progress) && Holds(FieldsOf(progress)))
    {
      hide TextOf, BodyLength, PathOf, VersionOf;
      LineEndSound(progress, c);
      body := body + [c];
      remaining := remaining - 1;
      if remaining == 0 {
        return Good;
      }
      progress := StepLineEnd(progress, c).progress;
      r := Undefined;
    }

    /** One character: the method follows the machine over partial messages. */
    method NextCharHandler(c: char) returns (r: Result)
      requires Valid()
      modifies this
      ensures rawRequest == old(rawRequest) + [c]
      ensures var o := Step(old(progress), c);
              && r == ResultOf(o)
              && (o.More? ==> progress == o.progress && Valid())
              && (o.Accept? ==> HoldsMessage(o.message))
              && (o.Reject? ==> progress == old(progress) && Holds(FieldsOf(progress)))
    {
      hide TextOf, FieldsOf, RequestMachine.Valid, Serialize, RequestSyntax.WellFormed;
      hide StepTarget, StepVersion, StepField, StepLineEnd;
      StateNamesPhase(progress);
      StepSound(progress, c);
      rawRequest := rawRequest + [c];
      if state in {AtMethodStart, AtMethod, AtUri} {
        r := HandleTarget(c);
      } else if state in {AtVersionMajor, AtVersionMinorStart, AtVersionMinor} {
        r := HandleVersionNumber(c);
      } else if state in {AtNewline1, AtNewline3} {
        r := HandleLineEnd(c);
      } else if state == AtBody {
        r := HandleBody(c);
      } else if state == AtHeaderStart {
        r := HandleHeaderStart(c);
      } else if state == AtHeaderName {
        r := HandleHeaderName(c);
      } else if state == AtSpaceBeforeValue {
        r := HandleSpaceBeforeValue(c);
      } else if state == AtHeaderLws {
        r := HandleHeaderLws(c);
      } else if state == AtHeaderValue {
        r := HandleHeaderValue(c);
      } else if state == AtNewline2 {
        r := HandleNewline2(c);
      } else {
        r := HandleProtocol(c);
      }
    }

    /** Parsing a range of text, from the state the parser is in. A request object is written, and
        the parser reset, only when the result is good or bad. */
    method Parse(text: string, begin: nat) returns (r: Result, end: nat, written: Option<Request>)
      requires Valid() && begin <= |text|
      modifies this
      ensures var f := Feed(old(progress), text[begin..]);
              && r == ResultOf(f.outcome)
              && end == begin + f.used
              && (r == Undefined ==> Valid() && progress == f.outcome.progress && written == None)
              && (r == Good ==>
                    && Valid() && progress == MethodStart && written == Some(RequestOf(f.outcome.message))
                    && Carries(written.value, f.outcome.message))
              && (r == Bad ==>
                    && Valid() && progress == MethodStart && written == Some(PartialRequest(f.at))
                    && Names(FieldsOf(f.at).verb, written.value.verb) && written.value.uri == FieldsOf(f.at).uri)
    {
      hide TextOf, Step, Feed, RequestMachine.Valid, Names, Carries, MethodOf, HeaderMap;
      r, end, written := Undefined, begin, None;
      while end < |text|
        invariant Valid() && begin <= end <= |text| && r == Undefined && written == None
        invariant Feed(old(progress), text[begin..]) == Later(Feed(progress, text[end..]), end - begin)
      {
        FeedOne(progress, text, end);
        r := NextCharHandler(text[end]);
        end := end + 1;
        if r == Good || r == Bad {
          written := Some(Request(MethodOf(verb), uri, version, HeaderMap(headers), body));
          MethodIsNamed(verb);
          ghost var f := Feed(old(progress), text[begin..]);
          if r == Good {
            RequestCarriesMessage(f.outcome.message);
          }
          Reset();
          return;
        }
        if r == NoMeaning {
          return;
        }
      }
      FeedNothing(progress, text);
    }
  }

  /** Which part of the machine each state belongs to. */
  lemma StateNamesPhase(p: Progress)
    requires RequestMachine.Valid(p)
    ensures var state := FieldsOf(p).state;
            && (state in {AtMethodStart, AtMethod, AtUri} <==> InTarget(p))
            && (state in {AtVersionMajor, AtVersionMinorStart, AtVersionMinor} <==> InProtocol(p) && !p.InVersion?)
            && (state in {AtNewline1, AtNewline3} <==> p.Newline1? || p.Newline3?)
            && (state == AtBody <==> p.InBody?)
            && (state == AtHeaderStart <==> p.HeaderStart?)
            && (state == AtHeaderName <==> p.HeaderName?)
            && (state == AtSpaceBeforeValue <==> p.SpaceBeforeValue?)
            && (state == AtHeaderLws <==> p.HeaderLws?)
            && (state == AtHeaderValue <==> p.InValue?)
            && (state == AtNewline2 <==> p.Newline2?)
  {
  }

  function PushValue(hs: seq<Header>, c: char): seq<Header>
    requires hs != []
  {
    Front(hs) + [Header(Last(hs).name, Last(hs).value + [c])]
  }

  lemma PushValueOpens(fs: seq<Field>, f: Field, c: char)
    requires ValidField(f) && IsTextChar(c) && (Waiting(f) ==> !IsBlank(c))
    ensures PushValue(OpenHeader(fs, f), c) == OpenHeader(fs, AddChar(f, c))
  {
    AddCharText(f, c);
    assert Front(OpenHeader(fs, f)) == HeadersOf(fs);
  }

  lemma FeedNothing(p: Progress, text: string)
    requires RequestMachine.Valid(p)
    ensures Feed(p, text[|text|..]) == Fed(More(p), p, 0)
  {
  }

  lemma FeedOne(p: Progress, text: string, i: nat)
    requires RequestMachine.Valid(p) && i < |text|
    ensures var o := Step(p, text[i]);
            && Feed(p, text[i..]) ==
               (if o.More? then
                  StepSound(p, text[i]); Later(Feed(o.progress, text[i + 1..]), 1)
                else Fed(o, p, 1))
  {
    assert text[i..][1..] == text[i + 1..];
  }

  /* ---------- reachable states ---------- */

  /** In every reachable state path_ is empty or what Utils::url_decode makes of the URI, completed
      with index.html for a directory; and it never contains two dots in a row. */
  lemma PathInEveryState(s: string)
    requires Feed(MethodStart, s).outcome.More?
    ensures var v := FieldsOf(Feed(MethodStart, s).outcome.progress);
            && !HasDots(v.path)
            && (v.path != "" ==>
                  var p := UrlDecode(v.uri);
                  p != "" && v.path == if p[|p| - 1] == '/' then p + "index.html" else p)
  {
    hide Feed, PathOf, UrlDecode, HasDots, FieldsOf;
    var p := Feed(MethodStart, s).outcome.progress;
    PathOfState(p);
    if FieldsOf(p).path != "" {
      PathDerivation(FieldsOf(p).uri);
    } else {
      NoDotsInNothing();
    }
  }

  lemma PathOfState(p: Progress)
    requires RequestMachine.Valid(p)
    ensures FieldsOf(p).path == "" || (FieldsOf(p).uri != "" && FieldsOf(p).path == PathOf(FieldsOf(p).uri))
  {
    hide PathOf, HeadersOf, ValueOf;
  }

  lemma NoDotsInNothing()
    ensures !HasDots("")
  {
  }

  /** While the body is read, the text so far is the head, the blank line and the body characters,
      and these and the ones still expected add up to the announced length. */
  lemma BodyAccounting(s: string)
    requires Feed(MethodStart, s).outcome.More? && Feed(MethodStart, s).outcome.progress.InBody?
    ensures var p := Feed(MethodStart, s).outcome.progress;
            && s == HeadText(p.line, p.fields) + "\r\n" + p.body
            && p.remaining > 0 && |p.body| + p.remaining == BodyLength(p.fields)
  {
    hide Feed, BodyLength, HeadText;
    FeedSound(MethodStart, s);
    assert "" + s == s;
  }
}
