/** The grammar of requests: a message is a request line, header fields with folded continuation
    lines, a blank line and a body. */
module RequestSyntax {
  import opened Common

  /* ---------- character classes; codes above 127 are negative as signed chars ---------- */

  predicate IsChar(c: char) { c as int <= 127 }

  predicate IsControl(c: char) { c as int <= 31 || c as int == 127 }

  predicate IsSpecial(c: char) {
    c in {'(', ')', '<', '>', '@', ',', ';', ':', '\\', '"', '/', '[', ']', '?', '=', '{', '}', ' ', '\t'}
  }

  predicate IsTokenChar(c: char) { IsChar(c) && !IsControl(c) && !IsSpecial(c) }

  predicate IsUriChar(c: char) { c != ' ' && !IsControl(c) }

  predicate IsTextChar(c: char) { !IsControl(c) }

  predicate IsBlank(c: char) { c == ' ' || c == '\t' }

  predicate All(p: char -> bool, s: string) {
    forall i :: 0 <= i < |s| ==> p(s[i])
  }

  /* ---------- messages ---------- */

  /** A continuation line: its leading blanks and the text after them. */
  datatype Fold = Fold(blanks: string, text: string)
  datatype Field = Field(name: string, first: string, folds: seq<Fold>)
  datatype Line = Line(verb: string, uri: string, major: string, minor: string)
  datatype Message = Message(line: Line, fields: seq<Field>, body: string)
  datatype Header = Header(name: string, value: string)

  function Last<T>(s: seq<T>): T
    requires s != []
  {
    s[|s| - 1]
  }

  function Front<T>(s: seq<T>): seq<T>
    requires s != []
  {
    s[..|s| - 1]
  }

  predicate ValidFold(f: Fold) {
    && f.blanks != "" && All(IsBlank, f.blanks)
    && All(IsTextChar, f.text)
    && (f.text != "" ==> !IsBlank(f.text[0]))
  }

  predicate ValidName(n: string) { n != "" && All(IsTokenChar, n) }

  predicate ValidField(f: Field) {
    && ValidName(f.name)
    && All(IsTextChar, f.first)
    && forall i :: 0 <= i < |f.folds| ==> ValidFold(f.folds[i])
  }

  predicate ValidFields(fs: seq<Field>) {
    forall i :: 0 <= i < |fs| ==> ValidField(fs[i])
  }

  predicate ValidDigits(s: string) { s != "" && All(IsDigit, s) }

  predicate ValidTarget(verb: string, uri: string) {
    ValidName(verb) && uri != "" && All(IsUriChar, uri)
  }

  predicate ValidLine(l: Line) {
    ValidTarget(l.verb, l.uri) && ValidDigits(l.major) && ValidDigits(l.minor)
  }

  /* ---------- what the parser makes of the fields ---------- */

  function FoldsValue(folds: seq<Fold>): string {
    if folds == [] then "" else FoldsValue(Front(folds)) + Last(folds).text
  }

  /** The value of a field: continuation lines are joined without their line breaks and blanks. */
  function ValueOf(f: Field): string {
    f.first + FoldsValue(f.folds)
  }

  function HeadersOf(fs: seq<Field>): seq<Header> {
    if fs == [] then [] else HeadersOf(Front(fs)) + [Header(Last(fs).name, ValueOf(Last(fs)))]
  }

  /** The value of the first header with that name, or "". */
  function HeaderValue(hs: seq<Header>, name: string): string {
    if hs == [] then "" else if hs[0].name == name then hs[0].value else HeaderValue(hs[1..], name)
  }

  /** How many body characters follow the blank line: 0 unless Content-Length reads as a number. */
  function BodyLength(fs: seq<Field>): nat {
    match StoULL(HeaderValue(HeadersOf(fs), "Content-Length"))
    case None => 0
    case Some(n) => n
  }

  predicate WellFormed(m: Message) {
    ValidLine(m.line) && ValidFields(m.fields) && |m.body| == BodyLength(m.fields)
  }

  /* ---------- serialisation ---------- */

  function FoldsText(folds: seq<Fold>): string {
    if folds == [] then ""
    else FoldsText(Front(folds)) + "\r\n" + Last(folds).blanks + Last(folds).text
  }

  /** A field up to, not including, its last line end. */
  function FieldText(f: Field): string {
    f.name + ": " + f.first + FoldsText(f.folds)
  }

  function FieldsText(fs: seq<Field>): string {
    if fs == [] then "" else FieldsText(Front(fs)) + FieldText(Last(fs)) + "\r\n"
  }

  function TargetText(verb: string, uri: string): string {
    verb + " " + uri
  }

  function LineText(l: Line): string {
    TargetText(l.verb, l.uri) + " HTTP/" + l.major + "." + l.minor
  }

  function HeadText(l: Line, fs: seq<Field>): string {
    LineText(l) + "\r\n" + FieldsText(fs)
  }

  function Serialize(m: Message): string {
    HeadText(m.line, m.fields) + "\r\n" + m.body
  }

  /* ---------- the Request object ---------- */

  datatype Method = GET | POST | PUT | DELETE | HEAD | CONNECT | OPTIONS | TRACE | PATCH
  datatype Request = Request(verb: Method, uri: string, version: string, headers: map<string, string>, body: string)

  function ToUpper(s: string): string {
    if s == "" then ""
    else [if 'a' <= s[0] <= 'z' then (s[0] as int - 32) as char else s[0]] + ToUpper(s[1..])
  }

  /** Every method name but eight counts as PATCH. */
  function MethodOf(name: string): Method {
    var m := ToUpper(name);
    if m == "GET" then GET
    else if m == "POST" then POST
    else if m == "PUT" then PUT
    else if m == "DELETE" then DELETE
    else if m == "HEAD" then HEAD
    else if m == "CONNECT" then CONNECT
    else if m == "OPTIONS" then OPTIONS
    else if m == "TRACE" then TRACE
    else PATCH
  }

  /** A map built from the header list; the first of several headers with one name is kept. */
  function HeaderMap(hs: seq<Header>): map<string, string> {
    if hs == [] then map[] else HeaderMap(hs[1..])[hs[0].name := hs[0].value]
  }

  lemma {:induction false} HeaderMapAgrees(hs: seq<Header>, name: string)
    ensures HeaderValue(hs, name) == if name in HeaderMap(hs) then HeaderMap(hs)[name] else ""
    ensures name in HeaderMap(hs) <==> exists i :: 0 <= i < |hs| && hs[i].name == name
  {
    if hs != [] {
      HeaderMapAgrees(hs[1..], name);
      if i: int :| 0 <= i < |hs| && hs[i].name == name {
        assert i == 0 || hs[1..][i - 1].name == name;
      }
      if i: int :| 0 <= i < |hs[1..]| && hs[1..][i].name == name {
        assert hs[i + 1].name == name;
      }
    }
  }

  function VersionOf(l: Line): string {
    "HTTP/" + l.major + "." + l.minor
  }

  /** The request object a message stands for. */
  function RequestOf(m: Message): Request {
    Request(MethodOf(m.line.verb), m.line.uri, VersionOf(m.line), HeaderMap(HeadersOf(m.fields)), m.body)
  }

  /* ---------- what the request object holds, told without computing it ---------- */

  /** The verb is the name, in any mix of cases. */
  predicate Spells(verb: string, name: string) {
    |verb| == |name| && forall i :: 0 <= i < |name| ==> verb[i] == name[i] || verb[i] as int == name[i] as int + 32
  }

  /** The method a verb stands for: the one of the eight whose name it spells, or else PATCH. */
  predicate Names(verb: string, m: Method) {
    && (m == GET <==> Spells(verb, "GET"))
    && (m == POST <==> Spells(verb, "POST"))
    && (m == PUT <==> Spells(verb, "PUT"))
    && (m == DELETE <==> Spells(verb, "DELETE"))
    && (m == HEAD <==> Spells(verb, "HEAD"))
    && (m == CONNECT <==> Spells(verb, "CONNECT"))
    && (m == OPTIONS <==> Spells(verb, "OPTIONS"))
    && (m == TRACE <==> Spells(verb, "TRACE"))
  }

  predicate UpperCase(s: string) {
    forall i :: 0 <= i < |s| ==> 'A' <= s[i] <= 'Z'
  }

  lemma {:induction false} UpperSpells(verb: string, name: string)
    requires UpperCase(name)
    ensures ToUpper(verb) == name <==> Spells(verb, name)
    decreases |verb|
  {
    if verb != "" && name != "" {
      var v, n := verb[1..], name[1..];
      UpperSpells(v, n);
      assert forall i :: 0 <= i < |n| ==> n[i] == name[i + 1];
      assert forall i :: 0 <= i < |v| ==> v[i] == verb[i + 1];
      assert Spells(verb, name) <==> (verb[0] == name[0] || verb[0] as int == name[0] as int + 32) && Spells(v, n);
      assert name == [name[0]] + n;
      assert ToUpper(verb)[1..] == ToUpper(v);
    } else {
      assert ToUpper("") == "";
    }
  }

  lemma MethodIsNamed(verb: string)
    ensures Names(verb, MethodOf(verb))
  {
    hide ToUpper, Spells;
    UpperSpells(verb, "GET");
    UpperSpells(verb, "POST");
    UpperSpells(verb, "PUT");
    UpperSpells(verb, "DELETE");
    UpperSpells(verb, "HEAD");
    UpperSpells(verb, "CONNECT");
    UpperSpells(verb, "OPTIONS");
    UpperSpells(verb, "TRACE");
  }

  /** The first field with its name. */
  predicate IsFirst(fs: seq<Field>, i: nat) {
    i < |fs| && forall j :: 0 <= j < i ==> fs[j].name != fs[i].name
  }

  /** The object carries the message's method, URI, version and body, and of each header the first. */
  ghost predicate Carries(r: Request, m: Message) {
    && Names(m.line.verb, r.verb)
    && r.uri == m.line.uri
    && r.version == "HTTP/" + m.line.major + "." + m.line.minor
    && r.body == m.body
    && CarriesFields(r.headers, m.fields)
  }

  ghost predicate CarriesFields(headers: map<string, string>, fs: seq<Field>) {
    && (forall i: nat :: IsFirst(fs, i) ==>
          fs[i].name in headers && headers[fs[i].name] == fs[i].first + FoldsValue(fs[i].folds))
    && (forall name :: name in headers ==> exists i: nat :: IsFirst(fs, i) && fs[i].name == name)
  }

  lemma {:induction false} HeadersOfAt(fs: seq<Field>)
    ensures |HeadersOf(fs)| == |fs|
    ensures forall i :: 0 <= i < |fs| ==> HeadersOf(fs)[i] == Header(fs[i].name, ValueOf(fs[i]))
  {
    if fs != [] {
      HeadersOfAt(Front(fs));
    }
  }

  lemma {:induction false} FirstCounts(hs: seq<Header>, i: nat)
    requires i < |hs| && forall j :: 0 <= j < i ==> hs[j].name != hs[i].name
    ensures hs[i].name in HeaderMap(hs) && HeaderMap(hs)[hs[i].name] == hs[i].value
  {
    if i > 0 {
      var rest := hs[1..];
      assert forall j :: 0 <= j < |rest| ==> rest[j] == hs[j + 1];
      FirstCounts(rest, i - 1);
    }
  }

  lemma {:induction false} SomeFirst(fs: seq<Field>, k: nat) returns (i: nat)
    requires k < |fs|
    ensures IsFirst(fs, i) && fs[i].name == fs[k].name
  {
    if j :| 0 <= j < k && fs[j].name == fs[k].name {
      i := SomeFirst(fs, j);
    } else {
      i := k;
    }
  }

  lemma FieldsAreCarried(fs: seq<Field>)
    ensures CarriesFields(HeaderMap(HeadersOf(fs)), fs)
  {
    hide HeadersOf, HeaderMap, IsFirst;
    var hs := HeadersOf(fs);
    HeadersOfAt(fs);
    forall i: nat | IsFirst(fs, i)
      ensures i < |fs| && fs[i].name in HeaderMap(hs) && HeaderMap(hs)[fs[i].name] == ValueOf(fs[i])
    {
      FirstMatches(fs, i);
      FirstCounts(hs, i);
    }
    forall name | name in HeaderMap(hs) ensures exists i: nat :: IsFirst(fs, i) && fs[i].name == name {
      HeaderMapAgrees(hs, name);
      var k :| 0 <= k < |hs| && hs[k].name == name;
      var i := SomeFirst(fs, k);
    }
  }

  lemma FirstMatches(fs: seq<Field>, i: nat)
    requires IsFirst(fs, i)
    ensures i < |fs| && forall j :: 0 <= j < i ==> fs[j].name != fs[i].name
  {
  }

  /** The request object of a message carries it. */
  lemma RequestCarriesMessage(m: Message)
    ensures Carries(RequestOf(m), m)
  {
    hide HeadersOf, HeaderMap, MethodOf, Names;
    MethodIsNamed(m.line.verb);
    FieldsAreCarried(m.fields);
  }
}
