/** session::handle_read: collecting reads into a request. A read is one chunk of text; the regular
    expressions it is checked against are parameters. */
module Session {
  import opened Common

  datatype Checks = Checks(requestLine: string -> bool, header: string -> bool, whole: string -> bool)

  const CRLF := "\r\n"

  predicate Complete(chunk: string, bytes: nat) { chunk == CRLF && bytes == 2 }

  predicate KnownMethod(name: string) {
    name in {"GET", "POST", "PUT", "DELETE", "HEAD", "CONNECT", "OPTIONS", "TRACE", "PATCH"}
  }

  predicate NotSpace(c: char) { c != ' ' }

  function FirstWord(s: string): string {
    s[..Span(NotSpace, s)]
  }

  /** Removing every CRLF in one pass. */
  function WithoutCRLF(s: string): string {
    if s == "" then ""
    else if CRLF <= s then WithoutCRLF(s[2..])
    else [s[0]] + WithoutCRLF(s[1..])
  }

  function Repeat(s: string, n: nat): string {
    if n == 0 then "" else s + Repeat(s, n - 1)
  }

  /** Only a run of CRLFs is filtered away entirely. */
  lemma {:induction false} FilteredIffCRLFs(s: string)
    ensures WithoutCRLF(s) == "" <==> exists n: nat :: s == Repeat(CRLF, n)
    decreases |s|
  {
    if s == "" {
      assert s == Repeat(CRLF, 0);
    } else if CRLF <= s {
      FilteredIffCRLFs(s[2..]);
      assert s == CRLF + s[2..];
      if WithoutCRLF(s) == "" {
        var n: nat :| s[2..] == Repeat(CRLF, n);
        assert s == Repeat(CRLF, n + 1);
      }
      if n: nat :| s == Repeat(CRLF, n) {
        assert s[2..] == Repeat(CRLF, n - 1);
      }
    } else {
      assert forall n: nat :: n > 0 ==> CRLF <= Repeat(CRLF, n);
    }
  }

  datatype Event = Good(text: string) | Bad(text: string) | Kept | Dropped
  datatype State = State(requestStart: bool, httpBody: string)

  const IDLE := State(false, "")

  predicate HandsOff(e: Event) { e.Good? || e.Bad? }

  /** What a read does: the event, and the state after it. */
  function Read(ck: Checks, st: State, chunk: string, bytes: nat): (Event, State) {
    var body := st.httpBody + chunk;
    if !st.requestStart && !Complete(chunk, bytes) && ck.whole(chunk) then (Good(body), State(false, ""))
    else if st.requestStart && Complete(chunk, bytes) then (Good(body), State(false, ""))
    else if st.requestStart || ck.requestLine(chunk) then
      if (if ck.requestLine(chunk) then KnownMethod(FirstWord(chunk)) else ck.header(chunk))
      then (Kept, State(true, body))
      else (Bad(body), State(false, ""))
    else if WithoutCRLF(chunk) == "" then (Dropped, st)
    else (Bad(body), State(false, ""))
  }

  class Session {
    const checks: Checks
    var requestStart: bool
    var httpBody: string

    ghost function Abs(): State
      reads this
    {
      State(requestStart, httpBody)
    }

    constructor (ck: Checks)
      ensures Abs() == IDLE && checks == ck
    {
      checks, requestStart, httpBody := ck, false, "";
    }

    /** good_request and bad_request hand the text on and clear http_body. */
    method HandOff() returns (text: string)
      modifies this`httpBody
      ensures text == old(httpBody) && httpBody == ""
    {
      text := httpBody;
      httpBody := "";
    }

    method LongStringHandler(chunk: string, bytes: nat) returns (handled: bool, e: Event)
      modifies this`httpBody
      ensures handled <==> !requestStart && !Complete(chunk, bytes) && checks.whole(chunk)
      ensures handled ==> e == Good(old(httpBody) + chunk) && httpBody == ""
      ensures !handled ==> httpBody == old(httpBody)
    {
      handled, e := false, Kept;
      if !requestStart && !Complete(chunk, bytes) && checks.whole(chunk) {
        httpBody := httpBody + chunk;
        var text := HandOff();
        handled, e := true, Good(text);
      }
    }

    method HandleRead(chunk: string, bytes: nat) returns (e: Event)
      modifies this
      ensures (e, Abs()) == Read(checks, old(Abs()), chunk, bytes)
    {
      var handled, event := LongStringHandler(chunk, bytes);
      if handled {
        return event;
      }
      var text;
      if requestStart && Complete(chunk, bytes) {
        requestStart := false;
        httpBody := httpBody + chunk;
        text := HandOff();
        e := Good(text);
      } else if requestStart || checks.requestLine(chunk) {
        requestStart := true;
        httpBody := httpBody + chunk;
        if checks.requestLine(chunk) {
          if !KnownMethod(FirstWord(chunk)) {
            requestStart := false;
            text := HandOff();
            e := Bad(text);
          } else {
            e := Kept;
          }
        } else if !checks.header(chunk) {
          requestStart := false;
          text := HandOff();
          e := Bad(text);
        } else {
          e := Kept;
        }
      } else {
        if WithoutCRLF(chunk) == "" {
          e := Dropped;
        } else {
          httpBody := httpBody + chunk;
          text := HandOff();
          e := Bad(text);
        }
      }
    }
  }

  /* ---------- runs ---------- */

  datatype Chunk = Chunk(text: string, bytes: nat)

  function StateAfter(ck: Checks, chunks: seq<Chunk>): State {
    if chunks == [] then IDLE
    else Read(ck, StateAfter(ck, chunks[..|chunks| - 1]), chunks[|chunks| - 1].text, chunks[|chunks| - 1].bytes).1
  }

  /** The event of the i-th read. */
  function EventAt(ck: Checks, chunks: seq<Chunk>, i: nat): Event
    requires i < |chunks|
  {
    Read(ck, StateAfter(ck, chunks[..i]), chunks[i].text, chunks[i].bytes).0
  }

  /** The chunks from read `from` up to, not including, read `end` that were not dropped, in one text. */
  function Collected(ck: Checks, chunks: seq<Chunk>, from: nat, end: nat): string
    requires from <= end <= |chunks|
    decreases end
  {
    if from == end then ""
    else Collected(ck, chunks, from, end - 1)
         + (if EventAt(ck, chunks, end - 1).Dropped? then "" else chunks[end - 1].text)
  }

  /** The hand-off before read `end` was at the read before `from`, or there was none. */
  ghost predicate QuietBetween(ck: Checks, chunks: seq<Chunk>, from: nat, end: nat)
    requires from <= end <= |chunks|
  {
    && (from == 0 || HandsOff(EventAt(ck, chunks, from - 1)))
    && forall j :: from <= j < end ==> !HandsOff(EventAt(ck, chunks, j))
  }

  /** A read that hands nothing on appends its chunk or drops it; a hand-off leaves nothing behind. */
  lemma StepKeepsBody(ck: Checks, chunks: seq<Chunk>, end: nat)
    requires 0 < end <= |chunks|
    ensures var st, next := StateAfter(ck, chunks[..end - 1]), StateAfter(ck, chunks[..end]);
            var e := EventAt(ck, chunks, end - 1);
            if HandsOff(e) then next == IDLE
            else && next.httpBody == (if e.Dropped? then st.httpBody else st.httpBody + chunks[end - 1].text)
                 && (!next.requestStart ==> next == st)
  {
    assert chunks[..end][..end - 1] == chunks[..end - 1] && chunks[..end][end - 1] == chunks[end - 1];
  }

  /** Between two hand-offs http_body is exactly what has come in since the first one, dropped
      chunks aside; and it is empty whenever no request is being collected. */
  lemma {:induction false} BodyIsCollected(ck: Checks, chunks: seq<Chunk>, from: nat, end: nat)
    requires from <= end <= |chunks| && QuietBetween(ck, chunks, from, end)
    ensures var st := StateAfter(ck, chunks[..end]);
            st.httpBody == Collected(ck, chunks, from, end) && (!st.requestStart ==> st.httpBody == "")
    decreases end
  {
    if end == 0 {
      assert chunks[..0] == [];
    } else {
      hide StateAfter, EventAt;
      StepKeepsBody(ck, chunks, end);
      if from < end {
        BodyIsCollected(ck, chunks, from, end - 1);
      }
    }
  }

  /** Every text handed to good_request or bad_request is the concatenation of the chunks read since
      the previous hand-off, leaving out those dropped while idle. */
  lemma HandOffIsCollected(ck: Checks, chunks: seq<Chunk>, from: nat, i: nat)
    requires from <= i < |chunks| && QuietBetween(ck, chunks, from, i) && HandsOff(EventAt(ck, chunks, i))
    ensures EventAt(ck, chunks, i).text == Collected(ck, chunks, from, i + 1)
  {
    BodyIsCollected(ck, chunks, from, i);
  }

  /** Only runs of CRLFs are ever dropped, and only while idle. */
  lemma DroppedOnlyIdleCRLFs(ck: Checks, chunks: seq<Chunk>, i: nat)
    requires i < |chunks| && EventAt(ck, chunks, i).Dropped?
    ensures !StateAfter(ck, chunks[..i]).requestStart
    ensures exists n: nat :: chunks[i].text == Repeat(CRLF, n)
  {
    FilteredIffCRLFs(chunks[i].text);
  }

  /** The check a chunk must pass to be kept for the request being collected. */
  predicate Passes(ck: Checks, text: string) {
    if ck.requestLine(text) then KnownMethod(FirstWord(text)) else ck.header(text)
  }

  /** Chunks `from` to `end` are dropped ones and then, from `start` on, kept ones that passed their
      check, the first of them a request line. */
  ghost predicate CheckedLines(ck: Checks, chunks: seq<Chunk>, from: nat, start: nat, end: nat)
    requires from <= start < end <= |chunks|
  {
    && (forall j :: from <= j < start ==> EventAt(ck, chunks, j).Dropped?)
    && (forall j :: start <= j < end ==> EventAt(ck, chunks, j).Kept? && Passes(ck, chunks[j].text))
    && ck.requestLine(chunks[start].text)
  }

  /** What a read that hands nothing off says about its chunk and the states around it. */
  lemma QuietRead(ck: Checks, chunks: seq<Chunk>, i: nat)
    requires i < |chunks| && !HandsOff(EventAt(ck, chunks, i))
    ensures var before, after := StateAfter(ck, chunks[..i]).requestStart, StateAfter(ck, chunks[..i + 1]).requestStart;
            && (EventAt(ck, chunks, i).Kept? ==>
                  after && Passes(ck, chunks[i].text) && (before || ck.requestLine(chunks[i].text)))
            && (EventAt(ck, chunks, i).Dropped? ==> !before && !after)
  {
    assert chunks[..i + 1][..i] == chunks[..i] && chunks[..i + 1][i] == chunks[i];
  }

  lemma QuietStart(ck: Checks, chunks: seq<Chunk>, from: nat)
    requires from <= |chunks| && (from == 0 || HandsOff(EventAt(ck, chunks, from - 1)))
    ensures !StateAfter(ck, chunks[..from]).requestStart
  {
    if from > 0 {
      assert chunks[..from][..from - 1] == chunks[..from - 1] && chunks[..from][from - 1] == chunks[from - 1];
    }
  }

  lemma {:induction false} CollectingMeansChecked(ck: Checks, chunks: seq<Chunk>, from: nat, end: nat) returns (start: nat)
    requires from <= end <= |chunks| && QuietBetween(ck, chunks, from, end)
    ensures if StateAfter(ck, chunks[..end]).requestStart
            then from <= start < end && CheckedLines(ck, chunks, from, start, end)
            else forall j :: from <= j < end ==> EventAt(ck, chunks, j).Dropped?
    decreases end
  {
    hide StateAfter, EventAt, Passes;
    start := from;
    if from == end {
      QuietStart(ck, chunks, from);
    } else {
      start := CollectingMeansChecked(ck, chunks, from, end - 1);
      assert chunks[..end - 1 + 1] == chunks[..end];
      QuietRead(ck, chunks, end - 1);
      if !StateAfter(ck, chunks[..end - 1]).requestStart {
        start := end - 1;
      }
    }
  }

  /** A text handed on as good is either one read that passed the whole-request check while idle, or
      the lines collected since the last hand-off: a request line with a known method, then lines
      that all passed their check, then a bare CRLF. */
  lemma GoodTextWasChecked(ck: Checks, chunks: seq<Chunk>, from: nat, i: nat)
    requires from <= i < |chunks| && QuietBetween(ck, chunks, from, i) && EventAt(ck, chunks, i).Good?
    ensures || (ck.whole(chunks[i].text) && EventAt(ck, chunks, i).text == chunks[i].text)
            || (chunks[i].text == CRLF
                && exists start: nat :: from <= start < i && CheckedLines(ck, chunks, from, start, i))
  {
    var start := CollectingMeansChecked(ck, chunks, from, i);
    BodyIsCollected(ck, chunks, from, i);
    if StateAfter(ck, chunks[..i]).requestStart {
      assert CheckedLines(ck, chunks, from, start, i);
    }
  }

  /* ---------- which reads are handed on, and as what ---------- */

  /** One of the nine known methods, alone or before a space. */
  predicate NamesMethod(text: string) {
    exists name :: name in METHODS && (text == name || name + " " <= text)
  }

  const METHODS := ["GET", "POST", "PUT", "DELETE", "HEAD", "CONNECT", "OPTIONS", "TRACE", "PATCH"]

  lemma FirstWordIs(text: string, name: string)
    requires ' ' !in name
    ensures FirstWord(text) == name <==> text == name || name + " " <= text
  {
    var n := Span(NotSpace, text);
    if text == name || name + " " <= text {
      assert forall i :: 0 <= i < |name| ==> text[i] == name[i] && name[i] in name;
      assert name + " " <= text ==> text[|name|] == (name + " ")[|name|];
      assert n == |name|;
      assert text[..|name|] == name;
    }
    if FirstWord(text) == name && n < |text| {
      assert text[..n + 1] == name + " ";
    }
  }

  lemma NamesMethodIff(text: string)
    ensures KnownMethod(FirstWord(text)) <==> NamesMethod(text)
  {
    hide KnownMethod, FirstWord;
    forall name | name in METHODS ensures FirstWord(text) == name <==> text == name || name + " " <= text {
      MethodIsOneWord(name);
      FirstWordIs(text, name);
    }
    KnownIff(FirstWord(text));
  }

  lemma MethodIsOneWord(name: string)
    requires name in METHODS
    ensures ' ' !in name
  {
  }

  lemma KnownIff(name: string)
    ensures KnownMethod(name) <==> name in METHODS
  {
    assert METHODS[0] == "GET" && METHODS[1] == "POST" && METHODS[2] == "PUT" && METHODS[3] == "DELETE";
    assert METHODS[4] == "HEAD" && METHODS[5] == "CONNECT" && METHODS[6] == "OPTIONS";
    assert METHODS[7] == "TRACE" && METHODS[8] == "PATCH";
  }

  predicate OnlyCRLFs(text: string) {
    |text| % 2 == 0 && forall i :: 0 <= i < |text| ==> text[i] == (if i % 2 == 0 then '\r' else '\n')
  }

  lemma {:induction false} FilteredIffAlternating(s: string)
    ensures WithoutCRLF(s) == "" <==> OnlyCRLFs(s)
    decreases |s|
  {
    if CRLF <= s {
      var t := s[2..];
      FilteredIffAlternating(t);
      assert s[0] == '\r' && s[1] == '\n';
      assert forall i :: 0 <= i < |t| ==> t[i] == s[i + 2];
      assert forall i :: 2 <= i < |s| ==> s[i] == t[i - 2];
    }
  }

  /** The blank line that ends a request, as a read of its own. */
  predicate EndsRequest(c: Chunk) { c.text == "\r\n" && c.bytes == 2 }

  /** A whole request in one read. */
  predicate WholeRead(ck: Checks, c: Chunk) { !EndsRequest(c) && ck.whole(c.text) }

  /** A line that belongs to a request: a request line with a known method, or a header. */
  predicate LineOk(ck: Checks, text: string) {
    if ck.requestLine(text) then NamesMethod(text) else ck.header(text)
  }

  /** What a read comes to while nothing is being collected. */
  ghost predicate IdleRead(ck: Checks, c: Chunk, e: Event) {
    && (e.Good? <==> WholeRead(ck, c))
    && (e.Kept? <==> !WholeRead(ck, c) && ck.requestLine(c.text) && NamesMethod(c.text))
    && (e.Dropped? <==> !WholeRead(ck, c) && !ck.requestLine(c.text) && OnlyCRLFs(c.text))
    && (HandsOff(e) ==> e.text == c.text)
  }

  /** What a read comes to while a request is being collected. */
  ghost predicate CollectingRead(ck: Checks, body: string, c: Chunk, e: Event) {
    && (e.Good? <==> EndsRequest(c))
    && (e.Kept? <==> !EndsRequest(c) && LineOk(ck, c.text))
    && !e.Dropped?
    && (HandsOff(e) ==> e.text == body + c.text)
  }

  lemma ReadIs(ck: Checks, st: State, c: Chunk)
    ensures var e := Read(ck, st, c.text, c.bytes).0;
            && (!st.requestStart && st.httpBody == "" ==> IdleRead(ck, c, e))
            && (st.requestStart ==> CollectingRead(ck, st.httpBody, c, e))
  {
    hide KnownMethod, FirstWord, NamesMethod, WithoutCRLF, OnlyCRLFs;
    NamesMethodIff(c.text);
    FilteredIffAlternating(c.text);
    assert "" + c.text == c.text;
  }

  /** In every run: after a hand-off, or at the start, and dropped reads only, a read is good exactly
      if it is a whole request, is kept exactly if it is a request line with a known method, is
      dropped exactly if it passes neither check and is a run of CRLFs, and is bad otherwise. */
  lemma IdleEvent(ck: Checks, chunks: seq<Chunk>, from: nat, i: nat)
    requires from <= i < |chunks| && QuietBetween(ck, chunks, from, i)
    requires forall j :: from <= j < i ==> EventAt(ck, chunks, j).Dropped?
    ensures IdleRead(ck, chunks[i], EventAt(ck, chunks, i))
  {
    hide IdleRead, CollectingRead, Read;
    BodyIsCollected(ck, chunks, from, i);
    var start := CollectingMeansChecked(ck, chunks, from, i);
    ReadIs(ck, StateAfter(ck, chunks[..i]), chunks[i]);
  }

  /** In every run: after lines that were kept since the last hand-off, a read is good exactly if it
      is the blank line, is kept exactly if it is a line that passes its check, and is bad otherwise;
      a text handed on is all the lines and the read. */
  lemma CollectingEvent(ck: Checks, chunks: seq<Chunk>, from: nat, start: nat, i: nat)
    requires from <= start < i < |chunks| && QuietBetween(ck, chunks, from, i)
    requires CheckedLines(ck, chunks, from, start, i)
    ensures CollectingRead(ck, Collected(ck, chunks, from, i), chunks[i], EventAt(ck, chunks, i))
  {
    hide IdleRead, CollectingRead, Read;
    BodyIsCollected(ck, chunks, from, i);
    var s := CollectingMeansChecked(ck, chunks, from, i);
    assert EventAt(ck, chunks, start).Kept?;
    ReadIs(ck, StateAfter(ck, chunks[..i]), chunks[i]);
  }

  /** The texts of a run of reads. */
  function Joined(chunks: seq<Chunk>): string {
    if chunks == [] then "" else Joined(chunks[..|chunks| - 1]) + chunks[|chunks| - 1].text
  }

  /** A request line with a known method that is not a whole request, and then header lines. */
  ghost predicate RequestLines(ck: Checks, chunks: seq<Chunk>) {
    && chunks != [] && ck.requestLine(chunks[0].text) && !WholeRead(ck, chunks[0])
    && forall j :: 0 <= j < |chunks| ==> LineOk(ck, chunks[j].text) && !EndsRequest(chunks[j])
  }

  lemma {:induction false} LinesAreKept(ck: Checks, chunks: seq<Chunk>)
    requires RequestLines(ck, chunks)
    ensures StateAfter(ck, chunks) == State(true, Joined(chunks))
    decreases |chunks|
  {
    hide KnownMethod, FirstWord, NamesMethod, Read;
    var front, c := chunks[..|chunks| - 1], chunks[|chunks| - 1];
    if front == [] {
      assert chunks[0] == c;
      KeptWhenIdle(ck, c);
      assert Joined(front) + c.text == c.text;
    } else {
      assert front[0] == chunks[0];
      LinesAreKept(ck, front);
      KeptWhenCollecting(ck, Joined(front), c);
    }
  }

  lemma KeptWhenIdle(ck: Checks, c: Chunk)
    requires ck.requestLine(c.text) && LineOk(ck, c.text) && !WholeRead(ck, c)
    ensures Read(ck, IDLE, c.text, c.bytes) == (Kept, State(true, c.text))
  {
    hide KnownMethod, FirstWord, NamesMethod;
    NamesMethodIff(c.text);
    assert "" + c.text == c.text;
  }

  lemma KeptWhenCollecting(ck: Checks, body: string, c: Chunk)
    requires LineOk(ck, c.text) && !EndsRequest(c)
    ensures Read(ck, State(true, body), c.text, c.bytes) == (Kept, State(true, body + c.text))
  {
    hide KnownMethod, FirstWord, NamesMethod;
    NamesMethodIff(c.text);
  }

  /** A request that comes in line by line is handed on as good, all of it, at its blank line, and the
      session is idle again. */
  lemma LinesAreHandedOn(ck: Checks, chunks: seq<Chunk>, blank: Chunk)
    requires RequestLines(ck, chunks) && EndsRequest(blank)
    ensures EventAt(ck, chunks + [blank], |chunks|) == Good(Joined(chunks) + "\r\n")
    ensures StateAfter(ck, chunks + [blank]) == IDLE
  {
    hide RequestLines;
    var all := chunks + [blank];
    assert all[..|chunks|] == chunks && all[|all| - 1] == blank;
    LinesAreKept(ck, chunks);
  }
}
