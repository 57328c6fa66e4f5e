/** Header fields with continuation lines: the value the parser gives them and the value RFC 2616
    gives them. */
module FoldedFields {
  import opened Common
  import opened RequestSyntax
  import opened RequestTheorems

  /* ---------- values character by character ---------- */

  /** The value section 2.2 of RFC 2616 gives to continuation lines: line break and blanks count as
      one space. */
  function RfcFoldsValue(folds: seq<Fold>): string {
    if folds == [] then "" else RfcFoldsValue(Front(folds)) + " " + Last(folds).text
  }

  function RfcValue(f: Field): string {
    f.first + RfcFoldsValue(f.folds)
  }

  function RfcHeadersOf(fs: seq<Field>): seq<Header> {
    if fs == [] then [] else RfcHeadersOf(Front(fs)) + [Header(Last(fs).name, RfcValue(Last(fs)))]
  }

  lemma {:induction false} FoldsLoseSpaces(folds: seq<Fold>)
    ensures |RfcFoldsValue(folds)| == |FoldsValue(folds)| + |folds|
  {
    if folds != [] {
      FoldsLoseSpaces(Front(folds));
    }
  }

  /** A field has the value the RFC gives it exactly when it is written on one line. */
  lemma ValueIsRfcIff(f: Field)
    ensures ValueOf(f) == RfcValue(f) <==> f.folds == []
  {
    FoldsLoseSpaces(f.folds);
  }

  /** All headers of a request have their RFC values exactly when no field is folded. */
  lemma {:induction false} HeadersAreRfcIff(fs: seq<Field>)
    ensures |HeadersOf(fs)| == |RfcHeadersOf(fs)| == |fs|
    ensures HeadersOf(fs) == RfcHeadersOf(fs) <==> forall i :: 0 <= i < |fs| ==> fs[i].folds == []
  {
    if fs != [] {
      hide ValueOf, RfcValue;
      HeadersAreRfcIff(Front(fs));
      ValueIsRfcIff(Last(fs));
      var mine, rfc := Header(Last(fs).name, ValueOf(Last(fs))), Header(Last(fs).name, RfcValue(Last(fs)));
      SameSnoc(HeadersOf(Front(fs)), mine, RfcHeadersOf(Front(fs)), rfc);
      assert forall i :: 0 <= i < |fs| - 1 ==> fs[i] == Front(fs)[i];
    }
  }

  lemma SameSnoc<T>(a: seq<T>, x: T, b: seq<T>, y: T)
    requires |a| == |b|
    ensures a + [x] == b + [y] <==> a == b && x == y
  {
    if a + [x] == b + [y] {
      assert a == (a + [x])[..|a|] && b == (b + [y])[..|a|];
      assert x == (a + [x])[|a|] && y == (b + [y])[|a|];
    }
  }

  /* ---------- values up to blanks ---------- */

  /** The words of a value, all that is left of it where blanks only separate: section 2.2 of RFC 2616
      gives every run of blanks the meaning of one space, and section 4.2 takes blanks at either end
      for no part of the value. */
  function Words(s: string): (ws: seq<string>)
    ensures Open(s) ==> ws != []
  {
    if s == "" then []
    else
      var ws, c := Words(Front(s)), Last(s);
      if IsBlank(c) then ws
      else if Open(Front(s)) then Front(ws) + [Last(ws) + [c]]
      else ws + [[c]]
  }

  /** The value ends inside a word. */
  predicate Open(s: string) { s != "" && !IsBlank(Last(s)) }

  lemma WordsSnoc(s: string, c: char)
    ensures var ws := Words(s);
            Words(s + [c]) == if IsBlank(c) then ws
                              else if Open(s) then Front(ws) + [Last(ws) + [c]]
                              else ws + [[c]]
    ensures Open(s + [c]) <==> !IsBlank(c)
  {
    assert Front(s + [c]) == s && Last(s + [c]) == c;
  }

  /** Text that starts a word adds its words to a value that ends in a blank, or is empty; after any
      other value its first word is run into the last one of the value. */
  lemma {:induction false} WordsAppend(s: string, t: string)
    requires t != "" && !IsBlank(t[0])
    ensures Open(s + t) == Open(t)
    ensures !Open(s) ==> Words(s + t) == Words(s) + Words(t)
    ensures Open(s) ==> |Words(s + t)| + 1 == |Words(s)| + |Words(t)|
    ensures Words(t) != [] && Words(s + t) != []
    decreases |t|
  {
    hide Words;
    var c := Last(t);
    if |t| == 1 {
      assert t == [c] && "" + [c] == t;
      WordsSnoc(s, c);
      WordsSnoc("", c);
      NoWords();
    } else {
      var u := Front(t);
      WordsAppend(s, u);
      assert u + [c] == t && s + u + [c] == s + t;
      WordsSnoc(u, c);
      WordsSnoc(s + u, c);
      if !Open(s) {
        SplitLast(Words(s), Words(u));
      }
    }
  }

  lemma NoWords()
    ensures Words("") == []
  {
  }

  lemma SplitLast(a: seq<string>, b: seq<string>)
    requires b != []
    ensures Front(a + b) == a + Front(b) && Last(a + b) == Last(b)
  {
  }

  /** Every continuation line with text follows a value that is empty or ends in a blank. */
  predicate Apart(first: string, folds: seq<Fold>) {
    folds != [] ==>
      && Apart(first, Front(folds))
      && (Last(folds).text != "" ==> !Open(first + FoldsValue(Front(folds))))
  }

  lemma {:induction false} FoldsRunTogether(first: string, folds: seq<Fold>)
    requires forall i :: 0 <= i < |folds| ==> ValidFold(folds[i])
    ensures var mine, rfc := Words(first + FoldsValue(folds)), Words(first + RfcFoldsValue(folds));
            if Apart(first, folds) then mine == rfc else |mine| < |rfc|
    decreases |folds|
  {
    if folds == [] {
      assert first + FoldsValue(folds) == first + RfcFoldsValue(folds);
    } else {
      hide Words, ValidFold, Open, FoldsValue, RfcFoldsValue;
      var before, t := Front(folds), Last(folds).text;
      FoldsRunTogether(first, before);
      FoldTexts(first, folds);
      StartsWord(Last(folds));
      JoinText(first + FoldsValue(before), first + RfcFoldsValue(before), t);
    }
  }

  lemma StartsWord(f: Fold)
    requires ValidFold(f)
    ensures f.text != "" ==> !IsBlank(f.text[0])
  {
  }

  lemma FoldTexts(first: string, folds: seq<Fold>)
    requires folds != []
    ensures first + FoldsValue(folds) == first + FoldsValue(Front(folds)) + Last(folds).text
    ensures first + RfcFoldsValue(folds) == first + RfcFoldsValue(Front(folds)) + [' '] + Last(folds).text
  {
  }

  /** One continuation line with text t, joined without and with a space. */
  lemma JoinText(v: string, r: string, t: string)
    requires t != "" ==> !IsBlank(t[0])
    ensures Words(r + [' '] + t) == Words(r) + Words(t)
    ensures t == "" ==> v + t == v && Words(t) == []
    ensures t != "" && !Open(v) ==> Words(v + t) == Words(v) + Words(t)
    ensures t != "" && Open(v) ==> |Words(v + t)| + 1 == |Words(v)| + |Words(t)|
  {
    hide Words, Open;
    WordsSnoc(r, ' ');
    if t == "" {
      NoWords();
      assert r + [' '] + t == r + [' '];
    } else {
      WordsAppend(v, t);
      WordsAppend(r + [' '], t);
    }
  }

  /** Up to blanks, a field has the value the RFC gives it exactly when no continuation line is run
      into a word before it. */
  lemma WordsAreRfcIff(f: Field)
    requires ValidField(f)
    ensures Words(ValueOf(f)) == Words(RfcValue(f)) <==> Apart(f.first, f.folds)
  {
    hide Words;
    FoldsRunTogether(f.first, f.folds);
  }

  /* ---------- a folded length ---------- */

  const FOLDED := Field("Content-Length", "1", [Fold(" ", "2")])

  lemma FoldedIsValid()
    ensures ValidField(FOLDED)
  {
    hide IsTokenChar;
    var name := FOLDED.name;
    forall i | 0 <= i < |name| ensures IsTokenChar(name[i]) {
      LetterInName(name[i]);
    }
  }

  lemma LetterInName(c: char)
    requires c == '-' || 'A' <= c <= 'Z' || 'a' <= c <= 'z'
    ensures IsTokenChar(c)
  {
  }

  lemma FoldedValues()
    ensures ValueOf(FOLDED) == "12" && RfcValue(FOLDED) == "1 2"
  {
    assert Front(FOLDED.folds) == [] && Last(FOLDED.folds).text == "2";
    assert FoldsValue([]) + "2" == "2" && RfcFoldsValue([]) + " " + "2" == " 2";
  }

  lemma OneHeader(f: Field)
    ensures HeadersOf([f]) == [Header(f.name, ValueOf(f))]
  {
    hide ValueOf;
    assert Front([f]) == [] && Last([f]) == f;
  }

  lemma LeadingDigit()
    ensures StoULL("1 2") == Some(1) && Numeral(12) == "12"
  {
    var s := "1 2";
    assert Span(IsSpace, s) == 0 && s[0..] == s;
    assert Span(IsDigit, s) == 1 && s[..1] == Numeral(1);
  }

  /** A Content-Length folded between its digits announces twelve body characters, where the RFC
      value would be read as one. */
  lemma FoldedLengthGrows()
    ensures ValidField(FOLDED)
    ensures ValueOf(FOLDED) == "12" && RfcValue(FOLDED) == "1 2"
    ensures BodyLength([FOLDED]) == 12 && StoULL(RfcValue(FOLDED)) == Some(1)
  {
    hide StoULL, Numeral, ValueOf, RfcValue, BodyLength, HeadersOf, ValidField;
    FoldedIsValid();
    FoldedValues();
    OneHeader(FOLDED);
    LeadingDigit();
    LengthAsWritten([FOLDED], 12);
  }
}
