/** The request parser as a machine over structured partial messages. Each constructor of Progress
    is a parser state together with everything read so far. */
module RequestMachine {
  import opened Common
  import opened RequestSyntax

  datatype Progress =
    | MethodStart
    | InMethod(verb: string)
    | InUri(verb: string, uri: string)
    | InVersion(verb: string, uri: string, seen: nat)
    | InMajor(verb: string, uri: string, major: string)
    | MinorStart(verb: string, uri: string, major: string)
    | InMinor(line: Line)
    | Newline1(line: Line)
    | HeaderStart(line: Line, fields: seq<Field>)
    | HeaderName(line: Line, fields: seq<Field>, name: string)
    | SpaceBeforeValue(line: Line, fields: seq<Field>, name: string)
    | HeaderLws(line: Line, fields: seq<Field>, open: Field)
    | InValue(line: Line, fields: seq<Field>, open: Field)
    | Newline2(line: Line, fields: seq<Field>, open: Field)
    | Newline3(line: Line, fields: seq<Field>)
    | InBody(line: Line, fields: seq<Field>, body: string, remaining: nat)

  /** What one character leads to. Broken: an empty URI makes the source index path_ at
      path_.size() - 1 on an empty string, after which nothing is defined. */
  datatype Outcome = More(progress: Progress) | Accept(message: Message) | Reject | Broken

  const PROTOCOL := "HTTP/"

  function AddFold(f: Field, blank: char): Field {
    f.(folds := f.folds + [Fold([blank], "")])
  }

  function AddBlank(f: Field, blank: char): Field
    requires f.folds != []
  {
    f.(folds := Front(f.folds) + [Last(f.folds).(blanks := Last(f.folds).blanks + [blank])])
  }

  function AddChar(f: Field, c: char): Field {
    if f.folds == [] then f.(first := f.first + [c])
    else f.(folds := Front(f.folds) + [Last(f.folds).(text := Last(f.folds).text + [c])])
  }

  predicate InTarget(p: Progress) { p.MethodStart? || p.InMethod? || p.InUri? }

  function StepTarget(p: Progress, c: char): Outcome
    requires InTarget(p)
  {
    match p
    case MethodStart => if IsTokenChar(c) then More(InMethod([c])) else Reject
    case InMethod(v) =>
      if c == ' ' then More(InUri(v, ""))
      else if IsTokenChar(c) then More(InMethod(v + [c])) else Reject
    case InUri(v, u) =>
      if c == ' ' then if u == "" then Broken else More(InVersion(v, u, 0))
      else if IsControl(c) then Reject else More(InUri(v, u + [c]))
  }

  predicate InProtocol(p: Progress) { p.InVersion? || p.InMajor? || p.MinorStart? || p.InMinor? }

  function StepVersion(p: Progress, c: char): Outcome
    requires InProtocol(p)
  {
    match p
    case InVersion(v, u, n) =>
      if n < |PROTOCOL| then if c == PROTOCOL[n] then More(InVersion(v, u, n + 1)) else Reject
      else if IsDigit(c) then More(InMajor(v, u, [c])) else Reject
    case InMajor(v, u, major) =>
      if c == '.' then More(MinorStart(v, u, major))
      else if IsDigit(c) then More(InMajor(v, u, major + [c])) else Reject
    case MinorStart(v, u, major) =>
      if IsDigit(c) then More(InMinor(Line(v, u, major, [c]))) else Reject
    case InMinor(l) =>
      if c == '\r' then More(Newline1(l))
      else if IsDigit(c) then More(InMinor(l.(minor := l.minor + [c]))) else Reject
  }

  predicate InFields(p: Progress) {
    || p.HeaderStart? || p.HeaderName? || p.SpaceBeforeValue? || p.HeaderLws? || p.InValue? || p.Newline2?
  }

  function StepField(p: Progress, c: char): Outcome
    requires InFields(p) && (p.HeaderLws? ==> p.open.folds != [])
  {
    match p
    case HeaderStart(l, fs) =>
      if c == '\r' then More(Newline3(l, fs))
      else if fs != [] && IsBlank(c) then More(HeaderLws(l, Front(fs), AddFold(Last(fs), c)))
      else if IsTokenChar(c) then More(HeaderName(l, fs, [c])) else Reject
    case HeaderName(l, fs, n) =>
      if c == ':' then More(SpaceBeforeValue(l, fs, n))
      else if IsTokenChar(c) then More(HeaderName(l, fs, n + [c])) else Reject
    case SpaceBeforeValue(l, fs, n) =>
      if c == ' ' then More(InValue(l, fs, Field(n, "", []))) else Reject
    case HeaderLws(l, fs, f) =>
      if c == '\r' then More(Newline2(l, fs, f))
      else if IsBlank(c) then More(HeaderLws(l, fs, AddBlank(f, c)))
      else if IsControl(c) then Reject else More(InValue(l, fs, AddChar(f, c)))
    case InValue(l, fs, f) =>
      if c == '\r' then More(Newline2(l, fs, f))
      else if IsControl(c) then Reject else More(InValue(l, fs, AddChar(f, c)))
    case Newline2(l, fs, f) =>
      if c == '\n' then More(HeaderStart(l, fs + [f])) else Reject
  }

  predicate AtLineEnd(p: Progress) { p.Newline1? || p.Newline3? || p.InBody? }

  function StepLineEnd(p: Progress, c: char): Outcome
    requires AtLineEnd(p)
  {
    match p
    case Newline1(l) => if c == '\n' then More(HeaderStart(l, [])) else Reject
    case Newline3(l, fs) =>
      if c != '\n' then Reject
      else if BodyLength(fs) > 0 then More(InBody(l, fs, "", BodyLength(fs)))
      else Accept(Message(l, fs, ""))
    case InBody(l, fs, b, n) =>
      if n > 1 then More(InBody(l, fs, b + [c], n - 1)) else Accept(Message(l, fs, b + [c]))
  }

  function Step(p: Progress, c: char): Outcome
    requires Valid(p)
  {
    if InTarget(p) then StepTarget(p, c)
    else if InProtocol(p) then StepVersion(p, c)
    else if InFields(p) then StepField(p, c)
    else StepLineEnd(p, c)
  }

  /* ---------- the invariant and the text read ---------- */

  predicate ValidOpen(fs: seq<Field>, f: Field) {
    ValidFields(fs) && ValidField(f)
  }

  predicate Waiting(f: Field) {
    f.folds != [] && Last(f.folds).text == ""
  }

  predicate Valid(p: Progress) {
    match p
    case MethodStart => true
    case InMethod(v) => ValidName(v)
    case InUri(v, u) => ValidName(v) && All(IsUriChar, u)
    case InVersion(v, u, n) => ValidTarget(v, u) && n <= |PROTOCOL|
    case InMajor(v, u, major) => ValidTarget(v, u) && ValidDigits(major)
    case MinorStart(v, u, major) => ValidTarget(v, u) && ValidDigits(major)
    case InMinor(l) => ValidLine(l)
    case Newline1(l) => ValidLine(l)
    case HeaderStart(l, fs) => ValidLine(l) && ValidFields(fs)
    case HeaderName(l, fs, n) => ValidLine(l) && ValidFields(fs) && ValidName(n)
    case SpaceBeforeValue(l, fs, n) => ValidLine(l) && ValidFields(fs) && ValidName(n)
    case HeaderLws(l, fs, f) => ValidLine(l) && ValidOpen(fs, f) && Waiting(f)
    case InValue(l, fs, f) => ValidLine(l) && ValidOpen(fs, f) && !Waiting(f)
    case Newline2(l, fs, f) => ValidLine(l) && ValidOpen(fs, f)
    case Newline3(l, fs) => ValidLine(l) && ValidFields(fs)
    case InBody(l, fs, b, n) =>
      ValidLine(l) && ValidFields(fs) && n > 0 && |b| + n == BodyLength(fs)
  }

  /** The characters that lead to this state. */
  function TextOf(p: Progress): string
    requires Valid(p)
  {
    match p
    case MethodStart => ""
    case InMethod(v) => v
    case InUri(v, u) => TargetText(v, u)
    case InVersion(v, u, n) => TargetText(v, u) + " " + PROTOCOL[..n]
    case InMajor(v, u, major) => TargetText(v, u) + " HTTP/" + major
    case MinorStart(v, u, major) => TargetText(v, u) + " HTTP/" + major + "."
    case InMinor(l) => LineText(l)
    case Newline1(l) => LineText(l) + "\r"
    case HeaderStart(l, fs) => HeadText(l, fs)
    case HeaderName(l, fs, n) => HeadText(l, fs) + n
    case SpaceBeforeValue(l, fs, n) => HeadText(l, fs) + n + ":"
    case HeaderLws(l, fs, f) => HeadText(l, fs) + FieldText(f)
    case InValue(l, fs, f) => HeadText(l, fs) + FieldText(f)
    case Newline2(l, fs, f) => HeadText(l, fs) + FieldText(f) + "\r"
    case Newline3(l, fs) => HeadText(l, fs) + "\r"
    case InBody(l, fs, b, _) => HeadText(l, fs) + "\r\n" + b
  }

  /* ---------- soundness of one step ---------- */

  lemma AddFoldText(f: Field, c: char)
    requires ValidField(f) && IsBlank(c)
    ensures FieldText(AddFold(f, c)) == FieldText(f) + "\r\n" + [c]
    ensures ValidField(AddFold(f, c)) && Waiting(AddFold(f, c))
  {
    var g := AddFold(f, c);
    assert Front(g.folds) == f.folds;
    assert [c] + "" == [c];
    assert FoldsText(g.folds) == FoldsText(f.folds) + "\r\n" + [c];
  }

  lemma AddBlankText(f: Field, c: char)
    requires ValidField(f) && Waiting(f) && IsBlank(c)
    ensures FieldText(AddBlank(f, c)) == FieldText(f) + [c]
    ensures ValidField(AddBlank(f, c)) && Waiting(AddBlank(f, c))
  {
    var g := AddBlank(f, c);
    assert Front(g.folds) == Front(f.folds);
    assert ValidFold(Last(f.folds));
    assert ValidFold(Last(g.folds));
    assert FoldsText(g.folds) == FoldsText(f.folds) + [c];
  }

  lemma AddCharText(f: Field, c: char)
    requires ValidField(f) && IsTextChar(c) && (Waiting(f) ==> !IsBlank(c))
    ensures FieldText(AddChar(f, c)) == FieldText(f) + [c]
    ensures ValidField(AddChar(f, c)) && !Waiting(AddChar(f, c))
    ensures ValueOf(AddChar(f, c)) == ValueOf(f) + [c]
  {
    var g := AddChar(f, c);
    if f.folds == [] {
      assert FoldsText([]) == "" && FoldsValue([]) == "";
    } else {
      assert Front(g.folds) == Front(f.folds);
      assert ValidFold(Last(f.folds));
      assert ValidFold(Last(g.folds));
      assert FoldsText(g.folds) == FoldsText(f.folds) + [c];
      assert FoldsValue(g.folds) == FoldsValue(f.folds) + [c];
    }
  }

  /** A step keeps the invariant and records its character; an accepted message is well formed and
      is exactly what was read. */
  ghost predicate Sound(p: Progress, c: char, o: Outcome)
    requires Valid(p)
  {
    match o
    case More(q) => Valid(q) && TextOf(q) == TextOf(p) + [c]
    case Accept(m) => WellFormed(m) && Serialize(m) == TextOf(p) + [c]
    case Reject => true
    case Broken => true
  }

  lemma TargetSound(p: Progress, c: char)
    requires Valid(p) && InTarget(p)
    ensures Sound(p, c, StepTarget(p, c))
  {
  }

  lemma VersionSound(p: Progress, c: char)
    requires Valid(p) && InProtocol(p)
    ensures Sound(p, c, StepVersion(p, c))
  {
    if p.InVersion? {
      if p.seen < |PROTOCOL| {
        assert PROTOCOL[..p.seen + 1] == PROTOCOL[..p.seen] + [PROTOCOL[p.seen]];
      } else {
        assert " " + PROTOCOL[..p.seen] == " HTTP/";
      }
    }
  }

  /** A continuation line takes the last field up again. */
  lemma FoldText(l: Line, fs: seq<Field>, c: char)
    requires ValidFields(fs) && fs != [] && IsBlank(c)
    ensures HeadText(l, Front(fs)) + FieldText(AddFold(Last(fs), c)) == HeadText(l, fs) + [c]
  {
    hide LineText, ValidField;
    AddFoldText(Last(fs), c);
    var a, b, d := LineText(l) + "\r\n", FieldsText(Front(fs)), FieldText(Last(fs));
    assert a + b + (d + "\r\n" + [c]) == a + (b + d + "\r\n") + [c];
  }

  lemma HeaderStartSound(l: Line, fs: seq<Field>, c: char)
    requires ValidLine(l) && ValidFields(fs)
    ensures Sound(HeaderStart(l, fs), c, StepField(HeaderStart(l, fs), c))
  {
    if fs != [] && c != '\r' && IsBlank(c) {
      AddFoldText(Last(fs), c);
      FoldText(l, fs, c);
    }
  }

  lemma Newline2Sound(l: Line, fs: seq<Field>, f: Field, c: char)
    requires ValidLine(l) && ValidOpen(fs, f)
    ensures Sound(Newline2(l, fs, f), c, StepField(Newline2(l, fs, f), c))
  {
    if c == '\n' {
      assert Front(fs + [f]) == fs;
      var a, b, d := LineText(l) + "\r\n", FieldsText(fs), FieldText(f);
      assert a + (b + d + "\r\n") == a + b + d + "\r" + ['\n'];
    }
  }

  lemma NameSound(p: Progress, c: char)
    requires Valid(p) && (p.HeaderName? || p.SpaceBeforeValue?)
    ensures Sound(p, c, StepField(p, c))
  {
    if p.SpaceBeforeValue? {
      assert FieldText(Field(p.name, "", [])) == p.name + ": ";
      assert HeadText(p.line, p.fields) + (p.name + ": ") == HeadText(p.line, p.fields) + p.name + ":" + [' '];
    }
  }

  lemma ValueSound(p: Progress, c: char)
    requires Valid(p) && (p.HeaderLws? || p.InValue?)
    ensures Sound(p, c, StepField(p, c))
  {
    hide HeadText, FieldText, ValidLine, ValidFields, ValidField, AddChar, AddBlank;
    var a, b := HeadText(p.line, p.fields), FieldText(p.open);
    assert a + (b + [c]) == a + b + [c];
    if c == '\r' {
    } else if p.HeaderLws? && IsBlank(c) {
      AddBlankText(p.open, c);
    } else if !IsControl(c) {
      AddCharText(p.open, c);
    }
  }

  lemma FieldSound(p: Progress, c: char)
    requires Valid(p) && InFields(p)
    ensures Sound(p, c, StepField(p, c))
  {
    if p.HeaderStart? {
      HeaderStartSound(p.line, p.fields, c);
    } else if p.HeaderName? || p.SpaceBeforeValue? {
      NameSound(p, c);
    } else if p.Newline2? {
      Newline2Sound(p.line, p.fields, p.open, c);
    } else {
      ValueSound(p, c);
    }
  }

  lemma LineEndSound(p: Progress, c: char)
    requires Valid(p) && AtLineEnd(p)
    ensures Sound(p, c, StepLineEnd(p, c))
  {
    hide BodyLength;
    match p
    case Newline1(l) => assert FieldsText([]) == "";
    case Newline3(l, fs) => assert HeadText(l, fs) + "\r\n" + "" == HeadText(l, fs) + "\r" + ['\n'];
    case InBody(l, fs, b, n) => assert HeadText(l, fs) + "\r\n" + (b + [c]) == HeadText(l, fs) + "\r\n" + b + [c];
  }

  lemma StepSound(p: Progress, c: char)
    requires Valid(p)
    ensures Sound(p, c, Step(p, c))
  {
    if InTarget(p) {
      TargetSound(p, c);
    } else if InProtocol(p) {
      VersionSound(p, c);
    } else if InFields(p) {
      FieldSound(p, c);
    } else {
      LineEndSound(p, c);
    }
  }
}
