/** ProxyHandler::parse_cache_hdrs: a Cache-Control value becomes a map from directive to number. */
module Directives {
  import opened Common

  type Directives = map<string, Int32>

  function Trim(s: string): string {
    TrimRight(s[Span(IsSpace, s)..])
  }

  function TrimRight(s: string): string {
    if s != "" && IsSpace(s[|s| - 1]) then TrimRight(s[..|s| - 1]) else s
  }

  /** The position of the first c in s, or |s|. */
  function Find(c: char, s: string): (n: nat)
    ensures n <= |s|
    ensures forall i :: 0 <= i < n ==> s[i] != c
    ensures n < |s| ==> s[n] == c
  {
    if s == "" || s[0] == c then 0 else 1 + Find(c, s[1..])
  }

  predicate OccursAt(s: string, w: string, i: nat) {
    i + |w| <= |s| && s[i..i + |w|] == w
  }

  predicate Contains(s: string, w: string) {
    exists i :: 0 <= i <= |s| && OccursAt(s, w, i)
  }

  /** Directives that carry a number. */
  predicate Numeric(token: string) {
    Contains(token, "max-age") || Contains(token, "max-stale") || Contains(token, "min-fresh")
  }

  /** A directive and its number. None: reading the number throws. A missing `=` makes the whole
      token both name and number text; a number text that ends in a non-digit counts as -1. */
  function ParseDirective(piece: string): Option<(string, Int32)> {
    var token := Trim(piece);
    if !Numeric(token) then Some((token, 1))
    else
      var at := Find('=', token);
      var given := if at == |token| then token else token[at + 1..];
      if given != "" && !IsDigit(given[|given| - 1]) then Some((token[..at], -1))
      else match Stoi(given)
           case None => None
           case Some(n) => Some((token[..at], n))
  }

  /** The pieces between commas. */
  function Split(s: string): (pieces: seq<string>)
    ensures pieces != []
    decreases |s|
  {
    var n := Find(',', s);
    if n == |s| then [s] else [s[..n]] + Split(s[n + 1..])
  }

  /** One left-to-right pass over the pieces; a later directive replaces an earlier one. */
  function ParsePieces(pieces: seq<string>, m: Directives): Option<Directives> {
    if pieces == [] then Some(m)
    else match ParseDirective(pieces[0])
         case None => None
         case Some((name, n)) => ParsePieces(pieces[1..], m[name := n])
  }

  method FindWord(s: string, w: string) returns (found: bool)
    ensures found <==> Contains(s, w)
  {
    var i := 0;
    while i + |w| <= |s|
      invariant 0 <= i
      invariant forall j :: 0 <= j < i ==> !OccursAt(s, w, j)
    {
      if s[i..i + |w|] == w {
        assert OccursAt(s, w, i);
        return true;
      }
      i := i + 1;
    }
    found := false;
  }

  /** The value part of a numeric directive: only the last character decides whether it counts as
      a number. */
  method ReadValue(token: string) returns (name: string, value: Option<Int32>)
    requires Numeric(token)
    ensures name == token[..Find('=', token)]
    ensures value == var at := Find('=', token);
                     var given := if at == |token| then token else token[at + 1..];
                     if given != "" && !IsDigit(given[|given| - 1]) then Some(-1) else Stoi(given)
  {
    hide Stoi, Numeric;
    var at := Find('=', token);
    var given := token;
    if at < |token| {
      given := token[at + 1..];
    }
    var isNum := true;
    for i := 0 to |given|
      invariant isNum == (i == 0 || IsDigit(given[i - 1]))
    {
      isNum := IsDigit(given[i]);
    }
    value := if isNum then Stoi(given) else Some(-1);
    name := token[..at];
  }

  method IsNumeric(token: string) returns (r: bool)
    ensures r == Numeric(token)
  {
    r := FindWord(token, "max-age");
    if !r {
      r := FindWord(token, "max-stale");
    }
    if !r {
      r := FindWord(token, "min-fresh");
    }
  }

  /** The body of the loop over commas. */
  method ParseToken(piece: string) returns (r: Option<(string, Int32)>)
    ensures r == ParseDirective(piece)
  {
    hide Trim, Numeric, Stoi, Find;
    var val: Int32 := 1;
    var token := Trim(piece);
    var numeric := IsNumeric(token);
    if numeric {
      var name, value := ReadValue(token);
      if value.None? {
        return None;
      }
      val := value.value;
      token := name;
    }
    r := Some((token, val));
  }

  /** The code after the loop, for the last directive. */
  method ParseLast(piece: string) returns (r: Option<(string, Int32)>)
    ensures r == ParseDirective(piece)
  {
    hide Trim, Numeric, Stoi, Find;
    var dirs := Trim(piece);
    var numeric := IsNumeric(dirs);
    if numeric {
      var name, value := ReadValue(dirs);
      r := if value.None? then None else Some((name, value.value));
    } else {
      r := Some((dirs, 1));
    }
  }

  lemma ParseFirstPiece(s: string, m: Directives)
    ensures var pos := Find(',', s);
            var first := ParseDirective(s[..pos]);
            ParsePieces(Split(s), m) ==
            if first.None? then None
            else if pos == |s| then Some(m[first.value.0 := first.value.1])
            else ParsePieces(Split(s[pos + 1..]), m[first.value.0 := first.value.1])
  {
    hide ParseDirective, ParsePieces, Split, Find;
    var pos := Find(',', s);
    SplitOnce(s);
    if pos == |s| {
      assert s[..pos] == s;
      assert [s] + [] == [s];
      PiecesOnce(s, [], m);
    } else {
      PiecesOnce(s[..pos], Split(s[pos + 1..]), m);
    }
  }

  lemma SplitOnce(s: string)
    ensures var pos := Find(',', s);
            Split(s) == if pos == |s| then [s] else [s[..pos]] + Split(s[pos + 1..])
  {
    hide Find;
  }

  lemma PiecesOnce(first: string, rest: seq<string>, m: Directives)
    ensures var entry := ParseDirective(first);
            ParsePieces([first] + rest, m) ==
            if entry.None? then None
            else if rest == [] then Some(m[entry.value.0 := entry.value.1])
            else ParsePieces(rest, m[entry.value.0 := entry.value.1])
  {
    hide ParseDirective;
    assert ([first] + rest)[1..] == rest;
  }

  /** The loop over commas and the separate treatment of the last piece. None: an exception. */
  method ParseCacheHdrs(header: string) returns (r: Option<Directives>)
    ensures r == ParsePieces(Split(header), map[])
  {
    hide ParsePieces, Split, ParseDirective;
    var dirs := header;
    var hdrs: Directives := map[];
    var pos := Find(',', dirs);
    while pos != |dirs|
      invariant pos == Find(',', dirs)
      invariant ParsePieces(Split(header), map[]) == ParsePieces(Split(dirs), hdrs)
      decreases |dirs|
    {
      ParseFirstPiece(dirs, hdrs);
      var entry := ParseToken(dirs[..pos]);
      if entry.None? {
        return None;
      }
      hdrs := hdrs[entry.value.0 := entry.value.1];
      dirs := dirs[pos + 1..];
      pos := Find(',', dirs);
    }
    ParseFirstPiece(dirs, hdrs);
    assert dirs[..pos] == dirs;
    var entry := ParseLast(dirs);
    if entry.None? {
      return None;
    }
    r := Some(hdrs[entry.value.0 := entry.value.1]);
  }

  /* ---------- writing directives and reading them back ---------- */

  /** Trimming leaves s alone. */
  predicate Tight(s: string) {
    s != "" ==> !IsSpace(s[0]) && !IsSpace(s[|s| - 1])
  }

  type Seconds = n: nat | n < TWO_TO_THE_31

  datatype Directive = Flag(name: string) | Limit(name: string, seconds: Seconds)

  predicate WellFormed(d: Directive) {
    match d
    case Flag(name) =>
      ',' !in name && !Numeric(name) && Tight(name)
    case Limit(name, seconds) =>
      name in {"max-age", "max-stale", "min-fresh"}
  }

  function Write(d: Directive): string {
    match d
    case Flag(name) => name
    case Limit(name, seconds) => name + "=" + Numeral(seconds)
  }

  function Meaning(d: Directive): (string, Int32) {
    match d
    case Flag(name) => (name, 1)
    case Limit(name, seconds) => (name, seconds)
  }

  /** A directive with the blanks around it. */
  datatype Item = Item(before: string, directive: Directive, after: string)

  predicate Blanks(s: string) {
    forall i :: 0 <= i < |s| ==> s[i] == ' ' || 9 <= s[i] as int <= 13
  }

  predicate WellSpaced(item: Item) {
    Blanks(item.before) && Blanks(item.after) && WellFormed(item.directive)
  }

  function ItemText(item: Item): string {
    item.before + Write(item.directive) + item.after
  }

  /** Items joined by commas. */
  function Join(items: seq<Item>): string
    requires items != []
  {
    if |items| == 1 then ItemText(items[0]) else ItemText(items[0]) + [','] + Join(items[1..])
  }

  /** The map of the directives, a later one replacing an earlier one. */
  function MapOf(items: seq<Item>, m: Directives): Directives {
    if items == [] then m
    else
      var (name, n) := Meaning(items[0].directive);
      MapOf(items[1..], m[name := n])
  }

  lemma {:induction false} SpanBlanks(before: string, rest: string)
    requires Blanks(before) && (rest != "" ==> !IsSpace(rest[0]))
    ensures Span(IsSpace, before + rest) == |before|
  {
    if before == "" {
      assert before + rest == rest;
    } else {
      assert (before + rest)[1..] == before[1..] + rest;
      SpanBlanks(before[1..], rest);
    }
  }

  lemma {:induction false} TrimRightBlanks(s: string, after: string)
    requires Blanks(after) && (s != "" ==> !IsSpace(s[|s| - 1]))
    ensures TrimRight(s + after) == s
    decreases |after|
  {
    if after == "" {
      assert s + after == s;
    } else {
      var n := |after| - 1;
      assert (s + after)[..|s + after| - 1] == s + after[..n];
      TrimRightBlanks(s, after[..n]);
    }
  }

  /** Trimming takes away the blanks on both sides, and only those. */
  lemma TrimTight(before: string, s: string, after: string)
    requires Blanks(before) && Blanks(after) && Tight(s)
    ensures Trim(before + s + after) == s
  {
    if s == "" {
      assert before + s + after == (before + after) + "";
      SpanBlanks(before + after, "");
      assert (before + after + "")[|before + after|..] == "";
    } else {
      assert before + s + after == before + (s + after);
      SpanBlanks(before, s + after);
      assert (before + (s + after))[|before|..] == s + after;
      TrimRightBlanks(s, after);
    }
  }

  lemma WriteTight(d: Directive)
    requires WellFormed(d)
    ensures Tight(Write(d)) && ',' !in Write(d)
  {
    if d.Limit? {
      var n := Numeral(d.seconds);
      assert n[|n| - 1] in n;
      assert ',' !in d.name && ',' !in n;
    }
  }

  lemma FindFirst(c: char, a: string, rest: string)
    requires c !in a
    ensures Find(c, a + [c] + rest) == |a|
    ensures Find(c, a) == |a|
  {
    var s := a + [c] + rest;
    assert forall i :: 0 <= i < |a| ==> s[i] in a && a[i] in a;
    assert s[|a|] == c;
  }

  lemma LimitParses(name: string, seconds: Seconds)
    requires WellFormed(Limit(name, seconds))
    ensures var token := name + "=" + Numeral(seconds);
            && Numeric(token)
            && Find('=', token) == |name|
            && Stoi(token[|name| + 1..]) == Some(seconds)
            && token[|name| + 1..] != ""
            && IsDigit(token[|name| + 1..][|token| - |name| - 2])
  {
    hide Stoi, Numeral;
    var n := Numeral(seconds);
    var token := name + "=" + n;
    assert OccursAt(token, name, 0);
    FindFirst('=', name, n);
    assert token[|name| + 1..] == n;
    NumeralReads(seconds);
    StoiReads(n, seconds);
    assert n[|n| - 1] in n;
  }

  lemma StoiReads(s: string, n: Seconds)
    requires ReadNumber(s) == Some((false, n))
    ensures Stoi(s) == Some(n)
  {
  }

  /** A written directive, with any blanks around it, is read as what it means. */
  lemma DirectiveRoundTrip(item: Item)
    requires WellSpaced(item)
    ensures ParseDirective(ItemText(item)) == Some(Meaning(item.directive))
  {
    hide Trim, Numeric, Stoi, Numeral;
    var d := item.directive;
    WriteTight(d);
    TrimTight(item.before, Write(d), item.after);
    if d.Limit? {
      LimitParses(d.name, d.seconds);
      var token := Write(d);
      assert token[..|d.name|] == d.name;
    }
  }

  /** A limit whose text ends in a digit counts as the number it begins with, and throws if it begins
      with none or with one out of range; any other text counts as -1, and an empty one throws. */
  lemma LimitIsRead(name: string, given: string)
    requires name == "max-age" || name == "max-stale" || name == "min-fresh"
    requires given != "" ==> !IsSpace(given[|given| - 1])
    ensures ParseDirective(name + "=" + given) ==
            if given != "" && !('0' <= given[|given| - 1] <= '9') then Some((name, -1))
            else match Stoi(given)
                 case None => None
                 case Some(n) => Some((name, n))
  {
    hide Trim, Stoi, Numeric, Find, ParseDirective;
    var token := name + "=" + given;
    LimitToken(name, given);
    TrimTight("", token, "");
    assert "" + token + "" == token;
    ParseNumeric(token, name, given);
  }

  lemma LimitToken(name: string, given: string)
    requires name == "max-age" || name == "max-stale" || name == "min-fresh"
    requires given != "" ==> !IsSpace(given[|given| - 1])
    ensures var token := name + "=" + given;
            && Tight(token) && Numeric(token) && Find('=', token) == |name|
            && token[..|name|] == name && token[|name| + 1..] == given
  {
    hide Numeric, Find;
    var token := name + "=" + given;
    LimitName(name);
    NumericStart(name, "=" + given);
    assert name + ("=" + given) == token;
    FindFirst('=', name, given);
    assert token[0] == name[0] && token[|token| - 1] == if given == "" then '=' else given[|given| - 1];
  }

  lemma ParseNumeric(token: string, name: string, given: string)
    requires Trim(token) == token && Numeric(token) && Find('=', token) == |name| < |token|
    requires token[..|name|] == name && token[|name| + 1..] == given
    ensures ParseDirective(token) ==
            if given != "" && !IsDigit(given[|given| - 1]) then Some((name, -1))
            else match Stoi(given)
                 case None => None
                 case Some(n) => Some((name, n))
  {
    hide Trim, Stoi, Numeric, Find;
  }

  lemma LimitName(name: string)
    requires name == "max-age" || name == "max-stale" || name == "min-fresh"
    ensures name != "" && Tight(name) && '=' !in name && !IsDigit(name[|name| - 1])
  {
  }

  lemma NumericStart(name: string, rest: string)
    requires name == "max-age" || name == "max-stale" || name == "min-fresh"
    ensures Numeric(name + rest)
  {
    assert OccursAt(name + rest, name, 0);
  }

  /** A limit without a number counts as -1. */
  lemma BareLimit(name: string)
    requires name == "max-age" || name == "max-stale" || name == "min-fresh"
    ensures ParseDirective(name) == Some((name, -1))
  {
    hide Trim, Stoi, Numeric, Find;
    LimitName(name);
    TrimTight("", name, "");
    assert "" + name + "" == name && name + "" == name;
    NumericStart(name, "");
    FindFirst('=', name, "");
    assert name[..|name|] == name;
  }

  /** The flags the cache decision looks for are flags, and count as 1. */
  lemma KnownFlags(name: string)
    requires name == "no-cache" || name == "no-store" || name == "only-if-cached"
    ensures WellFormed(Flag(name)) && ParseDirective(name) == Some((name, 1))
  {
    hide Numeric, Trim;
    FlagName(name);
    NotNumeric(name);
    TrimTight("", name, "");
    assert "" + name + "" == name;
  }

  lemma FlagName(name: string)
    requires name == "no-cache" || name == "no-store" || name == "only-if-cached"
    ensures 'm' !in name && ',' !in name && Tight(name)
  {
  }

  lemma NotNumeric(s: string)
    requires 'm' !in s
    ensures !Numeric(s)
  {
    forall i: nat, w: string | w != "" && w[0] == 'm' ensures !OccursAt(s, w, i) {
      if i + |w| <= |s| {
        assert s[i] in s && s[i..i + |w|][0] == s[i];
      }
    }
  }

  lemma SplitAtComma(first: string, rest: string)
    requires ',' !in first
    ensures Split(first + [','] + rest) == [first] + Split(rest)
    ensures Split(first) == [first]
  {
    FindFirst(',', first, rest);
    var s := first + [','] + rest;
    assert s[..|first|] == first && s[|first| + 1..] == rest;
  }

  lemma NoCommaIn(item: Item)
    requires WellSpaced(item)
    ensures ',' !in ItemText(item)
  {
    hide Write;
    WriteTight(item.directive);
  }

  lemma {:induction false} JoinParses(items: seq<Item>, m: Directives)
    requires items != [] && forall i :: 0 <= i < |items| ==> WellSpaced(items[i])
    ensures ParsePieces(Split(Join(items)), m) == Some(MapOf(items, m))
    decreases |items|
  {
    hide Split, ParsePieces, ParseDirective, WellSpaced, ItemText;
    var first := ItemText(items[0]);
    var (name, n) := Meaning(items[0].directive);
    NoCommaIn(items[0]);
    DirectiveRoundTrip(items[0]);
    if |items| == 1 {
      SplitAtComma(first, "");
      assert [first] + [] == [first];
      PiecesOnce(first, [], m);
      assert items[1..] == [];
    } else {
      SplitAtComma(first, Join(items[1..]));
      PiecesOnce(first, Split(Join(items[1..])), m);
      JoinParses(items[1..], m[name := n]);
    }
  }

  /** Every non-empty list of well-formed directives, with any blanks around them, joined by commas is
      parsed back to its map. */
  lemma DirectivesRoundTrip(items: seq<Item>)
    requires items != [] && forall i :: 0 <= i < |items| ==> WellSpaced(items[i])
    ensures ParsePieces(Split(Join(items)), map[]) == Some(MapOf(items, map[]))
  {
    JoinParses(items, map[]);
  }
}
