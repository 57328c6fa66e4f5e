/** The two URL decoders: the one inside the request parser, which gives up on a bad escape, and
    Utils::url_decode, which drops the percent sign and goes on. */
module UrlPath {
  import opened Common

  predicate IsHex(c: char) {
    IsDigit(c) || 'a' <= c <= 'f' || 'A' <= c <= 'F'
  }

  function HexDigit(c: char): nat
    requires IsHex(c)
  {
    if IsDigit(c) then c as nat - '0' as nat
    else if 'a' <= c then c as nat - 'a' as nat + 10
    else c as nat - 'A' as nat + 10
  }

  /** Reading an int in base 16 from a two-character stream: leading blank or sign, then at least
      one digit; "0x" alone has none. None is a failed read. */
  function HexPair(a: char, b: char): Option<int> {
    if IsSpace(a) || a == '+' then if IsHex(b) then Some(HexDigit(b)) else None
    else if a == '-' then if IsHex(b) then Some(0 - HexDigit(b)) else None
    else if !IsHex(a) then None
    else if IsHex(b) then Some(16 * HexDigit(a) + HexDigit(b))
    else if a == '0' && (b == 'x' || b == 'X') then None
    else Some(HexDigit(a))
  }

  /** Conversion to a byte. */
  function ToByte(v: int): char {
    (v % 256) as char
  }

  predicate GoodEscape(u: string) {
    |u| >= 3 && HexPair(u[1], u[2]).Some?
  }

  /** The parser's decoder: None on the first bad escape. */
  function StrictDecode(u: string): Option<string>
    decreases |u|
  {
    if u == "" then Some("")
    else if u[0] == '%' then
      if !GoodEscape(u) then None
      else match StrictDecode(u[3..])
           case None => None
           case Some(p) => Some([ToByte(HexPair(u[1], u[2]).value)] + p)
    else
      match StrictDecode(u[1..])
      case None => None
      case Some(p) => Some([Plain(u[0])] + p)
  }

  /** Utils::url_decode. */
  function UrlDecode(u: string): string
    decreases |u|
  {
    if u == "" then ""
    else if u[0] == '%' then
      if GoodEscape(u) then [ToByte(HexPair(u[1], u[2]).value)] + UrlDecode(u[3..])
      else UrlDecode(u[1..])
    else [Plain(u[0])] + UrlDecode(u[1..])
  }

  predicate HasDots(p: string) {
    exists i :: 0 <= i < |p| - 1 && p[i] == '.' && p[i + 1] == '.'
  }

  const INDEX := "index.html"

  /** The path the parser derives from a non-empty URI. */
  function PathOf(u: string): string {
    match StrictDecode(u)
    case None => ""
    case Some(p) =>
      if HasDots(p) then ""
      else if p != "" && p[|p| - 1] == '/' then p + INDEX
      else p
  }

  method FindDots(p: string) returns (found: bool)
    ensures found <==> HasDots(p)
  {
    var i := 0;
    while i + 1 < |p|
      invariant 0 <= i && (i <= |p| - 1 || i == 0)
      invariant forall j :: 0 <= j < i ==> !(p[j] == '.' && p[j + 1] == '.')
    {
      if p[i] == '.' && p[i + 1] == '.' {
        return true;
      }
      i := i + 1;
    }
    found := false;
  }

  function Prepend(s: string, o: Option<string>): Option<string> {
    match o
    case None => None
    case Some(p) => Some(s + p)
  }

  lemma PrependTwice(s: string, c: char, o: Option<string>)
    ensures Prepend(s, Prepend([c], o)) == Prepend(s + [c], o)
  {
    if o.Some? {
      SnocMoves(s, c, o.value);
    }
  }

  function Plain(c: char): char {
    if c == '+' then ' ' else c
  }

  /** Both decoders, one character or one escape further from position i. */
  lemma DecodersStep(u: string, i: nat)
    requires i < |u|
    ensures GoodEscape(u[i..]) <==> i + 3 <= |u| && HexPair(u[i + 1], u[i + 2]).Some?
    ensures u[i] != '%' ==>
              && StrictDecode(u[i..]) == Prepend([Plain(u[i])], StrictDecode(u[i + 1..]))
              && UrlDecode(u[i..]) == [Plain(u[i])] + UrlDecode(u[i + 1..])
    ensures u[i] == '%' && !GoodEscape(u[i..]) ==>
              StrictDecode(u[i..]) == None && UrlDecode(u[i..]) == UrlDecode(u[i + 1..])
    ensures u[i] == '%' && GoodEscape(u[i..]) ==>
              var c := ToByte(HexPair(u[i + 1], u[i + 2]).value);
              && StrictDecode(u[i..]) == Prepend([c], StrictDecode(u[i + 3..]))
              && UrlDecode(u[i..]) == [c] + UrlDecode(u[i + 3..])
  {
    assert u[i..][0] == u[i] && u[i..][1..] == u[i + 1..];
    if i + 3 <= |u| {
      assert u[i..][3..] == u[i + 3..];
    }
  }

  /** The decoding loop of the request parser and the two checks after it. */
  method DerivePath(uri: string) returns (path: string)
    requires uri != ""
    ensures path == PathOf(uri)
  {
    path := "";
    var i := 0;
    assert uri[0..] == uri;
    assert Prepend("", StrictDecode(uri)) == StrictDecode(uri) by {
      assert forall p: string :: "" + p == p;
    }
    while i < |uri|
      invariant 0 <= i <= |uri|
      invariant i > 0 ==> path != ""
      invariant StrictDecode(uri) == Prepend(path, StrictDecode(uri[i..]))
    {
      DecodersStep(uri, i);
      if uri[i] == '%' {
        if i + 3 <= |uri| {
          var value := HexPair(uri[i + 1], uri[i + 2]);
          if value.Some? {
            PrependTwice(path, ToByte(value.value), StrictDecode(uri[i + 3..]));
            path := path + [ToByte(value.value)];
            i := i + 2;
          } else {
            return "";
          }
        } else {
          return "";
        }
      } else {
        PrependTwice(path, Plain(uri[i]), StrictDecode(uri[i + 1..]));
        if uri[i] == '+' {
          path := path + [' '];
        } else {
          path := path + [uri[i]];
        }
      }
      i := i + 1;
    }
    assert uri[i..] == "" && path + "" == path;
    var backwards := FindDots(path);
    if backwards {
      path := "";
    } else if path[|path| - 1] == '/' {
      path := path + INDEX;
    }
  }

  method Decode(u: string) returns (out: string)
    ensures out == UrlDecode(u)
  {
    assert UrlDecode("") == "";
    hide UrlDecode, HexPair, GoodEscape;
    out := "";
    var i := 0;
    assert u[0..] == u;
    while i < |u|
      invariant 0 <= i <= |u|
      invariant UrlDecode(u) == out + UrlDecode(u[i..])
    {
      DecodersStep(u, i);
      if u[i] == '%' {
        if i + 3 <= |u| {
          var value := HexPair(u[i + 1], u[i + 2]);
          if value.Some? {
            SnocMoves(out, ToByte(value.value), UrlDecode(u[i + 3..]));
            out := out + [ToByte(value.value)];
            i := i + 2;
          }
        }
      } else {
        SnocMoves(out, Plain(u[i]), UrlDecode(u[i + 1..]));
        if u[i] == '+' {
          out := out + [' '];
        } else {
          out := out + [u[i]];
        }
      }
      i := i + 1;
    }
  }

  lemma SnocMoves(a: string, c: char, b: string)
    ensures a + ([c] + b) == a + [c] + b
  {
  }

  /** Two dots in a row, wherever. */
  lemma DotsIff(p: string)
    ensures HasDots(p) <==> exists a: string, b: string :: p == a + ".." + b
  {
    if i :| 0 <= i < |p| - 1 && p[i] == '.' && p[i + 1] == '.' {
      assert p == p[..i] + ".." + p[i + 2..];
    }
    if a: string, b: string :| p == a + ".." + b {
      assert p[|a|] == '.' && p[|a| + 1] == '.';
    }
  }

  lemma {:induction false} StrictAgreesWithLenient(u: string)
    ensures StrictDecode(u).Some? ==> StrictDecode(u).value == UrlDecode(u)
    ensures u != "" && StrictDecode(u).Some? ==> StrictDecode(u).value != ""
    decreases |u|
  {
    if u != "" {
      if u[0] == '%' {
        if GoodEscape(u) {
          StrictAgreesWithLenient(u[3..]);
        }
      } else {
        StrictAgreesWithLenient(u[1..]);
      }
    }
  }

  lemma IndexAddsNoDots(p: string)
    requires !HasDots(p) && p != "" && p[|p| - 1] == '/'
    ensures !HasDots(p + INDEX)
  {
    var q := p + INDEX;
    forall i | 0 <= i < |q| - 1 ensures !(q[i] == '.' && q[i + 1] == '.') {
      if i < |p| - 1 {
        assert q[i] == p[i] && q[i + 1] == p[i + 1];
      } else if i >= |p| {
        assert q[i] == INDEX[i - |p|] && q[i + 1] == INDEX[i + 1 - |p|];
      }
    }
  }

  /** The derived path is empty exactly when the URI has a bad escape or decodes to something with
      two dots in a row; otherwise it is the other decoder's result, completed with index.html when
      it names a directory, and it never contains two dots in a row. */
  lemma PathDerivation(u: string)
    requires u != ""
    ensures PathOf(u) == "" <==> StrictDecode(u).None? || HasDots(UrlDecode(u))
    ensures !HasDots(PathOf(u))
    ensures PathOf(u) != "" ==>
              var p := UrlDecode(u);
              p != "" && PathOf(u) == if p[|p| - 1] == '/' then p + "index.html" else p
  {
    StrictAgreesWithLenient(u);
    if StrictDecode(u).Some? {
      var p := StrictDecode(u).value;
      if !HasDots(p) && p[|p| - 1] == '/' {
        IndexAddsNoDots(p);
      }
    }
  }

  /* ---------- the decoders undo percent-encoding ---------- */

  function HexChar(n: nat): char
    requires n < 16
  {
    if n < 10 then ('0' as int + n) as char else ('A' as int + n - 10) as char
  }

  predicate IsByte(c: char) { c as int < 256 }

  function HighDigit(c: char): (n: nat)
    requires IsByte(c)
    ensures n < 16
  {
    c as nat / 16
  }

  function LowDigit(c: char): (n: nat)
    ensures n < 16
  {
    c as nat % 16
  }

  /** Every character as a percent sign and two hex digits. */
  function Escaped(s: string): string
    requires forall i :: 0 <= i < |s| ==> IsByte(s[i])
  {
    if s == "" then ""
    else ['%', HexChar(HighDigit(s[0])), HexChar(LowDigit(s[0]))] + Escaped(s[1..])
  }

  lemma HexPairReads(c: char)
    requires IsByte(c)
    ensures HexPair(HexChar(HighDigit(c)), HexChar(LowDigit(c))) == Some(c as int)
    ensures ToByte(c as int) == c
  {
    var hi, lo := HighDigit(c), LowDigit(c);
    assert HexDigit(HexChar(hi)) == hi && HexDigit(HexChar(lo)) == lo;
    assert 16 * hi + lo == c as nat;
  }

  /** Both decoders give back any text of which every byte was escaped. */
  lemma {:induction false} EscapedDecodes(s: string)
    requires forall i :: 0 <= i < |s| ==> IsByte(s[i])
    ensures StrictDecode(Escaped(s)) == Some(s) && UrlDecode(Escaped(s)) == s
  {
    if s != "" {
      hide HexPair, ToByte, HexChar;
      HexPairReads(s[0]);
      EscapedDecodes(s[1..]);
      var u := Escaped(s);
      assert u[3..] == Escaped(s[1..]);
      assert [s[0]] + s[1..] == s;
    }
  }

  /* ---------- any mix of plain and escaped characters ---------- */

  const LOWER := "0123456789abcdef"
  const UPPER := "0123456789ABCDEF"

  /** How one character of a path can be written in a URI: as itself, as a plus sign for a space, or
      as a percent sign and two hex digits, each in either case. */
  datatype Written = Itself(c: char) | PlusSign | Escape(high: nat, low: nat, upperHigh: bool, upperLow: bool)

  predicate Proper(w: Written) {
    match w
    case Itself(c) => c != '%' && c != '+'
    case PlusSign => true
    case Escape(high, low, _, _) => high < 16 && low < 16
  }

  function Digit(n: nat, upper: bool): char
    requires n < 16
  {
    if upper then UPPER[n] else LOWER[n]
  }

  function WrittenText(w: Written): string
    requires Proper(w)
  {
    match w
    case Itself(c) => [c]
    case PlusSign => "+"
    case Escape(high, low, uh, ul) => ['%', Digit(high, uh), Digit(low, ul)]
  }

  function WrittenChar(w: Written): char
    requires Proper(w)
  {
    match w
    case Itself(c) => c
    case PlusSign => ' '
    case Escape(high, low, _, _) => (16 * high + low) as char
  }

  ghost predicate AllProper(ws: seq<Written>) {
    forall i :: 0 <= i < |ws| ==> Proper(ws[i])
  }

  function Texts(ws: seq<Written>): string
    requires AllProper(ws)
  {
    if ws == [] then "" else WrittenText(ws[0]) + Texts(ws[1..])
  }

  function Meanings(ws: seq<Written>): string
    requires AllProper(ws)
  {
    if ws == [] then "" else [WrittenChar(ws[0])] + Meanings(ws[1..])
  }

  lemma DigitReads(n: nat, upper: bool)
    requires n < 16
    ensures IsHex(Digit(n, upper)) && HexDigit(Digit(n, upper)) == n
    ensures !IsSpace(Digit(n, upper)) && Digit(n, upper) != '+' && Digit(n, upper) != '-'
  {
    assert n < 10 ==> LOWER[n] as int == '0' as int + n && UPPER[n] == LOWER[n];
    assert n >= 10 ==> LOWER[n] as int == 'a' as int + (n - 10) && UPPER[n] as int == 'A' as int + (n - 10);
  }

  lemma EscapeReads(high: nat, low: nat, uh: bool, ul: bool)
    requires high < 16 && low < 16
    ensures HexPair(Digit(high, uh), Digit(low, ul)) == Some(16 * high + low)
    ensures ToByte(16 * high + low) == (16 * high + low) as char
  {
    DigitReads(high, uh);
    DigitReads(low, ul);
  }

  /** Escapes that are no two digits: a sign or a blank before one digit is read with it, a minus sign
      wrapping around; a digit before anything else is read alone, but for 0 before an x; and nothing
      else is a number. */
  lemma OddEscapes(n: nat, upper: bool, c: char)
    requires n < 16
    ensures HexPair('+', Digit(n, upper)) == HexPair(' ', Digit(n, upper)) == Some(n)
    ensures HexPair('-', Digit(n, upper)) == Some(0 - n) && ToByte(0 - n) as int == (256 - n) % 256
    ensures !IsHex(c) ==> HexPair(Digit(n, upper), c) == if n == 0 && (c == 'x' || c == 'X') then None else Some(n)
    ensures !IsHex(c) ==> HexPair('+', c) == None && HexPair('-', c) == None && HexPair(' ', c) == None
    ensures !IsHex(c) && c != '+' && c != '-' && !IsSpace(c) ==> HexPair(c, Digit(n, upper)) == None
  {
    DigitReads(n, upper);
    assert Digit(n, upper) == '0' <==> n == 0;
  }

  lemma OneDecodes(w: Written, rest: string)
    requires Proper(w)
    ensures StrictDecode(WrittenText(w) + rest) == Prepend([WrittenChar(w)], StrictDecode(rest))
    ensures UrlDecode(WrittenText(w) + rest) == [WrittenChar(w)] + UrlDecode(rest)
  {
    hide StrictDecode, UrlDecode, Digit;
    match w
    case Itself(c) => PlainStep(c, rest);
    case PlusSign => PlainStep('+', rest);
    case Escape(high, low, uh, ul) =>
      EscapeReads(high, low, uh, ul);
      EscapeStep(Digit(high, uh), Digit(low, ul), rest);
  }

  lemma EscapeStep(a: char, b: char, rest: string)
    requires HexPair(a, b).Some?
    ensures var c := ToByte(HexPair(a, b).value);
            && StrictDecode(['%', a, b] + rest) == Prepend([c], StrictDecode(rest))
            && UrlDecode(['%', a, b] + rest) == [c] + UrlDecode(rest)
  {
    hide HexPair, ToByte;
    assert (['%', a, b] + rest)[3..] == rest;
  }

  /** Both decoders give back any text, however its characters were written. */
  lemma {:induction false} MixedDecodes(ws: seq<Written>)
    requires AllProper(ws)
    ensures StrictDecode(Texts(ws)) == Some(Meanings(ws)) && UrlDecode(Texts(ws)) == Meanings(ws)
  {
    if ws != [] {
      MixedDecodes(ws[1..]);
      OneDecodes(ws[0], Texts(ws[1..]));
    }
  }

  /** A percent sign without two characters behind it that read as a hex number makes the request
      parser give up on the whole path, and is left out by the other decoder. */
  lemma BadEscape(before: string, u: string)
    requires '%' !in before && (|u| < 2 || HexPair(u[0], u[1]).None?)
    ensures StrictDecode(before + "%" + u) == None
    ensures UrlDecode(before + "%" + u) == UrlDecode(before + u)
    decreases |before|
  {
    hide StrictDecode, UrlDecode, HexPair, Plain;
    if before == "" {
      BadStep(u);
      assert before + "%" + u == ['%'] + u && before + u == u;
    } else {
      var c, more := before[0], before[1..];
      PlainStep(c, more + "%" + u);
      PlainStep(c, more + u);
      assert before + "%" + u == [c] + (more + "%" + u) && before + u == [c] + (more + u);
      BadEscape(more, u);
    }
  }

  lemma PlainStep(c: char, rest: string)
    requires c != '%'
    ensures StrictDecode([c] + rest) == Prepend([Plain(c)], StrictDecode(rest))
    ensures UrlDecode([c] + rest) == [Plain(c)] + UrlDecode(rest)
  {
    assert ([c] + rest)[1..] == rest;
  }

  lemma BadStep(u: string)
    requires |u| < 2 || HexPair(u[0], u[1]).None?
    ensures StrictDecode(['%'] + u) == None && UrlDecode(['%'] + u) == UrlDecode(u)
  {
    hide HexPair;
    assert (['%'] + u)[1..] == u;
  }
}
