/** Definitions shared by the models. */
module Common {

  datatype Option<+T> = None | Some(value: T)

  /** Concatenation of a list of strings. */
  function Flat(parts: seq<string>): string {
    if parts == [] then "" else parts[0] + Flat(parts[1..])
  }

  /** Length of the longest prefix of s made of characters satisfying p. */
  function Span(p: char -> bool, s: string): (n: nat)
    ensures n <= |s|
    ensures forall i :: 0 <= i < n ==> p(s[i])
    ensures n < |s| ==> !p(s[n])
  {
    if s == "" || !p(s[0]) then 0 else 1 + Span(p, s[1..])
  }

  predicate IsDigit(c: char) { '0' <= c <= '9' }

  /** isspace in the C locale. */
  predicate IsSpace(c: char) {
    c == ' ' || '\t' <= c <= '\r'
  }

  /** Value of a decimal numeral, most significant digit first. */
  function Decimal(s: string): nat
    requires forall c :: c in s ==> IsDigit(c)
  {
    if s == "" then 0
    else
      assert IsDigit(s[|s| - 1]) by { assert s[|s| - 1] in s; }
      Decimal(s[..|s| - 1]) * 10 + (s[|s| - 1] as nat - '0' as nat)
  }

  /** Decimal numeral of n without leading zeros. */
  function Numeral(n: nat): (s: string)
    ensures s != "" && forall c :: c in s ==> IsDigit(c)
    ensures Decimal(s) == n
  {
    var d := [('0' as int + n % 10) as char];
    if n < 10 then
      assert d[..0] == "";
      d
    else
      var s := Numeral(n / 10) + d;
      assert s[..|s| - 1] == Numeral(n / 10);
      s
  }

  /* ---------- numbers as the standard library reads them ---------- */

  const TWO_TO_THE_31 := 0x8000_0000
  const TWO_TO_THE_32 := 0x1_0000_0000
  const TWO_TO_THE_64 := 0x1_0000_0000_0000_0000

  type Int32 = n: int | -TWO_TO_THE_31 <= n < TWO_TO_THE_31

  /** Conversion of a wider integer to int: what is left of it modulo 2^32. */
  function ToInt32(n: int): Int32 {
    (n + TWO_TO_THE_31) % TWO_TO_THE_32 - TWO_TO_THE_31
  }

  /** Optional blanks, optional sign, then as many digits as there are; None when there is none.
      Gives the sign and the magnitude. */
  function ReadNumber(s: string): Option<(bool, nat)> {
    var t := s[Span(IsSpace, s)..];
    var signed := t != "" && (t[0] == '-' || t[0] == '+');
    var u := if signed then t[1..] else t;
    var n := Span(IsDigit, u);
    if n == 0 then None else Some((signed && t[0] == '-', Decimal(u[..n])))
  }

  /** std::stoull: None stands for a thrown exception. A minus sign negates modulo 2^64. */
  function StoULL(s: string): Option<nat> {
    match ReadNumber(s)
    case None => None
    case Some((negative, v)) =>
      if v >= TWO_TO_THE_64 then None
      else if negative && v > 0 then Some(TWO_TO_THE_64 - v)
      else Some(v)
  }

  /** std::stoi: None stands for a thrown exception. */
  function Stoi(s: string): Option<Int32> {
    match ReadNumber(s)
    case None => None
    case Some((negative, v)) =>
      var n: int := if negative then 0 - v else v;
      if -TWO_TO_THE_31 <= n < TWO_TO_THE_31 then Some(n) else None
  }

  lemma {:induction false} SpanAll(p: char -> bool, s: string)
    requires forall c :: c in s ==> p(c)
    ensures Span(p, s) == |s|
  {
    if s != "" {
      assert p(s[0]);
      SpanAll(p, s[1..]);
    }
  }

  /** A plain numeral is read as the number it writes. */
  lemma NumeralReads(n: nat)
    ensures ReadNumber(Numeral(n)) == Some((false, n))
  {
    var s := Numeral(n);
    assert IsDigit(s[0]) by { assert s[0] in s; }
    assert Span(IsSpace, s) == 0 && s[0..] == s;
    SpanAll(IsDigit, s);
    assert s[..|s|] == s;
  }

  /** Blanks in the C locale, then maybe a sign, then digits, then anything that is no digit: the
      number is the one the digits write, negative after a minus sign. */
  lemma NumberReads(blanks: string, sign: string, digits: string, rest: string)
    requires forall i :: 0 <= i < |blanks| ==> blanks[i] == ' ' || 9 <= blanks[i] as int <= 13
    requires sign == "" || sign == "+" || sign == "-"
    requires digits != "" && forall c :: c in digits ==> IsDigit(c)
    requires rest != "" ==> !IsDigit(rest[0])
    ensures ReadNumber(blanks + (sign + (digits + rest))) == Some((sign == "-", Decimal(digits)))
  {
    hide Span, Decimal;
    var u := digits + rest;
    var t := sign + u;
    assert IsDigit(digits[0]) && u[0] == digits[0] by { assert digits[0] in digits; }
    AfterBlanks(blanks, t);
    assert t[|sign|..] == u && (sign == "" ==> t == u);
    DigitsSpan(digits, rest);
  }

  lemma AfterBlanks(blanks: string, t: string)
    requires forall i :: 0 <= i < |blanks| ==> blanks[i] == ' ' || 9 <= blanks[i] as int <= 13
    requires t != "" ==> !IsSpace(t[0])
    ensures Span(IsSpace, blanks + t) == |blanks| && (blanks + t)[|blanks|..] == t
  {
    SpanPrefix(IsSpace, blanks, t);
  }

  lemma DigitsSpan(digits: string, rest: string)
    requires forall c :: c in digits ==> IsDigit(c)
    requires rest != "" ==> !IsDigit(rest[0])
    ensures Span(IsDigit, digits + rest) == |digits| && (digits + rest)[..|digits|] == digits
  {
    assert forall i :: 0 <= i < |digits| ==> digits[i] in digits;
    SpanPrefix(IsDigit, digits, rest);
  }

  /** Without a digit after the blanks and the sign there is no number. */
  lemma NoNumberReads(blanks: string, sign: string, rest: string)
    requires forall i :: 0 <= i < |blanks| ==> blanks[i] == ' ' || 9 <= blanks[i] as int <= 13
    requires sign == "" || sign == "+" || sign == "-"
    requires rest != "" ==> !IsDigit(rest[0])
    requires sign == "" && rest != "" ==> !IsSpace(rest[0]) && rest[0] != '+' && rest[0] != '-'
    ensures ReadNumber(blanks + (sign + rest)) == None
  {
    var t := sign + rest;
    AfterBlanks(blanks, t);
    assert t[|sign|..] == rest && (sign == "" ==> t == rest);
  }

  lemma {:induction false} SpanPrefix(p: char -> bool, a: string, rest: string)
    requires forall i :: 0 <= i < |a| ==> p(a[i])
    requires rest != "" ==> !p(rest[0])
    ensures Span(p, a + rest) == |a|
  {
    if a == "" {
      assert a + rest == rest;
    } else {
      assert (a + rest)[1..] == a[1..] + rest;
      SpanPrefix(p, a[1..], rest);
    }
  }

  /** Both conversions throw without a number or out of range; an unsigned one wraps a negative number
      around. */
  lemma NumbersConvert(s: string)
    ensures ReadNumber(s).None? ==> StoULL(s) == None && Stoi(s) == None
    ensures ReadNumber(s).Some? ==>
              var (negative, v) := ReadNumber(s).value;
              && (StoULL(s).None? <==> v > 18446744073709551615)
              && (StoULL(s).Some? ==> StoULL(s).value == if negative && v > 0 then 18446744073709551616 - v else v)
              && (Stoi(s).None? <==> v > 2147483648 || (v == 2147483648 && !negative))
              && (Stoi(s).Some? ==> Stoi(s).value == if negative then 0 - v else v)
  {
  }
}
