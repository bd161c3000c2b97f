/**
 The two conversions between text and numbers the counter widget relies on:
 the global `parseInt(string)` called without a radix (section 19.2.5 of
 ECMA-262), which turns the step input's text into the step, and the
 Number-to-String conversion (section 6.1.6.1.20 of ECMA-262) restricted to
 integers and NaN, which renders the counter and the step as text.
 */
module JsText {
  import opened JsNumber

  /** StrWhiteSpaceChar of ECMA-262: WhiteSpace (including every Zs code point) or LineTerminator. */
  predicate IsWhiteSpace(c: char) {
    || c == '\t' || c == '\n' || c == '\U{000B}' || c == '\U{000C}' || c == '\r' || c == ' '
    || c == '\U{00A0}' || c == '\U{1680}' || ('\U{2000}' <= c <= '\U{200A}')
    || c == '\U{2028}' || c == '\U{2029}' || c == '\U{202F}' || c == '\U{205F}'
    || c == '\U{3000}' || c == '\U{FEFF}'
  }

  predicate IsDecimalDigit(c: char) {
    '0' <= c <= '9'
  }

  /** The value of `c` as a digit of radix-36 notation (case-insensitive), or 36 when it is none. */
  function DigitValue(c: char): (d: nat)
    ensures d <= 36
    ensures d < 10 <==> IsDecimalDigit(c)
  {
    if '0' <= c <= '9' then c as int - '0' as int
    else if 'a' <= c <= 'z' then c as int - 'a' as int + 10
    else if 'A' <= c <= 'Z' then c as int - 'A' as int + 10
    else 36
  }

  predicate IsDigitOf(c: char, radix: nat) {
    DigitValue(c) < radix
  }

  /** What is left of `s` once its leading white space is removed. */
  function TrimStart(s: string): (r: string)
    ensures |r| <= |s|
    ensures r == [] || !IsWhiteSpace(r[0])
  {
    if s != [] && IsWhiteSpace(s[0]) then TrimStart(s[1..]) else s
  }

  /** The length of the longest prefix of `s` made of radix-`radix` digits. */
  function DigitRun(s: string, radix: nat): (n: nat)
    ensures n <= |s|
    ensures n < |s| ==> !IsDigitOf(s[n], radix)
  {
    if s == [] || !IsDigitOf(s[0], radix) then 0 else 1 + DigitRun(s[1..], radix)
  }

  /** The mathematical value of the digit string `ds` in radix `radix`, most significant digit first. */
  function ValueOf(ds: string, radix: nat): nat {
    if ds == [] then 0 else ValueOf(ds[..|ds| - 1], radix) * radix + DigitValue(ds[|ds| - 1])
  }

  /** A `0x` or `0X` prefix, which makes `parseInt` without a radix read hexadecimal digits. */
  predicate HasHexPrefix(s: string) {
    |s| >= 2 && s[0] == '0' && (s[1] == 'x' || s[1] == 'X')
  }

  /** The longest run of radix-`radix` digits at the start of `body`, as a number; NaN when it is empty. */
  function ReadDigits(body: string, radix: nat): Num {
    var n := DigitRun(body, radix);
    if n == 0 then Invalid else Int(ValueOf(body[..n], radix))
  }

  /**
   The digits part of `parseInt` once white space and sign are gone: a `0x`
   or `0X` prefix switches to radix 16. Whatever follows the digits is ignored.
   */
  function ParseUnsigned(s: string): (r: Num)
    ensures r.Int? ==> s != [] && IsDecimalDigit(s[0])
  {
    if HasHexPrefix(s) then ReadDigits(s[2..], 16) else ReadDigits(s, 10)
  }

  /** JavaScript unary minus on numbers: NaN stays NaN. */
  function Negate(x: Num): Num {
    match x
    case Int(n) => Int(-n)
    case Invalid => Invalid
  }

  /** The part of `parseInt` after white space is skipped: an optional sign, then the digits. */
  function ParseSigned(s: string): (r: Num)
    ensures r.Int? ==> exists i :: 0 <= i < |s| && IsDecimalDigit(s[i])
  {
    if s != [] && s[0] == '-' then Negate(ParseUnsigned(s[1..]))
    else if s != [] && s[0] == '+' then ParseUnsigned(s[1..])
    else ParseUnsigned(s)
  }

  /**
   `parseInt(text)` with no radix: skip leading white space, then read a
   signed number. A number, rather than NaN, comes only out of a text that
   holds a decimal digit.
   */
  function ParseInt(text: string): (r: Num)
    ensures r.Int? ==> exists i :: 0 <= i < |text| && IsDecimalDigit(text[i])
  {
    TrimStartIsSuffix(text);
    ParseSigned(TrimStart(text))
  }

  function DigitChar(d: nat): (c: char)
    requires d < 10
    ensures IsDecimalDigit(c) && DigitValue(c) == d
  {
    (d + '0' as int) as char
  }

  /** The shortest decimal notation of `n`: no sign, no leading zero. */
  function DecimalDigits(n: nat): (r: string)
    ensures |r| > 0
  {
    if n < 10 then [DigitChar(n)] else DecimalDigits(n / 10) + [DigitChar(n % 10)]
  }

  /** `String(n)` for an integer `n`: a minus sign for negative values, then the decimal digits. */
  function IntToText(n: int): string {
    if n < 0 then "-" + DecimalDigits(-n) else DecimalDigits(n)
  }

  /** `String(x)` for a number the widget can hold. */
  function NumberToText(x: Num): string {
    match x
    case Int(n) => IntToText(n)
    case Invalid => "NaN"
  }

  /** Trimming white space leaves a suffix of the text. */
  lemma {:induction false} TrimStartIsSuffix(s: string)
    ensures TrimStart(s) == s[|s| - |TrimStart(s)|..]
  {
    if s != [] && IsWhiteSpace(s[0]) {
      TrimStartIsSuffix(s[1..]);
    }
  }

  /** The decimal text of `n` is made of decimal digits and starts with `0` only when it is `"0"`. */
  lemma {:induction false} DecimalDigitsShape(n: nat)
    ensures forall i :: 0 <= i < |DecimalDigits(n)| ==> IsDecimalDigit(DecimalDigits(n)[i])
    ensures DecimalDigits(n)[0] == '0' ==> n == 0 && |DecimalDigits(n)| == 1
  {
    if n >= 10 {
      DecimalDigitsShape(n / 10);
    }
  }

  /** The decimal digits of `n` read back give `n`. */
  lemma {:induction false} ValueOfDecimalDigits(n: nat)
    ensures ValueOf(DecimalDigits(n), 10) == n
  {
    var ds := DecimalDigits(n);
    if n >= 10 {
      ValueOfDecimalDigits(n / 10);
      assert ds[..|ds| - 1] == DecimalDigits(n / 10);
    } else {
      assert ds[..|ds| - 1] == [];
    }
  }

  /** The digit run stops exactly where the digits of `ds` end. */
  lemma {:induction false} DigitRunOfPrefix(ds: string, rest: string, radix: nat)
    requires forall i :: 0 <= i < |ds| ==> IsDigitOf(ds[i], radix)
    requires rest == [] || !IsDigitOf(rest[0], radix)
    ensures DigitRun(ds + rest, radix) == |ds|
  {
    if ds != [] {
      assert (ds + rest)[1..] == ds[1..] + rest;
      DigitRunOfPrefix(ds[1..], rest, radix);
    } else {
      assert ds + rest == rest;
    }
  }

  /** A text that does not start with white space is left as it is. */
  lemma TrimStartKeeps(s: string)
    requires s == [] || !IsWhiteSpace(s[0])
    ensures TrimStart(s) == s
  {
  }

  /** Leading white space never changes what remains after it is trimmed. */
  lemma {:induction false} TrimStartSkipsWhiteSpace(ws: string, s: string)
    requires forall i :: 0 <= i < |ws| ==> IsWhiteSpace(ws[i])
    ensures TrimStart(ws + s) == TrimStart(s)
  {
    if ws != [] {
      assert (ws + s)[1..] == ws[1..] + s;
      TrimStartSkipsWhiteSpace(ws[1..], s);
    } else {
      assert ws + s == s;
    }
  }

  /** A run of digits followed by a non-digit reads as the value of the run. */
  lemma ReadDigitsOfPrefix(ds: string, rest: string, radix: nat)
    requires ds != []
    requires forall i :: 0 <= i < |ds| ==> IsDigitOf(ds[i], radix)
    requires rest == [] || !IsDigitOf(rest[0], radix)
    ensures ReadDigits(ds + rest, radix) == Int(ValueOf(ds, radix))
  {
    DigitRunOfPrefix(ds, rest, radix);
    assert (ds + rest)[..|ds|] == ds;
  }

  /**
   `parseInt` reads back the decimal text of any integer, and stops at the
   first character after it that is not a decimal digit, so `"12.7"` and
   `"12abc"` give 12. The one exception is `"0"` followed by `x` or `X`,
   which `parseInt` takes as the hexadecimal prefix.
   */
  lemma ParseIntReadsIntToText(n: int, rest: string)
    requires rest == [] || !IsDecimalDigit(rest[0])
    requires n == 0 ==> rest == [] || (rest[0] != 'x' && rest[0] != 'X')
    ensures ParseInt(IntToText(n) + rest) == Int(n)
  {
    if n < 0 {
      ParseIntReadsNegative(n, rest);
    } else {
      ParseUnsignedReadsDecimalDigits(n, rest);
      ParseIntUnsigned(DecimalDigits(n) + rest);
    }
  }

  /** The text of a negative integer, then a non-digit, parses to that integer. */
  lemma ParseIntReadsNegative(n: int, rest: string)
    requires n < 0
    requires rest == [] || !IsDecimalDigit(rest[0])
    ensures ParseInt(IntToText(n) + rest) == Int(n)
  {
    assert IntToText(n) == "-" + DecimalDigits(-n);
    ParseIntNegative(DecimalDigits(-n), rest);
    ParseUnsignedReadsDecimalDigits(-n, rest);
  }

  /** The digits of a natural number followed by a non-digit read back as that number. */
  lemma ParseUnsignedReadsDecimalDigits(m: nat, rest: string)
    requires rest == [] || !IsDecimalDigit(rest[0])
    requires m == 0 ==> rest == [] || (rest[0] != 'x' && rest[0] != 'X')
    ensures ParseUnsigned(DecimalDigits(m) + rest) == Int(m)
  {
    var ds := DecimalDigits(m);
    DecimalDigitsShape(m);
    assert !HasHexPrefix(ds + rest) by {
      if |ds + rest| >= 2 && ds[0] == '0' {
        assert (ds + rest)[1] == rest[0];
      }
    }
    assert forall i :: 0 <= i < |ds| ==> IsDigitOf(ds[i], 10);
    ReadDigitsOfPrefix(ds, rest, 10);
    ValueOfDecimalDigits(m);
  }

  /** A minus sign followed by some text parses to the negation of what that text reads as. */
  lemma ParseIntNegative(ds: string, rest: string)
    ensures ParseInt("-" + ds + rest) == Negate(ParseUnsigned(ds + rest))
  {
    var s := "-" + ds + rest;
    TrimStartKeeps(s);
    assert s[1..] == ds + rest;
  }

  /** Text starting with a decimal digit parses without any sign. */
  lemma ParseIntUnsigned(s: string)
    requires s != [] && IsDecimalDigit(s[0])
    ensures ParseInt(s) == ParseUnsigned(s)
  {
    TrimStartKeeps(s);
  }

  /** The text `String(n)` of any integer parses back to `n`. */
  lemma ParseIntToTextRoundTrip(n: int)
    ensures ParseInt(IntToText(n)) == Int(n)
  {
    ParseIntReadsIntToText(n, []);
    assert IntToText(n) + [] == IntToText(n);
  }

  /** Leading white space does not change what `parseInt` yields. */
  lemma ParseIntSkipsWhiteSpace(ws: string, text: string)
    requires forall i :: 0 <= i < |ws| ==> IsWhiteSpace(ws[i])
    ensures ParseInt(ws + text) == ParseInt(text)
  {
    TrimStartSkipsWhiteSpace(ws, text);
  }

  /** Unsigned text that does not start with a decimal digit holds no number. */
  lemma ParseUnsignedWithoutLeadingDigit(s: string)
    requires s == [] || !IsDecimalDigit(s[0])
    ensures ParseUnsigned(s) == Invalid
  {
    if s != [] {
      assert !IsDigitOf(s[0], 10);
    }
  }

  /** A text holding no decimal digit at all, the empty text included, parses to NaN. */
  lemma ParseIntWithoutDigitIsInvalid(text: string)
    requires forall i :: 0 <= i < |text| ==> !IsDecimalDigit(text[i])
    ensures ParseInt(text) == Invalid
  {
    var s := TrimStart(text);
    var k := |text| - |s|;
    TrimStartIsSuffix(text);
    if s != [] && (s[0] == '-' || s[0] == '+') {
      assert s[1..] == [] || s[1..][0] == text[k + 1];
      ParseUnsignedWithoutLeadingDigit(s[1..]);
    } else {
      assert s == [] || s[0] == text[k];
      ParseUnsignedWithoutLeadingDigit(s);
    }
  }
}
