/**
 * Decimal text of integers: Go's `strconv.Atoi`, `strconv.Itoa`,
 * `strconv.ParseBool` and the errors they return, and the `%.2f` rendering
 * of a value kept in hundredths.
 */
module Decimal {
  import opened Wrappers

  const MinInt64: int := -0x8000_0000_0000_0000
  const MaxInt64: int := 0x7fff_ffff_ffff_ffff

  predicate IsDigit(c: char) { '0' <= c <= '9' }

  predicate AllDigits(s: string)
  {
    forall i :: 0 <= i < |s| ==> IsDigit(s[i])
  }

  function DigitChar(d: nat): (c: char)
    requires d < 10
    ensures IsDigit(c) && (c as int) - ('0' as int) == d
  {
    (('0' as int) + d) as char
  }

  /** Value of a string of decimal digits, most significant first (leading zeros allowed). */
  function DigitsValue(s: string): nat
    requires AllDigits(s)
  {
    if |s| == 0 then 0
    else 10 * DigitsValue(s[..|s| - 1]) + ((s[|s| - 1] as int) - ('0' as int))
  }

  /** Shortest decimal digits of a natural number. */
  function Digits(n: nat): (s: string)
    ensures |s| > 0 && AllDigits(s)
    ensures DigitsValue(s) == n
  {
    if n < 10 then [DigitChar(n)]
    else
      var s := Digits(n / 10) + [DigitChar(n % 10)];
      assert s[..|s| - 1] == Digits(n / 10);
      s
  }

  /** The text after one leading sign, if there is one. */
  function Unsigned(s: string): (body: string)
    ensures |body| <= |s| && (|body| == |s| || |body| + 1 == |s|)
  {
    if |s| > 0 && (s[0] == '-' || s[0] == '+') then s[1..] else s
  }

  /** An optional sign followed by at least one digit; the value is not bounded. */
  function ParseDecimal(s: string): (r: Option<int>)
  {
    if |s| == 0 then None
    else
      var body := Unsigned(s);
      if |body| == 0 || !AllDigits(body) then None
      else
        var v: int := DigitsValue(body);
        if s[0] == '-' then Some(-v) else Some(v)
  }

  /** `strconv.Itoa`, and the decimal rendering used for integer keys. */
  function Itoa(n: int): (s: string)
    ensures |s| > 0 && (n >= 0 ==> AllDigits(s)) && (n < 0 ==> s[0] == '-' && AllDigits(s[1..]))
  {
    if n < 0 then
      var s := "-" + Digits(-n);
      assert s[1..] == Digits(-n);
      s
    else Digits(n)
  }

  /** `Itoa` text reads back to the same number. */
  lemma {:induction false} ParseItoa(n: int)
    ensures ParseDecimal(Itoa(n)) == Some(n)
  {
    if n < 0 {
      assert Itoa(n)[1..] == Digits(-n);
    }
  }

  /**
   * `strconv.Atoi` on a 64-bit platform: an optional sign and decimal digits
   * whose value fits in an int64; anything else is a syntax or range error.
   */
  function Atoi(s: string): (r: Option<int>)
    ensures r.Some? ==> MinInt64 <= r.value <= MaxInt64
    ensures r.Some? ==> ParseDecimal(s) == r
  {
    match ParseDecimal(s)
    case None => None
    case Some(v) => if MinInt64 <= v <= MaxInt64 then Some(v) else None
  }

  /** Every int64 survives `Itoa` then `Atoi`. */
  lemma AtoiItoa(n: int)
    requires MinInt64 <= n <= MaxInt64
    ensures Atoi(Itoa(n)) == Some(n)
  {
    ParseItoa(n);
  }

  /** Text outside int64 range is refused even when it is well-formed. */
  lemma AtoiRange(s: string)
    requires ParseDecimal(s).Some?
    ensures Atoi(s).None? <==> ParseDecimal(s).value < MinInt64 || MaxInt64 < ParseDecimal(s).value
  {
  }

  const MaxUint64: int := 0xffff_ffff_ffff_ffff

  /** The run of digits a string starts with. */
  function DigitPrefix(s: string): (p: string)
    ensures |p| <= |s| && p == s[..|p|] && AllDigits(p)
    ensures |p| < |s| ==> !IsDigit(s[|p|])
  {
    if |s| == 0 || !IsDigit(s[0]) then ""
    else
      var p := [s[0]] + DigitPrefix(s[1..]);
      assert p[1..] == DigitPrefix(s[1..]);
      p
  }

  /** A digit string of length n stands for less than 10^n. */
  function Pow10(n: nat): (r: nat)
    ensures r >= 1
  {
    if n == 0 then 1 else 10 * Pow10(n - 1)
  }

  lemma {:induction false} DigitsValueBelow(s: string)
    requires AllDigits(s)
    ensures DigitsValue(s) < Pow10(|s|)
    decreases |s|
  {
    if |s| > 0 {
      DigitsValueBelow(s[..|s| - 1]);
    }
  }

  /** The two kinds of `*strconv.NumError`. */
  datatype NumErrorKind = SyntaxError | RangeError

  /**
   * The kind `strconv.Atoi` reports for text it refuses. `ParseUint` stops
   * with a range error as soon as the digits read so far exceed the uint64
   * range, before it looks at a later bad character; well-formed text
   * outside the int64 range is a range error of `ParseInt`; anything else
   * is a syntax error.
   */
  function AtoiErrorKind(s: string): NumErrorKind
  {
    if ParseDecimal(s).Some? || DigitsValue(DigitPrefix(Unsigned(s))) > MaxUint64 then RangeError
    else SyntaxError
  }

  /** Well-formed text of fewer than 19 characters always fits in an int64. */
  lemma {:induction false} ShortTextInRange(s: string)
    requires |s| < 19 && ParseDecimal(s).Some?
    ensures Atoi(s).Some?
  {
    var body := Unsigned(s);
    var p := DigitPrefix(body);
    assert p == body;
    DigitsValueBelow(body);
    PowMonotone(|body|, 18);
    Pow10Eighteen();
  }

  /**
   * Text of fewer than 19 characters takes `Atoi`'s fast path, which never
   * reports a range error.
   */
  lemma {:induction false} ShortTextSyntaxError(s: string)
    requires |s| < 19 && Atoi(s).None?
    ensures AtoiErrorKind(s) == SyntaxError
  {
    if ParseDecimal(s).Some? {
      ShortTextInRange(s);
      assert false;
    }
    var p := DigitPrefix(Unsigned(s));
    DigitsValueBelow(p);
    PowMonotone(|p|, 18);
    Pow10Eighteen();
  }

  lemma Pow10Eighteen()
    ensures Pow10(18) == 1_000_000_000_000_000_000
  {
    assert Pow10(3) == 1000;
    assert Pow10(6) == 1000 * Pow10(3);
    assert Pow10(9) == 1000 * Pow10(6);
    assert Pow10(12) == 1000 * Pow10(9);
    assert Pow10(15) == 1000 * Pow10(12);
    assert Pow10(18) == 1000 * Pow10(15);
  }

  lemma {:induction false} PowMonotone(m: nat, n: nat)
    requires m <= n
    ensures Pow10(m) <= Pow10(n)
    decreases n
  {
    if m < n {
      PowMonotone(m, n - 1);
    }
  }

  /** Digits `strconv` writes as `\xHH`. */
  function HexDigit(d: nat): (c: char)
    requires d < 16
  {
    if d < 10 then DigitChar(d) else (('a' as int) + d - 10) as char
  }

  /**
   * How `strconv.Quote` writes one character: a backslash before `"` and
   * `\`, the named escapes for the seven C control characters, `\xHH` for
   * the other ASCII control characters, and every other character as it is.
   */
  function EscapeChar(c: char): (e: string)
    ensures |e| >= 1
    ensures (c == '"' || c == '\\') <==> e == ['\\', c]
  {
    var n := c as int;
    if c == '"' || c == '\\' then ['\\', c]
    else if n == 7 then "\\a"
    else if n == 8 then "\\b"
    else if n == 12 then "\\f"
    else if n == 10 then "\\n"
    else if n == 13 then "\\r"
    else if n == 9 then "\\t"
    else if n == 11 then "\\v"
    else if n < 0x20 || n == 0x7f then "\\x" + [HexDigit(n / 16), HexDigit(n % 16)]
    else [c]
  }

  /** A character `strconv.Quote` copies unchanged. */
  predicate Plain(c: char)
  {
    c != '"' && c != '\\' && 0x20 <= c as int && c as int != 0x7f
  }

  function Escaped(s: string): string
  {
    if |s| == 0 then "" else EscapeChar(s[0]) + Escaped(s[1..])
  }

  /** `strconv.Quote`. */
  function Quote(s: string): (q: string)
    ensures |q| >= |s| + 2 && q[0] == '"' && q[|q| - 1] == '"'
  {
    EscapedLength(s);
    "\"" + Escaped(s) + "\""
  }

  lemma {:induction false} EscapedLength(s: string)
    ensures |Escaped(s)| >= |s|
  {
    if |s| > 0 {
      EscapedLength(s[1..]);
    }
  }

  /** Text made of plain characters is quoted by wrapping it in `"`. */
  lemma {:induction false} EscapedPlain(s: string)
    requires forall i :: 0 <= i < |s| ==> Plain(s[i])
    ensures Escaped(s) == s
  {
    if |s| > 0 {
      EscapedPlain(s[1..]);
      assert [s[0]] + s[1..] == s;
    }
  }

  lemma QuotePlain(s: string)
    requires forall i :: 0 <= i < |s| ==> Plain(s[i])
    ensures Quote(s) == "\"" + s + "\""
  {
    EscapedPlain(s);
  }

  function NumErrorText(kind: NumErrorKind): string
  {
    match kind
    case SyntaxError => "invalid syntax"
    case RangeError => "value out of range"
  }

  /** `(*strconv.NumError).Error()`: `strconv.<func>: parsing <quoted text>: <kind>`. */
  function NumError(func: string, s: string, kind: NumErrorKind): string
  {
    "strconv." + func + ": parsing " + Quote(s) + ": " + NumErrorText(kind)
  }

  /** The error `strconv.Atoi` returns for text it refuses. */
  function AtoiError(s: string): string
  {
    NumError("Atoi", s, AtoiErrorKind(s))
  }

  /** The error `strconv.ParseBool` returns for text it refuses. */
  function ParseBoolError(s: string): string
  {
    NumError("ParseBool", s, SyntaxError)
  }

  /** `strconv.ParseBool`. */
  function ParseBool(s: string): (r: Option<bool>)
    ensures r == Some(true) <==> s in {"1", "t", "T", "TRUE", "true", "True"}
    ensures r == Some(false) <==> s in {"0", "f", "F", "FALSE", "false", "False"}
    ensures r.Some? ==> s != ""
  {
    if s in {"1", "t", "T", "TRUE", "true", "True"} then Some(true)
    else if s in {"0", "f", "F", "FALSE", "false", "False"} then Some(false)
    else None
  }

  /** `strconv.FormatBool`, whose output ParseBool reads back. */
  function FormatBool(b: bool): (s: string)
    ensures ParseBool(s) == Some(b)
  {
    if b then "true" else "false"
  }

  /** Two digits of a remainder below 100, with a leading zero. */
  function TwoDigits(d: nat): (s: string)
    requires d < 100
    ensures |s| == 2 && AllDigits(s) && DigitsValue(s) == d
  {
    var s := [DigitChar(d / 10), DigitChar(d % 10)];
    assert s[..1] == [DigitChar(d / 10)];
    assert s[..1][..0] == [];
    assert DigitsValue(s[..1]) == d / 10;
    s
  }

  /** `%.2f` of a value held exactly as a whole number of hundredths. */
  function FormatHundredths(h: int): (s: string)
    ensures |s| >= 4
  {
    var m := if h < 0 then -h else h;
    (if h < 0 then "-" else "") + Digits(m / 100) + "." + TwoDigits(m % 100)
  }

  /** Reads `[-]digits.dd` back into hundredths. */
  function ParseHundredths(s: string): (r: Option<int>)
  {
    if |s| < 4 || s[|s| - 3] != '.' then None
    else
      var whole := s[..|s| - 3];
      var frac := s[|s| - 2..];
      var neg := |whole| > 0 && whole[0] == '-';
      var digits := if neg then whole[1..] else whole;
      if |digits| == 0 || !AllDigits(digits) || !AllDigits(frac) then None
      else
        var m := 100 * DigitsValue(digits) + DigitsValue(frac);
        Some(if neg then -m else m)
  }

  /** Where the decimal point and the two fraction digits sit in `whole.dd`. */
  lemma SplitAtPoint(whole: string, tw: string)
    requires |tw| == 2
    ensures var s := whole + "." + tw;
            |s| == |whole| + 3 && s[..|s| - 3] == whole && s[|s| - 2..] == tw && s[|s| - 3] == '.'
  {
    var s := whole + "." + tw;
    assert s[..|s| - 3] == whole;
    assert s[|s| - 2..] == tw;
  }

  lemma DivMod100(m: nat)
    ensures 100 * (m / 100) + m % 100 == m
  {
  }

  /** Reading `[-]ds.tw` for digit strings `ds` (non-empty) and `tw` (two digits). */
  lemma {:induction false} ParseSigned(neg: bool, ds: string, tw: string)
    requires |ds| > 0 && AllDigits(ds) && |tw| == 2 && AllDigits(tw)
    ensures var m := 100 * DigitsValue(ds) + DigitsValue(tw);
            ParseHundredths((if neg then "-" else "") + ds + "." + tw) == Some(if neg then -m else m)
  {
    var whole := (if neg then "-" else "") + ds;
    SplitAtPoint(whole, tw);
    if neg {
      assert whole[1..] == ds;
    } else {
      assert whole == ds;
      assert IsDigit(ds[0]);
    }
  }

  /** `%.2f` text reads back to the same number of hundredths. */
  lemma {:induction false} ParseFormatHundredths(h: int)
    ensures ParseHundredths(FormatHundredths(h)) == Some(h)
  {
    var m: nat := if h < 0 then -h else h;
    var ds, tw := Digits(m / 100), TwoDigits(m % 100);
    var x := (if h < 0 then "-" else "") + ds + "." + tw;
    assert FormatHundredths(h) == x;
    assert ParseHundredths(x) == Some(h) by {
      ParseSigned(h < 0, ds, tw);
      DivMod100(m);
    }
  }
}
