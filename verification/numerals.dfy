/** Decimal numerals as the two languages read them: Python's `int(str)`
    (surrounding whitespace, a sign, digits with single underscores between
    them, and the interpreter's default limit of 4300 digits) and
    JavaScript's `parseInt(str, 10)` (leading whitespace, a sign, then the
    longest run of digits, ignoring whatever follows). Only ASCII digits are
    modelled. */
module Numerals {
  import opened Results
  import opened Text

  /** `sys.int_info.default_max_str_digits`. */
  const MaxStrDigits: nat := 4300

  function DigitValue(c: char): (v: nat)
    requires IsAsciiDigit(c)
    ensures v < 10
  {
    c as int - '0' as int
  }

  function DigitChar(v: nat): (c: char)
    requires v < 10
    ensures IsAsciiDigit(c) && DigitValue(c) == v
  {
    (v + '0' as int) as char
  }

  /** The number a string of decimal digits spells, most significant first. */
  function DecimalValue(s: string): nat
    requires AllAsciiDigits(s)
    decreases |s|
  {
    if |s| == 0 then 0 else 10 * DecimalValue(s[..|s| - 1]) + DigitValue(s[|s| - 1])
  }

  /** `str(n)` for a natural number: no leading zero except for 0 itself. */
  function DecimalString(n: nat): (s: string)
    ensures |s| > 0 && AllAsciiDigits(s)
    ensures s[0] == '0' ==> n == 0
    decreases n
  {
    if n < 10 then [DigitChar(n)] else DecimalString(n / 10) + [DigitChar(n % 10)]
  }

  lemma {:induction false} DecimalRoundTrip(n: nat)
    ensures DecimalValue(DecimalString(n)) == n
    decreases n
  {
    if n >= 10 {
      var s := DecimalString(n);
      assert s[..|s| - 1] == DecimalString(n / 10);
      DecimalRoundTrip(n / 10);
    }
  }

  // ------------------------------------------------------------- Python int()

  /** The digit run after the sign: its length and how many digits it holds,
      or the verdict that an underscore is doubled or closes the run. */
  datatype Scan = Run(len: nat, digits: nat) | BadUnderscore

  function ScanDigits(u: string, afterUnderscore: bool): (r: Scan)
    ensures r.Run? ==> r.digits <= r.len <= |u|
    ensures r.Run? ==> forall i :: 0 <= i < r.len ==> IsAsciiDigit(u[i]) || u[i] == '_'
    ensures r.Run? && r.len < |u| ==> !IsAsciiDigit(u[r.len]) && u[r.len] != '_'
    decreases |u|
  {
    if |u| > 0 && IsAsciiDigit(u[0]) then
      match ScanDigits(u[1..], false)
      case Run(n, d) => Run(n + 1, d + 1)
      case BadUnderscore => BadUnderscore
    else if |u| > 0 && u[0] == '_' then
      if afterUnderscore then BadUnderscore
      else
        match ScanDigits(u[1..], true)
        case Run(n, d) => Run(n + 1, d)
        case BadUnderscore => BadUnderscore
    else if afterUnderscore then BadUnderscore
    else Run(0, 0)
  }

  predicate AllPySpace(s: string)
  {
    forall i :: 0 <= i < |s| ==> PyUnicodeSpace(s[i])
  }

  /** A leading sign: whether it is a minus, and the rest. */
  function SplitSign(t: string): (r: (bool, string))
    ensures r.0 ==> |t| > 0 && t[0] == '-'
    ensures r.1 == if |t| > 0 && (t[0] == '-' || t[0] == '+') then t[1..] else t
  {
    if |t| > 0 && t[0] == '-' then (true, t[1..])
    else if |t| > 0 && t[0] == '+' then (false, t[1..])
    else (false, t)
  }

  /** What `int()` makes of the text after the sign. */
  function PyUnsigned(u: string): (r: Result<nat>)
    ensures r.Err? ==> r.cause == InvalidIntLiteral || r.cause == IntTooLong
  {
    if |u| > 0 && u[0] == '_' then Err(InvalidIntLiteral)
    else
      match ScanDigits(u, false)
      case BadUnderscore => Err(InvalidIntLiteral)
      case Run(n, d) =>
        if d > MaxStrDigits then Err(IntTooLong)
        else if d == 0 || !AllPySpace(u[n..]) then Err(InvalidIntLiteral)
        else Ok(DecimalValue(Filter(u[..n], IsAsciiDigit)))
  }

  /** Python's `int(s)` in base 10. */
  function PyInt(s: string): (r: Result<int>)
    ensures r.Err? ==> r.cause == InvalidIntLiteral || r.cause == IntTooLong
  {
    PySigned(TrimStart(s, PyUnicodeSpace))
  }

  /** `int()` once leading whitespace is gone. */
  function PySigned(t: string): (r: Result<int>)
    ensures r.Err? ==> r.cause == InvalidIntLiteral || r.cause == IntTooLong
  {
    var (negative, u) := SplitSign(t);
    var v :- PyUnsigned(u);
    Ok(if negative then -(v as int) else v)
  }

  lemma {:induction false} ScanOfDigits(u: string)
    requires AllAsciiDigits(u)
    ensures ScanDigits(u, false) == Run(|u|, |u|)
    decreases |u|
  {
    if |u| > 0 {
      ScanOfDigits(u[1..]);
    }
  }

  lemma {:induction false} FilterOfDigits(u: string)
    requires AllAsciiDigits(u)
    ensures Filter(u, IsAsciiDigit) == u
    decreases |u|
  {
    if |u| > 0 {
      FilterOfDigits(u[1..]);
      assert [u[0]] + u[1..] == u;
    }
  }

  lemma {:induction false} ScanAppend(s: string, tail: string)
    requires AllAsciiDigits(s)
    requires |tail| > 0 && !IsAsciiDigit(tail[0]) && tail[0] != '_'
    ensures ScanDigits(s + tail, false) == Run(|s|, |s|)
    decreases |s|
  {
    if |s| == 0 {
      assert s + tail == tail;
    } else {
      assert (s + tail)[1..] == s[1..] + tail;
      ScanAppend(s[1..], tail);
    }
  }

  /** Digits followed only by whitespace read as their value, within the limit. */
  lemma PyUnsignedOfDigits(s: string, tail: string)
    requires PyIsDigitString(s) && AllPySpace(tail)
    ensures PyUnsigned(s + tail) == if |s| > MaxStrDigits then Err(IntTooLong) else Ok(DecimalValue(s))
  {
    var u := s + tail;
    assert u[0] == s[0];
    if |tail| == 0 {
      assert u == s;
      ScanOfDigits(s);
    } else {
      assert !IsAsciiDigit(tail[0]) && tail[0] != '_' by {
        assert PyUnicodeSpace(tail[0]);
      }
      ScanAppend(s, tail);
    }
    assert u[..|s|] == s && u[|s|..] == tail;
    FilterOfDigits(s);
  }

  lemma TrimStartAtNonSpace(s: string)
    requires |s| > 0 && !PyUnicodeSpace(s[0])
    ensures TrimStart(s, PyUnicodeSpace) == s
  {
  }

  /** On a plain digit string, `int()` gives its value, unless the string is
      longer than the digit limit. */
  lemma PyIntOfDigits(s: string)
    requires PyIsDigitString(s)
    ensures PyInt(s) == if |s| > MaxStrDigits then Err(IntTooLong) else Ok(DecimalValue(s))
  {
    assert !PyUnicodeSpace(s[0]);
    TrimStartAtNonSpace(s);
    assert SplitSign(s) == (false, s);
    PyUnsignedOfDigits(s, "");
    assert s + "" == s;
  }

  /** `int(str(n)) == n`. */
  lemma PyIntRoundTrip(n: nat)
    requires |DecimalString(n)| <= MaxStrDigits
    ensures PyInt(DecimalString(n)) == Ok(n)
  {
    PyIntOfDigits(DecimalString(n));
    DecimalRoundTrip(n);
  }

  /** Leading whitespace does not change what `int()` reads. */
  lemma PyIntSkipsSpace(s: string)
    requires |s| > 0 && PyUnicodeSpace(s[0])
    ensures PyInt(s) == PyInt(s[1..])
  {
    var t := TrimStart(s[1..], PyUnicodeSpace);
    assert TrimStart(s, PyUnicodeSpace) == t;
    assert PyInt(s) == PySigned(t);
  }

  /** After a minus sign the value read is negated. */
  lemma PyIntMinus(t: string, v: nat)
    requires |t| > 0 && t[0] == '-' && PyUnsigned(t[1..]) == Ok(v)
    ensures PyInt(t) == Ok(-(v as int))
  {
    TrimStartAtNonSpace(t);
    assert SplitSign(t) == (true, t[1..]);
  }

  /** A minus sign negates whatever the unsigned numeral after it reads as. */
  lemma PyIntNegative(s: string, v: nat)
    requires PyUnsigned(s) == Ok(v)
    ensures PyInt("-" + s) == Ok(-(v as int))
  {
    var t := "-" + s;
    assert t[1..] == s;
    PyIntMinus(t, v);
  }

  /** Text that starts with neither whitespace nor a sign is read as it is. */
  lemma PyIntUnsigned(t: string)
    requires |t| > 0 && !PyUnicodeSpace(t[0]) && t[0] != '-' && t[0] != '+'
    ensures PyUnsigned(t).Ok? ==> PyInt(t) == Ok(PyUnsigned(t).value)
    ensures PyUnsigned(t).Err? ==> PyInt(t) == Err(PyUnsigned(t).cause)
  {
    TrimStartAtNonSpace(t);
    assert SplitSign(t) == (false, t);
  }

  /** Underscores are accepted only singly and between digits. */
  lemma PyIntUnderscores()
    ensures PyInt("1_0") == Ok(10)
    ensures PyInt("1__0") == Err(InvalidIntLiteral)
    ensures PyInt("10_") == Err(InvalidIntLiteral)
  {
    SingleUnderscore();
    PyIntUnsigned("1_0");
    DoubledUnderscore();
    PyIntUnsigned("1__0");
    TrailingUnderscore();
    PyIntUnsigned("10_");
  }

  lemma SingleUnderscore()
    ensures PyUnsigned("1_0") == Ok(10)
  {
    var u := "1_0";
    assert u[1..] == "_0" && u[1..][1..] == "0" && "0"[1..] == "";
    assert ScanDigits("", false) == Run(0, 0);
    assert ScanDigits("0", true) == Run(1, 1);
    assert "_0"[1..] == "0";
    assert ScanDigits("_0", false) == Run(2, 1);
    assert ScanDigits(u, false) == Run(3, 2);
    assert u[..3] == u && u[3..] == "";
    assert Filter(u, IsAsciiDigit) == "10" by {
      assert Filter("", IsAsciiDigit) == "";
      assert Filter("0", IsAsciiDigit) == "0";
      assert Filter("_0", IsAsciiDigit) == "0";
    }
    assert "10"[..1] == "1";
    assert DecimalValue("10") == 10;
  }

  lemma DoubledUnderscore()
    ensures PyUnsigned("1__0") == Err(InvalidIntLiteral)
  {
    var u := "1__0";
    assert u[1..] == "__0" && u[1..][1..] == "_0";
    assert ScanDigits("_0", true) == BadUnderscore;
    assert ScanDigits("__0", false) == BadUnderscore;
  }

  lemma TrailingUnderscore()
    ensures PyUnsigned("10_") == Err(InvalidIntLiteral)
  {
    var u := "10_";
    assert u[1..] == "0_" && u[1..][1..] == "_" && "_"[1..] == "";
    assert ScanDigits("", true) == BadUnderscore;
    assert ScanDigits("_", false) == BadUnderscore;
    assert ScanDigits("0_", false) == BadUnderscore;
  }

  // ------------------------------------------------------ JavaScript parseInt

  /** A Number as far as these routines use one: NaN, or an integer with its
      sign kept apart so that -0 is representable. */
  datatype JsNumber = NaN | Integral(negative: bool, magnitude: nat)

  /** The longest prefix of ASCII digits. */
  function DigitPrefix(u: string): (d: string)
    ensures |d| <= |u| && d == u[..|d|] && AllAsciiDigits(d)
    ensures |d| < |u| ==> !IsAsciiDigit(u[|d|])
    decreases |u|
  {
    if |u| > 0 && IsAsciiDigit(u[0]) then [u[0]] + DigitPrefix(u[1..]) else ""
  }

  /** `parseInt(s, 10)`. */
  function JsParseInt(s: string): (n: JsNumber)
  {
    JsParseTrimmed(TrimStart(s, JsWhiteSpace))
  }

  /** `parseInt` once leading whitespace is gone. */
  function JsParseTrimmed(t: string): (n: JsNumber)
  {
    var negative := |t| > 0 && t[0] == '-';
    var u := if |t| > 0 && (t[0] == '-' || t[0] == '+') then t[1..] else t;
    var d := DigitPrefix(u);
    if |d| == 0 then NaN else Integral(negative, DecimalValue(d))
  }

  /** Largest array index plus one (section 10.4.2 of ECMA-262). */
  const ArrayIndexBound: nat := 0xFFFF_FFFF

  /** The array element a Number selects when used as a property key: its
      string form must be a canonical array index, which -0 ("0") is and
      NaN, negative numbers and numbers from 2^32 - 1 up are not. */
  function ArrayIndex(n: JsNumber): (i: Option<nat>)
    ensures i.Some? ==> i.value < ArrayIndexBound
    ensures i.Some? <==> n.Integral? && (n.magnitude == 0 || (!n.negative && n.magnitude < ArrayIndexBound))
  {
    match n
    case NaN => None
    case Integral(neg, m) =>
      if m == 0 then Some(0)
      else if neg || m >= ArrayIndexBound then None
      else Some(m)
  }

  lemma {:induction false} DigitPrefixOfDigits(u: string)
    requires AllAsciiDigits(u)
    ensures DigitPrefix(u) == u
    decreases |u|
  {
    if |u| > 0 {
      DigitPrefixOfDigits(u[1..]);
      assert [u[0]] + u[1..] == u;
    }
  }

  /** On a plain digit string within the limit the two parsers agree. */
  lemma JsParseIntOfDigits(s: string)
    requires PyIsDigitString(s)
    ensures JsParseInt(s) == Integral(false, DecimalValue(s))
  {
    assert !JsWhiteSpace(s[0]);
    assert TrimStart(s, JsWhiteSpace) == s;
    DigitPrefixOfDigits(s);
  }

  lemma ParsersAgreeOnDigits(s: string)
    requires PyIsDigitString(s) && |s| <= MaxStrDigits
    ensures PyInt(s) == Ok(DecimalValue(s))
    ensures JsParseInt(s) == Integral(false, DecimalValue(s))
  {
    PyIntOfDigits(s);
    JsParseIntOfDigits(s);
  }

  /** Where they part: `parseInt` stops at the first non-digit, where
      Python's `int()` rejects a trailing letter ... */
  lemma TrailingLetterDiverges()
    ensures PyInt("7x") == Err(InvalidIntLiteral)
    ensures JsParseInt("7x") == Integral(false, 7)
  {
    PyIntTrailingLetter();
    JsStopsAtLetter();
  }

  /** ... and reads on past an underscore between digits. */
  lemma UnderscoreDiverges()
    ensures PyInt("1_0") == Ok(10)
    ensures JsParseInt("1_0") == Integral(false, 1)
  {
    PyIntUnderscores();
    JsStopsAtUnderscore();
  }

  lemma JsStopsAtLetter()
    ensures JsParseInt("7x") == Integral(false, 7)
  {
    var s := ['7'] + "x";
    assert s == "7x";
    JsStopsAfterDigit('7', "x");
    assert JsParseInt(s) == Integral(false, 7);
  }

  lemma JsStopsAtUnderscore()
    ensures JsParseInt("1_0") == Integral(false, 1)
  {
    var s := ['1'] + "_0";
    assert s == "1_0";
    JsStopsAfterDigit('1', "_0");
    assert JsParseInt(s) == Integral(false, 1);
  }

  /** `parseInt` of one digit followed by a non-digit is that digit. */
  lemma JsStopsAfterDigit(c: char, rest: string)
    requires IsAsciiDigit(c)
    requires |rest| > 0 ==> !IsAsciiDigit(rest[0])
    ensures JsParseInt([c] + rest) == Integral(false, DigitValue(c))
  {
    var d := [c];
    assert DecimalValue(d) == DigitValue(c) by {
      assert d[..0] == "";
    }
    assert PyIsDigitString(d);
    JsParseStops(d, rest);
  }

  lemma PyIntTrailingLetter()
    ensures PyInt("7x") == Err(InvalidIntLiteral)
  {
    assert "7" + "x" == "7x";
    ScanAppend("7", "x");
    assert "7x"[1..] == "x" && !PyUnicodeSpace('x');
    assert !AllPySpace("x");
    assert PyUnsigned("7x") == Err(InvalidIntLiteral);
    PyIntUnsigned("7x");
  }

  /** `parseInt` reads a run of digits and ignores whatever follows it, so
      long as that does not begin with another digit. */
  lemma {:induction false} JsParseStops(d: string, rest: string)
    requires PyIsDigitString(d)
    requires |rest| > 0 ==> !IsAsciiDigit(rest[0])
    ensures JsParseInt(d + rest) == Integral(false, DecimalValue(d))
  {
    assert "" + d + rest == d + rest;
    assert (d + rest)[0] == d[0];
    JsParseAtDigit(d + rest);
    JsParseTrimmedOf("", d, rest);
  }

  /** Text that starts with a digit has no whitespace to skip. */
  lemma {:induction false} JsParseAtDigit(s: string)
    requires |s| > 0 && IsAsciiDigit(s[0])
    ensures JsParseInt(s) == JsParseTrimmed(s)
  {
    assert !JsWhiteSpace(s[0]);
  }

  /** `parseInt(s, 10)` on every input that reads as a number: leading
      whitespace, an optional sign, then a run of digits that stops at the
      first non-digit. */
  lemma {:induction false} JsParseIntOf(ws: string, sign: string, d: string, rest: string)
    requires forall i :: 0 <= i < |ws| ==> JsWhiteSpace(ws[i])
    requires sign == "" || sign == "+" || sign == "-"
    requires PyIsDigitString(d)
    requires |rest| > 0 ==> !IsAsciiDigit(rest[0])
    ensures JsParseInt(ws + sign + d + rest) == Integral(sign == "-", DecimalValue(d))
  {
    var t := sign + d + rest;
    assert ws + sign + d + rest == ws + t;
    assert t[0] == if sign == "" then d[0] else sign[0];
    TrimStartOfPadded(ws, t, JsWhiteSpace);
    JsParseTrimmedOf(sign, d, rest);
  }

  lemma {:induction false} JsParseTrimmedOf(sign: string, d: string, rest: string)
    requires sign == "" || sign == "+" || sign == "-"
    requires PyIsDigitString(d)
    requires |rest| > 0 ==> !IsAsciiDigit(rest[0])
    ensures JsParseTrimmed(sign + d + rest) == Integral(sign == "-", DecimalValue(d))
  {
    var t := sign + d + rest;
    if sign == "" {
      assert t == d + rest && t[0] == d[0];
    } else {
      assert t[0] == sign[0] && t[1..] == d + rest;
    }
    DigitPrefixOfRun(d, rest);
  }

  /** ... and on every input that does not: after the whitespace and an
      optional sign no digit follows, and the result is NaN. */
  lemma {:induction false} JsParseIntNaN(ws: string, sign: string, rest: string)
    requires forall i :: 0 <= i < |ws| ==> JsWhiteSpace(ws[i])
    requires sign == "" || sign == "+" || sign == "-"
    requires |rest| > 0 ==> !IsAsciiDigit(rest[0])
    requires sign == "" && |rest| > 0 ==> rest[0] != '+' && rest[0] != '-' && !JsWhiteSpace(rest[0])
    ensures JsParseInt(ws + sign + rest) == NaN
  {
    var t := sign + rest;
    assert ws + sign + rest == ws + t;
    if sign != "" {
      assert t[0] == sign[0];
    }
    TrimStartOfPadded(ws, t, JsWhiteSpace);
    var u := if |t| > 0 && (t[0] == '-' || t[0] == '+') then t[1..] else t;
    assert u == rest;
  }

  /** The digit prefix of a run of digits followed by a non-digit is the run. */
  lemma {:induction false} DigitPrefixOfRun(d: string, rest: string)
    requires AllAsciiDigits(d)
    requires |rest| > 0 ==> !IsAsciiDigit(rest[0])
    ensures DigitPrefix(d + rest) == d
    decreases |d|
  {
    if |d| == 0 {
      assert d + rest == rest;
    } else {
      assert (d + rest)[0] == d[0];
      assert (d + rest)[1..] == d[1..] + rest;
      DigitPrefixOfRun(d[1..], rest);
      assert [d[0]] + d[1..] == d;
    }
  }

  /** "-1" reads as -1 in both languages. */
  lemma MinusOne()
    ensures PyInt("-1") == Ok(-1)
    ensures JsParseInt("-1") == Integral(true, 1)
  {
    PyMinusOne();
    JsMinusOne();
  }

  lemma PyMinusOne()
    ensures PyInt("-1") == Ok(-1)
  {
    PyUnsignedOfDigits("1", "");
    assert "1" + "" == "1";
    PyIntNegative("1", 1);
    assert "-" + "1" == "-1";
  }

  lemma JsMinusOne()
    ensures JsParseInt("-1") == Integral(true, 1)
  {
    assert !JsWhiteSpace("-1"[0]);
    assert TrimStart("-1", JsWhiteSpace) == "-1";
    assert "-1"[1..] == "1";
    DigitPrefixOfDigits("1");
    assert DecimalValue("1") == 1 by {
      assert "1"[..0] == "";
    }
    assert JsParseTrimmed("-1") == Integral(true, DecimalValue("1"));
  }

  // ------------------------------------------------- canonical index keys

  /** A property key that names an array element: the canonical decimal
      form of an index below 2^32 - 1 (no sign, no leading zero). */
  function CanonicalIndex(key: string): (r: Option<nat>)
    ensures r.Some? ==> r.value < ArrayIndexBound && key == DecimalString(r.value)
  {
    if PyIsDigitString(key) && (key[0] != '0' || |key| == 1) && DecimalValue(key) < ArrayIndexBound then
      DecimalStringOfValue(key);
      Some(DecimalValue(key))
    else None
  }

  /** Every index below the bound is named by its decimal form. */
  lemma CanonicalIndexOfString(n: nat)
    requires n < ArrayIndexBound
    ensures CanonicalIndex(DecimalString(n)) == Some(n)
  {
    DecimalRoundTrip(n);
  }

  lemma {:induction false} LeadingDigitPositive(s: string)
    requires PyIsDigitString(s) && s[0] != '0'
    ensures DecimalValue(s) > 0
    decreases |s|
  {
    if |s| > 1 {
      LeadingDigitPositive(s[..|s| - 1]);
    }
  }

  /** A digit string without a leading zero is the decimal form of its value. */
  lemma {:induction false} DecimalStringOfValue(s: string)
    requires PyIsDigitString(s) && (s[0] != '0' || |s| == 1)
    ensures DecimalString(DecimalValue(s)) == s
    decreases |s|
  {
    if |s| > 1 {
      var p := s[..|s| - 1];
      LeadingDigitPositive(p);
      DecimalStringOfValue(p);
      var n := DecimalValue(s);
      assert n / 10 == DecimalValue(p) && n % 10 == DigitValue(s[|s| - 1]);
      assert s == p + [s[|s| - 1]];
    }
  }
}
