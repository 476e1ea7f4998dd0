/** Character classes the Python and JavaScript routines test against. */
module Text {

  predicate IsAsciiDigit(c: char)
  {
    '0' <= c <= '9'
  }

  predicate IsAsciiLetter(c: char)
  {
    'a' <= c <= 'z' || 'A' <= c <= 'Z'
  }

  predicate IsAscii(s: string)
  {
    forall i :: 0 <= i < |s| ==> s[i] as int < 0x80
  }

  predicate AllAsciiDigits(s: string)
  {
    forall i :: 0 <= i < |s| ==> IsAsciiDigit(s[i])
  }

  /** `str.isdigit()` restricted to ASCII: non-empty and every character a digit. */
  predicate PyIsDigitString(s: string)
  {
    |s| > 0 && AllAsciiDigits(s)
  }

  /** Python's `Py_ISSPACE`: the six ASCII whitespace characters. */
  predicate PyAsciiSpace(c: char)
  {
    c == ' ' || c == '\t' || c == '\n' || c == '\r' || c == '\U{000B}' || c == '\U{000C}'
  }

  /** Python's `str.isspace()` for one character (the characters that `int()`
      treats as surrounding whitespace). */
  predicate PyUnicodeSpace(c: char)
  {
    || ('\U{0009}' <= c <= '\U{000D}')
    || ('\U{001C}' <= c <= '\U{0020}')
    || c == '\U{0085}' || c == '\U{00A0}' || c == '\U{1680}'
    || ('\U{2000}' <= c <= '\U{200A}')
    || c == '\U{2028}' || c == '\U{2029}' || c == '\U{202F}' || c == '\U{205F}' || c == '\U{3000}'
  }

  /** ECMAScript WhiteSpace and LineTerminator code points (what `parseInt`
      skips before the number). */
  predicate JsWhiteSpace(c: char)
  {
    || c == '\U{0009}' || c == '\U{000A}' || c == '\U{000B}' || c == '\U{000C}' || c == '\U{000D}'
    || c == '\U{0020}' || c == '\U{00A0}' || c == '\U{1680}'
    || ('\U{2000}' <= c <= '\U{200A}')
    || c == '\U{2028}' || c == '\U{2029}' || c == '\U{202F}' || c == '\U{205F}' || c == '\U{3000}'
    || c == '\U{FEFF}'
  }

  /** Drops the longest prefix whose characters all satisfy `p`. */
  function TrimStart(s: string, p: char -> bool): (r: string)
    ensures |r| <= |s| && r == s[|s| - |r|..]
    ensures |r| > 0 ==> !p(r[0])
    ensures forall i :: 0 <= i < |s| - |r| ==> p(s[i])
    decreases |s|
  {
    if |s| > 0 && p(s[0]) then TrimStart(s[1..], p) else s
  }

  /** Drops the longest suffix whose characters all satisfy `p`. */
  function TrimEnd(s: string, p: char -> bool): (r: string)
    ensures |r| <= |s| && r == s[..|r|]
    ensures |r| > 0 ==> !p(r[|r| - 1])
    ensures forall i :: |r| <= i < |s| ==> p(s[i])
    decreases |s|
  {
    if |s| > 0 && p(s[|s| - 1]) then TrimEnd(s[..|s| - 1], p) else s
  }

  /** Trimming the front removes exactly a leading run of characters that
      satisfy `p` when what follows does not start with one. */
  lemma {:induction false} TrimStartOfPadded(front: string, u: string, p: char -> bool)
    requires forall j :: 0 <= j < |front| ==> p(front[j])
    requires |u| > 0 ==> !p(u[0])
    ensures TrimStart(front + u, p) == u
    decreases |front|
  {
    if |front| == 0 {
      assert front + u == u;
    } else {
      assert (front + u)[0] == front[0];
      assert (front + u)[1..] == front[1..] + u;
      TrimStartOfPadded(front[1..], u, p);
    }
  }

  /** Trimming the back removes exactly a trailing run of characters that
      satisfy `p` when what precedes does not end with one. */
  lemma {:induction false} TrimEndOfPadded(t: string, back: string, p: char -> bool)
    requires forall j :: 0 <= j < |back| ==> p(back[j])
    requires |t| > 0 ==> !p(t[|t| - 1])
    ensures TrimEnd(t + back, p) == t
    decreases |back|
  {
    if |back| == 0 {
      assert t + back == t;
    } else {
      var s := t + back;
      assert s[|s| - 1] == back[|back| - 1];
      assert s[..|s| - 1] == t + back[..|back| - 1];
      TrimEndOfPadded(t, back[..|back| - 1], p);
    }
  }

  /** Python's `str.strip()` with no argument. */
  function PyStrip(s: string): (r: string)
    ensures |r| <= |s|
    ensures |r| > 0 ==> !PyUnicodeSpace(r[0]) && !PyUnicodeSpace(r[|r| - 1])
  {
    TrimEnd(TrimStart(s, PyUnicodeSpace), PyUnicodeSpace)
  }

  /** Stripping recovers any text whose ends are not whitespace from
      whitespace padding on either side; since every string splits that way
      exactly once, this pins `PyStrip` down on every input. */
  lemma {:induction false} PyStripOfPadded(front: string, t: string, back: string)
    requires forall j :: 0 <= j < |front| ==> PyUnicodeSpace(front[j])
    requires forall j :: 0 <= j < |back| ==> PyUnicodeSpace(back[j])
    requires |t| > 0 ==> !PyUnicodeSpace(t[0]) && !PyUnicodeSpace(t[|t| - 1])
    ensures PyStrip(front + t + back) == t
  {
    assert front + t + back == front + (t + back);
    if |t| > 0 {
      assert (t + back)[0] == t[0];
      TrimStartOfPadded(front, t + back, PyUnicodeSpace);
      TrimEndOfPadded(t, back, PyUnicodeSpace);
    } else {
      assert t + back == back;
      var all := front + back;
      assert forall j :: 0 <= j < |all| ==> PyUnicodeSpace(all[j]) by {
        forall j | 0 <= j < |all| ensures PyUnicodeSpace(all[j]) {
          if j >= |front| {
            assert all[j] == back[j - |front|];
          }
        }
      }
      TrimStartOfPadded(all, "", PyUnicodeSpace);
      assert all + "" == all;
      TrimEndOfPadded("", "", PyUnicodeSpace);
    }
  }

  /** Keeps the characters satisfying `p`, in order. */
  function Filter(s: string, p: char -> bool): (r: string)
    ensures |r| <= |s|
    ensures forall i :: 0 <= i < |r| ==> p(r[i])
    ensures forall c :: c in s && p(c) ==> c in r
    ensures forall c :: c in r ==> c in s
    decreases |s|
  {
    if |s| == 0 then ""
    else if p(s[0]) then [s[0]] + Filter(s[1..], p)
    else Filter(s[1..], p)
  }

  /** The UTF-16 code units of one character: itself below U+10000, a
      surrogate pair above (section 6.1.4 of ECMA-262). */
  function CharUnits(c: char): (u: seq<int>)
    ensures |u| == if c as int < 0x10000 then 1 else 2
    ensures c as int < 0x10000 ==> u == [c as int]
    ensures c as int >= 0x10000 ==>
              0xD800 <= u[0] < 0xDC00 && 0xDC00 <= u[1] < 0xE000
              && (u[0] - 0xD800) * 0x400 + (u[1] - 0xDC00) + 0x10000 == c as int
  {
    if c as int < 0x10000 then [c as int]
    else
      var v := c as int - 0x10000;
      [0xD800 + v / 0x400, 0xDC00 + v % 0x400]
  }

  /** A JavaScript string's code units, the sequence `.length` counts. */
  function Utf16(s: string): (u: seq<int>)
    ensures |u| >= |s|
    ensures forall i :: 0 <= i < |u| ==> 0 <= u[i] < 0x10000
    decreases |s|
  {
    if |s| == 0 then [] else CharUnits(s[0]) + Utf16(s[1..])
  }

  /** Text below U+10000 has one code unit per character, the character's own. */
  lemma {:induction false} Utf16OfBmp(s: string)
    requires forall i :: 0 <= i < |s| ==> s[i] as int < 0x10000
    ensures |Utf16(s)| == |s|
    ensures forall i :: 0 <= i < |s| ==> Utf16(s)[i] == s[i] as int
    decreases |s|
  {
    if |s| > 0 {
      Utf16OfBmp(s[1..]);
      assert forall i :: 1 <= i < |s| ==> Utf16(s)[i] == Utf16(s[1..])[i - 1];
    }
  }

  /** `"".join(ps)`: the strings one after another. */
  function Concat(ps: seq<string>): string
    decreases |ps|
  {
    if |ps| == 0 then "" else ps[0] + Concat(ps[1..])
  }

  /** Joining splits at any point. */
  lemma {:induction false} ConcatAppend(a: seq<string>, b: seq<string>)
    ensures Concat(a + b) == Concat(a) + Concat(b)
    decreases |a|
  {
    if |a| == 0 {
      assert a + b == b;
    } else {
      assert (a + b)[1..] == a[1..] + b;
      ConcatAppend(a[1..], b);
    }
  }

  /** Character-by-character reversal. */
  function Reverse<T>(s: seq<T>): (r: seq<T>)
    ensures |r| == |s|
    ensures forall i :: 0 <= i < |s| ==> r[i] == s[|s| - 1 - i]
    decreases |s|
  {
    if |s| == 0 then [] else Reverse(s[1..]) + [s[0]]
  }

  /** Filtering distributes over concatenation. */
  lemma {:induction false} FilterAppend(a: string, b: string, p: char -> bool)
    ensures Filter(a + b, p) == Filter(a, p) + Filter(b, p)
    decreases |a|
  {
    if |a| == 0 {
      assert a + b == b;
    } else {
      assert (a + b)[0] == a[0];
      assert (a + b)[1..] == a[1..] + b;
      FilterAppend(a[1..], b, p);
    }
  }

  /** Filtering drops a string none of whose characters pass. */
  lemma {:induction false} FilterDropsAll(s: string, p: char -> bool)
    requires forall i :: 0 <= i < |s| ==> !p(s[i])
    ensures Filter(s, p) == ""
    decreases |s|
  {
    if |s| > 0 {
      FilterDropsAll(s[1..], p);
    }
  }

  /** Reversal turns a concatenation around. */
  lemma ReverseAppend<T>(a: seq<T>, b: seq<T>)
    ensures Reverse(a + b) == Reverse(b) + Reverse(a)
  {
    assert forall i :: 0 <= i < |a + b| ==> Reverse(a + b)[i] == (Reverse(b) + Reverse(a))[i];
  }

  /** Characters that fail `p`, inserted anywhere, make no difference to
      filtering the reversed text. */
  lemma {:induction false} FilterReverseIgnores(a: string, junk: string, b: string, p: char -> bool)
    requires forall i :: 0 <= i < |junk| ==> !p(junk[i])
    ensures Filter(Reverse(a + junk + b), p) == Filter(Reverse(a + b), p)
  {
    var ra, rj, rb := Reverse(a), Reverse(junk), Reverse(b);
    ReverseThree(a, junk, b);
    assert forall i :: 0 <= i < |rj| ==> rj[i] == junk[|junk| - 1 - i];
    FilterAppend(rb + rj, ra, p);
    FilterJunkAfter(rb, rj, p);
    ReverseAppend(a, b);
    FilterAppend(rb, ra, p);
  }

  lemma ReverseThree<T>(a: seq<T>, junk: seq<T>, b: seq<T>)
    ensures Reverse(a + junk + b) == (Reverse(b) + Reverse(junk)) + Reverse(a)
  {
    ReverseAppend(a + junk, b);
    ReverseAppend(a, junk);
  }

  lemma FilterJunkAfter(s: string, junk: string, p: char -> bool)
    requires forall i :: 0 <= i < |junk| ==> !p(junk[i])
    ensures Filter(s + junk, p) == Filter(s, p)
  {
    FilterAppend(s, junk, p);
    FilterDropsAll(junk, p);
    assert Filter(s, p) + "" == Filter(s, p);
  }

  /** Filtering keeps a string whose characters all pass. */
  lemma {:induction false} FilterKeepsAll(s: string, p: char -> bool)
    requires forall i :: 0 <= i < |s| ==> p(s[i])
    ensures Filter(s, p) == s
    decreases |s|
  {
    if |s| > 0 {
      FilterKeepsAll(s[1..], p);
      assert [s[0]] + s[1..] == s;
    }
  }

  /** Reversal is its own inverse. */
  lemma ReverseReverse<T>(s: seq<T>)
    ensures Reverse(Reverse(s)) == s
  {
    assert forall i :: 0 <= i < |s| ==> Reverse(Reverse(s))[i] == s[i];
  }
}
