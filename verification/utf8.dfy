/** UTF-8 (section 3.9 of the Unicode Standard, Table 3-7) as Python's
    `bytes.decode("utf-8")` reads it: strictly, where the first ill-formed
    sequence raises, and with `errors="ignore"`, where each maximal ill-formed
    subpart is dropped and decoding resumes after it. */
module Utf8 {
  import opened Results
  import opened Bytes
  import opened Text

  predicate IsContinuation(b: byte)
  {
    0x80 <= b < 0xC0
  }

  /** The second byte of a multi-byte sequence has a narrower range after
      E0, ED, F0 and F4 (this is what excludes overlong forms, surrogates
      and code points above U+10FFFF). */
  predicate SecondInRange(lead: byte, b: byte)
  {
    if lead == 0xE0 then 0xA0 <= b < 0xC0
    else if lead == 0xED then 0x80 <= b < 0xA0
    else if lead == 0xF0 then 0x90 <= b < 0xC0
    else if lead == 0xF4 then 0x80 <= b < 0x90
    else IsContinuation(b)
  }

  /** One decoding step at the head of the input: a scalar value and the
      number of bytes it took, or the length of the maximal ill-formed
      subpart that starts there. */
  datatype Step = Scalar(c: char, width: nat) | Invalid(skip: nat)

  function Next(b: seq<byte>): (st: Step)
    requires |b| > 0
    ensures st.Scalar? ==> 1 <= st.width <= |b| && st.width <= 4
    ensures st.Invalid? ==> 1 <= st.skip <= |b| && st.skip <= 3
    ensures st.Scalar? && st.width == 1 <==> b[0] < 0x80
  {
    var b0: int := b[0];
    if b0 < 0x80 then Scalar(b0 as char, 1)
    else if 0xC2 <= b0 < 0xE0 then
      if |b| < 2 || !IsContinuation(b[1]) then Invalid(1)
      else Scalar(((b0 - 0xC0) * 64 + (b[1] as int - 0x80)) as char, 2)
    else if 0xE0 <= b0 < 0xF0 then
      if |b| < 2 || !SecondInRange(b0, b[1]) then Invalid(1)
      else if |b| < 3 || !IsContinuation(b[2]) then Invalid(2)
      else
        var v := (b0 - 0xE0) * 4096 + (b[1] as int - 0x80) * 64 + (b[2] as int - 0x80);
        assert v < 0xD800 || 0xE000 <= v < 0x10000;
        Scalar(v as char, 3)
    else if 0xF0 <= b0 < 0xF5 then
      if |b| < 2 || !SecondInRange(b0, b[1]) then Invalid(1)
      else if |b| < 3 || !IsContinuation(b[2]) then Invalid(2)
      else if |b| < 4 || !IsContinuation(b[3]) then Invalid(3)
      else
        var v := (b0 - 0xF0) * 262144 + (b[1] as int - 0x80) * 4096 + (b[2] as int - 0x80) * 64 + (b[3] as int - 0x80);
        assert 0x10000 <= v < 0x110000;
        Scalar(v as char, 4)
    else Invalid(1)
  }

  /** `bytes.decode("utf-8")`: raises on the first ill-formed sequence. */
  function Decode(b: seq<byte>): (r: Result<string>)
    ensures r.Err? ==> r.cause == InvalidUtf8
    ensures r.Ok? ==> |r.value| <= |b|
    decreases |b|
  {
    if |b| == 0 then Ok("")
    else
      match Next(b)
      case Invalid(_) => Err(InvalidUtf8)
      case Scalar(c, w) =>
        var rest :- Decode(b[w..]);
        Ok([c] + rest)
  }

  /** `bytes.decode("utf-8", errors="ignore")`: never fails. */
  function DecodeIgnore(b: seq<byte>): (s: string)
    ensures |s| <= |b|
    decreases |b|
  {
    if |b| == 0 then ""
    else
      match Next(b)
      case Invalid(k) => DecodeIgnore(b[k..])
      case Scalar(c, w) => [c] + DecodeIgnore(b[w..])
  }

  /** `str.encode("utf-8")` of one scalar value. */
  function EncodeChar(c: char): (e: seq<byte>)
    ensures 1 <= |e| <= 4
  {
    var v := c as int;
    if v < 0x80 then [v]
    else if v < 0x800 then [0xC0 + v / 64, 0x80 + v % 64]
    else if v < 0x10000 then [0xE0 + v / 4096, 0x80 + (v / 64) % 64, 0x80 + v % 64]
    else [0xF0 + v / 262144, 0x80 + (v / 4096) % 64, 0x80 + (v / 64) % 64, 0x80 + v % 64]
  }

  function Encode(s: string): (b: seq<byte>)
    ensures |s| <= |b| <= 4 * |s|
    decreases |s|
  {
    if |s| == 0 then [] else EncodeChar(s[0]) + Encode(s[1..])
  }

  lemma NextOfTwo(c: char, rest: seq<byte>)
    requires 0x80 <= c as int < 0x800
    ensures Next(EncodeChar(c) + rest) == Scalar(c, 2)
  {
    var v := c as int;
    var b := EncodeChar(c) + rest;
    assert b[0] == 0xC0 + v / 64 && b[1] == 0x80 + v % 64;
    assert (b[0] as int - 0xC0) * 64 + (b[1] as int - 0x80) == v;
  }

  lemma NextOfThree(c: char, rest: seq<byte>)
    requires 0x800 <= c as int < 0x10000
    ensures Next(EncodeChar(c) + rest) == Scalar(c, 3)
  {
    var v := c as int;
    var b := EncodeChar(c) + rest;
    var hi, mid, lo := v / 4096, (v / 64) % 64, v % 64;
    assert v == hi * 4096 + mid * 64 + lo by {
      assert v == (v / 64) * 64 + lo;
      assert v / 64 == hi * 64 + mid;
    }
    assert b[0] == 0xE0 + hi && b[1] == 0x80 + mid && b[2] == 0x80 + lo;
    assert SecondInRange(b[0], b[1]);
  }

  lemma NextOfFour(c: char, rest: seq<byte>)
    requires 0x10000 <= c as int
    ensures Next(EncodeChar(c) + rest) == Scalar(c, 4)
  {
    var v := c as int;
    var b := EncodeChar(c) + rest;
    var top, hi, mid, lo := v / 262144, (v / 4096) % 64, (v / 64) % 64, v % 64;
    assert v == top * 262144 + hi * 4096 + mid * 64 + lo by {
      assert v == (v / 64) * 64 + lo;
      assert v / 64 == (v / 4096) * 64 + mid;
      assert v / 4096 == top * 64 + hi;
    }
    assert b[0] == 0xF0 + top && b[1] == 0x80 + hi && b[2] == 0x80 + mid && b[3] == 0x80 + lo;
    assert SecondInRange(b[0], b[1]);
  }

  /** The decoder reads back exactly the character the encoder wrote. */
  lemma NextOfEncoded(c: char, rest: seq<byte>)
    ensures Next(EncodeChar(c) + rest) == Scalar(c, |EncodeChar(c)|)
  {
    var v := c as int;
    if v < 0x80 {
    } else if v < 0x800 {
      NextOfTwo(c, rest);
    } else if v < 0x10000 {
      NextOfThree(c, rest);
    } else {
      NextOfFour(c, rest);
    }
  }

  /** Round trip: strict decoding inverts the encoder. */
  lemma {:induction false} DecodeRoundTrip(s: string)
    ensures Decode(Encode(s)) == Ok(s)
    decreases |s|
  {
    if |s| > 0 {
      var e := EncodeChar(s[0]);
      var b := Encode(s);
      NextOfEncoded(s[0], Encode(s[1..]));
      assert b[|e|..] == Encode(s[1..]);
      DecodeRoundTrip(s[1..]);
      assert [s[0]] + s[1..] == s;
    }
  }

  /** Whenever strict decoding succeeds, ignoring errors changes nothing. */
  lemma {:induction false} IgnoreAgreesWhenValid(b: seq<byte>)
    requires Decode(b).Ok?
    ensures DecodeIgnore(b) == Decode(b).value
    decreases |b|
  {
    if |b| > 0 {
      IgnoreAgreesWhenValid(b[Next(b).width..]);
    }
  }

  predicate IsAsciiBytes(b: seq<byte>)
  {
    forall i :: 0 <= i < |b| ==> b[i] < 0x80
  }

  /** On ASCII bytes both decoders give one character per byte, the same
      characters Latin-1 gives. */
  lemma {:induction false} AsciiDecodes(b: seq<byte>)
    requires IsAsciiBytes(b)
    ensures Decode(b) == Ok(Latin1Decode(b))
    ensures DecodeIgnore(b) == Latin1Decode(b)
    decreases |b|
  {
    if |b| > 0 {
      AsciiDecodes(b[1..]);
      assert Latin1Decode(b) == [b[0] as char] + Latin1Decode(b[1..]);
    }
  }

  /** Strict decoding fails on any ill-formed sequence; ignoring drops it. */
  lemma IllFormedExample()
    ensures Decode([0x41, 0xE2, 0x82, 0x42]) == Err(InvalidUtf8)
    ensures DecodeIgnore([0x41, 0xE2, 0x82, 0x42]) == "AB"
  {
    var b: seq<byte> := [0x41, 0xE2, 0x82, 0x42];
    assert b[1..] == [0xE2, 0x82, 0x42];
    assert Next(b[1..]) == Invalid(2);
    assert b[1..][2..] == [0x42];
    assert [0x42][1..] == [];
    assert DecodeIgnore([0x42]) == "B";
  }
}
