/** Base64 with the standard alphabet (section 4 of RFC 4648): the padded
    encoder, Python's `base64.b64decode` in its default non-strict mode (the
    quantum machine of CPython's `binascii.a2b_base64`), and the browser's
    `atob` (the "forgiving-base64 decode" of the WHATWG Infra standard). */
module Base64 {
  import opened Results
  import opened Bytes
  import opened Text

  predicate IsAlphabetChar(c: char)
  {
    IsAsciiLetter(c) || IsAsciiDigit(c) || c == '+' || c == '/'
  }

  /** The characters the preview scheme keeps: the alphabet and the pad. */
  predicate IsBase64OrPad(c: char)
  {
    IsAlphabetChar(c) || c == '='
  }

  function SextetValue(c: char): (v: int)
    requires IsAlphabetChar(c)
    ensures 0 <= v < 64
  {
    if 'A' <= c <= 'Z' then c as int - 'A' as int
    else if 'a' <= c <= 'z' then c as int - 'a' as int + 26
    else if '0' <= c <= '9' then c as int - '0' as int + 52
    else if c == '+' then 62
    else 63
  }

  function SextetChar(v: int): (c: char)
    requires 0 <= v < 64
    ensures IsAlphabetChar(c) && SextetValue(c) == v
  {
    if v < 26 then (v + 'A' as int) as char
    else if v < 52 then (v - 26 + 'a' as int) as char
    else if v < 62 then (v - 52 + '0' as int) as char
    else if v == 62 then '+'
    else '/'
  }

  predicate AllAlphabet(s: string)
  {
    forall i :: 0 <= i < |s| ==> IsAlphabetChar(s[i])
  }

  // ---------------------------------------------------------------- encoding

  /** Four characters for three bytes. */
  function Quad(b0: byte, b1: byte, b2: byte): (s: string)
    ensures |s| == 4 && AllAlphabet(s)
  {
    [SextetChar(b0 / 4), SextetChar((b0 % 4) * 16 + b1 / 16), SextetChar((b1 % 16) * 4 + b2 / 64), SextetChar(b2 % 64)]
  }

  /** The encoding without its trailing pad characters. */
  function EncodeNoPad(b: seq<byte>): (s: string)
    ensures |s| == 4 * (|b| / 3) + (if |b| % 3 == 0 then 0 else |b| % 3 + 1)
    ensures AllAlphabet(s)
    decreases |b|
  {
    if |b| == 0 then ""
    else if |b| == 1 then [SextetChar(b[0] / 4), SextetChar((b[0] % 4) * 16)]
    else if |b| == 2 then [SextetChar(b[0] / 4), SextetChar((b[0] % 4) * 16 + b[1] / 16), SextetChar((b[1] % 16) * 4)]
    else Quad(b[0], b[1], b[2]) + EncodeNoPad(b[3..])
  }

  function Padding(n: nat): string
  {
    if n % 3 == 1 then "==" else if n % 3 == 2 then "=" else ""
  }

  /** The padded encoding of section 4 of RFC 4648. */
  function Encode(b: seq<byte>): (s: string)
    ensures |s| % 4 == 0
    ensures forall i :: 0 <= i < |s| ==> IsBase64OrPad(s[i])
  {
    EncodeNoPad(b) + Padding(|b|)
  }

  lemma EncodeIsAscii(b: seq<byte>)
    ensures IsAscii(Encode(b))
  {
    var s := Encode(b);
    forall i | 0 <= i < |s| ensures s[i] as int < 0x80 {
      assert IsBase64OrPad(s[i]);
    }
  }

  lemma EncodeStep(b: seq<byte>)
    requires |b| >= 3
    ensures Encode(b) == Quad(b[0], b[1], b[2]) + Encode(b[3..])
  {
    assert Padding(|b|) == Padding(|b[3..]|);
  }

  /** The three bytes a quad stands for are recovered from its sextets. */
  lemma QuadArithmetic(b0: byte, b1: byte, b2: byte)
    ensures var c0, c1, c2, c3 := b0 / 4, (b0 % 4) * 16 + b1 / 16, (b1 % 16) * 4 + b2 / 64, b2 % 64;
      c0 * 4 + c1 / 16 == b0 && (c1 % 16) * 16 + c2 / 4 == b1 && (c2 % 4) * 64 + c3 == b2
  {
    var c1 := (b0 % 4) * 16 + b1 / 16;
    assert c1 / 16 == b0 % 4 && c1 % 16 == b1 / 16;
    var c2 := (b1 % 16) * 4 + b2 / 64;
    assert c2 / 4 == b1 % 16 && c2 % 4 == b2 / 64;
  }

  // ------------------------------------------------- Python, non-strict mode

  /** Whether the bits carried over in `leftchar` fit the quantum position. */
  predicate CarryFits(pos: int, left: int)
  {
    && 0 <= pos < 4 && 0 <= left
    && (pos == 0 ==> left == 0)
    && (pos == 1 ==> left < 64)
    && (pos == 2 ==> left < 16)
    && (pos == 3 ==> left < 4)
  }

  /** CPython's `a2b_base64` loop with `strict_mode` off, one character per
      step: characters outside the alphabet are skipped; a '=' counts as pad
      only once two data characters of the quantum are in, and enough pads
      end the input; leftover data characters at the end raise. */
  function A2b(s: string, pos: int, left: int, pads: nat, out: seq<byte>): (r: Result<seq<byte>>)
    requires CarryFits(pos, left)
    ensures r.Err? ==> r.cause == Base64Length || r.cause == IncorrectPadding
    decreases |s|
  {
    if |s| == 0 then
      if pos == 0 then Ok(out) else if pos == 1 then Err(Base64Length) else Err(IncorrectPadding)
    else if s[0] == '=' then
      if pos >= 2 && pos + pads + 1 >= 4 then Ok(out)
      else A2b(s[1..], pos, left, if pos >= 2 then pads + 1 else pads, out)
    else if !IsAlphabetChar(s[0]) then A2b(s[1..], pos, left, pads, out)
    else
      var v := SextetValue(s[0]);
      if pos == 0 then A2b(s[1..], 1, v, 0, out)
      else if pos == 1 then A2b(s[1..], 2, v % 16, 0, out + [left * 4 + v / 16])
      else if pos == 2 then A2b(s[1..], 3, v % 4, 0, out + [left * 16 + v / 4])
      else A2b(s[1..], 0, 0, 0, out + [left * 64 + v])
  }

  /** `base64.b64decode(s)` for a str argument: it must be ASCII, then runs
      the non-strict quantum machine. */
  function PyB64Decode(s: string): (r: Result<seq<byte>>)
    ensures !IsAscii(s) ==> r == Err(NonAsciiText)
  {
    if !IsAscii(s) then Err(NonAsciiText) else A2b(s, 0, 0, 0, [])
  }

  lemma A2bQuad(b0: byte, b1: byte, b2: byte, rest: string, out: seq<byte>)
    ensures A2b(Quad(b0, b1, b2) + rest, 0, 0, 0, out) == A2b(rest, 0, 0, 0, out + [b0, b1, b2])
  {
    var q := Quad(b0, b1, b2);
    var s := q + rest;
    var c0, c1, c2, c3 := b0 / 4, (b0 % 4) * 16 + b1 / 16, (b1 % 16) * 4 + b2 / 64, b2 % 64;
    QuadArithmetic(b0, b1, b2);
    assert SextetValue(s[0]) == c0 && SextetValue(s[1]) == c1 && SextetValue(s[2]) == c2 && SextetValue(s[3]) == c3;
    assert s[1..][0] == s[1] && s[2..][0] == s[2] && s[3..][0] == s[3];
    assert s[1..][1..] == s[2..] && s[2..][1..] == s[3..] && s[3..][1..] == rest;
    assert A2b(s, 0, 0, 0, out) == A2b(s[1..], 1, c0, 0, out);
    assert A2b(s[1..], 1, c0, 0, out) == A2b(s[2..], 2, c1 % 16, 0, out + [b0]);
    assert A2b(s[2..], 2, c1 % 16, 0, out + [b0]) == A2b(s[3..], 3, c2 % 4, 0, out + [b0] + [b1]);
    assert A2b(s[3..], 3, c2 % 4, 0, out + [b0] + [b1]) == A2b(rest, 0, 0, 0, out + [b0] + [b1] + [b2]);
    assert out + [b0] + [b1] + [b2] == out + [b0, b1, b2];
  }

  lemma A2bFinalOne(b0: byte, out: seq<byte>)
    ensures A2b(Encode([b0]), 0, 0, 0, out) == Ok(out + [b0])
  {
    var s := Encode([b0]);
    var c0, c1 := b0 / 4, (b0 % 4) * 16;
    assert s == [SextetChar(c0), SextetChar(c1), '=', '='];
    QuadArithmetic(b0, 0, 0);
    assert SextetValue(s[0]) == c0 && SextetValue(s[1]) == c1;
    assert s[1..][0] == s[1] && s[1..][1..] == s[2..] && s[2..][1..] == s[3..];
    assert s[2..][0] == '=' && s[3..][0] == '=';
    assert A2b(s, 0, 0, 0, out) == A2b(s[1..], 1, c0, 0, out);
    assert A2b(s[1..], 1, c0, 0, out) == A2b(s[2..], 2, c1 % 16, 0, out + [b0]);
    assert A2b(s[2..], 2, c1 % 16, 0, out + [b0]) == A2b(s[3..], 2, c1 % 16, 1, out + [b0]);
  }

  lemma A2bFinalTwo(b0: byte, b1: byte, out: seq<byte>)
    ensures A2b(Encode([b0, b1]), 0, 0, 0, out) == Ok(out + [b0, b1])
  {
    var s := Encode([b0, b1]);
    var c0, c1, c2 := b0 / 4, (b0 % 4) * 16 + b1 / 16, (b1 % 16) * 4;
    assert s == [SextetChar(c0), SextetChar(c1), SextetChar(c2), '='];
    QuadArithmetic(b0, b1, 0);
    assert SextetValue(s[0]) == c0 && SextetValue(s[1]) == c1 && SextetValue(s[2]) == c2;
    assert s[1..][0] == s[1] && s[2..][0] == s[2] && s[3..][0] == '=';
    assert s[1..][1..] == s[2..] && s[2..][1..] == s[3..];
    assert A2b(s, 0, 0, 0, out) == A2b(s[1..], 1, c0, 0, out);
    assert A2b(s[1..], 1, c0, 0, out) == A2b(s[2..], 2, c1 % 16, 0, out + [b0]);
    assert A2b(s[2..], 2, c1 % 16, 0, out + [b0]) == A2b(s[3..], 3, c2 % 4, 0, out + [b0] + [b1]);
    assert out + [b0] + [b1] == out + [b0, b1];
  }

  /** The final group: no bytes, or one or two behind padding. */
  lemma A2bShort(b: seq<byte>, out: seq<byte>)
    requires |b| < 3
    ensures A2b(Encode(b), 0, 0, 0, out) == Ok(out + b)
  {
    if |b| == 0 {
      assert Encode(b) == "";
      assert out + b == out;
    } else if |b| == 1 {
      A2bFinalOne(b[0], out);
      assert [b[0]] == b;
    } else {
      A2bFinalTwo(b[0], b[1], out);
      assert [b[0], b[1]] == b;
    }
  }

  /** Python decodes what `Encode` wrote back to the bytes. */
  lemma {:induction false} A2bEncoded(b: seq<byte>, out: seq<byte>)
    ensures A2b(Encode(b), 0, 0, 0, out) == Ok(out + b)
    decreases |b|
  {
    if |b| < 3 {
      A2bShort(b, out);
    } else {
      var out' := out + [b[0], b[1], b[2]];
      EncodeStep(b);
      A2bQuad(b[0], b[1], b[2], Encode(b[3..]), out);
      A2bEncoded(b[3..], out');
      assert out' + b[3..] == out + b;
    }
  }

  /** Round trip: `b64decode` inverts the RFC 4648 encoder. */
  lemma PyDecodeRoundTrip(b: seq<byte>)
    ensures PyB64Decode(Encode(b)) == Ok(b)
  {
    EncodeIsAscii(b);
    A2bEncoded(b, []);
    assert [] + b == b;
  }

  // ------------------------------------------ JavaScript, forgiving decode

  /** ASCII whitespace in the WHATWG Infra sense, which `atob` removes first. */
  predicate InfraAsciiWhitespace(c: char)
  {
    c == '\t' || c == '\n' || c == '\U{000C}' || c == '\r' || c == ' '
  }

  predicate NotInfraSpace(c: char)
  {
    !InfraAsciiWhitespace(c)
  }

  /** Decodes alphabet characters; a final group of two or three characters
      gives one or two bytes and its spare bits are dropped. */
  function DecodeSextets(u: string): (r: seq<byte>)
    requires AllAlphabet(u) && |u| % 4 != 1
    decreases |u|
  {
    if |u| == 0 then []
    else if |u| == 2 then
      [FirstByte(SextetValue(u[0]), SextetValue(u[1]))]
    else if |u| == 3 then
      [FirstByte(SextetValue(u[0]), SextetValue(u[1])), SecondByte(SextetValue(u[1]), SextetValue(u[2]))]
    else
      [ FirstByte(SextetValue(u[0]), SextetValue(u[1]))
      , SecondByte(SextetValue(u[1]), SextetValue(u[2]))
      , ThirdByte(SextetValue(u[2]), SextetValue(u[3])) ] + DecodeSextets(u[4..])
  }

  /** The bytes carried by consecutive sextets of a quantum. */
  function FirstByte(v0: int, v1: int): byte
    requires 0 <= v0 < 64 && 0 <= v1 < 64
  {
    v0 * 4 + v1 / 16
  }

  function SecondByte(v1: int, v2: int): byte
    requires 0 <= v1 < 64 && 0 <= v2 < 64
  {
    (v1 % 16) * 16 + v2 / 4
  }

  function ThirdByte(v2: int, v3: int): byte
    requires 0 <= v2 < 64 && 0 <= v3 < 64
  {
    (v2 % 4) * 64 + v3
  }

  /** Removes the one or two '=' that close a string whose length is a
      multiple of four. */
  function StripPads(t: string): (u: string)
    ensures |u| <= |t| && u == t[..|u|]
  {
    if |t| % 4 == 0 && |t| >= 2 && t[|t| - 2] == '=' && t[|t| - 1] == '=' then t[..|t| - 2]
    else if |t| % 4 == 0 && |t| >= 1 && t[|t| - 1] == '=' then t[..|t| - 1]
    else t
  }

  /** `atob(s)` as bytes (the binary string's character codes), or None where
      `atob` throws an `InvalidCharacterError`. */
  function JsAtob(s: string): (r: Option<seq<byte>>)
    ensures r.Some? ==> |StripPads(Filter(s, NotInfraSpace))| % 4 != 1
  {
    var t := Filter(s, NotInfraSpace);
    var u := StripPads(t);
    if |u| % 4 == 1 || !AllAlphabet(u) then None
    else Some(DecodeSextets(u))
  }

  /** One quantum of four alphabet characters gives three bytes. */
  lemma DecodeSextetsStep(u: string)
    requires AllAlphabet(u) && |u| % 4 != 1 && |u| >= 4
    ensures AllAlphabet(u[4..]) && |u[4..]| % 4 != 1
    ensures DecodeSextets(u) ==
      [ FirstByte(SextetValue(u[0]), SextetValue(u[1]))
      , SecondByte(SextetValue(u[1]), SextetValue(u[2]))
      , ThirdByte(SextetValue(u[2]), SextetValue(u[3])) ] + DecodeSextets(u[4..])
  {
    assert forall i :: 0 <= i < |u[4..]| ==> u[4..][i] == u[i + 4];
  }

  lemma ModFourShift(n: nat)
    ensures (n + 4) % 4 == n % 4
  {
  }

  /** The bytes read back from the four characters of `Quad`. */
  lemma QuadBytes(b0: byte, b1: byte, b2: byte)
    ensures var q := Quad(b0, b1, b2);
      && FirstByte(SextetValue(q[0]), SextetValue(q[1])) == b0
      && SecondByte(SextetValue(q[1]), SextetValue(q[2])) == b1
      && ThirdByte(SextetValue(q[2]), SextetValue(q[3])) == b2
  {
    var q := Quad(b0, b1, b2);
    var c0, c1, c2, c3 := b0 / 4, (b0 % 4) * 16 + b1 / 16, (b1 % 16) * 4 + b2 / 64, b2 % 64;
    assert SextetValue(q[0]) == c0 && SextetValue(q[1]) == c1 && SextetValue(q[2]) == c2 && SextetValue(q[3]) == c3;
    QuadArithmetic(b0, b1, b2);
  }

  lemma DecodeSextetsQuad(b0: byte, b1: byte, b2: byte, rest: string)
    requires AllAlphabet(rest) && |rest| % 4 != 1
    ensures AllAlphabet(Quad(b0, b1, b2) + rest)
    ensures DecodeSextets(Quad(b0, b1, b2) + rest) == [b0, b1, b2] + DecodeSextets(rest)
  {
    var q := Quad(b0, b1, b2);
    var u := q + rest;
    assert u[4..] == rest;
    assert u[0] == q[0] && u[1] == q[1] && u[2] == q[2] && u[3] == q[3];
    assert AllAlphabet(u) by {
      assert forall i :: 0 <= i < |u| ==> u[i] == if i < 4 then q[i] else rest[i - 4];
    }
    assert |u| % 4 != 1 by {
      assert |u| == |rest| + 4;
      ModFourShift(|rest|);
    }
    DecodeSextetsStep(u);
    QuadBytes(b0, b1, b2);
  }

  /** The final group: no bytes, or one or two in two or three characters. */
  lemma DecodeSextetsShort(b: seq<byte>)
    requires |b| < 3
    ensures DecodeSextets(EncodeNoPad(b)) == b
  {
    if |b| == 1 {
      var u := EncodeNoPad(b);
      QuadArithmetic(b[0], 0, 0);
      assert SextetValue(u[0]) == b[0] / 4 && SextetValue(u[1]) == (b[0] % 4) * 16;
      assert FirstByte(b[0] / 4, (b[0] % 4) * 16) == b[0];
    } else if |b| == 2 {
      var u := EncodeNoPad(b);
      var c0, c1, c2 := b[0] / 4, (b[0] % 4) * 16 + b[1] / 16, (b[1] % 16) * 4;
      QuadArithmetic(b[0], b[1], 0);
      assert SextetValue(u[0]) == c0 && SextetValue(u[1]) == c1 && SextetValue(u[2]) == c2;
      assert FirstByte(c0, c1) == b[0] && SecondByte(c1, c2) == b[1];
    }
  }

  lemma {:induction false} DecodeSextetsEncoded(b: seq<byte>)
    ensures DecodeSextets(EncodeNoPad(b)) == b
    decreases |b|
  {
    if |b| < 3 {
      DecodeSextetsShort(b);
    } else {
      var rest := EncodeNoPad(b[3..]);
      assert EncodeNoPad(b) == Quad(b[0], b[1], b[2]) + rest;
      DecodeSextetsQuad(b[0], b[1], b[2], rest);
      DecodeSextetsEncoded(b[3..]);
      assert [b[0], b[1], b[2]] + b[3..] == b;
    }
  }

  lemma StripPadsOfEncode(b: seq<byte>)
    ensures StripPads(Encode(b)) == EncodeNoPad(b)
  {
    var e := EncodeNoPad(b);
    var t := Encode(b);
    if |b| % 3 == 0 {
      assert t == e;
      if |t| >= 1 {
        assert IsAlphabetChar(t[|t| - 1]);
      }
    } else if |b| % 3 == 2 {
      assert t == e + "=";
      assert IsAlphabetChar(t[|t| - 2]);
      assert t[..|t| - 1] == e;
    } else {
      assert t == e + "==";
      assert t[..|t| - 2] == e;
    }
  }

  /** The unpadded encoding never leaves a single character in its last group. */
  lemma {:induction false} EncodeNoPadTail(b: seq<byte>)
    ensures |EncodeNoPad(b)| % 4 == (if |b| % 3 == 0 then 0 else |b| % 3 + 1)
    decreases |b|
  {
    if |b| >= 3 {
      EncodeNoPadTail(b[3..]);
      assert EncodeNoPad(b) == Quad(b[0], b[1], b[2]) + EncodeNoPad(b[3..]);
      assert |b[3..]| % 3 == |b| % 3;
    }
  }

  /** Round trip: `atob` inverts the RFC 4648 encoder. */
  lemma JsDecodeRoundTrip(b: seq<byte>)
    ensures JsAtob(Encode(b)) == Some(b)
  {
    var s := Encode(b);
    assert forall i :: 0 <= i < |s| ==> NotInfraSpace(s[i]) by {
      forall i | 0 <= i < |s| ensures NotInfraSpace(s[i]) {
        assert IsBase64OrPad(s[i]);
      }
    }
    FilterKeepsAll(s, NotInfraSpace);
    StripPadsOfEncode(b);
    var u := EncodeNoPad(b);
    assert StripPads(Filter(s, NotInfraSpace)) == u;
    EncodeNoPadTail(b);
    assert |u| % 4 != 1;
    assert AllAlphabet(u);
    assert JsAtob(s) == Some(DecodeSextets(u));
    DecodeSextetsEncoded(b);
  }

  /** On the canonical padded form the two decoders agree. */
  lemma DecodersAgreeOnEncoded(b: seq<byte>)
    ensures PyB64Decode(Encode(b)) == Ok(b) && JsAtob(Encode(b)) == Some(b)
  {
    PyDecodeRoundTrip(b);
    JsDecodeRoundTrip(b);
  }

  /** Where they part: Python insists on the closing pad, `atob` does not. */
  lemma UnpaddedDiverges()
    ensures PyB64Decode("QQ") == Err(IncorrectPadding)
    ensures JsAtob("QQ") == Some([65])
  {
    assert IsAscii("QQ");
    assert "QQ"[1..] == "Q" && "Q"[1..] == "";
    assert A2b("QQ", 0, 0, 0, []) == A2b("Q", 1, 16, 0, []);
    assert A2b("Q", 1, 16, 0, []) == A2b("", 2, 0, 0, [65]);
    assert forall i :: 0 <= i < |"QQ"| ==> NotInfraSpace("QQ"[i]);
    FilterKeepsAll("QQ", NotInfraSpace);
    assert StripPads("QQ") == "QQ";
    assert SextetValue('Q') == 16;
    assert DecodeSextets("QQ") == [FirstByte(16, 16)];
  }

  lemma QuadSpelling()
    ensures Quad(65, 66, 67) == "QUJD"
  {
    assert SextetChar(16) == 'Q' && SextetChar(20) == 'U' && SextetChar(9) == 'J' && SextetChar(3) == 'D';
  }

  /** And `atob` refuses a stray pad after a full quantum, which Python skips. */
  lemma StrayPadDiverges()
    ensures PyB64Decode("QUJD=") == Ok([65, 66, 67])
    ensures JsAtob("QUJD=") == None
  {
    StrayPadPython();
    StrayPadJs();
  }

  lemma StrayPadPython()
    ensures PyB64Decode("QUJD=") == Ok([65, 66, 67])
  {
    var s := "QUJD=";
    assert IsAscii(s);
    QuadSpelling();
    assert s == Quad(65, 66, 67) + "=";
    A2bQuad(65, 66, 67, "=", []);
    assert "="[1..] == "";
    assert A2b("=", 0, 0, 0, [65, 66, 67]) == A2b("", 0, 0, 0, [65, 66, 67]);
    assert [] + [65, 66, 67] == [65, 66, 67];
  }

  lemma StrayPadJs()
    ensures JsAtob("QUJD=") == None
  {
    var s := "QUJD=";
    assert s[0] == 'Q' && s[1] == 'U' && s[2] == 'J' && s[3] == 'D' && s[4] == '=';
    assert forall i :: 0 <= i < |s| ==> NotInfraSpace(s[i]) by {
      forall i | 0 <= i < |s| ensures NotInfraSpace(s[i]) {
        assert i == 0 || i == 1 || i == 2 || i == 3 || i == 4;
      }
    }
    FilterKeepsAll(s, NotInfraSpace);
    assert |s| == 5;
    assert StripPads(s) == s by {
      assert |s| % 4 != 0;
    }
  }
}
