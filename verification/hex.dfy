/** Base16 (section 8 of RFC 4648) as the two scripts read it: Python's
    `bytes.fromhex` and the download script's `toArray`, which parses two
    characters at a time with `parseInt(_, 16)` into a `Uint8Array`. */
module Hex {
  import opened Results
  import opened Bytes
  import opened Text

  predicate IsHexDigit(c: char)
  {
    '0' <= c <= '9' || 'a' <= c <= 'f' || 'A' <= c <= 'F'
  }

  predicate AllHexDigits(s: string)
  {
    forall i :: 0 <= i < |s| ==> IsHexDigit(s[i])
  }

  function HexValue(c: char): (v: int)
    requires IsHexDigit(c)
    ensures 0 <= v < 16
  {
    if '0' <= c <= '9' then c as int - '0' as int
    else if 'a' <= c <= 'f' then c as int - 'a' as int + 10
    else c as int - 'A' as int + 10
  }

  /** The lower-case digit for a value below 16, as `bytes.hex()` writes it. */
  function HexDigit(v: int): (c: char)
    requires 0 <= v < 16
    ensures IsHexDigit(c) && HexValue(c) == v
  {
    if v < 10 then (v + '0' as int) as char else (v - 10 + 'a' as int) as char
  }

  /** The byte two hex digits spell, high digit first. */
  function PairByte(hi: char, lo: char): byte
    requires IsHexDigit(hi) && IsHexDigit(lo)
  {
    16 * HexValue(hi) + HexValue(lo)
  }

  /** The byte spelled by characters 2k and 2k+1. */
  function PairAt(s: string, k: int): byte
    requires 0 <= k && 2 * k + 1 < |s|
    requires IsHexDigit(s[2 * k]) && IsHexDigit(s[2 * k + 1])
  {
    PairByte(s[2 * k], s[2 * k + 1])
  }

  /** A UTF-16 code unit seen as a character. A lone surrogate half is not a
      character; it stands here as U+FFFD, which `parseInt` treats the same
      way: neither whitespace, nor sign, nor digit. */
  function UnitChar(u: int): (c: char)
    requires 0 <= u < 0x10000
    ensures !(0xD800 <= u < 0xE000) ==> c as int == u
    ensures 0xD800 <= u < 0xE000 ==> !IsHexDigit(c) && !JsWhiteSpace(c) && c != '+' && c != '-'
  {
    if 0xD800 <= u < 0xE000 then '\U{FFFD}' else u as char
  }

  /** The byte `parseInt` reads from code units 2k and 2k+1. */
  function JsPairAt(units: seq<int>, k: int): byte
    requires 0 <= k && 2 * k + 1 < |units|
    requires 0 <= units[2 * k] < 0x10000 && 0 <= units[2 * k + 1] < 0x10000
  {
    JsHexByte(UnitChar(units[2 * k]), UnitChar(units[2 * k + 1]))
  }

  /** `bytes.fromhex(s)`: ASCII whitespace may stand between byte pairs (not
      inside one); anything else that is not a pair of hex digits raises. */
  function PyFromHex(s: string): (r: Result<seq<byte>>)
    ensures r.Err? ==> r.cause == NonHexadecimal
    ensures r.Ok? ==> 2 * |r.value| <= |s|
    decreases |s|
  {
    if |s| == 0 then Ok([])
    else if PyAsciiSpace(s[0]) then PyFromHex(s[1..])
    else if !IsHexDigit(s[0]) || |s| < 2 || !IsHexDigit(s[1]) then Err(NonHexadecimal)
    else
      var rest :- PyFromHex(s[2..]);
      Ok([PairByte(s[0], s[1])] + rest)
  }

  predicate NoPySpace(s: string)
  {
    forall i :: 0 <= i < |s| ==> !PyAsciiSpace(s[i])
  }

  /** Without whitespace, `bytes.fromhex` succeeds exactly on an even number of
      hex digits, and byte k is the pair at characters 2k and 2k+1. */
  lemma {:induction false} FromHexPlain(s: string)
    requires NoPySpace(s)
    ensures PyFromHex(s).Ok? <==> |s| % 2 == 0 && AllHexDigits(s)
    ensures PyFromHex(s).Ok? ==>
      |PyFromHex(s).value| == |s| / 2 &&
      forall k :: 0 <= k < |s| / 2 ==> PyFromHex(s).value[k] == PairAt(s, k)
    decreases |s|
  {
    if |s| == 0 {
    } else if !IsHexDigit(s[0]) || |s| < 2 || !IsHexDigit(s[1]) {
      assert !AllHexDigits(s) || |s| % 2 == 1;
    } else {
      var t := s[2..];
      FromHexPlain(t);
      assert AllHexDigits(s) <==> AllHexDigits(t) by {
        assert forall i :: 2 <= i < |s| ==> s[i] == t[i - 2];
      }
      if PyFromHex(t).Ok? {
        var rest := PyFromHex(t).value;
        var all := PyFromHex(s).value;
        assert all == [PairByte(s[0], s[1])] + rest;
        forall k | 1 <= k < |s| / 2
          ensures all[k] == PairAt(s, k)
        {
          assert all[k] == rest[k - 1];
          assert t[2 * (k - 1)] == s[2 * k] && t[2 * (k - 1) + 1] == s[2 * k + 1];
          assert PairAt(t, k - 1) == PairAt(s, k);
        }
      }
    }
  }

  /** `bytes.hex()`: two lower-case digits per byte. */
  function HexEncode(b: seq<byte>): (s: string)
    ensures |s| == 2 * |b|
    ensures AllHexDigits(s) && NoPySpace(s)
    ensures forall k :: 0 <= k < |b| ==> PairAt(s, k) == b[k]
  {
    var s := seq(2 * |b|, i requires 0 <= i < 2 * |b| =>
      if i % 2 == 0 then HexDigit(b[i / 2] / 16) else HexDigit(b[i / 2] % 16));
    forall k | 0 <= k < |b|
      ensures PairAt(s, k) == b[k]
    {
      var v := b[k];
      assert s[2 * k] == HexDigit(v / 16);
      assert s[2 * k + 1] == HexDigit(v % 16);
      assert 16 * (v / 16) + v % 16 == v;
    }
    assert NoPySpace(s) by {
      forall i | 0 <= i < |s| ensures !PyAsciiSpace(s[i]) {
        assert IsHexDigit(s[i]);
      }
    }
    s
  }

  lemma HalfOfDouble(n: nat)
    ensures (2 * n) % 2 == 0 && (2 * n) / 2 == n
  {
  }

  /** Decoding what `HexEncode` wrote gives back the bytes. */
  lemma FromHexRoundTrip(b: seq<byte>)
    ensures PyFromHex(HexEncode(b)) == Ok(b)
  {
    var s := HexEncode(b);
    HalfOfDouble(|b|);
    FromHexPlain(s);
    var d := PyFromHex(s).value;
    assert |d| == |b|;
    assert forall k :: 0 <= k < |b| ==> d[k] == b[k];
    assert d == b;
  }

  /** `parseInt(two, 16)` stored into a `Uint8Array` slot: leading JavaScript
      whitespace is skipped, a sign is honoured, the longest run of hex digits
      is read, and NaN (no digit at all) is stored as 0; a negative value
      wraps modulo 256. */
  function JsHexByte(c0: char, c1: char): (b: byte)
    ensures IsHexDigit(c0) && IsHexDigit(c1) ==> b == PairByte(c0, c1)
  {
    if IsHexDigit(c0) then
      (if IsHexDigit(c1) then PairByte(c0, c1) else HexValue(c0))
    else if JsWhiteSpace(c0) || c0 == '+' then
      (if IsHexDigit(c1) then HexValue(c1) else 0)
    else if c0 == '-' then
      (if IsHexDigit(c1) then (256 - HexValue(c1)) % 256 else 0)
    else 0
  }

  /** The pairing loop of `toArray` over code units: slot k from units 2k
      and 2k+1; on an odd count the last unit's write falls outside the
      array and is dropped. */
  function UnitsToArray(units: seq<int>): (r: seq<byte>)
    requires forall i :: 0 <= i < |units| ==> 0 <= units[i] < 0x10000
    ensures |r| == |units| / 2
    ensures forall k :: 0 <= k < |r| ==> r[k] == JsPairAt(units, k)
    decreases |units|
  {
    if |units| < 2 then []
    else
      var t := units[2..];
      var rest := UnitsToArray(t);
      var r := [JsPairAt(units, 0)] + rest;
      forall k | 1 <= k < |r|
        ensures r[k] == JsPairAt(units, k)
      {
        assert t[2 * (k - 1)] == units[2 * k] && t[2 * (k - 1) + 1] == units[2 * k + 1];
        assert r[k] == rest[k - 1] == JsPairAt(t, k - 1);
      }
      r
  }

  /** `toArray(str)`: a `Uint8Array` of `str.length / 2` slots (the division
      truncated). `length` counts UTF-16 code units, so a character above
      U+FFFF takes two slots' worth of input. */
  function JsToArray(s: string): (r: seq<byte>)
    ensures |r| == |Utf16(s)| / 2
    ensures forall k :: 0 <= k < |r| ==> r[k] == JsPairAt(Utf16(s), k)
  {
    UnitsToArray(Utf16(s))
  }

  /** On text below U+10000 units and characters coincide: slot k comes from
      characters 2k and 2k+1. */
  lemma JsToArrayOfBmp(s: string)
    requires forall i :: 0 <= i < |s| ==> s[i] as int < 0x10000
    ensures |JsToArray(s)| == |s| / 2
    ensures forall k :: 0 <= k < |s| / 2 ==> JsToArray(s)[k] == JsHexByte(s[2 * k], s[2 * k + 1])
  {
    Utf16OfBmp(s);
    var u := Utf16(s);
    forall k | 0 <= k < |s| / 2
      ensures JsToArray(s)[k] == JsHexByte(s[2 * k], s[2 * k + 1])
    {
      assert UnitChar(u[2 * k]) == s[2 * k];
      assert UnitChar(u[2 * k + 1]) == s[2 * k + 1];
    }
  }

  /** A character above U+FFFF is two units, so alone it fills one slot: the
      surrogate pair of U+1F600 reads as no digit at all, hence 0. */
  lemma AstralCharFillsSlot()
    ensures JsToArray("\U{1F600}") == [0]
  {
    var u := Utf16("\U{1F600}");
    assert u == CharUnits('\U{1F600}') + Utf16("");
    assert u == [0xD83D, 0xDE00];
  }

  /** On an even number of hex digits `toArray` and `bytes.fromhex` agree. */
  lemma ToArrayAgreesWithFromHex(s: string)
    requires |s| % 2 == 0 && AllHexDigits(s)
    ensures PyFromHex(s) == Ok(JsToArray(s))
  {
    assert NoPySpace(s) by {
      forall i | 0 <= i < |s| ensures !PyAsciiSpace(s[i]) {
        assert IsHexDigit(s[i]);
      }
    }
    FromHexPlain(s);
    assert forall i :: 0 <= i < |s| ==> s[i] as int < 0x10000 by {
      forall i | 0 <= i < |s| ensures s[i] as int < 0x10000 {
        assert IsHexDigit(s[i]);
      }
    }
    JsToArrayOfBmp(s);
    var py, js := PyFromHex(s).value, JsToArray(s);
    forall k | 0 <= k < |s| / 2
      ensures py[k] == js[k]
    {
      assert IsHexDigit(s[2 * k]) && IsHexDigit(s[2 * k + 1]);
    }
    assert py == js;
  }

  /** `toArray` reads back what `HexEncode` wrote. */
  lemma ToArrayRoundTrip(b: seq<byte>)
    ensures JsToArray(HexEncode(b)) == b
  {
    var s := HexEncode(b);
    ToArrayAgreesWithFromHex(s);
    FromHexRoundTrip(b);
  }

  /** On odd input `toArray` ignores the last character; `bytes.fromhex`
      raises instead. */
  lemma OddLengthDiverges()
    ensures JsToArray("abc") == [0xab]
    ensures PyFromHex("abc") == Err(NonHexadecimal)
  {
    JsToArrayOfBmp("abc");
    assert JsToArray("abc") == [JsHexByte('a', 'b')];
    assert PairByte('a', 'b') == 0xab;
    assert PyFromHex("c") == Err(NonHexadecimal);
    assert "abc"[2..] == "c";
  }
}
