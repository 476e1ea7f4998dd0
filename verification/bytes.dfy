/** Bytes, the repeating-key XOR both scripts use, and Latin-1, the one-byte
    -per-character text encoding the download scheme reads its plaintext in. */
module Bytes {
  import opened Results

  /** A byte is kept as a number below 256, so that the Base16, Base64 and
      UTF-8 arithmetic stays in plain integers. */
  type byte = x: int | 0 <= x < 256

  /** Exclusive or of the low n bits of a and b, one bit at a time. */
  function XorBits(a: nat, b: nat, n: nat): (r: nat)
    ensures r < Pow2(n)
    decreases n
  {
    if n == 0 then 0
    else (if a % 2 == b % 2 then 0 else 1) + 2 * XorBits(a / 2, b / 2, n - 1)
  }

  function Pow2(n: nat): (p: nat)
    ensures p >= 1
  {
    if n == 0 then 1 else 2 * Pow2(n - 1)
  }

  /** Bitwise exclusive or of two bytes (Python's and JavaScript's `^`). */
  function Xor(a: byte, b: byte): byte
  {
    Pow2Eight();
    XorBits(a, b, 8)
  }

  lemma Pow2Eight()
    ensures Pow2(8) == 256
  {
    assert Pow2(1) == 2;
    assert Pow2(2) == 4;
    assert Pow2(3) == 8;
    assert Pow2(4) == 16;
    assert Pow2(5) == 32;
    assert Pow2(6) == 64;
    assert Pow2(7) == 128;
  }

  /** The low n bits of a, rebuilt one bit at a time. */
  function LowBits(a: nat, n: nat): nat
    decreases n
  {
    if n == 0 then 0 else a % 2 + 2 * LowBits(a / 2, n - 1)
  }

  /** A number below 2^n is its own low n bits. */
  lemma {:induction false} LowBitsOfSmall(a: nat, n: nat)
    requires a < Pow2(n)
    ensures LowBits(a, n) == a
    decreases n
  {
    if n > 0 {
      LowBitsOfSmall(a / 2, n - 1);
    }
  }

  /** Combining the low n bits twice with the same key restores them. */
  lemma {:induction false} XorBitsTwice(a: nat, k: nat, n: nat)
    ensures XorBits(XorBits(a, k, n), k, n) == LowBits(a, n)
    decreases n
  {
    if n > 0 {
      var x := XorBits(a, k, n);
      var bit := if a % 2 == k % 2 then 0 else 1;
      var rest := XorBits(a / 2, k / 2, n - 1);
      assert x == bit + 2 * rest;
      assert x % 2 == bit && x / 2 == rest;
      assert (if x % 2 == k % 2 then 0 else 1) == a % 2;
      XorBitsTwice(a / 2, k / 2, n - 1);
    }
  }

  lemma {:induction false} XorBitsZero(a: nat, n: nat)
    ensures XorBits(a, 0, n) == LowBits(a, n)
    decreases n
  {
    if n > 0 {
      XorBitsZero(a / 2, n - 1);
    }
  }

  /** Combining twice with the same key byte restores the original byte. */
  lemma XorSelfInverse(a: byte, k: byte)
    ensures Xor(Xor(a, k), k) == a
  {
    Pow2Eight();
    var x := Xor(a, k);
    assert x == XorBits(a, k, 8);
    assert Xor(x, k) == XorBits(x, k, 8);
    XorBitsTwice(a, k, 8);
    LowBitsOfSmall(a, 8);
  }

  /** Zero is the identity of `^`. */
  lemma XorZero(a: byte)
    ensures Xor(a, 0) == a
  {
    Pow2Eight();
    assert Xor(a, 0) == XorBits(a, 0, 8);
    XorBitsZero(a, 8);
    LowBitsOfSmall(a, 8);
  }

  /** Repeating-key XOR, built as the sources build it: one output byte
      appended per input byte, byte i combined with key byte `i % |key|`.
      Undefined for an empty key unless there is nothing to combine. */
  function XorStream(data: seq<byte>, key: seq<byte>): (r: seq<byte>)
    requires |key| > 0 || |data| == 0
    ensures |r| == |data|
    ensures forall i :: 0 <= i < |data| ==> r[i] == Xor(data[i], key[i % |key|])
    decreases |data|
  {
    if |data| == 0 then []
    else
      var n := |data| - 1;
      XorStream(data[..n], key) + [Xor(data[n], key[n % |key|])]
  }

  /** XOR under the same key is its own inverse. */
  lemma XorInvolution(data: seq<byte>, key: seq<byte>)
    requires |key| > 0
    ensures XorStream(XorStream(data, key), key) == data
  {
    var once := XorStream(data, key);
    var twice := XorStream(once, key);
    forall i | 0 <= i < |data|
      ensures twice[i] == data[i]
    {
      XorSelfInverse(data[i], key[i % |key|]);
    }
  }

  /** Python's loop `byte ^ key[i % key_len]` over `enumerate(data)`: the
      modulo raises when the key is empty and there is at least one byte. */
  function PyXor(data: seq<byte>, key: seq<byte>): (r: Result<seq<byte>>)
    ensures r.Err? <==> |key| == 0 && |data| > 0
    ensures r.Err? ==> r.cause == ZeroDivision
    ensures r.Ok? ==> |r.value| == |data|
    ensures r.Ok? ==> forall i :: 0 <= i < |data| ==> r.value[i] == Xor(data[i], key[i % |key|])
  {
    if |key| == 0 && |data| > 0 then Err(ZeroDivision) else Ok(XorStream(data, key))
  }

  /** JavaScript's `data[i] ^ secret.charCodeAt(i % keylen)`: with an empty
      secret `charCodeAt(NaN)` is NaN, and `x ^ NaN` is x, so nothing changes. */
  function JsXor(data: seq<byte>, key: seq<byte>): (r: seq<byte>)
    ensures |r| == |data|
    ensures |key| == 0 ==> r == data
    ensures |key| > 0 ==> forall i :: 0 <= i < |data| ==> r[i] == Xor(data[i], key[i % |key|])
  {
    if |key| == 0 then data else XorStream(data, key)
  }

  /** The two XOR loops agree whenever Python's does not raise. */
  lemma PyXorAgreesWithJs(data: seq<byte>, key: seq<byte>)
    requires PyXor(data, key).Ok?
    ensures PyXor(data, key).value == JsXor(data, key)
  {
  }

  /** `bytes.decode("latin1")` / `String.fromCharCode(b)`: character i has code byte i. */
  function Latin1Decode(b: seq<byte>): (s: string)
    ensures |s| == |b|
    ensures forall i :: 0 <= i < |b| ==> s[i] as int == b[i]
  {
    seq(|b|, i requires 0 <= i < |b| => b[i] as char)
  }

  predicate IsLatin1(s: string)
  {
    forall i :: 0 <= i < |s| ==> s[i] as int < 256
  }

  /** `str.encode("latin1")`: fails on a character above U+00FF. */
  function Latin1Encode(s: string): (r: Option<seq<byte>>)
    ensures r.Some? <==> IsLatin1(s)
    ensures r.Some? ==> |r.value| == |s|
    ensures r.Some? ==> forall i :: 0 <= i < |s| ==> r.value[i] == s[i] as int
  {
    if IsLatin1(s) then Some(seq(|s|, i requires 0 <= i < |s| => s[i] as int as byte)) else None
  }

  lemma Latin1BytesRoundTrip(b: seq<byte>)
    ensures Latin1Encode(Latin1Decode(b)) == Some(b)
  {
    var s := Latin1Decode(b);
    assert IsLatin1(s);
    var e := Latin1Encode(s).value;
    assert e == b;
  }

  lemma Latin1TextRoundTrip(s: string)
    requires IsLatin1(s)
    ensures Latin1Decode(Latin1Encode(s).value) == s
  {
  }
}
