/** The page script that plays a preview server (x6c.js): the JavaScript
    copy of the slot decoding, the API-key suffix for one embed host, the
    once-built framework hash, and the sandbox rule for restricted hosts.
    The DOM work around it (iframe creation, class toggling, listeners) is
    not modelled; `new URL(s).hostname` is a parameter. */
module PreviewScript {
  import opened Results
  import opened Bytes
  import opened Text
  import opened Base64
  import Utf8
  import opened JsonValues
  import opened Numerals
  import Registry

  // ------------------------------------------------------- framework hash

  /** The four literal pieces of the hash, as the closure declares them. */
  const HashParts: seq<string> := ["7350", "3d58-f228-", "425f-97f1-", "2d9512f5772c"]

  const FrameworkHash: string := "73503d58-f228-425f-97f1-2d9512f5772c"

  lemma HashPartsJoin()
    ensures Concat(HashParts) == FrameworkHash
  {
    assert HashParts[1..][1..][1..][1..] == [];
  }

  /** The closure's state: the hash (empty until built) and the pieces,
      nulled once the hash is built. */
  datatype Scope = Scope(hash: string, parts: Option<seq<string>>)

  const InitialScope: Scope := Scope("", Some(HashParts))

  /** The two states the closure can be in. */
  predicate Consistent(sc: Scope)
  {
    || (sc.hash == "" && sc.parts == Some(HashParts))
    || (sc.hash == FrameworkHash && sc.parts.None?)
  }

  /** `if (!FRAMEWORK_HASH) { FRAMEWORK_HASH = _m1 + _m2 + _m3 + _m4; _m1 = ... = null; }` */
  function EnsureHash(sc: Scope): (r: Scope)
    requires Consistent(sc)
    ensures r.hash == FrameworkHash && r.parts.None?
    ensures sc.hash != "" ==> r == sc
  {
    if sc.hash != "" then sc
    else
      HashPartsJoin();
      Scope(Concat(sc.parts.value), None)
  }

  // ------------------------------------------------------------- decoding

  /** A config entry as the script reads it: the Base64 key and the offset
      table. */
  datatype JsConfig = JsConfig(k: string, d: seq<int>)

  /** `getParameterOffset`: `d[parseInt(atob(k), 10)]`. The outer None is
      the exception `atob` throws; the inner None is `undefined`, which is
      what an index outside the table, NaN or a negative number selects. */
  function ParameterOffset(config: JsConfig): (r: Option<Option<int>>)
    ensures r.None? <==> JsAtob(config.k).None?
    ensures r.Some? && r.value.Some? ==>
      exists i :: 0 <= i < |config.d| && r.value.value == config.d[i]
  {
    var keyBytes :- JsAtob(config.k);
    var idx := ArrayIndex(JsParseInt(Latin1Decode(keyBytes)));
    Some(if idx.Some? && idx.value < |config.d| then Some(config.d[idx.value]) else None)
  }

  /** Where `slice(0, -offset)` ends on a string of length n: `-undefined`
      is NaN, which counts as 0. */
  function SliceEnd(n: nat, offset: Option<int>): (e: nat)
    ensures e <= n
    ensures offset.None? ==> e == 0
    ensures offset.Some? ==> e == PrefixEnd(n, -offset.value)
  {
    match offset
    case None => 0
    case Some(v) => PrefixEnd(n, -v)
  }

  /** Lines 24-28 of the script: reverse, keep the Base64 alphabet, read the
      offset, `atob`, drop the trailing characters. None is a thrown
      exception. The string `atob` returns has one character per byte. */
  function JsDecodeResource(resource: string, config: JsConfig): (r: Option<string>)
    ensures r.Some? ==> ParameterOffset(config).Some? && JsAtob(Filter(Reverse(resource), IsBase64OrPad)).Some?
    ensures r.Some? ==> IsLatin1(r.value)
  {
    var cleaned := Filter(Reverse(resource), IsBase64OrPad);
    var offset :- ParameterOffset(config);
    var bytes :- JsAtob(cleaned);
    var text := Latin1Decode(bytes);
    Some(text[..SliceEnd(|bytes|, offset)])
  }

  /** As in the Python copy, characters outside the Base64 alphabet inserted
      anywhere in a resource string change nothing. */
  lemma JsResourceIgnoresJunk(a: string, junk: string, b: string, config: JsConfig)
    requires forall i :: 0 <= i < |junk| ==> !IsBase64OrPad(junk[i])
    ensures JsDecodeResource(a + junk + b, config) == JsDecodeResource(a + b, config)
  {
    FilterReverseIgnores(a, junk, b, IsBase64OrPad);
  }

  // ----------------------------------------------------- API-key suffix

  const EmbedPrefix: string := "https://yonaplay.org/embed.php?id="

  /** `/^https:\/\/yonaplay\.org\/embed\.php\?id=\d+$/.test(s)`. */
  predicate IsEmbedUrl(s: string)
  {
    && |s| > |EmbedPrefix|
    && s[..|EmbedPrefix|] == EmbedPrefix
    && AllAsciiDigits(s[|EmbedPrefix|..])
  }

  /** The pattern accepts the embed prefix followed by exactly a non-empty
      run of ASCII digits. */
  lemma EmbedUrlOfId(id: string)
    ensures IsEmbedUrl(EmbedPrefix + id) <==> PyIsDigitString(id)
  {
    var s := EmbedPrefix + id;
    assert s[..|EmbedPrefix|] == EmbedPrefix && s[|EmbedPrefix|..] == id;
  }

  /** The source URL of the frame: the API key is appended to an embed URL
      and nothing else changes. */
  function WithApiKey(s: string, hash: string): (r: string)
    ensures StartsWith(r, s)
    ensures IsEmbedUrl(s) <==> r != s
  {
    if IsEmbedUrl(s) then s + "&apiKey=" + hash else s
  }

  /** A suffixed URL no longer matches, so the suffix is added at most once. */
  lemma WithApiKeyIdempotent(s: string, hash: string)
    ensures WithApiKey(WithApiKey(s, hash), hash) == WithApiKey(s, hash)
  {
    if IsEmbedUrl(s) {
      var r := s + "&apiKey=" + hash;
      assert r[|s|] == '&';
      assert r[|EmbedPrefix|..][|s| - |EmbedPrefix|] == '&';
    }
  }

  lemma ApiKeyExamples()
    ensures WithApiKey("https://yonaplay.org/embed.php?id=42", FrameworkHash)
         == "https://yonaplay.org/embed.php?id=42" + "&apiKey=" + FrameworkHash
    ensures WithApiKey("https://yonaplay.org/embed.php?id=", FrameworkHash)
         == "https://yonaplay.org/embed.php?id="
    ensures WithApiKey("https://yonaplay.org/embed.php?id=4x", FrameworkHash)
         == "https://yonaplay.org/embed.php?id=4x"
  {
    var a := "https://yonaplay.org/embed.php?id=42";
    assert a[..|EmbedPrefix|] == EmbedPrefix && a[|EmbedPrefix|..] == "42";
    assert AllAsciiDigits("42");
    var c := "https://yonaplay.org/embed.php?id=4x";
    assert c[|EmbedPrefix|..][1] == 'x';
  }

  // -------------------------------------------------------------- sandbox

  const RestrictedDomains: set<string> := {"videa.hu", "www.yourupload.com", "www.mp4upload.com"}

  // ------------------------------------------------------------ rendering

  /** What the page holds: the two registries and the host parser (None
      where `new URL` throws, which the script catches). */
  datatype Page = Page(resources: seq<string>, configs: seq<JsConfig>, hostOf: string -> Option<string>)

  /** The result of one `renderModuleContent` call. */
  datatype Outcome = NoRender | Threw | Frame(src: string, sandboxed: bool)

  /** The string-keyed properties every array inherits: the methods of
      `Array.prototype` (section 23.1.3 of ECMA-262, 2023 edition), those of
      `Object.prototype` (section 20.1.3) and the legacy accessors of
      Annex B.2.2. Each holds a function or, for `__proto__`, an object, so
      each is truthy. */
  predicate IsPrototypeMember(key: string)
  {
    key in {
    "at", "concat", "constructor", "copyWithin", "entries", "every", "fill",
    "filter", "find", "findIndex", "findLast", "findLastIndex", "flat",
    "flatMap", "forEach", "includes", "indexOf", "join", "keys",
    "lastIndexOf", "map", "pop", "push", "reduce", "reduceRight", "reverse",
    "shift", "slice", "some", "sort", "splice", "toLocaleString",
    "toReversed", "toSorted", "toSpliced", "toString", "unshift", "values",
    "with",
    "hasOwnProperty", "isPrototypeOf", "propertyIsEnumerable", "valueOf",
    "__proto__", "__defineGetter__", "__defineSetter__", "__lookupGetter__",
    "__lookupSetter__"}
  }

  /** No inherited member is spelled with a leading digit, so none is an
      array index. */
  lemma DigitKeyIsNoMember(key: string)
    requires |key| > 0 && IsAsciiDigit(key[0])
    ensures !IsPrototypeMember(key)
  {
  }

  /** What `window.resourceRegistry[moduleKey]` and
      `window.configRegistry[moduleKey]` select when both are truthy:
      nothing, an element of both arrays, or an inherited property (a
      method, or a non-zero `length`), which is no string. */
  datatype Target = Nothing | Element(n: nat) | Member

  /** The guard `resourceData && configSettings`: an element counts when the
      key is an array index naming an element of both arrays and the
      resource string is non-empty (a config object is always truthy); a
      missing attribute is the key "null", which names nothing. Any other
      key reads an inherited property or `undefined`. */
  function Slot(page: Page, moduleKey: Option<string>): (r: Target)
    ensures moduleKey.None? ==> r.Nothing?
    ensures r.Element? ==> r.n < |page.resources| && r.n < |page.configs| && page.resources[r.n] != ""
    ensures r.Element? ==> moduleKey == Some(DecimalString(r.n))
    ensures r.Member? ==> moduleKey.Some? && (IsPrototypeMember(moduleKey.value) || moduleKey.value == "length")
    ensures moduleKey == Some("length") ==> (r.Member? <==> |page.resources| > 0 && |page.configs| > 0)
    ensures moduleKey.Some? && IsPrototypeMember(moduleKey.value) ==> r.Member?
  {
    match moduleKey
    case None => Nothing
    case Some(key) =>
      match CanonicalIndex(key)
      case Some(n) =>
        DigitKeyIsNoMember(key);
        if n < |page.resources| && n < |page.configs| && page.resources[n] != "" then Element(n) else Nothing
      case None =>
        if IsPrototypeMember(key) || (key == "length" && |page.resources| > 0 && |page.configs| > 0) then Member
        else Nothing
  }

  /** Every element with a resource is reached by its decimal key (a
      JavaScript array holds fewer than 2^32 - 1 elements, so n is an
      array index). */
  lemma SlotOfIndex(page: Page, n: nat)
    requires n < |page.resources| && n < |page.configs| && page.resources[n] != ""
    requires n < ArrayIndexBound
    ensures Slot(page, Some(DecimalString(n))) == Element(n)
  {
    CanonicalIndexOfString(n);
  }

  /** `renderModuleContent`: the next closure state and what was shown. A
      truthy inherited property gets past the guard, the hash is built, and
      `resourceData.split` throws, for neither a function nor a number has
      that method. */
  function Render(sc: Scope, page: Page, moduleKey: Option<string>): (r: (Scope, Outcome))
    requires Consistent(sc)
    ensures Consistent(r.0)
    ensures r.1.NoRender? <==> Slot(page, moduleKey).Nothing?
    ensures r.1.NoRender? ==> r.0 == sc
    ensures !r.1.NoRender? ==> r.0.hash == FrameworkHash
    ensures r.1.Threw? <==> (Slot(page, moduleKey).Member? || (Slot(page, moduleKey).Element?
      && JsDecodeResource(page.resources[Slot(page, moduleKey).n], page.configs[Slot(page, moduleKey).n]).None?))
    ensures r.1.Frame? ==> var n := Slot(page, moduleKey).n;
      r.1.src == WithApiKey(JsDecodeResource(page.resources[n], page.configs[n]).value, FrameworkHash)
    ensures r.1.Frame? ==> (r.1.sandboxed <==> page.hostOf(r.1.src).Some? && page.hostOf(r.1.src).value in RestrictedDomains)
  {
    match Slot(page, moduleKey)
    case Nothing => (sc, NoRender)
    case Member => (EnsureHash(sc), Threw)
    case Element(n) =>
      var sc' := EnsureHash(sc);
      match JsDecodeResource(page.resources[n], page.configs[n])
      case None => (sc', Threw)
      case Some(decoded) =>
        var src := WithApiKey(decoded, sc'.hash);
        var host := page.hostOf(src);
        (sc', Frame(src, host.Some? && host.value in RestrictedDomains))
  }

  /** A server id such as "map" or "length" reads an inherited property of
      both registries: the hash is built and the call throws. */
  lemma InheritedKeysThrow(page: Page)
    requires |page.resources| > 0 && |page.configs| > 0
    ensures Render(InitialScope, page, Some("length")) == (Scope(FrameworkHash, None), Threw)
    ensures Render(InitialScope, page, Some("map")) == (Scope(FrameworkHash, None), Threw)
  {
    HashPartsJoin();
  }

  /** Once built, the hash is reused: no later call changes the closure. */
  lemma HashBuiltOnce(sc: Scope, page: Page, moduleKey: Option<string>)
    requires Consistent(sc) && sc.hash != ""
    ensures Render(sc, page, moduleKey).0 == sc
  {
  }

  /** A run of clicks: the hash is built exactly when some click rendered. */
  method Clicks(page: Page, keys: seq<Option<string>>) returns (outcomes: seq<Outcome>, sc: Scope)
    ensures |outcomes| == |keys| && Consistent(sc)
    ensures sc.hash == FrameworkHash <==> exists i :: 0 <= i < |keys| && !outcomes[i].NoRender?
    ensures sc.hash == "" <==> forall i :: 0 <= i < |keys| ==> outcomes[i].NoRender?
  {
    sc := InitialScope;
    outcomes := [];
    for i := 0 to |keys|
      invariant |outcomes| == i && Consistent(sc)
      invariant sc.hash == FrameworkHash <==> exists j :: 0 <= j < i && !outcomes[j].NoRender?
    {
      var step := Render(sc, page, keys[i]);
      assert step.1.NoRender? ==> step.0 == sc;
      assert !step.1.NoRender? ==> step.0.hash == FrameworkHash;
      ghost var prev := outcomes;
      sc := step.0;
      outcomes := outcomes + [step.1];
      assert forall j :: 0 <= j < i ==> outcomes[j] == prev[j];
      assert outcomes[i] == step.1;
    }
  }

  // ------------------------------------------------ agreement with Python

  /** The byte string of an ASCII text. */
  function AsciiBytes(s: string): (b: seq<byte>)
    requires IsAscii(s)
    ensures |b| == |s| && Utf8.IsAsciiBytes(b) && Latin1Decode(b) == s
  {
    assert IsLatin1(s);
    Latin1Encode(s).value
  }

  lemma DigitsAreAscii(n: nat)
    ensures IsAscii(DecimalString(n))
  {
    var s := DecimalString(n);
    forall i | 0 <= i < |s| ensures s[i] as int < 0x80 {
      assert IsAsciiDigit(s[i]);
    }
  }

  /** The JavaScript key stage inverts "decimal, Base64". */
  lemma JsKeyRoundTrip(kn: nat, d: seq<int>)
    requires kn < |d| && kn < ArrayIndexBound
    ensures IsAscii(DecimalString(kn))
    ensures ParameterOffset(JsConfig(Encode(AsciiBytes(DecimalString(kn))), d)) == Some(Some(d[kn]))
  {
    var digits := DecimalString(kn);
    DigitsAreAscii(kn);
    JsDecodeRoundTrip(AsciiBytes(digits));
    JsParseIntOfDigits(digits);
    DecimalRoundTrip(kn);
  }

  /** The Python key stage on the same key. */
  lemma PyKeyOfAscii(kn: nat)
    requires |DecimalString(kn)| <= MaxStrDigits
    ensures IsAscii(DecimalString(kn))
    ensures Registry.KeyIndex(JStr(Encode(AsciiBytes(DecimalString(kn))))) == Ok(kn)
  {
    var digits := DecimalString(kn);
    DigitsAreAscii(kn);
    PyDecodeRoundTrip(AsciiBytes(digits));
    Utf8.AsciiDecodes(AsciiBytes(digits));
    PyIntOfDigits(digits);
    DecimalRoundTrip(kn);
  }

  /** The JavaScript resource stage inverts "Base64, then reverse". */
  lemma JsResourceRoundTrip(payload: seq<byte>)
    ensures JsAtob(Filter(Reverse(Reverse(Encode(payload))), IsBase64OrPad)) == Some(payload)
  {
    var s := Encode(payload);
    ReverseReverse(s);
    assert forall i :: 0 <= i < |s| ==> IsBase64OrPad(s[i]);
    FilterKeepsAll(s, IsBase64OrPad);
    JsDecodeRoundTrip(payload);
  }

  /** The script recovers an ASCII URL followed by decoy bytes. */
  lemma JsAsciiRoundTrip(url: string, decoys: seq<byte>, kn: nat, d: seq<int>)
    requires IsAscii(url) && |decoys| > 0
    requires kn < |d| && kn < ArrayIndexBound && d[kn] == |decoys|
    ensures IsAscii(DecimalString(kn))
    ensures JsDecodeResource(Reverse(Encode(AsciiBytes(url) + decoys)),
                             JsConfig(Encode(AsciiBytes(DecimalString(kn))), d)) == Some(url)
  {
    var payload := AsciiBytes(url) + decoys;
    JsResourceRoundTrip(payload);
    JsKeyRoundTrip(kn, d);
    var n := |AsciiBytes(url)|;
    assert SliceEnd(|payload|, Some(d[kn])) == n;
    assert Latin1Decode(payload)[..n] == Latin1Decode(payload[..n]);
    assert payload[..n] == AsciiBytes(url);
  }

  /** So does the Python routine. */
  lemma PyAsciiRoundTrip(url: string, decoys: seq<byte>, kn: nat, d: seq<int>)
    requires IsAscii(url) && |decoys| > 0
    requires kn < |d| && d[kn] == |decoys|
    requires |DecimalString(kn)| <= MaxStrDigits
    ensures IsAscii(DecimalString(kn))
    ensures Registry.PySlotDecode(Reverse(Encode(AsciiBytes(url) + decoys)),
                                  JStr(Encode(AsciiBytes(DecimalString(kn)))), IntList(d)) == Ok(url)
  {
    var payload := AsciiBytes(url) + decoys;
    Registry.ResourceRoundTrip(payload);
    PyKeyOfAscii(kn);
    assert PyIndex(IntList(d), kn) == Ok(JInt(|decoys|));
    var n := |AsciiBytes(url)|;
    assert PrefixEnd(|payload|, -|decoys|) == n;
    assert payload[..n] == AsciiBytes(url);
    Utf8.AsciiDecodes(AsciiBytes(url));
  }

  /** On an ASCII URL followed by decoy bytes, with a key naming the decoy
      count, the Python routine and the script recover the same URL. */
  lemma ScriptAgreesWithPython(url: string, decoys: seq<byte>, kn: nat, d: seq<int>)
    requires IsAscii(url) && |decoys| > 0
    requires kn < |d| && kn < ArrayIndexBound && d[kn] == |decoys|
    requires |DecimalString(kn)| <= MaxStrDigits
    ensures IsAscii(DecimalString(kn))
    ensures var resource := Reverse(Encode(AsciiBytes(url) + decoys));
      var key := Encode(AsciiBytes(DecimalString(kn)));
      && Registry.PySlotDecode(resource, JStr(key), IntList(d)) == Ok(url)
      && JsDecodeResource(resource, JsConfig(key, d)) == Some(url)
  {
    PyAsciiRoundTrip(url, decoys, kn, d);
    JsAsciiRoundTrip(url, decoys, kn, d);
  }

  // ---------------------------------------------- where the copies differ

  /** The Python key stage reads back any ASCII key text with `int()`. */
  lemma PyKeyOfText(s: string)
    requires IsAscii(s)
    ensures Registry.KeyIndex(JStr(Encode(AsciiBytes(s)))) == PyInt(s)
  {
    PyDecodeRoundTrip(AsciiBytes(s));
    Utf8.AsciiDecodes(AsciiBytes(s));
  }

  /** The script's key stage reads back any ASCII key text with `parseInt`. */
  lemma JsKeyOfText(s: string, d: seq<int>)
    requires IsAscii(s)
    ensures var idx := ArrayIndex(JsParseInt(s));
      ParameterOffset(JsConfig(Encode(AsciiBytes(s)), d))
        == Some(if idx.Some? && idx.value < |d| then Some(d[idx.value]) else None)
  {
    JsDecodeRoundTrip(AsciiBytes(s));
  }

  lemma MinusOneIsAscii()
    ensures IsAscii("-1")
  {
  }

  /** A key reading "-1" selects the last offset in Python, where negative
      indices count from the end ... */
  lemma PyNegativeKey(url: string, decoys: seq<byte>, d: seq<int>)
    requires IsAscii(url) && |decoys| > 0
    requires |d| > 0 && d[|d| - 1] == |decoys|
    ensures IsAscii("-1")
    ensures Registry.PySlotDecode(Reverse(Encode(AsciiBytes(url) + decoys)),
                                  JStr(Encode(AsciiBytes("-1"))), IntList(d)) == Ok(url)
  {
    var payload := AsciiBytes(url) + decoys;
    Registry.ResourceRoundTrip(payload);
    MinusOneIsAscii();
    assert Registry.KeyIndex(JStr(Encode(AsciiBytes("-1")))) == Ok(-1) by {
      PyKeyOfText("-1");
      MinusOne();
    }
    assert PyIndex(IntList(d), -1) == Ok(JInt(|decoys|));
    var n := |AsciiBytes(url)|;
    assert PrefixEnd(|payload|, -|decoys|) == n;
    assert payload[..n] == AsciiBytes(url);
    Utf8.AsciiDecodes(AsciiBytes(url));
  }

  /** ... while in the script `d[-1]` is undefined, the slice end is 0 and
      the URL comes out empty. */
  lemma JsNegativeKey(url: string, decoys: seq<byte>, d: seq<int>)
    requires IsAscii(url)
    ensures IsAscii("-1")
    ensures JsDecodeResource(Reverse(Encode(AsciiBytes(url) + decoys)), JsConfig(Encode(AsciiBytes("-1")), d)) == Some("")
  {
    var payload := AsciiBytes(url) + decoys;
    MinusOneIsAscii();
    JsResourceRoundTrip(payload);
    JsKeyOfText("-1", d);
    MinusOne();
  }

  lemma NegativeKeyDiverges(url: string, decoys: seq<byte>, d: seq<int>)
    requires IsAscii(url) && |decoys| > 0
    requires |d| > 0 && d[|d| - 1] == |decoys|
    ensures IsAscii("-1")
    ensures var resource := Reverse(Encode(AsciiBytes(url) + decoys));
      var key := Encode(AsciiBytes("-1"));
      && Registry.PySlotDecode(resource, JStr(key), IntList(d)) == Ok(url)
      && JsDecodeResource(resource, JsConfig(key, d)) == Some("")
  {
    PyNegativeKey(url, decoys, d);
    JsNegativeKey(url, decoys, d);
  }

  /** An offset of 0 empties the URL in both copies (`b[:-0]` and
      `slice(0, -0)` both end at 0). */
  lemma PyZeroOffset(url: string, kn: nat, d: seq<int>)
    requires IsAscii(url)
    requires kn < |d| && d[kn] == 0
    requires |DecimalString(kn)| <= MaxStrDigits
    ensures IsAscii(DecimalString(kn))
    ensures Registry.PySlotDecode(Reverse(Encode(AsciiBytes(url))), JStr(Encode(AsciiBytes(DecimalString(kn)))), IntList(d)) == Ok("")
  {
    var payload := AsciiBytes(url);
    Registry.ResourceRoundTrip(payload);
    PyKeyOfAscii(kn);
    assert PyIndex(IntList(d), kn) == Ok(JInt(0));
    assert Utf8.Decode(payload[..0]) == Ok("");
  }

  lemma JsZeroOffset(url: string, kn: nat, d: seq<int>)
    requires IsAscii(url)
    requires kn < |d| && kn < ArrayIndexBound && d[kn] == 0
    ensures IsAscii(DecimalString(kn))
    ensures JsDecodeResource(Reverse(Encode(AsciiBytes(url))), JsConfig(Encode(AsciiBytes(DecimalString(kn))), d)) == Some("")
  {
    var payload := AsciiBytes(url);
    JsResourceRoundTrip(payload);
    JsKeyRoundTrip(kn, d);
  }

  lemma ZeroOffsetAgrees(url: string, kn: nat, d: seq<int>)
    requires IsAscii(url)
    requires kn < |d| && kn < ArrayIndexBound && d[kn] == 0
    requires |DecimalString(kn)| <= MaxStrDigits
    ensures IsAscii(DecimalString(kn))
    ensures var resource := Reverse(Encode(AsciiBytes(url)));
      var key := Encode(AsciiBytes(DecimalString(kn)));
      && Registry.PySlotDecode(resource, JStr(key), IntList(d)) == Ok("")
      && JsDecodeResource(resource, JsConfig(key, d)) == Some("")
  {
    PyZeroOffset(url, kn, d);
    JsZeroOffset(url, kn, d);
  }

  /** A server id with a leading zero: Python's `int("01")` selects slot 1,
      while "01" is not an array index, so the script renders nothing. */
  lemma LeadingZeroDiverges(reg: Registry.Registries, page: Page)
    requires |reg.resources| >= 2 && |reg.configs| >= 2
    requires "k" in reg.configs[1] && "d" in reg.configs[1]
    ensures Registry.SlotIndex(Some("01"), reg) == Ok(Some(1))
    ensures Slot(page, Some("01")) == Nothing
  {
    DigitKeyIsNoMember("01");
    assert PyIsDigitString("01");
    assert "01"[..1] == "0" && "0"[..0] == "";
    assert DecimalValue("01") == 1;
    assert CanonicalIndex("01") == None;
  }
}
