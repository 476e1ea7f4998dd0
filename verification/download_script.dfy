/** The page's own download script (px9.js): `process` decrypts one hex
    string, `prepare` decrypts and arranges every slot into a cache once,
    and `extract` answers a click from that cache. Window globals become
    the fields of `ScriptPage`; the JSON parser is a parameter. */
module DownloadScript {
  import opened Results
  import opened Text
  import opened Bytes
  import opened Hex
  import opened Base64
  import opened JsonValues
  import opened Numerals
  import opened Arrangement
  import opened Downloads

  /** `process(raw, secret)`: `toArray` the hex, XOR with the secret's
      character codes (an empty secret changes nothing), and read one
      character per byte. The secret is the binary string `atob` made. */
  function Process(raw: string, key: seq<byte>): (out: string)
    ensures |out| == |Utf16(raw)| / 2
    ensures IsLatin1(out)
    ensures |key| == 0 ==> out == Latin1Decode(JsToArray(raw))
  {
    Latin1Decode(JsXor(JsToArray(raw), key))
  }

  /** Processing what the page builder encrypted gives the text back. */
  lemma ProcessRoundTrip(plain: string, key: seq<byte>)
    requires IsLatin1(plain) && |key| > 0
    ensures Process(HexEncode(XorStream(Latin1Encode(plain).value, key)), key) == plain
  {
    var data := Latin1Encode(plain).value;
    ToArrayRoundTrip(XorStream(data, key));
    XorInvolution(data, key);
    Latin1TextRoundTrip(plain);
  }

  /** On an even run of hex digits and a non-empty secret, `process` and
      `xor_decrypt` compute the same text. */
  lemma ProcessAgreesWithPython(raw: string, key: seq<byte>)
    requires |raw| % 2 == 0 && AllHexDigits(raw) && |key| > 0
    ensures XorDecrypt(raw, Latin1Decode(key)) == Ok(Process(raw, key))
  {
    ToArrayAgreesWithFromHex(raw);
    Latin1BytesRoundTrip(key);
  }

  /** A character above U+FFFF counts as two units of `raw`, so on its own it
      makes one byte (0, its surrogates being no digits) before the XOR. */
  lemma ProcessAstralChar()
    ensures Process("\U{1F600}", [7]) == "\U{0007}"
  {
    AstralCharFillsSlot();
    assert JsXor([0], [7]) == [Xor(0, 7)];
    assert Xor(0, 7) == 7;
  }

  /** Where they part: with an empty secret the script reads the hex as
      plain text, while the Python loop leaves the slot None. */
  lemma EmptySecretDiverges(raw: string, p: map<nat, seq<Json>>, s: seq<Json>, loads: string -> Result<Json>)
    ensures Process(raw, []) == Latin1Decode(JsToArray(raw))
    ensures forall i: nat :: SlotDownload(i, p, s, Some(""), loads) == Missing
  {
  }

  /** The window globals the script reads. `secret` is `_m.r` (None where
      `_m` is missing); `chunks` holds `_p<i>` for the i that have one;
      `order` is `_s`; `hasAuth` says whether `_a` exists. */
  datatype ScriptPage = ScriptPage(
    secret: Option<string>,
    count: nat,
    chunks: map<nat, seq<string>>,
    order: seq<string>,
    hasAuth: bool,
    parse: string -> Option<seq<int>>)

  /** Iteration i of the loop in `prepare`, or None where it throws:
      `_s[i]` missing (`toArray(undefined)`), a parse error, `_p<i>`
      missing (`.map` of undefined), or `_a` missing (`_a[i]`). */
  function SlotContent(page: ScriptPage, key: seq<byte>, i: nat): (r: Option<string>)
    ensures r.Some? <==> i < |page.order| && page.parse(Process(page.order[i], key)).Some?
                         && i in page.chunks && page.hasAuth
  {
    if i >= |page.order| then None
    else
      var ps :- page.parse(Process(page.order[i], key));
      if i !in page.chunks || !page.hasAuth then None
      else
        var decrypted := seq(|page.chunks[i]|, j requires 0 <= j < |page.chunks[i]| => Process(page.chunks[i][j], key));
        Some(JsArrange(ps, decrypted))
  }

  /** The cache: `null` until `prepare` gets past `atob`, then the entries
      written so far, in slot order. */
  datatype Cache = Null | Entries(contents: seq<string>)

  /** Running iterations with outcomes `outs` in order until one throws:
      the contents written, and whether one threw. */
  function RunUntilThrow(outs: seq<Option<string>>): (r: (seq<string>, bool))
    ensures !r.1 ==> |r.0| == |outs|
    ensures r.1 ==> |r.0| < |outs| && outs[|r.0|].None?
    ensures forall i :: 0 <= i < |r.0| ==> outs[i] == Some(r.0[i])
    ensures r.1 <==> exists i :: 0 <= i < |outs| && outs[i].None?
    decreases |outs|
  {
    if |outs| == 0 then ([], false)
    else
      var n := |outs| - 1;
      var prev := RunUntilThrow(outs[..n]);
      assert forall i :: 0 <= i < n ==> outs[..n][i] == outs[i];
      if prev.1 then prev
      else
        match outs[n]
        case None => (prev.0, true)
        case Some(c) =>
          assert forall i :: 0 <= i < |prev.0| ==> (prev.0 + [c])[i] == prev.0[i];
          (prev.0 + [c], false)
  }

  /** `prepare()`: the cache it leaves and whether it threw. An `atob`
      failure throws before the cache is assigned. */
  datatype Prepared = Prepared(cache: Cache, threw: bool)

  function Prepare(page: ScriptPage): (r: Prepared)
    ensures r.cache.Null? <==> page.secret.None? || JsAtob(page.secret.value).None?
    ensures r.cache.Null? ==> r.threw
    ensures r.cache.Entries? ==> |r.cache.contents| <= page.count
    ensures r.cache.Entries? && !r.threw ==> |r.cache.contents| == page.count
  {
    match page.secret
    case None => Prepared(Null, true)
    case Some(m) =>
      match JsAtob(m)
      case None => Prepared(Null, true)
      case Some(key) =>
        var f := RunUntilThrow(Outcomes(page, key));
        Prepared(Entries(f.0), f.1)
  }

  /** The outcome of every iteration of the loop in `prepare`. */
  function Outcomes(page: ScriptPage, key: seq<byte>): (outs: seq<Option<string>>)
    ensures |outs| == page.count
    ensures forall i :: 0 <= i < page.count ==> outs[i] == SlotContent(page, key, i)
  {
    seq(page.count, i requires 0 <= i => SlotContent(page, key, i))
  }

  /** Past `atob`, the cache holds one entry per iteration, in order, until
      the first that throws. */
  lemma PrepareFillsInOrder(page: ScriptPage, key: seq<byte>)
    requires page.secret.Some? && JsAtob(page.secret.value) == Some(key)
    ensures Prepare(page).cache.Entries?
    ensures forall i :: 0 <= i < |Prepare(page).cache.contents| ==>
      SlotContent(page, key, i) == Some(Prepare(page).cache.contents[i])
    ensures Prepare(page).threw ==> SlotContent(page, key, |Prepare(page).cache.contents|).None?
  {
    var f := RunUntilThrow(Outcomes(page, key));
    assert Prepare(page) == Prepared(Entries(f.0), f.1);
  }

  /** `prepare` throws past `atob` exactly when some iteration throws. */
  lemma PrepareThrowsWhenSlotThrows(page: ScriptPage, key: seq<byte>)
    requires page.secret.Some? && JsAtob(page.secret.value) == Some(key)
    ensures Prepare(page).threw <==> exists i :: 0 <= i < page.count && SlotContent(page, key, i).None?
  {
    var outs := Outcomes(page, key);
    var f := RunUntilThrow(outs);
    assert Prepare(page) == Prepared(Entries(f.0), f.1);
    if f.1 {
      var i :| 0 <= i < |outs| && outs[i].None?;
      assert SlotContent(page, key, i).None?;
    }
    if exists i :: 0 <= i < page.count && SlotContent(page, key, i).None? {
      var i :| 0 <= i < page.count && SlotContent(page, key, i).None?;
      assert outs[i].None?;
    }
  }

  /** What `extract(idx)` hands back. */
  datatype Reply = Thrown | NullReply | Content(text: string)

  /** `cache[idx]` on a built cache: only an array-index key names an entry. */
  function CacheLookup(contents: seq<string>, idx: JsNumber): (r: Reply)
    ensures r != Thrown
    ensures r.Content? <==> ArrayIndex(idx).Some? && ArrayIndex(idx).value < |contents|
    ensures r.Content? ==> r.text == contents[ArrayIndex(idx).value]
  {
    match ArrayIndex(idx)
    case Some(k) => if k < |contents| then Content(contents[k]) else NullReply
    case None => NullReply
  }

  /** `extract(idx)`: prepares only when the cache is null. A throw from
      `prepare` propagates, but an array it had assigned stays. `prep` is
      what `prepare()` does on the page, `Prepare(page)`: it depends on the
      page alone, so it is passed in once rather than recomputed. */
  function Extract(cache: Cache, prep: Prepared, idx: JsNumber): (r: (Reply, Cache))
    ensures cache.Entries? ==> r == (CacheLookup(cache.contents, idx), cache)
    ensures cache.Null? ==> r.1 == prep.cache
    ensures r.0 == Thrown <==> cache.Null? && prep.threw
    ensures cache.Null? && !prep.threw && prep.cache.Entries? ==> r.0 == CacheLookup(prep.cache.contents, idx)
  {
    match cache
    case Entries(contents) => (CacheLookup(contents, idx), cache)
    case Null =>
      if prep.threw then (Thrown, prep.cache)
      else if prep.cache.Null? then (NullReply, prep.cache)
      else (CacheLookup(prep.cache.contents, idx), prep.cache)
  }

  /** A run of clicks on a page whose `prepare()` outcome is `prep`:
      `prepare` runs on the first click, and again only while `atob` keeps
      throwing; every later click reads the cache the first one left. */
  method Clicks(prep: Prepared, idxs: seq<JsNumber>) returns (replies: seq<Reply>, cache: Cache)
    requires prep.cache.Null? ==> prep.threw
    ensures |replies| == |idxs|
    ensures cache == (if |idxs| == 0 then Null else prep.cache)
    ensures prep.cache.Null? ==> forall i :: 0 <= i < |idxs| ==> replies[i] == Thrown
    ensures prep.cache.Entries? ==> forall i :: 0 <= i < |idxs| ==>
      replies[i] == (if i == 0 && prep.threw then Thrown else CacheLookup(prep.cache.contents, idxs[i]))
  {
    replies := [];
    cache := Null;
    for i := 0 to |idxs|
      invariant |replies| == i
      invariant cache == (if i == 0 then Null else prep.cache)
      invariant prep.cache.Null? ==> forall k :: 0 <= k < i ==> replies[k] == Thrown
      invariant prep.cache.Entries? ==> forall k :: 0 <= k < i ==>
        replies[k] == (if k == 0 && prep.threw then Thrown else CacheLookup(prep.cache.contents, idxs[k]))
    {
      var r := Extract(cache, prep, idxs[i]);
      replies := replies + [r.0];
      cache := r.1;
    }
  }

  /** A slot the page builder encrypted reads back as its pieces in
      position order, the string the Python loop builds for it. */
  lemma ScriptSlotRoundTrip(page: ScriptPage, key: seq<byte>, i: nat, ps: seq<int>, orderText: string, pieces: seq<string>)
    requires |key| > 0 && IsLatin1(orderText)
    requires forall j :: 0 <= j < |pieces| ==> IsLatin1(pieces[j])
    requires IsPermutation(ps) && |ps| <= |pieces| && |ps| <= ArrayIndexBound
    requires i < |page.order| && page.order[i] == HexEncode(XorStream(Latin1Encode(orderText).value, key))
    requires page.parse(orderText) == Some(ps)
    requires i in page.chunks && |page.chunks[i]| == |pieces| && page.hasAuth
    requires forall j :: 0 <= j < |pieces| ==>
      page.chunks[i][j] == HexEncode(XorStream(Latin1Encode(pieces[j]).value, key))
    ensures SlotContent(page, key, i) == Some(Concat(Placed(ps, pieces)))
  {
    ProcessRoundTrip(orderText, key);
    var decrypted := seq(|page.chunks[i]|, j requires 0 <= j < |page.chunks[i]| => Process(page.chunks[i][j], key));
    forall j | 0 <= j < |pieces|
      ensures decrypted[j] == pieces[j]
    {
      ProcessRoundTrip(pieces[j], key);
    }
    assert decrypted == pieces;
    JsArrangesPermutation(ps, pieces);
  }
}
