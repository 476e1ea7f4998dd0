/** The download links of an episode page (wit_anime.py,
    `extract_download_links`): every slot's URL is cut into hex-encoded,
    XOR-encrypted chunks plus an encrypted JSON list of positions; the
    links in the page's quality lists point at slots by index and are
    grouped into a map from quality to entries. */
module Downloads {
  import opened Results
  import opened Text
  import opened Bytes
  import opened Hex
  import opened Base64
  import opened JsonValues
  import opened Numerals
  import opened Arrangement

  // -------------------------------------------------------- decryption

  /** `xor_decrypt(hexstr, secret)`: hex to bytes, XOR with the secret's
      Latin-1 bytes, bytes back to text one character per byte. */
  function XorDecrypt(hex: string, secret: string): (r: Result<string>)
    ensures r.Ok? ==> IsLatin1(r.value)
    ensures r.Err? ==> r.cause in {NonHexadecimal, NotLatin1, ZeroDivision}
    ensures PyFromHex(hex).Err? ==> r == Err(NonHexadecimal)
    ensures PyFromHex(hex).Ok? && IsLatin1(secret) ==>
      (r.Ok? <==> secret != "" || PyFromHex(hex).value == [])
  {
    var data :- PyFromHex(hex);
    var key :- match Latin1Encode(secret) { case Some(k) => Ok(k) case None => Err(NotLatin1) };
    var out :- PyXor(data, key);
    Ok(Latin1Decode(out))
  }

  /** The page builder's side: XOR the text's bytes with the secret and
      write them as hex. */
  function XorEncrypt(plain: string, secret: string): (hex: string)
    requires IsLatin1(plain) && IsLatin1(secret) && secret != ""
    ensures AllHexDigits(hex) && |hex| == 2 * |plain|
  {
    HexEncode(XorStream(Latin1Encode(plain).value, Latin1Encode(secret).value))
  }

  /** Decrypting with the secret that encrypted gives the text back. */
  lemma DecryptRoundTrip(plain: string, secret: string)
    requires IsLatin1(plain) && IsLatin1(secret) && secret != ""
    ensures XorDecrypt(XorEncrypt(plain, secret), secret) == Ok(plain)
  {
    var data := Latin1Encode(plain).value;
    var key := Latin1Encode(secret).value;
    var enc := XorStream(data, key);
    assert PyFromHex(XorEncrypt(plain, secret)) == Ok(enc) by {
      FromHexRoundTrip(enc);
    }
    assert PyXor(enc, key) == Ok(data) by {
      XorInvolution(data, key);
    }
    assert Latin1Decode(data) == plain by {
      Latin1TextRoundTrip(plain);
    }
    DecryptSteps(XorEncrypt(plain, secret), secret, enc, key, data);
  }

  /** `xor_decrypt` step by step: what each stage returns fixes the result. */
  lemma DecryptSteps(hex: string, secret: string, data: seq<byte>, key: seq<byte>, out: seq<byte>)
    requires PyFromHex(hex) == Ok(data) && Latin1Encode(secret) == Some(key) && PyXor(data, key) == Ok(out)
    ensures XorDecrypt(hex, secret) == Ok(Latin1Decode(out))
  {
  }

  /** An empty secret cannot decrypt anything non-empty. */
  lemma EmptySecretRaises(hex: string)
    requires PyFromHex(hex).Ok? && PyFromHex(hex).value != []
    ensures XorDecrypt(hex, "") == Err(ZeroDivision)
  {
    assert Latin1Encode("") == Some([]);
  }

  /** `xor_decrypt` on a parsed value: `bytes.fromhex` of a non-string
      raises a TypeError. */
  function DecryptValue(v: Json, secret: string): (r: Result<string>)
    ensures v.JStr? ==> r == XorDecrypt(v.s, secret)
    ensures !v.JStr? ==> r == Err(WrongType)
  {
    match v
    case JStr(s) => XorDecrypt(s, secret)
    case _ => Err(WrongType)
  }

  /** `[xor_decrypt(chunk, secret) for chunk in chunks]`: the first chunk
      that fails raises. */
  function DecryptAll(chunks: seq<Json>, secret: string): (r: Result<seq<string>>)
    ensures r.Ok? <==> forall j :: 0 <= j < |chunks| ==> DecryptValue(chunks[j], secret).Ok?
    ensures r.Ok? ==> |r.value| == |chunks|
    ensures r.Ok? ==> forall j :: 0 <= j < |chunks| ==> DecryptValue(chunks[j], secret) == Ok(r.value[j])
    ensures r.Err? ==> exists j :: 0 <= j < |chunks| && DecryptValue(chunks[j], secret) == Err(r.cause)
                                 && forall k :: 0 <= k < j ==> DecryptValue(chunks[k], secret).Ok?
  {
    var outs := seq(|chunks|, j requires 0 <= j < |chunks| => DecryptValue(chunks[j], secret));
    assert forall j :: 0 <= j < |chunks| ==> outs[j] == DecryptValue(chunks[j], secret);
    AllOk(outs)
  }

  /** What `enumerate(seq)` walks and `len(seq)` counts for the parsed
      order: a list's items, a string's characters, an object's keys (which
      are strings, and only their being strings matters below, so they
      stand here as empty strings); `len` of a number, bool or null raises. */
  function Positions(order: Json): (r: Result<seq<Json>>)
    ensures order.JArr? ==> r == Ok(order.items)
    ensures order.JStr? ==> r.Ok? && |r.value| == |order.s|
    ensures order.JObj? ==> r.Ok? && |r.value| == |order.fields|
    ensures r.Ok? && !order.JArr? ==> forall j :: 0 <= j < |r.value| ==> r.value[j].JStr?
    ensures r.Err? <==> !(order.JArr? || order.JStr? || order.JObj?)
    ensures r.Err? ==> r.cause == WrongType
  {
    match order
    case JArr(items) => Ok(items)
    case JStr(s) => Ok(seq(|s|, j requires 0 <= j < |s| => JStr([s[j]])))
    case JObj(fields) => Ok(seq(|fields|, _ => JStr("")))
    case _ => Err(WrongType)
  }

  /** The body of the try block for one slot: decrypt and parse the order,
      decrypt the chunks, arrange and join. The JSON parser is a parameter. */
  function PySlot(seqRaw: Json, chunks: seq<Json>, secret: string, loads: string -> Result<Json>): (r: Result<string>)
    ensures DecryptValue(seqRaw, secret).Err? ==> r == Err(DecryptValue(seqRaw, secret).cause)
  {
    var orderText :- DecryptValue(seqRaw, secret);
    var order :- loads(orderText);
    var pieces :- DecryptAll(chunks, secret);
    var positions :- Positions(order);
    PyArrange(positions, pieces)
  }

  /** The chunks a page builder writes: each piece encrypted. */
  function EncryptAll(pieces: seq<string>, secret: string): (chunks: seq<Json>)
    requires forall j :: 0 <= j < |pieces| ==> IsLatin1(pieces[j])
    requires IsLatin1(secret) && secret != ""
    ensures |chunks| == |pieces|
    ensures forall j :: 0 <= j < |pieces| ==> chunks[j] == JStr(XorEncrypt(pieces[j], secret))
  {
    seq(|pieces|, j requires 0 <= j < |pieces| => JStr(XorEncrypt(pieces[j], secret)))
  }

  /** A slot built by encrypting a permutation's text and the pieces comes
      back as the pieces joined in position order. */
  lemma SlotRoundTrip(ps: seq<int>, orderText: string, pieces: seq<string>, secret: string, loads: string -> Result<Json>)
    requires IsPermutation(ps) && |ps| <= |pieces|
    requires IsLatin1(orderText) && loads(orderText) == Ok(IntList(ps))
    requires forall j :: 0 <= j < |pieces| ==> IsLatin1(pieces[j])
    requires IsLatin1(secret) && secret != ""
    ensures PySlot(JStr(XorEncrypt(orderText, secret)), EncryptAll(pieces, secret), secret, loads)
         == Ok(Concat(Placed(ps, pieces)))
  {
    DecryptRoundTrip(orderText, secret);
    var chunks := EncryptAll(pieces, secret);
    forall j | 0 <= j < |chunks|
      ensures DecryptValue(chunks[j], secret) == Ok(pieces[j])
    {
      DecryptRoundTrip(pieces[j], secret);
    }
    assert DecryptAll(chunks, secret).value == pieces;
    PyArrangesPermutation(ps, pieces);
  }

  // ------------------------------------------------------------- slots

  /** One entry of `download_urls`: None, the joined URL, or the
      `"Error decoding: ..."` marker for the exception the try caught. */
  datatype Download = Missing | Url(url: string) | Failed(cause: Cause)

  /** The text `download_urls[i]` holds. */
  function UrlText(d: Download): (t: Option<string>)
    ensures t.None? <==> d.Missing?
    ensures d.Failed? ==> t == Some(ErrorMarker(d.cause))
    ensures d.Url? ==> t == Some(d.url)
  {
    match d
    case Missing => None
    case Url(u) => Some(u)
    case Failed(c) => Some(ErrorMarker(c))
  }

  /** Slot i: skipped when there is no chunk list `_p<i>`, no entry `_s[i]`
      or no secret (None or empty); otherwise the try block's outcome. */
  function SlotDownload(i: nat, p: map<nat, seq<Json>>, s: seq<Json>, secret: Option<string>,
                        loads: string -> Result<Json>): (d: Download)
    ensures d.Missing? <==> i !in p || i >= |s| || secret.None? || secret.value == ""
    ensures !d.Missing? ==>
      (d.Url? <==> PySlot(s[i], p[i], secret.value, loads).Ok?)
    ensures d.Url? ==> PySlot(s[i], p[i], secret.value, loads) == Ok(d.url)
    ensures d.Failed? ==> PySlot(s[i], p[i], secret.value, loads) == Err(d.cause)
  {
    if i !in p || i >= |s| || secret.None? || secret.value == "" then Missing
    else
      match PySlot(s[i], p[i], secret.value, loads)
      case Ok(u) => Url(u)
      case Err(c) => Failed(c)
  }

  /** The loop `for idx in range(l)` that fills `download_urls`. */
  method DownloadUrls(count: nat, p: map<nat, seq<Json>>, s: seq<Json>, secret: Option<string>,
                      loads: string -> Result<Json>) returns (urls: seq<Download>)
    ensures |urls| == count
    ensures forall i :: 0 <= i < count ==> urls[i] == SlotDownload(i, p, s, secret, loads)
    ensures secret.None? || secret == Some("") ==> forall i :: 0 <= i < count ==> urls[i].Missing?
  {
    urls := [];
    for idx := 0 to count
      invariant |urls| == idx
      invariant forall i :: 0 <= i < idx ==> urls[i] == SlotDownload(i, p, s, secret, loads)
    {
      urls := urls + [SlotDownload(idx, p, s, secret, loads)];
    }
  }

  /** The secret: the base64 capture of `_m.r` decoded and read as Latin-1,
      or None without a capture. A bad capture raises outside any try. */
  function SecretOf(capture: Option<string>): (r: Result<Option<string>>)
    ensures capture.None? ==> r == Ok(None)
    ensures capture.Some? ==> (r.Ok? <==> PyB64Decode(capture.value).Ok?)
    ensures r.Ok? && r.value.Some? ==> IsLatin1(r.value.value)
    ensures r.Ok? && r.value.Some? ==> Latin1Encode(r.value.value) == Some(PyB64Decode(capture.value).value)
  {
    match capture
    case None => Ok(None)
    case Some(c) =>
      var b :- PyB64Decode(c);
      Latin1BytesRoundTrip(b);
      Ok(Some(Latin1Decode(b)))
  }

  /** The secret a page builder base64-encodes comes back unchanged. */
  lemma SecretRoundTrip(secret: string)
    requires IsLatin1(secret)
    ensures SecretOf(Some(Encode(Latin1Encode(secret).value))) == Ok(Some(secret))
  {
    PyDecodeRoundTrip(Latin1Encode(secret).value);
    Latin1TextRoundTrip(secret);
  }

  // ------------------------------------------------------- server name

  /** `get_server_name_from_url`: None, "", the out-of-range marker and
      error markers are returned as they are; otherwise the URL's network
      location, or the URL itself where parsing raises. The URL parser is a
      parameter (None where it raises). */
  function ServerName(url: Option<string>, netlocOf: string -> Option<string>): (r: Option<string>)
    ensures r.None? <==> url.None?
    ensures url.Some? && (url.value == "" || url.value == OutOfRange || StartsWith(url.value, "Error decoding")) ==> r == url
    ensures url.Some? && url.value != "" && url.value != OutOfRange && !StartsWith(url.value, "Error decoding") ==>
      r == Some(if netlocOf(url.value).Some? then netlocOf(url.value).value else url.value)
  {
    match url
    case None => None
    case Some(u) =>
      if u == "" || u == OutOfRange || StartsWith(u, "Error decoding") then url
      else
        match netlocOf(u)
        case Some(host) => Some(host)
        case None => url
  }

  const OutOfRange: string := "Index out of range"

  /** Every slot that failed keeps its marker as its name. */
  lemma FailedSlotNamedByMarker(c: Cause, netlocOf: string -> Option<string>)
    ensures ServerName(UrlText(Failed(c)), netlocOf) == Some(ErrorMarker(c))
  {
  }

  // ------------------------------------------------------- quality map

  /** A `download-link` anchor: its `data-index` attribute and the
      stripped text of its `notice` span, None when either is absent. */
  datatype Link = Link(dataIndex: Option<string>, notice: Option<string>)

  /** A `quality-list`: the stripped text of its first `li` (None when it
      has none) and its download links in document order. */
  datatype QualityList = QualityList(quality: Option<string>, links: seq<Link>)

  datatype Entry = Entry(name: Option<string>, caption: string, url: Option<string>)

  /** The URL text a data index selects. */
  function Selected(n: nat, urls: seq<Download>): (t: Option<string>)
    ensures n >= |urls| ==> t == Some(OutOfRange)
    ensures n < |urls| ==> t == UrlText(urls[n])
  {
    if n < |urls| then UrlText(urls[n]) else Some(OutOfRange)
  }

  /** `int(data_index)` on an all-digit attribute: the digits' value, or
      the error for more digits than the interpreter converts. */
  function DataIndex(di: string): (r: Result<nat>)
    requires PyIsDigitString(di)
  {
    if |di| > MaxStrDigits then Err(IntTooLong) else Ok(DecimalValue(di))
  }

  /** `DataIndex` is what `int()` gives on such a string. */
  lemma DataIndexIsInt(di: string)
    requires PyIsDigitString(di)
    ensures DataIndex(di).Ok? <==> PyInt(di).Ok?
    ensures DataIndex(di).Ok? ==> PyInt(di) == Ok(DataIndex(di).value as int)
    ensures DataIndex(di).Err? ==> PyInt(di) == Err(DataIndex(di).cause)
  {
    PyIntOfDigits(di);
  }

  /** The anchors the inner loop raises on: an all-digit index that is too
      long for `int()`, or a usable index without a notice span. */
  predicate Raises(l: Link)
  {
    l.dataIndex.Some? && PyIsDigitString(l.dataIndex.value) &&
    (|l.dataIndex.value| > MaxStrDigits || l.notice.None?)
  }

  /** One anchor: skipped (None) without an all-digit `data-index`; `int()`
      raises past 4300 digits; a missing notice span raises on `.text`. */
  function LinkEntry(l: Link, urls: seq<Download>, netlocOf: string -> Option<string>): (r: Result<Option<Entry>>)
    ensures r.Err? <==> Raises(l)
    ensures r.Err? ==> r.cause == IntTooLong || r.cause == MissingAttribute
  {
    match l.dataIndex
    case None => Ok(None)
    case Some(di) =>
      if !PyIsDigitString(di) then Ok(None)
      else
        var n :- DataIndex(di);
        if l.notice.None? then Err(MissingAttribute)
        else
          var url := Selected(n, urls);
          Ok(Some(Entry(ServerName(url, netlocOf), l.notice.value, url)))
  }

  /** Which anchors are skipped, which raise, and what entry the others
      give: the URL text the index selects and the server name of it. */
  lemma LinkEntryCases(l: Link, urls: seq<Download>, netlocOf: string -> Option<string>)
    ensures (l.dataIndex.None? || !PyIsDigitString(l.dataIndex.value)) ==> LinkEntry(l, urls, netlocOf) == Ok(None)
    ensures l.dataIndex.Some? && PyIsDigitString(l.dataIndex.value) ==>
      if |l.dataIndex.value| > MaxStrDigits then LinkEntry(l, urls, netlocOf) == Err(IntTooLong)
      else if l.notice.None? then LinkEntry(l, urls, netlocOf) == Err(MissingAttribute)
      else
        var url := Selected(DecimalValue(l.dataIndex.value), urls);
        LinkEntry(l, urls, netlocOf) == Ok(Some(Entry(ServerName(url, netlocOf), l.notice.value, url)))
  {
  }

  /** The entries of a run of anchors, in order; the first raise wins. */
  function LinkEntries(links: seq<Link>, urls: seq<Download>, netlocOf: string -> Option<string>): (r: Result<seq<Entry>>)
    ensures r.Ok? <==> forall j :: 0 <= j < |links| ==> !Raises(links[j])
    ensures r.Ok? ==> |r.value| <= |links|
    decreases |links|
  {
    if |links| == 0 then Ok([])
    else
      var n := |links| - 1;
      assert forall j :: 0 <= j < n ==> links[..n][j] == links[j];
      var init :- LinkEntries(links[..n], urls, netlocOf);
      var last :- LinkEntry(links[n], urls, netlocOf);
      Ok(init + (if last.Some? then [last.value] else []))
  }

  lemma {:induction false} LinkEntriesAppend(a: seq<Link>, b: seq<Link>, urls: seq<Download>, netlocOf: string -> Option<string>)
    requires LinkEntries(a, urls, netlocOf).Ok? && LinkEntries(b, urls, netlocOf).Ok?
    ensures LinkEntries(a + b, urls, netlocOf)
         == Ok(LinkEntries(a, urls, netlocOf).value + LinkEntries(b, urls, netlocOf).value)
    decreases |b|
  {
    if |b| > 0 {
      var n := |b| - 1;
      var ab := a + b;
      var m := |ab| - 1;
      assert ab[..m] == a + b[..n];
      assert ab[m] == b[n];
      LinkEntriesAppend(a, b[..n], urls, netlocOf);
      var last := LinkEntry(b[n], urls, netlocOf).value;
      var tail := if last.Some? then [last.value] else [];
      var ea := LinkEntries(a, urls, netlocOf).value;
      var eb := LinkEntries(b[..n], urls, netlocOf).value;
      assert LinkEntries(b, urls, netlocOf) == Ok(eb + tail);
      assert LinkEntries(ab[..m], urls, netlocOf) == Ok(ea + eb);
      assert LinkEntries(ab, urls, netlocOf) == Ok((ea + eb) + tail);
      assert (ea + eb) + tail == ea + (eb + tail);
    } else {
      assert a + b == a;
      assert LinkEntries(b, urls, netlocOf) == Ok([]);
      assert LinkEntries(a, urls, netlocOf).value + [] == LinkEntries(a, urls, netlocOf).value;
    }
  }

  /** `quality_map`, as its (quality, entries) pairs in insertion order. */
  type QualityMap = seq<(string, seq<Entry>)>

  predicate DistinctKeys(m: QualityMap)
  {
    forall i, j :: 0 <= i < j < |m| ==> m[i].0 != m[j].0
  }

  /** `quality_map.get(q, [])`. */
  function Lookup(m: QualityMap, q: string): (es: seq<Entry>)
    ensures (forall i :: 0 <= i < |m| ==> m[i].0 != q) ==> es == []
    ensures DistinctKeys(m) ==> forall i :: 0 <= i < |m| && m[i].0 == q ==> es == m[i].1
    decreases |m|
  {
    if |m| == 0 then []
    else if m[0].0 == q then m[0].1
    else Lookup(m[1..], q)
  }

  function Keys(m: QualityMap): set<string>
  {
    set i | 0 <= i < |m| :: m[i].0
  }

  /** Appending a list's entries under its quality: the key is created
      (at the end) only when there is at least one entry to append. */
  function Merge(m: QualityMap, q: string, es: seq<Entry>): (r: QualityMap)
    requires DistinctKeys(m)
    ensures DistinctKeys(r)
    ensures Keys(r) <= Keys(m) + {q}
    ensures forall k :: Lookup(r, k) == Lookup(m, k) + (if k == q then es else [])
    ensures (forall i :: 0 <= i < |m| ==> m[i].1 != []) ==> forall i :: 0 <= i < |r| ==> r[i].1 != []
    decreases |m|
  {
    if es == [] then m
    else if |m| == 0 then [(q, es)]
    else if m[0].0 == q then
      assert forall i :: 0 < i < |m| ==> m[i].0 != q;
      KeysCons(m[0], m[1..]);
      KeysCons((q, m[0].1 + es), m[1..]);
      assert [m[0]] + m[1..] == m;
      [(q, m[0].1 + es)] + m[1..]
    else
      var rest := Merge(m[1..], q, es);
      assert forall k :: Lookup(m, k) == if k == m[0].0 then m[0].1 else Lookup(m[1..], k);
      assert m[0].0 !in Keys(m[1..]);
      KeysCons(m[0], m[1..]);
      KeysCons(m[0], rest);
      assert [m[0]] + m[1..] == m;
      [m[0]] + rest
  }

  lemma KeysCons(h: (string, seq<Entry>), t: QualityMap)
    ensures Keys([h] + t) == {h.0} + Keys(t)
  {
    var r := [h] + t;
    forall x | x in Keys(r)
      ensures x in {h.0} + Keys(t)
    {
      var i :| 0 <= i < |r| && r[i].0 == x;
      if i > 0 {
        assert t[i - 1].0 == x;
      }
    }
    forall x | x in {h.0} + Keys(t)
      ensures x in Keys(r)
    {
      if x == h.0 {
        assert r[0].0 == x;
      } else {
        var i :| 0 <= i < |t| && t[i].0 == x;
        assert r[i + 1].0 == x;
      }
    }
  }

  /** Every anchor of the lists whose quality is q, in document order. */
  function LinksUnder(lists: seq<QualityList>, q: string): seq<Link>
    decreases |lists|
  {
    if |lists| == 0 then []
    else
      var n := |lists| - 1;
      LinksUnder(lists[..n], q) + (if lists[n].quality == Some(q) then lists[n].links else [])
  }

  /** The outer loop over quality lists. A list without any `li` is skipped
      before its anchors are looked at. */
  function BuildMap(lists: seq<QualityList>, urls: seq<Download>, netlocOf: string -> Option<string>): (r: Result<QualityMap>)
    ensures r.Ok? <==> forall i, j :: 0 <= i < |lists| && lists[i].quality.Some? && 0 <= j < |lists[i].links| ==>
      !Raises(lists[i].links[j])
    ensures r.Ok? ==> DistinctKeys(r.value)
    ensures r.Ok? ==> forall i :: 0 <= i < |r.value| ==> r.value[i].1 != []
    decreases |lists|
  {
    if |lists| == 0 then Ok([])
    else
      var n := |lists| - 1;
      assert forall i :: 0 <= i < n ==> lists[..n][i] == lists[i];
      var m :- BuildMap(lists[..n], urls, netlocOf);
      var l := lists[n];
      if l.quality.None? then Ok(m)
      else
        var es :- LinkEntries(l.links, urls, netlocOf);
        Ok(Merge(m, l.quality.value, es))
  }

  /** The entries under each quality are those of all its lists' anchors,
      in document order, and a quality is a key exactly when it has one. */
  lemma {:induction false} BuildMapGathers(lists: seq<QualityList>, urls: seq<Download>, netlocOf: string -> Option<string>, q: string)
    requires BuildMap(lists, urls, netlocOf).Ok?
    ensures LinkEntries(LinksUnder(lists, q), urls, netlocOf).Ok?
    ensures Lookup(BuildMap(lists, urls, netlocOf).value, q) == LinkEntries(LinksUnder(lists, q), urls, netlocOf).value
    decreases |lists|
  {
    if |lists| > 0 {
      var n := |lists| - 1;
      var init := lists[..n];
      assert forall i :: 0 <= i < n ==> init[i] == lists[i];
      BuildMapGathers(init, urls, netlocOf, q);
      var l := lists[n];
      var tail := if l.quality == Some(q) then l.links else [];
      assert LinkEntries(tail, urls, netlocOf).Ok?;
      LinkEntriesAppend(LinksUnder(init, q), tail, urls, netlocOf);
      if l.quality.Some? {
        var es := LinkEntries(l.links, urls, netlocOf).value;
        assert tail == [] ==> LinkEntries(tail, urls, netlocOf) == Ok([]);
      } else {
        assert LinkEntries(tail, urls, netlocOf) == Ok([]);
      }
    }
  }

  /** The whole routine: the secret, the slot URLs, then the map. */
  method ExtractDownloadLinks(capture: Option<string>, count: nat, p: map<nat, seq<Json>>, s: seq<Json>,
                              lists: seq<QualityList>, loads: string -> Result<Json>,
                              netlocOf: string -> Option<string>) returns (r: Result<QualityMap>)
    ensures SecretOf(capture).Err? ==> r == Err(SecretOf(capture).cause)
    ensures SecretOf(capture).Ok? ==>
      r == BuildMap(lists, seq(count, i requires 0 <= i < count => SlotDownload(i, p, s, SecretOf(capture).value, loads)), netlocOf)
  {
    var secret := SecretOf(capture);
    if secret.Err? {
      return Err(secret.cause);
    }
    var urls := DownloadUrls(count, p, s, secret.value, loads);
    assert urls == seq(count, i requires 0 <= i < count => SlotDownload(i, p, s, secret.value, loads));
    r := BuildMap(lists, urls, netlocOf);
  }
}
