/** The preview-server registries of an episode page (wit_anime.py,
    `get_resource_config_vars` and `extract_preview_servers_dynamic`). Among
    the page's decoded script variables, one list of strings holds each
    server's obfuscated URL and one list of `{k, d}` objects holds the key
    that picks how many trailing bytes of the decoded URL are decoys. */
module Registry {
  import opened Results
  import opened Bytes
  import opened Text
  import opened Base64
  import Utf8
  import opened JsonValues
  import opened Numerals

  // ----------------------------------------------------- classification

  predicate IsConfigEntry(x: Json)
  {
    x.JObj? && "k" in x.fields && "d" in x.fields
  }

  /** A list every element of which is a `{k, d}` object (vacuously the
      empty list). */
  predicate IsConfigList(v: Json)
  {
    v.JArr? && forall i :: 0 <= i < |v.items| ==> IsConfigEntry(v.items[i])
  }

  /** A list of strings, tested only when it is not a config list. */
  predicate IsResourceList(v: Json)
  {
    v.JArr? && !IsConfigList(v) && forall i :: 0 <= i < |v.items| ==> v.items[i].JStr?
  }

  /** The last position whose value satisfies `p`: the reference for "the
      last matching list wins". */
  function LastWhere(vs: seq<Json>, p: Json -> bool): (r: Option<nat>)
    ensures r.Some? ==> r.value < |vs| && p(vs[r.value])
    ensures r.Some? ==> forall j :: r.value < j < |vs| ==> !p(vs[j])
    ensures r.None? ==> forall j :: 0 <= j < |vs| ==> !p(vs[j])
    decreases |vs|
  {
    if |vs| == 0 then None
    else if p(vs[|vs| - 1]) then Some(|vs| - 1)
    else LastWhere(vs[..|vs| - 1], p)
  }

  /** The two registries in typed form. */
  datatype Registries = Registries(resources: seq<string>, configs: seq<map<string, Json>>)

  function Strings(items: seq<Json>): (r: seq<string>)
    requires forall i :: 0 <= i < |items| ==> items[i].JStr?
    ensures |r| == |items| && forall i :: 0 <= i < |items| ==> JStr(r[i]) == items[i]
  {
    seq(|items|, i requires 0 <= i < |items| && items[i].JStr? => items[i].s)
  }

  function Objects(items: seq<Json>): (r: seq<map<string, Json>>)
    requires forall i :: 0 <= i < |items| ==> items[i].JObj?
    ensures |r| == |items| && forall i :: 0 <= i < |items| ==> JObj(r[i]) == items[i]
  {
    seq(|items|, i requires 0 <= i < |items| && items[i].JObj? => items[i].fields)
  }

  /** `get_resource_config_vars` over the decoded variables in page order
      (values that are not JSON lists are skipped). A list of `{k, d}`
      objects becomes the config candidate, otherwise a list of strings the
      resource candidate, each later one replacing the earlier; the pair is
      returned only when both are non-empty and of equal length. */
  method ResourceConfigVars(values: seq<Json>) returns (r: Option<Registries>)
    ensures var c, s := LastWhere(values, IsConfigList), LastWhere(values, IsResourceList);
      r.Some? <==> (c.Some? && s.Some? && |values[s.value].items| > 0
                    && |values[s.value].items| == |values[c.value].items|)
    ensures r.Some? ==> |r.value.resources| == |r.value.configs| > 0
    ensures r.Some? ==> forall i :: 0 <= i < |r.value.configs| ==> "k" in r.value.configs[i] && "d" in r.value.configs[i]
    ensures var c, s := LastWhere(values, IsConfigList), LastWhere(values, IsResourceList);
      r.Some? ==> (r.value.resources == Strings(values[s.value].items)
                   && r.value.configs == Objects(values[c.value].items))
  {
    var res: Option<nat> := None;
    var conf: Option<nat> := None;
    for i := 0 to |values|
      invariant res == LastWhere(values[..i], IsResourceList)
      invariant conf == LastWhere(values[..i], IsConfigList)
    {
      assert values[..i + 1][..i] == values[..i];
      if IsConfigList(values[i]) {
        conf := Some(i);
      } else if IsResourceList(values[i]) {
        res := Some(i);
      }
    }
    assert values[..|values|] == values;
    if res.Some? && conf.Some? && |values[res.value].items| > 0
       && |values[res.value].items| == |values[conf.value].items| {
      var configs := Objects(values[conf.value].items);
      assert forall i :: 0 <= i < |configs| ==> IsConfigEntry(values[conf.value].items[i]);
      r := Some(Registries(Strings(values[res.value].items), configs));
    } else {
      r := None;
    }
  }

  // ------------------------------------------------------- slot decoding

  /** The offset `d[k]` must be a Python int (a bool counts) for the slice. */
  function AsOffset(v: Json): (r: Result<int>)
    ensures r.Ok? <==> AsPyInt(v).Some?
    ensures r.Ok? ==> r.value == AsPyInt(v).value
    ensures r.Err? ==> r.cause == WrongType
  {
    match AsPyInt(v)
    case Some(n) => Ok(n)
    case None => Err(WrongType)
  }

  /** `int(base64.b64decode(k).decode())`: the key must be a string. */
  function KeyIndex(k: Json): (r: Result<int>)
    ensures !k.JStr? ==> r == Err(WrongType)
  {
    var text :- if k.JStr? then Ok(k.s) else Err(WrongType);
    var bytes :- PyB64Decode(text);
    var digits :- Utf8.Decode(bytes);
    PyInt(digits)
  }

  /** The body of the `try` for one slot, up to the first exception: the
      resource string reversed and stripped of characters outside the
      Base64 alphabet, Base64-decoded; the key decoded to an int and used
      to index `d`; the offset that yields dropped from the end of the
      bytes, and the rest read as UTF-8. */
  function PySlotDecode(resource: string, k: Json, d: Json): (r: Result<string>)
    ensures PyB64Decode(Filter(Reverse(resource), IsBase64OrPad)).Err? ==> r.Err?
    ensures r.Ok? ==> KeyIndex(k).Ok? && PyIndex(d, KeyIndex(k).value).Ok?
  {
    var bytes :- PyB64Decode(Filter(Reverse(resource), IsBase64OrPad));
    var kn :- KeyIndex(k);
    var entry :- PyIndex(d, kn);
    var offset :- AsOffset(entry);
    Utf8.Decode(bytes[..PrefixEnd(|bytes|, -offset)])
  }

  /** Characters outside the Base64 alphabet, inserted anywhere in a
      resource string, change nothing: they are filtered out. */
  lemma PySlotIgnoresJunk(a: string, junk: string, b: string, k: Json, d: Json)
    requires forall i :: 0 <= i < |junk| ==> !IsBase64OrPad(junk[i])
    ensures PySlotDecode(a + junk + b, k, d) == PySlotDecode(a + b, k, d)
  {
    FilterReverseIgnores(a, junk, b, IsBase64OrPad);
  }

  /** The resource stage inverts "Base64, then reverse". */
  lemma ResourceRoundTrip(payload: seq<byte>)
    ensures PyB64Decode(Filter(Reverse(Reverse(Encode(payload))), IsBase64OrPad)) == Ok(payload)
  {
    var s := Encode(payload);
    ReverseReverse(s);
    assert forall i :: 0 <= i < |s| ==> IsBase64OrPad(s[i]);
    FilterKeepsAll(s, IsBase64OrPad);
    PyDecodeRoundTrip(payload);
  }

  /** The key stage inverts "decimal, UTF-8, Base64". */
  lemma KeyRoundTrip(kn: nat)
    requires |DecimalString(kn)| <= MaxStrDigits
    ensures KeyIndex(JStr(Encode(Utf8.Encode(DecimalString(kn))))) == Ok(kn)
  {
    var digits := DecimalString(kn);
    PyDecodeRoundTrip(Utf8.Encode(digits));
    Utf8.DecodeRoundTrip(digits);
    PyIntRoundTrip(kn);
  }

  /** The encoder the scheme inverts: the URL's UTF-8 followed by decoy
      bytes, Base64-encoded and reversed; the key is the decimal position
      of the decoy count in `d`, UTF-8 and Base64 encoded. */
  lemma PySlotRoundTrip(url: string, decoys: seq<byte>, kn: nat, d: seq<Json>)
    requires |decoys| > 0 && kn < |d| && d[kn] == JInt(|decoys|)
    requires |DecimalString(kn)| <= MaxStrDigits
    ensures PySlotDecode(Reverse(Encode(Utf8.Encode(url) + decoys)),
                         JStr(Encode(Utf8.Encode(DecimalString(kn)))),
                         JArr(d)) == Ok(url)
  {
    var payload := Utf8.Encode(url) + decoys;
    ResourceRoundTrip(payload);
    KeyRoundTrip(kn);
    assert PyIndex(JArr(d), kn) == Ok(JInt(|decoys|));
    assert PrefixEnd(|payload|, -|decoys|) == |Utf8.Encode(url)|;
    assert payload[..|Utf8.Encode(url)|] == Utf8.Encode(url);
    Utf8.DecodeRoundTrip(url);
  }

  /** A zero offset keeps nothing (`b[:-0]` is `b[:0]`): the URL is empty. */
  lemma ZeroOffsetKeepsNothing(resource: string, k: Json, d: Json)
    requires PyB64Decode(Filter(Reverse(resource), IsBase64OrPad)).Ok?
    requires KeyIndex(k).Ok? && PyIndex(d, KeyIndex(k).value) == Ok(JInt(0))
    ensures PySlotDecode(resource, k, d) == Ok("")
  {
  }

  // ------------------------------------------------------------- servers

  /** A server anchor: its caption (the label text, already stripped) and its
      `data-server-id` attribute, if any. */
  datatype Anchor = Anchor(caption: string, serverId: Option<string>)

  /** The `url` of a server entry: "N/A", the decoded URL, or the
      "Error decoding: ..." marker for the exception raised. */
  datatype PreviewUrl = NotAvailable | Decoded(url: string) | DecodeError(cause: Cause)

  datatype Server = Server(caption: string, serverId: Option<string>, url: PreviewUrl)

  /** The guard of one anchor: a present, non-empty, all-digit id within
      both registries whose config has `k` and `d`. `int(server_id)` runs
      outside the `try`, so a digit string over the conversion limit
      raises out of the whole routine; `PyIntOfDigits` is what makes the
      digit string's value and that limit `int()`'s own. */
  function SlotIndex(id: Option<string>, reg: Registries): (r: Result<Option<nat>>)
    ensures r.Err? <==> id.Some? && PyIsDigitString(id.value) && |id.value| > MaxStrDigits
    ensures r.Err? ==> r.cause == IntTooLong
    ensures r.Ok? && r.value.Some? ==>
      && id.Some? && PyIsDigitString(id.value) && r.value.value == DecimalValue(id.value)
      && r.value.value < |reg.resources| && r.value.value < |reg.configs|
      && "k" in reg.configs[r.value.value] && "d" in reg.configs[r.value.value]
    ensures id.Some? && PyIsDigitString(id.value) && |id.value| <= MaxStrDigits
      && DecimalValue(id.value) < |reg.resources| && DecimalValue(id.value) < |reg.configs|
      && "k" in reg.configs[DecimalValue(id.value)] && "d" in reg.configs[DecimalValue(id.value)]
      ==> r == Ok(Some(DecimalValue(id.value)))
  {
    match id
    case None => Ok(None)
    case Some(s) =>
      if !PyIsDigitString(s) then Ok(None)
      else if |s| > MaxStrDigits then Err(IntTooLong)
      else
        var n := DecimalValue(s);
        if n < |reg.resources| && n < |reg.configs| && "k" in reg.configs[n] && "d" in reg.configs[n]
        then Ok(Some(n))
        else Ok(None)
  }

  function SlotUrl(resource: string, config: map<string, Json>): (u: PreviewUrl)
    requires "k" in config && "d" in config
    ensures u.NotAvailable? == false
    ensures u.Decoded? <==> PySlotDecode(resource, config["k"], config["d"]).Ok?
    ensures u.Decoded? ==> u.url == PySlotDecode(resource, config["k"], config["d"]).value
    ensures u.DecodeError? ==> u.cause == PySlotDecode(resource, config["k"], config["d"]).cause
  {
    match PySlotDecode(resource, config["k"], config["d"])
    case Ok(url) => Decoded(url)
    case Err(c) => DecodeError(c)
  }

  /** The entry one anchor contributes, or the exception it raises. */
  function ServerOf(a: Anchor, reg: Registries): (r: Result<Server>)
    ensures r.Ok? ==> r.value.caption == a.caption && r.value.serverId == a.serverId
    ensures r.Ok? <==> SlotIndex(a.serverId, reg).Ok?
    ensures r.Err? ==> r.cause == IntTooLong
    ensures r.Ok? && SlotIndex(a.serverId, reg).value.None? ==> r.value.url == NotAvailable
    ensures r.Ok? && SlotIndex(a.serverId, reg).value.Some? ==>
      var n := SlotIndex(a.serverId, reg).value.value;
      r.value.url == SlotUrl(reg.resources[n], reg.configs[n])
  {
    var slot :- SlotIndex(a.serverId, reg);
    match slot
    case None => Ok(Server(a.caption, a.serverId, NotAvailable))
    case Some(n) => Ok(Server(a.caption, a.serverId, SlotUrl(reg.resources[n], reg.configs[n])))
  }

  /** An anchor whose id is the decimal text of a slot both registries
      hold, with its `k` and `d` set, is listed with that slot's decoded
      URL, or with the marker of the error that decoding raised. */
  lemma ServerOfSlot(a: Anchor, reg: Registries, n: nat)
    requires n < |reg.resources| && n < |reg.configs|
    requires "k" in reg.configs[n] && "d" in reg.configs[n]
    requires a.serverId == Some(DecimalString(n)) && |DecimalString(n)| <= MaxStrDigits
    ensures ServerOf(a, reg) == Ok(Server(a.caption, a.serverId, SlotUrl(reg.resources[n], reg.configs[n])))
  {
    DecimalRoundTrip(n);
  }

  /** `extract_preview_servers_dynamic`: nothing without both registries
      non-empty and a server section; otherwise one entry per anchor, in
      order, unless an over-long id raises. */
  method PreviewServers(reg: Registries, section: Option<seq<Anchor>>) returns (r: Result<seq<Server>>)
    ensures |reg.resources| == 0 || |reg.configs| == 0 || section.None? ==> r == Ok([])
    ensures |reg.resources| > 0 && |reg.configs| > 0 && section.Some? ==>
      (r.Err? <==> exists i :: 0 <= i < |section.value| && ServerOf(section.value[i], reg).Err?)
    ensures r.Err? ==> r.cause == IntTooLong
    ensures |reg.resources| > 0 && |reg.configs| > 0 && section.Some? && r.Ok? ==>
      && |r.value| == |section.value|
      && forall i :: 0 <= i < |section.value| ==> Ok(r.value[i]) == ServerOf(section.value[i], reg)
  {
    if |reg.resources| == 0 || |reg.configs| == 0 || section.None? {
      return Ok([]);
    }
    var anchors := section.value;
    var outs := seq(|anchors|, j requires 0 <= j < |anchors| => ServerOf(anchors[j], reg));
    assert forall j :: 0 <= j < |outs| ==> outs[j] == ServerOf(anchors[j], reg);
    var servers: seq<Server> := [];
    for i := 0 to |outs|
      invariant |servers| == i
      invariant forall j :: 0 <= j < i ==> Ok(servers[j]) == outs[j]
    {
      if outs[i].Err? {
        assert ServerOf(anchors[i], reg).Err?;
        assert outs[i].cause == IntTooLong;
        return Err(outs[i].cause);
      }
      servers := servers + [outs[i].value];
    }
    assert forall j :: 0 <= j < |anchors| ==> ServerOf(anchors[j], reg).Ok?;
    return Ok(servers);
  }
}
