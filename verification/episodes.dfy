/** The episode list of an anime page (`decode_episodes` and the record
    binding in `get_episodes_list`, wit_anime.py). The page carries one
    encoded string. With a '.' in it, it is a Base64 data blob and a Base64
    key blob whose repeating-key XOR is UTF-8 JSON; without one, it is a
    Base64 HTML fragment whose rows carry each episode's URL, Base64 again,
    in an `openEpisode('...')` handler. The JSON parser and the HTML row
    selection are parameters. */
module Episodes {
  import opened Results
  import opened Bytes
  import opened Text
  import opened Base64
  import Utf8
  import opened JsonValues
  import Numerals

  // ------------------------------------------------------------ dual blob

  /** Where the first occurrence of `c` is, if any. */
  function FindChar(s: string, c: char): (i: Option<nat>)
    ensures i.None? <==> c !in s
    ensures i.Some? ==> i.value < |s| && s[i.value] == c && c !in s[..i.value]
    decreases |s|
  {
    if |s| == 0 then None
    else if s[0] == c then Some(0)
    else
      match FindChar(s[1..], c)
      case None => None
      case Some(j) =>
        assert s[..j + 1] == [s[0]] + s[1..][..j];
        Some(j + 1)
  }

  /** `data, key = s.split('.')`: unpacking succeeds only when the split
      gives exactly two parts, that is, when `s` holds exactly one '.'. */
  function SplitOnce(s: string): (r: Result<(string, string)>)
    ensures r.Ok? ==> s == r.value.0 + "." + r.value.1
    ensures r.Ok? ==> '.' !in r.value.0 && '.' !in r.value.1
    ensures r.Err? ==> r.cause == SplitArity
  {
    match FindChar(s, '.')
    case None => Err(SplitArity)
    case Some(i) =>
      if '.' in s[i + 1..] then Err(SplitArity)
      else
        assert s == s[..i] + "." + s[i + 1..];
        Ok((s[..i], s[i + 1..]))
  }

  /** Exactly one dot: the split gives back the two parts around it. */
  lemma SplitOnceOfParts(a: string, b: string)
    requires '.' !in a && '.' !in b
    ensures SplitOnce(a + "." + b) == Ok((a, b))
  {
    var s := a + "." + b;
    assert s[|a|] == '.';
    assert s[..|a|] == a;
    var i := FindChar(s, '.');
    assert i == Some(|a|);
    assert s[|a| + 1..] == b;
  }

  /** Two dots or more: the unpacking raises. */
  lemma SplitOnceRejectsTwoDots(a: string, b: string, c: string)
    ensures SplitOnce(a + "." + b + "." + c).Err?
  {
    var s := a + "." + b + "." + c;
    assert s[|a|] == '.';
    assert s[|a| + 1 + |b|] == '.';
  }

  /** The dual-blob branch, up to the first exception: the unpacking, each
      Base64 decoding, the XOR (which divides by the key length), the UTF-8
      decoding and the JSON parser each raise in turn. */
  function DualBlob(encoded: string, loads: string -> Option<Json>): (r: Result<Json>)
    ensures SplitOnce(encoded).Err? ==> r == Err(SplitArity)
    ensures SplitOnce(encoded).Ok? ==>
      var a, b := SplitOnce(encoded).value.0, SplitOnce(encoded).value.1;
      && (PyB64Decode(a).Err? ==> r == Err(PyB64Decode(a).cause))
      && (PyB64Decode(a).Ok? && PyB64Decode(b).Err? ==> r == Err(PyB64Decode(b).cause))
      && (PyB64Decode(a).Ok? && PyB64Decode(b).Ok? ==>
            var data, key := PyB64Decode(a).value, PyB64Decode(b).value;
            && (|key| == 0 && |data| > 0 ==> r == Err(ZeroDivision))
            && (|key| > 0 || |data| == 0 ==>
                  var plain := XorStream(data, key);
                  && (Utf8.Decode(plain).Err? ==> r == Err(InvalidUtf8))
                  && (Utf8.Decode(plain).Ok? ==>
                        r == if loads(Utf8.Decode(plain).value).Some? then Ok(loads(Utf8.Decode(plain).value).value)
                             else Err(JsonDecode))))
  {
    var parts :- SplitOnce(encoded);
    var data :- PyB64Decode(parts.0);
    var key :- PyB64Decode(parts.1);
    var plain :- PyXor(data, key);
    var text :- Utf8.Decode(plain);
    match loads(text)
    case None => Err(JsonDecode)
    case Some(v) => Ok(v)
  }

  // ------------------------------------------------------------ HTML rows

  /** An episode row of the decoded fragment, as the HTML selection yields
      it: a container without a clickable anchor, or the anchor's text and
      its `onclick` attribute. */
  datatype Row = Bare | Anchored(text: string, onclick: string)

  const OpenEpisode: string := "openEpisode('"

  /** The length of the longest quote-free prefix. */
  function QuoteFree(s: string): (n: nat)
    ensures n <= |s|
    ensures forall i :: 0 <= i < n ==> s[i] != '\''
    ensures n < |s| ==> s[n] == '\''
    decreases |s|
  {
    if |s| == 0 || s[0] == '\'' then 0 else 1 + QuoteFree(s[1..])
  }

  /** The pattern `openEpisode\('([^']+)'` matches at position j: the
      prefix is there, and a non-empty run of non-quote characters after it
      is closed by a quote (the greedy run cannot give back a character
      and still meet a quote, so this is the only way to match at j). */
  predicate MatchesAt(s: string, j: nat)
  {
    && j + |OpenEpisode| <= |s|
    && s[j..j + |OpenEpisode|] == OpenEpisode
    && 0 < QuoteFree(s[j + |OpenEpisode|..]) < |s[j + |OpenEpisode|..]|
  }

  /** The captured group of a match at j. */
  function ArgAt(s: string, j: nat): (a: string)
    requires MatchesAt(s, j)
    ensures |a| > 0 && forall i :: 0 <= i < |a| ==> a[i] != '\''
  {
    var rest := s[j + |OpenEpisode|..];
    rest[..QuoteFree(rest)]
  }

  /** `re.search` from position `from` on: the leftmost match. */
  function FirstMatch(s: string, from: nat): (r: Option<nat>)
    ensures r.Some? ==> from <= r.value && MatchesAt(s, r.value)
    ensures r.Some? ==> forall j :: from <= j < r.value ==> !MatchesAt(s, j)
    ensures r.None? ==> forall j :: from <= j ==> !MatchesAt(s, j)
    decreases |s| - from
  {
    if from + |OpenEpisode| > |s| then None
    else if MatchesAt(s, from) then Some(from)
    else FirstMatch(s, from + 1)
  }

  /** `m2 = re.search(r"openEpisode\('([^']+)'", onclick); m2.group(1)`. */
  function EpisodeArg(onclick: string): (r: Option<string>)
    ensures r.Some? ==> |r.value| > 0 && forall i :: 0 <= i < |r.value| ==> r.value[i] != '\''
  {
    match FirstMatch(onclick, 0)
    case None => None
    case Some(j) => Some(ArgAt(onclick, j))
  }

  /** A handler that starts with the call yields the call's argument. */
  lemma EpisodeArgOfCall(x: string, post: string)
    requires |x| > 0 && forall i :: 0 <= i < |x| ==> x[i] != '\''
    ensures EpisodeArg(OpenEpisode + x + "'" + post) == Some(x)
  {
    var s := OpenEpisode + x + "'" + post;
    var rest := s[|OpenEpisode|..];
    assert rest == x + "'" + post;
    assert QuoteFree(rest) == |x| by {
      assert rest == x + ("'" + post);
      QuoteFreeOfPrefix(x, "'" + post);
    }
    assert s[0..|OpenEpisode|] == OpenEpisode;
    assert MatchesAt(s, 0);
    assert rest[..|x|] == x;
  }

  lemma {:induction false} QuoteFreeOfPrefix(x: string, tail: string)
    requires forall i :: 0 <= i < |x| ==> x[i] != '\''
    requires |tail| > 0 && tail[0] == '\''
    ensures QuoteFree(x + tail) == |x|
    decreases |x|
  {
    if |x| == 0 {
      assert x + tail == tail;
    } else {
      assert (x + tail)[1..] == x[1..] + tail;
      QuoteFreeOfPrefix(x[1..], tail);
    }
  }

  /** The row URL: the captured argument Base64- and UTF-8-decoded, or the
      argument itself when either decoding raises. */
  function RowUrl(arg: string): (u: string)
    ensures PyB64Decode(arg).Err? ==> u == arg
    ensures PyB64Decode(arg).Ok? && Utf8.Decode(PyB64Decode(arg).value).Err? ==> u == arg
  {
    match PyB64Decode(arg)
    case Err(_) => arg
    case Ok(bytes) =>
      match Utf8.Decode(bytes)
      case Ok(text) => text
      case Err(_) => arg
  }

  /** The nested encoding is undone exactly. */
  lemma RowUrlRoundTrip(url: string)
    ensures RowUrl(Encode(Utf8.Encode(url))) == url
  {
    PyDecodeRoundTrip(Utf8.Encode(url));
    Utf8.DecodeRoundTrip(url);
  }

  /** The record `{"title": ..., "url": ...}` built for one row. */
  function RowRecord(title: string, url: string): Json
  {
    JObj(map["title" := JStr(title), "url" := JStr(url)])
  }

  /** The rows that have an anchor whose handler matches, in order. */
  function CollectRows(rows: seq<Row>): (r: seq<Json>)
    ensures |r| <= |rows|
    ensures forall i :: 0 <= i < |r| ==>
      r[i].JObj? && "title" in r[i].fields && "url" in r[i].fields && "number" !in r[i].fields
      && r[i].fields["title"].JStr? && r[i].fields["url"].JStr?
    decreases |rows|
  {
    if |rows| == 0 then []
    else
      var rest := CollectRows(rows[1..]);
      match rows[0]
      case Bare => rest
      case Anchored(text, onclick) =>
        match EpisodeArg(onclick)
        case None => rest
        case Some(arg) => [RowRecord(PyStrip(text), RowUrl(arg))] + rest
  }

  /** What a single row contributes: a record when its anchor's handler
      matches, nothing otherwise. Together with `CollectRowsAppend` this
      fixes `CollectRows` on every list of rows. */
  lemma CollectRowsOne(row: Row)
    ensures CollectRows([row]) ==
      if row.Anchored? && EpisodeArg(row.onclick).Some? then
        [RowRecord(PyStrip(row.text), RowUrl(EpisodeArg(row.onclick).value))]
      else []
  {
    assert [row][1..] == [];
  }

  /** Row collection is taken row by row: it preserves order and keeps
      nothing from one row in another's place. */
  lemma {:induction false} CollectRowsAppend(a: seq<Row>, b: seq<Row>)
    ensures CollectRows(a + b) == CollectRows(a) + CollectRows(b)
    decreases |a|
  {
    if |a| == 0 {
      assert a + b == b;
    } else {
      assert (a + b)[1..] == a[1..] + b;
      assert (a + b)[0] == a[0];
      CollectRowsAppend(a[1..], b);
    }
  }

  /** The single-blob branch: Base64 (raising on failure), UTF-8 ignoring
      errors, then the rows of the fragment. */
  function SingleBlob(encoded: string, rowsOf: string -> seq<Row>): (r: Result<Json>)
    ensures r.Ok? <==> PyB64Decode(encoded).Ok?
    ensures r.Err? ==> r.cause == PyB64Decode(encoded).cause
    ensures r.Ok? ==> r.value.JArr? && forall i :: 0 <= i < |r.value.items| ==> r.value.items[i].JObj?
  {
    var bytes :- PyB64Decode(encoded);
    Ok(JArr(CollectRows(rowsOf(Utf8.DecodeIgnore(bytes)))))
  }

  /** Encoding a fragment as the page does (UTF-8, then Base64) and decoding
      it gives back exactly the rows of that fragment. */
  lemma SingleBlobRoundTrip(html: string, rowsOf: string -> seq<Row>)
    ensures SingleBlob(Encode(Utf8.Encode(html)), rowsOf) == Ok(JArr(CollectRows(rowsOf(html))))
  {
    PyDecodeRoundTrip(Utf8.Encode(html));
    Utf8.DecodeRoundTrip(html);
    Utf8.IgnoreAgreesWhenValid(Utf8.Encode(html));
  }

  /** `decode_episodes`: never raises; any exception yields `[]`. */
  function DecodeEpisodes(encoded: string, loads: string -> Option<Json>, rowsOf: string -> seq<Row>): (v: Json)
    ensures '.' in encoded && DualBlob(encoded, loads).Err? ==> v == JArr([])
    ensures '.' in encoded && SplitOnce(encoded).Err? ==> v == JArr([])
    ensures '.' !in encoded && PyB64Decode(encoded).Err? ==> v == JArr([])
    ensures '.' !in encoded ==> v.JArr? && forall i :: 0 <= i < |v.items| ==>
      v.items[i].JObj? && "number" !in v.items[i].fields && "title" in v.items[i].fields
  {
    var r := if '.' in encoded then DualBlob(encoded, loads) else SingleBlob(encoded, rowsOf);
    if r.Ok? then r.value else JArr([])
  }

  /** A fragment encoded as the page does decodes to exactly its rows. */
  lemma FragmentRoundTrip(html: string, loads: string -> Option<Json>, rowsOf: string -> seq<Row>)
    ensures DecodeEpisodes(Encode(Utf8.Encode(html)), loads, rowsOf) == JArr(CollectRows(rowsOf(html)))
  {
    EncodeHasNoDot(Utf8.Encode(html));
    SingleBlobRoundTrip(html, rowsOf);
  }

  lemma EncodeHasNoDot(b: seq<byte>)
    ensures '.' !in Encode(b)
  {
    var s := Encode(b);
    assert forall i :: 0 <= i < |s| ==> IsBase64OrPad(s[i]);
  }

  /** Each stage of the dual-blob branch undoes one stage of the encoder. */
  lemma DualBlobStages(text: string, key: seq<byte>, loads: string -> Option<Json>)
    requires |key| > 0
    ensures var data := XorStream(Utf8.Encode(text), key);
      DualBlob(Encode(data) + "." + Encode(key), loads)
        == if loads(text).Some? then Ok(loads(text).value) else Err(JsonDecode)
  {
    var plain := Utf8.Encode(text);
    var data := XorStream(plain, key);
    var a, b := Encode(data), Encode(key);
    EncodeHasNoDot(data);
    EncodeHasNoDot(key);
    SplitOnceOfParts(a, b);
    PyDecodeRoundTrip(data);
    PyDecodeRoundTrip(key);
    XorInvolution(plain, key);
    assert PyXor(data, key) == Ok(plain);
    Utf8.DecodeRoundTrip(text);
  }

  /** The dual-blob scheme inverts its encoder: XOR the UTF-8 of `text`
      with a non-empty key, Base64 both, join with '.', and decoding yields
      what the JSON parser makes of `text` (or `[]` where it raises). */
  lemma DualBlobRoundTrip(text: string, key: seq<byte>, loads: string -> Option<Json>, rowsOf: string -> seq<Row>)
    requires |key| > 0
    ensures var data := XorStream(Utf8.Encode(text), key);
      DecodeEpisodes(Encode(data) + "." + Encode(key), loads, rowsOf)
        == if loads(text).Some? then loads(text).value else JArr([])
  {
    var data := XorStream(Utf8.Encode(text), key);
    var a := Encode(data);
    var s := a + "." + Encode(key);
    assert s[|a|] == '.';
    DualBlobStages(text, key, loads);
  }

  /** An empty key with non-empty data divides by zero: the result is `[]`. */
  lemma EmptyKeyGivesNothing(data: seq<byte>, loads: string -> Option<Json>, rowsOf: string -> seq<Row>)
    requires |data| > 0
    ensures DecodeEpisodes(Encode(data) + ".", loads, rowsOf) == JArr([])
  {
    var a := Encode(data);
    var s := a + ".";
    assert s[|a|] == '.';
    EncodeHasNoDot(data);
    assert s == a + "." + "";
    SplitOnceOfParts(a, "");
    PyDecodeRoundTrip(data);
    assert A2b("", 0, 0, 0, []) == Ok([]);
    assert PyB64Decode("") == Ok([]);
  }

  /** More than one '.' makes the unpacking raise: the result is `[]`. */
  lemma TwoDotsGiveNothing(a: string, b: string, c: string, loads: string -> Option<Json>, rowsOf: string -> seq<Row>)
    ensures DecodeEpisodes(a + "." + b + "." + c, loads, rowsOf) == JArr([])
  {
    var s := a + "." + b + "." + c;
    assert s[|a|] == '.';
    SplitOnceRejectsTwoDots(a, b, c);
  }

  // -------------------------------------------------------------- binding

  /** `str(v)` for the JSON values whose text is fixed: `None`, `True`,
      `False`, integers and strings. The text of a float, list or dict is
      not modelled. */
  function PyStr(v: Json): (r: Option<string>)
    ensures r.None? <==> v.JFloat? || v.JArr? || v.JObj?
    ensures v.JStr? ==> r == Some(v.s)
    ensures v.JInt? && v.i >= 0 ==> r == Some(Numerals.DecimalString(v.i))
    ensures v.JInt? && v.i < 0 ==> r == Some("-" + Numerals.DecimalString(-v.i))
  {
    match v
    case JNull => Some("None")
    case JBool(b) => Some(if b then "True" else "False")
    case JInt(i) => Some(if i < 0 then "-" + Numerals.DecimalString(-i) else Numerals.DecimalString(i))
    case JStr(s) => Some(s)
    case _ => None
  }

  /** `int(str(i)) == i` for every integer within the digit limit. */
  lemma PyStrIntRoundTrip(i: int)
    requires |Numerals.DecimalString(if i < 0 then -i else i)| <= Numerals.MaxStrDigits
    ensures Numerals.PyInt(PyStr(JInt(i)).value) == Ok(i)
  {
    if i >= 0 {
      Numerals.PyIntRoundTrip(i);
    } else {
      NegativeIntRoundTrip(-i);
    }
  }

  lemma NegativeIntRoundTrip(n: nat)
    requires n > 0 && |Numerals.DecimalString(n)| <= Numerals.MaxStrDigits
    ensures Numerals.PyInt("-" + Numerals.DecimalString(n)) == Ok(-(n as int))
  {
    var d := Numerals.DecimalString(n);
    Numerals.PyUnsignedOfDigits(d, "");
    assert d + "" == d;
    Numerals.DecimalRoundTrip(n);
    Numerals.PyIntNegative(d, n);
  }

  /** A record's title: a JSON value (a string where the f-string built it),
      or `f"Episode {number}"` for a number whose text is not modelled. */
  datatype Title = Value(v: Json) | EpisodeOf(number: Json)

  /** `f"Episode {number}"`. */
  function EpisodeTitle(number: Json): (t: Title)
    ensures t.Value? <==> PyStr(number).Some?
    ensures t.Value? ==> t.v == JStr("Episode " + PyStr(number).value)
  {
    match PyStr(number)
    case Some(text) => Value(JStr("Episode " + text))
    case None => EpisodeOf(number)
  }

  /** A bound record `{"num": ..., "title": ..., "url": ...}`. */
  datatype Episode = Episode(num: nat, title: Title, url: Json)

  /** The rule a bound record follows: numbered from 1 by position, the URL
      taken from the record or "", the title spelled from the number when
      the record has both a number and a URL, else the record's own title,
      else spelled from the position. */
  predicate BoundFrom(idx: nat, ep: Json, e: Episode)
  {
    && ep.JObj?
    && e.num == idx + 1
    && var m := ep.fields;
      && e.url == (if "url" in m then m["url"] else JStr(""))
      && e.title == (if "number" in m && "url" in m then EpisodeTitle(m["number"])
                     else if "title" in m then Value(m["title"])
                     else EpisodeTitle(JInt(idx + 1)))
  }

  /** One element of the list at position `idx`; calling `.get` on anything
      but a dict raises AttributeError. */
  function BindEntry(idx: nat, ep: Json): (r: Result<Episode>)
    ensures r.Ok? <==> ep.JObj?
    ensures r.Err? ==> r.cause == MissingAttribute
    ensures r.Ok? ==> BoundFrom(idx, ep, r.value)
  {
    match ep
    case JObj(m) =>
      if "number" in m && "url" in m then Ok(Episode(idx + 1, EpisodeTitle(m["number"]), m["url"]))
      else
        Ok(Episode(idx + 1,
                   if "title" in m then Value(m["title"])
                   else Value(JStr("Episode " + Numerals.DecimalString(idx + 1))),
                   if "url" in m then m["url"] else JStr("")))
    case _ => Err(MissingAttribute)
  }

  /** The two ways to spell a title meet: a record numbered by its position
      reads the same as one with neither number nor title. */
  lemma NumberAndPositionAgree(idx: nat, url: Json)
    ensures BindEntry(idx, JObj(map["number" := JInt(idx + 1), "url" := url])).value.title
         == BindEntry(idx, JObj(map["url" := url])).value.title
         == Value(JStr("Episode " + Numerals.DecimalString(idx + 1)))
  {
  }

  /** A string number is spelled as it is, with no quotes, and the title is
      taken over the record's own title. */
  lemma StringNumberTitle(idx: nat, url: Json, title: Json)
    ensures BindEntry(idx, JObj(map["number" := JStr("12"), "url" := url, "title" := title])).value.title
         == Value(JStr("Episode 12"))
  {
  }

  /** The loop over a list: it succeeds exactly when every element is a
      dict, and then keeps length and order, record i numbered i + 1. */
  function BindList(items: seq<Json>): (r: Result<seq<Episode>>)
    ensures r.Ok? <==> forall i :: 0 <= i < |items| ==> items[i].JObj?
    ensures r.Err? ==> r.cause == MissingAttribute
    ensures r.Ok? ==> |r.value| == |items|
    ensures r.Ok? ==> forall i :: 0 <= i < |items| ==> BoundFrom(i, items[i], r.value[i])
    decreases |items|
  {
    if |items| == 0 then Ok([])
    else
      var n := |items| - 1;
      var init := BindList(items[..n]);
      if init.Err? then
        assert !items[..n][0].JObj? || exists i :: 0 <= i < n && !items[..n][i].JObj?;
        Err(MissingAttribute)
      else
        match BindEntry(n, items[n])
        case Err(c) => Err(c)
        case Ok(e) =>
          assert forall i :: 0 <= i < n ==> items[..n][i] == items[i];
          Ok(init.value + [e])
  }

  /** `for idx, ep in enumerate(episodes)`: a list is bound element by
      element; iterating a dict or a string yields strings, which raise on
      `.get` unless there is nothing to iterate; anything else is not
      iterable. */
  function Bind(episodes: Json): (r: Result<seq<Episode>>)
    ensures episodes.JObj? ==> r == if |episodes.fields| == 0 then Ok([]) else Err(MissingAttribute)
    ensures episodes.JStr? ==> r == if |episodes.s| == 0 then Ok([]) else Err(MissingAttribute)
    ensures episodes.JNull? || episodes.JBool? || episodes.JInt? || episodes.JFloat? ==> r == Err(WrongType)
  {
    match episodes
    case JArr(items) => BindList(items)
    case JObj(m) => if |m| == 0 then Ok([]) else Err(MissingAttribute)
    case JStr(s) => if |s| == 0 then Ok([]) else Err(MissingAttribute)
    case _ => Err(WrongType)
  }

  /** `get_episodes_list` after the page scan: no encoded string means no
      episodes. */
  function EpisodesList(encoded: Option<string>, loads: string -> Option<Json>, rowsOf: string -> seq<Row>): (r: Result<seq<Episode>>)
    ensures encoded.None? ==> r == Ok([])
    ensures encoded.Some? && '.' !in encoded.value ==> r.Ok?
  {
    match encoded
    case None => Ok([])
    case Some(e) => Bind(DecodeEpisodes(e, loads, rowsOf))
  }

  /** A single-blob list always binds: every record takes the row's own
      title, and the list keeps its length and order. */
  lemma SingleBlobBinds(encoded: string, loads: string -> Option<Json>, rowsOf: string -> seq<Row>)
    requires '.' !in encoded
    ensures var v := DecodeEpisodes(encoded, loads, rowsOf);
      && Bind(v).Ok?
      && |Bind(v).value| == |v.items|
      && forall i :: 0 <= i < |v.items| ==>
           Bind(v).value[i].num == i + 1 && Bind(v).value[i].title == Value(v.items[i].fields["title"])
  {
    var v := DecodeEpisodes(encoded, loads, rowsOf);
    var r := Bind(v);
    forall i | 0 <= i < |v.items|
      ensures r.value[i].num == i + 1 && r.value[i].title == Value(v.items[i].fields["title"])
    {
      assert BoundFrom(i, v.items[i], r.value[i]);
    }
  }
}
