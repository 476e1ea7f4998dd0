# Deobfuscation core of an anime-page scraper, in Dafny

The scraper (`wit_anime.py`) recovers media URLs that an episode page hides from casual reading. The page's own scripts do the same work in the browser: `x6c.js` for preview servers and `px9.js` for download links. This project models the pure decoding routines of all three and proves what they promise:

- **Episode list** (`decode_episodes` and the binding in `get_episodes_list`):
  - With a `.` in the payload, the string is a Base64 data blob and a Base64 key blob. Their repeating-key XOR is UTF-8 JSON.
  - Without one, it is a Base64 HTML fragment. Each row's handler `openEpisode('...')` carries a Base64 URL, which falls back to the raw text if it does not decode.
  - The records are then numbered and titled by position.
- **Preview servers** (`get_resource_config_vars`, `extract_preview_servers_dynamic`, and the copy in `x6c.js`):
  - A list of strings and a list of `{k, d}` objects are matched by position.
  - A slot's string is reversed, stripped to the Base64 alphabet and decoded. The key `k` picks an offset from `d`, and that many trailing decoy bytes are dropped.
  - The script appends an API key to one embed host. It builds its framework hash once, and sandboxes three restricted hosts.
- **Download links** (`xor_decrypt`, the slot loop and quality map of `extract_download_links`, `get_server_name_from_url`, and `px9.js`):
  - Hex strings are XOR-decrypted with a Latin-1 secret, one character per byte.
  - Chunk `j` goes to position `seq[j]`, and the positions are joined.
  - Each slot fails on its own into an `"Error decoding: ..."` marker.
  - Links are grouped by quality.

## Structure and approach

Each source routine is a pure function over immutable values, in one module per concern:

- `Results`: exception kinds, `Result` and `Option`.
- `Text`, `Bytes`, `Hex`, `Base64`, `Utf8`, `Numerals`, `JsonValues`: the library behaviour the routines rest on.
- `Episodes`, `Registry`, `PreviewScript`, `Arrangement`, `Downloads`, `DownloadScript`: the routines themselves.

Python exceptions are `Err(cause)`. JavaScript throws are `None` or a `Thrown` reply. Where both languages implement a step, both are modelled side by side. Lemmas prove:

- that the two agree on well-formed input;
- concrete inputs where they part.

The library behaviour is modelled exactly, not left abstract:

- **Base64:**
  - CPython's non-strict `a2b_base64` (padding rules, skipped characters, length errors);
  - WHATWG forgiving-base64 for `atob`.
- **Hex:** `bytes.fromhex` with whitespace between pairs, and `parseInt(_, 16)` stored into a `Uint8Array`.
- **Text decoding:** strict UTF-8 and `errors="ignore"`, per Table 3-7 of the Unicode Standard; Latin-1.
- **Integers:**
  - Python `int()` with signs, single underscores and its 4300-digit limit;
  - JavaScript `parseInt(_, 10)`;
  - the canonical array-index keys of section 7.1.21 of ECMA-262, below 2^32 − 1.

The outside world enters as parameters:

- the JSON parsers: `loads`, and `parse` on a `ScriptPage`;
- the HTML selection: episode rows, server anchors, quality lists;
- the URL parsers: `netlocOf` for `urlparse(...).netloc`, and `hostOf` for `new URL(...).hostname`;
- the regex captures: the `_m.r` capture, the count, the `_p<i>` and `_s` arrays.

Behaviour of the code that the model keeps, including where it is easy to misread:

- A slot does not check `len(seq) == len(chunks)`. Spare chunks are ignored. Too few chunks raise only when a missing one is read.
- Python wraps negative positions and offsets (`arranged[-1]`, `d[-1]`).
- `int(server_id)`, `int(data_index)` and the `.text` of a missing notice span run outside any `try`. An over-long id, or a download link without a notice, raises out of the whole routine.
- A quality becomes a key of the map only when one of its links yields an entry.
- In the script, a `prepare` that throws after assigning the cache leaves a partial cache. That cache is never rebuilt.
- In the script, a server id that names an inherited array property (`map`, `constructor`, or `length` on non-empty registries) passes the `resourceData && configSettings` guard. The hash is then built and `split` throws.
- `toArray` sizes its array by `str.length`, which counts UTF-16 code units, so a character above U+FFFF counts twice.
- The episode title `f"Episode {number}"` spells the number with `str()`: a string number appears without quotes, and `True` as `True`.

## Model

| member | source | states |
|---|---|---|
| Results.AllOk | wit_anime.py:256 | a list built element by element is all the values when nothing raises; otherwise it is the first exception raised, every element before it having succeeded |
| Results.ErrorMarker | wit_anime.py:191-192 | every error marker is non-empty and starts with "Error decoding", the prefix the server-name lookup tests for |
| Bytes.XorSelfInverse | wit_anime.py:84 | XOR of a byte with the same key byte twice gives the byte back |
| Bytes.XorStream | wit_anime.py:83-85 | repeating-key XOR keeps the length, and output byte i is data byte i XOR key byte i mod key length |
| Bytes.XorInvolution | px9.js:9-11 | encrypting twice under the same non-empty key is the identity on bytes |
| Bytes.PyXor | wit_anime.py:82-85 | the Python loop raises ZeroDivisionError exactly when the key is empty and there is data; otherwise it XORs byte by byte |
| Bytes.JsXor | px9.js:7-11 | the script's loop leaves the data unchanged under an empty secret (`x ^ NaN` is x); otherwise it XORs byte by byte |
| Bytes.PyXorAgreesWithJs | px9.js:9-11 | whenever the Python loop does not raise, it computes what the script's loop computes |
| Bytes.XorZero | px9.js:10 | XOR with 0 leaves a byte unchanged |
| Bytes.Latin1Decode | wit_anime.py:217 | decoding gives one character per byte, whose code is the byte |
| Bytes.Latin1Encode | wit_anime.py:213 | encoding succeeds exactly on text with no character above U+00FF, byte i being character i's code |
| Bytes.Latin1BytesRoundTrip | wit_anime.py:213 | encoding the Latin-1 reading of any bytes gives the bytes back |
| Bytes.Latin1TextRoundTrip | wit_anime.py:217 | reading back the Latin-1 encoding of Latin-1 text gives the text back |
| Hex.PyFromHex | wit_anime.py:212 | `bytes.fromhex` raises only a non-hexadecimal ValueError and yields at most one byte per two characters |
| Hex.FromHexPlain | wit_anime.py:212 | without whitespace, `bytes.fromhex` succeeds exactly on an even number of hex digits, and byte k is the value of characters 2k and 2k+1 |
| Hex.HexEncode | wit_anime.py:212 | the encoder the page builder uses writes two hex digits per byte, and the pair at k spells byte k |
| Hex.FromHexRoundTrip | wit_anime.py:212 | `bytes.fromhex` inverts the hex encoder |
| Hex.JsHexByte | px9.js:19 | `parseInt` of two hex digits stored in a `Uint8Array` is the pair's value |
| Hex.JsToArray | px9.js:16-22 | `toArray` yields one byte per two UTF-16 code units (the count halved and truncated), byte k being what `parseInt` reads from units 2k and 2k+1 |
| Hex.UnitChar | px9.js:19 | a code unit reads as its own character, and a lone surrogate half reads as neither whitespace, sign nor hex digit |
| Hex.UnitsToArray | px9.js:17-20 | the pairing loop writes slot k from units 2k and 2k+1, and a last odd unit writes outside the array |
| Hex.JsToArrayOfBmp | px9.js:16-22 | on text below U+10000 `toArray` yields length/2 bytes, byte k read from characters 2k and 2k+1 |
| Hex.AstralCharFillsSlot | px9.js:17-19 | a single character above U+FFFF fills one slot, and its surrogate pair reads as 0 |
| Hex.ToArrayAgreesWithFromHex | px9.js:16-22 | on an even run of hex digits `toArray` and `bytes.fromhex` give the same bytes |
| Hex.ToArrayRoundTrip | px9.js:16-22 | `toArray` inverts the hex encoder |
| Hex.OddLengthDiverges | px9.js:17-19 | on "abc" `toArray` drops the last character and gives [0xab], while `bytes.fromhex` raises |
| Base64.Encode | wit_anime.py:79-80 | the encoder the page builder uses writes a multiple of four characters, all from the alphabet or '=' |
| Base64.A2b | wit_anime.py:79-80 | CPython's decoding loop fails only with a length error or "Incorrect padding" |
| Base64.PyB64Decode | wit_anime.py:79-80 | text with a non-ASCII character raises before any decoding |
| Base64.JsAtob | x6c.js:28 | `atob` succeeds only when the input, without ASCII whitespace and trailing pads, does not leave one character over a multiple of four |
| Base64.A2bEncoded | wit_anime.py:79-80 | CPython's non-strict decoder reads an RFC 4648 encoding back to its bytes, after whatever it had already produced |
| Base64.PyDecodeRoundTrip | wit_anime.py:79-80 | `b64decode` inverts the padded encoder of section 4 of RFC 4648 |
| Base64.JsDecodeRoundTrip | x6c.js:28 | `atob` inverts the same encoder |
| Base64.DecodersAgreeOnEncoded | px9.js:37 | on a canonical padded encoding both decoders give the encoded bytes |
| Base64.UnpaddedDiverges | wit_anime.py:186 | on "QQ" Python raises "Incorrect padding" while `atob` gives [65] |
| Base64.StrayPadDiverges | x6c.js:28 | on "QUJD=" Python skips the stray pad and gives "ABC" while `atob` throws |
| Utf8.Decode | wit_anime.py:86 | strict decoding raises only the UTF-8 decode error, and never gives more characters than bytes |
| Utf8.DecodeIgnore | wit_anime.py:89 | decoding with errors="ignore" never raises and never gives more characters than bytes |
| Utf8.DecodeRoundTrip | wit_anime.py:86 | strict UTF-8 decoding inverts the encoder on every string |
| Utf8.IgnoreAgreesWhenValid | wit_anime.py:89 | on well-formed input, decoding with errors="ignore" gives what strict decoding gives |
| Utf8.AsciiDecodes | wit_anime.py:187 | ASCII bytes decode in both modes to one character per byte, the Latin-1 reading |
| Utf8.IllFormedExample | wit_anime.py:86-89 | on 41 E2 82 42 strict decoding raises while errors="ignore" drops the truncated sequence and gives "AB" |
| Numerals.DecimalString | x6c.js:15-16 | `str(n)` is a non-empty digit string with no leading zero except for 0 |
| Numerals.PyInt | wit_anime.py:187 | `int()` raises only the invalid-literal ValueError or the digit-limit ValueError |
| Numerals.DigitPrefix | x6c.js:74 | the digits `parseInt` reads are the longest run of ASCII digits at the front |
| Numerals.DecimalRoundTrip | wit_anime.py:187 | the digits of `str(n)` spell n |
| Numerals.PyIntOfDigits | wit_anime.py:176-182 | on an all-digit string `int()` gives the digits' value, or raises past 4300 digits |
| Numerals.PyIntRoundTrip | wit_anime.py:187 | `int(str(n)) == n` within the digit limit |
| Numerals.PyIntSkipsSpace | wit_anime.py:187 | leading whitespace does not change what `int()` reads |
| Numerals.PyIntNegative | wit_anime.py:187-188 | a minus sign negates the numeral after it |
| Numerals.PyIntUnderscores | wit_anime.py:187 | `int()` accepts "1_0" as 10 and rejects "1__0" and "10_" |
| Numerals.JsParseIntOfDigits | x6c.js:74 | `parseInt` of a digit string is its value |
| Numerals.ParsersAgreeOnDigits | x6c.js:74 | on a digit string within the limit `int()` and `parseInt` read the same value |
| Numerals.TrailingLetterDiverges | x6c.js:74 | on "7x" `int()` raises while `parseInt` reads 7 |
| Numerals.UnderscoreDiverges | x6c.js:74 | on "1_0" `int()` reads 10 while `parseInt` stops at 1 |
| Numerals.JsParseStops | x6c.js:74 | `parseInt` reads a run of digits and ignores whatever follows it, unless that begins with another digit |
| Numerals.JsParseIntOf | x6c.js:74 | `parseInt` of whitespace, an optional sign, a digit run and anything not starting with a digit is the run's value, negative exactly for a minus sign |
| Numerals.JsParseTrimmedOf | x6c.js:74 | after the whitespace, an optional sign and a digit run read as the run's value with that sign |
| Numerals.JsParseIntNaN | x6c.js:74 | when no digit follows the whitespace and an optional sign, `parseInt` gives NaN |
| Numerals.DigitPrefixOfRun | x6c.js:74 | the digits read are exactly the run before the first non-digit |
| Numerals.JsStopsAfterDigit | x6c.js:74 | `parseInt` of a single digit followed by anything not starting with a digit is that digit's value |
| Numerals.JsStopsAtLetter | x6c.js:74 | `parseInt("7x")` is 7 |
| Numerals.JsStopsAtUnderscore | x6c.js:74 | `parseInt("1_0")` is 1 |
| Numerals.MinusOne | wit_anime.py:187-188 | "-1" reads as -1 in Python and as negative 1 in the script |
| Numerals.ArrayIndex | x6c.js:74 | a Number selects an array element exactly when it is 0 or -0, or a positive integer below 2^32 - 1 |
| Numerals.CanonicalIndex | x6c.js:15-16 | a string key names an array element only when it is the decimal form of an index below 2^32 - 1 |
| Numerals.CanonicalIndexOfString | x6c.js:15-16 | every index below the bound is named by its decimal form |
| Numerals.DecimalStringOfValue | x6c.js:15-16 | a digit string without a leading zero is the decimal form of its value |
| Text.Reverse | wit_anime.py:184 | `[::-1]` keeps the length and puts character n-1-i at i |
| Text.ReverseReverse | x6c.js:24 | reversing twice gives the string back |
| Text.Filter | wit_anime.py:185 | the substitution keeps only characters that pass, keeps every one that does, and adds none |
| Text.FilterAppend | wit_anime.py:185 | the substitution works character by character: filtering a concatenation concatenates the filtered parts |
| Text.FilterDropsAll | wit_anime.py:185 | a text none of whose characters pass filters to "" |
| Text.ReverseAppend | wit_anime.py:184 | reversing a concatenation reverses the parts and swaps them |
| Text.FilterReverseIgnores | wit_anime.py:184-185 | characters outside the kept set, inserted anywhere, do not change the reversed and filtered text |
| Text.PyStrip | wit_anime.py:96 | `strip()` never lengthens the text and leaves no whitespace at either end |
| Text.TrimStartOfPadded | wit_anime.py:96 | trimming the front removes exactly a leading run of characters that pass the test, when what follows does not start with one |
| Text.TrimEndOfPadded | wit_anime.py:96 | trimming the back removes exactly a trailing run of characters that pass the test, when what precedes does not end with one |
| Text.PyStripOfPadded | wit_anime.py:96 | `strip()` of whitespace, then a text with non-whitespace ends, then whitespace, is exactly that text; every string splits that way once |
| Text.CharUnits | px9.js:17 | a character below U+10000 is one code unit, its own code; above, it is a high and a low surrogate that together spell it |
| Text.Utf16 | px9.js:17 | a string has at least as many UTF-16 code units as characters, each below 0x10000 |
| Text.Utf16OfBmp | px9.js:17 | text below U+10000 has one code unit per character, the character's own code |
| JsonValues.AsPyInt | wit_anime.py:189 | a parsed value is a Python int exactly when it is an integer or a bool, True counting as 1 |
| JsonValues.WrapIndex | wit_anime.py:188 | a list index selects an element exactly in [-n, n), negative indices counting from the end |
| JsonValues.PyIndex | wit_anime.py:188 | indexing a list or string follows that rule, an object raises KeyError for an int key, anything else raises TypeError |
| JsonValues.PrefixEnd | wit_anime.py:189 | a slice end counts a negative stop from the back and is clamped to [0, n] |
| JsonValues.DropLastRule | wit_anime.py:189 | `xs[:-offset]` keeps nothing for 0, drops the last offset elements for a positive offset, and keeps the first -offset for a negative one |
| Episodes.SplitOnce | wit_anime.py:78 | a successful unpacking gives two dot-free parts that rebuild the payload around one dot; a failure is the unpacking ValueError |
| Episodes.SplitOnceOfParts | wit_anime.py:78 | two dot-free parts joined by a dot split back into themselves |
| Episodes.SplitOnceRejectsTwoDots | wit_anime.py:78 | two dots make the unpacking raise |
| Episodes.DualBlob | wit_anime.py:77-87 | the dual-blob branch raises the unpacking error, then either Base64 error, then ZeroDivisionError for an empty key with data, then the UTF-8 error, then the JSON error, in that order; otherwise it is the parse of the repeating-key XOR's UTF-8 text |
| Episodes.FirstMatch | wit_anime.py:98 | `re.search` finds the leftmost position where the handler pattern matches, or none |
| Episodes.EpisodeArg | wit_anime.py:98-101 | the captured argument is non-empty and quote-free |
| Episodes.EpisodeArgOfCall | wit_anime.py:98-101 | a handler that starts with `openEpisode('x'` yields x |
| Episodes.RowUrl | wit_anime.py:102-105 | a row's URL falls back to the captured text when Base64 or UTF-8 decoding raises |
| Episodes.RowUrlRoundTrip | wit_anime.py:103 | the nested Base64-of-UTF-8 encoding of a URL is undone exactly |
| Episodes.CollectRows | wit_anime.py:92-107 | the fragment gives at most one record per row, each a dict with a string title and URL and no number |
| Episodes.CollectRowsOne | wit_anime.py:92-106 | one row gives one record, titled by its stripped anchor text and carrying its decoded URL, exactly when it has an anchor whose handler matches; otherwise none |
| Episodes.CollectRowsAppend | wit_anime.py:92-106 | rows are collected one by one and in order: the records of a concatenation are the concatenated records |
| Episodes.SingleBlob | wit_anime.py:89-107 | the single-blob branch raises exactly when the Base64 decoding does, with its error, and otherwise gives a list of dicts |
| Episodes.SingleBlobRoundTrip | wit_anime.py:89-107 | a fragment encoded as UTF-8, then Base64, decodes to exactly the records of its rows |
| Episodes.FragmentRoundTrip | wit_anime.py:75-107 | decoding such a payload gives the records of the fragment's rows |
| Episodes.DecodeEpisodes | wit_anime.py:75-110 | decoding never raises: any exception of either branch gives [], and a single blob always gives a list of titled records |
| Episodes.DualBlobStages | wit_anime.py:77-87 | each stage of the dual-blob branch undoes one stage of the encoder |
| Episodes.DualBlobRoundTrip | wit_anime.py:77-87 | a text XORed under a non-empty key, both Base64-encoded and joined by '.', decodes to what the JSON parser makes of the text, or [] |
| Episodes.EmptyKeyGivesNothing | wit_anime.py:82-84 | non-empty data with an empty key divides by zero and gives [] |
| Episodes.TwoDotsGiveNothing | wit_anime.py:77-78 | a payload with two dots gives [] |
| Episodes.BindList | wit_anime.py:125-132 | binding succeeds exactly when every element is a dict, then keeps length and order, numbering record i as i+1, taking its URL or "", and titling it from its number, its own title, or its position |
| Episodes.PyStr | wit_anime.py:127 | `str()` gives a string itself, an integer's decimal form with its sign, and None, True and False by name |
| Episodes.PyStrIntRoundTrip | wit_anime.py:127 | `int(str(i)) == i` for every integer within the digit limit |
| Episodes.EpisodeTitle | wit_anime.py:127 | `f"Episode {number}"` is "Episode " followed by the number's text |
| Episodes.BindEntry | wit_anime.py:126-132 | one element binds exactly when it is a dict, raising AttributeError otherwise, by the rule of its number, URL and title |
| Episodes.NumberAndPositionAgree | wit_anime.py:126-131 | a record numbered by its position gets the same title as one with neither number nor title |
| Episodes.StringNumberTitle | wit_anime.py:126-127 | a string number is spelled without quotes and takes precedence over the record's own title |
| Episodes.Bind | wit_anime.py:125-133 | iterating a dict or a string raises on `.get` unless it is empty, and a scalar is not iterable |
| Episodes.EpisodesList | wit_anime.py:118-133 | no payload gives no episodes, and a single-blob payload always binds |
| Episodes.SingleBlobBinds | wit_anime.py:124-133 | a single-blob list binds with length and order kept, record i numbered i+1 and titled by its row |
| Registry.LastWhere | wit_anime.py:153-157 | the reference for "later matches overwrite": the last position satisfying a test, none after it satisfying it |
| Registry.ResourceConfigVars | wit_anime.py:150-160 | the last all-`{k, d}` list is the config, the last all-string list that is not a config list is the resources, and the pair is returned exactly when both exist, the resources are non-empty and the lengths agree |
| Registry.AsOffset | wit_anime.py:189 | negating the offset needs a Python int: an integer or bool entry gives its value, anything else raises TypeError |
| Registry.KeyIndex | wit_anime.py:187 | a key that is not a string raises TypeError |
| Registry.PySlotDecode | wit_anime.py:184-189 | undecodable Base64 raises, and a decoded URL means the key decoded to an index within `d` |
| Registry.PySlotIgnoresJunk | wit_anime.py:184-185 | characters outside the Base64 alphabet inserted anywhere in a resource string change nothing |
| Registry.ResourceRoundTrip | wit_anime.py:184-186 | reversing, stripping to the Base64 alphabet and decoding inverts "encode, then reverse" |
| Registry.KeyRoundTrip | wit_anime.py:187 | decoding the key inverts "decimal, UTF-8, Base64" |
| Registry.PySlotRoundTrip | wit_anime.py:184-189 | a URL followed by decoy bytes, encoded and reversed, with a key naming the decoy count, decodes to the URL |
| Registry.ZeroOffsetKeepsNothing | wit_anime.py:189 | an offset of 0 keeps nothing (`b[:-0]`), so the URL is empty |
| Registry.SlotIndex | wit_anime.py:176-182 | a slot is decoded exactly for a present all-digit id within both registries whose config has `k` and `d`; an over-long id raises out of the routine |
| Registry.SlotUrl | wit_anime.py:183-192 | a decodable slot's URL is the decoded text, and a failure is the marker for its cause, never "N/A" |
| Registry.ServerOf | wit_anime.py:167-193 | an anchor's entry keeps its label and id, is "N/A" when the guard fails, raises only for an over-long id, and otherwise holds the selected slot's decoded URL or the marker of its decoding error |
| Registry.ServerOfSlot | wit_anime.py:176-193 | an anchor naming, by its decimal text, a slot that both registries hold with `k` and `d` set is listed with that slot's decoded URL or error marker |
| Registry.PreviewServers | wit_anime.py:162-194 | without both registries and a server section there are no entries; otherwise one entry per anchor in order, unless some anchor raises |
| PreviewScript.HashPartsJoin | x6c.js:2 | the four literal parts concatenate to the framework hash |
| PreviewScript.EnsureHash | x6c.js:19-22 | after the guard the hash is built and the parts are null, and an already built hash is left alone |
| PreviewScript.HashBuiltOnce | x6c.js:19-22 | once built, no later render changes the closure's state |
| PreviewScript.Clicks | x6c.js:13-22 | over any run of clicks, the hash is built exactly when some click rendered |
| PreviewScript.ParameterOffset | x6c.js:72-75 | `getParameterOffset` throws exactly when `atob` does, and any offset it returns is an entry of `d` |
| PreviewScript.SliceEnd | x6c.js:28 | `slice(0, -undefined)` ends at 0; otherwise a negated offset counts from the back, clamped |
| PreviewScript.JsDecodeResource | x6c.js:24-28 | a decoded resource exists only when the key and the cleaned string both decode, and it has one character per byte |
| PreviewScript.JsResourceIgnoresJunk | x6c.js:24-25 | characters outside the Base64 alphabet inserted anywhere in a resource string change nothing |
| PreviewScript.WithApiKey | x6c.js:30-32 | the frame source extends the decoded string, and differs from it exactly for an embed URL |
| PreviewScript.EmbedUrlOfId | x6c.js:30 | the embed pattern accepts the embed prefix followed by exactly a non-empty run of ASCII digits |
| PreviewScript.WithApiKeyIdempotent | x6c.js:30-32 | a suffixed URL no longer matches the pattern, so the key is appended at most once |
| PreviewScript.ApiKeyExamples | x6c.js:30-32 | an id of digits gets the key; an empty id or a non-digit id does not |
| PreviewScript.Slot | x6c.js:14-18 | a missing id selects nothing; an element is selected only through its decimal key, when both registries have it and the resource is non-empty; an inherited method name always passes the guard, and `length` passes exactly when both registries are non-empty |
| PreviewScript.DigitKeyIsNoMember | x6c.js:15-16 | no inherited property name starts with a digit, so an array-index key never reads one |
| PreviewScript.SlotOfIndex | x6c.js:14-18 | every element with a non-empty resource is reached by its decimal key |
| PreviewScript.Render | x6c.js:13-70 | nothing happens exactly when the guard fails; otherwise the hash is built, and the call throws exactly for an inherited property or a decoding throw, or shows the decoded string with the API-key rule, sandboxed exactly for the three restricted hosts |
| PreviewScript.InheritedKeysThrow | x6c.js:13-24 | on non-empty registries the ids "length" and "map" build the hash and throw at `split` |
| PreviewScript.JsKeyRoundTrip | x6c.js:72-75 | the script's key stage inverts "decimal, Base64" |
| PreviewScript.PyKeyOfAscii | wit_anime.py:187 | the Python key stage reads the same key back to the same index |
| PreviewScript.JsResourceRoundTrip | x6c.js:24-28 | the script's resource stage inverts "Base64, then reverse" |
| PreviewScript.JsAsciiRoundTrip | x6c.js:24-28 | the script recovers an ASCII URL that decoy bytes follow |
| PreviewScript.PyAsciiRoundTrip | wit_anime.py:184-189 | so does the Python routine |
| PreviewScript.ScriptAgreesWithPython | x6c.js:24-28 | on such a slot the two copies recover the same URL |
| PreviewScript.PyKeyOfText | wit_anime.py:187 | the Python key stage is `int()` of the key text |
| PreviewScript.JsKeyOfText | x6c.js:72-75 | the script's key stage is `parseInt` of the key text, used as an array index |
| PreviewScript.PyNegativeKey | wit_anime.py:188 | a key reading "-1" selects the last offset in Python |
| PreviewScript.JsNegativeKey | x6c.js:74 | in the script `d[-1]` is undefined, so the URL comes out empty |
| PreviewScript.NegativeKeyDiverges | x6c.js:72-75 | on a "-1" key the copies part: the URL in Python, "" in the script |
| PreviewScript.PyZeroOffset | wit_anime.py:189 | an offset of 0 empties the URL in Python |
| PreviewScript.JsZeroOffset | x6c.js:28 | and in the script (`slice(0, -0)`) |
| PreviewScript.ZeroOffsetAgrees | x6c.js:28 | on a zero offset both copies give "" |
| PreviewScript.LeadingZeroDiverges | x6c.js:14-18 | a server id "01" selects slot 1 in Python but names no element in the script |
| Arrangement.Dest | wit_anime.py:259 | a position that writes lands on a slot below n, and a non-negative int below n writes its own slot |
| Arrangement.LastWriter | wit_anime.py:258-259 | the reference for what a slot holds: the last write that lands in it |
| Arrangement.PyPlace | wit_anime.py:257-259 | placement succeeds exactly when there are enough chunks and every position lands, raising IndexError or TypeError otherwise; each slot holds its last writer's chunk |
| Arrangement.PyJoin | wit_anime.py:260 | the join succeeds exactly when no slot is left None, and is then the slots in order |
| Arrangement.PyArrange | wit_anime.py:257-260 | a slot's arrangement raises only IndexError, TypeError or the unfilled-slot TypeError |
| Arrangement.Dests | wit_anime.py:259 | the slot each position writes, when every position names one |
| Arrangement.ElementsAtMost | wit_anime.py:257-259 | a sequence has no more distinct values than entries |
| Arrangement.ElementsRepeat | wit_anime.py:257-259 | a repeated value leaves fewer distinct values than entries |
| Arrangement.PyArrangeSucceeds | wit_anime.py:257-260 | the Python arrangement succeeds exactly when there is a chunk for every position, every position names a slot and no two name the same one; then the slots form a permutation and the result is the chunks joined in slot order |
| Arrangement.DestsPermutation | wit_anime.py:257-259 | under those conditions the slots written form a permutation |
| Arrangement.PyPlaceFills | wit_anime.py:257-259 | under those conditions every slot holds the chunk its position names |
| Arrangement.PyArrangeWhenArrangeable | wit_anime.py:257-260 | under those conditions the join succeeds with the chunks in slot order |
| Arrangement.PyArrangeNeedsDistinct | wit_anime.py:257-260 | a successful join means no two positions named the same slot |
| Arrangement.Placed | wit_anime.py:258-259 | the reference arrangement of a permutation: chunk j at position ps[j] |
| Arrangement.PyPlacesPermutation | wit_anime.py:257-259 | on a permutation with enough chunks every slot is filled with the reference arrangement |
| Arrangement.PyArrangesPermutation | wit_anime.py:257-260 | on a permutation with enough chunks the result is the reference arrangement joined |
| Arrangement.PySwap | wit_anime.py:257-260 | `seq = [1, 0]` puts the second chunk first |
| Arrangement.PyRepeatedPosition | wit_anime.py:257-260 | a repeated position leaves a slot None and the join raises |
| Arrangement.PyPositionTooLarge | wit_anime.py:259 | a position past the list raises IndexError |
| Arrangement.JsLastWriter | px9.js:54-56 | the last write that names an element |
| Arrangement.JsPlace | px9.js:53-56 | the array grows to just past the largest index written, and each element is its last writer's chunk, or a hole |
| Arrangement.JsJoin | px9.js:58 | `join('')` is each element's text in order, a hole or `undefined` giving ""; on an array without holes it is the elements themselves |
| Arrangement.JsArrangeOf | px9.js:53-58 | the script's result on every input: for the length one past the largest position that names an element, the text each element holds after the last write to it, joined in order |
| Arrangement.JsArrangesPermutation | px9.js:53-58 | on a permutation with enough chunks the script builds the reference arrangement joined |
| Arrangement.ArrangementsAgree | px9.js:53-58 | on such a permutation the Python loop and the script build the same string |
| Arrangement.JsRepeatedPosition | px9.js:53-58 | a repeated position keeps the later chunk in the script |
| Arrangement.JsPositionPastEnd | px9.js:53-58 | a position past the end leaves a hole that joins as "" |
| Downloads.XorDecrypt | wit_anime.py:211-217 | decryption yields Latin-1 text; bad hex raises ValueError; with valid hex and a Latin-1 secret it succeeds exactly when the secret is non-empty or there is nothing to decrypt |
| Downloads.XorEncrypt | wit_anime.py:211-217 | the page builder's encryption writes two hex digits per character |
| Downloads.DecryptRoundTrip | wit_anime.py:211-217 | decrypting under the secret that encrypted gives the text back |
| Downloads.EmptySecretRaises | wit_anime.py:216 | an empty secret cannot decrypt non-empty data: ZeroDivisionError |
| Downloads.DecryptValue | wit_anime.py:212 | a parsed value that is not a string raises TypeError in `bytes.fromhex` |
| Downloads.DecryptAll | wit_anime.py:256 | the chunks decrypt exactly when each does, element by element; otherwise the first failure raises |
| Downloads.Positions | wit_anime.py:257-258 | `len(seq)` and `enumerate(seq)` work on a list, a string and an object, and raise TypeError on anything else |
| Downloads.PySlot | wit_anime.py:254-260 | a failure to decrypt the order raises before anything else |
| Downloads.SlotRoundTrip | wit_anime.py:253-261 | a slot built by encrypting a permutation's text and the pieces reads back as the pieces in position order |
| Downloads.SlotDownload | wit_anime.py:248-263 | a slot is None exactly without chunks, order entry or secret; otherwise it is the URL when the try succeeds and the marker of its exception when not |
| Downloads.DownloadUrls | wit_anime.py:246-263 | there are exactly count entries, slot i decided by its own inputs alone; with no secret every slot is None |
| Downloads.SecretOf | wit_anime.py:237-240 | the secret is the Latin-1 reading of the decoded capture, and a bad capture raises |
| Downloads.SecretRoundTrip | wit_anime.py:240 | a Base64-encoded Latin-1 secret is recovered unchanged |
| Downloads.UrlText | wit_anime.py:262-263 | a slot left None has no text, a failed slot's text is its error marker, and a decoded slot's text is its URL |
| Downloads.ServerName | wit_anime.py:227-234 | None, "", the out-of-range text and error markers pass through; otherwise the netloc, or the URL itself where parsing raises |
| Downloads.FailedSlotNamedByMarker | wit_anime.py:228-229 | a failed slot's name is its marker |
| Downloads.Selected | wit_anime.py:276 | an index past the slot list gives "Index out of range"; otherwise the slot's text |
| Downloads.DataIndexIsInt | wit_anime.py:274 | the index read is `int()`'s value of the attribute, and it raises exactly when `int()` does |
| Downloads.LinkEntry | wit_anime.py:270-280 | a link raises exactly when its all-digit index is too long or it lacks a notice span |
| Downloads.LinkEntryCases | wit_anime.py:271-280 | a link without an all-digit index is skipped; otherwise its entry is the selected text, that text's server name and the notice |
| Downloads.LinkEntries | wit_anime.py:270-280 | a run of links succeeds exactly when none raises, with at most one entry per link |
| Downloads.LinkEntriesAppend | wit_anime.py:270-280 | entries are produced link by link in document order |
| Downloads.Merge | wit_anime.py:278-280 | appending under a quality keeps keys distinct, adds at most that key, extends only its list, and never creates an empty list |
| Downloads.Lookup | wit_anime.py:278-280 | the reference for the map's contents: a quality never keyed has no entries, and a keyed one has its list |
| Downloads.BuildMap | wit_anime.py:265-281 | the map is built exactly when no link under a quality raises; keys are distinct and no entry list is empty |
| Downloads.BuildMapGathers | wit_anime.py:265-281 | the entries under a quality are those of all its lists' links, in document order |
| Downloads.ExtractDownloadLinks | wit_anime.py:236-281 | a bad secret capture raises; otherwise the map is built over the count slot URLs |
| DownloadScript.Process | px9.js:4-14 | `process` gives one Latin-1 character per two UTF-16 code units of the hex, and leaves the bytes unchanged under an empty secret |
| DownloadScript.ProcessAstralChar | px9.js:4-19 | a single character above U+FFFF processes to one byte, 0 XOR the secret |
| DownloadScript.ProcessRoundTrip | px9.js:4-14 | processing what the page builder encrypted gives the text back |
| DownloadScript.ProcessAgreesWithPython | px9.js:4-14 | on an even run of hex digits and a non-empty secret `process` and `xor_decrypt` agree |
| DownloadScript.EmptySecretDiverges | px9.js:7-10 | under an empty secret the script reads hex as plain text, while Python leaves every slot None |
| DownloadScript.SlotContent | px9.js:44-63 | an iteration completes exactly when `_s[i]` exists and parses, `_p<i>` exists and `_a` exists |
| DownloadScript.RunUntilThrow | px9.js:43-64 | the loop writes the outcomes in order up to the first throw, and throws exactly when some iteration throws |
| DownloadScript.Prepare | px9.js:36-65 | the cache stays null exactly when `_m` is missing or `atob` throws, and otherwise holds at most count entries, exactly count when nothing throws |
| DownloadScript.PrepareFillsInOrder | px9.js:36-65 | past `atob`, entry i is iteration i's content, and a throw stops at the first failing iteration |
| DownloadScript.PrepareThrowsWhenSlotThrows | px9.js:43-64 | past `atob`, `prepare` throws exactly when some iteration throws |
| DownloadScript.CacheLookup | px9.js:29-33 | `cache[idx]` yields content only for an array-index key within the cache |
| DownloadScript.Extract | px9.js:24-34 | a built cache is read without preparing; a null cache prepares, and a throw propagates while the assigned cache stays |
| DownloadScript.Clicks | px9.js:24-34 | over a run of clicks, `prepare` takes effect once, and every later click reads the cache it left |
| DownloadScript.ScriptSlotRoundTrip | px9.js:44-58 | an encrypted slot reads back as the pieces in position order, the string the Python loop builds |

## Left out

- HTTP fetching, the terminal menus, `webbrowser`, `main` and the other UI routines: these are I/O.
- HTML selection with BeautifulSoup: callers pass pre-extracted rows, anchors and quality lists.
  - The label and quality texts arrive already stripped.
  - A missing notice span is `None`.
- The DOM work in the scripts: iframe creation, class toggling, listeners, `window.open`, and the `setTimeout` stub.
- Regex scanning of the markup, including `find_js_var_dict` and `extract_dynamic_base64_vars`: the model takes the captured strings and parsed arrays. An error raised while parsing them is outside the model.
- `json.loads`, `JSON.parse`, `urlparse(...).netloc` and `new URL(...).hostname`: these foreign parsers are function parameters.
- Exception message texts: each is a `Cause` tag, and `Describe` gives a representative text.
- Python's `isdigit()` and `int()` accept non-ASCII decimal digits. Only ASCII digits are modelled.
- Numbers in the scripts are integers or NaN:
  - doubles beyond 2^53, fractions and exponents are not modelled;
  - the script's `JSON.parse` result is taken to be an integer array or a failure;
  - chunk lists are lists of strings.
- The page globals are assumed well typed. `count` is a natural number, and a missing `_t` or `_s` global, which throws in `prepare`, is not modelled.
- The `auth` values of the script's cache entries are never read, so only whether `_a` exists is modelled.
- Downloads.Positions: the keys of an object-valued order stand as empty strings, because only their being strings matters when they are used as positions.
- Downloads.BuildMap: the order of the map's keys is not stated. A quality is keyed at its first list that yields an entry.
- Downloads.PySlot: its contract states only the first failure. The whole slot is characterized through `DecryptAll`, `Positions`, `PyArrange` and `SlotRoundTrip`.
- Episodes.EpisodeTitle: `str()` of a float, a list or a dict is not modelled. A title spelled from such a number stays `EpisodeOf(number)`.
- PreviewScript.Slot: the inherited properties are those of the 2023 edition of ECMA-262 with Annex B. Properties added by later editions, or by other scripts on the page, are not modelled.
