/** Parsed JSON values as the Python code meets them after `json.loads`,
    and the list indexing and slicing rules of the two languages. The
    parsers themselves are not modelled: callers take them as functions. */
module JsonValues {
  import opened Results

  /** A value `json.loads` can return. Objects are keyed by strings; numbers
      with a fraction or exponent are kept by their text. */
  datatype Json =
    | JNull
    | JBool(b: bool)
    | JInt(i: int)
    | JFloat(repr: string)
    | JStr(s: string)
    | JArr(items: seq<Json>)
    | JObj(fields: map<string, Json>)

  /** `isinstance(v, int)` (a bool is an int in Python) and its value. */
  function AsPyInt(v: Json): (r: Option<int>)
    ensures r.Some? <==> v.JInt? || v.JBool?
    ensures v.JInt? ==> r == Some(v.i)
    ensures v.JBool? ==> r == Some(if v.b then 1 else 0)
  {
    match v
    case JInt(i) => Some(i)
    case JBool(b) => Some(if b then 1 else 0)
    case _ => None
  }

  /** The position Python's `xs[i]` selects in a list of length n: negative
      indices count from the end; anything outside [-n, n) is an IndexError. */
  function WrapIndex(n: nat, i: int): (k: Option<nat>)
    ensures k.Some? <==> -(n as int) <= i < n
    ensures k.Some? ==> k.value < n && (k.value == i || k.value == i + n)
    ensures 0 <= i < n ==> k == Some(i)
  {
    if 0 <= i < n then Some(i)
    else if -(n as int) <= i < 0 then Some(i + n)
    else None
  }

  /** Python's `v[i]` for an int index `i` on a parsed value: a list or a
      string is indexed (a character comes back as a one-character string),
      an object is looked up by key (and an int key is never among JSON's
      string keys), and any other value is not subscriptable. */
  function PyIndex(v: Json, i: int): (r: Result<Json>)
    ensures v.JArr? ==> (r.Ok? <==> -|v.items| <= i < |v.items|)
    ensures v.JArr? && r.Ok? ==> r.value == v.items[if i < 0 then i + |v.items| else i]
    ensures v.JStr? ==> (r.Ok? <==> -|v.s| <= i < |v.s|)
    ensures v.JObj? ==> r == Err(KeyMissing)
    ensures !v.JArr? && !v.JStr? && !v.JObj? ==> r == Err(WrongType)
    ensures r.Err? ==> r.cause in {IndexOutOfRange, KeyMissing, WrongType}
  {
    match v
    case JArr(xs) =>
      (match WrapIndex(|xs|, i)
       case Some(k) => Ok(xs[k])
       case None => Err(IndexOutOfRange))
    case JStr(s) =>
      (match WrapIndex(|s|, i)
       case Some(k) => Ok(JStr([s[k]]))
       case None => Err(IndexOutOfRange))
    case JObj(_) => Err(KeyMissing)
    case _ => Err(WrongType)
  }

  /** A list of ints as `json.loads` returns it. */
  function IntList(d: seq<int>): (v: Json)
    ensures v.JArr? && |v.items| == |d| && forall i :: 0 <= i < |d| ==> v.items[i] == JInt(d[i])
  {
    JArr(seq(|d|, i requires 0 <= i < |d| => JInt(d[i])))
  }

  /** The end of the prefix `xs[:stop]` keeps in a sequence of length n
      (Python's slice rule), which is also where `str.slice(0, end)` stops
      in JavaScript for an integral `end` (section 22.1.3.22 of ECMA-262):
      a negative end counts from the back and both are clamped to [0, n]. */
  function PrefixEnd(n: nat, stop: int): (e: nat)
    ensures e <= n
    ensures 0 <= stop <= n ==> e == stop
    ensures stop > n ==> e == n
    ensures -(n as int) <= stop < 0 ==> e == n + stop
    ensures stop < -(n as int) ==> e == 0
  {
    if stop < 0 then (if n + stop < 0 then 0 else n + stop)
    else if stop > n then n
    else stop
  }

  /** `xs[:-offset]`: drops the last `offset` elements; an offset of 0 keeps
      nothing (`-0` is `0`), a negative offset keeps the first `-offset`. */
  lemma DropLastRule(n: nat, offset: int)
    ensures offset == 0 ==> PrefixEnd(n, -offset) == 0
    ensures 0 < offset <= n ==> PrefixEnd(n, -offset) == n - offset
    ensures offset > n ==> PrefixEnd(n, -offset) == 0
    ensures offset < 0 ==> PrefixEnd(n, -offset) == if -offset > n then n else -offset
  {
  }
}
