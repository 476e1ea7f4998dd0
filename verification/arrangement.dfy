/** Putting decrypted chunks in order: chunk j is written to position
    `seq[j]` and the positions are joined. The Python loop
    (wit_anime.py, `extract_download_links`) writes into a list of
    `len(seq)` empty slots, wraps negative positions, raises on anything
    out of range, and `"".join` raises on a slot left empty. The script
    (px9.js, `prepare`) writes into a growing array, where an unwritten
    hole or an `undefined` chunk joins as the empty string. */
module Arrangement {
  import opened Results
  import opened Text
  import opened JsonValues
  import opened Numerals

  // ----------------------------------------------------------- Python

  /** The slot `arranged[pos]` writes in a list of n slots, if any. */
  function Dest(n: nat, pos: Json): (k: Option<nat>)
    ensures k.Some? ==> k.value < n
    ensures pos.JInt? && 0 <= pos.i < n ==> k == Some(pos.i)
  {
    match AsPyInt(pos)
    case Some(v) => WrapIndex(n, v)
    case None => None
  }

  /** The last of the first m writes that lands in slot k: the write whose
      chunk the slot holds at the end. */
  function LastWriter(positions: seq<Json>, n: nat, m: nat, k: nat): (j: Option<nat>)
    requires m <= |positions|
    ensures j.Some? ==> j.value < m && Dest(n, positions[j.value]) == Some(k)
    ensures j.Some? ==> forall i :: j.value < i < m ==> Dest(n, positions[i]) != Some(k)
    ensures j.None? ==> forall i :: 0 <= i < m ==> Dest(n, positions[i]) != Some(k)
    decreases m
  {
    if m == 0 then None
    else if Dest(n, positions[m - 1]) == Some(k) then Some(m - 1)
    else LastWriter(positions, n, m - 1, k)
  }

  /** The first m iterations of `for j, pos in enumerate(seq): arranged[pos]
      = decrypted_chunks[j]` over `arranged = [None] * len(seq)`. The chunk
      is read first, so a missing chunk raises before a bad position does. */
  function PyPlace(positions: seq<Json>, pieces: seq<string>, m: nat): (r: Result<seq<Option<string>>>)
    requires m <= |positions|
    ensures r.Ok? <==> m <= |pieces| && forall j :: 0 <= j < m ==> Dest(|positions|, positions[j]).Some?
    ensures r.Err? ==> r.cause == IndexOutOfRange || r.cause == WrongType
    ensures r.Err? && (forall j :: 0 <= j < m ==> AsPyInt(positions[j]).Some?) ==> r.cause == IndexOutOfRange
    ensures r.Ok? ==> |r.value| == |positions|
    ensures r.Ok? ==> forall k :: 0 <= k < |positions| ==>
      r.value[k] == match LastWriter(positions, |positions|, m, k) {
        case None => None
        case Some(j) => Some(pieces[j])
      }
    decreases m
  {
    if m == 0 then Ok(seq(|positions|, _ => None))
    else
      var j := m - 1;
      var a :- PyPlace(positions, pieces, j);
      if j >= |pieces| then Err(IndexOutOfRange)
      else
        var pos :- match AsPyInt(positions[j]) { case Some(v) => Ok(v) case None => Err(WrongType) };
        match WrapIndex(|positions|, pos)
        case None => Err(IndexOutOfRange)
        case Some(k) => Ok(a[k := Some(pieces[j])])
  }

  /** The strings of a list with every slot filled. */
  function Filled(a: seq<Option<string>>): (r: seq<string>)
    requires forall k :: 0 <= k < |a| ==> a[k].Some?
    ensures |r| == |a| && forall k :: 0 <= k < |a| ==> a[k] == Some(r[k])
  {
    seq(|a|, k requires 0 <= k < |a| && a[k].Some? => a[k].value)
  }

  /** `"".join(arranged)`: a slot still None raises a TypeError. */
  function PyJoin(a: seq<Option<string>>): (r: Result<string>)
    ensures r.Ok? <==> forall k :: 0 <= k < |a| ==> a[k].Some?
    ensures r.Err? ==> r.cause == UnfilledPosition
    ensures r.Ok? ==> r.value == Concat(Filled(a))
  {
    if forall k :: 0 <= k < |a| ==> a[k].Some? then Ok(Concat(Filled(a))) else Err(UnfilledPosition)
  }

  /** The whole Python arrangement of one slot. */
  function PyArrange(positions: seq<Json>, pieces: seq<string>): (r: Result<string>)
    ensures r.Err? ==> r.cause in {IndexOutOfRange, WrongType, UnfilledPosition}
  {
    var a :- PyPlace(positions, pieces, |positions|);
    PyJoin(a)
  }

  // ----------------------------------------------------- permutations

  /** Every position from 0 to n - 1 exactly once. */
  predicate IsPermutation(ps: seq<int>)
  {
    && (forall j :: 0 <= j < |ps| ==> 0 <= ps[j] < |ps|)
    && (forall i, j :: 0 <= i < j < |ps| ==> ps[i] != ps[j])
  }

  function Elements(ps: seq<int>): set<int>
  {
    set j | 0 <= j < |ps| :: ps[j]
  }

  /** The positions 0 to n - 1. */
  function Below(n: nat): (r: set<int>)
    ensures forall k :: k in r <==> 0 <= k < n
    ensures |r| == n
  {
    if n == 0 then {} else Below(n - 1) + {n - 1}
  }

  lemma {:induction false} ElementsCard(ps: seq<int>)
    requires forall i, j :: 0 <= i < j < |ps| ==> ps[i] != ps[j]
    ensures |Elements(ps)| == |ps|
    decreases |ps|
  {
    if |ps| > 0 {
      var init := ps[..|ps| - 1];
      ElementsCard(init);
      assert Elements(ps) == Elements(init) + {ps[|ps| - 1]};
      assert ps[|ps| - 1] !in Elements(init);
    }
  }

  lemma SubsetCard(a: set<int>, b: set<int>)
    requires a <= b
    ensures |a| <= |b|
  {
    assert b == a + (b - a);
    assert a * (b - a) == {};
  }

  /** n distinct positions below n cover every position. */
  lemma Pigeonhole(ps: seq<int>)
    requires IsPermutation(ps)
    ensures forall k :: 0 <= k < |ps| ==> k in ps
  {
    forall k | 0 <= k < |ps|
      ensures k in ps
    {
      if k !in ps {
        var n := |ps|;
        var rest := Below(n) - {k};
        assert Below(n) == rest + {k};
        assert |rest| == n - 1;
        ElementsCard(ps);
        assert Elements(ps) <= rest;
        SubsetCard(Elements(ps), rest);
        assert false;
      }
    }
  }

  /** Where value k sits in ps, if it does. */
  function IndexOf(ps: seq<int>, k: int): (j: Option<nat>)
    ensures j.Some? ==> j.value < |ps| && ps[j.value] == k
    ensures j.None? ==> k !in ps
    decreases |ps|
  {
    if |ps| == 0 then None
    else if ps[|ps| - 1] == k then Some(|ps| - 1)
    else
      match IndexOf(ps[..|ps| - 1], k)
      case None =>
        assert ps == ps[..|ps| - 1] + [ps[|ps| - 1]];
        None
      case Some(j) => Some(j)
  }

  /** The chunks in the order a permutation puts them: chunk j at ps[j]. */
  function Placed(ps: seq<int>, pieces: seq<string>): (r: seq<string>)
    requires IsPermutation(ps) && |ps| <= |pieces|
    ensures |r| == |ps|
    ensures forall j :: 0 <= j < |ps| ==> r[ps[j]] == pieces[j]
  {
    Pigeonhole(ps);
    seq(|ps|, k requires 0 <= k < |ps| => pieces[IndexOf(ps, k).value])
  }

  /** On a permutation with enough chunks the Python loop fills every slot
      once and joins the chunks in position order. */
  lemma PyPlacesPermutation(ps: seq<int>, pieces: seq<string>)
    requires IsPermutation(ps) && |ps| <= |pieces|
    ensures PyPlace(IntList(ps).items, pieces, |ps|).Ok?
    ensures forall k :: 0 <= k < |ps| ==>
      PyPlace(IntList(ps).items, pieces, |ps|).value[k] == Some(Placed(ps, pieces)[k])
  {
    var positions := IntList(ps).items;
    var n := |ps|;
    assert forall j :: 0 <= j < n ==> Dest(n, positions[j]) == Some(ps[j]);
    var a := PyPlace(positions, pieces, n).value;
    var placed := Placed(ps, pieces);
    Pigeonhole(ps);
    forall k | 0 <= k < n
      ensures a[k] == Some(placed[k])
    {
      assert k in ps;
      var j :| 0 <= j < n && ps[j] == k;
      var w := LastWriter(positions, n, n, k);
      assert w.Some? by {
        assert Dest(n, positions[j]) == Some(k);
      }
      assert ps[w.value] == k;
    }
  }

  lemma PyArrangesPermutation(ps: seq<int>, pieces: seq<string>)
    requires IsPermutation(ps) && |ps| <= |pieces|
    ensures PyArrange(IntList(ps).items, pieces) == Ok(Concat(Placed(ps, pieces)))
  {
    PyPlacesPermutation(ps, pieces);
    var a := PyPlace(IntList(ps).items, pieces, |ps|).value;
    assert Filled(a) == Placed(ps, pieces);
  }

  /** The slots the positions name, when every one names a slot. */
  function Dests(positions: seq<Json>): (ds: seq<int>)
    requires forall j :: 0 <= j < |positions| ==> Dest(|positions|, positions[j]).Some?
    ensures |ds| == |positions|
    ensures forall j :: 0 <= j < |ds| ==> Dest(|positions|, positions[j]).value == ds[j]
  {
    seq(|positions|, j requires 0 <= j < |positions| => Dest(|positions|, positions[j]).value as int)
  }

  /** What the Python loop needs to succeed: a chunk for every position,
      every position naming a slot, and no two naming the same one. */
  predicate PyArrangeable(positions: seq<Json>, pieces: seq<string>)
  {
    var n := |positions|;
    && n <= |pieces|
    && (forall j :: 0 <= j < n ==> Dest(n, positions[j]).Some?)
    && (forall i, j :: 0 <= i < j < n ==> Dest(n, positions[i]) != Dest(n, positions[j]))
  }

  /** A sequence has no more distinct values than entries ... */
  lemma {:induction false} ElementsAtMost(ps: seq<int>)
    ensures |Elements(ps)| <= |ps|
    decreases |ps|
  {
    if |ps| > 0 {
      var init := ps[..|ps| - 1];
      ElementsAtMost(init);
      assert Elements(ps) == Elements(init) + {ps[|ps| - 1]};
    }
  }

  /** ... and fewer when a value repeats. */
  lemma ElementsRepeat(ps: seq<int>, i: nat, j: nat)
    requires i < j < |ps| && ps[i] == ps[j]
    ensures |Elements(ps)| < |ps|
  {
    var t := ps[..j] + ps[j + 1..];
    assert Elements(ps) == Elements(t) by {
      forall v | v in Elements(ps) ensures v in Elements(t) {
        var k :| 0 <= k < |ps| && ps[k] == v;
        if k < j {
          assert t[k] == v;
        } else if k == j {
          assert t[i] == v;
        } else {
          assert t[k - 1] == v;
        }
      }
      forall v | v in Elements(t) ensures v in Elements(ps) {
        var k :| 0 <= k < |t| && t[k] == v;
        if k < j {
          assert ps[k] == v;
        } else {
          assert ps[k + 1] == v;
        }
      }
    }
    ElementsAtMost(t);
  }

  /** Exactly when the Python loop succeeds, and then it joins the chunks
      in the order the slots put them. */
  lemma PyArrangeSucceeds(positions: seq<Json>, pieces: seq<string>)
    ensures PyArrange(positions, pieces).Ok? <==> PyArrangeable(positions, pieces)
    ensures PyArrangeable(positions, pieces) ==>
      IsPermutation(Dests(positions))
      && PyArrange(positions, pieces).value == Concat(Placed(Dests(positions), pieces))
  {
    if PyArrangeable(positions, pieces) {
      PyArrangeWhenArrangeable(positions, pieces);
    } else if PyArrange(positions, pieces).Ok? {
      PyArrangeNeedsDistinct(positions, pieces);
    }
  }

  lemma DestsPermutation(positions: seq<Json>, pieces: seq<string>)
    requires PyArrangeable(positions, pieces)
    ensures IsPermutation(Dests(positions))
  {
    var n := |positions|;
    var ds := Dests(positions);
    forall i, j | 0 <= i < j < n ensures ds[i] != ds[j] {
      assert Dest(n, positions[i]) != Dest(n, positions[j]);
    }
  }

  lemma PyPlaceFills(positions: seq<Json>, pieces: seq<string>)
    requires PyArrangeable(positions, pieces)
    ensures IsPermutation(Dests(positions))
    ensures PyPlace(positions, pieces, |positions|).Ok?
    ensures forall k :: 0 <= k < |positions| ==>
      PyPlace(positions, pieces, |positions|).value[k] == Some(Placed(Dests(positions), pieces)[k])
  {
    var n := |positions|;
    var a := PyPlace(positions, pieces, n).value;
    var ds := Dests(positions);
    DestsPermutation(positions, pieces);
    Pigeonhole(ds);
    var placed := Placed(ds, pieces);
    forall k | 0 <= k < n
      ensures a[k] == Some(placed[k])
    {
      assert k in ds;
      var j :| 0 <= j < n && ds[j] == k;
      var w := LastWriter(positions, n, n, k);
      assert w.Some? by {
        assert Dest(n, positions[j]) == Some(k);
      }
      assert ds[w.value] == k;
      assert placed[ds[w.value]] == pieces[w.value];
    }
  }

  lemma PyArrangeWhenArrangeable(positions: seq<Json>, pieces: seq<string>)
    requires PyArrangeable(positions, pieces)
    ensures IsPermutation(Dests(positions))
    ensures PyArrange(positions, pieces) == Ok(Concat(Placed(Dests(positions), pieces)))
  {
    PyPlaceFills(positions, pieces);
    var a := PyPlace(positions, pieces, |positions|).value;
    assert Filled(a) == Placed(Dests(positions), pieces);
  }

  lemma PyArrangeNeedsDistinct(positions: seq<Json>, pieces: seq<string>)
    requires PyArrange(positions, pieces).Ok?
    ensures PyArrangeable(positions, pieces)
  {
    var n := |positions|;
    var a := PyPlace(positions, pieces, n).value;
    var ds := Dests(positions);
    if i, j :| 0 <= i < j < n && Dest(n, positions[i]) == Dest(n, positions[j]) {
      assert ds[i] == ds[j];
      ElementsRepeat(ds, i, j);
      assert Below(n) <= Elements(ds) by {
        forall k | k in Below(n) ensures k in Elements(ds) {
          var w := LastWriter(positions, n, n, k);
          assert a[k].Some?;
          assert ds[w.value] == k;
        }
      }
      SubsetCard(Below(n), Elements(ds));
    }
  }

  /** `seq = [1, 0]` puts the second chunk first. */
  lemma PySwap(a: string, b: string)
    ensures PyArrange([JInt(1), JInt(0)], [a, b]) == Ok(b + a)
  {
    var ps := [1, 0];
    assert IntList(ps).items == [JInt(1), JInt(0)];
    PyArrangesPermutation(ps, [a, b]);
    var placed := Placed(ps, [a, b]);
    assert placed == [b, a] by {
      assert placed[ps[0]] == a && placed[ps[1]] == b;
    }
    assert Concat([b, a]) == b + a by {
      assert [b, a][1..] == [a] && [a][1..] == [];
      assert Concat([a]) == a + Concat([]);
      assert Concat([b, a]) == b + Concat([a]);
    }
  }

  /** A repeated position leaves another slot empty, and the join raises. */
  lemma PyRepeatedPosition(a: string, b: string)
    ensures PyArrange([JInt(0), JInt(0)], [a, b]) == Err(UnfilledPosition)
  {
    var positions := [JInt(0), JInt(0)];
    var r := PyPlace(positions, [a, b], 2);
    assert Dest(2, positions[0]) == Some(0) && Dest(2, positions[1]) == Some(0);
    assert LastWriter(positions, 2, 2, 1) == None;
    assert r.value[1] == None;
  }

  /** A position beyond the list raises. */
  lemma PyPositionTooLarge(a: string)
    ensures PyArrange([JInt(1)], [a]) == Err(IndexOutOfRange)
  {
    assert Dest(1, JInt(1)) == None;
  }

  // ----------------------------------------------------------- script

  /** The property key a position is written under names an array element
      only for 0 <= p < 2^32 - 1; other writes leave the elements alone. */
  predicate IsIndex(p: int)
  {
    0 <= p < ArrayIndexBound
  }

  /** The last of the first m writes that names element k. */
  function JsLastWriter(ps: seq<int>, m: nat, k: nat): (j: Option<nat>)
    requires m <= |ps|
    ensures j.Some? ==> j.value < m && ps[j.value] == k
    ensures j.Some? ==> forall i :: j.value < i < m ==> ps[i] != k
    ensures j.None? ==> forall i :: 0 <= i < m ==> ps[i] != k
    decreases m
  {
    if m == 0 then None
    else if ps[m - 1] == k then Some(m - 1)
    else JsLastWriter(ps, m - 1, k)
  }

  /** `arranged[seq[j]] = decrypted[j]` for j < m on `arranged = []`: a
      write past the end grows the array, leaving holes (None); a missing
      chunk writes `undefined` (also None). */
  function JsPlace(ps: seq<int>, pieces: seq<string>, m: nat): (a: seq<Option<string>>)
    requires m <= |ps|
    ensures |a| <= ArrayIndexBound
    ensures forall j :: 0 <= j < m && IsIndex(ps[j]) ==> ps[j] < |a|
    ensures |a| > 0 ==> exists j :: 0 <= j < m && ps[j] == |a| - 1
    ensures forall k :: 0 <= k < |a| ==>
      a[k] == match JsLastWriter(ps, m, k) {
        case None => None
        case Some(j) => if j < |pieces| then Some(pieces[j]) else None
      }
    decreases m
  {
    if m == 0 then []
    else
      var j := m - 1;
      var a := JsPlace(ps, pieces, j);
      var v := if j < |pieces| then Some(pieces[j]) else None;
      if !IsIndex(ps[j]) then a
      else if ps[j] < |a| then a[ps[j] := v]
      else a + seq(ps[j] - |a|, _ => None) + [v]
  }

  /** What one element contributes to `join('')`: a hole or `undefined`
      gives "". */
  function JoinText(e: Option<string>): string
  {
    if e.Some? then e.value else ""
  }

  /** `arranged.join('')`: every element's text, one after another. */
  function JsJoin(a: seq<Option<string>>): (s: string)
    ensures s == Concat(seq(|a|, k requires 0 <= k < |a| => JoinText(a[k])))
    ensures (forall k :: 0 <= k < |a| ==> a[k].Some?) ==> s == Concat(Filled(a))
    decreases |a|
  {
    if |a| == 0 then ""
    else
      var rest := JsJoin(a[1..]);
      assert seq(|a|, k requires 0 <= k < |a| => JoinText(a[k]))[1..]
          == seq(|a| - 1, k requires 0 <= k < |a| - 1 => JoinText(a[1..][k]));
      assert (forall k :: 0 <= k < |a| ==> a[k].Some?) ==> Filled(a)[1..] == Filled(a[1..]);
      JoinText(a[0]) + rest
  }

  function JsArrange(ps: seq<int>, pieces: seq<string>): string
  {
    JsJoin(JsPlace(ps, pieces, |ps|))
  }

  /** The text element k of `arranged` holds once every write is done: the
      chunk of the last write naming k, or "" for a hole or a missing chunk. */
  function SlotText(ps: seq<int>, pieces: seq<string>, k: nat): string
  {
    match JsLastWriter(ps, |ps|, k)
    case None => ""
    case Some(j) => if j < |pieces| then pieces[j] else ""
  }

  /** The script's arrangement on every input: the array is one longer than
      the largest position that names an element, and the result is each
      element's final text in order. */
  lemma JsArrangeOf(ps: seq<int>, pieces: seq<string>, len: nat)
    requires forall j :: 0 <= j < |ps| && IsIndex(ps[j]) ==> ps[j] < len
    requires len > 0 ==> exists j :: 0 <= j < |ps| && IsIndex(ps[j]) && ps[j] == len - 1
    ensures JsArrange(ps, pieces) == Concat(seq(len, k requires 0 <= k < len => SlotText(ps, pieces, k)))
  {
    var a := JsPlace(ps, pieces, |ps|);
    assert |a| <= len by {
      if |a| > 0 {
        var j :| 0 <= j < |ps| && ps[j] == |a| - 1;
        assert IsIndex(ps[j]);
      }
    }
    assert len <= |a| by {
      if len > 0 {
        var j :| 0 <= j < |ps| && IsIndex(ps[j]) && ps[j] == len - 1;
      }
    }
    assert seq(|a|, k requires 0 <= k < |a| => JoinText(a[k]))
        == seq(len, k requires 0 <= k < len => SlotText(ps, pieces, k));
  }

  /** On a permutation with enough chunks the script builds the same string
      as the Python loop. */
  lemma JsArrangesPermutation(ps: seq<int>, pieces: seq<string>)
    requires IsPermutation(ps) && |ps| <= |pieces| && |ps| <= ArrayIndexBound
    ensures JsArrange(ps, pieces) == Concat(Placed(ps, pieces))
  {
    var n := |ps|;
    var a := JsPlace(ps, pieces, n);
    var placed := Placed(ps, pieces);
    Pigeonhole(ps);
    assert forall j :: 0 <= j < n ==> IsIndex(ps[j]);
    assert |a| <= n by {
      if |a| > 0 {
        var j :| 0 <= j < n && ps[j] == |a| - 1;
      }
    }
    assert |a| >= n by {
      if n > 0 {
        assert n - 1 in ps;
        var j :| 0 <= j < n && ps[j] == n - 1;
      }
    }
    forall k | 0 <= k < n
      ensures a[k] == Some(placed[k])
    {
      assert k in ps;
      var j :| 0 <= j < n && ps[j] == k;
      var w := JsLastWriter(ps, n, k);
      assert w.Some?;
      assert ps[w.value] == k;
      assert w.value == j;
    }
    assert Filled(a) == placed;
  }

  /** Both copies agree on every permutation. */
  lemma ArrangementsAgree(ps: seq<int>, pieces: seq<string>)
    requires IsPermutation(ps) && |ps| <= |pieces| && |ps| <= ArrayIndexBound
    ensures PyArrange(IntList(ps).items, pieces) == Ok(JsArrange(ps, pieces))
  {
    PyArrangesPermutation(ps, pieces);
    JsArrangesPermutation(ps, pieces);
  }

  /** Where they part: a repeated position keeps the later chunk in the
      script, and a position past the end leaves a hole that joins as "". */
  lemma JsRepeatedPosition(a: string, b: string)
    ensures JsArrange([0, 0], [a, b]) == b
  {
    var ps := [0, 0];
    var r := JsPlace(ps, [a, b], 2);
    assert |r| == 1 by {
      assert forall j :: 0 <= j < 2 ==> ps[j] == 0;
    }
    assert JsLastWriter(ps, 2, 0) == Some(1);
    assert r == [Some(b)];
    assert JsJoin(r) == b + JsJoin([]);
  }

  lemma JsPositionPastEnd(a: string)
    ensures JsArrange([1], [a]) == a
  {
    var ps := [1];
    var r := JsPlace(ps, [a], 1);
    assert |r| == 2;
    assert JsLastWriter(ps, 1, 0) == None;
    assert JsLastWriter(ps, 1, 1) == Some(0);
    assert r == [None, Some(a)];
    assert r[1..] == [Some(a)];
    assert JsJoin(r) == "" + (a + JsJoin([]));
  }
}
