/** `polygon_iterator`: the (vertices, value) pairs to colour, per heatmap style, in sorted key order. */
module Polygons {
  import opened Outcomes
  import opened Keys
  import opened Geometry
  import opened Blending

  /** One polygon to colour and the value it is paired with (possibly `None`). */
  datatype Cell = Cell(vertices: seq<Point>, value: Option<real>)

  /** What a run of the generator produces: the pairs it yielded and the exception, if any, that ended it. */
  datatype Yielded = Yielded(cells: seq<Cell>, raised: Option<Exception>)

  /** The key width is that of some key whenever there is a key at all. */
  predicate Iterable(data: Data, w: nat)
  {
    data != map[] ==> KeyWidth(data, w)
  }

  /** The pairs one retained entry contributes, and the exception that cuts it short.
      Only the first two components of the key are read; `k` is `scale - i - j`. */
  function EntryCells(data: Data, w: nat, scale: int, style: string, key: Key): Yielded
    requires Defined(data, key) && KeyWidth(data, w)
  {
    if |key| < 2 then Yielded([], Some(IndexError))
    else
      var i, j := key[0], key[1];
      var k := scale - i - j;
      var value := data[key];
      if style == "h" then
        Yielded([Cell(HexagonCoordinates(i, j, k), value)], None)
      else if style == "d" then
        var up := Cell(ToPoints(TriangleCoordinates(i, j, k)), value);
        match BlendValue(data, w, i, j, k, [])
        case Raises(e) => Yielded([up], Some(e))
        case Returns(b) => Yielded([up, Cell(ToPoints(AltTriangleCoordinates(i, j, k)), b)], None)
      else if style == "t" then
        match BlendValue(data, w, i, j, k, [])
        case Raises(e) => Yielded([], Some(e))
        case Returns(b) =>
          var up := Cell(ToPoints(TriangleCoordinates(i, j, k)), b);
          if i == scale then Yielded([up], None)
          else
            match AltBlendValue(data, w, i, j, k)
            case Raises(e) => Yielded([up], Some(e))
            case Returns(a) => Yielded([up, Cell(ToPoints(AltTriangleCoordinates(i, j, k)), a)], None)
      else Yielded([], None)
  }

  predicate AllKeysOf(data: Data, keys: seq<Key>)
  {
    forall n :: 0 <= n < |keys| ==> keys[n] in data
  }

  /** The generator run over the entries `keys`, in that order: `None` entries are skipped and
      the first exception stops it. */
  function Walk(data: Data, w: nat, scale: int, style: string, keys: seq<Key>): Yielded
    requires AllKeysOf(data, keys) && Iterable(data, w)
    decreases |keys|
  {
    if keys == [] then Yielded([], None)
    else
      var before := Walk(data, w, scale, style, keys[..|keys| - 1]);
      var key := keys[|keys| - 1];
      if before.raised.Some? || data[key].None? then before
      else
        var e := EntryCells(data, w, scale, style, key);
        Yielded(before.cells + e.cells, e.raised)
  }

  /** `polygon_iterator(data, scale, style)` with unprojected vertices. */
  method PolygonIterator(data: Data, w: nat, scale: int, style: string) returns (cells: seq<Cell>, raised: Option<Exception>)
    requires Iterable(data, w)
    ensures Yielded(cells, raised) == Walk(data, w, scale, style, SortedKeys(data.Keys))
  {
    var items := SortedKeys(data.Keys);
    cells, raised := [], None;
    for n := 0 to |items|
      invariant Yielded(cells, raised) == Walk(data, w, scale, style, items[..n])
      invariant raised.None?
    {
      cells, raised := Advance(data, w, scale, style, items, n, cells);
      if raised.Some? {
        WalkHalts(data, w, scale, style, items, n + 1);
        return;
      }
    }
    assert items[..|items|] == items;
  }

  /** One turn of the loop: an entry holding `None` is skipped, any other yields its pairs. */
  method Advance(data: Data, w: nat, scale: int, style: string, items: seq<Key>, n: nat, cells: seq<Cell>)
    returns (cells': seq<Cell>, raised: Option<Exception>)
    requires AllKeysOf(data, items) && Iterable(data, w) && n < |items|
    requires Yielded(cells, None) == Walk(data, w, scale, style, items[..n])
    ensures Yielded(cells', raised) == Walk(data, w, scale, style, items[..n + 1])
  {
    var key := items[n];
    WalkStep(data, w, scale, style, items, n);
    if data[key].None? {
      return cells, None;
    }
    var more, failure := YieldEntry(data, w, scale, style, key);
    return cells + more, failure;
  }

  /** The body of the loop for one entry whose value is not `None`: the pairs it yields, in order,
      and the exception that interrupts it. */
  method YieldEntry(data: Data, w: nat, scale: int, style: string, key: Key) returns (cells: seq<Cell>, raised: Option<Exception>)
    requires Defined(data, key) && KeyWidth(data, w)
    ensures Yielded(cells, raised) == EntryCells(data, w, scale, style, key)
  {
    cells, raised := [], None;
    var value := data[key];
    if |key| < 2 {
      raised := Some(IndexError);
      return;
    }
    var i, j := key[0], key[1];
    var k := scale - i - j;
    if style == "h" {
      cells := cells + [Cell(HexagonCoordinates(i, j, k), value)];
    } else if style == "d" {
      // Upright triangle with the raw value
      cells := cells + [Cell(ToPoints(TriangleCoordinates(i, j, k)), value)];
      // Inverted triangle with the plain blend of the anchor
      var blended := BlendValue(data, w, i, j, k, []);
      if blended.Raises? {
        raised := Some(blended.error);
        return;
      }
      cells := cells + [Cell(ToPoints(AltTriangleCoordinates(i, j, k)), blended.value)];
    } else if style == "t" {
      var blended := BlendValue(data, w, i, j, k, []);
      if blended.Raises? {
        raised := Some(blended.error);
        return;
      }
      cells := cells + [Cell(ToPoints(TriangleCoordinates(i, j, k)), blended.value)];
      // Anchors on the boundary row get no inverted triangle
      if i == scale {
        return;
      }
      var alt := AltBlendValue(data, w, i, j, k);
      if alt.Raises? {
        raised := Some(alt.error);
        return;
      }
      cells := cells + [Cell(ToPoints(AltTriangleCoordinates(i, j, k)), alt.value)];
    }
  }

  /** One more entry: skipped when it holds `None` or the generator has already raised. */
  lemma WalkStep(data: Data, w: nat, scale: int, style: string, keys: seq<Key>, n: nat)
    requires AllKeysOf(data, keys) && Iterable(data, w)
    requires n < |keys|
    ensures var before := Walk(data, w, scale, style, keys[..n]);
      Walk(data, w, scale, style, keys[..n + 1]) ==
        if before.raised.Some? || data[keys[n]].None? then before
        else Yielded(before.cells + EntryCells(data, w, scale, style, keys[n]).cells,
                     EntryCells(data, w, scale, style, keys[n]).raised)
  {
    assert keys[..n + 1][..n] == keys[..n];
  }

  /** Once the generator has raised, later entries change nothing. */
  lemma {:induction false} WalkHalts(data: Data, w: nat, scale: int, style: string, keys: seq<Key>, m: nat)
    requires AllKeysOf(data, keys) && Iterable(data, w)
    requires m <= |keys|
    requires Walk(data, w, scale, style, keys[..m]).raised.Some?
    ensures Walk(data, w, scale, style, keys) == Walk(data, w, scale, style, keys[..m])
    decreases |keys| - m
  {
    if m < |keys| {
      var init := keys[..|keys| - 1];
      assert init[..m] == keys[..m];
      WalkHalts(data, w, scale, style, init, m);
    } else {
      assert keys[..m] == keys;
    }
  }

  /** The entries of `keys` that hold a number, in the same order. */
  function Retained(data: Data, keys: seq<Key>): (r: seq<Key>)
    requires AllKeysOf(data, keys)
    ensures forall n :: 0 <= n < |r| ==> Defined(data, r[n])
    ensures forall key :: key in r <==> key in keys && Defined(data, key)
    decreases |keys|
  {
    if keys == [] then []
    else
      var init := keys[..|keys| - 1];
      var last := keys[|keys| - 1];
      assert keys == init + [last];
      if Defined(data, last) then Retained(data, init) + [last] else Retained(data, init)
  }

  /** Over keys in ascending order the kept entries stay in ascending order, so together with
      the membership clause of `Retained` they are the entries holding a number, in traversal
      order, each once (`AscendingUnique`). */
  lemma {:induction false} RetainedInOrder(data: Data, keys: seq<Key>)
    requires AllKeysOf(data, keys) && Ascending(keys)
    ensures Ascending(Retained(data, keys))
    decreases |keys|
  {
    if keys != [] {
      var init, last := keys[..|keys| - 1], keys[|keys| - 1];
      assert forall n :: 0 <= n < |init| ==> init[n] == keys[n];
      RetainedInOrder(data, init);
      var r := Retained(data, init);
      if Defined(data, last) {
        assert Retained(data, keys) == r + [last];
        forall x | x in r
          ensures Below(x, last)
        {
          var p :| 0 <= p < |init| && init[p] == x;
        }
        var t := r + [last];
        forall a, b | 0 <= a < b < |t|
          ensures Below(t[a], t[b])
        {
          if b == |r| {
            assert t[a] == r[a] && r[a] in r;
          } else {
            assert t[a] == r[a] && t[b] == r[b];
          }
        }
      } else {
        assert Retained(data, keys) == r;
      }
    }
  }

  /** Filtering the sorted traversal keeps exactly the sorted listing of the keys holding a number. */
  lemma RetainedFromSorted(data: Data)
    ensures AllKeysOf(data, SortedKeys(data.Keys))
    ensures Retained(data, SortedKeys(data.Keys)) == SortedKeys(set key | key in data && Defined(data, key))
  {
    var ks := SortedKeys(data.Keys);
    assert forall n :: 0 <= n < |ks| ==> ks[n] in ks;
    RetainedInOrder(data, ks);
    AscendingUnique(Retained(data, ks), SortedKeys(set key | key in data && Defined(data, key)));
  }

  /** When every entry holds a number, none is skipped. */
  lemma {:induction false} RetainedAll(data: Data, keys: seq<Key>)
    requires AllKeysOf(data, keys)
    requires forall n :: 0 <= n < |keys| ==> Defined(data, keys[n])
    ensures Retained(data, keys) == keys
    decreases |keys|
  {
    if keys != [] {
      var init, last := keys[..|keys| - 1], keys[|keys| - 1];
      assert forall n :: 0 <= n < |init| ==> init[n] == keys[n];
      RetainedAll(data, init);
      assert Defined(data, last);
      assert Retained(data, keys) == Retained(data, init) + [last];
      assert keys == init + [last];
    }
  }

  predicate AllDefined(data: Data, ks: seq<Key>)
  {
    forall n :: 0 <= n < |ks| ==> Defined(data, ks[n])
  }

  /** Reference reading of the generator: the retained entries' contributions laid end to end,
      up to and including the first entry that raises. */
  function Concat(data: Data, w: nat, scale: int, style: string, ks: seq<Key>): Yielded
    requires AllDefined(data, ks) && Iterable(data, w)
    decreases |ks|
  {
    if ks == [] then Yielded([], None)
    else
      var e := EntryCells(data, w, scale, style, ks[0]);
      if e.raised.Some? then e
      else
        var rest := Concat(data, w, scale, style, ks[1..]);
        Yielded(e.cells + rest.cells, rest.raised)
  }

  lemma {:induction false} ConcatSnoc(data: Data, w: nat, scale: int, style: string, ks: seq<Key>, x: Key)
    requires AllDefined(data, ks) && Defined(data, x) && Iterable(data, w)
    ensures AllDefined(data, ks + [x])
    ensures var c := Concat(data, w, scale, style, ks);
            var e := EntryCells(data, w, scale, style, x);
      Concat(data, w, scale, style, ks + [x]) == if c.raised.Some? then c else Yielded(c.cells + e.cells, e.raised)
    decreases |ks|
  {
    var e := EntryCells(data, w, scale, style, x);
    if ks == [] {
      assert [x][1..] == [];
      assert e.cells + [] == e.cells;
    } else {
      assert (ks + [x])[1..] == ks[1..] + [x];
      ConcatSnoc(data, w, scale, style, ks[1..], x);
      var e0 := EntryCells(data, w, scale, style, ks[0]);
      var r := Concat(data, w, scale, style, ks[1..]);
      if e0.raised.None? && r.raised.None? {
        assert e0.cells + (r.cells + e.cells) == (e0.cells + r.cells) + e.cells;
      }
    }
  }

  /** The generator yields, in key order, exactly the contributions of the entries that hold a
      number, and stops at the first entry that raises. */
  lemma {:induction false} WalkIsConcat(data: Data, w: nat, scale: int, style: string, keys: seq<Key>)
    requires AllKeysOf(data, keys) && Iterable(data, w)
    ensures Walk(data, w, scale, style, keys) == Concat(data, w, scale, style, Retained(data, keys))
    decreases |keys|
  {
    if keys != [] {
      var init := keys[..|keys| - 1];
      var last := keys[|keys| - 1];
      WalkIsConcat(data, w, scale, style, init);
      if Defined(data, last) {
        ConcatSnoc(data, w, scale, style, Retained(data, init), last);
      }
    }
  }

  lemma {:induction false} ConcatRaises(data: Data, w: nat, scale: int, style: string, ks: seq<Key>)
    requires AllDefined(data, ks) && Iterable(data, w)
    ensures Concat(data, w, scale, style, ks).raised.None? <==>
            forall n :: 0 <= n < |ks| ==> EntryCells(data, w, scale, style, ks[n]).raised.None?
    decreases |ks|
  {
    if ks != [] {
      ConcatRaises(data, w, scale, style, ks[1..]);
      assert forall n :: 1 <= n < |ks| ==> ks[n] == ks[1..][n - 1];
    }
  }

  /** The generator finishes without an exception exactly when no retained entry raises one. */
  lemma WalkRaises(data: Data, w: nat, scale: int, style: string, keys: seq<Key>)
    requires AllKeysOf(data, keys) && Iterable(data, w)
    ensures Walk(data, w, scale, style, keys).raised.None? <==>
            forall key :: key in Retained(data, keys) ==> EntryCells(data, w, scale, style, key).raised.None?
  {
    WalkIsConcat(data, w, scale, style, keys);
    ConcatRaises(data, w, scale, style, Retained(data, keys));
  }

  /** The first two components of a key name the anchor; `k` is what is left of the scale. */
  function Anchor(scale: int, key: Key): Vertex
    requires |key| >= 2
  {
    Vertex(key[0], key[1], scale - key[0] - key[1])
  }

  predicate Wide(ks: seq<Key>)
  {
    forall n :: 0 <= n < |ks| ==> |ks[n]| >= 2
  }

  /** Hexagonal style: one hexagon per retained entry, in order, with the entry's own value. */
  lemma {:induction false} HexagonalCells(data: Data, w: nat, scale: int, ks: seq<Key>)
    requires AllDefined(data, ks) && Iterable(data, w) && Wide(ks)
    ensures var y := Concat(data, w, scale, "h", ks);
      && y.raised.None?
      && |y.cells| == |ks|
      && forall n :: 0 <= n < |ks| ==>
           var a := Anchor(scale, ks[n]);
           y.cells[n] == Cell(HexagonCoordinates(a.i, a.j, a.k), data[ks[n]])
    decreases |ks|
  {
    if ks != [] {
      HexagonalCells(data, w, scale, ks[1..]);
      assert forall n :: 1 <= n < |ks| ==> ks[n] == ks[1..][n - 1];
    }
  }

  /** Only the first two components of a key and its value matter: `k` is not read from the key. */
  lemma EntryUsesFirstTwo(data: Data, w: nat, scale: int, style: string, key: Key, other: Key)
    requires Defined(data, key) && Defined(data, other) && KeyWidth(data, w)
    requires |key| >= 2 && |other| >= 2 && key[..2] == other[..2] && data[key] == data[other]
    ensures EntryCells(data, w, scale, style, key) == EntryCells(data, w, scale, style, other)
  {
    assert key[0] == key[..2][0] && key[1] == key[..2][1];
    assert other[0] == other[..2][0] && other[1] == other[..2][1];
  }

  /** Hexagonal style, one entry: the hexagon around the anchor with the entry's own value. */
  lemma HexagonalEntry(data: Data, w: nat, scale: int, key: Key)
    requires Defined(data, key) && KeyWidth(data, w) && |key| >= 2
    ensures var a := Anchor(scale, key);
      EntryCells(data, w, scale, "h", key) == Yielded([Cell(HexagonCoordinates(a.i, a.j, a.k), data[key])], None)
  {
  }

  /** Dual-triangular style, one entry: the upright cell with the entry's own value, then the
      inverted cell with the plain blend; a blend's exception cuts it short after the first. */
  lemma DualEntry(data: Data, w: nat, scale: int, key: Key)
    requires Defined(data, key) && KeyWidth(data, w) && |key| >= 2
    ensures var a := Anchor(scale, key);
            var e := EntryCells(data, w, scale, "d", key);
            var b := BlendValue(data, w, a.i, a.j, a.k, []);
      && (e.raised.None? <==> b.Returns?)
      && |e.cells| == (if b.Returns? then 2 else 1)
      && e.cells[0] == Cell(ToPoints(TriangleCoordinates(a.i, a.j, a.k)), data[key])
      && (b.Returns? ==> e.cells[1] == Cell(ToPoints(AltTriangleCoordinates(a.i, a.j, a.k)), b.value))
  {
  }

  /** Dual-triangular style: two cells per retained entry, the upright one with the entry's own
      value and the inverted one with the plain (upright-cell) blend of the same anchor. */
  lemma DualCells(data: Data, w: nat, scale: int, ks: seq<Key>)
    requires AllDefined(data, ks) && Iterable(data, w) && Wide(ks)
    requires Concat(data, w, scale, "d", ks).raised.None?
    ensures var y := Concat(data, w, scale, "d", ks);
      && |y.cells| == 2 * |ks|
      && forall n :: 0 <= n < |ks| ==>
           var a := Anchor(scale, ks[n]);
           var b := BlendValue(data, w, a.i, a.j, a.k, []);
           && b.Returns?
           && y.cells[2 * n] == Cell(ToPoints(TriangleCoordinates(a.i, a.j, a.k)), data[ks[n]])
           && y.cells[2 * n + 1] == Cell(ToPoints(AltTriangleCoordinates(a.i, a.j, a.k)), b.value)
  {
    ConcatRaises(data, w, scale, "d", ks);
    forall n | 0 <= n < |ks|
      ensures |EntryCells(data, w, scale, "d", ks[n]).cells| == 2
    {
      DualEntry(data, w, scale, ks[n]);
    }
    PairsLaidOut(data, w, scale, "d", ks);
    forall n | 0 <= n < |ks|
      ensures var a := Anchor(scale, ks[n]);
              var b := BlendValue(data, w, a.i, a.j, a.k, []);
              var y := Concat(data, w, scale, "d", ks);
        && b.Returns?
        && y.cells[2 * n] == Cell(ToPoints(TriangleCoordinates(a.i, a.j, a.k)), data[ks[n]])
        && y.cells[2 * n + 1] == Cell(ToPoints(AltTriangleCoordinates(a.i, a.j, a.k)), b.value)
    {
      DualEntry(data, w, scale, ks[n]);
    }
  }

  /** When every entry contributes exactly two pairs and no exception, entry `n`'s pairs are the
      run's pairs `2n` and `2n + 1`. */
  lemma PairsLaidOut(data: Data, w: nat, scale: int, style: string, ks: seq<Key>)
    requires AllDefined(data, ks) && Iterable(data, w)
    requires forall n :: 0 <= n < |ks| ==> EntryCells(data, w, scale, style, ks[n]).raised.None?
    requires forall n :: 0 <= n < |ks| ==> |EntryCells(data, w, scale, style, ks[n]).cells| == 2
    ensures var y := Concat(data, w, scale, style, ks);
      && |y.cells| == 2 * |ks|
      && forall n :: 0 <= n < |ks| ==>
           && y.cells[2 * n] == EntryCells(data, w, scale, style, ks[n]).cells[0]
           && y.cells[2 * n + 1] == EntryCells(data, w, scale, style, ks[n]).cells[1]
  {
    var es := Entries(data, w, scale, style, ks);
    ConcatIsGlue(data, w, scale, style, ks);
    GluedPairs(es);
  }

  /** Each entry's contribution, in order. */
  function Entries(data: Data, w: nat, scale: int, style: string, ks: seq<Key>): (es: seq<Yielded>)
    requires AllDefined(data, ks) && Iterable(data, w)
    ensures |es| == |ks|
    ensures forall n :: 0 <= n < |ks| ==> es[n] == EntryCells(data, w, scale, style, ks[n])
  {
    seq(|ks|, n requires 0 <= n < |ks| => EntryCells(data, w, scale, style, ks[n]))
  }

  /** Contributions laid end to end, up to the first that raises. */
  function Glue(es: seq<Yielded>): Yielded
    decreases |es|
  {
    if es == [] then Yielded([], None)
    else if es[0].raised.Some? then es[0]
    else
      var rest := Glue(es[1..]);
      Yielded(es[0].cells + rest.cells, rest.raised)
  }

  lemma {:induction false} ConcatIsGlue(data: Data, w: nat, scale: int, style: string, ks: seq<Key>)
    requires AllDefined(data, ks) && Iterable(data, w)
    ensures Concat(data, w, scale, style, ks) == Glue(Entries(data, w, scale, style, ks))
    decreases |ks|
  {
    if ks != [] {
      ConcatIsGlue(data, w, scale, style, ks[1..]);
      var es := Entries(data, w, scale, style, ks);
      assert es[1..] == Entries(data, w, scale, style, ks[1..]);
    }
  }

  lemma {:induction false} GluedPairs(es: seq<Yielded>)
    requires forall n :: 0 <= n < |es| ==> es[n].raised.None? && |es[n].cells| == 2
    ensures |Glue(es).cells| == 2 * |es|
    ensures forall n :: 0 <= n < |es| ==> Glue(es).cells[2 * n] == es[n].cells[0] && Glue(es).cells[2 * n + 1] == es[n].cells[1]
    decreases |es|
  {
    if es != [] {
      var tail := es[1..];
      assert forall n :: 0 <= n < |tail| ==> tail[n] == es[n + 1];
      GluedPairs(tail);
      var y, rest := Glue(es), Glue(tail);
      assert y.cells == es[0].cells + rest.cells;
      ShiftPairs(es, rest.cells, y.cells);
    }
  }

  /** Pairs `2m`, `2m + 1` of the rest are those of entry `m + 1`; behind the first entry's two
      pairs they become the pairs `2n`, `2n + 1` of entry `n`. */
  lemma ShiftPairs(es: seq<Yielded>, rest: seq<Cell>, all: seq<Cell>)
    requires |es| > 0 && (forall n :: 0 <= n < |es| ==> |es[n].cells| == 2) && all == es[0].cells + rest
    requires |rest| == 2 * (|es| - 1)
    requires forall m :: 0 <= m < |es| - 1 ==> rest[2 * m] == es[m + 1].cells[0] && rest[2 * m + 1] == es[m + 1].cells[1]
    ensures forall n :: 0 <= n < |es| ==> all[2 * n] == es[n].cells[0] && all[2 * n + 1] == es[n].cells[1]
  {
    forall n | 1 <= n < |es|
      ensures all[2 * n] == es[n].cells[0] && all[2 * n + 1] == es[n].cells[1]
    {
      var m := n - 1;
      assert all[2 * m + 2] == rest[2 * m] && all[2 * m + 3] == rest[2 * m + 1];
    }
  }

  /** The number of anchors off the boundary row `i == scale`. */
  function OffBoundary(scale: int, ks: seq<Key>): nat
    requires Wide(ks)
    decreases |ks|
  {
    if ks == [] then 0 else (if ks[0][0] == scale then 0 else 1) + OffBoundary(scale, ks[1..])
  }

  /** Triangular style: an upright cell per retained entry, plus an inverted one for every anchor
      off the boundary row. */
  lemma {:induction false} TriangularCount(data: Data, w: nat, scale: int, ks: seq<Key>)
    requires AllDefined(data, ks) && Iterable(data, w) && Wide(ks)
    requires Concat(data, w, scale, "t", ks).raised.None?
    ensures |Concat(data, w, scale, "t", ks).cells| == |ks| + OffBoundary(scale, ks)
    decreases |ks|
  {
    if ks != [] {
      TriangularCount(data, w, scale, ks[1..]);
    }
  }

  /** Triangular style, one entry: the upright cell with the plain blend, then, off the boundary
      row, the inverted cell with the alternative blend; a blend's exception cuts it short. */
  lemma TriangularEntry(data: Data, w: nat, scale: int, key: Key)
    requires Defined(data, key) && KeyWidth(data, w) && |key| >= 2
    ensures var a := Anchor(scale, key);
            var e := EntryCells(data, w, scale, "t", key);
            var b := BlendValue(data, w, a.i, a.j, a.k, []);
            var alt := AltBlendValue(data, w, a.i, a.j, a.k);
      && (e.raised.None? <==> b.Returns? && (a.i == scale || alt.Returns?))
      && (e.raised.None? ==>
            && |e.cells| == (if a.i == scale then 1 else 2)
            && e.cells[0] == Cell(ToPoints(TriangleCoordinates(a.i, a.j, a.k)), b.value)
            && (a.i != scale ==> e.cells[1] == Cell(ToPoints(AltTriangleCoordinates(a.i, a.j, a.k)), alt.value)))
  {
  }

  /** A style other than `'h'`, `'d'` and `'t'` yields nothing. */
  lemma {:induction false} OtherStyleYieldsNothing(data: Data, w: nat, scale: int, style: string, ks: seq<Key>)
    requires AllDefined(data, ks) && Iterable(data, w) && Wide(ks)
    requires style != "h" && style != "d" && style != "t"
    ensures Concat(data, w, scale, style, ks) == Yielded([], None)
    decreases |ks|
  {
    if ks != [] {
      OtherStyleYieldsNothing(data, w, scale, style, ks[1..]);
    }
  }

  /** Any ascending listing of the keys gives the same run: the traversal order is the sorted key
      order and the output is determined by the data alone. */
  lemma WalkInAscendingOrder(data: Data, w: nat, scale: int, style: string, keys: seq<Key>)
    requires Iterable(data, w)
    requires Ascending(keys) && forall x :: x in keys <==> x in data
    ensures AllKeysOf(data, keys)
    ensures Walk(data, w, scale, style, keys) == Walk(data, w, scale, style, SortedKeys(data.Keys))
  {
    AscendingUnique(keys, SortedKeys(data.Keys));
  }
}
