/** The modelled part of `heatmap`: style check, colour-range defaulting and the drawing filter. */
module Heatmap {
  import opened Outcomes
  import opened Keys
  import opened Geometry
  import opened Blending
  import opened Polygons

  /** `str.lower` on one character (ASCII letters only). */
  function Lower(c: char): char
  {
    if 'A' <= c <= 'Z' then (c as int - 'A' as int + 'a' as int) as char else c
  }

  /** `style.lower()[0]`, accepted only if it is `'t'`, `'h'` or `'d'`. */
  function StyleCode(style: string): Outcome<string>
  {
    if |style| == 0 then Raises(IndexError)
    else
      var c := Lower(style[0]);
      if c == 't' || c == 'h' || c == 'd' then Returns([c]) else Raises(ValueError)
  }

  /** Only the first letter, in either case, decides the style; the three styles are the only ones accepted. */
  lemma StyleByFirstLetter(style: string)
    ensures StyleCode(style).Returns? <==>
              |style| > 0 && (Lower(style[0]) == 't' || Lower(style[0]) == 'h' || Lower(style[0]) == 'd')
    ensures StyleCode(style).Returns? ==> StyleCode(style).value == [Lower(style[0])]
    ensures |style| > 0 && StyleCode(style).Raises? ==> StyleCode(style).error == ValueError
  {
  }

  lemma StyleNames()
    ensures StyleCode("Hexagonal") == StyleCode("hex") == StyleCode("H") == StyleCode("hexagonal") == Returns("h")
    ensures StyleCode("triangular") == StyleCode("Triangular") == Returns("t")
    ensures StyleCode("dual-triangular") == Returns("d")
    ensures StyleCode("square") == Raises(ValueError)
  {
  }

  /** Python 2's `a <= b` where `None` is below every number. */
  predicate AtMost(a: Option<real>, b: Option<real>)
  {
    a.None? || (b.Some? && a.value <= b.value)
  }

  /** `min(vs)`: keeps the running minimum, replacing it by a strictly smaller element. */
  function MinOf(vs: seq<Option<real>>): (m: Option<real>)
    requires |vs| > 0
    ensures m in vs
    ensures forall n :: 0 <= n < |vs| ==> AtMost(m, vs[n])
    decreases |vs|
  {
    if |vs| == 1 then vs[0]
    else
      var m := MinOf(vs[..|vs| - 1]);
      var x := vs[|vs| - 1];
      assert forall n :: 0 <= n < |vs| - 1 ==> vs[n] == vs[..|vs| - 1][n];
      if !AtMost(m, x) then x else m
  }

  /** `max(vs)`: keeps the running maximum, replacing it by a strictly larger element. */
  function MaxOf(vs: seq<Option<real>>): (m: Option<real>)
    requires |vs| > 0
    ensures m in vs
    ensures forall n :: 0 <= n < |vs| ==> AtMost(vs[n], m)
    decreases |vs|
  {
    if |vs| == 1 then vs[0]
    else
      var m := MaxOf(vs[..|vs| - 1]);
      var x := vs[|vs| - 1];
      assert forall n :: 0 <= n < |vs| - 1 ==> vs[n] == vs[..|vs| - 1][n];
      if !AtMost(x, m) then x else m
  }

  /** `data.values()`, listed in key order (the order cannot change `min` or `max`). */
  function Values(data: Data): (vs: seq<Option<real>>)
    ensures forall key :: key in data ==> data[key] in vs
    ensures forall n :: 0 <= n < |vs| ==> vs[n] in data.Values
  {
    var ks := SortedKeys(data.Keys);
    var vs := seq(|ks|, n requires 0 <= n < |ks| => data[ks[n]]);
    assert forall key :: key in data ==> data[key] in vs by {
      forall key | key in data
        ensures data[key] in vs
      {
        var n :| 0 <= n < |ks| && ks[n] == key;
        assert vs[n] == data[key];
      }
    }
    vs
  }

  /** Python's `not v` for a colour bound: `None` and `0` are both false. */
  predicate Falsy(v: Option<real>)
  {
    v.None? || v.value == 0.0
  }

  datatype ColorRange = ColorRange(vmin: Option<real>, vmax: Option<real>)

  /** The colour range `heatmap` uses: a falsy bound is replaced by the minimum (maximum) of the
      data's values, which fails on empty data. */
  function DefaultRange(data: Data, vmin: Option<real>, vmax: Option<real>): Outcome<ColorRange>
  {
    if (Falsy(vmin) || Falsy(vmax)) && data == map[] then Raises(ValueError)
    else
      var lo := if Falsy(vmin) then MinOf(Values(data)) else vmin;
      var hi := if Falsy(vmax) then MaxOf(Values(data)) else vmax;
      Returns(ColorRange(lo, hi))
  }

  /** With both bounds left to default and every value a number, the range is the smallest and the
      largest value: both attained, every value between them. */
  lemma DefaultRangeBrackets(data: Data, vmin: Option<real>, vmax: Option<real>)
    requires data != map[] && Falsy(vmin) && Falsy(vmax)
    requires forall key :: key in data ==> data[key].Some?
    ensures var r := DefaultRange(data, vmin, vmax);
      && r.Returns? && r.value.vmin.Some? && r.value.vmax.Some?
      && r.value.vmin.value <= r.value.vmax.value
      && r.value.vmin in data.Values && r.value.vmax in data.Values
      && forall key :: key in data ==> r.value.vmin.value <= data[key].value <= r.value.vmax.value
  {
    var vs := Values(data);
    var lo, hi := MinOf(vs), MaxOf(vs);
    var some :| some in data;
    assert data[some] in vs;
    forall key | key in data
      ensures lo.value <= data[key].value <= hi.value
    {
      assert data[key] in vs;
    }
  }

  /** A bound given as a non-zero number is kept; zero counts as not given. */
  lemma DefaultRangeKeepsGiven(data: Data, vmin: Option<real>, vmax: Option<real>)
    ensures DefaultRange(data, Some(0.0), vmax) == DefaultRange(data, None, vmax)
    ensures DefaultRange(data, vmin, Some(0.0)) == DefaultRange(data, vmin, None)
    ensures !Falsy(vmin) && !Falsy(vmax) ==> DefaultRange(data, vmin, vmax) == Returns(ColorRange(vmin, vmax))
  {
  }

  /** Under Python 2's ordering a `None` value drags the defaulted lower bound to `None`. */
  lemma DefaultMinWithNone(data: Data, vmin: Option<real>, vmax: Option<real>, key: Key)
    requires key in data && data[key].None? && Falsy(vmin)
    ensures DefaultRange(data, vmin, vmax).Returns? && DefaultRange(data, vmin, vmax).value.vmin.None?
  {
    var vs := Values(data);
    assert data[key] in vs;
  }

  /** A filled polygon: its vertices and the number that colours it. */
  datatype Fill = Fill(vertices: seq<Point>, value: real)

  /** The pairs that get drawn: those whose value is not `None`, in order. */
  function Drawable(cells: seq<Cell>): (r: seq<Fill>)
    ensures |r| <= |cells|
    ensures forall f :: f in r ==> Cell(f.vertices, Some(f.value)) in cells
    ensures forall c :: c in cells && c.value.Some? ==> Fill(c.vertices, c.value.value) in r
    decreases |cells|
  {
    if cells == [] then []
    else
      var init := cells[..|cells| - 1];
      var c := cells[|cells| - 1];
      assert cells == init + [c];
      if c.value.Some? then Drawable(init) + [Fill(c.vertices, c.value.value)] else Drawable(init)
  }

  /** The filter works pair by pair: the fills of a concatenation are the fills of its parts, in order. */
  lemma {:induction false} DrawableAppend(a: seq<Cell>, b: seq<Cell>)
    ensures Drawable(a + b) == Drawable(a) + Drawable(b)
    decreases |b|
  {
    if b == [] {
      assert a + b == a;
    } else {
      var init, c := b[..|b| - 1], b[|b| - 1];
      SplitLast(a, b);
      DrawableAppend(a, init);
      DrawableLast(a + b);
      DrawableLast(b);
      Regroup(Drawable(a), Drawable(init), DrawableOne(c));
    }
  }

  /** The last pair adds its fill, if any, at the end. */
  lemma DrawableLast(cells: seq<Cell>)
    requires cells != []
    ensures Drawable(cells) == Drawable(cells[..|cells| - 1]) + DrawableOne(cells[|cells| - 1])
  {
  }

  lemma SplitLast(a: seq<Cell>, b: seq<Cell>)
    requires b != []
    ensures (a + b)[..|a + b| - 1] == a + b[..|b| - 1] && (a + b)[|a + b| - 1] == b[|b| - 1]
  {
  }

  lemma Regroup(x: seq<Fill>, y: seq<Fill>, z: seq<Fill>)
    ensures (x + y) + z == x + (y + z)
  {
  }

  /** The fill one pair contributes: one if its value is a number, none otherwise. */
  function DrawableOne(c: Cell): seq<Fill>
  {
    if c.value.Some? then [Fill(c.vertices, c.value.value)] else []
  }

  /** A single pair is drawn iff its value is a number, and then with that number. */
  lemma DrawableSingle(c: Cell)
    ensures Drawable([c]) == if c.value.Some? then [Fill(c.vertices, c.value.value)] else []
  {
    assert [c][..0] == [];
  }

  /** `heatmap(data, scale, vmin, vmax, style=style)`: the polygons it fills and how it ends
      (the colour range handed to the colour bar, or the exception it raises). */
  method Heatmap(data: Data, w: nat, scale: int, vmin: Option<real>, vmax: Option<real>, style: string)
    returns (fills: seq<Fill>, outcome: Outcome<ColorRange>)
    requires Iterable(data, w)
    ensures DefaultRange(data, vmin, vmax).Raises? ==> fills == [] && outcome == DefaultRange(data, vmin, vmax)
    ensures DefaultRange(data, vmin, vmax).Returns? && StyleCode(style).Raises? ==>
              fills == [] && outcome == Raises(StyleCode(style).error)
    ensures DefaultRange(data, vmin, vmax).Returns? && StyleCode(style).Returns? ==>
              var y := Walk(data, w, scale, StyleCode(style).value, SortedKeys(data.Keys));
              && fills == Drawable(y.cells)
              && outcome == if y.raised.Some? then Raises(y.raised.value) else DefaultRange(data, vmin, vmax)
  {
    var lo, hi := vmin, vmax;
    if Falsy(vmin) {
      if data == map[] {
        return [], Raises(ValueError);
      }
      lo := MinOf(Values(data));
    }
    if Falsy(vmax) {
      if data == map[] {
        return [], Raises(ValueError);
      }
      hi := MaxOf(Values(data));
    }
    var code := StyleCode(style);
    if code.Raises? {
      return [], Raises(code.error);
    }
    var cells, raised := PolygonIterator(data, w, scale, code.value);
    fills := Draw(cells);
    outcome := if raised.Some? then Raises(raised.value) else Returns(ColorRange(lo, hi));
  }

  /** The drawing loop of `heatmap`: every pair whose value is not `None` is filled, in order. */
  method Draw(cells: seq<Cell>) returns (fills: seq<Fill>)
    ensures fills == Drawable(cells)
  {
    fills := [];
    for n := 0 to |cells|
      invariant fills == Drawable(cells[..n])
    {
      assert cells[..n + 1][..n] == cells[..n];
      if cells[n].value.None? {
        continue;
      }
      fills := fills + [Fill(cells[n].vertices, cells[n].value.value)];
    }
    assert cells[..|cells|] == cells;
  }
}
