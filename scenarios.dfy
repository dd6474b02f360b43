/** Worked examples: three values at scale 1, drawn in the hexagonal and the triangular style. */
module Scenarios {
  import opened Outcomes
  import opened Keys
  import opened Geometry
  import opened Blending
  import opened Polygons
  import opened Heatmap

  /** `{(0, 0): 1.0, (1, 0): 2.0, (0, 1): 3.0}` */
  function Corners(): Data
  {
    map[[0, 0] := Some(1.0), [1, 0] := Some(2.0), [0, 1] := Some(3.0)]
  }

  lemma CornersKeyWidth()
    ensures KeyWidth(Corners(), 2) && Iterable(Corners(), 2)
  {
    assert [0, 0] in Corners();
  }

  /** The sorted traversal visits `(0, 0)`, `(0, 1)`, `(1, 0)`. */
  lemma CornersOrder()
    ensures SortedKeys(Corners().Keys) == [[0, 0], [0, 1], [1, 0]]
  {
    var ks: seq<Key> := [[0, 0], [0, 1], [1, 0]];
    assert Below(ks[0], ks[1]) && Below(ks[1], ks[2]) && Below(ks[0], ks[2]);
    assert Ascending(ks);
    AscendingUnique(ks, SortedKeys(Corners().Keys));
  }

  /** A run over three entries holding numbers is their contributions in turn, as long as the
      first two do not raise. */
  lemma WalkOfThree(data: Data, w: nat, scale: int, style: string, ks: seq<Key>)
    requires |ks| == 3 && AllKeysOf(data, ks) && Iterable(data, w)
    requires Defined(data, ks[0]) && Defined(data, ks[1]) && Defined(data, ks[2])
    ensures var e0 := EntryCells(data, w, scale, style, ks[0]);
            var e1 := EntryCells(data, w, scale, style, ks[1]);
            var e2 := EntryCells(data, w, scale, style, ks[2]);
      e0.raised.None? && e1.raised.None? ==>
        Walk(data, w, scale, style, ks) == Yielded(e0.cells + e1.cells + e2.cells, e2.raised)
  {
    WalkStep(data, w, scale, style, ks, 0);
    WalkStep(data, w, scale, style, ks, 1);
    WalkStep(data, w, scale, style, ks, 2);
    assert ks[..0] == [];
    assert ks[..3] == ks;
    var e0 := EntryCells(data, w, scale, style, ks[0]);
    assert [] + e0.cells == e0.cells;
  }

  /** The run over `(0, 0)`, `(0, 1)`, `(1, 0)` is the three entries' contributions in turn. */
  lemma CornersWalk(style: string)
    ensures Iterable(Corners(), 2)
    ensures var e0 := EntryCells(Corners(), 2, 1, style, [0, 0]);
            var e1 := EntryCells(Corners(), 2, 1, style, [0, 1]);
            var e2 := EntryCells(Corners(), 2, 1, style, [1, 0]);
      e0.raised.None? && e1.raised.None? ==>
        Walk(Corners(), 2, 1, style, SortedKeys(Corners().Keys)) == Yielded(e0.cells + e1.cells + e2.cells, e2.raised)
  {
    CornersKeyWidth();
    CornersOrder();
    WalkOfThree(Corners(), 2, 1, style, SortedKeys(Corners().Keys));
  }

  /** Hexagonal style: three corner cells of four vertices with the values 1, 3, 2 in key order. */
  lemma HexagonalCorners()
    ensures Iterable(Corners(), 2)
    ensures var y := Walk(Corners(), 2, 1, "h", SortedKeys(Corners().Keys));
      && y.raised.None? && |y.cells| == 3
      && y.cells[0].vertices == HexagonCoordinates(0, 0, 1) && y.cells[0].value == Some(1.0)
      && y.cells[1].vertices == HexagonCoordinates(0, 1, 0) && y.cells[1].value == Some(3.0)
      && y.cells[2].vertices == HexagonCoordinates(1, 0, 0) && y.cells[2].value == Some(2.0)
      && |y.cells[0].vertices| == |y.cells[1].vertices| == |y.cells[2].vertices| == 4
  {
    CornersOrder();
    CornerVertices(SortedKeys(Corners().Keys));
    CornerNumbers(SortedKeys(Corners().Keys));
    CornerHexagons();
  }

  /** The polygons of the hexagonal run over the three corners. */
  lemma CornerVertices(ks: seq<Key>)
    requires ks == [[0, 0], [0, 1], [1, 0]]
    ensures Iterable(Corners(), 2)
    ensures var y := Walk(Corners(), 2, 1, "h", ks);
      && |y.cells| == 3
      && y.cells[0].vertices == HexagonCoordinates(0, 0, 1)
      && y.cells[1].vertices == HexagonCoordinates(0, 1, 0)
      && y.cells[2].vertices == HexagonCoordinates(1, 0, 0)
  {
    CornersKeyWidth();
    CornerAnchors(ks);
    HexagonalRun(Corners(), 2, 1, ks);
  }

  /** The values of the hexagonal run over the three corners. */
  lemma CornerNumbers(ks: seq<Key>)
    requires ks == [[0, 0], [0, 1], [1, 0]]
    ensures Iterable(Corners(), 2)
    ensures var y := Walk(Corners(), 2, 1, "h", ks);
      && y.raised.None? && |y.cells| == 3
      && y.cells[0].value == Some(1.0) && y.cells[1].value == Some(3.0) && y.cells[2].value == Some(2.0)
  {
    CornersKeyWidth();
    CornerAnchors(ks);
    CornerValues(ks);
    HexagonalRun(Corners(), 2, 1, ks);
  }


  /** A hexagonal run over entries that all hold numbers: one hexagon per entry, in order. */
  lemma HexagonalRun(data: Data, w: nat, scale: int, ks: seq<Key>)
    requires AllKeysOf(data, ks) && Iterable(data, w) && Wide(ks)
    requires forall n :: 0 <= n < |ks| ==> Defined(data, ks[n])
    ensures var y := Walk(data, w, scale, "h", ks);
      && y.raised.None? && |y.cells| == |ks|
      && forall n :: 0 <= n < |ks| ==>
           var a := Anchor(scale, ks[n]);
           y.cells[n] == Cell(HexagonCoordinates(a.i, a.j, a.k), data[ks[n]])
  {
    RetainedAll(data, ks);
    WalkIsConcat(data, w, scale, "h", ks);
    HexagonalCells(data, w, scale, ks);
  }

  lemma CornerValues(ks: seq<Key>)
    requires ks == [[0, 0], [0, 1], [1, 0]]
    ensures Corners()[ks[0]] == Some(1.0) && Corners()[ks[1]] == Some(3.0) && Corners()[ks[2]] == Some(2.0)
  {
  }

  lemma CornerAnchors(ks: seq<Key>)
    requires ks == [[0, 0], [0, 1], [1, 0]]
    ensures Wide(ks)
    ensures Anchor(1, ks[0]) == Vertex(0, 0, 1) && Anchor(1, ks[1]) == Vertex(0, 1, 0) && Anchor(1, ks[2]) == Vertex(1, 0, 0)
  {
  }

  /** The three corner cells of scale 1 are clipped to four vertices. */
  lemma CornerHexagons()
    ensures |HexagonCoordinates(0, 0, 1)| == |HexagonCoordinates(0, 1, 0)| == |HexagonCoordinates(1, 0, 0)| == 4
  {
    assert Classify(0, 0, 1).IsCorner();
    assert Classify(0, 1, 0).IsCorner();
    assert Classify(1, 0, 0).IsCorner();
  }

  /** The values in key order. */
  lemma CornersValues()
    ensures Values(Corners()) == [Some(1.0), Some(3.0), Some(2.0)]
  {
    CornersOrder();
  }

  /** The colour range defaults to the smallest and largest value, 1 and 3. */
  lemma CornersRange()
    ensures DefaultRange(Corners(), None, None) == Returns(ColorRange(Some(1.0), Some(3.0)))
  {
    CornersValues();
    RangeOfThree(Values(Corners()));
  }

  /** `min` and `max` of the three example values. */
  lemma RangeOfThree(vs: seq<Option<real>>)
    requires vs == [Some(1.0), Some(3.0), Some(2.0)]
    ensures MinOf(vs) == Some(1.0) && MaxOf(vs) == Some(3.0)
  {
    assert vs[..2][..1] == [Some(1.0)];
    assert vs[..2] == [Some(1.0), Some(3.0)];
  }

  /** With `(i, j)` keys, the upright blend at `(i, j, k)` is the mean over `(i, j)`, `(i + 1, j)`, `(i, j + 1)`. */
  lemma UprightMean(i: int, j: int, k: int, ks: seq<Key>)
    requires ks == [[i, j], [i + 1, j], [i, j + 1]]
    ensures KeyWidth(Corners(), 2)
    ensures BlendValue(Corners(), 2, i, j, k, []) == Mean(Corners(), ks)
  {
    CornersKeyWidth();
    TwoWideLookups(i, j, k);
    BlendDefaultsToUpright(Corners(), 2, i, j, k);
  }

  /** With `(i, j)` keys, the inverted blend at `(i, j, k)` is the mean over `(i, j + 1)`, `(i + 1, j + 1)`, `(i + 1, j)`. */
  lemma InvertedMean(i: int, j: int, k: int, ks: seq<Key>)
    requires ks == [[i, j + 1], [i + 1, j + 1], [i + 1, j]]
    ensures KeyWidth(Corners(), 2)
    ensures AltBlendValue(Corners(), 2, i, j, k) == Mean(Corners(), ks)
  {
    CornersKeyWidth();
    TwoWideLookups(i, j, k);
    AltBlendUsesInvertedCell(Corners(), 2, i, j, k);
  }

  lemma MeanOrigin()
    ensures Mean(Corners(), [[0, 0], [1, 0], [0, 1]]) == Returns(Some(2.0))
  {
    MeanOfThree(Corners(), [[0, 0], [1, 0], [0, 1]]);
  }

  /** Three lookups that do not all hold a number, the first gap being an absent key. */
  lemma MeanMissing(ks: seq<Key>)
    requires |ks| == 3
    requires (ks[0] !in Corners()) || (Defined(Corners(), ks[0]) && ks[1] !in Corners())
    ensures Mean(Corners(), ks) == Returns(None)
  {
    MeanOfThree(Corners(), ks);
    if ks[0] !in Corners() {
      assert FirstGap(Corners(), ks, 0);
    } else {
      assert FirstGap(Corners(), ks, 1);
    }
  }

  /** The blend of the upright cell at `(0, 0)`: the mean of 1, 2 and 3. */
  lemma BlendOrigin()
    ensures KeyWidth(Corners(), 2)
    ensures BlendValue(Corners(), 2, 0, 0, 1, []) == Returns(Some(2.0))
  {
    UprightMean(0, 0, 1, [[0, 0], [1, 0], [0, 1]]);
    MeanOrigin();
  }

  /** Every other blend meets a key that is absent: `(1, 1)` or a coordinate 2. */
  lemma BlendsElsewhere()
    ensures KeyWidth(Corners(), 2)
    ensures AltBlendValue(Corners(), 2, 0, 0, 1) == Returns(None)
    ensures BlendValue(Corners(), 2, 0, 1, 0, []) == Returns(None)
    ensures AltBlendValue(Corners(), 2, 0, 1, 0) == Returns(None)
    ensures BlendValue(Corners(), 2, 1, 0, 0, []) == Returns(None)
  {
    InvertedMean(0, 0, 1, [[0, 1], [1, 1], [1, 0]]);
    MeanMissing([[0, 1], [1, 1], [1, 0]]);
    UprightMean(0, 1, 0, [[0, 1], [1, 1], [0, 2]]);
    MeanMissing([[0, 1], [1, 1], [0, 2]]);
    InvertedMean(0, 1, 0, [[0, 2], [1, 2], [1, 1]]);
    MeanMissing([[0, 2], [1, 2], [1, 1]]);
    UprightMean(1, 0, 0, [[1, 0], [2, 0], [1, 1]]);
    MeanMissing([[1, 0], [2, 0], [1, 1]]);
  }

  lemma TriangularEntryOrigin()
    ensures KeyWidth(Corners(), 2)
    ensures EntryCells(Corners(), 2, 1, "t", [0, 0]) ==
              Yielded([Cell(ToPoints(TriangleCoordinates(0, 0, 1)), Some(2.0)),
                       Cell(ToPoints(AltTriangleCoordinates(0, 0, 1)), None)], None)
  {
    BlendOrigin();
    BlendsElsewhere();
    TriangularEntry(Corners(), 2, 1, [0, 0]);
    assert Anchor(1, [0, 0]) == Vertex(0, 0, 1);
    TwoCells(EntryCells(Corners(), 2, 1, "t", [0, 0]),
             Cell(ToPoints(TriangleCoordinates(0, 0, 1)), Some(2.0)),
             Cell(ToPoints(AltTriangleCoordinates(0, 0, 1)), None));
  }

  lemma TwoCells(e: Yielded, c0: Cell, c1: Cell)
    requires e.raised.None? && |e.cells| == 2 && e.cells[0] == c0 && e.cells[1] == c1
    ensures e == Yielded([c0, c1], None)
  {
  }

  lemma TriangularEntryUpper()
    ensures KeyWidth(Corners(), 2)
    ensures EntryCells(Corners(), 2, 1, "t", [0, 1]) ==
              Yielded([Cell(ToPoints(TriangleCoordinates(0, 1, 0)), None),
                       Cell(ToPoints(AltTriangleCoordinates(0, 1, 0)), None)], None)
  {
    BlendsElsewhere();
    TriangularEntry(Corners(), 2, 1, [0, 1]);
  }

  lemma TriangularEntryRight()
    ensures KeyWidth(Corners(), 2)
    ensures EntryCells(Corners(), 2, 1, "t", [1, 0]) ==
              Yielded([Cell(ToPoints(TriangleCoordinates(1, 0, 0)), None)], None)
  {
    BlendsElsewhere();
    TriangularEntry(Corners(), 2, 1, [1, 0]);
  }

  /** Triangular style, the whole run: five pairs, of which only the first carries a number. */
  lemma TriangularWalk()
    ensures Iterable(Corners(), 2)
    ensures Walk(Corners(), 2, 1, "t", SortedKeys(Corners().Keys)) ==
              Yielded([Cell(ToPoints(TriangleCoordinates(0, 0, 1)), Some(2.0)),
                       Cell(ToPoints(AltTriangleCoordinates(0, 0, 1)), None),
                       Cell(ToPoints(TriangleCoordinates(0, 1, 0)), None),
                       Cell(ToPoints(AltTriangleCoordinates(0, 1, 0)), None),
                       Cell(ToPoints(TriangleCoordinates(1, 0, 0)), None)], None)
  {
    TriangularEntryOrigin();
    TriangularEntryUpper();
    TriangularEntryRight();
    CornersWalk("t");
    JoinEntries(EntryCells(Corners(), 2, 1, "t", [0, 0]), EntryCells(Corners(), 2, 1, "t", [0, 1]), EntryCells(Corners(), 2, 1, "t", [1, 0]),
                Cell(ToPoints(TriangleCoordinates(0, 0, 1)), Some(2.0)),
                Cell(ToPoints(AltTriangleCoordinates(0, 0, 1)), None),
                Cell(ToPoints(TriangleCoordinates(0, 1, 0)), None),
                Cell(ToPoints(AltTriangleCoordinates(0, 1, 0)), None),
                Cell(ToPoints(TriangleCoordinates(1, 0, 0)), None),
                Walk(Corners(), 2, 1, "t", SortedKeys(Corners().Keys)));
  }

  lemma JoinEntries(e0: Yielded, e1: Yielded, e2: Yielded, c0: Cell, c1: Cell, c2: Cell, c3: Cell, c4: Cell, y: Yielded)
    requires e0 == Yielded([c0, c1], None)
    requires e1 == Yielded([c2, c3], None)
    requires e2 == Yielded([c4], None)
    requires e0.raised.None? && e1.raised.None? ==> y == Yielded(e0.cells + e1.cells + e2.cells, e2.raised)
    ensures y == Yielded([c0, c1, c2, c3, c4], None)
  {
    assert [c0, c1] + [c2, c3] + [c4] == [c0, c1, c2, c3, c4];
  }

  /** Triangular style: five pairs are yielded, but only the upright cell at `(0, 0)` carries a
      number, the mean 2 of its three corners; the others carry `None` and are not drawn. */
  lemma TriangularCorners()
    ensures Iterable(Corners(), 2)
    ensures var y := Walk(Corners(), 2, 1, "t", SortedKeys(Corners().Keys));
      && y.raised.None?
      && |y.cells| == 5
      && y.cells[1].value.None?
      && Drawable(y.cells) == [Fill(ToPoints(TriangleCoordinates(0, 0, 1)), 2.0)]
  {
    TriangularWalk();
    DrawOnlyOrigin(Cell(ToPoints(TriangleCoordinates(0, 0, 1)), Some(2.0)),
                   Cell(ToPoints(AltTriangleCoordinates(0, 0, 1)), None),
                   Cell(ToPoints(TriangleCoordinates(0, 1, 0)), None),
                   Cell(ToPoints(AltTriangleCoordinates(0, 1, 0)), None),
                   Cell(ToPoints(TriangleCoordinates(1, 0, 0)), None));
  }

  lemma DrawOnlyOrigin(c0: Cell, c1: Cell, c2: Cell, c3: Cell, c4: Cell)
    requires c0.value.Some? && c1.value.None? && c2.value.None? && c3.value.None? && c4.value.None?
    ensures Drawable([c0, c1, c2, c3, c4]) == [Fill(c0.vertices, c0.value.value)]
  {
    var p1 := [c0];
    assert p1[..0] == [];
    assert Drawable(p1) == [Fill(c0.vertices, c0.value.value)];
    var p2 := p1 + [c1];
    assert p2[..1] == p1;
    assert Drawable(p2) == Drawable(p1);
    var p3 := p2 + [c2];
    assert p3[..2] == p2;
    assert Drawable(p3) == Drawable(p2);
    var p4 := p3 + [c3];
    assert p4[..3] == p3;
    assert Drawable(p4) == Drawable(p3);
    var p5 := p4 + [c4];
    assert p5[..4] == p4;
    assert Drawable(p5) == Drawable(p4);
    assert p5 == [c0, c1, c2, c3, c4];
  }
}
