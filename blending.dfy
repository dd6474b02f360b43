/** Value blending: the mean of the data at the three corner keys of a triangular cell. */
module Blending {
  import opened Outcomes
  import opened Keys
  import opened Geometry

  /** The heatmap data: a dictionary from key tuples to a value or `None`. */
  type Data = map<Key, Option<real>>

  /** `w` is the length of some key of `data` (the one Python's dictionary lists first). */
  predicate KeyWidth(data: Data, w: nat)
  {
    exists key :: key in data && |key| == w
  }

  /** The key is present and holds a number. */
  predicate Defined(data: Data, key: Key)
  {
    key in data && data[key].Some?
  }

  function AsKey(v: Vertex): Key
  {
    [v.i, v.j, v.k]
  }

  /** The lookup keys of a vertex list: each vertex as a tuple cut to the key width. */
  function LookupKeys(vs: seq<Vertex>, w: nat): (ks: seq<Key>)
    ensures |ks| == |vs|
    ensures forall n :: 0 <= n < |vs| ==> ks[n] == Truncate(AsKey(vs[n]), w)
  {
    seq(|vs|, n requires 0 <= n < |vs| => Truncate(AsKey(vs[n]), w))
  }

  /** Python's `sum(data[key] for key in ks)`, evaluated left to right: a missing key stops it with a
      `KeyError` (which the caller turns into `None`), a `None` value stops it with a `TypeError`. */
  function SumValues(data: Data, ks: seq<Key>): Outcome<Option<real>>
    decreases |ks|
  {
    if ks == [] then Returns(Some(0.0))
    else if ks[0] !in data then Returns(None)
    else if data[ks[0]].None? then Raises(TypeError)
    else
      match SumValues(data, ks[1..])
      case Returns(Some(t)) => Returns(Some(data[ks[0]].value + t))
      case other => other
  }

  /** The sum divided by three, or the failure of the sum. */
  function Mean(data: Data, ks: seq<Key>): Outcome<Option<real>>
  {
    match SumValues(data, ks)
    case Returns(Some(s)) => Returns(Some(s / 3.0))
    case other => other
  }

  /** `blend_value`: an empty key list stands for the upright cell of the anchor. */
  function BlendValue(data: Data, w: nat, i: int, j: int, k: int, keys: seq<Vertex>): Outcome<Option<real>>
    requires KeyWidth(data, w)
  {
    var vs := if keys == [] then TriangleCoordinates(i, j, k) else keys;
    Mean(data, LookupKeys(vs, w))
  }

  /** `alt_blend_value`: the blend over the inverted cell's corners. */
  function AltBlendValue(data: Data, w: nat, i: int, j: int, k: int): Outcome<Option<real>>
    requires KeyWidth(data, w)
  {
    BlendValue(data, w, i, j, k, AltTriangleCoordinates(i, j, k))
  }

  /** Position `n` is the first key that does not hold a number. */
  predicate FirstGap(data: Data, ks: seq<Key>, n: int)
  {
    0 <= n < |ks| && !Defined(data, ks[n]) && forall m :: 0 <= m < n ==> Defined(data, ks[m])
  }

  /** The sum stops at the first key that does not hold a number: `None` if it is absent,
      `TypeError` if it holds `None`; it completes exactly when every key holds a number. */
  lemma {:induction false} SumValuesStops(data: Data, ks: seq<Key>)
    ensures (SumValues(data, ks).Returns? && SumValues(data, ks).value.Some?) <==>
            forall n :: 0 <= n < |ks| ==> Defined(data, ks[n])
    ensures SumValues(data, ks) == Returns(None) <==> exists n :: FirstGap(data, ks, n) && ks[n] !in data
    ensures SumValues(data, ks) == Raises(TypeError) <==> exists n :: FirstGap(data, ks, n) && ks[n] in data
    decreases |ks|
  {
    if ks != [] {
      SumValuesStops(data, ks[1..]);
      if Defined(data, ks[0]) {
        forall n | FirstGap(data, ks[1..], n)
          ensures FirstGap(data, ks, n + 1)
        {
        }
        forall n | FirstGap(data, ks, n)
          ensures n > 0 && FirstGap(data, ks[1..], n - 1)
        {
        }
        assert (forall n :: 0 <= n < |ks[1..]| ==> Defined(data, ks[1..][n])) <==>
               (forall n :: 0 <= n < |ks| ==> Defined(data, ks[n]));
      } else {
        assert FirstGap(data, ks, 0);
        forall n | FirstGap(data, ks, n)
          ensures n == 0
        {
        }
      }
    }
  }

  /** Three keys that all hold numbers sum to the sum of their values. */
  lemma SumOfThree(data: Data, ks: seq<Key>)
    requires |ks| == 3
    requires Defined(data, ks[0]) && Defined(data, ks[1]) && Defined(data, ks[2])
    ensures SumValues(data, ks) == Returns(Some(data[ks[0]].value + data[ks[1]].value + data[ks[2]].value))
  {
    var v0, v1, v2 := data[ks[0]].value, data[ks[1]].value, data[ks[2]].value;
    assert ks[2..][1..] == [];
    assert SumValues(data, ks[2..]) == Returns(Some(v2 + 0.0));
    assert ks[1..][1..] == ks[2..];
    assert SumValues(data, ks[1..]) == Returns(Some(v1 + (v2 + 0.0)));
  }

  /** The blend of three keys: their exact mean when all hold numbers, `None` when the first key
      that does not is absent, and a `TypeError` when it holds `None`. */
  lemma MeanOfThree(data: Data, ks: seq<Key>)
    requires |ks| == 3
    ensures Defined(data, ks[0]) && Defined(data, ks[1]) && Defined(data, ks[2]) ==>
      Mean(data, ks) == Returns(Some((data[ks[0]].value + data[ks[1]].value + data[ks[2]].value) / 3.0))
    ensures Mean(data, ks).Returns? && Mean(data, ks).value.Some? <==>
      Defined(data, ks[0]) && Defined(data, ks[1]) && Defined(data, ks[2])
    ensures Mean(data, ks) == Returns(None) <==>
      ks[0] !in data || (Defined(data, ks[0]) && (ks[1] !in data || (Defined(data, ks[1]) && ks[2] !in data)))
    ensures Mean(data, ks) == Raises(TypeError) <==>
      (ks[0] in data && !Defined(data, ks[0])) ||
      (Defined(data, ks[0]) && ((ks[1] in data && !Defined(data, ks[1])) ||
                                (Defined(data, ks[1]) && ks[2] in data && !Defined(data, ks[2]))))
  {
    SumValuesStops(data, ks);
    if Defined(data, ks[0]) && Defined(data, ks[1]) && Defined(data, ks[2]) {
      SumOfThree(data, ks);
    }
    if !Defined(data, ks[0]) {
      assert FirstGap(data, ks, 0);
    } else if !Defined(data, ks[1]) {
      assert FirstGap(data, ks, 1);
    } else if !Defined(data, ks[2]) {
      assert FirstGap(data, ks, 2);
    }
    forall n | FirstGap(data, ks, n)
      ensures n == 0 || (n == 1 && Defined(data, ks[0])) || (n == 2 && Defined(data, ks[0]) && Defined(data, ks[1]))
    {
    }
  }

  /** Without explicit keys, the blend looks up exactly the upright cell's vertices, cut to the key width. */
  lemma BlendDefaultsToUpright(data: Data, w: nat, i: int, j: int, k: int)
    requires KeyWidth(data, w)
    ensures BlendValue(data, w, i, j, k, []) == Mean(data, LookupKeys(TriangleCoordinates(i, j, k), w))
  {
  }

  /** The inverted cell's key list is never empty, so the alternative blend uses it as given. */
  lemma AltBlendUsesInvertedCell(data: Data, w: nat, i: int, j: int, k: int)
    requires KeyWidth(data, w)
    ensures AltBlendValue(data, w, i, j, k) == Mean(data, LookupKeys(AltTriangleCoordinates(i, j, k), w))
  {
  }

  /** The upright blend: the mean of the three (cut) corner keys, or why there is none. */
  lemma BlendMean(data: Data, w: nat, i: int, j: int, k: int)
    requires KeyWidth(data, w)
    ensures var ks := LookupKeys(TriangleCoordinates(i, j, k), w);
      && (Defined(data, ks[0]) && Defined(data, ks[1]) && Defined(data, ks[2]) ==>
            BlendValue(data, w, i, j, k, []) ==
              Returns(Some((data[ks[0]].value + data[ks[1]].value + data[ks[2]].value) / 3.0)))
      && (BlendValue(data, w, i, j, k, []) == Returns(None) <==>
            ks[0] !in data || (Defined(data, ks[0]) && (ks[1] !in data || (Defined(data, ks[1]) && ks[2] !in data))))
      && (BlendValue(data, w, i, j, k, []).Returns? && BlendValue(data, w, i, j, k, []).value.Some? <==>
            Defined(data, ks[0]) && Defined(data, ks[1]) && Defined(data, ks[2]))
  {
    MeanOfThree(data, LookupKeys(TriangleCoordinates(i, j, k), w));
  }

  /** The inverted blend: the mean of the inverted cell's three (cut) corner keys, or why there is none. */
  lemma AltBlendMean(data: Data, w: nat, i: int, j: int, k: int)
    requires KeyWidth(data, w)
    ensures var ks := LookupKeys(AltTriangleCoordinates(i, j, k), w);
      && (Defined(data, ks[0]) && Defined(data, ks[1]) && Defined(data, ks[2]) ==>
            AltBlendValue(data, w, i, j, k) ==
              Returns(Some((data[ks[0]].value + data[ks[1]].value + data[ks[2]].value) / 3.0)))
      && (AltBlendValue(data, w, i, j, k) == Returns(None) <==>
            ks[0] !in data || (Defined(data, ks[0]) && (ks[1] !in data || (Defined(data, ks[1]) && ks[2] !in data))))
      && (AltBlendValue(data, w, i, j, k).Returns? && AltBlendValue(data, w, i, j, k).value.Some? <==>
            Defined(data, ks[0]) && Defined(data, ks[1]) && Defined(data, ks[2]))
  {
    MeanOfThree(data, LookupKeys(AltTriangleCoordinates(i, j, k), w));
  }

  /** With `(i, j)` keys the third coordinate drops out of every lookup. */
  lemma TwoWideLookups(i: int, j: int, k: int)
    ensures LookupKeys(TriangleCoordinates(i, j, k), 2) == [[i, j], [i + 1, j], [i, j + 1]]
    ensures LookupKeys(AltTriangleCoordinates(i, j, k), 2) == [[i, j + 1], [i + 1, j + 1], [i + 1, j]]
  {
    assert [i, j, k][..2] == [i, j];
    assert [i + 1, j, k - 1][..2] == [i + 1, j];
    assert [i, j + 1, k - 1][..2] == [i, j + 1];
    assert [i + 1, j + 1, k][..2] == [i + 1, j + 1];
  }

  /** With `(i, j, k)` keys that all lie on the simplex, the inverted cell's middle corner
      `(i + 1, j + 1, k)` is never a key, so the alternative blend never yields a number. */
  lemma AltBlendOffLattice(data: Data, scale: int, i: int, j: int, k: int)
    requires KeyWidth(data, 3)
    requires forall key :: key in data ==> |key| == 3 && key[0] + key[1] + key[2] == scale
    requires i + j + k == scale
    ensures !(AltBlendValue(data, 3, i, j, k).Returns? && AltBlendValue(data, 3, i, j, k).value.Some?)
  {
    var ks := LookupKeys(AltTriangleCoordinates(i, j, k), 3);
    assert ks[1] == [i + 1, j + 1, k];
    assert ks[1] !in data;
    MeanOfThree(data, ks);
  }
}
