# Ternary heatmap geometry and blending, in Dafny

This project models the heatmap layer of python-ternary (`ternary/heatmapping.py`). A heatmap
colours the cells of the simplex lattice `i + j + k = scale`. The data is a dictionary from
`(i, j)` or `(i, j, k)` tuples to a value or `None`. The model covers:

- the cell geometry generators: the upright and inverted triangles, and the hexagon with its
  corner, edge and interior cases;
- `blend_value` and `alt_blend_value`, which average the data at a triangle's three corners;
- `polygon_iterator`, which walks the data in sorted key order and yields `(vertices, value)`
  pairs for the `'h'`, `'d'` and `'t'` styles;
- the parts of `heatmap` that decide what gets drawn: the first-letter style check, the
  `vmin`/`vmax` defaulting and the filter that skips `None` values.

Modules, one per component:

- `Outcomes`: `Option`, the exceptions that can escape (`TypeError`, `ValueError`, `IndexError`), and
  `Outcome` (returns or raises).
- `Keys`: keys as `seq<int>`. `Below` is Python's tuple `<`. `SortedKeys` is the order `sorted`
  visits keys in. `Truncate` is `key[:w]`.
- `Geometry`: lattice `Vertex`es, rational `Point`s, the triangle and hexagon generators, and their
  geometric properties.
- `Blending`: `SumValues` follows Python's left-to-right
  `sum(data[key] for key in keys)`. A missing key stops the sum with a `KeyError`, which
  `blend_value` turns into `None`. A present `None` value stops it with a `TypeError`, which escapes.
- `Polygons`: `EntryCells` gives one entry's pairs. `Walk` is the whole generator run. The
  `PolygonIterator` method (with `YieldEntry` for the loop body) is proved equal to `Walk` over the
  sorted keys. `Concat` is an independent front-to-back reading, and the per-style lemmas are
  proved against it.
- `Heatmap`: `StyleCode`, Python 2 `min`/`max` (where `None` sorts below every number),
  `DefaultRange`, `Drawable`, and the `Heatmap` and `Draw` methods.
- `Scenarios`: the data `{(0,0): 1, (1,0): 2, (0,1): 3}` at scale 1, worked through end to end.

Behaviours of the code worth noting, all modelled as written:

- In the `'d'` style, the inverted triangle gets `blend_value(data, i, j, k)` (the upright cell's
  blend), not `alt_blend_value`.
- The inverted triangle's middle vertex is `(i + 1, j + 1, k)`. Its coordinate sum is
  `i + j + k + 2`, so with 3-wide keys on the simplex the alternative blend never yields a number
  (`AltBlendOffLattice`).
- Only `KeyError` is caught. The sum looks its keys up lazily, left to right, so the first corner
  without a number decides: if it is absent, `blend_value` returns `None`; if it holds `None`, the
  sum raises `TypeError`, which ends the generator.
- In the triangular example, the inverted triangle at `(0, 0)` is yielded with the value `None`
  and then skipped by the drawing filter. It is not left out of the iteration.
- Under Python 2 ordering, a defaulted `vmin` is `None` whenever some value is `None`
  (`DefaultMinWithNone`).
- The style is checked after `vmin`/`vmax` are defaulted. So on empty data with a falsy bound,
  `heatmap` raises `ValueError` from `min` or `max` before it looks at the style.

## Model

| member | source | states |
|---|---|---|
| `Geometry.TriangleCoordinates` | ternary/heatmapping.py:44-58 | exactly three distinct vertices, the first is the anchor, and every vertex has coordinate sum `i + j + k` |
| `Geometry.AltTriangleCoordinates` | ternary/heatmapping.py:60-74 | three vertices; the first and last are the upright cell's third and second vertex, both with sum `i + j + k`; the middle one has sum `i + j + k + 2` |
| `Geometry.SharedEdge` | ternary/heatmapping.py:58-74 | the upright and inverted cells of one anchor have exactly the two vertices `(i+1, j, k-1)` and `(i, j+1, k-1)` in common |
| `Geometry.HexagonCoordinates` | ternary/heatmapping.py:86-124 | corner branches give 4 vertices starting with the lattice point, edge branches give 5, and the interior gives 6, centrally symmetric about the lattice point (vertex `n+3` is `2·ij − vertex n`) |
| `Geometry.Classify` | ternary/heatmapping.py:99-122 | no contract of its own: the branch `hexagon_coordinates` takes, tested in source order; stated by `ClassifyOnSimplex` |
| `Geometry.ClassifyOnSimplex` | ternary/heatmapping.py:99-122 | on non-negative triples, each of the seven branches (tested in source order) holds exactly when the matching coordinates are zero or positive; `(0, 0, 0)` takes the `j == steps` branch |
| `Geometry.HexagonVertexCount` | ternary/heatmapping.py:99-124 | on non-negative triples: 4 vertices iff two coordinates are zero, 5 iff exactly one is, 6 iff none is |
| `Geometry.FullHexagonIsDualCell` | ternary/heatmapping.py:79-81 | in the first two coordinates, the six interior-hexagon vertices are the centroids of the six triangles meeting at the lattice point |
| `Geometry.ClippedHexagonOnBoundary` | ternary/heatmapping.py:102-118 | clipped cells: the vertices beside the cut have a zero coordinate, and the remaining vertices are vertices of the full hexagon |
| `Keys.Below` | ternary/heatmapping.py:136 | no contract of its own: Python's tuple `<`, which `sorted` orders the keys by; stated by `BelowIrreflexive`, `BelowTransitive` and `BelowTotal` |
| `Keys.BelowIrreflexive` | ternary/heatmapping.py:136 | no key is below itself |
| `Keys.BelowTransitive` | ternary/heatmapping.py:136 | tuple `<` is transitive |
| `Keys.BelowTotal` | ternary/heatmapping.py:136 | any two different keys are ordered one way or the other |
| `Keys.SortedKeys` | ternary/heatmapping.py:136 | the keys of the data in strictly ascending tuple order, each exactly once |
| `Keys.AscendingUnique` | ternary/heatmapping.py:136 | two ascending listings of the same keys are equal, so the traversal order is unique |
| `Keys.Truncate` | ternary/heatmapping.py:26 | `key[:w]` is a prefix of the key of length `min(w, len(key))` |
| `Blending.LookupKeys` | ternary/heatmapping.py:26 | one lookup key per vertex: the vertex tuple cut to the key width |
| `Blending.SumValues` | ternary/heatmapping.py:29-33 | no contract of its own: `sum(data[key] for key in keys)` with lazy left-to-right lookups; stated by `SumValuesStops` |
| `Blending.Mean` | ternary/heatmapping.py:30-34 | no contract of its own: the sum divided by 3, with `None` and exceptions passed through; stated by `MeanOfThree` |
| `Blending.BlendValue` | ternary/heatmapping.py:17-34 | no contract of its own: `blend_value`; stated by `BlendMean`, `BlendDefaultsToUpright` and `TwoWideLookups` |
| `Blending.AltBlendValue` | ternary/heatmapping.py:36-42 | no contract of its own: `alt_blend_value`; stated by `AltBlendMean`, `AltBlendUsesInvertedCell` and `AltBlendOffLattice` |
| `Blending.SumValuesStops` | ternary/heatmapping.py:29-33 | the sum completes iff every key holds a number; it gives `None` iff the first key without a number is absent, and `TypeError` iff that key holds `None` |
| `Blending.MeanOfThree` | ternary/heatmapping.py:29-34 | for three keys: the exact mean of their values when all hold numbers; otherwise `None` or `TypeError`, decided by the first key that does not |
| `Blending.BlendDefaultsToUpright` | ternary/heatmapping.py:23-26 | without keys, the blend uses exactly the upright cell's vertices, cut to the key width |
| `Blending.BlendMean` | ternary/heatmapping.py:17-34 | `blend_value` is the sum of the upright cell's three cut keys divided by 3 when all are present; `None` iff the first missing one is absent; a number iff all three hold numbers |
| `Blending.AltBlendUsesInvertedCell` | ternary/heatmapping.py:36-42 | `alt_blend_value` blends the inverted cell's vertex list as given (it is never empty, so the default is not used) |
| `Blending.AltBlendMean` | ternary/heatmapping.py:36-42 | the same mean / `None` / number characterisation over the inverted cell's three cut keys |
| `Blending.TwoWideLookups` | ternary/heatmapping.py:22-26 | with `(i, j)` keys, the upright cell looks up `(i,j), (i+1,j), (i,j+1)` and the inverted cell looks up `(i,j+1), (i+1,j+1), (i+1,j)` |
| `Blending.AltBlendOffLattice` | ternary/heatmapping.py:41 | with 3-wide keys that all lie on the simplex, the alternative blend never yields a number |
| `Polygons.EntryCells` | ternary/heatmapping.py:139-164 | no contract of its own: the pairs one entry yields and the exception it raises; stated by `HexagonalEntry`, `DualEntry`, `TriangularEntry`, `EntryUsesFirstTwo` and `OtherStyleYieldsNothing` |
| `Polygons.Walk` | ternary/heatmapping.py:136-164 | no contract of its own: the whole generator run, entry by entry; stated by `WalkStep`, `WalkHalts`, `WalkIsConcat`, `WalkRaises` and `WalkInAscendingOrder` |
| `Polygons.Concat` | ternary/heatmapping.py:136-164 | no contract of its own: the reference reading of the run, the retained entries' contributions glued front to back up to the first exception; tied to `Walk` by `WalkIsConcat` |
| `Polygons.PolygonIterator` | ternary/heatmapping.py:128-164 | the pairs yielded and the exception that ends the run are exactly `Walk` over the keys in ascending order |
| `Polygons.YieldEntry` | ternary/heatmapping.py:139-164 | one entry's loop body yields exactly the pairs (and exception) of `EntryCells` |
| `Polygons.Advance` | ternary/heatmapping.py:136-164 | one pass of the generator loop extends the run over the first `n` entries to the run over the first `n + 1` |
| `Polygons.WalkStep` | ternary/heatmapping.py:136-138 | a further entry is skipped when its value is `None` or the run has already raised; otherwise its pairs are appended |
| `Polygons.WalkHalts` | ternary/heatmapping.py:136-164 | after an exception, later entries change nothing |
| `Polygons.Retained` | ternary/heatmapping.py:137-138 | the entries kept are exactly those of the list that hold a number |
| `Polygons.RetainedInOrder` | ternary/heatmapping.py:136-138 | over keys in ascending order, the kept entries are in ascending order too (so each appears once, in traversal order) |
| `Polygons.RetainedFromSorted` | ternary/heatmapping.py:136-138 | filtering the sorted traversal gives exactly the sorted listing of the keys that hold a number |
| `Polygons.RetainedAll` | ternary/heatmapping.py:137-138 | when every entry holds a number, no entry is skipped |
| `Polygons.WalkIsConcat` | ternary/heatmapping.py:136-164 | the run equals the retained entries' contributions laid end to end, up to the first one that raises |
| `Polygons.WalkRaises` | ternary/heatmapping.py:136-164 | the run ends without an exception iff no retained entry raises one |
| `Polygons.EntryUsesFirstTwo` | ternary/heatmapping.py:139-141 | an entry's pairs depend only on the first two key components and its value; `k` is `scale - i - j` |
| `Polygons.HexagonalEntry` | ternary/heatmapping.py:142-144 | `'h'`: one pair, the anchor's hexagon with the entry's own value |
| `Polygons.HexagonalCells` | ternary/heatmapping.py:142-144 | `'h'`: one hexagon per retained entry, in order, with its own value, and no exception |
| `Polygons.DualEntry` | ternary/heatmapping.py:145-152 | `'d'`: the upright cell with the raw value, then the inverted cell with the plain blend; an exception from the blend cuts it after the first pair |
| `Polygons.DualCells` | ternary/heatmapping.py:145-152 | `'d'` without exception: exactly two pairs per retained entry, in order, with the values above |
| `Polygons.PairsLaidOut` | ternary/heatmapping.py:136-152 | when every entry contributes two pairs and none raises, entry `n`'s pairs sit at positions `2n` and `2n + 1` of the run |
| `Polygons.TriangularEntry` | ternary/heatmapping.py:153-164 | `'t'`: the upright cell with the plain blend, then (only if `i != scale`) the inverted cell with the alternative blend; it raises iff one of those blends raises |
| `Polygons.TriangularCount` | ternary/heatmapping.py:153-164 | `'t'` without exception: one pair per retained entry plus one per anchor off the row `i == scale` |
| `Polygons.OtherStyleYieldsNothing` | ternary/heatmapping.py:142-164 | any other style string yields no pairs |
| `Polygons.WalkInAscendingOrder` | ternary/heatmapping.py:136 | a run over any ascending listing of the keys is the same as the run over the sorted keys, so the output depends only on the data, scale and style |
| `Heatmap.StyleCode` | ternary/heatmapping.py:208-210 | no contract of its own: the style normalisation and check; stated by `StyleByFirstLetter` and `StyleNames` |
| `Heatmap.StyleByFirstLetter` | ternary/heatmapping.py:208-210 | the style is accepted iff its lowercased first letter is `t`, `h` or `d`, and then it becomes that letter; a non-empty rejected style raises `ValueError` |
| `Heatmap.StyleNames` | ternary/heatmapping.py:208-210 | `'Hexagonal'`, `'hex'` and `'H'` all become `'h'`; `'triangular'` becomes `'t'`; `'dual-triangular'` becomes `'d'`; `'square'` raises `ValueError` |
| `Heatmap.MinOf` | ternary/heatmapping.py:205 | `min` returns an element that is at most every element, under Python 2 ordering |
| `Heatmap.MaxOf` | ternary/heatmapping.py:207 | `max` returns an element that is at least every element, under Python 2 ordering |
| `Heatmap.Values` | ternary/heatmapping.py:205-207 | every value of the data is listed, and only values of the data |
| `Heatmap.DefaultRange` | ternary/heatmapping.py:204-207 | no contract of its own: the `vmin`/`vmax` defaulting; stated by `DefaultRangeBrackets`, `DefaultRangeKeepsGiven` and `DefaultMinWithNone` |
| `Heatmap.DefaultRangeBrackets` | ternary/heatmapping.py:204-207 | with both bounds defaulted and all values numbers: `vmin <= vmax`, both are attained, and every value lies between them |
| `Heatmap.DefaultRangeKeepsGiven` | ternary/heatmapping.py:204-207 | a bound of `0` is replaced like a missing one; two non-zero bounds are kept as given |
| `Heatmap.DefaultMinWithNone` | ternary/heatmapping.py:205 | if some value is `None`, a defaulted `vmin` is `None` |
| `Heatmap.Drawable` | ternary/heatmapping.py:216-218 | a fill is drawn iff its pair has a value that is not `None`; nothing else is drawn |
| `Heatmap.DrawableAppend` | ternary/heatmapping.py:216-218 | the fills of two runs laid end to end are the fills of the first followed by those of the second, so the filter keeps order and duplicates |
| `Heatmap.DrawableSingle` | ternary/heatmapping.py:216-218 | a single pair gives one fill with its number when it has one, and none when its value is `None` |
| `Heatmap.Draw` | ternary/heatmapping.py:216-222 | the drawing loop fills exactly `Drawable(cells)`, in order |
| `Heatmap.Heatmap` | ternary/heatmapping.py:204-218 | a failing range default or an invalid style raises before anything is drawn; otherwise it draws the non-`None` pairs of the run and ends with the run's exception, or returns the colour range |
| `Scenarios.CornersOrder` | ternary/heatmapping.py:136 | the example keys are visited as `(0,0), (0,1), (1,0)` |
| `Scenarios.HexagonalCorners` | ternary/heatmapping.py:142-144 | hexagonal example: no exception, and the hexagons of `(0,0,1)`, `(0,1,0)` and `(1,0,0)`, each a 4-vertex corner cell, with the values 1, 3 and 2 |
| `Scenarios.CornersRange` | ternary/heatmapping.py:204-207 | example: the defaulted colour range is 1 to 3 |
| `Scenarios.TriangularWalk` | ternary/heatmapping.py:153-164 | triangular example: the entries `(0,0)` and `(0,1)` give an upright and an inverted pair each, and `(1,0)`, on the row `i == scale`, gives only its upright pair |
| `Scenarios.TriangularCorners` | ternary/heatmapping.py:153-218 | triangular example: five pairs are yielded, one of them with `None`, and only the upright cell at `(0,0)` is drawn, with value 2 |

## Left out

- `project_point` and the `permutation` argument: they live in the `helpers` module, which is not part of this model, and use irrational constants. All vertices are kept unprojected.
- Matplotlib drawing (`pyplot.subplots`, `ax.fill`), `get_cmap`, `colormapper` and `colorbar_hack`: they are external rendering calls. `Heatmap` returns the list of fills it would request and the colour range it would hand to the colour bar. The model assumes `colormapper` accepts any range and any value it is given, including a `vmin` of `None` (see `DefaultMinWithNone`); a failure there is not modelled.
- `heatmapf`: it depends on `simplex_iterator` and `normalize` from `helpers` and on an arbitrary user function.
- Floating point: values and hexagon offsets are exact reals, so `/ 3.` and the offset arrays do not round.
- Python 2 dictionary order: `data.keys()[0]` may be any key, so the key width is a parameter `w` that must be the length of some key of the data. `data.values()` is also listed in dict order; the model lists it in key order, which cannot change `min` or `max`, because equal elements of `Option<real>` are identical.
- `str.lower` is modelled for ASCII letters only.
- A `keys` argument of `None` and of `[]` to `blend_value` are both modelled as the empty list; both mean "use the upright cell".
- The tiling claim (upright and inverted cells cover the simplex once) is not proved. The model proves the shared edge and the dual-cell property of the hexagons instead.
- Numpy arrays and Python 2 `map` results are modelled as sequences.
- `BlendValue`, `AltBlendValue`: require a key width `w` of some key of the data, so the `IndexError` that `data.keys()[0]` raises when `blend_value` is called directly on empty data is not modelled; `polygon_iterator` only blends when the data has an entry.
