# leaflet-poc: product ranking and range filtering

A Dafny model of the logic in `MarkerService` (`src/app/marker.service.ts`)
and of the slider bookkeeping in `MapComponent` (`src/app/map/map.component.ts`)
of a small Angular/Leaflet map application.

The service holds the latest product catalog, `{ products: [{id, collectionTime, location?}] }`.
From it the service computes a chronological ranking: the `{id, collectionTime}`
pair of every product, sorted with the comparator
`0 - (a.collectionTime < b.collectionTime ? 1 : -1)` and numbered `order = 0, 1, …`.
`mapPolygons(min, max)` keeps the ranked entries whose order lies in
`[min, max]` and then the catalog products carrying one of their ids.
It builds one Leaflet GeoJSON layer per kept product. The component sets the
slider's range from the ranked list and redraws the group when the slider moves.

Modules:

- `Wrappers`: `Option` (JavaScript `null` / `undefined`) and `Result` (a thrown error).
- `Catalog`: the product records.
- `TimeOrder`: JavaScript's `<` on strings (`collectionTime` values arrive from
  JSON as strings). It is proved to be a strict total order and to equal
  textbook lexicographic order.
- `Ranking`: the comparator, an in-place insertion sort on an `array` that
  decides with the comparator's sign (standing in for `Array.prototype.sort`),
  the projection loop, and `IsRanking`, the property both ranking code paths
  establish. Its lemmas show that ranks are dense and that any two rankings
  agree on rank and time at every position. When times are distinct, the
  ranking is unique.
- `Selection`: the `filter` / `map` / `includes` chain of `mapPolygons`. It is
  characterised by membership and by preserving catalog order.
- `Window`: when product ids are distinct, the range `[lo, hi]` selects exactly
  `hi - lo + 1` products.
- `Layers`: one layer per product. A layer gets the feature and the `#ff0000`
  style only when `location` is defined.
- `Markers`: the class `MarkerService` (fields `catalog`, the value held by
  `rangesBS`, and `orderedIds`) and the function `Polygons` that specifies
  `mapPolygons`.
- `MapView`: the class `MapComponent` (fields `rangeValues`, `min`, `max`,
  `featureGroup`).
- `Scenario`: a three-product catalog, ranked and filtered.

The model follows what the code does, including where that differs from what
one would expect of a chronological range filter:

- The code sorts ascending: the comparator is negative exactly when `a` is
  earlier. So order 0 is the EARLIEST product, not the latest. For products
  A (2020), B (2022) and C (2021) the ranking is A, C, B (`Scenario.ExampleRanking`).
  The range `[0, 1]` then keeps A and C (`Scenario.ExampleFilter`).
- The order of products with equal `collectionTime` is not fixed. The
  comparator returns 1 both ways on ties (`Ranking.CompareTies`), so it is not
  a consistent comparator and no stable order is promised.
- The filter is skipped when EITHER bound is -1, not only when both are.
- A product without `location` still gets a layer, with no data and no style.
  It is not skipped.
- With no catalog and a filter requested, `products.filter` is called on
  `undefined` and throws. This is modelled as `Failure(ProductsUndefined)`.
  With no catalog and no filter, the group is empty.

## Model

| member | source | states |
|---|---|---|
| `TimeOrder.LessIsLexicographic` | src/app/marker.service.ts:29 | the `<` used on collection times holds exactly when one string is a proper prefix of the other or is smaller at the first difference |
| `TimeOrder.LessIrreflexive` | src/app/marker.service.ts:29 | no time is before itself |
| `TimeOrder.LessTransitive` | src/app/marker.service.ts:29 | "earlier than" is transitive |
| `TimeOrder.LessTotal` | src/app/marker.service.ts:29 | of two different times one is earlier |
| `TimeOrder.AtMostTransitive` | src/app/marker.service.ts:29 | "no later than" is transitive |
| `Ranking.Projection` | src/app/marker.service.ts:24-27 | one `{id, collectionTime}` pair per product, in catalog order |
| `Ranking.Compare` | src/app/marker.service.ts:28-30 | the comparator is always 1 or -1, and negative exactly when the first time is earlier |
| `Ranking.CompareTies` | src/app/marker.service.ts:29 | on equal times the comparator answers 1 in both directions |
| `Ranking.SortByTime` | src/app/marker.service.ts:28-30 | the array is afterwards non-decreasing in time and a permutation of what it held |
| `Ranking.SortedTimes` | src/app/marker.service.ts:24-30 | the sorted pairs are a permutation of the products' pairs, non-decreasing in time |
| `Ranking.RanksDense` | src/app/marker.service.ts:31-38 | the ranks are exactly 0 .. n-1, n the number of products, each used once |
| `Ranking.RankEnds` | src/app/marker.service.ts:28-38 | rank 0 has the earliest time of any product and the last rank the latest |
| `Ranking.AscendingUnique` | src/app/marker.service.ts:28-30 | two ascending permutations of the same times are the same sequence |
| `Ranking.RankingsAgree` | src/app/marker.service.ts:152-172 | any two rankings of the same products (the `rangesStream$` one and the `getProductCollectionTimes` one) agree on rank and time at every position |
| `Ranking.RankingUnique` | src/app/marker.service.ts:28-38 | when no two products share a time, the ranking is unique |
| `Selection.InRangeMembers` | src/app/marker.service.ts:55-57 | an entry survives the order filter iff it is in `orderedIds` with `min <= order <= max` |
| `Selection.KeepIdsMembers` | src/app/marker.service.ts:60 | a product survives the id filter iff it is in the catalog and its id is among the ids |
| `Selection.KeepIdsConcat` | src/app/marker.service.ts:60 | the id filter distributes over concatenation |
| `Selection.SelectMembers` | src/app/marker.service.ts:55-60 | a product is selected iff it is in the catalog and some ranked entry with order in `[min, max]` has its id |
| `Selection.SelectKeepsOrder` | src/app/marker.service.ts:60 | the selection keeps catalog order: it distributes over concatenation and keeps a single product exactly when chosen |
| `Selection.SelectEmpty` | src/app/marker.service.ts:54-60 | `min > max`, or an empty `orderedIds`, selects nothing |
| `Selection.FullRangeSelectsAll` | src/app/marker.service.ts:55-60 | the range `[0, n-1]` over a ranking of the catalog selects the whole catalog |
| `Window.RankingDistinctIds` | src/app/marker.service.ts:24-38 | distinct product ids give a ranking with distinct ids |
| `Window.WindowIds` | src/app/marker.service.ts:55-58 | over a numbered ranking, the ids kept for `[lo, hi]` are those of entries `lo` to `hi` |
| `Window.WindowSize` | src/app/marker.service.ts:55-60 | with distinct ids, `0 <= lo <= hi < n` selects exactly `hi - lo + 1` products |
| `Layers.LayerFor` | src/app/marker.service.ts:71-82 | a layer holds the product's feature, and has a style iff `location` is defined, the style being `#ff0000` |
| `Layers.DrawOnePerProduct` | src/app/marker.service.ts:69-85 | the group has one layer per product, in product order, products without a location included |
| `Layers.ShapesAreLocated` | src/app/marker.service.ts:73-84 | the number of layers holding a shape equals the number of products with a location |
| `Markers.Unfiltered` | src/app/marker.service.ts:52-90 | when `min` or `max` is -1 the whole catalog is drawn, one layer per product; with no catalog the group is empty |
| `Markers.FilterWithoutCatalog` | src/app/marker.service.ts:53-60 | with no catalog, `mapPolygons` fails iff both bounds are set |
| `Markers.Filtered` | src/app/marker.service.ts:54-85 | with both bounds set, one layer per selected product, and the selected products are exactly the chosen catalog products |
| `Markers.NumberedIsRanking` | src/app/marker.service.ts:31-38 | numbering a sorted permutation `order = i` gives a ranking |
| `Markers.MarkerService.constructor` | src/app/marker.service.ts:17-19 | no catalog yet, empty `orderedIds` |
| `Markers.MarkerService.Publish` | src/app/marker.service.ts:47-48 | the fetched catalog becomes the current value; `orderedIds` is untouched |
| `Markers.MarkerService.RangesStream` | src/app/marker.service.ts:20-44 | no catalog: yields `None` and leaves `orderedIds` alone; otherwise replaces `orderedIds` with a ranking of the products and yields it |
| `Markers.MarkerService.GetProductCollectionTimes` | src/app/marker.service.ts:152-172 | returns a ranking of the response's products, changing no field |
| `Markers.MarkerService.MapPolygons` | src/app/marker.service.ts:52-90 | returns the group `Polygons` specifies for the current catalog and `orderedIds` |
| `MapView.InitialRangeShowsAll` | src/app/map/map.component.ts:155-159 | the range `[0, n-1]` set on a fresh slider draws the same group as no filter |
| `MapView.ShortSliderUnfiltered` | src/app/map/map.component.ts:171-173 | a slider holding fewer than two values passes `undefined` for a missing bound, which becomes the default -1, so the unfiltered group is drawn |
| `MapView.MapComponent.constructor` | src/app/map/map.component.ts:35-38 | empty `rangeValues`, `min = max = 0`, an empty group |
| `MapView.MapComponent.SetRangeValues` | src/app/map/map.component.ts:155-165 | `max := n - 1`; an empty `rangeValues` becomes `[0, n - 1]`, a non-empty one is kept; `min` and the group are unchanged |
| `MapView.MapComponent.SliderChange` | src/app/map/map.component.ts:167-176 | asks `mapPolygons` for `(rangeValues[0], rangeValues[1])` and replaces the group with the result; a thrown error leaves it |
| `Scenario.ExampleRanking` | src/app/marker.service.ts:28-38 | every ranking of A (2020), B (2022), C (2021) is A, C, B with orders 0, 1, 2 |
| `Scenario.ExampleFilter` | src/app/marker.service.ts:55-60 | the range `[0, 1]` over it keeps A and C, in catalog order |

## Left out

- The HTTP requests (constructor at src/app/marker.service.ts:46-50, and
  `getProductCollectionTimes`' own request) are network I/O. The catalog is a
  parameter: `Publish` models the subscription callback, and
  `GetProductCollectionTimes` takes the response.
- The `BehaviorSubject` / `switchMap` / `Observable` plumbing is reactive wiring.
  The subject's current value is the field `catalog`, and `RangesStream` is
  the body run for that value.
- `makeCapitalMarkers`, `makeCapitalCircleMarkers` and `scaledRadius` are
  network I/O, Leaflet calls and floating-point arithmetic.
- Leaflet rendering is a foreign library and is not modelled: `L.geoJSON`
  parsing (a feature is kept as opaque text), `addTo`, `removeLayer`,
  `fitBounds`, tile layers, the geoman controls and their event logging,
  `console.log`, the icon configuration, and `app.module.ts`.
- Markers.MarkerService.GetProductCollectionTimes: it is proved to return a
  ranking, not the very list `RangesStream` computes. The source runs the same
  sort on both paths, but the model leaves the order of equal times open, so
  `Ranking.RankingsAgree` relates the two on rank and time only. They are fully
  equal when times are distinct (`Ranking.RankingUnique`).
- Ranking.SortByTime: insertion sort stands in for the engine's
  `Array.prototype.sort`. Only sortedness and permutation are claimed, not the
  engine's placement of ties.
- Characters are compared by Unicode code point. JavaScript compares UTF-16
  code units, which differs only between supplementary-plane characters and
  U+E000..U+FFFF.
- Products with a missing or non-string `collectionTime` or `id` are not
  modelled. Non-integer slider values are not modelled either.
- `setRangeValues` is modelled on a list argument. Being called with the
  stream's `null` would throw on `ranges.length`; that case is not modelled.
- The slider's template (`map.component.html`, named at
  src/app/map/map.component.ts:30) is not modelled; `SliderChange` reads
  whatever `rangeValues` holds.
- A `location` that is JSON `null` is not modelled. The test at
  src/app/marker.service.ts:73 is `!== undefined`, so such a product would get
  the red style and be handed to `addData`; `Option<Feature>` only expresses a
  present or an absent location.
