/** `MapComponent`: the slider state and the feature group on the map. */
module MapView {
  import opened Wrappers
  import opened Catalog
  import opened Ranking
  import opened Selection
  import opened Layers
  import opened Markers

  /** `rangeValues[k]` as an argument of `mapPolygons`: a missing element is
      `undefined`, for which the parameter's default -1 is used. */
  function RangeArg(values: seq<int>, k: nat): int
  {
    if k < |values| then values[k] else -1
  }

  /** The range `setRangeValues` puts on a fresh slider, `[0, n-1]`, draws
      the same group as no filter at all: every product of the catalog. */
  lemma InitialRangeShowsAll(c: Catalog, r: seq<OrderedEntry>)
    requires IsRanking(c.products, r)
    ensures Polygons(Some(c), r, 0, |r| - 1) == Polygons(Some(c), r, -1, -1)
  {
    if |r| > 0 {
      FullRangeSelectsAll(c.products, r);
    }
  }

  /** A slider holding fewer than two values (never set, or set to one
      value) draws the unfiltered group. */
  lemma ShortSliderUnfiltered(c: Option<Catalog>, o: seq<OrderedEntry>, values: seq<int>)
    requires |values| < 2
    ensures Polygons(c, o, RangeArg(values, 0), RangeArg(values, 1)) == Polygons(c, o, -1, -1)
  {
  }

  class MapComponent {
    var rangeValues: seq<int>
    var min: int
    var max: int
    /** The layers of the group last assigned; after a thrown error it is
        no longer on the map. */
    var featureGroup: seq<Layer>
    const markerService: MarkerService

    constructor (markerService: MarkerService)
      ensures rangeValues == [] && min == 0 && max == 0 && featureGroup == []
      ensures this.markerService == markerService
    {
      rangeValues := [];
      min := 0;
      max := 0;
      featureGroup := [];
      this.markerService := markerService;
    }

    /** `setRangeValues(ranges)` with the ranked list the stream emitted. */
    method SetRangeValues(ranges: seq<OrderedEntry>)
      modifies this`max, this`rangeValues
      ensures max == |ranges| - 1
      ensures |old(rangeValues)| < 1 ==> rangeValues == [0, |ranges| - 1]
      ensures |old(rangeValues)| >= 1 ==> rangeValues == old(rangeValues)
      ensures min == old(min) && featureGroup == old(featureGroup)
    {
      max := |ranges| - 1;
      if |rangeValues| < 1 {
        rangeValues := [0];
        rangeValues := rangeValues + [|ranges| - 1];
      }
    }

    /** `sliderChange`: replace the group with the one drawn for the
        slider's two values; a thrown error leaves the field as it was. */
    method SliderChange() returns (r: Result<seq<Layer>, MapError>)
      modifies this`featureGroup
      ensures r == Polygons(markerService.catalog, markerService.orderedIds, RangeArg(rangeValues, 0), RangeArg(rangeValues, 1))
      ensures featureGroup == if r.Success? then r.value else old(featureGroup)
      ensures rangeValues == old(rangeValues) && min == old(min) && max == old(max)
    {
      r := markerService.MapPolygons(RangeArg(rangeValues, 0), RangeArg(rangeValues, 1));
      if r.Success? {
        featureGroup := r.value;
      }
    }
  }
}
