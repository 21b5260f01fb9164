/** `MarkerService`: holds the latest catalog, ranks it, and turns a range of
    ranks into a feature group. */
module Markers {
  import opened Wrappers
  import opened Catalog
  import opened Ranking
  import opened Selection
  import opened Layers

  /** `products.filter` called on `undefined`: a filter was requested while
      no catalog has been published. */
  datatype MapError = ProductsUndefined

  /** The products `mapPolygons` draws: the whole catalog unless both bounds
      are set (not -1), otherwise the range selection. */
  function Selected(catalog: Option<Catalog>, orderedIds: seq<OrderedEntry>, min: int, max: int): Result<seq<Product>, MapError>
  {
    if min != -1 && max != -1 then
      if catalog.None? then Failure(ProductsUndefined)
      else Success(Select(catalog.value.products, orderedIds, min, max))
    else if catalog.None? then Success([])
    else Success(catalog.value.products)
  }

  /** The feature group `mapPolygons` returns, or the error it throws. */
  function Polygons(catalog: Option<Catalog>, orderedIds: seq<OrderedEntry>, min: int, max: int): Result<seq<Layer>, MapError>
  {
    match Selected(catalog, orderedIds, min, max)
    case Success(ps) => Success(Draw(ps))
    case Failure(e) => Failure(e)
  }

  /** Without both bounds the whole catalog is drawn, one layer per product
      in catalog order; with no catalog the group is empty. */
  lemma Unfiltered(catalog: Option<Catalog>, orderedIds: seq<OrderedEntry>, min: int, max: int)
    requires min == -1 || max == -1
    ensures Polygons(catalog, orderedIds, min, max).Success?
    ensures catalog.None? ==> Polygons(catalog, orderedIds, min, max).value == []
    ensures catalog.Some? ==>
      var group := Polygons(catalog, orderedIds, min, max).value;
      && |group| == |catalog.value.products|
      && forall k :: 0 <= k < |group| ==> group[k] == LayerFor(catalog.value.products[k])
  {
    if catalog.Some? {
      DrawOnePerProduct(catalog.value.products);
    }
  }

  /** With both bounds set and no catalog, `mapPolygons` throws. */
  lemma FilterWithoutCatalog(orderedIds: seq<OrderedEntry>, min: int, max: int)
    ensures Polygons(None, orderedIds, min, max).Failure? <==> min != -1 && max != -1
  {
  }

  /** With both bounds set, the group has one layer per product that some
      entry ranked in `[min, max]` names, in catalog order. */
  lemma Filtered(c: Catalog, orderedIds: seq<OrderedEntry>, min: int, max: int)
    requires min != -1 && max != -1
    ensures Polygons(Some(c), orderedIds, min, max).Success?
    ensures
      var chosen := Select(c.products, orderedIds, min, max);
      var group := Polygons(Some(c), orderedIds, min, max).value;
      && |group| == |chosen|
      && (forall k :: 0 <= k < |group| ==> group[k] == LayerFor(chosen[k]))
      && (forall p :: p in chosen <==> p in c.products && Chosen(p, orderedIds, min, max))
  {
    var chosen := Select(c.products, orderedIds, min, max);
    DrawOnePerProduct(chosen);
    forall p
      ensures p in chosen <==> p in c.products && Chosen(p, orderedIds, min, max)
    {
      SelectMembers(c.products, orderedIds, min, max, p);
    }
  }

  /** Every entry, rank and time of a ranking built from `sorted`. */
  lemma NumberedIsRanking(ps: seq<Product>, sorted: seq<Timed>, r: seq<OrderedEntry>)
    requires multiset(sorted) == multiset(Projection(ps)) && SortedByTime(sorted)
    requires |r| == |sorted|
    requires forall k :: 0 <= k < |r| ==> r[k] == OrderedEntry(k, sorted[k].id, sorted[k].collectionTime)
    ensures IsRanking(ps, r)
  {
    assert Unranked(r) == sorted;
    assert |multiset(sorted)| == |multiset(Projection(ps))|;
  }

  class MarkerService {
    /** The value held by `rangesBS`: `null` until the catalog arrives. */
    var catalog: Option<Catalog>
    var orderedIds: seq<OrderedEntry>

    constructor ()
      ensures catalog == None && orderedIds == []
    {
      catalog := None;
      orderedIds := [];
    }

    /** The fetch callback `rangesBS.next(res)`; the request is not modelled. */
    method Publish(res: Catalog)
      modifies this`catalog
      ensures catalog == Some(res)
      ensures orderedIds == old(orderedIds)
    {
      catalog := Some(res);
    }

    /** The `rangesStream$` body for the current catalog. */
    method RangesStream() returns (r: Option<seq<OrderedEntry>>)
      modifies this`orderedIds
      ensures catalog.None? ==> r == None && orderedIds == old(orderedIds)
      ensures catalog.Some? ==> r == Some(orderedIds) && IsRanking(catalog.value.products, orderedIds)
    {
      if catalog.None? {
        return None;
      }
      orderedIds := [];
      var sorted := SortedTimes(catalog.value.products);
      for i := 0 to |sorted|
        invariant |orderedIds| == i
        invariant forall k :: 0 <= k < i ==> orderedIds[k] == OrderedEntry(k, sorted[k].id, sorted[k].collectionTime)
      {
        orderedIds := orderedIds + [OrderedEntry(i, sorted[i].id, sorted[i].collectionTime)];
      }
      NumberedIsRanking(catalog.value.products, sorted, orderedIds);
      return Some(orderedIds);
    }

    /** `getProductCollectionTimes` on the fetched response `res`: the same
        ranking, built in a local list; the service's fields are untouched. */
    method GetProductCollectionTimes(res: Catalog) returns (sortedId: seq<OrderedEntry>)
      ensures IsRanking(res.products, sortedId)
    {
      var sorted := SortedTimes(res.products);
      sortedId := [];
      for i := 0 to |sorted|
        invariant |sortedId| == i
        invariant forall k :: 0 <= k < i ==> sortedId[k] == OrderedEntry(k, sorted[k].id, sorted[k].collectionTime)
      {
        sortedId := sortedId + [OrderedEntry(i, sorted[i].id, sorted[i].collectionTime)];
      }
      NumberedIsRanking(res.products, sorted, sortedId);
    }

    /** `mapPolygons(min, max)`. */
    method MapPolygons(min: int, max: int) returns (r: Result<seq<Layer>, MapError>)
      ensures r == Polygons(catalog, orderedIds, min, max)
    {
      var products: Option<seq<Product>> := if catalog.Some? then Some(catalog.value.products) else None;
      if min != -1 && max != -1 {
        var filtered := InRange(orderedIds, min, max);
        var ids := IdsOf(filtered);
        if products.None? {
          return Failure(ProductsUndefined);
        }
        products := Some(KeepIds(products.value, ids));
      }
      var featureGroup: seq<Layer> := [];
      if products.Some? {
        var ps := products.value;
        for k := 0 to |ps|
          invariant featureGroup == Draw(ps[..k])
        {
          assert ps[..k + 1][..k] == ps[..k];
          featureGroup := featureGroup + [LayerFor(ps[k])];
        }
        assert ps[..|ps|] == ps;
      }
      return Success(featureGroup);
    }
  }
}
