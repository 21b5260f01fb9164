/** The range filter of `mapPolygons`: keep the ranked entries whose order
    lies in `[min, max]`, take their ids, and keep the catalog products whose
    id is one of them. */
module Selection {
  import opened Catalog
  import opened Ranking

  /** `orderedIds.filter(({order}) => order >= min && order <= max)` */
  function InRange(entries: seq<OrderedEntry>, min: int, max: int): seq<OrderedEntry>
  {
    if entries == [] then []
    else (if min <= entries[0].order <= max then [entries[0]] else []) + InRange(entries[1..], min, max)
  }

  /** `filtered.map((f) => f.id)` */
  function IdsOf(entries: seq<OrderedEntry>): (ids: seq<string>)
    ensures |ids| == |entries|
    ensures forall k :: 0 <= k < |entries| ==> ids[k] == entries[k].id
  {
    seq(|entries|, k requires 0 <= k < |entries| => entries[k].id)
  }

  /** `products.filter((p) => ids.includes(p.id))` */
  function KeepIds(ps: seq<Product>, ids: seq<string>): seq<Product>
  {
    if ps == [] then []
    else (if ps[0].id in ids then [ps[0]] else []) + KeepIds(ps[1..], ids)
  }

  /** The products `mapPolygons` keeps for the range `[min, max]`. */
  function Select(ps: seq<Product>, entries: seq<OrderedEntry>, min: int, max: int): seq<Product>
  {
    KeepIds(ps, IdsOf(InRange(entries, min, max)))
  }

  /** Some ranked entry in the range carries the product's id. */
  ghost predicate Chosen(p: Product, entries: seq<OrderedEntry>, min: int, max: int)
  {
    exists e :: e in entries && min <= e.order <= max && e.id == p.id
  }

  lemma {:induction false} InRangeMembers(entries: seq<OrderedEntry>, min: int, max: int)
    ensures forall e :: e in InRange(entries, min, max) <==> e in entries && min <= e.order <= max
  {
    if entries != [] {
      InRangeMembers(entries[1..], min, max);
      assert entries == [entries[0]] + entries[1..];
    }
  }

  lemma {:induction false} KeepIdsMembers(ps: seq<Product>, ids: seq<string>)
    ensures forall p :: p in KeepIds(ps, ids) <==> p in ps && p.id in ids
  {
    if ps != [] {
      KeepIdsMembers(ps[1..], ids);
      assert ps == [ps[0]] + ps[1..];
    }
  }

  lemma {:induction false} KeepIdsConcat(a: seq<Product>, b: seq<Product>, ids: seq<string>)
    ensures KeepIds(a + b, ids) == KeepIds(a, ids) + KeepIds(b, ids)
  {
    if a != [] {
      assert (a + b)[1..] == a[1..] + b;
      KeepIdsConcat(a[1..], b, ids);
    } else {
      assert a + b == b;
    }
  }

  /** A product is selected exactly when it is in the catalog and some
      ranked entry with an order in `[min, max]` has its id. */
  lemma SelectMembers(ps: seq<Product>, entries: seq<OrderedEntry>, min: int, max: int, p: Product)
    ensures p in Select(ps, entries, min, max) <==> p in ps && Chosen(p, entries, min, max)
  {
    var inRange := InRange(entries, min, max);
    InRangeMembers(entries, min, max);
    KeepIdsMembers(ps, IdsOf(inRange));
    if p.id in IdsOf(inRange) {
      var k :| 0 <= k < |inRange| && IdsOf(inRange)[k] == p.id;
      assert inRange[k] in inRange;
    }
    if Chosen(p, entries, min, max) {
      var e :| e in entries && min <= e.order <= max && e.id == p.id;
      var k :| 0 <= k < |inRange| && inRange[k] == e;
      assert IdsOf(inRange)[k] == p.id;
    }
  }

  /** The selection keeps catalog order: selecting from a concatenation is
      the concatenation of the selections, and a single product is kept
      exactly when it is chosen. */
  lemma SelectKeepsOrder(a: seq<Product>, b: seq<Product>, entries: seq<OrderedEntry>, min: int, max: int, p: Product)
    ensures Select(a + b, entries, min, max) == Select(a, entries, min, max) + Select(b, entries, min, max)
    ensures Select([p], entries, min, max) == if Chosen(p, entries, min, max) then [p] else []
  {
    KeepIdsConcat(a, b, IdsOf(InRange(entries, min, max)));
    var ids := IdsOf(InRange(entries, min, max));
    SelectMembers([p], entries, min, max, p);
    assert [p][1..] == [];
    assert KeepIds([p], ids) == (if p.id in ids then [p] else []) + KeepIds([], ids);
  }

  /** An inverted range, or a ranking never computed, selects nothing. */
  lemma SelectEmpty(ps: seq<Product>, entries: seq<OrderedEntry>, min: int, max: int)
    requires min > max || entries == []
    ensures Select(ps, entries, min, max) == []
  {
    if Select(ps, entries, min, max) != [] {
      var p := Select(ps, entries, min, max)[0];
      SelectMembers(ps, entries, min, max, p);
    }
  }

  lemma {:induction false} KeepAll(ps: seq<Product>, ids: seq<string>)
    requires forall p :: p in ps ==> p.id in ids
    ensures KeepIds(ps, ids) == ps
  {
    if ps != [] {
      KeepAll(ps[1..], ids);
      assert ps == [ps[0]] + ps[1..];
    }
  }

  /** The slider's full range `[0, n-1]` over a ranking of the catalog keeps
      every product. */
  lemma FullRangeSelectsAll(ps: seq<Product>, r: seq<OrderedEntry>)
    requires IsRanking(ps, r)
    ensures Select(ps, r, 0, |ps| - 1) == ps
  {
    var inRange := InRange(r, 0, |ps| - 1);
    InRangeMembers(r, 0, |ps| - 1);
    forall p | p in ps
      ensures p.id in IdsOf(inRange)
    {
      var i :| 0 <= i < |ps| && ps[i] == p;
      assert Projection(ps)[i] in multiset(Unranked(r));
      var j :| 0 <= j < |r| && Unranked(r)[j] == Projection(ps)[i];
      assert r[j] in inRange;
      var k :| 0 <= k < |inRange| && inRange[k] == r[j];
      assert IdsOf(inRange)[k] == p.id;
    }
    KeepAll(ps, IdsOf(inRange));
  }
}
