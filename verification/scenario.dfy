/** A three-product catalog, ranked and filtered: the comparator sorts
    ascending, so the earliest product gets order 0. */
module Scenario {
  import opened Wrappers
  import opened TimeOrder
  import opened Catalog
  import opened Ranking
  import opened Selection

  const A: Product := Product("A", "2020-01-01", None)
  const B: Product := Product("B", "2022-01-01", None)
  const C: Product := Product("C", "2021-01-01", None)

  const Expected: seq<OrderedEntry> :=
    [OrderedEntry(0, "A", "2020-01-01"), OrderedEntry(1, "C", "2021-01-01"), OrderedEntry(2, "B", "2022-01-01")]

  lemma TimesAscend()
    ensures AtMost(A.collectionTime, C.collectionTime) && AtMost(C.collectionTime, B.collectionTime)
    ensures AtMost(A.collectionTime, B.collectionTime)
  {
    LessFirstDifference(A.collectionTime, C.collectionTime, 3);
    LessFirstDifference(C.collectionTime, B.collectionTime, 3);
    LessAsymmetric(A.collectionTime, C.collectionTime);
    LessAsymmetric(C.collectionTime, B.collectionTime);
    AtMostTransitive(A.collectionTime, C.collectionTime, B.collectionTime);
  }

  lemma ExpectedSorted()
    ensures SortedByTime(Unranked(Expected))
  {
    TimesAscend();
    var x, y, z := Timed("A", "2020-01-01"), Timed("B", "2022-01-01"), Timed("C", "2021-01-01");
    assert Unranked(Expected) == [x, z, y];
  }

  lemma ExpectedPermutation()
    ensures multiset(Unranked(Expected)) == multiset(Projection([A, B, C]))
  {
    var x, y, z := Timed("A", "2020-01-01"), Timed("B", "2022-01-01"), Timed("C", "2021-01-01");
    assert Unranked(Expected) == [x, z, y];
    assert Projection([A, B, C]) == [x, y, z];
    assert multiset([x, z, y]) == multiset([x, y, z]);
  }

  lemma ExpectedIsRanking()
    ensures IsRanking([A, B, C], Expected)
  {
    ExpectedSorted();
    ExpectedPermutation();
  }

  /** Every ranking of `[A, B, C]` is `A, C, B`, numbered 0, 1, 2. */
  lemma ExampleRanking(r: seq<OrderedEntry>)
    requires IsRanking([A, B, C], r)
    ensures r == Expected
  {
    ExpectedIsRanking();
    assert DistinctTimes([A, B, C]);
    RankingUnique([A, B, C], r, Expected);
  }

  lemma ExampleChosen(r: seq<OrderedEntry>)
    requires r == Expected
    ensures Chosen(A, r, 0, 1) && Chosen(C, r, 0, 1) && !Chosen(B, r, 0, 1)
  {
    assert r[0] in r && r[1] in r;
    assert forall e :: e in r ==> e == r[0] || e == r[1] || e == r[2];
  }

  lemma ExampleSingles(r: seq<OrderedEntry>)
    requires r == Expected
    ensures Select([A], r, 0, 1) == [A] && Select([B], r, 0, 1) == [] && Select([C], r, 0, 1) == [C]
  {
    ExampleChosen(r);
    SelectKeepsOrder([], [], r, 0, 1, A);
    SelectKeepsOrder([], [], r, 0, 1, B);
    SelectKeepsOrder([], [], r, 0, 1, C);
  }

  /** The range `[0, 1]` then keeps A and C, in catalog order. */
  lemma ExampleFilter(r: seq<OrderedEntry>)
    requires IsRanking([A, B, C], r)
    ensures Select([A, B, C], r, 0, 1) == [A, C]
  {
    ExampleRanking(r);
    ExampleSingles(r);
    SelectKeepsOrder([B], [C], r, 0, 1, B);
    assert [B] + [C] == [B, C];
    SelectKeepsOrder([A], [B, C], r, 0, 1, A);
    assert [A] + [B, C] == [A, B, C];
  }
}
