/** Chronological ranking of the catalog: the `{id, collectionTime}` pairs of
    the products, sorted with the service's comparator and numbered 0, 1, ... */
module Ranking {
  import opened TimeOrder
  import opened Catalog

  /** The `{id, collectionTime}` record pushed into `prodArray`. */
  datatype Timed = Timed(id: string, collectionTime: string)

  /** The `{order, id, collectionTime}` record pushed into `orderedIds`. */
  datatype OrderedEntry = OrderedEntry(order: int, id: string, collectionTime: string)

  /** The pairs the `forEach` pass extracts, in catalog order. */
  function Projection(ps: seq<Product>): (r: seq<Timed>)
    ensures |r| == |ps|
    ensures forall k :: 0 <= k < |ps| ==> r[k].id == ps[k].id && r[k].collectionTime == ps[k].collectionTime
  {
    seq(|ps|, k requires 0 <= k < |ps| => Timed(ps[k].id, ps[k].collectionTime))
  }

  /** The pairs of a ranked list, with the rank dropped. */
  function Unranked(r: seq<OrderedEntry>): (s: seq<Timed>)
    ensures |s| == |r|
    ensures forall k :: 0 <= k < |r| ==> s[k].id == r[k].id && s[k].collectionTime == r[k].collectionTime
  {
    seq(|r|, k requires 0 <= k < |r| => Timed(r[k].id, r[k].collectionTime))
  }

  function Times(s: seq<Timed>): (ts: seq<string>)
    ensures |ts| == |s|
    ensures forall k :: 0 <= k < |s| ==> ts[k] == s[k].collectionTime
  {
    seq(|s|, k requires 0 <= k < |s| => s[k].collectionTime)
  }

  ghost predicate Ascending(ts: seq<string>)
  {
    forall i, j :: 0 <= i < j < |ts| ==> AtMost(ts[i], ts[j])
  }

  /** Non-decreasing in `collectionTime`. */
  ghost predicate SortedByTime(s: seq<Timed>)
  {
    forall i, j :: 0 <= i < j < |s| ==> AtMost(s[i].collectionTime, s[j].collectionTime)
  }

  /** The comparator handed to `Array.prototype.sort`:
      `0 - (a.collectionTime < b.collectionTime ? 1 : -1)`. */
  function Compare(a: Timed, b: Timed): (r: int)
    ensures r == -1 || r == 1
    ensures r < 0 <==> Less(a.collectionTime, b.collectionTime)
  {
    0 - (if Less(a.collectionTime, b.collectionTime) then 1 else -1)
  }

  /** On equal keys the comparator answers "after" in both directions, so it
      is not a consistent comparator and the order of ties is left open. */
  lemma CompareTies(a: Timed, b: Timed)
    requires a.collectionTime == b.collectionTime
    ensures Compare(a, b) == 1 && Compare(b, a) == 1
  {
    LessIrreflexive(a.collectionTime);
  }

  /** The first `n` elements are non-decreasing in time. */
  ghost predicate SortedPrefix(s: seq<Timed>, n: int)
  {
    forall p, q :: 0 <= p < q < n && q < |s| ==> AtMost(s[p].collectionTime, s[q].collectionTime)
  }

  /** `s[..i+1]` is sorted except for `s[j]`, which is earlier than all of
      `s[j+1..i+1]`; if `s[j]` is not earlier than `s[j-1]`, the whole prefix
      is sorted. */
  lemma InsertionDone(s: seq<Timed>, i: nat, j: nat)
    requires j <= i < |s|
    requires forall p, q :: 0 <= p < q <= i && p != j && q != j ==> AtMost(s[p].collectionTime, s[q].collectionTime)
    requires forall q :: j < q <= i ==> Less(s[j].collectionTime, s[q].collectionTime)
    requires j > 0 ==> !Less(s[j].collectionTime, s[j - 1].collectionTime)
    ensures SortedPrefix(s, i + 1)
  {
    forall p, q | 0 <= p < q <= i
      ensures AtMost(s[p].collectionTime, s[q].collectionTime)
    {
      if p == j {
        LessAsymmetric(s[p].collectionTime, s[q].collectionTime);
      } else if q == j && p < j - 1 {
        AtMostTransitive(s[p].collectionTime, s[j - 1].collectionTime, s[j].collectionTime);
      }
    }
  }

  /** Swapping `s[j]` with an earlier-sorting `s[j-1]` keeps the insertion
      invariant, one position further down, and the multiset. */
  lemma SwapStep(s: seq<Timed>, t: seq<Timed>, i: nat, j: nat)
    requires 0 < j <= i < |s| && |t| == |s|
    requires t == s[j - 1 := s[j]][j := s[j - 1]]
    requires forall p, q :: 0 <= p < q <= i && p != j && q != j ==> AtMost(s[p].collectionTime, s[q].collectionTime)
    requires forall q :: j < q <= i ==> Less(s[j].collectionTime, s[q].collectionTime)
    requires Less(s[j].collectionTime, s[j - 1].collectionTime)
    ensures forall p, q :: 0 <= p < q <= i && p != j - 1 && q != j - 1 ==> AtMost(t[p].collectionTime, t[q].collectionTime)
    ensures forall q :: j - 1 < q <= i ==> Less(t[j - 1].collectionTime, t[q].collectionTime)
    ensures multiset(t) == multiset(s)
  {
    assert s == s[..j - 1] + [s[j - 1], s[j]] + s[j + 1..];
    assert t == s[..j - 1] + [s[j], s[j - 1]] + s[j + 1..];
  }

  /** One pass of the sort: move `a[i]` down past every later time. */
  method SinkInto(a: array<Timed>, i: nat)
    requires i < a.Length && SortedPrefix(a[..], i)
    modifies a
    ensures SortedPrefix(a[..], i + 1)
    ensures multiset(a[..]) == old(multiset(a[..]))
  {
    var j := i;
    while j > 0 && Compare(a[j], a[j - 1]) < 0
      invariant 0 <= j <= i
      invariant forall p, q :: 0 <= p < q <= i && p != j && q != j ==> AtMost(a[p].collectionTime, a[q].collectionTime)
      invariant forall q :: j < q <= i ==> Less(a[j].collectionTime, a[q].collectionTime)
      invariant multiset(a[..]) == old(multiset(a[..]))
    {
      ghost var before := a[..];
      a[j - 1], a[j] := a[j], a[j - 1];
      SwapStep(before, a[..], i, j);
      j := j - 1;
    }
    InsertionDone(a[..], i, j);
  }

  /** `prodArray.sort(comparator)`: an in-place sort that moves an element
      before its neighbour only when the comparator is negative. */
  method SortByTime(a: array<Timed>)
    modifies a
    ensures SortedByTime(a[..])
    ensures multiset(a[..]) == old(multiset(a[..]))
  {
    var i := 0;
    while i < a.Length
      invariant 0 <= i <= a.Length
      invariant SortedPrefix(a[..], i)
      invariant multiset(a[..]) == old(multiset(a[..]))
    {
      SinkInto(a, i);
      i := i + 1;
    }
  }

  /** The projection and sort steps shared by both ranking code paths. */
  method SortedTimes(ps: seq<Product>) returns (sorted: seq<Timed>)
    ensures multiset(sorted) == multiset(Projection(ps))
    ensures SortedByTime(sorted)
  {
    var prodArray: seq<Timed> := [];
    for k := 0 to |ps|
      invariant |prodArray| == k
      invariant forall m :: 0 <= m < k ==> prodArray[m] == Timed(ps[m].id, ps[m].collectionTime)
    {
      prodArray := prodArray + [Timed(ps[k].id, ps[k].collectionTime)];
    }
    assert prodArray == Projection(ps);
    var a := new Timed[|prodArray|](m requires 0 <= m < |prodArray| => prodArray[m]);
    assert a[..] == prodArray;
    SortByTime(a);
    sorted := a[..];
  }

  /** What both ranking code paths produce for the products `ps`: one entry
      per product, entry `k` has order `k`, the pairs are a permutation of
      the products' pairs, and they are non-decreasing in time. */
  ghost predicate IsRanking(ps: seq<Product>, r: seq<OrderedEntry>)
  {
    && |r| == |ps|
    && (forall k :: 0 <= k < |r| ==> r[k].order == k)
    && multiset(Unranked(r)) == multiset(Projection(ps))
    && SortedByTime(Unranked(r))
  }

  function Orders(r: seq<OrderedEntry>): set<int>
  {
    set e | e in r :: e.order
  }

  /** Ranks are exactly 0 .. n-1, each used once. */
  lemma RanksDense(ps: seq<Product>, r: seq<OrderedEntry>)
    requires IsRanking(ps, r)
    ensures forall k :: 0 <= k < |ps| ==> k in Orders(r)
    ensures forall n :: n in Orders(r) ==> 0 <= n < |ps|
    ensures forall i, j :: 0 <= i < |r| && 0 <= j < |r| && r[i].order == r[j].order ==> i == j
  {
    forall k | 0 <= k < |ps|
      ensures k in Orders(r)
    {
      assert r[k] in r;
    }
  }

  /** Rank 0 has the earliest collection time and the last rank the latest. */
  lemma RankEnds(ps: seq<Product>, r: seq<OrderedEntry>, p: Product)
    requires IsRanking(ps, r)
    requires p in ps
    ensures AtMost(r[0].collectionTime, p.collectionTime)
    ensures AtMost(p.collectionTime, r[|r| - 1].collectionTime)
  {
    var i :| 0 <= i < |ps| && ps[i] == p;
    var x := Projection(ps)[i];
    assert x in multiset(Unranked(r));
    var j :| 0 <= j < |r| && Unranked(r)[j] == x;
    if j != 0 {
      assert AtMost(Unranked(r)[0].collectionTime, Unranked(r)[j].collectionTime);
    } else {
      LessIrreflexive(p.collectionTime);
    }
    if j != |r| - 1 {
      assert AtMost(Unranked(r)[j].collectionTime, Unranked(r)[|r| - 1].collectionTime);
    } else {
      LessIrreflexive(p.collectionTime);
    }
  }

  lemma {:induction false} TimesConcat(s: seq<Timed>, t: seq<Timed>)
    ensures Times(s + t) == Times(s) + Times(t)
  {
  }

  /** A permutation of pairs permutes their times too. */
  lemma {:induction false} TimesPermutation(s: seq<Timed>, t: seq<Timed>)
    requires multiset(s) == multiset(t)
    ensures multiset(Times(s)) == multiset(Times(t))
    decreases |s|
  {
    if |s| > 0 {
      var x := s[0];
      assert x in multiset(t);
      var j :| 0 <= j < |t| && t[j] == x;
      var t' := t[..j] + t[j + 1..];
      assert t == t[..j] + [x] + t[j + 1..];
      assert multiset(t) == multiset(t[..j]) + multiset{x} + multiset(t[j + 1..]);
      assert multiset(t') == multiset(t[..j]) + multiset(t[j + 1..]);
      assert s == [x] + s[1..];
      assert multiset(s) == multiset{x} + multiset(s[1..]);
      assert multiset(s[1..]) == multiset(s) - multiset{x};
      assert multiset(t') == multiset(t) - multiset{x};
      TimesPermutation(s[1..], t');
      TimesConcat([x], s[1..]);
      TimesConcat(t[..j], [x]);
      TimesConcat(t[..j] + [x], t[j + 1..]);
      TimesConcat(t[..j], t[j + 1..]);
    } else {
      assert |t| == 0;
    }
  }

  /** The head of an ascending list is no later than any of its members. */
  lemma AscendingHead(a: seq<string>, x: string)
    requires Ascending(a) && x in multiset(a)
    ensures AtMost(a[0], x)
  {
    var i :| 0 <= i < |a| && a[i] == x;
    if i == 0 {
      LessIrreflexive(x);
    }
  }

  lemma AscendingTail(a: seq<string>)
    requires Ascending(a) && |a| > 0
    ensures Ascending(a[1..])
  {
    forall i, j | 0 <= i < j < |a| - 1
      ensures AtMost(a[1..][i], a[1..][j])
    {
      assert a[1..][i] == a[i + 1] && a[1..][j] == a[j + 1];
    }
  }

  lemma MultisetTail(a: seq<string>)
    requires |a| > 0
    ensures multiset(a[1..]) == multiset(a) - multiset{a[0]}
  {
    assert a == [a[0]] + a[1..];
  }

  /** Two ascending permutations of the same strings are identical. */
  lemma {:induction false} AscendingUnique(a: seq<string>, b: seq<string>)
    requires Ascending(a) && Ascending(b) && multiset(a) == multiset(b)
    ensures a == b
    decreases |a|
  {
    assert |a| == |multiset(a)| == |multiset(b)| == |b|;
    if |a| > 0 {
      AscendingHead(b, a[0]);
      AscendingHead(a, b[0]);
      AtMostAntisymmetric(a[0], b[0]);
      MultisetTail(a);
      MultisetTail(b);
      AscendingTail(a);
      AscendingTail(b);
      AscendingUnique(a[1..], b[1..]);
      assert a == [a[0]] + a[1..] && b == [b[0]] + b[1..];
    }
  }

  /** Any two rankings of the same products agree on rank and time at every
      position; only products with equal times can trade places. */
  lemma RankingsAgree(ps: seq<Product>, r1: seq<OrderedEntry>, r2: seq<OrderedEntry>)
    requires IsRanking(ps, r1) && IsRanking(ps, r2)
    ensures |r1| == |r2|
    ensures forall k :: 0 <= k < |r1| ==> r1[k].order == r2[k].order && r1[k].collectionTime == r2[k].collectionTime
  {
    TimesPermutation(Unranked(r1), Unranked(r2));
    AscendingUnique(Times(Unranked(r1)), Times(Unranked(r2)));
    forall k | 0 <= k < |r1|
      ensures r1[k].collectionTime == r2[k].collectionTime
    {
      assert Times(Unranked(r1))[k] == Times(Unranked(r2))[k];
    }
  }

  ghost predicate DistinctTimes(ps: seq<Product>)
  {
    forall i, j :: 0 <= i < j < |ps| ==> ps[i].collectionTime != ps[j].collectionTime
  }

  /** When no two products share a collection time the ranking is unique. */
  lemma RankingUnique(ps: seq<Product>, r1: seq<OrderedEntry>, r2: seq<OrderedEntry>)
    requires IsRanking(ps, r1) && IsRanking(ps, r2)
    requires DistinctTimes(ps)
    ensures r1 == r2
  {
    RankingsAgree(ps, r1, r2);
    forall k | 0 <= k < |r1|
      ensures r1[k] == r2[k]
    {
      assert Unranked(r1)[k] in multiset(Projection(ps));
      var i1 :| 0 <= i1 < |ps| && Projection(ps)[i1] == Unranked(r1)[k];
      assert Unranked(r2)[k] in multiset(Projection(ps));
      var i2 :| 0 <= i2 < |ps| && Projection(ps)[i2] == Unranked(r2)[k];
      assert ps[i1].collectionTime == ps[i2].collectionTime;
      assert i1 == i2;
    }
  }
}
