/** How many products a range selects when product ids are distinct. */
module Window {
  import opened Catalog
  import opened Ranking
  import opened Selection

  ghost predicate DistinctIds(ps: seq<Product>)
  {
    forall i, j :: 0 <= i < j < |ps| ==> ps[i].id != ps[j].id
  }

  ghost predicate DistinctEntryIds(es: seq<OrderedEntry>)
  {
    forall i, j :: 0 <= i < j < |es| ==> es[i].id != es[j].id
  }

  function ProductIds(ps: seq<Product>): set<string>
  {
    set p | p in ps :: p.id
  }

  function EntryIds(es: seq<OrderedEntry>): set<string>
  {
    set e | e in es :: e.id
  }

  lemma {:induction false} ProductIdsCount(ps: seq<Product>)
    requires DistinctIds(ps)
    ensures |ProductIds(ps)| == |ps|
  {
    if ps != [] {
      ProductIdsCount(ps[1..]);
      assert ps == [ps[0]] + ps[1..];
      assert ProductIds(ps) == {ps[0].id} + ProductIds(ps[1..]);
      assert ps[0].id !in ProductIds(ps[1..]);
    } else {
      assert ProductIds(ps) == {};
    }
  }

  lemma {:induction false} EntryIdsCount(es: seq<OrderedEntry>)
    requires DistinctEntryIds(es)
    ensures |EntryIds(es)| == |es|
  {
    if es != [] {
      EntryIdsCount(es[1..]);
      assert es == [es[0]] + es[1..];
      assert EntryIds(es) == {es[0].id} + EntryIds(es[1..]);
      assert es[0].id !in EntryIds(es[1..]);
    } else {
      assert EntryIds(es) == {};
    }
  }

  /** Filtering keeps ids distinct. */
  lemma {:induction false} KeepIdsDistinct(ps: seq<Product>, ids: seq<string>)
    requires DistinctIds(ps)
    ensures DistinctIds(KeepIds(ps, ids))
  {
    if ps != [] {
      KeepIdsDistinct(ps[1..], ids);
      KeepIdsMembers(ps[1..], ids);
      var rest := KeepIds(ps[1..], ids);
      forall q | q in rest
        ensures q.id != ps[0].id
      {
        var j :| 0 <= j < |ps[1..]| && ps[1..][j] == q;
        assert ps[j + 1] == q;
      }
    }
  }

  lemma MultiplicityOfRepeat(s: seq<Timed>, i: nat, j: nat)
    requires i < j < |s| && s[i] == s[j]
    ensures multiset(s)[s[i]] >= 2
  {
    assert s == s[..i] + [s[i]] + s[i + 1..j] + [s[j]] + s[j + 1..];
  }

  lemma {:induction false} MultiplicityAtMostOne(s: seq<Timed>, x: Timed)
    requires forall i, j :: 0 <= i < j < |s| ==> s[i].id != s[j].id
    ensures multiset(s)[x] <= 1
  {
    if s != [] {
      MultiplicityAtMostOne(s[1..], x);
      assert s == [s[0]] + s[1..];
      if x == s[0] {
        assert x !in s[1..];
      }
    }
  }

  /** Distinct product ids give a ranking with distinct ids. */
  lemma RankingDistinctIds(ps: seq<Product>, r: seq<OrderedEntry>)
    requires IsRanking(ps, r) && DistinctIds(ps)
    ensures DistinctEntryIds(r)
  {
    var s := Unranked(r);
    var t := Projection(ps);
    forall i, j | 0 <= i < j < |r|
      ensures r[i].id != r[j].id
    {
      if r[i].id == r[j].id {
        assert s[i] in multiset(t) && s[j] in multiset(t);
        var a :| 0 <= a < |t| && t[a] == s[i];
        var b :| 0 <= b < |t| && t[b] == s[j];
        assert ps[a].id == ps[b].id;
        assert a == b;
        MultiplicityOfRepeat(s, i, j);
        MultiplicityAtMostOne(t, s[i]);
        assert false;
      }
    }
  }

  /** With numbered entries, the range `[lo, hi]` holds the ids of entries
      `lo` to `hi`. */
  lemma WindowIds(r: seq<OrderedEntry>, lo: nat, hi: nat)
    requires forall k :: 0 <= k < |r| ==> r[k].order == k
    requires lo <= hi < |r|
    ensures (set x | x in IdsOf(InRange(r, lo, hi))) == EntryIds(r[lo..hi + 1])
  {
    var inRange := InRange(r, lo, hi);
    InRangeMembers(r, lo, hi);
    forall x | x in IdsOf(inRange)
      ensures x in EntryIds(r[lo..hi + 1])
    {
      var k :| 0 <= k < |inRange| && IdsOf(inRange)[k] == x;
      assert inRange[k] in inRange;
      var m :| 0 <= m < |r| && r[m] == inRange[k];
      assert r[lo..hi + 1][m - lo] == r[m];
    }
    forall x | x in EntryIds(r[lo..hi + 1])
      ensures x in IdsOf(inRange)
    {
      var e :| e in r[lo..hi + 1] && e.id == x;
      var m :| 0 <= m < hi + 1 - lo && r[lo..hi + 1][m] == e;
      assert r[lo + m] == e;
      var k :| 0 <= k < |inRange| && inRange[k] == e;
      assert IdsOf(inRange)[k] == x;
    }
  }

  /** When product ids are distinct, a range `[lo, hi]` within the ranking
      selects exactly `hi - lo + 1` products. */
  lemma WindowSize(ps: seq<Product>, r: seq<OrderedEntry>, lo: nat, hi: nat)
    requires IsRanking(ps, r) && DistinctIds(ps)
    requires lo <= hi < |ps|
    ensures |Select(ps, r, lo, hi)| == hi - lo + 1
  {
    var ids := IdsOf(InRange(r, lo, hi));
    var chosen := Select(ps, r, lo, hi);
    var window := r[lo..hi + 1];
    KeepIdsDistinct(ps, ids);
    ProductIdsCount(chosen);
    RankingDistinctIds(ps, r);
    EntryIdsCount(window);
    WindowIds(r, lo, hi);
    KeepIdsMembers(ps, ids);
    forall x | x in EntryIds(window)
      ensures x in ProductIds(chosen)
    {
      var e :| e in window && e.id == x;
      var m :| 0 <= m < |window| && window[m] == e;
      assert Unranked(r)[lo + m] in multiset(Projection(ps));
      var a :| 0 <= a < |ps| && Projection(ps)[a] == Unranked(r)[lo + m];
      assert ps[a] in chosen;
    }
    assert ProductIds(chosen) == EntryIds(window);
  }
}
