// Scored results: sorting by score, cutting to the best few, and what does not depend on ties.

module Ranking {

  datatype Hit<T> = Hit(score: real, id: T)

  /** Python's list.sort order: descending when reversed, else ascending. */
  predicate InOrder(x: real, y: real, reverse: bool) {
    if reverse then x >= y else x <= y
  }

  predicate Ordered<T>(hits: seq<Hit<T>>, reverse: bool) {
    forall i, j :: 0 <= i < j < |hits| ==> InOrder(hits[i].score, hits[j].score, reverse)
  }

  ghost predicate Distinct<T>(hits: seq<Hit<T>>) {
    forall i, j :: 0 <= i < j < |hits| ==> hits[i].id != hits[j].id
  }

  /** hits[:limit]; a negative limit counts from the end. */
  function Limited<T>(hits: seq<T>, limit: int): (r: seq<T>)
    ensures r <= hits
    ensures 0 <= limit <= |hits| ==> |r| == limit
    ensures limit > |hits| ==> |r| == |hits|
    ensures -|hits| <= limit < 0 ==> |r| == |hits| + limit
    ensures limit < -|hits| ==> |r| == 0
  {
    var n := if limit < 0 then |hits| + limit else limit;
    if n < 0 then [] else if n < |hits| then hits[..n] else hits
  }

  lemma EmptyRanks<T>(reverse: bool)
    ensures Ordered<T>([], reverse) && Distinct<T>([])
  {
  }

  lemma OneMoreHit<T>(hits: seq<Hit<T>>, x: Hit<T>)
    requires Distinct(hits) && forall h :: h in hits ==> h.id != x.id
    ensures Distinct(hits + [x])
  {
  }

  // ---------- Sorting ----------

  /** hits.sort(key=score, reverse=reverse). */
  method SortByScore<T(==)>(hits: seq<Hit<T>>, reverse: bool) returns (r: seq<Hit<T>>)
    requires Distinct(hits)
    ensures Ordered(r, reverse) && Distinct(r) && |r| == |hits| && forall h :: h in r <==> h in hits
    ensures forall i, j :: 0 <= i < j < |r| ==> if reverse then r[i].score >= r[j].score else r[i].score <= r[j].score
  {
    r := [];
    for n := 0 to |hits|
      invariant Ordered(r, reverse) && Distinct(r) && |r| == n && forall h :: h in r <==> h in hits[..n]
    {
      assert hits[..n + 1] == hits[..n] + [hits[n]];
      assert forall h :: h in hits[..n] ==> h.id != hits[n].id;
      r := Place(r, hits[n], reverse);
    }
    assert hits[..|hits|] == hits;
  }

  method Place<T(==)>(hits: seq<Hit<T>>, x: Hit<T>, reverse: bool) returns (r: seq<Hit<T>>)
    requires Ordered(hits, reverse) && Distinct(hits) && forall h :: h in hits ==> h.id != x.id
    ensures Ordered(r, reverse) && Distinct(r) && |r| == |hits| + 1 && forall h :: h in r <==> h in hits || h == x
  {
    hide Ordered, Distinct;
    var i := |hits|;
    while i > 0 && !InOrder(hits[i - 1].score, x.score, reverse)
      invariant 0 <= i <= |hits|
      invariant i < |hits| ==> InOrder(x.score, hits[i].score, reverse)
    {
      i := i - 1;
    }
    PlacedIsOrdered(hits, i, x, reverse);
    PlacedIsDistinct(hits, i, x);
    PlacedContents(hits, i, x);
    r := hits[..i] + [x] + hits[i..];
  }

  lemma PlacedContents<T>(hits: seq<Hit<T>>, i: nat, x: Hit<T>)
    requires i <= |hits|
    ensures forall h :: h in hits[..i] + [x] + hits[i..] <==> h in hits || h == x
  {
    var r := hits[..i] + [x] + hits[i..];
    assert r[i] == x;
    assert forall j :: 0 <= j < |hits| ==> hits[j] == r[if j < i then j else j + 1];
  }

  lemma PlacedIsOrdered<T>(hits: seq<Hit<T>>, i: nat, x: Hit<T>, reverse: bool)
    requires Ordered(hits, reverse) && i <= |hits|
    requires i > 0 ==> InOrder(hits[i - 1].score, x.score, reverse)
    requires i < |hits| ==> InOrder(x.score, hits[i].score, reverse)
    ensures Ordered(hits[..i] + [x] + hits[i..], reverse)
  {
    assert forall j :: 0 <= j < i ==> InOrder(hits[j].score, x.score, reverse);
    assert forall j :: i <= j < |hits| ==> InOrder(x.score, hits[j].score, reverse);
  }

  lemma PlacedIsDistinct<T>(hits: seq<Hit<T>>, i: nat, x: Hit<T>)
    requires Distinct(hits) && i <= |hits| && forall h :: h in hits ==> h.id != x.id
    ensures Distinct(hits[..i] + [x] + hits[i..])
  {
    assert forall j :: 0 <= j < |hits| ==> hits[j] in hits && hits[j].id != x.id;
  }

  // ---------- What ties cannot change ----------

  function Scores<T>(hits: seq<Hit<T>>): (r: seq<real>)
    ensures |r| == |hits| && forall i :: 0 <= i < |r| ==> r[i] == hits[i].score
  {
    seq(|hits|, i requires 0 <= i < |hits| => hits[i].score)
  }

  ghost function Elements<T(!new)>(hits: seq<Hit<T>>): set<Hit<T>> {
    set h | h in hits
  }

  lemma {:induction false} ElementsCount<T(!new)>(hits: seq<Hit<T>>)
    requires Distinct(hits)
    ensures |Elements(hits)| == |hits|
  {
    if hits != [] {
      var init, last := hits[..|hits| - 1], hits[|hits| - 1];
      ElementsCount(init);
      assert hits == init + [last];
      assert forall h :: h in init ==> h.id != last.id;
      assert Elements(hits) == Elements(init) + {last};
    }
  }

  lemma SubsetCount<T>(s: set<T>, t: set<T>)
    requires s <= t
    ensures |s| <= |t|
  {
    assert t == s + (t - s);
  }

  /** No result at a position can be strictly better than the other ranking's there. */
  lemma NoBetter<T(!new)>(a: seq<Hit<T>>, b: seq<Hit<T>>, reverse: bool, i: nat)
    requires Ordered(a, reverse) && Ordered(b, reverse) && Distinct(a) && Distinct(b)
    requires forall h :: h in a ==> h in b
    requires i < |a| && i < |b|
    ensures InOrder(b[i].score, a[i].score, reverse)
  {
    if !InOrder(b[i].score, a[i].score, reverse) {
      forall h | h in Elements(a[..i + 1])
        ensures h in Elements(b[..i])
      {
        var j :| 0 <= j < i + 1 && a[..i + 1][j] == h;
        assert InOrder(a[j].score, a[i].score, reverse);
        assert a[j] in a;
        var k :| 0 <= k < |b| && b[k] == h;
        assert k < i;
        assert b[..i][k] == h;
      }
      ElementsCount(a[..i + 1]);
      ElementsCount(b[..i]);
      SubsetCount(Elements(a[..i + 1]), Elements(b[..i]));
      assert false;
    }
  }

  /** Two rankings of the same results carry the same scores in the same order, so their
      first k scores agree, however ties were broken. */
  lemma SameScores<T(!new)>(a: seq<Hit<T>>, b: seq<Hit<T>>, reverse: bool)
    requires Ordered(a, reverse) && Ordered(b, reverse) && Distinct(a) && Distinct(b)
    requires forall h :: h in a <==> h in b
    ensures Scores(a) == Scores(b)
    ensures forall k :: Scores(Limited(a, k)) == Scores(Limited(b, k))
  {
    ElementsCount(a);
    ElementsCount(b);
    assert Elements(a) == Elements(b);
    forall i | 0 <= i < |a|
      ensures a[i].score == b[i].score
    {
      NoBetter(a, b, reverse, i);
      NoBetter(b, a, reverse, i);
    }
    forall k
      ensures Scores(Limited(a, k)) == Scores(Limited(b, k))
    {
    }
  }

  // ---------- Cutting ----------

  /** Scores fall along the list, and nothing left out has a greater one. */
  ghost predicate IsTop<T(!new)>(top: seq<Hit<T>>, all: seq<Hit<T>>) {
    && (forall h :: h in top ==> h in all)
    && (forall i, j :: 0 <= i < j < |top| ==> top[i].score >= top[j].score)
    && (forall h, x :: h in top && x in all && x !in top ==> h.score >= x.score)
  }

  /** Scores rise along the list, and nothing left out has a smaller one. */
  ghost predicate IsBottom<T(!new)>(top: seq<Hit<T>>, all: seq<Hit<T>>) {
    && (forall h :: h in top ==> h in all)
    && (forall i, j :: 0 <= i < j < |top| ==> top[i].score <= top[j].score)
    && (forall h, x :: h in top && x in all && x !in top ==> h.score <= x.score)
  }

  lemma CutKeepsBest<T(!new)>(hits: seq<Hit<T>>, limit: int, reverse: bool)
    requires Ordered(hits, reverse)
    ensures reverse ==> IsTop(Limited(hits, limit), hits)
    ensures !reverse ==> IsBottom(Limited(hits, limit), hits)
  {
    var top := Limited(hits, limit);
    assert forall n :: 0 <= n < |top| ==> hits[n] == top[n] && hits[n] in top;
    forall i, j | 0 <= i < j < |top|
      ensures InOrder(top[i].score, top[j].score, reverse)
    {
      assert top[i] == hits[i] && top[j] == hits[j];
    }
    forall h, x | h in top && x in hits && x !in top
      ensures InOrder(h.score, x.score, reverse)
    {
      var i :| 0 <= i < |top| && top[i] == h;
      var j :| 0 <= j < |hits| && hits[j] == x;
      assert i < |top| <= j;
    }
  }
}
