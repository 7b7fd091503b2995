// Sorted sets: the order by score and member, the sorted listing, and ranks.
//
// Pairs are ordered by score and then by the bytes of the member, as Python orders tuples. In the
// sorted listing the position of a pair is the number of smaller ones, so order and rank agree.

module KvSorted {
  import opened ByteStrings

  datatype Scored = Scored(member: Bytes, score: real)

  predicate Before(a: Scored, b: Scored) {
    a.score < b.score || (a.score == b.score && Less(a.member, b.member))
  }

  lemma BeforeIsTotal(a: Scored, b: Scored)
    ensures a == b || Before(a, b) || Before(b, a)
    ensures !Before(a, a) && !(Before(a, b) && Before(b, a))
  {
    LessIsTotal(a.member, b.member);
    LessIsIrreflexive(a.member);
    if Less(a.member, b.member) && Less(b.member, a.member) {
      LessIsTransitive(a.member, b.member, a.member);
    }
  }

  lemma BeforeIsTransitive(a: Scored, b: Scored, c: Scored)
    requires Before(a, b) && Before(b, c)
    ensures Before(a, c)
  {
    if a.score == b.score == c.score {
      LessIsTransitive(a.member, b.member, c.member);
    }
  }

  predicate Ascends(items: seq<Scored>) {
    forall i, j :: 0 <= i < j < |items| ==> Before(items[i], items[j])
  }

  /** items lists every member of z once with its score, by ascending score and then member. */
  ghost predicate Ranks(items: seq<Scored>, z: map<Bytes, real>) {
    && Ascends(items)
    && (forall x :: x in items <==> Lookup(z, x.member) == Some(x.score))
  }

  /** The members of z that come before a given one. */
  function Smaller(z: map<Bytes, real>, x: Scored): set<Bytes> {
    set m | m in z && Before(Scored(m, z[m]), x)
  }

  function Members(items: seq<Scored>): set<Bytes> {
    set x | x in items :: x.member
  }

  /** In the sorted listing, the position of a member is the number of smaller pairs. */
  lemma RankCounts(items: seq<Scored>, z: map<Bytes, real>, i: nat)
    requires Ranks(items, z) && i < |items|
    ensures |Smaller(z, items[i])| == i
  {
    hide Before, Ascends;
    MembersCount(items[..i], z) by { CutAscends(items, i); }
    assert Smaller(z, items[i]) == Members(items[..i]) by {
      SmallerAreEarlier(items, z, i);
    }
  }

  lemma CutAscends(items: seq<Scored>, n: nat)
    requires Ascends(items) && n <= |items|
    ensures Ascends(items[..n])
  {
  }

  lemma SmallerAreEarlier(items: seq<Scored>, z: map<Bytes, real>, i: nat)
    requires Ranks(items, z) && i < |items|
    ensures forall m :: m in Smaller(z, items[i]) <==> m in Members(items[..i])
  {
    hide Before;
    forall m
      ensures m in Smaller(z, items[i]) <==> m in Members(items[..i])
    {
      if m in Smaller(z, items[i]) {
        var x := Scored(m, z[m]);
        assert x in items;
        var j :| 0 <= j < |items| && items[j] == x;
        BeforeIsTotal(x, items[i]);
        assert j < i;
        assert items[..i][j] == x;
      }
      if m in Members(items[..i]) {
        var x :| x in items[..i] && x.member == m;
        assert x in items;
      }
    }
  }

  /** No member is listed twice. */
  lemma {:induction false} MembersCount(items: seq<Scored>, z: map<Bytes, real>)
    requires Ascends(items) && forall x :: x in items ==> Lookup(z, x.member) == Some(x.score)
    ensures |Members(items)| == |items|
  {
    if items != [] {
      var n := |items| - 1;
      CutAscends(items, n);
      MembersCount(items[..n], z);
      var last := items[n];
      assert items == items[..n] + [last];
      if last.member in Members(items[..n]) {
        var x :| x in items[..n] && x.member == last.member;
        assert x == last;
        BeforeIsTotal(last, last);
        assert false;
      }
      assert Members(items) == Members(items[..n]) + {last.member};
    }
  }

  /** The rank of a member decides the order: a smaller pair has a smaller rank. */
  lemma RankIsMonotone(z: map<Bytes, real>, a: Bytes, b: Bytes)
    requires a in z && b in z
    ensures z[a] < z[b] || (z[a] == z[b] && Less(a, b)) <==> RankIn(z, a) < RankIn(z, b)
  {
    hide Less, RankIn, Smaller;
    var x, y := Scored(a, z[a]), Scored(b, z[b]);
    BeforeIsTotal(x, y);
    RankIsSmaller(z, a);
    RankIsSmaller(z, b);
    if Before(x, y) {
      SmallerGrows(z, a, b);
    } else if Before(y, x) {
      SmallerGrows(z, b, a);
    }
  }

  lemma SmallerGrows(z: map<Bytes, real>, a: Bytes, b: Bytes)
    requires a in z && b in z && Before(Scored(a, z[a]), Scored(b, z[b]))
    ensures |Smaller(z, Scored(a, z[a]))| < |Smaller(z, Scored(b, z[b]))|
  {
    hide Before;
    var x, y := Scored(a, z[a]), Scored(b, z[b]);
    forall m | m in Smaller(z, x)
      ensures m in Smaller(z, y)
    {
      BeforeIsTransitive(Scored(m, z[m]), x, y);
    }
    BeforeIsTotal(x, x);
    assert a in Smaller(z, y) && a !in Smaller(z, x);
    ProperSubsetIsSmaller(Smaller(z, x), Smaller(z, y), a);
  }

  lemma ProperSubsetIsSmaller(s: set<Bytes>, t: set<Bytes>, a: Bytes)
    requires s <= t && a in t && a !in s
    ensures |s| < |t|
  {
    assert t == s + (t - s);
    assert |t| == |s| + |t - s|;
    assert a in t - s;
  }

  /** items.sort(key=lambda x: (x[1], x[0])). */
  method Sort(items: seq<Scored>) returns (r: seq<Scored>)
    requires forall i, j :: 0 <= i < j < |items| ==> items[i] != items[j]
    ensures Ascends(r) && |r| == |items| && forall x :: x in r <==> x in items
    ensures forall i, j :: 0 <= i < j < |r| ==>
              r[i].score < r[j].score || (r[i].score == r[j].score && Less(r[i].member, r[j].member))
  {
    hide Before, Ascends, Less;
    r := [];
    EmptyAscends();
    for n := 0 to |items|
      invariant Ascends(r) && |r| == n && forall x :: x in r <==> x in items[..n]
    {
      assert items[..n + 1] == items[..n] + [items[n]];
      assert items[n] !in items[..n];
      r := Place(r, items[n]);
    }
    assert items[..|items|] == items;
    AscendsMeans(r);
  }

  lemma AscendsMeans(items: seq<Scored>)
    requires Ascends(items)
    ensures forall i, j :: 0 <= i < j < |items| ==>
              items[i].score < items[j].score
              || (items[i].score == items[j].score && Less(items[i].member, items[j].member))
  {
    hide Less;
    forall i, j | 0 <= i < j < |items|
      ensures items[i].score < items[j].score
              || (items[i].score == items[j].score && Less(items[i].member, items[j].member))
    {
      assert Before(items[i], items[j]);
    }
  }

  /** How many members have a smaller score, or the same score and a smaller name. */
  function RankIn(z: map<Bytes, real>, member: Bytes): nat
    requires member in z
  {
    |set m | m in z && (z[m] < z[member] || (z[m] == z[member] && Less(m, member)))|
  }

  lemma RankIsSmaller(z: map<Bytes, real>, member: Bytes)
    requires member in z
    ensures RankIn(z, member) == |Smaller(z, Scored(member, z[member]))|
  {
    hide Less;
    assert Smaller(z, Scored(member, z[member]))
        == set m | m in z && (z[m] < z[member] || (z[m] == z[member] && Less(m, member)));
  }

  lemma EmptyAscends()
    ensures Ascends([])
  {
  }

  method Place(items: seq<Scored>, x: Scored) returns (r: seq<Scored>)
    requires Ascends(items) && x !in items
    ensures Ascends(r) && |r| == |items| + 1 && forall y :: y in r <==> y in items || y == x
  {
    hide Before;
    var i := |items|;
    while i > 0 && Before(x, items[i - 1])
      invariant 0 <= i <= |items|
      invariant i < |items| ==> Before(x, items[i])
    {
      i := i - 1;
    }
    if i > 0 {
      BeforeIsTotal(x, items[i - 1]);
    }
    PlacedAscends(items, i, x);
    r := items[..i] + [x] + items[i..];
    assert r[i] == x;
    assert forall j :: 0 <= j < |items| ==> items[j] == r[if j < i then j else j + 1];
  }

  lemma PlacedAscends(items: seq<Scored>, i: nat, x: Scored)
    requires Ascends(items) && i <= |items|
    requires i > 0 ==> Before(items[i - 1], x)
    requires i < |items| ==> Before(x, items[i])
    ensures Ascends(items[..i] + [x] + items[i..])
  {
    hide Before;
    var s := items[..i] + [x] + items[i..];
    forall a, b | 0 <= a < b < |s|
      ensures Before(s[a], s[b])
    {
      if b == i && a < i - 1 {
        BeforeIsTransitive(items[a], items[i - 1], x);
      } else if a == i && b > i + 1 {
        BeforeIsTransitive(x, items[i], items[b - 1]);
      } else if a < i < b {
        assert Before(items[a], items[b - 1]);
      }
    }
  }
}
