// Directories of numbered files: their sorted listing, and what adding a file at the end
// or removing the first one does to it.

module Directories {

  predicate AscendingIds(ids: seq<nat>) {
    forall i, j :: 0 <= i < j < |ids| ==> ids[i] < ids[j]
  }

  /** ids is the sorted listing of the set. */
  predicate ListsIds(ids: seq<nat>, s: set<nat>) {
    AscendingIds(ids) && (forall i :: 0 <= i < |ids| ==> ids[i] in s) && (forall x :: x in s ==> x in ids)
  }

  lemma {:induction false} IdListingIsUnique(a: seq<nat>, b: seq<nat>, s: set<nat>)
    requires ListsIds(a, s) && ListsIds(b, s)
    ensures a == b
    decreases |a|
  {
    hide AscendingIds;
    if a == [] {
      assert forall x :: x !in s;
    } else {
      var m, n := |a| - 1, |b| - 1;
      assert a[0] in s;
      GreatestId(a, b, s);
      GreatestId(b, a, s);
      DropLast(a, s);
      DropLast(b, s);
      IdListingIsUnique(a[..m], b[..n], s - {a[m]});
      assert a == a[..m] + [a[m]] && b == b[..n] + [b[n]];
    }
  }

  lemma GreatestId(a: seq<nat>, b: seq<nat>, s: set<nat>)
    requires ListsIds(a, s) && ListsIds(b, s) && a != []
    ensures b != [] && a[|a| - 1] <= b[|b| - 1]
  {
    assert a[|a| - 1] in s;
    var i :| 0 <= i < |b| && b[i] == a[|a| - 1];
  }

  lemma DropLast(a: seq<nat>, s: set<nat>)
    requires ListsIds(a, s) && a != []
    ensures ListsIds(a[..|a| - 1], s - {a[|a| - 1]})
  {
    var m := |a| - 1;
    forall x | x in s - {a[m]}
      ensures x in a[..m]
    {
      var i :| 0 <= i < |a| && a[i] == x;
      assert a[..m][i] == x;
    }
  }

  /** A new file with a larger number comes last. */
  lemma AppendId(ids: seq<nat>, s: set<nat>, x: nat)
    requires ListsIds(ids, s) && forall y :: y in s ==> y < x
    ensures ListsIds(ids + [x], s + {x})
  {
    forall y | y in s + {x}
      ensures y in ids + [x]
    {
      if y == x {
        assert (ids + [x])[|ids|] == x;
      }
    }
  }

  method Least(s: set<nat>) returns (x: nat)
    requires s != {}
    ensures x in s && forall y :: y in s ==> x <= y
  {
    x :| x in s;
    var rest := s - {x};
    while rest != {}
      invariant rest <= s && x in s
      invariant forall y :: y in s - rest ==> x <= y
      decreases rest
    {
      var y :| y in rest;
      if y < x {
        x := y;
      }
      assert s - (rest - {y}) == (s - rest) + {y};
      rest := rest - {y};
    }
    assert s - {} == s;
  }

  /** sorted(os.listdir(...)) */
  method SortedIds(s: set<nat>) returns (ids: seq<nat>)
    ensures ListsIds(ids, s)
  {
    ids := [];
    var rest := s;
    while rest != {}
      invariant rest <= s
      invariant ListsIds(ids, s - rest)
      invariant forall y, z :: y in s - rest && z in rest ==> y < z
      decreases rest
    {
      var x := Least(rest);
      AppendId(ids, s - rest, x);
      ids := ids + [x];
      assert s - (rest - {x}) == (s - rest) + {x};
      rest := rest - {x};
    }
    assert s - {} == s;
  }
}
