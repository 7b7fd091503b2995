// One step of each engine loop: what writing a single cell does to lists,
// hashes, sets and sorted sets.

module KvSteps {
  import opened ByteStrings
  import opened Store
  import opened KvKeys
  import opened KvLists
  import opened KvFields
  import opened KvSorted
  import opened KvPurge

  function Elements(xs: seq<Bytes>): set<Bytes> {
    set x | x in xs
  }

  /** By how many elements a set grows from one state to the next. */
  function Growth(before: set<Bytes>, after: set<Bytes>): int {
    |after| - |before|
  }

  lemma CountsKeys<V>(before: map<Bytes, V>, after: map<Bytes, V>)
    ensures |after| - |before| == Growth(before.Keys, after.Keys)
  {
  }

  /** How scores are written and read back: str(float(x)) and float(text). */
  datatype Floats = Floats(show: real -> Bytes, read: Bytes -> real) {
    /** The score that is read back where x was written. */
    function Through(x: real): real {
      read(show(x))
    }

    function AllThrough(scores: map<Bytes, real>): (r: map<Bytes, real>)
      ensures r.Keys == scores.Keys
    {
      map f | f in scores :: Through(scores[f])
    }

    /** The text of a number is never the tombstone constant. */
    ghost predicate Plain() {
      forall x :: Slot(show(x)) == Some(show(x))
    }

    /** This score survives being written and read back, as every float does. */
    predicate Keeps(x: real) {
      Through(x) == x
    }

    lemma AllKept(scores: map<Bytes, real>)
      ensures AllThrough(scores) == scores <==> forall f :: f in scores ==> Keeps(scores[f])
    {
    }
  }

  /** The members of a sorted set with their scores. */
  function Scores(floats: Floats, m: map<Bytes, Bytes>, key: Bytes): map<Bytes, real> {
    var f := Fields(m, ZSetPrefix(key));
    map x | x in f :: floats.read(f[x])
  }

  // ---------- Names ----------

  lemma PrefixFacts(key: Bytes, f: Bytes)
    ensures HashPrefix(key) + f != [] && SetPrefix(key) + f != [] && ZSetPrefix(key) + f != []
    ensures HashPrefix(key) + f != TypeKey(key) && SetPrefix(key) + f != TypeKey(key) &&
            ZSetPrefix(key) + f != TypeKey(key)
    ensures !(HashPrefix(key) <= TypeKey(key)) && !(SetPrefix(key) <= TypeKey(key)) &&
            !(ZSetPrefix(key) <= TypeKey(key))
  {
    assert TypeKey(key)[2] == 'T' && HashPrefix(key)[2] == 'H' && SetPrefix(key)[2] == 'S' && ZSetPrefix(key)[2] == 'Z';
    assert (HashPrefix(key) + f)[2] == 'H' && (SetPrefix(key) + f)[2] == 'S' && (ZSetPrefix(key) + f)[2] == 'Z';
  }

  /** No type name is the tombstone constant, nor is the cell of a set member. */
  lemma ConstantsAreKept()
    ensures Slot(HASH) == Some(HASH) && Slot(SET_TYPE) == Some(SET_TYPE) && Slot(ZSET) == Some(ZSET)
    ensures Slot("1") == Some("1")
  {
    TombstoneHasNoColon();
  }

  lemma KeysAreNonEmpty(key: Bytes)
    ensures TypeKey(key) != [] && ExpKey(key) != [] && ValueKey(key) != [] && MetaKey(key) != []
    ensures HashPrefix(key) != [] && SetPrefix(key) != [] && ZSetPrefix(key) != []
  {
  }

  lemma CellIsNonEmpty(key: Bytes, i: int)
    ensures Cell(key, i) != []
  {
  }

  /** A cell is owned by its key and is none of its other names. */
  lemma CellFacts(key: Bytes, i: int)
    ensures Cell(key, i) != [] && Owned(key, Cell(key, i))
    ensures Cell(key, i) != MetaKey(key) && Cell(key, i) != TypeKey(key) && Cell(key, i) != ExpKey(key)
  {
    CellIsNonEmpty(key, i);
    KindsDiffer(key, key, i);
  }

  lemma OwnedMeta(m: map<Bytes, Bytes>, m': map<Bytes, Bytes>, key: Bytes, head: int, tail: int)
    ensures SameOutside(m, m, key)
    ensures SameOutside(m, m', key) ==> SameOutside(m, WithMeta(m', key, head, tail), key)
  {
    hide Cell, MetaKey, TypeKey, ExpKey, MetaText;
  }

  lemma OwnedCell(m: map<Bytes, Bytes>, m': map<Bytes, Bytes>, key: Bytes, i: int, x: Element)
    ensures SameOutside(m, m', key) ==> SameOutside(m, WithSlot(m', Cell(key, i), x), key)
  {
    hide Cell, MetaKey, TypeKey, ExpKey;
  }

  lemma ReversedSnoc<T>(xs: seq<T>, x: T)
    ensures Reversed(xs + [x]) == [x] + Reversed(xs)
  {
    if xs != [] {
      ReversedSnoc(xs[1..], x);
      assert (xs + [x])[1..] == xs[1..] + [x];
    } else {
      assert [x][1..] == [];
    }
  }

  lemma NothingReversed<T>(values: seq<T>, xs: seq<T>)
    ensures Reversed(values[..0]) + xs == xs
  {
  }

  lemma ReversedStep<T>(values: seq<T>, i: nat, xs: seq<T>)
    requires i < |values|
    ensures Reversed(values[..i + 1]) + xs == [values[i]] + (Reversed(values[..i]) + xs)
  {
    hide Reversed;
    assert values[..i + 1] == values[..i] + [values[i]];
    ReversedSnoc(values[..i], values[i]);
  }

  lemma NonEmptyHasType(m: map<Bytes, Bytes>, key: Bytes, xs: seq<Element>)
    requires IsList(m, key, xs) && xs != []
    ensures TypeKey(key) in m
  {
  }

  /** After a write the key has its type; its expiry is there if it was and the key was not due. */
  predicate Marked(m: map<Bytes, Bytes>, m': map<Bytes, Bytes>, key: Bytes, expired: bool) {
    TypeKey(key) in m' && (ExpKey(key) in m' <==> ExpKey(key) in m && !expired)
  }

  /** What the expiry check leaves of a list. */
  lemma SettledList(m: map<Bytes, Bytes>, m': map<Bytes, Bytes>, key: Bytes, xs: seq<Element>, expired: bool)
    requires IsList(m, key, xs) && Settled(m, m', key, expired)
    ensures IsList(m', key, if expired then [] else xs) && SameOutside(m, m', key)
    ensures ExpKey(key) in m' <==> ExpKey(key) in m && !expired
  {
    hide IsList, IsPurged, TypeKey, ExpKey, Owned;
    if expired {
      PurgedList(m, m', key, xs);
    }
  }

  lemma ExpiryIsKept(m: map<Bytes, Bytes>, key: Bytes, i: int, x: Element, head: int, tail: int)
    ensures Lookup(WithSlot(m, Cell(key, i), x), ExpKey(key)) == Lookup(m, ExpKey(key))
    ensures Lookup(WithMeta(m, key, head, tail), ExpKey(key)) == Lookup(m, ExpKey(key))
    ensures TypeKey(key) in WithMeta(m, key, head, tail)
  {
    hide Cell, MetaKey, TypeKey, ExpKey, MetaText;
    KindsDiffer(key, key, i);
  }

  lemma TrimmedCells(m: map<Bytes, Bytes>, m': map<Bytes, Bytes>, key: Bytes, head: int, xs: seq<Element>, lo: nat,
                     hi: int)
    requires CellsHold(m, key, head, xs) && lo <= hi < |xs|
    requires forall k :: Lookup(m', k)
               == if InCells(key, head + hi + 1, head + |xs|, k) || InCells(key, head, head + lo, k) then None
                  else Lookup(m, k)
    ensures IsList(WithMeta(m', key, head + lo, head + hi + 1), key, xs[lo..hi + 1])
    ensures SameOutside(m, m', key) && Lookup(m', ExpKey(key)) == Lookup(m, ExpKey(key))
  {
    hide Cell, MetaKey, TypeKey, ExpKey, IsList, Meta;
    forall i: int
      ensures Cell(key, i) != ExpKey(key)
    {
      KindsDiffer(key, key, i);
    }
    forall i: int
      ensures Lookup(m', Cell(key, i))
           == if head + lo <= i < head + hi + 1 then xs[i - head] else None
    {
      OwnCellsDiffer(key, i);
      assert Lookup(m, Cell(key, i)) == if head <= i < head + |xs| then xs[i - head] else None;
    }
    MetaCompletes(m', key, head + lo, xs[lo..hi + 1]);
  }

  // ---------- Collections ----------

  lemma MembersAreListed(items: seq<Scored>, z: map<Bytes, real>, member: Bytes)
    requires forall x :: x in items <==> Lookup(z, x.member) == Some(x.score)
    ensures member in z ==> exists j :: 0 <= j < |items| && items[j].member == member
  {
    if member in z {
      assert Scored(member, z[member]) in items;
    }
  }

  lemma ScoresKeys(floats: Floats, m: map<Bytes, Bytes>, key: Bytes)
    ensures Scores(floats, m, key).Keys == Fields(m, ZSetPrefix(key)).Keys
  {
    hide Fields, ZSetPrefix;
  }

  lemma ScorePut(floats: Floats, m: map<Bytes, Bytes>, key: Bytes, f: Bytes, x: real)
    ensures Scores(floats, m[ZSetPrefix(key) + f := floats.show(x)], key)
         == Scores(floats, m, key)[f := floats.Through(x)]
    ensures ZSetPrefix(key) + f in m <==> f in Scores(floats, m, key)
  {
    hide Fields, ZSetPrefix;
    FieldsPut(m, ZSetPrefix(key), f, floats.show(x));
    FieldsLookup(m, ZSetPrefix(key), f);
  }

  lemma ScoreStep(floats: Floats, m0: map<Bytes, Bytes>, m: map<Bytes, Bytes>, key: Bytes, f: Bytes, x: real,
                  done: map<Bytes, real>)
    requires Scores(floats, m, key) == Scores(floats, m0, key) + done
    requires OnlyUnder(m0, m, ZSetPrefix(key), key)
    ensures var m' := m[ZSetPrefix(key) + f := floats.show(x)];
            && Scores(floats, m', key) == Scores(floats, m0, key) + done[f := floats.Through(x)]
            && |Scores(floats, m', key)| == |Scores(floats, m, key)| + (if ZSetPrefix(key) + f in m then 0 else 1)
            && OnlyUnder(m0, m', ZSetPrefix(key), key)
  {
    hide Scores, ZSetPrefix, TypeKey, OnlyUnder;
    ScorePut(floats, m, key, f, x);
    MergedPut(Scores(floats, m0, key), done, f, floats.Through(x));
    GrownByPut(Scores(floats, m, key), f, floats.Through(x));
    CellIsAllowed(m0, m, ZSetPrefix(key), key, f, floats.show(x));
  }

  lemma MergedPut<V>(a: map<Bytes, V>, b: map<Bytes, V>, f: Bytes, x: V)
    ensures (a + b)[f := x] == a + b[f := x]
  {
  }

  lemma GrownByPut<V>(a: map<Bytes, V>, f: Bytes, x: V)
    ensures |a[f := x]| == |a| + (if f in a then 0 else 1)
  {
  }

  lemma CellIsAllowed(m0: map<Bytes, Bytes>, m: map<Bytes, Bytes>, prefix: Bytes, key: Bytes, f: Bytes, v: Bytes)
    requires OnlyUnder(m0, m, prefix, key)
    ensures OnlyUnder(m0, m[prefix + f := v], prefix, key)
    ensures OnlyUnder(m0, m - {prefix + f}, prefix, key)
  {
    hide TypeKey;
  }

  lemma RemovedOne<V>(a: map<Bytes, V>, b: map<Bytes, V>, s: set<Bytes>, f: Bytes)
    requires b == a - s
    ensures b - {f} == a - (s + {f})
  {
    var x, y := b - {f}, a - (s + {f});
    assert x.Keys == y.Keys;
    assert forall k :: k in x ==> x[k] == a[k] && y[k] == a[k];
  }

  lemma ShrunkByOne<V>(b: map<Bytes, V>, f: Bytes)
    ensures |b - {f}| == |b| - (if f in b then 1 else 0)
  {
    var rest := b - {f};
    assert rest.Keys == b.Keys - {f};
    assert |rest| == |rest.Keys| && |b| == |b.Keys|;
  }

  /** done holds the entries of all but the keys still to go. */
  predicate Covers(all: map<Bytes, real>, done: map<Bytes, real>, rest: set<Bytes>) {
    done == all - rest
  }

  lemma CoversNothing(all: map<Bytes, real>)
    ensures Covers(all, map[], all.Keys)
  {
  }

  lemma CoversAll(all: map<Bytes, real>, done: map<Bytes, real>)
    requires Covers(all, done, {})
    ensures done == all
  {
  }

  lemma CoversOneMore(all: map<Bytes, real>, done: map<Bytes, real>, rest: set<Bytes>, f: Bytes)
    requires f in rest && rest <= all.Keys && Covers(all, done, rest)
    ensures Covers(all, done[f := all[f]], rest - {f})
  {
  }

  lemma NotThere<V>(b: map<Bytes, V>, f: Bytes)
    requires f !in b
    ensures b - {f} == b
  {
  }

  lemma NothingYet(m: map<Bytes, Bytes>, prefix: Bytes, names: seq<Bytes>, key: Bytes)
    ensures OnlyUnder(m, m, prefix, key) && Elements(names[..0]) == {}
  {
  }

  lemma RemoveStep(m0: map<Bytes, Bytes>, m: map<Bytes, Bytes>, prefix: Bytes, names: seq<Bytes>, i: nat, key: Bytes)
    requires i < |names| && Fields(m, prefix) == Fields(m0, prefix) - Elements(names[..i])
    requires OnlyUnder(m0, m, prefix, key)
    ensures var k := prefix + names[i];
            var m' := if k in m then m - {k} else m;
            && Fields(m', prefix) == Fields(m0, prefix) - Elements(names[..i + 1])
            && |Fields(m', prefix)| == |Fields(m, prefix)| - (if k in m then 1 else 0)
            && OnlyUnder(m0, m', prefix, key)
  {
    hide Fields, TypeKey, OnlyUnder, Elements;
    FieldsLookup(m, prefix, names[i]);
    FieldsDelete(m, prefix, names[i]);
    ElementsStep(names, i);
    RemovedOne(Fields(m0, prefix), Fields(m, prefix), Elements(names[..i]), names[i]);
    ShrunkByOne(Fields(m, prefix), names[i]);
    CellIsAllowed(m0, m, prefix, key, names[i], []);
    if prefix + names[i] !in m {
      NotThere(Fields(m, prefix), names[i]);
    }
  }

  lemma AddStep(m0: map<Bytes, Bytes>, m: map<Bytes, Bytes>, prefix: Bytes, names: seq<Bytes>, i: nat, key: Bytes)
    requires i < |names| && Fields(m, prefix).Keys == Fields(m0, prefix).Keys + Elements(names[..i])
    requires OnlyUnder(m0, m, prefix, key)
    ensures var k := prefix + names[i];
            var m' := if k in m then m else m[k := "1"];
            && Fields(m', prefix).Keys == Fields(m0, prefix).Keys + Elements(names[..i + 1])
            && |Fields(m', prefix)| == |Fields(m, prefix)| + (if k in m then 0 else 1)
            && OnlyUnder(m0, m', prefix, key)
  {
    hide Fields, TypeKey, OnlyUnder, Elements;
    FieldsLookup(m, prefix, names[i]);
    FieldsPut(m, prefix, names[i], "1");
    GrownByPut(Fields(m, prefix), names[i], "1");
    CellIsAllowed(m0, m, prefix, key, names[i], "1");
    ElementsStep(names, i);
  }

  lemma ElementsStep(names: seq<Bytes>, i: nat)
    requires i < |names|
    ensures Elements(names[..i + 1]) == Elements(names[..i]) + {names[i]}
  {
    assert names[..i + 1] == names[..i] + [names[i]];
  }

  lemma TypeIsAllowed(m0: map<Bytes, Bytes>, m: map<Bytes, Bytes>, prefix: Bytes, key: Bytes, t: Bytes)
    requires OnlyUnder(m0, m, prefix, key)
    ensures OnlyUnder(m0, m[TypeKey(key) := t], prefix, key)
  {
    hide TypeKey;
  }

  lemma ScoresIgnoreType(floats: Floats, m: map<Bytes, Bytes>, key: Bytes)
    ensures Scores(floats, m[TypeKey(key) := ZSET], key) == Scores(floats, m, key)
  {
    hide Fields, ZSetPrefix, TypeKey;
    PrefixFacts(key, []);
    FieldsIgnore(m, ZSetPrefix(key), TypeKey(key), ZSET);
  }

  lemma ItemsAreScores(floats: Floats, m: map<Bytes, Bytes>, key: Bytes, found: seq<Pair<Bytes>>, items: seq<Scored>)
    requires ListsPrefix(found, m, ZSetPrefix(key)) && |items| == |found|
    requires forall j :: 0 <= j < |found| ==>
               items[j] == Scored(found[j].key[|ZSetPrefix(key)|..], floats.read(found[j].value))
    ensures forall x :: x in items <==> Lookup(Scores(floats, m, key), x.member) == Some(x.score)
    ensures forall i, j :: 0 <= i < j < |items| ==> items[i] != items[j]
  {
    hide Fields, ZSetPrefix, KeysAscend;
    var p := ZSetPrefix(key);
    forall x: Scored
      ensures x in items <==> Lookup(Scores(floats, m, key), x.member) == Some(x.score)
    {
      FieldsLookup(m, p, x.member);
      if x in items {
        var j :| 0 <= j < |items| && items[j] == x;
        assert found[j].key == p + x.member;
      }
      if p + x.member in m {
        assert HasKey(found, p + x.member);
        var j :| 0 <= j < |found| && found[j].key == p + x.member;
        assert found[j].key[|p|..] == x.member;
        assert items[j].member == x.member;
      }
    }
    forall i, j | 0 <= i < j < |items|
      ensures items[i] != items[j]
    {
      NamesAreDistinct(found, p, i);
    }
  }
}
