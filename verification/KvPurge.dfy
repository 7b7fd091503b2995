// What deleting a key removes, what a write to one key leaves alone, and the listing of live keys.

module KvPurge {
  import opened ByteStrings
  import opened Numerals
  import opened Store
  import opened KvKeys
  import opened KvLists
  import opened KvFields

  const STRING: Bytes := "string"
  const SET_TYPE: Bytes := "set"
  const ZSET: Bytes := "zset"

  // ---------- Deleting a key with everything in it ----------

  /** k is one of the key's list cells numbered from lo to hi - 1. */
  ghost predicate InCells(key: Bytes, lo: int, hi: int, k: Bytes) {
    exists i :: lo <= i < hi && k == Cell(key, i)
  }

  /** The cells of a key of type t; cells gives the head and tail of a list. */
  ghost predicate HoldsData(t: Bytes, cells: (int, int), key: Bytes, k: Bytes) {
    || (t == STRING && k == ValueKey(key))
    || (t == HASH && HashPrefix(key) <= k)
    || (t == LIST && (k == MetaKey(key) || InCells(key, cells.0, cells.1, k)))
    || (t == SET_TYPE && SetPrefix(key) <= k)
    || (t == ZSET && ZSetPrefix(key) <= k)
  }

  /** What deleting the key removes: the cells of the type it has, its type and its expiry. */
  ghost predicate Purges(m: map<Bytes, Bytes>, key: Bytes, k: Bytes) {
    if TypeKey(key) !in m || m[TypeKey(key)] == [] then k == ExpKey(key)
    else k == TypeKey(key) || k == ExpKey(key) || HoldsData(m[TypeKey(key)], Meta(m, key), key, k)
  }

  ghost predicate IsPurged(m: map<Bytes, Bytes>, m': map<Bytes, Bytes>, key: Bytes) {
    forall k :: Lookup(m', k) == if Purges(m, key, k) then None else Lookup(m, k)
  }

  /** Purging a list key leaves the empty list, no cell behind, and other keys alone. */
  lemma PurgedList(m: map<Bytes, Bytes>, m': map<Bytes, Bytes>, key: Bytes, xs: seq<Element>)
    requires IsList(m, key, xs) && IsPurged(m, m', key)
    ensures IsList(m', key, []) && SameOutside(m, m', key)
    ensures TypeKey(key) !in m' && ExpKey(key) !in m'
  {
    hide Cell, MetaKey, TypeKey, ExpKey, ReadMeta, HashPrefix, SetPrefix, ZSetPrefix, ValueKey, HoldsData;
    TypesDiffer();
    KindsDiffer(key, key, 0);
    forall k
      ensures Purges(m, key, k) ==> Owned(key, k)
    {
      ListData(Meta(m, key), key, k);
    }
    assert Lookup(m', MetaKey(key)) == None && Lookup(m', TypeKey(key)) == None && Lookup(m', ExpKey(key)) == None by {
      ListData(Meta(m, key), key, MetaKey(key));
    }
    forall i: int
      ensures Cell(key, i) !in m'
    {
      ListData(Meta(m, key), key, Cell(key, i));
      assert Lookup(m', Cell(key, i)) == None;
    }
  }

  lemma ListData(cells: (int, int), key: Bytes, k: Bytes)
    ensures HoldsData(LIST, cells, key, k) == (k == MetaKey(key) || InCells(key, cells.0, cells.1, k))
  {
    hide Cell, MetaKey, HashPrefix, SetPrefix, ZSetPrefix, ValueKey, InCells;
    TypesDiffer();
  }

  lemma TypesDiffer()
    ensures LIST != [] && LIST != STRING && LIST != HASH && LIST != SET_TYPE && LIST != ZSET
  {
    assert LIST[0] == 'l' && STRING[0] == 's' && HASH[0] == 'h' && SET_TYPE[0] == 's' && ZSET[0] == 'z';
  }

  /** What the expiry check leaves: the key purged if it was due, else nothing changed. */
  ghost predicate Settled(m: map<Bytes, Bytes>, m': map<Bytes, Bytes>, key: Bytes, expired: bool) {
    if expired then ExpKey(key) in m && IsPurged(m, m', key) else m' == m
  }

  /** A purged key has no expiry, so the next check leaves it alone. */
  lemma PurgedOnce(m: map<Bytes, Bytes>, m': map<Bytes, Bytes>, m'': map<Bytes, Bytes>, key: Bytes, again: bool)
    requires Settled(m, m', key, true) && Settled(m', m'', key, again)
    ensures !again && m'' == m'
  {
    hide HoldsData, Meta, TypeKey;
    assert Lookup(m', ExpKey(key)) == if Purges(m, key, ExpKey(key)) then None else Lookup(m, ExpKey(key));
  }

  /** Purging a hash, a set or a sorted set leaves none of its cells. */
  lemma PurgedFields(m: map<Bytes, Bytes>, m': map<Bytes, Bytes>, key: Bytes)
    requires TypeKey(key) in m && IsPurged(m, m', key)
    ensures m[TypeKey(key)] == HASH ==> Fields(m', HashPrefix(key)) == map[]
    ensures m[TypeKey(key)] == SET_TYPE ==> Fields(m', SetPrefix(key)) == map[]
    ensures m[TypeKey(key)] == ZSET ==> Fields(m', ZSetPrefix(key)) == map[]
  {
    hide Fields, TypeKey, ExpKey, MetaKey, ValueKey, InCells, Meta, HashPrefix, SetPrefix, ZSetPrefix;
    TypesDiffer();
    if m[TypeKey(key)] == HASH {
      NoFields(m', HashPrefix(key));
    } else if m[TypeKey(key)] == SET_TYPE {
      NoFields(m', SetPrefix(key));
    } else if m[TypeKey(key)] == ZSET {
      NoFields(m', ZSetPrefix(key));
    }
  }

  lemma NoFields(m: map<Bytes, Bytes>, prefix: Bytes)
    requires forall k :: prefix <= k ==> Lookup(m, k) == None
    ensures Fields(m, prefix) == map[]
  {
    hide Fields;
    forall f
      ensures Lookup(Fields(m, prefix), f) == Lookup(map[], f)
    {
      FieldsLookup(m, prefix, f);
    }
    SameFields(Fields(m, prefix), map[]);
  }

  /** Only cells under the prefix and the type of the key may have changed. */
  ghost predicate OnlyUnder(m: map<Bytes, Bytes>, m': map<Bytes, Bytes>, prefix: Bytes, key: Bytes) {
    forall k :: !(prefix <= k) && k != TypeKey(key) ==> Lookup(m', k) == Lookup(m, k)
  }

  /** A write to one collection leaves the collections of keys apart from it unchanged. */
  lemma ApartUntouched(m: map<Bytes, Bytes>, m': map<Bytes, Bytes>, tag: Bytes, key: Bytes, other: Bytes)
    requires OnlyUnder(m, m', tag + key + ":", key) && Apart(key, other)
    requires |tag| > 2 && tag[2] != 'T'
    ensures Fields(m', tag + other + ":") == Fields(m, tag + other + ":")
  {
    hide Fields, Apart;
    var p, q := tag + key + ":", tag + other + ":";
    forall f
      ensures Lookup(Fields(m', q), f) == Lookup(Fields(m, q), f)
    {
      FieldsLookup(m, q, f);
      FieldsLookup(m', q, f);
      ApartIsSymmetric(key, other);
      ApartPrefix(tag, other, key, f);
      assert tag + other + ":" + f == q + f;
      assert (q + f)[2] == tag[2] && TypeKey(key)[2] == 'T';
    }
    SameFields(Fields(m', q), Fields(m, q));
  }

  lemma ApartIsSymmetric(a: Bytes, b: Bytes)
    ensures Apart(a, b) == Apart(b, a)
  {
  }

  /** A write to a hash, set or sorted set leaves the list of every other key unchanged. */
  lemma ListUntouched(m: map<Bytes, Bytes>, m': map<Bytes, Bytes>, prefix: Bytes, key: Bytes, other: Bytes,
                      xs: seq<Element>)
    requires OnlyUnder(m, m', prefix, key) && key != other && IsList(m, other, xs)
    requires |prefix| > 2 && prefix[2] in {'H', 'S', 'Z'}
    ensures IsList(m', other, xs)
  {
    hide ReadMeta, IntText;
    forall i: int
      ensures Lookup(m', Cell(other, i)) == Lookup(m, Cell(other, i))
    {
      KindsDiffer(other, key, i);
      assert Cell(other, i)[2] == 'L';
    }
    assert MetaKey(other)[2] == 'L' && TypeKey(other)[2] == 'T' && ExpKey(other)[2] == 'E' && TypeKey(key)[2] == 'T';
    SameTag("__TYPE__:", key, other);
    assert Lookup(m', MetaKey(other)) == Lookup(m, MetaKey(other));
    assert Lookup(m', TypeKey(other)) == Lookup(m, TypeKey(other));
    CellsIgnore(m, m', other, Meta(m, other).0, xs);
  }

  // ---------- The cells of a list, one by one ----------

  lemma OneMoreCell(key: Bytes, lo: int, n: int, k: Bytes)
    requires lo <= n
    ensures InCells(key, lo, n + 1, k) <==> InCells(key, lo, n, k) || k == Cell(key, n)
  {
    hide Cell;
    if i :| lo <= i < n && k == Cell(key, i) {
      assert lo <= i < n + 1;
    }
    if k == Cell(key, n) {
      assert lo <= n < n + 1;
    }
  }

  lemma NoCells(key: Bytes, lo: int, hi: int)
    ensures forall k :: !InCells(key, lo, lo, k) && (hi <= lo ==> !InCells(key, lo, hi, k))
  {
  }

  // ---------- Listing the keys ----------

  const TYPE_TAG: Bytes := "__TYPE__:"

  predicate Ascend(names: seq<Bytes>) {
    forall i, j :: 0 <= i < j < |names| ==> Less(names[i], names[j])
  }

  /** Cells may be gone, but none is new or changed. */
  ghost predicate OnlyRemoved(m: map<Bytes, Bytes>, m': map<Bytes, Bytes>) {
    forall k :: k in m' ==> Lookup(m, k) == Some(m'[k])
  }

  /** After i of the names: those returned are live, and the live ones among them that match
      are returned; a key is gone only if it had an expiry and its turn has come. */
  ghost predicate KeysSoFar(all: seq<Bytes>, i: nat, names: seq<Bytes>, m0: map<Bytes, Bytes>, m: map<Bytes, Bytes>,
                            matches: Bytes -> bool)
  {
    && i <= |all| && Ascend(names) && OnlyRemoved(m0, m)
    && (forall n :: n in names ==> n in all[..i] && matches(n) && TypeKey(n) in m)
    && (forall n :: n in all[..i] && matches(n) && TypeKey(n) in m && m[TypeKey(n)] != [] ==> n in names)
    && (forall n :: n in all && (ExpKey(n) !in m0 || n !in all[..i]) ==> TypeKey(n) in m)
  }

  lemma NoNames(all: seq<Bytes>, m: map<Bytes, Bytes>, matches: Bytes -> bool)
    requires forall n :: n in all <==> TypeKey(n) in m
    ensures KeysSoFar(all, 0, [], m, m, matches)
  {
    hide TypeKey, ExpKey;
    assert all[..0] == [];
  }

  lemma PurgedName(all: seq<Bytes>, i: nat, names: seq<Bytes>, m0: map<Bytes, Bytes>, m: map<Bytes, Bytes>,
                   m': map<Bytes, Bytes>, matches: Bytes -> bool)
    requires KeysSoFar(all, i, names, m0, m, matches) && i < |all| && Ascend(all)
    requires IsPurged(m, m', all[i]) && ExpKey(all[i]) in m
    ensures KeysSoFar(all, i + 1, names, m0, m', matches)
  {
    hide TypeKey, ExpKey, IsPurged, Ascend;
    PurgeSparesTypes(m, m', all[i]);
    NamesStep(all, i);
    assert Lookup(m0, ExpKey(all[i])) == Some(m[ExpKey(all[i])]);
  }

  lemma LiveName(all: seq<Bytes>, i: nat, names: seq<Bytes>, m0: map<Bytes, Bytes>, m: map<Bytes, Bytes>,
                 matches: Bytes -> bool)
    requires KeysSoFar(all, i, names, m0, m, matches) && i < |all| && Ascend(all)
    ensures KeysSoFar(all, i + 1, if matches(all[i]) then names + [all[i]] else names, m0, m, matches)
  {
    hide TypeKey, ExpKey, Ascend, OnlyRemoved;
    NamesStep(all, i);
    OneMoreName(all, i, names);
  }

  lemma AllNames(all: seq<Bytes>, names: seq<Bytes>, m0: map<Bytes, Bytes>, m: map<Bytes, Bytes>,
                 matches: Bytes -> bool)
    requires KeysSoFar(all, |all|, names, m0, m, matches) && forall n :: n in all <==> TypeKey(n) in m0
    ensures forall i, j :: 0 <= i < j < |names| ==> Less(names[i], names[j])
    ensures forall n :: n in names ==> matches(n) && TypeKey(n) in m
    ensures forall n :: matches(n) && TypeKey(n) in m && m[TypeKey(n)] != [] ==> n in names
    ensures OnlyRemoved(m0, m)
    ensures forall n :: TypeKey(n) in m0 && ExpKey(n) !in m0 ==> TypeKey(n) in m
  {
    hide TypeKey, ExpKey, Less;
    assert all[..|all|] == all;
  }

  /** The names of the keys whose type cells a scan found. */
  lemma TypesListed(found: seq<Pair<Bytes>>, m: map<Bytes, Bytes>) returns (all: seq<Bytes>)
    requires ListsPrefix(found, m, TYPE_TAG)
    ensures |all| == |found| && Ascend(all)
    ensures forall i :: 0 <= i < |all| ==> TYPE_TAG <= found[i].key && found[i].key[|TYPE_TAG|..] == all[i]
    ensures forall n :: n in all <==> TypeKey(n) in m
  {
    hide Less;
    all := seq(|found|, i requires 0 <= i < |found| => found[i].key[|TYPE_TAG|..]);
    assert forall i :: 0 <= i < |found| ==> found[i].key == TypeKey(all[i]);
    forall i, j | 0 <= i < j < |all|
      ensures Less(all[i], all[j])
    {
      LessUnderPrefix(TYPE_TAG, all[i], all[j]);
    }
    forall n
      ensures n in all <==> TypeKey(n) in m
    {
      if TypeKey(n) in m {
        assert HasKey(found, TypeKey(n));
        var i :| 0 <= i < |found| && found[i].key == TypeKey(n);
        SameTag(TYPE_TAG, all[i], n);
      }
    }
  }

  lemma NamesStep(all: seq<Bytes>, i: nat)
    requires i < |all| && Ascend(all)
    ensures forall n :: n in all[..i + 1] <==> n in all[..i] || n == all[i]
    ensures forall j :: i < j < |all| ==> all[j] != all[i]
    ensures all[i] !in all[..i]
  {
    hide Less;
    assert all[..i + 1] == all[..i] + [all[i]];
    LessIsIrreflexive(all[i]);
    forall j | 0 <= j < |all| && j != i
      ensures all[j] != all[i]
    {
      assert Less(all[j], all[i]) || Less(all[i], all[j]);
    }
  }

  lemma OneMoreName(all: seq<Bytes>, i: nat, names: seq<Bytes>)
    requires Ascend(all) && i < |all| && Ascend(names) && forall n :: n in names ==> n in all[..i]
    ensures Ascend(names + [all[i]])
  {
    hide Less;
    forall k | 0 <= k < |names|
      ensures Less(names[k], all[i])
    {
      assert names[k] in all[..i];
      var j :| 0 <= j < i && all[..i][j] == names[k];
    }
  }

  /** Purging a key removes no other key's type, and its own unless that is empty. */
  lemma PurgeSparesTypes(m: map<Bytes, Bytes>, m': map<Bytes, Bytes>, key: Bytes)
    requires IsPurged(m, m', key)
    ensures OnlyRemoved(m, m')
    ensures forall n :: n != key ==> Lookup(m', TypeKey(n)) == Lookup(m, TypeKey(n))
    ensures TypeKey(key) in m' ==> m'[TypeKey(key)] == []
  {
    hide HoldsData, Meta;
    assert Lookup(m', TypeKey(key)) == if Purges(m, key, TypeKey(key)) then None else Lookup(m, TypeKey(key));
    forall k | k in m'
      ensures Lookup(m, k) == Some(m'[k])
    {
      assert Lookup(m', k) == if Purges(m, key, k) then None else Lookup(m, k);
    }
    forall n | n != key
      ensures Lookup(m', TypeKey(n)) == Lookup(m, TypeKey(n))
    {
      SameTag("__TYPE__:", n, key);
      KindsDiffer(n, key, 0);
      if TypeKey(key) in m {
        DataIsNoType(m[TypeKey(key)], Meta(m, key), key, n);
      }
    }
  }

  lemma DataIsNoType(t: Bytes, cells: (int, int), key: Bytes, n: Bytes)
    ensures !HoldsData(t, cells, key, TypeKey(n)) && TypeKey(n) != ExpKey(key)
  {
    hide IntText;
    assert TypeKey(n)[2] == 'T' && ValueKey(key)[2] == 'V' && MetaKey(key)[2] == 'L' && ExpKey(key)[2] == 'E';
    assert HashPrefix(key)[2] == 'H' && SetPrefix(key)[2] == 'S' && ZSetPrefix(key)[2] == 'Z';
    forall i: int
      ensures Cell(key, i) != TypeKey(n)
    {
      KindsDiffer(key, n, i);
    }
  }
}
