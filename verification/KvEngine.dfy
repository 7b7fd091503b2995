// The key-value engine over the store: expiry, whole-key deletion,
// lists, hashes, sets and sorted sets.

module KvEngine {
  import opened ByteStrings
  import opened Store
  import opened KvKeys
  import opened KvLists
  import opened KvFields
  import opened KvSorted
  import opened KvPurge
  import opened KvSteps
  import Tables

  class KeyValueEngine {
    const lsm: KeyStore<Bytes>

    constructor (lsm: KeyStore<Bytes>)
      ensures this.lsm == lsm
    {
      this.lsm := lsm;
    }

    /** The store deletes what the LSM tree deletes: a cell whose value is the tombstone constant. */
    ghost predicate OnTree() {
      forall v :: lsm.dies(v) <==> v == Tables.TOMBSTONE
    }

    lemma PutShows(key: Bytes, value: Bytes)
      requires OnTree() && Slot(value) == Some(value)
      ensures WithSlot(lsm.m, key, SlotFor(lsm.dies, value)) == lsm.m[key := value]
    {
    }

    /** Whether an expiry text is a number at or before the current time. */
    method IsDue(text: Bytes) returns (due: bool)
    {
      due := *;
    }

    method IsExpired(key: Bytes) returns (expired: bool)
      modifies lsm
      ensures !expired ==> lsm.m == old(lsm.m)
      ensures expired ==> ExpKey(key) in old(lsm.m) && IsPurged(old(lsm.m), lsm.m, key)
    {
      var text := lsm.Get(ExpKey(key));
      if text.Some? {
        var due := IsDue(text.value);
        if due {
          PurgeKey(key);
          return true;
        }
      }
      return false;
    }

    method PurgeKey(key: Bytes)
      modifies lsm
      ensures IsPurged(old(lsm.m), lsm.m, key)
    {
      hide Cell, MetaKey, TypeKey, ExpKey, ReadMeta, HoldsData;
      KeysAreNonEmpty(key);
      KindsDiffer(key, key, 0);
      var t := lsm.Get(TypeKey(key));
      if t == None || t.value == [] {
        lsm.Delete(ExpKey(key));
        return;
      }
      lsm.Delete(TypeKey(key));
      lsm.Delete(ExpKey(key));
      assert Meta(lsm.m, key) == Meta(old(lsm.m), key);
      PurgeData(key, t.value);
    }

    /** The branches of the purge, one for each type. */
    method PurgeData(key: Bytes, t: Bytes)
      modifies lsm
      ensures forall k :: Lookup(lsm.m, k)
                == if HoldsData(t, Meta(old(lsm.m), key), key, k) then None else Lookup(old(lsm.m), k)
    {
      hide Cell, MetaKey, ReadMeta, HashPrefix, SetPrefix, ZSetPrefix, ValueKey, InCells;
      KeysAreNonEmpty(key);
      TypesDiffer();
      if t == STRING {
        lsm.Delete(ValueKey(key));
      } else if t == HASH {
        PurgePrefix(HashPrefix(key));
      } else if t == LIST {
        var head, tail := GetListMeta(key);
        DeleteCells(key, head, tail);
        lsm.Delete(MetaKey(key));
      } else if t == SET_TYPE {
        PurgePrefix(SetPrefix(key));
      } else if t == ZSET {
        PurgePrefix(ZSetPrefix(key));
      }
    }

    /** Deletes every cell under the prefix, from one snapshot. */
    method PurgePrefix(prefix: Bytes)
      requires prefix != []
      modifies lsm
      ensures forall k :: Lookup(lsm.m, k) == if prefix <= k then None else Lookup(old(lsm.m), k)
    {
      var found := lsm.ScanPrefix(prefix);
      for i := 0 to |found|
        invariant forall k :: Lookup(lsm.m, k)
                    == if exists j :: 0 <= j < i && found[j].key == k then None else Lookup(old(lsm.m), k)
      {
        lsm.Delete(found[i].key);
      }
      forall k
        ensures Lookup(lsm.m, k) == if prefix <= k then None else Lookup(old(lsm.m), k)
      {
        if prefix <= k && k in old(lsm.m) {
          assert HasKey(found, k);
        }
      }
    }

    method DeleteCells(key: Bytes, lo: int, hi: int)
      modifies lsm
      ensures forall k :: Lookup(lsm.m, k) == if InCells(key, lo, hi, k) then None else Lookup(old(lsm.m), k)
    {
      hide Cell, InCells;
      NoCells(key, lo, hi);
      var n := lo;
      while n < hi
        invariant if lo <= hi then lo <= n <= hi else n == lo
        invariant forall k :: Lookup(lsm.m, k) == if InCells(key, lo, n, k) then None else Lookup(old(lsm.m), k)
      {
        ghost var before := lsm.m;
        CellIsNonEmpty(key, n);
        lsm.Delete(Cell(key, n));
        forall k
          ensures Lookup(lsm.m, k) == if InCells(key, lo, n + 1, k) then None else Lookup(old(lsm.m), k)
        {
          OneMoreCell(key, lo, n, k);
          assert Lookup(before, k) == if InCells(key, lo, n, k) then None else Lookup(old(lsm.m), k);
        }
        n := n + 1;
      }
    }

    // ---------- Lists ----------

    method GetListMeta(key: Bytes) returns (head: int, tail: int)
      ensures (head, tail) == Meta(lsm.m, key)
    {
      var v := lsm.Get(MetaKey(key));
      if v == None {
        return 0, 0;
      }
      var r := ReadMeta(v.value);
      return r.0, r.1;
    }

    method SetListMeta(key: Bytes, head: int, tail: int)
      requires OnTree()
      modifies lsm
      ensures lsm.m == WithMeta(old(lsm.m), key, head, tail)
    {
      hide MetaText;
      MetaIsKept(head, tail);
      lsm.Put(MetaKey(key), MetaText(head, tail));
      lsm.Put(TypeKey(key), LIST);
    }

    method LPush(key: Bytes, values: seq<Bytes>, ghost xs: seq<Element>) returns (length: int, ghost expired: bool)
      requires OnTree() && IsList(lsm.m, key, xs)
      modifies lsm
      ensures var base := if expired then [] else xs;
              IsList(lsm.m, key, Reversed(Slots(values)) + base) && length == |values| + |base|
      ensures expired ==> ExpKey(key) in old(lsm.m)
      ensures Marked(old(lsm.m), lsm.m, key, expired) && SameOutside(old(lsm.m), lsm.m, key)
    {
      hide Cell, MetaKey, TypeKey, ExpKey, ReadMeta, CellsHold, Reversed, IsPurged, SameOutside, WithMeta, Slots;
      var due := IsExpired(key);
      expired := due;
      SettledList(old(lsm.m), lsm.m, key, xs, expired);
      ghost var base := if expired then [] else xs;
      var head, tail := GetListMeta(key);
      ghost var done := base;
      NothingReversed(Slots(values), base);
      for i := 0 to |values|
        invariant done == Reversed(Slots(values)[..i]) + base && tail == head + |done|
        invariant CellsHold(lsm.m, key, head, done)
        invariant SameOutside(old(lsm.m), lsm.m, key)
        invariant ExpKey(key) in lsm.m <==> ExpKey(key) in old(lsm.m) && !expired
      {
        PutFront(lsm.m, key, head, done, Slot(values[i]));
        ReversedStep(Slots(values), i, base);
        CellFacts(key, head - 1);
        OwnedCell(old(lsm.m), lsm.m, key, head - 1, Slot(values[i]));
        ExpiryIsKept(lsm.m, key, head - 1, Slot(values[i]), 0, 0);
        head := head - 1;
        lsm.Put(Cell(key, head), values[i]);
        done := [Slot(values[i])] + done;
      }
      assert Slots(values)[..|values|] == Slots(values);
      MetaCompletes(lsm.m, key, head, done);
      OwnedMeta(old(lsm.m), lsm.m, key, head, tail);
      ExpiryIsKept(lsm.m, key, 0, None, head, tail);
      SetListMeta(key, head, tail);
      length := tail - head;
    }

    method RPush(key: Bytes, values: seq<Bytes>, ghost xs: seq<Element>) returns (length: int, ghost expired: bool)
      requires OnTree() && IsList(lsm.m, key, xs)
      modifies lsm
      ensures var base := if expired then [] else xs;
              IsList(lsm.m, key, base + Slots(values)) && length == |base| + |values|
      ensures expired ==> ExpKey(key) in old(lsm.m)
      ensures Marked(old(lsm.m), lsm.m, key, expired) && SameOutside(old(lsm.m), lsm.m, key)
    {
      hide Cell, MetaKey, TypeKey, ExpKey, ReadMeta, CellsHold, IsPurged, SameOutside, WithMeta, Slots;
      var due := IsExpired(key);
      expired := due;
      SettledList(old(lsm.m), lsm.m, key, xs, expired);
      ghost var base := if expired then [] else xs;
      var head, tail := GetListMeta(key);
      ghost var done := base;
      assert base + Slots(values)[..0] == base;
      for i := 0 to |values|
        invariant done == base + Slots(values)[..i] && tail == head + |done|
        invariant CellsHold(lsm.m, key, head, done)
        invariant SameOutside(old(lsm.m), lsm.m, key)
        invariant ExpKey(key) in lsm.m <==> ExpKey(key) in old(lsm.m) && !expired
      {
        PutBack(lsm.m, key, head, done, Slot(values[i]));
        assert done + [Slot(values[i])] == base + Slots(values)[..i + 1];
        CellFacts(key, tail);
        OwnedCell(old(lsm.m), lsm.m, key, tail, Slot(values[i]));
        ExpiryIsKept(lsm.m, key, tail, Slot(values[i]), 0, 0);
        lsm.Put(Cell(key, tail), values[i]);
        tail := tail + 1;
        done := done + [Slot(values[i])];
      }
      assert Slots(values)[..|values|] == Slots(values);
      MetaCompletes(lsm.m, key, head, done);
      OwnedMeta(old(lsm.m), lsm.m, key, head, tail);
      ExpiryIsKept(lsm.m, key, 0, None, head, tail);
      SetListMeta(key, head, tail);
      length := tail - head;
    }

    method LPop(key: Bytes, ghost xs: seq<Element>) returns (r: Option<Bytes>, ghost expired: bool)
      requires OnTree() && IsList(lsm.m, key, xs)
      modifies lsm
      ensures expired || xs == [] ==> r == None && Settled(old(lsm.m), lsm.m, key, expired)
      ensures !expired && xs != [] ==>
                && r == (if xs[0] == Some([]) then None else xs[0])
                && IsList(lsm.m, key, xs[1..]) && Marked(old(lsm.m), lsm.m, key, false)
      ensures SameOutside(old(lsm.m), lsm.m, key)
    {
      hide Cell, MetaKey, TypeKey, ExpKey, ReadMeta, SameOutside, WithMeta, IsPurged;
      var due := IsExpired(key);
      expired := due;
      SettledList(old(lsm.m), lsm.m, key, xs, expired);
      if due {
        return None, expired;
      }
      var head, tail := GetListMeta(key);
      if head >= tail {
        return None, expired;
      }
      var v := lsm.Get(Cell(key, head));
      DropFront(lsm.m, key, head, xs);
      CellFacts(key, head);
      OwnedCell(old(lsm.m), lsm.m, key, head, None);
      ExpiryIsKept(lsm.m, key, head, None, 0, 0);
      lsm.Delete(Cell(key, head));
      head := head + 1;
      MetaCompletes(lsm.m, key, head, xs[1..]);
      OwnedMeta(old(lsm.m), lsm.m, key, head, tail);
      ExpiryIsKept(lsm.m, key, 0, None, head, tail);
      SetListMeta(key, head, tail);
      r := Truthy(v);
    }

    method RPop(key: Bytes, ghost xs: seq<Element>) returns (r: Option<Bytes>, ghost expired: bool)
      requires OnTree() && IsList(lsm.m, key, xs)
      modifies lsm
      ensures expired || xs == [] ==> r == None && Settled(old(lsm.m), lsm.m, key, expired)
      ensures !expired && xs != [] ==>
                && r == (if xs[|xs| - 1] == Some([]) then None else xs[|xs| - 1])
                && IsList(lsm.m, key, xs[..|xs| - 1]) && Marked(old(lsm.m), lsm.m, key, false)
      ensures SameOutside(old(lsm.m), lsm.m, key)
    {
      hide Cell, MetaKey, TypeKey, ExpKey, ReadMeta, SameOutside, WithMeta, IsPurged;
      var due := IsExpired(key);
      expired := due;
      SettledList(old(lsm.m), lsm.m, key, xs, expired);
      if due {
        return None, expired;
      }
      var head, tail := GetListMeta(key);
      if head >= tail {
        return None, expired;
      }
      tail := tail - 1;
      var v := lsm.Get(Cell(key, tail));
      DropBack(lsm.m, key, head, xs);
      CellFacts(key, tail);
      OwnedCell(old(lsm.m), lsm.m, key, tail, None);
      ExpiryIsKept(lsm.m, key, tail, None, 0, 0);
      lsm.Delete(Cell(key, tail));
      MetaCompletes(lsm.m, key, head, xs[..|xs| - 1]);
      OwnedMeta(old(lsm.m), lsm.m, key, head, tail);
      ExpiryIsKept(lsm.m, key, 0, None, head, tail);
      SetListMeta(key, head, tail);
      r := Truthy(v);
    }

    method LRange(key: Bytes, start: int, stop: int, ghost xs: seq<Element>)
        returns (items: seq<Bytes>, ghost expired: bool)
      requires IsList(lsm.m, key, xs)
      modifies lsm
      ensures Settled(old(lsm.m), lsm.m, key, expired)
      ensures items == if expired then [] else Present(Between(xs, Position(|xs|, start), Position(|xs|, stop)))
    {
      hide Cell, MetaKey, TypeKey, ExpKey, ReadMeta, Between, CellsHold, IsPurged;
      BetweenIsSlice(xs, Position(|xs|, start), Position(|xs|, stop));
      var due := IsExpired(key);
      expired := due;
      if due {
        return [], expired;
      }
      var head, tail := GetListMeta(key);
      var length := tail - head;
      if length <= 0 {
        return [], expired;
      }
      var lo, hi := Clamp(length, start, stop);
      if lo > hi || lo >= length {
        return [], expired;
      }
      items := ReadCells(key, head, lo, hi, xs);
    }

    /** The elements numbered from lo to hi, read cell by cell; a hole is skipped. */
    method ReadCells(key: Bytes, head: int, lo: nat, hi: int, ghost xs: seq<Element>) returns (items: seq<Bytes>)
      requires lo <= hi < |xs| && CellsHold(lsm.m, key, head, xs)
      ensures items == Present(xs[lo..hi + 1])
    {
      hide Cell;
      items := [];
      var i := head + lo;
      while i < head + hi + 1
        invariant head + lo <= i <= head + hi + 1
        invariant items == Present(xs[lo..i - head])
      {
        var v := lsm.Get(Cell(key, i));
        assert v == xs[i - head];
        PresentStep(xs, lo, i - head);
        if v.Some? {
          items := items + [v.value];
        }
        i := i + 1;
      }
    }

    /** start and stop, as every range command clamps them. */
    method Clamp(length: int, start: int, stop: int) returns (lo: int, hi: int)
      requires length > 0
      ensures lo == if start < 0 then (if length + start < 0 then 0 else length + start) else start
      ensures hi == if stop < 0 then length + stop else if stop < length - 1 then stop else length - 1
    {
      lo := start;
      if lo < 0 {
        lo := if length + lo < 0 then 0 else length + lo;
      }
      if stop < 0 {
        hi := length + stop;
      } else {
        hi := if stop < length - 1 then stop else length - 1;
      }
    }

    method LIndex(key: Bytes, index: int, ghost xs: seq<Element>) returns (r: Option<Bytes>, ghost expired: bool)
      requires IsList(lsm.m, key, xs)
      modifies lsm
      ensures Settled(old(lsm.m), lsm.m, key, expired)
      ensures r == var p := Position(|xs|, index); if !expired && 0 <= p < |xs| then xs[p] else None
    {
      hide IsList, Between, Settled;
      BetweenIsSlice(xs, Position(|xs|, index), Position(|xs|, index));
      ghost var p := Position(|xs|, index);
      if 0 <= p < |xs| {
        PresentStep(xs, p, p);
        assert xs[p..p] == [] && Present([]) + [] == [];
      }
      var items;
      items, expired := LRange(key, index, index, xs);
      r := if items == [] then None else Some(items[0]);
    }

    method LLen(key: Bytes, ghost xs: seq<Element>) returns (n: int, ghost expired: bool)
      requires IsList(lsm.m, key, xs)
      modifies lsm
      ensures Settled(old(lsm.m), lsm.m, key, expired)
      ensures n == if expired then 0 else |xs|
    {
      hide Cell, MetaKey, TypeKey, ExpKey, ReadMeta, CellsHold, IsPurged;
      var due := IsExpired(key);
      expired := due;
      if due {
        return 0, expired;
      }
      var head, tail := GetListMeta(key);
      n := if tail - head > 0 then tail - head else 0;
    }

    method LSet(key: Bytes, index: int, value: Bytes, ghost xs: seq<Element>) returns (ok: bool, ghost expired: bool)
      requires OnTree() && IsList(lsm.m, key, xs)
      modifies lsm
      ensures ok <==> !expired && 0 <= Position(|xs|, index) < |xs|
      ensures ok ==> IsList(lsm.m, key, xs[Position(|xs|, index) := Slot(value)])
                     && Marked(old(lsm.m), lsm.m, key, false)
      ensures !ok ==> Settled(old(lsm.m), lsm.m, key, expired)
      ensures SameOutside(old(lsm.m), lsm.m, key)
    {
      hide Cell, MetaKey, TypeKey, ExpKey, ReadMeta, CellsHold, IsPurged, SameOutside;
      var due := IsExpired(key);
      expired := due;
      SettledList(old(lsm.m), lsm.m, key, xs, expired);
      if due {
        return false, expired;
      }
      var head, tail := GetListMeta(key);
      var length := tail - head;
      if length <= 0 {
        return false, expired;
      }
      var i := if index < 0 then length + index else index;
      if i < 0 || i >= length {
        return false, expired;
      }
      NonEmptyHasType(lsm.m, key, xs);
      PutInside(lsm.m, key, head, xs, i, Slot(value));
      CellFacts(key, head + i);
      OwnedCell(old(lsm.m), lsm.m, key, head + i, Slot(value));
      lsm.Put(Cell(key, head + i), value);
      ok := true;
    }

    method LTrim(key: Bytes, start: int, stop: int, ghost xs: seq<Element>) returns (ok: bool, ghost expired: bool)
      requires OnTree() && IsList(lsm.m, key, xs)
      modifies lsm
      ensures ok <==> !expired
      ensures expired || xs == [] ==> Settled(old(lsm.m), lsm.m, key, expired)
      ensures !expired && xs != [] ==>
                var kept := Between(xs, Position(|xs|, start), Position(|xs|, stop));
                && IsList(lsm.m, key, kept)
                && (if kept == [] then IsPurged(old(lsm.m), lsm.m, key) else Marked(old(lsm.m), lsm.m, key, false))
      ensures SameOutside(old(lsm.m), lsm.m, key)
    {
      hide Cell, MetaKey, TypeKey, ExpKey, ReadMeta, CellsHold, Between, IsPurged, Purges, InCells, SameOutside,
        WithMeta;
      OwnedMeta(lsm.m, lsm.m, key, 0, 0);
      BetweenIsSlice(xs, Position(|xs|, start), Position(|xs|, stop));
      var due := IsExpired(key);
      expired := due;
      SettledList(old(lsm.m), lsm.m, key, xs, expired);
      if due {
        return false, expired;
      }
      var head, tail := GetListMeta(key);
      var length := tail - head;
      if length <= 0 {
        return true, expired;
      }
      var lo, hi := Clamp(length, start, stop);
      if lo > hi || lo >= length {
        NonEmptyHasType(lsm.m, key, xs);
        ghost var before := lsm.m;
        var deleted := DeleteKey(key);
        PurgedList(before, lsm.m, key, xs);
        return true, expired;
      }
      ghost var before := lsm.m;
      DeleteCells(key, head, head + lo);
      DeleteCells(key, head + hi + 1, tail);
      TrimmedCells(before, lsm.m, key, head, xs, lo, hi);
      OwnedMeta(before, lsm.m, key, head + lo, head + hi + 1);
      ExpiryIsKept(lsm.m, key, 0, None, head + lo, head + hi + 1);
      SetListMeta(key, head + lo, head + hi + 1);
      ok := true;
    }

    // ---------- Whole keys ----------

    /** expire: the deadline is written whether or not the key exists. */
    method Expire(key: Bytes, deadline: Bytes) returns (ok: bool)
      requires OnTree() && Slot(deadline) == Some(deadline)
      modifies lsm
      ensures ok && lsm.m == old(lsm.m)[ExpKey(key) := deadline]
    {
      KeysAreNonEmpty(key);
      lsm.Put(ExpKey(key), deadline);
      ok := true;
    }

    method Persist(key: Bytes) returns (had: bool)
      modifies lsm
      ensures had <==> ExpKey(key) in old(lsm.m)
      ensures lsm.m == old(lsm.m) - {ExpKey(key)}
    {
      KeysAreNonEmpty(key);
      var text := lsm.Get(ExpKey(key));
      if text.Some? {
        lsm.Delete(ExpKey(key));
      }
      had := text.Some?;
    }

    /** delete(key) for one key. */
    method DeleteKey(key: Bytes) returns (existed: bool)
      modifies lsm
      ensures existed <==> TypeKey(key) in old(lsm.m)
      ensures existed ==> IsPurged(old(lsm.m), lsm.m, key)
      ensures !existed ==> lsm.m == old(lsm.m)
    {
      hide IsPurged;
      var t := lsm.Get(TypeKey(key));
      if t == None {
        return false;
      }
      PurgeKey(key);
      return true;
    }

    /** keys(pattern): one pass over the type cells of a snapshot, purging what is due. Every
        name returned is live afterwards, and no live name that matches is missed. */
    method Keys(matches: Bytes -> bool) returns (names: seq<Bytes>)
      modifies lsm
      ensures forall i, j :: 0 <= i < j < |names| ==> Less(names[i], names[j])
      ensures forall n :: n in names ==> matches(n) && TypeKey(n) in lsm.m
      ensures forall n :: matches(n) && TypeKey(n) in lsm.m && lsm.m[TypeKey(n)] != [] ==> n in names
      ensures OnlyRemoved(old(lsm.m), lsm.m)
      ensures forall n :: TypeKey(n) in old(lsm.m) && ExpKey(n) !in old(lsm.m) ==> TypeKey(n) in lsm.m
    {
      hide IsPurged, Less, ListsPrefix, TypeKey, ExpKey, Ascend, KeysSoFar;
      ghost var m0 := lsm.m;
      var found := lsm.ScanPrefix(TYPE_TAG);
      ghost var all := TypesListed(found, m0);
      names := [];
      NoNames(all, m0, matches);
      for i := 0 to |found|
        invariant KeysSoFar(all, i, names, m0, lsm.m, matches)
      {
        var name := found[i].key[|TYPE_TAG|..];
        ghost var before := lsm.m;
        var expired := IsExpired(name);
        if expired {
          PurgedName(all, i, names, m0, before, lsm.m, matches);
        } else {
          LiveName(all, i, names, m0, lsm.m, matches);
          if matches(name) {
            names := names + [name];
          }
        }
      }
      AllNames(all, names, m0, lsm.m, matches);
    }

    // ---------- Hashes ----------

    method HSet(key: Bytes, field: Bytes, value: Bytes)
        returns (isNew: nat, ghost base: map<Bytes, Bytes>, ghost expired: bool)
      requires OnTree()
      modifies lsm
      ensures Settled(old(lsm.m), base, key, expired)
      ensures Fields(lsm.m, HashPrefix(key)) == WithSlot(Fields(base, HashPrefix(key)), field, Slot(value))
      ensures isNew == if field in Fields(base, HashPrefix(key)) then 0 else 1
      ensures OnlyUnder(base, lsm.m, HashPrefix(key), key) && Lookup(lsm.m, TypeKey(key)) == Some(HASH)
    {
      hide Fields, TypeKey, ExpKey, HashPrefix, IsPurged;
      expired := IsExpired(key);
      base := lsm.m;
      PrefixFacts(key, field);
      KeysAreNonEmpty(key);
      FieldsLookup(base, HashPrefix(key), field);
      ConstantsAreKept();
      FieldsSlot(base, HashPrefix(key), field, Slot(value));
      FieldsIgnore(WithSlot(base, HashPrefix(key) + field, Slot(value)), HashPrefix(key), TypeKey(key), HASH);
      var v := lsm.Get(HashPrefix(key) + field);
      isNew := if v == None then 1 else 0;
      lsm.Put(HashPrefix(key) + field, value);
      lsm.Put(TypeKey(key), HASH);
    }

    method HGet(key: Bytes, field: Bytes) returns (r: Option<Bytes>, ghost expired: bool)
      modifies lsm
      ensures Settled(old(lsm.m), lsm.m, key, expired)
      ensures r == if expired then None else Lookup(Fields(old(lsm.m), HashPrefix(key)), field)
    {
      hide Fields, ExpKey, HashPrefix, IsPurged;
      var due := IsExpired(key);
      expired := due;
      if due {
        return None, expired;
      }
      FieldsLookup(lsm.m, HashPrefix(key), field);
      r := lsm.Get(HashPrefix(key) + field);
    }

    method HDel(key: Bytes, fields: seq<Bytes>) returns (count: int)
      modifies lsm
      ensures Fields(lsm.m, HashPrefix(key)) == Fields(old(lsm.m), HashPrefix(key)) - Elements(fields)
      ensures count == Growth(Fields(lsm.m, HashPrefix(key)).Keys, Fields(old(lsm.m), HashPrefix(key)).Keys)
      ensures OnlyUnder(old(lsm.m), lsm.m, HashPrefix(key), key)
      ensures Lookup(lsm.m, TypeKey(key)) == Lookup(old(lsm.m), TypeKey(key))
    {
      PrefixFacts(key, []);
      count := RemoveCells(key, HashPrefix(key), fields);
    }

    /** The loop that hdel, srem and zrem share. */
    method RemoveCells(key: Bytes, prefix: Bytes, names: seq<Bytes>) returns (count: int)
      requires prefix != [] && !(prefix <= TypeKey(key))
      modifies lsm
      ensures Fields(lsm.m, prefix) == Fields(old(lsm.m), prefix) - Elements(names)
      ensures count == Growth(Fields(lsm.m, prefix).Keys, Fields(old(lsm.m), prefix).Keys)
      ensures OnlyUnder(old(lsm.m), lsm.m, prefix, key)
      ensures Lookup(lsm.m, TypeKey(key)) == Lookup(old(lsm.m), TypeKey(key))
    {
      hide Fields, TypeKey, OnlyUnder, Elements;
      count := 0;
      NothingYet(lsm.m, prefix, names, key);
      for i := 0 to |names|
        invariant Fields(lsm.m, prefix) == Fields(old(lsm.m), prefix) - Elements(names[..i])
        invariant count == |Fields(old(lsm.m), prefix)| - |Fields(lsm.m, prefix)|
        invariant OnlyUnder(old(lsm.m), lsm.m, prefix, key)
        invariant Lookup(lsm.m, TypeKey(key)) == Lookup(old(lsm.m), TypeKey(key))
      {
        RemoveStep(old(lsm.m), lsm.m, prefix, names, i, key);
        assert prefix <= prefix + names[i];
        var v := lsm.Get(prefix + names[i]);
        if v.Some? {
          lsm.Delete(prefix + names[i]);
          count := count + 1;
        }
      }
      assert names[..|names|] == names;
      CountsKeys(Fields(lsm.m, prefix), Fields(old(lsm.m), prefix));
    }

    method HGetAll(key: Bytes) returns (result: map<Bytes, Bytes>, ghost expired: bool)
      modifies lsm
      ensures Settled(old(lsm.m), lsm.m, key, expired)
      ensures result == if expired then map[] else Fields(old(lsm.m), HashPrefix(key))
    {
      hide Fields, ExpKey, HashPrefix, IsPurged;
      var due := IsExpired(key);
      expired := due;
      if due {
        return map[], expired;
      }
      result := Collect(HashPrefix(key));
    }

    /** The scan loop of the readers: from the prefix to the first key without it. */
    method Collect(prefix: Bytes) returns (result: map<Bytes, Bytes>)
      ensures result == Fields(lsm.m, prefix)
    {
      hide Fields;
      var found := lsm.ScanPrefix(prefix);
      result := map[];
      for i := 0 to |found|
        invariant forall f :: f in result <==> exists j :: 0 <= j < i && found[j].key[|prefix|..] == f
        invariant forall j :: 0 <= j < i ==>
                    found[j].key[|prefix|..] in result && result[found[j].key[|prefix|..]] == found[j].value
      {
        ghost var before := result;
        result := result[found[i].key[|prefix|..] := found[i].value];
        NamesAreDistinct(found, prefix, i);
      }
      ListedFields(found, lsm.m, prefix, result);
    }

    // ---------- Sets ----------

    method SAdd(key: Bytes, members: seq<Bytes>)
        returns (added: int, ghost base: map<Bytes, Bytes>, ghost expired: bool)
      requires OnTree()
      modifies lsm
      ensures Settled(old(lsm.m), base, key, expired)
      ensures Fields(lsm.m, SetPrefix(key)).Keys == Fields(base, SetPrefix(key)).Keys + Elements(members)
      ensures added == Growth(Fields(base, SetPrefix(key)).Keys, Fields(lsm.m, SetPrefix(key)).Keys)
      ensures OnlyUnder(base, lsm.m, SetPrefix(key), key) && Lookup(lsm.m, TypeKey(key)) == Some(SET_TYPE)
    {
      hide Fields, TypeKey, ExpKey, SetPrefix, IsPurged, OnlyUnder, Elements;
      ConstantsAreKept();
      expired := IsExpired(key);
      base := lsm.m;
      added := 0;
      NothingYet(base, SetPrefix(key), members, key);
      for i := 0 to |members|
        invariant Fields(lsm.m, SetPrefix(key)).Keys == Fields(base, SetPrefix(key)).Keys + Elements(members[..i])
        invariant added == |Fields(lsm.m, SetPrefix(key))| - |Fields(base, SetPrefix(key))|
        invariant OnlyUnder(base, lsm.m, SetPrefix(key), key)
      {
        PrefixFacts(key, members[i]);
        AddStep(base, lsm.m, SetPrefix(key), members, i, key);
        var v := lsm.Get(SetPrefix(key) + members[i]);
        if v == None {
          lsm.Put(SetPrefix(key) + members[i], "1");
          added := added + 1;
        }
      }
      assert members[..|members|] == members;
      PrefixFacts(key, []);
      KeysAreNonEmpty(key);
      FieldsIgnore(lsm.m, SetPrefix(key), TypeKey(key), SET_TYPE);
      TypeIsAllowed(base, lsm.m, SetPrefix(key), key, SET_TYPE);
      CountsKeys(Fields(base, SetPrefix(key)), Fields(lsm.m, SetPrefix(key)));
      lsm.Put(TypeKey(key), SET_TYPE);
    }

    method SRem(key: Bytes, members: seq<Bytes>) returns (count: int)
      modifies lsm
      ensures Fields(lsm.m, SetPrefix(key)) == Fields(old(lsm.m), SetPrefix(key)) - Elements(members)
      ensures count == Growth(Fields(lsm.m, SetPrefix(key)).Keys, Fields(old(lsm.m), SetPrefix(key)).Keys)
      ensures OnlyUnder(old(lsm.m), lsm.m, SetPrefix(key), key)
      ensures Lookup(lsm.m, TypeKey(key)) == Lookup(old(lsm.m), TypeKey(key))
    {
      PrefixFacts(key, []);
      count := RemoveCells(key, SetPrefix(key), members);
    }

    method SMembers(key: Bytes) returns (members: set<Bytes>, ghost expired: bool)
      modifies lsm
      ensures Settled(old(lsm.m), lsm.m, key, expired)
      ensures members == if expired then {} else Fields(old(lsm.m), SetPrefix(key)).Keys
    {
      hide Fields, ExpKey, SetPrefix, IsPurged;
      var due := IsExpired(key);
      expired := due;
      if due {
        return {}, expired;
      }
      var all := Collect(SetPrefix(key));
      members := all.Keys;
    }

    method SIsMember(key: Bytes, member: Bytes) returns (found: bool, ghost expired: bool)
      modifies lsm
      ensures Settled(old(lsm.m), lsm.m, key, expired)
      ensures found <==> !expired && member in Fields(old(lsm.m), SetPrefix(key))
    {
      hide Fields, ExpKey, SetPrefix, IsPurged;
      var due := IsExpired(key);
      expired := due;
      if due {
        return false, expired;
      }
      FieldsLookup(lsm.m, SetPrefix(key), member);
      var v := lsm.Get(SetPrefix(key) + member);
      found := v.Some?;
    }

    // ---------- Sorted sets ----------

    method ZAdd(floats: Floats, key: Bytes, mapping: map<Bytes, real>)
      returns (added: int, ghost base: map<Bytes, Bytes>, ghost expired: bool)
      requires OnTree() && floats.Plain()
      modifies lsm
      ensures Settled(old(lsm.m), base, key, expired)
      ensures Scores(floats, lsm.m, key) == Scores(floats, base, key) + floats.AllThrough(mapping)
      ensures added == Growth(Scores(floats, base, key).Keys, Scores(floats, lsm.m, key).Keys)
      ensures OnlyUnder(base, lsm.m, ZSetPrefix(key), key) && Lookup(lsm.m, TypeKey(key)) == Some(ZSET)
    {
      hide Scores, TypeKey, ExpKey, ZSetPrefix, IsPurged, OnlyUnder, Covers, OnTree, WithSlot, SlotFor;
      ghost var stored := floats.AllThrough(mapping);
      CoversNothing(stored);
      ConstantsAreKept();
      expired := IsExpired(key);
      base := lsm.m;
      added := 0;
      var rest := mapping.Keys;
      ghost var done: map<Bytes, real> := map[];
      assert Scores(floats, lsm.m, key) == Scores(floats, base, key) + done;
      NothingYet(base, ZSetPrefix(key), [], key);
      while rest != {}
        invariant rest <= mapping.Keys && Covers(stored, done, rest)
        invariant Scores(floats, lsm.m, key) == Scores(floats, base, key) + done
        invariant added == |Scores(floats, lsm.m, key)| - |Scores(floats, base, key)|
        invariant OnlyUnder(base, lsm.m, ZSetPrefix(key), key)
        decreases rest
      {
        var f :| f in rest;
        PrefixFacts(key, f);
        ScoreStep(floats, base, lsm.m, key, f, mapping[f], done);
        CoversOneMore(stored, done, rest, f);
        var v := lsm.Get(ZSetPrefix(key) + f);
        if v == None {
          added := added + 1;
        }
        PutShows(ZSetPrefix(key) + f, floats.show(mapping[f]));
        lsm.Put(ZSetPrefix(key) + f, floats.show(mapping[f]));
        rest := rest - {f};
        done := done[f := stored[f]];
      }
      CoversAll(stored, done);
      CountsKeys(Scores(floats, base, key), Scores(floats, lsm.m, key));
      PrefixFacts(key, []);
      KeysAreNonEmpty(key);
      ScoresIgnoreType(floats, lsm.m, key);
      TypeIsAllowed(base, lsm.m, ZSetPrefix(key), key, ZSET);
      PutShows(TypeKey(key), ZSET);
      lsm.Put(TypeKey(key), ZSET);
    }

    method ZRem(floats: Floats, key: Bytes, members: seq<Bytes>) returns (count: int)
      modifies lsm
      ensures Scores(floats, lsm.m, key) == Scores(floats, old(lsm.m), key) - Elements(members)
      ensures count == Growth(Scores(floats, lsm.m, key).Keys, Scores(floats, old(lsm.m), key).Keys)
      ensures OnlyUnder(old(lsm.m), lsm.m, ZSetPrefix(key), key)
      ensures Lookup(lsm.m, TypeKey(key)) == Lookup(old(lsm.m), TypeKey(key))
    {
      hide Fields, ZSetPrefix, TypeKey, OnlyUnder;
      KeysAreNonEmpty(key);
      PrefixFacts(key, []);
      count := RemoveCells(key, ZSetPrefix(key), members);
      ScoresKeys(floats, old(lsm.m), key);
      ScoresKeys(floats, lsm.m, key);
      hide Growth;
    }

    method ZScore(floats: Floats, key: Bytes, member: Bytes) returns (r: Option<real>, ghost expired: bool)
      modifies lsm
      ensures Settled(old(lsm.m), lsm.m, key, expired)
      ensures r == if expired then None else Lookup(Scores(floats, old(lsm.m), key), member)
    {
      hide Fields, ExpKey, ZSetPrefix, IsPurged;
      var due := IsExpired(key);
      expired := due;
      if due {
        return None, expired;
      }
      FieldsLookup(lsm.m, ZSetPrefix(key), member);
      var v := lsm.Get(ZSetPrefix(key) + member);
      r := if v.Some? then Some(floats.read(v.value)) else None;
    }

    /** Reads and then writes, each with its own expiry check: a key that falls due in between
        is purged, but its old score still counts. */
    method ZIncrBy(floats: Floats, key: Bytes, amount: real, member: Bytes)
      returns (score: real, ghost base: map<Bytes, Bytes>, ghost early: bool, ghost late: bool)
      requires OnTree() && floats.Plain()
      modifies lsm
      ensures Settled(old(lsm.m), base, key, early || late)
      ensures var z := Scores(floats, old(lsm.m), key);
              score == amount + if !early && member in z then z[member] else 0.0
      ensures Scores(floats, lsm.m, key) == Scores(floats, base, key)[member := floats.Through(score)]
      ensures OnlyUnder(base, lsm.m, ZSetPrefix(key), key) && Lookup(lsm.m, TypeKey(key)) == Some(ZSET)
    {
      hide Scores, ZSetPrefix, TypeKey, ExpKey, OnlyUnder, IsPurged, OnTree, floats.Plain;
      var curr;
      curr, early := ZScore(floats, key, member);
      ghost var between := lsm.m;
      score := amount + if curr.Some? then curr.value else 0.0;
      var added;
      added, base, late := ZAdd(floats, key, map[member := score]);
      if early {
        PurgedOnce(old(lsm.m), between, base, key, late);
      }
    }

    method ZRange(floats: Floats, key: Bytes, start: int, stop: int)
      returns (sliced: seq<Scored>, ghost ranked: seq<Scored>, ghost expired: bool)
      modifies lsm
      ensures Settled(old(lsm.m), lsm.m, key, expired)
      ensures Ranks(ranked, if expired then map[] else Scores(floats, old(lsm.m), key))
      ensures forall i, j :: 0 <= i < j < |ranked| ==>
                ranked[i].score < ranked[j].score
                || (ranked[i].score == ranked[j].score && Less(ranked[i].member, ranked[j].member))
      ensures sliced == Between(ranked, Position(|ranked|, start), Position(|ranked|, stop))
    {
      hide Fields, ExpKey, ZSetPrefix, IsPurged, Scores, Ascends, Between, Before, Less;
      var due := IsExpired(key);
      expired := due;
      if due {
        ranked := [];
        EmptyAscends();
        BetweenIsSlice(ranked, Position(0, start), Position(0, stop));
        return [], ranked, expired;
      }
      var items := ZItems(floats, key);
      items := Sort(items);
      ranked := items;
      BetweenIsSlice(ranked, Position(|ranked|, start), Position(|ranked|, stop));
      if |items| == 0 {
        return [], ranked, expired;
      }
      var lo, hi := Clamp(|items|, start, stop);
      sliced := if lo <= hi then items[lo..hi + 1] else [];
    }

    method ZItems(floats: Floats, key: Bytes) returns (items: seq<Scored>)
      ensures forall x :: x in items <==> Lookup(Scores(floats, lsm.m, key), x.member) == Some(x.score)
      ensures forall i, j :: 0 <= i < j < |items| ==> items[i] != items[j]
    {
      hide Fields, ZSetPrefix, KeysAscend;
      var found := lsm.ScanPrefix(ZSetPrefix(key));
      items := [];
      for i := 0 to |found|
        invariant |items| == i
        invariant forall j :: 0 <= j < i ==>
                    items[j] == Scored(found[j].key[|ZSetPrefix(key)|..], floats.read(found[j].value))
      {
        items := items + [Scored(found[i].key[|ZSetPrefix(key)|..], floats.read(found[i].value))];
      }
      ItemsAreScores(floats, lsm.m, key, found, items);
    }

    method ZRank(floats: Floats, key: Bytes, member: Bytes) returns (rank: Option<nat>, ghost expired: bool)
      modifies lsm
      ensures Settled(old(lsm.m), lsm.m, key, expired)
      ensures var z := if expired then map[] else Scores(floats, old(lsm.m), key);
              rank == if member in z then Some(RankIn(z, member)) else None
    {
      hide Scores, Smaller, RankIn, Ascends, Settled, Between, Less;
      var items;
      ghost var ranked;
      items, ranked, expired := ZRange(floats, key, 0, -1);
      BetweenIsSlice(ranked, 0, |ranked| - 1);
      assert items == ranked;
      ghost var z := if expired then map[] else Scores(floats, old(lsm.m), key);
      for i := 0 to |items|
        invariant forall j :: 0 <= j < i ==> items[j].member != member
      {
        assert items[i] in items;
        if items[i].member == member {
          RankCounts(items, z, i);
          RankIsSmaller(z, member);
          return Some(i), expired;
        }
      }
      MembersAreListed(items, z, member);
      return None, expired;
    }
  }
}
