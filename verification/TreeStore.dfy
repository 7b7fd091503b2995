// The LSM tree meets the contracts of the map that the engines
// are written against.

module TreeStore {
  import opened ByteStrings
  import opened Tables
  import opened LsmTree
  import opened Store

  function Pairs(t: Table): (r: seq<Pair<Bytes>>)
    ensures |r| == |t| && forall i :: 0 <= i < |t| ==> r[i] == Pair(t[i].key, t[i].value)
  {
    seq(|t|, i requires 0 <= i < |t| => Pair(t[i].key, t[i].value))
  }

  /** A sorted listing of a map's part at or above a key lists that part pair by pair. */
  lemma ListingIsScan(t: Table, m: map<Bytes, Bytes>, start: Bytes)
    requires Lists(t, Restrict(m, Some(start), None))
    ensures ListsFrom(Pairs(t), m, start)
  {
    hide Less, Content;
    var part := Restrict(m, Some(start), None);
    var r := Pairs(t);
    forall i | 0 <= i < |r|
      ensures AtMost(start, r[i].key) && Lookup(m, r[i].key) == Some(r[i].value)
    {
      ContentAt(t, i);
      Trichotomy(start, t[i].key);
      assert part[t[i].key] == t[i].value;
    }
    forall k | k in m && AtMost(start, k)
      ensures HasKey(r, k)
    {
      Trichotomy(start, k);
      assert k in part;
      ContentKeys(t, k);
      var i :| 0 <= i < |t| && t[i].key == k;
      assert r[i].key == k;
    }
  }

  /** No write ever used an empty key, and no flush has left a memtable aside. */
  ghost predicate Serves(tree: LSMTree)
    reads tree, tree.memtable, tree.immutable, tree.wal
  {
    tree.Valid() && Keyed(tree.state) && tree.immutable == null
  }

  predicate IsTombstone(value: Bytes) {
    value == TOMBSTONE
  }

  /** put is the write of the store: a plain map update for every value but the tombstone
      constant. A write that raises has happened unless its frame could not be logged. */
  method Put(tree: LSMTree, key: Bytes, value: Bytes) returns (ok: bool)
    requires Serves(tree) && key != []
    modifies tree, tree.memtable, tree.wal
    ensures tree.memtable == old(tree.memtable) || fresh(tree.memtable)
    ensures tree.Valid() && (ok ==> Serves(tree))
    ensures !Loggable(old(tree.wal.nextLsn), key, value) ==> !ok && tree.Contents() == old(tree.Contents())
    ensures Loggable(old(tree.wal.nextLsn), key, value) ==>
              && tree.Contents() == WithSlot(old(tree.Contents()), key, SlotFor(IsTombstone, value))
              && (tree.Contents() == old(tree.Contents())[key := value] <==> value != TOMBSTONE)
  {
    hide tree.Valid, tree.Contents, Keyed, Loggable;
    ok := tree.Put(key, value);
    UpdateIsNoRemoval(old(tree.Contents()), key, value);
  }

  lemma UpdateIsNoRemoval(m: map<Bytes, Bytes>, key: Bytes, value: Bytes)
    ensures m - {key} != m[key := value]
  {
    assert key in m[key := value] && key !in m - {key};
  }

  /** delete is the removal of the store. */
  method Delete(tree: LSMTree, key: Bytes) returns (ok: bool)
    requires Serves(tree) && key != []
    modifies tree, tree.memtable, tree.wal
    ensures tree.memtable == old(tree.memtable) || fresh(tree.memtable)
    ensures tree.Valid() && (ok ==> Serves(tree))
    ensures !Loggable(old(tree.wal.nextLsn), key, TOMBSTONE) ==> !ok && tree.Contents() == old(tree.Contents())
    ensures Loggable(old(tree.wal.nextLsn), key, TOMBSTONE) ==> tree.Contents() == old(tree.Contents()) - {key}
  {
    hide tree.Valid, tree.Contents, Keyed, Loggable;
    ok := tree.Delete(key);
  }

  method Get(tree: LSMTree, key: Bytes) returns (r: Option<Bytes>)
    requires Serves(tree)
    ensures r == Lookup(tree.Contents(), key)
  {
    hide tree.Contents, Keyed;
    tree.ValidIsReadable();
    hide tree.Valid, tree.Readable;
    r := tree.Get(key);
  }

  method Scan(tree: LSMTree, start: Bytes) returns (r: seq<Pair<Bytes>>)
    requires tree.Valid()
    ensures ListsFrom(r, tree.Contents(), start)
  {
    hide tree.Contents, ListsFrom, Lists;
    tree.ValidIsReadable();
    hide tree.Valid, tree.Readable;
    var t := tree.Scan(Some(start), None);
    ListingIsScan(t, tree.Contents(), start);
    r := Pairs(t);
  }

  /** The scan loop of the engines over the tree itself. */
  method ScanPrefix(tree: LSMTree, prefix: Bytes) returns (r: seq<Pair<Bytes>>)
    requires tree.Valid()
    ensures ListsPrefix(r, tree.Contents(), prefix)
  {
    hide tree.Contents, tree.Valid, ListsFrom, ListsPrefix;
    var all := Scan(tree, prefix);
    var n := 0;
    while n < |all| && prefix <= all[n].key
      invariant n <= |all|
      invariant forall i :: 0 <= i < n ==> prefix <= all[i].key
    {
      n := n + 1;
    }
    PrefixLoopIsComplete(all, tree.Contents(), prefix, n);
    r := all[..n];
  }
}
