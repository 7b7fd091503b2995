// The map the engines are written against: the operations of the LSM tree as proved in LsmTree.

module Store {
  import opened ByteStrings

  datatype Pair<V> = Pair(key: Bytes, value: V)

  predicate KeysAscend<V>(r: seq<Pair<V>>) {
    forall i, j :: 0 <= i < j < |r| ==> Less(r[i].key, r[j].key)
  }

  predicate HasKey<V>(r: seq<Pair<V>>, k: Bytes) {
    exists i :: 0 <= i < |r| && r[i].key == k
  }

  /** r lists, in ascending order, exactly the pairs of m whose keys are at or above start. */
  ghost predicate ListsFrom<V>(r: seq<Pair<V>>, m: map<Bytes, V>, start: Bytes) {
    && KeysAscend(r)
    && (forall i :: 0 <= i < |r| ==> AtMost(start, r[i].key) && Lookup(m, r[i].key) == Some(r[i].value))
    && (forall k :: k in m && AtMost(start, k) ==> HasKey(r, k))
  }

  /** r lists, in ascending order, exactly the pairs of m whose keys carry the prefix. */
  ghost predicate ListsPrefix<V>(r: seq<Pair<V>>, m: map<Bytes, V>, prefix: Bytes) {
    && KeysAscend(r)
    && (forall i :: 0 <= i < |r| ==> prefix <= r[i].key && Lookup(m, r[i].key) == Some(r[i].value))
    && (forall k :: k in m && prefix <= k ==> HasKey(r, k))
  }

  /** What a cell holds after a value is written: a value that is read as a tombstone deletes it. */
  function SlotFor<V>(dies: V -> bool, value: V): Option<V> {
    if dies(value) then None else Some(value)
  }

  /** The map with one cell set or deleted. */
  function WithSlot<V>(m: map<Bytes, V>, key: Bytes, slot: Option<V>): map<Bytes, V> {
    if slot.Some? then m[key := slot.value] else m - {key}
  }

  class KeyStore<V(==,!new)> {
    const dies: V -> bool
    var m: map<Bytes, V>

    constructor (dies: V -> bool)
      ensures m == map[] && this.dies == dies
    {
      this.dies := dies;
      m := map[];
    }

    /** No value that is ever written here is the tombstone constant. */
    ghost predicate KeepsAll() {
      forall v :: !dies(v)
    }

    method Put(key: Bytes, value: V)
      requires key != []
      modifies this
      ensures m == WithSlot(old(m), key, SlotFor(dies, value))
    {
      m := WithSlot(m, key, SlotFor(dies, value));
    }

    method Delete(key: Bytes)
      requires key != []
      modifies this
      ensures m == old(m) - {key}
    {
      m := m - {key};
    }

    method Get(key: Bytes) returns (r: Option<V>)
      ensures r == Lookup(m, key)
    {
      r := Lookup(m, key);
    }

    /** scan(start_key=start): the whole snapshot is taken before the first pair is yielded. */
    method Scan(start: Bytes) returns (r: seq<Pair<V>>)
      ensures ListsFrom(r, m, start)
    {
      hide Less;
      r := [];
      var keys := m.Keys;
      while keys != {}
        invariant keys <= m.Keys && KeysAscend(r)
        invariant forall x :: x in r ==>
                    AtMost(start, x.key) && Lookup(m, x.key) == Some(x.value) && x.key !in keys
        invariant forall k :: k in m && k !in keys && AtMost(start, k) ==> HasKey(r, k)
        decreases keys
      {
        var k :| k in keys;
        keys := keys - {k};
        Trichotomy(start, k);
        if !Less(k, start) {
          r := Insert(r, Pair(k, m[k]));
        }
      }
    }

    /** for k, v in scan(start_key=prefix): if not k.startswith(prefix): break */
    method ScanPrefix(prefix: Bytes) returns (r: seq<Pair<V>>)
      ensures ListsPrefix(r, m, prefix)
    {
      hide Less, KeysAscend;
      var all := Scan(prefix);
      var n := 0;
      while n < |all| && prefix <= all[n].key
        invariant n <= |all|
        invariant forall i :: 0 <= i < n ==> prefix <= all[i].key
      {
        n := n + 1;
      }
      PrefixLoopIsComplete(all, m, prefix, n);
      r := all[..n];
    }
  }

  lemma CutAscends<V>(r: seq<Pair<V>>, n: nat)
    requires KeysAscend(r) && n <= |r|
    ensures KeysAscend(r[..n])
  {
  }

  /** Keys with a common prefix are contiguous, so stopping at the first key without it
      misses none. */
  lemma PrefixLoopIsComplete<V>(all: seq<Pair<V>>, m: map<Bytes, V>, prefix: Bytes, n: nat)
    requires ListsFrom(all, m, prefix) && n <= |all|
    requires forall i :: 0 <= i < n ==> prefix <= all[i].key
    requires n < |all| ==> !(prefix <= all[n].key)
    ensures ListsPrefix(all[..n], m, prefix)
  {
    hide Less;
    CutAscends(all, n);
    forall k | k in m && prefix <= k
      ensures HasKey(all[..n], k)
    {
      PrefixComesFirst(prefix, k);
      assert HasKey(all, k);
      var i :| 0 <= i < |all| && all[i].key == k;
      if n <= i {
        PrefixIsContiguous(prefix, k, all[n].key);
        LessIsIrreflexive(k);
        if n < i {
          LessIsTransitive(k, all[n].key, k);
        }
        assert false;
      }
      assert all[..n][i].key == k;
    }
  }

  /** Under one prefix, different keys continue differently. */
  lemma NamesAreDistinct<V>(r: seq<Pair<V>>, prefix: Bytes, i: nat)
    requires KeysAscend(r) && i < |r| && forall j :: 0 <= j < |r| ==> prefix <= r[j].key
    ensures forall j :: 0 <= j < |r| && j != i ==> r[j].key[|prefix|..] != r[i].key[|prefix|..]
  {
    hide Less;
    forall j | 0 <= j < |r| && j != i
      ensures r[j].key[|prefix|..] != r[i].key[|prefix|..]
    {
      LessIsIrreflexive(r[i].key);
      assert r[j].key == prefix + r[j].key[|prefix|..] && r[i].key == prefix + r[i].key[|prefix|..];
    }
  }

  method Insert<V>(r: seq<Pair<V>>, p: Pair<V>) returns (s: seq<Pair<V>>)
    requires KeysAscend(r) && forall i :: 0 <= i < |r| ==> r[i].key != p.key
    ensures KeysAscend(s)
    ensures forall x :: x in s <==> x in r || x == p
    ensures forall k :: HasKey(r, k) || k == p.key ==> HasKey(s, k)
  {
    hide Less;
    var i := |r|;
    while i > 0 && Less(p.key, r[i - 1].key)
      invariant 0 <= i <= |r|
      invariant i < |r| ==> Less(p.key, r[i].key)
    {
      i := i - 1;
    }
    if i > 0 {
      LessIsTotal(p.key, r[i - 1].key);
    }
    InsertedAscends(r, i, p);
    s := r[..i] + [p] + r[i..];
    assert s[i] == p;
    assert forall j :: 0 <= j < |r| ==> r[j] == s[if j < i then j else j + 1];
  }

  lemma InsertedAscends<V>(r: seq<Pair<V>>, i: nat, p: Pair<V>)
    requires KeysAscend(r) && i <= |r|
    requires i > 0 ==> Less(r[i - 1].key, p.key)
    requires i < |r| ==> Less(p.key, r[i].key)
    ensures KeysAscend(r[..i] + [p] + r[i..])
  {
    hide Less;
    var s := r[..i] + [p] + r[i..];
    forall x, y | 0 <= x < y < |s|
      ensures Less(s[x].key, s[y].key)
    {
      if y == i {
        AtMostLess(r[x].key, r[i - 1].key, p.key);
      } else if x == i {
        AtMostLess(p.key, r[i].key, r[y - 1].key);
      }
    }
  }
}
