// Hashes, sets and sorted sets as all cells under one prefix.
//
// The collection of a key is read off the store: what follows the prefix in the names of its
// cells. Two keys of one kind share cells exactly when one key with a colon begins the other one
// with a colon.

module KvFields {
  import opened ByteStrings
  import opened KvKeys
  import opened Store

  const HASH: Bytes := "hash"

  /** What follows the prefix in the keys that carry it. */
  function Names(m: map<Bytes, Bytes>, prefix: Bytes): set<Bytes> {
    set k | k in m && prefix <= k :: k[|prefix|..]
  }

  /** The collection under a prefix: each name with the value of its cell. */
  function Fields(m: map<Bytes, Bytes>, prefix: Bytes): map<Bytes, Bytes> {
    map f | f in Names(m, prefix) && prefix + f in m :: m[prefix + f]
  }

  lemma FieldsLookup(m: map<Bytes, Bytes>, prefix: Bytes, f: Bytes)
    ensures Lookup(Fields(m, prefix), f) == Lookup(m, prefix + f)
  {
    assert (prefix + f)[|prefix|..] == f;
  }

  lemma SameFields(a: map<Bytes, Bytes>, b: map<Bytes, Bytes>)
    requires forall f :: Lookup(a, f) == Lookup(b, f)
    ensures a == b
  {
    forall f
      ensures f in a <==> f in b
      ensures f in a ==> a[f] == b[f]
    {
      assert Lookup(a, f) == Lookup(b, f);
    }
  }

  lemma SamePrefix(prefix: Bytes, f: Bytes, g: Bytes)
    ensures prefix + f == prefix + g <==> f == g
  {
    SameTag(prefix, f, g);
  }

  lemma FieldsPut(m: map<Bytes, Bytes>, prefix: Bytes, f: Bytes, v: Bytes)
    ensures Fields(m[prefix + f := v], prefix) == Fields(m, prefix)[f := v]
  {
    hide Fields;
    var after, expected := Fields(m[prefix + f := v], prefix), Fields(m, prefix)[f := v];
    forall g
      ensures Lookup(after, g) == Lookup(expected, g)
    {
      FieldsLookup(m[prefix + f := v], prefix, g);
      FieldsLookup(m, prefix, g);
      SamePrefix(prefix, f, g);
    }
    SameFields(after, expected);
  }

  lemma FieldsDelete(m: map<Bytes, Bytes>, prefix: Bytes, f: Bytes)
    ensures Fields(m - {prefix + f}, prefix) == Fields(m, prefix) - {f}
  {
    hide Fields;
    var after, expected := Fields(m - {prefix + f}, prefix), Fields(m, prefix) - {f};
    forall g
      ensures Lookup(after, g) == Lookup(expected, g)
    {
      FieldsLookup(m - {prefix + f}, prefix, g);
      FieldsLookup(m, prefix, g);
      SamePrefix(prefix, f, g);
    }
    SameFields(after, expected);
  }

  lemma FieldsSlot(m: map<Bytes, Bytes>, prefix: Bytes, f: Bytes, slot: Option<Bytes>)
    ensures Fields(WithSlot(m, prefix + f, slot), prefix) == WithSlot(Fields(m, prefix), f, slot)
  {
    hide Fields;
    if slot.Some? {
      FieldsPut(m, prefix, f, slot.value);
    } else {
      FieldsDelete(m, prefix, f);
    }
  }

  lemma FieldsOfNothing(prefix: Bytes)
    ensures Fields(map[], prefix) == map[]
  {
  }

  /** A cell outside the prefix does not matter to the collection. */
  lemma FieldsIgnore(m: map<Bytes, Bytes>, prefix: Bytes, k: Bytes, v: Bytes)
    requires !(prefix <= k)
    ensures Fields(m[k := v], prefix) == Fields(m, prefix)
    ensures Fields(m - {k}, prefix) == Fields(m, prefix)
  {
    hide Fields;
    var before, put, gone := Fields(m, prefix), Fields(m[k := v], prefix), Fields(m - {k}, prefix);
    forall g
      ensures Lookup(put, g) == Lookup(before, g) == Lookup(gone, g)
    {
      FieldsLookup(m, prefix, g);
      FieldsLookup(m[k := v], prefix, g);
      FieldsLookup(m - {k}, prefix, g);
    }
    SameFields(put, before);
    SameFields(gone, before);
  }

  // ---------- When two keys share cells ----------

  /** Neither key followed by a colon begins the other one followed by a colon. */
  predicate Apart(a: Bytes, b: Bytes) {
    !(a + ":" <= b + ":") && !(b + ":" <= a + ":")
  }

  lemma SharedMeansNested(tag: Bytes, a: Bytes, f: Bytes, b: Bytes, g: Bytes)
    requires tag + a + ":" + f == tag + b + ":" + g
    ensures !Apart(a, b)
  {
    var x, y := a + ":", b + ":";
    var s := tag + a + ":" + f;
    assert s == tag + (x + f) && s == tag + (y + g);
    DropTag(tag, x + f, y + g);
    if |x| <= |y| {
      assert (y + g)[..|x|] == y[..|x|];
      assert (x + f)[..|x|] == x;
    } else {
      assert (x + f)[..|y|] == x[..|y|];
      assert (y + g)[..|y|] == y;
    }
  }

  lemma NestedMeansShared(tag: Bytes, a: Bytes, b: Bytes) returns (f: Bytes, g: Bytes)
    requires !Apart(a, b)
    ensures tag + a + ":" + f == tag + b + ":" + g
  {
    var x, y := a + ":", b + ":";
    if x <= y {
      f, g := y[|x|..], [];
      assert y == x + f;
      assert tag + a + ":" + f == tag + (x + f) && tag + b + ":" + g == tag + y;
    } else {
      f, g := [], x[|y|..];
      assert x == y + g;
      assert tag + a + ":" + f == tag + x && tag + b + ":" + g == tag + (y + g);
    }
  }

  /** Two keys' collections of the same kind are disjoint exactly when the keys are apart. */
  lemma SharedCells(tag: Bytes, a: Bytes, b: Bytes)
    ensures (exists f, g :: tag + a + ":" + f == tag + b + ":" + g) <==> !Apart(a, b)
  {
    if f, g :| tag + a + ":" + f == tag + b + ":" + g {
      SharedMeansNested(tag, a, f, b, g);
    }
    if !Apart(a, b) {
      var f, g := NestedMeansShared(tag, a, b);
    }
  }

  /** Keys without colons are always apart. */
  lemma NoColonApart(a: Bytes, b: Bytes)
    requires NoColon(a) && NoColon(b) && a != b
    ensures Apart(a, b)
  {
    NotNested(a, b);
    NotNested(b, a);
  }

  lemma NotNested(a: Bytes, b: Bytes)
    requires NoColon(a) && NoColon(b) && a != b
    ensures !(a + ":" <= b + ":")
  {
    if a + ":" <= b + ":" {
      var rest := (b + ":")[|a| + 1..];
      assert a + (":" + rest) == (a + ":") + rest == b + ":" == b + (":" + []);
      FirstColon(a, rest, b, []);
    }
  }

  /** Cells of apart keys carry different prefixes. */
  lemma ApartPrefix(tag: Bytes, a: Bytes, b: Bytes, f: Bytes)
    requires Apart(a, b)
    ensures !(tag + b + ":" <= tag + a + ":" + f)
  {
    var k := tag + a + ":" + f;
    if tag + b + ":" <= k {
      var g := k[|tag + b + ":"|..];
      assert k == tag + b + ":" + g;
      SharedMeansNested(tag, a, f, b, g);
    }
  }

  // ---------- The loop that collects a collection ----------

  lemma ListedFields(r: seq<Pair<Bytes>>, m: map<Bytes, Bytes>, prefix: Bytes, result: map<Bytes, Bytes>)
    requires ListsPrefix(r, m, prefix)
    requires forall f :: f in result <==> exists i :: 0 <= i < |r| && r[i].key[|prefix|..] == f
    requires forall i :: 0 <= i < |r| ==> r[i].key[|prefix|..] in result && result[r[i].key[|prefix|..]] == r[i].value
    ensures result == Fields(m, prefix)
  {
    hide Fields;
    forall f
      ensures Lookup(result, f) == Lookup(Fields(m, prefix), f)
    {
      FieldsLookup(m, prefix, f);
      if f in result {
        var i :| 0 <= i < |r| && r[i].key[|prefix|..] == f;
        assert r[i].key == prefix + f;
      }
      if prefix + f in m {
        assert HasKey(r, prefix + f);
        var i :| 0 <= i < |r| && r[i].key == prefix + f;
        assert r[i].key[|prefix|..] == f;
      }
    }
    SameFields(result, Fields(m, prefix));
  }
}
