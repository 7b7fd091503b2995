// Sorted tables of key-value pairs and stacks of them, read as maps.

module Tables {
  import opened ByteStrings

  const TOMBSTONE: Bytes := "__ZENITH_TOMBSTONE__"

  datatype Entry = Entry(key: Bytes, value: Bytes)

  type Table = seq<Entry>

  predicate Ascending(t: Table) {
    forall i, j :: 0 <= i < j < |t| ==> Less(t[i].key, t[j].key)
  }

  /** The map a table stands for; a later entry wins. */
  function Content(t: Table): map<Bytes, Bytes> {
    if t == [] then map[] else Content(t[..|t| - 1])[t[|t| - 1].key := t[|t| - 1].value]
  }

  lemma {:induction false} ContentKeys(t: Table, k: Bytes)
    ensures k in Content(t) <==> exists i :: 0 <= i < |t| && t[i].key == k
  {
    if t != [] {
      var n := |t| - 1;
      ContentKeys(t[..n], k);
      if i :| 0 <= i < |t| && t[i].key == k {
        assert i < n ==> t[..n][i] == t[i];
      }
    }
  }

  lemma {:induction false} ContentAt(t: Table, i: nat)
    requires Ascending(t) && i < |t|
    ensures t[i].key in Content(t) && Content(t)[t[i].key] == t[i].value
  {
    var n := |t| - 1;
    if i < n {
      ContentAt(t[..n], i);
      LessIsIrreflexive(t[i].key);
    }
  }

  lemma AppendEntry(t: Table, e: Entry)
    requires Ascending(t) && (t == [] || Less(t[|t| - 1].key, e.key))
    ensures Ascending(t + [e])
    ensures Content(t + [e]) == Content(t)[e.key := e.value]
    ensures e.key !in Content(t)
  {
    hide Less;
    forall i | 0 <= i < |t|
      ensures Less(t[i].key, e.key)
    {
      if i < |t| - 1 {
        LessIsTransitive(t[i].key, t[|t| - 1].key, e.key);
      }
    }
    assert (t + [e])[..|t|] == t;
    ContentKeys(t, e.key);
    LessIsIrreflexive(e.key);
  }

  // ---------- Sorted listings of a map ----------

  predicate Lists(t: Table, m: map<Bytes, Bytes>) {
    Ascending(t) && Content(t) == m
  }

  /** A map has one sorted listing. */
  lemma {:induction false} ListingIsUnique(t: Table, u: Table)
    requires Ascending(t) && Ascending(u) && Content(t) == Content(u)
    ensures t == u
  {
    hide Less;
    if t == [] || u == [] {
      if t != [] {
        ContentAt(t, 0);
      }
      if u != [] {
        ContentAt(u, 0);
      }
    } else {
      var n, m := |t| - 1, |u| - 1;
      LastIsShared(t, u);
      WithoutLast(t);
      WithoutLast(u);
      ListingIsUnique(t[..n], u[..m]);
      assert t == t[..n] + [t[n]] && u == u[..m] + [u[m]];
    }
  }

  lemma LastIsShared(t: Table, u: Table)
    requires Ascending(t) && Ascending(u) && Content(t) == Content(u) && t != [] && u != []
    ensures t[|t| - 1] == u[|u| - 1]
  {
    hide Less, Content;
    LastIsGreatest(t, u);
    LastIsGreatest(u, t);
    Trichotomy(t[|t| - 1].key, u[|u| - 1].key);
    ContentAt(t, |t| - 1);
    ContentAt(u, |u| - 1);
  }

  lemma WithoutLast(t: Table)
    requires Ascending(t) && t != []
    ensures Ascending(t[..|t| - 1])
    ensures Content(t[..|t| - 1]) == Content(t) - {t[|t| - 1].key}
  {
    var n := |t| - 1;
    var k := t[n].key;
    ContentKeys(t[..n], k);
    LessIsIrreflexive(k);
    assert k !in Content(t[..n]);
    UpdateThenRemove(Content(t[..n]), k, t[n].value);
  }

  lemma UpdateThenRemove<K, V>(m: map<K, V>, k: K, v: V)
    requires k !in m
    ensures m[k := v] - {k} == m
  {
  }

  lemma LastIsGreatest(t: Table, u: Table)
    requires Ascending(t) && Ascending(u) && Content(t) == Content(u) && t != [] && u != []
    ensures AtMost(t[|t| - 1].key, u[|u| - 1].key)
  {
    hide Less;
    var k := t[|t| - 1].key;
    ContentAt(t, |t| - 1);
    ContentKeys(u, k);
    var i :| 0 <= i < |u| && u[i].key == k;
  }

  lemma {:induction false} ContentConcat(a: Table, b: Table)
    ensures Content(a + b) == Content(a) + Content(b)
  {
    if b == [] {
      assert a + b == a;
    } else {
      var n := |b| - 1;
      assert (a + b)[..|a| + n] == a + b[..n];
      ContentConcat(a, b[..n]);
      assert Content(a) + Content(b[..n])[b[n].key := b[n].value]
          == (Content(a) + Content(b[..n]))[b[n].key := b[n].value];
    }
  }

  lemma AscendingConcat(a: Table, b: Table)
    requires Ascending(a) && Ascending(b)
    requires a != [] && b != [] ==> Less(a[|a| - 1].key, b[0].key)
    ensures Ascending(a + b)
  {
    hide Less;
    forall i, j | 0 <= i < |a| && 0 <= j < |b|
      ensures Less(a[i].key, b[j].key)
    {
      var last := a[|a| - 1].key;
      AtMostLess(a[i].key, last, b[0].key);
      AtMostLess(a[i].key, b[0].key, b[j].key);
    }
  }

  lemma UpdateBelow<K, V>(a: map<K, V>, b: map<K, V>, k: K, v: V)
    requires k !in b
    ensures a[k := v] + b == (a + b)[k := v]
  {
  }

  lemma InsertBetween(a: Table, e: Entry, b: Table)
    requires Ascending(a) && Ascending(b) && e.key !in Content(a + b)
    requires a != [] ==> Less(a[|a| - 1].key, e.key)
    requires b != [] ==> Less(e.key, b[0].key)
    ensures Lists(a + [e] + b, Content(a + b)[e.key := e.value])
  {
    hide Less;
    AppendEntry(a, e);
    AscendingConcat(a + [e], b);
    ContentConcat(a + [e], b);
    ContentConcat(a, b);
    UpdateBelow(Content(a), Content(b), e.key, e.value);
  }

  /** Where a new key belongs in a sorted listing. */
  method InsertSorted(t: Table, e: Entry) returns (r: Table)
    requires Ascending(t) && e.key !in Content(t)
    ensures Lists(r, Content(t)[e.key := e.value])
  {
    hide Less;
    var i := |t|;
    while i > 0 && Less(e.key, t[i - 1].key)
      invariant 0 <= i <= |t|
      invariant i < |t| ==> Less(e.key, t[i].key)
    {
      i := i - 1;
    }
    if i > 0 {
      ContentKeys(t, e.key);
      LessIsTotal(e.key, t[i - 1].key);
    }
    var a, b := t[..i], t[i..];
    assert a + b == t;
    InsertBetween(a, e, b);
    r := a + [e] + b;
  }

  /** sorted(d.items(), key=...) */
  method SortedItems(m: map<Bytes, Bytes>) returns (t: Table)
    ensures Lists(t, m)
  {
    t := [];
    var keys := m.Keys;
    while keys != {}
      invariant keys <= m.Keys
      invariant Lists(t, m - keys)
      decreases keys
    {
      var k :| k in keys;
      t := InsertSorted(t, Entry(k, m[k]));
      keys := keys - {k};
      assert m - keys == (m - (keys + {k}))[k := m[k]];
    }
    assert m - {} == m;
  }

  /** The same map, key by key. */
  lemma SameLookups(a: map<Bytes, Bytes>, b: map<Bytes, Bytes>)
    requires forall k :: Lookup(a, k) == Lookup(b, k)
    ensures a == b
  {
    forall k
      ensures k in a <==> k in b
      ensures k in a ==> a[k] == b[k]
    {
      assert Lookup(a, k) == Lookup(b, k);
    }
  }

  // ---------- Ranges ----------

  /** None stands for an open end. */
  predicate Within(k: Bytes, start: Option<Bytes>, stop: Option<Bytes>) {
    (start.Some? ==> !Less(k, start.value)) && (stop.Some? ==> !Less(stop.value, k))
  }

  function Restrict(m: map<Bytes, Bytes>, start: Option<Bytes>, stop: Option<Bytes>): map<Bytes, Bytes> {
    map k | k in m && Within(k, start, stop) :: m[k]
  }

  /** The entries of a table whose keys lie in the range, in table order. */
  function Range(t: Table, start: Option<Bytes>, stop: Option<Bytes>): Table {
    if t == [] then []
    else
      var rest := Range(t[..|t| - 1], start, stop);
      if Within(t[|t| - 1].key, start, stop) then rest + [t[|t| - 1]] else rest
  }

  lemma LastStaysBelow(t: Table, rest: Table, e: Entry)
    requires Ascending(t + [e]) && rest != [] && Content(rest).Keys <= Content(t).Keys
    ensures Less(rest[|rest| - 1].key, e.key)
  {
    hide Less;
    var k := rest[|rest| - 1].key;
    ContentKeys(rest, k);
    ContentKeys(t, k);
    var j :| 0 <= j < |t| && t[j].key == k;
    assert (t + [e])[j] == t[j] && (t + [e])[|t|] == e;
  }

  lemma RestrictUpdate(m: map<Bytes, Bytes>, k: Bytes, v: Bytes, start: Option<Bytes>, stop: Option<Bytes>)
    requires k !in m
    ensures Restrict(m[k := v], start, stop)
         == if Within(k, start, stop) then Restrict(m, start, stop)[k := v] else Restrict(m, start, stop)
  {
  }

  lemma RangeStep(t: Table, e: Entry, rest: Table, start: Option<Bytes>, stop: Option<Bytes>)
    requires Ascending(t) && Ascending(t + [e]) && Content(t + [e]) == Content(t)[e.key := e.value]
    requires e.key !in Content(t) && Lists(rest, Restrict(Content(t), start, stop))
    ensures Lists(if Within(e.key, start, stop) then rest + [e] else rest, Restrict(Content(t + [e]), start, stop))
  {
    hide Less;
    if Within(e.key, start, stop) {
      if rest != [] {
        LastStaysBelow(t, rest, e);
      }
      AppendEntry(rest, e);
    }
    RestrictUpdate(Content(t), e.key, e.value, start, stop);
  }

  lemma {:induction false} RangeLists(t: Table, start: Option<Bytes>, stop: Option<Bytes>)
    requires Ascending(t)
    ensures Lists(Range(t, start, stop), Restrict(Content(t), start, stop))
  {
    hide Less;
    if t != [] {
      var n := |t| - 1;
      RangeLists(t[..n], start, stop);
      assert t == t[..n] + [t[n]];
      AppendEntry(t[..n], t[n]);
      RangeStep(t[..n], t[n], Range(t[..n], start, stop), start, stop);
    }
  }

  /** Both ends of a range belong to it, and None stands for an open end: r lists, in ascending
      order, exactly the pairs of m whose keys are at or above the start and at or below the stop. */
  ghost predicate ListsBetween(r: Table, m: map<Bytes, Bytes>, start: Option<Bytes>, stop: Option<Bytes>) {
    && (forall i, j :: 0 <= i < j < |r| ==> Less(r[i].key, r[j].key))
    && (forall i :: 0 <= i < |r| ==> Lookup(m, r[i].key) == Some(r[i].value))
    && (start.Some? ==> forall i :: 0 <= i < |r| ==> AtMost(start.value, r[i].key))
    && (stop.Some? ==> forall i :: 0 <= i < |r| ==> AtMost(r[i].key, stop.value))
    && (forall k :: k in m && (start.Some? ==> AtMost(start.value, k)) && (stop.Some? ==> AtMost(k, stop.value)) ==>
          exists i :: 0 <= i < |r| && r[i].key == k)
  }

  lemma RestrictedIsBetween(r: Table, m: map<Bytes, Bytes>, start: Option<Bytes>, stop: Option<Bytes>)
    requires Lists(r, Restrict(m, start, stop))
    ensures ListsBetween(r, m, start, stop)
  {
    hide Less, Content;
    forall k
      ensures Within(k, start, stop)
         <==> (start.Some? ==> AtMost(start.value, k)) && (stop.Some? ==> AtMost(k, stop.value))
    {
      if start.Some? {
        Trichotomy(k, start.value);
      }
      if stop.Some? {
        Trichotomy(stop.value, k);
      }
    }
    forall i | 0 <= i < |r|
      ensures Lookup(m, r[i].key) == Some(r[i].value) && Within(r[i].key, start, stop)
    {
      ContentAt(r, i);
    }
    forall k | k in m && Within(k, start, stop)
      ensures exists i :: 0 <= i < |r| && r[i].key == k
    {
      ContentKeys(r, k);
    }
  }

  lemma {:induction false} FullRange(t: Table)
    ensures Range(t, None, None) == t
  {
    if t != [] {
      FullRange(t[..|t| - 1]);
    }
  }

  // ---------- Stacks of tables, newest last ----------

  function StackContent(ts: seq<Table>): map<Bytes, Bytes> {
    if ts == [] then map[] else StackContent(ts[..|ts| - 1]) + Content(ts[|ts| - 1])
  }

  /** What a reader sees: tombstones hide their keys. */
  function Live(m: map<Bytes, Bytes>): map<Bytes, Bytes> {
    map k | k in m && m[k] != TOMBSTONE :: m[k]
  }

  /** A layer above covers the layer below, tombstones included. */
  lemma LiveOverlay(below: map<Bytes, Bytes>, below': map<Bytes, Bytes>, above: map<Bytes, Bytes>)
    requires Live(below) == Live(below')
    ensures Live(below + above) == Live(below' + above)
  {
    assert forall k :: k in Live(below) <==> k in below && below[k] != TOMBSTONE;
    assert forall k :: k in Live(below') <==> k in below' && below'[k] != TOMBSTONE;
    forall k
      ensures k in Live(below + above) <==> k in Live(below' + above)
      ensures k in Live(below + above) ==> Live(below + above)[k] == Live(below' + above)[k]
    {
      assert k !in above ==> (k in Live(below) <==> k in Live(below'));
      assert k in Live(below) ==> Live(below)[k] == Live(below')[k];
    }
  }

  lemma MergeIsAssociative<K, V>(a: map<K, V>, b: map<K, V>, c: map<K, V>)
    ensures (a + b) + c == a + (b + c)
  {
  }

  lemma {:induction false} StackSplit(a: seq<Table>, b: seq<Table>)
    ensures StackContent(a + b) == StackContent(a) + StackContent(b)
  {
    if b == [] {
      assert a + b == a;
    } else {
      var n := |b| - 1;
      assert (a + b)[..|a| + n] == a + b[..n];
      StackSplit(a, b[..n]);
      MergeIsAssociative(StackContent(a), StackContent(b[..n]), Content(b[n]));
    }
  }

  lemma StackOne(t: Table)
    ensures StackContent([t]) == Content(t)
  {
    assert [t][..0] == [];
    assert map[] + Content(t) == Content(t);
  }

  lemma LiveOverKept(gone: map<Bytes, Bytes>, kept: map<Bytes, Bytes>)
    ensures Live(kept + Live(gone + kept)) == Live(gone + kept)
  {
    forall k | k in kept + Live(gone + kept)
      ensures (kept + Live(gone + kept))[k] == (gone + kept)[k]
    {
    }
  }

  /** Interrupted compaction is safe: with the merged table published as newest and any
      number of the oldest tables already removed, every key reads as it did before. */
  lemma SurvivingSuffix(ts: seq<Table>, removed: nat, merged: Table)
    requires removed <= |ts| && Content(merged) == Live(StackContent(ts))
    ensures Live(StackContent(ts[removed..] + [merged])) == Live(StackContent(ts))
  {
    var all := StackContent(ts);
    var kept := StackContent(ts[removed..]);
    assert ts == ts[..removed] + ts[removed..];
    StackSplit(ts[..removed], ts[removed..]);
    StackSplit(ts[removed..], [merged]);
    StackOne(merged);
    LiveOverKept(StackContent(ts[..removed]), kept);
  }

  /** Removing newer tables first would resurrect a deleted key. */
  lemma NewestFirstRemovalIsUnsafe()
    ensures var older := [Entry("k", "v")];
            var newer := [Entry("k", TOMBSTONE)];
            && Live(StackContent([older, newer])) == map[]
            && Live(StackContent([older])) == map["k" := "v"]
  {
    var older := [Entry("k", "v")];
    var newer := [Entry("k", TOMBSTONE)];
    assert Content(older) == map["k" := "v"];
    assert Content(newer) == map["k" := TOMBSTONE];
    assert [older, newer] == [older] + [newer];
    StackSplit([older], [newer]);
    StackOne(older);
    StackOne(newer);
    assert map["k" := "v"] + map["k" := TOMBSTONE] == map["k" := TOMBSTONE];
  }
}
