// K-way merge compaction: a heap of one entry per table, newest table first on ties.

module Compaction {
  import opened ByteStrings
  import opened Tables
  import opened SsTableFormat
  import opened SsTable

  /** A heap tuple (key, -index, value, iterator); the iterator is known by its index. */
  datatype HeapItem = HeapItem(key: Bytes, index: nat, value: Bytes)

  /** Tuple order: smaller key first, then the newer table. */
  predicate Before(a: HeapItem, b: HeapItem) {
    Less(a.key, b.key) || (a.key == b.key && a.index > b.index)
  }

  /** heapq.heappop: removes a least item. */
  method HeapPop(heap: seq<HeapItem>) returns (least: HeapItem, rest: seq<HeapItem>, ghost at: nat)
    requires heap != []
    ensures at < |heap| && least == heap[at] && rest == Without(heap, at)
    ensures forall j :: 0 <= j < |heap| ==> !Before(heap[j], least)
  {
    hide Less;
    var m := 0;
    LessIsIrreflexive(heap[0].key);
    for i := 1 to |heap|
      invariant m < i <= |heap|
      invariant forall j :: 0 <= j < i ==> !Before(heap[j], heap[m])
    {
      LessIsIrreflexive(heap[i].key);
      if Before(heap[i], heap[m]) {
        forall j | 0 <= j < i
          ensures !Before(heap[j], heap[i])
        {
          NotBeforeSmaller(heap[j], heap[m], heap[i]);
        }
        m := i;
      }
    }
    return heap[m], heap[..m] + heap[m + 1..], m;
  }

  lemma NotBeforeSmaller(a: HeapItem, b: HeapItem, c: HeapItem)
    requires !Before(a, b) && Before(c, b)
    ensures !Before(a, c)
  {
    hide Less;
    if Before(a, c) {
      if Less(a.key, c.key) && Less(c.key, b.key) {
        LessIsTransitive(a.key, c.key, b.key);
      }
    }
  }

  // ---------- Cursors ----------

  predicate Cursors(tables: seq<Table>, pos: seq<nat>) {
    |pos| == |tables| && forall i :: 0 <= i < |tables| ==> pos[i] <= |tables[i]|
  }

  function ItemAt(tables: seq<Table>, pos: seq<nat>, i: nat): HeapItem
    requires Cursors(tables, pos) && i < |tables| && pos[i] < |tables[i]|
  {
    HeapItem(tables[i][pos[i]].key, i, tables[i][pos[i]].value)
  }

  /** The heap holds the current entry of every table that has one, and nothing else. */
  predicate HeapHolds(tables: seq<Table>, pos: seq<nat>, heap: seq<HeapItem>)
    requires Cursors(tables, pos)
  {
    && (forall h :: h in heap ==>
          h.index < |tables| && pos[h.index] < |tables[h.index]| && h == ItemAt(tables, pos, h.index))
    && (forall i :: 0 <= i < |tables| && pos[i] < |tables[i]| ==> ItemAt(tables, pos, i) in heap)
    && (forall a, b :: 0 <= a < b < |heap| ==> heap[a].index != heap[b].index)
  }

  /** Entries still to come. */
  function Remaining(tables: seq<Table>, pos: seq<nat>): nat
    requires Cursors(tables, pos)
  {
    if tables == [] then 0
    else
      var n := |tables| - 1;
      Remaining(tables[..n], pos[..n]) + (|tables[n]| - pos[n])
  }

  lemma {:induction false} AdvanceShrinks(tables: seq<Table>, pos: seq<nat>, i: nat)
    requires Cursors(tables, pos) && i < |tables| && pos[i] < |tables[i]|
    ensures Remaining(tables, pos[i := pos[i] + 1]) == Remaining(tables, pos) - 1
  {
    var n := |tables| - 1;
    var next := pos[i := pos[i] + 1];
    if i < n {
      AdvanceShrinks(tables[..n], pos[..n], i);
      assert next[..n] == pos[..n][i := pos[i] + 1];
    } else {
      assert next[..n] == pos[..n];
    }
  }

  predicate AllAscending(tables: seq<Table>) {
    forall i :: 0 <= i < |tables| ==> Ascending(tables[i])
  }

  function Without(heap: seq<HeapItem>, at: nat): seq<HeapItem>
    requires at < |heap|
  {
    heap[..at] + heap[at + 1..]
  }

  lemma WithoutKeepsOthers(heap: seq<HeapItem>, at: nat)
    requires at < |heap| && forall a, b :: 0 <= a < b < |heap| ==> heap[a].index != heap[b].index
    ensures forall h :: h in Without(heap, at) <==> h in heap && h.index != heap[at].index
    ensures forall a, b :: 0 <= a < b < |Without(heap, at)| ==>
              Without(heap, at)[a].index != Without(heap, at)[b].index
  {
    var rest := Without(heap, at);
    assert forall a :: 0 <= a < |rest| ==> rest[a] == heap[if a < at then a else a + 1];
    forall h | h in heap && h.index != heap[at].index
      ensures h in rest
    {
      var a :| 0 <= a < |heap| && heap[a] == h;
      assert rest[if a < at then a else a - 1] == h;
    }
  }

  /** After popping table i's item and pushing its next one. */
  lemma HeapAdvances(tables: seq<Table>, pos: seq<nat>, heap: seq<HeapItem>, at: nat)
    requires Cursors(tables, pos) && HeapHolds(tables, pos, heap) && at < |heap|
    ensures var i := heap[at].index;
            && heap[at] in heap && i < |tables| && pos[i] < |tables[i]|
            && var next, rest := pos[i := pos[i] + 1], Without(heap, at);
               && Cursors(tables, next)
               && HeapHolds(tables, next, if next[i] < |tables[i]| then rest + [ItemAt(tables, next, i)] else rest)
  {
    hide Without, HeapHolds;
    HeapUnpack(tables, pos, heap, at);
    WithoutKeepsOthers(heap, at);
    var i := heap[at].index;
    PushNext(tables, pos, heap, Without(heap, at), i);
  }

  lemma HeapUnpack(tables: seq<Table>, pos: seq<nat>, heap: seq<HeapItem>, at: nat)
    requires Cursors(tables, pos) && HeapHolds(tables, pos, heap) && at < |heap|
    ensures forall a, b :: 0 <= a < b < |heap| ==> heap[a].index != heap[b].index
    ensures heap[at] in heap && heap[at].index < |tables| && pos[heap[at].index] < |tables[heap[at].index]|
  {
    assert heap[at] in heap;
  }

  lemma PushNext(tables: seq<Table>, pos: seq<nat>, heap: seq<HeapItem>, rest: seq<HeapItem>, i: nat)
    requires Cursors(tables, pos) && HeapHolds(tables, pos, heap)
    requires i < |tables| && pos[i] < |tables[i]|
    requires forall h :: h in rest <==> h in heap && h.index != i
    requires forall a, b :: 0 <= a < b < |rest| ==> rest[a].index != rest[b].index
    ensures var next := pos[i := pos[i] + 1];
            Cursors(tables, next)
            && HeapHolds(tables, next, if next[i] < |tables[i]| then rest + [ItemAt(tables, next, i)] else rest)
  {
    var next := pos[i := pos[i] + 1];
    assert forall a :: 0 <= a < |rest| ==> rest[a] in rest;
    forall k | 0 <= k < |tables| && next[k] < |tables[k]| && k != i
      ensures ItemAt(tables, next, k) in rest
    {
      assert ItemAt(tables, pos, k) in heap;
    }
  }

  // ---------- What the popped item means ----------

  predicate AtMostLast(k: Bytes, last: Option<Bytes>) {
    last.Some? && AtMost(k, last.value)
  }

  /** Everything consumed is at or below the last key, everything left at or above it. */
  predicate SplitAt(tables: seq<Table>, pos: seq<nat>, last: Option<Bytes>)
    requires Cursors(tables, pos)
  {
    && (forall i, j :: 0 <= i < |tables| && 0 <= j < pos[i] ==> AtMostLast(tables[i][j].key, last))
    && (last.Some? ==> forall i, j :: 0 <= i < |tables| && pos[i] <= j < |tables[i]| ==>
           AtMost(last.value, tables[i][j].key))
  }

  /** The item is the least of all entries left, and no newer table has its key left. */
  lemma LeastOfAll(tables: seq<Table>, pos: seq<nat>, heap: seq<HeapItem>, least: HeapItem, i: nat, j: nat)
    requires Cursors(tables, pos) && AllAscending(tables) && HeapHolds(tables, pos, heap)
    requires forall a :: 0 <= a < |heap| ==> !Before(heap[a], least)
    requires i < |tables| && pos[i] <= j < |tables[i]|
    ensures AtMost(least.key, tables[i][j].key)
    ensures i > least.index ==> Less(least.key, tables[i][j].key)
  {
    hide Less;
    var item := ItemAt(tables, pos, i);
    var a :| 0 <= a < |heap| && heap[a] == item;
    assert !Before(heap[a], least);
    Trichotomy(item.key, least.key);
    if pos[i] < j {
      AtMostLess(least.key, item.key, tables[i][j].key);
    }
  }

  lemma {:induction false} StackLookup(tables: seq<Table>, k: Bytes)
    ensures k in StackContent(tables) <==> exists i :: 0 <= i < |tables| && k in Content(tables[i])
  {
    if tables != [] {
      var n := |tables| - 1;
      StackLookup(tables[..n], k);
      if i :| 0 <= i < |tables| && k in Content(tables[i]) {
        assert i < n ==> tables[..n][i] == tables[i];
      }
    }
  }

  /** The newest table that holds a key decides. */
  lemma {:induction false} NewestDecides(tables: seq<Table>, i: nat, k: Bytes)
    requires i < |tables| && k in Content(tables[i])
    requires forall x :: i < x < |tables| ==> k !in Content(tables[x])
    ensures k in StackContent(tables) && StackContent(tables)[k] == Content(tables[i])[k]
  {
    var n := |tables| - 1;
    if i < n {
      NewestDecides(tables[..n], i, k);
    }
  }

  // ---------- The output so far ----------

  /** The output holds exactly the live entries up to the last key. */
  ghost predicate MergedUpTo(tables: seq<Table>, written: Table, last: Option<Bytes>) {
    && Ascending(written)
    && (forall k :: k in Content(written) ==> AtMostLast(k, last))
    && (forall k :: AtMostLast(k, last) ==> Lookup(Content(written), k) == Lookup(Live(StackContent(tables)), k))
  }

  /** Where the popped key stands among all tables. */
  lemma PoppedKey(tables: seq<Table>, pos: seq<nat>, heap: seq<HeapItem>, last: Option<Bytes>, least: HeapItem)
    requires Cursors(tables, pos) && AllAscending(tables) && HeapHolds(tables, pos, heap)
    requires SplitAt(tables, pos, last) && least in heap
    requires forall a :: 0 <= a < |heap| ==> !Before(heap[a], least)
    requires last != Some(least.key)
    ensures last.Some? ==> Less(last.value, least.key)
    ensures Lookup(StackContent(tables), least.key) == Some(least.value)
    ensures forall k :: Less(k, least.key) && !AtMostLast(k, last) ==> k !in StackContent(tables)
  {
    hide Less, StackContent, HeapHolds;
    var n := least.index;
    ItemIsCurrent(tables, pos, heap, least);
    ContentAt(tables[n], pos[n]);
    forall x | n < x < |tables|
      ensures least.key !in Content(tables[x])
    {
      KeyLeftOrGone(tables, pos, last, least.key, x);
      if j :| pos[x] <= j < |tables[x]| && tables[x][j].key == least.key {
        LeastOfAll(tables, pos, heap, least, x, j);
        LessIsIrreflexive(least.key);
      }
    }
    NewestDecides(tables, n, least.key);
    forall k | Less(k, least.key) && !AtMostLast(k, last)
      ensures k !in StackContent(tables)
    {
      StackLookup(tables, k);
      if x :| 0 <= x < |tables| && k in Content(tables[x]) {
        ContentKeys(tables[x], k);
        var j :| 0 <= j < |tables[x]| && tables[x][j].key == k;
        if pos[x] <= j {
          LeastOfAll(tables, pos, heap, least, x, j);
          Trichotomy(k, least.key);
        }
      }
    }
  }

  lemma ItemIsCurrent(tables: seq<Table>, pos: seq<nat>, heap: seq<HeapItem>, item: HeapItem)
    requires Cursors(tables, pos) && HeapHolds(tables, pos, heap) && item in heap
    ensures item.index < |tables| && pos[item.index] < |tables[item.index]|
    ensures item == ItemAt(tables, pos, item.index)
  {
    var a :| 0 <= a < |heap| && heap[a] == item;
  }

  /** A key beyond the last one can only be among the entries left. */
  lemma KeyLeftOrGone(tables: seq<Table>, pos: seq<nat>, last: Option<Bytes>, k: Bytes, x: nat)
    requires Cursors(tables, pos) && SplitAt(tables, pos, last) && x < |tables|
    requires last.Some? ==> Less(last.value, k)
    ensures k in Content(tables[x]) ==> exists j :: pos[x] <= j < |tables[x]| && tables[x][j].key == k
  {
    hide Less;
    ContentKeys(tables[x], k);
    if k in Content(tables[x]) {
      var j :| 0 <= j < |tables[x]| && tables[x][j].key == k;
      assert !AtMostLast(k, last) by {
        if last.Some? {
          Trichotomy(last.value, k);
        }
      }
      assert j >= pos[x];
    }
  }

  /** The output after the popped key. */
  lemma MergedNext(tables: seq<Table>, written: Table, last: Option<Bytes>, k: Bytes, v: Bytes)
    requires MergedUpTo(tables, written, last)
    requires last.Some? ==> Less(last.value, k)
    requires Lookup(StackContent(tables), k) == Some(v)
    requires forall x :: Less(x, k) && !AtMostLast(x, last) ==> x !in StackContent(tables)
    ensures MergedUpTo(tables, if v != TOMBSTONE then written + [Entry(k, v)] else written, Some(k))
  {
    hide Less, StackContent;
    var next := if v != TOMBSTONE then written + [Entry(k, v)] else written;
    assert k !in Content(written) by {
      if last.Some? {
        Trichotomy(last.value, k);
      }
    }
    if v != TOMBSTONE {
      if written != [] {
        LastBelow(written, last, k);
      }
      AppendEntry(written, Entry(k, v));
    }
    forall x
      ensures x in Content(next) ==> AtMost(x, k)
      ensures AtMost(x, k) ==> Lookup(Content(next), x) == Lookup(Live(StackContent(tables)), x)
    {
      if last.Some? && AtMostLast(x, last) {
        AtMostLess(x, last.value, k);
        LessIsIrreflexive(k);
      }
    }
  }

  lemma LastBelow(written: Table, last: Option<Bytes>, k: Bytes)
    requires written != [] && Ascending(written)
    requires forall x :: x in Content(written) ==> AtMostLast(x, last)
    requires last.Some? ==> Less(last.value, k)
    ensures Less(written[|written| - 1].key, k)
  {
    hide Less;
    ContentAt(written, |written| - 1);
    AtMostLess(written[|written| - 1].key, last.value, k);
  }

  /** Consuming an entry at the last key keeps the split. */
  lemma SplitAdvances(tables: seq<Table>, pos: seq<nat>, heap: seq<HeapItem>, last: Option<Bytes>, least: HeapItem)
    requires Cursors(tables, pos) && AllAscending(tables) && HeapHolds(tables, pos, heap)
    requires SplitAt(tables, pos, last) && least in heap
    requires forall a :: 0 <= a < |heap| ==> !Before(heap[a], least)
    requires last.Some? ==> AtMost(last.value, least.key)
    ensures least.index < |tables|
    ensures var next := pos[least.index := pos[least.index] + 1];
            Cursors(tables, next) && SplitAt(tables, next, Some(least.key))
  {
    hide Less;
    ItemIsCurrent(tables, pos, heap, least);
    var next := pos[least.index := pos[least.index] + 1];
    forall i, j | 0 <= i < |tables| && 0 <= j < next[i]
      ensures AtMost(tables[i][j].key, least.key)
    {
      if j < pos[i] {
        assert AtMostLast(tables[i][j].key, last);
        AtMostLess(tables[i][j].key, last.value, least.key);
      }
    }
    forall i, j | 0 <= i < |tables| && next[i] <= j < |tables[i]|
      ensures AtMost(least.key, tables[i][j].key)
    {
      LeastOfAll(tables, pos, heap, least, i, j);
    }
  }

  lemma AllConsumed(tables: seq<Table>, pos: seq<nat>, heap: seq<HeapItem>)
    requires Cursors(tables, pos) && HeapHolds(tables, pos, heap) && heap == []
    ensures forall i :: 0 <= i < |tables| ==> pos[i] == |tables[i]|
  {
  }

  lemma ConsumedKeys(tables: seq<Table>, pos: seq<nat>, last: Option<Bytes>, k: Bytes)
    requires Cursors(tables, pos) && SplitAt(tables, pos, last)
    requires forall i :: 0 <= i < |tables| ==> pos[i] == |tables[i]|
    ensures k in StackContent(tables) ==> AtMostLast(k, last)
  {
    hide Less;
    StackLookup(tables, k);
    if x :| 0 <= x < |tables| && k in Content(tables[x]) {
      ContentKeys(tables[x], k);
      var j :| 0 <= j < |tables[x]| && tables[x][j].key == k;
    }
  }

  lemma NothingLeft(tables: seq<Table>, pos: seq<nat>, heap: seq<HeapItem>, last: Option<Bytes>, written: Table)
    requires Cursors(tables, pos) && HeapHolds(tables, pos, heap) && heap == []
    requires SplitAt(tables, pos, last) && MergedUpTo(tables, written, last)
    ensures Lists(written, Live(StackContent(tables)))
  {
    hide Less, StackContent, Content;
    AllConsumed(tables, pos, heap);
    forall k
      ensures Lookup(Content(written), k) == Lookup(Live(StackContent(tables)), k)
    {
      ConsumedKeys(tables, pos, last, k);
    }
    SameLookups(Content(written), Live(StackContent(tables)));
  }

  predicate AllEntriesFit(tables: seq<Table>) {
    forall i, j :: 0 <= i < |tables| && 0 <= j < |tables[i]| ==> EntryFits(tables[i][j])
  }

  lemma ItemFits(tables: seq<Table>, pos: seq<nat>, item: HeapItem)
    requires AllEntriesFit(tables) && Cursors(tables, pos)
    requires item.index < |tables| && pos[item.index] < |tables[item.index]| && item == ItemAt(tables, pos, item.index)
    ensures EntryFits(Entry(item.key, item.value))
  {
    assert EntryFits(tables[item.index][pos[item.index]]);
  }

  // ---------- The merge ----------

  /** One first entry from every table that has one. */
  method InitialHeap(tables: seq<Table>) returns (heap: seq<HeapItem>, pos: seq<nat>)
    ensures Cursors(tables, pos) && HeapHolds(tables, pos, heap)
    ensures pos == seq(|tables|, _ => 0)
  {
    pos := seq(|tables|, _ => 0);
    heap := [];
    for i := 0 to |tables|
      invariant forall h :: h in heap ==> h.index < i && |tables[h.index]| > 0 && h == ItemAt(tables, pos, h.index)
      invariant forall k :: 0 <= k < i && |tables[k]| > 0 ==> ItemAt(tables, pos, k) in heap
      invariant forall a, b :: 0 <= a < b < |heap| ==> heap[a].index != heap[b].index
    {
      if |tables[i]| > 0 {
        var item := HeapItem(tables[i][0].key, i, tables[i][0].value);
        assert forall a :: 0 <= a < |heap| ==> heap[a] in heap;
        heap := heap + [item];
      }
    }
  }

  /** Merges ascending tables, newest last, into the writer: the written entries list
      exactly the live content of the stack. */
  method MergeTables(tables: seq<Table>, writer: SSTableWriter)
    requires AllAscending(tables) && AllEntriesFit(tables)
    requires writer.Valid() && writer.written == []
    modifies writer, writer.bloom`count, writer.bloom.bits
    ensures writer.Valid() && Lists(writer.written, Live(StackContent(tables)))
  {
    hide Less, StackContent, Content, Ascending, Before, HeapHolds, SplitAt, MergedUpTo, Without, ItemAt, Live,
      Remaining, writer.Valid;
    var heap: seq<HeapItem>;
    var pos: seq<nat>;
    heap, pos := InitialHeap(tables);
    var last: Option<Bytes> := None;
    StartsMerged(tables, pos);
    while heap != []
      invariant Cursors(tables, pos) && HeapHolds(tables, pos, heap)
      invariant SplitAt(tables, pos, last)
      invariant writer.Valid() && MergedUpTo(tables, writer.written, last)
      decreases Remaining(tables, pos)
    {
      var least, rest, at := HeapPop(heap);
      assert least in heap;
      ItemIsCurrent(tables, pos, heap, least);
      ItemFits(tables, pos, least);
      HeapAdvances(tables, pos, heap, at);
      AdvanceShrinks(tables, pos, least.index);
      if last != Some(least.key) {
        PoppedKey(tables, pos, heap, last, least);
      }
      SplitAdvances(tables, pos, heap, last, least);
      pos := pos[least.index := pos[least.index] + 1];
      if pos[least.index] < |tables[least.index]| {
        heap := rest + [ItemAt(tables, pos, least.index)];
      } else {
        heap := rest;
      }
      if last == Some(least.key) {
        continue;
      }
      MergedNext(tables, writer.written, last, least.key, least.value);
      last := Some(least.key);
      if least.value != TOMBSTONE {
        assert EntryFits(Entry(least.key, least.value));
        var ok := writer.WriteEntry(least.key, least.value);
      }
    }
    NothingLeft(tables, pos, heap, last, writer.written);
  }

  lemma StartsMerged(tables: seq<Table>, pos: seq<nat>)
    requires pos == seq(|tables|, _ => 0)
    ensures Cursors(tables, pos) && SplitAt(tables, pos, None) && MergedUpTo(tables, [], None)
  {
  }
}
