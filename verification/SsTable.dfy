// Writing and reading SSTable files: the two objects and what lookups and scans return.

module SsTable {
  import opened ByteStrings
  import opened Tables
  import opened Bloom
  import opened SsTableFormat

  // ---------- What a reader must answer ----------

  /** The answer of SSTableReader.get. An empty least key switches lookups off. */
  function Answer(t: Table, key: Bytes): Option<Bytes> {
    if t == [] || t[0].key == [] then None else Lookup(Content(t), key)
  }

  /** Lookups agree with the written entries for every key exactly when the first
      written key is not empty. */
  lemma LookupIsExact(t: Table)
    requires Ascending(t) && t != []
    ensures (forall key :: Answer(t, key) == Lookup(Content(t), key)) <==> t[0].key != []
  {
    ContentAt(t, 0);
    if t[0].key == [] {
      assert Answer(t, t[0].key) != Lookup(Content(t), t[0].key);
    }
  }

  // ---------- Positions in a finished image ----------

  lemma RecordAtOffset(t: Table, interval: nat, f: Filter, i: nat)
    requires interval > 0 && TableFits(t, interval, f) && i < |t|
    ensures ReadRecord(Image(t, interval, f), Offset(t, i)) == Some((t[i], Offset(t, i + 1)))
    ensures Offset(t, i) < Offset(t, i + 1) <= Offset(t, |t|)
  {
    hide Record, ReadRecord, IndexBlock, BloomBlock, FooterOf, Trailer;
    var file := Image(t, interval, f);
    Layout(t, interval, f);
    assert t[..|t|] == t;
    DataHoldsRecord(t, i, |t|);
    DataStep(t, i);
    OffsetsAscend(t, i, i + 1);
    OffsetsAscend(t, i + 1, |t|);
    AtInside(file, DataPart(t), Offset(t, i), Record(t[i]));
    assert EntryFits(t[i]);
    RecordReadsBack(file, Offset(t, i), t[i]);
  }

  lemma AtInside(file: Bytes, part: Bytes, pos: nat, x: Bytes)
    requires At(file, 0, part) && At(part, pos, x)
    ensures At(file, pos, x)
  {
    assert file[pos..pos + |x|] == file[0..|part|][pos..pos + |x|];
  }

  // ---------- bisect.bisect_right ----------

  method BisectRight(index: seq<IndexEntry>, key: Bytes) returns (lo: nat)
    requires IndexAscending(index)
    ensures lo <= |index|
    ensures forall j :: 0 <= j < lo ==> AtMost(index[j].key, key)
    ensures forall j :: lo <= j < |index| ==> Less(key, index[j].key)
  {
    hide Less;
    lo := 0;
    var hi := |index|;
    while lo < hi
      invariant lo <= hi <= |index|
      invariant forall j :: 0 <= j < lo ==> AtMost(index[j].key, key)
      invariant forall j :: hi <= j < |index| ==> Less(key, index[j].key)
    {
      var mid := (lo + hi) / 2;
      Trichotomy(key, index[mid].key);
      if Less(key, index[mid].key) {
        forall j | mid <= j < |index|
          ensures Less(key, index[j].key)
        {
          if mid < j {
            LessIsTransitive(key, index[mid].key, index[j].key);
          }
        }
        hi := mid;
      } else {
        forall j | 0 <= j < mid + 1
          ensures AtMost(index[j].key, key)
        {
          if j < mid {
            AtMostLess(index[j].key, index[mid].key, key);
          }
        }
        lo := mid + 1;
      }
    }
  }

  /** The index entry that the binary search picks names a record, and every record before
      it has a key below the searched one. */
  lemma StartOfSearch(t: Table, interval: nat, key: Bytes, lo: nat) returns (start: nat)
    requires interval > 0 && Ascending(t) && t != []
    requires lo <= |IndexOf(t, interval)|
    requires lo > 0 ==> AtMost(IndexOf(t, interval)[lo - 1].key, key)
    ensures IndexOf(t, interval) != []
    ensures start < |t|
    ensures IndexOf(t, interval)[if lo == 0 then 0 else lo - 1].offset == Offset(t, start)
    ensures forall j :: 0 <= j < start ==> Less(t[j].key, key)
  {
    hide Less, IndexOf, Offset;
    IndexIsNonEmpty(t, interval);
    start := IndexMark(t, interval, if lo == 0 then 0 else lo - 1);
    forall j | 0 <= j < start
      ensures Less(t[j].key, key)
    {
      AtMostLess(t[j].key, t[start].key, key);
    }
  }

  lemma KeyNotFound(t: Table, key: Bytes)
    requires forall j :: 0 <= j < |t| ==> t[j].key != key
    ensures Lookup(Content(t), key) == None
  {
    ContentKeys(t, key);
  }

  lemma KeyPassed(t: Table, key: Bytes, i: nat)
    requires Ascending(t) && i <= |t|
    requires forall j :: 0 <= j < i ==> t[j].key != key
    requires i < |t| ==> Less(key, t[i].key)
    ensures Lookup(Content(t), key) == None
  {
    hide Less;
    forall j | 0 <= j < |t|
      ensures t[j].key != key
    {
      if i <= j {
        AtMostLess(key, t[i].key, t[j].key);
        LessIsIrreflexive(key);
      }
    }
    KeyNotFound(t, key);
  }

  lemma OutsideBounds(t: Table, key: Bytes)
    requires Ascending(t) && t != []
    requires Less(key, t[0].key) || Less(t[|t| - 1].key, key)
    ensures Lookup(Content(t), key) == None
  {
    hide Less;
    if Less(key, t[0].key) {
      KeyPassed(t, key, 0);
    } else {
      forall j | 0 <= j < |t|
        ensures t[j].key != key
      {
        LessIsIrreflexive(key);
        AtMostLess(t[j].key, t[|t| - 1].key, key);
      }
      KeyNotFound(t, key);
    }
  }

  lemma NotInFilter(t: Table, f: Filter, key: Bytes)
    requires WellShaped(f.shape) && !Contains(f.shape, f.digest, FilterBits(t, f), key)
    ensures Lookup(Content(t), key) == None
  {
    hide Contains, AddAll;
    ContentKeys(t, key);
    if i :| 0 <= i < |t| && t[i].key == key {
      NoFalseNegatives(f.shape, f.digest, Keys(t), i);
    }
  }

  // ---------- Ranges ----------

  lemma {:induction false} NothingBelow(t: Table, start: Bytes, stop: Option<Bytes>, i: nat)
    requires i <= |t| && forall j :: 0 <= j < i ==> Less(t[j].key, start)
    ensures Range(t[..i], Some(start), stop) == []
    decreases i
  {
    if i > 0 {
      NothingBelow(t, start, stop, i - 1);
      assert t[..i][..i - 1] == t[..i - 1];
    }
  }

  lemma RangeNext(t: Table, start: Option<Bytes>, stop: Option<Bytes>, i: nat)
    requires i < |t|
    ensures Range(t[..i + 1], start, stop)
         == if Within(t[i].key, start, stop) then Range(t[..i], start, stop) + [t[i]] else Range(t[..i], start, stop)
  {
    assert t[..i + 1][..i] == t[..i];
  }

  lemma {:induction false} NothingAbove(t: Table, start: Option<Bytes>, stop: Bytes, i: nat, n: nat)
    requires Ascending(t) && i <= n <= |t|
    requires i < |t| ==> Less(stop, t[i].key)
    ensures Range(t[..n], start, Some(stop)) == Range(t[..i], start, Some(stop))
    decreases n
  {
    hide Less;
    if i < n {
      NothingAbove(t, start, stop, i, n - 1);
      RangeNext(t, start, Some(stop), n - 1);
      AtMostLess(stop, t[i].key, t[n - 1].key);
    }
  }

  // ---------- The reader ----------

  /** The loop over the index block, with a file cursor. */
  method LoadIndex(file: Bytes, offset: nat, count: nat) returns (index: Option<seq<IndexEntry>>)
    ensures index == ReadIndex(file, offset, count)
  {
    hide ReadIndexEntry;
    var pos := offset;
    var entries: seq<IndexEntry> := [];
    ghost var all := ReadIndex(file, offset, count);
    assert all != None ==> entries + all.value == all.value;
    for i := 0 to count
      invariant ReadIndex(file, offset, count)
             == var rest := ReadIndex(file, pos, count - i);
                if rest == None then None else Some(entries + rest.value)
    {
      var entry := ReadIndexEntry(file, pos);
      if entry == None {
        return None;
      }
      ghost var rest := ReadIndex(file, entry.value.1, count - i - 1);
      if rest != None {
        assert entries + ([entry.value.0] + rest.value) == (entries + [entry.value.0]) + rest.value;
      }
      entries := entries + [entry.value.0];
      pos := entry.value.1;
    }
    assert entries + [] == entries;
    return Some(entries);
  }

  /** _load_metadata: None is the exception of a file that is no SSTable. */
  method LoadMetadata(file: Bytes) returns (meta: Option<Metadata>)
    ensures meta == ReadMetadata(file)
  {
    hide ReadTrailer, ReadFooter, ReadIndex, FromBytes, Read, Unpack;
    var footerOffset := ReadTrailer(file);
    if footerOffset == None {
      return None;
    }
    var footer := ReadFooter(file, footerOffset.value);
    if footer == None {
      return None;
    }
    var f := footer.value;
    var count := Read(file, f.indexOffset, 4);
    if |count| < 4 {
      return None;
    }
    var index := LoadIndex(file, f.indexOffset + 4, Unpack(count));
    if index == None {
      return None;
    }
    var bloom := FromBytes(Read(file, f.bloomOffset, f.bloomSize));
    if bloom == None {
      return None;
    }
    return Some(Metadata(f.count, f.minKey, f.maxKey, f.indexOffset, index.value, bloom.value.0, bloom.value.1));
  }

  class SSTableReader {
    const file: Bytes
    const meta: Metadata
    const digest: Digest
    ghost const table: Table
    ghost const interval: nat

    ghost predicate Valid() {
      && interval > 0
      && TableFits(table, interval, Filter(meta.shape, digest))
      && Ascending(table)
      && file == Image(table, interval, Filter(meta.shape, digest))
      && meta == MetadataOf(table, interval, Filter(meta.shape, digest))
    }

    constructor (file: Bytes, meta: Metadata, digest: Digest, ghost table: Table, ghost interval: nat)
      requires interval > 0 && WellShaped(meta.shape)
      requires Ascending(table) && TableFits(table, interval, Filter(meta.shape, digest))
      requires file == Image(table, interval, Filter(meta.shape, digest))
      requires meta == MetadataOf(table, interval, Filter(meta.shape, digest))
      ensures Valid()
      ensures this.file == file && this.table == table && this.interval == interval
      ensures this.digest == digest && this.meta == meta
    {
      this.file := file;
      this.meta := meta;
      this.digest := digest;
      this.table := table;
      this.interval := interval;
    }

    /** Opens the file of a finished table. */
    static method Open(file: Bytes, ghost t: Table, ghost n: nat, f: Filter) returns (r: SSTableReader)
      requires n > 0 && Ascending(t) && TableFits(t, n, f) && file == Image(t, n, f)
      ensures fresh(r) && r.Valid()
      ensures r.file == file && r.table == t && r.interval == n && r.digest == f.digest && r.meta.shape == f.shape
    {
      hide Image, ReadMetadata, TableFits, Ascending;
      MetadataRoundTrip(t, n, f);
      var meta := LoadMetadata(file);
      r := new SSTableReader(file, meta.value, f.digest, t, n);
    }

    /** Where a search for the key starts: through the sparse index. */
    method Seek(key: Bytes) returns (offset: nat, ghost start: nat)
      requires Valid()
      ensures start < |table| && offset == Offset(table, start)
      ensures forall j :: 0 <= j < start ==> Less(table[j].key, key)
    {
      hide Image, Less, IndexOf, Offset;
      IndexIsAscending(table, interval);
      var lo := BisectRight(meta.index, key);
      start := StartOfSearch(table, interval, key, lo);
      offset := meta.index[if lo == 0 then 0 else lo - 1].offset;
    }

    method Get(key: Bytes) returns (r: Option<Bytes>)
      requires Valid()
      ensures r == Answer(table, key)
    {
      hide Image, Less, IndexOf, Offset, ReadRecord, Content, Contains, FilterBits;
      if meta.minKey == [] {
        return None;
      }
      if Less(key, meta.minKey) || Less(meta.maxKey, key) {
        OutsideBounds(table, key);
        return None;
      }
      var hit := Probe(meta.shape, digest, meta.bits, key);
      if !hit {
        NotInFilter(table, Filter(meta.shape, digest), key);
        return None;
      }
      IndexIsNonEmpty(table, interval);
      if meta.index == [] {
        return None;
      }
      r := ScanFor(key);
    }

    /** The forward scan of the data block. */
    method ScanFor(key: Bytes) returns (r: Option<Bytes>)
      requires Valid()
      ensures r == Lookup(Content(table), key)
    {
      hide Image, Less, IndexOf, Offset, ReadRecord, Content, FilterBits;
      var pos, i := Seek(key);
      BelowIsNot(table, key, i);
      while pos < meta.indexOffset
        invariant i <= |table| && pos == Offset(table, i)
        invariant forall j :: 0 <= j < i ==> table[j].key != key
        decreases |table| - i
      {
        OffsetsAscendStrictly(table, i);
        RecordAtOffset(table, interval, Filter(meta.shape, digest), i);
        var record := ReadRecord(file, pos);
        if record == None {
          break;
        }
        var (entry, next) := record.value;
        if entry.key == key {
          ContentAt(table, i);
          return Some(entry.value);
        } else if Less(key, entry.key) {
          KeyPassed(table, key, i);
          return None;
        }
        pos, i := next, i + 1;
      }
      OffsetsAscendStrictly(table, i);
      KeyPassed(table, key, i);
      return None;
    }

    /** Everything the generator yields; both ends of the range belong to it. */
    method Scan(start: Option<Bytes>, stop: Option<Bytes>) returns (r: Table)
      requires Valid()
      ensures r == Range(table, start, stop)
      ensures ListsBetween(r, Content(table), start, stop)
    {
      hide Image, Less, IndexOf, Offset, ReadRecord, FilterBits, Range, ListsBetween, Restrict, Content;
      RangeLists(table, start, stop);
      RestrictedIsBetween(Range(table, start, stop), Content(table), start, stop);
      assert table[..|table|] == table;
      if start.Some? && Less(meta.maxKey, start.value) {
        TableEndsBelow(table, start.value, stop);
        return [];
      }
      if stop.Some? && Less(stop.value, meta.minKey) {
        NothingAbove(table, start, stop.value, 0, |table|);
        EmptyRange(start, stop);
        assert table[..0] == [];
        return [];
      }
      var offset: nat;
      ghost var first: nat;
      if start.Some? && meta.index != [] {
        offset, first := Seek(start.value);
        NothingBelow(table, start.value, stop, first);
      } else {
        offset, first := DATA_START, 0;
        IndexIsNonEmpty(table, interval);
        FirstOffset(table);
        EmptyRange(start, stop);
      }
      r := ScanFrom(offset, first, start, stop);
    }

    method ScanFrom(offset: nat, ghost first: nat, start: Option<Bytes>, stop: Option<Bytes>) returns (r: Table)
      requires Valid()
      requires first < |table| && offset == Offset(table, first)
      requires Range(table[..first], start, stop) == []
      ensures r == Range(table, start, stop)
    {
      hide Image, Less, IndexOf, Offset, ReadRecord, FilterBits, Range;
      r := [];
      var pos := offset;
      ghost var i := first;
      assert table[..|table|] == table;
      for n := 0 to meta.entryCount
        invariant i <= |table| && i == first + n && pos == Offset(table, i)
        invariant r == Range(table[..i], start, stop)
      {
        OffsetsAscendStrictly(table, i);
        if pos >= meta.indexOffset {
          break;
        }
        RecordAtOffset(table, interval, Filter(meta.shape, digest), i);
        RangeNext(table, start, stop, i);
        var record := ReadRecord(file, pos);
        if record == None {
          break;
        }
        var (entry, next) := record.value;
        pos := next;
        if start.Some? && Less(entry.key, start.value) {
          i := i + 1;
          continue;
        }
        if stop.Some? && Less(stop.value, entry.key) {
          NothingAbove(table, start, stop.value, i, |table|);
          return r;
        }
        r := r + [entry];
        i := i + 1;
      }
    }

    method IterAll() returns (r: Table)
      requires Valid()
      ensures r == table
    {
      FullRange(table);
      r := Scan(None, None);
    }
  }

  lemma BelowIsNot(t: Table, key: Bytes, i: nat)
    requires i <= |t| && forall j :: 0 <= j < i ==> Less(t[j].key, key)
    ensures forall j :: 0 <= j < i ==> t[j].key != key
  {
    LessIsIrreflexive(key);
  }

  lemma TableEndsBelow(t: Table, start: Bytes, stop: Option<Bytes>)
    requires Ascending(t) && t != [] && Less(t[|t| - 1].key, start)
    ensures Range(t, Some(start), stop) == []
  {
    hide Less, Range;
    forall j | 0 <= j < |t|
      ensures Less(t[j].key, start)
    {
      AtMostLess(t[j].key, t[|t| - 1].key, start);
    }
    NothingBelow(t, start, stop, |t|);
    assert t[..|t|] == t;
  }

  lemma EmptyRange(start: Option<Bytes>, stop: Option<Bytes>)
    ensures Range([], start, stop) == []
  {
  }

  lemma FirstOffset(t: Table)
    ensures Offset(t, 0) == DATA_START
  {
  }

  /** The cursor is inside the data block exactly while records remain. */
  lemma OffsetsAscendStrictly(t: Table, i: nat)
    requires i <= |t|
    ensures Offset(t, i) < Offset(t, |t|) <==> i < |t|
  {
    hide Offset;
    OffsetsAscend(t, i, |t|);
  }

  // ---------- The writer ----------

  datatype Finished = NoFile | File(image: Bytes) | StructError

  class SSTableWriter {
    const interval: nat
    const filter: Filter
    const bloom: BloomFilter
    var file: Bytes
    var entryCount: nat
    var indexEntries: seq<IndexEntry>
    var minKey: Option<Bytes>
    var maxKey: Option<Bytes>
    var closed: bool
    ghost var written: Table

    ghost predicate Valid()
      reads this, bloom, bloom.bits
    {
      && interval > 0 && !closed
      && bloom.Valid() && bloom.shape == filter.shape && bloom.digest == filter.digest
      && file == DataPart(written)
      && entryCount == |written|
      && indexEntries == IndexOf(written, interval)
      && bloom.bits[..] == FilterBits(written, filter)
      && minKey == (if written == [] then None else Some(written[0].key))
      && maxKey == (if written == [] then None else Some(written[|written| - 1].key))
      && forall i :: 0 <= i < |written| ==> EntryFits(written[i])
    }

    constructor (filter: Filter, interval: nat)
      requires interval > 0 && WellShaped(filter.shape)
      ensures Valid() && written == []
      ensures this.filter == filter && this.interval == interval
      ensures fresh(bloom) && fresh(bloom.bits)
    {
      this.filter := filter;
      this.interval := interval;
      var b := new BloomFilter(filter.shape.capacity, filter.shape.errorRate, filter.shape.m, filter.shape.k,
          filter.digest);
      bloom := b;
      file := MAGIC + VERSION;
      entryCount := 0;
      indexEntries := [];
      minKey, maxKey, closed := None, None, false;
      written := [];
      new;
      assert Keys([]) == [];
      assert MAGIC + VERSION + [] == MAGIC + VERSION;
    }

    /** Appends one record; false is the ValueError of a long key or the struct.error of a long value. */
    method WriteEntry(key: Bytes, value: Bytes) returns (ok: bool)
      requires Valid()
      modifies this, bloom`count, bloom.bits
      ensures ok <==> EntryFits(Entry(key, value))
      ensures ok ==> Valid() && written == old(written) + [Entry(key, value)]
    {
      hide IndexOf, RecordHeader, AddAll, Data, AddFirst, Empty, Octets;
      Pow256Values();
      if |key| > 65535 {
        return false;
      }
      if minKey == None {
        minKey := Some(key);
      }
      maxKey := Some(key);
      var offset := |file|;
      if entryCount % interval == 0 {
        indexEntries := indexEntries + [IndexEntry(key, offset)];
      }
      bloom.Add(key);
      if !Fits(|value|, 4) {
        return false;
      }
      WrittenStep(written, Entry(key, value), interval, filter);
      var e := Entry(key, value);
      file := file + Record(e);
      entryCount := entryCount + 1;
      written := written + [e];
      return true;
    }

    /** Writes index, filter, footer and trailer; an empty table leaves no file. */
    method Finish() returns (r: Finished)
      requires Valid()
      modifies this`closed
      ensures closed
      ensures written == [] ==> r == NoFile
      ensures written != [] && TableFits(written, interval, filter) ==> r == File(Image(written, interval, filter))
      ensures written != [] && !TableFits(written, interval, filter) ==> r == StructError
    {
      hide IndexOf, DataPart, FilterBits, ToBytes, Footer, Trailer, Pack, IndexData, Fits, EntryFits;
      closed := true;
      if entryCount == 0 {
        return NoFile;
      }
      var indexOffset := |file|;
      var indexData := WriteIndex(indexEntries);
      var indexBlock := Pack(|indexEntries|, 4) + indexData;
      var bloomOffset := indexOffset + |indexBlock|;
      var bloomBytes := ToBytes(bloom.shape, bloom.bits[..]);
      var footerOffset := bloomOffset + |bloomBytes|;
      if !Fits(entryCount, 4) || !ShapeFits(bloom.shape) || !Fits(footerOffset, 8) {
        return StructError;
      }
      var footer := Footer(indexOffset, |indexBlock|, bloomOffset, |bloomBytes|, entryCount, minKey.value,
          maxKey.value);
      return File(file + (indexBlock + (bloomBytes + (footer + Trailer(footerOffset)))));
    }
  }

  method WriteIndex(index: seq<IndexEntry>) returns (buf: Bytes)
    ensures buf == IndexData(index)
  {
    hide IndexRecord;
    buf := [];
    assert index[0..] == index;
    for i := 0 to |index|
      invariant buf + IndexData(index[i..]) == IndexData(index)
    {
      assert index[i..][1..] == index[i + 1..];
      buf := buf + IndexRecord(index[i]);
    }
    assert index[|index|..] == [];
  }

  /** How each part of the image grows with one record. */
  lemma WrittenStep(t: Table, e: Entry, interval: nat, f: Filter)
    requires interval > 0 && WellShaped(f.shape)
    ensures DataPart(t + [e]) == DataPart(t) + Record(e)
    ensures IndexOf(t + [e], interval)
         == IndexOf(t, interval) + if |t| % interval == 0 then [IndexEntry(e.key, |DataPart(t)|)] else []
    ensures FilterBits(t + [e], f) == AddKey(f.shape, f.digest, FilterBits(t, f), e.key)
  {
    hide Record, AddKey;
    var u := t + [e];
    assert u[..|t|] == t;
    assert Keys(u)[..|t|] == Keys(t);
  }
}
