// The bytes of an SSTable file and what its reader recovers from them.

module SsTableFormat {
  import opened ByteStrings
  import opened Tables
  import opened Bloom

  /** The filter a table is written with. */
  datatype Filter = Filter(shape: Shape, digest: Digest)

  datatype IndexEntry = IndexEntry(key: Bytes, offset: nat)

  const MAGIC: Bytes := "ZSST"
  const VERSION: Bytes := [1 as char]
  const TRAILER_MAGIC: Bytes := "ZSSTFOOT"
  const DATA_START := 5

  // ---------- The image ----------

  function RecordHeader(e: Entry): (r: Bytes)
    ensures |r| == 6
  {
    Pack(|e.key|, 2) + Pack(|e.value|, 4)
  }

  function Record(e: Entry): Bytes {
    RecordHeader(e) + (e.key + e.value)
  }

  function Data(t: Table): Bytes {
    if t == [] then [] else Data(t[..|t| - 1]) + Record(t[|t| - 1])
  }

  /** Where record i starts; Offset(t, |t|) is the end of the data block. */
  function Offset(t: Table, i: nat): (r: nat)
    requires i <= |t|
    ensures r >= DATA_START
  {
    DATA_START + |Data(t[..i])|
  }

  /** One index entry for every interval-th record. */
  function IndexOf(t: Table, interval: nat): (r: seq<IndexEntry>)
    requires interval > 0
    ensures |r| <= |t|
  {
    if t == [] then []
    else
      var n := |t| - 1;
      IndexOf(t[..n], interval) + if n % interval == 0 then [IndexEntry(t[n].key, Offset(t, n))] else []
  }

  function IndexRecordHeader(x: IndexEntry): (r: Bytes)
    ensures |r| == 10
  {
    Pack(|x.key|, 2) + Pack(x.offset, 8)
  }

  function IndexRecord(x: IndexEntry): Bytes {
    IndexRecordHeader(x) + x.key
  }

  function IndexData(index: seq<IndexEntry>): Bytes {
    if index == [] then [] else IndexRecord(index[0]) + IndexData(index[1..])
  }

  function IndexBlock(index: seq<IndexEntry>): Bytes {
    Pack(|index|, 4) + IndexData(index)
  }

  function Keys(t: Table): (r: seq<Bytes>)
    ensures |r| == |t|
    ensures forall i :: 0 <= i < |t| ==> r[i] == t[i].key
  {
    seq(|t|, i requires 0 <= i < |t| => t[i].key)
  }

  function FilterBits(t: Table, f: Filter): (r: Bytes)
    requires WellShaped(f.shape)
    ensures Sized(f.shape, r)
  {
    AddAll(f.shape, f.digest, Keys(t))
  }

  function BloomBlock(t: Table, f: Filter): Bytes
    requires WellShaped(f.shape)
  {
    ToBytes(f.shape, FilterBits(t, f))
  }

  function Footer(indexOffset: nat, indexSize: nat, bloomOffset: nat, bloomSize: nat,
                  count: nat, minKey: Bytes, maxKey: Bytes): Bytes {
    FooterHeader(indexOffset, indexSize, bloomOffset, bloomSize, count, |minKey|)
    + (minKey + (Pack(|maxKey|, 2) + maxKey))
  }

  const FOOTER_HEADER_SIZE := 38

  function FooterHeader(indexOffset: nat, indexSize: nat, bloomOffset: nat, bloomSize: nat,
                        count: nat, minLength: nat): (r: Bytes)
    ensures |r| == FOOTER_HEADER_SIZE
  {
    Pack(indexOffset, 8) + (Pack(indexSize, 8) + (Pack(bloomOffset, 8) + (Pack(bloomSize, 8)
    + (Pack(count, 4) + Pack(minLength, 2)))))
  }

  function DataPart(t: Table): Bytes {
    MAGIC + VERSION + Data(t)
  }

  function FooterOf(t: Table, interval: nat, f: Filter): Bytes
    requires t != [] && interval > 0 && WellShaped(f.shape)
  {
    var indexSize := |IndexBlock(IndexOf(t, interval))|;
    Footer(|DataPart(t)|, indexSize, |DataPart(t)| + indexSize, |BloomBlock(t, f)|,
           |t|, t[0].key, t[|t| - 1].key)
  }

  function FooterOffset(t: Table, interval: nat, f: Filter): nat
    requires interval > 0 && WellShaped(f.shape)
  {
    |DataPart(t)| + |IndexBlock(IndexOf(t, interval))| + |BloomBlock(t, f)|
  }

  function Trailer(footerOffset: nat): Bytes {
    Pack(footerOffset, 8) + TRAILER_MAGIC
  }

  function Image(t: Table, interval: nat, f: Filter): Bytes
    requires t != [] && interval > 0 && WellShaped(f.shape)
  {
    DataPart(t) + (IndexBlock(IndexOf(t, interval)) + (BloomBlock(t, f)
    + (FooterOf(t, interval, f) + Trailer(FooterOffset(t, interval, f)))))
  }

  predicate EntryFits(e: Entry) {
    Fits(|e.key|, 2) && Fits(|e.value|, 4)
  }

  /** Everything the writer packs fits its field: otherwise struct.pack raises. */
  predicate TableFits(t: Table, interval: nat, f: Filter)
    requires interval > 0
  {
    && WellShaped(f.shape) && ShapeFits(f.shape)
    && t != []
    && Fits(|t|, 4)
    && (forall i :: 0 <= i < |t| ==> EntryFits(t[i]))
    && Fits(FooterOffset(t, interval, f), 8)
  }

  // ---------- Offsets ----------

  lemma DataStep(t: Table, i: nat)
    requires i < |t|
    ensures Offset(t, i + 1) == Offset(t, i) + |Record(t[i])|
    ensures Data(t[..i + 1]) == Data(t[..i]) + Record(t[i])
  {
    assert t[..i + 1][..i] == t[..i];
  }

  lemma {:induction false} OffsetsAscend(t: Table, i: nat, j: nat)
    requires i <= j <= |t|
    ensures Offset(t, i) + 6 * (j - i) <= Offset(t, j)
    decreases j
  {
    if i < j {
      OffsetsAscend(t, i, j - 1);
      DataStep(t, j - 1);
    }
  }

  /** Each record lies at its offset. */
  lemma {:induction false} DataHoldsRecord(t: Table, i: nat, n: nat)
    requires i < n <= |t|
    ensures At(DataPart(t[..n]), Offset(t, i), Record(t[i]))
    decreases n
  {
    hide Record;
    var d := DataPart(t[..n]);
    DataStep(t, n - 1);
    assert d == DataPart(t[..n - 1]) + Record(t[n - 1]);
    if i < n - 1 {
      DataHoldsRecord(t, i, n - 1);
      var pos := Offset(t, i);
      assert d[pos..pos + |Record(t[i])|] == DataPart(t[..n - 1])[pos..pos + |Record(t[i])|];
    }
  }

  // ---------- Reading records ----------

  /** The six-byte header, key and value at the cursor, and the cursor behind them;
      None when the header is cut off. */
  function ReadRecord(file: Bytes, pos: nat): Option<(Entry, nat)> {
    var header := Read(file, pos, 6);
    if |header| < 6 then None
    else
      var key := Read(file, pos + 6, Unpack(header[..2]));
      var value := Read(file, pos + 6 + |key|, Unpack(header[2..]));
      Some((Entry(key, value), pos + 6 + |key| + |value|))
  }

  lemma RecordReadsBack(file: Bytes, pos: nat, e: Entry)
    requires At(file, pos, Record(e)) && EntryFits(e)
    ensures ReadRecord(file, pos) == Some((e, pos + |Record(e)|))
  {
    hide At, Read, Unpack, RecordHeader;
    var header := RecordHeader(e);
    ReadPieces(file, pos, header, e.key + e.value);
    ReadPieces(file, pos + 6, e.key, e.value);
    RecordHeaderFields(e);
  }

  lemma RecordHeaderFields(e: Entry)
    requires EntryFits(e)
    ensures Unpack(RecordHeader(e)[..2]) == |e.key| && Unpack(RecordHeader(e)[2..]) == |e.value|
  {
    var klen, vlen := Pack(|e.key|, 2), Pack(|e.value|, 4);
    UnpackPack(|e.key|, 2);
    UnpackPack(|e.value|, 4);
    assert (klen + vlen)[..2] == klen && (klen + vlen)[2..] == vlen;
  }

  // ---------- Reading the metadata ----------

  datatype Metadata = Metadata(entryCount: nat, minKey: Bytes, maxKey: Bytes, indexOffset: nat,
                               index: seq<IndexEntry>, shape: Shape, bits: Bytes)

  /** One entry of the index block at the cursor; None is the struct.error of a short read. */
  function ReadIndexEntry(file: Bytes, pos: nat): Option<(IndexEntry, nat)> {
    var header := Read(file, pos, 10);
    if |header| < 10 then None
    else
      var key := Read(file, pos + 10, Unpack(header[..2]));
      Some((IndexEntry(key, Unpack(header[2..])), pos + 10 + |key|))
  }

  function ReadIndex(file: Bytes, pos: nat, count: nat): Option<seq<IndexEntry>>
    decreases count
  {
    if count == 0 then Some([])
    else
      var first := ReadIndexEntry(file, pos);
      if first == None then None
      else
        var rest := ReadIndex(file, first.value.1, count - 1);
        if rest == None then None else Some([first.value.0] + rest.value)
  }

  /** Footer fields: index offset, bloom offset and size, entry count, least key, greatest key. */
  datatype FooterFields = FooterFields(indexOffset: nat, bloomOffset: nat, bloomSize: nat,
                                       count: nat, minKey: Bytes, maxKey: Bytes)

  function ReadFooter(file: Bytes, pos: nat): Option<FooterFields> {
    var h := Read(file, pos, FOOTER_HEADER_SIZE);
    if |h| < FOOTER_HEADER_SIZE then None
    else
      var minKey := Read(file, pos + FOOTER_HEADER_SIZE, Unpack(h[36..38]));
      var p := pos + FOOTER_HEADER_SIZE + |minKey|;
      var maxLength := Read(file, p, 2);
      if |maxLength| < 2 then None
      else
        Some(FooterFields(Unpack(h[..8]), Unpack(h[16..24]), Unpack(h[24..32]), Unpack(h[32..36]),
                          minKey, Read(file, p + 2, Unpack(maxLength))))
  }

  /** Where the trailer says the footer is; None is the ValueError of a bad file. */
  function ReadTrailer(file: Bytes): Option<nat> {
    if |file| < 16 then None
    else
      var trailer := Read(file, |file| - 16, 16);
      if trailer[8..] != TRAILER_MAGIC then None else Some(Unpack(trailer[..8]))
  }

  /** _load_metadata on any file; None when it raises. */
  function ReadMetadata(file: Bytes): Option<Metadata> {
    var footerOffset := ReadTrailer(file);
    if footerOffset == None then None
    else
      var footer := ReadFooter(file, footerOffset.value);
      if footer == None then None
      else
        var FooterFields(indexOffset, bloomOffset, bloomSize, count, minKey, maxKey) := footer.value;
        var indexCount := Read(file, indexOffset, 4);
        if |indexCount| < 4 then None
        else
          var index := ReadIndex(file, indexOffset + 4, Unpack(indexCount));
          var bloom := FromBytes(Read(file, bloomOffset, bloomSize));
          if index == None || bloom == None then None
          else Some(Metadata(count, minKey, maxKey, indexOffset, index.value, bloom.value.0, bloom.value.1))
  }

  /** A file opens only if it ends in the trailer's magic and the trailer points to a footer that is
      whole up to the greatest key, which in turn points to an index block with its count. */
  lemma OpenedIsWhole(file: Bytes)
    requires ReadMetadata(file).Some?
    ensures |file| >= 16 && file[|file| - 8..] == "ZSSTFOOT"
    ensures var footer := Unpack(file[|file| - 16..|file| - 8]);
            && footer + 38 <= |file|
            && footer + 40 + Unpack(file[footer + 36..footer + 38]) <= |file|
            && ReadMetadata(file).value.indexOffset == Unpack(file[footer..footer + 8])
            && ReadMetadata(file).value.indexOffset + 4 <= |file|
  {
    hide Unpack, ReadIndex, FromBytes;
    var n := |file|;
    var trailer := Read(file, n - 16, 16);
    assert trailer[8..] == file[n - 8..] && trailer[..8] == file[n - 16..n - 8];
    var footer := Unpack(trailer[..8]);
    var h := Read(file, footer, 38);
    assert h[36..38] == file[footer + 36..footer + 38] && h[..8] == file[footer..footer + 8];
  }

  function MetadataOf(t: Table, interval: nat, f: Filter): Metadata
    requires t != [] && interval > 0 && WellShaped(f.shape)
  {
    Metadata(|t|, t[0].key, t[|t| - 1].key, Offset(t, |t|), IndexOf(t, interval), f.shape, FilterBits(t, f))
  }

  predicate IndexEntryFits(x: IndexEntry) {
    Fits(|x.key|, 2) && Fits(x.offset, 8)
  }

  lemma {:induction false} IndexReadsBack(file: Bytes, pos: nat, index: seq<IndexEntry>)
    requires At(file, pos, IndexData(index))
    requires forall i :: 0 <= i < |index| ==> IndexEntryFits(index[i])
    ensures ReadIndex(file, pos, |index|) == Some(index)
    decreases |index|
  {
    hide At, IndexRecord, IndexEntryFits, ReadIndexEntry;
    if index != [] {
      var x, rest := index[0], index[1..];
      ReadPieces(file, pos, IndexRecord(x), IndexData(rest));
      IndexEntryReadsBack(file, pos, x);
      IndexReadsBack(file, pos + |IndexRecord(x)|, rest);
      assert [x] + rest == index;
    }
  }

  lemma IndexEntryReadsBack(file: Bytes, pos: nat, x: IndexEntry)
    requires At(file, pos, IndexRecord(x)) && IndexEntryFits(x)
    ensures ReadIndexEntry(file, pos) == Some((x, pos + |IndexRecord(x)|))
  {
    hide At, Read, Unpack, IndexRecordHeader;
    ReadPieces(file, pos, IndexRecordHeader(x), x.key);
    IndexHeaderFields(x);
  }

  lemma IndexHeaderFields(x: IndexEntry)
    requires IndexEntryFits(x)
    ensures Unpack(IndexRecordHeader(x)[..2]) == |x.key| && Unpack(IndexRecordHeader(x)[2..]) == x.offset
  {
    var klen, off := Pack(|x.key|, 2), Pack(x.offset, 8);
    UnpackPack(|x.key|, 2);
    UnpackPack(x.offset, 8);
    assert (klen + off)[..2] == klen && (klen + off)[2..] == off;
  }

  lemma FooterReadsBack(file: Bytes, pos: nat, a: nat, b: nat, c: nat, d: nat, n: nat, lo: Bytes, hi: Bytes)
    requires At(file, pos, Footer(a, b, c, d, n, lo, hi))
    requires Fits(a, 8) && Fits(c, 8) && Fits(d, 8) && Fits(n, 4) && Fits(|lo|, 2) && Fits(|hi|, 2)
    ensures ReadFooter(file, pos) == Some(FooterFields(a, c, d, n, lo, hi))
  {
    hide FooterHeader, At, Read, Pack, Unpack, Fits;
    var h := FooterHeader(a, b, c, d, n, |lo|);
    var len := Pack(|hi|, 2);
    FooterPieces(file, pos, h, lo, len, hi);
    FooterFieldsReadBack(a, b, c, d, n, |lo|);
    UnpackPack(|hi|, 2);
  }

  lemma FooterPieces(file: Bytes, pos: nat, h: Bytes, lo: Bytes, len: Bytes, hi: Bytes)
    requires At(file, pos, h + (lo + (len + hi)))
    ensures Read(file, pos, |h|) == h
    ensures Read(file, pos + |h|, |lo|) == lo
    ensures Read(file, pos + |h| + |lo|, |len|) == len
    ensures Read(file, pos + |h| + |lo| + |len|, |hi|) == hi
  {
    ReadPieces(file, pos, h, lo + (len + hi));
    ReadPieces(file, pos + |h|, lo, len + hi);
    ReadPieces(file, pos + |h| + |lo|, len, hi);
  }

  /** A slice behind the first piece is a slice of the rest. */
  lemma Behind(x: Bytes, rest: Bytes, i: nat, j: nat)
    requires i <= j <= |rest|
    ensures (x + rest)[|x| + i..|x| + j] == rest[i..j]
  {
  }

  lemma Ahead(x: Bytes, rest: Bytes)
    ensures (x + rest)[..|x|] == x == (x + rest)[0..|x|]
  {
  }

  /** What lies behind three pieces of eight bytes. */
  lemma BehindThree(p1: Bytes, p2: Bytes, p3: Bytes, rest: Bytes, i: nat, j: nat)
    requires |p1| == |p2| == |p3| == 8 && i <= j <= |rest|
    ensures (p1 + (p2 + (p3 + rest)))[24 + i..24 + j] == rest[i..j]
    ensures (p1 + (p2 + (p3 + rest)))[16..24] == p3 && (p1 + (p2 + (p3 + rest)))[..8] == p1
  {
    var t3 := p3 + rest;
    var t2 := p2 + t3;
    Ahead(p1, t2);
    Behind(p1, t2, 16 + i, 16 + j);
    Behind(p2, t3, 8 + i, 8 + j);
    Behind(p3, rest, i, j);
    Behind(p1, t2, 8, 16);
    Behind(p2, t3, 0, 8);
    Ahead(p3, rest);
  }

  /** The slices of the footer header are the packed fields. */
  lemma FooterSlices(a: nat, b: nat, c: nat, d: nat, n: nat, l: nat)
    ensures var h := FooterHeader(a, b, c, d, n, l);
            && h[..8] == Pack(a, 8) && h[16..24] == Pack(c, 8) && h[24..32] == Pack(d, 8)
            && h[32..36] == Pack(n, 4) && h[36..38] == Pack(l, 2)
  {
    hide Pack;
    var p4, p5, p6 := Pack(d, 8), Pack(n, 4), Pack(l, 2);
    var t5 := p5 + p6;
    var t4 := p4 + t5;
    BehindThree(Pack(a, 8), Pack(b, 8), Pack(c, 8), t4, 0, 8);
    BehindThree(Pack(a, 8), Pack(b, 8), Pack(c, 8), t4, 8, 12);
    BehindThree(Pack(a, 8), Pack(b, 8), Pack(c, 8), t4, 12, 14);
    Ahead(p4, t5);
    Behind(p4, t5, 0, 4);
    Behind(p4, t5, 4, 6);
    Ahead(p5, p6);
    Behind(p5, p6, 0, 2);
  }

  lemma FooterFieldsReadBack(a: nat, b: nat, c: nat, d: nat, n: nat, l: nat)
    requires Fits(a, 8) && Fits(c, 8) && Fits(d, 8) && Fits(n, 4) && Fits(l, 2)
    ensures var h := FooterHeader(a, b, c, d, n, l);
            && Unpack(h[..8]) == a && Unpack(h[16..24]) == c && Unpack(h[24..32]) == d
            && Unpack(h[32..36]) == n && Unpack(h[36..38]) == l
  {
    hide Pack, Unpack, FooterHeader, Fits;
    FooterSlices(a, b, c, d, n, l);
    UnpackPack(a, 8);
    UnpackPack(c, 8);
    UnpackPack(d, 8);
    UnpackPack(n, 4);
    UnpackPack(l, 2);
  }

  lemma TrailerReadsBack(file: Bytes, pos: nat, footerOffset: nat)
    requires At(file, pos, Trailer(footerOffset)) && |file| == pos + 16 && Fits(footerOffset, 8)
    ensures ReadTrailer(file) == Some(footerOffset)
  {
    UnpackPack(footerOffset, 8);
    assert Trailer(footerOffset)[..8] == Pack(footerOffset, 8);
  }

  lemma FitsBelow(n: nat, m: nat, w: nat)
    requires n <= m && Fits(m, w)
    ensures Fits(n, w)
  {
  }

  lemma FiveParts(a: Bytes, i: Bytes, b: Bytes, o: Bytes, r: Bytes)
    ensures var file := a + (i + (b + (o + r)));
            && At(file, 0, a)
            && At(file, |a|, i)
            && At(file, |a| + |i|, b)
            && At(file, |a| + |i| + |b|, o)
            && At(file, |file| - |r|, r)
  {
    var file := a + (i + (b + (o + r)));
    assert At(file, 0, file);
    AtSplit(file, 0, a, i + (b + (o + r)));
    AtSplit(file, |a|, i, b + (o + r));
    AtSplit(file, |a| + |i|, b, o + r);
    AtSplit(file, |a| + |i| + |b|, o, r);
  }

  /** Where the five parts of an image lie. */
  lemma Layout(t: Table, interval: nat, f: Filter)
    requires t != [] && interval > 0 && WellShaped(f.shape)
    ensures var file := Image(t, interval, f);
            var a, b := |DataPart(t)|, |IndexBlock(IndexOf(t, interval))|;
            && |file| >= 16
            && At(file, 0, DataPart(t))
            && At(file, a, IndexBlock(IndexOf(t, interval)))
            && At(file, a + b, BloomBlock(t, f))
            && At(file, FooterOffset(t, interval, f), FooterOf(t, interval, f))
            && At(file, |file| - 16, Trailer(FooterOffset(t, interval, f)))
  {
    hide At, DataPart, IndexBlock, BloomBlock, FooterOf;
    FiveParts(DataPart(t), IndexBlock(IndexOf(t, interval)), BloomBlock(t, f),
              FooterOf(t, interval, f), Trailer(FooterOffset(t, interval, f)));
  }

  lemma FooterOfImage(t: Table, interval: nat, f: Filter)
    requires interval > 0 && TableFits(t, interval, f)
    ensures ReadTrailer(Image(t, interval, f)) == Some(FooterOffset(t, interval, f))
    ensures var a, b := |DataPart(t)|, |IndexBlock(IndexOf(t, interval))|;
            ReadFooter(Image(t, interval, f), FooterOffset(t, interval, f))
            == Some(FooterFields(a, a + b, |BloomBlock(t, f)|, |t|, t[0].key, t[|t| - 1].key))
  {
    hide At, Image, Footer, Trailer, DataPart, IndexBlock, IndexOf, BloomBlock, Fits;
    var file := Image(t, interval, f);
    Layout(t, interval, f);
    var a, b, c := |DataPart(t)|, |IndexBlock(IndexOf(t, interval))|, |BloomBlock(t, f)|;
    var o := FooterOffset(t, interval, f);
    FitsBelow(a, o, 8);
    FitsBelow(a + b, o, 8);
    FitsBelow(c, o, 8);
    TrailerReadsBack(file, |file| - 16, o);
    assert EntryFits(t[0]) && EntryFits(t[|t| - 1]);
    FooterReadsBack(file, o, a, b, a + b, c, |t|, t[0].key, t[|t| - 1].key);
  }

  lemma IndexOfImage(t: Table, interval: nat, f: Filter)
    requires interval > 0 && TableFits(t, interval, f)
    ensures var file, a, index := Image(t, interval, f), |DataPart(t)|, IndexOf(t, interval);
            && Read(file, a, 4) == Pack(|index|, 4)
            && Unpack(Pack(|index|, 4)) == |index|
            && ReadIndex(file, a + 4, |index|) == Some(index)
  {
    hide At, Image, DataPart, IndexData, IndexOf, Fits, Pack, Unpack;
    var file, a, index := Image(t, interval, f), |DataPart(t)|, IndexOf(t, interval);
    Layout(t, interval, f);
    ReadPieces(file, a, Pack(|index|, 4), IndexData(index));
    FitsBelow(|index|, |t|, 4);
    UnpackPack(|index|, 4);
    IndexFieldsFit(t, interval, f);
    IndexReadsBack(file, a + 4, index);
  }

  lemma BloomOfImage(t: Table, interval: nat, f: Filter)
    requires interval > 0 && TableFits(t, interval, f)
    ensures var pos := |DataPart(t)| + |IndexBlock(IndexOf(t, interval))|;
            FromBytes(Read(Image(t, interval, f), pos, |BloomBlock(t, f)|)) == Some((f.shape, FilterBits(t, f)))
  {
    hide Image, DataPart, IndexBlock, IndexOf, FromBytes, FilterBits;
    Layout(t, interval, f);
    ImageRoundTrip(f.shape, FilterBits(t, f));
  }

  /** Reading a finished image back recovers every field the writer put in. */
  lemma MetadataRoundTrip(t: Table, interval: nat, f: Filter)
    requires interval > 0 && TableFits(t, interval, f)
    ensures ReadMetadata(Image(t, interval, f)) == Some(MetadataOf(t, interval, f))
  {
    hide Image, ReadTrailer, ReadFooter, ReadIndex, FromBytes, IndexBlock, BloomBlock, FooterOffset, FilterBits,
      IndexOf, Read, Unpack, Pack;
    FooterOfImage(t, interval, f);
    IndexOfImage(t, interval, f);
    BloomOfImage(t, interval, f);
    assert t[..|t|] == t;
  }

  lemma IndexFieldsFit(t: Table, interval: nat, f: Filter)
    requires interval > 0 && TableFits(t, interval, f)
    ensures forall j :: 0 <= j < |IndexOf(t, interval)| ==>
              IndexEntryFits(IndexOf(t, interval)[j])
  {
    forall j | 0 <= j < |IndexOf(t, interval)|
      ensures IndexEntryFits(IndexOf(t, interval)[j])
    {
      var i := IndexMark(t, interval, j);
      assert EntryFits(t[i]);
      OffsetsAscend(t, i, |t|);
      assert t[..|t|] == t;
      FitsBelow(Offset(t, i), FooterOffset(t, interval, f), 8);
    }
  }

  /** Every index entry names a record and its offset; the first names the first record. */
  lemma {:induction false} IndexMark(t: Table, interval: nat, j: nat) returns (i: nat)
    requires interval > 0 && j < |IndexOf(t, interval)|
    ensures i < |t| && IndexOf(t, interval)[j] == IndexEntry(t[i].key, Offset(t, i))
    ensures j == 0 ==> i == 0
  {
    var n := |t| - 1;
    if j < |IndexOf(t[..n], interval)| {
      i := IndexMark(t[..n], interval, j);
      assert t[..n][..i] == t[..i];
    } else {
      i := n;
      if j == 0 && n > 0 {
        IndexIsNonEmpty(t[..n], interval);
      }
    }
  }

  lemma {:induction false} IndexIsNonEmpty(t: Table, interval: nat)
    requires interval > 0 && t != []
    ensures IndexOf(t, interval) != []
  {
    if |t| > 1 {
      IndexIsNonEmpty(t[..|t| - 1], interval);
    }
  }

  predicate IndexAscending(index: seq<IndexEntry>) {
    forall i, j :: 0 <= i < j < |index| ==> Less(index[i].key, index[j].key)
  }

  lemma {:induction false} IndexIsAscending(t: Table, interval: nat)
    requires interval > 0 && Ascending(t)
    ensures IndexAscending(IndexOf(t, interval))
  {
    if t != [] {
      var n := |t| - 1;
      var index := IndexOf(t[..n], interval);
      IndexIsAscending(t[..n], interval);
      forall j | 0 <= j < |index|
        ensures Less(index[j].key, t[n].key)
      {
        var i := IndexMark(t[..n], interval, j);
      }
    }
  }
}
