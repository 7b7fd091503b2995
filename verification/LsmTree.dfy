// The LSM tree: memtable, table stack and log as the source's classes, with a ghost run of
// the machine in LsmMachine that every method keeps in step with the fields and the files.
// Reading goes through memtable, immutable memtable and tables; writing through the log.

module LsmTree {
  import opened ByteStrings
  import opened Directories
  import opened Tables
  import opened Bloom
  import opened SsTableFormat
  import opened SsTable
  import opened Wal
  import opened WalLog
  import opened Compaction
  import opened LsmMachine
  import opened LsmLimits

  const INDEX_INTERVAL: nat := 16
  const COMPACTION_THRESHOLD := 4

  class MemTable {
    const maxSize: nat
    var data: map<Bytes, Bytes>
    var byteSize: int

    constructor (maxSize: nat)
      ensures data == map[] && byteSize == 0 && this.maxSize == maxSize
    {
      this.maxSize := maxSize;
      data := map[];
      byteSize := 0;
    }

    /** The size after a write: an overwritten pair gives back its key and value, not its 16
        bytes of overhead. */
    function SizeWith(key: Bytes, value: Bytes): int
      reads this
    {
      byteSize + |key| + |value| + 16 - if key in data then |key| + |data[key]| else 0
    }

    method Put(key: Bytes, value: Bytes)
      modifies this
      ensures data == old(data)[key := value] && byteSize == old(SizeWith(key, value))
    {
      if key in data {
        byteSize := byteSize - (|key| + |data[key]|);
      }
      data := data[key := value];
      byteSize := byteSize + |key| + |value| + 16;
    }

    method Get(key: Bytes) returns (r: Option<Bytes>)
      ensures r == Lookup(data, key)
    {
      r := Lookup(data, key);
    }

    method Delete(key: Bytes)
      modifies this
      ensures data == old(data)[key := TOMBSTONE] && byteSize == old(SizeWith(key, TOMBSTONE))
    {
      Put(key, TOMBSTONE);
    }

    predicate IsFull()
      reads this
    {
      byteSize >= maxSize
    }

    /** This write fills the memtable. */
    predicate FilledBy(key: Bytes, value: Bytes)
      reads this
    {
      SizeWith(key, value) >= maxSize
    }

    method SortedEntries() returns (t: Table)
      ensures Lists(t, data)
    {
      t := SortedItems(data);
    }
  }

  type Stamp = s: Bytes | |s| == 8 witness "00000000"

  /** time.time(), packed. */
  method Clock() returns (stamp: Stamp)
  {
    stamp := *;
  }

  // ---------- The table directory ----------

  /** The directory holds these tables under these numbers, and no other file that opens. */
  predicate HoldsTables(files: map<nat, Bytes>, ids: seq<nat>, tables: seq<Table>, f: Filter)
    requires WellShaped(f.shape)
  {
    && |ids| == |tables| && AscendingIds(ids)
    && (forall i :: 0 <= i < |ids| ==> ids[i] in files && IsTableFile(files[ids[i]], tables[i], f))
    && (forall x :: x in files && x !in ids ==> ReadMetadata(files[x]) == None)
  }

  predicate IsTableFile(file: Bytes, t: Table, f: Filter)
    requires WellShaped(f.shape)
  {
    Ascending(t) && TableFits(t, INDEX_INTERVAL, f) && file == Image(t, INDEX_INTERVAL, f)
  }

  lemma TableFileOpens(file: Bytes, t: Table, f: Filter)
    requires WellShaped(f.shape) && IsTableFile(file, t, f)
    ensures ReadMetadata(file) != None
  {
    hide Image, ReadMetadata, TableFits, Ascending;
    MetadataRoundTrip(t, INDEX_INTERVAL, f);
  }

  lemma PublishHolds(files: map<nat, Bytes>, ids: seq<nat>, tables: seq<Table>, f: Filter, id: nat, image: Bytes,
                     t: Table)
    requires WellShaped(f.shape) && HoldsTables(files, ids, tables, f) && IsTableFile(image, t, f)
    requires forall x :: x in files ==> x < id
    ensures HoldsTables(files[id := image], ids + [id], tables + [t], f)
  {
    hide IsTableFile, ReadMetadata;
    var all, stack := ids + [id], tables + [t];
    forall i | 0 <= i < |all|
      ensures all[i] in files[id := image] && IsTableFile(files[id := image][all[i]], stack[i], f)
    {
      if i < |ids| {
        assert all[i] == ids[i] && stack[i] == tables[i] && ids[i] < id;
      }
    }
    assert all[|ids|] == id;
    assert forall x :: x !in all ==> x !in ids && x != id;
  }

  lemma RemoveHolds(files: map<nat, Bytes>, ids: seq<nat>, tables: seq<Table>, f: Filter)
    requires WellShaped(f.shape) && HoldsTables(files, ids, tables, f) && ids != []
    ensures HoldsTables(files - {ids[0]}, ids[1..], tables[1..], f)
  {
    hide IsTableFile, ReadMetadata;
    assert ids == [ids[0]] + ids[1..];
  }

  /** The next file of a listing is the next table, or it does not open. */
  lemma NextInListing(files: map<nat, Bytes>, ids: seq<nat>, tables: seq<Table>, f: Filter, listing: seq<nat>, i: nat,
                      k: nat)
    requires WellShaped(f.shape) && HoldsTables(files, ids, tables, f) && ListsIds(listing, files.Keys)
    requires i < |listing| && k <= |ids|
    requires forall j :: 0 <= j < k ==> ids[j] in listing[..i]
    requires forall j :: k <= j < |ids| ==> ids[j] !in listing[..i]
    ensures ReadMetadata(files[listing[i]]) != None ==>
              k < |ids| && ids[k] == listing[i] && IsTableFile(files[listing[i]], tables[k], f)
    ensures var next := if ReadMetadata(files[listing[i]]) != None then k + 1 else k;
            && (forall j :: 0 <= j < next ==> ids[j] in listing[..i + 1])
            && (forall j :: next <= j < |ids| ==> ids[j] !in listing[..i + 1])
  {
    hide IsTableFile, ReadMetadata;
    var x := listing[i];
    assert listing[..i + 1] == listing[..i] + [x];
    PrefixIsBelow(listing, files.Keys, i);
    assert forall j :: 0 <= j < k ==> ids[j] < x;
    assert forall j :: k <= j < |ids| ==> ids[j] in listing && x <= ids[j];
    if x in ids {
      var j :| 0 <= j < |ids| && ids[j] == x;
      TableFileOpens(files[x], tables[j], f);
      assert k <= j;
      assert ids[k] <= ids[j];
      assert j == k;
    }
  }

  /** In a listing, what comes earlier is what is smaller. */
  lemma PrefixIsBelow(listing: seq<nat>, numbers: set<nat>, i: nat)
    requires ListsIds(listing, numbers) && i < |listing|
    ensures forall y :: y in listing[..i] <==> y in listing && y < listing[i]
  {
    forall y | y in listing && y < listing[i]
      ensures y in listing[..i]
    {
      var a :| 0 <= a < |listing| && listing[a] == y;
      assert a < i && listing[..i][a] == y;
    }
  }

  // ---------- Keys are never empty ----------

  predicate KeyedFrames(fs: seq<Frame>) {
    forall i :: 0 <= i < |fs| ==> fs[i].key != []
  }

  predicate Keyed(s: State) {
    && (forall i :: 0 <= i < |s.tables| ==> [] !in Content(s.tables[i]))
    && [] !in s.mem
    && KeyedFrames(s.history)
  }

  lemma {:induction false} KeyedReplay(fs: seq<Frame>)
    requires KeyedFrames(fs)
    ensures [] !in Replay(fs)
  {
    if fs != [] {
      KeyedReplay(fs[..|fs| - 1]);
    }
  }

  lemma KeyedStep(s: State, step: Step)
    requires Serving(s) && Keyed(s) && Enabled(s, step) && KeyedFrames(AppendedIn(step))
    requires step == Crash ==> LogSuffices(s)
    ensures Keyed(After(s, step))
  {
    hide Replay, Content, Flatten, TablesHoldFlushed, MemoryIsCurrent, PhaseOk, Ascending, StackContent, Live, AsFrames;
    match step
    case Append(f) => assert AppendedIn(step)[0] == f;
    case AppendBehindTail(f, _) => assert AppendedIn(step)[0] == f;
    case PublishMerged(merged) =>
      StackLookup(s.tables, []);
      EmptyKeyIsDead(StackContent(s.tables));
    case Overwrite(kept) =>
      EntriesAreKeyed(kept);
    case Crash =>
      KeyedReplay(Flatten(s.segments));
    case _ =>
  }

  lemma EntriesAreKeyed(t: Table)
    requires [] !in Content(t)
    ensures KeyedFrames(AsFrames(t))
  {
    hide Content;
    forall i | 0 <= i < |t|
      ensures t[i].key != []
    {
      ContentKeys(t, t[i].key);
    }
  }

  /** A run that never wrote an empty key leaves none in memory or in the tables. */
  lemma {:induction false} KeyedRun(s: State, steps: seq<Step>)
    requires Serving(s) && Keyed(s) && IsRun(s, steps) && CrashesRecover(s, steps) && KeyedFrames(AppendedBy(steps))
    ensures Keyed(EndOf(s, steps))
    decreases |steps|
  {
    hide Serving, LogSuffices, Keyed, KeyedFrames, After, Enabled, AppendedIn;
    if steps != [] {
      KeyedParts(AppendedIn(steps[0]), AppendedBy(steps[1..]));
      StepServes(s, steps[0]);
      KeyedStep(s, steps[0]);
      KeyedRun(After(s, steps[0]), steps[1..]);
    }
  }

  lemma KeyedParts(a: seq<Frame>, b: seq<Frame>)
    requires KeyedFrames(a + b)
    ensures KeyedFrames(a) && KeyedFrames(b)
  {
    forall i | 0 <= i < |a|
      ensures a[i].key != []
    {
      assert (a + b)[i] == a[i];
    }
    forall i | 0 <= i < |b|
      ensures b[i].key != []
    {
      assert (a + b)[|a| + i] == b[i];
    }
  }

  lemma EmptyKeyIsDead(m: map<Bytes, Bytes>)
    requires [] !in m
    ensures [] !in Live(m)
  {
  }

  // ---------- Tables that answer ----------

  /** The tables whose lookups are on: an empty least key switches them off. */
  function Heard(tables: seq<Table>): seq<Table> {
    if tables == [] then []
    else
      var t := tables[|tables| - 1];
      Heard(tables[..|tables| - 1]) + if t != [] && t[0].key == [] then [] else [t]
  }

  predicate KeyedTables(tables: seq<Table>) {
    forall i :: 0 <= i < |tables| ==> [] !in Content(tables[i])
  }

  /** Without empty keys every table answers. */
  lemma {:induction false} AllAreHeard(tables: seq<Table>)
    requires KeyedTables(tables)
    ensures Heard(tables) == tables
  {
    hide Content;
    if tables != [] {
      var n := |tables| - 1;
      AllAreHeard(tables[..n]);
      ContentKeys(tables[n], []);
    }
  }

  /** One empty key is enough to hide a whole table from lookups, though not from scans. */
  lemma EmptyKeyHidesTable()
    ensures var tables := [[Entry([], "1"), Entry("k", "2")]];
            && Live(StackContent(tables)) == map[[] := "1", "k" := "2"]
            && Live(StackContent(Heard(tables))) == map[]
  {
    var t := [Entry([], "1"), Entry("k", "2")];
    assert t[..1] == [Entry([], "1")] && t[..1][..0] == [];
    assert Content(t) == map[[] := "1", "k" := "2"];
    StackOne(t);
    assert [t][..0] == [];
    assert Heard([t]) == [];
  }

  lemma NoEntries(key: Bytes)
    ensures Lookup(Content([]), key) == None
  {
  }

  /** What the newest of the given tables adds to a lookup. */
  lemma HeardFront(tables: seq<Table>, i: nat, key: Bytes)
    requires i < |tables|
    ensures var answer := Answer(tables[i], key);
            Lookup(StackContent(Heard(tables[..i + 1])), key)
            == if answer.Some? then answer else Lookup(StackContent(Heard(tables[..i])), key)
  {
    hide Content;
    assert tables[..i + 1][..i] == tables[..i];
    var t, below := tables[i], Heard(tables[..i]);
    if t != [] && t[0].key == [] {
      assert Heard(tables[..i + 1]) == below + [] == below;
    } else {
      assert Heard(tables[..i + 1]) == below + [t] && (below + [t])[..|below|] == below;
      NoEntries(key);
    }
  }

  // ---------- Reading layers ----------

  function Seen(o: Option<Bytes>): Option<Bytes> {
    if o == Some(TOMBSTONE) then None else o
  }

  lemma LiveLookup(m: map<Bytes, Bytes>, k: Bytes)
    ensures Lookup(Live(m), k) == Seen(Lookup(m, k))
  {
  }

  lemma RestrictOverlay(a: map<Bytes, Bytes>, b: map<Bytes, Bytes>, start: Option<Bytes>, stop: Option<Bytes>)
    ensures Restrict(a + b, start, stop) == Restrict(a, start, stop) + Restrict(b, start, stop)
  {
  }

  lemma RestrictLive(m: map<Bytes, Bytes>, start: Option<Bytes>, stop: Option<Bytes>)
    ensures Live(Restrict(m, start, stop)) == Restrict(Live(m), start, stop)
  {
  }

  /** for k, v in entries: combined[k] = v */
  method Combine(combined: map<Bytes, Bytes>, entries: Table) returns (r: map<Bytes, Bytes>)
    ensures r == combined + Content(entries)
  {
    r := combined;
    assert combined + map[] == combined;
    for i := 0 to |entries|
      invariant r == combined + Content(entries[..i])
    {
      assert entries[..i + 1][..i] == entries[..i];
      UpdateAbove(combined, Content(entries[..i]), entries[i].key, entries[i].value);
      r := r[entries[i].key := entries[i].value];
    }
    assert entries[..|entries|] == entries;
  }

  /** The same, for the entries inside the range. */
  method CombineRange(combined: map<Bytes, Bytes>, entries: Table, start: Option<Bytes>, stop: Option<Bytes>)
      returns (r: map<Bytes, Bytes>)
    requires Ascending(entries)
    ensures r == combined + Restrict(Content(entries), start, stop)
  {
    hide Less, Within;
    var inside: Table := [];
    for i := 0 to |entries|
      invariant inside == Range(entries[..i], start, stop)
    {
      RangeNext(entries, start, stop, i);
      if Within(entries[i].key, start, stop) {
        inside := inside + [entries[i]];
      }
    }
    assert entries[..|entries|] == entries;
    RangeLists(entries, start, stop);
    r := Combine(combined, inside);
  }

  lemma LiveStep(t: Table, e: Entry, r: Table)
    requires Ascending(t + [e]) && Content(t + [e]) == Content(t)[e.key := e.value] && e.key !in Content(t)
    requires Lists(r, Live(Content(t)))
    ensures Lists(if e.value != TOMBSTONE then r + [e] else r, Live(Content(t + [e])))
  {
    hide Less, Content, Live, Ascending;
    LiveUpdate(Content(t), e.key, e.value);
    LiveKeys(Content(t), e.key);
    if e.value != TOMBSTONE {
      if r != [] {
        LastStaysBelow(t, r, e);
      }
      AppendEntry(r, e);
    }
  }

  lemma LiveKeys(m: map<Bytes, Bytes>, k: Bytes)
    requires k !in m
    ensures Live(m).Keys <= m.Keys
    ensures Live(m) - {k} == Live(m)
  {
  }

  /** The sorted pairs that are no tombstones. */
  method LiveEntries(t: Table) returns (r: Table)
    requires Ascending(t)
    ensures Lists(r, Live(Content(t)))
  {
    hide Less, Ascending, Content, Live;
    r := [];
    NothingLives();
    for i := 0 to |t|
      invariant Lists(r, Live(Content(t[..i])))
    {
      SplitAtEntry(t, i);
      LiveStep(t[..i], t[i], r);
      if t[i].value != TOMBSTONE {
        r := r + [t[i]];
      }
    }
    assert t[..|t|] == t;
  }

  lemma NothingLives()
    ensures Lists([], Live(Content([])))
  {
  }

  lemma SplitAtEntry(t: Table, i: nat)
    requires Ascending(t) && i < |t|
    ensures t[..i + 1] == t[..i] + [t[i]]
    ensures Ascending(t[..i + 1]) && Content(t[..i + 1]) == Content(t[..i])[t[i].key := t[i].value]
    ensures t[i].key !in Content(t[..i])
  {
    hide Less;
    AppendEntry(t[..i], t[i]);
  }

  // ---------- The tree ----------

  /** The plain map after one write. */
  function Written(m: map<Bytes, Bytes>, key: Bytes, value: Bytes): map<Bytes, Bytes> {
    if value == TOMBSTONE then m - {key} else m[key := value]
  }

  /** The table file of this map has all its fields in range, so writing it does not raise. */
  ghost predicate Writable(m: map<Bytes, Bytes>, f: Filter) {
    forall t :: Lists(t, m) && t != [] ==> TableFits(t, INDEX_INTERVAL, f)
  }

  lemma SameListings(t: Table, u: Table, m: map<Bytes, Bytes>)
    requires Lists(t, m) && Lists(u, m)
    ensures t == u
  {
    ListingIsUnique(t, u);
  }

  lemma WritableListing(t: Table, m: map<Bytes, Bytes>, f: Filter)
    requires Lists(t, m)
    ensures Writable(m, f) <==> t == [] || TableFits(t, INDEX_INTERVAL, f)
  {
    hide Lists, TableFits;
    forall u | Lists(u, m)
      ensures u == t
    {
      SameListings(t, u, m);
    }
  }

  /** The frame's fields are in range, so appending it does not raise. */
  predicate Loggable(lsn: nat, key: Bytes, value: Bytes) {
    Fits(lsn, 8) && Fits(|key|, 4) && Fits(|value|, 4)
  }

  /** One frame of this kind has been added. */
  predicate Grown(h: seq<Frame>, next: seq<Frame>, op: nat, key: Bytes, value: Bytes) {
    && |next| == |h| + 1 && next[..|h|] == h
    && Last(next).op == op && Last(next).key == key && Last(next).value == value
  }

  lemma OneFrame(h: seq<Frame>, f: Frame)
    ensures Grown(h, h + [f], f.op, f.key, f.value)
  {
  }

  lemma RememberedIs(s: State, h: seq<Frame>, op: nat, key: Bytes, value: Bytes)
    requires s.phase == Logged && Grown(h, s.history, op, key, value)
    requires op == SET || (op == DEL && value == TOMBSTONE)
    ensures Enabled(s, Remember) && !LosesLog(s, Remember) && AppendedIn(Remember) == []
    ensures After(s, Remember) == s.(mem := s.mem[key := value], phase := Idle)
  {
  }

  lemma HistoryStep(h: seq<Frame>, next: seq<Frame>, op: nat, key: Bytes, value: Bytes)
    requires Grown(h, next, op, key, value) && (op == SET || (op == DEL && value == TOMBSTONE))
    ensures Database(next) == Written(Database(h), key, value)
  {
  }

  /** The ghost run leads from the opened directory to the ghost state. */
  predicate Tracks(start: State, run: seq<Step>, s: State) {
    && Inv(start) && IsRun(start, run) && EndOf(start, run) == s
    && forall i :: 0 <= i < |run| ==> run[i] != Crash
  }

  lemma TracksServes(start: State, run: seq<Step>, s: State)
    requires Tracks(start, run, s)
    ensures Serving(s)
  {
    hide Serving, LogSuffices, IsRun, EndOf;
    NoCrashRecovers(start, run);
    RunServes(start, run);
  }

  lemma TracksStep(start: State, run: seq<Step>, s: State, step: Step)
    requires Tracks(start, run, s) && Enabled(s, step) && step != Crash
    ensures Tracks(start, run + [step], After(s, step))
    ensures LogSuffices(s) && !LosesLog(s, step) ==> LogSuffices(After(s, step))
    ensures LogIsTail(s) && !step.AppendBehindTail? && !step.Overwrite? ==> LogIsTail(After(s, step))
    ensures LogIsTail(s) && step.Publish? ==> LogSuffices(After(s, step))
    ensures Keyed(s) && KeyedFrames(AppendedIn(step)) ==> Keyed(After(s, step))
  {
    hide IsRun, EndOf, After, Enabled, Inv, Serving, LogSuffices, LogIsTail, LosesLog, Keyed, KeyedFrames;
    RunExtends(start, run, step);
    TracksServes(start, run, s);
    if LogSuffices(s) && !LosesLog(s, step) {
      InvIs(s);
      LogKeepsSufficing(s, step);
    }
    if LogIsTail(s) && !step.AppendBehindTail? && !step.Overwrite? {
      LogStaysTail(s, step);
    }
    if LogIsTail(s) && step.Publish? {
      FlushRestores(s, step.t);
      InvIs(After(s, step));
    }
    if Keyed(s) && KeyedFrames(AppendedIn(step)) {
      KeyedStep(s, step);
    }
  }

  lemma InvIs(s: State)
    ensures Inv(s) <==> Serving(s) && LogSuffices(s)
  {
  }

  predicate SameMemoryAndLog(s: State, t: State) {
    s.mem == t.mem && s.segments == t.segments && s.history == t.history && s.flushed == t.flushed
  }

  lemma SameCover(s: State, t: State)
    requires SameMemoryAndLog(s, t)
    ensures Covered(s) == Covered(t) && JustFlushed(s) == JustFlushed(t)
  {
  }

  /** The phase of a compaction that has removed n old tables. */
  predicate HasRemoved(phase: Phase, olds: seq<Table>, merged: Table, n: nat) {
    phase == Merging(olds, merged, n)
  }

  ghost predicate ReadsTable(r: SSTableReader, t: Table, f: Filter) {
    r.Valid() && r.table == t && r.interval == INDEX_INTERVAL && r.digest == f.digest && r.meta.shape == f.shape
  }

  ghost predicate ReadsTables(readers: seq<SSTableReader>, tables: seq<Table>, f: Filter) {
    |readers| == |tables| && forall i :: 0 <= i < |readers| ==> ReadsTable(readers[i], tables[i], f)
  }

  ghost function TablesOf(readers: seq<SSTableReader>): seq<Table> {
    seq(|readers|, i requires 0 <= i < |readers| => readers[i].table)
  }

  lemma ReadsAre(readers: seq<SSTableReader>, tables: seq<Table>, f: Filter)
    requires ReadsTables(readers, tables, f)
    ensures TablesOf(readers) == tables
  {
  }

  class LSMTree {
    const filter: Filter
    const memLimit: nat
    const wal: WriteAheadLog
    var memtable: MemTable
    var immutable: MemTable?
    var readers: seq<SSTableReader>
    var numbers: seq<nat>  // the file number of each reader
    var nextId: nat
    var files: map<nat, Bytes>  // the table directory
    ghost var start: State
    ghost var run: seq<Step>
    ghost var state: State

    /** The plain map this store stands for. */
    ghost function Contents(): map<Bytes, Bytes>
      reads this`state
    {
      Database(state.history)
    }

    /** The live entries of the tables. */
    ghost function TableMap(): map<Bytes, Bytes>
      reads this
    {
      Live(StackContent(state.tables))
    }

    /** The layers above the tables. */
    ghost function Above(): map<Bytes, Bytes>
      reads this, memtable, immutable
    {
      (if immutable == null then map[] else immutable.data) + memtable.data
    }

    /** What is durable matches the machine: tables under the given numbers, and the log as a
        replay reads it. */
    ghost predicate OnDisk(ids: seq<nat>)
      reads this`files, this`nextId, this`start, this`run, this`state, wal
    {
      && WellShaped(filter.shape)
      && Tracks(start, run, state)
      && HoldsTables(files, ids, state.tables, filter)
      && (forall x :: x in files ==> x < nextId)
      && wal.Valid() && wal.segments == state.segments
    }

    /** Holds after every operation, whether it succeeded or raised, and whatever state the log
        is in. An immutable memtable is one that a raised flush has left aside. */
    ghost predicate Valid()
      reads this, memtable, immutable, wal
    {
      OnDisk(numbers) && state.phase == Idle && Layered()
    }

    /** The layers in memory are the machine's: two memtables above the open tables. */
    ghost predicate Layered()
      reads this, memtable, immutable
    {
      immutable != memtable && Above() == state.mem && ReadsTables(readers, state.tables, filter)
    }

    /** Tables and log are all that a fresh process needs to show the plain map. */
    ghost predicate Durable()
      reads this`state
    {
      LogSuffices(state)
    }

    /** Opens any directory of table files and log segments, torn tails included. What the tables
        and the log show is the plain map; where the process that left them kept its log
        sufficient, that is the map of its history, wherever it stopped. */
    constructor (filter: Filter, memLimit: nat, walLimit: nat, checksum: Checksum,
                 sstables: map<nat, Bytes>, segments: map<nat, Bytes>,
                 ghost first: nat, ghost ids: seq<nat>, ghost s: State)
      requires WellShaped(filter.shape)
      requires HoldsTables(sstables, ids, s.tables, filter)
      requires segments == map[] ==> first == 1 && s.segments == [[]]
      requires segments != map[] ==> Shows(segments, first, s.segments, checksum)
      ensures Valid() && Durable()
      ensures Contents() == Recovered(s)
      ensures Inv(s) ==> Contents() == Database(s.history)
      ensures state.tables == s.tables && state.segments == s.segments
      ensures KeyedTables(s.tables) && KeyedFrames(Flatten(s.segments)) ==> Keyed(state)
      ensures immutable == null && fresh(memtable) && fresh(wal) && files == sstables
      ensures wal.files == if segments == map[] then map[1 := []] else segments
    {
      hide Tracks, HoldsTables, Shows, Flatten, Database, Replay, Recovered, Inv, Keyed, KeyedFrames, KeyedTables;
      this.filter := filter;
      this.memLimit := memLimit;
      wal := new WriteAheadLog(segments, walLimit, checksum, first, s.segments);
      memtable := new MemTable(memLimit);
      immutable := null;
      readers, numbers, nextId := [], [], 1;
      files := sstables;
      state, start, run := s, s, [];
      new;
      Load(ids, s);
      if Inv(s) {
        RecoveryIsExact(s);
      }
    }

    /** The second half of __init__: tables, then the log. */
    method Load(ghost ids: seq<nat>, ghost s: State)
      requires WellShaped(filter.shape) && HoldsTables(files, ids, s.tables, filter)
      requires wal.Valid() && wal.segments == s.segments
      requires memtable.data == map[] && immutable == null
      modifies this`readers, this`numbers, this`nextId, this`state, this`start, this`run, memtable, wal`nextLsn
      ensures Valid() && Durable() && Contents() == Recovered(s)
      ensures state.tables == s.tables && state.segments == s.segments
      ensures KeyedTables(s.tables) && KeyedFrames(Flatten(s.segments)) ==> Keyed(state)
    {
      hide HoldsTables, ReadsTables, Shows, Flatten, Replay, Database, Recovered, Keyed, KeyedFrames, KeyedTables,
        Live, StackContent, Lists, Ascending, LogSuffices, Serving;
      LoadTables(ids, s.tables);
      Replays();
      AllAscend(files, ids, s.tables, filter);
      ShowsLast(wal.files, wal.first, wal.segments, wal.checksum);
      OpenedIsInv(s.tables, s.segments);
      state := Opened(s.tables, s.segments);
      start, run := state, [];
      OpenedTracks(s);
      EmptyLayer(memtable.data);
    }

    /** _load_existing_sstables */
    method LoadTables(ghost ids: seq<nat>, ghost tables: seq<Table>)
      requires WellShaped(filter.shape) && HoldsTables(files, ids, tables, filter)
      modifies this`readers, this`numbers, this`nextId
      ensures numbers == ids && ReadsTables(readers, tables, filter)
      ensures (forall x :: x in files ==> x < nextId) && (nextId == 1 || nextId - 1 in files)
    {
      hide HoldsTables, ReadsTables;
      var listing := SortedIds(files.Keys);
      readers, numbers := OpenAll(files, listing, ids, tables, filter);
      nextId := NextId(listing);
    }

    /** _recover_from_wal */
    method Replays()
      requires wal.Valid() && memtable.data == map[]
      modifies memtable, wal`nextLsn
      ensures wal.Valid() && memtable.data == Replay(Flatten(wal.segments))
      ensures IncreasingLsns(Flatten(wal.segments)) ==> wal.Ordered()
    {
      hide Flatten, IncreasingLsns, Shows;
      var frames := wal.Recover();
      for i := 0 to |frames|
        invariant memtable.data == Replay(frames[..i])
        invariant wal.Valid() && Flatten(wal.segments) == frames
        invariant IncreasingLsns(frames) ==> wal.Ordered()
      {
        assert frames[..i + 1][..i] == frames[..i];
        if frames[i].op == SET {
          memtable.Put(frames[i].key, frames[i].value);
        } else if frames[i].op == DEL {
          memtable.Delete(frames[i].key);
        }
      }
      assert frames[..|frames|] == frames;
    }

    // ---------- Writing ----------

    /** Records a durable step. */
    ghost method Take(step: Step)
      requires Tracks(start, run, state) && Enabled(state, step) && step != Crash
      modifies this`state, this`run
      ensures Tracks(start, run, state)
      ensures state == After(old(state), step) && run == old(run) + [step]
      ensures old(Durable()) && !LosesLog(old(state), step) ==> Durable()
      ensures old(LogIsTail(state)) && !step.AppendBehindTail? && !step.Overwrite? ==> LogIsTail(state)
      ensures old(LogIsTail(state)) && step.Publish? ==> Durable()
      ensures old(Keyed(state)) && KeyedFrames(AppendedIn(step)) ==> Keyed(state)
    {
      hide Tracks, After, Enabled, LogSuffices, LogIsTail, Keyed, KeyedFrames, LosesLog;
      TracksStep(start, run, state, step);
      state, run := After(state, step), run + [step];
    }

    /** What a flush leaves of the plain map: it drops what a raised flush has left aside. */
    ghost function Surviving(): map<Bytes, Bytes>
      reads this, memtable
    {
      if immutable == null then Contents() else Live(StackContent(state.tables) + memtable.data)
    }

    /** This write makes the next flush drop a memtable that a raised flush left aside. */
    ghost predicate Drops(key: Bytes, value: Bytes)
      reads this, memtable
    {
      immutable != null && memtable.FilledBy(key, value)
    }

    /** false is an exception: of the append, and then nothing has changed; or of a flush or
        compaction behind it, and then the write is logged and visible all the same. */
    method Put(key: Bytes, value: Bytes) returns (ok: bool)
      requires Valid()
      modifies this, memtable, wal
      ensures Valid() && (memtable == old(memtable) || fresh(memtable))
      ensures !Loggable(old(wal.nextLsn), key, value) ==> !ok && Contents() == old(Contents())
      ensures Loggable(old(wal.nextLsn), key, value) ==>
                Contents() == if old(Drops(key, value))
                              then Live(StackContent(old(state.tables)) + old(memtable.data)[key := value])
                              else Written(old(Contents()), key, value)
      ensures ok <==> Loggable(old(wal.nextLsn), key, value)
                      && (old(memtable.FilledBy(key, value)) ==>
                            && Writable(old(memtable.data)[key := value], filter)
                            && (old(|readers|) + 1 >= COMPACTION_THRESHOLD ==> Writable(Contents(), filter)))
      ensures old(wal.AtBoundary()) ==> wal.AtBoundary()
      ensures old(Durable()) && old(wal.AtBoundary()) && !old(Drops(key, value)) ==> Durable()
      ensures old(Keyed(state)) && key != [] ==> Keyed(state)
      ensures ok && old(immutable) == null ==> immutable == null
    {
      hide Valid, Layered, OnDisk, Database, LogSuffices, LogIsTail, Keyed, Writable, Written, Fits, Live, StackContent,
        Grown;
      ghost var h := state.history;
      var logged := Log(SET, key, value);
      if !logged {
        return false;
      }
      Apply(SET, key, value, h);
      assert key in memtable.data;
      ok := true;
      if memtable.IsFull() {
        ok := FlushMemtable();
      }
    }

    method Delete(key: Bytes) returns (ok: bool)
      requires Valid()
      modifies this, memtable, wal
      ensures Valid() && (memtable == old(memtable) || fresh(memtable))
      ensures !Loggable(old(wal.nextLsn), key, TOMBSTONE) ==> !ok && Contents() == old(Contents())
      ensures Loggable(old(wal.nextLsn), key, TOMBSTONE) ==>
                Contents() == if old(Drops(key, TOMBSTONE))
                              then Live(StackContent(old(state.tables)) + old(memtable.data)[key := TOMBSTONE])
                              else old(Contents()) - {key}
      ensures ok <==> Loggable(old(wal.nextLsn), key, TOMBSTONE)
                      && (old(memtable.FilledBy(key, TOMBSTONE)) ==>
                            && Writable(old(memtable.data)[key := TOMBSTONE], filter)
                            && (old(|readers|) + 1 >= COMPACTION_THRESHOLD ==> Writable(Contents(), filter)))
      ensures old(wal.AtBoundary()) ==> wal.AtBoundary()
      ensures old(Durable()) && old(wal.AtBoundary()) && !old(Drops(key, TOMBSTONE)) ==> Durable()
      ensures old(Keyed(state)) && key != [] ==> Keyed(state)
      ensures ok && old(immutable) == null ==> immutable == null
    {
      hide Valid, Layered, OnDisk, Database, LogSuffices, LogIsTail, Keyed, Writable, Fits, Live, StackContent, Grown;
      ghost var h := state.history;
      var logged := Log(DEL, key, TOMBSTONE);
      if !logged {
        return false;
      }
      Apply(DEL, key, TOMBSTONE, h);
      assert key in memtable.data;
      ok := true;
      if memtable.IsFull() {
        ok := FlushMemtable();
      }
    }

    /** The durable half of a write: wal.append, which may rotate. Behind a torn tail the frame
        need not be found by a later replay. */
    method Log(op: nat, key: Bytes, value: Bytes) returns (ok: bool)
      requires Valid() && (op == SET || op == DEL)
      modifies wal, this`state, this`run
      ensures ok <==> Loggable(old(wal.nextLsn), key, value)
      ensures old(wal.AtBoundary()) ==> wal.AtBoundary()
      ensures !ok ==> Valid() && state == old(state)
      ensures ok ==>
                && OnDisk(numbers) && state.phase == Logged && Layered()
                && Grown(old(state.history), state.history, op, key, value)
                && state.mem == old(state.mem) && state.tables == old(state.tables)
      ensures old(Durable()) && old(wal.AtBoundary()) ==> Durable()
      ensures old(Keyed(state)) && key != [] ==> Keyed(state)
    {
      hide Tracks, HoldsTables, ReadsTables, Flatten, Shows, Fits, LogSuffices, LogIsTail, Keyed, Grown;
      var stamp := Clock();
      ShowsLast(wal.files, wal.first, wal.segments, wal.checksum);
      ghost var boundary := wal.AtBoundary();
      var logged, lsn;
      ghost var seen;
      logged, lsn, seen := wal.Append(op, key, value, stamp);
      if !logged {
        return false;
      }
      TakeLogged(Frame(lsn, stamp, op, key, value), seen, boundary);
      return true;
    }

    /** The half of a write in memory: the frame just logged is applied to the memtable. */
    method Apply(op: nat, key: Bytes, value: Bytes, ghost h: seq<Frame>)
      requires OnDisk(numbers) && state.phase == Logged && Layered() && Grown(h, state.history, op, key, value)
      requires op == SET || (op == DEL && value == TOMBSTONE)
      modifies memtable, this`state, this`run
      ensures Valid() && Contents() == Written(Database(h), key, value)
      ensures memtable.data == old(memtable.data)[key := value]
      ensures memtable.byteSize == old(memtable.SizeWith(key, value))
      ensures state.tables == old(state.tables)
      ensures old(Durable()) ==> Durable()
      ensures old(LogIsTail(state)) ==> LogIsTail(state)
      ensures old(Keyed(state)) ==> Keyed(state)
    {
      hide OnDisk, ReadsTables, LogSuffices, LogIsTail, Keyed, Grown, Written, Database;
      UpdateAbove(if immutable == null then map[] else immutable.data, memtable.data, key, value);
      HistoryStep(h, state.history, op, key, value);
      if op == SET {
        memtable.Put(key, value);
      } else {
        memtable.Delete(key);
      }
      TakeRemember(h, op, key, value);
    }

    ghost method TakeRemember(h: seq<Frame>, op: nat, key: Bytes, value: Bytes)
      requires OnDisk(numbers) && state.phase == Logged && Grown(h, state.history, op, key, value)
      requires op == SET || (op == DEL && value == TOMBSTONE)
      modifies this`state, this`run
      ensures OnDisk(numbers) && state == old(state).(mem := old(state.mem)[key := value], phase := Idle)
      ensures old(Durable()) ==> Durable()
      ensures old(LogIsTail(state)) ==> LogIsTail(state)
      ensures old(Keyed(state)) ==> Keyed(state)
    {
      hide Tracks, HoldsTables, Flatten, LogSuffices, LogIsTail, Keyed, Grown, Enabled, After, LosesLog;
      RememberedIs(state, h, op, key, value);
      Take(Remember);
    }

    /** The steps of an append, with the rotation it may have caused. */
    ghost method TakeLogged(f: Frame, seen: seq<Frame>, boundary: bool)
      requires Tracks(start, run, state) && state.phase == Idle && state.segments != []
      requires var written := state.segments[|state.segments| - 1 := seen];
               && (wal.segments == written || wal.segments == written + [[]])
               && (boundary ==> written == WithFrame(state.segments, f))
      modifies this`state, this`run
      ensures Tracks(start, run, state) && state.segments == wal.segments && state.phase == Logged
      ensures Grown(old(state.history), state.history, f.op, f.key, f.value)
      ensures state.mem == old(state.mem) && state.tables == old(state.tables)
      ensures old(Durable()) && boundary ==> Durable()
      ensures old(Keyed(state)) && f.key != [] ==> Keyed(state)
    {
      hide Tracks, Flatten, LogSuffices, LogIsTail, Keyed, Grown;
      OneFrame(state.history, f);
      Take(if boundary then Append(f) else AppendBehindTail(f, seen));
      if wal.segments != state.segments {
        Take(RotateBySize);
      }
    }

    /** Flushes the memtable into a new table, rotates the log, compacts from four tables on.
        false is the exception of a table whose fields do not fit. What readers see does not
        change, unless an earlier flush raised: what it left aside is dropped. The rotation
        leaves any torn tail of the log behind. */
    method FlushMemtable() returns (ok: bool)
      requires Valid()
      modifies this, wal
      ensures Valid() && (memtable == old(memtable) || fresh(memtable))
      ensures Contents() == if old(memtable.data) == map[] then old(Contents()) else old(Surviving())
      ensures ok <==> old(memtable.data) == map[]
                      || (Writable(old(memtable.data), filter)
                          && (old(|readers|) + 1 >= 4 ==> Writable(Contents(), filter)))
      ensures ok && old(memtable.data) != map[] ==> memtable.data == map[] && immutable == null && wal.AtBoundary()
      ensures old(wal.AtBoundary()) ==> wal.AtBoundary()
      ensures old(immutable) == null && old(Durable()) ==> Durable()
      ensures old(immutable) == null && old(LogIsTail(state)) && old(memtable.data) != map[] && ok ==> Durable()
      ensures old(memtable.data) != map[] && old(|readers|) + 1 >= COMPACTION_THRESHOLD && ok ==> Durable()
      ensures old(Keyed(state)) ==> Keyed(state)
      ensures ok && old(immutable) == null ==> immutable == null
    {
      hide Valid, Layered, OnDisk, Writable, Database, LogSuffices, LogIsTail, Keyed, TableMap, Live, StackContent,
        Covered, JustFlushed, IsCompacted;
      if |memtable.data| == 0 {
        return true;
      }
      ok := WriteOut();
      if !ok {
        return false;
      }
      if |readers| >= COMPACTION_THRESHOLD {
        NothingInMemory();
        ok := Compact();
      }
    }

    /** Moves the memtable aside, publishes it as the newest table and rotates the log. */
    method WriteOut() returns (ok: bool)
      requires Valid() && memtable.data != map[]
      modifies this, wal
      ensures Valid() && (memtable == old(memtable) || fresh(memtable))
      ensures Contents() == old(Surviving())
      ensures ok ==> Covered(state) && JustFlushed(state) && state.mem == map[] && |readers| == old(|readers|) + 1
      ensures ok ==> memtable.data == map[] && immutable == null && wal.AtBoundary()
      ensures ok <==> Writable(old(memtable.data), filter)
      ensures old(wal.AtBoundary()) ==> wal.AtBoundary()
      ensures old(immutable) == null && old(Durable()) ==> Durable()
      ensures old(immutable) == null && old(LogIsTail(state)) && ok ==> Durable()
      ensures old(Keyed(state)) ==> Keyed(state)
    {
      hide OnDisk, ReadsTables, Lists, Writable, Database, Surviving, Durable, LogIsTail, Keyed, Covered, TableFits,
        JustFlushed;
      var entries := SetAside();
      var published := PublishTable(entries);
      if !published {
        return false;
      }
      EndFlush();
      return true;
    }

    /** The memtable becomes the immutable one, and its sorted entries are what is to be flushed. */
    method SetAside() returns (entries: Table)
      requires Valid() && memtable.data != map[]
      modifies this`memtable, this`immutable, this`state, this`run
      ensures Valid() && fresh(memtable) && memtable.data == map[] && state.mem == old(memtable.data)
      ensures state.tables == old(state.tables) && (old(immutable) == null ==> state == old(state))
      ensures Contents() == old(Surviving())
      ensures entries != [] && Lists(entries, state.mem)
      ensures TableFits(entries, INDEX_INTERVAL, filter) <==> Writable(old(memtable.data), filter)
      ensures old(Keyed(state)) ==> Keyed(state)
    {
      hide Valid, Layered, OnDisk, ReadsTables, Lists, Writable, Contents, Surviving, Keyed, TableFits;
      entries := memtable.SortedEntries();
      NonEmptyListing(entries, memtable.data);
      WritableListing(entries, memtable.data, filter);
      DropOlder(entries);
      immutable := memtable;
      memtable := new MemTable(memLimit);
      AsideIsValid();
    }

    lemma AsideIsValid()
      requires OnDisk(numbers) && state.phase == Idle && ReadsTables(readers, state.tables, filter)
      requires immutable != null && immutable != memtable && memtable.data == map[] && immutable.data == state.mem
      ensures Valid()
    {
      hide OnDisk, ReadsTables;
      EmptyLayer(immutable.data);
    }

    /** What a raised flush left aside is forgotten. */
    ghost method DropOlder(entries: Table)
      requires Valid() && Lists(entries, memtable.data)
      modifies this`state, this`run
      ensures OnDisk(numbers) && state.phase == Idle && state.mem == memtable.data && state.tables == old(state.tables)
      ensures ReadsTables(readers, state.tables, filter)
      ensures Contents() == old(Surviving()) && (immutable == null ==> state == old(state))
      ensures old(Keyed(state)) ==> Keyed(state)
    {
      hide Tracks, HoldsTables, ReadsTables, Flatten, Shows, Lists, Database, LogSuffices, LogIsTail, Keyed,
        StackContent, Live;
      EmptyLayer(memtable.data);
      if immutable != null {
        OverwriteIsEnabled(start, run, state, immutable.data, memtable.data, entries);
        Take(Overwrite(entries));
      }
    }

    /** The log starts a new segment and the immutable memtable is dropped. */
    method EndFlush()
      requires OnDisk(numbers) && ReadsTables(readers, state.tables, filter) && memtable.data == map[] == state.mem
      requires state.phase == Published && state.flushed == |state.history|
      modifies this`immutable, this`state, this`run, wal
      ensures Valid() && immutable == null && state.mem == map[] && state.history == old(state.history)
      ensures Covered(state) && JustFlushed(state)
      ensures wal.AtBoundary()
      ensures old(Durable()) ==> Durable()
      ensures old(Keyed(state)) ==> Keyed(state)
    {
      hide Tracks, HoldsTables, ReadsTables, Flatten, Shows, LogSuffices, LogIsTail, Keyed;
      wal.Rotate();
      Take(Rotate);
      immutable := null;
      EmptyLayer(memtable.data);
    }

    /** Writes the flushed table under the next number and opens it. */
    method PublishTable(entries: Table) returns (ok: bool)
      requires OnDisk(numbers) && ReadsTables(readers, state.tables, filter)
      requires state.phase == Idle && entries != [] && Lists(entries, state.mem)
      modifies this`files, this`readers, this`numbers, this`nextId, this`state, this`run
      ensures OnDisk(numbers) && ReadsTables(readers, state.tables, filter)
      ensures ok ==> state.phase == Published && state.mem == map[] && state.history == old(state.history)
                     && state.flushed == |state.history|
      ensures ok <==> TableFits(entries, INDEX_INTERVAL, filter)
      ensures |readers| == old(|readers|) + if ok then 1 else 0
      ensures !ok ==> readers == old(readers) && files == old(files) && state == old(state)
      ensures old(Durable()) || (old(LogIsTail(state)) && ok) ==> Durable()
      ensures old(Keyed(state)) ==> Keyed(state)
    {
      hide Tracks, HoldsTables, ReadsTables, Image, TableFits, Content, Flatten, Shows, LogSuffices, LogIsTail, Keyed,
        Ascending;
      var number := nextId;
      nextId := nextId + 1;
      var table := WriteTable(entries, filter);
      if !table.File? {
        return false;
      }
      PublishHolds(files, numbers, state.tables, filter, number, table.image, entries);
      files := files[number := table.image];
      ghost var tables := state.tables;
      Take(Publish(entries));
      var reader := OpenReader(table.image, entries, filter);
      ReadsAppend(readers, tables, filter, reader, entries);
      readers := readers + [reader];
      numbers := numbers + [number];
      return true;
    }

    // ---------- Compaction ----------

    /** Merges all tables into one, removes the old ones and purges the log. false is the
        exception of a merged table whose fields do not fit, and then nothing has changed.
        Readers never notice; the store stays durable when no rotation by size came after the
        last flush, and becomes so right after a flush. */
    method Compact() returns (ok: bool)
      requires Valid()
      modifies this`readers, this`numbers, this`files, this`nextId, this`state, this`run, wal
      ensures Valid() && state.history == old(state.history)
      ensures ok <==> old(|readers|) < 2 || Writable(old(TableMap()), filter)
      ensures !ok || old(|readers|) < 2 ==> readers == old(readers) && files == old(files) && state == old(state)
      ensures ok && old(|readers|) >= 2 ==> IsCompacted(old(state), state)
      ensures old(wal.AtBoundary()) ==> wal.AtBoundary()
      ensures old(Durable()) && old(Covered(state)) ==> Durable()
      ensures ok && old(|readers|) >= 2 && old(JustFlushed(state)) ==> Durable()
      ensures old(Keyed(state)) ==> Keyed(state)
    {
      hide Tracks, HoldsTables, ReadsTables, Flatten, Shows, Covered, IsFileOf, MergesTo, Live, StackContent, Writable,
        LogSuffices, LogIsTail, Keyed, JustFlushed;
      if |readers| < 2 {
        return true;
      }
      ReadsCount(readers, state.tables, filter);
      TablesOfIds(files, numbers, state.tables, filter);
      var table, merged := MergeReaders(readers, state.tables, filter);
      MergedIsWritable(state.tables, merged, table, filter);
      ghost var before := state;
      ShowsLast(wal.files, wal.first, wal.segments, wal.checksum);
      var published, number, ids := PublishMergedTable(table, merged);
      if !published {
        return false;
      }
      Finish(table, before, merged, number, ids);
      return true;
    }

    /** The merged table is durable: the old ones go, and then the log but its current segment. */
    method Finish(table: Finished, ghost before: State, ghost merged: Table, number: nat, ghost ids: seq<nat>)
      requires WellShaped(filter.shape)
      requires MergesTo(before.tables, merged) && IsFileOf(table, merged, filter) && !table.StructError?
      requires ids == numbers + if table.File? then [number] else []
      requires before.segments != [] && |before.tables| == |numbers| >= 2 && before.phase == Idle
      requires SameMemoryAndLog(state, before) && HasRemoved(state.phase, before.tables, merged, 0)
      requires OnDisk(ids)
      modifies this`readers, this`numbers, this`files, this`state, this`run, wal
      ensures OnDisk(numbers) && ReadsTables(readers, state.tables, filter)
      ensures state == Compacted(before, merged)
      ensures old(Durable()) && Covered(before) ==> Durable()
      ensures JustFlushed(before) ==> Durable()
      ensures old(wal.AtBoundary()) ==> wal.AtBoundary()
      ensures old(Keyed(state)) ==> Keyed(state)
    {
      hide Tracks, HoldsTables, ReadsTables, Flatten, Shows, Covered, IsFileOf, LogSuffices, LogIsTail, Keyed,
        JustFlushed, Lists, Live, StackContent;
      ReplaceReaders(table, before.tables, merged, number, ids);
      PurgeLog(before);
    }

    /** The merged table is durable under the next number, unless it is empty. */
    method PublishMergedTable(table: Finished, ghost merged: Table)
        returns (ok: bool, number: nat, ghost ids: seq<nat>)
      requires WellShaped(filter.shape)
      requires MergesTo(state.tables, merged) && IsFileOf(table, merged, filter)
      requires state.phase == Idle && |state.tables| >= 2
      requires OnDisk(numbers)
      modifies this`files, this`nextId, this`state, this`run
      ensures ok <==> !table.StructError?
      ensures !ok ==> OnDisk(numbers) && files == old(files) && state == old(state)
      ensures ok ==> ids == numbers + if table.File? then [number] else []
      ensures ok ==> SameMemoryAndLog(state, old(state)) && state.phase == Merging(old(state.tables), merged, 0)
      ensures ok ==> OnDisk(ids)
      ensures old(Durable()) ==> Durable()
      ensures old(Keyed(state)) ==> Keyed(state)
    {
      hide Tracks, HoldsTables, Image, TableFits, Content, StackContent, Flatten, Shows, LogSuffices, LogIsTail, Keyed,
        Ascending;
      number := nextId;
      nextId := nextId + 1;
      ids := numbers;
      if table.StructError? {
        return false, number, ids;
      }
      if table.File? {
        PublishHolds(files, numbers, state.tables, filter, number, table.image, merged);
        files := files[number := table.image];
        ids := ids + [number];
      }
      assert state.tables + [] == state.tables && numbers + [] == numbers;
      Take(PublishMerged(merged));
      return true, number, ids;
    }

    /** Removes the old tables and opens the merged one. */
    method ReplaceReaders(table: Finished, ghost olds: seq<Table>, ghost merged: Table, number: nat,
                          ghost ids: seq<nat>)
      requires WellShaped(filter.shape)
      requires IsFileOf(table, merged, filter) && !table.StructError?
      requires ids == numbers + if table.File? then [number] else []
      requires |olds| == |numbers| && HasRemoved(state.phase, olds, merged, 0)
      requires OnDisk(ids)
      modifies this`readers, this`numbers, this`files, this`state, this`run
      ensures SameMemoryAndLog(state, old(state))
      ensures HasRemoved(state.phase, olds, merged, |olds|)
      ensures ReadsTables(readers, state.tables, filter) && state.tables == FileOf(merged)
      ensures OnDisk(numbers)
      ensures old(Durable()) ==> Durable()
      ensures old(Keyed(state)) ==> Keyed(state)
    {
      hide Tracks, HoldsTables, ReadsTables, Image, TableFits, Ascending, Flatten, Shows, LogSuffices, Keyed;
      assert ids[|numbers|..] == if table.File? then [number] else [];
      RemoveOld(olds, merged, ids);
      MergedIsAlone(start, run, state);
      readers, numbers := [], [];
      if table.File? {
        var reader := OpenReader(table.image, merged, filter);
        readers, numbers := [reader], [number];
      }
      ReadsMerged(readers, filter, merged);
    }

    /** Closes and removes the old files, oldest first. */
    method RemoveOld(ghost olds: seq<Table>, ghost merged: Table, ghost ids: seq<nat>)
      requires |olds| == |numbers| && numbers <= ids
      requires HasRemoved(state.phase, olds, merged, 0)
      requires OnDisk(ids)
      modifies this`files, this`state, this`run
      ensures SameMemoryAndLog(state, old(state))
      ensures HasRemoved(state.phase, olds, merged, |olds|)
      ensures OnDisk(ids[|olds|..])
      ensures old(Durable()) ==> Durable()
      ensures old(Keyed(state)) ==> Keyed(state)
    {
      hide Tracks, HoldsTables, Flatten, Shows, LogSuffices, LogIsTail, Keyed;
      assert ids[0..] == ids;
      for i := 0 to |numbers|
        invariant OnDisk(ids[i..])
        invariant SameMemoryAndLog(state, old(state)) && HasRemoved(state.phase, olds, merged, i)
        invariant old(Durable()) ==> Durable()
        invariant old(Keyed(state)) ==> Keyed(state)
      {
        RemoveHolds(files, ids[i..], state.tables, filter);
        assert ids[i..][0] == numbers[i] && ids[i..][1..] == ids[i + 1..];
        TablesOfIds(files, ids[i..], state.tables, filter);
        files := files - {numbers[i]};
        Take(RemoveOldest);
      }
    }

    /** wal.purge_before(wal._current_seq), which ends the compaction */
    method PurgeLog(ghost before: State)
      requires Tracks(start, run, state) && wal.Valid() && wal.segments == state.segments
      requires state.phase.Merging? && state.phase.removed == |state.phase.olds|
      requires SameMemoryAndLog(state, before) && before.segments != []
      modifies this`state, this`run, wal
      ensures Tracks(start, run, state) && wal.Valid() && wal.segments == state.segments
      ensures state == old(state).(segments := [Last(before.segments)], phase := Idle)
      ensures old(wal.AtBoundary()) ==> wal.AtBoundary()
      ensures old(Durable()) && Covered(before) ==> Durable()
      ensures JustFlushed(before) ==> Durable()
      ensures old(Keyed(state)) ==> Keyed(state)
    {
      hide Tracks, Flatten, Shows, Covered, LogSuffices, LogIsTail, Keyed, JustFlushed;
      ghost var n := |state.segments| - 1;
      SameCover(state, before);
      var deleted := wal.PurgeBefore(wal.currentSeq);
      if JustFlushed(before) {
        CompactionMakesDurable(start, run, state);
      }
      Take(Purge(n));
      Take(EndCompaction);
    }

    // ---------- Reading ----------

    /** The readers are open on well-formed tables. */
    ghost predicate Readable()
      reads this
    {
      ReadsTables(readers, TablesOf(readers), filter)
    }

    /** What a scan goes through, oldest layer first. */
    ghost function Visible(): map<Bytes, Bytes>
      reads this, memtable, immutable
    {
      Live(StackContent(TablesOf(readers)) + Above())
    }

    /** What a lookup goes through: tables with an empty least key do not answer. */
    ghost function Reached(): map<Bytes, Bytes>
      reads this, memtable, immutable
    {
      Live(StackContent(Heard(TablesOf(readers))) + Above())
    }

    /** Between operations readers see the plain map, whatever the log can still recover. */
    lemma ValidIsReadable()
      requires Valid()
      ensures Readable() && Visible() == Contents()
      ensures Keyed(state) ==> Reached() == Contents()
    {
      hide Tracks, HoldsTables, ReadsTables, KeyedTables, TablesOf, Database, Live, StackContent, Heard, KeyedFrames;
      ReadsAre(readers, state.tables, filter);
      TracksShows(start, run, state);
      if Keyed(state) {
        KeyedStack(state);
        AllAreHeard(state.tables);
      }
    }

    lemma NothingInMemory()
      requires Valid() && state.mem == map[]
      ensures TableMap() == Contents()
    {
      hide Tracks, HoldsTables, ReadsTables, Database, Live, StackContent;
      TracksShows(start, run, state);
      assert StackContent(state.tables) + map[] == StackContent(state.tables);
    }

    method Get(key: Bytes) returns (r: Option<Bytes>)
      requires Readable()
      ensures r == Lookup(Reached(), key)
    {
      hide Content, StackContent, Live, Heard;
      ghost var tables := Heard(TablesOf(readers));
      LayersLookup(StackContent(tables), if immutable == null then map[] else immutable.data, memtable.data, key);
      var found := memtable.Get(key);
      if found.Some? {
        return Seen(found);
      }
      if immutable != null {
        found := immutable.Get(key);
        if found.Some? {
          return Seen(found);
        }
      }
      found := FindInTables(key);
      return Seen(found);
    }

    /** The loop over the tables, newest first. */
    method FindInTables(key: Bytes) returns (r: Option<Bytes>)
      requires Readable()
      ensures r == Lookup(StackContent(Heard(TablesOf(readers))), key)
    {
      hide Content, StackContent, ReadsTable, Heard, Answer;
      ghost var tables := TablesOf(readers);
      var i := |readers|;
      assert tables[..i] == tables;
      while i > 0
        invariant 0 <= i <= |readers|
        invariant Lookup(StackContent(Heard(tables)), key) == Lookup(StackContent(Heard(tables[..i])), key)
      {
        i := i - 1;
        assert ReadsTable(readers[i], tables[i], filter);
        HeardFront(tables, i, key);
        r := AskReader(readers[i], tables[i], filter, key);
        if r.Some? {
          return r;
        }
      }
      EmptyStack(key);
      return None;
    }

    /** Everything the generator yields; both ends of the range belong to it. */
    method Scan(start: Option<Bytes>, stop: Option<Bytes>) returns (r: Table)
      requires Readable()
      ensures Lists(r, Restrict(Visible(), start, stop))
      ensures ListsBetween(r, Visible(), start, stop)
    {
      hide Content, StackContent, Live, Ascending, Restrict, ListsBetween;
      ghost var tables := TablesOf(readers);
      ghost var frozenData: map<Bytes, Bytes> := if immutable == null then map[] else immutable.data;
      RestrictOverlay(StackContent(tables), frozenData, start, stop);
      RestrictOverlay(StackContent(tables) + frozenData, memtable.data, start, stop);
      RestrictLive(StackContent(tables) + frozenData + memtable.data, start, stop);
      MergeIsAssociative(StackContent(tables), frozenData, memtable.data);
      var combined := CombineTables(start, stop);
      if immutable != null {
        var frozen := immutable.SortedEntries();
        combined := CombineRange(combined, frozen, start, stop);
      } else {
        RestrictNothing(start, stop);
        assert combined + map[] == combined;
      }
      var recent := memtable.SortedEntries();
      combined := CombineRange(combined, recent, start, stop);
      var sorted := SortedItems(combined);
      r := LiveEntries(sorted);
      RestrictedIsBetween(r, Visible(), start, stop);
    }

    /** The loop over the tables, oldest first. */
    method CombineTables(start: Option<Bytes>, stop: Option<Bytes>) returns (combined: map<Bytes, Bytes>)
      requires Readable()
      ensures combined == Restrict(StackContent(TablesOf(readers)), start, stop)
    {
      hide Content, StackContent, Restrict, Range, ReadsTable;
      ghost var tables := TablesOf(readers);
      combined := map[];
      NothingInRange(start, stop);
      for i := 0 to |readers|
        invariant combined == Restrict(StackContent(tables[..i]), start, stop)
      {
        assert ReadsTable(readers[i], tables[i], filter);
        var entries := ScanReader(readers[i], tables[i], filter, start, stop);
        StackRange(tables, i, start, stop);
        combined := Combine(combined, entries);
      }
      assert tables[..|readers|] == tables;
    }
  }

  lemma NonEmptyListing(t: Table, m: map<Bytes, Bytes>)
    requires Lists(t, m) && |m| > 0
    ensures t != []
  {
  }

  lemma EmptyLayer(m: map<Bytes, Bytes>)
    ensures map[] + m == m == m + map[]
  {
  }

  lemma AllAscend(files: map<nat, Bytes>, ids: seq<nat>, tables: seq<Table>, f: Filter)
    requires WellShaped(f.shape) && HoldsTables(files, ids, tables, f)
    ensures forall t :: t in tables ==> Ascending(t)
  {
    hide Image, TableFits, Ascending;
  }

  lemma OpenedTracks(s: State)
    requires Inv(Opened(s.tables, s.segments))
    ensures var o := Opened(s.tables, s.segments);
            && Tracks(o, [], o)
            && Recovered(o) == Recovered(s)
            && (KeyedTables(s.tables) && KeyedFrames(Flatten(s.segments)) ==> Keyed(o))
  {
    hide Inv, Replay, Flatten, Live, AsFrames, Content, StackContent, Ascending;
    if KeyedTables(s.tables) && KeyedFrames(Flatten(s.segments)) {
      StackLookup(s.tables, []);
      StackOfEntries(s.tables);
      EntriesAreKeyed(AllEntries(s.tables));
      KeyedReplay(Flatten(s.segments));
    }
  }

  lemma KeyedStack(s: State)
    requires Keyed(s)
    ensures KeyedTables(s.tables)
  {
  }

  /** A flush has just ended: the tables hold everything and the current segment is empty. */
  predicate JustFlushed(s: State) {
    s.segments != [] && s.flushed == |s.history| && Last(s.segments) == []
  }

  lemma OverwriteIsEnabled(start: State, run: seq<Step>, s: State, older: map<Bytes, Bytes>, newer: map<Bytes, Bytes>,
                           t: Table)
    requires Tracks(start, run, s) && s.phase == Idle && s.mem == older + newer && Lists(t, newer)
    ensures Enabled(s, Overwrite(t)) && After(s, Overwrite(t)).mem == newer
    ensures Database(After(s, Overwrite(t)).history) == Live(StackContent(s.tables) + newer)
  {
    hide Tracks, Live, StackContent, Database, Ascending, Content, MemoryIsCurrent, TablesHoldFlushed;
    TracksServes(start, run, s);
    assert (older + newer) + newer == older + newer;
    OverwriteServes(s, t);
  }

  lemma CompactionMakesDurable(start: State, run: seq<Step>, s: State)
    requires Tracks(start, run, s) && JustFlushed(s) && Enabled(s, Purge(|s.segments| - 1))
    ensures LogSuffices(After(s, Purge(|s.segments| - 1)))
  {
    hide Tracks, Serving;
    TracksServes(start, run, s);
    CompactionRestores(s);
  }

  /** What a compaction of two or more tables makes of a state. */
  ghost predicate IsCompacted(s: State, u: State) {
    exists merged :: MergesTo(s.tables, merged) && s.segments != [] && |s.tables| >= 2 && u == Compacted(s, merged)
  }

  /** With every old table removed only the merged one is left. */
  lemma MergedIsAlone(start: State, run: seq<Step>, s: State)
    requires Tracks(start, run, s) && s.phase.Merging? && s.phase.removed == |s.phase.olds|
    ensures s.tables == FileOf(s.phase.merged) && Ascending(s.phase.merged)
  {
    hide Tracks, MemoryIsCurrent, TablesHoldFlushed, Ascending, Content, StackContent, Live;
    TracksServes(start, run, s);
  }

  lemma TablesOfIds(files: map<nat, Bytes>, ids: seq<nat>, tables: seq<Table>, f: Filter)
    requires WellShaped(f.shape) && HoldsTables(files, ids, tables, f)
    ensures |ids| == |tables|
  {
  }

  lemma ReadsAppend(readers: seq<SSTableReader>, tables: seq<Table>, f: Filter, r: SSTableReader, t: Table)
    requires ReadsTables(readers, tables, f) && ReadsTable(r, t, f)
    ensures ReadsTables(readers + [r], tables + [t], f)
  {
    hide ReadsTable;
  }

  lemma ReadsMerged(readers: seq<SSTableReader>, f: Filter, merged: Table)
    requires merged == [] ==> readers == []
    requires merged != [] ==> |readers| == 1 && ReadsTable(readers[0], merged, f)
    ensures ReadsTables(readers, FileOf(merged), f)
  {
    hide ReadsTable;
  }

  /** One more than the greatest number in use. */
  method NextId(listing: seq<nat>) returns (next: nat)
    ensures (forall x :: x in listing ==> x < next) && (next == 1 || next - 1 in listing)
  {
    var maxId := 0;
    for i := 0 to |listing|
      invariant (forall j :: 0 <= j < i ==> listing[j] <= maxId) && (maxId == 0 || maxId in listing)
    {
      if listing[i] > maxId {
        maxId := listing[i];
      }
    }
    next := maxId + 1;
  }

  /** The loop over the listing; a file that raises when it is opened is skipped. */
  method OpenAll(files: map<nat, Bytes>, listing: seq<nat>, ghost ids: seq<nat>, ghost tables: seq<Table>, f: Filter)
      returns (readers: seq<SSTableReader>, numbers: seq<nat>)
    requires WellShaped(f.shape) && HoldsTables(files, ids, tables, f) && ListsIds(listing, files.Keys)
    ensures ReadsTables(readers, tables, f) && numbers == ids
  {
    hide IsTableFile, ReadsTable, ReadMetadata;
    readers, numbers := [], [];
    for i := 0 to |listing|
      invariant |numbers| <= |ids| && numbers == ids[..|numbers|] && ReadsTables(readers, tables[..|numbers|], f)
      invariant forall j :: 0 <= j < |numbers| ==> ids[j] in listing[..i]
      invariant forall j :: |numbers| <= j < |ids| ==> ids[j] !in listing[..i]
    {
      ghost var k := |numbers|;
      NextInListing(files, ids, tables, f, listing, i, k);
      var meta := LoadMetadata(files[listing[i]]);
      if meta.Some? {
        var reader := OpenFile(files[listing[i]], tables[k], f);
        ReadsAppend(readers, tables[..k], f, reader, tables[k]);
        assert tables[..k + 1] == tables[..k] + [tables[k]] && ids[..k + 1] == ids[..k] + [ids[k]];
        readers := readers + [reader];
        numbers := numbers + [listing[i]];
      }
    }
    assert listing[..|listing|] == listing;
    if ids != [] {
      assert ids[|ids| - 1] in listing;
    }
    assert ids[..|ids|] == ids && tables[..|ids|] == tables;
  }

  method OpenFile(file: Bytes, ghost t: Table, f: Filter) returns (r: SSTableReader)
    requires WellShaped(f.shape) && IsTableFile(file, t, f)
    ensures ReadsTable(r, t, f)
  {
    hide Ascending, TableFits, Image, ReadsTable;
    r := OpenReader(file, t, f);
  }

  lemma ReadsCount(readers: seq<SSTableReader>, tables: seq<Table>, f: Filter)
    requires ReadsTables(readers, tables, f)
    ensures |readers| == |tables|
  {
  }

  lemma TracksShows(start: State, run: seq<Step>, s: State)
    requires Tracks(start, run, s) && s.phase == Idle
    ensures Live(StackContent(s.tables) + s.mem) == Database(s.history)
  {
    hide Tracks, Serving, Live, StackContent, Content, Database;
    TracksServes(start, run, s);
    IdleShowsDatabase(s);
  }

  method OpenReader(image: Bytes, ghost t: Table, f: Filter) returns (r: SSTableReader)
    requires Ascending(t) && TableFits(t, INDEX_INTERVAL, f) && image == Image(t, INDEX_INTERVAL, f)
    ensures ReadsTable(r, t, f)
  {
    hide Ascending, TableFits, Image;
    r := SSTableReader.Open(image, t, INDEX_INTERVAL, f);
  }

  /** The writer's result for these entries: no file for none, their image if it fits. */
  predicate IsFileOf(r: Finished, t: Table, f: Filter)
    requires WellShaped(f.shape)
  {
    match r
    case NoFile => t == []
    case File(image) => t != [] && TableFits(t, INDEX_INTERVAL, f) && image == Image(t, INDEX_INTERVAL, f)
    case StructError => t != [] && !TableFits(t, INDEX_INTERVAL, f)
  }

  method WriteTable(entries: Table, f: Filter) returns (r: Finished)
    requires WellShaped(f.shape)
    ensures IsFileOf(r, entries, f)
  {
    hide Image, TableFits, EntryFits, Sized;
    var writer := new SSTableWriter(f, INDEX_INTERVAL);
    hide writer.Valid;
    for i := 0 to |entries|
      invariant writer.Valid() && writer.written == entries[..i]
      invariant fresh(writer) && fresh(writer.bloom) && fresh(writer.bloom.bits)
    {
      assert entries[..i + 1] == entries[..i] + [entries[i]];
      var ok := writer.WriteEntry(entries[i].key, entries[i].value);
      if !ok {
        OneMisfit(entries, i, f);
        return StructError;
      }
    }
    assert entries[..|entries|] == entries;
    r := writer.Finish();
  }

  lemma OneMisfit(t: Table, i: nat, f: Filter)
    requires i < |t| && !EntryFits(Entry(t[i].key, t[i].value))
    ensures !TableFits(t, INDEX_INTERVAL, f)
  {
    assert Entry(t[i].key, t[i].value) == t[i];
  }

  predicate MergesTo(stack: seq<Table>, merged: Table) {
    Lists(merged, Live(StackContent(stack)))
  }

  /** Writing the merged table raises exactly when the live entries do not fit a table file. */
  lemma MergedIsWritable(stack: seq<Table>, merged: Table, r: Finished, f: Filter)
    requires WellShaped(f.shape) && MergesTo(stack, merged) && IsFileOf(r, merged, f)
    ensures Writable(Live(StackContent(stack)), f) <==> !r.StructError?
  {
    hide Lists, Live, StackContent, TableFits, Image;
    WritableListing(merged, Live(StackContent(stack)), f);
  }

  /** The heap merge over all readers, into a new table file. */
  method MergeReaders(readers: seq<SSTableReader>, ghost stack: seq<Table>, f: Filter)
      returns (r: Finished, ghost merged: Table)
    requires WellShaped(f.shape) && ReadsTables(readers, stack, f)
    ensures MergesTo(stack, merged) && IsFileOf(r, merged, f)
  {
    hide Lists, Ascending, Content, StackContent, Live, Image, TableFits, ReadsTables, AllAscending, AllEntriesFit,
      Sized;
    var tables := ReadAll(readers, stack, f);
    var writer := new SSTableWriter(f, INDEX_INTERVAL);
    hide writer.Valid;
    MergeTables(tables, writer);
    r := writer.Finish();
    merged := writer.written;
  }

  method ReadAll(readers: seq<SSTableReader>, ghost stack: seq<Table>, f: Filter) returns (tables: seq<Table>)
    requires ReadsTables(readers, stack, f)
    ensures tables == stack && AllAscending(tables) && AllEntriesFit(tables)
  {
    hide Ascending, EntryFits, ReadsTable;
    tables := [];
    for i := 0 to |readers|
      invariant tables == stack[..i] && AllAscending(tables) && AllEntriesFit(tables)
    {
      assert ReadsTable(readers[i], stack[i], f);
      var entries := ReadWhole(readers[i], stack[i], f);
      tables := tables + [entries];
    }
    assert stack[..|readers|] == stack;
  }

  method ReadWhole(reader: SSTableReader, ghost t: Table, f: Filter) returns (entries: Table)
    requires ReadsTable(reader, t, f)
    ensures entries == t && Ascending(t) && forall i :: 0 <= i < |t| ==> EntryFits(t[i])
  {
    hide Image, Ascending, EntryFits;
    entries := reader.IterAll();
  }

  method AskReader(reader: SSTableReader, ghost t: Table, ghost f: Filter, key: Bytes) returns (r: Option<Bytes>)
    requires ReadsTable(reader, t, f)
    ensures r == Answer(t, key)
  {
    hide Content, Image, Answer, Ascending;
    r := reader.Get(key);
  }

  method ScanReader(reader: SSTableReader, ghost t: Table, ghost f: Filter, start: Option<Bytes>, stop: Option<Bytes>)
      returns (r: Table)
    requires ReadsTable(reader, t, f)
    ensures Ascending(t) && r == Range(t, start, stop)
    ensures Content(r) == Restrict(Content(t), start, stop)
  {
    hide Content, Image, Ascending, Range, Restrict;
    RangeLists(t, start, stop);
    r := reader.Scan(start, stop);
  }

  lemma LayersLookup(a: map<Bytes, Bytes>, b: map<Bytes, Bytes>, c: map<Bytes, Bytes>, key: Bytes)
    ensures Lookup(Live(a + (b + c)), key)
         == Seen(if key in c then Some(c[key]) else if key in b then Some(b[key]) else Lookup(a, key))
  {
    LiveLookup(a + (b + c), key);
  }

  lemma EmptyStack(key: Bytes)
    ensures Heard([]) == [] && Lookup(StackContent([]), key) == None
  {
  }

  lemma NothingInRange(start: Option<Bytes>, stop: Option<Bytes>)
    ensures Restrict(StackContent([]), start, stop) == map[]
  {
  }

  lemma RestrictNothing(start: Option<Bytes>, stop: Option<Bytes>)
    ensures Restrict(map[], start, stop) == map[]
  {
  }

  lemma StackRange(tables: seq<Table>, i: nat, start: Option<Bytes>, stop: Option<Bytes>)
    requires i < |tables|
    ensures Restrict(StackContent(tables[..i + 1]), start, stop)
         == Restrict(StackContent(tables[..i]), start, stop) + Restrict(Content(tables[i]), start, stop)
  {
    hide Content, Restrict;
    assert tables[..i + 1][..i] == tables[..i];
    RestrictOverlay(StackContent(tables[..i]), Content(tables[i]), start, stop);
  }
}
