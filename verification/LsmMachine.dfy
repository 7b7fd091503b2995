// The durable steps of the LSM tree as a state machine, crashes included, and what recovery shows.

module LsmMachine {
  import opened ByteStrings
  import opened Tables
  import opened Wal
  import opened WalLog

  // ---------- Histories ----------

  /** The memtable after replaying frames; only SET and DEL frames count. */
  function Replay(fs: seq<Frame>): map<Bytes, Bytes> {
    if fs == [] then map[]
    else
      var m := Replay(fs[..|fs| - 1]);
      var f := fs[|fs| - 1];
      if f.op == SET then m[f.key := f.value]
      else if f.op == DEL then m[f.key := TOMBSTONE]
      else m
  }

  /** The plain map the store stands for; writing the tombstone constant deletes. */
  function Database(fs: seq<Frame>): map<Bytes, Bytes> {
    if fs == [] then map[]
    else
      var m := Database(fs[..|fs| - 1]);
      var f := fs[|fs| - 1];
      if f.op == SET && f.value != TOMBSTONE then m[f.key := f.value]
      else if f.op == SET || f.op == DEL then m - {f.key}
      else m
  }

  lemma LiveUpdate(m: map<Bytes, Bytes>, k: Bytes, v: Bytes)
    ensures Live(m[k := v]) == if v == TOMBSTONE then Live(m) - {k} else Live(m)[k := v]
  {
  }

  /** Tombstones are an encoding of the plain map. */
  lemma {:induction false} LiveReplay(fs: seq<Frame>)
    ensures Live(Replay(fs)) == Database(fs)
  {
    if fs != [] {
      var f := fs[|fs| - 1];
      LiveReplay(fs[..|fs| - 1]);
      LiveUpdate(Replay(fs[..|fs| - 1]), f.key, if f.op == SET then f.value else TOMBSTONE);
    }
  }

  lemma {:induction false} ReplayConcat(a: seq<Frame>, b: seq<Frame>)
    ensures Replay(a + b) == Replay(a) + Replay(b)
  {
    if b == [] {
      assert a + b == a;
      assert Replay(a) + map[] == Replay(a);
    } else {
      var n := |b| - 1;
      assert (a + b)[..|a| + n] == a + b[..n];
      ReplayConcat(a, b[..n]);
      UpdateAbove(Replay(a), Replay(b[..n]), b[n].key, if b[n].op == SET then b[n].value else TOMBSTONE);
    }
  }

  lemma UpdateAbove<K, V>(a: map<K, V>, b: map<K, V>, k: K, v: V)
    ensures (a + b)[k := v] == a + b[k := v]
  {
  }

  lemma Absorb<K, V>(a: map<K, V>, b: map<K, V>, c: map<K, V>)
    ensures (a + b) + (b + c) == (a + b) + c
  {
  }

  /** Replaying frames the tables already hold changes nothing. */
  lemma ReplayAgain(h: seq<Frame>, p: nat, flushed: nat)
    requires p <= flushed <= |h|
    ensures Replay(h[..flushed]) + Replay(h[p..]) == Replay(h)
  {
    hide Replay;
    assert h == h[..flushed] + h[flushed..];
    assert h[..flushed] == h[..p] + h[p..flushed];
    assert h[p..] == h[p..flushed] + h[flushed..];
    ReplayConcat(h[..flushed], h[flushed..]);
    ReplayConcat(h[..p], h[p..flushed]);
    ReplayConcat(h[p..flushed], h[flushed..]);
    Absorb(Replay(h[..p]), Replay(h[p..flushed]), Replay(h[flushed..]));
  }

  lemma LiveAt(m: map<Bytes, Bytes>, k: Bytes)
    ensures Lookup(Live(m), k) == if k in m && m[k] != TOMBSTONE then Some(m[k]) else None
  {
  }

  // ---------- States ----------

  /** Idle: between operations. Logged: the last frame is appended and not yet in the
      memtable. Published: a flushed table is durable, the log not yet rotated.
      Merging: the merged table is durable; `removed` old ones are gone. */
  datatype Phase =
    | Idle
    | Logged
    | Published
    | Merging(olds: seq<Table>, merged: Table, removed: nat)

  /** tables and segments are on disk, the segments as a replay reads them; mem is not.
      history (the frames whose effects the store owes its callers) and flushed (how many of
      them the tables account for) only serve the proof. */
  datatype State = State(tables: seq<Table>, segments: seq<seq<Frame>>, mem: map<Bytes, Bytes>,
                         history: seq<Frame>, flushed: nat, phase: Phase)

  const INITIAL := State([], [[]], map[], [], 0, Idle)

  /** AppendBehindTail: an append to a segment that does not end on a frame boundary; `seen`
      is what a replay of that segment finds afterwards. Overwrite: a flush drops the memtable
      that a raised flush had set aside; `kept` lists what memory still holds. */
  datatype Step =
    | Append(f: Frame)
    | AppendBehindTail(f: Frame, seen: seq<Frame>)
    | RotateBySize
    | Remember
    | Overwrite(kept: Table)
    | Publish(t: Table)
    | Rotate
    | PublishMerged(merged: Table)
    | RemoveOldest
    | Purge(n: nat)
    | EndCompaction
    | Crash

  function Last<T>(s: seq<T>): T
    requires s != []
  {
    s[|s| - 1]
  }

  /** A table without entries leaves no file. */
  function FileOf(t: Table): seq<Table> {
    if t == [] then [] else [t]
  }

  /** The entries of a table as the frames that write them. */
  function AsFrames(t: Table): (fs: seq<Frame>)
    ensures |fs| == |t|
  {
    seq(|t|, i requires 0 <= i < |t| => Frame(0, "00000000", SET, t[i].key, t[i].value))
  }

  /** Every frame outside the current segment is already in the tables: no log
      rotation by size has happened since the last flush. */
  predicate Covered(s: State) {
    s.segments != [] && |s.history| - |Last(s.segments)| <= s.flushed
  }

  predicate Enabled(s: State, step: Step) {
    match step
    case Append(f) => s.phase == Idle && s.segments != []
    case AppendBehindTail(f, seen) => s.phase == Idle && s.segments != []
    case RotateBySize => s.phase == Logged
    case Remember => s.phase == Logged && s.history != []
    case Overwrite(kept) => s.phase == Idle && s.flushed <= |s.history| && s.mem == s.mem + Content(kept)
    case Publish(t) => s.phase == Idle && t != [] && Lists(t, s.mem)
    case Rotate => s.phase == Published
    case PublishMerged(merged) =>
      s.phase == Idle && |s.tables| >= 2 && Lists(merged, Live(StackContent(s.tables)))
    case RemoveOldest => s.phase.Merging? && s.phase.removed < |s.phase.olds| && s.tables != []
    case Purge(n) => s.phase.Merging? && s.phase.removed == |s.phase.olds| && n < |s.segments|
    case EndCompaction => s.phase.Merging?
    case Crash => true
  }

  function Remembered(mem: map<Bytes, Bytes>, f: Frame): map<Bytes, Bytes> {
    if f.op == SET then mem[f.key := f.value]
    else if f.op == DEL then mem[f.key := TOMBSTONE]
    else mem
  }

  function After(s: State, step: Step): State
    requires Enabled(s, step)
  {
    match step
    case Append(f) => s.(segments := WithFrame(s.segments, f), history := s.history + [f], phase := Logged)
    case AppendBehindTail(f, seen) =>
      s.(segments := s.segments[|s.segments| - 1 := seen], history := s.history + [f], phase := Logged)
    case RotateBySize => s.(segments := s.segments + [[]])
    case Remember => s.(mem := Remembered(s.mem, Last(s.history)), phase := Idle)
    case Overwrite(kept) => s.(mem := Content(kept), history := s.history[..s.flushed] + AsFrames(kept))
    case Publish(t) => s.(tables := s.tables + [t], mem := map[], flushed := |s.history|, phase := Published)
    case Rotate => s.(segments := s.segments + [[]], phase := Idle)
    case PublishMerged(merged) =>
      s.(tables := s.tables + FileOf(merged), phase := Merging(s.tables, merged, 0))
    case RemoveOldest => s.(tables := s.tables[1..], phase := s.phase.(removed := s.phase.removed + 1))
    case Purge(n) => s.(segments := s.segments[n..])
    case EndCompaction => s.(phase := Idle)
    case Crash => s.(mem := Replay(Flatten(s.segments)), phase := Idle)
  }

  /** What a fresh process shows after loading the tables and replaying the log. */
  function Recovered(s: State): map<Bytes, Bytes> {
    Live(StackContent(s.tables) + Replay(Flatten(s.segments)))
  }

  /** What the running process shows. */
  function Shown(s: State): map<Bytes, Bytes> {
    Live(StackContent(s.tables) + s.mem)
  }

  // ---------- The invariants ----------

  predicate TablesHoldFlushed(s: State)
    requires s.flushed <= |s.history|
  {
    Live(StackContent(s.tables)) == Live(Replay(s.history[..s.flushed]))
  }

  /** How many frames the running process has applied. */
  function Applied(s: State): int {
    if s.phase == Logged then |s.history| - 1 else |s.history|
  }

  predicate MemoryIsCurrent(s: State) {
    0 <= Applied(s) && Shown(s) == Live(Replay(s.history[..Applied(s)])) && s.flushed <= Applied(s)
  }

  predicate PhaseOk(s: State) {
    match s.phase
    case Merging(olds, merged, removed) =>
      && removed <= |olds|
      && Lists(merged, Live(StackContent(olds)))
      && s.tables == olds[removed..] + FileOf(merged)
    case Published => s.flushed == |s.history|
    case _ => true
  }

  /** What the running process needs, whatever has become of the log. */
  predicate Serving(s: State) {
    && (forall t :: t in s.tables ==> Ascending(t))
    && s.segments != []
    && s.flushed <= |s.history|
    && TablesHoldFlushed(s)
    && MemoryIsCurrent(s)
    && PhaseOk(s)
  }

  /** A replay of the log reads the last frames of the history. */
  predicate LogIsTail(s: State) {
    var n := |Flatten(s.segments)|;
    && s.segments != []
    && n <= |s.history|
    && Flatten(s.segments) == s.history[|s.history| - n..]
  }

  /** And it reaches back to where the tables end. */
  predicate LogSuffices(s: State) {
    LogIsTail(s) && |s.history| - |Flatten(s.segments)| <= s.flushed <= |s.history|
  }

  /** What recovery needs on top. */
  predicate Inv(s: State) {
    Serving(s) && LogSuffices(s)
  }

  /** Recovery is exact in every state of the invariant. */
  lemma RecoveryIsExact(s: State)
    requires Inv(s)
    ensures Recovered(s) == Database(s.history)
  {
    hide Replay, Database, Live, StackContent, Flatten, MemoryIsCurrent, PhaseOk, Ascending;
    var p := |s.history| - |Flatten(s.segments)|;
    ReplayAgain(s.history, p, s.flushed);
    LiveOverlay(StackContent(s.tables), Replay(s.history[..s.flushed]), Replay(s.history[p..]));
    LiveReplay(s.history);
  }

  // ---------- Every step keeps the process serving ----------

  lemma AppendServes(s: State, step: Step)
    requires Serving(s) && (step.Append? || step.AppendBehindTail?) && Enabled(s, step)
    ensures Serving(After(s, step))
  {
    hide Replay, Live, StackContent, Ascending;
    var u := After(s, step);
    assert u.history[..s.flushed] == s.history[..s.flushed];
    assert u.history[..|s.history|] == s.history && s.history[..|s.history|] == s.history;
  }

  lemma RememberServes(s: State)
    requires Serving(s) && Enabled(s, Remember)
    ensures Serving(After(s, Remember))
  {
    hide Live, StackContent, Ascending, TablesHoldFlushed;
    var n := |s.history| - 1;
    var f := Last(s.history);
    var below := StackContent(s.tables);
    assert s.history[..|s.history|] == s.history && s.history[..n + 1][..n] == s.history[..n];
    UpdateAbove(below, s.mem, f.key, if f.op == SET then f.value else TOMBSTONE);
    LiveUpdate(below + s.mem, f.key, if f.op == SET then f.value else TOMBSTONE);
    LiveUpdate(Replay(s.history[..n]), f.key, if f.op == SET then f.value else TOMBSTONE);
    SameTables(s, After(s, Remember));
  }

  lemma SameTables(s: State, u: State)
    requires s.tables == u.tables && s.history == u.history && s.flushed == u.flushed <= |s.history|
    ensures TablesHoldFlushed(s) == TablesHoldFlushed(u)
  {
  }

  lemma {:induction false} ReplayOfEntries(t: Table)
    ensures Replay(AsFrames(t)) == Content(t)
  {
    if t != [] {
      var n := |t| - 1;
      ReplayOfEntries(t[..n]);
      assert AsFrames(t)[..n] == AsFrames(t[..n]);
    }
  }

  lemma OverwriteServes(s: State, kept: Table)
    requires Serving(s) && Enabled(s, Overwrite(kept))
    ensures Serving(After(s, Overwrite(kept)))
    ensures Database(After(s, Overwrite(kept)).history) == Live(StackContent(s.tables) + Content(kept))
  {
    hide Replay, Live, StackContent, Ascending, AsFrames, Content, Database;
    var u, h := After(s, Overwrite(kept)), s.history[..s.flushed];
    assert u.history[..s.flushed] == h && u.history[..|u.history|] == u.history == h + AsFrames(kept);
    ReplayConcat(h, AsFrames(kept));
    ReplayOfEntries(kept);
    LiveOverlay(StackContent(s.tables), Replay(h), Content(kept));
    LiveReplay(u.history);
  }

  lemma PublishServes(s: State, t: Table)
    requires Serving(s) && Enabled(s, Publish(t))
    ensures Serving(After(s, Publish(t)))
  {
    hide Replay, Live, Ascending, Content, StackContent;
    var u := After(s, Publish(t));
    StackSplit(s.tables, [t]);
    StackOne(t);
    assert StackContent(u.tables) + map[] == StackContent(u.tables) == StackContent(s.tables) + s.mem;
    assert s.history[..|s.history|] == s.history;
  }

  lemma EmptyMerged(olds: seq<Table>, removed: nat, merged: Table)
    requires removed <= |olds|
    ensures StackContent(olds[removed..] + FileOf(merged)) == StackContent(olds[removed..] + [merged])
  {
    if merged == [] {
      StackSplit(olds[removed..], [merged]);
      StackOne(merged);
      assert olds[removed..] + FileOf(merged) == olds[removed..];
      assert StackContent(olds[removed..]) + map[] == StackContent(olds[removed..]);
    }
  }

  /** Publishing the merged table or removing an old one changes nothing that is read. */
  lemma MergingReads(olds: seq<Table>, removed: nat, merged: Table)
    requires removed <= |olds| && Lists(merged, Live(StackContent(olds)))
    ensures Live(StackContent(olds[removed..] + FileOf(merged))) == Live(StackContent(olds))
  {
    hide Live, StackContent, Content, Ascending;
    EmptyMerged(olds, removed, merged);
    SurvivingSuffix(olds, removed, merged);
  }

  lemma MergingServes(s: State, step: Step)
    requires Serving(s) && (step.PublishMerged? || step == RemoveOldest) && Enabled(s, step)
    ensures Serving(After(s, step))
  {
    hide Replay, Live, StackContent, Ascending, Content;
    var u := After(s, step);
    var Merging(olds, merged, removed) := u.phase;
    MergingReads(olds, removed, merged);
    assert olds[0..] == olds;
    if step == RemoveOldest {
      MergingReads(olds, removed - 1, merged);
      assert (olds[removed - 1..] + FileOf(merged))[1..] == olds[removed..] + FileOf(merged);
    }
    assert u.tables == olds[removed..] + FileOf(merged);
    LiveOverlay(StackContent(s.tables), StackContent(u.tables), s.mem);
    assert forall i :: 0 <= i < |u.tables| ==> u.tables[i] == merged || u.tables[i] in s.tables;
  }

  /** Steps that touch the log only. */
  lemma LogServes(s: State, step: Step)
    requires Serving(s) && (step == Rotate || step == RotateBySize || step.Purge? || step == EndCompaction)
    requires Enabled(s, step)
    ensures Serving(After(s, step))
  {
    hide Replay, Live, StackContent, Ascending, Content;
  }

  lemma CrashServes(s: State)
    requires Inv(s)
    ensures Serving(After(s, Crash))
  {
    hide Replay, Live, StackContent, Flatten, Ascending, Content, Database, LogSuffices, TablesHoldFlushed;
    var u := After(s, Crash);
    SameTables(s, u);
    RecoveryIsExact(s);
    LiveReplay(s.history);
    assert s.history[..|s.history|] == s.history;
    assert Shown(u) == Recovered(s);
  }

  /** Every step keeps the process serving, a crash where the log suffices. */
  lemma StepServes(s: State, step: Step)
    requires Serving(s) && Enabled(s, step) && (step == Crash ==> LogSuffices(s))
    ensures Serving(After(s, step))
  {
    hide Serving, LogSuffices, After, Enabled;
    match step
    case Append(_) => AppendServes(s, step);
    case AppendBehindTail(_, _) => AppendServes(s, step);
    case RotateBySize => LogServes(s, step);
    case Remember => RememberServes(s);
    case Overwrite(kept) => OverwriteServes(s, kept);
    case Publish(t) => PublishServes(s, t);
    case Rotate => LogServes(s, step);
    case PublishMerged(_) => MergingServes(s, step);
    case RemoveOldest => MergingServes(s, step);
    case Purge(_) => LogServes(s, step);
    case EndCompaction => LogServes(s, step);
    case Crash => CrashServes(s);
  }

  // ---------- Which steps keep the store recoverable ----------

  /** The steps that may leave a log that no longer suffices: an append behind a torn tail, a
      dropped memtable, and a purge after a rotation by size. */
  predicate LosesLog(s: State, step: Step) {
    step.AppendBehindTail? || step.Overwrite? || (step.Purge? && !Covered(s))
  }

  lemma FlattenEndsWithLast(segments: seq<seq<Frame>>)
    requires segments != []
    ensures |Flatten(segments)| >= |Last(segments)|
  {
  }

  lemma LogStaysTail(s: State, step: Step)
    requires Serving(s) && LogIsTail(s) && Enabled(s, step) && !step.AppendBehindTail? && !step.Overwrite?
    ensures LogIsTail(After(s, step))
    ensures !step.Purge? ==> |After(s, step).history| - |Flatten(After(s, step).segments)|
                             == |s.history| - |Flatten(s.segments)|
    ensures step.Purge? && Covered(s) ==>
              |After(s, step).history| - |Flatten(After(s, step).segments)| <= s.flushed
  {
    hide Serving, Replay;
    var u := After(s, step);
    match step
    case Append(f) =>
      FlattenAppend(s.segments, f);
      hide Flatten;
      var n := |Flatten(s.segments)|;
      assert u.history[|u.history| - n - 1..] == s.history[|s.history| - n..] + [f];
    case RotateBySize => FlattenRotate(s.segments);
    case Rotate => FlattenRotate(s.segments);
    case Purge(n) =>
      FlattenDrop(s.segments, n);
      FlattenEndsWithLast(u.segments);
      hide Flatten;
      assert Last(u.segments) == Last(s.segments);
    case _ =>
  }

  /** All other steps keep the log sufficient, whatever runs before or after a crash. */
  lemma LogKeepsSufficing(s: State, step: Step)
    requires Inv(s) && Enabled(s, step) && !LosesLog(s, step)
    ensures LogSuffices(After(s, step))
  {
    hide LogIsTail, TablesHoldFlushed, MemoryIsCurrent, Flatten, Ascending, Replay;
    LogStaysTail(s, step);
  }

  lemma StepKeeps(s: State, step: Step)
    requires Inv(s) && Enabled(s, step) && !LosesLog(s, step)
    ensures Inv(After(s, step))
  {
    hide Serving, LogSuffices, After, Enabled, LosesLog;
    StepServes(s, step);
    LogKeepsSufficing(s, step);
  }

  /** The next flush makes the log sufficient again, unless frames in it cannot be read. */
  lemma FlushRestores(s: State, t: Table)
    requires Serving(s) && LogIsTail(s) && Enabled(s, Publish(t))
    ensures Inv(After(s, Publish(t))) && Covered(After(After(s, Publish(t)), Rotate))
  {
    hide Serving, Flatten, Replay, Live, StackContent;
    PublishServes(s, t);
    LogStaysTail(s, Publish(t));
  }

  /** Even then, a compaction right after a flush does. */
  lemma CompactionRestores(s: State)
    requires Serving(s) && s.flushed == |s.history| && s.segments != [] && Last(s.segments) == []
    requires Enabled(s, Purge(|s.segments| - 1))
    ensures Inv(After(s, Purge(|s.segments| - 1)))
  {
    hide Serving;
    var u := After(s, Purge(|s.segments| - 1));
    LogServes(s, Purge(|s.segments| - 1));
    assert u.segments == [[]];
    FlattenRotate([]);
    assert [] + [[]] == u.segments && Flatten([]) == [];
  }

  lemma InitialState()
    ensures Inv(INITIAL)
  {
    assert Flatten([[]]) == [] + [];
    var nothing: map<Bytes, Bytes> := map[];
    assert nothing + nothing == nothing && Live(nothing) == nothing;
  }

  // ---------- Runs ----------

  predicate IsRun(s: State, steps: seq<Step>)
    decreases |steps|
  {
    steps == [] || (Enabled(s, steps[0]) && IsRun(After(s, steps[0]), steps[1..]))
  }

  function EndOf(s: State, steps: seq<Step>): State
    requires IsRun(s, steps)
    decreases |steps|
  {
    if steps == [] then s else EndOf(After(s, steps[0]), steps[1..])
  }

  lemma {:induction false} RunExtends(s: State, steps: seq<Step>, step: Step)
    requires IsRun(s, steps) && Enabled(EndOf(s, steps), step)
    ensures IsRun(s, steps + [step]) && EndOf(s, steps + [step]) == After(EndOf(s, steps), step)
    decreases |steps|
  {
    hide Enabled, After;
    if steps == [] {
      assert [step][1..] == [];
    } else {
      RunExtends(After(s, steps[0]), steps[1..], step);
      assert (steps + [step])[1..] == steps[1..] + [step];
    }
  }

  function AppendedIn(step: Step): seq<Frame> {
    if step.Append? || step.AppendBehindTail? then [step.f] else []
  }

  /** The appended frames of a run, crashes and compactions included. */
  function AppendedBy(steps: seq<Step>): seq<Frame> {
    if steps == [] then [] else AppendedIn(steps[0]) + AppendedBy(steps[1..])
  }

  /** No memtable is dropped. */
  predicate KeepsMemory(steps: seq<Step>) {
    forall i :: 0 <= i < |steps| ==> !steps[i].Overwrite?
  }

  /** Every crash finds a log that suffices. */
  predicate CrashesRecover(s: State, steps: seq<Step>)
    requires IsRun(s, steps)
    decreases |steps|
  {
    steps == [] || ((steps[0] == Crash ==> LogSuffices(s)) && CrashesRecover(After(s, steps[0]), steps[1..]))
  }

  /** No step of the run loses part of the log. */
  predicate KeepsLog(s: State, steps: seq<Step>)
    requires IsRun(s, steps)
    decreases |steps|
  {
    steps == [] || (!LosesLog(s, steps[0]) && KeepsLog(After(s, steps[0]), steps[1..]))
  }

  lemma HistoryGrows(s: State, step: Step)
    requires Enabled(s, step) && !step.Overwrite?
    ensures After(s, step).history == s.history + AppendedIn(step)
  {
  }

  lemma {:induction false} RunServes(s: State, steps: seq<Step>)
    requires Serving(s) && IsRun(s, steps) && CrashesRecover(s, steps)
    ensures Serving(EndOf(s, steps))
    decreases |steps|
  {
    hide Serving, After, Enabled, LogSuffices;
    if steps != [] {
      StepServes(s, steps[0]);
      RunServes(After(s, steps[0]), steps[1..]);
    }
  }

  lemma {:induction false} RunHistory(s: State, steps: seq<Step>)
    requires IsRun(s, steps) && KeepsMemory(steps)
    ensures EndOf(s, steps).history == s.history + AppendedBy(steps)
    decreases |steps|
  {
    hide After, Enabled, AppendedIn;
    if steps != [] {
      HistoryGrows(s, steps[0]);
      RunHistory(After(s, steps[0]), steps[1..]);
      var first := AppendedIn(steps[0]);
      assert (s.history + first) + AppendedBy(steps[1..]) == s.history + (first + AppendedBy(steps[1..]));
    } else {
      assert s.history + [] == s.history;
    }
  }

  lemma {:induction false} RunKeeps(s: State, steps: seq<Step>)
    requires Inv(s) && IsRun(s, steps) && KeepsLog(s, steps)
    ensures Inv(EndOf(s, steps)) && CrashesRecover(s, steps) && KeepsMemory(steps)
    decreases |steps|
  {
    hide Serving, After, Enabled, LogSuffices;
    if steps != [] {
      StepKeeps(s, steps[0]);
      RunKeeps(After(s, steps[0]), steps[1..]);
      assert forall i :: 0 < i < |steps| ==> steps[i] == steps[1..][i - 1];
    }
  }

  /** Crash refinement: stop any run that keeps its log after any step, with any number of
      crashes inside it, and recovery shows exactly the map of all completed appends. */
  lemma CrashRefinement(steps: seq<Step>)
    requires IsRun(INITIAL, steps) && KeepsLog(INITIAL, steps)
    ensures Recovered(EndOf(INITIAL, steps)) == Database(AppendedBy(steps))
  {
    hide Inv, IsRun, KeepsLog, Recovered, Database;
    InitialState();
    RunKeeps(INITIAL, steps);
    RunHistory(INITIAL, steps);
    assert [] + AppendedBy(steps) == AppendedBy(steps);
    RecoveryIsExact(EndOf(INITIAL, steps));
  }

  /** Run refinement: between operations the running process shows the map of all appends,
      whatever compactions, rotations and torn tails have done to the log; a crash must have
      found a log that sufficed. */
  lemma RunRefinement(steps: seq<Step>)
    requires IsRun(INITIAL, steps) && EndOf(INITIAL, steps).phase == Idle
    requires CrashesRecover(INITIAL, steps) && KeepsMemory(steps)
    ensures Shown(EndOf(INITIAL, steps)) == Database(AppendedBy(steps))
  {
    hide Inv, IsRun, CrashesRecover, KeepsMemory, Shown, Database;
    InitialState();
    RunServes(INITIAL, steps);
    RunHistory(INITIAL, steps);
    assert [] + AppendedBy(steps) == AppendedBy(steps);
    IdleShowsDatabase(EndOf(INITIAL, steps));
  }

  /** Without a crash nothing needs to be asked of the log. */
  lemma {:induction false} NoCrashRecovers(s: State, steps: seq<Step>)
    requires IsRun(s, steps) && forall i :: 0 <= i < |steps| ==> steps[i] != Crash
    ensures CrashesRecover(s, steps)
    decreases |steps|
  {
    hide After, Enabled, LogSuffices;
    if steps != [] {
      NoCrashRecovers(After(s, steps[0]), steps[1..]);
    }
  }

  lemma IdleShowsDatabase(s: State)
    requires Serving(s) && s.phase == Idle
    ensures Shown(s) == Database(s.history)
  {
    hide Database, Live, StackContent, Replay, TablesHoldFlushed, Ascending;
    assert s.history[..|s.history|] == s.history;
    LiveReplay(s.history);
  }

  // ---------- Opening a directory ----------

  /** The entries of all tables, oldest table first. */
  function AllEntries(ts: seq<Table>): Table {
    if ts == [] then [] else AllEntries(ts[..|ts| - 1]) + ts[|ts| - 1]
  }

  lemma {:induction false} StackOfEntries(ts: seq<Table>)
    ensures Content(AllEntries(ts)) == StackContent(ts)
  {
    if ts != [] {
      var n := |ts| - 1;
      StackOfEntries(ts[..n]);
      ContentConcat(AllEntries(ts[..n]), ts[n]);
    }
  }

  /** The state of a process that has loaded these tables and replayed these segments. */
  function Opened(tables: seq<Table>, segments: seq<seq<Frame>>): State {
    var entries := AllEntries(tables);
    State(tables, segments, Replay(Flatten(segments)), AsFrames(entries) + Flatten(segments), |entries|, Idle)
  }

  /** Any directory of ascending tables with any log is a state of the invariant, whose map is
      what the tables and the log show. */
  lemma OpenedIsInv(tables: seq<Table>, segments: seq<seq<Frame>>)
    requires (forall t :: t in tables ==> Ascending(t)) && segments != []
    ensures var s := Opened(tables, segments); Inv(s) && Database(s.history) == Recovered(s)
  {
    hide Replay, Live, StackContent, Flatten, Ascending, AsFrames, Content, Database;
    var s := Opened(tables, segments);
    var front, log := AsFrames(AllEntries(tables)), Flatten(segments);
    assert s.history[..s.flushed] == front && s.history[..|s.history|] == s.history;
    assert s.history[|s.history| - |log|..] == log;
    ReplayOfEntries(AllEntries(tables));
    StackOfEntries(tables);
    ReplayConcat(front, log);
    LiveReplay(s.history);
  }
}
