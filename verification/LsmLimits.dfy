// Where crash safety ends: purging the log after a rotation by size, or newest segment first.

module LsmLimits {
  import opened ByteStrings
  import opened Tables
  import opened Wal
  import opened WalLog
  import opened LsmMachine

  /** Once a flush has covered the log, only a rotation by size ends that, or a step that
      loses part of the log. */
  lemma CoveredUntilSizeRotation(s: State, step: Step)
    requires Serving(s) && Covered(s) && Enabled(s, step) && step != RotateBySize && !LosesLog(s, step)
    ensures Covered(After(s, step))
  {
    hide Flatten, TablesHoldFlushed, MemoryIsCurrent, Ascending, Live;
    var u := After(s, step);
    if step.Purge? {
      assert Last(u.segments) == Last(s.segments);
    }
  }

  // ---------- A purge that the tables do not cover ----------

  /** The frames an uncovered purge destroys: appended since the last flush and not in
      the current segment. */
  function Lost(s: State): seq<Frame>
    requires s.segments != [] && !Covered(s) && |Last(s.segments)| <= |s.history|
  {
    s.history[s.flushed..|s.history| - |Last(s.segments)|]
  }

  /** What an explicit compaction of two or more tables leaves: the merged table, and the
      current segment of the log. */
  function Compacted(s: State, merged: Table): State
    requires s.segments != [] && |s.tables| >= 2 && Lists(merged, Live(StackContent(s.tables)))
  {
    s.(tables := FileOf(merged), segments := [Last(s.segments)])
  }

  /** Each lost key is written again in the current segment, or the tables show its
      last lost value already. */
  predicate LossIsHarmless(s: State)
    requires s.segments != [] && !Covered(s) && |Last(s.segments)| <= |s.history|
  {
    forall k :: k in Replay(Lost(s)) && k !in Replay(Last(s.segments)) ==>
                  Lookup(Live(StackContent(s.tables)), k) == Lookup(Live(Replay(Lost(s))), k)
  }

  /** An explicit compaction after a rotation by size keeps the store recoverable
      exactly when the loss is harmless. */
  lemma UncoveredPurge(s: State, merged: Table)
    requires Serving(s) && LogIsTail(s) && s.phase == Idle && !Covered(s)
    requires |s.tables| >= 2 && Lists(merged, Live(StackContent(s.tables)))
    ensures s.segments != [] && |Last(s.segments)| <= |s.history|
    ensures Recovered(Compacted(s, merged)) == Database(s.history) <==> LossIsHarmless(s)
  {
    hide Serving, LogIsTail, Live, StackContent, Replay, Flatten, Database, Covered, Lists;
    LastIsTail(s);
    var last := Last(s.segments);
    assert s.tables[|s.tables|..] + FileOf(merged) == FileOf(merged);
    MergingReads(s.tables, |s.tables|, merged);
    LiveOverlay(StackContent(FileOf(merged)), StackContent(s.tables), Replay(last));
    OneSegment(last);
    LossDecides(StackContent(s.tables), s.history, s.flushed, |s.history| - |last|);
  }

  /** For every key of the frames that neither the tables nor the log hold, the log writes it
      again or the tables show its last lost value. */
  predicate LossIsCovered(s: State)
    requires LogIsTail(s) && s.flushed <= |s.history|
  {
    var p := |s.history| - |Flatten(s.segments)|;
    var lost := if s.flushed <= p then s.history[s.flushed..p] else [];
    forall k :: k in Replay(lost) && k !in Replay(Flatten(s.segments)) ==>
                  Lookup(Live(StackContent(s.tables)), k) == Lookup(Live(Replay(lost)), k)
  }

  lemma RecoveryIsDecided(s: State)
    requires Serving(s) && LogIsTail(s)
    ensures Recovered(s) == Database(s.history) <==> LossIsCovered(s)
  {
    hide Live, StackContent, Replay, Flatten, Database, MemoryIsCurrent, PhaseOk, Ascending;
    var p := |s.history| - |Flatten(s.segments)|;
    assert s.history[p..] == Flatten(s.segments);
    if s.flushed <= p {
      LossDecides(StackContent(s.tables), s.history, s.flushed, p);
      assert Recovered(s) == Live(StackContent(s.tables) + Replay(s.history[p..]));
    } else {
      RecoveryIsExact(s);
      NothingReplayed();
    }
  }

  /** Every append of the run ended on a frame boundary, and no memtable was dropped. */
  predicate ReadsBack(steps: seq<Step>) {
    forall i :: 0 <= i < |steps| ==> !steps[i].AppendBehindTail? && !steps[i].Overwrite?
  }

  lemma {:induction false} RunStaysTail(s: State, steps: seq<Step>)
    requires Serving(s) && LogIsTail(s) && IsRun(s, steps) && CrashesRecover(s, steps) && ReadsBack(steps)
    ensures Serving(EndOf(s, steps)) && LogIsTail(EndOf(s, steps))
    decreases |steps|
  {
    hide Serving, LogIsTail, LogSuffices, After, Enabled;
    if steps != [] {
      StepServes(s, steps[0]);
      LogStaysTail(s, steps[0]);
      RunStaysTail(After(s, steps[0]), steps[1..]);
    }
  }

  /** Stop any run, with compactions after rotations by size wherever they may be: recovery shows
      the map of all appends exactly when nothing that was lost still matters. */
  lemma RunRecoversExactlyWhen(steps: seq<Step>)
    requires IsRun(INITIAL, steps) && CrashesRecover(INITIAL, steps) && ReadsBack(steps)
    ensures var s := EndOf(INITIAL, steps);
            && LogIsTail(s) && s.flushed <= |s.history|
            && (Recovered(s) == Database(AppendedBy(steps)) <==> LossIsCovered(s))
  {
    hide IsRun, EndOf, CrashesRecover, Recovered, Database, LossIsCovered, LogIsTail, Flatten;
    InitialState();
    RunStaysTail(INITIAL, steps);
    RunHistory(INITIAL, steps);
    assert [] + AppendedBy(steps) == AppendedBy(steps);
    RecoveryIsDecided(EndOf(INITIAL, steps));
  }

  lemma LossDecides(t: map<Bytes, Bytes>, h: seq<Frame>, flushed: nat, p: nat)
    requires flushed <= p <= |h| && Live(t) == Live(Replay(h[..flushed]))
    ensures Live(t + Replay(h[p..])) == Database(h)
            <==> forall k :: k in Replay(h[flushed..p]) && k !in Replay(h[p..]) ==>
                   Lookup(Live(t), k) == Lookup(Live(Replay(h[flushed..p])), k)
  {
    hide Live, Replay, Database;
    var log, front, lost := h[p..], h[..flushed], h[flushed..p];
    assert h == (front + lost) + log;
    ReplayConcat(front + lost, log);
    ReplayConcat(front, lost);
    LiveReplay(h);
    forall k
      ensures Lookup(Live(t + Replay(log)), k) == Lookup(Live(Replay(h)), k)
              <==> (k in Replay(lost) && k !in Replay(log) ==> Lookup(Live(t), k) == Lookup(Live(Replay(lost)), k))
    {
      LiveAt(t + Replay(log), k);
      LiveAt(Replay(h), k);
      LiveAt(t, k);
      LiveAt(Replay(front), k);
      LiveAt(Replay(lost), k);
    }
    if forall k :: k in Replay(lost) && k !in Replay(log) ==> Lookup(Live(t), k) == Lookup(Live(Replay(lost)), k) {
      SameLookups(Live(t + Replay(log)), Live(Replay(h)));
    }
  }

  lemma OneSegment(last: seq<Frame>)
    ensures Flatten([last]) == last
  {
    assert [last][..0] == [];
    assert Flatten([]) + last == last;
  }

  lemma LastIsTail(s: State)
    requires Serving(s) && LogIsTail(s)
    ensures s.segments != [] && |Last(s.segments)| <= |s.history|
    ensures s.flushed <= |s.history| && (!Covered(s) ==> s.flushed <= |s.history| - |Last(s.segments)|)
    ensures s.history[|s.history| - |Last(s.segments)|..] == Last(s.segments)
    ensures Live(StackContent(s.tables)) == Live(Replay(s.history[..s.flushed]))
  {
    hide Live, StackContent, Replay, MemoryIsCurrent, PhaseOk, Ascending;
    var all, last := Flatten(s.segments), Last(s.segments);
    var n, m := |s.history|, |last|;
    assert all == Flatten(s.segments[..|s.segments| - 1]) + last;
    assert all[|all| - m..] == last;
    assert s.history[n - |all|..][|all| - m..] == s.history[n - m..];
  }

  // ---------- Purging in another order ----------

  /** The segments at the given positions. */
  function Kept(segments: seq<seq<Frame>>, alive: set<nat>): seq<seq<Frame>> {
    if segments == [] then []
    else
      var n := |segments| - 1;
      Kept(segments[..n], alive) + if n in alive then [segments[n]] else []
  }

  /** Every key these frames write has, after them, the value the map shows. */
  predicate IsCurrent(left: seq<Frame>, m: map<Bytes, Bytes>) {
    forall k :: k in Replay(left) ==> Lookup(Live(Replay(left)), k) == Lookup(m, k)
  }

  /** A purge may stop after any of its removals, and the code visits the segments in the
      order of the directory listing. Whichever segments are left beside the current one,
      the store recovers exactly when their frames show only current values. */
  lemma InterruptedPurge(s: State, alive: set<nat>)
    requires Serving(s) && LogIsTail(s) && s.phase.Merging? && Covered(s) && |s.segments| - 1 in alive
    ensures var kept := Kept(s.segments, alive);
            Recovered(s.(segments := kept)) == Database(s.history) <==> IsCurrent(Flatten(kept), Database(s.history))
  {
    hide Serving, LogIsTail, Live, StackContent, Replay, Flatten, Database, Recovered, Covered;
    var n := |s.segments| - 1;
    var last, kept := Last(s.segments), Kept(s.segments, alive);
    CurrentSegmentSuffices(s);
    FlattenLast(kept, last);
    var others := Flatten(kept[..|kept| - 1]);
    ReplayConcat(others, last);
    OneSegment(last);
    LeftoversDecide(StackContent(s.tables), Replay(others), Replay(last), Database(s.history));
    RecoversTo(s.(segments := kept));
  }

  lemma FlattenLast(kept: seq<seq<Frame>>, last: seq<Frame>)
    requires kept != [] && Last(kept) == last
    ensures Flatten(kept) == Flatten(kept[..|kept| - 1]) + last
  {
  }

  lemma RecoversTo(s: State)
    ensures Recovered(s) == Live(StackContent(s.tables) + Replay(Flatten(s.segments)))
  {
  }

  /** In a covered state the current segment is all the log that recovery needs. */
  lemma CurrentSegmentSuffices(s: State)
    requires Serving(s) && LogIsTail(s) && Covered(s)
    ensures s.segments != []
    ensures Live(StackContent(s.tables) + Replay(Last(s.segments))) == Database(s.history)
  {
    hide Serving, LogIsTail, Live, StackContent, Replay, Flatten, Database;
    LastIsTail(s);
    var p := |s.history| - |Last(s.segments)|;
    ReplayAgain(s.history, p, s.flushed);
    LiveOverlay(StackContent(s.tables), Replay(s.history[..s.flushed]), Replay(s.history[p..]));
    LiveReplay(s.history);
  }

  lemma LeftoversDecide(t: map<Bytes, Bytes>, others: map<Bytes, Bytes>, last: map<Bytes, Bytes>, d: map<Bytes, Bytes>)
    requires Live(t + last) == d
    ensures Live(t + (others + last)) == d
            <==> forall k :: k in others + last ==> Lookup(Live(others + last), k) == Lookup(d, k)
  {
    hide Live;
    var left := others + last;
    forall k
      ensures Lookup(Live(t + left), k) == Lookup(d, k)
              <==> (k in left ==> Lookup(Live(left), k) == Lookup(d, k))
    {
      LiveAt(t + left, k);
      LiveAt(t + last, k);
      LiveAt(left, k);
    }
    if forall k :: k in left ==> Lookup(Live(left), k) == Lookup(d, k) {
      SameLookups(Live(t + left), d);
    }
  }

  /** Oldest first, what is left is a suffix, and a suffix always recovers. */
  lemma OldestFirstPurgeIsSafe(s: State, n: nat)
    requires Serving(s) && LogIsTail(s) && Covered(s) && n < |s.segments|
    requires s.phase.Merging? && s.phase.removed == |s.phase.olds|
    ensures var alive := Numbers(n, |s.segments| - n);
            && Kept(s.segments, alive) == s.segments[n..]
            && Recovered(s.(segments := s.segments[n..])) == Database(s.history)
            && IsCurrent(Flatten(s.segments[n..]), Database(s.history))
  {
    hide Serving, LogIsTail, Live, StackContent, Replay, Flatten, Database, Recovered, Covered, Kept, IsCurrent,
      Numbers;
    var alive := Numbers(n, |s.segments| - n);
    KeptSuffix(s.segments, alive, n);
    LastIsTail(s);
    StepServes(s, Purge(n));
    LogStaysTail(s, Purge(n));
    RecoveryIsExact(After(s, Purge(n)));
    InterruptedPurge(s, alive);
  }

  lemma {:induction false} KeptSuffix(segments: seq<seq<Frame>>, alive: set<nat>, n: nat)
    requires n <= |segments| && forall i :: 0 <= i < |segments| ==> (i in alive <==> n <= i)
    ensures Kept(segments, alive) == segments[n..]
  {
    if n < |segments| {
      KeptSuffix(segments[..|segments| - 1], alive, n);
    } else {
      KeptNothing(segments, alive);
    }
  }

  lemma {:induction false} KeptNothing(segments: seq<seq<Frame>>, alive: set<nat>)
    requires forall i :: 0 <= i < |segments| ==> i !in alive
    ensures Kept(segments, alive) == []
  {
    if segments != [] {
      KeptNothing(segments[..|segments| - 1], alive);
    }
  }

  // ---------- A flush behind a torn tail ----------

  /** After a flush the tables hold everything, whatever the log still reads: the store recovers
      exactly when the frames that are read show only current values. */
  lemma FlushedStoreIsDecided(s: State)
    requires Serving(s) && s.flushed == |s.history|
    ensures Recovered(s) == Database(s.history) <==> IsCurrent(Flatten(s.segments), Database(s.history))
  {
    hide Live, StackContent, Replay, Flatten, Database, MemoryIsCurrent, PhaseOk, Ascending;
    var below, log := StackContent(s.tables), Replay(Flatten(s.segments));
    assert s.history[..s.flushed] == s.history;
    LiveReplay(s.history);
    assert below + map[] == below && log + map[] == log;
    LeftoversDecide(below, log, map[], Database(s.history));
  }

  // ---------- A flush after one that raised ----------

  /** What a flush that raised left aside is overwritten by the next flush, which publishes the
      newer memtable alone: once a compaction has purged the log behind it, exactly the older
      one's values that the tables do not show anyway are lost, unless written again. */
  lemma FlushAfterFailure(s: State, older: map<Bytes, Bytes>, newer: map<Bytes, Bytes>, t: Table)
    requires Serving(s) && s.phase == Idle && s.mem == older + newer && Lists(t, newer)
    ensures Recovered(s.(tables := s.tables + [t], segments := [[]])) == Database(s.history)
            <==> forall k :: k in older && k !in newer ==>
                   Lookup(Live(older), k) == Lookup(Live(StackContent(s.tables)), k)
  {
    hide Serving, Live, StackContent, Replay, Flatten, Database, Lists;
    var below := StackContent(s.tables);
    IdleShowsDatabase(s);
    StackSplit(s.tables, [t]);
    StackOne(t);
    ContentOf(t, newer);
    OneSegment([]);
    NothingReplayed();
    assert (below + newer) + map[] == below + newer;
    forall k
      ensures Lookup(Live(below + newer), k) == Lookup(Live(below + (older + newer)), k)
              <==> (k in older && k !in newer ==> Lookup(Live(older), k) == Lookup(Live(below), k))
    {
      LiveAt(below + newer, k);
      LiveAt(below + (older + newer), k);
      LiveAt(older, k);
      LiveAt(below, k);
    }
    if forall k :: k in older && k !in newer ==> Lookup(Live(older), k) == Lookup(Live(below), k) {
      SameLookups(Live(below + newer), Live(below + (older + newer)));
    }
  }

  lemma ContentOf(t: Table, m: map<Bytes, Bytes>)
    requires Lists(t, m)
    ensures Content(t) == m
  {
  }

  lemma NothingReplayed()
    ensures Replay([]) == map[]
  {
  }

  // ---------- Concrete runs ----------

  /** One more step of a run from the empty directory. */
  lemma Extend(run: seq<Step>, s: State, step: Step)
    requires IsRun(INITIAL, run) && EndOf(INITIAL, run) == s && Enabled(s, step)
    ensures IsRun(INITIAL, run + [step]) && EndOf(INITIAL, run + [step]) == After(s, step)
  {
    hide Enabled, After;
    RunExtends(INITIAL, run, step);
  }

  const FIRST: Frame := Frame(1, "00000000", SET, "k", "1")
  const SECOND: Frame := Frame(2, "00000000", SET, "k", "2")
  const THIRD: Frame := Frame(3, "00000000", SET, "j", "3")
  const ONE: Table := [Entry("k", "1")]
  const TWO: Table := [Entry("k", "2")]

  /** A put and its flush. */
  function Flushed(f: Frame, t: Table): seq<Step> {
    [Append(f), Remember, Publish(t), Rotate]
  }

  lemma FlushRun(run: seq<Step>, s: State, f: Frame, t: Table)
    requires IsRun(INITIAL, run) && EndOf(INITIAL, run) == s
    requires s.phase == Idle && s.segments != [] && s.mem == map[] && f.op == SET
    requires t == [Entry(f.key, f.value)]
    ensures var r := run + Flushed(f, t);
            && IsRun(INITIAL, r)
            && EndOf(INITIAL, r) == State(s.tables + [t], WithFrame(s.segments, f) + [[]], map[],
                                          s.history + [f], |s.history| + 1, Idle)
  {
    hide IsRun, EndOf;
    var s1 := After(s, Append(f));
    var s2 := After(s1, Remember);
    assert Content(t) == map[f.key := f.value] == s2.mem;
    var s3 := After(s2, Publish(t));
    Extend(run, s, Append(f));
    Extend(run + [Append(f)], s1, Remember);
    Extend(run + [Append(f)] + [Remember], s2, Publish(t));
    Extend(run + [Append(f)] + [Remember] + [Publish(t)], s3, Rotate);
    assert run + [Append(f)] + [Remember] + [Publish(t)] + [Rotate] == run + Flushed(f, t);
  }

  /** Two puts of one key, each flushed. */
  const TWO_FLUSHES: seq<Step> := Flushed(FIRST, ONE) + Flushed(SECOND, TWO)
  const TWO_TABLES: State := State([ONE, TWO], [[FIRST], [SECOND], []], map[], [FIRST, SECOND], 2, Idle)

  lemma TwoFlushes()
    ensures IsRun(INITIAL, TWO_FLUSHES) && EndOf(INITIAL, TWO_FLUSHES) == TWO_TABLES
    ensures Lists(TWO, Live(StackContent(TWO_TABLES.tables)))
    ensures StackContent([ONE, TWO]) == map["k" := "2"]
  {
    hide IsRun, EndOf, StackContent;
    assert IsRun(INITIAL, []) && EndOf(INITIAL, []) == INITIAL by { NoSteps(); }
    FlushRun([], INITIAL, FIRST, ONE);
    var s1 := State([ONE], [[FIRST], []], map[], [FIRST], 1, Idle);
    assert [] + [FIRST] == [FIRST] && [] + [SECOND] == [SECOND];
    assert WithFrame(INITIAL.segments, FIRST) + [[]] == s1.segments;
    assert [] + Flushed(FIRST, ONE) == Flushed(FIRST, ONE);
    FlushRun(Flushed(FIRST, ONE), s1, SECOND, TWO);
    assert WithFrame(s1.segments, SECOND) + [[]] == TWO_TABLES.segments;
    TwoContents();
  }

  lemma NoSteps()
    ensures IsRun(INITIAL, []) && EndOf(INITIAL, []) == INITIAL
  {
  }

  lemma TwoContents()
    ensures StackContent([ONE, TWO]) == map["k" := "2"]
    ensures StackContent([TWO]) == map["k" := "2"]
    ensures Lists(TWO, map["k" := "2"]) && Live(map["k" := "2"]) == map["k" := "2"]
  {
    assert Content(ONE) == map["k" := "1"] && Content(TWO) == map["k" := "2"];
    StackOne(ONE);
    StackOne(TWO);
    assert [ONE, TWO] == [ONE] + [TWO];
    StackSplit([ONE], [TWO]);
  }

  /** Behind two flushed puts, a third one in a segment that was rotated by size. */
  const UNCOVERED: State :=
    State([ONE, TWO], [[FIRST], [SECOND], [THIRD], []], map["j" := "3"], [FIRST, SECOND, THIRD], 2, Idle)

  lemma UncoveredRun() returns (run: seq<Step>)
    ensures IsRun(INITIAL, run) && EndOf(INITIAL, run) == UNCOVERED && !Covered(UNCOVERED)
    ensures forall i :: 0 <= i < |run| ==> run[i] != Crash
  {
    TwoFlushes();
    hide IsRun, EndOf, StackContent;
    var s1 := After(TWO_TABLES, Append(THIRD));
    var s2 := After(s1, RotateBySize);
    Extend(TWO_FLUSHES, TWO_TABLES, Append(THIRD));
    Extend(TWO_FLUSHES + [Append(THIRD)], s1, RotateBySize);
    Extend(TWO_FLUSHES + [Append(THIRD)] + [RotateBySize], s2, Remember);
    assert [] + [THIRD] == [THIRD] && Last(s2.history) == THIRD;
    assert After(s2, Remember).segments == UNCOVERED.segments;
    assert After(s2, Remember) == UNCOVERED;
    run := TWO_FLUSHES + [Append(THIRD)] + [RotateBySize] + [Remember];
  }

  /** The steps of the compaction that follows. */
  lemma UncoveredCompaction() returns (run: seq<Step>)
    ensures IsRun(INITIAL, run) && forall i :: 0 <= i < |run| ==> run[i] != Crash
    ensures Lists(TWO, Live(StackContent(UNCOVERED.tables))) && EndOf(INITIAL, run) == Compacted(UNCOVERED, TWO)
  {
    TwoContents();
    run := UncoveredRun();
    hide IsRun, EndOf, StackContent, Live, Lists;
    var s1 := After(UNCOVERED, PublishMerged(TWO));
    var s2 := After(s1, RemoveOldest);
    var s3 := After(s2, RemoveOldest);
    var s4 := After(s3, Purge(3));
    Extend(run, UNCOVERED, PublishMerged(TWO));
    run := run + [PublishMerged(TWO)];
    Extend(run, s1, RemoveOldest);
    run := run + [RemoveOldest];
    Extend(run, s2, RemoveOldest);
    run := run + [RemoveOldest];
    Extend(run, s3, Purge(3));
    run := run + [Purge(3)];
    Extend(run, s4, EndCompaction);
    run := run + [EndCompaction];
    assert After(s4, EndCompaction) == Compacted(UNCOVERED, TWO);
  }

  /** The loss is not always harmless: after the compaction the process still shows the third
      put, and recovery does not. */
  lemma UncoveredPurgeLosesData() returns (run: seq<Step>)
    ensures IsRun(INITIAL, run) && forall i :: 0 <= i < |run| ==> run[i] != Crash
    ensures Lists(TWO, Live(StackContent(UNCOVERED.tables))) && EndOf(INITIAL, run) == Compacted(UNCOVERED, TWO)
    ensures Shown(EndOf(INITIAL, run)) == map["k" := "2", "j" := "3"]
    ensures Recovered(EndOf(INITIAL, run)) == map["k" := "2"]
  {
    run := UncoveredCompaction();
    hide IsRun, EndOf, StackContent;
    TwoContents();
    assert map["k" := "2"] + map["j" := "3"] == map["k" := "2", "j" := "3"];
    assert Live(map["k" := "2", "j" := "3"]) == map["k" := "2", "j" := "3"];
    OneSegment([]);
    assert map["k" := "2"] + Replay([]) == map["k" := "2"];
  }

  /** A put, then one behind a torn tail, where a replay does not find it. */
  const BEHIND_TAIL: seq<Step> := [Append(FIRST)] + [Remember] + [AppendBehindTail(SECOND, [FIRST])] + [Remember]
  const HIDDEN: State := State([], [[FIRST]], map["k" := "2"], [FIRST, SECOND], 0, Idle)

  lemma HiddenRun()
    ensures IsRun(INITIAL, BEHIND_TAIL) && EndOf(INITIAL, BEHIND_TAIL) == HIDDEN
  {
    NoSteps();
    hide IsRun, EndOf;
    var run := [Append(FIRST)];
    var s1 := After(INITIAL, Append(FIRST));
    Extend([], INITIAL, Append(FIRST));
    assert [] + run == run;
    var s2 := After(s1, Remember);
    Extend(run, s1, Remember);
    var s3 := After(s2, AppendBehindTail(SECOND, [FIRST]));
    Extend(run + [Remember], s2, AppendBehindTail(SECOND, [FIRST]));
    Extend(run + [Remember] + [AppendBehindTail(SECOND, [FIRST])], s3, Remember);
    assert s3.segments == [[FIRST]] && After(s3, Remember) == HIDDEN;
  }

  /** A flush is not enough then: the process shows the second put, and recovery the first, whose
      frame is still read. */
  lemma FlushBehindTailIsNotEnough()
    ensures var run := BEHIND_TAIL + [Publish(TWO)] + [Rotate];
            && IsRun(INITIAL, run) && EndOf(INITIAL, run).phase == Idle
            && Shown(EndOf(INITIAL, run)) == map["k" := "2"]
            && Recovered(EndOf(INITIAL, run)) == map["k" := "1"]
  {
    HiddenRun();
    TwoContents();
    ReplaysOf();
    hide IsRun, EndOf, StackContent, Replay;
    var s := After(HIDDEN, Publish(TWO));
    Extend(BEHIND_TAIL, HIDDEN, Publish(TWO));
    Extend(BEHIND_TAIL + [Publish(TWO)], s, Rotate);
    assert [] + [TWO] == [TWO] && [[FIRST]] + [[]] == [[FIRST], []];
  }

  /** Not every order is safe: after the compaction of two flushed puts, with only the
      newer of their segments purged, replay brings the overwritten value back. */
  lemma NewestFirstPurgeIsUnsafe()
    ensures var run := TWO_FLUSHES + [PublishMerged(TWO)] + [RemoveOldest] + [RemoveOldest];
            && IsRun(INITIAL, run)
            && var s := EndOf(INITIAL, run);
            && s.phase.Merging? && Covered(s)
            && Recovered(s) == map["k" := "2"]
            && Recovered(s.(segments := Kept(s.segments, {0, 2}))) == map["k" := "1"]
  {
    TwoFlushes();
    TwoContents();
    hide IsRun, EndOf, StackContent;
    var run := TWO_FLUSHES;
    var s1 := After(TWO_TABLES, PublishMerged(TWO));
    var s2 := After(s1, RemoveOldest);
    Extend(run, TWO_TABLES, PublishMerged(TWO));
    Extend(run + [PublishMerged(TWO)], s1, RemoveOldest);
    Extend(run + [PublishMerged(TWO)] + [RemoveOldest], s2, RemoveOldest);
    var s := After(s2, RemoveOldest);
    assert s.tables == [TWO] && s.segments == [[FIRST], [SECOND], []];
    ReplaysOf();
    assert map["k" := "2"] + map["k" := "2"] == map["k" := "2"];
    assert map["k" := "2"] + map["k" := "1"] == map["k" := "1"];
    assert Live(map["k" := "1"]) == map["k" := "1"];
  }

  lemma ReplaysOf()
    ensures Kept([[FIRST], [SECOND], []], {0, 2}) == [[FIRST], []]
    ensures Replay(Flatten([[FIRST], [SECOND], []])) == map["k" := "2"]
    ensures Replay(Flatten([[FIRST], []])) == map["k" := "1"]
  {
    var all := [[FIRST], [SECOND], []];
    assert all[..2] == [[FIRST], [SECOND]] && all[..2][..1] == [[FIRST]] && all[..2][..1][..0] == [];
    assert Kept([], {0, 2}) == [];
    assert Kept([[FIRST]], {0, 2}) == [[FIRST]];
    assert Kept([[FIRST], [SECOND]], {0, 2}) == [[FIRST]];
    FlattenRotate([[FIRST], [SECOND]]);
    FlattenRotate([[FIRST]]);
    OneSegment([FIRST]);
    assert [[FIRST], [SECOND]] + [[]] == all && [[FIRST]] + [[]] == [[FIRST], []];
    assert [FIRST, SECOND][..1] == [FIRST] && [FIRST][..0] == [];
    assert Replay([FIRST]) == map["k" := "1"];
  }
}
