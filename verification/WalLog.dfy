// The write-ahead log as a directory of numbered segments:
// appending, rotating, recovering and purging.

module WalLog {
  import opened ByteStrings
  import opened Directories
  import opened Wal

  /** All frames of the segments, oldest first. */
  function Flatten(segments: seq<seq<Frame>>): seq<Frame> {
    if segments == [] then [] else Flatten(segments[..|segments| - 1]) + segments[|segments| - 1]
  }

  predicate IncreasingLsns(fs: seq<Frame>) {
    forall i, j :: 0 <= i < j < |fs| ==> fs[i].lsn < fs[j].lsn
  }

  predicate AllBelow(fs: seq<Frame>, lsn: nat) {
    forall i :: 0 <= i < |fs| ==> fs[i].lsn < lsn
  }

  /** The n numbers from first on. */
  function Numbers(first: nat, n: nat): (r: set<nat>)
    ensures forall x :: x in r <==> first <= x < first + n
  {
    if n == 0 then {} else Numbers(first, n - 1) + {first + n - 1}
  }

  /** The directory holds consecutively numbered segments, and replaying each reads these frames. */
  predicate Shows(files: map<nat, Bytes>, first: nat, segments: seq<seq<Frame>>, c: Checksum) {
    && segments != []
    && files.Keys == Numbers(first, |segments|)
    && (forall i :: 0 <= i < |segments| ==> ReadFrames(files[first + i], 0, c) == segments[i])
  }

  /** The file is the image of the frames read from it: no torn tail follows them. */
  predicate EndsOnFrame(file: Bytes, frames: seq<Frame>, c: Checksum) {
    AllFit(frames) && file == EncodeAll(frames, c)
  }

  /** What an append cut short at any byte leaves in the directory: the same frames. */
  lemma TornAppendShows(files: map<nat, Bytes>, first: nat, segments: seq<seq<Frame>>, c: Checksum, f: Frame,
                        torn: Bytes)
    requires Shows(files, first, segments, c) && FrameFits(f) && torn < EncodeFrame(f, c)
    requires var last := |segments| - 1; EndsOnFrame(files[first + last], segments[last], c)
    ensures var last := first + |segments| - 1; Shows(files[last := files[last] + torn], first, segments, c)
  {
    hide EncodeFrame, EncodeAll, ReadFrames, Numbers;
    var n := |segments| - 1;
    assert torn == EncodeFrame(f, c)[..|torn|];
    TornAppendIsInvisible(segments[n], f, c, |torn|);
  }

  lemma ListingOfNumbers(ids: seq<nat>, first: nat, n: nat)
    requires ListsIds(ids, Numbers(first, n))
    ensures |ids| == n && forall i :: 0 <= i < n ==> ids[i] == first + i
  {
    hide Numbers;
    var expected := seq(n, i => first + i);
    forall x | x in Numbers(first, n)
      ensures x in expected
    {
      assert expected[x - first] == x;
    }
    IdListingIsUnique(ids, expected, Numbers(first, n));
  }

  /** The segments after one frame is appended to the newest. */
  function WithFrame(segments: seq<seq<Frame>>, f: Frame): (r: seq<seq<Frame>>)
    requires segments != []
    ensures |r| == |segments|
  {
    segments[|segments| - 1 := segments[|segments| - 1] + [f]]
  }

  lemma FlattenAppend(segments: seq<seq<Frame>>, f: Frame)
    requires segments != []
    ensures Flatten(WithFrame(segments, f)) == Flatten(segments) + [f]
  {
    var n := |segments| - 1;
    assert WithFrame(segments, f)[..n] == segments[..n];
    assert Flatten(segments[..n]) + (segments[n] + [f]) == (Flatten(segments[..n]) + segments[n]) + [f];
  }

  lemma FlattenRotate(segments: seq<seq<Frame>>)
    ensures Flatten(segments + [[]]) == Flatten(segments)
  {
    assert (segments + [[]])[..|segments|] == segments;
    assert Flatten(segments) + [] == Flatten(segments);
  }

  lemma {:induction false} FlattenDrop(segments: seq<seq<Frame>>, n: nat)
    requires n <= |segments|
    ensures Flatten(segments) == Flatten(segments[..n]) + Flatten(segments[n..])
  {
    if n == |segments| {
      assert segments[..n] == segments && segments[n..] == [];
      assert Flatten(segments) + [] == Flatten(segments);
    } else {
      var m := |segments| - 1;
      FlattenDrop(segments[..m], n);
      assert segments[..m][..n] == segments[..n];
      assert segments[..m][n..] == segments[n..][..m - n];
      assert segments[n..][m - n] == segments[m];
      assert (Flatten(segments[..n]) + Flatten(segments[n..][..m - n])) + segments[m]
          == Flatten(segments[..n]) + (Flatten(segments[n..][..m - n]) + segments[m]);
    }
  }

  /** Any write to the current segment. */
  lemma ShowsWrite(files: map<nat, Bytes>, first: nat, segments: seq<seq<Frame>>, c: Checksum, file: Bytes)
    requires Shows(files, first, segments, c)
    ensures var n := |segments| - 1;
            Shows(files[first + n := file], first, segments[n := ReadFrames(file, 0, c)], c)
  {
    hide ReadFrames, Numbers;
  }

  lemma ShowsLast(files: map<nat, Bytes>, first: nat, segments: seq<seq<Frame>>, c: Checksum)
    requires Shows(files, first, segments, c)
    ensures segments != [] && first + |segments| - 1 in files
  {
    hide ReadFrames, Numbers;
  }

  lemma OrderedAppend(fs: seq<Frame>, next: nat, f: Frame)
    requires IncreasingLsns(fs) && AllBelow(fs, next) && f.lsn == next
    ensures IncreasingLsns(fs + [f]) && AllBelow(fs + [f], next + 1) && AllBelow(fs, next + 1)
  {
  }

  /** A whole frame behind whole frames. */
  lemma FrameOnBoundary(file: Bytes, frames: seq<Frame>, c: Checksum, f: Frame)
    requires EndsOnFrame(file, frames, c) && FrameFits(f)
    ensures EndsOnFrame(file + EncodeFrame(f, c), frames + [f], c)
    ensures ReadFrames(file + EncodeFrame(f, c), 0, c) == frames + [f]
  {
    hide EncodeFrame, ReadFrames;
    assert (frames + [f])[..|frames|] == frames;
    SegmentRoundTrip(frames + [f], c);
  }

  lemma NothingRead(c: Checksum)
    ensures ReadFrames([], 0, c) == [] && EndsOnFrame([], [], c)
  {
  }

  lemma ShowsRotate(files: map<nat, Bytes>, first: nat, segments: seq<seq<Frame>>, c: Checksum)
    requires Shows(files, first, segments, c)
    ensures Shows(files[first + |segments| := []], first, segments + [[]], c)
  {
    hide Numbers, ReadFrames, EndsOnFrame;
    NothingRead(c);
  }

  lemma ShowsPurge(files: map<nat, Bytes>, first: nat, segments: seq<seq<Frame>>, c: Checksum, n: nat)
    requires Shows(files, first, segments, c) && n < |segments|
    ensures Shows(files - Numbers(first, n), first + n, segments[n..], c)
  {
    hide ReadFrames, Numbers;
  }

  lemma FirstSegment(c: Checksum)
    ensures Shows(map[1 := []], 1, [[]], c)
  {
    hide ReadFrames, EndsOnFrame;
    NothingRead(c);
    assert Numbers(1, 1) == {1};
  }

  class WriteAheadLog {
    const maxFileSize: nat
    const checksum: Checksum
    var files: map<nat, Bytes>
    var currentSeq: nat
    var nextLsn: nat
    ghost var first: nat
    ghost var segments: seq<seq<Frame>>

    ghost predicate Valid()
      reads this
    {
      Shows(files, first, segments, checksum) && currentSeq == first + |segments| - 1
    }

    /** Numbers increase over the whole log, and the next one exceeds them all. */
    ghost predicate Ordered()
      reads this
    {
      IncreasingLsns(Flatten(segments)) && AllBelow(Flatten(segments), nextLsn)
    }

    /** The current segment ends on a frame boundary, so what is appended can be read back. */
    ghost predicate AtBoundary()
      reads this
    {
      segments != [] && currentSeq in files
      && EndsOnFrame(files[currentSeq], segments[|segments| - 1], checksum)
    }

    /** Opens any directory: the newest segment is appended to, or segment 1 is created. */
    constructor (files: map<nat, Bytes>, maxFileSize: nat, checksum: Checksum,
                 ghost first: nat, ghost segments: seq<seq<Frame>>)
      requires files == map[] ==> first == 1 && segments == [[]]
      requires files != map[] ==> Shows(files, first, segments, checksum)
      ensures Valid() && this.first == first && this.segments == segments
      ensures this.files == if files == map[] then map[1 := []] else files
      ensures this.checksum == checksum && this.maxFileSize == maxFileSize && nextLsn == 1
    {
      hide ReadFrames, Numbers;
      this.maxFileSize := maxFileSize;
      this.checksum := checksum;
      this.first, this.segments := first, segments;
      nextLsn := 1;
      var ids := SortedIds(files.Keys);
      if ids == [] {
        currentSeq := 1;
        this.files := files[1 := []];
        assert files.Keys == {};
        assert files == map[];
        FirstSegment(checksum);
      } else {
        assert ids[0] in files;
        ListingOfNumbers(ids, first, |segments|);
        currentSeq := ids[|ids| - 1];
        this.files := files;
      }
    }

    /** Appends a frame; false is the struct.error of a field that does not fit. `seen` is what a
        replay of the written segment reads: on a frame boundary the frame is added to it. */
    method Append(op: nat, key: Bytes, value: Bytes, stamp: Bytes) returns (ok: bool, lsn: nat, ghost seen: seq<Frame>)
      requires Valid() && |stamp| == 8 && 1 <= op <= LAST_OP
      modifies this
      ensures Valid() && lsn == old(nextLsn) && nextLsn == old(nextLsn) + 1 && first == old(first)
      ensures ok <==> FrameFits(Frame(lsn, stamp, op, key, value))
      ensures !ok ==> segments == old(segments) && files == old(files)
      ensures ok ==> var written := old(segments)[|old(segments)| - 1 := seen];
                     && old(currentSeq) in files
                     && seen == ReadFrames(files[old(currentSeq)], 0, checksum)
                     && segments == if |files[old(currentSeq)]| >= maxFileSize then written + [[]] else written
      ensures old(AtBoundary()) ==> AtBoundary()
      ensures ok && old(AtBoundary()) ==>
                var f := Frame(lsn, stamp, op, key, value);
                && old(segments)[|old(segments)| - 1 := seen] == WithFrame(old(segments), f)
                && Flatten(segments) == Flatten(old(segments)) + [f]
      ensures old(AtBoundary()) && old(Ordered()) ==> Ordered()
    {
      hide EncodeFrame, EncodeAll, ReadFrames, Flatten, Fits, EndsOnFrame, Shows, IncreasingLsns, AllBelow;
      ShowsLast(files, first, segments, checksum);
      if Ordered() {
        OrderedAppend(Flatten(segments), nextLsn, Frame(nextLsn, stamp, op, key, value));
      }
      lsn := nextLsn;
      nextLsn := nextLsn + 1;
      var f := Frame(lsn, stamp, op, key, value);
      if !(Fits(lsn, 8) && Fits(|key|, 4) && Fits(|value|, 4)) {
        return false, lsn, [];
      }
      ghost var n := |segments| - 1;
      if AtBoundary() {
        FrameOnBoundary(files[currentSeq], segments[n], checksum, f);
        FlattenAppend(segments, f);
      }
      var file := files[currentSeq] + EncodeFrame(f, checksum);
      ShowsWrite(files, first, segments, checksum, file);
      files := files[currentSeq := file];
      seen := ReadFrames(file, 0, checksum);
      segments := segments[n := seen];
      ok := true;
      if |files[currentSeq]| >= maxFileSize {
        Rotate();
      }
    }

    /** Closes the segment and opens the next one, which starts on a frame boundary. */
    method Rotate()
      requires Valid()
      modifies this`files, this`currentSeq, this`segments
      ensures files == old(files)[currentSeq := []] && currentSeq == old(currentSeq) + 1
      ensures Valid() && AtBoundary() && segments == old(segments) + [[]]
      ensures Flatten(segments) == Flatten(old(segments))
    {
      hide ReadFrames, Flatten, Numbers, EndsOnFrame;
      ShowsRotate(files, first, segments, checksum);
      NothingRead(checksum);
      FlattenRotate(segments);
      currentSeq := currentSeq + 1;
      files := files[currentSeq := []];
      segments := segments + [[]];
    }

    /** Reads every segment in order, past any torn tail, and resumes the numbering behind it. */
    method Recover() returns (frames: seq<Frame>)
      requires Valid()
      modifies this`nextLsn
      ensures frames == Flatten(segments) && AllBelow(frames, nextLsn)
      ensures IsGreatest(frames, nextLsn - 1)
      ensures IncreasingLsns(frames) ==> Ordered()
    {
      hide ReadFrames, IncreasingLsns, Numbers, IsGreatest;
      var ids := SortedIds(files.Keys);
      ListingOfNumbers(ids, first, |segments|);
      NoGreatest();
      frames := [];
      var maxLsn := 0;
      for n := 0 to |ids|
        invariant frames == Flatten(segments[..n])
        invariant IsGreatest(frames, maxLsn)
      {
        assert segments[..n + 1][..n] == segments[..n];
        var more := ReadSegment(files[ids[n]], checksum);
        ghost var before, max := frames, maxLsn;
        frames := frames + more;
        maxLsn := GreatestLsn(more, maxLsn);
        GreatestOfBoth(before, max, more, maxLsn);
      }
      assert segments[..|segments|] == segments;
      nextLsn := maxLsn + 1;
      GreatestIsAbove(frames, maxLsn);
    }

    /** Deletes the segments numbered below the bound, never the current one. */
    method PurgeBefore(bound: nat) returns (deleted: nat)
      requires Valid()
      modifies this`files, this`first, this`segments
      ensures deleted == FirstKept(old(first), currentSeq, bound) - old(first) && first == old(first) + deleted
      ensures deleted < |old(segments)| && segments == old(segments)[deleted..]
      ensures Valid()
      ensures old(Ordered()) ==> Ordered()
      ensures old(AtBoundary()) ==> AtBoundary()
    {
      hide EncodeAll, ReadFrames, Flatten, IncreasingLsns, Numbers, EndsOnFrame;
      var n: nat := FirstKept(first, currentSeq, bound) - first;
      ShowsPurge(files, first, segments, checksum, n);
      FlattenDrop(segments, n);
      if Ordered() {
        SuffixIncreases(Flatten(segments[..n]), Flatten(segments[n..]));
      }
      files, deleted := DeleteBelow(files, bound, currentSeq, first, |segments|);
      segments := segments[n..];
      first := first + n;
    }
  }

  /** The least number that a purge below the bound leaves. */
  function FirstKept(first: nat, current: nat, bound: nat): nat
    requires first <= current
  {
    if bound <= first then first else if bound <= current then bound else current
  }

  /** The greatest number of these frames; zero if there are none. */
  predicate IsGreatest(fs: seq<Frame>, max: int) {
    (forall i :: 0 <= i < |fs| ==> fs[i].lsn <= max) && (max == 0 || exists i :: 0 <= i < |fs| && fs[i].lsn == max)
  }

  lemma NoGreatest()
    ensures IsGreatest([], 0)
  {
  }

  lemma GreatestIsAbove(fs: seq<Frame>, max: nat)
    requires IsGreatest(fs, max)
    ensures AllBelow(fs, max + 1)
  {
  }

  lemma GreatestOfBoth(before: seq<Frame>, max: nat, more: seq<Frame>, max': nat)
    requires IsGreatest(before, max) && max' >= max && AllBelow(more, max' + 1)
    requires max' == max || exists i :: 0 <= i < |more| && more[i].lsn == max'
    ensures IsGreatest(before + more, max')
  {
    var all := before + more;
    assert forall i :: 0 <= i < |before| ==> all[i] == before[i];
    assert forall i :: 0 <= i < |more| ==> all[|before| + i] == more[i];
  }

  method GreatestLsn(fs: seq<Frame>, start: nat) returns (max: nat)
    ensures max >= start && AllBelow(fs, max + 1)
    ensures max == start || exists i :: 0 <= i < |fs| && fs[i].lsn == max
  {
    max := start;
    for i := 0 to |fs|
      invariant max >= start && AllBelow(fs[..i], max + 1)
      invariant max == start || exists j :: 0 <= j < i && fs[j].lsn == max
    {
      assert fs[..i + 1] == fs[..i] + [fs[i]];
      if fs[i].lsn > max {
        max := fs[i].lsn;
      }
    }
    assert fs[..|fs|] == fs;
  }

  /** The loop over the directory. */
  method DeleteBelow(files: map<nat, Bytes>, bound: nat, current: nat, ghost first: nat, ghost n: nat)
      returns (kept: map<nat, Bytes>, deleted: nat)
    requires files.Keys == Numbers(first, n) && n > 0 && current == first + n - 1
    ensures deleted == FirstKept(first, current, bound) - first
    ensures kept == files - Numbers(first, deleted)
  {
    hide Numbers;
    var ids := SortedIds(files.Keys);
    ListingOfNumbers(ids, first, n);
    deleted := 0;
    kept := files;
    for i := 0 to |ids|
      invariant deleted == if i <= FirstKept(first, current, bound) - first then i
                           else FirstKept(first, current, bound) - first
      invariant kept == files - Numbers(first, deleted)
    {
      if ids[i] < bound && ids[i] != current {
        kept := kept - {ids[i]};
        deleted := deleted + 1;
      }
    }
  }

  lemma SuffixIncreases(a: seq<Frame>, b: seq<Frame>)
    requires IncreasingLsns(a + b)
    ensures IncreasingLsns(b)
    ensures forall lsn :: AllBelow(a + b, lsn) ==> AllBelow(b, lsn)
  {
    assert forall i :: 0 <= i < |b| ==> b[i] == (a + b)[|a| + i];
    forall i, j | 0 <= i < j < |b|
      ensures b[i].lsn < b[j].lsn
    {
      assert (a + b)[|a| + i] == b[i] && (a + b)[|a| + j] == b[j];
    }
  }
}
