// The write-ahead log: frames, segment files, recovery.

module Wal {
  import opened ByteStrings

  /** CRC-32; only its low 32 bits are stored. */
  type Checksum = Bytes -> nat

  const SET: nat := 1
  const DEL: nat := 2
  const LAST_OP: nat := 7

  datatype Frame = Frame(lsn: nat, stamp: Bytes, op: nat, key: Bytes, value: Bytes)

  const MAGIC: Bytes := "ZWAL"
  const VERSION: Bytes := [1 as char]
  const HEADER_SIZE := 34

  // ---------- The frame format ----------

  function Crc(c: Checksum, op: nat, lsn: nat, key: Bytes, value: Bytes): nat {
    c(Pack(op, 1) + Pack(lsn, 8) + key + value) % 0x1_0000_0000
  }

  function FrameCrc(f: Frame, c: Checksum): nat {
    Crc(c, f.op, f.lsn, f.key, f.value)
  }

  function FrameHeader(f: Frame, c: Checksum): (r: Bytes)
    requires |f.stamp| == 8
    ensures |r| == HEADER_SIZE
  {
    (MAGIC + VERSION) + (Pack(f.lsn, 8) + f.stamp + Pack(f.op, 1) + Pack(|f.key|, 4) + Pack(|f.value|, 4)
    + Pack(FrameCrc(f, c), 4))
  }

  /** struct.pack accepts every header field. */
  predicate FrameFits(f: Frame) {
    Fits(f.lsn, 8) && |f.stamp| == 8 && 1 <= f.op <= LAST_OP && Fits(|f.key|, 4) && Fits(|f.value|, 4)
  }

  function EncodeFrame(f: Frame, c: Checksum): Bytes
    requires |f.stamp| == 8
  {
    FrameHeader(f, c) + (f.key + f.value)
  }

  predicate AllFit(fs: seq<Frame>) {
    forall i :: 0 <= i < |fs| ==> FrameFits(fs[i])
  }

  /** The bytes of a segment that received these frames. */
  function EncodeAll(fs: seq<Frame>, c: Checksum): Bytes
    requires AllFit(fs)
  {
    if fs == [] then [] else EncodeAll(fs[..|fs| - 1], c) + EncodeFrame(fs[|fs| - 1], c)
  }

  /** One round of the read_frames loop with the cursor at pos; None stops the replay. */
  function ReadFrame(file: Bytes, pos: nat, c: Checksum): (r: Option<(Frame, nat)>)
    ensures r.Some? ==> pos < r.value.1 <= |file|
  {
    var h := Read(file, pos, HEADER_SIZE);
    if |h| < HEADER_SIZE || h[..5] != MAGIC + VERSION then None
    else
      var klen, vlen := Unpack(h[22..26]), Unpack(h[26..30]);
      var payload := Read(file, pos + HEADER_SIZE, klen + vlen);
      if |payload| < klen + vlen then None
      else
        var f := Frame(Unpack(h[5..13]), h[13..21], Unpack(h[21..22]), payload[..klen], payload[klen..]);
        if FrameCrc(f, c) != Unpack(h[30..34]) || !(1 <= f.op <= LAST_OP) then None
        else Some((f, pos + HEADER_SIZE + klen + vlen))
  }

  /** A frame is read only with a known operation, and with a sum over operation, number, key and
      value, in this order, whose low 32 bits are the four bytes at the end of its header; key and
      value lie behind them. */
  lemma ReadFrameIsSummed(file: Bytes, pos: nat, c: Checksum)
    requires ReadFrame(file, pos, c).Some?
    ensures var (f, next) := ReadFrame(file, pos, c).value;
            && pos + 34 <= next <= |file| && 1 <= f.op <= 7
            && c(Pack(f.op, 1) + Pack(f.lsn, 8) + f.key + f.value) % 0x1_0000_0000 == Unpack(file[pos + 30..pos + 34])
            && file[pos + 34..next] == f.key + f.value
  {
    hide Unpack, Pack;
    var h := Read(file, pos, HEADER_SIZE);
    assert h[30..34] == file[pos + 30..pos + 34];
    var (f, next) := ReadFrame(file, pos, c).value;
    assert file[pos + 34..next] == f.key + f.value;
  }

  /** And that sum is what an append writes there. */
  lemma FrameIsSummed(f: Frame, c: Checksum)
    requires FrameFits(f)
    ensures |EncodeFrame(f, c)| >= 34
    ensures EncodeFrame(f, c)[30..34] == Pack(c(Pack(f.op, 1) + Pack(f.lsn, 8) + f.key + f.value) % 0x1_0000_0000, 4)
  {
    hide Pack;
    var h := FrameHeader(f, c);
    assert EncodeFrame(f, c)[30..34] == h[30..34];
  }

  function ReadFrames(file: Bytes, pos: nat, c: Checksum): seq<Frame>
    decreases |file| - pos
  {
    var r := ReadFrame(file, pos, c);
    if r == None then [] else [r.value.0] + ReadFrames(file, r.value.1, c)
  }

  /** The generator, collected. */
  method ReadSegment(file: Bytes, c: Checksum) returns (frames: seq<Frame>)
    ensures frames == ReadFrames(file, 0, c)
  {
    hide ReadFrame;
    frames := [];
    var pos := 0;
    ghost var all := ReadFrames(file, 0, c);
    assert frames + all == all;
    while true
      invariant frames + ReadFrames(file, pos, c) == all
      decreases |file| - pos
    {
      var r := ReadFrame(file, pos, c);
      if r == None {
        assert frames + [] == frames;
        break;
      }
      assert frames + ([r.value.0] + ReadFrames(file, r.value.1, c))
          == (frames + [r.value.0]) + ReadFrames(file, r.value.1, c);
      frames := frames + [r.value.0];
      pos := r.value.1;
    }
  }

  // ---------- Frames read back ----------

  lemma HeaderFields(f: Frame, c: Checksum)
    requires FrameFits(f)
    ensures var h := FrameHeader(f, c);
            && h[..5] == MAGIC + VERSION && Unpack(h[5..13]) == f.lsn && h[13..21] == f.stamp
            && Unpack(h[21..22]) == f.op && Unpack(h[22..26]) == |f.key| && Unpack(h[26..30]) == |f.value|
            && Unpack(h[30..34]) == FrameCrc(f, c)
  {
    hide Pack, Unpack, FrameCrc, Fits;
    var h := FrameHeader(f, c);
    assert h[..5] == MAGIC + VERSION && h[5..13] == Pack(f.lsn, 8) && h[13..21] == f.stamp;
    assert h[21..22] == Pack(f.op, 1) && h[22..26] == Pack(|f.key|, 4) && h[26..30] == Pack(|f.value|, 4);
    assert h[30..34] == Pack(FrameCrc(f, c), 4);
    SmallFields(f, c);
    UnpackPack(f.lsn, 8);
    UnpackPack(f.op, 1);
    UnpackPack(|f.key|, 4);
    UnpackPack(|f.value|, 4);
    UnpackPack(FrameCrc(f, c), 4);
  }

  lemma SmallFields(f: Frame, c: Checksum)
    requires FrameFits(f)
    ensures Fits(f.op, 1) && Fits(FrameCrc(f, c), 4)
  {
    Pow256Values();
  }

  lemma FrameReadsBack(file: Bytes, pos: nat, f: Frame, c: Checksum)
    requires FrameFits(f) && At(file, pos, EncodeFrame(f, c))
    ensures ReadFrame(file, pos, c) == Some((f, pos + |EncodeFrame(f, c)|))
  {
    hide FrameHeader, Unpack, FrameCrc, Fits, At, Read;
    var h := FrameHeader(f, c);
    ReadPieces(file, pos, h, f.key + f.value);
    HeaderFields(f, c);
    assert (f.key + f.value)[..|f.key|] == f.key && (f.key + f.value)[|f.key|..] == f.value;
    AtEndsInside(file, pos + |h|, f.key + f.value);
  }

  lemma AtEndsInside(file: Bytes, pos: nat, x: Bytes)
    requires At(file, pos, x)
    ensures pos + |x| <= |file|
  {
  }

  /** A frame cut short anywhere stops the replay. */
  lemma TornFrameStops(file: Bytes, pos: nat, f: Frame, c: Checksum)
    requires FrameFits(f) && pos <= |file| && |file| - pos < |EncodeFrame(f, c)|
    requires file[pos..] == EncodeFrame(f, c)[..|file| - pos]
    ensures ReadFrame(file, pos, c) == None
  {
    hide FrameHeader, Unpack, FrameCrc, Fits;
    var rest := file[pos..];
    var h := FrameHeader(f, c);
    if |rest| >= HEADER_SIZE {
      assert Read(file, pos, HEADER_SIZE) == rest[..HEADER_SIZE] == h;
      HeaderFields(f, c);
    }
  }

  lemma EncodeSplit(fs: seq<Frame>, c: Checksum, i: nat)
    requires AllFit(fs) && i < |fs|
    ensures AllFit(fs[..i]) && AllFit(fs[..i + 1])
    ensures EncodeAll(fs[..i + 1], c) == EncodeAll(fs[..i], c) + EncodeFrame(fs[i], c)
  {
    assert fs[..i + 1][..i] == fs[..i];
  }

  lemma {:induction false} EncodePrefix(fs: seq<Frame>, c: Checksum, i: nat)
    requires AllFit(fs) && i <= |fs|
    ensures AllFit(fs[..i]) && EncodeAll(fs[..i], c) <= EncodeAll(fs, c)
    decreases |fs| - i
  {
    if i < |fs| {
      EncodePrefix(fs, c, i + 1);
      EncodeSplit(fs, c, i);
    } else {
      assert fs[..i] == fs;
    }
  }

  /** Crash truncation: cut the image of any appended frames at any byte, and replay
      yields exactly the frames that lie wholly before the cut. */
  lemma CutRecovers(fs: seq<Frame>, c: Checksum, cut: nat, j: nat)
    requires AllFit(fs) && cut <= |EncodeAll(fs, c)| && j <= |fs|
    requires AllFit(fs[..j]) && |EncodeAll(fs[..j], c)| <= cut
    requires j < |fs| ==> AllFit(fs[..j + 1]) && cut < |EncodeAll(fs[..j + 1], c)|
    ensures ReadFrames(EncodeAll(fs, c)[..cut], 0, c) == fs[..j]
  {
    hide EncodeFrame, ReadFrame, ReadFrames;
    var file := EncodeAll(fs, c)[..cut];
    var end := |EncodeAll(fs[..j], c)|;
    EncodePrefix(fs, c, j);
    assert file[..end] == EncodeAll(fs[..j], c);
    if j < |fs| {
      EncodePrefix(fs, c, j + 1);
      EncodeSplit(fs, c, j);
      assert file[end..] == EncodeFrame(fs[j], c)[..cut - end];
      TornFrameStops(file, end, fs[j], c);
    } else {
      assert fs[..j] == fs;
      AtTheEnd(file, c);
    }
    WholeFramesThenStop(file, fs[..j], c, 0);
    assert fs[..j][0..] == fs[..j];
  }

  /** Every cut has one such number of whole frames. */
  lemma {:induction false} WholeFrames(fs: seq<Frame>, c: Checksum, cut: nat) returns (j: nat)
    requires AllFit(fs) && cut <= |EncodeAll(fs, c)|
    ensures j <= |fs| && AllFit(fs[..j]) && |EncodeAll(fs[..j], c)| <= cut
    ensures j < |fs| ==> AllFit(fs[..j + 1]) && cut < |EncodeAll(fs[..j + 1], c)|
  {
    hide EncodeFrame;
    if fs == [] || cut == |EncodeAll(fs, c)| {
      assert fs[..|fs|] == fs;
      return |fs|;
    }
    var n := |fs| - 1;
    if cut >= |EncodeAll(fs[..n], c)| {
      assert fs[..n + 1] == fs;
      return n;
    }
    j := WholeFrames(fs[..n], c, cut);
    assert fs[..n][..j] == fs[..j] && fs[..n][..j + 1] == fs[..j + 1];
  }

  /** So replay after any cut yields some number of the first frames, all that lie wholly before it. */
  lemma AnyCutRecovers(fs: seq<Frame>, c: Checksum, cut: nat)
    requires AllFit(fs) && cut <= |EncodeAll(fs, c)|
    ensures exists j :: 0 <= j <= |fs| && AllFit(fs[..j]) && |EncodeAll(fs[..j], c)| <= cut
                        && ReadFrames(EncodeAll(fs, c)[..cut], 0, c) == fs[..j]
                        && (j < |fs| ==> AllFit(fs[..j + 1]) && cut < |EncodeAll(fs[..j + 1], c)|)
  {
    hide EncodeAll, ReadFrames;
    var j := WholeFrames(fs, c, cut);
    CutRecovers(fs, c, cut, j);
  }

  lemma AtTheEnd(file: Bytes, c: Checksum)
    ensures ReadFrame(file, |file|, c) == None
  {
  }

  lemma FrameAt(file: Bytes, fs: seq<Frame>, c: Checksum, i: nat)
    requires AllFit(fs) && i < |fs| && EncodeAll(fs, c) <= file
    ensures AllFit(fs[..i]) && AllFit(fs[..i + 1])
    ensures ReadFrame(file, |EncodeAll(fs[..i], c)|, c) == Some((fs[i], |EncodeAll(fs[..i + 1], c)|))
  {
    hide ReadFrame, EncodeFrame, EncodeAll;
    EncodePrefix(fs, c, i + 1);
    EncodeSplit(fs, c, i);
    var pos := |EncodeAll(fs[..i], c)|;
    assert EncodeAll(fs[..i + 1], c) <= file;
    assert At(file, pos, EncodeFrame(fs[i], c));
    FrameReadsBack(file, pos, fs[i], c);
  }

  /** Frames at the front of a file, with nothing readable behind them. */
  lemma {:induction false} WholeFramesThenStop(file: Bytes, fs: seq<Frame>, c: Checksum, i: nat)
    requires AllFit(fs) && i <= |fs|
    requires EncodeAll(fs, c) <= file
    requires ReadFrame(file, |EncodeAll(fs, c)|, c) == None
    ensures AllFit(fs[..i])
    ensures ReadFrames(file, |EncodeAll(fs[..i], c)|, c) == fs[i..]
    decreases |fs| - i
  {
    hide ReadFrame, EncodeAll;
    if i < |fs| {
      WholeFramesThenStop(file, fs, c, i + 1);
      FrameAt(file, fs, c, i);
      assert fs[i..] == [fs[i]] + fs[i + 1..];
    } else {
      assert fs[..i] == fs;
    }
  }

  /** A whole segment reads back whole. */
  lemma SegmentRoundTrip(fs: seq<Frame>, c: Checksum)
    requires AllFit(fs)
    ensures ReadFrames(EncodeAll(fs, c), 0, c) == fs
  {
    assert fs[..|fs|] == fs;
    assert EncodeAll(fs, c)[..|EncodeAll(fs, c)|] == EncodeAll(fs, c);
    CutRecovers(fs, c, |EncodeAll(fs, c)|, |fs|);
  }

  /** A crash in the middle of an append leaves no trace of the unfinished frame. */
  lemma TornAppendIsInvisible(fs: seq<Frame>, f: Frame, c: Checksum, n: nat)
    requires AllFit(fs) && FrameFits(f) && n < |EncodeFrame(f, c)|
    ensures ReadFrames(EncodeAll(fs, c) + EncodeFrame(f, c)[..n], 0, c) == fs
  {
    hide EncodeFrame, ReadFrames;
    var all := fs + [f];
    assert all[..|fs|] == fs && all[..|fs| + 1] == all;
    assert EncodeAll(all, c) == EncodeAll(fs, c) + EncodeFrame(f, c);
    var cut := |EncodeAll(fs, c)| + n;
    assert EncodeAll(all, c)[..cut] == EncodeAll(fs, c) + EncodeFrame(f, c)[..n];
    CutRecovers(all, c, cut, |fs|);
  }

  lemma ShiftedFrame(front: Bytes, tail: Bytes, pos: nat, c: Checksum)
    ensures var r := ReadFrame(tail, pos, c);
            (ReadFrame(front + tail, |front| + pos, c)
             == if r == None then None else Some((r.value.0, |front| + r.value.1)))
  {
    hide Unpack, FrameCrc;
    assert Read(front + tail, |front| + pos, HEADER_SIZE) == Read(tail, pos, HEADER_SIZE);
    var h := Read(tail, pos, HEADER_SIZE);
    if |h| >= HEADER_SIZE {
      var n := Unpack(h[22..26]) + Unpack(h[26..30]);
      assert Read(front + tail, |front| + pos + HEADER_SIZE, n) == Read(tail, pos + HEADER_SIZE, n);
    }
  }

  lemma {:induction false} ShiftedFrames(front: Bytes, tail: Bytes, pos: nat, c: Checksum)
    ensures ReadFrames(front + tail, |front| + pos, c) == ReadFrames(tail, pos, c)
    decreases |tail| - pos
  {
    hide ReadFrame;
    ShiftedFrame(front, tail, pos, c);
    var r := ReadFrame(tail, pos, c);
    if r.Some? {
      ShiftedFrames(front, tail, r.value.1, c);
    }
  }

  /** Whole frames are recovered whatever follows them, and what follows is read as if it
      stood alone. */
  lemma {:induction false} FramesThenTail(fs: seq<Frame>, tail: Bytes, c: Checksum)
    requires AllFit(fs)
    ensures ReadFrames(EncodeAll(fs, c) + tail, 0, c) == fs + ReadFrames(tail, 0, c)
  {
    hide ReadFrame, ReadFrames;
    var file, end := EncodeAll(fs, c) + tail, |EncodeAll(fs, c)|;
    ShiftedFrames(EncodeAll(fs, c), tail, 0, c);
    FramesInFront(file, fs, c, 0);
    assert fs[..0] == [] && fs[0..] == fs;
  }

  lemma {:induction false} FramesInFront(file: Bytes, fs: seq<Frame>, c: Checksum, i: nat)
    requires AllFit(fs) && i <= |fs| && EncodeAll(fs, c) <= file
    ensures AllFit(fs[..i])
    ensures ReadFrames(file, |EncodeAll(fs[..i], c)|, c) == fs[i..] + ReadFrames(file, |EncodeAll(fs, c)|, c)
    decreases |fs| - i
  {
    hide ReadFrame, EncodeAll;
    var rest := ReadFrames(file, |EncodeAll(fs, c)|, c);
    if i < |fs| {
      FramesInFront(file, fs, c, i + 1);
      FrameAt(file, fs, c, i);
      assert fs[i..] + rest == [fs[i]] + (fs[i + 1..] + rest);
    } else {
      assert fs[..i] == fs && fs[i..] + rest == rest;
    }
  }

  /** A tail whose first bytes are no frame header stops the replay, however long it is. */
  lemma GarbageTailIsIgnored(fs: seq<Frame>, c: Checksum, tail: Bytes)
    requires AllFit(fs) && (|tail| < HEADER_SIZE || tail[..5] != MAGIC + VERSION)
    ensures ReadFrames(EncodeAll(fs, c) + tail, 0, c) == fs
  {
    if |tail| >= HEADER_SIZE {
      assert Read(tail, 0, HEADER_SIZE)[..5] == tail[..5];
    }
    FramesThenTail(fs, tail, c);
    assert fs + [] == fs;
  }

  /** Behind a frame that was cut inside its payload, later bytes complete the payload: a
      frame is read there exactly when enough bytes follow and the checksum happens to agree. */
  lemma TornPayloadTakesLaterBytes(f: Frame, n: nat, later: Bytes, c: Checksum)
    requires FrameFits(f) && HEADER_SIZE <= n < |EncodeFrame(f, c)|
    ensures var payload := (f.key + f.value)[..n - HEADER_SIZE] + later;
            var klen, size := |f.key|, |f.key| + |f.value|;
            (ReadFrame(EncodeFrame(f, c)[..n] + later, 0, c)
             == if |payload| < size || Crc(c, f.op, f.lsn, payload[..klen], payload[klen..size]) != FrameCrc(f, c)
                then None
                else Some((f.(key := payload[..klen], value := payload[klen..size]), HEADER_SIZE + size)))
  {
    hide FrameHeader, Unpack, Fits, Crc;
    var file, h := EncodeFrame(f, c)[..n] + later, FrameHeader(f, c);
    var payload := (f.key + f.value)[..n - HEADER_SIZE] + later;
    var size := |f.key| + |f.value|;
    assert file == h + payload;
    assert Read(file, 0, HEADER_SIZE) == h;
    HeaderFields(f, c);
    var p := Read(file, HEADER_SIZE, size);
    if |payload| >= size {
      assert p == payload[..size];
      assert p[..|f.key|] == payload[..|f.key|] && p[|f.key|..] == payload[|f.key|..size];
    } else {
      assert p == payload;
    }
  }

  /** The header that a frame torn inside its own one is read with: the missing bytes come from
      whatever follows. */
  function SplicedHeader(f: Frame, n: nat, later: Bytes, c: Checksum): (h: Bytes)
    requires FrameFits(f) && n <= HEADER_SIZE <= n + |later|
    ensures |h| == HEADER_SIZE
  {
    FrameHeader(f, c)[..n] + later[..HEADER_SIZE - n]
  }

  /** Behind a frame that was cut inside its header, but not inside magic and version, a frame is
      read exactly when the spliced header is complete, declares no more bytes than follow, and
      its checksum and operation happen to be right. */
  lemma TornHeaderTakesLaterBytes(f: Frame, n: nat, later: Bytes, c: Checksum)
    requires FrameFits(f) && 5 <= n <= HEADER_SIZE
    ensures HEADER_SIZE > n + |later| ==> ReadFrame(EncodeFrame(f, c)[..n] + later, 0, c) == None
    ensures HEADER_SIZE <= n + |later| ==>
              var h, rest := SplicedHeader(f, n, later, c), later[HEADER_SIZE - n..];
              var klen, size := Unpack(h[22..26]), Unpack(h[22..26]) + Unpack(h[26..30]);
              (ReadFrame(EncodeFrame(f, c)[..n] + later, 0, c)
               == if |rest| < size then None
                  else
                    var g := Frame(Unpack(h[5..13]), h[13..21], Unpack(h[21..22]), rest[..klen], rest[klen..size]);
                    if FrameCrc(g, c) == Unpack(h[30..34]) && 1 <= g.op <= LAST_OP
                    then Some((g, HEADER_SIZE + size)) else None)
    ensures HEADER_SIZE <= n + |later| ==>
              var h := SplicedHeader(f, n, later, c);
              && h[..5] == MAGIC + VERSION
              && (n >= 13 ==> Unpack(h[5..13]) == f.lsn) && (n >= 21 ==> h[13..21] == f.stamp)
              && (n >= 22 ==> Unpack(h[21..22]) == f.op) && (n >= 26 ==> Unpack(h[22..26]) == |f.key|)
              && (n >= 30 ==> Unpack(h[26..30]) == |f.value|)
  {
    hide Unpack, Fits, FrameCrc;
    if HEADER_SIZE <= n + |later| {
      SplicedFields(f, n, later, c);
    }
    hide FrameHeader;
    var file := EncodeFrame(f, c)[..n] + later;
    assert EncodeFrame(f, c)[..n] == FrameHeader(f, c)[..n];
    if HEADER_SIZE <= n + |later| {
      var h, rest := SplicedHeader(f, n, later, c), later[HEADER_SIZE - n..];
      assert file == h + rest;
      assert Read(file, 0, HEADER_SIZE) == h;
      var klen, size := Unpack(h[22..26]), Unpack(h[22..26]) + Unpack(h[26..30]);
      var p := Read(file, HEADER_SIZE, size);
      if |rest| >= size {
        assert p == rest[..size];
        assert p[..klen] == rest[..klen] && p[klen..] == rest[klen..size];
      } else {
        assert p == rest;
      }
    }
  }

  lemma SplicedFields(f: Frame, n: nat, later: Bytes, c: Checksum)
    requires FrameFits(f) && 5 <= n <= HEADER_SIZE <= n + |later|
    ensures var h, whole := SplicedHeader(f, n, later, c), FrameHeader(f, c);
            && h[..5] == MAGIC + VERSION
            && (n >= 13 ==> Unpack(h[5..13]) == f.lsn) && (n >= 21 ==> h[13..21] == f.stamp)
            && (n >= 22 ==> Unpack(h[21..22]) == f.op) && (n >= 26 ==> Unpack(h[22..26]) == |f.key|)
            && (n >= 30 ==> Unpack(h[26..30]) == |f.value|)
  {
    hide Unpack, Fits, FrameCrc;
    HeaderFields(f, c);
    hide FrameHeader;
    var h, whole := SplicedHeader(f, n, later, c), FrameHeader(f, c);
    assert h[..n] == whole[..n];
    assert forall a, b :: 0 <= a <= b <= n ==> h[a..b] == h[..n][a..b] && whole[a..b] == whole[..n][a..b];
  }

  /** The log is reopened in append mode without cutting a torn tail. Behind one to four
      torn bytes of a frame, no frame written later is ever recovered; with no torn
      byte, every one is. */
  lemma TornTailHidesLaterFrames(fs: seq<Frame>, torn: Bytes, gs: seq<Frame>, c: Checksum)
    requires AllFit(fs) && AllFit(gs) && |torn| <= 4 && torn <= MAGIC + VERSION
    ensures ReadFrames(EncodeAll(fs, c) + (torn + EncodeAll(gs, c)), 0, c) == if torn == [] then fs + gs else fs
  {
    hide EncodeAll, ReadFrames;
    if torn == [] {
      EncodeConcat(fs, gs, c);
      SegmentRoundTrip(fs + gs, c);
      assert torn + EncodeAll(gs, c) == EncodeAll(gs, c);
    } else {
      TornStartIsNoHeader(torn, gs, c);
      GarbageTailIsIgnored(fs, c, torn + EncodeAll(gs, c));
    }
  }

  /** Every non-empty segment starts with the letter Z. */
  lemma {:induction false} SegmentStart(gs: seq<Frame>, c: Checksum)
    requires AllFit(gs) && gs != []
    ensures EncodeAll(gs, c) != [] && EncodeAll(gs, c)[0] == 'Z'
  {
    var n := |gs| - 1;
    if n > 0 {
      SegmentStart(gs[..n], c);
    }
  }

  lemma TornStartIsNoHeader(torn: Bytes, gs: seq<Frame>, c: Checksum)
    requires AllFit(gs) && 1 <= |torn| <= 4 && torn <= MAGIC + VERSION
    ensures var tail := torn + EncodeAll(gs, c);
            |tail| < HEADER_SIZE || tail[..5] != MAGIC + VERSION
  {
    var tail := torn + EncodeAll(gs, c);
    if gs != [] {
      SegmentStart(gs, c);
      assert tail[|torn|] == 'Z';
      if |tail| >= 5 {
        assert tail[..5][|torn|] != (MAGIC + VERSION)[|torn|];
      }
    }
  }

  lemma Associative(a: Bytes, b: Bytes, c: Bytes)
    ensures (a + b) + c == a + (b + c)
  {
  }

  lemma {:induction false} EncodeConcat(fs: seq<Frame>, gs: seq<Frame>, c: Checksum)
    requires AllFit(fs) && AllFit(gs)
    ensures AllFit(fs + gs) && EncodeAll(fs + gs, c) == EncodeAll(fs, c) + EncodeAll(gs, c)
  {
    hide EncodeFrame;
    if gs == [] {
      assert fs + gs == fs;
    } else {
      var n := |gs| - 1;
      assert (fs + gs)[..|fs| + n] == fs + gs[..n];
      EncodeConcat(fs, gs[..n], c);
      Associative(EncodeAll(fs, c), EncodeAll(gs[..n], c), EncodeFrame(gs[n], c));
    }
  }
}
