/** Length-prefixed framing, shared by the write-ahead log and by `entities.bin`:
    each frame is a 4-byte little-endian payload length followed by the payload. */
module Frames {
  import opened Bytes

  function FrameBytes(payload: seq<byte>): (b: seq<byte>)
    ensures |b| == 4 + |payload|
  {
    Le32(|payload|) + payload
  }

  function LogBytes(payloads: seq<seq<byte>>): seq<byte> {
    if payloads == [] then [] else FrameBytes(payloads[0]) + LogBytes(payloads[1..])
  }

  /** Every payload length survives the cast to u32. */
  ghost predicate Framable(payloads: seq<seq<byte>>) {
    forall i :: 0 <= i < |payloads| ==> |payloads[i]| < 0x1_0000_0000
  }

  /** One frame met by a scan: the offset of its length prefix, and its payload. */
  datatype Frame = Frame(start: nat, payload: seq<byte>)

  /** A whole scan: the complete frames met, the cursor where the scan stopped, and
      whether it stopped on a length prefix that runs past the end. */
  datatype ScanResult = ScanResult(frames: seq<Frame>, end: nat, torn: bool)

  /** The scan loop of `replay_wal` and `rebuild_disk_index`. On a torn frame the cursor
      stays behind the length prefix already consumed. */
  function Scan(bytes: seq<byte>, pos: nat): (r: ScanResult)
    requires pos <= |bytes|
    ensures pos <= r.end <= |bytes|
    decreases |bytes| - pos
  {
    if pos + 4 > |bytes| then ScanResult([], pos, false)
    else
      var len := FromLe32(bytes[pos..pos + 4]);
      if pos + 4 + len > |bytes| then ScanResult([], pos + 4, true)
      else
        var rest := Scan(bytes, pos + 4 + len);
        ScanResult([Frame(pos, bytes[pos + 4..pos + 4 + len])] + rest.frames, rest.end, rest.torn)
  }

  lemma ScanStop(bytes: seq<byte>, pos: nat)
    requires pos <= |bytes| < pos + 4
    ensures Scan(bytes, pos) == ScanResult([], pos, false)
  {
  }

  /** One turn of the scan loop. */
  lemma ScanStep(bytes: seq<byte>, pos: nat)
    requires pos + 4 <= |bytes|
    ensures var len := FromLe32(bytes[pos..pos + 4]);
            var r := Scan(bytes, pos);
            if pos + 4 + len > |bytes| then r == ScanResult([], pos + 4, true)
            else
              var rest := Scan(bytes, pos + 4 + len);
              r.frames == [Frame(pos, bytes[pos + 4..pos + 4 + len])] + rest.frames && r.end == rest.end
                  && r.torn == rest.torn
  {
  }

  /** The frames that `LogBytes(payloads)` holds when it is placed at `pos`. */
  function FramesOf(pos: nat, payloads: seq<seq<byte>>): (fs: seq<Frame>)
    ensures |fs| == |payloads|
    decreases |payloads|
  {
    if payloads == [] then []
    else [Frame(pos, payloads[0])] + FramesOf(pos + 4 + |payloads[0]|, payloads[1..])
  }

  function Payloads(fs: seq<Frame>): (ps: seq<seq<byte>>)
    ensures |ps| == |fs|
    ensures forall i :: 0 <= i < |fs| ==> ps[i] == fs[i].payload
  {
    seq(|fs|, i requires 0 <= i < |fs| => fs[i].payload)
  }

  lemma {:induction false} PayloadsOfFrames(pos: nat, payloads: seq<seq<byte>>)
    ensures Payloads(FramesOf(pos, payloads)) == payloads
    decreases |payloads|
  {
    if payloads == [] {
    } else {
      PayloadsOfFrames(pos + 4 + |payloads[0]|, payloads[1..]);
      var rest := FramesOf(pos + 4 + |payloads[0]|, payloads[1..]);
      forall i | 0 <= i < |payloads| ensures FramesOf(pos, payloads)[i].payload == payloads[i] {
        if i > 0 {
          assert FramesOf(pos, payloads)[i] == rest[i - 1];
          assert Payloads(rest)[i - 1] == payloads[1..][i - 1];
        }
      }
    }
  }

  lemma {:induction false} LogConcat(a: seq<seq<byte>>, b: seq<seq<byte>>)
    ensures LogBytes(a + b) == LogBytes(a) + LogBytes(b)
  {
    if a == [] {
      assert a + b == b;
    } else {
      assert (a + b)[1..] == a[1..] + b;
      LogConcat(a[1..], b);
    }
  }

  lemma {:induction false} FramesConcat(pos: nat, a: seq<seq<byte>>, b: seq<seq<byte>>)
    ensures FramesOf(pos, a + b) == FramesOf(pos, a) + FramesOf(pos + |LogBytes(a)|, b)
    decreases |a|
  {
    if a == [] {
      assert a + b == b;
    } else {
      var next := pos + 4 + |a[0]|;
      assert (a + b)[1..] == a[1..] + b;
      FramesConcat(next, a[1..], b);
      hide FramesOf, LogBytes;
      assert [Frame(pos, a[0])] + (FramesOf(next, a[1..]) + FramesOf(next + |LogBytes(a[1..])|, b))
          == [Frame(pos, a[0])] + FramesOf(next, a[1..]) + FramesOf(next + |LogBytes(a[1..])|, b);
    }
  }

  lemma LogAppend(a: seq<seq<byte>>, p: seq<byte>)
    ensures LogBytes(a + [p]) == LogBytes(a) + FrameBytes(p)
  {
    LogConcat(a, [p]);
    assert LogBytes([p]) == FrameBytes(p) + LogBytes([]);
  }

  /** A scan that meets one intact frame reports it and goes on behind it. */
  lemma ScanFrame(bytes: seq<byte>, pos: nat, p: seq<byte>)
    requires At(bytes, pos, FrameBytes(p)) && |p| < 0x1_0000_0000
    ensures var r, rest := Scan(bytes, pos), Scan(bytes, pos + 4 + |p|);
            r.frames == [Frame(pos, p)] + rest.frames && r.end == rest.end && r.torn == rest.torn
  {
    assert At(bytes, pos, Le32(|p|)) && At(bytes, pos + 4, p) by {
      AtSplit(bytes, pos, Le32(|p|), p);
    }
    assert FromLe32(bytes[pos..pos + 4]) == |p| by { ReadU32At(bytes, pos, |p|); }
  }

  /** A scan that starts on an intact log reports its frames and goes on behind it. */
  lemma {:induction false} ScanLog(bytes: seq<byte>, pos: nat, payloads: seq<seq<byte>>)
    requires At(bytes, pos, LogBytes(payloads)) && Framable(payloads)
    ensures var r, rest := Scan(bytes, pos), Scan(bytes, pos + |LogBytes(payloads)|);
            r.frames == FramesOf(pos, payloads) + rest.frames && r.end == rest.end && r.torn == rest.torn
    decreases |payloads|
  {
    hide Scan;
    if payloads == [] {
    } else {
      var p, tail := payloads[0], payloads[1..];
      assert At(bytes, pos, FrameBytes(p)) && At(bytes, pos + 4 + |p|, LogBytes(tail)) by {
        AtSplit(bytes, pos, FrameBytes(p), LogBytes(tail));
      }
      ScanFrame(bytes, pos, p);
      ScanLog(bytes, pos + 4 + |p|, tail);
    }
  }

  /** The number of frames of the log that lie entirely within its first `n` bytes. */
  function Complete(payloads: seq<seq<byte>>, n: nat): (k: nat)
    ensures k <= |payloads|
  {
    if payloads == [] || n < 4 + |payloads[0]| then 0
    else 1 + Complete(payloads[1..], n - 4 - |payloads[0]|)
  }

  /** `Complete` is the largest number of frames whose bytes fit. */
  lemma {:induction false} CompleteIsMaximal(payloads: seq<seq<byte>>, n: nat, j: nat)
    requires j <= |payloads|
    ensures |LogBytes(payloads[..j])| <= n <==> j <= Complete(payloads, n)
  {
    if j == 0 {
    } else {
      assert payloads[..j][1..] == payloads[1..][..j - 1];
      assert |LogBytes(payloads[..j])| == 4 + |payloads[0]| + |LogBytes(payloads[1..][..j - 1])|;
      if n >= 4 + |payloads[0]| {
        CompleteIsMaximal(payloads[1..], n - 4 - |payloads[0]|, j - 1);
      }
    }
  }

  /** What remains of `bytes` from `pos` on is the beginning of `whole`. */
  ghost predicate CutOf(bytes: seq<byte>, pos: nat, whole: seq<byte>) {
    pos <= |bytes| && bytes[pos..] <= whole
  }

  lemma CutBelow(bytes: seq<byte>, pos: nat, x: seq<byte>, rest: seq<byte>)
    requires CutOf(bytes, pos, x + rest) && pos + |x| <= |bytes|
    ensures At(bytes, pos, x) && CutOf(bytes, pos + |x|, rest)
  {
    assert bytes[pos..][..|x|] == (x + rest)[..|x|] == x;
    assert bytes[pos + |x|..] == bytes[pos..][|x|..] <= (x + rest)[|x|..] == rest;
  }

  /** A scan stops at once on a frame that is cut short. */
  lemma ScanPartial(bytes: seq<byte>, pos: nat, p: seq<byte>, rest: seq<byte>)
    requires CutOf(bytes, pos, FrameBytes(p) + rest) && |bytes| < pos + 4 + |p| && |p| < 0x1_0000_0000
    ensures Scan(bytes, pos).frames == []
  {
    hide CutOf, Le32, Scan, FromLe32;
    if pos + 4 <= |bytes| {
      assert Le32(|p|) + p + rest == Le32(|p|) + (p + rest);
      CutBelow(bytes, pos, Le32(|p|), p + rest);
      ReadU32At(bytes, pos, |p|);
      ScanStep(bytes, pos);
    } else {
      CutInside(bytes, pos, FrameBytes(p) + rest);
      ScanStop(bytes, pos);
    }
  }

  lemma CutInside(bytes: seq<byte>, pos: nat, whole: seq<byte>)
    requires CutOf(bytes, pos, whole)
    ensures pos <= |bytes| <= pos + |whole|
  {
  }

  lemma FramesNone(pos: nat, payloads: seq<seq<byte>>)
    requires payloads == []
    ensures FramesOf(pos, payloads) == []
  {
  }

  lemma FramesCons(pos: nat, payloads: seq<seq<byte>>, k: nat)
    requires 0 < k <= |payloads|
    ensures FramesOf(pos, payloads[..k])
            == [Frame(pos, payloads[0])] + FramesOf(pos + 4 + |payloads[0]|, payloads[1..][..k - 1])
  {
    assert payloads[..k][1..] == payloads[1..][..k - 1];
  }

  lemma LogFirst(payloads: seq<seq<byte>>)
    requires payloads != [] && Framable(payloads)
    ensures LogBytes(payloads) == FrameBytes(payloads[0]) + LogBytes(payloads[1..])
    ensures |payloads[0]| < 0x1_0000_0000 && Framable(payloads[1..])
  {
    hide FrameBytes;
  }

  lemma CompleteFirst(payloads: seq<seq<byte>>, n: nat)
    requires payloads != []
    ensures var size := 4 + |payloads[0]|;
            Complete(payloads, n) == if n < size then 0 else 1 + Complete(payloads[1..], n - size)
  {
  }

  lemma CutNothing(bytes: seq<byte>, pos: nat)
    requires CutOf(bytes, pos, LogBytes([]))
    ensures pos <= |bytes| && Scan(bytes, pos).frames == FramesOf(pos, []) == []
  {
    hide Scan;
    ScanStop(bytes, pos);
  }

  /** Cutting a log at any byte leaves a scan exactly the frames that are complete. */
  lemma {:induction false} ScanCut(bytes: seq<byte>, pos: nat, payloads: seq<seq<byte>>)
    requires CutOf(bytes, pos, LogBytes(payloads)) && Framable(payloads)
    ensures pos <= |bytes|
    ensures Scan(bytes, pos).frames == FramesOf(pos, payloads[..Complete(payloads, |bytes| - pos)])
    decreases |payloads|
  {
    hide Scan, FrameBytes, At, FramesOf, LogBytes, Complete, Framable, CutOf;
    CutInside(bytes, pos, LogBytes(payloads));
    if payloads == [] {
      CutNothing(bytes, pos);
    } else {
      var n, p, tail := |bytes| - pos, payloads[0], payloads[1..];
      LogFirst(payloads);
      CompleteFirst(payloads, n);
      if n < 4 + |p| {
        ScanPartial(bytes, pos, p, LogBytes(tail));
        FramesNone(pos, payloads[..0]);
      } else {
        CutBelow(bytes, pos, FrameBytes(p), LogBytes(tail));
        ScanFrame(bytes, pos, p);
        ScanCut(bytes, pos + 4 + |p|, tail);
        FramesCons(pos, payloads, 1 + Complete(tail, n - 4 - |p|));
      }
    }
  }

  /** A cut log, scanned from its start, yields the complete payloads in order. */
  lemma ScanCutLog(payloads: seq<seq<byte>>, n: nat)
    requires Framable(payloads) && n <= |LogBytes(payloads)|
    ensures Payloads(Scan(LogBytes(payloads)[..n], 0).frames) == payloads[..Complete(payloads, n)]
  {
    var bytes := LogBytes(payloads)[..n];
    assert bytes[0..] == bytes;
    ScanCut(bytes, 0, payloads);
    PayloadsOfFrames(0, payloads[..Complete(payloads, n)]);
  }

  /** A scan of `bytes` that has met `frames` is at `pos`. */
  ghost predicate Scanned(bytes: seq<byte>, frames: seq<Frame>, pos: nat) {
    && pos <= |bytes|
    && Scan(bytes, 0).frames == frames + Scan(bytes, pos).frames && Scan(bytes, 0).end == Scan(bytes, pos).end
  }

  lemma ScannedNone(bytes: seq<byte>)
    ensures Scanned(bytes, [], 0)
  {
    hide Scan;
  }

  lemma ScannedTurn(bytes: seq<byte>, frames: seq<Frame>, pos: nat)
    requires pos + 4 <= |bytes| && Scanned(bytes, frames, pos)
    ensures var next := pos + 4 + FromLe32(bytes[pos..pos + 4]);
            if next <= |bytes| then Scanned(bytes, frames + [Frame(pos, bytes[pos + 4..next])], next)
            else Scan(bytes, 0).frames == frames && Scan(bytes, 0).end == pos + 4
  {
    hide Scan, FromLe32;
    ScanStep(bytes, pos);
    var next := pos + 4 + FromLe32(bytes[pos..pos + 4]);
    if next <= |bytes| {
      var f := Frame(pos, bytes[pos + 4..next]);
      FramesAssoc(frames, f, Scan(bytes, next).frames);
    }
  }

  lemma FramesAssoc(a: seq<Frame>, f: Frame, b: seq<Frame>)
    ensures a + ([f] + b) == a + [f] + b
  {
  }

  lemma ScannedAll(bytes: seq<byte>, frames: seq<Frame>, pos: nat)
    requires pos <= |bytes| < pos + 4 && Scanned(bytes, frames, pos)
    ensures Scan(bytes, 0).frames == frames && Scan(bytes, 0).end == pos
  {
    ScanStop(bytes, pos);
    hide Scan;
    assert frames + [] == frames;
  }

  /// What any file scans as

  /** A scan that meets no torn frame stops less than four bytes before the end. */
  lemma {:induction false} ScanEnds(bytes: seq<byte>, pos: nat)
    requires pos <= |bytes|
    ensures var r := Scan(bytes, pos); !r.torn ==> |bytes| < r.end + 4
    decreases |bytes| - pos
  {
    hide FromLe32, Scan;
    if pos + 4 > |bytes| {
      ScanStop(bytes, pos);
    } else {
      ScanStep(bytes, pos);
      var next := pos + 4 + FromLe32(bytes[pos..pos + 4]);
      if next <= |bytes| {
        ScanEnds(bytes, next);
      }
    }
  }

  /** The frames of any scan are a log of the bytes scanned. The scan stops where that log
      ends exactly when it does not stop on a torn frame; then it stops 4 bytes further on. */
  lemma {:induction false} ScanIsLog(bytes: seq<byte>, pos: nat)
    requires pos <= |bytes|
    ensures var r := Scan(bytes, pos);
            var log := Payloads(r.frames);
            && Framable(log) && At(bytes, pos, LogBytes(log)) && r.frames == FramesOf(pos, log)
            && r.end == pos + |LogBytes(log)| + (if r.torn then 4 else 0)
    decreases |bytes| - pos
  {
    hide FromLe32, FrameBytes, At;
    if pos + 4 <= |bytes| {
      ScanStep(bytes, pos);
      var next := pos + 4 + FromLe32(bytes[pos..pos + 4]);
      if next <= |bytes| {
        var f := Frame(pos, bytes[pos + 4..next]);
        ScanIsLog(bytes, next);
        FrameHere(bytes, pos);
        hide Scan, LogBytes, FramesOf, Payloads;
        LogCons(bytes, f, Scan(bytes, next).frames);
      } else {
        AtNothing(bytes, pos);
      }
    } else {
      AtNothing(bytes, pos);
    }
  }

  lemma AtNothing(bytes: seq<byte>, pos: nat)
    requires pos <= |bytes|
    ensures At(bytes, pos, [])
  {
  }

  /** What the scan loop takes for a frame is one. */
  lemma FrameHere(bytes: seq<byte>, pos: nat)
    requires pos + 4 <= |bytes| && pos + 4 + FromLe32(bytes[pos..pos + 4]) <= |bytes|
    ensures At(bytes, pos, FrameBytes(bytes[pos + 4..pos + 4 + FromLe32(bytes[pos..pos + 4])]))
  {
    var n := FromLe32(bytes[pos..pos + 4]);
    var p := bytes[pos + 4..pos + 4 + n];
    assert Le32(|p|) == bytes[pos..pos + 4] by { Le32Onto(bytes[pos..pos + 4]); }
    hide Le32, FromLe32;
    AtSplit(bytes, pos, Le32(|p|), p);
  }

  lemma LogCons(bytes: seq<byte>, f: Frame, rest: seq<Frame>)
    requires |f.payload| < 0x1_0000_0000 && At(bytes, f.start, FrameBytes(f.payload))
    requires Framable(Payloads(rest)) && At(bytes, f.start + 4 + |f.payload|, LogBytes(Payloads(rest)))
    requires rest == FramesOf(f.start + 4 + |f.payload|, Payloads(rest))
    ensures var log := Payloads([f] + rest);
            && Framable(log) && At(bytes, f.start, LogBytes(log)) && [f] + rest == FramesOf(f.start, log)
            && |LogBytes(log)| == 4 + |f.payload| + |LogBytes(Payloads(rest))|
  {
    var log, tail := Payloads([f] + rest), Payloads(rest);
    hide FrameBytes;
    assert log == [f.payload] + tail;
    hide Payloads;
    assert log[1..] == tail;
    assert LogBytes(log) == FrameBytes(f.payload) + LogBytes(tail);
    AtSplit(bytes, f.start, FrameBytes(f.payload), LogBytes(tail));
  }

  lemma SamePart(a: seq<byte>, b: seq<byte>, end: nat, i: nat, j: nat)
    requires i <= j <= end <= |a| && end <= |b| && a[..end] == b[..end]
    ensures a[i..j] == b[i..j]
  {
    assert a[i..j] == a[..end][i..j] == b[..end][i..j];
  }

  /** After a torn tail, whatever is written at the rebuilt offset is read by the next scan
      as the payload of the torn frame, once the file is long enough. */
  lemma {:induction false} TornTailSwallows(bytes: seq<byte>, pos: nat, file: seq<byte>, end: nat, len: nat)
    requires pos <= |bytes| && Scan(bytes, pos).torn && end == Scan(bytes, pos).end
    requires 4 <= end && len == FromLe32(bytes[end - 4..end])
    requires end + len <= |file| && file[..end] == bytes[..end]
    ensures Scan(bytes, pos).frames + [Frame(end - 4, file[end..end + len])] <= Scan(file, pos).frames
    decreases |bytes| - pos
  {
    hide Scan, FromLe32;
    if pos + 4 > |bytes| {
      ScanStop(bytes, pos);
    }
    ScanStep(bytes, pos);
    SamePart(file, bytes, end, pos, pos + 4);
    ScanStep(file, pos);
    var next := pos + 4 + FromLe32(bytes[pos..pos + 4]);
    if next <= |bytes| {
      assert next <= Scan(bytes, next).end == end;
      TornTailSwallows(bytes, next, file, end, len);
      SamePart(file, bytes, end, pos + 4, next);
      hide *;
      ConsBelow(Frame(pos, bytes[pos + 4..next]), Scan(bytes, next).frames, Frame(end - 4, file[end..end + len]),
          Scan(file, next).frames);
    }
  }

  lemma ConsBelow(f: Frame, a: seq<Frame>, g: Frame, b: seq<Frame>)
    requires a + [g] <= b
    ensures [f] + a + [g] <= [f] + b
  {
    assert [f] + a + [g] == [f] + (a + [g]);
  }

  ghost predicate Meets(frames: seq<Frame>, f: Frame) {
    exists i :: 0 <= i < |frames| && frames[i] == f
  }

  lemma {:induction false} FramesFrom(bytes: seq<byte>, pos: nat)
    requires pos <= |bytes|
    ensures forall i :: 0 <= i < |Scan(bytes, pos).frames| ==> Scan(bytes, pos).frames[i].start >= pos
    decreases |bytes| - pos
  {
    hide FromLe32, Scan;
    if pos + 4 > |bytes| {
      ScanStop(bytes, pos);
    } else {
      ScanStep(bytes, pos);
      var next := pos + 4 + FromLe32(bytes[pos..pos + 4]);
      if next <= |bytes| {
        FramesFrom(bytes, next);
      }
    }
  }

  /** After a torn tail, no later scan meets a frame at the rebuilt offset, whatever is
      written there. */
  lemma {:induction false} TornNeverMeets(bytes: seq<byte>, pos: nat, file: seq<byte>, end: nat)
    requires pos <= |bytes| && Scan(bytes, pos).torn && end == Scan(bytes, pos).end
    requires end <= |file| && file[..end] == bytes[..end]
    ensures pos < end
    ensures forall i :: 0 <= i < |Scan(file, pos).frames| ==> Scan(file, pos).frames[i].start != end
    decreases |bytes| - pos
  {
    hide Scan, FromLe32;
    if pos + 4 > |bytes| {
      ScanStop(bytes, pos);
    }
    ScanStep(bytes, pos);
    ScanStep(file, pos);
    SamePart(file, bytes, end, pos, pos + 4);
    var next := pos + 4 + FromLe32(bytes[pos..pos + 4]);
    if next <= |bytes| {
      TornNeverMeets(bytes, next, file, end);
    } else if next <= |file| {
      FramesFrom(file, next);
    }
  }

  lemma {:induction false} TornEnd(bytes: seq<byte>, pos: nat)
    requires pos <= |bytes| && Scan(bytes, pos).torn
    ensures Scan(bytes, pos).end >= pos + 4
    decreases |bytes| - pos
  {
    hide FromLe32;
    if pos + 4 > |bytes| {
    } else {
      var next := pos + 4 + FromLe32(bytes[pos..pos + 4]);
      if next <= |bytes| {
        TornEnd(bytes, next);
      }
    }
  }

  /// Appending to an existing file

  /** A file that is a log and nothing else: no torn frame, no stray byte. */
  ghost predicate Clean(bytes: seq<byte>) {
    !Scan(bytes, 0).torn && Scan(bytes, 0).end == |bytes|
  }

  /** A clean file is the log of the payloads that a scan meets. */
  lemma CleanIsLog(bytes: seq<byte>)
    requires Clean(bytes)
    ensures var log := Payloads(Scan(bytes, 0).frames); Framable(log) && LogBytes(log) == bytes
  {
    hide Scan, LogBytes, Framable, FramesOf, Payloads;
    ScanIsLog(bytes, 0);
    var log := Payloads(Scan(bytes, 0).frames);
    assert bytes[0..|bytes|] == bytes;
  }

  lemma LogIsClean(log: seq<seq<byte>>)
    requires Framable(log)
    ensures Clean(LogBytes(log)) && Payloads(Scan(LogBytes(log), 0).frames) == log
  {
    hide Scan, FramesOf, Payloads, Framable;
    var bytes := LogBytes(log);
    ScanLog(bytes, 0, log);
    ScanStop(bytes, |bytes|);
    hide LogBytes;
    assert FramesOf(0, log) + [] == FramesOf(0, log);
    PayloadsOfFrames(0, log);
  }

  /** Whatever is appended, the frames met so far are met again, first. */
  lemma {:induction false} FramesStay(bytes: seq<byte>, pos: nat, file: seq<byte>)
    requires pos <= |bytes| && bytes <= file
    ensures Scan(bytes, pos).frames <= Scan(file, pos).frames
    decreases |bytes| - pos
  {
    hide Scan, FromLe32;
    if pos + 4 > |bytes| {
      ScanStop(bytes, pos);
    } else {
      ScanStep(bytes, pos);
      ScanStep(file, pos);
      SamePart(file, bytes, |bytes|, pos, pos + 4);
      var next := pos + 4 + FromLe32(bytes[pos..pos + 4]);
      if next <= |bytes| {
        FramesStay(bytes, next, file);
        SamePart(file, bytes, |bytes|, pos + 4, next);
      }
    }
  }

  /** Behind a torn frame or a stray byte, no scan meets a frame where the file ended,
      whatever is appended there. */
  lemma {:induction false} UncleanSkips(bytes: seq<byte>, pos: nat, file: seq<byte>)
    requires pos <= |bytes| && bytes <= file && (Scan(bytes, pos).torn || Scan(bytes, pos).end < |bytes|)
    ensures forall i :: 0 <= i < |Scan(file, pos).frames| ==> Scan(file, pos).frames[i].start != |bytes|
    decreases |bytes| - pos
  {
    hide Scan, FromLe32;
    if pos + 4 > |bytes| {
      ScanStop(bytes, pos);
      if pos + 4 <= |file| {
        ScanStep(file, pos);
        var next := pos + 4 + FromLe32(file[pos..pos + 4]);
        if next <= |file| {
          FramesFrom(file, next);
        }
      } else {
        ScanStop(file, pos);
      }
    } else {
      ScanStep(bytes, pos);
      ScanStep(file, pos);
      SamePart(file, bytes, |bytes|, pos, pos + 4);
      var next := pos + 4 + FromLe32(bytes[pos..pos + 4]);
      if next <= |bytes| {
        UncleanSkips(bytes, next, file);
      } else if next <= |file| {
        FramesFrom(file, next);
      }
    }
  }

  lemma MetBehind(log: seq<seq<byte>>, ps: seq<seq<byte>>)
    requires Framable(log) && Framable(ps) && ps != []
    ensures Meets(Scan(LogBytes(log + ps), 0).frames, Frame(|LogBytes(log)|, ps[0]))
  {
    hide Scan, LogBytes, FramesOf, Framable;
    var file, end := LogBytes(log + ps), |LogBytes(log)|;
    FramableConcat(log, ps);
    assert file[0..|file|] == file;
    ScanLog(file, 0, log + ps);
    FramesConcat(0, log, ps);
    FramesFirst(end, ps);
    var all, frames := FramesOf(0, log + ps), Scan(file, 0).frames;
    assert all[|log|] == FramesOf(end, ps)[0];
    hide *;
    assert frames[|log|] == all[|log|];
  }

  /** What is appended to a file is met, where it was appended, exactly when the file was
      clean. */
  lemma AppendedMet(bytes: seq<byte>, ps: seq<seq<byte>>)
    requires Framable(ps) && ps != []
    ensures Meets(Scan(bytes + LogBytes(ps), 0).frames, Frame(|bytes|, ps[0])) <==> Clean(bytes)
  {
    hide Scan, LogBytes, FramesOf, Framable;
    if Clean(bytes) {
      CleanIsLog(bytes);
      hide Clean, Meets, Payloads;
      var log := Payloads(Scan(bytes, 0).frames);
      LogConcat(log, ps);
      MetBehind(log, ps);
    } else {
      UncleanSkips(bytes, 0, bytes + LogBytes(ps));
    }
  }

  lemma FramesFirst(pos: nat, ps: seq<seq<byte>>)
    requires ps != []
    ensures FramesOf(pos, ps)[0] == Frame(pos, ps[0])
  {
  }

  lemma FramableConcat(a: seq<seq<byte>>, b: seq<seq<byte>>)
    requires Framable(a) && Framable(b)
    ensures Framable(a + b)
  {
  }

  /** How many frames of a longer log fit before a cut behind its first part. */
  lemma {:induction false} CompleteConcat(a: seq<seq<byte>>, b: seq<seq<byte>>, n: nat)
    ensures n >= |LogBytes(a)| ==> Complete(a + b, n) == |a| + Complete(b, n - |LogBytes(a)|)
    ensures n < |LogBytes(a)| ==> Complete(a + b, n) == Complete(a, n)
    decreases |a|
  {
    if a == [] {
      assert a + b == b;
    } else {
      assert (a + b)[1..] == a[1..] + b && (a + b)[0] == a[0];
      assert |LogBytes(a)| == 4 + |a[0]| + |LogBytes(a[1..])|;
      hide LogBytes;
      if n >= 4 + |a[0]| {
        CompleteConcat(a[1..], b, n - 4 - |a[0]|);
      }
    }
  }

  /** A cut leaves a clean file exactly when it falls behind a whole frame. */
  lemma CleanCut(log: seq<seq<byte>>, n: nat)
    requires Framable(log) && n <= |LogBytes(log)|
    ensures Clean(LogBytes(log)[..n]) <==> |LogBytes(log[..Complete(log, n)])| == n
  {
    hide Scan, LogBytes, Complete, Payloads, Clean, FramesOf;
    var k, cut := Complete(log, n), LogBytes(log)[..n];
    ScanCutLog(log, n);
    if Clean(cut) {
      CleanIsLog(cut);
    }
    if |LogBytes(log[..k])| == n {
      assert log == log[..k] + log[k..];
      LogConcat(log[..k], log[k..]);
      assert cut == LogBytes(log[..k]);
      LogIsClean(log[..k]);
    }
  }
}
