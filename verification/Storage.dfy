/** The append-only entity log of one partition, with its disk index and its two-phase
    compaction (src/io/storage.rs). The file is a byte sequence, and each section that the
    source runs under its locks is one step. */
module Storage {
  import opened Numbers
  import opened Options
  import opened Bytes
  import opened Frames
  import opened Codec

  /** An index entry: where a frame starts and how long its payload is. */
  datatype Span = Span(offset: nat, len: nat)

  type Index = map<u64, Span>

  const CHUNK_SIZE: nat := 16 * 1024 * 1024

  /** `peek_entity_id`. */
  function PeekId(payload: seq<byte>): Option<u64> {
    if |payload| >= 8 then Some(FromLe64(payload[..8])) else None
  }

  /** An id is found in exactly the payloads that begin with its encoding. */
  lemma PeekExact(p: seq<byte>, id: u64)
    ensures PeekId(p) == Some(id) <==> Le64(id) <= p
  {
    hide Le64, FromLe64;
    Le64RoundTrip(id);
    if |p| >= 8 {
      Le64Onto(p[..8]);
      assert Le64(id) <= p <==> p[..8] == Le64(id);
    }
  }

  lemma ItemPeeks(it: Item<Entries>)
    ensures PeekId(ItemBytes(it)) == Some(it.id)
  {
    hide Le64, FromLe64, AttributesBytes;
    assert ItemBytes(it)[..8] == Le64(it.id);
    Le64RoundTrip(it.id);
  }

  /// The log: payloads in the order they were appended

  /** The frame of the `k`-th payload. */
  function SpanAt(log: seq<seq<byte>>, k: nat): Span
    requires k < |log|
  {
    Span(|LogBytes(log[..k])|, |log[k]|)
  }

  /** The index that a log should have: for every id, the frame of its last payload. */
  function IndexOf(log: seq<seq<byte>>): Index {
    if log == [] then map[]
    else
      var init, p := log[..|log| - 1], log[|log| - 1];
      if PeekId(p).Some? then IndexOf(init)[PeekId(p).value := Span(|LogBytes(init)|, |p|)] else IndexOf(init)
  }

  /** The content of a log: for every id, its last payload. */
  function ContentOf(log: seq<seq<byte>>): map<u64, seq<byte>> {
    if log == [] then map[]
    else
      var init, p := log[..|log| - 1], log[|log| - 1];
      if PeekId(p).Some? then ContentOf(init)[PeekId(p).value := p] else ContentOf(init)
  }

  lemma Append(log: seq<seq<byte>>, p: seq<byte>)
    ensures (log + [p])[..|log|] == log && LogBytes(log + [p]) == LogBytes(log) + FrameBytes(p)
    ensures PeekId(p).Some? ==>
              && IndexOf(log + [p]) == IndexOf(log)[PeekId(p).value := Span(|LogBytes(log)|, |p|)]
              && ContentOf(log + [p]) == ContentOf(log)[PeekId(p).value := p]
    ensures PeekId(p).None? ==> IndexOf(log + [p]) == IndexOf(log) && ContentOf(log + [p]) == ContentOf(log)
  {
    hide PeekId, FrameBytes;
    assert (log + [p])[..|log|] == log;
    LogAppend(log, p);
  }

  /** The position of the last payload of an id. */
  lemma {:induction false} LastOf(log: seq<seq<byte>>, id: u64) returns (k: nat)
    requires id in IndexOf(log)
    ensures k < |log| && PeekId(log[k]) == Some(id) && IndexOf(log)[id] == SpanAt(log, k)
    ensures id in ContentOf(log) && ContentOf(log)[id] == log[k]
    ensures forall j :: k < j < |log| ==> PeekId(log[j]) != Some(id)
  {
    hide PeekId;
    var last := |log| - 1;
    if PeekId(log[last]) == Some(id) {
      k := last;
    } else {
      k := LastOf(log[..last], id);
      assert log[..last][..k] == log[..k];
    }
  }

  lemma {:induction false} SameIds(log: seq<seq<byte>>)
    ensures IndexOf(log).Keys == ContentOf(log).Keys
  {
    hide PeekId;
    if log == [] {
    } else {
      SameIds(log[..|log| - 1]);
    }
  }

  lemma {:induction false} LogPrefix(log: seq<seq<byte>>, k: nat)
    requires k <= |log|
    ensures LogBytes(log) == LogBytes(log[..k]) + LogBytes(log[k..])
  {
    assert log == log[..k] + log[k..];
    LogConcat(log[..k], log[k..]);
  }

  /** The frame of a payload lies in the log bytes where its span says. */
  lemma FrameInLog(file: seq<byte>, log: seq<seq<byte>>, k: nat)
    requires At(file, 0, LogBytes(log)) && k < |log|
    ensures var s := SpanAt(log, k);
            At(file, s.offset, FrameBytes(log[k])) && s.offset + 4 + s.len <= |LogBytes(log)|
  {
    LogPrefix(log, k);
    hide FrameBytes;
    assert log[k..][0] == log[k];
    AtSplit(file, 0, LogBytes(log[..k]), LogBytes(log[k..]));
    AtSplit(file, |LogBytes(log[..k])|, FrameBytes(log[k]), LogBytes(log[k..][1..]));
  }

  /// Scanning a file

  function SpanIndex(frames: seq<Frame>): Index {
    if frames == [] then map[]
    else
      var init, f := SpanIndex(frames[..|frames| - 1]), frames[|frames| - 1];
      if PeekId(f.payload).Some? then init[PeekId(f.payload).value := Span(f.start, |f.payload|)] else init
  }

  lemma SpanIndexStep(frames: seq<Frame>, f: Option<Frame>)
    ensures SpanIndex([]) == map[]
    ensures f.Some? ==>
              SpanIndex(frames + [f.value]) ==
              var id := PeekId(f.value.payload);
              if id.Some? then SpanIndex(frames)[id.value := Span(f.value.start, |f.value.payload|)]
                  else SpanIndex(frames)
  {
    if f.Some? {
      assert (frames + [f.value])[..|frames|] == frames;
    }
  }

  /** The frames of a log index as the log does. */
  lemma {:induction false} SpanIndexOfLog(log: seq<seq<byte>>)
    ensures SpanIndex(FramesOf(0, log)) == IndexOf(log)
  {
    hide PeekId;
    if log == [] {
    } else {
      var init, p := log[..|log| - 1], log[|log| - 1];
      SpanIndexOfLog(init);
      assert log == init + [p];
      FramesConcat(0, init, [p]);
      assert FramesOf(|LogBytes(init)|, [p]) == [Frame(|LogBytes(init)|, p)] + FramesOf(|LogBytes(init)| + 4 + |p|, []);
      assert FramesOf(0, log) == FramesOf(0, init) + [Frame(|LogBytes(init)|, p)];
      assert FramesOf(0, log)[..|log| - 1] == FramesOf(0, init);
    }
  }

  ghost predicate ZeroFrom(file: seq<byte>, pos: nat) {
    forall i :: pos <= i < |file| ==> file[i] == 0
  }

  function Blanks(n: nat): seq<seq<byte>> {
    seq(n, _ => [])
  }

  /** Padding scans as empty frames, up to less than four bytes before the end. */
  lemma {:induction false} ScanZeros(file: seq<byte>, pos: nat, n: nat)
    requires pos + 4 * n <= |file| < pos + 4 * n + 4 && (n > 0 ==> ZeroFrom(file, pos))
    ensures Scan(file, pos) == ScanResult(FramesOf(pos, Blanks(n)), pos + 4 * n, false)
    ensures |LogBytes(Blanks(n))| == 4 * n && At(file, pos, LogBytes(Blanks(n)))
    decreases n
  {
    hide Scan, Le32, FrameBytes, At;
    if n > 0 {
      ScanZeros(file, pos + 4, n - 1);
      assert Blanks(n)[1..] == Blanks(n - 1);
      hide Blanks, ZeroFrom;
      ZeroFrame(file, pos);
      ScanFrame(file, pos, []);
      AtSplit(file, pos, FrameBytes([]), LogBytes(Blanks(n - 1)));
    } else {
      ScanStop(file, pos);
      AtNothing(file, pos);
      assert Blanks(0) == [];
    }
  }

  lemma ZeroFrame(file: seq<byte>, pos: nat)
    requires pos + 4 <= |file| && ZeroFrom(file, pos)
    ensures At(file, pos, FrameBytes([]))
  {
    assert Le32(0) == [0, 0, 0, 0];
  }

  lemma {:induction false} BlanksIndexNothing(log: seq<seq<byte>>, n: nat)
    ensures IndexOf(log + Blanks(n)) == IndexOf(log) && ContentOf(log + Blanks(n)) == ContentOf(log)
  {
    if n == 0 {
      assert log + Blanks(0) == log;
    } else {
      BlanksIndexNothing(log, n - 1);
      assert log + Blanks(n) == log + Blanks(n - 1) + [[]];
      Append(log + Blanks(n - 1), []);
    }
  }

  lemma OpenedLog(bytes: seq<byte>)
    ensures var r := Scan(bytes, 0);
            var log := Payloads(r.frames);
            SpanIndex(r.frames) == IndexOf(log)
            && r.end == |LogBytes(log)| + (if r.torn then 4 else 0)
            && (!r.torn ==> HoldsLog(bytes, log))
  {
    ScanIsLog(bytes, 0);
    ScanEnds(bytes, 0);
    hide Scan, LogBytes, SpanIndex, IndexOf, Framable, FramesOf, ZeroFrom, At;
    SpanIndexOfLog(Payloads(Scan(bytes, 0).frames));
  }

  /** Padding, or too few bytes for a length prefix. */
  ghost predicate Tail(file: seq<byte>, pos: nat) {
    ZeroFrom(file, pos) || |file| < pos + 4
  }

  /** What the file of a store holds: the log, then a tail. */
  ghost predicate HoldsLog(file: seq<byte>, log: seq<seq<byte>>) {
    At(file, 0, LogBytes(log)) && Tail(file, |LogBytes(log)|) && Framable(log)
  }

  lemma LogFits(file: seq<byte>, log: seq<seq<byte>>)
    requires At(file, 0, LogBytes(log))
    ensures |LogBytes(log)| <= |file|
  {
  }

  /** A padded log scans as the log followed by empty frames. */
  lemma ScanPadded(file: seq<byte>, log: seq<seq<byte>>)
    requires HoldsLog(file, log)
    ensures var n := (|file| - |LogBytes(log)|) / 4;
            && Scan(file, 0) == ScanResult(FramesOf(0, log + Blanks(n)), |LogBytes(log)| + 4 * n, false)
            && LogBytes(log + Blanks(n)) == LogBytes(log) + LogBytes(Blanks(n))
            && |LogBytes(Blanks(n))| == 4 * n
  {
    hide Scan, LogBytes, FramesOf, At, ZeroFrom, Framable;
    var pos := |LogBytes(log)|;
    assert pos <= |file| by { LogFits(file, log); }
    var n := (|file| - pos) / 4;
    ScanLog(file, 0, log);
    ScanZeros(file, pos, n);
    LogConcat(log, Blanks(n));
    FramesConcat(0, log, Blanks(n));
    assert FramesOf(0, log) + FramesOf(pos, Blanks(n)) == FramesOf(0, log + Blanks(n));
  }

  lemma PaddedHolds(file: seq<byte>, log: seq<seq<byte>>, n: nat)
    requires HoldsLog(file, log) && n == (|file| - |LogBytes(log)|) / 4
    ensures HoldsLog(file, log + Blanks(n))
  {
    hide LogBytes, Scan, FramesOf;
    ScanZeros(file, |LogBytes(log)|, n);
    LogConcat(log, Blanks(n));
    AtSplit(file, 0, LogBytes(log), LogBytes(Blanks(n)));
  }

  /** Rebuilding from a padded file finds the index of its log, and stops where the log,
      read with its padding as empty frames, ends. */
  lemma RebuildReproduces(file: seq<byte>, log: seq<seq<byte>>) returns (log': seq<seq<byte>>)
    requires HoldsLog(file, log)
    ensures var r := Scan(file, 0);
            SpanIndex(r.frames) == IndexOf(log) && r.end == |LogBytes(log')| && !r.torn
    ensures HoldsLog(file, log') && IndexOf(log') == IndexOf(log) && ContentOf(log') == ContentOf(log)
  {
    hide Scan, SpanIndex, IndexOf, ContentOf, LogBytes, FramesOf;
    var n := (|file| - |LogBytes(log)|) / 4;
    hide HoldsLog;
    log' := log + Blanks(n);
    ScanPadded(file, log);
    PaddedHolds(file, log, n);
    BlanksIndexNothing(log, n);
    SpanIndexOfLog(log');
  }

  /// Compaction

  /** A compaction under way: the snapshot entries still to copy, the offset at the snapshot,
      and the temporary file with its index. */
  datatype Job = Job(todo: Index, originalOffset: nat, tmp: seq<byte>, newIndex: Index)

  lemma {:induction false} Indexed(log: seq<seq<byte>>, k: nat, id: u64)
    requires k < |log| && PeekId(log[k]) == Some(id)
    ensures id in IndexOf(log)
  {
    hide PeekId;
    if k >= |log| - 1 {
    } else {
      Indexed(log[..|log| - 1], k, id);
    }
  }

  /** A payload precedes the first `n` exactly when its frame starts before their end. */
  lemma SpanBefore(log: seq<seq<byte>>, n: nat, k: nat)
    requires k < |log| && n <= |log|
    ensures SpanAt(log, k).offset < |LogBytes(log[..n])| <==> k < n
  {
    hide FrameBytes;
    if k < n {
      LogPrefix(log[..n], k);
      assert log[..n][..k] == log[..k];
      assert log[..n][k..][0] == log[k];
    } else {
      LogPrefix(log[..k], n);
      assert log[..k][..n] == log[..n];
    }
  }

  /** The ids written since the log had `n` payloads. */
  ghost function Delta(log: seq<seq<byte>>, n: nat): set<u64>
    requires n <= |log|
  {
    set id | id in IndexOf(log) && IndexOf(log)[id].offset >= |LogBytes(log[..n])|
  }

  ghost function Restrict(m: map<u64, seq<byte>>, ids: set<u64>): map<u64, seq<byte>> {
    map id | id in ids && id in m :: m[id]
  }

  lemma UnchangedSince(log: seq<seq<byte>>, n: nat, id: u64)
    requires n <= |log| && id in ContentOf(log)
    ensures id !in Delta(log, n) ==> id in ContentOf(log[..n]) && ContentOf(log[..n])[id] == ContentOf(log)[id]
  {
    SameIds(log);
    hide IndexOf, ContentOf, PeekId, SpanAt;
    var k := LastOf(log, id);
    SpanBefore(log, n, k);
    if k < n {
      Indexed(log[..n], k, id);
      var j := LastOf(log[..n], id);
      assert log[..n][j] == log[j];
    }
  }

  /** The content of a log is what it was, overlaid with what was written since. */
  lemma ContentSince(log: seq<seq<byte>>, n: nat)
    requires n <= |log|
    ensures ContentOf(log) == ContentOf(log[..n]) + Restrict(ContentOf(log), Delta(log, n))
  {
    hide IndexOf, ContentOf, Delta, PeekId;
    var before, after := ContentOf(log[..n]), ContentOf(log);
    forall id | id in before ensures id in after {
      SameIds(log);
      SameIds(log[..n]);
      var k := LastOf(log[..n], id);
      Indexed(log, k, id);
    }
    forall id | id in after && id !in Delta(log, n) ensures id in before && before[id] == after[id] {
      UnchangedSince(log, n, id);
    }
  }

  /** A file without padding, with the index it should have. */
  ghost predicate Packed(file: seq<byte>, index: Index, log: seq<seq<byte>>) {
    file == LogBytes(log) && index == IndexOf(log) && Framable(log)
  }

  /** One record copied into the temporary file, from wherever its span points. */
  lemma CopyRecord(file: seq<byte>, log: seq<seq<byte>>, id: u64, s: Span,
                   tmp: seq<byte>, newIndex: Index, newLog: seq<seq<byte>>)
    returns (p: seq<byte>)
    requires At(file, 0, LogBytes(log)) && Framable(log) && Packed(tmp, newIndex, newLog)
    requires id in IndexOf(log) && IndexOf(log)[id] == s
    ensures id in ContentOf(log) && p == ContentOf(log)[id]
    ensures && s.offset + 4 + s.len <= |file|
            && Packed(tmp + file[s.offset..s.offset + 4 + s.len], newIndex[id := Span(|tmp|, s.len)], newLog + [p])
    ensures ContentOf(newLog + [p]) == ContentOf(newLog)[id := p]
  {
    SameIds(log);
    hide IndexOf, ContentOf, PeekId, LogBytes, FrameBytes;
    var k := LastOf(log, id);
    p := log[k];
    FrameInLog(file, log, k);
    Append(newLog, p);
  }

  /** The first copy loop: `n` payloads were in the log at the snapshot, and those copied so
      far are exactly the snapshot entries that are not still to do. */
  ghost predicate JobOk(log: seq<seq<byte>>, todo: Index, originalOffset: nat, n: nat, newLog: seq<seq<byte>>) {
    && n <= |log|
    && originalOffset == |LogBytes(log[..n])|
    && Among(todo, IndexOf(log[..n]), IndexOf(log[..n]).Keys)
    && ContentOf(newLog) == ContentOf(log[..n]) - todo.Keys
    && |newLog| + |todo| == |ContentOf(log[..n])|
  }

  ghost predicate JobHolds(log: seq<seq<byte>>, j: Job, n: nat, newLog: seq<seq<byte>>) {
    JobOk(log, j.todo, j.originalOffset, n, newLog) && Packed(j.tmp, j.newIndex, newLog)
  }

  ghost predicate Among(todo: Index, index: Index, ids: set<u64>) {
    todo.Keys <= ids && forall id :: id in todo ==> id in index && todo[id] == index[id]
  }

  lemma OneLess(todo: Index, index: Index, all: set<u64>, id: u64)
    requires id in todo && Among(todo, index, all)
    ensures id in index && todo[id] == index[id] && Among(todo - {id}, index, all)
    ensures all - (todo - {id}).Keys == (all - todo.Keys) + {id}
    ensures |todo - {id}| == |todo| - 1
  {
    assert todo == (todo - {id})[id := todo[id]];
  }

  lemma SnapshotSpan(log: seq<seq<byte>>, n: nat, id: u64)
    requires n <= |log| && id in IndexOf(log[..n])
    ensures IndexOf(log[..n])[id].offset < |LogBytes(log[..n])|
  {
    hide IndexOf, ContentOf, PeekId;
    var k := LastOf(log[..n], id);
    SpanBefore(log[..n], n, k);
    assert log[..n][..n] == log[..n];
  }

  lemma LogHeld(file: seq<byte>, log: seq<seq<byte>>)
    requires HoldsLog(file, log)
    ensures At(file, 0, LogBytes(log)) && Framable(log)
  {
  }

  lemma PrefixHeld(file: seq<byte>, log: seq<seq<byte>>, n: nat)
    requires HoldsLog(file, log) && n <= |log|
    ensures At(file, 0, LogBytes(log[..n])) && Framable(log[..n])
  {
    LogPrefix(log, n);
    AtSplit(file, 0, LogBytes(log[..n]), LogBytes(log[n..]));
  }

  lemma JobGrows(log: seq<seq<byte>>, j: Job, n: nat, newLog: seq<seq<byte>>, p: seq<byte>)
    requires JobHolds(log, j, n, newLog)
    ensures JobHolds(log + [p], j, n, newLog)
  {
    hide IndexOf, ContentOf, LogBytes, Packed, Among;
    assert (log + [p])[..n] == log[..n];
  }

  lemma JobStarts(log: seq<seq<byte>>)
    ensures JobOk(log, IndexOf(log), |LogBytes(log)|, |log|, []) && Packed([], map[], [])
  {
    SameIds(log);
    assert log[..|log|] == log;
    assert |IndexOf(log).Keys| == |ContentOf(log).Keys|;
    assert ContentOf(log) - IndexOf(log).Keys == map[];
  }

  lemma WithoutOne(base: map<u64, seq<byte>>, ids: set<u64>, id: u64)
    requires id in ids && id in base
    ensures (base - ids)[id := base[id]] == base - (ids - {id})
  {
  }

  /** One turn of the first copy loop. */
  lemma JobCopies(file: seq<byte>, log: seq<seq<byte>>, todo: Index, originalOffset: nat, n: nat,
                  tmp: seq<byte>, newIndex: Index, newLog: seq<seq<byte>>, id: u64, s: Span)
    returns (p: seq<byte>)
    requires HoldsLog(file, log) && JobOk(log, todo, originalOffset, n, newLog) && Packed(tmp, newIndex, newLog)
    requires id in todo && s == todo[id]
    ensures s.offset < originalOffset && s.offset + 4 + s.len <= |file|
    ensures Packed(tmp + file[s.offset..s.offset + 4 + s.len], newIndex[id := Span(|tmp|, s.len)], newLog + [p])
    ensures JobOk(log, todo - {id}, originalOffset, n, newLog + [p])
  {
    hide IndexOf, ContentOf, LogBytes, HoldsLog, FrameBytes, Packed, At, Framable, Among;
    var was := log[..n];
    PrefixHeld(file, log, n);
    OneLess(todo, IndexOf(was), IndexOf(was).Keys, id);
    SnapshotSpan(log, n, id);
    p := CopyRecord(file, was, id, s, tmp, newIndex, newLog);
    WithoutOne(ContentOf(was), todo.Keys, id);
    assert (todo - {id}).Keys == todo.Keys - {id};
  }

  /** The second copy loop: the records written since the snapshot that are still to do. */
  ghost predicate DeltaOk(log: seq<seq<byte>>, todo: Index, n: nat, newLog: seq<seq<byte>>) {
    && n <= |log|
    && Among(todo, IndexOf(log), Delta(log, n))
    && ContentOf(newLog) == ContentOf(log[..n]) + Restrict(ContentOf(log), Delta(log, n) - todo.Keys)
    && |newLog| + |todo| == |ContentOf(log[..n])| + |Delta(log, n)|
  }

  lemma OverlayNone(base: map<u64, seq<byte>>, content: map<u64, seq<byte>>)
    ensures base - {} == base == base + Restrict(content, {})
  {
  }

  lemma OverlayOne(base: map<u64, seq<byte>>, content: map<u64, seq<byte>>, ids: set<u64>, id: u64)
    requires id in content
    ensures (base + Restrict(content, ids))[id := content[id]] == base + Restrict(content, ids + {id})
  {
  }

  /** The entries written since the snapshot. */
  function Since(index: Index, originalOffset: nat): Index {
    map id | id in index && index[id].offset >= originalOffset :: index[id]
  }

  lemma DeltaStarts(log: seq<seq<byte>>, j: Job, n: nat, newLog: seq<seq<byte>>)
    requires j.todo == map[] && JobHolds(log, j, n, newLog)
    ensures DeltaOk(log, Since(IndexOf(log), j.originalOffset), n, newLog) && Packed(j.tmp, j.newIndex, newLog)
  {
    var todo := Since(IndexOf(log), j.originalOffset);
    hide IndexOf, ContentOf, LogBytes, Restrict, Packed;
    assert todo.Keys == Delta(log, n);
    hide Delta;
    OverlayNone(ContentOf(log[..n]), ContentOf(log));
    assert Delta(log, n) - todo.Keys == {};
  }

  /** One turn of the second copy loop. */
  lemma DeltaCopies(file: seq<byte>, log: seq<seq<byte>>, todo: Index, n: nat,
                    tmp: seq<byte>, newIndex: Index, newLog: seq<seq<byte>>, id: u64, s: Span)
    returns (p: seq<byte>)
    requires HoldsLog(file, log) && DeltaOk(log, todo, n, newLog) && Packed(tmp, newIndex, newLog)
    requires id in todo && s == todo[id]
    ensures s.offset + 4 + s.len <= |file|
    ensures Packed(tmp + file[s.offset..s.offset + 4 + s.len], newIndex[id := Span(|tmp|, s.len)], newLog + [p])
    ensures DeltaOk(log, todo - {id}, n, newLog + [p])
  {
    hide IndexOf, ContentOf, LogBytes, HoldsLog, FrameBytes, Delta, Restrict, Framable, At, Among, Packed;
    LogHeld(file, log);
    OneLess(todo, IndexOf(log), Delta(log, n), id);
    p := CopyRecord(file, log, id, s, tmp, newIndex, newLog);
    OverlayOne(ContentOf(log[..n]), ContentOf(log), Delta(log, n) - todo.Keys, id);
  }

  lemma DeltaDone(log: seq<seq<byte>>, n: nat, tmp: seq<byte>, newIndex: Index, newLog: seq<seq<byte>>)
    requires DeltaOk(log, map[], n, newLog) && Packed(tmp, newIndex, newLog)
    ensures ContentOf(newLog) == ContentOf(log) && HoldsLog(tmp, newLog)
    ensures |newLog| == |ContentOf(log[..n])| + |Delta(log, n)|
  {
    hide IndexOf, ContentOf, LogBytes, Delta;
    assert Delta(log, n) - {} == Delta(log, n);
    ContentSince(log, n);
  }

  /** The entry that comes first in the file. */
  method FirstByOffset(m: Index) returns (id: u64)
    requires m != map[]
    ensures id in m && forall j :: j in m ==> m[id].offset <= m[j].offset
  {
    id :| id in m;
    var rest := m - {id};
    while rest != map[]
      invariant id in m
      invariant forall j :: j in rest ==> j in m
      invariant forall j :: j in m && j !in rest ==> m[id].offset <= m[j].offset
      decreases |rest|
    {
      var j :| j in rest;
      if m[j].offset < m[id].offset {
        id := j;
      }
      rest := rest - {j};
    }
  }

  /** The published index frames, in the file, the records it stood for when published. */
  ghost predicate Published(file: seq<byte>, log: seq<seq<byte>>, published: Index, snapshot: map<u64, seq<byte>>) {
    && published.Keys == snapshot.Keys
    && forall id :: id in published ==> Framed(file, log, published[id], snapshot[id])
  }

  /** A span frames a record in a file. */
  ghost predicate FramedAt(file: seq<byte>, s: Span, p: seq<byte>) {
    s.len == |p| < 0x1_0000_0000 && At(file, s.offset, FrameBytes(p))
  }

  ghost predicate Framed(file: seq<byte>, log: seq<seq<byte>>, s: Span, p: seq<byte>) {
    s.offset + 4 + s.len <= |LogBytes(log)| && FramedAt(file, s, p)
  }

  lemma HeldFits(file: seq<byte>, log: seq<seq<byte>>)
    requires HoldsLog(file, log)
    ensures |LogBytes(log)| <= |file|
  {
  }

  lemma PackedHolds(file: seq<byte>, index: Index, log: seq<seq<byte>>)
    requires Packed(file, index, log)
    ensures HoldsLog(file, log) && index == IndexOf(log) && |file| == |LogBytes(log)|
  {
    hide IndexOf, LogBytes;
  }

  lemma Overwritten(file: seq<byte>, pos: nat, record: seq<byte>)
    requires pos + |record| <= |file|
    ensures Overwrite(file, pos, record)[pos..pos + |record|] == record
    ensures Overwrite(file, pos, record)[..pos] == file[..pos]
  {
  }

  lemma WriteKeeps(grown: seq<byte>, log: seq<seq<byte>>, item: Item<Entries>)
    requires Roomy(grown, log) && |LogBytes(log)| + 4 + |ItemBytes(item)| <= |grown|
    requires |ItemBytes(item)| < 0x1_0000_0000
    ensures var p := ItemBytes(item);
            && HoldsLog(Overwrite(grown, |LogBytes(log)|, FrameBytes(p)), log + [p])
            && |LogBytes(log + [p])| == |LogBytes(log)| + 4 + |p|
            && IndexOf(log + [p]) == IndexOf(log)[item.id := Span(|LogBytes(log)|, |p|)]
            && ContentOf(log + [p]) == ContentOf(log)[item.id := p]
  {
    hide IndexOf, ContentOf, LogBytes, HoldsLog, Roomy, ItemBytes, PeekId, Overwrite;
    ItemPeeks(item);
    Append(log, ItemBytes(item));
    WriteHolds(grown, log, ItemBytes(item));
  }

  lemma WriteKeepsPublished(before: seq<byte>, n: nat, log: seq<seq<byte>>, p: seq<byte>,
                            published: Index, snapshot: map<u64, seq<byte>>)
    requires Published(before, log, published, snapshot)
    requires |LogBytes(log)| <= |before| && |LogBytes(log)| + 4 + |p| <= |before| + n
    ensures Published(Overwrite(before + Zeros(n), |LogBytes(log)|, FrameBytes(p)), log + [p], published, snapshot)
  {
    hide LogBytes, FrameBytes, Published, Overwrite;
    LogAppend(log, p);
    var grown, end := before + Zeros(n), |LogBytes(log)|;
    Overwritten(grown, end, FrameBytes(p));
    assert grown[..end] == before[..end];
    PublishedKept(before, log, Overwrite(grown, end, FrameBytes(p)), log + [p], published, snapshot);
  }

  /** What `read_entity` finds behind an index entry. */
  function ReadSpan(file: seq<byte>, s: Span): ReadResult {
    if s.offset + s.len + 4 > |file| then Panicked
    else
      var n: nat := FromLe32(file[s.offset..s.offset + 4]);
      if n > s.len then Truncated else ReadOutcome(file[s.offset + 4..s.offset + 4 + n])
  }

  /** An index entry that frames a record reads as that record. */
  lemma FramedReads(file: seq<byte>, s: Span, p: seq<byte>)
    requires FramedAt(file, s, p)
    ensures ReadSpan(file, s) == ReadOutcome(p)
  {
    hide ReadOutcome;
    AtSplit(file, s.offset, Le32(|p|), p);
    Le32RoundTrip(|p|);
  }

  lemma PublishedReads(file: seq<byte>, log: seq<seq<byte>>, published: Index, snapshot: map<u64, seq<byte>>, id: u64)
    requires Published(file, log, published, snapshot)
    ensures (if id in published then ReadSpan(file, published[id]) else NotFound) == ReadFrom(snapshot, id)
  {
    hide ReadOutcome, ReadSpan, LogBytes, FrameBytes;
    if id in published {
      assert Framed(file, log, published[id], snapshot[id]);
      FramedReads(file, published[id], snapshot[id]);
    }
  }

  lemma BlockStep(snapshot: map<u64, seq<byte>>, id: u64, blockSize: nat, n: nat)
    requires blockSize > 0
    ensures BlockItems(snapshot, id, blockSize, 0) == Some([])
    ensures var before, r := BlockItems(snapshot, id, blockSize, n), ReadFrom(snapshot, WindowId(id, blockSize, n));
            BlockItems(snapshot, id, blockSize, n + 1)
            == if before.None? || r.Panicked? then None
               else if r.Read? then Some(before.value + [r.item]) else before
  {
  }

  lemma {:induction false} BlockPanics(snapshot: map<u64, seq<byte>>, id: u64, blockSize: nat, i: nat, n: nat)
    requires blockSize > 0 && i <= n && BlockItems(snapshot, id, blockSize, i) == None
    ensures BlockItems(snapshot, id, blockSize, n) == None
    decreases n - i
  {
    if i >= n {
    } else {
      BlockPanics(snapshot, id, blockSize, i + 1, n);
    }
  }

  /** The log that a scan of the file finds has the content of the log it holds. */
  lemma RebuiltSame(file: seq<byte>, log: seq<seq<byte>>)
    requires HoldsLog(file, log)
    ensures var r := Scan(file, 0);
            && SpanIndex(r.frames) == IndexOf(log) && ContentOf(Payloads(r.frames)) == ContentOf(log)
            && |LogBytes(log)| <= r.end && !r.torn
  {
    hide Scan, SpanIndex, IndexOf, ContentOf, LogBytes, FramesOf, Payloads, Blanks, At, Framable;
    var log' := RebuildReproduces(file, log);
    RebuiltLog(file, log);
    var n := (|file| - |LogBytes(log)|) / 4;
    BlanksIndexNothing(log, n);
  }

  lemma RebuiltLog(file: seq<byte>, log: seq<seq<byte>>)
    requires HoldsLog(file, log)
    ensures Payloads(Scan(file, 0).frames) == log + Blanks((|file| - |LogBytes(log)|) / 4)
    ensures |LogBytes(log)| <= Scan(file, 0).end
  {
    hide Scan, LogBytes, FramesOf, Payloads, Blanks, At, Framable;
    ScanPadded(file, log);
    PayloadsOfFrames(0, log + Blanks((|file| - |LogBytes(log)|) / 4));
  }

  /** What has been copied lies in the new file in the order it had in the old one, before
      `end`, and came first in the old one. */
  ghost predicate InOffsetOrder(todo: Index, rest: Index, newIndex: Index, end: nat) {
    && (forall i :: i in rest ==> i in todo && rest[i] == todo[i])
    && (forall i :: i in todo && i !in rest ==> i in newIndex && newIndex[i].offset < end)
    && (forall i, j :: i in todo && i !in rest && j in rest ==> todo[i].offset <= todo[j].offset)
    && (forall i, j :: i in todo && i !in rest && j in todo && j !in rest && todo[i].offset < todo[j].offset ==>
          newIndex[i].offset < newIndex[j].offset)
  }

  /** All of `todo` lies in the new file in the order it had in the old one. */
  ghost predicate SameOrder(todo: Index, newIndex: Index) {
    forall i, j :: i in todo && j in todo && todo[i].offset < todo[j].offset ==>
      i in newIndex && j in newIndex && newIndex[i].offset < newIndex[j].offset
  }

  lemma OffsetOrderStart(todo: Index, newIndex: Index, end: nat)
    ensures InOffsetOrder(todo, todo, newIndex, end)
  {
  }

  lemma OffsetOrderEnd(todo: Index, newIndex: Index, end: nat)
    requires InOffsetOrder(todo, map[], newIndex, end)
    ensures SameOrder(todo, newIndex)
  {
  }

  lemma OffsetOrderStep(todo: Index, rest: Index, newIndex: Index, end: nat, id: u64, len: nat, end': nat)
    requires InOffsetOrder(todo, rest, newIndex, end) && id in rest && end < end'
    requires forall j :: j in rest ==> rest[id].offset <= rest[j].offset
    ensures InOffsetOrder(todo, rest - {id}, newIndex[id := Span(end, len)], end')
  {
  }

  /// The bytes under a write

  function Zeros(n: nat): (b: seq<byte>)
    ensures |b| == n
  {
    seq(n, _ => 0)
  }

  /** The log, then at most three stray bytes, then padding. */
  ghost predicate Roomy(file: seq<byte>, log: seq<seq<byte>>) {
    At(file, 0, LogBytes(log)) && ZeroFrom(file, |LogBytes(log)| + 4) && Framable(log)
  }

  /** `set_len` beyond the end fills with zeros. */
  lemma GrowKeeps(file: seq<byte>, log: seq<seq<byte>>, n: nat)
    requires HoldsLog(file, log)
    ensures Roomy(file + Zeros(n), log)
  {
    hide LogBytes, Framable;
    var end := |LogBytes(log)|;
    assert (file + Zeros(n))[..end] == file[..end];
  }

  /** `copy_from_slice` at `pos`. */
  function Overwrite(file: seq<byte>, pos: nat, record: seq<byte>): (f: seq<byte>)
    requires pos + |record| <= |file|
    ensures |f| == |file|
  {
    file[..pos] + record + file[pos + |record|..]
  }

  /** A record written behind the log covers the stray bytes. */
  lemma WriteHolds(file: seq<byte>, log: seq<seq<byte>>, p: seq<byte>)
    requires Roomy(file, log) && |LogBytes(log)| + 4 + |p| <= |file| && |p| < 0x1_0000_0000
    ensures HoldsLog(Overwrite(file, |LogBytes(log)|, FrameBytes(p)), log + [p])
  {
    hide LogBytes, FrameBytes;
    Append(log, p);
    var end := |LogBytes(log)|;
    var file' := Overwrite(file, end, FrameBytes(p));
    assert file'[..end] == file[..end];
    assert file'[end..end + |FrameBytes(p)|] == FrameBytes(p);
    AtSplit(file', 0, LogBytes(log), FrameBytes(p));
  }

  lemma PublishedKept(file: seq<byte>, log: seq<seq<byte>>, file': seq<byte>, log': seq<seq<byte>>,
                      published: Index, snapshot: map<u64, seq<byte>>)
    requires Published(file, log, published, snapshot)
    requires |LogBytes(log)| <= |LogBytes(log')| && |LogBytes(log)| <= |file| <= |file'|
    requires file'[..|LogBytes(log)|] == file[..|LogBytes(log)|]
    ensures Published(file', log', published, snapshot)
  {
    hide LogBytes, FrameBytes;
    forall id | id in published ensures Framed(file', log', published[id], snapshot[id]) {
      assert Framed(file, log, published[id], snapshot[id]);
      var s := published[id];
      SamePart(file, file', |LogBytes(log)|, s.offset, s.offset + |FrameBytes(snapshot[id])|);
    }
  }

  /** The index of a log frames, in any file that holds it, exactly the latest record of
      each id. */
  lemma IndexFrames(file: seq<byte>, log: seq<seq<byte>>)
    requires HoldsLog(file, log)
    ensures Published(file, log, IndexOf(log), ContentOf(log))
  {
    hide LogBytes, FrameBytes, IndexOf, ContentOf, PeekId;
    SameIds(log);
    forall id | id in IndexOf(log)
      ensures Framed(file, log, IndexOf(log)[id], ContentOf(log)[id])
    {
      var k := LastOf(log, id);
      FrameInLog(file, log, k);
    }
  }

  /// The store

  datatype ReadResult = Read(item: Item<Attributes>) | NotFound | Truncated | DecodeFailed | Panicked

  /** What reading a sound frame with payload `p` gives. */
  function ReadOutcome(p: seq<byte>): ReadResult {
    match DecodeEntity(p)
    case Ok(item, _) => Read(item)
    case Bad => DecodeFailed
    case Panic => Panicked
  }

  /** A record is read exactly when its payload begins with the encoding of some item, the read
      panics exactly when one of its attribute maps breaks, and fails otherwise. */
  lemma RecordOutcome(p: seq<byte>, item: Item<Attributes>)
    ensures ReadOutcome(p) == Read(item)
            <==> exists it :: ReadableItem(it) && At(p, 0, ItemBytes(it)) && ItemOf(it) == item
    ensures ReadOutcome(p) == Panicked <==> ItemBreaks(p, 0)
    ensures ReadOutcome(p) in {Read(item), Panicked, DecodeFailed} || ReadOutcome(p).Read?
  {
    hide DecodeItem, ItemBreaks, ReadableItem, ItemBytes, ItemOf, At;
    ItemPanics(p, 0);
    forall it | ReadableItem(it) && At(p, 0, ItemBytes(it)) && ItemOf(it) == item
      ensures ReadOutcome(p) == Read(item)
    {
      DecodeItemAt(p, 0, it);
    }
    if ReadOutcome(p) == Read(item) {
      var it := EncodedItem(p, 0);
    }
  }

  /** The scan loop of `rebuild_disk_index`. */
  method ScanFile(bytes: seq<byte>) returns (m: Index, pos: nat)
    ensures m == SpanIndex(Scan(bytes, 0).frames) && pos == Scan(bytes, 0).end
  {
    hide FromLe32, PeekId, SpanIndex, Scan, Scanned;
    pos := 0;
    m := map[];
    ghost var frames: seq<Frame> := [];
    SpanIndexStep([], None);
    ScannedNone(bytes);
    while pos + 4 <= |bytes|
      invariant pos <= |bytes| && Scanned(bytes, frames, pos)
      invariant m == SpanIndex(frames)
      decreases |bytes| - pos
    {
      var len := FromLe32(bytes[pos..pos + 4]);
      var recordStart := pos;
      ScannedTurn(bytes, frames, pos);
      pos := pos + 4;
      if pos + len <= |bytes| {
        var payload := bytes[pos..pos + len];
        SpanIndexStep(frames, Some(Frame(recordStart, payload)));
        frames := frames + [Frame(recordStart, payload)];
        var id := PeekId(payload);
        if id.Some? {
          m := m[id.value := Span(recordStart, len)];
        }
        pos := pos + len;
      } else {
        return;
      }
    }
    ScannedAll(bytes, frames, pos);
  }

  /** A step of the compaction thread. */
  datatype Compaction = Begin | CopyOne | Finish

  /** No compaction takes the file's place. */
  ghost predicate Quiet(steps: seq<Compaction>) {
    forall j :: 0 <= j < |steps| ==> !steps[j].Finish?
  }

  ghost predicate AllQuiet(steps: seq<seq<Compaction>>) {
    forall i :: 0 <= i < |steps| ==> Quiet(steps[i])
  }

  /** Some buffer decodes to the item. */
  ghost predicate WasRead(item: Item<Attributes>) {
    exists p :: ReadOutcome(p) == Read(item)
  }

  /** The ids of `read_block`: two blocks from the one that holds `id`. The addition wraps. */
  function WindowId(id: u64, blockSize: nat, i: nat): u64
    requires blockSize > 0
  {
    (id / blockSize * blockSize + i) % 0x1_0000_0000_0000_0000
  }

  function ReadFrom(snapshot: map<u64, seq<byte>>, id: u64): ReadResult {
    if id in snapshot then ReadOutcome(snapshot[id]) else NotFound
  }

  /** The first `n` items of a block that are found and decoded; `None` when a read panics. */
  function BlockItems(snapshot: map<u64, seq<byte>>, id: u64, blockSize: nat, n: nat): Option<seq<Item<Attributes>>>
    requires blockSize > 0
  {
    if n == 0 then Some([])
    else
      var before := BlockItems(snapshot, id, blockSize, n - 1);
      if before.None? then None
      else
        match ReadFrom(snapshot, WindowId(id, blockSize, n - 1))
        case Read(item) => Some(before.value + [item])
        case Panicked => None
        case _ => before
  }

  lemma PartOfPart(file: seq<byte>, start: nat, end: nat, i: nat, j: nat)
    requires i <= j <= end - start && end <= |file|
    ensures file[start..end][i..j] == file[start + i..start + j]
  {
    var part, whole := file[start..end][i..j], file[start + i..start + j];
    forall k | 0 <= k < |part| ensures part[k] == whole[k] {
      assert part[k] == file[start..end][i + k];
    }
  }

  /** The job after the turn for `id`: a snapshot entry is copied, and dropped if the file does
      not reach that far. */
  ghost predicate Copied(file: seq<byte>, j: Job, j': Job, id: u64) {
    && id in j.todo && j'.todo == j.todo - {id}
    && var s := j.todo[id];
       if s.offset < j.originalOffset && s.offset + 4 + s.len <= |file| then
         && j'.newIndex == j.newIndex[id := Span(|j.tmp|, s.len)]
         && j'.tmp == j.tmp + file[s.offset..s.offset + 4 + s.len]
       else j'.newIndex == j.newIndex && j'.tmp == j.tmp
  }

  /** One locked section, or one turn of the copy loop. */
  datatype StoreOp = Write(item: Item<Entries>) | Swap | Compacting(op: Compaction)

  /** A store without a file: the latest record of every id, the records last published,
      whether something has changed since, whether a compaction has finished since, and how
      many records a compaction under way has still to copy. */
  datatype Abstract = Abstract(latest: map<u64, seq<byte>>, snapshot: map<u64, seq<byte>>,
                               dirty: bool, replaced: bool, todo: Option<nat>)

  function AbstractStep(a: Abstract, op: StoreOp): Abstract {
    match op
    case Write(item) => a.(latest := a.latest[item.id := ItemBytes(item)], dirty := true)
    case Swap => if a.dirty then a.(snapshot := a.latest, dirty := false, replaced := false) else a
    case Compacting(Begin) => if a.todo.None? then a.(todo := Some(|a.latest|)) else a
    case Compacting(CopyOne) => if a.todo.Some? && a.todo.value > 0 then a.(todo := Some(a.todo.value - 1)) else a
    case Compacting(Finish) => if a.todo == Some(0) then a.(todo := None, dirty := true, replaced := true) else a
  }

  function AbstractRun(a: Abstract, ops: seq<StoreOp>): Abstract {
    if ops == [] then a else AbstractStep(AbstractRun(a, ops[..|ops| - 1]), ops[|ops| - 1])
  }

  lemma AbstractRunStep(a: Abstract, ops: seq<StoreOp>, i: nat)
    requires i < |ops|
    ensures AbstractRun(a, ops[..i + 1]) == AbstractStep(AbstractRun(a, ops[..i]), ops[i])
  {
    assert ops[..i + 1][..i] == ops[..i];
  }

  lemma AbstractNone(a: Abstract)
    ensures AbstractRun(a, []) == a
  {
  }

  function Compactings(ops: seq<Compaction>): (r: seq<StoreOp>)
    ensures |r| == |ops| && forall i :: 0 <= i < |ops| ==> r[i] == Compacting(ops[i])
  {
    seq(|ops|, i requires 0 <= i < |ops| => Compacting(ops[i]))
  }

  class EntityStore {
    /** The bytes of `entities.bin`. */
    var file: seq<byte>
    /** `next_disk_index`, and the snapshot `disk_index` that readers load. */
    var index: Index
    var published: Index
    var dirty: bool
    var offset: nat
    var capacity: nat
    /** Whether `mmap_writer` is present. */
    var mapped: bool
    /** The compaction under way, if any. */
    var job: Option<Job>
    /** The payloads in the file, in order. */
    ghost var log: seq<seq<byte>>
    /** What `published` stood for when it was published, and whether the file has been
        replaced since. */
    ghost var snapshot: map<u64, seq<byte>>
    ghost var replaced: bool
    /** The number of payloads at the snapshot of the compaction, and what it has copied. */
    ghost var logged: nat
    ghost var newLog: seq<seq<byte>>

    ghost predicate Valid()
      reads this
    {
      && HoldsLog(file, log)
      && capacity == |file| && offset == |LogBytes(log)|
      && index == IndexOf(log)
      && (if replaced then dirty else Published(file, log, published, snapshot))
      && (job.Some? ==> JobHolds(log, job.value, logged, newLog))
    }

    /** What every method relies on, whatever the file holds. */
    ghost predicate Sane()
      reads this
    {
      capacity == |file| && offset <= capacity && (replaced ==> dirty)
    }

    /** The latest record of every id. */
    ghost function Latest(): map<u64, seq<byte>>
      reads this
    {
      ContentOf(log)
    }

    /** The store without its file. */
    ghost function Abs(): Abstract
      reads this
    {
      Abstract(Latest(), snapshot, dirty, replaced, if job.None? then None else Some(|job.value.todo|))
    }

    lemma ValidIsSane()
      requires Valid()
      ensures Sane()
    {
      hide LogBytes;
      HeldFits(file, log);
    }

    /** `Storage::new` on an existing file: the scan of `rebuild_disk_index`, and then the index
        swap, which publishes nothing, since nothing has set the dirty flag. */
    constructor Open(bytes: seq<byte>)
      ensures file == bytes && capacity == |bytes| && published == map[] && !dirty && !mapped && job == None
      ensures index == SpanIndex(Scan(bytes, 0).frames) && offset == Scan(bytes, 0).end
      ensures log == Payloads(Scan(bytes, 0).frames) && snapshot == map[] && !replaced
      ensures Sane() && (Valid() <==> !Scan(bytes, 0).torn)
    {
      var m, pos := ScanFile(bytes);
      file, capacity, offset, index := bytes, |bytes|, pos, m;
      published, dirty, mapped, job := map[], false, false, None;
      ghost var all := Scan(bytes, 0);
      log, snapshot, replaced, logged, newLog := Payloads(all.frames), map[], false, 0, [];
      new;
      hide Scan, LogBytes, SpanIndex, IndexOf, HoldsLog;
      OpenedLog(bytes);
      var swapped := SwapDiskIndex();
      assert !swapped;
    }

    /** Closing a store and opening its file again: the same index and the same records. */
    method Reopen() returns (s: EntityStore)
      requires Valid()
      ensures fresh(s) && s.Valid() && s.file == file
      ensures s.index == index && s.Latest() == Latest() && offset <= s.offset
    {
      hide HoldsLog, LogBytes, IndexOf, ContentOf, SpanIndex, Scan;
      s := new EntityStore.Open(file);
      RebuiltSame(file, log);
    }

    /** The growth in `write_entity`: at least `CHUNK_SIZE` more, filled with zeros. */
    method EnsureRoom(len: nat) returns (ghost more: nat)
      requires Sane()
      modifies this`file, this`capacity, this`mapped
      ensures Sane() && mapped && offset + len <= capacity && file == old(file) + Zeros(more)
      ensures more == if offset + len > old(capacity) || !old(mapped) then Max(len, CHUNK_SIZE) else 0
    {
      more := 0;
      if offset + len > capacity || !mapped {
        more := Max(len, CHUNK_SIZE);
        file, capacity, mapped := file + Zeros(Max(len, CHUNK_SIZE)), capacity + Max(len, CHUNK_SIZE), true;
      } else {
        assert file + Zeros(0) == file;
      }
    }

    /** `write_entity`. The length is cast to u32 both in the frame and in the index. */
    method WriteEntity(item: Item<Entries>)
      requires Sane()
      modifies this
      ensures Sane() && offset == old(offset) + 4 + |ItemBytes(item)|
      ensures index == old(index)[item.id := Span(old(offset), |ItemBytes(item)| % 0x1_0000_0000)] && dirty
      ensures var grow := offset > old(capacity) || !old(mapped);
              capacity == old(capacity) + if grow then Max(4 + |ItemBytes(item)|, CHUNK_SIZE) else 0
      ensures var grown := old(file) + Zeros(capacity - old(capacity));
              file == Overwrite(grown, old(offset), FrameBytes(ItemBytes(item)))
      ensures published == old(published) && snapshot == old(snapshot) && replaced == old(replaced) && job == old(job)
      ensures log == old(log) + [ItemBytes(item)] && newLog == old(newLog) && logged == old(logged)
      ensures old(Valid()) && |ItemBytes(item)| < 0x1_0000_0000 ==>
                Valid() && Latest() == old(Latest())[item.id := ItemBytes(item)]
    {
      hide HoldsLog, LogBytes, FrameBytes, IndexOf, ContentOf, Published, JobHolds, ItemBytes, Overwrite;
      var bytes := ItemBytes(item);
      var record := FrameBytes(bytes);
      ghost var before, log0, ok := file, log, Valid() && |bytes| < 0x1_0000_0000;
      ghost var more := EnsureRoom(|record|);
      ghost var grown := file;
      file := Overwrite(file, offset, record);
      index := index[item.id := Span(offset, |bytes| % 0x1_0000_0000)];
      offset, dirty := offset + |record|, true;
      log := log + [bytes];
      if ok {
        GrowKeeps(before, log0, more);
        WriteKeeps(grown, log0, item);
        if !replaced {
          HeldFits(before, log0);
          WriteKeepsPublished(before, more, log0, bytes, published, snapshot);
        }
        if job.Some? {
          JobGrows(log0, job.value, logged, newLog, bytes);
        }
      }
    }

    /** `swap_disk_index`. */
    method SwapDiskIndex() returns (swapped: bool)
      modifies this`dirty, this`published, this`snapshot, this`replaced
      ensures swapped == old(dirty) && !dirty
      ensures if swapped then published == index && snapshot == Latest() && !replaced
              else published == old(published) && snapshot == old(snapshot) && replaced == old(replaced)
      ensures old(Sane()) ==> Sane() && !replaced
      ensures old(Valid()) ==> Valid()
    {
      hide HoldsLog, LogBytes, IndexOf, ContentOf, JobHolds, Published;
      ghost var ok := Valid();
      swapped := dirty;
      if dirty {
        dirty, published := false, index;
        snapshot, replaced := ContentOf(log), false;
        if ok {
          IndexFrames(file, log);
        }
      }
    }

    /** `read_entity`. A slice that runs past the end of the mapped file panics. Whatever
        record the published span frames is the one that is read. */
    method ReadEntity(id: u64) returns (r: ReadResult)
      ensures Valid() && !replaced ==> r == ReadFrom(snapshot, id)
      ensures id !in published ==> r == NotFound
      ensures id in published && published[id].offset + published[id].len + 4 > |file| ==> r == Panicked
      ensures id in published ==> forall p :: FramedAt(file, published[id], p) ==> r == ReadOutcome(p)
      ensures id in published ==> r == ReadSpan(file, published[id])
    {
      hide HoldsLog, LogBytes, IndexOf, JobHolds, Published, FromLe32, ReadOutcome, ReadFrom, FramedAt;
      if Valid() && !replaced {
        PublishedReads(file, log, published, snapshot, id);
      }
      if id !in published {
        return NotFound;
      }
      var s := published[id];
      forall p | FramedAt(file, s, p) ensures ReadSpan(file, s) == ReadOutcome(p) {
        FramedReads(file, s, p);
      }
      if s.offset + s.len + 4 > |file| {
        return Panicked;
      }
      var buf := file[s.offset..s.offset + s.len + 4];
      PartOfPart(file, s.offset, s.offset + s.len + 4, 0, 4);
      var dataLen: nat := FromLe32(buf[0..4]);
      if |buf| < 4 + dataLen {
        return Truncated;
      }
      PartOfPart(file, s.offset, s.offset + s.len + 4, 4, 4 + dataLen);
      r := ReadOutcome(buf[4..4 + dataLen]);
    }

    /** `read_block`, with steps of the compaction thread before each read. */
    method ReadBlock(id: u64, blockSize: nat, during: seq<seq<Compaction>>)
      returns (items: Option<seq<Item<Attributes>>>)
      requires Sane() && blockSize > 0
      modifies this
      ensures Sane() && published == old(published) && snapshot == old(snapshot)
      ensures old(Valid()) ==> Valid() && Latest() == old(Latest())
      ensures (old(dirty) ==> dirty) && (old(replaced) ==> replaced)
      ensures AllQuiet(during) ==> replaced == old(replaced) && dirty == old(dirty)
      ensures old(Valid()) && !old(replaced) && AllQuiet(during) ==>
                items == BlockItems(snapshot, id, blockSize, 2 * blockSize)
      ensures items.Some? ==> forall i :: 0 <= i < |items.value| ==> WasRead(items.value[i])
    {
      hide WindowId, BlockItems, ReadFrom, ReadOutcome, HoldsLog, LogBytes, IndexOf, JobHolds;
      hide Published, ContentOf;
      hide Quiet;
      var found: seq<Item<Attributes>> := [];
      ghost var right := Valid() && !replaced && AllQuiet(during);
      BlockStep(snapshot, id, blockSize, 0);
      for i := 0 to 2 * blockSize
        invariant Sane() && published == old(published) && snapshot == old(snapshot)
        invariant old(Valid()) ==> Valid() && Latest() == old(Latest())
        invariant (old(dirty) ==> dirty) && (old(replaced) ==> replaced)
        invariant AllQuiet(during) ==> replaced == old(replaced) && dirty == old(dirty)
        invariant right ==> BlockItems(snapshot, id, blockSize, i) == Some(found)
        invariant forall j :: 0 <= j < |found| ==> WasRead(found[j])
      {
        if i < |during| {
          CompactSome(during[i]);
        }
        var r := ReadEntity(WindowId(id, blockSize, i));
        BlockStep(snapshot, id, blockSize, i);
        if r.Panicked? {
          if right {
            BlockPanics(snapshot, id, blockSize, i + 1, 2 * blockSize);
          }
          return None;
        }
        if r.Read? {
          found := found + [r.item];
        }
      }
      items := Some(found);
    }

    /** Steps of the compaction thread. */
    method CompactSome(ops: seq<Compaction>)
      requires Sane()
      modifies this
      ensures Sane() && published == old(published) && snapshot == old(snapshot)
      ensures old(Valid()) ==> Valid() && Latest() == old(Latest())
      ensures (old(dirty) ==> dirty) && (old(replaced) ==> replaced)
      ensures Quiet(ops) ==> replaced == old(replaced) && dirty == old(dirty)
      ensures old(Valid()) ==> Abs() == AbstractRun(old(Abs()), Compactings(ops))
    {
      hide HoldsLog, LogBytes, IndexOf, ContentOf, Published, JobHolds, Abs, AbstractRun, AbstractStep;
      ghost var a, all := Abs(), Compactings(ops);
      AbstractNone(a);
      assert all[..0] == [];
      for i := 0 to |ops|
        invariant old(Valid()) ==> Abs() == AbstractRun(a, all[..i])
        invariant Sane() && published == old(published) && snapshot == old(snapshot)
        invariant old(Valid()) ==> Valid() && Latest() == old(Latest())
        invariant (old(dirty) ==> dirty) && (old(replaced) ==> replaced)
        invariant Quiet(ops) ==> replaced == old(replaced) && dirty == old(dirty)
      {
        AbstractRunStep(a, all, i);
        Compact(ops[i]);
      }
      assert all[..|ops|] == all;
    }

    /** `compact`, first locked section: the snapshot of the index and of the offset. */
    method CompactBegin()
      requires job == None
      modifies this`job, this`logged, this`newLog
      ensures job == Some(Job(index, offset, [], map[])) && logged == |log| && newLog == []
      ensures old(Valid()) ==> Valid()
    {
      hide HoldsLog, LogBytes, IndexOf, ContentOf, Published, JobOk, Packed;
      job, logged, newLog := Some(Job(index, offset, [], map[])), |log|, [];
      JobStarts(log);
    }

    /** One turn of the copy loop that runs without the locks, in whatever order the index
        is iterated. Any number of writes and index swaps may come between two turns. A read
        beyond the end of the file fails, and the entry is then dropped. */
    method CompactCopy()
      requires job.Some? && job.value.todo != map[]
      modifies this`job, this`newLog
      ensures job.Some? && logged == old(logged) && job.value.originalOffset == old(job).value.originalOffset
      ensures |job.value.todo| == |old(job).value.todo| - 1 && exists id :: Copied(file, old(job).value, job.value, id)
      ensures old(Valid()) ==> Valid() && |newLog| == |old(newLog)| + 1
    {
      hide HoldsLog, LogBytes, IndexOf, ContentOf, Published, JobOk, Packed;
      var j := job.value;
      var id :| id in j.todo;
      var s := j.todo[id];
      ghost var p: seq<byte> := [];
      if Valid() {
        p := JobCopies(file, log, j.todo, j.originalOffset, logged, j.tmp, j.newIndex, newLog, id, s);
      }
      var todo := j.todo - {id};
      assert j.todo == todo[id := s];
      if s.offset < j.originalOffset && s.offset + 4 + s.len <= |file| {
        job := Some(Job(todo, j.originalOffset, j.tmp + file[s.offset..s.offset + 4 + s.len],
                        j.newIndex[id := Span(|j.tmp|, s.len)]));
      } else {
        job := Some(Job(todo, j.originalOffset, j.tmp, j.newIndex));
      }
      newLog := newLog + [p];
      assert Copied(file, j, job.value, id);
    }

    /** The second copy loop: the records written since the snapshot, in offset order. */
    method CompactDelta(todo: Index, ghost ok: bool)
      returns (tmp: seq<byte>, newIndex: Index, ghost copied: seq<seq<byte>>)
      requires job.Some?
      requires ok ==> HoldsLog(file, log) && Packed(job.value.tmp, job.value.newIndex, newLog)
      requires ok ==> DeltaOk(log, todo, logged, newLog)
      ensures ok ==>
                && HoldsLog(tmp, copied) && newIndex == IndexOf(copied) && |tmp| == |LogBytes(copied)|
                && ContentOf(copied) == ContentOf(log) && newLog <= copied
                && |copied| == |ContentOf(log[..logged])| + |Delta(log, logged)|
      ensures ok ==> SameOrder(todo, newIndex)
    {
      hide HoldsLog, LogBytes, IndexOf, ContentOf, DeltaOk, Packed, InOffsetOrder, Delta, SameOrder;
      tmp, newIndex, copied := job.value.tmp, job.value.newIndex, newLog;
      var rest: Index := todo;
      OffsetOrderStart(todo, newIndex, |tmp|);
      while rest != map[]
        invariant ok ==> DeltaOk(log, rest, logged, copied) && Packed(tmp, newIndex, copied) && newLog <= copied
        invariant ok ==> InOffsetOrder(todo, rest, newIndex, |tmp|)
        decreases |rest|
      {
        var id := FirstByOffset(rest);
        var s := rest[id];
        if ok {
          OffsetOrderStep(todo, rest, newIndex, |tmp|, id, s.len, |tmp| + 4 + s.len);
          ghost var p := DeltaCopies(file, log, rest, logged, tmp, newIndex, copied, id, s);
          copied := copied + [p];
        }
        if s.offset + 4 + s.len <= |file| {
          newIndex := newIndex[id := Span(|tmp|, s.len)];
          tmp := tmp + file[s.offset..s.offset + 4 + s.len];
        }
        assert rest == (rest - {id})[id := s];
        rest := rest - {id};
      }
      if ok {
        OffsetOrderEnd(todo, newIndex, |tmp|);
        DeltaDone(log, logged, tmp, newIndex, copied);
        PackedHolds(tmp, newIndex, copied);
      }
    }

    /** `compact`, second locked section: the temporary file takes the place of the log. From
        now until the next index swap, the published index leads into a file that is gone. */
    method CompactFinish()
      requires job.Some? && job.value.todo == map[]
      modifies this
      ensures Sane() && job == None && dirty && replaced && capacity == offset == |file|
      ensures published == old(published) && snapshot == old(snapshot)
      ensures old(Valid()) ==>
                && Valid() && Latest() == old(Latest()) && old(newLog) <= log
                && |log| == |ContentOf(old(log)[..old(logged)])| + |Delta(old(log), old(logged))|
    {
      hide HoldsLog, LogBytes, IndexOf, ContentOf, Published, JobHolds, Packed, DeltaOk, Delta;
      hide Since, SameOrder;
      ghost var ok := Valid();
      var todo := Since(index, job.value.originalOffset);
      if ok {
        DeltaStarts(log, job.value, logged, newLog);
      }
      var tmp, newIndex;
      ghost var copied;
      tmp, newIndex, copied := CompactDelta(todo, ok);
      Replace(tmp, newIndex, copied);
    }

    /** The rename of the temporary file, and the fields that go with it. */
    method Replace(tmp: seq<byte>, newIndex: Index, ghost copied: seq<seq<byte>>)
      modifies this
      ensures file == tmp && capacity == offset == |tmp| && index == newIndex && log == copied
      ensures dirty && replaced && job == None && published == old(published) && snapshot == old(snapshot)
    {
      file, mapped, capacity, index, offset, dirty := tmp, |tmp| > 0, |tmp|, newIndex, |tmp|, true;
      log, replaced, job := copied, true, None;
    }

    predicate CanCompact(op: Compaction)
      reads this
    {
      match op
      case Begin => job == None
      case CopyOne => job.Some? && job.value.todo != map[]
      case Finish => job.Some? && job.value.todo == map[]
    }

    /** One step of the compaction thread; a step that is not enabled does nothing. The
        latest records, and what is published, stay as they are. */
    method Compact(op: Compaction)
      requires Sane()
      modifies this
      ensures Sane() && published == old(published) && snapshot == old(snapshot)
      ensures old(Valid()) ==> Valid() && Latest() == old(Latest())
      ensures old(replaced) ==> replaced
      ensures old(dirty) ==> dirty
      ensures old(Valid()) ==> Abs() == AbstractStep(old(Abs()), Compacting(op))
      ensures !op.Finish? || !old(CanCompact(op)) ==>
                && replaced == old(replaced) && dirty == old(dirty) && file == old(file)
                && index == old(index) && offset == old(offset) && log == old(log)
      ensures !old(CanCompact(op)) ==> job == old(job) && logged == old(logged)
      ensures old(CanCompact(op)) ==>
                match op
                case Begin => job == Some(Job(index, offset, [], map[])) && logged == |log|
                case CopyOne => job.Some? && |job.value.todo| == |old(job).value.todo| - 1 && logged == old(logged)
                case Finish =>
                  && job == None && dirty && replaced && capacity == offset == |file|
                  && (old(Valid()) ==>
                        |log| == |ContentOf(old(log)[..old(logged)])| + |Delta(old(log), old(logged))|)
    {
      hide HoldsLog, LogBytes, IndexOf, ContentOf, Published, JobHolds, Delta;
      IndexSize(log);
      if CanCompact(op) {
        match op
        case Begin => CompactBegin();
        case CopyOne => CompactCopy();
        case Finish => CompactFinish();
      }
    }
  }

  lemma NoneSince(log: seq<seq<byte>>)
    ensures Delta(log, |log|) == {}
  {
    hide LogBytes, IndexOf;
    assert log[..|log|] == log;
    forall id | id in IndexOf(log) ensures IndexOf(log)[id].offset < |LogBytes(log)| {
      SnapshotSpan(log, |log|, id);
    }
  }

  /** A log with as many records as ids holds one record for each. */
  lemma {:induction false} OneEach(log: seq<seq<byte>>)
    ensures |ContentOf(log)| <= |log|
    ensures |ContentOf(log)| == |log| ==>
              && (forall i :: 0 <= i < |log| ==> PeekId(log[i]).Some?)
              && (forall i, j :: 0 <= i < j < |log| ==> PeekId(log[i]) != PeekId(log[j]))
  {
    hide PeekId;
    if log == [] {
    } else {
      var n := |log| - 1;
      OneEach(log[..n]);
      assert log == log[..n] + [log[n]];
      Append(log[..n], log[n]);
      forall i | 0 <= i < n && PeekId(log[i]).Some? ensures PeekId(log[i]).value in ContentOf(log[..n]) {
        SameIds(log[..n]);
        Indexed(log[..n], i, PeekId(log[i]).value);
      }
    }
  }

  /** A whole compaction with no write in between: `Begin`, one `CopyOne` for each id and
      `Finish` leave one record for each id, and nothing else in the file. */
  method CompactAll(s: EntityStore)
    requires s.Valid() && s.job == None
    modifies s
    ensures s.Valid() && s.job == None && s.dirty && s.replaced && s.Latest() == old(s.Latest())
    ensures s.published == old(s.published) && s.snapshot == old(s.snapshot) && s.offset == |s.file|
    ensures |s.log| == |s.Latest()|
  {
    hide HoldsLog, LogBytes, IndexOf, ContentOf, Published, JobHolds, Delta;
    s.ValidIsSane();
    s.Compact(Begin);
    for i := 0 to |s.index|
      invariant s.Valid() && s.Sane() && s.job.Some? && s.logged == |s.log| && s.log == old(s.log)
      invariant s.published == old(s.published) && s.snapshot == old(s.snapshot)
      invariant |s.job.value.todo| == |old(s.index)| - i && s.index == old(s.index)
    {
      s.Compact(CopyOne);
    }
    assert s.log[..|s.log|] == s.log;
    NoneSince(s.log);
    s.Compact(Finish);
  }

  lemma IndexSize(log: seq<seq<byte>>)
    ensures |IndexOf(log)| == |ContentOf(log)|
  {
    SameIds(log);
    assert |IndexOf(log).Keys| == |ContentOf(log).Keys|;
  }

  /// Whole runs

  /** The records after a run: only writes matter. */
  function Written(latest: map<u64, seq<byte>>, ops: seq<StoreOp>): map<u64, seq<byte>> {
    if ops == [] then latest
    else
      var before, op := Written(latest, ops[..|ops| - 1]), ops[|ops| - 1];
      if op.Write? then before[op.item.id := ItemBytes(op.item)] else before
  }

  lemma {:induction false} OnlyWritesMatter(a: Abstract, ops: seq<StoreOp>)
    ensures AbstractRun(a, ops).latest == Written(a.latest, ops)
  {
    hide ItemBytes;
    if ops == [] {
    } else {
      OnlyWritesMatter(a, ops[..|ops| - 1]);
    }
  }

  /** Any interleaving of writes, index swaps and the steps of compactions does to the store
      in its file what it does to the store without one; so the latest records are those that
      the writes alone give. A step that is not enabled does nothing. */
  method RunStore(s: EntityStore, ops: seq<StoreOp>)
    requires s.Valid()
    requires forall i :: 0 <= i < |ops| && ops[i].Write? ==> |ItemBytes(ops[i].item)| < 0x1_0000_0000
    modifies s
    ensures s.Valid() && s.Abs() == AbstractRun(old(s.Abs()), ops)
    ensures s.Latest() == Written(old(s.Latest()), ops)
  {
    hide Written, ContentOf, IndexOf, LogBytes, HoldsLog, Published, JobHolds, ItemBytes, AbstractRun;
    ghost var was := s.Abs();
    AbstractNone(was);
    assert ops[..0] == [];
    for i := 0 to |ops|
      invariant s.Valid() && s.Abs() == AbstractRun(was, ops[..i])
    {
      AbstractRunStep(was, ops, i);
      s.ValidIsSane();
      match ops[i]
      case Write(item) => s.WriteEntity(item);
      case Swap => var _ := s.SwapDiskIndex();
      case Compacting(op) => s.Compact(op);
    }
    assert ops[..|ops|] == ops;
    OnlyWritesMatter(was, ops);
  }

  /// The offset after a rebuild

  lemma LastMet(file: seq<byte>, log: seq<seq<byte>>, p: seq<byte>)
    requires HoldsLog(file, log + [p])
    ensures Meets(Scan(file, 0).frames, Frame(|LogBytes(log)|, p))
  {
    hide Scan, LogBytes, FramesOf, Tail, At;
    ScanLog(file, 0, log + [p]);
    FramesConcat(0, log, [p]);
    FramesCons(|LogBytes(log)|, [p], 1);
    assert [p][..1] == [p];
    var frames := FramesOf(0, log + [p]);
    assert frames[|log|] == Frame(|LogBytes(log)|, p);
    assert Scan(file, 0).frames[|log|] == frames[|log|];
  }

  /** The offset that a rebuild leaves is one from which the log can be continued exactly when
      the scan met no torn frame: only then does a scan after the next write meet the record. */
  method WriteAfterOpen(bytes: seq<byte>, item: Item<Entries>) returns (s: EntityStore)
    requires |ItemBytes(item)| < 0x1_0000_0000
    ensures fresh(s) && s.Sane()
    ensures Meets(Scan(s.file, 0).frames, Frame(Scan(bytes, 0).end, ItemBytes(item))) <==> !Scan(bytes, 0).torn
    ensures !Scan(bytes, 0).torn ==> s.Valid() && s.log == Payloads(Scan(bytes, 0).frames) + [ItemBytes(item)]
    ensures Scan(bytes, 0).torn ==>
              var end := Scan(bytes, 0).end;
              && 4 <= end
              && var swallowed := end + FromLe32(bytes[end - 4..end]);
                 swallowed <= |s.file| ==> Meets(Scan(s.file, 0).frames, Frame(end - 4, s.file[end..swallowed]))
  {
    hide Scan, LogBytes, SpanIndex, IndexOf, HoldsLog, ItemBytes, Payloads, ContentOf, JobHolds;
    hide Published, FrameBytes, Overwrite, FromLe32;
    s := new EntityStore.Open(bytes);
    ghost var end, log := s.offset, s.log;
    s.WriteEntity(item);
    if Scan(bytes, 0).torn {
      ghost var grown := bytes + Zeros(s.capacity - |bytes|);
      Overwritten(grown, end, FrameBytes(ItemBytes(item)));
      assert grown[..end] == bytes[..end];
      TornNeverMeets(bytes, 0, s.file, end);
      TornEnd(bytes, 0);
      ghost var len := FromLe32(bytes[end - 4..end]);
      if end + len <= |s.file| {
        TornTailSwallows(bytes, 0, s.file, end, len);
        ghost var f := Frame(end - 4, s.file[end..end + len]);
        assert Scan(s.file, 0).frames[|Scan(bytes, 0).frames|] == f;
      }
    } else {
      LastMet(s.file, log, ItemBytes(item));
    }
  }
}
