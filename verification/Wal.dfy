/** The write-ahead log with its group-commit flusher (src/io/wal.rs). Each section under a
    lock is one step; bytes reach the writer, and the file behind it, in any portions. */
module Wal {
  import opened Bytes
  import opened Frames
  import opened Codec

  function Flat(bufs: seq<seq<byte>>): seq<byte> {
    if bufs == [] then [] else bufs[0] + Flat(bufs[1..])
  }

  /** The payloads of a group of commands. */
  function PayloadsOf(cs: seq<WriteCommand<Entries>>): (ps: seq<seq<byte>>)
    ensures |ps| == |cs|
  {
    seq(|cs|, i requires 0 <= i < |cs| => CommandBytes(cs[i]))
  }

  lemma {:induction false} FlatConcat(a: seq<seq<byte>>, b: seq<seq<byte>>)
    ensures Flat(a + b) == Flat(a) + Flat(b)
  {
    if a == [] {
      assert a + b == b;
    } else {
      assert (a + b)[1..] == a[1..] + b;
      FlatConcat(a[1..], b);
      assert a[0] + (Flat(a[1..]) + Flat(b)) == a[0] + Flat(a[1..]) + Flat(b);
    }
  }

  lemma FlatOne(b: seq<byte>)
    ensures Flat([b]) == b
  {
    assert Flat([b]) == b + Flat([]);
  }

  /** Nothing is lost, repeated or reordered: what is written, what the flusher holds and what
      is queued make up what the file held when it was opened and everything appended since. */
  ghost predicate Whole(base: seq<byte>, written: seq<byte>, local: seq<seq<byte>>, queue: seq<seq<byte>>,
                        appended: seq<seq<byte>>) {
    base <= written && written + (Flat(local) + Flat(queue)) == base + LogBytes(appended)
  }

  lemma WholeQueued(base: seq<byte>, w: seq<byte>, l: seq<seq<byte>>, q: seq<seq<byte>>, log: seq<seq<byte>>,
                    ps: seq<seq<byte>>)
    requires Whole(base, w, l, q, log)
    ensures Whole(base, w, l, q + [LogBytes(ps)], log + ps)
  {
    hide LogBytes, Flat;
    LogConcat(log, ps);
    FlatConcat(q, [LogBytes(ps)]);
    FlatOne(LogBytes(ps));
    Extended(w, Flat(l), Flat(q), base, LogBytes(log), LogBytes(ps));
  }

  lemma Extended(w: seq<byte>, x: seq<byte>, y: seq<byte>, base: seq<byte>, log: seq<byte>, more: seq<byte>)
    requires w + (x + y) == base + log
    ensures w + (x + (y + more)) == base + (log + more)
  {
    assert w + (x + (y + more)) == w + (x + y) + more;
    assert base + (log + more) == base + log + more;
  }

  lemma WholeWritten(base: seq<byte>, w: seq<byte>, log: seq<seq<byte>>, ps: seq<seq<byte>>)
    requires Whole(base, w, [], [], log)
    ensures Whole(base, w + LogBytes(ps), [], [], log + ps)
  {
    hide LogBytes, Whole;
    SyncWritten(base, w, log);
    LogConcat(log, ps);
    assert base + (LogBytes(log) + LogBytes(ps)) == base + LogBytes(log) + LogBytes(ps);
    WrittenWhole(base, w + LogBytes(ps), log + ps);
  }

  lemma WrittenWhole(base: seq<byte>, w: seq<byte>, log: seq<seq<byte>>)
    requires w == base + LogBytes(log)
    ensures Whole(base, w, [], [], log)
  {
    hide LogBytes;
    assert Flat([]) == [];
    assert w + ([] + []) == w;
  }

  lemma WholeTaken(base: seq<byte>, w: seq<byte>, l: seq<seq<byte>>, q: seq<seq<byte>>, log: seq<seq<byte>>)
    requires Whole(base, w, l, q, log)
    ensures Whole(base, w, l + q, [], log)
  {
    hide LogBytes;
    FlatConcat(l, q);
    assert Flat([]) == [];
  }

  lemma WholeMoved(base: seq<byte>, w: seq<byte>, l: seq<seq<byte>>, q: seq<seq<byte>>, log: seq<seq<byte>>, n: nat)
    requires Whole(base, w, l, q, log) && l != [] && n <= |l[0]|
    ensures Whole(base, w + l[0][..n], [l[0][n..]] + l[1..], q, log)
  {
    hide LogBytes;
    var b, rest := l[0], l[1..];
    assert Flat(l) == b + Flat(rest);
    assert Flat([b[n..]] + rest) == b[n..] + Flat(rest);
    hide Flat;
    Regroup(w, b, n, Flat(rest), Flat(q));
  }

  lemma Regroup(w: seq<byte>, b: seq<byte>, n: nat, x: seq<byte>, y: seq<byte>)
    requires n <= |b|
    ensures w + b[..n] + ((b[n..] + x) + y) == w + ((b + x) + y)
  {
    assert b == b[..n] + b[n..];
  }

  lemma WholeDropped(base: seq<byte>, w: seq<byte>, l: seq<seq<byte>>, q: seq<seq<byte>>, log: seq<seq<byte>>)
    requires Whole(base, w, l, q, log) && l != [] && l[0] == []
    ensures Whole(base, w, l[1..], q, log)
  {
    hide LogBytes;
    assert Flat(l) == [] + Flat(l[1..]) == Flat(l[1..]);
    hide Flat;
  }

  /** What is written is always a prefix of what the file should come to hold. */
  lemma WrittenIsPrefix(base: seq<byte>, w: seq<byte>, l: seq<seq<byte>>, q: seq<seq<byte>>, log: seq<seq<byte>>)
    requires Whole(base, w, l, q, log)
    ensures base <= w <= base + LogBytes(log)
  {
    hide LogBytes;
  }

  /** A crash leaves the first `n` bytes written. Of a file that was clean when it was opened,
      a scan meets exactly the payloads, old and new, whose frames are complete. */
  lemma CrashImage(base: seq<byte>, w: seq<byte>, l: seq<seq<byte>>, q: seq<seq<byte>>, log: seq<seq<byte>>, n: nat)
    requires Whole(base, w, l, q, log) && Clean(base) && Framable(log) && n <= |w|
    ensures var all := Payloads(Scan(base, 0).frames) + log;
            && Framable(all) && n <= |LogBytes(all)| && w[..n] == LogBytes(all)[..n]
            && Payloads(Scan(w[..n], 0).frames) == all[..Complete(all, n)]
  {
    hide LogBytes, Scan, Payloads, Complete, Framable, Clean;
    CleanIsLog(base);
    var before := Payloads(Scan(base, 0).frames);
    LogConcat(before, log);
    FramableConcat(before, log);
    WrittenIsPrefix(base, w, l, q, log);
    assert w[..n] == LogBytes(before + log)[..n];
    ScanCutLog(before + log, n);
  }

  /** Whatever the file held, torn or not: what a scan met before, it still meets, as long as
      the crash leaves what was there; and it meets what was appended behind it exactly when
      the file was clean. */
  lemma ReopenedImage(base: seq<byte>, w: seq<byte>, l: seq<seq<byte>>, q: seq<seq<byte>>, log: seq<seq<byte>>, n: nat)
    requires Whole(base, w, l, q, log) && Framable(log) && |base| <= n <= |w|
    ensures Payloads(Scan(base, 0).frames) <= Payloads(Scan(w[..n], 0).frames)
    ensures log != [] && n == |base + LogBytes(log)| ==>
              (Meets(Scan(w[..n], 0).frames, Frame(|base|, log[0])) <==> Clean(base))
  {
    hide LogBytes, Scan, Framable, Clean, Meets;
    WrittenIsPrefix(base, w, l, q, log);
    FramesStay(base, 0, w[..n]);
    if log != [] && n == |base + LogBytes(log)| {
      assert w[..n] == base + LogBytes(log);
      AppendedMet(base, log);
    }
  }

  /** Where the flusher thread is in its loop. */
  datatype Phase = Waiting | Collected | Writing

  datatype FlusherOp =
    | Collecting
    | Merging
    | Skipping
    | Handing(n: nat)
    | Spilling(n: nat)
    | Finishing
    | Checkpointing

  class StdWal {
    /** Whether appends go through the flusher. */
    const isAsync: bool
    /** The bytes handed to the writer, and how many of them have reached the file. */
    var written: seq<byte>
    var flushed: nat
    /** `async_buffer`. */
    var queue: seq<seq<byte>>
    /** The flusher's `local_buf`. */
    var local: seq<seq<byte>>
    var phase: Phase
    /** What the file held when it was opened, and the payloads appended since, in the order
        their appends took effect. */
    ghost const base: seq<byte>
    ghost var appended: seq<seq<byte>>

    ghost predicate Valid()
      reads this
    {
      && Whole(base, written, local, queue, appended)
      && |base| <= flushed <= |written|
      && (phase == Waiting ==> local == [] && flushed == |written|)
      && (!isAsync ==> phase == Waiting && queue == [])
    }

    /** What a later scan of the file relies on. */
    ghost predicate Sound()
      reads this
    {
      Valid() && Clean(base)
    }

    /** `StdWal::new` opens the file in append mode: whatever an earlier session left, torn or
        not, the next frame goes behind it. */
    constructor (isAsync: bool, bytes: seq<byte>)
      ensures Valid() && base == bytes && appended == [] && this.isAsync == isAsync
      ensures written == bytes && flushed == |bytes| && queue == [] && phase == Waiting
      ensures Sound() <==> Clean(bytes)
    {
      this.isAsync, base := isAsync, bytes;
      written, flushed, queue, local, phase, appended := bytes, |bytes|, [], [], Waiting, [];
      new;
      WholeOpened(bytes);
    }

    /** `append_batch`. A synchronous append has reached the file when it returns. */
    method AppendBatch(commands: seq<WriteCommand<Entries>>)
      requires Valid()
      modifies this
      ensures Valid() && appended == old(appended) + PayloadsOf(commands)
      ensures phase == old(phase) && local == old(local)
      ensures if isAsync then written == old(written) && flushed == old(flushed)
                              && |queue| == old(|queue|) + if commands == [] then 0 else 1
              else written == base + LogBytes(appended) && flushed == |written|
    {
      hide LogBytes, FrameBytes, CommandBytes, Whole;
      var buf: seq<byte> := [];
      assert PayloadsOf(commands[..0]) == [];
      LogNone();
      for i := 0 to |commands|
        invariant buf == LogBytes(PayloadsOf(commands[..i])) && (i == 0 ==> buf == []) && (i > 0 ==> buf != [])
        modifies {}
      {
        assert PayloadsOf(commands[..i + 1]) == PayloadsOf(commands[..i]) + [CommandBytes(commands[i])];
        LogAppend(PayloadsOf(commands[..i]), CommandBytes(commands[i]));
        buf := buf + FrameBytes(CommandBytes(commands[i]));
      }
      assert commands[..|commands|] == commands;
      ghost var ps := PayloadsOf(commands);
      ghost var log := appended;
      appended := appended + ps;
      if buf == [] {
        assert log + ps == log;
      } else if isAsync {
        WholeQueued(base, written, local, queue, log, ps);
        queue := queue + [buf];
        return;
      } else {
        WholeWritten(base, written, log, ps);
        written := written + buf;
        flushed := |written|;
      }
      if !isAsync {
        SyncWritten(base, written, appended);
      }
    }

    /** `append`. */
    method Append(command: WriteCommand<Entries>)
      requires Valid()
      modifies this
      ensures Valid() && appended == old(appended) + [CommandBytes(command)]
      ensures phase == old(phase) && local == old(local)
      ensures if isAsync then written == old(written) && flushed == old(flushed)
              else written == base + LogBytes(appended) && flushed == |written|
    {
      hide LogBytes, FrameBytes, CommandBytes, Whole;
      var buf := FrameBytes(CommandBytes(command));
      ghost var ps := [CommandBytes(command)];
      LogOne(CommandBytes(command));
      if isAsync {
        WholeQueued(base, written, local, queue, appended, ps);
        queue := queue + [buf];
      } else {
        WholeWritten(base, written, appended, ps);
        written := written + buf;
        flushed := |written|;
        SyncWritten(base, written, appended + ps);
      }
      appended := appended + ps;
    }

    /** The flusher takes the whole queue. */
    method Collect()
      requires Valid() && isAsync && phase == Waiting && queue != []
      modifies this`local, this`queue, this`phase
      ensures Valid() && phase == Collected && local == old(queue) && queue == []
    {
      WholeTaken(base, written, local, queue, appended);
      assert local + queue == queue;
      local, queue, phase := queue, [], Collected;
    }

    /** After the pause, whatever was queued meanwhile joins the buffers already taken. */
    method Merge()
      requires Valid() && isAsync && phase == Collected
      modifies this`local, this`queue, this`phase
      ensures Valid() && phase == Writing && local == old(local) + old(queue) && queue == []
    {
      if queue != [] {
        WholeTaken(base, written, local, queue, appended);
        local, queue := local + queue, [];
      }
      phase := Writing;
    }

    /** A large or late collection skips the pause. */
    method SkipMerge()
      requires Valid() && isAsync && phase == Collected
      modifies this`phase
      ensures Valid() && phase == Writing
    {
      phase := Writing;
    }

    /** `write_all` of the next buffer has handed over `n` more bytes. */
    method WriteSome(n: nat)
      requires Valid() && isAsync && phase == Writing && local != [] && n <= |local[0]|
      modifies this`written, this`local
      ensures Valid() && written == old(written) + old(local)[0][..n]
      ensures local == if n == old(|local[0]|) then old(local)[1..] else [old(local)[0][n..]] + old(local)[1..]
    {
      hide Whole;
      var b := local[0];
      WholeMoved(base, written, local, queue, appended, n);
      written := written + b[..n];
      local := [b[n..]] + local[1..];
      if n == |b| {
        WholeDropped(base, written, local, queue, appended);
        local := local[1..];
      }
    }

    /** The buffered writer spills part of what it holds. */
    method Spill(n: nat)
      requires Valid() && phase == Writing && flushed + n <= |written|
      modifies this`flushed
      ensures Valid() && flushed == old(flushed) + n
    {
      flushed := flushed + n;
    }

    /** The flush at the end of a round. */
    method FinishRound()
      requires Valid() && phase == Writing && local == []
      modifies this`flushed, this`phase
      ensures Valid() && phase == Waiting && flushed == |written|
    {
      flushed, phase := |written|, Waiting;
    }

    /** One step of the flusher, or a checkpoint; a step that is not enabled does nothing. */
    method Flusher(op: FlusherOp)
      requires Valid()
      modifies this
      ensures Valid() && appended == old(appended)
      ensures !isAsync ==> written == old(written) && flushed == |written|
      ensures match op
              case Collecting =>
                if isAsync && old(phase == Waiting && queue != []) then phase == Collected && local == old(queue)
                else phase == old(phase) && local == old(local)
              case Merging =>
                if isAsync && old(phase) == Collected then phase == Writing && local == old(local) + old(queue)
                else phase == old(phase) && local == old(local)
              case Skipping =>
                && phase == (if isAsync && old(phase) == Collected then Writing else old(phase))
                && local == old(local)
              case Handing(n) =>
                && phase == old(phase)
                && written == if isAsync && old(phase == Writing && local != [] && n <= |local[0]|)
                              then old(written) + old(local)[0][..n] else old(written)
              case Spilling(n) =>
                && phase == old(phase) && local == old(local)
                && flushed == old(flushed) + if old(phase == Writing && flushed + n <= |written|) then n else 0
              case Finishing =>
                && local == old(local)
                && if old(phase == Writing && local == []) then phase == Waiting && flushed == |written|
                   else phase == old(phase) && flushed == old(flushed)
              case Checkpointing => phase == old(phase) && local == old(local) && flushed == |written|
      ensures !op.Handing? ==> written == old(written)
      ensures op.Collecting? || op.Merging? || op.Skipping? || op.Handing? ==> flushed == old(flushed)
    {
      hide Whole;
      match op
      case Collecting => if isAsync && phase == Waiting && queue != [] { Collect(); }
      case Merging => if isAsync && phase == Collected { Merge(); }
      case Skipping => if isAsync && phase == Collected { SkipMerge(); }
      case Handing(n) => if isAsync && phase == Writing && local != [] && n <= |local[0]| { WriteSome(n); }
      case Spilling(n) => if phase == Writing && flushed + n <= |written| { Spill(n); }
      case Finishing => if phase == Writing && local == [] { FinishRound(); }
      case Checkpointing => Checkpoint();
    }

    /** `checkpoint`, and the flush in `read_all`: what is queued is not covered. */
    method Checkpoint()
      requires Valid()
      modifies this`flushed
      ensures Valid() && flushed == |written|
    {
      flushed := |written|;
    }

    /** `read_all`. */
    method ReadAll() returns (bytes: seq<byte>)
      requires Valid()
      modifies this`flushed
      ensures Valid() && base <= bytes == written <= base + LogBytes(appended)
      ensures local == [] && queue == [] ==> bytes == base + LogBytes(appended)
    {
      hide LogBytes;
      WrittenIsPrefix(base, written, local, queue, appended);
      Checkpoint();
      bytes := written[..flushed];
      if local == [] && queue == [] {
        SyncWritten(base, written, appended);
      }
    }
  }

  lemma LogOne(p: seq<byte>)
    ensures LogBytes([p]) == FrameBytes(p)
  {
    assert LogBytes([p]) == FrameBytes(p) + LogBytes([]);
  }

  lemma LogNone()
    ensures LogBytes([]) == []
  {
  }

  lemma WholeOpened(bytes: seq<byte>)
    ensures Whole(bytes, bytes, [], [], [])
  {
    assert Flat([]) == LogBytes([]) == [];
  }

  lemma SyncWritten(base: seq<byte>, written: seq<byte>, log: seq<seq<byte>>)
    requires Whole(base, written, [], [], log)
    ensures written == base + LogBytes(log)
  {
    hide LogBytes;
    assert Flat([]) == [];
    assert written + ([] + []) == written;
  }

  /// Whole runs

  datatype WalOp =
    | DoAppend(command: WriteCommand<Entries>)
    | DoBatch(commands: seq<WriteCommand<Entries>>)
    | DoFlusher(op: FlusherOp)

  /** The payloads that the appends of a run add, in order. */
  function Appended(ops: seq<WalOp>): seq<seq<byte>> {
    if ops == [] then []
    else
      var op := ops[|ops| - 1];
      Appended(ops[..|ops| - 1])
      + if op.DoAppend? then [CommandBytes(op.command)] else if op.DoBatch? then PayloadsOf(op.commands) else []
  }

  lemma AppendedStep(ops: seq<WalOp>, i: nat)
    requires i < |ops|
    ensures Appended(ops[..i + 1])
            == Appended(ops[..i]) + if ops[i].DoAppend? then [CommandBytes(ops[i].command)]
                                    else if ops[i].DoBatch? then PayloadsOf(ops[i].commands) else []
  {
    assert ops[..i + 1][..i] == ops[..i];
  }

  /** Any interleaving of appenders, flusher and checkpoints, over whatever file an earlier
      session left; a step that is not enabled does nothing. */
  method RunWal(isAsync: bool, bytes: seq<byte>, ops: seq<WalOp>) returns (wal: StdWal)
    ensures fresh(wal) && wal.Valid() && wal.base == bytes && wal.appended == Appended(ops)
    ensures wal.Sound() <==> Clean(bytes)
    ensures bytes <= wal.written <= bytes + LogBytes(Appended(ops))
  {
    hide Appended, Whole, CommandBytes, PayloadsOf, Clean, LogBytes;
    wal := new StdWal(isAsync, bytes);
    assert ops[..0] == [];
    AppendedNone();
    for i := 0 to |ops|
      invariant fresh(wal) && wal.Valid() && wal.appended == Appended(ops[..i])
    {
      AppendedStep(ops, i);
      match ops[i]
      case DoAppend(command) => wal.Append(command);
      case DoBatch(commands) => wal.AppendBatch(commands);
      case DoFlusher(op) => wal.Flusher(op);
    }
    assert ops[..|ops|] == ops;
    WrittenIsPrefix(wal.base, wal.written, wal.local, wal.queue, wal.appended);
  }

  lemma AppendedNone()
    ensures Appended([]) == []
  {
  }

  /** The flusher left alone: a round and, for what was queued meanwhile, one more. */
  method Drain(wal: StdWal)
    requires wal.Valid() && wal.isAsync
    modifies wal
    ensures wal.Valid() && wal.appended == old(wal.appended)
    ensures wal.written[..wal.flushed] == wal.base + LogBytes(wal.appended)
  {
    hide Whole, LogBytes;
    FinishWrites(wal);
    if wal.queue != [] {
      wal.Collect();
      FinishWrites(wal);
    }
    SyncWritten(wal.base, wal.written, wal.appended);
  }

  /** The rest of a round. */
  method FinishWrites(wal: StdWal)
    requires wal.Valid() && wal.isAsync
    modifies wal
    ensures wal.Valid() && wal.phase == Waiting
    ensures wal.appended == old(wal.appended) && wal.queue == old(wal.queue)
  {
    hide Whole;
    if wal.phase == Collected {
      wal.SkipMerge();
    }
    while wal.phase == Writing && wal.local != []
      invariant wal.Valid() && wal.phase != Collected
      invariant wal.appended == old(wal.appended) && wal.queue == old(wal.queue)
      decreases |wal.local|
    {
      wal.WriteSome(|wal.local[0]|);
    }
    if wal.phase == Writing {
      wal.FinishRound();
    }
  }
}
