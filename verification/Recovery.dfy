/** Write-ahead logging, group commit and crash recovery: the order of steps in `run` and
    `replay_wal` of src/engine/partition.rs, over src/io/wal.rs. */
module Recovery {
  import opened Bytes
  import opened Frames
  import opened Codec
  import opened Options
  import opened Records
  import opened Storage
  import opened Wal
  import opened Engine

  function CommandsOf(cs: seq<WriteCommand<Entries>>): (r: seq<WriteCommand<Attributes>>)
    ensures |r| == |cs|
  {
    seq(|cs|, i requires 0 <= i < |cs| => CommandOf(cs[i]))
  }

  /** A command whose types are sound and whose encoding is shorter than 4 GiB. */
  ghost predicate Loggable(c: WriteCommand<Entries>) {
    WellTypedCommand(c) && |CommandBytes(c)| < 0x1_0000_0000
  }

  lemma ItemSize(it: Item<Entries>)
    requires WellTypedItem(it)
    ensures |ItemBytes(it)| >= 1 && (|ItemBytes(it)| < 0x1_0000_0000 ==> ItemFits(ItemOf(it)))
  {
    hide WellTyped, EntriesBytes, EntriesFit, Fits, AttributesOf, Le32, Le64;
    EntriesSize(it.strs);
    EntriesSize(it.ints);
    EntriesSize(it.blobs);
    FitsOfOrder(StrKind, it.strs);
    FitsOfOrder(IntKind, it.ints);
    FitsOfOrder(BlobKind, it.blobs);
  }

  lemma {:induction false} ItemsSize(its: seq<Item<Entries>>)
    requires forall i :: 0 <= i < |its| ==> WellTypedItem(its[i])
    ensures |ItemsBytes(its)| >= |its|
    ensures |ItemsBytes(its)| < 0x1_0000_0000 ==> forall i :: 0 <= i < |its| ==> ItemFits(ItemOf(its[i]))
  {
    hide ItemBytes, WellTypedItem, ItemFits, ItemOf;
    if its == [] {
      assert |ItemsBytes(its)| == 0;
    } else {
      ItemSize(its[0]);
      ItemsSize(its[1..]);
      assert forall i :: 1 <= i < |its| ==> its[i] == its[1..][i - 1];
    }
  }

  /** What is shorter than 4 GiB has no count and no length beyond a u32. */
  lemma LoggableFits(c: WriteCommand<Entries>)
    requires Loggable(c)
    ensures CommandFits(CommandOf(c))
  {
    hide ItemBytes, WellTypedItem, ItemFits, ItemOf, Le32, Le64, ItemsBytes, ItemsOf;
    match c
    case Insert(it) => ItemSize(it);
    case BatchInsert(its) =>
      ItemsSize(its);
      ItemsOfAt(its);
    case Delete(_) =>
    case InsertFast(_, _, _, _) =>
  }

  ghost predicate AllLoggable(cs: seq<WriteCommand<Entries>>) {
    forall i :: 0 <= i < |cs| ==> Loggable(cs[i])
  }

  /** Replaying intact payloads gives the commands back. */
  lemma {:induction false} ReplayRecords(cs: seq<WriteCommand<Entries>>)
    requires AllLoggable(cs)
    ensures ReplayOf(PayloadsOf(cs)) == Replay(CommandsOf(cs), false)
    decreases |cs|
  {
    hide CommandBytes, CommandOf, DecodeCommand, WellTypedCommand, CommandFits;
    var ps := PayloadsOf(cs);
    if cs == [] {
      assert ps == [] && CommandsOf(cs) == [];
    } else {
      var init, c := cs[..|cs| - 1], cs[|cs| - 1];
      assert Loggable(c);
      assert AllLoggable(init);
      ReplayRecords(init);
      assert ps[..|ps| - 1] == PayloadsOf(init);
      assert CommandsOf(cs) == CommandsOf(init) + [CommandOf(c)];
      LoggableFits(c);
      CommandRoundTrip(c);
    }
  }

  lemma LoggableFrames(cs: seq<WriteCommand<Entries>>)
    requires AllLoggable(cs)
    ensures Framable(PayloadsOf(cs))
  {
    hide CommandBytes, WellTypedCommand;
    forall i | 0 <= i < |cs| ensures |PayloadsOf(cs)[i]| < 0x1_0000_0000 {
      assert Loggable(cs[i]);
    }
  }

  /** What survives a cut: the commands whose frames are complete. */
  function Survivors(cs: seq<WriteCommand<Entries>>, n: nat): (k: nat)
    ensures k <= |cs|
  {
    Complete(PayloadsOf(cs), n)
  }

  /** A log cut at any byte replays as exactly the commands whose frames are complete, and no
      decoder panics. */
  lemma CutReplays(cs: seq<WriteCommand<Entries>>, n: nat)
    requires AllLoggable(cs) && n <= |LogBytes(PayloadsOf(cs))|
    ensures ReplayOf(Payloads(Scan(LogBytes(PayloadsOf(cs))[..n], 0).frames))
            == Replay(CommandsOf(cs)[..Survivors(cs, n)], false)
  {
    hide LogBytes, Scan, Complete, ReplayOf, Loggable, CommandBytes, CommandOf;
    LoggableFrames(cs);
    var k := Survivors(cs, n);
    ScanCutLog(PayloadsOf(cs), n);
    assert PayloadsOf(cs)[..k] == PayloadsOf(cs[..k]);
    assert CommandsOf(cs)[..k] == CommandsOf(cs[..k]);
    ReplayRecords(cs[..k]);
  }

  /// A log over several sessions

  /** What a replay of a file applies. */
  function Recovered(file: seq<byte>): Replay {
    ReplayOf(Payloads(Scan(file, 0).frames))
  }

  lemma {:induction false} ReplayConcat(a: seq<seq<byte>>, b: seq<seq<byte>>)
    requires !ReplayOf(a).panicked
    ensures ReplayOf(a + b) == Replay(ReplayOf(a).commands + ReplayOf(b).commands, ReplayOf(b).panicked)
    decreases |b|
  {
    hide DecodeCommand;
    if b == [] {
      assert a + b == a;
      assert ReplayOf(a).commands + [] == ReplayOf(a).commands;
    } else {
      var init, last := b[..|b| - 1], b[|b| - 1];
      ReplayConcat(a, init);
      assert (a + b)[..|a + b| - 1] == a + init;
      var x, y := ReplayOf(a).commands, ReplayOf(init).commands;
      assert forall c :: x + (y + [c]) == x + y + [c];
    }
  }

  /** A clean log that is appended to and then cut at any byte: the old commands, and those of
      the new ones whose frames are complete. */
  lemma ReopenedReplays(base: seq<byte>, cs: seq<WriteCommand<Entries>>, n: nat)
    requires Clean(base) && !Recovered(base).panicked && AllLoggable(cs)
    requires n <= |base + LogBytes(PayloadsOf(cs))|
    ensures var r := Recovered((base + LogBytes(PayloadsOf(cs)))[..n]);
            && !r.panicked
            && (n >= |base| ==> r.commands == Recovered(base).commands + CommandsOf(cs)[..Survivors(cs, n - |base|)])
            && (n < |base| ==> r.commands <= Recovered(base).commands)
  {
    hide LogBytes, Scan, Complete, ReplayOf, Loggable, CommandBytes, CommandOf, Clean, Framable, Payloads;
    LoggableFrames(cs);
    CleanIsLog(base);
    var before, ps := Payloads(Scan(base, 0).frames), PayloadsOf(cs);
    LogConcat(before, ps);
    FramableConcat(before, ps);
    ScanCutLog(before + ps, n);
    CompleteConcat(before, ps, n);
    if n >= |base| {
      var k := Survivors(cs, n - |base|);
      assert (before + ps)[..|before| + k] == before + ps[..k];
      assert ps[..k] == PayloadsOf(cs[..k]) && CommandsOf(cs)[..k] == CommandsOf(cs[..k]);
      ReplayRecords(cs[..k]);
      ReplayConcat(before, ps[..k]);
    } else {
      assert (before + ps)[..Complete(before, n)] == before[..Complete(before, n)];
      ReplayPrefix(before, Complete(before, n));
    }
  }

  /** Whatever the file held: what a replay recovered once, later replays recover again, first
      and in order, as long as a crash leaves what was there. */
  lemma RecoveredStays(base: seq<byte>, file: seq<byte>)
    requires base <= file
    ensures Recovered(base).commands <= Recovered(file).commands
  {
    hide Scan, ReplayOf, Payloads;
    FramesStay(base, 0, file);
    var a, b := Payloads(Scan(base, 0).frames), Payloads(Scan(file, 0).frames);
    PayloadsBelow(Scan(base, 0).frames, Scan(file, 0).frames);
    ReplayPrefix(b, |a|);
    assert b[..|a|] == a;
  }

  lemma PayloadsBelow(a: seq<Frame>, b: seq<Frame>)
    requires a <= b
    ensures Payloads(a) <= Payloads(b)
  {
  }

  lemma NothingRecovered()
    ensures Clean([]) && Recovered([]) == Replay([], false)
  {
    ScanStop([], 0);
    hide Scan;
    assert Payloads([]) == [];
  }

  /** Crash recovery: whatever byte the log was cut at, and whatever the entity file holds,
      replaying the log into an empty partition leaves exactly the state of the commands whose
      frames are complete. The log may go back to earlier sessions. */
  method Recover(p: Partition, ghost base: seq<byte>, ghost cs: seq<WriteCommand<Entries>>, bytes: seq<byte>)
    requires p.Idle() && p.log == [] && AllLoggable(cs) && Clean(base) && !Recovered(base).panicked
    requires bytes <= base + LogBytes(PayloadsOf(cs))
    modifies p, p.storage
    ensures p.Idle() && p.log == Steps(Recovered(bytes).commands) && Resolves(p.shared, p.data, StateAfter(p.log))
    ensures |bytes| < |base| ==> Recovered(bytes).commands <= Recovered(base).commands
    ensures |bytes| >= |base| ==>
              && Recovered(bytes).commands
                 == Recovered(base).commands + CommandsOf(cs)[..Survivors(cs, |bytes| - |base|)]
              && forall k :: 0 <= k <= |cs| ==>
                   (|base| + |LogBytes(PayloadsOf(cs)[..k])| <= |bytes| <==> k <= Survivors(cs, |bytes| - |base|))
  {
    hide LogBytes, Scan, ReplayOf, Loggable, CommandOf, Resolves, StateAfter, Steps, PayloadsOf, Clean;
    hide CommandsOf, Payloads, CacheSound, TraceOk, OrdersOk, Direct, Cells, ItemsEffect;
    assert bytes == (base + LogBytes(PayloadsOf(cs)))[..|bytes|];
    ReopenedReplays(base, cs, |bytes|);
    if |bytes| >= |base| {
      forall k | 0 <= k <= |cs|
        ensures |base| + |LogBytes(PayloadsOf(cs)[..k])| <= |bytes| <==> k <= Survivors(cs, |bytes| - |base|)
      {
        CompleteIsMaximal(PayloadsOf(cs), |bytes| - |base|, k);
      }
    }
    var panicked := p.ReplayWal(bytes);
    assert [] + p.log == p.log;
  }

  /// The grouping of commands into batches

  function Writes(cs: seq<PartitionCommand>): seq<WriteCommand<Attributes>> {
    if cs == [] then []
    else
      var c := cs[|cs| - 1];
      Writes(cs[..|cs| - 1]) + if c.Apply? then [c.command] else []
  }

  /** The write commands among the steps. */
  function Commands(log: seq<Step>): seq<WriteCommand<Attributes>> {
    if log == [] then []
    else
      var step := log[|log| - 1];
      Commands(log[..|log| - 1]) + if step.Did? then [step.command] else []
  }

  lemma CommandsStep(log: seq<Step>, step: Step)
    ensures Commands(log + [step]) == Commands(log) + if step.Did? then [step.command] else []
  {
    assert (log + [step])[..|log|] == log;
  }

  /** However commands are grouped into batches, the write commands take effect in order. */
  lemma {:induction false} BatchCommands(log: seq<Step>, cs: seq<PartitionCommand>, blocks: seq<seq<Item<Attributes>>>)
    requires |cs| == |blocks|
    ensures Commands(RunLog(log, cs, blocks)) == Commands(log) + Writes(cs)
    ensures log <= RunLog(log, cs, blocks)
    decreases |cs|
  {
    hide StateAfter, Commands;
    if cs == [] {
      assert Commands(log) + [] == Commands(log);
    } else {
      var n := |cs| - 1;
      var before := RunLog(log, cs[..n], blocks[..n]);
      BatchCommands(log, cs[..n], blocks[..n]);
      if cs[n].InternalLoad? {
        CommandsStep(before, Loaded(blocks[n]));
      } else if cs[n].Apply? {
        CommandsStep(before, Did(cs[n].command));
      }
    }
  }

  lemma {:induction false} WritesGrow(cs: seq<PartitionCommand>, k: nat)
    requires k <= |cs|
    ensures Writes(cs[..k]) <= Writes(cs)
  {
    if k < |cs| {
      WritesGrow(cs[..|cs| - 1], k);
      assert cs[..|cs| - 1][..k] == cs[..k];
    } else {
      assert cs[..k] == cs;
    }
  }

  /** The last step that touched the entity, if any, was a command. */
  ghost predicate LastByCommand(log: seq<Step>, id: u64) {
    forall i :: 0 <= i < |log| && log[i].Loaded? && id in EffectOf(log[i]) ==>
      exists j :: i < j < |log| && log[j].Did? && id in EffectOf(log[j])
  }

  function RecordIn(s: EntityState, id: u64): Option<Record> {
    if id in s then Some(s[id]) else None
  }

  /** The commands alone rebuild every entity that no cold load was the last to touch. */
  lemma {:induction false} CommandsRebuild(log: seq<Step>, id: u64)
    requires LastByCommand(log, id)
    ensures RecordIn(StateAfter(Steps(Commands(log))), id) == RecordIn(StateAfter(log), id)
  {
    hide EffectOf, Commands;
    if log == [] {
      CommandsNone();
    } else {
      var init, step := log[..|log| - 1], log[|log| - 1];
      assert log == init + [step];
      CommandsStep(init, step);
      StateStep(init, step);
      if step.Loaded? {
        assert Commands(init) + [] == Commands(init);
      } else {
        assert Steps(Commands(log)) == Steps(Commands(init)) + [step];
        StateStep(Steps(Commands(init)), step);
      }
      if id !in EffectOf(step) {
        forall i | 0 <= i < |init| && init[i].Loaded? && id in EffectOf(init[i])
          ensures exists j :: i < j < |init| && init[j].Did? && id in EffectOf(init[j])
        {
          assert log[i] == init[i];
          var j :| i < j < |log| && log[j].Did? && id in EffectOf(log[j]);
          assert init[j] == log[j];
        }
        CommandsRebuild(init, id);
      } else {
        assert step.Did? by {
          assert log[|log| - 1] == step;
        }
      }
    }
  }

  lemma {:induction false} CommandsOfSteps(cs: seq<WriteCommand<Attributes>>)
    ensures Commands(Steps(cs)) == cs
  {
    if cs == [] {
      CommandsNone();
    } else {
      var init, last := cs[..|cs| - 1], cs[|cs| - 1];
      CommandsOfSteps(init);
      assert Steps(cs) == Steps(init) + [Did(last)];
      CommandsStep(Steps(init), Did(last));
    }
  }

  lemma CommandsNone()
    ensures Commands([]) == [] && Steps([]) == []
  {
  }

  lemma {:induction false} CommandsGrow(log: seq<Step>, k: nat)
    requires k <= |log|
    ensures Commands(log[..k]) <= Commands(log)
  {
    if k < |log| {
      CommandsGrow(log[..|log| - 1], k);
      assert log[..|log| - 1][..k] == log[..k];
    } else {
      assert log[..k] == log;
    }
  }

  /// Encoding a batch

  /** What the types guarantee of a command, and that it is shorter than 4 GiB when encoded,
      in whatever order its maps are iterated. */
  ghost predicate Journalable(c: PartitionCommand) {
    && Admissible(c)
    && (c.Apply? ==>
          forall w: WriteCommand<Entries> :: WellTypedCommand(w) && CommandOf(w) == c.command ==>
              |CommandBytes(w)| < 0x1_0000_0000)
  }

  /** The order in which the maps of a command are iterated. */
  method OrderCommand(c: WriteCommand<Attributes>) returns (w: WriteCommand<Entries>)
    requires AllProper(InsertedBy(Did(c)))
    ensures WellTypedCommand(w) && CommandOf(w) == c
  {
    hide Proper, ItemOf, WellTypedItem, FastItem;
    match c
    case Insert(item) =>
      assert Proper(InsertedBy(Did(c))[0]);
      var it := OrderItem(item);
      w := Insert(it);
    case BatchInsert(items) =>
      var its: seq<Item<Entries>> := [];
      assert ItemsOf([]) == [] == items[..0];
      for i := 0 to |items|
        invariant ItemsOf(its) == items[..i] && forall it :: it in its ==> WellTypedItem(it)
      {
        var it := OrderItem(items[i]);
        ItemsOfStep(its, it);
        its := its + [it];
      }
      w := BatchInsert(its);
    case Delete(id) =>
      w := Delete(id);
    case InsertFast(id, epoch, recordType, payload) =>
      w := InsertFast(id, epoch, recordType, payload);
  }

  /** The write commands of a batch, as they are encoded for the log. */
  method OrderWrites(commands: seq<PartitionCommand>) returns (ws: seq<WriteCommand<Entries>>)
    requires forall i :: 0 <= i < |commands| ==> Journalable(commands[i])
    ensures AllLoggable(ws) && CommandsOf(ws) == Writes(commands)
  {
    hide CommandBytes, CommandOf, WellTypedCommand, AllProper, Writes;
    ws := [];
    WritesNone();
    assert commands[..0] == [];
    for i := 0 to |commands|
      invariant AllLoggable(ws) && CommandsOf(ws) == Writes(commands[..i])
    {
      WritesStep(commands, i);
      if commands[i].Apply? {
        assert Journalable(commands[i]);
        var w := OrderCommand(commands[i].command);
        assert Loggable(w);
        assert CommandsOf(ws + [w]) == CommandsOf(ws) + [commands[i].command];
        ws := ws + [w];
      }
    }
    assert commands[..|commands|] == commands;
  }

  lemma WritesStep(cs: seq<PartitionCommand>, i: nat)
    requires i < |cs|
    ensures Writes(cs[..i + 1]) == Writes(cs[..i]) + if cs[i].Apply? then [cs[i].command] else []
  {
    assert cs[..i + 1][..i] == cs[..i];
  }

  /// The writer thread

  /** `run`: each batch is logged before it is applied. */
  class Writer {
    const wal: StdWal
    const partition: Partition
    /** The batch that has been logged and not yet applied. */
    var pending: seq<PartitionCommand>
    /** Every write command logged, in the iteration order it was encoded with. */
    ghost var all: seq<WriteCommand<Entries>>

    /** The commands that were replayed when the session started. */
    ghost function Start(): seq<WriteCommand<Attributes>> {
      Recovered(wal.base).commands
    }

    /** The log holds every command that has taken effect, and maybe more. */
    ghost predicate Journaled()
      reads this, wal, partition
    {
      && wal.Valid() && partition.Coherent()
      && wal.appended == PayloadsOf(all) && AllLoggable(all) && !Recovered(wal.base).panicked
      && Commands(partition.log) <= Start() + CommandsOf(all)
    }

    /** The writer thread is alive, between two turns or between the halves of one. */
    ghost predicate Valid()
      reads this, wal, partition, partition.storage
    {
      && Journaled() && partition.Idle()
      && Start() + CommandsOf(all) == Commands(partition.log) + Writes(pending)
      && forall i :: 0 <= i < |pending| ==> Admissible(pending[i])
    }

    /** `replay_wal` has just applied what the log file held; `run` goes on from there. */
    constructor (wal: StdWal, partition: Partition)
      requires wal.Valid() && wal.appended == [] && partition.Idle()
      requires !Recovered(wal.base).panicked && partition.log == Steps(Recovered(wal.base).commands)
      ensures Valid() && this.wal == wal && this.partition == partition && pending == [] && all == []
    {
      this.wal, this.partition, pending, all := wal, partition, [], [];
      new;
      hide CacheSound, TraceOk, OrdersOk, Direct, Cells, ItemsEffect, Resolves, StateAfter, Recovered, Whole;
      CommandsOfSteps(Start());
      WritesNone();
    }

    /** First half of a turn: the write commands of the batch are logged, unless there are
        none. */
    method LogBatch(commands: seq<PartitionCommand>)
      requires Valid() && pending == []
      requires forall i :: 0 <= i < |commands| ==> Journalable(commands[i])
      modifies this, wal
      ensures Valid() && pending == commands
      ensures old(all) <= all && CommandsOf(all) == CommandsOf(old(all)) + Writes(commands)
    {
      hide Whole, LogBytes, Loggable, CommandOf, CommandBytes, Commands, Writes, Admissible, Recovered;
      hide CacheSound, TraceOk, OrdersOk, Direct, Cells, ItemsEffect, Resolves, StateAfter;
      var batch := OrderWrites(commands);
      if batch != [] {
        wal.AppendBatch(batch);
      }
      assert PayloadsOf(all + batch) == PayloadsOf(all) + PayloadsOf(batch);
      assert CommandsOf(all + batch) == CommandsOf(all) + CommandsOf(batch);
      assert Start() + (CommandsOf(all) + CommandsOf(batch)) == Start() + CommandsOf(all) + CommandsOf(batch);
      WritesNone();
      forall i | 0 <= i < |commands| ensures Admissible(commands[i]) {
        assert Journalable(commands[i]);
      }
      all, pending := all + batch, commands;
    }

    /** Second half: the batch is applied, while the compaction thread does what it does. A
        load that panics ends the writer thread. */
    method ApplyPending(background: seq<Meanwhile>) returns (panicked: bool)
      requires Valid()
      modifies this, partition, partition.storage
      ensures Journaled() && all == old(all) && old(partition.trace) <= partition.trace
      ensures panicked ==> exists i :: 0 <= i < |old(pending)| && old(pending)[i].InternalLoad?
      ensures !panicked ==>
                && Valid() && pending == []
                && Commands(partition.log) == old(Commands(partition.log)) + Writes(old(pending))
    {
      hide Whole, LogBytes, Loggable, CommandOf, CommandBytes, Commands, Writes, Admissible, RunLog;
      hide Recovered;
      hide Inserts, Stored, CommandsOf;
      hide CacheSound, TraceOk, OrdersOk, Direct, Cells, ItemsEffect, Resolves, StateAfter;
      hide PayloadsOf, Decodes, HoldsLog;
      hide IndexOf, ContentOf, Published, JobHolds, StorableBatch, NoFinish, Reads;
      ghost var log, commands := partition.log, pending;
      ghost var done, blocks;
      panicked, done, blocks := partition.ApplyBatch(pending, background);
      BatchCommands(log, commands[..done], blocks);
      WritesGrow(commands, done);
      if !panicked {
        assert commands[..|commands|] == commands;
        WritesNone();
        pending := [];
      }
    }
  }

  lemma WritesNone()
    ensures Writes([]) == []
  {
  }

  /** At every moment of a session over a clean log file, whatever part of the file a crash
      leaves, its replay is a prefix of the commands, old and new. */
  lemma CrashLeavesPrefix(w: Writer, n: nat)
    requires w.Journaled() && Clean(w.wal.base) && n <= |w.wal.written|
    ensures var r, size := Recovered(w.wal.written[..n]), |w.wal.base|;
            && !r.panicked
            && (n >= size ==> r.commands == w.Start() + CommandsOf(w.all)[..Survivors(w.all, n - size)])
            && (n < size ==> r.commands <= w.Start())
  {
    hide Whole, LogBytes, Loggable, CommandOf, CommandBytes, Commands, Recovered, Survivors;
    hide PayloadsOf, Clean;
    hide CommandsOf, CacheSound, TraceOk, OrdersOk, Direct, Cells, ItemsEffect, Resolves, StateAfter;
    var wal := w.wal;
    WrittenIsPrefix(wal.base, wal.written, wal.local, wal.queue, wal.appended);
    assert wal.written[..n] == (wal.base + LogBytes(wal.appended))[..n];
    ReopenedReplays(wal.base, w.all, n);
  }

  lemma AllSurvive(cs: seq<WriteCommand<Entries>>)
    ensures Survivors(cs, |LogBytes(PayloadsOf(cs))|) == |cs|
  {
    hide LogBytes, Complete;
    assert PayloadsOf(cs)[..|cs|] == PayloadsOf(cs);
    CompleteIsMaximal(PayloadsOf(cs), |LogBytes(PayloadsOf(cs))|, |cs|);
  }

  lemma WholeFile(base: seq<byte>, cs: seq<WriteCommand<Entries>>)
    requires Clean(base) && !Recovered(base).panicked && AllLoggable(cs)
    ensures Recovered(base + LogBytes(PayloadsOf(cs))) == Replay(Recovered(base).commands + CommandsOf(cs), false)
  {
    hide LogBytes, Loggable, Recovered, Survivors, PayloadsOf, Clean, CommandOf;
    var file := base + LogBytes(PayloadsOf(cs));
    AllSurvive(cs);
    ReopenedReplays(base, cs, |file|);
    assert file[..|file|] == file && CommandsOf(cs)[..|cs|] == CommandsOf(cs);
  }

  /** With a synchronous log that was clean when the session started, nothing that any reader
      may have seen is lost: at every moment, the write commands behind every published
      pointer map are among those that a replay of the file applies. */
  lemma NothingSeenIsLost(w: Writer, i: nat)
    requires w.Journaled() && !w.wal.isAsync && Clean(w.wal.base) && i < |w.partition.trace|
    ensures var r := Recovered(w.wal.written[..w.wal.flushed]);
            && !r.panicked
            && w.partition.trace[i].prefix <= |w.partition.log|
            && Commands(w.partition.log[..w.partition.trace[i].prefix]) <= r.commands
  {
    hide LogBytes, Loggable, CommandOf, CommandBytes, Commands, Recovered, PayloadsOf, CommandsOf, Clean;
    hide CacheSound, OrdersOk, Direct, Cells, ItemsEffect, Resolves, StateAfter, Whole;
    var wal, p := w.wal, w.partition;
    assert SnapOk(p.trace[i], p.log);
    hide TraceOk;
    SyncWritten(wal.base, wal.written, wal.appended);
    assert wal.written[..wal.flushed] == wal.written;
    WholeFile(wal.base, w.all);
    CommandsGrow(p.log, p.trace[i].prefix);
  }

  /** The condition is exact: the frame of the first command of a session is met by a replay
      of the whole file if and only if the file was clean when the session started. */
  lemma FirstCommandMet(w: Writer)
    requires w.Journaled() && !w.wal.isAsync && w.all != []
    ensures var file := w.wal.written[..w.wal.flushed];
            Meets(Scan(file, 0).frames, Frame(|w.wal.base|, CommandBytes(w.all[0]))) <==> Clean(w.wal.base)
  {
    hide LogBytes, Loggable, CommandBytes, Commands, Recovered, CommandsOf, Clean, Scan, Meets, Framable;
    hide CacheSound, TraceOk, OrdersOk, Direct, Cells, ItemsEffect, Resolves, StateAfter, Whole;
    var wal := w.wal;
    SyncWritten(wal.base, wal.written, wal.appended);
    assert wal.written[..wal.flushed] == wal.written;
    LoggableFrames(w.all);
    AppendedMet(wal.base, PayloadsOf(w.all));
  }

  /** Once the flusher has drained its queue, the same holds for an asynchronous log. */
  method DrainThenCrash(w: Writer) returns (file: seq<byte>)
    requires w.Journaled() && w.wal.isAsync
    modifies w.wal
    ensures w.Journaled() && file == w.wal.written[..w.wal.flushed]
    ensures Clean(w.wal.base) ==> Recovered(file) == Replay(w.Start() + CommandsOf(w.all), false)
    ensures w.Start() <= Recovered(file).commands
  {
    hide Whole, LogBytes, Loggable, CommandOf, CommandBytes, Commands, Recovered, PayloadsOf, Clean;
    hide CommandsOf, CacheSound, TraceOk, OrdersOk, Direct, Cells, ItemsEffect, Resolves, StateAfter;
    Drain(w.wal);
    file := w.wal.written[..w.wal.flushed];
    RecoveredStays(w.wal.base, file);
    if Clean(w.wal.base) {
      WholeFile(w.wal.base, w.all);
    }
  }

  /** After an orderly stop, a replay into an empty partition takes exactly the steps that
      were commands. Every entity that no cold load was the last to touch has the record that
      it had in the stopped partition. */
  method Restart(w: Writer, p: Partition)
    requires w.Valid() && !w.wal.isAsync && w.pending == [] && Clean(w.wal.base)
    requires p.Idle() && p.log == [] && p != w.partition && p.storage != w.partition.storage
    modifies p, p.storage
    ensures p.Idle() && w.Valid() && p.log == Steps(Commands(w.partition.log))
    ensures Resolves(p.shared, p.data, StateAfter(p.log))
    ensures Resolves(w.partition.shared, w.partition.data, StateAfter(w.partition.log))
    ensures forall id :: LastByCommand(w.partition.log, id) ==>
              RecordIn(StateAfter(p.log), id) == RecordIn(StateAfter(w.partition.log), id)
  {
    hide Whole, LogBytes, Loggable, CommandOf, CommandBytes, Commands, Writes, Admissible, PayloadsOf;
    hide CommandsOf, Recovered, Clean, LastByCommand, RecordIn;
    hide CacheSound, TraceOk, OrdersOk, Direct, Cells, ItemsEffect, Resolves, StateAfter, Steps;
    SyncWritten(w.wal.base, w.wal.written, w.wal.appended);
    WholeFile(w.wal.base, w.all);
    WritesNone();
    IdleResolves(w.partition);
    assert Commands(w.partition.log) + [] == Commands(w.partition.log);
    Recover(p, w.wal.base, w.all, w.wal.written);
    forall id | LastByCommand(w.partition.log, id)
      ensures RecordIn(StateAfter(p.log), id) == RecordIn(StateAfter(w.partition.log), id)
    {
      CommandsRebuild(w.partition.log, id);
    }
  }

  /// Whole sessions

  /** What happens in a session: a turn of the writer thread, or a step of the flusher. */
  datatype Turn = Commit(commands: seq<PartitionCommand>, background: seq<Meanwhile>) | Flush(op: FlusherOp)

  /** A session starts over the log file and some entity file, and ends in a crash that leaves
      at most `cut` bytes of what the log's writer was handed. */
  datatype Session = Session(isAsync: bool, entities: seq<byte>, turns: seq<Turn>, cut: nat)

  ghost predicate AllJournalable(turns: seq<Turn>) {
    forall i, j :: 0 <= i < |turns| && turns[i].Commit? && 0 <= j < |turns[i].commands| ==>
      Journalable(turns[i].commands[j])
  }

  function TurnWrites(turns: seq<Turn>): seq<WriteCommand<Attributes>> {
    if turns == [] then []
    else
      var t := turns[|turns| - 1];
      TurnWrites(turns[..|turns| - 1]) + if t.Commit? then Writes(t.commands) else []
  }

  lemma TurnStep(turns: seq<Turn>, i: nat)
    requires i < |turns|
    ensures TurnWrites(turns[..0]) == []
    ensures TurnWrites(turns[..i + 1])
            == TurnWrites(turns[..i]) + if turns[i].Commit? then Writes(turns[i].commands) else []
  {
    hide Writes;
    assert turns[..i + 1][..i] == turns[..i];
  }

  /** Opening the log and the entity file, and replaying the log. A decoder that panics ends
      the thread before it serves anything. */
  method StartSession(isAsync: bool, file: seq<byte>, entities: seq<byte>) returns (w: Writer?)
    ensures (w == null) == Recovered(file).panicked
    ensures w != null ==>
              && fresh(w) && fresh(w.wal) && fresh(w.partition) && fresh(w.partition.storage)
              && w.Valid() && w.wal.base == file && w.wal.isAsync == isAsync && w.all == [] && w.pending == []
  {
    hide HoldsLog, LogBytes, IndexOf, ContentOf, Published, JobHolds, SpanIndex, Scan, ReplayOf;
    hide Payloads, Steps;
    hide Resolves, StateAfter, Direct, Cells, Whole, Decodes, CacheSound, TraceOk, OrdersOk;
    var wal := new StdWal(isAsync, file);
    var store := new EntityStore.Open(entities);
    var partition := new Partition(store, map[]);
    var panicked := partition.ReplayWal(file);
    if panicked {
      return null;
    }
    assert [] + partition.log == partition.log;
    w := new Writer(wal, partition);
  }

  /** A load is among the commands of the turn. */
  ghost predicate Loads(turn: Turn) {
    turn.Commit? && exists i :: 0 <= i < |turn.commands| && turn.commands[i].InternalLoad?
  }

  function Shorter(bytes: seq<byte>, n: nat): (r: seq<byte>)
    ensures r <= bytes && |r| == if n < |bytes| then n else |bytes|
  {
    if n < |bytes| then bytes[..n] else bytes
  }

  /** One session: every turn is made, unless a load panics in the last of the `ran` turns that
      are, or the session does not even start. The crash cuts what the log's writer was handed. */
  method RunSession(file: seq<byte>, session: Session) returns (after: seq<byte>, w: Writer?, ghost ran: nat)
    requires AllJournalable(session.turns)
    ensures (w == null) == Recovered(file).panicked
    ensures w == null ==> ran == 0 && after == Shorter(file, session.cut)
    ensures w != null ==>
              && fresh(w) && w.Journaled() && w.wal.base == file && w.wal.isAsync == session.isAsync
              && ran <= |session.turns| && CommandsOf(w.all) == TurnWrites(session.turns[..ran])
              && (ran < |session.turns| ==> ran > 0 && Loads(session.turns[ran - 1]))
              && after == Shorter(w.wal.written, session.cut)
  {
    hide LogBytes, Loggable, CommandOf, CommandBytes, Commands, Recovered, Writes, Admissible, TurnWrites;
    hide CacheSound, TraceOk, OrdersOk, Direct, Cells, ItemsEffect, Resolves, StateAfter, Whole, Journalable;
    ran := 0;
    assert session.turns[..0] == [];
    SessionNone();
    w := StartSession(session.isAsync, file, session.entities);
    if w == null {
      after := Shorter(file, session.cut);
      return;
    }
    var panicked := false;
    for i := 0 to |session.turns|
      invariant w.Journaled() && (!panicked ==> w.Valid() && w.pending == [])
      invariant fresh(w) && fresh(w.wal) && fresh(w.partition) && fresh(w.partition.storage)
      invariant w.wal.base == file && w.wal.isAsync == session.isAsync
      invariant ran <= i && if panicked then ran > 0 && Loads(session.turns[ran - 1]) else ran == i
      invariant CommandsOf(w.all) == TurnWrites(session.turns[..ran])
    {
      TurnStep(session.turns, i);
      match session.turns[i]
      case Flush(op) =>
        w.wal.Flusher(op);
        if !panicked {
          ran := i + 1;
        }
      case Commit(commands, background) =>
        if !panicked {
          forall j | 0 <= j < |commands| ensures Journalable(commands[j]) {
            assert session.turns[i].Commit? && commands[j] == session.turns[i].commands[j];
          }
          w.LogBatch(commands);
          panicked := w.ApplyPending(background);
          ran := i + 1;
        }
    }
    after := Shorter(w.wal.written, session.cut);
  }

  /** What a session leaves of the file is a cut of the old file and what it logged; with a
      synchronous log a crash that cuts nothing leaves it all. */
  lemma SessionLeaves(w: Writer, cut: nat)
    requires w.Journaled()
    ensures var all := w.wal.base + LogBytes(PayloadsOf(w.all));
            && Shorter(w.wal.written, cut) <= all
            && (!w.wal.isAsync && cut >= |all| ==> Shorter(w.wal.written, cut) == all)
  {
    hide LogBytes, Loggable, Commands, Recovered, CommandsOf, Whole;
    hide CacheSound, TraceOk, OrdersOk, Direct, Cells, ItemsEffect, Resolves, StateAfter;
    var wal := w.wal;
    WrittenIsPrefix(wal.base, wal.written, wal.local, wal.queue, wal.appended);
    if !wal.isAsync {
      SyncWritten(wal.base, wal.written, wal.appended);
    }
  }

  lemma SessionNone()
    ensures AllLoggable([]) && CommandsOf([]) == TurnWrites([]) && PayloadsOf([]) == []
  {
  }

  lemma NoSession(file: seq<byte>, cut: nat)
    ensures AllLoggable([]) && CommandsOf([]) == TurnWrites([])
    ensures Shorter(file, cut) <= file + LogBytes(PayloadsOf([])) == file
  {
  }

  /** What session after session adds to the log: the commands whose frames the crash at its
      end left complete. `files[i]` is the log file when session `i` starts. */
  ghost function Kept(files: seq<seq<byte>>, logs: seq<seq<WriteCommand<Entries>>>): seq<WriteCommand<Attributes>>
    requires |files| == |logs| + 1
  {
    if logs == [] then []
    else
      var n := |logs| - 1;
      var added := |files[n + 1]| - |files[n]|;
      Kept(files[..n + 1], logs[..n])
      + if added < 0 then [] else CommandsOf(logs[n])[..Survivors(logs[n], added)]
  }

  /** Every session started over a clean file, and no crash took bytes of an earlier one. */
  ghost predicate AllClean(files: seq<seq<byte>>) {
    && (forall i :: 0 <= i < |files| - 1 ==> Clean(files[i]))
    && (forall i :: 0 <= i < |files| - 1 ==> |files[i]| <= |files[i + 1]|)
  }

  /** Session `i` wrote `logs[i]` behind `files[i]`, and the crash left `files[i + 1]`. */
  ghost predicate Chained(files: seq<seq<byte>>, logs: seq<seq<WriteCommand<Entries>>>) {
    && |files| == |logs| + 1 && files[0] == []
    && (forall i :: 0 <= i < |logs| ==> AllLoggable(logs[i]))
    && (forall i :: 0 <= i < |logs| ==> files[i + 1] <= files[i] + LogBytes(PayloadsOf(logs[i])))
  }

  /** Over any number of sessions and crashes: as long as no session starts behind a torn
      frame, the log replays as exactly what each session added and its crash left complete. */
  lemma {:induction false} SessionsRecover(files: seq<seq<byte>>, logs: seq<seq<WriteCommand<Entries>>>)
    requires Chained(files, logs) && AllClean(files)
    ensures Recovered(files[|logs|]) == Replay(Kept(files, logs), false)
    decreases |logs|
  {
    hide LogBytes, Loggable, CommandOf, Recovered, Survivors, PayloadsOf, Clean, CommandsOf;
    if logs == [] {
      NothingRecovered();
    } else {
      var n := |logs| - 1;
      assert AllLoggable(logs[n]) && files[n + 1] <= files[n] + LogBytes(PayloadsOf(logs[n]));
      SessionsBelow(files, logs);
      SessionsRecover(files[..n + 1], logs[..n]);
      assert Clean(files[n]) && |files[n]| <= |files[n + 1]|;
      ReopenedReplays(files[n], logs[n], |files[n + 1]|);
      assert files[n + 1] == (files[n] + LogBytes(PayloadsOf(logs[n])))[..|files[n + 1]|];
    }
  }

  lemma SessionsBelow(files: seq<seq<byte>>, logs: seq<seq<WriteCommand<Entries>>>)
    requires Chained(files, logs) && AllClean(files) && logs != []
    ensures Chained(files[..|logs|], logs[..|logs| - 1]) && AllClean(files[..|logs|])
    ensures files[..|logs|][|logs| - 1] == files[|logs| - 1]
  {
    hide LogBytes, AllLoggable, PayloadsOf, Clean;
  }

  /** What session `i` did: all its turns, unless it did not start or a load panicked. With a
      synchronous log, a crash that cuts nothing leaves everything. */
  ghost predicate SessionDid(session: Session, file: seq<byte>, after: seq<byte>,
                             log: seq<WriteCommand<Entries>>, ran: nat) {
    && ran <= |session.turns| && CommandsOf(log) == TurnWrites(session.turns[..ran])
    && (ran < |session.turns| ==>
          if Recovered(file).panicked then ran == 0 else ran > 0 && Loads(session.turns[ran - 1]))
    && (!session.isAsync && session.cut >= |file + LogBytes(PayloadsOf(log))| ==>
          after == file + LogBytes(PayloadsOf(log)))
  }

  /** Any number of sessions over one log file, each with writer turns, flusher steps,
      compactions and a crash. */
  method RunSessions(sessions: seq<Session>)
    returns (file: seq<byte>, ghost files: seq<seq<byte>>, ghost logs: seq<seq<WriteCommand<Entries>>>,
             ghost rans: seq<nat>)
    requires forall i :: 0 <= i < |sessions| ==> AllJournalable(sessions[i].turns)
    ensures |logs| == |rans| == |sessions| && Chained(files, logs) && file == files[|sessions|]
    ensures forall i :: 0 <= i < |sessions| ==> SessionDid(sessions[i], files[i], files[i + 1], logs[i], rans[i])
    ensures AllClean(files) ==> Recovered(file) == Replay(Kept(files, logs), false)
  {
    hide LogBytes, Loggable, CommandOf, Recovered, PayloadsOf, Clean, CommandsOf, TurnWrites, AllLoggable, Kept;
    hide AllClean, AllJournalable, SessionDid;
    file, files, logs, rans := [], [[]], [], [];
    for i := 0 to |sessions|
      invariant |logs| == |rans| == i && Chained(files, logs) && file == files[i]
      invariant forall j :: 0 <= j < i ==> SessionDid(sessions[j], files[j], files[j + 1], logs[j], rans[j])
    {
      var after;
      ghost var log, ran;
      after, log, ran := NextSession(file, sessions[i]);
      file, files, logs, rans := after, files + [after], logs + [log], rans + [ran];
    }
    if AllClean(files) {
      SessionsRecover(files, logs);
    }
  }

  method NextSession(file: seq<byte>, session: Session)
    returns (after: seq<byte>, ghost log: seq<WriteCommand<Entries>>, ghost ran: nat)
    requires AllJournalable(session.turns)
    ensures AllLoggable(log) && after <= file + LogBytes(PayloadsOf(log)) && SessionDid(session, file, after, log, ran)
  {
    hide LogBytes, Loggable, CommandOf, CommandsOf, TurnWrites, AllJournalable, Recovered, Whole, PayloadsOf, Loads;
    hide CacheSound, TraceOk, OrdersOk, Direct, Cells, ItemsEffect, Resolves, StateAfter, Commands, Shorter;
    var w;
    after, w, ran := RunSession(file, session);
    if w == null {
      log := [];
      NoSession(file, session.cut);
      NoCut(file, session.cut);
      assert session.turns[..0] == [];
    } else {
      log := w.all;
      SessionLeaves(w, session.cut);
    }
  }

  lemma NoCut(file: seq<byte>, cut: nat)
    ensures cut >= |file| ==> Shorter(file, cut) == file
  {
  }
}
