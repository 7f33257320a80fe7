/** Runs of the engine that show why its guarantees carry their conditions. */
module Limits {
  import opened Options
  import opened Bytes
  import opened Frames
  import opened Codec
  import opened Records
  import opened Storage
  import opened Engine
  import opened Wal
  import opened Recovery

  /// Items with a single attribute

  lemma SizeOfOne(e: Attr)
    ensures |AttributesBytes([e])| == 4 + |EntryBytes(e)| && |AttributesBytes([])| == 4
  {
    hide EntryBytes, Le32;
    assert [e][1..] == [];
    assert EntriesBytes([e]) == EntryBytes(e) + EntriesBytes([]);
  }

  lemma StrAdmissible(id: u64, n: Name, s: seq<byte>)
    requires IsUtf8(n) && IsUtf8(s) && |n| + |s| < 1000
    ensures Admissible(Apply(Insert(StrItem(id, n, s)))) && AllStorable([StrItem(id, n, s)])
  {
    hide IsUtf8, AttributesBytes, WellTypedItem, ItemOf, Le32, Le64;
    var item := StrItem(id, n, s);
    forall it: Item<Entries> | WellTypedItem(it) && ItemOf(it) == item ensures |ItemBytes(it)| < 0x1_0000_0000 {
      StrOrder(it, id, n, s);
      SizeOfOne(Attr(n, Str(s)));
    }
    assert InsertedBy(Did(Insert(item))) == [item];
  }

  lemma IntAdmissible(id: u64, n: Name, v: u32)
    requires IsUtf8(n)
    ensures Admissible(Apply(Insert(IntItem(id, n, v))))
  {
    hide IsUtf8;
  }

  /// A name used with two kinds

  /** A partition over an empty directory. */
  method EmptyPartition() returns (p: Partition)
    ensures fresh(p) && fresh(p.storage) && p.Idle() && p.StoreOk() && !p.storage.replaced
    ensures p.log == [] && p.orders == [] && p.disk == p.published == map[]
  {
    hide HoldsLog, LogBytes, IndexOf;
    var store := EmptyStore();
    NothingStored();
    p := new Partition(store, map[]);
  }

  lemma NothingStored()
    ensures ContentOf([]) == map[]
  {
  }

  /** One index serves all kinds: after entity 1 stored a string and entity 2 an int under the
      same name, reading entity 2's string attribute returns the string of entity 1. */
  method MistypedRead(n: Name, s: seq<byte>, v: u32) returns (p: Partition)
    requires IsUtf8(n) && IsUtf8(s) && |n| + |s| < 1000
    ensures fresh(p) && p.Idle()
    ensures Get(p.shared, p.data, p.data, StrKind, 2, n) == Some(Str(s))
    ensures Expected(StateAfter(p.log), StrKind, 2, n) == None
    ensures !OneKind(Used(ItemsIn(p.log)), n)
  {
    hide IsUtf8, Resolves, StateAfter, Direct, Cells, CacheSound, TraceOk, OrdersOk, Decodes;
    hide HoldsLog, LogBytes, IndexOf;
    hide ContentOf, Published, JobHolds, Get, Expected, Used, OneKind, ItemsEffect, ItemsIn;
    hide AllProper, AllStorable;
    p := EmptyPartition();
    var writes := [Insert(StrItem(1, n, s)), Insert(IntItem(2, n, v))];
    StrAdmissible(1, n, s);
    IntAdmissible(2, n, v);
    ApplyWrites(p, writes);
    assert p.log == [Did(writes[0]), Did(writes[1])];
    MistypedState(p.log, n, s, v);
    MistypedCells(p.orders, p.log, n, s, v);
    MistypedGet(p.shared, p.data, StateAfter(p.log), n, s, v);
  }

  lemma MistypedState(log: seq<Step>, n: Name, s: seq<byte>, v: u32)
    requires log == [Did(Insert(StrItem(1, n, s))), Did(Insert(IntItem(2, n, v)))]
    ensures StateAfter(log) == map[1 := map[n := Str(s)], 2 := map[n := Int(v)]]
    ensures ItemsIn(log) == [StrItem(1, n, s), IntItem(2, n, v)]
    ensures !OneKind(Used(ItemsIn(log)), n)
  {
    var a, b := Did(Insert(StrItem(1, n, s))), Did(Insert(IntItem(2, n, v)));
    InsertEffect(StrItem(1, n, s));
    InsertEffect(IntItem(2, n, v));
    assert RecordOf(StrItem(1, n, s)) == map[n := Str(s)];
    assert RecordOf(IntItem(2, n, v)) == map[n := Int(v)];
    assert log == [] + [a] + [b];
    StateStep([], a);
    StateStep([a], b);
    hide RecordOf, EffectOf;
    ItemsInStep([], a);
    ItemsInStep([a], b);
    MistypedUse(n, s, v);
  }

  lemma InsertEffect(item: Item<Attributes>)
    ensures EffectOf(Did(Insert(item))) == EffectOf(Loaded([item])) == map[item.id := RecordOf(item)]
    ensures InsertedBy(Did(Insert(item))) == [item]
  {
    hide RecordOf;
    ItemsStep([], item);
    assert [] + [item] == [item];
  }

  lemma MistypedUse(n: Name, s: seq<byte>, v: u32)
    ensures !OneKind(Used([StrItem(1, n, s), IntItem(2, n, v)]), n)
  {
    var a, b := StrItem(1, n, s), IntItem(2, n, v);
    assert [a, b][..1] == [a];
    assert ColKey(StrKind, n) in KeysOf(a) && ColKey(IntKind, n) in KeysOf(b);
    assert ColKey(StrKind, n) in Used([a]);
    assert ColKey(StrKind, n) in Used([a, b]) && ColKey(IntKind, n) in Used([a, b]);
  }

  lemma MistypedCells(orders: seq<Item<Entries>>, log: seq<Step>, n: Name, s: seq<byte>, v: u32)
    requires OrdersOk(orders, log, []) && ItemsIn(log) == [StrItem(1, n, s), IntItem(2, n, v)]
    ensures Direct(Cells(orders)) == map[ColKey(StrKind, n) := [Some(Str(s))], ColKey(IntKind, n) := [Some(Int(v))]]
  {
    ItemsOfAt(orders);
    hide ItemsOf, ItemOf, WellTypedItem, ItemsIn;
    assert |orders| == 2;
    StrOrder(orders[0], 1, n, s);
    IntOrder(orders[1], 2, n, v);
    assert Cells(orders[..1]) == CellsOf(orders[0]) by {
      assert orders[..1][..0] == [];
      assert orders[..1] == [] + [orders[0]];
      CellsStep([], orders[0]);
    }
    assert orders == orders[..1] + [orders[1]];
    CellsStep(orders[..1], orders[1]);
    var a, b := Attr(n, Str(s)), Attr(n, Int(v));
    assert Cells(orders) == [] + [a] + [b];
    DirectStep(map[], [], a);
    DirectStep(map[], [] + [a], b);
    hide DirectOn, Cells;
    DirectNone();
    FirstCell(map[], a);
    FirstCell(Pushed(map[], a), b);
  }

  lemma FirstCell(c: Columns, e: Attr)
    requires KeyOf(e) !in c
    ensures Pushed(c, e) == c[KeyOf(e) := [Some(e.value)]]
  {
    var rows: Rows := [];
    assert rows + [Some(e.value)] == [Some(e.value)];
  }

  lemma DirectNone()
    ensures DirectOn(map[], []) == map[]
  {
  }

  lemma MistypedGet(p: Pointers, c: Columns, state: EntityState, n: Name, s: seq<byte>, v: u32)
    requires Resolves(p, c, state) && state == map[1 := map[n := Str(s)], 2 := map[n := Int(v)]]
    requires c == map[ColKey(StrKind, n) := [Some(Str(s))], ColKey(IntKind, n) := [Some(Int(v))]]
    ensures Get(p, c, c, StrKind, 2, n) == Some(Str(s)) && Expected(state, StrKind, 2, n) == None
  {
    assert 2 in p && Backed(p[2].indices, c, state[2]);
    assert CellAt(c, ColKey(IntKind, n), p[2].indices[n], Int(v));
  }

  /// A cold load over a tombstone

  /** A deleted entity comes back, with the record it had on disk, when a neighbour that is
      not resident is looked up. */
  method TombstoneReturns(a: u64, b: u64, n: Name, s: seq<byte>) returns (p: Partition)
    requires IsUtf8(n) && IsUtf8(s) && |n| + |s| < 1000
    requires a != b && InWindow(b, a, 2 * BLOCK)
    ensures fresh(p) && p.Idle()
    ensures p.log == [Did(Insert(StrItem(a, n, s))), Did(Delete(a)), Loaded([StrItem(a, n, s)])]
    ensures StateAfter(p.log[..2]) == map[a := map[]]
    ensures StateAfter(p.log) == map[a := map[n := Str(s)]]
  {
    hide IsUtf8, Resolves, StateAfter, Direct, Cells, CacheSound, TraceOk, OrdersOk, Decodes;
    hide HoldsLog, LogBytes, IndexOf;
    hide RunLog, Inserts, Stored, ContentOf, Published, JobHolds, ItemsEffect, ItemsIn, InWindow;
    hide AllProper, AllStorable;
    hide Reads, StorableBatch;
    p := EmptyPartition();
    var item := StrItem(a, n, s);
    StrAdmissible(a, n, s);
    OneInsert(p.disk, item);
    ApplySingle(p, Apply(Insert(item)));
    assert p.log == [Did(Insert(item))];
    NoInsert(p.disk, a, b);
    ApplySingle(p, Apply(Delete(a)));
    assert p.log == [Did(Insert(item)), Did(Delete(a))];
    TombstoneStates(item, a, n, s);
    OneInWindow(p.published, item, a, b);
    assert p.log[..2] == p.log;
    ApplySingle(p, InternalLoad(b));
    assert p.log[..2] == [Did(Insert(item)), Did(Delete(a))];
  }

  /** A batch of one command, with no compaction about. */
  method ApplySingle(p: Partition, c: PartitionCommand)
    requires p.Idle() && p.StoreOk() && !p.storage.replaced && Admissible(c) && AllStorable(InsertsOf(c))
    modifies p, p.storage
    ensures p.Idle() && p.StoreOk() && !p.storage.replaced && !p.storage.dirty
    ensures p.log == LogAfter(old(p.log), c, BlockOf(old(p.published), c))
    ensures p.disk == Stored(old(p.disk), Inserts([c]))
    ensures old(p.storage.dirty) || Inserts([c]) != [] ==> p.published == p.disk
    ensures !old(p.storage.dirty) && Inserts([c]) == [] ==> p.published == old(p.published)
  {
    hide Resolves, StateAfter, Direct, Cells, CacheSound, TraceOk, OrdersOk, Decodes, HoldsLog;
    hide LogBytes, IndexOf;
    hide Inserts, Stored, ContentOf, Published, JobHolds, ItemsEffect, AllProper, AllStorable;
    hide BlockOf, LogAfter, RunLog;
    ghost var log, published := p.log, p.published;
    var panicked;
    ghost var done, blocks;
    panicked, done, blocks := p.ApplyBatch([c], []);
    assert [c][..1] == [c];
    SingleRun(log, c, blocks);
  }

  lemma SingleRun(log: seq<Step>, c: PartitionCommand, blocks: seq<seq<Item<Attributes>>>)
    requires |blocks| == 1
    ensures RunLog(log, [c], blocks) == LogAfter(log, c, blocks[0])
  {
    hide LogAfter;
    assert [c][..0] == [] && blocks[..0] == [];
    assert RunLog(log, [], []) == log;
  }

  lemma OneInsert(disk: Disk, item: Item<Attributes>)
    ensures Inserts([Apply(Insert(item))]) == [item] && Stored(disk, [item]) == disk[item.id := item]
  {
    var cs := [Apply(Insert(item))];
    InsertsStep(cs, 0);
    StoredStep(disk, [], item);
    StoredNone(disk, []);
    assert Inserts(cs[..0]) == [];
    hide Inserts, Stored;
    assert cs[..1] == cs && InsertedBy(Did(Insert(item))) == [item];
    assert [] + [item] == [item];
  }

  lemma NoInsert(disk: Disk, a: u64, b: u64)
    ensures Inserts([Apply(Delete(a))]) == [] && Inserts([InternalLoad(b)]) == [] && Stored(disk, []) == disk
    ensures AllStorable(InsertsOf(Apply(Delete(a)))) && AllStorable(InsertsOf(InternalLoad(b)))
    ensures Admissible(Apply(Delete(a))) && Admissible(InternalLoad(b))
  {
    assert [Apply(Delete(a))][..0] == [] && [InternalLoad(b)][..0] == [];
  }

  lemma TombstoneStates(item: Item<Attributes>, a: u64, n: Name, s: seq<byte>)
    requires item == StrItem(a, n, s)
    ensures var log := [Did(Insert(item)), Did(Delete(a))];
            StateAfter(log) == map[a := map[]] && StateAfter(log + [Loaded([item])]) == map[a := map[n := Str(s)]]
  {
    var x, y := Did(Insert(item)), Did(Delete(a));
    InsertEffect(item);
    assert RecordOf(item) == map[n := Str(s)];
    hide RecordOf;
    assert [x, y] == [] + [x] + [y];
    StateStep([], x);
    StateStep([x], y);
    StateStep([x, y], Loaded([item]));
  }

  /** A disk with one record, met once in the window. */
  lemma {:induction false} OneInBlock(disk: Disk, item: Item<Attributes>, b: u64, n: nat)
    requires disk == map[item.id := item] && n <= 2 * BLOCK
    ensures Block(disk, b, BLOCK, n) == if InWindow(b, item.id, n) then [item] else []
  {
    hide InWindow;
    if n == 0 {
      WindowStep(b, item.id, 0);
    } else {
      OneInBlock(disk, item, b, n - 1);
      WindowStep(b, item.id, n - 1);
      if WindowId(b, BLOCK, n - 1) == item.id {
        WindowOnce(b, item.id, n - 1);
      }
      hide WindowId;
      assert Block(disk, b, BLOCK, n - 1) + [] == Block(disk, b, BLOCK, n - 1);
    }
  }

  lemma WindowOnce(b: u64, w: u64, n: nat)
    requires n < 2 * BLOCK && WindowId(b, BLOCK, n) == w
    ensures !InWindow(b, w, n)
  {
  }

  lemma OneInWindow(disk: Disk, item: Item<Attributes>, a: u64, b: u64)
    requires disk == map[item.id := item] && item.id == a && InWindow(b, a, 2 * BLOCK)
    ensures Block(disk, b, BLOCK, 2 * BLOCK) == [item]
  {
    hide InWindow;
    OneInBlock(disk, item, b, 2 * BLOCK);
  }

  /// A read between a compaction and the next index swap

  /** An entity is written twice and published; reading it works. After a compaction, and
      before the next index swap, the same read panics: the published offset lies beyond the
      end of the compacted file. */
  method StaleIndexPanics(a: Item<Entries>, b: Item<Entries>) returns (before: ReadResult, after: ReadResult,
      again: ReadResult)
    requires a.id == b.id && |ItemBytes(a)| < 0x1_0000_0000 && |ItemBytes(b)| < 0x1_0000_0000
    ensures before == ReadOutcome(ItemBytes(b)) && after == Panicked && again == before
  {
    hide HoldsLog, LogBytes, SpanIndex, IndexOf, ContentOf, ItemBytes, Published, JobHolds;
    hide ReadOutcome, Delta, PeekId;
    var s := TwoWrites(a, b);
    before := s.ReadEntity(a.id);
    CompactAll(s);
    OnePayload(s.log, a.id, ItemBytes(b));
    after := s.ReadEntity(a.id);
    var _ := s.SwapDiskIndex();
    again := s.ReadEntity(a.id);
  }

  /** An entity written twice, and the index published. */
  method TwoWrites(a: Item<Entries>, b: Item<Entries>) returns (s: EntityStore)
    requires a.id == b.id && |ItemBytes(a)| < 0x1_0000_0000 && |ItemBytes(b)| < 0x1_0000_0000
    ensures fresh(s) && s.Valid() && s.job == None && !s.replaced && s.log == [ItemBytes(a), ItemBytes(b)]
    ensures s.published == map[a.id := Span(4 + |ItemBytes(a)|, |ItemBytes(b)|)]
    ensures s.snapshot == s.Latest() == map[a.id := ItemBytes(b)] && Delta(s.log, 2) == {}
  {
    hide HoldsLog, LogBytes, IndexOf, ContentOf, ItemBytes, Published, JobHolds, PeekId, Delta, Overwrite;
    ItemPeeks(a);
    ItemPeeks(b);
    s := EmptyStore();
    s.WriteEntity(a);
    s.WriteEntity(b);
    var _ := s.SwapDiskIndex();
    WrittenTwice(s.log, ItemBytes(a), ItemBytes(b), a.id);
  }

  /** `entities.bin` is absent or empty. */
  method EmptyStore() returns (s: EntityStore)
    ensures fresh(s) && s.Valid() && !s.replaced && s.log == [] && s.job == None && s.offset == 0 && s.index == map[]
    ensures s.published == map[] && s.snapshot == map[]
  {
    hide HoldsLog, LogBytes, IndexOf;
    ScanStop([], 0);
    s := new EntityStore.Open([]);
  }

  lemma WrittenTwice(log: seq<seq<byte>>, p: seq<byte>, q: seq<byte>, id: u64)
    requires log == [p, q] && PeekId(p) == PeekId(q) == Some(id)
    ensures ContentOf(log) == map[id := q] && Delta(log, |log|) == {}
    ensures |LogBytes(log)| == 8 + |p| + |q|
  {
    hide PeekId, Delta;
    assert log == [] + [p] + [q];
    Append([], p);
    Append([p], q);
    assert [] + [p] == [p];
    NoneSince(log);
  }

  lemma OnePayload(log: seq<seq<byte>>, id: u64, q: seq<byte>)
    requires |log| == 1 && ContentOf(log) == map[id := q]
    ensures log == [q] && |LogBytes(log)| == 4 + |q|
  {
    hide PeekId;
    assert log == [] + [log[0]];
    Append([], log[0]);
    assert id in ContentOf(log) && ContentOf(log)[id] == log[0];
  }

  /// A read that finds another record

  /** A record is written during a compaction. After the compaction, and before the next index
      swap, a read through the published index returns the record of the other entity. */
  method StaleIndexMisreads(a: Item<Entries>, a': Item<Entries>, b: Item<Entries>)
    returns (before: ReadResult, after: ReadResult)
    requires a.id == a'.id != b.id && |ItemBytes(a)| == |ItemBytes(a')| == |ItemBytes(b)| < 0x1_0000_0000
    ensures before == ReadOutcome(ItemBytes(a')) && after == ReadOutcome(ItemBytes(b))
  {
    hide HoldsLog, LogBytes, IndexOf, ContentOf, ItemBytes, Published, JobHolds, ReadOutcome, Delta;
    hide PeekId, ReadSpan;
    hide FramedAt, Overwrite, FrameBytes;
    ItemPeeks(a);
    ItemPeeks(a');
    ItemPeeks(b);
    ghost var p, q, r := ItemBytes(a), ItemBytes(a'), ItemBytes(b);
    var s := TwoWrites(a, a');
    before := s.ReadEntity(a.id);
    CopyAll(s);
    FirstCopied(s.log, s.job.value, s.newLog, a.id, q);
    s.WriteEntity(b);
    assert s.log == [p, q, r] && s.log[..2] == [p, q];
    WrittenThird(s.log, p, q, r, a.id, b.id);
    s.CompactFinish();
    TwoPayloads(s.log, q, r, a.id, b.id);
    SecondPayload(s.file, s.log, q, r);
    after := s.ReadEntity(a.id);
  }

  /** The first phase of a compaction. */
  method CopyAll(s: EntityStore)
    requires s.Valid() && s.job == None
    modifies s
    ensures s.Valid() && s.Sane() && s.job.Some? && s.job.value.todo == map[] && s.logged == |s.log|
            && s.log == old(s.log)
    ensures s.published == old(s.published) && s.offset == old(s.offset) && s.index == old(s.index)
    ensures s.replaced == old(s.replaced) && s.dirty == old(s.dirty)
  {
    hide HoldsLog, LogBytes, IndexOf, ContentOf, Published, JobHolds;
    s.ValidIsSane();
    s.CompactBegin();
    while s.job.value.todo != map[]
      invariant s.Valid() && s.Sane() && s.job.Some? && s.logged == |s.log| && s.log == old(s.log)
      invariant s.published == old(s.published) && s.offset == old(s.offset) && s.index == old(s.index)
      invariant s.replaced == old(s.replaced) && s.dirty == old(s.dirty)
      decreases |s.job.value.todo|
    {
      s.CompactCopy();
    }
  }

  lemma FirstCopied(log: seq<seq<byte>>, j: Job, newLog: seq<seq<byte>>, id: u64, q: seq<byte>)
    requires j.todo == map[] && JobHolds(log, j, |log|, newLog) && ContentOf(log) == map[id := q]
    ensures newLog == [q]
  {
    hide IndexOf, ContentOf, LogBytes, Packed, Among;
    assert log[..|log|] == log;
    assert ContentOf(log) - {} == ContentOf(log);
    OnePayload(newLog, id, q);
  }

  lemma WrittenThird(log: seq<seq<byte>>, p: seq<byte>, q: seq<byte>, r: seq<byte>, id: u64, other: u64)
    requires log == [p, q, r] && PeekId(p) == PeekId(q) == Some(id) && PeekId(r) == Some(other) && id != other
    ensures ContentOf(log) == map[id := q, other := r] && ContentOf(log[..2]) == map[id := q]
    ensures Delta(log, 2) == {other}
  {
    hide LogBytes, PeekId, FrameBytes;
    assert [] + [p] == [p] && [p] + [q] == [p, q] && [p, q] + [r] == log && log[..2] == [p, q];
    Append([], p);
    Append([p], q);
    Append([p, q], r);
    hide IndexOf, ContentOf;
    assert ContentOf([]) == map[] && IndexOf([]) == map[] by { NothingStored(); }
  }

  lemma TwoPayloads(log: seq<seq<byte>>, q: seq<byte>, r: seq<byte>, id: u64, other: u64)
    requires [q] <= log && |log| == 2 && ContentOf(log) == map[id := q, other := r] && id != other
             && PeekId(q) == Some(id)
    ensures log == [q, r]
  {
    hide LogBytes, PeekId, IndexOf, ContentOf;
    assert [] + [q] == [q] && [q] + [log[1]] == log;
    Append([], q);
    Append([q], log[1]);
    NothingStored();
    assert other in ContentOf(log) && ContentOf(log)[other] == log[1];
  }

  lemma SecondPayload(file: seq<byte>, log: seq<seq<byte>>, q: seq<byte>, r: seq<byte>)
    requires HoldsLog(file, log) && log == [q, r]
    ensures FramedAt(file, Span(4 + |q|, |r|), r)
  {
    LogHeld(file, log);
    FrameInLog(file, log, 1);
    assert log[..1] == [q] && |log[1]| < 0x1_0000_0000;
    OneFrame(q);
    hide LogBytes, FrameBytes, At, HoldsLog;
  }

  lemma OneFrame(q: seq<byte>)
    ensures |LogBytes([q])| == 4 + |q|
  {
    assert LogBytes([q]) == FrameBytes(q) + LogBytes([]);
  }

  /// A torn file

  /** A file that holds a length prefix and nothing behind it. The record written next is in
      the index, but the next rebuild does not find it. */
  method TornFileLoses() returns (before: Index, after: Index)
    ensures 7 in before && after == map[]
  {
    hide HoldsLog, LogBytes, SpanIndex, IndexOf, Scan, Overwrite, Payloads, Published, JobHolds, ContentOf;
    var bytes: seq<byte> := [5, 0, 0, 0];
    var item := Item(7, [], [], []);
    TornScan(bytes);
    var s := new EntityStore.Open(bytes);
    s.WriteEntity(item);
    before := s.index;
    var pos;
    after, pos := ScanFile(s.file);
    TornRescan(bytes, s.capacity - 4, s.file, item);
  }

  lemma TornScan(bytes: seq<byte>)
    requires bytes == [5, 0, 0, 0]
    ensures Scan(bytes, 0) == ScanResult([], 4, true)
  {
    assert bytes[0..4] == bytes;
  }

  lemma TornRecord(item: Item<Entries>)
    requires item == Item(7, [], [], [])
    ensures FrameBytes(ItemBytes(item))
            == [20, 0, 0, 0, 7, 0, 0, 0, 0, 0, 0, 0, 0, 0, 0, 0, 0, 0, 0, 0, 0, 0, 0, 0]
  {
    assert Le64(7) == [7, 0, 0, 0, 0, 0, 0, 0];
    assert AttributesBytes([]) == [0, 0, 0, 0];
    assert |ItemBytes(item)| == 20;
    assert Le32(20) == [20, 0, 0, 0];
  }

  lemma TornRescan(bytes: seq<byte>, more: nat, file: seq<byte>, item: Item<Entries>)
    requires bytes == [5, 0, 0, 0] && item == Item(7, [], [], []) && more >= 24
    requires file == Overwrite(bytes + Zeros(more), 4, FrameBytes(ItemBytes(item)))
    ensures SpanIndex(Scan(file, 0).frames) == map[]
  {
    TornBytes(bytes, more, file, item);
    hide ItemBytes, FrameBytes, Overwrite, ZeroFrom;
    ScanStep(file, 0);
    var n := (|file| - 9) / 4;
    ScanZeros(file, 9, n);
    hide Scan;
    PayloadsOfFrames(9, Blanks(n));
    var rest := FramesOf(9, Blanks(n));
    hide FramesOf;
    forall i | 0 <= i < |rest| ensures |rest[i].payload| < 8 {
      assert Payloads(rest)[i] == Blanks(n)[i];
    }
    ShortFrames([Frame(0, file[4..9])] + rest);
  }

  lemma TornBytes(bytes: seq<byte>, more: nat, file: seq<byte>, item: Item<Entries>)
    requires bytes == [5, 0, 0, 0] && item == Item(7, [], [], []) && more >= 24
    requires file == Overwrite(bytes + Zeros(more), 4, FrameBytes(ItemBytes(item)))
    ensures |file| >= 28 && file[0..4] == bytes && FromLe32(file[0..4]) == 5 && ZeroFrom(file, 9)
  {
    TornRecord(item);
    hide ItemBytes, FrameBytes;
  }

  lemma {:induction false} ShortFrames(frames: seq<Frame>)
    requires forall i :: 0 <= i < |frames| ==> |frames[i].payload| < 8
    ensures SpanIndex(frames) == map[]
  {
    if frames == [] {
      assert SpanIndex(frames) == map[];
    } else {
      ShortFrames(frames[..|frames| - 1]);
    }
  }

  /// A malformed command

  /** An insert whose first attribute has a name and no value panics in the decoder. */
  lemma MalformedPanics(buf: seq<byte>)
    requires buf == [0] + [0, 0, 0, 0, 0, 0, 0, 0] + [1, 0, 0, 0] + [0, 0, 0, 0]
    ensures DecodeCommand(buf).Panic?
  {
    assert ReadU64(buf, 1).Ok? && ReadU64(buf, 1).next == 9;
    assert |buf| == 17 && FromLe32([1, 0, 0, 0]) == 1 && FromLe32([0, 0, 0, 0]) == 0;
    assert buf[9..13] == [1, 0, 0, 0] && buf[13..17] == [0, 0, 0, 0];
    assert ReadU32(buf, 9) == Ok(1, 13) && ReadU32(buf, 13) == Ok(0, 17) && ReadU32(buf, 17) == Bad;
    hide ReadU32, ReadU64;
    assert ReadBlob(buf, 13) == Ok(buf[17..17], 17);
    assert DecodeEntry(StrKind, buf, 13).Panic?;
    assert DecodeAttributes(StrKind, buf, 9).Panic?;
  }

  /// A log file that an earlier session left torn

  /** The crash of an earlier session cut the frame of a delete behind its length prefix. In
      the next session, with a synchronous log, the same delete is logged, applied and
      published to readers; a replay of the file then applies nothing. */
  method TornLogLoses() returns (w: Writer)
    ensures w.Valid() && !w.wal.isAsync && w.wal.base == FrameBytes(CommandBytes(Delete(7)))[..4]
    ensures 7 in w.partition.shared && Commands(w.partition.log) == [Delete(7)]
    ensures Recovered(w.wal.written[..w.wal.flushed]) == Replay([], false)
  {
    hide Recovered, Commands, Writes, CommandBytes, FrameBytes, Whole, LogBytes, Loggable;
    hide CommandOf, Resolves;
    hide CacheSound, TraceOk, OrdersOk, Direct, Cells, ItemsEffect, StateAfter, Journalable;
    hide HoldsLog, PayloadsOf;
    DeleteFrame();
    NothingLeft([9, 0, 0, 0]);
    var started := StartSession(false, [9, 0, 0, 0], []);
    w := started;
    DeleteJournalable();
    w.LogBatch([Apply(Delete(7))]);
    DeleteWrites(w.all);
    var panicked := w.ApplyPending([]);
    assert !panicked;
    DeletedResident(w.partition, 7);
    SyncWritten(w.wal.base, w.wal.written, w.wal.appended);
    SwallowedFile(w.wal.written);
    assert w.wal.written[..w.wal.flushed] == w.wal.written;
  }

  lemma DeleteFrame()
    ensures CommandBytes(Delete(7)) == [2, 7, 0, 0, 0, 0, 0, 0, 0]
    ensures FrameBytes(CommandBytes(Delete(7))) == [9, 0, 0, 0, 2, 7, 0, 0, 0, 0, 0, 0, 0]
    ensures FrameBytes(CommandBytes(Delete(7)))[..4] == [9, 0, 0, 0]
  {
    assert Le64(7) == [7, 0, 0, 0, 0, 0, 0, 0];
    assert Le32(9) == [9, 0, 0, 0];
  }

  lemma NothingLeft(file: seq<byte>)
    requires file == [9, 0, 0, 0]
    ensures Recovered(file) == Replay([], false)
  {
    assert file[0..4] == file;
    assert Scan(file, 0).frames == [];
    hide Scan;
    ReplayNone();
  }

  lemma DeleteJournalable()
    ensures Journalable(Apply(Delete(7)))
  {
    forall w: WriteCommand<Entries> | WellTypedCommand(w) && CommandOf(w) == Delete(7)
      ensures |CommandBytes(w)| < 0x1_0000_0000
    {
      assert w == Delete(7);
    }
  }

  lemma DeleteWrites(all: seq<WriteCommand<Entries>>)
    ensures Writes([Apply(Delete(7))]) == [Delete(7)] && CommandsOf([]) == []
    ensures CommandsOf(all) == [Delete(7)] ==> all == [Delete(7)]
  {
    assert [Apply(Delete(7))][..0] == [];
    if CommandsOf(all) == [Delete(7)] {
      assert |all| == 1 && CommandOf(all[0]) == CommandsOf(all)[0];
    }
  }

  lemma {:induction false} DeletedKnown(log: seq<Step>, id: u64)
    requires Delete(id) in Commands(log)
    ensures id in StateAfter(log)
  {
    assert log != [];
    var init, step := log[..|log| - 1], log[|log| - 1];
    assert log == init + [step];
    CommandsStep(init, step);
    StateStep(init, step);
    if Delete(id) in Commands(init) {
      DeletedKnown(init, id);
    } else {
      assert step == Did(Delete(id));
    }
  }

  lemma DeletedResident(p: Partition, id: u64)
    requires p.Idle() && Delete(id) in Commands(p.log)
    ensures id in p.shared
  {
    hide StateAfter, Backed, Commands, ItemsEffect, Direct, Cells, CacheSound, TraceOk, OrdersOk;
    IdleResolves(p);
    DeletedKnown(p.log, id);
  }

  lemma SwallowedBytes(file: seq<byte>)
    requires file == [9, 0, 0, 0] + LogBytes(PayloadsOf([Delete(7)]))
    ensures file == [9, 0, 0, 0, 9, 0, 0, 0, 2, 7, 0, 0, 0, 0, 0, 0, 0]
  {
    hide CommandBytes, FrameBytes, LogBytes;
    DeleteFrame();
    LogOne(CommandBytes(Delete(7)));
    assert PayloadsOf([Delete(7)]) == [CommandBytes(Delete(7))];
  }

  lemma SwallowedScan(file: seq<byte>)
    requires file == [9, 0, 0, 0, 9, 0, 0, 0, 2, 7, 0, 0, 0, 0, 0, 0, 0]
    ensures Scan(file, 0).frames == [Frame(0, file[4..13])] + ([Frame(13, file[17..17])] + [])
  {
    assert FromLe32(file[0..4]) == 9 && FromLe32(file[13..17]) == 0;
    hide FromLe32;
    ScanStep(file, 0);
    ScanStep(file, 13);
    ScanStop(file, 17);
  }

  lemma SwallowedFile(file: seq<byte>)
    requires file == [9, 0, 0, 0] + LogBytes(PayloadsOf([Delete(7)]))
    ensures Recovered(file) == Replay([], false)
  {
    SwallowedBytes(file);
    SwallowedScan(file);
    hide CommandBytes, FrameBytes, LogBytes, PayloadsOf, Scan;
    assert Payloads(Scan(file, 0).frames) == [file[4..13], []];
    NothingReplays(file[4..13]);
  }

  lemma NothingReplays(x: seq<byte>)
    requires |x| == 9 && x[0] == 9
    ensures ReplayOf([x, []]) == Replay([], false)
  {
    assert [x, []][..1] == [x] && [x][..0] == [];
    assert DecodeCommand(x) == Bad && DecodeCommand([]) == Bad;
    assert ReplayOf([]) == Replay([], false);
    assert ReplayOf([x]) == Replay([], false);
  }

  /** A crash cut the frame of an `InsertFast` behind its fixed fields. If the next session
      appends a frame of the length of the missing payload, a replay applies an `InsertFast`
      that nobody wrote, with that frame as its payload, and not the command in it. */
  lemma CutIsCompleted(id: u64, epoch: u32, recordType: u32, payload: seq<byte>, c: WriteCommand<Entries>)
    requires Loggable(c) && |payload| == |FrameBytes(CommandBytes(c))| < 0xFFFF_0000
    ensures var torn := FrameBytes(CommandBytes(InsertFast(id, epoch, recordType, payload)))[..25];
            var frame := FrameBytes(CommandBytes(c));
            Recovered(torn + frame) == Replay([InsertFast(id, epoch, recordType, frame)], false)
  {
    var frame := FrameBytes(CommandBytes(c));
    var ghostly: WriteCommand<Entries> := InsertFast(id, epoch, recordType, frame);
    var torn := FrameBytes(CommandBytes(InsertFast(id, epoch, recordType, payload)))[..25];
    FastFrame(id, epoch, recordType, payload);
    FastFrame(id, epoch, recordType, frame);
    assert torn + frame == FrameBytes(CommandBytes(ghostly));
    assert Loggable(ghostly);
    assert CommandsOf([ghostly]) == [InsertFast(id, epoch, recordType, frame)];
    assert PayloadsOf([ghostly]) == [CommandBytes(ghostly)];
    LogOne(CommandBytes(ghostly));
    NothingRecovered();
    hide CommandBytes, FrameBytes, LogBytes, Recovered, Clean, Loggable, PayloadsOf, CommandsOf;
    WholeFile([], [ghostly]);
    assert [] + (torn + frame) == torn + frame;
  }

  /** Everything before the payload depends on the payload only through its length. */
  function FastHeader(id: u64, epoch: u32, recordType: u32, size: nat): (b: seq<byte>)
    ensures |b| == 25
  {
    Le32(21 + size) + [3] + Le64(id) + Le32(epoch) + Le32(recordType) + Le32(size)
  }

  lemma FastFrame(id: u64, epoch: u32, recordType: u32, payload: seq<byte>)
    ensures FrameBytes(CommandBytes(InsertFast(id, epoch, recordType, payload)))
            == FastHeader(id, epoch, recordType, |payload|) + payload
    ensures |CommandBytes(InsertFast(id, epoch, recordType, payload))| == 21 + |payload|
  {
    hide Le32, Le64;
  }
}
