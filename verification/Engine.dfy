/** The writer thread of one partition (src/engine/partition.rs): batches of commands run
    through a write-back cache, publishing columns before the pointers that lead into them. */
module Engine {
  import opened Options
  import opened Bytes
  import opened Frames
  import opened Codec
  import opened Column
  import opened Records
  import opened Storage

  datatype PartitionCommand = Apply(command: WriteCommand<Attributes>) | InternalLoad(id: u64) | Shutdown

  /// The disk as the engine sees it

  type Disk = map<u64, Item<Attributes>>

  /** Every stored record decodes to an item of its own id. */
  ghost predicate Decodes(stored: map<u64, seq<byte>>, disk: Disk) {
    && stored.Keys == disk.Keys
    && forall id :: id in disk ==> ReadOutcome(stored[id]) == Read(disk[id]) && disk[id].id == id && Proper(disk[id])
  }

  lemma {:induction false} EntriesSize(es: Entries)
    ensures |EntriesBytes(es)| >= |es|
    ensures |EntriesBytes(es)| < 0x1_0000_0000 ==> EntriesFit(es)
  {
    hide Le32;
    if es == [] {
    } else {
      EntriesSize(es[1..]);
      if |EntriesBytes(es)| < 0x1_0000_0000 {
        forall i | 0 <= i < |es| ensures |es[i].name| < 0x1_0000_0000 && es[i].value.Fits() {
          if i > 0 {
            assert es[i] == es[1..][i - 1];
          }
        }
      }
    }
  }

  /** What fits in a frame is read back as it was written. */
  lemma WrittenReads(it: Item<Entries>)
    requires WellTypedItem(it) && |ItemBytes(it)| < 0x1_0000_0000
    ensures ReadOutcome(ItemBytes(it)) == Read(ItemOf(it))
  {
    hide WellTyped, EntriesBytes, EntriesFit, Fits, AttributesOf, DecodeItem, Le32, Le64;
    EntriesSize(it.strs);
    EntriesSize(it.ints);
    EntriesSize(it.blobs);
    FitsOfOrder(StrKind, it.strs);
    FitsOfOrder(IntKind, it.ints);
    FitsOfOrder(BlobKind, it.blobs);
    EntityRoundTripIff(it);
  }

  lemma DecodesWrite(stored: map<u64, seq<byte>>, disk: Disk, it: Item<Entries>, item: Item<Attributes>)
    requires Decodes(stored, disk) && WellTypedItem(it) && ItemOf(it) == item && Proper(item)
    requires |ItemBytes(it)| < 0x1_0000_0000
    ensures Decodes(stored[it.id := ItemBytes(it)], disk[it.id := item])
  {
    WrittenReads(it);
    hide ItemBytes, WellTypedItem, ReadOutcome, Proper;
  }

  /** The items of a block that the disk has, in order of their ids. */
  function Block(disk: Disk, id: u64, blockSize: nat, n: nat): seq<Item<Attributes>>
    requires blockSize > 0
  {
    if n == 0 then []
    else
      var w := WindowId(id, blockSize, n - 1);
      Block(disk, id, blockSize, n - 1) + if w in disk then [disk[w]] else []
  }

  lemma {:induction false} BlockReads(stored: map<u64, seq<byte>>, disk: Disk, id: u64, blockSize: nat, n: nat)
    requires blockSize > 0 && Decodes(stored, disk)
    ensures BlockItems(stored, id, blockSize, n) == Some(Block(disk, id, blockSize, n))
  {
    hide WindowId, ReadOutcome, BlockItems, Proper;
    if n == 0 {
      BlockStep(stored, id, blockSize, 0);
    } else {
      BlockReads(stored, disk, id, blockSize, n - 1);
      BlockStep(stored, id, blockSize, n - 1);
      if WindowId(id, blockSize, n - 1) !in disk {
        assert Block(disk, id, blockSize, n) == Block(disk, id, blockSize, n - 1);
      }
    }
  }

  /** The ids of the two blocks that a cold load fetches. */
  ghost predicate InWindow(id: u64, w: u64, n: nat) {
    exists i :: 0 <= i < n && WindowId(id, BLOCK, i) == w
  }

  const BLOCK: nat := 32

  /** Away from the largest ids the window is 64 ids from an aligned start. */
  lemma WindowIds(id: u64, w: u64)
    requires id < 0xFFFF_FFFF_FFFF_FFC0
    ensures InWindow(id, w, 2 * BLOCK) <==> id / 32 * 32 <= w < id / 32 * 32 + 64
  {
    var start := id / 32 * 32;
    if start <= w < start + 64 {
      assert WindowId(id, BLOCK, w - start) == w;
    }
  }

  lemma WindowStep(id: u64, w: u64, n: nat)
    ensures !InWindow(id, w, 0)
    ensures InWindow(id, w, n + 1) <==> InWindow(id, w, n) || WindowId(id, BLOCK, n) == w
  {
    hide WindowId;
  }

  lemma ItemsNone()
    ensures ItemsEffect([]) == map[]
  {
  }

  /** A cold load gives every id of the window that is on disk its disk record, and touches
      no other id. */
  lemma {:induction false} ColdLoadEffect(disk: Disk, id: u64, n: nat, w: u64)
    requires forall x :: x in disk ==> disk[x].id == x
    ensures w in ItemsEffect(Block(disk, id, BLOCK, n)) <==> w in disk && InWindow(id, w, n)
    ensures w in disk && InWindow(id, w, n) ==> ItemsEffect(Block(disk, id, BLOCK, n))[w] == RecordOf(disk[w])
  {
    hide WindowId, RecordOf, ItemsEffect, InWindow;
    if n == 0 {
      WindowStep(id, w, 0);
      ItemsNone();
    } else {
      var x := WindowId(id, BLOCK, n - 1);
      ColdLoadEffect(disk, id, n - 1, w);
      WindowStep(id, w, n - 1);
      if x in disk {
        ItemsStep(Block(disk, id, BLOCK, n - 1), disk[x]);
      } else {
        assert Block(disk, id, BLOCK, n) == Block(disk, id, BLOCK, n - 1);
      }
    }
  }

  /** A cold load leaves every resident entity as it was exactly when each resident id of
      the window that is on disk has the same record there. */
  lemma ColdLoadPreserves(state: EntityState, disk: Disk, id: u64)
    requires forall x :: x in disk ==> disk[x].id == x
    ensures var after := state + ItemsEffect(Block(disk, id, BLOCK, 2 * BLOCK));
            (forall w :: w in state ==> after[w] == state[w])
            <==> forall w :: w in state && w in disk && InWindow(id, w, 2 * BLOCK) ==> state[w] == RecordOf(disk[w])
  {
    hide RecordOf, ItemsEffect, Block, InWindow;
    var effect := ItemsEffect(Block(disk, id, BLOCK, 2 * BLOCK));
    forall w ensures w in effect <==> w in disk && InWindow(id, w, 2 * BLOCK) {
      ColdLoadEffect(disk, id, 2 * BLOCK, w);
    }
    forall w | w in effect ensures effect[w] == RecordOf(disk[w]) {
      ColdLoadEffect(disk, id, 2 * BLOCK, w);
    }
    if forall w :: w in state ==> (state + effect)[w] == state[w] {
      forall w | w in state && w in disk && InWindow(id, w, 2 * BLOCK) ensures state[w] == RecordOf(disk[w]) {
        assert (state + effect)[w] == effect[w];
      }
    }
  }

  /// What a batch does

  /** The log after one more command. Only a cold load of an entity that is not resident
      reads a block. */
  function LogAfter(log: seq<Step>, c: PartitionCommand, block: seq<Item<Attributes>>): seq<Step> {
    match c
    case Apply(command) => log + [Did(command)]
    case InternalLoad(id) => if id in StateAfter(log) then log else log + [Loaded(block)]
    case Shutdown => log
  }

  /** The log after a sequence of commands, given the block that each of them reads. */
  function RunLog(log: seq<Step>, cs: seq<PartitionCommand>, blocks: seq<seq<Item<Attributes>>>): seq<Step>
    requires |cs| == |blocks|
  {
    if cs == [] then log
    else
      var n := |cs| - 1;
      LogAfter(RunLog(log, cs[..n], blocks[..n]), cs[n], blocks[n])
  }

  /** The block that a command finds through an index that leads to `published`. */
  function BlockOf(published: Disk, c: PartitionCommand): seq<Item<Attributes>> {
    if c.InternalLoad? then Block(published, c.id, BLOCK, 2 * BLOCK) else []
  }

  function Reads(published: Disk, cs: seq<PartitionCommand>): (blocks: seq<seq<Item<Attributes>>>)
    ensures |blocks| == |cs|
  {
    seq(|cs|, i requires 0 <= i < |cs| => BlockOf(published, cs[i]))
  }

  /** What the compaction thread does before a command, or at the end of a batch, and while a
      command runs: before each item of a write, or before each read of a load. */
  datatype Meanwhile = Meanwhile(before: seq<Compaction>, within: seq<seq<Compaction>>)

  const NOTHING := Meanwhile([], [])

  ghost predicate NoFinish(background: seq<Meanwhile>) {
    forall i :: 0 <= i < |background| ==> Quiet(background[i].before) && AllQuiet(background[i].within)
  }

  /** The disk after items have been inserted. */
  function Stored(disk: Disk, items: seq<Item<Attributes>>): Disk {
    if items == [] then disk
    else
      var last := items[|items| - 1];
      Stored(disk, items[..|items| - 1])[last.id := last]
  }

  lemma StoredStep(disk: Disk, items: seq<Item<Attributes>>, item: Item<Attributes>)
    ensures Stored(disk, items + [item]) == Stored(disk, items)[item.id := item]
  {
    assert (items + [item])[..|items|] == items;
  }

  lemma {:induction false} StoredConcat(disk: Disk, a: seq<Item<Attributes>>, b: seq<Item<Attributes>>)
    ensures Stored(disk, a + b) == Stored(Stored(disk, a), b)
  {
    if b == [] {
      assert a + b == a;
    } else {
      var init, last := b[..|b| - 1], b[|b| - 1];
      StoredConcat(disk, a, init);
      assert a + b == a + init + [last];
      StoredStep(disk, a + init, last);
    }
  }

  /** The items that a command inserts, and those that a batch inserts. */
  function InsertsOf(c: PartitionCommand): seq<Item<Attributes>> {
    if c.Apply? then InsertedBy(Did(c.command)) else []
  }

  function Inserts(cs: seq<PartitionCommand>): seq<Item<Attributes>> {
    if cs == [] then [] else Inserts(cs[..|cs| - 1]) + InsertsOf(cs[|cs| - 1])
  }

  lemma InsertsStep(cs: seq<PartitionCommand>, i: nat)
    requires i < |cs|
    ensures Inserts(cs[..i + 1]) == Inserts(cs[..i]) + InsertsOf(cs[i])
  {
    hide InsertsOf;
    assert cs[..i + 1][..i] == cs[..i];
  }

  /** What the types guarantee of a command. */
  ghost predicate Admissible(c: PartitionCommand) {
    AllProper(InsertsOf(c))
  }

  ghost predicate AllProper(items: seq<Item<Attributes>>) {
    forall i :: 0 <= i < |items| ==> Proper(items[i])
  }

  ghost predicate AllStorable(items: seq<Item<Attributes>>) {
    forall i :: 0 <= i < |items| ==> Storable(items[i])
  }

  /** The records of a batch are shorter than 4 GiB when encoded. */
  ghost predicate StorableBatch(cs: seq<PartitionCommand>) {
    forall i :: 0 <= i < |cs| ==> AllStorable(InsertsOf(cs[i]))
  }

  /// The cached columns

  datatype Placed = Placed(rows: Rows, waitlist: seq<nat>, idx: nat)

  /** A cell goes to a row from the waitlist, or to the end. */
  function Place(rows: Rows, waitlist: seq<nat>, v: Value): Placed {
    if waitlist != [] then
      var i := waitlist[|waitlist| - 1];
      Placed(RowsSet(rows, i, v), waitlist[..|waitlist| - 1], i)
    else
      Placed(RowsPushed(rows, v), waitlist, |rows|)
  }

  /** The cell is where its index says and nothing else has moved; a waiting row is used up,
      the last one first. */
  lemma PlaceExact(rows: Rows, waitlist: seq<nat>, v: Value)
    ensures var p := Place(rows, waitlist, v);
            && p.idx < |p.rows| && p.rows[p.idx] == Some(v) && |rows| <= |p.rows|
            && (if waitlist == [] then p.idx == |rows| && p.waitlist == [] else waitlist == p.waitlist + [p.idx])
            && forall i :: 0 <= i < |p.rows| && i != p.idx ==> p.rows[i] == if i < |rows| then rows[i] else None
  {
  }

  /** The first cell may be pushed before its column is there as well as after. */
  lemma PushedOnNew(c: Columns, e: Attr)
    ensures KeyOf(e) !in c ==> Pushed(c[KeyOf(e) := []], e) == Pushed(c, e)
    ensures KeyOf(e) !in c ==> RowsIn(c[KeyOf(e) := []], KeyOf(e)) == RowsIn(c, KeyOf(e))
  {
  }

  type Waits = map<ColKey, seq<nat>>

  /** A column's guard is held exactly while it is cached, no waitlist holds a row, and what
      is cached extends what is published. */
  ghost predicate CacheSound(data: Columns, waitlists: Waits, guarded: set<ColKey>, cached: Columns,
      cachedWaits: Waits) {
    && waitlists.Keys == data.Keys && AllEmpty(waitlists)
    && cachedWaits.Keys == cached.Keys && AllEmpty(cachedWaits)
    && guarded == cached.Keys && cached.Keys <= data.Keys
    && (forall k :: k in cached ==> data[k] <= cached[k])
  }

  ghost predicate AllEmpty(waits: Waits) {
    forall k :: k in waits ==> waits[k] == []
  }

  lemma CacheCreate(data: Columns, waitlists: Waits, guarded: set<ColKey>, cached: Columns, cachedWaits: Waits,
      k: ColKey)
    requires k !in data && CacheSound(data, waitlists, guarded, cached, cachedWaits)
    ensures CacheSound(data[k := []], waitlists[k := []], guarded, cached, cachedWaits)
    ensures data[k := []] + cached == (data + cached)[k := []] && Grows(data, data[k := []])
  {
  }

  lemma NothingCached(data: Columns, waitlists: Waits, guarded: set<ColKey>, cached: Columns, cachedWaits: Waits)
    requires CacheSound(data, waitlists, guarded, cached, cachedWaits) && cached == map[]
    ensures guarded == {} && cachedWaits == map[] && data + cached == data
  {
  }

  lemma CacheOpen(data: Columns, waitlists: Waits, guarded: set<ColKey>, cached: Columns, cachedWaits: Waits, k: ColKey)
    requires k in data && k !in cached && CacheSound(data, waitlists, guarded, cached, cachedWaits)
    ensures k in waitlists && k !in guarded
    ensures CacheSound(data, waitlists, guarded + {k}, cached[k := data[k]], cachedWaits[k := waitlists[k]])
    ensures data + cached[k := data[k]] == data + cached
  {
  }

  lemma CachePush(data: Columns, waitlists: Waits, guarded: set<ColKey>, cached: Columns, cachedWaits: Waits, e: Attr)
    requires KeyOf(e) in cached && CacheSound(data, waitlists, guarded, cached, cachedWaits)
    ensures KeyOf(e) in cachedWaits
    ensures var k := KeyOf(e);
            var placed := Place(cached[k], cachedWaits[k], e.value);
            && CacheSound(data, waitlists, guarded, cached[k := placed.rows], cachedWaits[k := placed.waitlist])
            && data + cached[k := placed.rows] == Pushed(data + cached, e)
            && placed.idx == |RowsIn(data + cached, k)|
  {
    var k := KeyOf(e);
    assert cachedWaits[k] == [];
    assert data[k] <= cached[k] <= RowsPushed(cached[k], e.value);
  }

  lemma CacheFlush(data: Columns, waitlists: Waits, guarded: set<ColKey>, cached: Columns, cachedWaits: Waits,
      k: ColKey)
    requires k in cached && CacheSound(data, waitlists, guarded, cached, cachedWaits)
    ensures k in data && k in cachedWaits && Grows(data, data[k := cached[k]])
    ensures CacheSound(data[k := cached[k]], waitlists[k := cachedWaits[k]], guarded - {k}, cached - {k},
                cachedWaits - {k})
    ensures data[k := cached[k]] + (cached - {k}) == data + cached
  {
  }

  class Partition {
    /** The columns map, and the data, waitlist and write guard of each column. */
    var data: Columns
    var waitlists: map<ColKey, seq<nat>>
    var guarded: set<ColKey>
    /** The pointer map that readers load. */
    var shared: Pointers
    /** While a batch runs: `next_pointers`, and the rows and waitlists in `BatchMutCache`. */
    var next: Pointers
    var cached: Columns
    var cachedWaits: map<ColKey, seq<nat>>
    const storage: EntityStore
    /** The steps taken, the items that the command under way has inserted, and the iteration
        orders of all items so far. */
    ghost var log: seq<Step>
    ghost var partial: seq<Item<Attributes>>
    ghost var orders: seq<Item<Entries>>
    /** The number of steps that `shared` stands for, and all that was ever published. */
    ghost var prefix: nat
    ghost var trace: seq<Snap>
    /** What the disk holds, and what the published disk index leads to. */
    ghost var disk: Disk
    ghost var published: Disk

    /** The columns as the writer sees them. */
    ghost function Working(): Columns
      reads this
    {
      data + cached
    }

    ghost predicate CacheOk()
      reads this
    {
      CacheSound(data, waitlists, guarded, cached, cachedWaits)
    }

    /** The last moment of the trace is now. */
    ghost predicate TraceNow()
      reads this
    {
      && TraceOk(trace, log) && trace != [] && trace[|trace| - 1] == Snap(shared, data, prefix)
    }

    /** The pointers and columns being built stand for the steps so far, and the columns are
        what direct appends would give. */
    ghost predicate Building()
      reads this
    {
      && Resolves(next, Working(), StateAfter(log) + ItemsEffect(partial))
      && Working() == Direct(Cells(orders)) && OrdersOk(orders, log, partial)
    }

    /** What readers rely on. It does not depend on the storage. */
    ghost predicate Coherent()
      reads this
    {
      CacheOk() && TraceNow() && Building()
    }

    ghost predicate Valid()
      reads this, storage
    {
      Coherent() && storage.Sane()
    }

    /** Between two batches everything is published and every guard is free. */
    ghost predicate Idle()
      reads this, storage
    {
      Valid() && next == shared && cached == map[] && guarded == {} && partial == [] && prefix == |log|
    }

    /** The storage holds the items of `disk`, and the published index leads to those of
        `published` unless a compaction has replaced the file since. */
    ghost predicate StoreOk()
      reads this, storage
    {
      && storage.Valid() && Decodes(storage.Latest(), disk)
      && (!storage.replaced ==> Decodes(storage.snapshot, published))
    }

    /** `Partition::new`, whatever the storage holds. */
    constructor (storage: EntityStore, ghost disk: Disk)
      requires storage.Sane()
      ensures Idle() && this.storage == storage && log == [] && this.disk == disk && published == map[]
      ensures data == map[] && orders == [] && trace == [Snap(map[], map[], 0)]
      ensures storage.Valid() && Decodes(storage.Latest(), disk) && storage.snapshot == map[] ==> StoreOk()
    {
      hide HoldsLog, LogBytes, IndexOf, ContentOf, Published, JobHolds;
      this.storage := storage;
      data, waitlists, guarded, shared := map[], map[], {}, map[];
      next, cached, cachedWaits := map[], map[], map[];
      log, partial, orders, prefix, trace := [], [], [], 0, [Snap(map[], map[], 0)];
      this.disk, published := disk, map[];
    }

    /** `acquire_lock`: a guard that is already held is a panic. */
    method AcquireLock(k: ColKey) returns (panicked: bool)
      modifies this`guarded
      ensures panicked <==> k in old(guarded)
      ensures guarded == old(guarded) + {k}
    {
      panicked := k in guarded;
      guarded := guarded + {k};
    }

    /** `get_or_create_column_*`: a new column is published before anything is in it. */
    method GetOrCreateColumn(k: ColKey)
      requires CacheOk() && TraceNow()
      modifies this`data, this`waitlists, this`trace
      ensures CacheOk() && TraceNow() && old(trace) <= trace && k in data
      ensures Working() == if k in old(data) then old(Working()) else old(Working())[k := []]
    {
      hide TraceOk, CacheSound, Grows;
      if k !in data {
        ghost var before := data;
        CacheCreate(data, waitlists, guarded, cached, cachedWaits, k);
        data, waitlists := data[k := []], waitlists[k := []];
        PublishColumns(before, data, shared, prefix, trace, log);
        trace := trace + [Snap(shared, data, prefix)];
      }
    }

    /** The first use of a column in a batch: its guard is never held already. */
    method OpenColumn(k: ColKey)
      requires CacheOk() && TraceNow() && k !in cached
      modifies this`data, this`waitlists, this`guarded, this`cached, this`cachedWaits, this`trace
      ensures CacheOk() && TraceNow() && old(trace) <= trace && k in cached
      ensures Working() == if k in old(data) then old(Working()) else old(Working())[k := []]
    {
      hide TraceOk, CacheSound;
      GetOrCreateColumn(k);
      CacheOpen(data, waitlists, guarded, cached, cachedWaits, k);
      var panicked := AcquireLock(k);
      assert !panicked;
      cached, cachedWaits := cached[k := data[k]], cachedWaits[k := waitlists[k]];
    }

    /** `insert_into_cached_*`: the cell always goes to the end, because no waitlist ever
        holds a row. */
    method InsertCached(e: Attr) returns (idx: nat)
      requires CacheOk() && TraceNow()
      modifies this`data, this`waitlists, this`guarded, this`cached, this`cachedWaits, this`trace
      ensures CacheOk() && TraceNow() && old(trace) <= trace
      ensures Working() == Pushed(old(Working()), e) && idx == |RowsIn(old(Working()), KeyOf(e))|
    {
      hide TraceOk, Pushed, CacheSound, Place, KeyOf, RowsIn;
      var k := KeyOf(e);
      PushedOnNew(data + cached, e);
      if k !in cached {
        assert k in Working() <==> k in data;
        OpenColumn(k);
      }
      CachePush(data, waitlists, guarded, cached, cachedWaits, e);
      var placed := Place(cached[k], cachedWaits[k], e.value);
      cached, cachedWaits := cached[k := placed.rows], cachedWaits[k := placed.waitlist];
      idx := placed.idx;
    }

    /** One of the three loops of an insert. */
    method InsertEntries(es: Entries, start: map<Name, nat>, ghost record: Record) returns (indices: map<Name, nat>)
      requires CacheOk() && TraceNow() && Backed(start, Working(), record)
      modifies this`data, this`waitlists, this`guarded, this`cached, this`cachedWaits, this`trace
      ensures CacheOk() && TraceNow() && old(trace) <= trace
      ensures Working() == DirectOn(old(Working()), es) && Backed(indices, Working(), AddAll(record, es))
    {
      hide CacheSound, TraceOk, Backed, AddAll, DirectOn, Pushed;
      indices := start;
      ghost var before := Working();
      EntriesNone(before, record, es);
      for i := 0 to |es|
        invariant CacheOk() && TraceNow() && old(trace) <= trace
        invariant Working() == DirectOn(before, es[..i]) && Backed(indices, Working(), AddAll(record, es[..i]))
      {
        assert es[..i + 1] == es[..i] + [es[i]];
        BackedAdd(indices, Working(), AddAll(record, es[..i]), es[i]);
        AddAllStep(record, es[..i], es[i]);
        DirectStep(before, es[..i], es[i]);
        var idx := InsertCached(es[i]);
        indices := indices[es[i].name := idx];
      }
      assert es[..|es|] == es;
    }

    /** The common part of `process_insert` and `process_promote`: the cells are appended, and
        the entity is pointed at them. */
    method InsertRecord(item: Item<Attributes>) returns (ptr: Pointer)
      requires CacheOk() && TraceNow() && Building() && Proper(item)
      modifies this`data, this`waitlists, this`guarded, this`cached, this`cachedWaits, this`trace, this`next
      modifies this`partial, this`orders
      ensures CacheOk() && TraceNow() && Building() && old(trace) <= trace && old(orders) <= orders
      ensures partial == old(partial) + [item] && next == old(next)[item.id := ptr] && ptr.id == item.id
    {
      hide CacheSound, TraceOk, Backed, AddAll, DirectOn, Resolves, StateAfter, ItemsEffect;
      hide RecordOf, OrdersOk, Cells, CellsOf;
      var it := OrderItem(item);
      ghost var before := Working();
      BackedNone(before);
      var strs := InsertEntries(it.strs, map[], map[]);
      var ints := InsertEntries(it.ints, strs, AddAll(map[], it.strs));
      var indices := InsertEntries(it.blobs, ints, AddAll(AddAll(map[], it.strs), it.ints));
      RecordFromOrder(it);
      ptr := Pointer(item.id, indices);
      BuildingInsert(next, before, Working(), log, partial, orders, it, indices);
      next := next[item.id := ptr];
      partial, orders := partial + [item], orders + [it];
    }

    /** `process_insert`. */
    method ProcessInsert(item: Item<Attributes>)
      requires Valid() && Proper(item)
      modifies this`data, this`waitlists, this`guarded, this`cached, this`cachedWaits, this`trace, this`next
      modifies this`partial, this`orders, this`disk, storage
      ensures Valid() && old(trace) <= trace && old(orders) <= orders && partial == old(partial) + [item]
      ensures disk == old(disk)[item.id := item] && storage.dirty && storage.replaced == old(storage.replaced)
      ensures old(StoreOk()) && Storable(item) ==> StoreOk()
    {
      hide CacheSound, TraceOk, Resolves, OrdersOk, Decodes, StateAfter, ItemsEffect, Direct, Cells;
      hide ItemBytes, WellTypedItem;
      hide HoldsLog, LogBytes, FrameBytes, IndexOf, ContentOf, Published, JobHolds, Overwrite, Proper;
      ghost var ok := StoreOk() && Storable(item);
      var _ := InsertRecord(item);
      var entity := OrderItem(item);
      if ok {
        assert |ItemBytes(entity)| < 0x1_0000_0000;
        DecodesWrite(storage.Latest(), disk, entity, item);
      }
      storage.WriteEntity(entity);
      disk := disk[item.id := item];
    }

    /** `Delete`: the entity is pointed at an empty record. */
    method ProcessDelete(id: u64)
      requires CacheOk() && TraceNow() && Building() && partial == []
      modifies this`next, this`log
      ensures CacheOk() && TraceNow() && Building()
      ensures log == old(log) + [Did(Delete(id))] && id in next
    {
      hide CacheSound, TraceOk, Resolves, Backed, OrdersOk, StateAfter, ItemsEffect, Direct, Cells;
      BackedNone(Working());
      BuildingDelete(next, Working(), log, orders, id);
      TraceKept(trace, log, Did(Delete(id)));
      next := next[id := Pointer(id, map[])];
      log := log + [Did(Delete(id))];
    }

    /** The command under way is done. */
    ghost method FinishStep(step: Step)
      requires TraceNow() && Building() && partial == InsertedBy(step) && !(step.Did? && step.command.Delete?)
      modifies this`log, this`partial
      ensures TraceNow() && Building() && log == old(log) + [step] && partial == []
    {
      hide TraceOk, Resolves, OrdersOk, StateAfter, ItemsEffect, Direct, Cells;
      BuildingFinish(next, Working(), log, orders, step);
      TraceKept(trace, log, step);
      log, partial := log + [step], [];
    }

    /** One column of a flush: its waitlist and then its data are swapped in, and its guard is
        released. */
    method FlushColumn(k: ColKey)
      requires CacheOk() && TraceNow() && k in cached
      modifies this`data, this`waitlists, this`guarded, this`cached, this`cachedWaits, this`trace
      ensures CacheOk() && TraceNow() && old(trace) <= trace
      ensures Working() == old(Working()) && cached.Keys == old(cached).Keys - {k}
    {
      hide TraceOk, CacheSound, Grows;
      CacheFlush(data, waitlists, guarded, cached, cachedWaits, k);
      ghost var before := data;
      waitlists := waitlists[k := cachedWaits[k]];
      data := data[k := cached[k]];
      PublishColumns(before, data, shared, prefix, trace, log);
      trace := trace + [Snap(shared, data, prefix)];
      guarded := guarded - {k};
      cached, cachedWaits := cached - {k}, cachedWaits - {k};
    }

    /** One of the three loops of `flush`, in whatever order the cache is iterated. */
    method FlushKind(kind: Kind)
      requires CacheOk() && TraceNow()
      modifies this`data, this`waitlists, this`guarded, this`cached, this`cachedWaits, this`trace
      ensures CacheOk() && TraceNow() && old(trace) <= trace && Working() == old(Working())
      ensures cached.Keys == set k | k in old(cached).Keys && k.kind != kind
    {
      hide TraceOk, CacheSound;
      var todo := set k | k in cached && k.kind == kind;
      while todo != {}
        invariant CacheOk() && TraceNow() && old(trace) <= trace && Working() == old(Working())
        invariant todo <= cached.Keys <= old(cached).Keys
        invariant forall k :: k in old(cached) ==> (k in cached <==> k.kind != kind || k in todo)
        invariant forall k :: k in todo ==> k.kind == kind
        decreases |todo|
      {
        var k :| k in todo;
        FlushColumn(k);
        todo := todo - {k};
      }
    }

    /** `BatchMutCache::flush`: afterwards what is published is what was cached, and every
        guard is free. */
    method Flush()
      requires CacheOk() && TraceNow()
      modifies this`data, this`waitlists, this`guarded, this`cached, this`cachedWaits, this`trace
      ensures CacheOk() && TraceNow() && old(trace) <= trace
      ensures Working() == old(Working()) == data && cached == map[] && guarded == {}
    {
      hide TraceOk, CacheSound;
      FlushKind(StrKind);
      FlushKind(IntKind);
      FlushKind(BlobKind);
      assert cached.Keys == {};
      NothingCached(data, waitlists, guarded, cached, cachedWaits);
    }

    /** The pointer swap: from now on readers see every step so far. */
    method PublishPointers()
      requires TraceNow() && Building() && partial == [] && cached == map[]
      modifies this`shared, this`prefix, this`trace
      ensures TraceNow() && shared == next && prefix == |log|
      ensures trace == old(trace) + [Snap(next, data, |log|)]
    {
      hide Resolves, TraceOk, StateAfter, ItemsEffect, Direct, Cells, OrdersOk, Grows;
      PublishNext(next, data, trace, log);
      shared, prefix := next, |log|;
      trace := trace + [Snap(shared, data, prefix)];
    }

    /** A write command. */
    method ProcessWrite(command: WriteCommand<Attributes>, within: seq<seq<Compaction>>)
      requires Valid() && partial == [] && Admissible(Apply(command))
      modifies this`data, this`waitlists, this`guarded, this`cached, this`cachedWaits, this`trace, this`next
      modifies this`partial, this`orders, this`disk, this`log, storage
      ensures Valid() && old(trace) <= trace && old(orders) <= orders && partial == []
      ensures log == old(log) + [Did(command)] && disk == Stored(old(disk), InsertedBy(Did(command)))
      ensures AllQuiet(within) ==> storage.replaced == old(storage.replaced)
      ensures storage.dirty == (old(storage.dirty) || InsertedBy(Did(command)) != [])
      ensures old(StoreOk()) && AllStorable(InsertedBy(Did(command))) ==> StoreOk()
    {
      hide CacheSound, TraceOk, Resolves, OrdersOk, Decodes, StateAfter, ItemsEffect, Direct, Cells;
      hide Proper, Storable, Stored, AllQuiet;
      hide HoldsLog, LogBytes, FrameBytes, IndexOf, ContentOf, Published, JobHolds;
      var items: seq<Item<Attributes>>;
      match command {
        case Delete(id) =>
          StoredNone(disk, []);
          ProcessDelete(id);
          return;
        case Insert(item) =>
          items := [item];
        case BatchInsert(batch) =>
          items := batch;
        case InsertFast(id, epoch, recordType, payload) =>
          items := [FastItem(id, epoch, recordType, payload)];
      }
      assert items == InsertedBy(Did(command));
      ProcessItems(items, within);
      FinishStep(Did(command));
    }

    /** The items of one command, one after the other. */
    method ProcessItems(items: seq<Item<Attributes>>, within: seq<seq<Compaction>>)
      requires Valid() && partial == [] && AllProper(items)
      modifies this`data, this`waitlists, this`guarded, this`cached, this`cachedWaits, this`trace, this`next
      modifies this`partial, this`orders, this`disk, storage
      ensures Valid() && old(trace) <= trace && old(orders) <= orders && partial == items
      ensures disk == Stored(old(disk), items) && (AllQuiet(within) ==> storage.replaced == old(storage.replaced))
      ensures storage.dirty == (old(storage.dirty) || items != [])
      ensures old(StoreOk()) && AllStorable(items) ==> StoreOk()
    {
      hide CacheSound, TraceOk, Resolves, OrdersOk, Decodes, StateAfter, ItemsEffect, Direct, Cells;
      hide Proper, Storable, Stored, Quiet;
      hide HoldsLog, LogBytes, FrameBytes, IndexOf, ContentOf, Published, JobHolds;
      ghost var ok := StoreOk() && AllStorable(items);
      StoredNone(disk, items);
      for i := 0 to |items|
        invariant Valid() && old(trace) <= trace && old(orders) <= orders && partial == items[..i]
        invariant disk == Stored(old(disk), items[..i])
        invariant AllQuiet(within) ==> storage.replaced == old(storage.replaced)
        invariant storage.dirty == (old(storage.dirty) || i > 0)
        invariant ok ==> StoreOk()
      {
        if i < |within| {
          RunBackground(within[i]);
        }
        assert items[..i + 1] == items[..i] + [items[i]];
        StoredStep(old(disk), items[..i], items[i]);
        ProcessInsert(items[i]);
      }
      assert items[..|items|] == items;
    }

    /** `InternalLoad`: an entity that is resident is only published; otherwise whatever the
        published disk index has of its two blocks is promoted first. A read that panics ends
        the writer thread. */
    method ProcessLoad(id: u64, within: seq<seq<Compaction>>)
      returns (response: Option<Pointer>, panicked: bool, ghost block: seq<Item<Attributes>>)
      requires Valid() && partial == []
      modifies this`data, this`waitlists, this`guarded, this`cached, this`cachedWaits, this`trace, this`next
      modifies this`partial, this`orders, this`log, this`shared, this`prefix, storage
      ensures Valid() && old(trace) <= trace && old(orders) <= orders && partial == []
      ensures panicked ==> log == old(log)
      ensures !panicked ==>
                && cached == map[] && guarded == {} && shared == next && prefix == |log|
                && log == LogAfter(old(log), InternalLoad(id), block)
                && response == if id in shared then Some(shared[id]) else None
      ensures (old(StoreOk()) ==> StoreOk()) && (old(storage.dirty) ==> storage.dirty)
      ensures AllQuiet(within) ==> storage.replaced == old(storage.replaced) && storage.dirty == old(storage.dirty)
      ensures old(StoreOk()) && !old(storage.replaced) && AllQuiet(within) ==>
                !panicked && block == Block(published, id, BLOCK, 2 * BLOCK)
    {
      hide Coherent, StateAfter, Block, LogAfter, AllQuiet, Decodes, HoldsLog, IndexOf, ContentOf, Published;
      hide JobHolds;
      block, panicked := Block(published, id, BLOCK, 2 * BLOCK), false;
      Resident();
      if id in next {
        response := Some(next[id]);
      } else {
        response, panicked, block := LoadCold(id, within);
        if panicked {
          return;
        }
      }
      LoadStep(old(next).Keys, old(log), id, block);
      FlushAndPublish();
    }

    lemma Resident()
      requires Coherent() && partial == []
      ensures next.Keys == StateAfter(log).Keys
    {
      hide CacheSound, TraceOk, Resolves, OrdersOk, StateAfter, ItemsEffect, Direct, Cells;
      ResidentIds(next, Working(), log);
    }

    /** The promotion of an entity that is not resident. */
    method LoadCold(id: u64, within: seq<seq<Compaction>>)
      returns (response: Option<Pointer>, panicked: bool, ghost block: seq<Item<Attributes>>)
      requires Valid() && partial == [] && id !in next
      modifies this`data, this`waitlists, this`guarded, this`cached, this`cachedWaits, this`trace, this`next
      modifies this`partial, this`orders, this`log, storage
      ensures Valid() && old(trace) <= trace && old(orders) <= orders && partial == []
      ensures panicked ==> log == old(log)
      ensures !panicked ==> log == old(log) + [Loaded(block)] && response == if id in next then Some(next[id]) else None
      ensures (old(StoreOk()) ==> StoreOk()) && (old(storage.dirty) ==> storage.dirty)
      ensures AllQuiet(within) ==> storage.replaced == old(storage.replaced) && storage.dirty == old(storage.dirty)
      ensures old(StoreOk()) && !old(storage.replaced) && AllQuiet(within) ==>
                !panicked && block == Block(published, id, BLOCK, 2 * BLOCK)
    {
      hide CacheSound, TraceOk, Resolves, OrdersOk, Decodes, StateAfter, ItemsEffect, Direct, Cells;
      hide Proper, Block, AllQuiet;
      hide HoldsLog, LogBytes, FrameBytes, IndexOf, ContentOf, Published, JobHolds;
      var found := LoadBlock(id, within);
      response, panicked, block := None, found.None?, if found.Some? then found.value else [];
      if found.Some? {
        response := Promote(found.value, id);
        FinishStep(Loaded(found.value));
      }
    }

    /** Everything done so far is published: the columns first, the pointers last. */
    method FlushAndPublish()
      requires Coherent() && partial == []
      modifies this`data, this`waitlists, this`guarded, this`cached, this`cachedWaits, this`trace
      modifies this`shared, this`prefix
      ensures Coherent() && old(trace) <= trace
      ensures cached == map[] && guarded == {} && shared == next && prefix == |log|
    {
      hide CacheSound, TraceOk, Resolves, OrdersOk, StateAfter, ItemsEffect, Direct, Cells;
      Flush();
      PublishPointers();
    }

    /** The promotion loop of a cold load. */
    method Promote(block: seq<Item<Attributes>>, id: u64) returns (target: Option<Pointer>)
      requires CacheOk() && TraceNow() && Building() && partial == [] && id !in next
      requires forall i :: 0 <= i < |block| ==> Proper(block[i])
      modifies this`data, this`waitlists, this`guarded, this`cached, this`cachedWaits, this`trace, this`next
      modifies this`partial, this`orders
      ensures CacheOk() && TraceNow() && Building() && old(trace) <= trace && old(orders) <= orders && partial == block
      ensures target == if id in next then Some(next[id]) else None
    {
      hide CacheSound, TraceOk, Resolves, OrdersOk, StateAfter, ItemsEffect, Direct, Cells, Proper;
      target := None;
      for i := 0 to |block|
        invariant CacheOk() && TraceNow() && Building() && old(trace) <= trace && old(orders) <= orders
                  && partial == block[..i]
        invariant target == if id in next then Some(next[id]) else None
      {
        assert block[..i + 1] == block[..i] + [block[i]];
        var ptr := InsertRecord(block[i]);
        if ptr.id == id {
          target := Some(ptr);
        }
      }
      assert block[..|block|] == block;
    }

    /** `read_block`. It finds what the published index leads to, unless the file has been
        replaced; whatever it finds has been decoded. */
    method LoadBlock(id: u64, within: seq<seq<Compaction>>) returns (items: Option<seq<Item<Attributes>>>)
      requires storage.Sane()
      modifies storage
      ensures storage.Sane() && (old(StoreOk()) ==> StoreOk()) && (old(storage.dirty) ==> storage.dirty)
      ensures AllQuiet(within) ==> storage.replaced == old(storage.replaced) && storage.dirty == old(storage.dirty)
      ensures old(StoreOk()) && !old(storage.replaced) && AllQuiet(within) ==>
                items == Some(Block(published, id, BLOCK, 2 * BLOCK))
      ensures items.Some? ==> AllProper(items.value)
    {
      hide BlockItems, Block, HoldsLog, Published, JobHolds, Proper, ReadOutcome, IndexOf, ContentOf;
      hide LogBytes, Decodes, AllQuiet;
      if StoreOk() && !storage.replaced {
        BlockReads(storage.snapshot, published, id, BLOCK, 2 * BLOCK);
      }
      items := storage.ReadBlock(id, BLOCK, within);
      if items.Some? {
        forall i | 0 <= i < |items.value| ensures Proper(items.value[i]) {
          ReadProper(items.value[i]);
        }
      }
    }

    /** Steps of the compaction thread. They touch nothing that readers of the partition see. */
    method RunBackground(ops: seq<Compaction>)
      requires storage.Sane()
      modifies storage
      ensures storage.Sane() && (old(storage.dirty) ==> storage.dirty)
      ensures old(StoreOk()) ==> StoreOk()
      ensures Quiet(ops) ==> storage.replaced == old(storage.replaced) && storage.dirty == old(storage.dirty)
      ensures old(storage.Valid()) ==> storage.Abs() == AbstractRun(old(storage.Abs()), Compactings(ops))
    {
      hide AbstractRun;
      hide Decodes, HoldsLog, LogBytes, IndexOf, ContentOf, Published, JobHolds, Quiet;
      storage.CompactSome(ops);
    }

    /** One command of a batch, and the block it reads. */
    method RunCommand(c: PartitionCommand, within: seq<seq<Compaction>>)
      returns (panicked: bool, ghost block: seq<Item<Attributes>>)
      requires Valid() && partial == [] && Admissible(c)
      modifies this`data, this`waitlists, this`guarded, this`cached, this`cachedWaits, this`trace, this`next
      modifies this`partial, this`orders, this`disk, this`log, this`shared, this`prefix, storage
      ensures Valid() && partial == [] && old(trace) <= trace && old(orders) <= orders
      ensures if panicked then c.InternalLoad? && log == old(log) else log == LogAfter(old(log), c, block)
      ensures disk == Stored(old(disk), InsertsOf(c)) && (c.InternalLoad? ==> disk == old(disk))
      ensures old(storage.dirty) || InsertsOf(c) != [] ==> storage.dirty
      ensures AllQuiet(within) ==>
                && storage.replaced == old(storage.replaced)
                && storage.dirty == (old(storage.dirty) || InsertsOf(c) != [])
      ensures old(StoreOk()) && AllStorable(InsertsOf(c)) ==> StoreOk()
      ensures old(StoreOk()) && !old(storage.replaced) && AllQuiet(within) ==>
                !panicked && block == BlockOf(published, c)
    {
      hide Coherent, StoreOk, StateAfter, Stored, Admissible, InsertedBy, Block, AllStorable, AllQuiet;
      panicked, block := false, [];
      StoredNone(disk, []);
      match c {
        case Apply(command) =>
          ProcessWrite(command, within);
        case InternalLoad(id) =>
          var response;
          response, panicked, block := ProcessLoad(id, within);
        case Shutdown =>
      }
    }

    /** The loop of `apply_batch_commands`, with what the compaction thread does meanwhile.
        `done` commands are executed, each reading its block; only a load can panic. */
    method RunCommands(commands: seq<PartitionCommand>, background: seq<Meanwhile>)
      returns (panicked: bool, ghost done: nat, ghost blocks: seq<seq<Item<Attributes>>>)
      requires Valid() && partial == [] && forall i :: 0 <= i < |commands| ==> Admissible(commands[i])
      modifies this`data, this`waitlists, this`guarded, this`cached, this`cachedWaits, this`trace, this`next
      modifies this`partial, this`orders, this`disk, this`log, this`shared, this`prefix, storage
      ensures Valid() && partial == [] && old(trace) <= trace && old(orders) <= orders
      ensures |blocks| == done <= |commands| && log == RunLog(old(log), commands[..done], blocks)
      ensures if panicked then done < |commands| && commands[done].InternalLoad? else done == |commands|
      ensures disk == Stored(old(disk), Inserts(commands[..done]))
      ensures old(storage.dirty) || Inserts(commands[..done]) != [] ==> storage.dirty
      ensures NoFinish(background) ==>
                && storage.replaced == old(storage.replaced)
                && storage.dirty == (old(storage.dirty) || Inserts(commands[..done]) != [])
      ensures old(StoreOk()) && StorableBatch(commands) ==> StoreOk()
      ensures old(StoreOk()) && StorableBatch(commands) && !old(storage.replaced) && NoFinish(background) ==>
                !panicked && blocks == Reads(published, commands)
    {
      hide Coherent, StoreOk, StateAfter, RunLog, Inserts, Stored, LogAfter, Admissible;
      hide AllStorable, InsertsOf;
      hide BlockOf, Reads, StorableBatch, Quiet, AllQuiet;
      panicked, done, blocks := false, 0, [];
      ghost var ok := StoreOk() && StorableBatch(commands);
      ghost var quiet := NoFinish(background);
      BatchNone(log, published, disk, commands);
      NothingQuiet();
      for i := 0 to |commands|
        invariant done == i && |blocks| == i
        invariant Valid() && partial == [] && old(trace) <= trace && old(orders) <= orders
        invariant log == RunLog(old(log), commands[..i], blocks)
        invariant disk == Stored(old(disk), Inserts(commands[..i]))
        invariant old(storage.dirty) || Inserts(commands[..i]) != [] ==> storage.dirty
        invariant quiet ==> storage.dirty == (old(storage.dirty) || Inserts(commands[..i]) != [])
        invariant quiet ==> storage.replaced == old(storage.replaced)
        invariant ok ==> StoreOk()
        invariant ok && quiet && !old(storage.replaced) ==> blocks == Reads(published, commands[..i])
      {
        var meanwhile := if i < |background| then background[i] else NOTHING;
        RunBackground(meanwhile.before);
        BatchStep(old(log), published, old(disk), commands, i);
        ghost var block;
        panicked, block := RunCommand(commands[i], meanwhile.within);
        if panicked {
          return;
        }
        BatchLog(old(log), commands, i, blocks, block);
        done, blocks := i + 1, blocks + [block];
      }
      var meanwhile := if |commands| < |background| then background[|commands|] else NOTHING;
      RunBackground(meanwhile.before);
      assert commands[..|commands|] == commands;
    }

    /** The end of a batch: columns, then pointers, then the disk index. */
    method FinishBatch()
      requires Valid() && partial == []
      modifies this`data, this`waitlists, this`guarded, this`cached, this`cachedWaits, this`trace
      modifies this`shared, this`prefix, this`published, storage
      ensures Idle() && old(trace) <= trace && data == Direct(Cells(orders)) && Resolves(shared, data, StateAfter(log))
      ensures published == if old(storage.dirty) then disk else old(published)
      ensures !storage.dirty && !storage.replaced && (old(StoreOk()) ==> StoreOk())
    {
      hide CacheSound, TraceOk, Resolves, OrdersOk, Decodes, StateAfter, ItemsEffect, Direct, Cells;
      hide HoldsLog, LogBytes, IndexOf, ContentOf, Published, JobHolds;
      FlushAndPublish();
      BatchDone(shared, data, cached, log);
      var swapped := storage.SwapDiskIndex();
      if swapped {
        published := disk;
      }
    }

    /** `apply_batch_commands`, whatever the storage holds and whatever the compaction thread
        does meanwhile. */
    method ApplyBatch(commands: seq<PartitionCommand>, background: seq<Meanwhile>)
      returns (panicked: bool, ghost done: nat, ghost blocks: seq<seq<Item<Attributes>>>)
      requires Idle() && forall i :: 0 <= i < |commands| ==> Admissible(commands[i])
      modifies this, storage
      ensures Valid() && old(trace) <= trace && old(orders) <= orders
      ensures |blocks| == done <= |commands| && log == RunLog(old(log), commands[..done], blocks)
      ensures if panicked then done < |commands| && commands[done].InternalLoad? else done == |commands|
      ensures !panicked ==>
                && Idle() && data == Direct(Cells(orders)) && Resolves(shared, data, StateAfter(log))
                && !storage.dirty && !storage.replaced
      ensures disk == Stored(old(disk), Inserts(commands[..done]))
      ensures !panicked && (old(storage.dirty) || Inserts(commands) != []) ==> published == disk
      ensures !panicked && NoFinish(background) && !old(storage.dirty) && Inserts(commands) == [] ==>
                  published == old(published)
      ensures old(StoreOk()) && StorableBatch(commands) ==> StoreOk()
      ensures old(StoreOk()) && StorableBatch(commands) && !old(storage.replaced) && NoFinish(background) ==>
                !panicked && blocks == Reads(old(published), commands)
    {
      hide CacheSound, TraceOk, Resolves, OrdersOk, Decodes, StateAfter, ItemsEffect, Direct, Cells;
      hide RunLog, Inserts, Stored;
      hide HoldsLog, LogBytes, IndexOf, ContentOf, Published, JobHolds, Admissible, StorableBatch;
      hide NoFinish, Reads;
      NothingCached(data, waitlists, guarded, cached, cachedWaits);
      next, cached, cachedWaits := shared, map[], map[];
      panicked, done, blocks := RunCommands(commands, background);
      assert commands[..|commands|] == commands;
      if !panicked {
        FinishBatch();
      }
    }

    /** `replay_wal`: every complete frame that decodes is applied as a batch of its own. */
    method ReplayWal(bytes: seq<byte>) returns (panicked: bool)
      requires Idle()
      modifies this, storage
      ensures Idle() && Resolves(shared, data, StateAfter(log)) && old(trace) <= trace
      ensures panicked == ReplayOf(Payloads(Scan(bytes, 0).frames)).panicked
      ensures log == old(log) + Steps(ReplayOf(Payloads(Scan(bytes, 0).frames)).commands)
    {
      hide Idle, Scan, Scanned, Payloads, FromLe32, ReplayOf, Steps, Admissible, RunLog, Inserts;
      hide Stored, DecodeCommand;
      hide Resolves, StateAfter, Direct, Cells, StorableBatch, NoFinish, Reads;
      ghost var all := Payloads(Scan(bytes, 0).frames);
      ghost var frames: seq<Frame> := [];
      var pos := 0;
      IdleResolves(this);
      ScannedNone(bytes);
      ReplayNone();
      while pos + 4 <= |bytes|
        invariant pos <= |bytes| && Scanned(bytes, frames, pos)
        invariant Idle() && Resolves(shared, data, StateAfter(log)) && old(trace) <= trace
        invariant !ReplayOf(Payloads(frames)).panicked
        invariant log == old(log) + Steps(ReplayOf(Payloads(frames)).commands)
        decreases |bytes| - pos
      {
        var len := FromLe32(bytes[pos..pos + 4]);
        ScannedTurn(bytes, frames, pos);
        if pos + 4 + len > |bytes| {
          return false;
        }
        var payload := bytes[pos + 4..pos + 4 + len];
        frames := frames + [Frame(pos, payload)];
        ScannedBelow(bytes, frames, pos + 4 + len);
        ReplayStep(all, frames, old(log));
        var r := Decode(payload);
        if r.Panic? {
          return true;
        }
        if r.Ok? {
          ApplyOne(r.value);
        }
        pos := pos + 4 + len;
      }
      ScannedAll(bytes, frames, pos);
      return false;
    }

    /** `apply_command`: a batch of one. */
    method ApplyOne(command: WriteCommand<Attributes>)
      requires Idle() && Admissible(Apply(command))
      modifies this, storage
      ensures Idle() && Resolves(shared, data, StateAfter(log)) && old(trace) <= trace && old(orders) <= orders
      ensures log == old(log) + [Did(command)]
    {
      hide CacheSound, TraceOk, Resolves, OrdersOk, StateAfter, ItemsEffect, Direct, Cells, RunLog;
      hide Inserts, Stored;
      hide Admissible, StorableBatch, NoFinish, Reads, Decodes, HoldsLog, JobHolds, Published;
      var commands := [Apply(command)];
      ghost var was := log;
      var panicked;
      ghost var done, blocks;
      panicked, done, blocks := ApplyBatch(commands, []);
      assert commands[..1] == commands;
      SingleBatch(was, command, blocks);
    }
  }

  /// Replaying a log

  /** The commands that a replay applies, and whether an `unwrap` in a decoder ends it. */
  datatype Replay = Replay(commands: seq<WriteCommand<Attributes>>, panicked: bool)

  function ReplayOf(payloads: seq<seq<byte>>): Replay {
    if payloads == [] then Replay([], false)
    else
      var before, r := ReplayOf(payloads[..|payloads| - 1]), DecodeCommand(payloads[|payloads| - 1]);
      if before.panicked || r.Bad? then before
      else if r.Panic? then Replay(before.commands, true)
      else Replay(before.commands + [r.value], false)
  }

  function Steps(commands: seq<WriteCommand<Attributes>>): (log: seq<Step>)
    ensures |log| == |commands|
  {
    seq(|commands|, i requires 0 <= i < |commands| => Did(commands[i]))
  }

  lemma ReplayNone()
    ensures ReplayOf(Payloads([])) == Replay([], false) && Steps([]) == []
  {
    assert Payloads([]) == [];
  }

  lemma {:induction false} ReplayPrefix(payloads: seq<seq<byte>>, i: nat)
    requires i <= |payloads|
    ensures ReplayOf(payloads[..i]).commands <= ReplayOf(payloads).commands
    ensures ReplayOf(payloads[..i]).panicked ==> ReplayOf(payloads) == ReplayOf(payloads[..i])
  {
    hide DecodeCommand;
    if i < |payloads| {
      ReplayPrefix(payloads[..|payloads| - 1], i);
      assert payloads[..|payloads| - 1][..i] == payloads[..i];
    } else {
      assert payloads[..i] == payloads;
    }
  }

  /** The frames met so far come first among all the frames. */
  lemma ScannedBelow(bytes: seq<byte>, frames: seq<Frame>, pos: nat)
    requires pos <= |bytes| && Scanned(bytes, frames, pos)
    ensures Payloads(frames) <= Payloads(Scan(bytes, 0).frames)
  {
    hide Scan;
  }

  /** One turn of the replay loop, for the frame met last. */
  lemma ReplayStep(all: seq<seq<byte>>, frames: seq<Frame>, log: seq<Step>)
    requires frames != [] && Payloads(frames) <= all
    requires !ReplayOf(Payloads(frames[..|frames| - 1])).panicked
    ensures var before, after := ReplayOf(Payloads(frames[..|frames| - 1])), ReplayOf(Payloads(frames));
            match DecodeCommand(frames[|frames| - 1].payload)
            case Panic => after == Replay(before.commands, true) && after == ReplayOf(all)
            case Bad => after == before
            case Ok(c, _) =>
              && !after.panicked
              && log + Steps(after.commands) == log + Steps(before.commands) + [Did(c)]
              && Admissible(Apply(c))
  {
    hide DecodeCommand, Proper;
    var ps := Payloads(frames);
    assert ps[..|ps| - 1] == Payloads(frames[..|frames| - 1]);
    ReplayPrefix(all, |ps|);
    assert all[..|ps|] == ps;
    var r := DecodeCommand(ps[|ps| - 1]);
    if r.Ok? {
      var before, after := ReplayOf(ps[..|ps| - 1]), ReplayOf(ps);
      assert Steps(after.commands) == Steps(before.commands) + [Did(r.value)];
      assert ReplayOf(all).commands[|before.commands|] == r.value;
      hide ReplayOf, Steps, Payloads;
      DecodedAdmissible(ps[|ps| - 1]);
    }
  }

  lemma SingleBatch(log: seq<Step>, c: WriteCommand<Attributes>, blocks: seq<seq<Item<Attributes>>>)
    requires |blocks| == 1
    ensures RunLog(log, [Apply(c)], blocks) == log + [Did(c)]
  {
    assert [Apply(c)][..0] == [] && blocks[..0] == [];
    assert RunLog(log, [], []) == log;
  }

  lemma IdleResolves(p: Partition)
    requires p.Idle()
    ensures Resolves(p.shared, p.data, StateAfter(p.log))
  {
    hide Resolves, StateAfter, ItemsEffect, Direct, Cells, CacheSound, OrdersOk, Decodes, HoldsLog;
    hide JobHolds, Published;
    assert SnapOk(p.trace[|p.trace| - 1], p.log);
    assert p.log[..p.prefix] == p.log;
  }

  /// What decoders accept is what the types guarantee

  lemma {:induction false} DecodedEntriesProper(kind: Kind, buf: seq<byte>, pos: nat, count: nat, acc: Attributes)
    requires DecodeEntries(kind, buf, pos, count, acc).Ok? && ProperMap(kind, acc)
    ensures ProperMap(kind, DecodeEntries(kind, buf, pos, count, acc).value)
    decreases count
  {
    hide DecodeEntry, IsUtf8;
    if count == 0 {
    } else {
      var (e, p) := DecodeEntry(kind, buf, pos).Extract();
      DecodedEntryProper(kind, buf, pos);
      DecodedEntriesProper(kind, buf, p, count - 1, acc[e.name := e.value]);
    }
  }

  lemma DecodedEntryProper(kind: Kind, buf: seq<byte>, pos: nat)
    requires DecodeEntry(kind, buf, pos).Ok?
    ensures var e := DecodeEntry(kind, buf, pos).value; IsUtf8(e.name) && e.value.Kind() == kind && e.value.WellFormed()
  {
    hide ReadBlob, IsUtf8, ReadU32;
  }

  lemma DecodedItemProper(buf: seq<byte>, pos: nat)
    requires DecodeItem(buf, pos).Ok?
    ensures Proper(DecodeItem(buf, pos).value)
  {
    hide DecodeEntries, ProperMap, ReadU32, ReadU64;
    var (_, p0) := ReadU64(buf, pos).Extract();
    var (strs, p1) := DecodeAttributes(StrKind, buf, p0).Extract();
    var (ints, p2) := DecodeAttributes(IntKind, buf, p1).Extract();
    DecodedMapProper(StrKind, buf, p0);
    DecodedMapProper(IntKind, buf, p1);
    DecodedMapProper(BlobKind, buf, p2);
  }

  /** Whatever `read_entity` returns has the kinds and the UTF-8 that the types promise. */
  lemma ReadProper(item: Item<Attributes>)
    requires WasRead(item)
    ensures Proper(item)
  {
    hide Proper;
    var p :| ReadOutcome(p) == Read(item);
    DecodedItemProper(p, 0);
  }

  lemma DecodedMapProper(kind: Kind, buf: seq<byte>, pos: nat)
    requires DecodeAttributes(kind, buf, pos).Ok?
    ensures ProperMap(kind, DecodeAttributes(kind, buf, pos).value)
  {
    var (count, p) := ReadU32(buf, pos).Extract();
    DecodedEntriesProper(kind, buf, p, count, map[]);
  }

  lemma {:induction false} DecodedItemsProper(buf: seq<byte>, pos: nat, count: nat, acc: seq<Item<Attributes>>)
    requires DecodeItems(buf, pos, count, acc).Ok?
    requires forall i :: 0 <= i < |acc| ==> Proper(acc[i])
    ensures var its := DecodeItems(buf, pos, count, acc).value; forall i :: 0 <= i < |its| ==> Proper(its[i])
    decreases count
  {
    hide DecodeItem, Proper;
    if count == 0 {
    } else {
      assert DecodeItem(buf, pos).Ok?;
      var (it, p) := DecodeItem(buf, pos).Extract();
      DecodedItemProper(buf, pos);
      DecodedItemsProper(buf, p, count - 1, acc + [it]);
    }
  }

  lemma {:induction false} AsciiIsUtf8(s: seq<byte>)
    requires forall i :: 0 <= i < |s| ==> s[i] < 0x80
    ensures IsUtf8(s)
  {
    if s == [] {
    } else {
      AsciiIsUtf8(s[1..]);
    }
  }

  lemma FastProper(id: u64, epoch: u32, recordType: u32, payload: seq<byte>)
    ensures Proper(FastItem(id, epoch, recordType, payload))
  {
    hide IsUtf8;
    AsciiIsUtf8(PAYLOAD);
    AsciiIsUtf8(EPOCH);
    AsciiIsUtf8(TYPE);
    hide PAYLOAD, EPOCH, TYPE;
  }

  lemma FastDecoded(buf: seq<byte>)
    ensures DecodeFast(buf, 1).Ok? ==> DecodeFast(buf, 1).value.InsertFast?
  {
    hide ReadU32, ReadU64, ReadBlob;
  }

  lemma DecodedAdmissible(buf: seq<byte>)
    requires DecodeCommand(buf).Ok?
    ensures Admissible(Apply(DecodeCommand(buf).value))
  {
    hide DecodeItem, DecodeItems, ReadU32, ReadU64, DecodeFast, Proper;
    if buf[0] == 0 {
      DecodedItemProper(buf, 1);
    } else if buf[0] == 1 {
      var (count, p) := ReadU32(buf, 1).Extract();
      DecodedItemsProper(buf, p, count, []);
    } else if buf[0] == 3 {
      FastDecoded(buf);
      var c := DecodeFast(buf, 1).value;
      FastProper(c.id, c.epoch, c.recordType, c.payload);
    }
  }

  /// What readers see

  /** Every lookup by any reader at any moments, including halfway through a flush, gives what
      the state after some prefix of the steps says, when its name is used with one kind. */
  lemma ReadersSeePrefix(p: Partition, i: nat, j: nat, k: nat, kind: Kind, id: u64, name: Name)
    requires p.Coherent() && i <= j <= k < |p.trace| && OneKind(Used(ItemsIn(p.log) + p.partial), name)
    ensures p.trace[i].prefix <= p.trace[j].prefix <= p.trace[k].prefix <= |p.log|
    ensures Get(p.trace[i].pointers, p.trace[j].columns, p.trace[k].columns, kind, id, name)
            == Expected(StateAfter(p.log[..p.trace[i].prefix]), kind, id, name)
  {
    hide Resolves, StateAfter, ItemsEffect, OneKind, Used, Get, Expected, TraceOk;
    TraceColumns(p, j);
    ReaderSeesPrefix(p.trace, p.log, Used(ItemsIn(p.log) + p.partial), i, j, k, kind, id, name);
  }

  lemma TraceColumns(p: Partition, j: nat)
    requires p.Coherent() && j < |p.trace|
    ensures p.trace[j].columns.Keys <= Used(ItemsIn(p.log) + p.partial)
  {
    hide Resolves, StateAfter, ItemsEffect, Used, SnapOk, Direct, Cells, WellTypedItem, ItemsIn;
    assert Follows(p.trace[j], p.trace[|p.trace| - 1]);
    ColumnsUsed(p.orders);
  }

  /** Every signed record that a reader gets comes from one single write of its entity. */
  lemma SignedRecordsAreWhole(p: Partition, i: nat, m: Moments, id: u64) returns (w: nat)
    requires p.Coherent() && InOrder(i, m, |p.trace|)
    requires var used := Used(ItemsIn(p.log) + p.partial);
             OneKind(used, PAYLOAD) && OneKind(used, EPOCH) && OneKind(used, TYPE)
    requires SignedRecord(p.trace, i, m, id).Some?
    ensures w < p.trace[i].prefix <= |p.log|
    ensures id in EffectOf(p.log[w]) && Signed(EffectOf(p.log[w])[id], SignedRecord(p.trace, i, m, id).value)
    ensures forall j :: w < j < p.trace[i].prefix ==> id !in EffectOf(p.log[j])
  {
    hide Resolves, StateAfter, ItemsEffect, OneKind, Used, TraceOk, SignedRecord, EffectOf;
    forall j | i <= j < |p.trace| ensures p.trace[j].columns.Keys <= Used(ItemsIn(p.log) + p.partial) {
      TraceColumns(p, j);
    }
    w := RecordAtomicity(p.trace, p.log, Used(ItemsIn(p.log) + p.partial), i, m, id);
  }

  /** The exact answer of `get_signed_record` for any reader at any moments. */
  lemma SignedRecordsExact(p: Partition, i: nat, m: Moments, id: u64)
    requires p.Coherent() && InOrder(i, m, |p.trace|)
    requires var used := Used(ItemsIn(p.log) + p.partial);
             OneKind(used, PAYLOAD) && OneKind(used, EPOCH) && OneKind(used, TYPE)
    ensures p.trace[i].prefix <= |p.log|
    ensures var r, s := SignedRecord(p.trace, i, m, id), StateAfter(p.log[..p.trace[i].prefix]);
            && (r.Some? <==> id in s && HoldsSigned(s[id]))
            && (r.Some? ==> Signed(s[id], r.value))
  {
    hide Resolves, StateAfter, ItemsEffect, OneKind, Used, TraceOk, SignedRecord, HoldsSigned, Signed;
    forall j | i <= j < |p.trace| ensures p.trace[j].columns.Keys <= Used(ItemsIn(p.log) + p.partial) {
      TraceColumns(p, j);
    }
    SignedExact(p.trace, p.log, Used(ItemsIn(p.log) + p.partial), i, m, id);
  }

  /** A fast insert, applied to any partition that uses the three names with one kind each, is
      read back with the three values that were given. */
  method FastInsertReads(p: Partition, id: u64, epoch: u32, recordType: u32, payload: seq<byte>)
    requires p.Idle()
    requires var used := Used(ItemsIn(p.log) + [FastItem(id, epoch, recordType, payload)]);
             OneKind(used, PAYLOAD) && OneKind(used, EPOCH) && OneKind(used, TYPE)
    modifies p, p.storage
    ensures p.Idle() && p.trace != []
    ensures var now := |p.trace| - 1;
            SignedRecord(p.trace, now, Moments(now, now, now, now, now, now), id) == Some((payload, epoch, recordType))
  {
    hide StateAfter, TraceOk, OneKind, SignedRecord, Used, FastItem, CacheSound, Resolves, Direct, Cells, OrdersOk;
    hide ItemsIn, ItemsEffect, Touches;
    ghost var before := p.log;
    FastAdmissible(id, epoch, recordType, payload);
    ItemsInStep(before, Did(InsertFast(id, epoch, recordType, payload)));
    p.ApplyOne(InsertFast(id, epoch, recordType, payload));
    ghost var now := |p.trace| - 1;
    forall j | now <= j < |p.trace| ensures p.trace[j].columns.Keys <= Used(ItemsIn(p.log)) {
      assert ItemsIn(p.log) + [] == ItemsIn(p.log);
      TraceColumns(p, j);
    }
    SignedFast(p.trace, p.log, Used(ItemsIn(p.log)), now, Moments(now, now, now, now, now, now), |before|,
               id, epoch, recordType, payload);
  }

  lemma FastAdmissible(id: u64, epoch: u32, recordType: u32, payload: seq<byte>)
    ensures Admissible(Apply(InsertFast(id, epoch, recordType, payload)))
    ensures InsertedBy(Did(InsertFast(id, epoch, recordType, payload))) == [FastItem(id, epoch, recordType, payload)]
  {
    FastProper(id, epoch, recordType, payload);
    hide FastItem, Proper;
  }

  /// Batches and compactions

  /** What the threads of a partition do: a batch, with the compaction thread at work, or steps
      of a compaction between batches. */
  datatype EngineOp =
    | Batch(commands: seq<PartitionCommand>, during: seq<Meanwhile>)
    | Between(steps: seq<Compaction>)
  {
    function Commands(): seq<PartitionCommand> {
      if Batch? then commands else []
    }
  }

  ghost predicate AllAdmissible(ops: seq<EngineOp>) {
    forall i, j :: 0 <= i < |ops| && 0 <= j < |ops[i].Commands()| ==> Admissible(ops[i].Commands()[j])
  }

  ghost predicate AllStorableBatches(ops: seq<EngineOp>) {
    forall i :: 0 <= i < |ops| ==> StorableBatch(ops[i].Commands())
  }

  ghost predicate NeverReplaced(ops: seq<EngineOp>) {
    forall i :: 0 <= i < |ops| ==> if ops[i].Batch? then NoFinish(ops[i].during) else Quiet(ops[i].steps)
  }

  /** All the commands of a run, in order. */
  function AllCommands(ops: seq<EngineOp>): seq<PartitionCommand> {
    if ops == [] then [] else AllCommands(ops[..|ops| - 1]) + ops[|ops| - 1].Commands()
  }

  lemma AllCommandsStep(ops: seq<EngineOp>, i: nat)
    requires i < |ops|
    ensures AllCommands(ops[..0]) == []
    ensures AllCommands(ops[..i + 1]) == AllCommands(ops[..i]) + ops[i].Commands()
  {
    assert ops[..i + 1][..i] == ops[..i];
  }

  lemma {:induction false} RunLogConcat(log: seq<Step>, a: seq<PartitionCommand>, b: seq<PartitionCommand>,
                                        x: seq<seq<Item<Attributes>>>, y: seq<seq<Item<Attributes>>>)
    requires |a| == |x| && |b| == |y|
    ensures RunLog(log, a + b, x + y) == RunLog(RunLog(log, a, x), b, y)
    decreases |b|
  {
    hide LogAfter;
    if b == [] {
      assert a + b == a && x + y == x;
    } else {
      var n := |b| - 1;
      RunLogConcat(log, a, b[..n], x, y[..n]);
      assert (a + b)[..|a| + n] == a + b[..n] && (x + y)[..|a| + n] == x + y[..n];
    }
  }

  lemma {:induction false} InsertsConcat(a: seq<PartitionCommand>, b: seq<PartitionCommand>)
    ensures Inserts(a + b) == Inserts(a) + Inserts(b)
  {
    hide InsertsOf;
    if b == [] {
      assert a + b == a;
    } else {
      var n := |b| - 1;
      InsertsConcat(a, b[..n]);
      assert (a + b)[..|a| + n] == a + b[..n];
      assert Inserts(a) + (Inserts(b[..n]) + InsertsOf(b[n])) == Inserts(a) + Inserts(b[..n]) + InsertsOf(b[n]);
    }
  }

  /** What a run has done to the log and to the disk, one more batch, or part of one, later. */
  lemma RunsOn(log: seq<Step>, disk: Disk, a: seq<PartitionCommand>, x: seq<seq<Item<Attributes>>>,
               b: seq<PartitionCommand>, y: seq<seq<Item<Attributes>>>)
    requires |a| == |x| && |b| == |y|
    ensures RunLog(log, a + b, x + y) == RunLog(RunLog(log, a, x), b, y)
    ensures Stored(disk, Inserts(a + b)) == Stored(Stored(disk, Inserts(a)), Inserts(b))
  {
    hide Inserts, Stored, RunLog;
    RunLogConcat(log, a, b, x, y);
    InsertsConcat(a, b);
    StoredConcat(disk, Inserts(a), Inserts(b));
  }

  /** Any interleaving of batches and compactions. `ran` commands are executed, in order, each
      reading its block: all of them, or those before a load that panics and ends the writer
      thread. The log is what they stand for, readers stay where `ReadersSeePrefix` finds
      them, and the storage holds the last item inserted under every id. Only a replaced or
      unsound file can make a load panic. */
  method RunEngine(p: Partition, ops: seq<EngineOp>)
    returns (panicked: bool, ghost ran: nat, ghost blocks: seq<seq<Item<Attributes>>>)
    requires p.Idle() && AllAdmissible(ops)
    modifies p, p.storage
    ensures p.Coherent() && old(p.trace) <= p.trace && (!panicked ==> p.Idle())
    ensures |blocks| == ran <= |AllCommands(ops)|
    ensures if panicked then ran < |AllCommands(ops)| && AllCommands(ops)[ran].InternalLoad?
            else ran == |AllCommands(ops)|
    ensures p.log == RunLog(old(p.log), AllCommands(ops)[..ran], blocks)
    ensures p.disk == Stored(old(p.disk), Inserts(AllCommands(ops)[..ran]))
    ensures old(p.StoreOk()) && AllStorableBatches(ops) ==> p.StoreOk()
    ensures old(p.StoreOk()) && AllStorableBatches(ops) && !old(p.storage.replaced) && NeverReplaced(ops) ==> !panicked
  {
    hide Resolves, StateAfter, Direct, Cells, RunLog, Inserts, Stored, Admissible, StorableBatch;
    hide NoFinish, Reads;
    hide CacheSound, TraceOk, OrdersOk, Decodes, HoldsLog, JobHolds, Published, IndexOf, ContentOf, Quiet;
    hide AllCommands;
    ghost var ok := p.StoreOk() && AllStorableBatches(ops);
    ghost var quiet := ok && !p.storage.replaced && NeverReplaced(ops);
    ghost var log, disk := p.log, p.disk;
    ghost var cs: seq<PartitionCommand> := [];
    panicked, ran, blocks := false, 0, [];
    RunsNone(log, disk, ops);
    for i := 0 to |ops|
      invariant p.Idle() && old(p.trace) <= p.trace && (ok ==> p.StoreOk()) && (quiet ==> !p.storage.replaced)
      invariant cs == AllCommands(ops[..i]) && |blocks| == ran == |cs|
      invariant p.log == RunLog(log, cs, blocks) && p.disk == Stored(disk, Inserts(cs))
    {
      AllCommandsStep(ops, i);
      match ops[i]
      case Batch(commands, during) =>
        forall j | 0 <= j < |commands| ensures Admissible(commands[j]) {
          assert commands[j] == ops[i].Commands()[j];
        }
        assert ok ==> StorableBatch(ops[i].Commands());
        ghost var done, found;
        panicked, done, found := p.ApplyBatch(commands, during);
        RunsOn(log, disk, cs, blocks, commands[..done], found);
        RunsInside(ops, i, done);
        cs, blocks, ran := cs + commands[..done], blocks + found, ran + done;
        if panicked {
          return;
        }
        assert commands[..done] == commands;
      case Between(steps) =>
        p.RunBackground(steps);
        assert cs + [] == cs;
    }
    assert ops[..|ops|] == ops;
    assert cs[..ran] == cs;
  }

  lemma RunsNone(log: seq<Step>, disk: Disk, ops: seq<EngineOp>)
    ensures AllCommands(ops[..0]) == [] && RunLog(log, [], []) == log && Stored(disk, Inserts([])) == disk
  {
  }

  /** Where a part of a batch stands among all the commands. */
  lemma {:induction false} RunsInside(ops: seq<EngineOp>, i: nat, done: nat)
    requires i < |ops| && done <= |ops[i].Commands()|
    ensures var before, all := AllCommands(ops[..i]), AllCommands(ops);
            && |before| + done <= |all| && before + ops[i].Commands()[..done] == all[..|before| + done]
            && (done < |ops[i].Commands()| ==>
                  |before| + done < |all| && all[|before| + done] == ops[i].Commands()[done])
    decreases |ops|
  {
    if i == |ops| - 1 {
      assert ops[..i] == ops[..|ops| - 1];
    } else {
      var init := ops[..|ops| - 1];
      RunsInside(init, i, done);
      assert init[..i] == ops[..i];
    }
  }

  /** A batch, a whole or partial compaction, and another batch, which loads nothing. No
      command is lost, and reads through the disk index are right again afterwards. */
  method CompactBetween(p: Partition, first: seq<WriteCommand<Attributes>>, steps: seq<Compaction>,
                        second: seq<WriteCommand<Attributes>>)
    requires p.Idle() && forall c :: c in first + second ==> AllProper(InsertedBy(Did(c)))
    modifies p, p.storage
    ensures p.Idle() && !p.storage.replaced && Resolves(p.shared, p.data, StateAfter(p.log))
    ensures p.log == old(p.log) + Steps(first) + Steps(second)
    ensures old(p.StoreOk()) && (forall c :: c in first + second ==> AllStorable(InsertedBy(Did(c)))) ==> p.StoreOk()
  {
    hide CacheSound, TraceOk, Resolves, OrdersOk, Decodes, StateAfter, ItemsEffect, Direct, Cells;
    hide RunLog, Inserts, Stored;
    hide HoldsLog, LogBytes, IndexOf, ContentOf, Published, JobHolds, NoFinish, Reads, AllProper;
    hide AllStorable, InsertedBy, Steps;
    ApplyWrites(p, first);
    p.RunBackground(steps);
    ApplyWrites(p, second);
  }

  /** A batch of write commands. */
  method ApplyWrites(p: Partition, writes: seq<WriteCommand<Attributes>>)
    requires p.Idle() && forall i :: 0 <= i < |writes| ==> AllProper(InsertedBy(Did(writes[i])))
    modifies p, p.storage
    ensures p.Idle() && !p.storage.replaced && p.log == old(p.log) + Steps(writes)
    ensures Resolves(p.shared, p.data, StateAfter(p.log)) && p.data == Direct(Cells(p.orders))
    ensures old(p.StoreOk()) && (forall i :: 0 <= i < |writes| ==> AllStorable(InsertedBy(Did(writes[i])))) ==>
                p.StoreOk()
  {
    hide CacheSound, TraceOk, Resolves, OrdersOk, Decodes, StateAfter, ItemsEffect, Direct, Cells;
    hide RunLog, Inserts, Stored;
    hide HoldsLog, LogBytes, IndexOf, ContentOf, Published, JobHolds, NoFinish, Reads, AllProper;
    hide AllStorable, InsertedBy, Steps;
    var commands := seq(|writes|, i requires 0 <= i < |writes| => Apply(writes[i]));
    ghost var was := p.log;
    var panicked;
    ghost var done, blocks;
    panicked, done, blocks := p.ApplyBatch(commands, []);
    assert commands[..|commands|] == commands;
    OnlyWrites(was, writes, commands, blocks);
  }

  lemma {:induction false} OnlyWrites(log: seq<Step>, writes: seq<WriteCommand<Attributes>>, cs: seq<PartitionCommand>,
                                      blocks: seq<seq<Item<Attributes>>>)
    requires |blocks| == |cs| == |writes| && forall i :: 0 <= i < |cs| ==> cs[i] == Apply(writes[i])
    ensures RunLog(log, cs, blocks) == log + Steps(writes)
    decreases |cs|
  {
    if cs == [] {
      assert Steps(writes) == [];
    } else {
      var n := |cs| - 1;
      OnlyWrites(log, writes[..n], cs[..n], blocks[..n]);
      assert Steps(writes) == Steps(writes[..n]) + [Did(writes[n])];
    }
  }

  lemma NothingQuiet()
    ensures Quiet(NOTHING.before) && AllQuiet(NOTHING.within)
  {
  }

  lemma StoredNone(disk: Disk, items: seq<Item<Attributes>>)
    ensures Stored(disk, items[..0]) == disk
  {
  }

  /** The resident entities are those that the state knows, tombstones included. */
  lemma ResidentIds(next: Pointers, c: Columns, log: seq<Step>)
    requires Resolves(next, c, StateAfter(log) + ItemsEffect([]))
    ensures next.Keys == StateAfter(log).Keys
  {
    hide StateAfter, Backed;
    ItemsNone();
  }

  lemma LoadStep(resident: set<u64>, log: seq<Step>, id: u64, block: seq<Item<Attributes>>)
    requires resident == StateAfter(log).Keys
    ensures LogAfter(log, InternalLoad(id), block) == if id in resident then log else log + [Loaded(block)]
  {
    hide StateAfter;
  }

  lemma PublishNext(next: Pointers, data: Columns, trace: seq<Snap>, log: seq<Step>)
    requires Resolves(next, data + map[], StateAfter(log) + ItemsEffect([])) && TraceOk(trace, log)
    requires trace != [] && trace[|trace| - 1].columns == data
    ensures TraceOk(trace + [Snap(next, data, |log|)], log)
  {
    hide Resolves, StateAfter;
    ItemsNone();
    assert data + map[] == data && StateAfter(log) + map[] == StateAfter(log) && log[..|log|] == log;
    assert SnapOk(trace[|trace| - 1], log);
    TraceExtends(trace, log, Snap(next, data, |log|));
  }

  lemma BatchNone(log: seq<Step>, published: Disk, disk: Disk, cs: seq<PartitionCommand>)
    ensures RunLog(log, cs[..0], []) == log && Inserts(cs[..0]) == [] && Stored(disk, []) == disk
    ensures Reads(published, cs[..0]) == []
  {
  }

  /** What one more command of a batch adds. */
  lemma BatchStep(log: seq<Step>, published: Disk, disk: Disk, cs: seq<PartitionCommand>, i: nat)
    requires i < |cs|
    ensures Reads(published, cs[..i + 1]) == Reads(published, cs[..i]) + [BlockOf(published, cs[i])]
    ensures Inserts(cs[..i + 1]) == Inserts(cs[..i]) + InsertsOf(cs[i])
    ensures Stored(disk, Inserts(cs[..i + 1])) == Stored(Stored(disk, Inserts(cs[..i])), InsertsOf(cs[i]))
    ensures StorableBatch(cs) ==> AllStorable(InsertsOf(cs[i]))
    ensures cs[i].InternalLoad? ==> InsertsOf(cs[i]) == []
  {
    hide InsertedBy, Stored, Inserts, Block, Storable;
    InsertsStep(cs, i);
    StoredConcat(disk, Inserts(cs[..i]), InsertsOf(cs[i]));
  }

  lemma BatchLog(log: seq<Step>, cs: seq<PartitionCommand>, i: nat,
                 blocks: seq<seq<Item<Attributes>>>, block: seq<Item<Attributes>>)
    requires i < |cs| && |blocks| == i
    ensures RunLog(log, cs[..i + 1], blocks + [block]) == LogAfter(RunLog(log, cs[..i], blocks), cs[i], block)
  {
    hide LogAfter;
    assert cs[..i + 1][..i] == cs[..i] && (blocks + [block])[..i] == blocks;
  }

  lemma BatchDone(shared: Pointers, data: Columns, cached: Columns, log: seq<Step>)
    requires cached == map[] && Resolves(shared, data + cached, StateAfter(log) + ItemsEffect([]))
    ensures Resolves(shared, data, StateAfter(log)) && data + cached == data
  {
    hide Resolves, StateAfter;
    ItemsNone();
    assert StateAfter(log) + map[] == StateAfter(log) && data + map[] == data;
  }

  lemma EntriesNone(c: Columns, record: Record, es: Entries)
    ensures DirectOn(c, es[..0]) == c && AddAll(record, es[..0]) == record
  {
  }

  lemma BackedNone(c: Columns)
    ensures Backed(map[], c, map[])
  {
  }

  lemma {:induction false} DirectGrows(c: Columns, cells: Entries)
    ensures Grows(c, DirectOn(c, cells))
  {
    hide Pushed;
    if cells == [] {
    } else {
      var init := cells[..|cells| - 1];
      DirectGrows(c, init);
      PushedGrows(DirectOn(c, init), cells[|cells| - 1]);
      GrowsOn(c, DirectOn(c, init), DirectOn(c, cells));
    }
  }

  /** What is being built once one more item has been placed. */
  lemma BuildingInsert(next: Pointers, before: Columns, after: Columns, log: seq<Step>, partial: seq<Item<Attributes>>,
                       orders: seq<Item<Entries>>, it: Item<Entries>, indices: map<Name, nat>)
    requires Resolves(next, before, StateAfter(log) + ItemsEffect(partial))
    requires before == Direct(Cells(orders)) && OrdersOk(orders, log, partial) && WellTypedItem(it)
    requires after == DirectOn(DirectOn(DirectOn(before, it.strs), it.ints), it.blobs)
    requires Backed(indices, after, RecordOf(ItemOf(it)))
    ensures Resolves(next[it.id := Pointer(it.id, indices)], after,
                StateAfter(log) + ItemsEffect(partial + [ItemOf(it)]))
    ensures after == Direct(Cells(orders + [it])) && OrdersOk(orders + [it], log, partial + [ItemOf(it)])
  {
    hide Resolves, Backed, StateAfter, ItemsEffect, DirectOn, Cells, RecordOf, ItemsOf, ItemsIn;
    hide WellTypedItem, Grows;
    var item := ItemOf(it);
    DirectConcat(before, it.strs, it.ints);
    DirectConcat(before, it.strs + it.ints, it.blobs);
    assert after == DirectOn(before, CellsOf(it));
    DirectGrows(before, CellsOf(it));
    ResolvesGrows(next, before, after, StateAfter(log) + ItemsEffect(partial));
    ResolvesInsert(next, after, StateAfter(log) + ItemsEffect(partial), it.id, indices, RecordOf(item));
    ItemsStep(partial, item);
    assert StateAfter(log) + ItemsEffect(partial)[it.id := RecordOf(item)]
        == (StateAfter(log) + ItemsEffect(partial))[it.id := RecordOf(item)];
    CellsStep(orders, it);
    DirectConcat(map[], Cells(orders), CellsOf(it));
    ItemsOfStep(orders, it);
    assert ItemsIn(log) + (partial + [item]) == ItemsIn(log) + partial + [item];
  }

  lemma BuildingDelete(next: Pointers, c: Columns, log: seq<Step>, orders: seq<Item<Entries>>, id: u64)
    requires Resolves(next, c, StateAfter(log) + ItemsEffect([])) && OrdersOk(orders, log, [])
             && Backed(map[], c, map[])
    ensures var log' := log + [Did(Delete(id))];
            Resolves(next[id := Pointer(id, map[])], c, StateAfter(log') + ItemsEffect([]))
                && OrdersOk(orders, log', [])
  {
    hide Resolves, Backed, StateAfter, ItemsOf, ItemsIn, WellTypedItem;
    ItemsNone();
    StateStep(log, Did(Delete(id)));
    ItemsInStep(log, Did(Delete(id)));
    ResolvesInsert(next, c, StateAfter(log) + map[], id, map[], map[]);
    assert (StateAfter(log) + map[])[id := map[]] == StateAfter(log) + map[id := map[]] + map[];
    assert ItemsIn(log) + [] + [] == ItemsIn(log) + [];
  }

  lemma BuildingFinish(next: Pointers, c: Columns, log: seq<Step>, orders: seq<Item<Entries>>, step: Step)
    requires !(step.Did? && step.command.Delete?)
    requires Resolves(next, c, StateAfter(log) + ItemsEffect(InsertedBy(step)))
             && OrdersOk(orders, log, InsertedBy(step))
    ensures Resolves(next, c, StateAfter(log + [step]) + ItemsEffect([])) && OrdersOk(orders, log + [step], [])
  {
    hide Resolves, StateAfter, ItemsOf, ItemsIn, WellTypedItem, InsertedBy;
    ItemsNone();
    StateStep(log, step);
    ItemsInStep(log, step);
    assert StateAfter(log + [step]) + map[] == StateAfter(log + [step]);
    assert ItemsIn(log) + InsertedBy(step) + [] == ItemsIn(log) + InsertedBy(step);
  }

  lemma PublishColumns(before: Columns, after: Columns, shared: Pointers, prefix: nat, trace: seq<Snap>, log: seq<Step>)
    requires trace != [] && trace[|trace| - 1] == Snap(shared, before, prefix) && Grows(before, after)
             && TraceOk(trace, log)
    ensures TraceOk(trace + [Snap(shared, after, prefix)], log)
  {
    hide StateAfter, Resolves, Grows;
    assert SnapOk(trace[|trace| - 1], log);
    ResolvesGrows(shared, before, after, StateAfter(log[..prefix]));
    TraceExtends(trace, log, Snap(shared, after, prefix));
  }

  ghost predicate OrdersOk(orders: seq<Item<Entries>>, log: seq<Step>, partial: seq<Item<Attributes>>) {
    ItemsOf(orders) == ItemsIn(log) + partial && forall i :: 0 <= i < |orders| ==> WellTypedItem(orders[i])
  }
}
