/** Entity state and columnar snapshots: what a reader of src/core/query.rs resolves against
    what the writer of src/engine/partition.rs publishes. */
module Records {
  import opened Options
  import opened Bytes
  import opened Codec
  import opened Column

  /// The state that commands stand for

  /** The attributes of an entity, whatever their kind. An empty record is a tombstone. */
  type Record = map<Name, Value>

  type EntityState = map<u64, Record>

  /** One index serves all three kinds, so a name used twice keeps its last kind. */
  function RecordOf(item: Item<Attributes>): Record {
    item.strs + item.ints + item.blobs
  }

  const PAYLOAD: Name := [112, 97, 121, 108, 111, 97, 100]
  const EPOCH: Name := [101, 112, 111, 99, 104]
  const TYPE: Name := [116, 121, 112, 101]

  /** The insert that `InsertFast` stands for. */
  function FastItem(id: u64, epoch: u32, recordType: u32, payload: seq<byte>): Item<Attributes> {
    Item(id, map[], map[EPOCH := Int(epoch), TYPE := Int(recordType)], map[PAYLOAD := Blob(payload)])
  }

  /** The record of an `InsertFast`, from its fields and the letters of the names. */
  lemma FastRecord(id: u64, epoch: u32, recordType: u32, payload: seq<byte>)
    ensures RecordOf(FastItem(id, epoch, recordType, payload))
            == map[Ascii("payload") := Blob(payload), Ascii("epoch") := Int(epoch), Ascii("type") := Int(recordType)]
    ensures FastItem(id, epoch, recordType, payload).id == id
    ensures PAYLOAD == Ascii("payload") && EPOCH == Ascii("epoch") && TYPE == Ascii("type")
  {
    assert PAYLOAD == Ascii("payload") && EPOCH == Ascii("epoch") && TYPE == Ascii("type");
    assert |PAYLOAD| == 7 && |EPOCH| == 5 && |TYPE| == 4;
  }

  /** A name that an item uses once has the value given for it; one that it uses with several
      kinds has that of the last kind. */
  lemma RecordGives(item: Item<Attributes>, n: Name)
    ensures n in RecordOf(item) <==> n in item.strs || n in item.ints || n in item.blobs
    ensures n in item.blobs ==> RecordOf(item)[n] == item.blobs[n]
    ensures n in item.ints && n !in item.blobs ==> RecordOf(item)[n] == item.ints[n]
    ensures n in item.strs && n !in item.ints && n !in item.blobs ==> RecordOf(item)[n] == item.strs[n]
  {
  }

  /** What the writer thread has done: a write command, or a promotion of items from disk. */
  datatype Step = Did(command: WriteCommand<Attributes>) | Loaded(items: seq<Item<Attributes>>)

  /** The items a step inserts, in order. */
  function InsertedBy(step: Step): seq<Item<Attributes>> {
    match step
    case Loaded(items) => items
    case Did(Insert(item)) => [item]
    case Did(BatchInsert(items)) => items
    case Did(Delete(_)) => []
    case Did(InsertFast(id, e, t, p)) => [FastItem(id, e, t, p)]
  }

  function ItemsEffect(items: seq<Item<Attributes>>): EntityState {
    if items == [] then map[]
    else
      var last := items[|items| - 1];
      ItemsEffect(items[..|items| - 1])[last.id := RecordOf(last)]
  }

  function EffectOf(step: Step): EntityState {
    if step.Did? && step.command.Delete? then map[step.command.id := map[]]
    else ItemsEffect(InsertedBy(step))
  }

  /** The entity state after a sequence of steps: each one replaces whole records. */
  function StateAfter(log: seq<Step>): EntityState {
    if log == [] then map[]
    else StateAfter(log[..|log| - 1]) + EffectOf(log[|log| - 1])
  }

  lemma StateStep(log: seq<Step>, step: Step)
    ensures StateAfter(log + [step]) == StateAfter(log) + EffectOf(step)
  {
    hide EffectOf;
    assert (log + [step])[..|log|] == log;
  }

  lemma ItemsStep(items: seq<Item<Attributes>>, item: Item<Attributes>)
    ensures ItemsEffect(items + [item]) == ItemsEffect(items)[item.id := RecordOf(item)]
  {
    hide RecordOf;
    assert (items + [item])[..|items|] == items;
  }

  /** The record of an entity is what its last write wrote. */
  lemma {:induction false} LastWrite(log: seq<Step>, id: u64) returns (k: nat)
    requires id in StateAfter(log)
    ensures k < |log| && id in EffectOf(log[k]) && EffectOf(log[k])[id] == StateAfter(log)[id]
    ensures forall m :: k < m < |log| ==> id !in EffectOf(log[m])
  {
    hide EffectOf;
    k := |log| - 1;
    if id !in EffectOf(log[k]) {
      var init := log[..k];
      k := LastWrite(init, id);
      forall m | k < m < |log| ensures id !in EffectOf(log[m]) {
        assert m < |init| ==> log[m] == init[m];
      }
    }
  }

  /** The items inserted by a sequence of steps. */
  function ItemsIn(log: seq<Step>): seq<Item<Attributes>> {
    if log == [] then [] else ItemsIn(log[..|log| - 1]) + InsertedBy(log[|log| - 1])
  }

  lemma ItemsInStep(log: seq<Step>, step: Step)
    ensures ItemsIn(log + [step]) == ItemsIn(log) + InsertedBy(step)
  {
    hide InsertedBy;
    assert (log + [step])[..|log|] == log;
  }

  /** Whether a step writes to an entity. */
  predicate Touches(step: Step, id: u64) {
    match step
    case Loaded(items) => exists i :: 0 <= i < |items| && items[i].id == id
    case Did(Insert(item)) => item.id == id
    case Did(BatchInsert(items)) => exists i :: 0 <= i < |items| && items[i].id == id
    case Did(Delete(deleted)) => deleted == id
    case Did(InsertFast(inserted, _, _, _)) => inserted == id
  }

  lemma {:induction false} ItemsTouch(items: seq<Item<Attributes>>, id: u64)
    ensures id in ItemsEffect(items) <==> exists i :: 0 <= i < |items| && items[i].id == id
  {
    hide RecordOf;
    if items == [] {
    } else {
      var init, last := items[..|items| - 1], items[|items| - 1];
      ItemsTouch(init, id);
      if id in ItemsEffect(items) && last.id != id {
        var i :| 0 <= i < |init| && init[i].id == id;
        assert items[i].id == id;
      }
      if i :| 0 <= i < |items| && items[i].id == id && i < |init| {
        assert init[i].id == id;
      }
    }
  }

  /** The last item of an id. */
  predicate LastItem(items: seq<Item<Attributes>>, i: int, id: u64) {
    0 <= i < |items| && items[i].id == id && forall j :: i < j < |items| ==> items[j].id != id
  }

  lemma {:induction false} ItemsLast(items: seq<Item<Attributes>>, id: u64) returns (i: int)
    requires id in ItemsEffect(items)
    ensures LastItem(items, i, id) && ItemsEffect(items)[id] == RecordOf(items[i])
  {
    hide RecordOf;
    i := |items| - 1;
    if items[i].id != id {
      i := ItemsLast(items[..i], id);
    }
  }

  lemma StepTouches(step: Step, id: u64)
    ensures id in EffectOf(step) <==> Touches(step, id)
  {
    var items := InsertedBy(step);
    ItemsTouch(items, id);
    hide ItemsEffect, RecordOf;
    if |items| == 1 {
      assert items[0].id == id <==> exists i :: 0 <= i < |items| && items[i].id == id;
    }
  }

  /** The state of an entity is what the last step that touched it left: for the fast insert
      exactly its three fields under their names, for a delete nothing, for a plain insert
      the item's record. */
  lemma {:induction false} LastStep(log: seq<Step>, k: nat, id: u64)
    requires k < |log| && Touches(log[k], id) && forall m :: k < m < |log| ==> !Touches(log[m], id)
    ensures id in StateAfter(log)
    ensures match log[k]
            case Did(InsertFast(_, epoch, recordType, payload)) =>
              StateAfter(log)[id]
              == map[Ascii("payload") := Blob(payload), Ascii("epoch") := Int(epoch), Ascii("type") := Int(recordType)]
            case Did(Delete(_)) => StateAfter(log)[id] == map[]
            case Did(Insert(item)) => StateAfter(log)[id] == RecordOf(item)
            case Did(BatchInsert(items)) =>
              exists i :: LastItem(items, i, id) && StateAfter(log)[id] == RecordOf(items[i])
            case Loaded(items) => exists i :: LastItem(items, i, id) && StateAfter(log)[id] == RecordOf(items[i])
    decreases |log|
  {
    var init, step := log[..|log| - 1], log[|log| - 1];
    StepTouches(step, id);
    if k < |log| - 1 {
      hide EffectOf, Touches, RecordOf, LastItem;
      LastStep(init, k, id);
    } else {
      OneEffect(step);
      if step.Loaded? || step.command.BatchInsert? {
        var i := ItemsLast(InsertedBy(step), id);
      }
      hide RecordOf, LastItem;
    }
  }

  lemma OneEffect(step: Step)
    ensures match step
            case Did(InsertFast(id, epoch, recordType, payload)) =>
              EffectOf(step) == map[id := map[Ascii("payload") := Blob(payload), Ascii("epoch") := Int(epoch),
                                              Ascii("type") := Int(recordType)]]
            case Did(Delete(id)) => EffectOf(step) == map[id := map[]]
            case Did(Insert(item)) => EffectOf(step) == map[item.id := RecordOf(item)]
            case _ => true
  {
    match step
    case Did(InsertFast(id, epoch, recordType, payload)) =>
      FastRecord(id, epoch, recordType, payload);
      hide RecordOf, FastItem, Ascii;
      ItemsStep([], FastItem(id, epoch, recordType, payload));
      assert [] + InsertedBy(step) == InsertedBy(step);
    case Did(Insert(item)) =>
      hide RecordOf;
      ItemsStep([], item);
      assert [] + InsertedBy(step) == InsertedBy(step);
    case _ =>
  }

  /// Columns

  datatype ColKey = ColKey(kind: Kind, name: Name)

  type Rows = seq<Option<Value>>

  /** The columns and what their data pointers show. */
  type Columns = map<ColKey, Rows>

  function KeyOf(e: Attr): ColKey {
    ColKey(e.value.Kind(), e.name)
  }

  function RowsIn(c: Columns, k: ColKey): Rows {
    if k in c then c[k] else []
  }

  /** One cell appended directly to its column. */
  function Pushed(c: Columns, e: Attr): Columns {
    c[KeyOf(e) := RowsPushed(RowsIn(c, KeyOf(e)), e.value)]
  }

  /** Cells appended directly, one after the other, without any cache. */
  function DirectOn(c: Columns, cells: Entries): Columns {
    if cells == [] then c else Pushed(DirectOn(c, cells[..|cells| - 1]), cells[|cells| - 1])
  }

  function Direct(cells: Entries): Columns {
    DirectOn(map[], cells)
  }

  /** The cells of an item, in the order its maps are iterated. */
  function CellsOf(it: Item<Entries>): Entries {
    it.strs + it.ints + it.blobs
  }

  function Cells(orders: seq<Item<Entries>>): Entries {
    if orders == [] then [] else Cells(orders[..|orders| - 1]) + CellsOf(orders[|orders| - 1])
  }

  lemma DirectStep(c: Columns, cells: Entries, e: Attr)
    ensures DirectOn(c, cells + [e]) == Pushed(DirectOn(c, cells), e)
  {
    hide Pushed;
    assert (cells + [e])[..|cells|] == cells;
  }

  lemma {:induction false} DirectConcat(c: Columns, a: Entries, b: Entries)
    ensures DirectOn(c, a + b) == DirectOn(DirectOn(c, a), b)
  {
    hide Pushed;
    if b == [] {
      assert a + b == a;
    } else {
      var init, last := b[..|b| - 1], b[|b| - 1];
      DirectConcat(c, a, init);
      assert a + b == a + init + [last];
      DirectStep(c, a + init, last);
    }
  }

  lemma CellsStep(orders: seq<Item<Entries>>, it: Item<Entries>)
    ensures Cells(orders + [it]) == Cells(orders) + CellsOf(it)
  {
    hide CellsOf;
    assert (orders + [it])[..|orders|] == orders;
  }

  /** The columns that an item writes to. */
  function KeysOf(item: Item<Attributes>): set<ColKey> {
    (set n | n in item.strs :: ColKey(StrKind, n)) + (set n | n in item.ints :: ColKey(IntKind, n))
    + (set n | n in item.blobs :: ColKey(BlobKind, n))
  }

  function Used(items: seq<Item<Attributes>>): set<ColKey> {
    if items == [] then {} else Used(items[..|items| - 1]) + KeysOf(items[|items| - 1])
  }

  /** Columns only grow: no column disappears, and no row changes or disappears. */
  ghost predicate Grows(c: Columns, d: Columns) {
    forall k :: k in c ==> k in d && c[k] <= d[k]
  }

  lemma GrowsOn(c: Columns, d: Columns, e: Columns)
    requires Grows(c, d) && Grows(d, e)
    ensures Grows(c, e)
  {
    forall k | k in c ensures k in e && c[k] <= e[k] {
      assert c[k] <= d[k] <= e[k];
    }
  }

  lemma PushedGrows(c: Columns, e: Attr)
    ensures Grows(c, Pushed(c, e))
  {
  }

  /// Entity pointers

  /** `MultiVectorPointer`. */
  datatype Pointer = Pointer(id: u64, indices: map<Name, nat>)

  type Pointers = map<u64, Pointer>

  /** The indices lead to exactly the record's values, each in the column of its kind. */
  ghost predicate Backed(indices: map<Name, nat>, c: Columns, record: Record) {
    && indices.Keys == record.Keys
    && forall name :: name in record ==> CellAt(c, ColKey(record[name].Kind(), name), indices[name], record[name])
  }

  ghost predicate CellAt(c: Columns, k: ColKey, idx: nat, v: Value) {
    k in c && idx < |c[k]| && c[k][idx] == Some(v)
  }

  /** A pointer map resolves, against the columns, to the entity state. */
  ghost predicate Resolves(p: Pointers, c: Columns, s: EntityState) {
    && p.Keys == s.Keys
    && forall id :: id in p ==> p[id].id == id && Backed(p[id].indices, c, s[id])
  }

  lemma BackedGrows(indices: map<Name, nat>, c: Columns, d: Columns, record: Record)
    requires Backed(indices, c, record) && Grows(c, d)
    ensures Backed(indices, d, record)
  {
  }

  lemma ResolvesGrows(p: Pointers, c: Columns, d: Columns, s: EntityState)
    requires Resolves(p, c, s) && Grows(c, d)
    ensures Resolves(p, d, s)
  {
    hide Backed, Grows;
    forall id | id in p ensures p[id].id == id && Backed(p[id].indices, d, s[id]) {
      BackedGrows(p[id].indices, c, d, s[id]);
    }
  }

  /** Pointing an entity at a new record replaces its whole record and no other. */
  lemma ResolvesInsert(p: Pointers, c: Columns, s: EntityState, id: u64, indices: map<Name, nat>, record: Record)
    requires Resolves(p, c, s) && Backed(indices, c, record)
    ensures Resolves(p[id := Pointer(id, indices)], c, s[id := record])
  {
    hide Backed;
  }

  /** One more cell, and its index noted under its name. */
  lemma BackedAdd(indices: map<Name, nat>, c: Columns, record: Record, e: Attr)
    requires Backed(indices, c, record)
    ensures Backed(indices[e.name := |RowsIn(c, KeyOf(e))|], Pushed(c, e), record[e.name := e.value])
  {
    var d := Pushed(c, e);
    PushedGrows(c, e);
    BackedGrows(indices, c, d, record);
    var record' := record[e.name := e.value];
    forall name | name in record' && name != e.name
      ensures CellAt(d, ColKey(record'[name].Kind(), name), indices[name], record'[name])
    {
      assert CellAt(d, ColKey(record[name].Kind(), name), indices[name], record[name]);
    }
  }

  /// What has been published

  /** The pointer map and the columns that readers can load at one moment. `prefix` is the
      number of steps that the pointer map stands for. */
  datatype Snap = Snap(pointers: Pointers, columns: Columns, prefix: nat)

  ghost predicate SnapOk(t: Snap, log: seq<Step>) {
    t.prefix <= |log| && Resolves(t.pointers, t.columns, StateAfter(log[..t.prefix]))
  }

  ghost predicate Follows(t: Snap, u: Snap) {
    Grows(t.columns, u.columns) && t.prefix <= u.prefix
  }

  /** The moments since the start, in order. */
  ghost predicate TraceOk(trace: seq<Snap>, log: seq<Step>) {
    && (forall i :: 0 <= i < |trace| ==> SnapOk(trace[i], log))
    && (forall i, j :: 0 <= i <= j < |trace| ==> Follows(trace[i], trace[j]))
  }

  lemma TraceExtends(trace: seq<Snap>, log: seq<Step>, t: Snap)
    requires TraceOk(trace, log) && SnapOk(t, log)
    requires trace != [] ==> Follows(trace[|trace| - 1], t)
    ensures TraceOk(trace + [t], log)
  {
    hide Resolves, StateAfter, SnapOk;
    var trace' := trace + [t];
    forall i, j | 0 <= i <= j < |trace'| ensures Follows(trace'[i], trace'[j]) {
      if j == |trace| {
        if i < |trace| {
          assert Follows(trace[i], trace[|trace| - 1]);
          GrowsOn(trace[i].columns, trace[|trace| - 1].columns, t.columns);
        }
      } else {
        assert Follows(trace[i], trace[j]);
      }
    }
  }

  lemma TraceKept(trace: seq<Snap>, log: seq<Step>, step: Step)
    requires TraceOk(trace, log)
    ensures TraceOk(trace, log + [step])
  {
    hide Resolves, StateAfter, Follows;
    forall i | 0 <= i < |trace| ensures SnapOk(trace[i], log + [step]) {
      assert SnapOk(trace[i], log);
      assert (log + [step])[..trace[i].prefix] == log[..trace[i].prefix];
    }
  }

  /// Readers

  /** Column `k` looked up in one snapshot of the columns, its data loaded from another. */
  function Element(columns: Columns, data: Columns, k: ColKey, idx: nat): Option<Value> {
    if k in columns && idx < |RowsIn(data, k)| then RowsIn(data, k)[idx] else None
  }

  /** `get_str`, `get_int` and `get_blob`, for an entity that is resident. */
  function Get(p: Pointers, columns: Columns, data: Columns, kind: Kind, id: u64, name: Name): Option<Value> {
    if id in p && name in p[id].indices then Element(columns, data, ColKey(kind, name), p[id].indices[name]) else None
  }

  /** What the state says such a lookup should give. */
  function Expected(s: EntityState, kind: Kind, id: u64, name: Name): Option<Value> {
    if id in s && name in s[id] && s[id][name].Kind() == kind then Some(s[id][name]) else None
  }

  /** The attribute exists with another kind. */
  predicate Mistyped(s: EntityState, kind: Kind, id: u64, name: Name) {
    id in s && name in s[id] && s[id][name].Kind() != kind
  }

  lemma ElementLater(c: Columns, columns: Columns, data: Columns, k: ColKey, idx: nat, v: Value)
    requires CellAt(c, k, idx, v) && Grows(c, columns) && Grows(c, data)
    ensures Element(columns, data, k, idx) == Some(v)
  {
    assert c[k] <= data[k];
  }

  /** The exact meaning of a lookup whose pointer map, column map and column data come from
      three moments, each no earlier than the one before: it agrees with the state after the
      prefix of the first moment, unless the attribute has another kind there and the column
      asked for holds something at its index. */
  lemma ReaderExact(trace: seq<Snap>, log: seq<Step>, i: nat, j: nat, k: nat, kind: Kind, id: u64, name: Name)
    requires i <= j <= k < |trace| && TraceOk(trace, log)
    ensures trace[i].prefix <= |log|
    ensures var s, p := StateAfter(log[..trace[i].prefix]), trace[i].pointers;
            && (Mistyped(s, kind, id, name) ==> id in p && name in p[id].indices)
            && (Get(p, trace[j].columns, trace[k].columns, kind, id, name) == Expected(s, kind, id, name)
                <==> !(Mistyped(s, kind, id, name)
                       && Element(trace[j].columns, trace[k].columns, ColKey(kind, name), p[id].indices[name]).Some?))
  {
    assert SnapOk(trace[i], log) && Follows(trace[i], trace[j]) && Follows(trace[i], trace[k]);
    hide StateAfter, TraceOk, Grows;
    var t := trace[i];
    var s: EntityState := StateAfter(log[..t.prefix]);
    if id in s && name in s[id] && s[id][name].Kind() == kind {
      assert Backed(t.pointers[id].indices, t.columns, s[id]);
      ElementLater(t.columns, trace[j].columns, trace[k].columns, ColKey(kind, name),
          t.pointers[id].indices[name], s[id][name]);
    }
  }

  /** A name is not used with two kinds. */
  ghost predicate OneKind(used: set<ColKey>, name: Name) {
    forall k, l :: k in used && l in used && k.name == l.name == name ==> k.kind == l.kind
  }

  /** Prefix consistency: a lookup of a name that is used with one kind gives what the state
      after a prefix of the steps says, and later pointer loads stand for longer prefixes. */
  lemma ReaderSeesPrefix(trace: seq<Snap>, log: seq<Step>, used: set<ColKey>,
                         i: nat, j: nat, k: nat, kind: Kind, id: u64, name: Name)
    requires i <= j <= k < |trace| && TraceOk(trace, log)
    requires trace[j].columns.Keys <= used && OneKind(used, name)
    ensures trace[i].prefix <= trace[j].prefix <= trace[k].prefix <= |log|
    ensures Get(trace[i].pointers, trace[j].columns, trace[k].columns, kind, id, name)
            == Expected(StateAfter(log[..trace[i].prefix]), kind, id, name)
  {
    assert SnapOk(trace[i], log) && SnapOk(trace[k], log) && Follows(trace[i], trace[j]) && Follows(trace[j], trace[k]);
    ReaderExact(trace, log, i, j, k, kind, id, name);
    hide StateAfter, TraceOk;
    var t := trace[i];
    var s: EntityState := StateAfter(log[..t.prefix]);
    if Mistyped(s, kind, id, name) {
      var held := ColKey(s[id][name].Kind(), name);
      assert Backed(t.pointers[id].indices, t.columns, s[id]);
      assert held in trace[j].columns;
      assert ColKey(kind, name) !in used;
    }
  }

  /** When `get_signed_record` looks each column up, and when it loads each column's data. */
  datatype Moments = Moments(payload: nat, payloadData: nat, epoch: nat, epochData: nat, kind: nat, kindData: nat)

  predicate InOrder(i: nat, m: Moments, n: nat) {
    i <= m.payload <= m.payloadData <= m.epoch <= m.epochData <= m.kind <= m.kindData < n
  }

  /** `get_signed_record`: one pointer, three columns. */
  function SignedRecord(trace: seq<Snap>, i: nat, m: Moments, id: u64): Option<(seq<byte>, u32, u32)>
    requires InOrder(i, m, |trace|)
  {
    var p := trace[i].pointers;
    if id !in p || PAYLOAD !in p[id].indices || EPOCH !in p[id].indices || TYPE !in p[id].indices then None
    else
      var payload := Element(trace[m.payload].columns, trace[m.payloadData].columns, ColKey(BlobKind, PAYLOAD),
          p[id].indices[PAYLOAD]);
      var epoch := Element(trace[m.epoch].columns, trace[m.epochData].columns, ColKey(IntKind, EPOCH),
          p[id].indices[EPOCH]);
      var recordType := Element(trace[m.kind].columns, trace[m.kindData].columns, ColKey(IntKind, TYPE),
          p[id].indices[TYPE]);
      match (payload, epoch, recordType)
      case (Some(Blob(b)), Some(Int(e)), Some(Int(t))) => Some((b, e, t))
      case _ => None
  }

  /** The three fields of a signed record. */
  ghost predicate Signed(record: Record, r: (seq<byte>, u32, u32)) {
    && PAYLOAD in record && record[PAYLOAD] == Blob(r.0)
    && EPOCH in record && record[EPOCH] == Int(r.1)
    && TYPE in record && record[TYPE] == Int(r.2)
  }

  /** A record with a blob and two ints under the three names. */
  ghost predicate HoldsSigned(record: Record) {
    && PAYLOAD in record && record[PAYLOAD].Blob?
    && EPOCH in record && record[EPOCH].Int?
    && TYPE in record && record[TYPE].Int?
  }

  /** The exact answer of `get_signed_record`, with the three names used with one kind each: it
      succeeds if and only if the record in the prefix of the pointer holds a blob and two ints
      under the three names, and it then gives these values. */
  lemma SignedExact(trace: seq<Snap>, log: seq<Step>, used: set<ColKey>, i: nat, m: Moments, id: u64)
    requires InOrder(i, m, |trace|) && TraceOk(trace, log)
    requires forall j :: i <= j < |trace| ==> trace[j].columns.Keys <= used
    requires OneKind(used, PAYLOAD) && OneKind(used, EPOCH) && OneKind(used, TYPE)
    ensures trace[i].prefix <= |log|
    ensures var r, s := SignedRecord(trace, i, m, id), StateAfter(log[..trace[i].prefix]);
            && (r.Some? <==> id in s && HoldsSigned(s[id]))
            && (r.Some? ==> Signed(s[id], r.value))
  {
    hide StateAfter, TraceOk, OneKind, Element, PAYLOAD, EPOCH, TYPE;
    ReaderSeesPrefix(trace, log, used, i, m.payload, m.payloadData, BlobKind, id, PAYLOAD);
    ReaderSeesPrefix(trace, log, used, i, m.epoch, m.epochData, IntKind, id, EPOCH);
    ReaderSeesPrefix(trace, log, used, i, m.kind, m.kindData, IntKind, id, TYPE);
    PointerNames(trace, log, i, id);
  }

  /** If the last step in the prefix that touched the entity is an `InsertFast`, its three
      fields are the answer. */
  lemma SignedFast(trace: seq<Snap>, log: seq<Step>, used: set<ColKey>, i: nat, m: Moments, k: nat,
                   id: u64, epoch: u32, recordType: u32, payload: seq<byte>)
    requires InOrder(i, m, |trace|) && TraceOk(trace, log) && k < trace[i].prefix <= |log|
    requires forall j :: i <= j < |trace| ==> trace[j].columns.Keys <= used
    requires OneKind(used, PAYLOAD) && OneKind(used, EPOCH) && OneKind(used, TYPE)
    requires log[k] == Did(InsertFast(id, epoch, recordType, payload))
    requires forall j :: k < j < trace[i].prefix ==> !Touches(log[j], id)
    ensures SignedRecord(trace, i, m, id) == Some((payload, epoch, recordType))
  {
    hide StateAfter, TraceOk, OneKind, SignedRecord, Ascii, Touches;
    SignedExact(trace, log, used, i, m, id);
    var prefix := log[..trace[i].prefix];
    FastTouches(log[k], id);
    LastStep(prefix, k, id);
    FastRecord(id, epoch, recordType, payload);
    FastHolds(epoch, recordType, payload);
  }

  lemma FastTouches(step: Step, id: u64)
    requires step.Did? && step.command.InsertFast? && step.command.id == id
    ensures Touches(step, id)
  {
  }

  lemma FastHolds(epoch: u32, recordType: u32, payload: seq<byte>)
    ensures var record := map[PAYLOAD := Blob(payload), EPOCH := Int(epoch), TYPE := Int(recordType)];
            && HoldsSigned(record)
            && forall r :: Signed(record, r) ==> r == (payload, epoch, recordType)
  {
    assert |PAYLOAD| == 7 && |EPOCH| == 5 && |TYPE| == 4;
  }

  lemma PointerNames(trace: seq<Snap>, log: seq<Step>, i: nat, id: u64)
    requires i < |trace| && TraceOk(trace, log)
    ensures trace[i].prefix <= |log|
    ensures var s, p := StateAfter(log[..trace[i].prefix]), trace[i].pointers;
            p.Keys == s.Keys && (id in p ==> p[id].indices.Keys == s[id].Keys)
  {
    assert SnapOk(trace[i], log);
    hide StateAfter;
  }

  /** Record atomicity: with the three names used as blob, int and int, the triple returned is
      the record of one single write of that entity, the last one in the prefix, although the
      columns are loaded at six later moments. */
  lemma RecordAtomicity(trace: seq<Snap>, log: seq<Step>, used: set<ColKey>, i: nat, m: Moments, id: u64)
    returns (w: nat)
    requires InOrder(i, m, |trace|) && TraceOk(trace, log)
    requires forall j :: i <= j < |trace| ==> trace[j].columns.Keys <= used
    requires OneKind(used, PAYLOAD) && OneKind(used, EPOCH) && OneKind(used, TYPE)
    requires SignedRecord(trace, i, m, id).Some?
    ensures w < trace[i].prefix <= |log|
    ensures id in EffectOf(log[w]) && Signed(EffectOf(log[w])[id], SignedRecord(trace, i, m, id).value)
    ensures forall j :: w < j < trace[i].prefix ==> id !in EffectOf(log[j])
  {
    hide StateAfter, TraceOk, EffectOf, Element, OneKind;
    ReaderSeesPrefix(trace, log, used, i, m.payload, m.payloadData, BlobKind, id, PAYLOAD);
    ReaderSeesPrefix(trace, log, used, i, m.epoch, m.epochData, IntKind, id, EPOCH);
    ReaderSeesPrefix(trace, log, used, i, m.kind, m.kindData, IntKind, id, TYPE);
    var prefix := log[..trace[i].prefix];
    w := LastWrite(prefix, id);
    assert log[w] == prefix[w];
    forall j | w < j < trace[i].prefix ensures id !in EffectOf(log[j]) {
      assert log[j] == prefix[j];
    }
  }

  /// Iteration orders

  /** What the type of an attribute map guarantees. */
  ghost predicate ProperMap(kind: Kind, m: Attributes) {
    forall n :: n in m ==> IsUtf8(n) && m[n].Kind() == kind && m[n].WellFormed()
  }

  ghost predicate Proper(item: Item<Attributes>) {
    ProperMap(StrKind, item.strs) && ProperMap(IntKind, item.ints) && ProperMap(BlobKind, item.blobs)
  }

  /** In every iteration order, the encoding of the item is shorter than 4 GiB. */
  ghost predicate Storable(item: Item<Attributes>) {
    forall it :: WellTypedItem(it) && ItemOf(it) == item ==> |ItemBytes(it)| < 0x1_0000_0000
  }

  lemma {:induction false} AddAllStep(acc: Attributes, es: Entries, e: Attr)
    ensures AddAll(acc, es + [e]) == AddAll(acc, es)[e.name := e.value]
    decreases |es|
  {
    if es == [] {
      assert [] + [e] == [e];
      assert AddAll(acc, [e]) == AddAll(acc[e.name := e.value], []);
    } else {
      assert (es + [e])[1..] == es[1..] + [e];
      AddAllStep(acc[es[0].name := es[0].value], es[1..], e);
    }
  }

  lemma {:induction false} AddAllOver(acc: Attributes, es: Entries)
    ensures AddAll(acc, es) == acc + AttributesOf(es)
    decreases |es|
  {
    if es == [] {
      assert acc + map[] == acc;
    } else {
      var init, e := es[..|es| - 1], es[|es| - 1];
      assert es == init + [e];
      AddAllOver(acc, init);
      AddAllStep(acc, init, e);
      AddAllStep(map[], init, e);
      hide AddAll;
      assert (acc + AttributesOf(init))[e.name := e.value] == acc + AttributesOf(init)[e.name := e.value];
    }
  }

  lemma OneOut(m: Attributes, rest: Attributes, n: Name)
    requires n in rest && rest.Keys <= m.Keys
    ensures (m - rest.Keys)[n := m[n]] == m - (rest - {n}).Keys && |rest - {n}| < |rest|
  {
    assert rest == (rest - {n})[n := rest[n]];
  }

  /** A hash map is iterated in some order. */
  method IterationOrder(kind: Kind, m: Attributes) returns (es: Entries)
    requires ProperMap(kind, m)
    ensures WellTyped(kind, es) && AttributesOf(es) == m
  {
    hide AddAll, IsUtf8;
    es := [];
    var rest := m;
    AddAllNone();
    while rest != map[]
      invariant rest.Keys <= m.Keys && WellTyped(kind, es) && AttributesOf(es) == m - rest.Keys
      invariant forall i :: 0 <= i < |es| ==> es[i].name !in rest
      decreases |rest|
    {
      var n :| n in rest;
      AddAllStep(map[], es, Attr(n, m[n]));
      OneOut(m, rest, n);
      es := es + [Attr(n, m[n])];
      rest := rest - {n};
    }
    assert m - {} == m;
  }

  lemma AddAllNone()
    ensures AttributesOf([]) == map[]
  {
  }

  method OrderItem(item: Item<Attributes>) returns (it: Item<Entries>)
    requires Proper(item)
    ensures WellTypedItem(it) && ItemOf(it) == item
  {
    hide ProperMap, WellTyped, AttributesOf;
    var strs := IterationOrder(StrKind, item.strs);
    var ints := IterationOrder(IntKind, item.ints);
    var blobs := IterationOrder(BlobKind, item.blobs);
    it := Item(item.id, strs, ints, blobs);
  }

  /** The three loops of an insert build the item's record. */
  lemma RecordFromOrder(it: Item<Entries>)
    ensures AddAll(AddAll(AddAll(map[], it.strs), it.ints), it.blobs) == RecordOf(ItemOf(it))
  {
    hide AddAll;
    AddAllOver(AddAll(map[], it.strs), it.ints);
    AddAllOver(AddAll(AddAll(map[], it.strs), it.ints), it.blobs);
  }

  /// Which columns exist

  lemma {:induction false} OrderKeys(kind: Kind, acc: Attributes, es: Entries, i: nat)
    requires i < |es|
    ensures es[i].name in AddAll(acc, es)
    decreases |es|
  {
    var init, e := es[..|es| - 1], es[|es| - 1];
    assert es == init + [e];
    AddAllStep(acc, init, e);
    if i >= |init| {
    } else {
      OrderKeys(kind, acc, init, i);
    }
  }

  lemma CellKeys(it: Item<Entries>, i: nat)
    requires WellTypedItem(it) && i < |CellsOf(it)|
    ensures KeyOf(CellsOf(it)[i]) in KeysOf(ItemOf(it))
  {
    hide AddAll, IsUtf8;
    var a, b := |it.strs|, |it.strs| + |it.ints|;
    if i < a {
      OrderKeys(StrKind, map[], it.strs, i);
    } else if i < b {
      OrderKeys(IntKind, map[], it.ints, i - a);
    } else {
      OrderKeys(BlobKind, map[], it.blobs, i - b);
    }
  }

  lemma {:induction false} DirectKeys(c: Columns, cells: Entries, used: set<ColKey>)
    requires c.Keys <= used && forall i :: 0 <= i < |cells| ==> KeyOf(cells[i]) in used
    ensures DirectOn(c, cells).Keys <= used
  {
    if cells == [] {
    } else {
      DirectKeys(c, cells[..|cells| - 1], used);
    }
  }

  lemma ItemsOfStep(orders: seq<Item<Entries>>, it: Item<Entries>)
    ensures ItemsOf(orders + [it]) == ItemsOf(orders) + [ItemOf(it)]
  {
    hide ItemsOf, ItemOf;
    ItemsOfAt(orders);
    ItemsOfAt(orders + [it]);
  }

  /** Only columns that some item names ever come to exist. */
  lemma {:induction false} ColumnsUsed(orders: seq<Item<Entries>>)
    requires forall i :: 0 <= i < |orders| ==> WellTypedItem(orders[i])
    ensures Direct(Cells(orders)).Keys <= Used(ItemsOf(orders))
  {
    hide CellsOf, ItemsOf, ItemOf, KeysOf, WellTypedItem, Pushed;
    if orders == [] {
      assert Cells(orders) == [];
    } else {
      var init, it := orders[..|orders| - 1], orders[|orders| - 1];
      ColumnsUsed(init);
      assert orders == init + [it];
      ItemsOfStep(init, it);
      var items := ItemsOf(init);
      assert (items + [ItemOf(it)])[..|items|] == items;
      DirectConcat(map[], Cells(init), CellsOf(it));
      forall i | 0 <= i < |CellsOf(it)| ensures KeyOf(CellsOf(it)[i]) in Used(ItemsOf(orders)) {
        CellKeys(it, i);
      }
      DirectKeys(Direct(Cells(init)), CellsOf(it), Used(ItemsOf(orders)));
    }
  }

  /// Items with a single attribute

  lemma OneEntry(kind: Kind, es: Entries, e: Attr)
    requires WellTyped(kind, es) && AttributesOf(es) == map[e.name := e.value]
    ensures es == [e]
  {
    AddAllHolds(map[], es);
    hide AddAll, IsUtf8;
    assert |es| == 1;
    assert es[0].name in AttributesOf(es);
  }

  lemma NoEntry(kind: Kind, es: Entries)
    requires WellTyped(kind, es) && AttributesOf(es) == map[]
    ensures es == []
  {
    AddAllHolds(map[], es);
  }

  function StrItem(id: u64, n: Name, s: seq<byte>): Item<Attributes> {
    Item(id, map[n := Str(s)], map[], map[])
  }

  function IntItem(id: u64, n: Name, v: u32): Item<Attributes> {
    Item(id, map[], map[n := Int(v)], map[])
  }

  lemma StrOrder(it: Item<Entries>, id: u64, n: Name, s: seq<byte>)
    requires WellTypedItem(it) && ItemOf(it) == StrItem(id, n, s)
    ensures it == Item(id, [Attr(n, Str(s))], [], [])
  {
    hide AttributesOf, WellTyped;
    OneEntry(StrKind, it.strs, Attr(n, Str(s)));
    NoEntry(IntKind, it.ints);
    NoEntry(BlobKind, it.blobs);
  }

  lemma IntOrder(it: Item<Entries>, id: u64, n: Name, v: u32)
    requires WellTypedItem(it) && ItemOf(it) == IntItem(id, n, v)
    ensures it == Item(id, [], [Attr(n, Int(v))], [])
  {
    hide AttributesOf, WellTyped;
    NoEntry(StrKind, it.strs);
    OneEntry(IntKind, it.ints, Attr(n, Int(v)));
    NoEntry(BlobKind, it.blobs);
  }
}
