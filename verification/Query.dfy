/** Query nodes of src/core/query.rs over published snapshots. */
module Query {
  import opened Options
  import opened Bytes
  import opened Codec
  import opened Records
  import opened Engine

  /// QueryNode::Get

  /** When one of the three lookups of a `Get` node loads the pointers, looks the column up
      and loads its data. */
  datatype Lookup = Lookup(pointers: nat, columns: nat, data: nat)

  predicate InTrace(l: Lookup, n: nat) {
    l.pointers <= l.columns <= l.data < n
  }

  function GetAt(trace: seq<Snap>, l: Lookup, kind: Kind, id: u64, name: Name): Option<Value>
    requires InTrace(l, |trace|)
  {
    Get(trace[l.pointers].pointers, trace[l.columns].columns, trace[l.data].columns, kind, id, name)
  }

  /** The node asks for an int, then for a string, then for a blob, and each lookup loads the
      pointers anew. */
  function GetNode(trace: seq<Snap>, asInt: Lookup, asStr: Lookup, asBlob: Lookup, id: u64, name: Name): Option<Value>
    requires InTrace(asInt, |trace|) && InTrace(asStr, |trace|) && InTrace(asBlob, |trace|)
  {
    var n := GetAt(trace, asInt, IntKind, id, name);
    if n.Some? then n
    else
      var s := GetAt(trace, asStr, StrKind, id, name);
      if s.Some? then s else GetAt(trace, asBlob, BlobKind, id, name)
  }

  /** The attribute of an entity in a state, whatever its kind. */
  function AttributeIn(s: EntityState, id: u64, name: Name): Option<Value> {
    if id in s && name in s[id] then Some(s[id][name]) else None
  }

  ghost function PrefixState(p: Partition, i: nat): EntityState
    reads p
    requires i < |p.trace| && p.trace[i].prefix <= |p.log|
  {
    StateAfter(p.log[..p.trace[i].prefix])
  }

  /** Although its lookups load the pointers at different moments, a `Get` node gives the
      attribute as it was at one of these moments. */
  lemma GetNodeSeesOnePrefix(p: Partition, asInt: Lookup, asStr: Lookup, asBlob: Lookup, id: u64, name: Name)
    returns (i: nat)
    requires p.Coherent() && OneKind(Used(ItemsIn(p.log) + p.partial), name)
    requires InTrace(asInt, |p.trace|) && InTrace(asStr, |p.trace|) && InTrace(asBlob, |p.trace|)
    ensures i in {asInt.pointers, asStr.pointers, asBlob.pointers} && p.trace[i].prefix <= |p.log|
    ensures GetNode(p.trace, asInt, asStr, asBlob, id, name) == AttributeIn(PrefixState(p, i), id, name)
  {
    hide StateAfter, Used, ItemsIn, Resolves, TraceOk, CacheSound, Direct, Cells, OrdersOk, Get;
    ReadersSeePrefix(p, asInt.pointers, asInt.columns, asInt.data, IntKind, id, name);
    ReadersSeePrefix(p, asStr.pointers, asStr.columns, asStr.data, StrKind, id, name);
    ReadersSeePrefix(p, asBlob.pointers, asBlob.columns, asBlob.data, BlobKind, id, name);
    var used := Used(ItemsIn(p.log) + p.partial);
    AttributeUsed(p, asInt.pointers, id, name);
    AttributeUsed(p, asStr.pointers, id, name);
    AttributeUsed(p, asBlob.pointers, id, name);
    if ColKey(StrKind, name) in used {
      i := asStr.pointers;
    } else if ColKey(BlobKind, name) in used {
      i := asBlob.pointers;
    } else {
      i := asInt.pointers;
    }
  }

  /** An attribute of a published state has its column among those used. */
  lemma AttributeUsed(p: Partition, i: nat, id: u64, name: Name)
    requires p.Coherent() && i < |p.trace|
    ensures p.trace[i].prefix <= |p.log|
    ensures var s := PrefixState(p, i);
            id in s && name in s[id] ==> ColKey(s[id][name].Kind(), name) in Used(ItemsIn(p.log) + p.partial)
  {
    hide StateAfter, Used, ItemsIn, CacheSound, Direct, Cells, OrdersOk;
    assert SnapOk(p.trace[i], p.log);
    hide TraceOk, ItemsEffect;
    TraceColumns(p, i);
    var s := PrefixState(p, i);
    if id in s && name in s[id] {
      assert Backed(p.trace[i].pointers[id].indices, p.trace[i].columns, s[id]);
    }
  }

  /** Every row of a published column holds a value of the column's kind. */
  lemma CellKinds(p: Partition, j: nat, k: ColKey, idx: nat)
    requires p.Coherent() && j < |p.trace| && idx < |RowsIn(p.trace[j].columns, k)|
    ensures var row := RowsIn(p.trace[j].columns, k)[idx]; row.Some? && row.value.Kind() == k.kind
  {
    hide StateAfter, Resolves, Cells, OrdersOk, SnapOk, Direct, History;
    assert Follows(p.trace[j], p.trace[|p.trace| - 1]);
    assert RowsIn(p.trace[j].columns, k) <= RowsIn(p.data, k) <= RowsIn(p.Working(), k);
    hide TraceOk, CacheSound;
    ColumnIsHistory(Cells(p.orders), k);
    HistoryKinds(Cells(p.orders), k);
  }

  lemma {:induction false} HistoryKinds(cells: Entries, k: ColKey)
    ensures forall v :: v in History(cells, k) ==> v.Kind() == k.kind
  {
    if cells == [] {
    } else {
      HistoryKinds(cells[..|cells| - 1], k);
    }
  }

  /** The columns that a `Get` node asks before that of `kind`. */
  function AskedBefore(kind: Kind): seq<Kind> {
    match kind
    case IntKind => []
    case StrKind => [IntKind]
    case BlobKind => [IntKind, StrKind]
  }

  /** Some column asked earlier holds a cell at the index of the attribute `v`. */
  ghost predicate Shadowed(t: Snap, l: Snap, d: Snap, id: u64, name: Name, v: Value)
    requires id in t.pointers && name in t.pointers[id].indices
  {
    exists kind :: kind in AskedBefore(v.Kind())
                   && Element(l.columns, d.columns, ColKey(kind, name), t.pointers[id].indices[name]).Some?
  }

  /** The exact meaning of a `Get` node whose lookups all happen at the same moments: it gives
      the attribute of the prefix, if and only if no column asked before the attribute's own,
      ints first and blobs last, holds something at the attribute's index. */
  lemma GetNodeExact(p: Partition, l: Lookup, id: u64, name: Name)
    requires p.Coherent() && InTrace(l, |p.trace|)
    ensures p.trace[l.pointers].prefix <= |p.log|
    ensures var t, r := p.trace[l.pointers], AttributeIn(PrefixState(p, l.pointers), id, name);
            && (r.Some? ==> id in t.pointers && name in t.pointers[id].indices)
            && (GetNode(p.trace, l, l, l, id, name) == r
                <==> (r.Some? ==> !Shadowed(t, p.trace[l.columns], p.trace[l.data], id, name, r.value)))
  {
    hide StateAfter, TraceOk, CacheSound, Direct, Cells, OrdersOk, Resolves, ItemsIn, Used;
    ReaderExact(p.trace, p.log, l.pointers, l.columns, l.data, IntKind, id, name);
    ReaderExact(p.trace, p.log, l.pointers, l.columns, l.data, StrKind, id, name);
    ReaderExact(p.trace, p.log, l.pointers, l.columns, l.data, BlobKind, id, name);
    var t := p.trace[l.pointers];
    var r := AttributeIn(PrefixState(p, l.pointers), id, name);
    if r.Some? {
      assert id in t.pointers && name in t.pointers[id].indices;
      var idx := t.pointers[id].indices[name];
      ElementKind(p, l, ColKey(IntKind, name), idx);
      ElementKind(p, l, ColKey(StrKind, name), idx);
    }
  }

  lemma ElementKind(p: Partition, l: Lookup, k: ColKey, idx: nat)
    requires p.Coherent() && InTrace(l, |p.trace|)
    ensures var r := Element(p.trace[l.columns].columns, p.trace[l.data].columns, k, idx);
            r.Some? ==> r.value.Kind() == k.kind
  {
    if idx < |RowsIn(p.trace[l.data].columns, k)| {
      CellKinds(p, l.data, k, idx);
    }
  }

  /** Between batches a `Get` node gives the attribute as the last write left it. */
  lemma IdleGet(p: Partition, id: u64, name: Name)
    requires p.Idle() && OneKind(Used(ItemsIn(p.log)), name)
    ensures var now := Lookup(|p.trace| - 1, |p.trace| - 1, |p.trace| - 1);
            && InTrace(now, |p.trace|)
            && GetNode(p.trace, now, now, now, id, name) == AttributeIn(StateAfter(p.log), id, name)
  {
    hide StateAfter, TraceOk, CacheSound, Direct, Cells, OrdersOk, Resolves, ItemsIn, Used, GetNode, OneKind;
    var n := |p.trace| - 1;
    var now := Lookup(n, n, n);
    assert ItemsIn(p.log) + p.partial == ItemsIn(p.log);
    var i := GetNodeSeesOnePrefix(p, now, now, now, id, name);
    assert p.log[..|p.log|] == p.log;
  }

  /// Scan, Aggregate and Range work on rows, whoever owns them

  /** `data.iter().flatten()`. */
  function Present(rows: Rows): (vs: seq<Value>)
    ensures |vs| <= |rows|
  {
    if rows == [] then []
    else
      var init := Present(rows[..|rows| - 1]);
      if rows[|rows| - 1].Some? then init + [rows[|rows| - 1].value] else init
  }

  /** Everything ever written to a column, in order. */
  function History(cells: Entries, k: ColKey): seq<Value> {
    if cells == [] then []
    else
      var e := cells[|cells| - 1];
      History(cells[..|cells| - 1], k) + if KeyOf(e) == k then [e.value] else []
  }

  function Filled(vs: seq<Value>): (rows: Rows)
    ensures |rows| == |vs|
  {
    seq(|vs|, i requires 0 <= i < |vs| => Some(vs[i]))
  }

  /** A column holds its whole history: nothing in it is ever superseded or removed. */
  lemma {:induction false} ColumnIsHistory(cells: Entries, k: ColKey)
    ensures RowsIn(Direct(cells), k) == Filled(History(cells, k))
  {
    if cells != [] {
      var init, e := cells[..|cells| - 1], cells[|cells| - 1];
      ColumnIsHistory(init, k);
      assert DirectOn(map[], cells) == Pushed(DirectOn(map[], init), e);
      hide DirectOn;
      if KeyOf(e) == k {
        assert Filled(History(init, k) + [e.value]) == Filled(History(init, k)) + [Some(e.value)];
      } else {
        assert History(cells, k) == History(init, k) + [];
      }
    }
  }

  lemma {:induction false} PresentFilled(vs: seq<Value>)
    ensures Present(Filled(vs)) == vs
  {
    if vs == [] {
    } else {
      var init := vs[..|vs| - 1];
      PresentFilled(init);
      assert Filled(vs)[..|vs| - 1] == Filled(init);
      assert vs == init + [vs[|vs| - 1]];
    }
  }

  /** `QueryNode::Scan`: the int column of that name, or else the string column, or else the
      blob column. */
  method Scan(columns: Columns, data: Columns, attr: Name) returns (r: Option<(Kind, seq<Value>)>)
    ensures ColKey(IntKind, attr) in columns ==> r == Some((IntKind, Present(RowsIn(data, ColKey(IntKind, attr)))))
    ensures ColKey(IntKind, attr) !in columns && ColKey(StrKind, attr) in columns ==>
              r == Some((StrKind, Present(RowsIn(data, ColKey(StrKind, attr)))))
    ensures ColKey(IntKind, attr) !in columns && ColKey(StrKind, attr) !in columns ==>
              r == if ColKey(BlobKind, attr) !in columns then None
                   else Some((BlobKind, Present(RowsIn(data, ColKey(BlobKind, attr)))))
  {
    hide Present;
    var kind;
    if ColKey(IntKind, attr) in columns {
      kind := IntKind;
    } else if ColKey(StrKind, attr) in columns {
      kind := StrKind;
    } else if ColKey(BlobKind, attr) in columns {
      kind := BlobKind;
    } else {
      return None;
    }
    var vs := Flatten(RowsIn(data, ColKey(kind, attr)));
    r := Some((kind, vs));
  }

  method Flatten(rows: Rows) returns (vs: seq<Value>)
    ensures vs == Present(rows)
  {
    hide Present;
    vs := [];
    PresentConcat([], []);
    assert rows[..0] == [];
    for i := 0 to |rows|
      invariant vs == Present(rows[..i])
    {
      RowAdds(rows, i);
      if rows[i].Some? {
        vs := vs + [rows[i].value];
      }
    }
    assert rows[..|rows|] == rows;
  }

  /** A scan at any moment gives the first so many values ever written to the column: records
      that have been replaced or deleted are included. Later scans give no less. */
  lemma ScanSeesHistory(p: Partition, i: nat, j: nat, k: ColKey)
    requires p.Coherent() && i <= j < |p.trace|
    ensures Present(RowsIn(p.trace[i].columns, k)) <= Present(RowsIn(p.trace[j].columns, k))
            <= History(Cells(p.orders), k)
  {
    hide StateAfter, Resolves, Cells, OrdersOk, SnapOk, Direct, History;
    assert Follows(p.trace[i], p.trace[j]) && Follows(p.trace[j], p.trace[|p.trace| - 1]);
    var a, b, all := RowsIn(p.trace[i].columns, k), RowsIn(p.trace[j].columns, k), RowsIn(p.Working(), k);
    assert a <= b <= RowsIn(p.data, k) <= all;
    hide TraceOk, CacheSound;
    var vs := History(Cells(p.orders), k);
    ColumnIsHistory(Cells(p.orders), k);
    FilledPrefix(vs, |b|);
    FilledPrefix(vs[..|b|], |a|);
    PresentFilled(vs[..|b|]);
    PresentFilled(vs[..|a|]);
    assert b == Filled(vs)[..|b|] && a == b[..|a|] && vs[..|b|][..|a|] == vs[..|a|];
  }

  lemma FilledPrefix(vs: seq<Value>, n: nat)
    requires n <= |vs|
    ensures Filled(vs)[..n] == Filled(vs[..n])
  {
  }

  /** The total of a scan; only ints add up. */
  function Sum(vs: seq<Value>): nat {
    if vs == [] then 0 else Sum(vs[..|vs| - 1]) + if vs[|vs| - 1].Int? then vs[|vs| - 1].n else 0
  }

  lemma {:induction false} SumConcat(a: seq<Value>, b: seq<Value>)
    ensures Sum(a + b) == Sum(a) + Sum(b) && Sum([]) == 0
    decreases |b|
  {
    if b == [] {
      assert a + b == a;
    } else {
      SumConcat(a, b[..|b| - 1]);
      assert (a + b)[..|a + b| - 1] == a + b[..|b| - 1];
    }
  }

  lemma SumOne(v: Value)
    ensures Sum([v]) == if v.Int? then v.n else 0
  {
    assert [v][..0] == [];
  }

  lemma SumGrows(vs: seq<Value>, n: nat)
    requires n <= |vs|
    ensures Sum(vs[..n]) <= Sum(vs)
  {
    SumConcat(vs[..n], vs[n..]);
    assert vs == vs[..n] + vs[n..];
  }

  lemma {:induction false} PresentConcat(a: Rows, b: Rows)
    ensures Present(a + b) == Present(a) + Present(b) && Present([]) == []
    decreases |b|
  {
    if b == [] {
      assert a + b == a;
    } else {
      PresentConcat(a, b[..|b| - 1]);
      assert (a + b)[..|a + b| - 1] == a + b[..|b| - 1];
    }
  }

  lemma PresentOne(row: Option<Value>)
    ensures Present([row]) == if row.Some? then [row.value] else []
  {
    assert [row][..0] == [];
  }

  lemma {:induction false} IntsConcat(a: seq<Value>, b: seq<Value>)
    ensures Ints(a + b) == Ints(a) + Ints(b) && Ints([]) == []
    decreases |b|
  {
    if b == [] {
      assert a + b == a;
    } else {
      IntsConcat(a, b[..|b| - 1]);
      assert (a + b)[..|a + b| - 1] == a + b[..|b| - 1];
    }
  }

  lemma IntsOne(v: Value)
    ensures Ints([v]) == if v.Int? then [v.n] else []
  {
    assert [v][..0] == [];
  }

  /** What one more row adds to a scan. */
  lemma RowAdds(rows: Rows, i: nat)
    requires i < |rows|
    ensures Present(rows[..i + 1]) == if rows[i].Some? then Present(rows[..i]) + [rows[i].value] else Present(rows[..i])
  {
    hide Present;
    assert rows[..i + 1] == rows[..i] + [rows[i]];
    PresentConcat(rows[..i], [rows[i]]);
    PresentOne(rows[i]);
    assert Present(rows[..i]) + [] == Present(rows[..i]);
  }

  datatype AggregateOp = SumOp | CountOp | MinOp | MaxOp | AvgOp

  datatype QueryResult = IntSum(total: nat) | Count(n: nat) | IntMin(least: u32) | IntMax(greatest: u32)
    | IntAvg(average: real) | NoResult

  /** `QueryNode::Aggregate`: one pass over the rows of the int column of that name. The
      average is the exact quotient. */
  method Aggregate(columns: Columns, data: Columns, attr: Name, op: AggregateOp) returns (r: QueryResult)
    ensures ColKey(IntKind, attr) !in columns ==> r == NoResult
    ensures ColKey(IntKind, attr) in columns ==>
              var vs := Present(RowsIn(data, ColKey(IntKind, attr)));
              match op
              case SumOp => r == IntSum(Sum(vs))
              case CountOp => r == Count(|vs|)
              case MinOp => r == IntMin(Least(Ints(vs)))
              case MaxOp => r == IntMax(Greatest(Ints(vs)))
              case AvgOp => r == if vs == [] then NoResult else IntAvg(Sum(vs) as real / |vs| as real)
  {
    hide Present, Sum, Ints, LeastOf, GreatestOf, Tallied, Smaller, Larger;
    var k := ColKey(IntKind, attr);
    if k !in columns {
      return NoResult;
    }
    var rows := RowsIn(data, k);
    var total: nat, count: nat := 0, 0;
    var least: Option<u32>, greatest: Option<u32> := None, None;
    NoRows(rows);
    for i := 0 to |rows|
      invariant Tallied(Present(rows[..i]), total, count, least, greatest)
    {
      RowAdds(rows, i);
      if rows[i].Some? {
        TallyOne(Present(rows[..i]), rows[i].value, total, count, least, greatest);
        count := count + 1;
        if rows[i].value.Int? {
          var n := rows[i].value.n;
          total, least, greatest := total + n, Some(Smaller(least, n)), Some(Larger(greatest, n));
        }
      }
    }
    assert rows[..|rows|] == rows;
    Tally(Present(rows), total, count, least, greatest);
    match op
    case SumOp => r := IntSum(total);
    case CountOp => r := Count(count);
    case MinOp => r := IntMin(if least.Some? then least.value else 0);
    case MaxOp => r := IntMax(if greatest.Some? then greatest.value else 0);
    case AvgOp => r := if count > 0 then IntAvg(total as real / count as real) else NoResult;
  }

  function Smaller(m: Option<u32>, n: u32): u32 {
    if m.Some? && m.value <= n then m.value else n
  }

  function Larger(m: Option<u32>, n: u32): u32 {
    if m.Some? && m.value >= n then m.value else n
  }

  /** The running total, count and extremes of the values so far. */
  ghost predicate Tallied(vs: seq<Value>, total: nat, count: nat, least: Option<u32>, greatest: Option<u32>) {
    total == Sum(vs) && count == |vs| && least == LeastOf(Ints(vs)) && greatest == GreatestOf(Ints(vs))
  }

  lemma TallyOne(vs: seq<Value>, v: Value, total: nat, count: nat, least: Option<u32>, greatest: Option<u32>)
    requires Tallied(vs, total, count, least, greatest)
    ensures v.Int? ==> Tallied(vs + [v], total + v.n, count + 1, Some(Smaller(least, v.n)), Some(Larger(greatest, v.n)))
    ensures !v.Int? ==> Tallied(vs + [v], total, count + 1, least, greatest)
  {
    hide Sum, Ints, Least, Greatest;
    SumConcat(vs, [v]);
    SumOne(v);
    IntsConcat(vs, [v]);
    IntsOne(v);
    if v.Int? {
      OneMoreInt(Ints(vs), v.n);
    } else {
      assert Ints(vs) + [] == Ints(vs);
    }
  }

  lemma Tally(vs: seq<Value>, total: nat, count: nat, least: Option<u32>, greatest: Option<u32>)
    requires Tallied(vs, total, count, least, greatest)
    ensures total == Sum(vs) && count == |vs|
    ensures Least(Ints(vs)) == if least.Some? then least.value else 0
    ensures Greatest(Ints(vs)) == if greatest.Some? then greatest.value else 0
  {
    hide Sum, Ints;
  }

  lemma NoRows(rows: Rows)
    ensures Tallied(Present(rows[..0]), 0, 0, None, None)
  {
  }

  function LeastOf(vs: seq<u32>): Option<u32> {
    if vs == [] then None else Some(Least(vs))
  }

  function GreatestOf(vs: seq<u32>): Option<u32> {
    if vs == [] then None else Some(Greatest(vs))
  }

  lemma OneMoreInt(vs: seq<u32>, n: u32)
    ensures Least(vs + [n]) == if vs != [] && Least(vs) <= n then Least(vs) else n
    ensures Greatest(vs + [n]) == if vs != [] && Greatest(vs) >= n then Greatest(vs) else n
  {
    var all := vs + [n];
    hide Least, Greatest;
    assert n in all && (vs != [] ==> Least(vs) in all && Greatest(vs) in all);
    assert forall v :: v in all ==> v in vs || v == n;
  }

  /** `Sum` and `Count` never go down, whatever is replaced or deleted, and never exceed what
      was ever written. */
  lemma AggregatesNeverShrink(p: Partition, i: nat, j: nat, k: ColKey)
    requires p.Coherent() && i <= j < |p.trace|
    ensures var a, b, all := Present(RowsIn(p.trace[i].columns, k)), Present(RowsIn(p.trace[j].columns, k)),
                History(Cells(p.orders), k);
            |a| <= |b| <= |all| && Sum(a) <= Sum(b) <= Sum(all)
  {
    hide StateAfter, Resolves, Cells, OrdersOk, SnapOk, Direct, History, TraceOk, CacheSound, Present, Sum;
    ScanSeesHistory(p, i, j, k);
    var a, b, all := Present(RowsIn(p.trace[i].columns, k)), Present(RowsIn(p.trace[j].columns, k)),
        History(Cells(p.orders), k);
    SumGrows(b, |a|);
    SumGrows(all, |b|);
    assert b[..|a|] == a && all[..|b|] == b;
  }

  /** Between batches the aggregates are exactly those of everything ever written. */
  lemma IdleAggregates(p: Partition, k: ColKey)
    requires p.Idle()
    ensures Present(RowsIn(p.data, k)) == History(Cells(p.orders), k)
    ensures Sum(Present(RowsIn(p.data, k))) == Sum(History(Cells(p.orders), k))
  {
    hide StateAfter, Resolves, Cells, OrdersOk, Direct, History, TraceOk, Present;
    NothingCached(p.data, p.waitlists, p.guarded, p.cached, p.cachedWaits);
    hide CacheSound;
    ColumnIsHistory(Cells(p.orders), k);
    PresentFilled(History(Cells(p.orders), k));
  }

  lemma {:induction false} HistoryConcat(a: Entries, b: Entries, k: ColKey)
    ensures History(a + b, k) == History(a, k) + History(b, k)
    decreases |b|
  {
    if b == [] {
      assert a + b == a;
    } else {
      HistoryConcat(a, b[..|b| - 1], k);
      assert (a + b)[..|a + b| - 1] == a + b[..|b| - 1];
    }
  }

  lemma HistoryOne(e: Attr, k: ColKey)
    ensures History([e], k) == if KeyOf(e) == k then [e.value] else []
  {
    assert [e][..0] == [];
  }

  /** Inserting one int raises the total of its column by exactly that int, whether or not it
      replaces an earlier value of the entity, and changes no other total. */
  method TotalRises(p: Partition, id: u64, n: Name, v: u32)
    requires p.Idle() && IsUtf8(n)
    modifies p, p.storage
    ensures p.Idle()
    ensures forall k :: Sum(Present(RowsIn(p.data, k)))
                        == old(Sum(Present(RowsIn(p.data, k)))) + if k == ColKey(IntKind, n) then v else 0
  {
    hide IsUtf8, Resolves, StateAfter, Direct, Cells, CacheSound, TraceOk, ItemsEffect, ItemsIn, Present, Sum;
    hide History, ItemsOf, ItemOf, WellTypedItem;
    ghost var orders, log := p.orders, p.log;
    forall k ensures Sum(Present(RowsIn(p.data, k))) == Sum(History(Cells(orders), k)) {
      IdleAggregates(p, k);
    }
    IntProper(id, n, v);
    ItemsInStep(log, Did(Insert(IntItem(id, n, v))));
    p.ApplyOne(Insert(IntItem(id, n, v)));
    assert ItemsIn(log) + [] == ItemsIn(log) && ItemsIn(p.log) + [] == ItemsIn(p.log);
    NewOrder(orders, p.orders, ItemsIn(log), id, n, v);
    forall k
      ensures Sum(Present(RowsIn(p.data, k)))
              == Sum(History(Cells(orders), k)) + if k == ColKey(IntKind, n) then v else 0
    {
      IdleAggregates(p, k);
      HistoryConcat(Cells(orders), [Attr(n, Int(v))], k);
      HistoryOne(Attr(n, Int(v)), k);
      SumConcat(History(Cells(orders), k), History([Attr(n, Int(v))], k));
      SumConcat([], []);
      SumOne(Int(v));
    }
  }

  lemma IntProper(id: u64, n: Name, v: u32)
    requires IsUtf8(n)
    ensures Admissible(Apply(Insert(IntItem(id, n, v))))
    ensures InsertedBy(Did(Insert(IntItem(id, n, v)))) == [IntItem(id, n, v)]
  {
    hide IsUtf8;
  }

  /** The cells that inserting one int adds. */
  lemma NewOrder(before: seq<Item<Entries>>, after: seq<Item<Entries>>, items: seq<Item<Attributes>>,
                 id: u64, n: Name, v: u32)
    requires before <= after && ItemsOf(before) == items && ItemsOf(after) == items + [IntItem(id, n, v)]
    requires forall i :: 0 <= i < |after| ==> WellTypedItem(after[i])
    ensures Cells(after) == Cells(before) + [Attr(n, Int(v))]
  {
    ItemsOfAt(before);
    ItemsOfAt(after);
    hide ItemsOf, ItemOf, WellTypedItem, Cells;
    assert |after| == |before| + 1;
    var it := after[|before|];
    assert after == before + [it];
    IntOrder(it, id, n, v);
    CellsStep(before, it);
    assert [] + [Attr(n, Int(v))] + [] == [Attr(n, Int(v))];
  }

  /** `Min` and `Max` with their default for an empty column. */
  function Least(vs: seq<u32>): (m: u32)
    ensures vs == [] ==> m == 0
    ensures vs != [] ==> m in vs && forall v :: v in vs ==> m <= v
  {
    if vs == [] then 0
    else if |vs| == 1 then vs[0]
    else
      var m := Least(vs[1..]);
      assert vs == [vs[0]] + vs[1..];
      if vs[0] < m then vs[0] else m
  }

  function Greatest(vs: seq<u32>): (m: u32)
    ensures vs == [] ==> m == 0
    ensures vs != [] ==> m in vs && forall v :: v in vs ==> v <= m
  {
    if vs == [] then 0
    else if |vs| == 1 then vs[0]
    else
      var m := Greatest(vs[1..]);
      assert vs == [vs[0]] + vs[1..];
      if vs[0] < m then m else vs[0]
  }

  /** The ints among the values of a scan; a column of ints holds nothing else. */
  function Ints(vs: seq<Value>): seq<u32> {
    if vs == [] then []
    else
      var init, v := Ints(vs[..|vs| - 1]), vs[|vs| - 1];
      if v.Int? then init + [v.n] else init
  }

  lemma {:induction false} IntsBelow(vs: seq<Value>, n: nat)
    requires n <= |vs|
    ensures Ints(vs[..n]) <= Ints(vs)
  {
    if n == |vs| {
      assert vs[..n] == vs;
    } else {
      var init := vs[..|vs| - 1];
      IntsBelow(init, n);
      assert init[..n] == vs[..n];
    }
  }

  /** `Min` never goes up and `Max` never goes down, whatever is replaced or deleted, and
      neither leaves the range of what was ever written. */
  lemma ExtremesWiden(p: Partition, i: nat, j: nat, k: ColKey)
    requires p.Coherent() && i <= j < |p.trace|
    ensures var a := Ints(Present(RowsIn(p.trace[i].columns, k)));
            var b := Ints(Present(RowsIn(p.trace[j].columns, k)));
            var all := Ints(History(Cells(p.orders), k));
            a != [] ==> Least(all) <= Least(b) <= Least(a) <= Greatest(a) <= Greatest(b) <= Greatest(all)
  {
    hide StateAfter, Resolves, Cells, OrdersOk, SnapOk, Direct, History, TraceOk, CacheSound, Present;
    ScanSeesHistory(p, i, j, k);
    var x, y := Present(RowsIn(p.trace[i].columns, k)), Present(RowsIn(p.trace[j].columns, k));
    var h := History(Cells(p.orders), k);
    assert y[..|x|] == x && h[..|y|] == y;
    IntsBelow(y, |x|);
    IntsBelow(h, |y|);
    hide Ints;
    ExtremesBelow(Ints(x), Ints(y));
    ExtremesBelow(Ints(y), Ints(h));
  }

  lemma ExtremesBelow(a: seq<u32>, b: seq<u32>)
    requires a <= b
    ensures a != [] ==> Least(b) <= Least(a) <= Greatest(a) <= Greatest(b)
  {
    if a != [] {
      assert Least(a) in a && Greatest(a) in a;
      assert forall v :: v in a ==> v in b;
    }
  }

  /** Between batches they are the extremes of everything ever written, or 0. */
  lemma IdleExtremes(p: Partition, k: ColKey)
    requires p.Idle()
    ensures var vs, all := Ints(Present(RowsIn(p.data, k))), Ints(History(Cells(p.orders), k));
            && (all == [] ==> Least(vs) == Greatest(vs) == 0)
            && (all != [] ==> Least(vs) in all && Greatest(vs) in all && forall v :: v in all ==>
                  Least(vs) <= v <= Greatest(vs))
  {
    hide Cells, History, Present, Ints;
    IdleAggregates(p, k);
  }

  /** `QueryNode::Range`: rows from the entity's own index on. */
  function Range(rows: Rows, start: nat, len: nat): seq<Value> {
    if start >= |rows| then []
    else if start + len <= |rows| then Present(rows[start..start + len])
    else Present(rows[start..])
  }

  /** A longer range is a range followed by the next one, and a single row gives its value if
      it is there and present. */
  lemma RangeSplit(rows: Rows, start: nat, a: nat, b: nat)
    ensures Range(rows, start, a + b) == Range(rows, start, a) + Range(rows, start + a, b)
    ensures Range(rows, start, 0) == []
    ensures Range(rows, start, 1) == if start < |rows| && rows[start].Some? then [rows[start].value] else []
  {
    hide Present;
    PresentConcat([], []);
    if start < |rows| {
      assert rows[start..start + 1] == [rows[start]];
      PresentOne(rows[start]);
      if start + a < |rows| {
        var end := if start + a + b <= |rows| then start + a + b else |rows|;
        assert rows[start..end] == rows[start..start + a] + rows[start + a..end];
        PresentConcat(rows[start..start + a], rows[start + a..end]);
        assert rows[start..] == rows[start..|rows|] && rows[start + a..] == rows[start + a..|rows|];
      } else {
        assert rows[start..] == rows[start..|rows|];
      }
    }
  }

  /** A range, looked up and loaded at any moments after the pointer, starts with the entity's
      own value and goes on with what was written to the column next, by any entity. */
  lemma RangeReadsOn(p: Partition, i: nat, j: nat, k: ColKey, start: nat, v: Value, len: nat)
    requires p.Coherent() && i <= j < |p.trace|
    requires CellAt(p.trace[i].columns, k, start, v)
    ensures var h, rows := History(Cells(p.orders), k), RowsIn(p.trace[j].columns, k);
            && start < |rows| <= |h| && h[start] == v
            && Range(rows, start, len) == h[start..if start + len <= |rows| then start + len else |rows|]
  {
    hide StateAfter, Resolves, Cells, OrdersOk, SnapOk, Direct, History, Present;
    assert Follows(p.trace[i], p.trace[j]) && Follows(p.trace[j], p.trace[|p.trace| - 1]);
    var h, rows := History(Cells(p.orders), k), RowsIn(p.trace[j].columns, k);
    assert p.trace[i].columns[k] <= rows <= RowsIn(p.data, k) <= RowsIn(p.Working(), k);
    hide TraceOk, CacheSound;
    ColumnIsHistory(Cells(p.orders), k);
    var end := if start + len <= |rows| then start + len else |rows|;
    assert rows == Filled(h)[..|rows|];
    assert rows[start..end] == Filled(h[start..end]);
    PresentFilled(h[start..end]);
    assert rows[start..] == rows[start..|rows|];
  }

  /** The pointer that a reader loaded leads to such a cell. */
  lemma RangeStarts(p: Partition, i: nat, id: u64, name: Name)
    requires p.Coherent() && i < |p.trace| && p.trace[i].prefix <= |p.log|
    requires var s := PrefixState(p, i); id in s && name in s[id]
    ensures var v := PrefixState(p, i)[id][name];
            && id in p.trace[i].pointers && name in p.trace[i].pointers[id].indices
            && CellAt(p.trace[i].columns, ColKey(v.Kind(), name), p.trace[i].pointers[id].indices[name], v)
  {
    assert SnapOk(p.trace[i], p.log);
    hide StateAfter, TraceOk, CacheSound, Direct, Cells, OrdersOk;
    var s := PrefixState(p, i);
    assert Backed(p.trace[i].pointers[id].indices, p.trace[i].columns, s[id]);
  }
}
