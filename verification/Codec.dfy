/** Binary encoding of write commands and entities (src/core/commands.rs, src/io/storage.rs). */
module Codec {
  import opened Bytes

  datatype Kind = StrKind | IntKind | BlobKind

  /** A cell of a column. Strings are kept as their UTF-8 bytes. */
  datatype Value = Str(s: seq<byte>) | Int(n: u32) | Blob(b: seq<byte>) {
    function Kind(): Kind {
      match this
      case Str(_) => StrKind
      case Int(_) => IntKind
      case Blob(_) => BlobKind
    }

    /** A value the source can hold: strings are UTF-8. */
    ghost predicate WellFormed() {
      Str? ==> IsUtf8(s)
    }

    /** Its length survives the cast to u32. */
    ghost predicate Fits() {
      match this
      case Str(s) => |s| < 0x1_0000_0000
      case Int(_) => true
      case Blob(b) => |b| < 0x1_0000_0000
    }
  }

  type Name = seq<byte>

  datatype Attr = Attr(name: Name, value: Value)

  /** An attribute map in the order its hash map is iterated. */
  type Entries = seq<Attr>

  type Attributes = map<Name, Value>

  /** The arguments of one insert, and the content of one `EntityData`. `A` is `Entries`
      for the side that is written and `Attributes` for the side that is read back. */
  datatype Item<+A> = Item(id: u64, strs: A, ints: A, blobs: A)

  datatype WriteCommand<+A> =
    | Insert(item: Item<A>)
    | BatchInsert(items: seq<Item<A>>)
    | Delete(id: u64)
    | InsertFast(id: u64, epoch: u32, recordType: u32, payload: seq<byte>)

  /// What an iteration order stands for

  function AddAll(acc: Attributes, es: Entries): Attributes
    decreases |es|
  {
    if es == [] then acc else AddAll(acc[es[0].name := es[0].value], es[1..])
  }

  function AttributesOf(es: Entries): Attributes {
    AddAll(map[], es)
  }

  function ItemOf(it: Item<Entries>): Item<Attributes> {
    Item(it.id, AttributesOf(it.strs), AttributesOf(it.ints), AttributesOf(it.blobs))
  }

  function ItemsOf(its: seq<Item<Entries>>): seq<Item<Attributes>> {
    if its == [] then [] else [ItemOf(its[0])] + ItemsOf(its[1..])
  }

  function CommandOf(c: WriteCommand<Entries>): WriteCommand<Attributes> {
    match c
    case Insert(it) => Insert(ItemOf(it))
    case BatchInsert(its) => BatchInsert(ItemsOf(its))
    case Delete(id) => Delete(id)
    case InsertFast(id, e, t, p) => InsertFast(id, e, t, p)
  }

  /** What the type `Attributes<V>` guarantees of an iteration: one kind of value, UTF-8
      names, and no name twice. */
  ghost predicate WellTyped(kind: Kind, es: Entries) {
    && (forall i :: 0 <= i < |es| ==> es[i].value.Kind() == kind && es[i].value.WellFormed() && IsUtf8(es[i].name))
    && (forall i, j :: 0 <= i < j < |es| ==> es[i].name != es[j].name)
  }

  ghost predicate WellTypedItem(it: Item<Entries>) {
    WellTyped(StrKind, it.strs) && WellTyped(IntKind, it.ints) && WellTyped(BlobKind, it.blobs)
  }

  ghost predicate WellTypedCommand(c: WriteCommand<Entries>) {
    match c
    case Insert(it) => WellTypedItem(it)
    case BatchInsert(its) => forall it :: it in its ==> WellTypedItem(it)
    case Delete(_) => true
    case InsertFast(_, _, _, _) => true
  }

  /// Counts and lengths that survive the cast to u32

  ghost predicate Fits(m: Attributes) {
    |m| < 0x1_0000_0000 && forall k :: k in m ==> |k| < 0x1_0000_0000 && m[k].Fits()
  }

  ghost predicate ItemFits(it: Item<Attributes>) {
    Fits(it.strs) && Fits(it.ints) && Fits(it.blobs)
  }

  ghost predicate CommandFits(c: WriteCommand<Attributes>) {
    match c
    case Insert(it) => ItemFits(it)
    case BatchInsert(its) => |its| < 0x1_0000_0000 && forall it :: it in its ==> ItemFits(it)
    case Delete(_) => true
    case InsertFast(_, _, _, p) => |p| < 0x1_0000_0000
  }

  /// The encoders

  function ValueBytes(v: Value): seq<byte> {
    match v
    case Str(s) => Le32(|s|) + s
    case Int(n) => Le32(n)
    case Blob(b) => Le32(|b|) + b
  }

  function EntryBytes(e: Attr): seq<byte> {
    Le32(|e.name|) + e.name + ValueBytes(e.value)
  }

  function EntriesBytes(es: Entries): seq<byte> {
    if es == [] then [] else EntryBytes(es[0]) + EntriesBytes(es[1..])
  }

  function AttributesBytes(es: Entries): seq<byte> {
    Le32(|es|) + EntriesBytes(es)
  }

  function ItemBytes(it: Item<Entries>): seq<byte> {
    Le64(it.id) + (AttributesBytes(it.strs) + (AttributesBytes(it.ints) + AttributesBytes(it.blobs)))
  }

  function ItemsBytes(its: seq<Item<Entries>>): seq<byte> {
    if its == [] then [] else ItemBytes(its[0]) + ItemsBytes(its[1..])
  }

  function CommandBytes(c: WriteCommand<Entries>): (b: seq<byte>)
    ensures |b| > 0
  {
    match c
    case Insert(it) => [0] + ItemBytes(it)
    case BatchInsert(its) => [1] + (Le32(|its|) + ItemsBytes(its))
    case Delete(id) => [2] + Le64(id)
    case InsertFast(id, e, t, p) => [3] + (Le64(id) + (Le32(e) + (Le32(t) + (Le32(|p|) + p))))
  }

  /// The decoders

  /** A length-prefixed run of bytes. */
  function ReadBlob(buf: seq<byte>, pos: nat): (r: Parsed<seq<byte>>)
    ensures r.Ok? ==> |r.value| < 0x1_0000_0000 && pos < r.next <= |buf|
  {
    var (len, p) :- ReadU32(buf, pos);
    ReadBytes(buf, p, len)
  }

  /** The value decoders, which `unwrap` every read and the UTF-8 check. */
  function DecodeValue(kind: Kind, buf: seq<byte>, pos: nat): (r: Parsed<Value>)
    ensures !r.Bad?
    ensures r.Ok? ==> pos < r.next <= |buf|
  {
    if kind == IntKind then
      var (n, p) :- ReadU32(buf, pos).Unwrap();
      Ok(Int(n), p)
    else
      var (b, p) :- ReadBlob(buf, pos).Unwrap();
      if kind == BlobKind then Ok(Blob(b), p)
      else if IsUtf8(b) then Ok(Str(b), p) else Panic
  }

  function DecodeEntry(kind: Kind, buf: seq<byte>, pos: nat): (r: Parsed<Attr>)
    ensures r.Ok? ==> pos < r.next <= |buf|
  {
    var (name, p) :- ReadBlob(buf, pos);
    if !IsUtf8(name) then Bad
    else
      var (v, q) :- DecodeValue(kind, buf, p);
      Ok(Attr(name, v), q)
  }

  function DecodeEntries(kind: Kind, buf: seq<byte>, pos: nat, count: nat, acc: Attributes): Parsed<Attributes>
    decreases count
  {
    if count == 0 then Ok(acc, pos)
    else
      var (e, p) :- DecodeEntry(kind, buf, pos);
      DecodeEntries(kind, buf, p, count - 1, acc[e.name := e.value])
  }

  function DecodeAttributes(kind: Kind, buf: seq<byte>, pos: nat): Parsed<Attributes> {
    var (count, p) :- ReadU32(buf, pos);
    DecodeEntries(kind, buf, p, count, map[])
  }

  function DecodeItem(buf: seq<byte>, pos: nat): Parsed<Item<Attributes>> {
    var (id, p0) :- ReadU64(buf, pos);
    var (strs, p1) :- DecodeAttributes(StrKind, buf, p0);
    var (ints, p2) :- DecodeAttributes(IntKind, buf, p1);
    var (blobs, p3) :- DecodeAttributes(BlobKind, buf, p2);
    Ok(Item(id, strs, ints, blobs), p3)
  }

  function DecodeItems(buf: seq<byte>, pos: nat, count: nat, acc: seq<Item<Attributes>>): Parsed<seq<Item<Attributes>>>
    decreases count
  {
    if count == 0 then Ok(acc, pos)
    else
      var (it, p) :- DecodeItem(buf, pos);
      DecodeItems(buf, p, count - 1, acc + [it])
  }

  function DecodeFast(buf: seq<byte>, pos: nat): Parsed<WriteCommand<Attributes>> {
    var (id, p0) :- ReadU64(buf, pos);
    var (epoch, p1) :- ReadU32(buf, p0);
    var (recordType, p2) :- ReadU32(buf, p1);
    var (payload, p3) :- ReadBlob(buf, p2);
    Ok(InsertFast(id, epoch, recordType, payload), p3)
  }

  function DecodeCommand(buf: seq<byte>): Parsed<WriteCommand<Attributes>> {
    if |buf| == 0 then Bad
    else if buf[0] == 0 then
      var (it, p) :- DecodeItem(buf, 1);
      Ok(Insert(it), p)
    else if buf[0] == 1 then
      var (count, p) :- ReadU32(buf, 1);
      var (its, q) :- DecodeItems(buf, p, count, []);
      Ok(BatchInsert(its), q)
    else if buf[0] == 2 then
      var (id, p) :- ReadU64(buf, 1);
      Ok(Delete(id), p)
    else if buf[0] == 3 then DecodeFast(buf, 1)
    else Bad
  }

  /** `EntityData::decode`: one item, read from the start of the buffer. */
  function DecodeEntity(buf: seq<byte>): Parsed<Item<Attributes>> {
    DecodeItem(buf, 0)
  }

  /// Decoding undoes encoding, wherever the encoding lies in the buffer

  lemma ReadBlobAt(buf: seq<byte>, pos: nat, b: seq<byte>)
    requires |b| < 0x1_0000_0000 && At(buf, pos, Le32(|b|) + b)
    ensures ReadBlob(buf, pos) == Ok(b, pos + 4 + |b|)
  {
    AtSplit(buf, pos, Le32(|b|), b);
    ReadU32At(buf, pos, |b|);
  }

  /** An entry that the decoder of `kind` can read: the name and a string value are UTF-8, and
      the lengths fit in their prefixes. Names may repeat. */
  ghost predicate ReadableEntry(kind: Kind, e: Attr) {
    && e.value.Kind() == kind && e.value.WellFormed() && IsUtf8(e.name)
    && |e.name| < 0x1_0000_0000 && e.value.Fits()
  }

  ghost predicate Readable(kind: Kind, es: Entries) {
    |es| < 0x1_0000_0000 && forall i :: 0 <= i < |es| ==> ReadableEntry(kind, es[i])
  }

  ghost predicate ReadableItem(it: Item<Entries>) {
    Readable(StrKind, it.strs) && Readable(IntKind, it.ints) && Readable(BlobKind, it.blobs)
  }

  ghost predicate ReadableCommand(c: WriteCommand<Entries>) {
    match c
    case Insert(it) => ReadableItem(it)
    case BatchInsert(its) => |its| < 0x1_0000_0000 && forall it :: it in its ==> ReadableItem(it)
    case Delete(_) => true
    case InsertFast(_, _, _, p) => |p| < 0x1_0000_0000
  }

  lemma DecodeEntryAt(kind: Kind, buf: seq<byte>, pos: nat, e: Attr)
    requires At(buf, pos, EntryBytes(e)) && ReadableEntry(kind, e)
    ensures DecodeEntry(kind, buf, pos) == Ok(e, pos + |EntryBytes(e)|)
  {
    hide Le32, FromLe32, IsUtf8;
    var n := Le32(|e.name|) + e.name;
    AtSplit(buf, pos, n, ValueBytes(e.value));
    ReadBlobAt(buf, pos, e.name);
    var p := pos + |n|;
    match e.value
    case Str(s) => ReadBlobAt(buf, p, s);
    case Int(i) => ReadU32At(buf, p, i);
    case Blob(b) => ReadBlobAt(buf, p, b);
  }

  /** Every entry of the order fits in its length prefixes. */
  ghost predicate EntriesFit(es: Entries) {
    forall i :: 0 <= i < |es| ==> |es[i].name| < 0x1_0000_0000 && es[i].value.Fits()
  }

  lemma {:induction false} DecodeEntriesAt(kind: Kind, buf: seq<byte>, pos: nat, es: Entries, acc: Attributes)
    requires At(buf, pos, EntriesBytes(es)) && Readable(kind, es)
    ensures DecodeEntries(kind, buf, pos, |es|, acc) == Ok(AddAll(acc, es), pos + |EntriesBytes(es)|)
    decreases |es|
  {
    hide DecodeEntry, EntryBytes, ReadableEntry;
    if es == [] {
    } else {
      AtSplit(buf, pos, EntryBytes(es[0]), EntriesBytes(es[1..]));
      DecodeEntryAt(kind, buf, pos, es[0]);
      DecodeEntriesAt(kind, buf, pos + |EntryBytes(es[0])|, es[1..], acc[es[0].name := es[0].value]);
    }
  }

  /** The map an iteration order stands for holds exactly its entries. */
  lemma {:induction false} AddAllHolds(acc: Attributes, es: Entries)
    requires forall i, j :: 0 <= i < j < |es| ==> es[i].name != es[j].name
    requires forall i :: 0 <= i < |es| ==> es[i].name !in acc
    ensures var m := AddAll(acc, es);
            && |m| == |acc| + |es|
            && (forall k :: k in acc ==> k in m && m[k] == acc[k])
            && (forall i :: 0 <= i < |es| ==> es[i].name in m && m[es[i].name] == es[i].value)
            && (forall k :: k in m ==> k in acc || exists i :: 0 <= i < |es| && es[i].name == k)
    decreases |es|
  {
    if es == [] {
    } else {
      var acc' := acc[es[0].name := es[0].value];
      assert acc'.Keys == acc.Keys + {es[0].name};
      AddAllHolds(acc', es[1..]);
      var m := AddAll(acc, es);
      assert forall i :: 1 <= i < |es| ==> es[i] == es[1..][i - 1];
      forall k | k in m && k !in acc ensures exists i :: 0 <= i < |es| && es[i].name == k {
        if k != es[0].name {
          var i :| 0 <= i < |es[1..]| && es[1..][i].name == k;
          assert es[i + 1].name == k;
        }
      }
    }
  }

  /** A well-typed order fits exactly when its map does. */
  lemma FitsOfOrder(kind: Kind, es: Entries)
    requires WellTyped(kind, es)
    ensures Fits(AttributesOf(es)) <==> |es| < 0x1_0000_0000 && EntriesFit(es)
  {
    AddAllHolds(map[], es);
    hide AddAll, IsUtf8;
    var m := AttributesOf(es);
    if |es| < 0x1_0000_0000 && EntriesFit(es) {
      forall k | k in m ensures |k| < 0x1_0000_0000 && m[k].Fits() {
        var i :| 0 <= i < |es| && es[i].name == k;
      }
    }
  }

  lemma FittingIsReadable(kind: Kind, es: Entries)
    requires WellTyped(kind, es) && Fits(AttributesOf(es))
    ensures Readable(kind, es)
  {
    hide Fits, AttributesOf, IsUtf8;
    FitsOfOrder(kind, es);
  }

  lemma FittingItemIsReadable(it: Item<Entries>)
    requires WellTypedItem(it) && ItemFits(ItemOf(it))
    ensures ReadableItem(it)
  {
    hide Fits, AttributesOf, WellTyped, Readable;
    FittingIsReadable(StrKind, it.strs);
    FittingIsReadable(IntKind, it.ints);
    FittingIsReadable(BlobKind, it.blobs);
  }

  /** `decode_from` on an encoding, at any place of any buffer, gives the map back and
      advances the cursor by exactly the encoded length. */
  lemma DecodeAttributesAt(kind: Kind, buf: seq<byte>, pos: nat, es: Entries)
    requires At(buf, pos, AttributesBytes(es)) && Readable(kind, es)
    ensures DecodeAttributes(kind, buf, pos) == Ok(AttributesOf(es), pos + |AttributesBytes(es)|)
  {
    hide Le32, AddAll, EntriesBytes, DecodeEntries, ReadableEntry;
    AtSplit(buf, pos, Le32(|es|), EntriesBytes(es));
    ReadU32At(buf, pos, |es|);
    DecodeEntriesAt(kind, buf, pos + 4, es, map[]);
  }

  lemma DecodeItemAt(buf: seq<byte>, pos: nat, it: Item<Entries>)
    requires At(buf, pos, ItemBytes(it)) && ReadableItem(it)
    ensures DecodeItem(buf, pos) == Ok(ItemOf(it), pos + |ItemBytes(it)|)
  {
    hide Le64, AttributesBytes, DecodeAttributes, AttributesOf, Readable;
    var a, b, c := AttributesBytes(it.strs), AttributesBytes(it.ints), AttributesBytes(it.blobs);
    AtSplit(buf, pos, Le64(it.id), a + (b + c));
    AtSplit(buf, pos + 8, a, b + c);
    AtSplit(buf, pos + 8 + |a|, b, c);
    ReadU64At(buf, pos, it.id);
    DecodeAttributesAt(StrKind, buf, pos + 8, it.strs);
    DecodeAttributesAt(IntKind, buf, pos + 8 + |a|, it.ints);
    DecodeAttributesAt(BlobKind, buf, pos + 8 + |a| + |b|, it.blobs);
  }

  lemma {:induction false} DecodeItemsAt(buf: seq<byte>, pos: nat, its: seq<Item<Entries>>, acc: seq<Item<Attributes>>)
    requires At(buf, pos, ItemsBytes(its)) && forall it :: it in its ==> ReadableItem(it)
    ensures DecodeItems(buf, pos, |its|, acc) == Ok(acc + ItemsOf(its), pos + |ItemsBytes(its)|)
    decreases |its|
  {
    hide ItemBytes, DecodeItem, ItemOf, ReadableItem;
    if its == [] {
      assert acc + ItemsOf(its) == acc;
    } else {
      assert its[0] in its;
      AtSplit(buf, pos, ItemBytes(its[0]), ItemsBytes(its[1..]));
      DecodeItemAt(buf, pos, its[0]);
      DecodeItemsAt(buf, pos + |ItemBytes(its[0])|, its[1..], acc + [ItemOf(its[0])]);
      assert acc + [ItemOf(its[0])] + ItemsOf(its[1..]) == acc + ItemsOf(its);
    }
  }

  lemma {:induction false} ItemsOfAt(its: seq<Item<Entries>>)
    ensures |ItemsOf(its)| == |its|
    ensures forall i :: 0 <= i < |its| ==> ItemsOf(its)[i] == ItemOf(its[i])
  {
    if its == [] {
    } else {
      ItemsOfAt(its[1..]);
    }
  }

  lemma DecodeFastAt(buf: seq<byte>, pos: nat, c: WriteCommand<Entries>)
    requires c.InsertFast? && |c.payload| < 0x1_0000_0000
    requires At(buf, pos, Le64(c.id) + (Le32(c.epoch) + (Le32(c.recordType) + (Le32(|c.payload|) + c.payload))))
    ensures DecodeFast(buf, pos) == Ok(CommandOf(c), pos + 20 + |c.payload|)
  {
    hide Le64, Le32, ReadBlob, At;
    var d := Le32(|c.payload|) + c.payload;
    AtSplit(buf, pos, Le64(c.id), Le32(c.epoch) + (Le32(c.recordType) + d));
    AtSplit(buf, pos + 8, Le32(c.epoch), Le32(c.recordType) + d);
    AtSplit(buf, pos + 12, Le32(c.recordType), d);
    ReadU64At(buf, pos, c.id);
    ReadU32At(buf, pos + 8, c.epoch);
    ReadU32At(buf, pos + 12, c.recordType);
    ReadBlobAt(buf, pos + 16, c.payload);
  }

  lemma ItemsFit(its: seq<Item<Entries>>)
    requires forall it :: it in ItemsOf(its) ==> ItemFits(it)
    ensures |ItemsOf(its)| == |its| && forall it :: it in its ==> ItemFits(ItemOf(it))
  {
    hide ItemFits, ItemOf, ItemsOf;
    ItemsOfAt(its);
    forall it | it in its ensures ItemFits(ItemOf(it)) {
      var i :| 0 <= i < |its| && its[i] == it;
      assert ItemsOf(its)[i] in ItemsOf(its);
    }
  }

  lemma FittingCommandIsReadable(c: WriteCommand<Entries>)
    requires WellTypedCommand(c) && CommandFits(CommandOf(c))
    ensures ReadableCommand(c)
  {
    hide WellTypedItem, ItemFits, ItemOf, ItemsOf, ReadableItem;
    match c
    case Insert(it) => FittingItemIsReadable(it);
    case BatchInsert(its) =>
      ItemsFit(its);
      forall it | it in its ensures ReadableItem(it) {
        FittingItemIsReadable(it);
      }
    case _ =>
  }

  lemma DecodeBatchAt(buf: seq<byte>, pos: nat, its: seq<Item<Entries>>)
    requires ReadableCommand(BatchInsert(its)) && At(buf, pos, Le32(|its|) + ItemsBytes(its))
    ensures var end := pos + |Le32(|its|) + ItemsBytes(its)|;
            ReadU32(buf, pos) == Ok(|its|, pos + 4)
            && DecodeItems(buf, pos + 4, |its|, []) == Ok(ItemsOf(its), end)
  {
    hide Le32, DecodeItems, ItemsBytes, ReadableItem, ItemsOf, ReadU32, At;
    AtSplit(buf, pos, Le32(|its|), ItemsBytes(its));
    ReadU32At(buf, pos, |its|);
    DecodeItemsAt(buf, pos + 4, its, []);
    assert [] + ItemsOf(its) == ItemsOf(its);
  }

  /** A buffer that begins with an encoding decodes to its command; what lies behind it is
      not read. */
  lemma DecodeCommandAt(buf: seq<byte>, c: WriteCommand<Entries>)
    requires At(buf, 0, CommandBytes(c)) && ReadableCommand(c)
    ensures DecodeCommand(buf) == Ok(CommandOf(c), |CommandBytes(c)|)
  {
    hide Le64, Le32, DecodeItem, DecodeItems, DecodeFast, ItemBytes, ItemsBytes, ItemOf, ItemsOf, ReadU64, ReadU32;
    hide ReadableItem;
    var b := CommandBytes(c);
    AtSplit(buf, 0, [b[0]], b[1..]);
    assert b == [b[0]] + b[1..];
    assert buf[0] == buf[0..1][0] == b[0];
    match c
    case Insert(it) => DecodeItemAt(buf, 1, it);
    case BatchInsert(its) => DecodeBatchAt(buf, 1, its);
    case Delete(id) => ReadU64At(buf, 1, id);
    case InsertFast(id, e, t, p) => DecodeFastAt(buf, 1, c);
  }

  /** For every command and every iteration order of its maps, decoding the encoding gives
      the command back, reads all of it, and no `unwrap` fails. */
  lemma CommandRoundTrip(c: WriteCommand<Entries>)
    requires WellTypedCommand(c) && CommandFits(CommandOf(c))
    ensures DecodeCommand(CommandBytes(c)) == Ok(CommandOf(c), |CommandBytes(c)|)
  {
    hide CommandBytes, CommandOf, DecodeCommand, ReadableCommand, WellTypedCommand, CommandFits;
    FittingCommandIsReadable(c);
    DecodeCommandAt(CommandBytes(c), c);
  }

  /// What a decoder accepts is an encoding

  lemma Le64Onto(b: seq<byte>)
    requires |b| == 8
    ensures Le64(FromLe64(b)) == b
  {
    hide Le32, FromLe32;
    var lo, hi := FromLe32(b[..4]), FromLe32(b[4..]);
    var n := FromLe64(b);
    assert n as int == lo as int + 0x1_0000_0000 * (hi as int);
    assert Low(n) == lo && High(n) == hi;
    Le32Onto(b[..4]);
    Le32Onto(b[4..]);
  }

  lemma EncodedU32(buf: seq<byte>, pos: nat)
    requires ReadU32(buf, pos).Ok?
    ensures ReadU32(buf, pos).next == pos + 4 && At(buf, pos, Le32(ReadU32(buf, pos).value))
  {
    hide Le32, FromLe32;
    Le32Onto(buf[pos..pos + 4]);
  }

  lemma EncodedU64(buf: seq<byte>, pos: nat)
    requires ReadU64(buf, pos).Ok?
    ensures ReadU64(buf, pos).next == pos + 8 && At(buf, pos, Le64(ReadU64(buf, pos).value))
  {
    hide Le64, FromLe64;
    Le64Onto(buf[pos..pos + 8]);
  }

  lemma EncodedBlob(buf: seq<byte>, pos: nat)
    requires ReadBlob(buf, pos).Ok?
    ensures var b := ReadBlob(buf, pos).value;
            At(buf, pos, Le32(|b|) + b) && ReadBlob(buf, pos).next == pos + 4 + |b|
  {
    hide Le32, ReadU32;
    var b := ReadBlob(buf, pos).value;
    EncodedU32(buf, pos);
    AtSplit(buf, pos, Le32(|b|), b);
  }

  lemma EncodedValue(kind: Kind, buf: seq<byte>, pos: nat)
    requires DecodeValue(kind, buf, pos).Ok?
    ensures var v := DecodeValue(kind, buf, pos).value;
            && At(buf, pos, ValueBytes(v)) && DecodeValue(kind, buf, pos).next == pos + |ValueBytes(v)|
            && v.Kind() == kind && v.WellFormed() && v.Fits()
  {
    hide Le32, ReadU32, ReadBlob, At, IsUtf8;
    if kind == IntKind {
      EncodedU32(buf, pos);
    } else {
      EncodedBlob(buf, pos);
    }
  }

  lemma EncodedEntry(kind: Kind, buf: seq<byte>, pos: nat)
    requires DecodeEntry(kind, buf, pos).Ok?
    ensures var e := DecodeEntry(kind, buf, pos).value;
            && ReadableEntry(kind, e) && At(buf, pos, EntryBytes(e))
            && DecodeEntry(kind, buf, pos).next == pos + |EntryBytes(e)|
  {
    hide Le32, ReadBlob, DecodeValue, ValueBytes, At, IsUtf8;
    var (name, p) := ReadBlob(buf, pos).Extract();
    EncodedBlob(buf, pos);
    EncodedValue(kind, buf, p);
    AtSplit(buf, pos, Le32(|name|) + name, ValueBytes(DecodeValue(kind, buf, p).value));
  }

  lemma {:induction false} EncodedEntries(kind: Kind, buf: seq<byte>, pos: nat, count: nat, acc: Attributes)
    returns (es: Entries)
    requires DecodeEntries(kind, buf, pos, count, acc).Ok?
    ensures |es| == count && (forall i :: 0 <= i < |es| ==> ReadableEntry(kind, es[i]))
    ensures pos <= |buf| ==> At(buf, pos, EntriesBytes(es))
    ensures DecodeEntries(kind, buf, pos, count, acc) == Ok(AddAll(acc, es), pos + |EntriesBytes(es)|)
    decreases count
  {
    hide DecodeEntry, EntryBytes, ReadableEntry;
    if count == 0 {
      es := [];
    } else {
      var (e, p) := DecodeEntry(kind, buf, pos).Extract();
      EncodedEntry(kind, buf, pos);
      var rest := EncodedEntries(kind, buf, p, count - 1, acc[e.name := e.value]);
      es := [e] + rest;
      assert es[1..] == rest;
      AtSplit(buf, pos, EntryBytes(e), EntriesBytes(rest));
    }
  }

  lemma EncodedAttributes(kind: Kind, buf: seq<byte>, pos: nat) returns (es: Entries)
    requires DecodeAttributes(kind, buf, pos).Ok?
    ensures Readable(kind, es) && At(buf, pos, AttributesBytes(es))
    ensures DecodeAttributes(kind, buf, pos) == Ok(AttributesOf(es), pos + |AttributesBytes(es)|)
  {
    hide Le32, ReadU32, EntriesBytes, ReadableEntry, DecodeEntries, AddAll;
    var (count, p) := ReadU32(buf, pos).Extract();
    EncodedU32(buf, pos);
    es := EncodedEntries(kind, buf, p, count, map[]);
    AtSplit(buf, pos, Le32(|es|), EntriesBytes(es));
  }

  lemma EncodedItem(buf: seq<byte>, pos: nat) returns (it: Item<Entries>)
    requires DecodeItem(buf, pos).Ok?
    ensures ReadableItem(it) && At(buf, pos, ItemBytes(it))
    ensures DecodeItem(buf, pos) == Ok(ItemOf(it), pos + |ItemBytes(it)|)
  {
    hide Le64, ReadU64, AttributesBytes, DecodeAttributes, AttributesOf, Readable, At;
    var (id, p0) := ReadU64(buf, pos).Extract();
    EncodedU64(buf, pos);
    var strs := EncodedAttributes(StrKind, buf, p0);
    var (_, p1) := DecodeAttributes(StrKind, buf, p0).Extract();
    var ints := EncodedAttributes(IntKind, buf, p1);
    var (_, p2) := DecodeAttributes(IntKind, buf, p1).Extract();
    var blobs := EncodedAttributes(BlobKind, buf, p2);
    it := Item(id, strs, ints, blobs);
    var a, b, c := AttributesBytes(strs), AttributesBytes(ints), AttributesBytes(blobs);
    AtSplit(buf, p1, b, c);
    AtSplit(buf, p0, a, b + c);
    AtSplit(buf, pos, Le64(id), a + (b + c));
  }

  lemma {:induction false} EncodedItems(buf: seq<byte>, pos: nat, count: nat, acc: seq<Item<Attributes>>)
    returns (its: seq<Item<Entries>>)
    requires DecodeItems(buf, pos, count, acc).Ok? && pos <= |buf|
    ensures |its| == count && (forall it :: it in its ==> ReadableItem(it)) && At(buf, pos, ItemsBytes(its))
    ensures DecodeItems(buf, pos, count, acc) == Ok(acc + ItemsOf(its), pos + |ItemsBytes(its)|)
    decreases count
  {
    hide DecodeItem, ItemBytes, ReadableItem, ItemOf;
    if count == 0 {
      its := [];
      assert acc + ItemsOf(its) == acc;
    } else {
      var it := EncodedItem(buf, pos);
      var (item, p) := DecodeItem(buf, pos).Extract();
      var rest := EncodedItems(buf, p, count - 1, acc + [item]);
      its := [it] + rest;
      assert its[1..] == rest;
      AtSplit(buf, pos, ItemBytes(it), ItemsBytes(rest));
      assert acc + [item] + ItemsOf(rest) == acc + ItemsOf(its);
    }
  }

  lemma EncodedFast(buf: seq<byte>, pos: nat) returns (c: WriteCommand<Entries>)
    requires DecodeFast(buf, pos).Ok?
    ensures c.InsertFast? && |c.payload| < 0x1_0000_0000
    ensures At(buf, pos, Le64(c.id) + (Le32(c.epoch) + (Le32(c.recordType) + (Le32(|c.payload|) + c.payload))))
    ensures DecodeFast(buf, pos) == Ok(CommandOf(c), pos + 20 + |c.payload|)
  {
    hide Le64, Le32, ReadU32, ReadU64, ReadBlob, At;
    var (id, p0) := ReadU64(buf, pos).Extract();
    EncodedU64(buf, pos);
    var (epoch, p1) := ReadU32(buf, p0).Extract();
    EncodedU32(buf, p0);
    var (recordType, p2) := ReadU32(buf, p1).Extract();
    EncodedU32(buf, p1);
    var (payload, _) := ReadBlob(buf, p2).Extract();
    EncodedBlob(buf, p2);
    c := InsertFast(id, epoch, recordType, payload);
    var d := Le32(|payload|) + payload;
    AtSplit(buf, p1, Le32(recordType), d);
    AtSplit(buf, p0, Le32(epoch), Le32(recordType) + d);
    AtSplit(buf, pos, Le64(id), Le32(epoch) + (Le32(recordType) + d));
  }

  lemma EncodedCommand(buf: seq<byte>) returns (c: WriteCommand<Entries>)
    requires DecodeCommand(buf).Ok?
    ensures ReadableCommand(c) && At(buf, 0, CommandBytes(c))
    ensures DecodeCommand(buf) == Ok(CommandOf(c), |CommandBytes(c)|)
  {
    hide Le64, Le32, ReadU32, ReadU64, DecodeItem, DecodeItems, DecodeFast, ItemBytes, ItemsBytes, ItemOf, ItemsOf;
    hide At, ReadableItem;
    if buf[0] == 0 {
      var it := EncodedItem(buf, 1);
      c := Insert(it);
    } else if buf[0] == 1 {
      EncodedU32(buf, 1);
      var (count, p) := ReadU32(buf, 1).Extract();
      var its := EncodedItems(buf, p, count, []);
      AtSplit(buf, 1, Le32(count), ItemsBytes(its));
      assert [] + ItemsOf(its) == ItemsOf(its);
      c := BatchInsert(its);
    } else if buf[0] == 2 {
      EncodedU64(buf, 1);
      c := Delete(ReadU64(buf, 1).value);
    } else {
      c := EncodedFast(buf, 1);
    }
    FirstByte(buf, CommandBytes(c)[1..]);
  }

  lemma FirstByte(buf: seq<byte>, rest: seq<byte>)
    requires buf != [] && At(buf, 1, rest)
    ensures At(buf, 0, [buf[0]] + rest)
  {
    AtSplit(buf, 0, [buf[0]], rest);
  }

  /** The decoder accepts exactly the buffers that begin with an encoding, and gives what is
      encoded; the encoder may have repeated a name, and then its last value counts. */
  lemma DecodeExact(buf: seq<byte>, v: WriteCommand<Attributes>, n: nat)
    ensures DecodeCommand(buf) == Ok(v, n)
            <==> exists c :: ReadableCommand(c) && At(buf, 0, CommandBytes(c)) && CommandOf(c) == v
                             && |CommandBytes(c)| == n
  {
    hide CommandBytes, CommandOf, DecodeCommand, ReadableCommand, At;
    if DecodeCommand(buf) == Ok(v, n) {
      var c := EncodedCommand(buf);
    }
    forall c | ReadableCommand(c) && At(buf, 0, CommandBytes(c)) && CommandOf(c) == v && |CommandBytes(c)| == n
      ensures DecodeCommand(buf) == Ok(v, n)
    {
      DecodeCommandAt(buf, c);
    }
  }

  /** The same for the records of the entity file. */
  lemma DecodeEntityExact(buf: seq<byte>, v: Item<Attributes>, n: nat)
    ensures DecodeEntity(buf) == Ok(v, n)
            <==> exists it :: ReadableItem(it) && At(buf, 0, ItemBytes(it)) && ItemOf(it) == v && |ItemBytes(it)| == n
  {
    hide ItemBytes, ItemOf, DecodeItem, ReadableItem, At;
    if DecodeEntity(buf) == Ok(v, n) {
      var it := EncodedItem(buf, 0);
    }
    forall it | ReadableItem(it) && At(buf, 0, ItemBytes(it)) && ItemOf(it) == v && |ItemBytes(it)| == n
      ensures DecodeEntity(buf) == Ok(v, n)
    {
      DecodeItemAt(buf, 0, it);
    }
  }

  /** Every text survives as a string value, whatever follows it. */
  lemma TextDecodes(text: seq<int>, rest: seq<byte>)
    requires AllScalar(text) && |TextBytes(text)| < 0x1_0000_0000
    ensures var b := TextBytes(text);
            DecodeValue(StrKind, ValueBytes(Str(b)) + rest, 0) == Ok(Str(b), 4 + |b|)
  {
    hide Le32, IsUtf8, TextBytes, Scalar;
    var b := TextBytes(text);
    var buf := ValueBytes(Str(b)) + rest;
    Utf8Encodes(text);
    assert buf[0..4 + |b|] == Le32(|b|) + b;
    ReadBlobAt(buf, 0, b);
  }

  /// What a decoder accepts always fits, so nothing larger survives the round trip

  lemma DecodedEntryFits(kind: Kind, buf: seq<byte>, pos: nat)
    requires DecodeEntry(kind, buf, pos).Ok?
    ensures var e := DecodeEntry(kind, buf, pos).value; |e.name| < 0x1_0000_0000 && e.value.Fits()
  {
    hide ReadBlob, IsUtf8;
    var (name, p) := ReadBlob(buf, pos).Extract();
    if kind != IntKind {
      assert ReadBlob(buf, p).Ok?;
    }
  }

  lemma {:induction false} DecodedEntriesFit(kind: Kind, buf: seq<byte>, pos: nat, count: nat, acc: Attributes)
    requires DecodeEntries(kind, buf, pos, count, acc).Ok?
    requires |acc| + count < 0x1_0000_0000
    requires forall k :: k in acc ==> |k| < 0x1_0000_0000 && acc[k].Fits()
    ensures Fits(DecodeEntries(kind, buf, pos, count, acc).value)
    decreases count
  {
    hide DecodeEntry;
    if count == 0 {
    } else {
      var (e, p) := DecodeEntry(kind, buf, pos).Extract();
      DecodedEntryFits(kind, buf, pos);
      var acc' := acc[e.name := e.value];
      assert acc'.Keys == acc.Keys + {e.name};
      DecodedEntriesFit(kind, buf, p, count - 1, acc');
    }
  }

  lemma DecodedItemFits(buf: seq<byte>, pos: nat)
    requires DecodeItem(buf, pos).Ok?
    ensures ItemFits(DecodeItem(buf, pos).value)
  {
    hide FromLe32, Fits;
    var (_, p0) := ReadU64(buf, pos).Extract();
    var (n1, q1) := ReadU32(buf, p0).Extract();
    var (strs, p1) := DecodeAttributes(StrKind, buf, p0).Extract();
    var (n2, q2) := ReadU32(buf, p1).Extract();
    var (ints, p2) := DecodeAttributes(IntKind, buf, p1).Extract();
    var (n3, q3) := ReadU32(buf, p2).Extract();
    DecodedEntriesFit(StrKind, buf, q1, n1, map[]);
    DecodedEntriesFit(IntKind, buf, q2, n2, map[]);
    DecodedEntriesFit(BlobKind, buf, q3, n3, map[]);
  }

  lemma {:induction false} DecodedItemsFit(buf: seq<byte>, pos: nat, count: nat, acc: seq<Item<Attributes>>)
    requires DecodeItems(buf, pos, count, acc).Ok?
    requires |acc| + count < 0x1_0000_0000 && forall it :: it in acc ==> ItemFits(it)
    ensures CommandFits(BatchInsert(DecodeItems(buf, pos, count, acc).value))
    decreases count
  {
    hide DecodeItem, ItemFits;
    if count == 0 {
    } else {
      var (it, p) := DecodeItem(buf, pos).Extract();
      DecodedItemFits(buf, pos);
      DecodedItemsFit(buf, p, count - 1, acc + [it]);
    }
  }

  lemma DecodedCommandFits(buf: seq<byte>)
    requires DecodeCommand(buf).Ok?
    ensures CommandFits(DecodeCommand(buf).value)
  {
    hide FromLe32, ItemFits;
    if buf[0] == 0 {
      DecodedItemFits(buf, 1);
    } else if buf[0] == 1 {
      var (count, p) := ReadU32(buf, 1).Extract();
      DecodedItemsFit(buf, p, count, []);
    }
  }

  /** The encoding of a command decodes to that command exactly when every count and length
      in it fits in a u32. */
  lemma CommandRoundTripIff(c: WriteCommand<Entries>)
    requires WellTypedCommand(c)
    ensures DecodeCommand(CommandBytes(c)) == Ok(CommandOf(c), |CommandBytes(c)|) <==> CommandFits(CommandOf(c))
  {
    if CommandFits(CommandOf(c)) {
      CommandRoundTrip(c);
    } else if DecodeCommand(CommandBytes(c)).Ok? {
      DecodedCommandFits(CommandBytes(c));
    }
  }

  /** The same for `EntityData::encode` and `EntityData::decode`. */
  lemma EntityRoundTripIff(it: Item<Entries>)
    requires WellTypedItem(it)
    ensures DecodeEntity(ItemBytes(it)) == Ok(ItemOf(it), |ItemBytes(it)|) <==> ItemFits(ItemOf(it))
  {
    hide ItemBytes, DecodeItem, ItemFits, ItemOf, WellTypedItem, ReadableItem;
    var buf := ItemBytes(it);
    if ItemFits(ItemOf(it)) {
      AtTail([], buf);
      assert [] + buf == buf;
      FittingItemIsReadable(it);
      DecodeItemAt(buf, 0, it);
    } else if DecodeEntity(buf).Ok? {
      DecodedItemFits(buf, 0);
    }
  }

  /// When a decoder panics

  /** The first `n` entries from `pos` on decode, and end at `q`. */
  ghost predicate EntriesDecode(kind: Kind, buf: seq<byte>, pos: nat, n: nat, q: nat)
    decreases n
  {
    if n == 0 then pos == q
    else
      var e := DecodeEntry(kind, buf, pos);
      e.Ok? && EntriesDecode(kind, buf, e.next, n - 1, q)
  }

  /** The name at `pos` decodes, and the value behind it is cut short, or is a string that is
      not UTF-8. */
  ghost predicate BrokenValue(kind: Kind, buf: seq<byte>, pos: nat) {
    var name := ReadBlob(buf, pos);
    && name.Ok? && IsUtf8(name.value)
    && if kind == IntKind then |buf| < name.next + 4
       else ReadBlob(buf, name.next).Bad? || (kind == StrKind && !IsUtf8(ReadBlob(buf, name.next).value))
  }

  lemma EntryPanics(kind: Kind, buf: seq<byte>, pos: nat)
    ensures DecodeEntry(kind, buf, pos).Panic? <==> BrokenValue(kind, buf, pos)
    ensures DecodeEntry(kind, buf, pos).Ok? ==> !BrokenValue(kind, buf, pos)
  {
    hide FromLe32, IsUtf8;
  }

  /** After some entries that decode, fewer than `count`, comes one with a broken value. */
  ghost predicate Breaks(kind: Kind, buf: seq<byte>, pos: nat, count: nat) {
    exists i, q :: 0 <= i < count && EntriesDecode(kind, buf, pos, i, q) && BrokenValue(kind, buf, q)
  }

  lemma BreaksStep(kind: Kind, buf: seq<byte>, pos: nat, count: nat)
    ensures !Breaks(kind, buf, pos, 0)
    ensures var e := DecodeEntry(kind, buf, pos);
            Breaks(kind, buf, pos, count + 1)
            <==> BrokenValue(kind, buf, pos) || (e.Ok? && Breaks(kind, buf, e.next, count))
  {
    hide DecodeEntry, BrokenValue;
    var e := DecodeEntry(kind, buf, pos);
    assert EntriesDecode(kind, buf, pos, 0, pos);
    if Breaks(kind, buf, pos, count + 1) {
      var i, q :| 0 <= i < count + 1 && EntriesDecode(kind, buf, pos, i, q) && BrokenValue(kind, buf, q);
      if i > 0 {
        assert EntriesDecode(kind, buf, e.next, i - 1, q);
      }
    }
    if e.Ok? && Breaks(kind, buf, e.next, count) {
      var i, q :| 0 <= i < count && EntriesDecode(kind, buf, e.next, i, q) && BrokenValue(kind, buf, q);
      assert EntriesDecode(kind, buf, pos, i + 1, q);
    }
  }

  lemma {:induction false} EntriesPanic(kind: Kind, buf: seq<byte>, pos: nat, count: nat, acc: Attributes)
    ensures DecodeEntries(kind, buf, pos, count, acc).Panic? <==> Breaks(kind, buf, pos, count)
    decreases count
  {
    hide DecodeEntry, BrokenValue, Breaks;
    if count == 0 {
      BreaksStep(kind, buf, pos, 0);
    } else {
      EntryPanics(kind, buf, pos);
      BreaksStep(kind, buf, pos, count - 1);
      var e := DecodeEntry(kind, buf, pos);
      if e.Ok? {
        EntriesPanic(kind, buf, e.next, count - 1, acc[e.value.name := e.value.value]);
      }
    }
  }

  /** `decode_from` panics, where its documentation promises `None`, if and only if after some
      entries that decode there is one with a sound name and a broken value. */
  lemma AttributesPanic(kind: Kind, buf: seq<byte>, pos: nat)
    ensures DecodeAttributes(kind, buf, pos).Panic?
            <==> pos + 4 <= |buf| && Breaks(kind, buf, pos + 4, FromLe32(buf[pos..pos + 4]))
  {
    hide DecodeEntries, Breaks, FromLe32;
    if pos + 4 <= |buf| {
      EntriesPanic(kind, buf, pos + 4, FromLe32(buf[pos..pos + 4]), map[]);
    }
  }

  ghost predicate MapBreaks(kind: Kind, buf: seq<byte>, pos: nat) {
    pos + 4 <= |buf| && Breaks(kind, buf, pos + 4, FromLe32(buf[pos..pos + 4]))
  }

  /** One of the maps of the item at `pos` breaks, and those before it decode. */
  ghost predicate ItemBreaks(buf: seq<byte>, pos: nat) {
    && pos + 8 <= |buf|
    && var strs := DecodeAttributes(StrKind, buf, pos + 8);
       || MapBreaks(StrKind, buf, pos + 8)
       || (strs.Ok?
           && var ints := DecodeAttributes(IntKind, buf, strs.next);
              || MapBreaks(IntKind, buf, strs.next)
              || (ints.Ok? && MapBreaks(BlobKind, buf, ints.next)))
  }

  ghost predicate ItemsBreak(buf: seq<byte>, pos: nat, count: nat)
    decreases count
  {
    && count > 0
    && (ItemBreaks(buf, pos) || (DecodeItem(buf, pos).Ok? && ItemsBreak(buf, DecodeItem(buf, pos).next, count - 1)))
  }

  lemma ItemPanics(buf: seq<byte>, pos: nat)
    ensures DecodeItem(buf, pos).Panic? <==> ItemBreaks(buf, pos)
  {
    hide DecodeAttributes, Breaks, FromLe32, FromLe64;
    AttributesPanic(StrKind, buf, pos + 8);
    var strs := DecodeAttributes(StrKind, buf, pos + 8);
    if strs.Ok? {
      AttributesPanic(IntKind, buf, strs.next);
      var ints := DecodeAttributes(IntKind, buf, strs.next);
      if ints.Ok? {
        AttributesPanic(BlobKind, buf, ints.next);
      }
    }
  }

  lemma {:induction false} ItemsPanic(buf: seq<byte>, pos: nat, count: nat, acc: seq<Item<Attributes>>)
    ensures DecodeItems(buf, pos, count, acc).Panic? <==> ItemsBreak(buf, pos, count)
    decreases count
  {
    hide DecodeItem, ItemBreaks;
    if count == 0 {
    } else {
      ItemPanics(buf, pos);
      var it := DecodeItem(buf, pos);
      if it.Ok? {
        ItemsPanic(buf, it.next, count - 1, acc + [it.value]);
      }
    }
  }

  /** A command panics in the decoder exactly when one of its attribute maps does: a delete, a
      fast insert and an unknown type never do. */
  lemma CommandPanics(buf: seq<byte>)
    ensures DecodeCommand(buf).Panic? <==>
            || (buf != [] && buf[0] == 0 && ItemBreaks(buf, 1))
            || (5 <= |buf| && buf[0] == 1 && ItemsBreak(buf, 5, FromLe32(buf[1..5])))
  {
    hide DecodeItem, DecodeItems, ItemBreaks, ItemsBreak, FromLe32, FromLe64;
    if buf != [] && buf[0] == 0 {
      ItemPanics(buf, 1);
    } else if buf != [] && buf[0] == 1 && 5 <= |buf| {
      ItemsPanic(buf, 5, FromLe32(buf[1..5]), []);
    }
  }

  /// The encoders and decoders as the source runs them

  method EncodeValue(v: Value, buf: ByteBuffer)
    modifies buf
    ensures buf.bytes == old(buf.bytes) + ValueBytes(v)
  {
    match v
    case Str(s) =>
      buf.ExtendFromSlice(Le32(|s|));
      buf.ExtendFromSlice(s);
    case Int(n) =>
      buf.ExtendFromSlice(Le32(n));
    case Blob(b) =>
      buf.ExtendFromSlice(Le32(|b|));
      buf.ExtendFromSlice(b);
  }

  /** `Attributes::encode_to`. */
  method EncodeTo(es: Entries, buf: ByteBuffer)
    modifies buf
    ensures buf.bytes == old(buf.bytes) + AttributesBytes(es)
  {
    hide Le32, ValueBytes;
    buf.ExtendFromSlice(Le32(|es|));
    for i := 0 to |es|
      invariant buf.bytes + EntriesBytes(es[i..]) == old(buf.bytes) + AttributesBytes(es)
    {
      ghost var before := buf.bytes;
      assert es[i..][0] == es[i] && es[i..][1..] == es[i + 1..];
      buf.ExtendFromSlice(Le32(|es[i].name|));
      buf.ExtendFromSlice(es[i].name);
      EncodeValue(es[i].value, buf);
      assert buf.bytes == before + EntryBytes(es[i]);
    }
  }

  /** `EntityData::encode`, and the item part of `WriteCommand::encode`. */
  method EncodeItem(it: Item<Entries>, buf: ByteBuffer)
    modifies buf
    ensures buf.bytes == old(buf.bytes) + ItemBytes(it)
  {
    hide Le64, AttributesBytes;
    buf.ExtendFromSlice(Le64(it.id));
    EncodeTo(it.strs, buf);
    EncodeTo(it.ints, buf);
    EncodeTo(it.blobs, buf);
  }

  method EncodeItems(its: seq<Item<Entries>>, buf: ByteBuffer)
    modifies buf
    ensures buf.bytes == old(buf.bytes) + ItemsBytes(its)
  {
    hide ItemBytes;
    for i := 0 to |its|
      invariant buf.bytes + ItemsBytes(its[i..]) == old(buf.bytes) + ItemsBytes(its)
    {
      assert its[i..][0] == its[i] && its[i..][1..] == its[i + 1..];
      EncodeItem(its[i], buf);
    }
  }

  /** `WriteCommand::encode`. */
  method Encode(c: WriteCommand<Entries>) returns (bytes: seq<byte>)
    ensures bytes == CommandBytes(c)
  {
    hide Le64, Le32, ItemBytes, ItemsBytes;
    var buf := new ByteBuffer();
    match c {
      case Insert(it) =>
        buf.ExtendFromSlice([0]);
        EncodeItem(it, buf);
      case BatchInsert(its) =>
        buf.ExtendFromSlice([1]);
        buf.ExtendFromSlice(Le32(|its|));
        EncodeItems(its, buf);
      case Delete(id) =>
        buf.ExtendFromSlice([2]);
        buf.ExtendFromSlice(Le64(id));
      case InsertFast(id, e, t, p) =>
        buf.ExtendFromSlice([3]);
        buf.ExtendFromSlice(Le64(id));
        buf.ExtendFromSlice(Le32(e));
        buf.ExtendFromSlice(Le32(t));
        buf.ExtendFromSlice(Le32(|p|));
        buf.ExtendFromSlice(p);
    }
    bytes := buf.bytes;
  }

  /** `Attributes::decode_from`: `r.next` is the advanced cursor. */
  method DecodeFrom(kind: Kind, buf: seq<byte>, start: nat) returns (r: Parsed<Attributes>)
    ensures r == DecodeAttributes(kind, buf, start)
  {
    hide ReadU32, DecodeEntry;
    var header :- ReadU32(buf, start);
    var count, pos := header.0, header.1;
    var m: Attributes := map[];
    for i := 0 to count
      invariant DecodeEntries(kind, buf, header.1, count, map[]) == DecodeEntries(kind, buf, pos, count - i, m)
    {
      var entry :- DecodeEntry(kind, buf, pos);
      m := m[entry.0.name := entry.0.value];
      pos := entry.1;
    }
    r := Ok(m, pos);
  }

  method DecodeOneItem(buf: seq<byte>, start: nat) returns (r: Parsed<Item<Attributes>>)
    ensures r == DecodeItem(buf, start)
  {
    var id :- ReadU64(buf, start);
    var strs :- DecodeFrom(StrKind, buf, id.1);
    var ints :- DecodeFrom(IntKind, buf, strs.1);
    var blobs :- DecodeFrom(BlobKind, buf, ints.1);
    r := Ok(Item(id.0, strs.0, ints.0, blobs.0), blobs.1);
  }

  /** `WriteCommand::decode`. */
  method Decode(buf: seq<byte>) returns (r: Parsed<WriteCommand<Attributes>>)
    ensures r == DecodeCommand(buf)
  {
    hide ReadU32, ReadU64, DecodeItem, DecodeFast;
    if |buf| == 0 {
      return Bad;
    }
    var typeId := buf[0];
    if typeId == 0 {
      var it :- DecodeOneItem(buf, 1);
      r := Ok(Insert(it.0), it.1);
    } else if typeId == 1 {
      var header :- ReadU32(buf, 1);
      var count, pos := header.0, header.1;
      var items: seq<Item<Attributes>> := [];
      for i := 0 to count
        invariant DecodeItems(buf, header.1, count, []) == DecodeItems(buf, pos, count - i, items)
      {
        var it :- DecodeOneItem(buf, pos);
        items := items + [it.0];
        pos := it.1;
      }
      r := Ok(BatchInsert(items), pos);
    } else if typeId == 2 {
      var id :- ReadU64(buf, 1);
      r := Ok(Delete(id.0), id.1);
    } else if typeId == 3 {
      r := DecodeFast(buf, 1);
    } else {
      r := Bad;
    }
  }
}
