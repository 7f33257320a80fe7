/** Packed columnar data of src/core/column.rs: values with a validity bitmap. */
module Column {
  import opened Numbers
  import opened Options

  /// Words of 64 bits

  predicate Meets(w: bv64, m: bv64) {
    w & m != 0
  }

  function Or(w: bv64, m: bv64): bv64 {
    w | m
  }

  function AndNot(w: bv64, m: bv64): bv64 {
    w & !m
  }

  function Shift(bit: nat): (x: bv8)
    requires bit < 64
    ensures x < 64 && x as nat == bit
  {
    bit as bv8
  }

  function ShiftedOne(x: bv8): bv64
    requires x < 64
  {
    1 << x
  }

  /** The word `1 << bit`. */
  function Bit(bit: nat): bv64
    requires bit < 64
  {
    ShiftedOne(Shift(bit))
  }

  /** Bit 0 is the lowest one, and each next bit is one place to the left. */
  lemma BitPlaces(bit: nat)
    requires bit < 63
    ensures Bit(0) == 1 && Bit(bit + 1) == Bit(bit) << 1
  {
    NextPlace(Shift(bit), Shift(bit + 1));
  }

  lemma NextPlace(x: bv8, y: bv8)
    requires x < 63 && y == x + 1
    ensures ShiftedOne(0) == 1 && ShiftedOne(y) == ShiftedOne(x) << 1
  {
  }

  lemma AndOverOr(w: bv64, m: bv64, n: bv64)
    ensures Or(w, m) & n == Or(w & n, m & n)
  {
  }

  lemma OrElsewhere(w: bv64, m: bv64, n: bv64)
    requires !Meets(m, n)
    ensures Meets(Or(w, m), n) == Meets(w, n)
  {
    AndOverOr(w, m, n);
    OrZero(w & n);
    hide Or;
  }

  lemma OrZero(w: bv64)
    ensures Or(w, 0) == w
  {
  }

  lemma AndNotElsewhere(w: bv64, m: bv64, n: bv64)
    requires !Meets(m, n)
    ensures Meets(AndNot(w, m), n) == Meets(w, n)
  {
  }

  lemma WriteHere(w: bv64, m: bv64)
    requires Meets(m, m)
    ensures Meets(Or(w, m), m) && !Meets(AndNot(w, m), m)
  {
  }

  lemma ShiftedOnesMeet(x: bv8, y: bv8)
    requires x < 64 && y < 64
    ensures Meets(ShiftedOne(x), ShiftedOne(y)) <==> x == y
  {
  }

  lemma ZeroMeetsNothing(m: bv64)
    ensures !Meets(0, m)
  {
  }

  /** Writing one bit of a word changes that bit and no other. */
  lemma WriteBit(w: bv64, b: nat, c: nat)
    requires b < 64 && c < 64
    ensures Meets(Or(w, Bit(b)), Bit(c)) <==> b == c || Meets(w, Bit(c))
    ensures Meets(AndNot(w, Bit(b)), Bit(c)) <==> b != c && Meets(w, Bit(c))
  {
    hide Meets, Or, AndNot, Shift, ShiftedOne;
    ShiftedOnesMeet(Shift(b), Shift(c));
    if b == c {
      WriteHere(w, Bit(b));
    } else {
      OrElsewhere(w, Bit(b), Bit(c));
      AndNotElsewhere(w, Bit(b), Bit(c));
    }
  }

  /// Rows as a sequence of options

  /** Row `idx` of a bitmap is marked valid. */
  predicate Marked(words: seq<bv64>, idx: nat) {
    idx / 64 < |words| && Meets(words[idx / 64], Bit(idx % 64))
  }

  /** The bitmap with row `idx` marked or unmarked, grown by zero words when needed. */
  function Mark(words: seq<bv64>, idx: nat, valid: bool): (r: seq<bv64>)
    ensures |r| == if idx / 64 < |words| then |words| else idx / 64 + 1
  {
    var block := idx / 64;
    var grown := if block < |words| then words else words + seq(block + 1 - |words|, _ => 0);
    grown[block := if valid then Or(grown[block], Bit(idx % 64)) else AndNot(grown[block], Bit(idx % 64))]
  }

  lemma GrownMarks(words: seq<bv64>, n: nat, j: nat)
    ensures Marked(words + seq(n, _ => 0), j) <==> Marked(words, j)
  {
    hide Meets, Bit;
    ZeroMeetsNothing(Bit(j % 64));
  }

  /** Marking one row leaves the mark of every other row alone. */
  lemma MarkOne(words: seq<bv64>, idx: nat, valid: bool, j: nat)
    ensures Marked(Mark(words, idx, valid), j) <==> if j == idx then valid else Marked(words, j)
  {
    hide Meets, Or, AndNot, Bit;
    var block := idx / 64;
    var extra := if block < |words| then 0 else block + 1 - |words|;
    var grown := words + seq(extra, _ => 0);
    assert extra == 0 ==> grown == words;
    GrownMarks(words, extra, j);
    WriteBit(grown[block], idx % 64, j % 64);
    assert j / 64 == block && j % 64 == idx % 64 ==> j == idx;
  }

  function RowAt<T>(data: seq<T>, words: seq<bv64>, i: nat): Option<T> {
    if Marked(words, i) && i < |data| then Some(data[i]) else None
  }

  /** The column as a sequence of options. */
  function RowsOf<T>(data: seq<T>, words: seq<bv64>): (rows: seq<Option<T>>)
    ensures |rows| == |data|
  {
    seq(|data|, i requires 0 <= i < |data| => RowAt(data, words, i))
  }

  function RowsPushed<T>(rows: seq<Option<T>>, v: T): seq<Option<T>> {
    rows + [Some(v)]
  }

  /** Writing row `idx`, with absent rows filling the gap when it lies beyond the end. */
  function RowsSet<T>(rows: seq<Option<T>>, idx: nat, v: T): seq<Option<T>> {
    if idx < |rows| then rows[idx := Some(v)]
    else rows + seq(idx - |rows|, _ => None) + [Some(v)]
  }

  class ColumnData<T> {
    /** `T::default()`. */
    const blank: T
    var data: seq<T>
    var valid: seq<bv64>

    /** No row beyond the end is marked. */
    ghost predicate Tidy()
      reads this
    {
      forall i :: i >= |data| ==> !Marked(valid, i)
    }

    ghost function Rows(): (rows: seq<Option<T>>)
      reads this
    {
      RowsOf(data, valid)
    }

    constructor (blank: T)
      ensures Tidy() && Rows() == [] && this.blank == blank
    {
      this.blank := blank;
      data, valid := [], [];
    }

    predicate IsValid(idx: nat)
      reads this
    {
      Marked(valid, idx)
    }

    function Get(idx: nat): (r: Option<T>)
      reads this
      ensures r == if idx < |data| then Rows()[idx] else None
    {
      RowAt(data, valid, idx)
    }

    /** Marks below `Len()` keep the column tidy; a mark beyond it is exactly what does not. */
    method SetValid(idx: nat, valid: bool)
      modifies this`valid
      ensures forall j: nat :: IsValid(j) == if j == idx then valid else old(IsValid(j))
      ensures old(Tidy()) ==> (Tidy() <==> !valid || idx < |data|)
      ensures idx < |data| ==> Rows() == old(Rows())[idx := if valid then Some(data[idx]) else None]
    {
      var block := idx / 64;
      var bit := idx % 64;
      ghost var before := this.valid;
      hide Meets, Or, AndNot, Bit;
      if block >= |this.valid| {
        this.valid := this.valid + seq(block + 1 - |this.valid|, _ => 0);
      }
      if valid {
        this.valid := this.valid[block := Or(this.valid[block], Bit(bit))];
      } else {
        this.valid := this.valid[block := AndNot(this.valid[block], Bit(bit))];
      }
      assert this.valid == Mark(before, idx, valid);
      hide Marked, Mark;
      forall j: nat ensures Marked(this.valid, j) == if j == idx then valid else Marked(before, j) {
        MarkOne(before, idx, valid, j);
      }
      assert IsValid(idx) == valid;
    }

    method Push(val: T)
      modifies this
      ensures Rows() == RowsPushed(old(Rows()), val)
      ensures old(Tidy()) ==> Tidy()
    {
      hide Marked;
      var idx := |data|;
      data := data + [val];
      SetValid(idx, true);
    }

    /** The gap rows read as absent exactly when no stray mark lies in the gap. */
    method Set(idx: nat, val: T)
      modifies this
      ensures |data| == Max(old(|data|), idx + 1)
      ensures forall j: nat :: IsValid(j) <==> j == idx || old(IsValid(j))
      ensures forall j :: 0 <= j < |data| ==> data[j] == if j
              == idx then val else if j < old(|data|) then old(data[j]) else blank
      ensures Rows() == RowsSet(old(Rows()), idx, val)
              <==> forall i :: old(|data|) <= i < idx ==> !Marked(old(valid), i)
      ensures old(Tidy()) ==> Tidy()
    {
      hide Marked;
      ghost var rows, words := Rows(), valid;
      if idx >= |data| {
        data := data + seq(idx + 1 - |data|, _ => blank);
      }
      data := data[idx := val];
      SetValid(idx, true);
      ghost var expected := RowsSet(rows, idx, val);
      assert forall i :: 0 <= i < |rows| || i == idx ==> Rows()[i] == expected[i];
      assert forall i :: |rows| <= i < idx ==> expected[i] == None && (Rows()[i] == None <==> !Marked(words, i));
      if Rows() == expected {
        assert forall i :: |rows| <= i < idx ==> Rows()[i] == expected[i];
      }
    }

    method Iterate() returns (it: ColumnDataIter<T>)
      ensures fresh(it) && it.col == this && it.idx == 0
    {
      it := new ColumnDataIter(this);
    }
  }

  class ColumnDataIter<T> {
    const col: ColumnData<T>
    var idx: nat

    constructor (col: ColumnData<T>)
      ensures this.col == col && idx == 0
    {
      this.col, idx := col, 0;
    }

    method Next() returns (r: Option<Option<T>>)
      modifies this
      ensures old(idx) < |col.Rows()| ==> r == Some(col.Rows()[old(idx)]) && idx == old(idx) + 1
      ensures old(idx) >= |col.Rows()| ==> r == None && idx == old(idx)
    {
      if idx < |col.data| {
        r := Some(col.Get(idx));
        idx := idx + 1;
      } else {
        r := None;
      }
    }
  }

  /** A full iteration yields the rows in order, absent ones included. */
  method Collect<T>(col: ColumnData<T>) returns (rows: seq<Option<T>>)
    ensures rows == col.Rows()
  {
    rows := [];
    var it := col.Iterate();
    var next := it.Next();
    while next.Some?
      invariant fresh(it) && it.col == col
      invariant |rows| <= |col.Rows()| && rows == col.Rows()[..|rows|]
      invariant next.Some? ==> |rows| < |col.Rows()| && next.value == col.Rows()[|rows|] && it.idx == |rows| + 1
      invariant next.None? ==> |rows| == |col.Rows()|
      decreases |col.Rows()| - |rows|
    {
      rows := rows + [next.value];
      next := it.Next();
    }
  }

  /** A mark set beyond the end shows up later as a gap row that nobody wrote. */
  method StrayMark() returns (r: Option<int>)
    ensures r == Some(0)
  {
    var col := new ColumnData<int>(0);
    hide Marked;
    col.SetValid(3, true);
    assert col.IsValid(3);
    col.Set(5, 42);
    assert col.IsValid(3);
    r := col.Get(3);
  }
}
