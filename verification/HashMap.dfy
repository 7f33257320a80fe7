/** The open-addressing hash map of src/core/map.rs: linear probing with tombstones. */
module HashMap {
  import opened Numbers
  import opened Options

  datatype Bucket<+K, +V> = Empty | Deleted | Occupied(key: K, value: V)

  /// Mask arithmetic

  function Pow2(k: nat): (p: nat)
    ensures p > 0
  {
    if k == 0 then 1 else 2 * Pow2(k - 1)
  }

  ghost predicate IsPow2(n: nat) {
    exists k: nat :: n == Pow2(k)
  }

  /** Bitwise `&` of unsigned words. */
  function And(a: nat, b: nat): (c: nat)
    ensures c <= b
  {
    if a == 0 || b == 0 then 0
    else 2 * And(a / 2, b / 2) + (if a % 2 == 1 && b % 2 == 1 then 1 else 0)
  }

  /** Masking with `2^k - 1` is the remainder modulo `2^k`. */
  lemma {:induction false} MaskIsRemainder(a: nat, k: nat)
    ensures And(a, Pow2(k) - 1) == a % Pow2(k)
  {
    if k == 0 {
    } else {
      var p := Pow2(k - 1);
      MaskIsRemainder(a / 2, k - 1);
      assert (Pow2(k) - 1) / 2 == p - 1;
      assert p == 1 ==> Pow2(k) == 2;
      HalfRemainder(a, p);
    }
  }

  lemma HalfRemainder(a: nat, p: nat)
    requires p > 0
    ensures a % (2 * p) == 2 * (a / 2 % p) + a % 2
  {
    var h, q := a / 2 % p, a / 2 / p;
    assert a == (2 * p) * q + (2 * h + a % 2) by {
      assert a / 2 == p * q + h;
      assert 2 * (p * q) == (2 * p) * q;
    }
    RemainderUnique(a, 2 * p, q, 2 * h + a % 2);
  }

  lemma RemainderUnique(a: nat, m: nat, q: nat, r: nat)
    requires m > 0 && a == m * q + r && r < m
    ensures a % m == r
  {
    var q', r' := a / m, a % m;
    assert m * (q - q') == r' - r;
    if q != q' {
      MultipleIsLarge(m, q - q');
      assert false;
    }
  }

  lemma MultipleIsLarge(m: int, d: int)
    requires m > 0 && d != 0
    ensures m * d >= m || m * d <= 0 - m
  {
    if d > 0 {
      assert m * (d - 1) >= 0;
    } else {
      assert m * (-1 - d) >= 0;
    }
  }

  /** Stepping a cursor under the mask wraps it around the table. */
  lemma StepUnderMask(i: nat, cap: nat)
    requires IsPow2(cap) && i < cap
    ensures And(i + 1, cap - 1) == if i + 1 == cap then 0 else i + 1
  {
    var k: nat :| cap == Pow2(k);
    MaskIsRemainder(i + 1, k);
    hide And, Pow2;
    if i + 1 == cap {
      RemainderUnique(i + 1, cap, 1, 0);
    } else {
      RemainderUnique(i + 1, cap, 0, i + 1);
    }
  }

  /** `next_power_of_two`. */
  function NextPow2From(n: nat, k: nat): (p: nat)
    requires k == 0 || Pow2(k - 1) < n
    ensures IsPow2(p) && n <= p && (p == 1 || p < 2 * n)
    decreases if n <= Pow2(k) then 0 else n - Pow2(k)
  {
    if n <= Pow2(k) then Pow2(k) else NextPow2From(n, k + 1)
  }

  function NextPow2(n: nat): (p: nat)
    ensures IsPow2(p) && n <= p && (p == 1 || p < 2 * n)
  {
    NextPow2From(n, 0)
  }

  /** The capacity chosen by `insert` for `n` entries, and by `with_capacity` for `m / 2`. */
  function CapacityFor(m: nat): (c: nat)
    ensures IsPow2(c) && c >= 8 && c >= m && (c == 8 || c < 2 * m)
  {
    assert IsPow2(8) by { assert Pow2(3) == 8; }
    Max(NextPow2(m), 8)
  }

  /// Probe paths

  /** The slot where the probe for `k` starts. */
  function Home<K>(hash: K -> nat, k: K, cap: nat): (h: nat)
    requires cap > 0
    ensures h < cap
  {
    And(hash(k), cap - 1)
  }

  /** The hash spreads over the whole table: the mask takes it modulo the capacity. */
  lemma HomeIsRemainder<K>(hash: K -> nat, k: K, cap: nat)
    requires IsPow2(cap)
    ensures Home(hash, k, cap) == hash(k) % cap
  {
    var e :| cap == Pow2(e);
    MaskIsRemainder(hash(k), e);
  }

  /** The slot `d` steps after `home`. */
  function Off(home: nat, d: nat, cap: nat): (i: nat)
    requires home < cap && d <= cap
    ensures i < cap
  {
    if home + d < cap then home + d else home + d - cap
  }

  lemma ProbeStart<K>(hash: K -> nat, k: K, cap: nat)
    requires cap > 0
    ensures And(hash(k), cap - 1) == Off(Home(hash, k, cap), 0, cap)
  {
  }

  lemma ProbeNext(home: nat, d: nat, cap: nat)
    requires IsPow2(cap) && home < cap && d < cap
    ensures And(Off(home, d, cap) + 1, cap - 1) == Off(home, d + 1, cap)
  {
    StepUnderMask(Off(home, d, cap), cap);
    hide And;
  }

  /** The number of steps from `home` to slot `i`. */
  function Dist(home: nat, i: nat, cap: nat): (d: nat)
    requires home < cap && i < cap
    ensures d < cap && Off(home, d, cap) == i
  {
    if home <= i then i - home else i + cap - home
  }

  /** No probe stops within the first `d` slots after `home`. */
  ghost predicate PathClear<K, V>(t: seq<Bucket<K, V>>, home: nat, d: nat)
    requires home < |t| && d <= |t|
  {
    forall j :: 0 <= j < d ==> !t[Off(home, j, |t|)].Empty?
  }

  /** None of the first `d` slots after `home` holds key `k`. */
  ghost predicate NotOnPath<K, V>(t: seq<Bucket<K, V>>, home: nat, d: nat, k: K)
    requires home < |t| && d <= |t|
  {
    forall j :: 0 <= j < d ==> !HoldsKey(t[Off(home, j, |t|)], k)
  }

  /** The slot at distance `d` is the first one on the path that holds nothing: the first
      tombstone, if there is one before the first Empty slot. */
  ghost predicate FirstFree<K, V>(t: seq<Bucket<K, V>>, home: nat, d: nat)
    requires home < |t|
  {
    d < |t| && !t[Off(home, d, |t|)].Occupied? && AllHeld(t, home, d)
  }

  /** The first `d` slots after `home` all hold something. */
  ghost predicate AllHeld<K, V>(t: seq<Bucket<K, V>>, home: nat, d: nat)
    requires home < |t| && d <= |t|
  {
    forall j :: 0 <= j < d ==> t[Off(home, j, |t|)].Occupied?
  }

  ghost predicate HoldsKey<K, V>(b: Bucket<K, V>, k: K) {
    b.Occupied? && b.key == k
  }

  /** A probe for the key stored in slot `i` gets there. */
  ghost predicate Reachable<K, V>(t: seq<Bucket<K, V>>, hash: K -> nat, i: nat)
    requires i < |t| && t[i].Occupied?
  {
    var home := Home(hash, t[i].key, |t|);
    PathClear(t, home, Dist(home, i, |t|))
  }

  ghost predicate AllReachable<K, V>(t: seq<Bucket<K, V>>, hash: K -> nat) {
    forall i :: 0 <= i < |t| && t[i].Occupied? ==> Reachable(t, hash, i)
  }

  ghost predicate UniqueKeys<K, V>(t: seq<Bucket<K, V>>) {
    forall i, j :: 0 <= i < j < |t| && t[i].Occupied? && t[j].Occupied? ==> t[i].key != t[j].key
  }

  /// The finite map a table stands for

  ghost function Contents<K, V>(t: seq<Bucket<K, V>>): map<K, V> {
    if t == [] then map[]
    else
      var m, b := Contents(t[..|t| - 1]), t[|t| - 1];
      if b.Occupied? then m[b.key := b.value] else m
  }

  function Lookup<K, V>(m: map<K, V>, k: K): Option<V> {
    if k in m then Some(m[k]) else None
  }

  function Tag<K, V>(b: Bucket<K, V>): nat {
    match b case Empty => 0 case Deleted => 1 case Occupied(_, _) => 2
  }

  /** How many slots of `t` carry a tag: 0 empty, 1 deleted, 2 occupied. */
  function Count<K, V>(t: seq<Bucket<K, V>>, tag: nat): (n: nat)
    ensures n <= |t|
  {
    if t == [] then 0 else Count(t[..|t| - 1], tag) + (if Tag(t[|t| - 1]) == tag then 1 else 0)
  }

  lemma {:induction false} CountUpdate<K, V>(t: seq<Bucket<K, V>>, i: nat, b: Bucket<K, V>, tag: nat)
    requires i < |t|
    ensures Count(t[i := b], tag) + (if Tag(t[i]) == tag then 1 else 0)
            == Count(t, tag) + (if Tag(b) == tag then 1 else 0)
    decreases |t|
  {
    var last := |t| - 1;
    if i < last {
      assert t[i := b][..last] == t[..last][i := b];
      CountUpdate(t[..last], i, b, tag);
    } else {
      assert t[i := b][..last] == t[..last];
    }
  }

  lemma {:induction false} CountsPartition<K, V>(t: seq<Bucket<K, V>>)
    ensures Count(t, 0) + Count(t, 1) + Count(t, 2) == |t|
  {
    if t == [] {
    } else {
      CountsPartition(t[..|t| - 1]);
    }
  }

  lemma {:induction false} SomeSlot<K, V>(t: seq<Bucket<K, V>>, tag: nat) returns (i: nat)
    requires Count(t, tag) > 0
    ensures i < |t| && Tag(t[i]) == tag
  {
    if Tag(t[|t| - 1]) == tag {
      i := |t| - 1;
    } else {
      i := SomeSlot(t[..|t| - 1], tag);
    }
  }

  /** Every key of `Contents` is held by a slot. */
  lemma {:induction false} ContentsSound<K, V>(t: seq<Bucket<K, V>>, k: K) returns (i: nat)
    requires k in Contents(t)
    ensures i < |t| && HoldsKey(t[i], k)
  {
    var last := |t| - 1;
    if HoldsKey(t[last], k) {
      i := last;
    } else {
      i := ContentsSound(t[..last], k);
    }
  }

  /** With unique keys, `Contents` binds the key of every occupied slot to its value. */
  lemma {:induction false} ContentsComplete<K, V>(t: seq<Bucket<K, V>>, i: nat)
    requires UniqueKeys(t) && i < |t| && t[i].Occupied?
    ensures t[i].key in Contents(t) && Contents(t)[t[i].key] == t[i].value
    decreases |t|
  {
    var last := |t| - 1;
    if i >= last {
    } else {
      ContentsComplete(t[..last], i);
    }
  }

  /** The live entries are counted exactly. */
  lemma {:induction false} ContentsSize<K, V>(t: seq<Bucket<K, V>>)
    requires UniqueKeys(t)
    ensures |Contents(t)| == Count(t, 2)
  {
    if t == [] {
    } else {
      var last := |t| - 1;
      ContentsSize(t[..last]);
      if t[last].Occupied? {
        var k := t[last].key;
        if k in Contents(t[..last]) {
          var i := ContentsSound(t[..last], k);
          assert false;
        }
        assert Contents(t).Keys == Contents(t[..last]).Keys + {k};
      }
    }
  }

  /** An Empty slot on the probe path of a stored key lies beyond the key. */
  lemma StoredBeforeEmpty<K, V>(t: seq<Bucket<K, V>>, hash: K -> nat, i: nat, d: nat)
    requires AllReachable(t, hash) && i < |t| && t[i].Occupied? && d < |t|
    requires t[Off(Home(hash, t[i].key, |t|), d, |t|)].Empty?
    ensures Dist(Home(hash, t[i].key, |t|), i, |t|) < d
  {
    assert Reachable(t, hash, i);
  }

  /** A probe that meets an Empty slot has passed every slot where its key could be. */
  lemma KeyAbsent<K, V>(t: seq<Bucket<K, V>>, hash: K -> nat, k: K, d: nat)
    requires AllReachable(t, hash) && |t| > 0 && d < |t|
    requires NotOnPath(t, Home(hash, k, |t|), d, k)
    requires t[Off(Home(hash, k, |t|), d, |t|)].Empty?
    ensures k !in Contents(t)
  {
    if k in Contents(t) {
      var i := ContentsSound(t, k);
      StoredBeforeEmpty(t, hash, i, d);
      assert false;
    }
  }

  lemma StillReachable<K, V>(t: seq<Bucket<K, V>>, hash: K -> nat, i: nat, b: Bucket<K, V>)
    requires AllReachable(t, hash) && i < |t| && !b.Empty?
    requires b.Occupied? ==> PathClear(t, Home(hash, b.key, |t|), Dist(Home(hash, b.key, |t|), i, |t|))
    ensures AllReachable(t[i := b], hash)
  {
    var t' := t[i := b];
    forall j | 0 <= j < |t'| && t'[j].Occupied? ensures Reachable(t', hash, j) {
      var home := Home(hash, t'[j].key, |t|);
      if j != i {
        assert Reachable(t, hash, j);
      }
      assert PathClear(t, home, Dist(home, j, |t|));
    }
  }

  /** A table and a map with the same bindings are the same map. */
  lemma SameContents<K, V>(t: seq<Bucket<K, V>>, m: map<K, V>)
    requires UniqueKeys(t)
    requires forall j :: 0 <= j < |t| && t[j].Occupied? ==> t[j].key in m && m[t[j].key] == t[j].value
    requires forall k :: k in m ==> exists j :: 0 <= j < |t| && HoldsKey(t[j], k)
    ensures Contents(t) == m
  {
    forall k | k in Contents(t) ensures k in m && Contents(t)[k] == m[k] {
      var j := ContentsSound(t, k);
      ContentsComplete(t, j);
    }
    forall k | k in m ensures k in Contents(t) {
      var j :| 0 <= j < |t| && HoldsKey(t[j], k);
      ContentsComplete(t, j);
    }
  }

  /** Writing `Occupied(k, v)` into a free slot when `k` is absent, or over the slot that
      holds `k`, binds `k` to `v` and touches no other key. */
  lemma Bind<K, V>(t: seq<Bucket<K, V>>, i: nat, k: K, v: V)
    requires UniqueKeys(t) && i < |t|
    requires HoldsKey(t[i], k) || (!t[i].Occupied? && k !in Contents(t))
    ensures UniqueKeys(t[i := Occupied(k, v)])
    ensures Contents(t[i := Occupied(k, v)]) == Contents(t)[k := v]
  {
    var t', m := t[i := Occupied(k, v)], Contents(t)[k := v];
    forall j | 0 <= j < |t| && j != i && t[j].Occupied?
      ensures t[j].key != k && t[j].key in m && m[t[j].key] == t[j].value
    {
      ContentsComplete(t, j);
    }
    assert UniqueKeys(t');
    forall k' | k' in m ensures exists j :: 0 <= j < |t'| && HoldsKey(t'[j], k') {
      if k' == k {
        assert HoldsKey(t'[i], k');
      } else {
        var j := ContentsSound(t, k');
        assert HoldsKey(t'[j], k');
      }
    }
    SameContents(t', m);
  }

  /** Everything that writing `Occupied(k, v)` into slot `i`, `d` steps after the home of
      `k`, does to a table. */
  lemma WriteSlot<K, V>(t: seq<Bucket<K, V>>, hash: K -> nat, d: nat, i: nat, k: K, v: V)
    requires UniqueKeys(t) && AllReachable(t, hash) && |t| > 0 && d < |t|
    requires i == Off(Home(hash, k, |t|), d, |t|) && PathClear(t, Home(hash, k, |t|), d)
    requires HoldsKey(t[i], k) || (!t[i].Occupied? && k !in Contents(t))
    ensures var t' := t[i := Occupied(k, v)];
            && UniqueKeys(t') && AllReachable(t', hash) && Contents(t') == Contents(t)[k := v]
            && Count(t', 2) == Count(t, 2) + (if HoldsKey(t[i], k) then 0 else 1)
            && Count(t', 1) == Count(t, 1) - (if t[i].Deleted? then 1 else 0)
  {
    hide And, Contents, Count, UniqueKeys, AllReachable;
    assert Dist(Home(hash, k, |t|), i, |t|) == d;
    StillReachable(t, hash, i, Occupied(k, v));
    Bind(t, i, k, v);
    CountUpdate(t, i, Occupied(k, v), 1);
    CountUpdate(t, i, Occupied(k, v), 2);
  }

  /** Turning the slot that holds `k` into a tombstone unbinds `k` and touches no other key. */
  lemma Unbind<K, V>(t: seq<Bucket<K, V>>, i: nat, k: K)
    requires UniqueKeys(t) && i < |t| && HoldsKey(t[i], k)
    ensures UniqueKeys(t[i := Deleted])
    ensures Contents(t[i := Deleted]) == Contents(t) - {k}
  {
    var t', m := t[i := Deleted], Contents(t) - {k};
    forall j | 0 <= j < |t| && j != i && t[j].Occupied?
      ensures t[j].key != k && t[j].key in m && m[t[j].key] == t[j].value
    {
      ContentsComplete(t, j);
    }
    forall k' | k' in m ensures exists j :: 0 <= j < |t'| && HoldsKey(t'[j], k') {
      var j := ContentsSound(t, k');
      assert HoldsKey(t'[j], k');
    }
    SameContents(t', m);
  }

  /// The map itself

  class AHashMap<K(==), V> {
    const hash: K -> nat
    var table: seq<Bucket<K, V>>
    var len: nat
    var deletedCount: nat
    /** How many inserts have taken up an Empty slot. */
    ghost var consumed: nat
    /** How many entries all rehashes so far have moved. */
    ghost var moved: nat
    /** How many rehashes there were. */
    ghost var rehashes: nat
    /** `consumed` and the number of entries at the last rehash. */
    ghost var mark: nat
    ghost var base: nat

    /** Slots that are not Empty. */
    ghost function Used(): nat
      reads this
    {
      len + deletedCount
    }

    /** What probing relies on; holds between the steps of a rehash too. */
    ghost predicate Shape()
      reads this
    {
      && (table != [] ==> IsPow2(|table|))
      && UniqueKeys(table)
      && AllReachable(table, hash)
      && len == Count(table, 2)
      && deletedCount == Count(table, 1)
    }

    ghost predicate Valid()
      reads this
    {
      && Shape()
      && (table != [] ==> |table| >= 8 && Used() * 10 < |table| * 7 && 2 * (base + 1) <= |table|)
      && mark <= consumed
      && Used() == base + (consumed - mark)
      && 2 * moved + 7 * (consumed - mark) <= 7 * consumed
    }

    ghost function Map(): map<K, V>
      reads this
    {
      Contents(table)
    }

    constructor (hash: K -> nat)
      ensures Valid() && Map() == map[] && table == [] && this.hash == hash
      ensures consumed == moved == rehashes == 0
    {
      this.hash := hash;
      table, len, deletedCount := [], 0, 0;
      consumed, moved, rehashes, mark, base := 0, 0, 0, 0, 0;
    }

    constructor WithCapacity(hash: K -> nat, capacity: nat)
      ensures Valid() && Map() == map[] && |table| >= 8 && 2 * |table| >= 3 * capacity - 1 && this.hash == hash
      ensures consumed == moved == rehashes == 0
    {
      var cap := CapacityFor(capacity * 3 / 2);
      this.hash := hash;
      table, len, deletedCount := seq(cap, _ => Empty), 0, 0;
      consumed, moved, rehashes, mark, base := 0, 0, 0, 0, 0;
      new;
      AllEmpty(table, hash);
    }

    /** Some slot is Empty, at a known distance from `home`. */
    lemma EmptySlotAhead(home: nat) returns (e: nat)
      requires Shape() && Used() < |table| && home < |table|
      ensures e < |table| && table[Off(home, e, |table|)].Empty?
    {
      CountsPartition(table);
      var i := SomeSlot(table, 0);
      e := Dist(home, i, |table|);
    }

    method InsertNoResize(key: K, value: V) returns (prev: Option<V>)
      requires Shape() && Used() < |table|
      modifies this`table, this`len, this`deletedCount
      ensures Shape() && |table| == old(|table|)
      ensures Map() == old(Map())[key := value]
      ensures prev == Lookup(old(Map()), key)
      ensures old(Used()) <= Used() <= old(Used()) + 1
      ensures old(deletedCount) == 0 ==> deletedCount == 0
      ensures key in old(Map()) ==>
                exists i :: 0 <= i < |table| && HoldsKey(old(table)[i], key)
                    && table == old(table)[i := Occupied(key, value)]
      ensures key !in old(Map()) ==>
                exists d :: FirstFree(old(table), Home(hash, key, |table|), d)
                            && table == old(table)[Off(Home(hash, key, |table|), d, |table|) := Occupied(key, value)]
    {
      hide UniqueKeys, AllReachable, Contents, Count, And, Reachable, Home, Off, Dist;
      var cap := |table|;
      var mask := cap - 1;
      var idx := And(hash(key), mask);
      var firstDeleted: Option<nat> := None;
      ghost var home := Home(hash, key, cap);
      ProbeStart(hash, key, cap);
      ghost var d, dd: nat := 0, 0;
      ghost var e := EmptySlotAhead(home);
      while true
        invariant table == old(table) && len == old(len) && deletedCount == old(deletedCount)
        invariant d <= e && idx == Off(home, d, cap)
        invariant PathClear(table, home, d) && NotOnPath(table, home, d, key)
        invariant firstDeleted.Some? ==>
                    dd < d && firstDeleted.value == Off(home, dd, cap) && table[firstDeleted.value].Deleted?
        invariant AllHeld(table, home, if firstDeleted.Some? then dd else d)
        decreases e - d
      {
        match table[idx] {
          case Empty =>
            KeyAbsent(table, hash, key, d);
            ghost var at := if firstDeleted.Some? then dd else d;
            assert FirstFree(table, home, at);
            WriteSlot(table, hash, at, Off(home, at, cap), key, value);
            if firstDeleted.Some? {
              table := table[firstDeleted.value := Occupied(key, value)];
              deletedCount := deletedCount - 1;
              len := len + 1;
            } else {
              table := table[idx := Occupied(key, value)];
              len := len + 1;
            }
            return None;
          case Deleted =>
            if firstDeleted.None? {
              firstDeleted := Some(idx);
              dd := d;
            }
          case Occupied(k, v) =>
            if k == key {
              ContentsComplete(table, idx);
              WriteSlot(table, hash, d, idx, key, value);
              table := table[idx := Occupied(key, value)];
              return Some(v);
            }
        }
        ProbeNext(home, d, cap);
        idx := And(idx + 1, mask);
        d := d + 1;
      }
    }

    method Resize(newCap: nat)
      requires Shape() && IsPow2(newCap) && len < newCap
      modifies this`table, this`len, this`deletedCount
      ensures Shape() && |table| == newCap
      ensures Map() == old(Map()) && len == old(len) && deletedCount == 0
    {
      var oldTable := table;
      table := seq(newCap, _ => Empty);
      len := 0;
      deletedCount := 0;
      AllEmpty(table, hash);
      ContentsSize(oldTable);
      assert Contents(oldTable[..0]) == map[] && Count(oldTable[..0], 2) == 0;
      hide UniqueKeys, AllReachable, And, Contents, Count, FirstFree, HoldsKey, Home;
      for i := 0 to |oldTable|
        invariant Shape() && |table| == newCap && deletedCount == 0
        invariant Map() == Contents(oldTable[..i]) && len == Count(oldTable[..i], 2) <= Count(oldTable, 2)
      {
        PrefixStep(oldTable, i);
        if oldTable[i].Occupied? {
          var _ := InsertNoResize(oldTable[i].key, oldTable[i].value);
          ContentsSize(table);
        }
      }
      assert oldTable[..|oldTable|] == oldTable;
    }

    /** A rehash happens exactly when the load asks for one, and a rehash of a non-empty table,
        tombstones or not, has been paid for by the inserts since the one before. */
    method Insert(key: K, value: V) returns (prev: Option<V>)
      requires Valid()
      modifies this
      ensures Valid() && Map() == old(Map())[key := value] && prev == Lookup(old(Map()), key)
      ensures old(consumed) <= consumed <= old(consumed) + 1
      ensures var due := old(table) == [] || (old(Used()) + 1) * 10 >= old(|table|) * 7;
              && rehashes == old(rehashes) + (if due then 1 else 0)
              && moved == old(moved) + (if due then old(len) else 0)
              && mark == (if due then old(consumed) else old(mark))
      ensures rehashes != old(rehashes) && old(table) != [] ==>
                old(mark) <= old(consumed) && 5 * (old(consumed) - old(mark)) >= old(|table|)
    {
      if table == [] || (len + deletedCount + 1) * 10 >= |table| * 7 {
        var newCap := CapacityFor((len + 1) * 2);
        Resize(newCap);
        moved, rehashes := moved + len, rehashes + 1;
        base := len;
        mark := consumed;
      }
      ghost var used := Used();
      prev := InsertNoResize(key, value);
      consumed := consumed + (Used() - used);
    }

    /** The slot that holds `key`: the probe loop of `get`, `get_mut` and `remove`. */
    method Find(key: K) returns (found: Option<nat>)
      requires Valid()
      ensures found.Some? ==> found.value < |table| && HoldsKey(table[found.value], key)
      ensures found.None? ==> key !in Map()
    {
      if table == [] {
        return None;
      }
      hide UniqueKeys, AllReachable, Contents, Count, And, PathClear, Home, Off;
      var cap := |table|;
      var mask := cap - 1;
      var idx := And(hash(key), mask);
      ghost var home := Home(hash, key, cap);
      ProbeStart(hash, key, cap);
      ghost var d: nat := 0;
      ghost var e := EmptySlotAhead(home);
      while true
        invariant d <= e && idx == Off(home, d, cap)
        invariant NotOnPath(table, home, d, key)
        decreases e - d
      {
        match table[idx] {
          case Empty =>
            KeyAbsent(table, hash, key, d);
            return None;
          case Deleted =>
          case Occupied(k, _) =>
            if k == key {
              return Some(idx);
            }
        }
        ProbeNext(home, d, cap);
        idx := And(idx + 1, mask);
        d := d + 1;
      }
    }

    method Get(key: K) returns (r: Option<V>)
      requires Valid()
      ensures r == Lookup(Map(), key)
    {
      var found := Find(key);
      if found.None? {
        return None;
      }
      ContentsComplete(table, found.value);
      r := Some(table[found.value].value);
    }

    /** `get_mut`, followed by a write of `value` through the reference it returns. */
    method Update(key: K, value: V) returns (prev: Option<V>)
      requires Valid()
      modifies this`table
      ensures Valid() && prev == Lookup(old(Map()), key)
      ensures Map() == if prev.Some? then old(Map())[key := value] else old(Map())
    {
      var found := Find(key);
      if found.None? {
        return None;
      }
      var i := found.value;
      prev := Some(table[i].value);
      ContentsComplete(table, i);
      assert Reachable(table, hash, i);
      WriteSlot(table, hash, Dist(Home(hash, key, |table|), i, |table|), i, key, value);
      table := table[i := Occupied(key, value)];
    }

    method Remove(key: K) returns (r: Option<V>)
      requires Valid()
      modifies this`table, this`len, this`deletedCount
      ensures Valid() && Map() == old(Map()) - {key} && r == Lookup(old(Map()), key)
    {
      var found := Find(key);
      if found.None? {
        return None;
      }
      var i := found.value;
      ContentsComplete(table, i);
      var previous := table[i];
      StillReachable(table, hash, i, Deleted);
      Unbind(table, i, key);
      CountUpdate(table, i, Deleted, 1);
      CountUpdate(table, i, Deleted, 2);
      table := table[i := Deleted];
      len := len - 1;
      deletedCount := deletedCount + 1;
      r := Some(previous.value);
    }

    method Clear()
      requires Valid()
      modifies this
      ensures Valid() && Map() == map[] && consumed == old(consumed) && moved == old(moved) && rehashes == old(rehashes)
    {
      table := [];
      len := 0;
      deletedCount := 0;
      base, mark := 0, consumed;
    }
  }

  /// Iteration

  /** The live pairs in the order of their slots. */
  function Entries<K, V>(t: seq<Bucket<K, V>>): seq<(K, V)> {
    if t == [] then []
    else
      var b := t[|t| - 1];
      Entries(t[..|t| - 1]) + (if b.Occupied? then [(b.key, b.value)] else [])
  }

  /** `Entries` lists every pair of the map once, and nothing else. */
  lemma {:induction false} EntriesExact<K, V>(t: seq<Bucket<K, V>>)
    requires UniqueKeys(t)
    ensures |Entries(t)| == |Contents(t)|
    ensures forall n :: 0 <= n < |Entries(t)| ==>
              var (k, v) := Entries(t)[n]; k in Contents(t) && Contents(t)[k] == v
    ensures forall m, n :: 0 <= m < n < |Entries(t)| ==> Entries(t)[m].0 != Entries(t)[n].0
  {
    if t == [] {
    } else {
      var last := |t| - 1;
      EntriesExact(t[..last]);
      if t[last].Occupied? {
        var k := t[last].key;
        if k in Contents(t[..last]) {
          var i := ContentsSound(t[..last], k);
          assert false;
        }
        assert Contents(t).Keys == Contents(t[..last]).Keys + {k};
      }
    }
  }

  lemma {:induction false} EntriesPrefix<K, V>(t: seq<Bucket<K, V>>, n: nat)
    requires n <= |t|
    ensures Entries(t[..n]) <= Entries(t)
    decreases |t|
  {
    if n < |t| {
      var last := |t| - 1;
      assert t[..last][..n] == t[..n];
      EntriesPrefix(t[..last], n);
    } else {
      assert t[..n] == t;
    }
  }

  class Iter<K(==), V> {
    const table: seq<Bucket<K, V>>
    var pos: nat

    ghost predicate Valid()
      reads this
    {
      pos <= |table|
    }

    ghost function Yielded(): seq<(K, V)>
      requires Valid()
      reads this
    {
      Entries(table[..pos])
    }

    constructor (m: AHashMap<K, V>)
      ensures Valid() && table == m.table && Yielded() == []
    {
      table, pos := m.table, 0;
    }

    method Next() returns (r: Option<(K, V)>)
      requires Valid()
      modifies this
      ensures Valid() && Yielded() <= Entries(table)
      ensures r.Some? ==> Yielded() == old(Yielded()) + [r.value]
      ensures r.None? ==> Yielded() == old(Yielded()) == Entries(table)
    {
      while pos < |table|
        invariant Valid() && Yielded() == old(Yielded())
      {
        var b := table[pos];
        assert table[..pos + 1][..pos] == table[..pos];
        pos := pos + 1;
        if b.Occupied? {
          EntriesPrefix(table, pos);
          return Some((b.key, b.value));
        }
      }
      assert table[..|table|] == table;
      r := None;
    }
  }

  /// Whole histories

  datatype Op<+K, +V> = Insert(key: K, value: V) | Update(key: K, value: V) | Remove(key: K) | Get(key: K) | Clear

  /** What an operation does to a finite map. */
  function MapAfter<K, V>(m: map<K, V>, op: Op<K, V>): map<K, V> {
    match op
    case Insert(k, v) => m[k := v]
    case Update(k, v) => if k in m then m[k := v] else m
    case Remove(k) => m - {k}
    case Get(_) => m
    case Clear => map[]
  }

  function MapResult<K, V>(m: map<K, V>, op: Op<K, V>): Option<V> {
    if op.Clear? then None else Lookup(m, op.key)
  }

  function MapRun<K, V>(m: map<K, V>, ops: seq<Op<K, V>>): seq<Option<V>>
    decreases |ops|
  {
    if ops == [] then [] else [MapResult(m, ops[0])] + MapRun(MapAfter(m, ops[0]), ops[1..])
  }

  function Inserts<K, V>(ops: seq<Op<K, V>>): nat {
    if ops == [] then 0 else (if ops[0].Insert? then 1 else 0) + Inserts(ops[1..])
  }

  method Apply<K(==), V>(m: AHashMap<K, V>, op: Op<K, V>) returns (r: Option<V>)
    requires m.Valid()
    modifies m
    ensures m.Valid() && m.Map() == MapAfter(old(m.Map()), op) && r == MapResult(old(m.Map()), op)
    ensures m.consumed <= old(m.consumed) + (if op.Insert? then 1 else 0)
  {
    hide UniqueKeys, AllReachable, Contents, Count;
    r := None;
    match op {
      case Insert(k, v) => r := m.Insert(k, v);
      case Update(k, v) => r := m.Update(k, v);
      case Remove(k) => r := m.Remove(k);
      case Get(k) => r := m.Get(k);
      case Clear => m.Clear();
    }
  }

  /** Over every history and every hash function, the map answers as a finite map does, its
      probes end, and the entries that its rehashes move are linear in the inserts. */
  method RunHistory<K(==), V>(hash: K -> nat, ops: seq<Op<K, V>>) returns (results: seq<Option<V>>, ghost moves: nat)
    ensures results == MapRun(map[], ops)
    ensures 2 * moves <= 7 * Inserts(ops)
  {
    var m := new AHashMap<K, V>(hash);
    hide UniqueKeys, AllReachable, Contents, Count, MapAfter, MapResult;
    results := [];
    for i := 0 to |ops|
      invariant fresh(m) && m.Valid()
      invariant results + MapRun(m.Map(), ops[i..]) == MapRun(map[], ops)
      invariant m.consumed + Inserts(ops[i..]) <= Inserts(ops)
    {
      assert ops[i..][0] == ops[i] && ops[i..][1..] == ops[i + 1..];
      var r := Apply(m, ops[i]);
      results := results + [r];
    }
    moves := m.moved;
  }

  lemma {:induction false} AllEmpty<K, V>(t: seq<Bucket<K, V>>, hash: K -> nat)
    requires forall i :: 0 <= i < |t| ==> t[i].Empty?
    ensures UniqueKeys(t) && AllReachable(t, hash) && Contents(t) == map[]
    ensures Count(t, 1) == Count(t, 2) == 0
  {
    if t == [] {
    } else {
      AllEmpty(t[..|t| - 1], hash);
    }
  }

  /** What one more slot adds to a prefix of a table. */
  lemma PrefixStep<K, V>(t: seq<Bucket<K, V>>, i: nat)
    requires UniqueKeys(t) && i < |t|
    ensures var m, m', n, n' := Contents(t[..i]), Contents(t[..i + 1]), Count(t[..i], 2), Count(t[..i + 1], 2);
            && (if t[i].Occupied? then m' == m[t[i].key := t[i].value] && n' == n + 1 else m' == m && n' == n)
            && |m'| == n' <= Count(t, 2)
  {
    assert t[..i + 1][..i] == t[..i];
    CountMonotone(t, i + 1, 2);
    ContentsSize(t[..i + 1]);
  }

  /** A prefix holds no more slots of a tag than the table. */
  lemma {:induction false} CountMonotone<K, V>(t: seq<Bucket<K, V>>, n: nat, tag: nat)
    requires n <= |t|
    ensures Count(t[..n], tag) <= Count(t, tag)
    decreases |t|
  {
    if n < |t| {
      var last := |t| - 1;
      assert t[..last][..n] == t[..n];
      CountMonotone(t[..last], n, tag);
    } else {
      assert t[..n] == t;
    }
  }
}
