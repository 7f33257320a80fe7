/** Bytes, little-endian words, UTF-8 validity and cursor-based reading. */
module Bytes {
  type byte = x: int | 0 <= x < 0x100
  type u32 = x: int | 0 <= x < 0x1_0000_0000
  type u64 = x: int | 0 <= x < 0x1_0000_0000_0000_0000

  /** What a reader with a cursor reports: a value and the advanced cursor, a `None`
      propagated by `?`, or a panic raised by an `unwrap`. */
  datatype Parsed<+T> = Ok(value: T, next: nat) | Bad | Panic {
    predicate IsFailure() {
      !Ok?
    }

    function PropagateFailure<U>(): (r: Parsed<U>)
      requires IsFailure()
    {
      if Bad? then Bad else Panic
    }

    function Extract(): (T, nat)
      requires !IsFailure()
    {
      (value, next)
    }

    /** `unwrap()`: a missing value panics. */
    function Unwrap(): (r: Parsed<T>)
      ensures !r.Bad?
    {
      if Bad? then Panic else this
    }
  }

  /** The `k`-th byte of `n`, least significant first. */
  function Byte(n: nat, k: nat): byte {
    if k == 0 then n % 0x100 else Byte(n / 0x100, k - 1)
  }

  /** `(n as u32).to_le_bytes()`: the cast keeps the low 32 bits. */
  function Le32(n: nat): (b: seq<byte>)
    ensures |b| == 4
  {
    [Byte(n, 0), Byte(n, 1), Byte(n, 2), Byte(n, 3)]
  }

  function FromLe32(b: seq<byte>): u32
    requires |b| == 4
  {
    b[0] as int + 0x100 * (b[1] as int) + 0x1_0000 * (b[2] as int) + 0x100_0000 * (b[3] as int)
  }

  function Low(n: u64): u32 {
    n % 0x1_0000_0000
  }

  function High(n: u64): u32 {
    n / 0x1_0000_0000
  }

  function Le64(n: u64): (b: seq<byte>)
    ensures |b| == 8
  {
    Le32(Low(n)) + Le32(High(n))
  }

  function FromLe64(b: seq<byte>): u64
    requires |b| == 8
  {
    FromLe32(b[..4]) as int + 0x1_0000_0000 * (FromLe32(b[4..]) as int)
  }

  /** Four base-256 digits rebuild the low 32 bits of a number. */
  lemma Digits(n: nat)
    ensures Byte(n, 0) as int + 0x100 * (Byte(n, 1) as int) + 0x1_0000 * (Byte(n, 2) as int)
            + 0x100_0000 * (Byte(n, 3) as int) == n % 0x1_0000_0000
  {
    var q1 := n / 0x100;
    var q2 := q1 / 0x100;
    var q3 := q2 / 0x100;
    assert Byte(n, 1) == q1 % 0x100;
    assert Byte(n, 2) == Byte(q1, 1) == q2 % 0x100;
    assert Byte(n, 3) == Byte(q1, 2) == Byte(q2, 1) == q3 % 0x100;
    assert n / 0x1_0000_0000 == q3 / 0x100;
  }

  lemma Le32RoundTrip(n: nat)
    ensures FromLe32(Le32(n)) == n % 0x1_0000_0000
  {
    Digits(n);
  }

  /** Every four bytes are the encoding of the number they decode to. */
  lemma Le32Onto(b: seq<byte>)
    requires |b| == 4
    ensures Le32(FromLe32(b)) == b
  {
    var n := FromLe32(b) as int;
    var q1, q2, q3 := n / 0x100, n / 0x1_0000, n / 0x100_0000;
    assert q1 == b[1] as int + 0x100 * (b[2] as int) + 0x1_0000 * (b[3] as int);
    assert q2 == q1 / 0x100 == b[2] as int + 0x100 * (b[3] as int);
    assert q3 == q2 / 0x100 == b[3] as int;
    assert Byte(n, 1) == Byte(q1, 0) && Byte(n, 2) == Byte(q1, 1) == Byte(q2, 0);
    assert Byte(n, 3) == Byte(q1, 2) == Byte(q2, 1) == Byte(q3, 0);
  }

  lemma Le64RoundTrip(n: u64)
    ensures FromLe64(Le64(n)) == n
  {
    var b := Le64(n);
    hide Le32, FromLe32;
    assert b[..4] == Le32(Low(n)) && b[4..] == Le32(High(n));
    Le32RoundTrip(Low(n));
    Le32RoundTrip(High(n));
  }

  /** `x` is found in `buf` at offset `pos`. */
  ghost predicate At(buf: seq<byte>, pos: nat, x: seq<byte>) {
    pos + |x| <= |buf| && buf[pos..pos + |x|] == x
  }

  lemma AtSplit(buf: seq<byte>, pos: nat, x: seq<byte>, y: seq<byte>)
    ensures At(buf, pos, x + y) <==> At(buf, pos, x) && At(buf, pos + |x|, y)
  {
    if At(buf, pos, x + y) {
      assert buf[pos..pos + |x|] == buf[pos..pos + |x + y|][..|x|] == x;
      assert buf[pos + |x|..pos + |x| + |y|] == buf[pos..pos + |x + y|][|x|..] == y;
    }
    if At(buf, pos, x) && At(buf, pos + |x|, y) {
      assert buf[pos..pos + |x + y|] == buf[pos..pos + |x|] + buf[pos + |x|..pos + |x| + |y|];
    }
  }

  lemma AtTail(x: seq<byte>, y: seq<byte>)
    ensures At(x + y, |x|, y)
  {
    assert (x + y)[|x|..] == y;
  }

  /** `u32::from_le_bytes(buf.get(pos..pos + 4)?…)` followed by `pos += 4`. */
  function ReadU32(buf: seq<byte>, pos: nat): (r: Parsed<u32>)
    ensures r.Ok? ==> r.next <= |buf|
  {
    if pos + 4 <= |buf| then Ok(FromLe32(buf[pos..pos + 4]), pos + 4) else Bad
  }

  function ReadU64(buf: seq<byte>, pos: nat): (r: Parsed<u64>)
    ensures r.Ok? ==> r.next <= |buf|
  {
    if pos + 8 <= |buf| then Ok(FromLe64(buf[pos..pos + 8]), pos + 8) else Bad
  }

  /** `buf.get(pos..pos + len)?` followed by `pos += len`. */
  function ReadBytes(buf: seq<byte>, pos: nat, len: nat): (r: Parsed<seq<byte>>)
    ensures r.Ok? ==> |r.value| == len && r.next == pos + len <= |buf|
  {
    if pos + len <= |buf| then Ok(buf[pos..pos + len], pos + len) else Bad
  }

  lemma ReadU32At(buf: seq<byte>, pos: nat, n: u32)
    requires At(buf, pos, Le32(n))
    ensures ReadU32(buf, pos) == Ok(n, pos + 4)
  {
    Le32RoundTrip(n);
  }

  lemma ReadU64At(buf: seq<byte>, pos: nat, n: u64)
    requires At(buf, pos, Le64(n))
    ensures ReadU64(buf, pos) == Ok(n, pos + 8)
  {
    Le64RoundTrip(n);
  }

  /** A continuation byte `10xxxxxx`. */
  predicate Continuation(b: byte) {
    0x80 <= b < 0xC0
  }

  /** Length of the well-formed UTF-8 sequence that starts `s` (table 3-7 of the Unicode
      standard), or 0 when `s` starts with none. */
  function Utf8Step(s: seq<byte>): (n: nat)
    ensures n <= |s|
  {
    if |s| >= 1 && s[0] < 0x80 then 1
    else if |s| >= 2 && 0xC2 <= s[0] < 0xE0 && Continuation(s[1]) then 2
    else if |s| >= 3 && 0xE0 <= s[0] < 0xF0 && Continuation(s[1]) && Continuation(s[2])
            && (s[0] == 0xE0 ==> s[1] >= 0xA0) && (s[0] == 0xED ==> s[1] < 0xA0) then 3
    else if |s| >= 4 && 0xF0 <= s[0] < 0xF5 && Continuation(s[1]) && Continuation(s[2]) && Continuation(s[3])
            && (s[0] == 0xF0 ==> s[1] >= 0x90) && (s[0] == 0xF4 ==> s[1] < 0x90) then 4
    else 0
  }

  /** Exactly the byte strings that `core::str::from_utf8` accepts. */
  predicate IsUtf8(s: seq<byte>) {
    s == [] || (Utf8Step(s) > 0 && IsUtf8(s[Utf8Step(s)..]))
  }

  /** A Unicode scalar value: a code point that is not a surrogate. */
  predicate Scalar(c: int) {
    0 <= c < 0xD800 || 0xE000 <= c < 0x11_0000
  }

  /** Its UTF-8 encoding (table 3-6 of the Unicode standard). */
  function ScalarBytes(c: int): (b: seq<byte>)
    requires Scalar(c)
    ensures 1 <= |b| <= 4
  {
    if c < 0x80 then [c]
    else if c < 0x800 then [0xC0 + c / 64, 0x80 + c % 64]
    else if c < 0x1_0000 then [0xE0 + c / 4096, 0x80 + c / 64 % 64, 0x80 + c % 64]
    else [0xF0 + c / 26_2144, 0x80 + c / 4096 % 64, 0x80 + c / 64 % 64, 0x80 + c % 64]
  }

  ghost predicate AllScalar(text: seq<int>) {
    forall i :: 0 <= i < |text| ==> Scalar(text[i])
  }

  function TextBytes(text: seq<int>): seq<byte>
    requires AllScalar(text)
  {
    if text == [] then [] else ScalarBytes(text[0]) + TextBytes(text[1..])
  }

  lemma EncodedStep(c: int, rest: seq<byte>)
    requires Scalar(c)
    ensures Utf8Step(ScalarBytes(c) + rest) == |ScalarBytes(c)|
  {
  }

  /** The last base-64 digit of a number, and what is left. */
  lemma LastDigit(q: int, r: int)
    requires 0 <= r < 64
    ensures (q * 64 + r) / 64 == q && (q * 64 + r) % 64 == r
  {
  }

  /** A well-formed sequence is the encoding of one scalar value. */
  lemma StepEncodes(s: seq<byte>) returns (c: int)
    requires Utf8Step(s) > 0
    ensures Scalar(c) && ScalarBytes(c) == s[..Utf8Step(s)]
  {
    var n := Utf8Step(s);
    if n == 1 {
      c := s[0];
    } else if n == 2 {
      c := (s[0] as int - 0xC0) * 64 + (s[1] as int - 0x80);
      LastDigit(s[0] as int - 0xC0, s[1] as int - 0x80);
    } else if n == 3 {
      c := ThreeBytes(s[0], s[1], s[2]);
    } else {
      c := FourBytes(s[0], s[1], s[2], s[3]);
    }
  }

  lemma ThreeBytes(x: byte, y: byte, z: byte) returns (c: int)
    requires 0xE0 <= x < 0xF0 && Continuation(y) && Continuation(z)
    requires (x == 0xE0 ==> y >= 0xA0) && (x == 0xED ==> y < 0xA0)
    ensures Scalar(c) && ScalarBytes(c) == [x, y, z]
  {
    var high := (x as int - 0xE0) * 64 + (y as int - 0x80);
    c := high * 64 + (z as int - 0x80);
    LastDigit(x as int - 0xE0, y as int - 0x80);
    LastDigit(high, z as int - 0x80);
    assert c / 4096 == high / 64;
  }

  lemma FourBytes(x: byte, y: byte, z: byte, w: byte) returns (c: int)
    requires 0xF0 <= x < 0xF5 && Continuation(y) && Continuation(z) && Continuation(w)
    requires (x == 0xF0 ==> y >= 0x90) && (x == 0xF4 ==> y < 0x90)
    ensures Scalar(c) && ScalarBytes(c) == [x, y, z, w]
  {
    var high := (x as int - 0xF0) * 64 + (y as int - 0x80);
    var middle := high * 64 + (z as int - 0x80);
    c := middle * 64 + (w as int - 0x80);
    LastDigit(x as int - 0xF0, y as int - 0x80);
    LastDigit(high, z as int - 0x80);
    LastDigit(middle, w as int - 0x80);
    assert c / 4096 == middle / 64 && c / 26_2144 == high / 64;
  }

  /** `IsUtf8` accepts exactly the encodings of texts. */
  lemma {:induction false} Utf8Decodes(s: seq<byte>) returns (text: seq<int>)
    requires IsUtf8(s)
    ensures AllScalar(text) && TextBytes(text) == s
  {
    hide Utf8Step, ScalarBytes, Scalar;
    if s == [] {
      text := [];
    } else {
      var n := Utf8Step(s);
      var c := StepEncodes(s);
      var rest := Utf8Decodes(s[n..]);
      text := [c] + rest;
      assert text[1..] == rest && s == s[..n] + s[n..];
    }
  }

  lemma {:induction false} Utf8Encodes(text: seq<int>)
    requires AllScalar(text)
    ensures IsUtf8(TextBytes(text))
    decreases |text|
  {
    hide Utf8Step, ScalarBytes, Scalar;
    if text == [] {
      assert TextBytes(text) == [];
    } else {
      var b, rest := ScalarBytes(text[0]), TextBytes(text[1..]);
      Utf8Encodes(text[1..]);
      EncodedStep(text[0], rest);
      assert (b + rest)[|b|..] == rest;
    }
  }

  /** Exactly the encodings of texts are accepted. */
  lemma Utf8Exact(s: seq<byte>)
    ensures IsUtf8(s) <==> exists text :: AllScalar(text) && TextBytes(text) == s
  {
    hide IsUtf8, TextBytes, Scalar;
    if IsUtf8(s) {
      var text := Utf8Decodes(s);
    }
    if text :| AllScalar(text) && TextBytes(text) == s {
      Utf8Encodes(text);
    }
  }

  /** The bytes of a name that is written in ASCII. */
  function Ascii(s: string): (b: seq<byte>)
    requires forall i :: 0 <= i < |s| ==> s[i] < 128 as char
    ensures |b| == |s|
  {
    seq(|s|, i requires 0 <= i < |s| => s[i] as int)
  }

  /** A buffer that encoders append to. */
  class ByteBuffer {
    var bytes: seq<byte>

    constructor ()
      ensures bytes == []
    {
      bytes := [];
    }

    method ExtendFromSlice(x: seq<byte>)
      modifies this
      ensures bytes == old(bytes) + x
    {
      bytes := bytes + x;
    }
  }
}
