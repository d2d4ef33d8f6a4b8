/**
 The primitives of the Thrift binary protocol on which the generated codecs are built: big-endian
 two's complement integers, length-prefixed strings, field headers, list headers, and the skipping
 of a value of any type.  They follow the Apache Thrift specification "Thrift Binary protocol
 encoding", sections "Integer encoding", "Binary encoding", "Struct", "List and Set" and "Map".
 */
module Wire {
  import opened Wrappers

  type byte = x: int | 0 <= x < 256
  type bytes = seq<byte>
  type i16 = x: int | -0x8000 <= x < 0x8000
  type i32 = x: int | -0x8000_0000 <= x < 0x8000_0000
  type i64 = x: int | -0x8000_0000_0000_0000 <= x < 0x8000_0000_0000_0000

  const STOP: byte := 0
  const BOOL: byte := 2
  const BYTE: byte := 3
  const DOUBLE: byte := 4
  const I16: byte := 6
  const I32: byte := 8
  const I64: byte := 10
  const STRING: byte := 11
  const STRUCT: byte := 12
  const MAP: byte := 13
  const SET: byte := 14
  const LIST: byte := 15

  const MAX_LENGTH: nat := 0x8000_0000

  /** What a reader reports: success, the value as far as it was filled in, and the bytes consumed. */
  datatype Read<+T> = Read(ok: bool, val: T, n: nat)

  // ---------- integers ----------

  function Half(k: nat): (h: int)
    requires k >= 1
    ensures h >= 128
  {
    if k == 1 then 128 else 256 * Half(k - 1)
  }

  /** The k low-order bytes of v, most significant first; a value too wide is truncated. */
  function EncInt(k: nat, v: int): (b: bytes)
    ensures |b| == k
    decreases k, v
  {
    if k == 0 then [] else EncInt(k - 1, v / 256) + [v % 256]
  }

  function DecInt(b: bytes): (v: int)
    requires |b| >= 1
    ensures -Half(|b|) <= v < Half(|b|)
  {
    if |b| == 1 then (if b[0] >= 128 then b[0] - 256 else b[0])
    else DecInt(b[..|b| - 1]) * 256 + b[|b| - 1]
  }

  function Weight(i: nat): (w: nat)
    ensures w >= 1
  {
    if i == 0 then 1 else 256 * Weight(i - 1)
  }

  lemma Multiples(d: int, e: int)
    requires d >= 1
    ensures e >= 1 ==> d * e >= d
    ensures e <= -1 ==> d * e <= -d
  {
  }

  lemma Quotient(v: int, d: int, q: int, r: int)
    requires d >= 1 && v == d * q + r && 0 <= r < d
    ensures v / d == q
  {
    assert d * (v / d - q) == d * (v / d) - d * q;
    Multiples(d, v / d - q);
  }

  lemma DivideTwice(v: int, w: nat)
    requires w >= 1
    ensures v / 256 / w == v / (256 * w)
  {
    var p, t := v / 256 / w, v / 256 % w;
    assert v / 256 == w * p + t;
    assert 256 * (w * p) == (256 * w) * p;
    Quotient(v, 256 * w, p, 256 * t + v % 256);
  }

  /** Big-endian: the byte at i has weight 256 to the number of bytes after it. */
  lemma {:induction false} BigEndian(k: nat, v: int, i: nat)
    requires i < k
    ensures EncInt(k, v)[i] == v / Weight(k - 1 - i) % 256
  {
    if i < k - 1 {
      BigEndian(k - 1, v / 256, i);
      DivideTwice(v, Weight(k - 2 - i));
    }
  }

  lemma {:induction false} IntRoundTrip(k: nat, v: int)
    requires k >= 1 && -Half(k) <= v < Half(k)
    ensures DecInt(EncInt(k, v)) == v
  {
    if k == 1 {
      assert EncInt(1, v) == [v % 256];
    } else {
      IntRoundTrip(k - 1, v / 256);
      assert EncInt(k, v)[..k - 1] == EncInt(k - 1, v / 256);
    }
  }

  lemma HalfValues()
    ensures Half(2) == 0x8000 && Half(4) == 0x8000_0000 && Half(8) == 0x8000_0000_0000_0000
  {
    assert Half(3) == 0x80_0000;
    assert Half(5) == 0x80_0000_0000;
    assert Half(6) == 0x8000_0000_0000;
    assert Half(7) == 0x80_0000_0000_0000;
  }

  function ReadInt(k: nat, b: bytes): (r: Read<int>)
    requires k >= 1
    ensures r.n <= |b|
    ensures r.ok ==> r.n == k && -Half(k) <= r.val < Half(k)
  {
    if |b| < k then Read(false, 0, 0) else Read(true, DecInt(b[..k]), k)
  }

  function ReadI16(b: bytes): (r: Read<i16>)
    ensures r.n <= |b|
  {
    HalfValues();
    ReadInt(2, b)
  }

  function ReadI32(b: bytes): (r: Read<i32>)
    ensures r.n <= |b|
  {
    HalfValues();
    ReadInt(4, b)
  }

  function ReadI64(b: bytes): (r: Read<i64>)
    ensures r.n <= |b|
  {
    HalfValues();
    ReadInt(8, b)
  }

  // ---------- booleans and strings ----------

  function EncBool(v: bool): (b: bytes)
    ensures |b| == 1
  {
    [if v then 1 else 0]
  }

  function ReadBool(b: bytes): (r: Read<bool>)
    ensures r.n <= |b|
  {
    if |b| < 1 then Read(false, false, 0) else Read(true, b[0] == 1, 1)
  }

  /** The length is written as 32 bits whatever the string, so it is truncated for a huge one. */
  function EncString(s: bytes): (b: bytes)
    ensures |b| == 4 + |s|
  {
    EncInt(4, |s|) + s
  }

  function ReadString(b: bytes): (r: Read<bytes>)
    ensures r.n <= |b|
    ensures |r.val| < MAX_LENGTH
  {
    var len := ReadI32(b);
    if !len.ok || len.val < 0 || |b| < 4 + len.val then Read(false, [], 0)
    else Read(true, b[4..4 + len.val], 4 + len.val)
  }

  // ---------- list headers ----------

  function EncListBegin(et: byte, size: nat): (b: bytes)
    ensures |b| == 5
  {
    [et] + EncInt(4, size)
  }

  function ReadListBegin(b: bytes): (r: Read<int>)
    ensures r.n <= |b|
    ensures r.ok ==> r.n == 5 && 0 <= r.val < MAX_LENGTH
  {
    if |b| < 5 then Read(false, 0, 0)
    else
      var size := ReadI32(b[1..]);
      if size.val < 0 then Read(false, 0, 0) else Read(true, size.val, 5)
  }

  // ---------- what each reader returns on what the writer wrote ----------

  lemma ReadEncI16(v: i16, x: bytes)
    ensures ReadI16(EncInt(2, v) + x) == Read(true, v, 2)
  {
    HalfValues();
    IntRoundTrip(2, v);
    assert (EncInt(2, v) + x)[..2] == EncInt(2, v);
  }

  lemma ReadEncI32(v: i32, x: bytes)
    ensures ReadI32(EncInt(4, v) + x) == Read(true, v, 4)
  {
    HalfValues();
    IntRoundTrip(4, v);
    assert (EncInt(4, v) + x)[..4] == EncInt(4, v);
  }

  lemma ReadEncI64(v: i64, x: bytes)
    ensures ReadI64(EncInt(8, v) + x) == Read(true, v, 8)
  {
    HalfValues();
    IntRoundTrip(8, v);
    assert (EncInt(8, v) + x)[..8] == EncInt(8, v);
  }

  lemma ReadEncString(s: bytes, x: bytes)
    requires |s| < MAX_LENGTH
    ensures ReadString(EncString(s) + x) == Read(true, s, |EncString(s)|)
  {
    ReadEncI32(|s|, s + x);
    assert EncString(s) + x == EncInt(4, |s|) + (s + x);
    assert (EncString(s) + x)[4..4 + |s|] == s;
  }

  lemma ReadEncListBegin(et: byte, size: nat, x: bytes)
    requires size < MAX_LENGTH
    ensures ReadListBegin(EncListBegin(et, size) + x) == Read(true, size, 5)
  {
    ReadEncI32(size, x);
    assert (EncListBegin(et, size) + x)[1..] == EncInt(4, size) + x;
  }

  // ---------- a successful read does not depend on the bytes after it ----------

  lemma IntLocal(k: nat, b: bytes, x: bytes)
    requires k >= 1 && ReadInt(k, b).ok
    ensures ReadInt(k, b + x) == ReadInt(k, b)
  {
    assert (b + x)[..k] == b[..k];
  }

  lemma StringLocal(b: bytes, x: bytes)
    requires ReadString(b).ok
    ensures ReadString(b + x) == ReadString(b)
  {
    IntLocal(4, b, x);
    var len := ReadI32(b).val;
    assert (b + x)[4..4 + len] == b[4..4 + len];
  }

  lemma ListBeginLocal(b: bytes, x: bytes)
    requires ReadListBegin(b).ok
    ensures ReadListBegin(b + x) == ReadListBegin(b)
  {
    assert (b + x)[1..] == b[1..] + x;
    IntLocal(4, b[1..], x);
  }

  // ---------- skipping a value ----------

  function FixedSize(t: byte): nat {
    if t == BOOL || t == BYTE then 1
    else if t == I16 then 2
    else if t == I32 then 4
    else if t == I64 || t == DOUBLE then 8
    else 0
  }

  /** The number of bytes that a value of type t takes at the start of b, if there is one. */
  function Skip(t: byte, b: bytes): (r: Option<nat>)
    ensures r.Some? ==> 1 <= r.value <= |b|
    decreases |b|, 1, 0
  {
    if FixedSize(t) > 0 then (if |b| < FixedSize(t) then None else Some(FixedSize(t)))
    else if t == STRING then
      var s := ReadString(b);
      if s.ok then Some(s.n) else None
    else if t == STRUCT then SkipFields(b)
    else if t == LIST || t == SET then
      var h := ReadListBegin(b);
      if !h.ok then None else
      var r := SkipElems([b[0]], h.val, b[5..]);
      if r.None? then None else Some(5 + r.value)
    else if t == MAP then
      if |b| < 6 then None else
      var h := ReadListBegin(b[1..]);
      if !h.ok then None else
      var r := SkipElems([b[0], b[1]], 2 * h.val, b[6..]);
      if r.None? then None else Some(6 + r.value)
    else None
  }

  function SkipFields(b: bytes): (r: Option<nat>)
    ensures r.Some? ==> 1 <= r.value <= |b|
    decreases |b|, 0, 0
  {
    if |b| < 1 then None
    else if b[0] == STOP then Some(1)
    else if |b| < 3 then None
    else
      var r := Skip(b[0], b[3..]);
      if r.None? then None else
      var rest := SkipFields(b[3 + r.value..]);
      if rest.None? then None else Some(3 + r.value + rest.value)
  }

  /** Skips k values whose types are taken from ts in rotation: a list has one, a map key and value. */
  function SkipElems(ts: seq<byte>, k: nat, b: bytes): (r: Option<nat>)
    requires |ts| >= 1
    ensures r.Some? ==> r.value <= |b|
    decreases |b|, 2, k
  {
    if k == 0 then Some(0)
    else
      var r := Skip(ts[0], b);
      if r.None? then None else
      var rest := SkipElems(ts[1..] + [ts[0]], k - 1, b[r.value..]);
      if rest.None? then None else Some(r.value + rest.value)
  }

  lemma {:induction false} SkipLocal(t: byte, b: bytes, x: bytes)
    requires Skip(t, b).Some?
    ensures Skip(t, b + x) == Skip(t, b)
    decreases |b|, 1, 0
  {
    hide SkipFields, SkipElems;
    if FixedSize(t) > 0 {
    } else if t == STRING {
      StringLocal(b, x);
    } else if t == STRUCT {
      SkipFieldsLocal(b, x);
    } else if t == LIST || t == SET {
      ListBeginLocal(b, x);
      assert (b + x)[5..] == b[5..] + x;
      SkipElemsLocal([b[0]], ReadListBegin(b).val, b[5..], x);
    } else {
      assert (b + x)[1..] == b[1..] + x;
      ListBeginLocal(b[1..], x);
      assert (b + x)[6..] == b[6..] + x;
      SkipElemsLocal([b[0], b[1]], 2 * ReadListBegin(b[1..]).val, b[6..], x);
    }
  }

  lemma {:induction false} SkipFieldsLocal(b: bytes, x: bytes)
    requires SkipFields(b).Some?
    ensures SkipFields(b + x) == SkipFields(b)
    decreases |b|, 0, 0
  {
    hide Skip;
    assert (b + x)[0] == b[0];
    if b[0] != STOP {
      var n := Skip(b[0], b[3..]).value;
      assert (b + x)[3..] == b[3..] + x;
      SkipLocal(b[0], b[3..], x);
      assert (b + x)[3 + n..] == b[3 + n..] + x;
      SkipFieldsLocal(b[3 + n..], x);
    }
  }

  lemma {:induction false} SkipElemsLocal(ts: seq<byte>, k: nat, b: bytes, x: bytes)
    requires |ts| >= 1 && SkipElems(ts, k, b).Some?
    ensures SkipElems(ts, k, b + x) == SkipElems(ts, k, b)
    decreases |b|, 2, k
  {
    hide Skip;
    if k > 0 {
      SkipLocal(ts[0], b, x);
      var n := Skip(ts[0], b).value;
      assert (b + x)[n..] == b[n..] + x;
      SkipElemsLocal(ts[1..] + [ts[0]], k - 1, b[n..], x);
    }
  }
}
