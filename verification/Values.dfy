/**
 Every value that the Thrift binary protocol can carry, and the proof that Skip gets past each of them.
 A reader therefore tolerates any field that a newer writer may add.
 */
module Values {
  import opened Wire
  import opened Wrappers
  import opened Fields

  /**
   Scalars by their type, a double by its eight bytes.  The fields of a struct are an id for each value; the
   entries of a map are listed key, value, key, value.
   */
  datatype Value =
    | Bool(flag: bool)
    | Byte(b: byte)
    | Int16(n: i16)
    | Int32(m: i32)
    | Int64(l: i64)
    | Double(bits: bytes)
    | Text(s: bytes)
    | Struct(ids: seq<i16>, vals: seq<Value>)
    | Sequence(t: byte, et: byte, vals: seq<Value>)
    | Mapping(kt: byte, vt: byte, vals: seq<Value>)

  function TypeOf(v: Value): byte {
    match v
    case Bool(_) => BOOL
    case Byte(_) => BYTE
    case Int16(_) => I16
    case Int32(_) => I32
    case Int64(_) => I64
    case Double(_) => DOUBLE
    case Text(_) => STRING
    case Struct(_, _) => STRUCT
    case Sequence(t, _, _) => t
    case Mapping(_, _, _) => MAP
  }

  predicate Legal(v: Value) {
    match v
    case Double(bits) => |bits| == 8
    case Text(s) => |s| < MAX_LENGTH
    case Struct(ids, vals) => |ids| == |vals| && AllLegal(vals)
    case Sequence(t, et, vals) => (t == LIST || t == SET) && |vals| < MAX_LENGTH && AllLegal(vals) && Typed([et], vals)
    case Mapping(kt, vt, vals) =>
      |vals| % 2 == 0 && |vals| / 2 < MAX_LENGTH && AllLegal(vals) && Typed([kt, vt], vals)
    case _ => true
  }

  predicate AllLegal(vs: seq<Value>) {
    vs == [] || (Legal(vs[0]) && AllLegal(vs[1..]))
  }

  /** The types of vs are those of ts, in rotation. */
  predicate Typed(ts: seq<byte>, vs: seq<Value>)
    requires |ts| >= 1
    decreases |vs|
  {
    vs == [] || (TypeOf(vs[0]) == ts[0] && Typed(ts[1..] + [ts[0]], vs[1..]))
  }

  function EncValue(v: Value): bytes {
    match v
    case Bool(flag) => EncBool(flag)
    case Byte(b) => [b]
    case Int16(n) => EncInt(2, n)
    case Int32(m) => EncInt(4, m)
    case Int64(l) => EncInt(8, l)
    case Double(bits) => bits
    case Text(s) => EncString(s)
    case Struct(ids, vals) => EncMembers(ids, vals) + [STOP]
    case Sequence(_, et, vals) => EncListBegin(et, |vals|) + EncValues(vals)
    case Mapping(kt, vt, vals) => [kt] + EncListBegin(vt, |vals| / 2) + EncValues(vals)
  }

  function EncValues(vs: seq<Value>): bytes {
    if vs == [] then [] else EncValue(vs[0]) + EncValues(vs[1..])
  }

  function EncMembers(ids: seq<i16>, vs: seq<Value>): bytes
    decreases vs
  {
    if vs == [] || ids == [] then []
    else EncFieldBegin(TypeOf(vs[0]), ids[0]) + EncValue(vs[0]) + EncMembers(ids[1..], vs[1..])
  }

  lemma LegalTypes(v: Value)
    requires Legal(v)
    ensures TypeOf(v) != STOP
  {
  }

  lemma SequenceSkipped(t: byte, et: byte, n: nat, body: bytes, x: bytes)
    requires (t == LIST || t == SET) && n < MAX_LENGTH && SkipElems([et], n, body + x) == Some(|body|)
    ensures Skip(t, EncListBegin(et, n) + body + x) == Some(5 + |body|)
  {
    hide SkipFields, SkipElems;
    var b, rest := EncListBegin(et, n) + body + x, body + x;
    assert b == EncListBegin(et, n) + rest;
    ReadEncListBegin(et, n, rest);
    assert b[5..] == rest && [b[0]] == [et];
  }

  lemma MappingSkipped(kt: byte, vt: byte, n: nat, body: bytes, x: bytes)
    requires n < MAX_LENGTH && SkipElems([kt, vt], 2 * n, body + x) == Some(|body|)
    ensures Skip(MAP, [kt] + EncListBegin(vt, n) + body + x) == Some(6 + |body|)
  {
    hide SkipFields, SkipElems;
    var b, rest := [kt] + EncListBegin(vt, n) + body + x, body + x;
    assert b[1..] == EncListBegin(vt, n) + rest;
    ReadEncListBegin(vt, n, rest);
    assert b[6..] == rest && [b[0], b[1]] == [kt, vt];
  }

  /** Nothing is skipped under a type code that the protocol does not have. */
  lemma OtherTypes(t: byte, b: bytes)
    ensures Skip(t, b).Some? ==> t in {2, 3, 4, 6, 8, 10, 11, 12, 13, 14, 15}
  {
  }

  /** Skip takes exactly the bytes of a value, whatever follows it. */
  lemma {:induction false} SkipExact(v: Value, x: bytes)
    requires Legal(v)
    ensures Skip(TypeOf(v), EncValue(v) + x) == Some(|EncValue(v)|)
    decreases v, 0
  {
    hide SkipFields, SkipElems, EncMembers, EncValues, EncListBegin, ReadString, ReadListBegin;
    match v
    case Text(s) => ReadEncString(s, x);
    case Struct(ids, vals) =>
      assert EncValue(v) + x == EncMembers(ids, vals) + ([STOP] + x);
      SkipMembersExact(ids, vals, x);
    case Sequence(t, et, vals) =>
      SkipValuesExact([et], vals, x);
      hide Skip;
      SequenceSkipped(t, et, |vals|, EncValues(vals), x);
    case Mapping(kt, vt, vals) =>
      SkipValuesExact([kt, vt], vals, x);
      hide Skip;
      MappingSkipped(kt, vt, |vals| / 2, EncValues(vals), x);
    case _ =>
  }

  lemma {:induction false} SkipValuesExact(ts: seq<byte>, vs: seq<Value>, x: bytes)
    requires |ts| >= 1 && AllLegal(vs) && Typed(ts, vs)
    ensures SkipElems(ts, |vs|, EncValues(vs) + x) == Some(|EncValues(vs)|)
    decreases vs, 1
  {
    hide Skip;
    if vs != [] {
      var b := EncValues(vs) + x;
      var rest := EncValues(vs[1..]) + x;
      assert b == EncValue(vs[0]) + rest;
      SkipExact(vs[0], rest);
      assert b[|EncValue(vs[0])|..] == rest;
      SkipValuesExact(ts[1..] + [ts[0]], vs[1..], x);
    }
  }

  lemma SkipMember(v: Value, id: i16, rest: bytes)
    requires Legal(v) && Skip(TypeOf(v), EncValue(v) + rest) == Some(|EncValue(v)|) && SkipFields(rest).Some?
    ensures SkipFields(EncFieldBegin(TypeOf(v), id) + (EncValue(v) + rest))
      == Some(3 + |EncValue(v)| + SkipFields(rest).value)
  {
    hide Skip, EncValue;
    var b := EncFieldBegin(TypeOf(v), id) + (EncValue(v) + rest);
    LegalTypes(v);
    assert b[0] == TypeOf(v);
    assert b[3..] == EncValue(v) + rest;
    assert b[3 + |EncValue(v)|..] == rest;
  }

  lemma SkipStop(x: bytes)
    ensures SkipFields([STOP] + x) == Some(1)
  {
  }

  lemma {:induction false} SkipMembersExact(ids: seq<i16>, vs: seq<Value>, x: bytes)
    requires |ids| == |vs| && AllLegal(vs)
    ensures SkipFields(EncMembers(ids, vs) + ([STOP] + x)) == Some(|EncMembers(ids, vs)| + 1)
    decreases vs, 1
  {
    hide Skip, SkipFields, EncValue, EncFieldBegin, Legal;
    if vs == [] {
      SkipStop(x);
      assert EncMembers(ids, vs) + ([STOP] + x) == [STOP] + x;
    } else {
      var v, rest := vs[0], EncMembers(ids[1..], vs[1..]) + ([STOP] + x);
      assert EncMembers(ids, vs) + ([STOP] + x) == EncFieldBegin(TypeOf(v), ids[0]) + (EncValue(v) + rest);
      SkipExact(v, rest);
      SkipMembersExact(ids[1..], vs[1..], x);
      SkipMember(v, ids[0], rest);
    }
  }

  /** Any value under an id and type that a struct does not know is a field its reader gets past. */
  lemma AnyValueSkipped<T(!new)>(f: FieldReader<T>, knows: Knows, id: i16, v: Value)
    requires Legal(v) && !knows(TypeOf(v), id)
    ensures WellFormed(f, knows, WireField(TypeOf(v), id, EncValue(v)))
  {
    LegalTypes(v);
    SkipExact(v, []);
    assert EncValue(v) + [] == EncValue(v);
  }
}
