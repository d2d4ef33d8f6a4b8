/**
 Writing into a caller's buffer.  A generated FastWrite fills a byte slice front to back, except that
 the header of a list is written after its elements, into room left for it.
 */
module Buffer {
  import opened Wire
  import opened Fields

  /** s with bs written over it at off. */
  function Patch(s: bytes, off: nat, bs: bytes): (r: bytes)
    requires off + |bs| <= |s|
    ensures |r| == |s|
  {
    s[..off] + bs + s[off + |bs|..]
  }

  /** Two writes next to each other are one write, whichever is done first. */
  lemma PatchAppend(s: bytes, off: nat, a: bytes, b: bytes)
    requires off + |a| + |b| <= |s|
    ensures Patch(Patch(s, off, a), off + |a|, b) == Patch(s, off, a + b)
    ensures Patch(Patch(s, off + |a|, b), off, a) == Patch(s, off, a + b)
  {
  }

  /** From the offset on the buffer holds what was written there, and then what it held before. */
  lemma PatchTail(s: bytes, off: nat, bs: bytes)
    requires off + |bs| <= |s|
    ensures Patch(s, off, bs)[off..] == bs + s[off + |bs|..]
  {
  }

  method WriteBytes(buf: array<byte>, off: nat, bs: bytes)
    requires off + |bs| <= buf.Length
    modifies buf
    ensures buf[..] == Patch(old(buf[..]), off, bs)
  {
    forall i | 0 <= i < |bs| {
      buf[off + i] := bs[i];
    }
  }

  /** b is s with the fields ws written over it from off to end. */
  ghost predicate Written(b: bytes, s: bytes, off: nat, ws: seq<WireField>, end: nat) {
    && end == off + |EncFields(ws)| <= |s|
    && b == Patch(s, off, EncFields(ws))
  }

  lemma StartWriting(s: bytes, off: nat)
    requires off <= |s|
    ensures Written(s, s, off, [], off)
  {
  }

  lemma FieldBytes(ws: seq<WireField>, w: WireField)
    ensures EncFields(ws + [w]) == EncFields(ws) + (EncFieldBegin(w.t, w.id) + w.payload)
  {
    EncFieldsAppend(ws, [w]);
    assert EncFields([w]) == EncField(w) + EncFields([]);
  }

  /** A header and then a payload, written next to each other, are one write. */
  lemma HeadAndPayload(b: bytes, end: nat, head: bytes, payload: bytes)
    requires end + |head| + |payload| <= |b|
    ensures Patch(Patch(b, end, head), end + |head|, payload) == Patch(b, end, head + payload)
  {
  }

  /** One more field is written: its header, then its payload. */
  lemma FieldWritten(b: bytes, b': bytes, s: bytes, off: nat, ws: seq<WireField>, end: nat, w: WireField)
    returns (ws': seq<WireField>)
    requires Written(b, s, off, ws, end) && end + 3 + |w.payload| <= |b|
    requires b' == Patch(Patch(b, end, EncFieldBegin(w.t, w.id)), end + 3, w.payload)
    ensures ws' == ws + [w] && Written(b', s, off, ws', end + 3 + |w.payload|)
  {
    ws' := ws + [w];
    FieldBytes(ws, w);
    HeadAndPayload(b, end, EncFieldBegin(w.t, w.id), w.payload);
    hide Patch, EncFields, EncFieldBegin;
    PatchAppend(s, off, EncFields(ws), EncFieldBegin(w.t, w.id) + w.payload);
  }

  /** Writes a field whose payload is a primitive. */
  method WriteField(buf: array<byte>, offset: nat, w: WireField, ghost s: bytes, ghost off: nat,
    ghost ws: seq<WireField>)
    returns (end: nat, ghost ws': seq<WireField>)
    requires Written(buf[..], s, off, ws, offset) && offset + 3 + |w.payload| <= buf.Length
    modifies buf
    ensures end == offset + 3 + |w.payload|
    ensures ws' == ws + [w] && Written(buf[..], s, off, ws', end)
  {
    ghost var b := buf[..];
    end := WriteFieldBegin(buf, offset, w.t, w.id);
    WriteBytes(buf, end, w.payload);
    end := end + |w.payload|;
    ws' := FieldWritten(b, buf[..], s, off, ws, offset, w);
  }

  method WriteFieldBegin(buf: array<byte>, offset: nat, t: byte, id: i16) returns (end: nat)
    requires offset + 3 <= buf.Length
    modifies buf
    ensures end == offset + 3
    ensures buf[..] == Patch(old(buf[..]), offset, EncFieldBegin(t, id))
  {
    WriteBytes(buf, offset, EncFieldBegin(t, id));
    end := offset + 3;
  }

  /** The STOP byte that ends a struct. */
  method WriteStop(buf: array<byte>, offset: nat, ghost s: bytes, ghost off: nat, ghost ws: seq<WireField>)
    returns (end: nat)
    requires Written(buf[..], s, off, ws, offset) && offset < buf.Length
    modifies buf
    ensures end == off + |EncStruct(ws)|
    ensures buf[..] == Patch(s, off, EncStruct(ws))
  {
    WriteBytes(buf, offset, [STOP]);
    end := offset + 1;
    PatchAppend(s, off, EncFields(ws), [STOP]);
  }

  // ---------- lists: the elements first, then the header ----------

  /** b is s with the first i elements of es written over it up to end, and room left for the header. */
  ghost predicate ElemsWritten(b: bytes, s: bytes, off: nat, es: seq<bytes>, i: nat, end: nat) {
    && i <= |es| && off + |EncList(es)| <= |s|
    && end == off + 5 + |Concat(es[..i])| <= |s|
    && b == Patch(s, off + 5, Concat(es[..i]))
  }

  lemma StartElems(s: bytes, off: nat, es: seq<bytes>)
    requires off + |EncList(es)| <= |s|
    ensures ElemsWritten(s, s, off, es, 0, off + 5)
  {
  }

  lemma ElemRoom(b: bytes, s: bytes, off: nat, es: seq<bytes>, i: nat, end: nat)
    requires ElemsWritten(b, s, off, es, i, end) && i < |es|
    ensures end + |es[i]| <= |b| && |b| == |s|
  {
    ConcatPrefix(es, i);
  }

  lemma ElemWritten(b: bytes, b': bytes, s: bytes, off: nat, es: seq<bytes>, i: nat, end: nat)
    requires ElemsWritten(b, s, off, es, i, end) && i < |es|
    requires end + |es[i]| <= |b| && b' == Patch(b, end, es[i])
    ensures ElemsWritten(b', s, off, es, i + 1, end + |es[i]|)
  {
    ConcatPrefix(es, i);
    PatchAppend(s, off + 5, Concat(es[..i]), es[i]);
  }

  /** Writing the header afterwards leaves the bytes that writing it first would have left. */
  lemma ListWritten(b: bytes, s: bytes, off: nat, es: seq<bytes>, end: nat)
    requires ElemsWritten(b, s, off, es, |es|, end)
    ensures end == off + |EncList(es)| <= |b|
    ensures Patch(b, off, EncListBegin(STRUCT, |es|)) == Patch(s, off, EncList(es))
  {
    assert es[..|es|] == es;
    PatchAppend(s, off, EncListBegin(STRUCT, |es|), Concat(es));
  }
}
