/**
 The template that every generated FastRead, FastWrite and list codec instantiates: a struct is a run
 of fields ended by a STOP byte, read by a loop that hands each field to the struct's own `switch`.
 A struct's switch is a parameter here, so that the laws of the loop are proved once.
 */
module Fields {
  import opened Wire
  import opened Wrappers

  /** A struct's switch: the struct so far, the field's type and id, and the bytes after its header. */
  type FieldReader<!T> = (T, byte, i16, bytes) -> Read<T>

  ghost predicate Bounded<T(!new)>(f: FieldReader<T>) {
    forall p, t, id, b :: f(p, t, id, b).n <= |b|
  }

  /** A successful read of a field does not look at the bytes after that field. */
  ghost predicate Local<T(!new)>(f: FieldReader<T>) {
    forall p, t, id, b, x :: f(p, t, id, b).ok ==> f(p, t, id, b + x) == f(p, t, id, b)
  }

  /** A field that cannot be read leaves the struct alone. */
  ghost predicate Clean<T(!new)>(f: FieldReader<T>) {
    forall p, t, id, b :: !f(p, t, id, b).ok ==> f(p, t, id, b).val == p
  }

  function ReadStruct<T(!new)>(f: FieldReader<T>, p: T, b: bytes): (r: Read<T>)
    requires Bounded(f)
    ensures r.n <= |b|
    decreases |b|
  {
    if |b| < 1 then Read(false, p, 0)
    else if b[0] == STOP then Read(true, p, 1)
    else if |b| < 3 then Read(false, p, 0)
    else
      var r := f(p, b[0], ReadI16(b[1..]).val, b[3..]);
      if !r.ok then Read(false, r.val, 3 + r.n)
      else
        var rest := ReadStruct(f, r.val, b[3 + r.n..]);
        Read(rest.ok, rest.val, 3 + r.n + rest.n)
  }

  /** One turn of the loop, at an offset into the whole buffer. */
  lemma StructTurn<T(!new)>(f: FieldReader<T>, p: T, buf: bytes, offset: nat)
    requires Bounded(f) && offset <= |buf|
    ensures ReadStruct(f, p, buf[offset..]) == (
      var rest := buf[offset..];
      if |rest| < 1 then Read(false, p, 0)
      else if rest[0] == STOP then Read(true, p, 1)
      else if |rest| < 3 then Read(false, p, 0)
      else
        var r := f(p, rest[0], ReadI16(rest[1..]).val, buf[offset + 3..]);
        if !r.ok then Read(false, r.val, 3 + r.n)
        else Ahead(3 + r.n, ReadStruct(f, r.val, buf[offset + 3 + r.n..])))
  {
  }

  /** What a switch does with an unknown id or an unexpected type. */
  function SkipField<T>(p: T, t: byte, b: bytes): (r: Read<T>)
    ensures r.n <= |b| && r.val == p
  {
    var s := Skip(t, b);
    if s.Some? then Read(true, p, s.value) else Read(false, p, 0)
  }

  /** A read that starts n bytes further on. */
  function Ahead<T>(n: nat, r: Read<T>): Read<T> { r.(n := n + r.n) }

  /** Skip, as the generated code calls it. */
  method SkipBytes(t: byte, b: bytes) returns (l: nat, ok: bool)
    ensures ok == Skip(t, b).Some? && l == if ok then Skip(t, b).value else 0
  {
    var s := Skip(t, b);
    ok := s.Some?;
    l := if ok then s.value else 0;
  }

  lemma {:induction false} ReadStructLocal<T(!new)>(f: FieldReader<T>, p: T, b: bytes, x: bytes)
    requires Bounded(f) && Local(f)
    requires ReadStruct(f, p, b).ok
    ensures ReadStruct(f, p, b + x) == ReadStruct(f, p, b)
    decreases |b|
  {
    if b[0] != STOP {
      IntLocal(2, b[1..], x);
      assert (b + x)[1..] == b[1..] + x;
      assert (b + x)[3..] == b[3..] + x;
      var r := f(p, b[0], ReadI16(b[1..]).val, b[3..]);
      assert (b + x)[3 + r.n..] == b[3 + r.n..] + x;
      ReadStructLocal(f, r.val, b[3 + r.n..], x);
    }
  }

  /** A property of structs that every field keeps holds of whatever the loop returns. */
  lemma {:induction false} ReadStructKeeps<T(!new)>(f: FieldReader<T>, keeps: T -> bool, p: T, b: bytes)
    requires Bounded(f) && keeps(p)
    requires forall q, t, id, c :: keeps(q) ==> keeps(f(q, t, id, c).val)
    ensures keeps(ReadStruct(f, p, b).val)
    decreases |b|
  {
    if |b| >= 3 && b[0] != STOP {
      var r := f(p, b[0], ReadI16(b[1..]).val, b[3..]);
      if r.ok {
        ReadStructKeeps(f, keeps, r.val, b[3 + r.n..]);
      }
    }
  }

  // ---------- fields on the wire ----------

  datatype WireField = WireField(t: byte, id: i16, payload: bytes)

  function EncField(w: WireField): (b: bytes)
    ensures |b| == 3 + |w.payload|
  {
    EncFieldBegin(w.t, w.id) + w.payload
  }

  function EncFieldBegin(t: byte, id: i16): (b: bytes)
    ensures |b| == 3
  {
    [t] + EncInt(2, id)
  }

  function EncFields(ws: seq<WireField>): bytes {
    if ws == [] then [] else EncField(ws[0]) + EncFields(ws[1..])
  }

  function EncStruct(ws: seq<WireField>): bytes { EncFields(ws) + [STOP] }

  lemma {:induction false} EncFieldsAppend(us: seq<WireField>, ws: seq<WireField>)
    ensures EncFields(us + ws) == EncFields(us) + EncFields(ws)
  {
    if us == [] {
      assert us + ws == ws;
    } else {
      assert (us + ws)[1..] == us[1..] + ws;
      EncFieldsAppend(us[1..], ws);
    }
  }

  lemma AddSize(ws: seq<WireField>, w: WireField) returns (ws': seq<WireField>)
    ensures ws' == ws + [w]
    ensures |EncFields(ws')| == |EncFields(ws)| + 3 + |w.payload|
  {
    ws' := ws + [w];
    EncFieldsAppend(ws, [w]);
    assert EncFields([w]) == EncField(w) + EncFields([]);
  }

  /** The switch accepts the field and takes exactly its payload, whatever it has read before. */
  ghost predicate Accepts<T(!new)>(f: FieldReader<T>, w: WireField) {
    w.t != STOP && forall p: T :: f(p, w.t, w.id, w.payload).ok && f(p, w.t, w.id, w.payload).n == |w.payload|
  }

  ghost predicate AcceptsAll<T(!new)>(f: FieldReader<T>, ws: seq<WireField>) {
    forall w :: w in ws ==> Accepts(f, w)
  }

  function Take<T>(f: FieldReader<T>, p: T, w: WireField): T { f(p, w.t, w.id, w.payload).val }

  /** The struct after the fields of ws have been taken in turn. */
  function TakeAll<T>(f: FieldReader<T>, p: T, ws: seq<WireField>): T {
    if ws == [] then p else Take(f, TakeAll(f, p, ws[..|ws| - 1]), ws[|ws| - 1])
  }

  lemma {:induction false} TakeAllAppend<T>(f: FieldReader<T>, p: T, us: seq<WireField>, ws: seq<WireField>)
    ensures TakeAll(f, p, us + ws) == TakeAll(f, TakeAll(f, p, us), ws)
  {
    if ws == [] {
      assert us + ws == us;
    } else {
      assert (us + ws)[..|us + ws| - 1] == us + ws[..|ws| - 1];
      TakeAllAppend(f, p, us, ws[..|ws| - 1]);
    }
  }

  lemma TakeSnoc<T>(f: FieldReader<T>, p: T, ws: seq<WireField>, w: WireField)
    ensures TakeAll(f, p, ws + [w]) == Take(f, TakeAll(f, p, ws), w)
  {
    assert (ws + [w])[..|ws|] == ws;
  }

  /** One turn of the loop on a written field. */
  lemma ReadEncField<T(!new)>(f: FieldReader<T>, p: T, w: WireField, rest: bytes)
    requires Bounded(f) && Local(f) && Accepts(f, w)
    ensures var r := ReadStruct(f, Take(f, p, w), rest);
      ReadStruct(f, p, EncField(w) + rest) == Read(r.ok, r.val, |EncField(w)| + r.n)
  {
    var b := EncField(w) + rest;
    assert b[1..] == EncInt(2, w.id) + (w.payload + rest);
    ReadEncI16(w.id, w.payload + rest);
    assert b[3..] == w.payload + rest;
    assert f(p, w.t, w.id, w.payload).ok;
    assert b[3 + |w.payload|..] == rest;
  }

  lemma StartTaking<T(!new)>(f: FieldReader<T>, p: T) returns (ws: seq<WireField>, q: T)
    ensures ws == [] && q == p && AcceptsAll(f, ws) && TakeAll(f, p, ws) == q
  {
    ws, q := [], p;
  }

  /** Adding one more accepted field to a run of accepted fields that turns p into q. */
  lemma Grow<T(!new)>(f: FieldReader<T>, p: T, ws: seq<WireField>, q: T, w: WireField, r: T)
    returns (ws': seq<WireField>, q': T)
    requires AcceptsAll(f, ws) && TakeAll(f, p, ws) == q
    requires Accepts(f, w) && Take(f, q, w) == r
    ensures ws' == ws + [w] && q' == r
    ensures AcceptsAll(f, ws') && TakeAll(f, p, ws') == q'
  {
    ws', q' := ws + [w], r;
    TakeSnoc(f, p, ws, w);
  }

  /** The same for a field that is written only if it is set. */
  lemma GrowOptional<T(!new)>(f: FieldReader<T>, p: T, ws: seq<WireField>, q: T, o: Option<WireField>, r: T)
    returns (ws': seq<WireField>, q': T)
    requires AcceptsAll(f, ws) && TakeAll(f, p, ws) == q
    requires if o.Some? then Accepts(f, o.value) && Take(f, q, o.value) == r else r == q
    ensures ws' == ws + Present(o) && q' == r
    ensures AcceptsAll(f, ws') && TakeAll(f, p, ws') == q'
  {
    if o.Some? {
      ws', q' := Grow(f, p, ws, q, o.value, r);
    } else {
      ws', q' := ws, q;
      assert ws + [] == ws;
    }
  }

  function Present(o: Option<WireField>): seq<WireField> { if o.None? then [] else [o.value] }

  /** After whole fields the loop goes on with what follows them. */
  lemma {:induction false} ReadAfterFields<T(!new)>(f: FieldReader<T>, p: T, ws: seq<WireField>, rest: bytes)
    requires Bounded(f) && Local(f) && AcceptsAll(f, ws)
    ensures ReadStruct(f, p, EncFields(ws) + rest) == Ahead(|EncFields(ws)|, ReadStruct(f, TakeAll(f, p, ws), rest))
  {
    if ws == [] {
      assert EncFields(ws) + rest == rest;
    } else {
      var w, us := ws[0], ws[1..];
      assert EncFields(ws) + rest == EncField(w) + (EncFields(us) + rest);
      ReadEncField(f, p, w, EncFields(us) + rest);
      ReadAfterFields(f, Take(f, p, w), us, rest);
      TakeAllCons(f, p, w, us);
      assert [w] + us == ws;
    }
  }

  /** Reading a written struct: the loop takes the fields in turn and stops right after the STOP byte. */
  lemma ReadEncStruct<T(!new)>(f: FieldReader<T>, p: T, ws: seq<WireField>, x: bytes)
    requires Bounded(f) && Local(f) && AcceptsAll(f, ws)
    ensures ReadStruct(f, p, EncStruct(ws) + x) == Read(true, TakeAll(f, p, ws), |EncStruct(ws)|)
  {
    ReadAfterFields(f, p, ws, [STOP] + x);
    assert EncStruct(ws) + x == EncFields(ws) + ([STOP] + x);
  }

  /** A read that fails leaves what the whole fields before the failure made of the struct. */
  lemma FailedRead<T(!new)>(f: FieldReader<T>, p: T, ws: seq<WireField>, rest: bytes)
    requires Bounded(f) && Local(f) && Clean(f) && AcceptsAll(f, ws)
    requires rest == [] || (rest[0] != STOP &&
      (|rest| < 3 || !f(TakeAll(f, p, ws), rest[0], ReadI16(rest[1..]).val, rest[3..]).ok))
    ensures var r := ReadStruct(f, p, EncFields(ws) + rest);
      !r.ok && r.val == TakeAll(f, p, ws) && |EncFields(ws)| <= r.n
  {
    ReadAfterFields(f, p, ws, rest);
  }

  lemma TakeAllCons<T>(f: FieldReader<T>, p: T, w: WireField, ws: seq<WireField>)
    ensures TakeAll(f, p, [w] + ws) == TakeAll(f, Take(f, p, w), ws)
  {
    TakeAllAppend(f, p, [w], ws);
    assert [w][..0] == [];
  }

  /** No strict prefix of a written struct is accepted. */
  lemma StrictPrefixRejected<T(!new)>(f: FieldReader<T>, p: T, ws: seq<WireField>, k: nat)
    requires Bounded(f) && Local(f) && AcceptsAll(f, ws)
    requires k < |EncStruct(ws)|
    ensures !ReadStruct(f, p, EncStruct(ws)[..k]).ok
  {
    var b := EncStruct(ws);
    ReadEncStruct(f, p, ws, []);
    assert b + [] == b && b[..k] + b[k..] == b;
    if ReadStruct(f, p, b[..k]).ok {
      ReadStructLocal(f, p, b[..k], b[k..]);
    }
  }

  // ---------- the order of fields, and fields that the reader does not know ----------

  type Knows = (byte, i16) -> bool

  /** A switch skips a field it does not know; a known one sets its own slot, from its payload alone.
      slot(p, id) is the part of p that the field id sets. */
  ghost predicate Slotted<T(!new)>(f: FieldReader<T>, knows: Knows, slot: (T, i16) -> T) {
    && (forall p, t, id, b :: !knows(t, id) ==> f(p, t, id, b) == SkipField(p, t, b))
    && (forall p, w: WireField, j :: knows(w.t, w.id) && j != w.id ==> slot(Take(f, p, w), j) == slot(p, j))
    && (forall p, q, w: WireField :: knows(w.t, w.id) && Accepts(f, w) ==>
          slot(Take(f, p, w), w.id) == slot(Take(f, q, w), w.id))
    && (forall p, q :: SameSlots(slot, p, q) ==> p == q)
  }

  ghost predicate SameSlots<T(!new)>(slot: (T, i16) -> T, p: T, q: T) {
    forall j :: slot(p, j) == slot(q, j)
  }

  /** The last known field with the given id. */
  function Last(knows: Knows, ws: seq<WireField>, id: i16): (r: Option<WireField>)
    ensures r.Some? ==> r.value in ws && r.value.id == id && knows(r.value.t, id)
    ensures r.None? ==> forall w :: w in ws ==> !(knows(w.t, w.id) && w.id == id)
  {
    if ws == [] then None
    else
      var w := ws[|ws| - 1];
      if knows(w.t, w.id) && w.id == id then Some(w) else Last(knows, ws[..|ws| - 1], id)
  }

  ghost predicate SameLast(knows: Knows, us: seq<WireField>, ws: seq<WireField>) {
    forall id: i16 :: Last(knows, us, id) == Last(knows, ws, id)
  }

  /** After a run of fields each slot holds what the last known field for it has set. */
  lemma {:induction false} SlotOfLast<T(!new)>(f: FieldReader<T>, knows: Knows, slot: (T, i16) -> T,
                                               p: T, ws: seq<WireField>, j: i16)
    requires Slotted(f, knows, slot) && AcceptsAll(f, ws)
    ensures slot(TakeAll(f, p, ws), j) == match Last(knows, ws, j)
      case None => slot(p, j)
      case Some(w) => slot(Take(f, p, w), j)
  {
    if ws != [] {
      var us, w := ws[..|ws| - 1], ws[|ws| - 1];
      SlotOfLast(f, knows, slot, p, us, j);
      assert Accepts(f, w);
    }
  }

  /** The struct depends only on the last known field of each id. */
  lemma LastWins<T(!new)>(f: FieldReader<T>, knows: Knows, slot: (T, i16) -> T,
                          p: T, us: seq<WireField>, ws: seq<WireField>)
    requires Slotted(f, knows, slot) && AcceptsAll(f, us) && AcceptsAll(f, ws) && SameLast(knows, us, ws)
    ensures TakeAll(f, p, us) == TakeAll(f, p, ws)
  {
    var q, r := TakeAll(f, p, us), TakeAll(f, p, ws);
    forall j ensures slot(q, j) == slot(r, j) {
      SlotOfLast(f, knows, slot, p, us, j);
      SlotOfLast(f, knows, slot, p, ws, j);
    }
    assert SameSlots(slot, q, r);
  }

  ghost predicate DistinctKnown(knows: Knows, ws: seq<WireField>) {
    forall i, j :: 0 <= i < j < |ws| && knows(ws[i].t, ws[i].id) && knows(ws[j].t, ws[j].id) ==> ws[i].id != ws[j].id
  }

  /** Permuting fields whose known ids are distinct, with fields of other ids or types anywhere between. */
  lemma ShuffledSameLast(knows: Knows, us: seq<WireField>, ws: seq<WireField>)
    requires DistinctKnown(knows, ws)
    requires forall w: WireField :: knows(w.t, w.id) ==> (w in us <==> w in ws)
    ensures SameLast(knows, us, ws)
  {
    forall id: i16 ensures Last(knows, us, id) == Last(knows, ws, id) {
      var u, w := Last(knows, us, id), Last(knows, ws, id);
      if u.Some? {
        assert u.value in ws;
        assert w.Some?;
        assert w.value in us;
      }
    }
  }

  /** A field that a reader must get past: acceptable if it is known, skippable if it is not. */
  ghost predicate WellFormed<T(!new)>(f: FieldReader<T>, knows: Knows, w: WireField) {
    && w.t != STOP
    && if knows(w.t, w.id) then Accepts(f, w) else Skip(w.t, w.payload) == Some(|w.payload|)
  }

  /** Reading fs in any other order, with unknown or mistyped fields between them. */
  lemma ReadShuffled<T(!new)>(f: FieldReader<T>, knows: Knows, slot: (T, i16) -> T,
                              p: T, fs: seq<WireField>, ws: seq<WireField>, x: bytes)
    requires Bounded(f) && Local(f) && Slotted(f, knows, slot)
    requires AcceptsAll(f, fs) && forall w :: w in ws ==> WellFormed(f, knows, w)
    requires DistinctKnown(knows, ws)
    requires forall w: WireField :: knows(w.t, w.id) ==> (w in fs <==> w in ws)
    ensures ReadStruct(f, p, EncStruct(ws) + x) == Read(true, TakeAll(f, p, fs), |EncStruct(ws)|)
  {
    forall w | w in ws ensures Accepts(f, w) {
      assert WellFormed(f, knows, w);
    }
    ReadEncStruct(f, p, ws, x);
    ShuffledSameLast(knows, fs, ws);
    LastWins(f, knows, slot, p, fs, ws);
  }

  /** ws holds the known fields of fs in any order, with skippable fields of other ids or types anywhere between. */
  ghost predicate Rearranged(knows: Knows, fs: seq<WireField>, ws: seq<WireField>) {
    && DistinctKnown(knows, ws)
    && (forall w: WireField :: knows(w.t, w.id) ==> (w in fs <==> w in ws))
    && (forall w :: w in ws && !knows(w.t, w.id) ==> w.t != STOP && Skip(w.t, w.payload) == Some(|w.payload|))
  }

  lemma ReadRearranged<T(!new)>(f: FieldReader<T>, knows: Knows, slot: (T, i16) -> T,
                                p: T, fs: seq<WireField>, ws: seq<WireField>, x: bytes)
    requires Bounded(f) && Local(f) && Slotted(f, knows, slot) && AcceptsAll(f, fs) && Rearranged(knows, fs, ws)
    ensures ReadStruct(f, p, EncStruct(ws) + x) == Read(true, TakeAll(f, p, fs), |EncStruct(ws)|)
  {
    forall w | w in ws ensures WellFormed(f, knows, w) {
      assert knows(w.t, w.id) ==> w in fs;
    }
    ReadShuffled(f, knows, slot, p, fs, ws, x);
  }

  /** Two fields that the switch takes alike, whatever it has read before. */
  ghost predicate Interchangeable<T(!new)>(f: FieldReader<T>, v: WireField, w: WireField) {
    Accepts(f, v) && Accepts(f, w) && forall p :: Take(f, p, v) == Take(f, p, w)
  }

  /** A field may be replaced by one that is taken alike. */
  lemma {:induction false} TakeSwapped<T(!new)>(f: FieldReader<T>, p: T, ws: seq<WireField>, i: nat, w: WireField)
    requires i < |ws| && AcceptsAll(f, ws) && Interchangeable(f, ws[i], w)
    ensures AcceptsAll(f, ws[i := w]) && TakeAll(f, p, ws[i := w]) == TakeAll(f, p, ws)
  {
    var k := |ws| - 1;
    assert ws == ws[..k] + [ws[k]];
    if i < k {
      TakeSwapped(f, p, ws[..k], i, w);
      assert ws[i := w][..k] == ws[..k][i := w];
    } else {
      assert ws[i := w][..k] == ws[..k];
    }
  }

  // ---------- what the primitives promise, for all inputs at once ----------

  lemma ReadersLocal()
    ensures forall b, x :: ReadBool(b).ok ==> ReadBool(b + x) == ReadBool(b)
    ensures forall b, x :: ReadI32(b).ok ==> ReadI32(b + x) == ReadI32(b)
    ensures forall b, x :: ReadI64(b).ok ==> ReadI64(b + x) == ReadI64(b)
    ensures forall b, x :: ReadString(b).ok ==> ReadString(b + x) == ReadString(b)
    ensures forall t, b, x :: Skip(t, b).Some? ==> Skip(t, b + x) == Skip(t, b)
  {
    forall b, x | ReadInt(4, b).ok ensures ReadI32(b + x) == ReadI32(b) { IntLocal(4, b, x); }
    forall b, x | ReadInt(8, b).ok ensures ReadI64(b + x) == ReadI64(b) { IntLocal(8, b, x); }
    forall b, x | ReadString(b).ok ensures ReadString(b + x) == ReadString(b) { StringLocal(b, x); }
    forall t, b, x | Skip(t, b).Some? ensures Skip(t, b + x) == Skip(t, b) { SkipLocal(t, b, x); }
  }

  lemma ReadersExact()
    ensures forall v :: ReadBool(EncBool(v)) == Read(true, v, 1) && |EncBool(v)| == 1
    ensures forall v: i32 :: ReadI32(EncInt(4, v)) == Read(true, v, 4)
    ensures forall v: i64 :: ReadI64(EncInt(8, v)) == Read(true, v, 8)
    ensures forall s :: |s| < MAX_LENGTH ==> ReadString(EncString(s)) == Read(true, s, |EncString(s)|)
  {
    forall v: i32 ensures ReadI32(EncInt(4, v)) == Read(true, v, 4) {
      ReadEncI32(v, []);
      assert EncInt(4, v) + [] == EncInt(4, v);
    }
    forall v: i64 ensures ReadI64(EncInt(8, v)) == Read(true, v, 8) {
      ReadEncI64(v, []);
      assert EncInt(8, v) + [] == EncInt(8, v);
    }
    forall s | |s| < MAX_LENGTH ensures ReadString(EncString(s)) == Read(true, s, |EncString(s)|) {
      ReadEncString(s, []);
      assert EncString(s) + [] == EncString(s);
    }
  }

  // ---------- lists of structs ----------

  function AllSome<T>(vs: seq<T>): (r: seq<Option<T>>)
    ensures |r| == |vs| && forall i :: 0 <= i < |vs| ==> r[i] == Some(vs[i])
  {
    seq(|vs|, i requires 0 <= i < |vs| => Some(vs[i]))
  }

  ghost predicate BoundedElem<T(!new)>(elem: bytes -> Read<T>) {
    forall b :: elem(b).n <= |b|
  }

  ghost predicate LocalElem<T(!new)>(elem: bytes -> Read<T>) {
    forall b, x :: elem(b).ok ==> elem(b + x) == elem(b)
  }

  function ReadElems<T(!new)>(elem: bytes -> Read<T>, k: nat, b: bytes): (r: Read<seq<T>>)
    requires BoundedElem(elem)
    ensures r.n <= |b|
    ensures |r.val| <= k && (r.ok ==> |r.val| == k)
    decreases k
  {
    if k == 0 then Read(true, [], 0)
    else
      var e := elem(b);
      if !e.ok then Read(false, [], 0)
      else
        var rest := ReadElems(elem, k - 1, b[e.n..]);
        Read(rest.ok, [e.val] + rest.val, e.n + rest.n)
  }

  /** The declared element type is read and ignored. */
  function ReadList<T(!new)>(elem: bytes -> Read<T>, b: bytes): (r: Read<seq<T>>)
    requires BoundedElem(elem)
    ensures r.n <= |b|
    ensures |r.val| < MAX_LENGTH
  {
    var h := ReadListBegin(b);
    if !h.ok then Read(false, [], 0)
    else
      var es := ReadElems(elem, h.val, b[5..]);
      Read(es.ok, es.val, 5 + es.n)
  }

  lemma {:induction false} ReadElemsKeep<T(!new)>(elem: bytes -> Read<T>, keeps: T -> bool, k: nat, b: bytes)
    requires BoundedElem(elem) && forall c :: keeps(elem(c).val)
    ensures forall v :: v in ReadElems(elem, k, b).val ==> keeps(v)
    decreases k
  {
    if k > 0 && elem(b).ok {
      ReadElemsKeep(elem, keeps, k - 1, b[elem(b).n..]);
    }
  }

  lemma ReadListKeeps<T(!new)>(elem: bytes -> Read<T>, keeps: T -> bool, b: bytes)
    requires BoundedElem(elem) && forall c :: keeps(elem(c).val)
    ensures forall v :: v in ReadList(elem, b).val ==> keeps(v)
  {
    var h := ReadListBegin(b);
    if h.ok {
      ReadElemsKeep(elem, keeps, h.val, b[5..]);
    }
  }

  function Concat(bs: seq<bytes>): bytes {
    if bs == [] then [] else bs[0] + Concat(bs[1..])
  }

  lemma {:induction false} ConcatAppend(cs: seq<bytes>, bs: seq<bytes>)
    ensures Concat(cs + bs) == Concat(cs) + Concat(bs)
  {
    if cs == [] {
      assert cs + bs == bs;
    } else {
      assert (cs + bs)[1..] == cs[1..] + bs;
      ConcatAppend(cs[1..], bs);
    }
  }

  lemma ConcatPrefix(bs: seq<bytes>, i: nat)
    requires i < |bs|
    ensures Concat(bs[..i + 1]) == Concat(bs[..i]) + bs[i]
    ensures |Concat(bs[..i + 1])| <= |Concat(bs)|
  {
    ConcatAppend(bs[..i], [bs[i]]);
    assert bs[..i + 1] == bs[..i] + [bs[i]];
    assert Concat([bs[i]]) == bs[i] + Concat([]);
    ConcatAppend(bs[..i + 1], bs[i + 1..]);
    assert bs == bs[..i + 1] + bs[i + 1..];
  }

  /** The elements vs have been read from n bytes, and r is what remains to be read. */
  function After<T>(vs: seq<T>, n: nat, r: Read<seq<T>>): Read<seq<T>> {
    Read(r.ok, vs + r.val, n + r.n)
  }

  lemma ListHead<T(!new)>(elem: bytes -> Read<T>, b: bytes)
    requires BoundedElem(elem)
    ensures ReadList(elem, b) == (
      var h := ReadListBegin(b);
      if h.ok then After([], 5, ReadElems(elem, h.val, b[5..])) else Read(false, [], 0))
  {
    var h := ReadListBegin(b);
    if h.ok {
      assert [] + ReadElems(elem, h.val, b[5..]).val == ReadElems(elem, h.val, b[5..]).val;
    }
  }

  /** One more element of a list is read, or the list is rejected there. */
  lemma ElemsStep<T(!new)>(elem: bytes -> Read<T>, vs: seq<T>, offset: nat, k: nat, b: bytes)
    requires BoundedElem(elem) && k > 0 && offset <= |b|
    ensures After(vs, offset, ReadElems(elem, k, b[offset..])) == (
      var e := elem(b[offset..]);
      if e.ok then After(vs + [e.val], offset + e.n, ReadElems(elem, k - 1, b[offset + e.n..]))
      else Read(false, vs, offset))
  {
    var e := elem(b[offset..]);
    if e.ok {
      assert b[offset..][e.n..] == b[offset + e.n..];
      var rest := ReadElems(elem, k - 1, b[offset + e.n..]);
      assert vs + ([e.val] + rest.val) == vs + [e.val] + rest.val;
    } else {
      assert vs + [] == vs;
    }
  }

  lemma ElemsDone<T(!new)>(elem: bytes -> Read<T>, vs: seq<T>, n: nat, b: bytes)
    requires BoundedElem(elem)
    ensures After(vs, n, ReadElems(elem, 0, b)) == Read(true, vs, n)
  {
    assert vs + [] == vs;
  }

  function EncList(es: seq<bytes>): bytes { EncListBegin(STRUCT, |es|) + Concat(es) }

  lemma {:induction false} ReadElemsLocal<T(!new)>(elem: bytes -> Read<T>, k: nat, b: bytes, x: bytes)
    requires BoundedElem(elem) && LocalElem(elem) && ReadElems(elem, k, b).ok
    ensures ReadElems(elem, k, b + x) == ReadElems(elem, k, b)
    decreases k
  {
    if k > 0 {
      var e := elem(b);
      assert (b + x)[e.n..] == b[e.n..] + x;
      ReadElemsLocal(elem, k - 1, b[e.n..], x);
    }
  }

  lemma ReadListLocal<T(!new)>(elem: bytes -> Read<T>, b: bytes, x: bytes)
    requires BoundedElem(elem) && LocalElem(elem) && ReadList(elem, b).ok
    ensures ReadList(elem, b + x) == ReadList(elem, b)
  {
    ListBeginLocal(b, x);
    assert (b + x)[5..] == b[5..] + x;
    ReadElemsLocal(elem, ReadListBegin(b).val, b[5..], x);
  }

  lemma {:induction false} ReadConcat<T(!new)>(elem: bytes -> Read<T>, es: seq<bytes>, vs: seq<T>, x: bytes)
    requires BoundedElem(elem) && LocalElem(elem) && |es| == |vs|
    requires forall i :: 0 <= i < |es| ==> elem(es[i]) == Read(true, vs[i], |es[i]|)
    ensures ReadElems(elem, |es|, Concat(es) + x) == Read(true, vs, |Concat(es)|)
  {
    if es == [] {
    } else {
      var rest := Concat(es[1..]) + x;
      assert Concat(es) + x == es[0] + rest;
      assert elem(es[0]) == Read(true, vs[0], |es[0]|);
      assert (es[0] + rest)[|es[0]|..] == rest;
      ReadConcat(elem, es[1..], vs[1..], x);
      assert [vs[0]] + vs[1..] == vs;
    }
  }

  /** Whatever element type the header declares: it is read and ignored. */
  lemma ReadAnyList<T(!new)>(elem: bytes -> Read<T>, et: byte, es: seq<bytes>, vs: seq<T>, x: bytes)
    requires BoundedElem(elem) && LocalElem(elem) && |es| == |vs| < MAX_LENGTH
    requires forall i :: 0 <= i < |es| ==> elem(es[i]) == Read(true, vs[i], |es[i]|)
    ensures ReadList(elem, EncListBegin(et, |es|) + Concat(es) + x) == Read(true, vs, 5 + |Concat(es)|)
  {
    var b := EncListBegin(et, |es|) + Concat(es) + x;
    assert b == EncListBegin(et, |es|) + (Concat(es) + x);
    ReadEncListBegin(et, |es|, Concat(es) + x);
    assert b[5..] == Concat(es) + x;
    ReadConcat(elem, es, vs, x);
  }

  lemma ReadEncList<T(!new)>(elem: bytes -> Read<T>, es: seq<bytes>, vs: seq<T>, x: bytes)
    requires BoundedElem(elem) && LocalElem(elem) && |es| == |vs| < MAX_LENGTH
    requires forall i :: 0 <= i < |es| ==> elem(es[i]) == Read(true, vs[i], |es[i]|)
    ensures ReadList(elem, EncList(es) + x) == Read(true, vs, |EncList(es)|)
  {
    ReadAnyList(elem, STRUCT, es, vs, x);
  }
}
