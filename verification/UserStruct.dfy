/**
 The generated code of the user package: structs whose fields FastRead assigns, and the writing and
 measuring of a message in a caller's buffer.  Nested structs and lists are held by value.
 */
module UserStruct {
  import opened Wire
  import opened Wrappers
  import opened Fields
  import opened Buffer
  import V = UserCodec

  class User {
    var id: i64
    var name: bytes
    var followCount: i32
    var followerCount: i32
    var isFollow: bool
    var avatar: bytes
    var backgroundImage: bytes
    var signature: bytes
    var totalFavorited: bytes
    var workCount: i32
    var favoriteCount: i32

    constructor ()
      ensures Value() == V.NEW_USER
    {
      id := 0;
      name := [];
      followCount := 0;
      followerCount := 0;
      isFollow := false;
      avatar := [];
      backgroundImage := [];
      signature := [];
      totalFavorited := [];
      workCount := 0;
      favoriteCount := 0;
    }

    function Value(): V.User
      reads this
    {
      V.User(id, name, followCount, followerCount, isFollow,
        avatar, backgroundImage, signature, totalFavorited, workCount, favoriteCount)
    }

    /** The switch over the field id, and the assignment of the field. */
    method FastReadField(t: byte, fieldId: i16, b: bytes) returns (l: nat, ok: bool)
      modifies this
      ensures Read(ok, Value(), l) == old(V.UserSwitch(Value(), t, fieldId, b))
    {
      hide ReadI64, ReadI32, ReadString, ReadBool, Skip;
      match fieldId {
        case 1 =>
          if t != I64 {
            l, ok := SkipBytes(t, b);
          } else {
            var r := ReadI64(b);
            if r.ok {
              id := r.val;
            }
            l, ok := r.n, r.ok;
          }
        case 2 =>
          if t != STRING {
            l, ok := SkipBytes(t, b);
          } else {
            var r := ReadString(b);
            if r.ok {
              name := r.val;
            }
            l, ok := r.n, r.ok;
          }
        case 3 =>
          if t != I32 {
            l, ok := SkipBytes(t, b);
          } else {
            var r := ReadI32(b);
            if r.ok {
              followCount := r.val;
            }
            l, ok := r.n, r.ok;
          }
        case 4 =>
          if t != I32 {
            l, ok := SkipBytes(t, b);
          } else {
            var r := ReadI32(b);
            if r.ok {
              followerCount := r.val;
            }
            l, ok := r.n, r.ok;
          }
        case 5 =>
          if t != BOOL {
            l, ok := SkipBytes(t, b);
          } else {
            var r := ReadBool(b);
            if r.ok {
              isFollow := r.val;
            }
            l, ok := r.n, r.ok;
          }
        case 6 =>
          if t != STRING {
            l, ok := SkipBytes(t, b);
          } else {
            var r := ReadString(b);
            if r.ok {
              avatar := r.val;
            }
            l, ok := r.n, r.ok;
          }
        case 7 =>
          if t != STRING {
            l, ok := SkipBytes(t, b);
          } else {
            var r := ReadString(b);
            if r.ok {
              backgroundImage := r.val;
            }
            l, ok := r.n, r.ok;
          }
        case 8 =>
          if t != STRING {
            l, ok := SkipBytes(t, b);
          } else {
            var r := ReadString(b);
            if r.ok {
              signature := r.val;
            }
            l, ok := r.n, r.ok;
          }
        case 9 =>
          if t != STRING {
            l, ok := SkipBytes(t, b);
          } else {
            var r := ReadString(b);
            if r.ok {
              totalFavorited := r.val;
            }
            l, ok := r.n, r.ok;
          }
        case 10 =>
          if t != I32 {
            l, ok := SkipBytes(t, b);
          } else {
            var r := ReadI32(b);
            if r.ok {
              workCount := r.val;
            }
            l, ok := r.n, r.ok;
          }
        case 11 =>
          if t != I32 {
            l, ok := SkipBytes(t, b);
          } else {
            var r := ReadI32(b);
            if r.ok {
              favoriteCount := r.val;
            }
            l, ok := r.n, r.ok;
          }
        case _ =>
          l, ok := SkipBytes(t, b);
      }
    }

    method FastRead(buf: bytes) returns (offset: nat, ok: bool)
      modifies this
      ensures Read(ok, Value(), offset) == old(V.ReadUser(Value(), buf))
    {
      hide V.UserSwitch, ReadStruct;
      offset, ok := 0, true;
      ghost var whole := V.ReadUser(Value(), buf);
      assert buf[0..] == buf;
      while true
        invariant ok && offset <= |buf|
        invariant whole == Ahead(offset, V.ReadUser(Value(), buf[offset..]))
        decreases |buf| - offset
      {
        StructTurn(V.UserSwitch, Value(), buf, offset);
        var rest := buf[offset..];
        if |rest| < 1 {
          return offset, false;
        }
        if rest[0] == STOP {
          return offset + 1, true;
        }
        if |rest| < 3 {
          return offset, false;
        }
        offset := offset + 3;
        var l;
        l, ok := FastReadField(rest[0], ReadI16(rest[1..]).val, buf[offset..]);
        offset := offset + l;
        if !ok {
          return;
        }
      }
    }
  }

  /** The fields are added up in the order of their ids, not in the order in which they are written. */
  method UserBLength(p: Option<V.User>) returns (l: nat)
    ensures l == |V.EncUser(p)|
  {
    l := 0;
    if p.Some? {
      var m := p.value;
      V.UserSize(m);
      l := l + 3 + 8;
      l := l + 3 + 4 + |m.name|;
      l := l + 3 + 4;
      l := l + 3 + 4;
      l := l + 3 + 1;
      l := l + 3 + 4 + |m.avatar|;
      l := l + 3 + 4 + |m.backgroundImage|;
      l := l + 3 + 4 + |m.signature|;
      l := l + 3 + 4 + |m.totalFavorited|;
      l := l + 3 + 4;
      l := l + 3 + 4;
    }
    l := l + 1;
  }

  method UserFastWriteNocopy(p: Option<V.User>, buf: array<byte>, off: nat) returns (end: nat)
    requires off + |V.EncUser(p)| <= buf.Length
    modifies buf
    ensures end == off + |V.EncUser(p)|
    ensures buf[..] == Patch(old(buf[..]), off, V.EncUser(p))
  {
    hide Written, EncInt, EncString, EncBool;
    end := off;
    ghost var s, ws := buf[..], [];
    StartWriting(s, off);
    if p.Some? {
      var m := p.value;
      V.UserSize(m);
      hide Patch, EncFields, EncStruct;
      end, ws := WriteField(buf, end, WireField(I64, 1, EncInt(8, m.id)), s, off, ws);
      end, ws := WriteField(buf, end, WireField(I32, 3, EncInt(4, m.followCount)), s, off, ws);
      end, ws := WriteField(buf, end, WireField(I32, 4, EncInt(4, m.followerCount)), s, off, ws);
      end, ws := WriteField(buf, end, WireField(BOOL, 5, EncBool(m.isFollow)), s, off, ws);
      end, ws := WriteField(buf, end, WireField(I32, 10, EncInt(4, m.workCount)), s, off, ws);
      end, ws := WriteField(buf, end, WireField(I32, 11, EncInt(4, m.favoriteCount)), s, off, ws);
      end, ws := WriteField(buf, end, WireField(STRING, 2, EncString(m.name)), s, off, ws);
      end, ws := WriteField(buf, end, WireField(STRING, 6, EncString(m.avatar)), s, off, ws);
      end, ws := WriteField(buf, end, WireField(STRING, 7, EncString(m.backgroundImage)), s, off, ws);
      end, ws := WriteField(buf, end, WireField(STRING, 8, EncString(m.signature)), s, off, ws);
      end, ws := WriteField(buf, end, WireField(STRING, 9, EncString(m.totalFavorited)), s, off, ws);
      assert [] + [WireField(I64, 1, EncInt(8, m.id))] == [WireField(I64, 1, EncInt(8, m.id))];
      assert ws == V.UserFields(m);
    }
    end := WriteStop(buf, end, s, off, ws);
  }

  /** A nested struct as a field: the field header, then the struct. */
  method WriteUserField(id: i16, m: Option<V.User>, buf: array<byte>, offset: nat, ghost s: bytes,
    ghost off: nat, ghost ws: seq<WireField>) returns (end: nat, ghost ws': seq<WireField>)
    requires Written(buf[..], s, off, ws, offset) && offset + 3 + |V.EncUser(m)| <= buf.Length
    modifies buf
    ensures end == offset + 3 + |V.EncUser(m)|
    ensures ws' == ws + [WireField(STRUCT, id, V.EncUser(m))] && Written(buf[..], s, off, ws', end)
  {
    ghost var b := buf[..];
    end := WriteFieldBegin(buf, offset, STRUCT, id);
    end := UserFastWriteNocopy(m, buf, end);
    ws' := FieldWritten(b, buf[..], s, off, ws, offset, WireField(STRUCT, id, V.EncUser(m)));
  }

  /** Written into a buffer and read back from there: normalised if every length fits, and only then. */
  method UserWriteRead(m: Option<V.User>, buf: array<byte>, off: nat)
    returns (p: User, l: nat, ok: bool)
    requires off + |V.EncUser(m)| <= buf.Length
    modifies buf
    ensures fresh(p) && buf[..] == Patch(old(buf[..]), off, V.EncUser(m))
    ensures V.EncodableUser(m) <==>
      Read(ok, p.Value(), l) == Read(true, V.NormUser(m), |V.EncUser(m)|)
  {
    hide Patch, V.EncUser, V.NormUser, V.EncodableUser, V.ReadUser;
    ghost var s := buf[..];
    var end := UserFastWriteNocopy(m, buf, off);
    PatchTail(s, off, V.EncUser(m));
    assert buf[off..] == buf[..][off..];
    V.UserRoundTrip(m, s[off + |V.EncUser(m)|..]);
    p := new User();
    l, ok := p.FastRead(buf[off..]);
  }
}
