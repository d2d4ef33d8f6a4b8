/**
 The generated code of the favorite package: structs whose fields FastRead assigns, and the writing and
 measuring of a message in a caller's buffer.  Nested structs and lists are held by value.
 */
module FavoriteStruct {
  import opened Wire
  import opened Wrappers
  import opened Fields
  import opened Buffer
  import V = FavoriteCodec
  import VideoStruct
  import VideoCodec

  class FavoriteListResponse {
    var statusCode: i32
    var statusMsg: bytes
    var videoList: Option<seq<Option<VideoCodec.Video>>>

    constructor ()
      ensures Value() == V.NEW_FAVORITE_LIST_RESPONSE
    {
      statusCode := 0;
      statusMsg := [];
      videoList := None;
    }

    function Value(): V.FavoriteListResponse
      reads this
    {
      V.FavoriteListResponse(statusCode, statusMsg, videoList)
    }

    /** The switch over the field id, and the assignment of the field. */
    method FastReadField(t: byte, fieldId: i16, b: bytes) returns (l: nat, ok: bool)
      modifies this
      ensures Read(ok, Value(), l) == old(V.FavoriteListResponseSwitch(Value(), t, fieldId, b))
    {
      match fieldId {
        case 1 =>
          if t != I32 {
            l, ok := SkipBytes(t, b);
          } else {
            var r := ReadI32(b);
            if r.ok {
              statusCode := r.val;
            }
            l, ok := r.n, r.ok;
          }
        case 2 =>
          if t != STRING {
            l, ok := SkipBytes(t, b);
          } else {
            var r := ReadString(b);
            if r.ok {
              statusMsg := r.val;
            }
            l, ok := r.n, r.ok;
          }
        case 3 =>
          if t != LIST {
            l, ok := SkipBytes(t, b);
          } else {
            var field;
            l, ok, field := VideoStruct.FastReadList(b);
            if ok {
              videoList := Some(AllSome(field));
            }
          }
        case _ =>
          l, ok := SkipBytes(t, b);
      }
    }

    method FastRead(buf: bytes) returns (offset: nat, ok: bool)
      modifies this
      ensures Read(ok, Value(), offset) == old(V.ReadFavoriteListResponse(Value(), buf))
    {
      hide V.FavoriteListResponseSwitch, ReadStruct;
      offset, ok := 0, true;
      ghost var whole := V.ReadFavoriteListResponse(Value(), buf);
      assert buf[0..] == buf;
      while true
        invariant ok && offset <= |buf|
        invariant whole == Ahead(offset, V.ReadFavoriteListResponse(Value(), buf[offset..]))
        decreases |buf| - offset
      {
        StructTurn(V.FavoriteListResponseSwitch, Value(), buf, offset);
        var rest := buf[offset..];
        if |rest| < 1 {
          return offset, false;
        }
        if rest[0] == STOP {
          return offset + 1, true;
        }
        if |rest| < 3 {
          return offset, false;
        }
        offset := offset + 3;
        var l;
        l, ok := FastReadField(rest[0], ReadI16(rest[1..]).val, buf[offset..]);
        offset := offset + l;
        if !ok {
          return;
        }
      }
    }
  }

  /** The fields are added up in the order of their ids, not in the order in which they are written. */
  method FavoriteListResponseBLength(p: Option<V.FavoriteListResponse>) returns (l: nat)
    ensures l == |V.EncFavoriteListResponse(p)|
  {
    l := 0;
    if p.Some? {
      var m := p.value;
      V.FavoriteListResponseSize(m);
      l := l + 3 + 4;
      l := l + 3 + 4 + |m.statusMsg|;
      var l3 := VideoStruct.ListLength(m.videoList);
      l := l + 3 + l3;
    }
    l := l + 1;
  }

  method FavoriteListResponseFastWriteNocopy(p: Option<V.FavoriteListResponse>, buf: array<byte>, off: nat)
    returns (end: nat)
    requires off + |V.EncFavoriteListResponse(p)| <= buf.Length
    modifies buf
    ensures end == off + |V.EncFavoriteListResponse(p)|
    ensures buf[..] == Patch(old(buf[..]), off, V.EncFavoriteListResponse(p))
  {
    hide Written, EncInt, EncString, EncBool;
    end := off;
    ghost var s, ws := buf[..], [];
    StartWriting(s, off);
    if p.Some? {
      var m := p.value;
      V.FavoriteListResponseSize(m);
      hide Patch, EncFields, EncStruct;
      end, ws := WriteField(buf, end, WireField(I32, 1, EncInt(4, m.statusCode)), s, off, ws);
      end, ws := WriteField(buf, end, WireField(STRING, 2, EncString(m.statusMsg)), s, off, ws);
      end, ws := VideoStruct.WriteListField(3, m.videoList, buf, end, s, off, ws);
      assert [] + [WireField(I32, 1, EncInt(4, m.statusCode))] == [WireField(I32, 1, EncInt(4, m.statusCode))];
      assert ws == V.FavoriteListResponseFields(m);
    }
    end := WriteStop(buf, end, s, off, ws);
  }

  /** Written into a buffer and read back from there: normalised if every length fits, and only then. */
  method FavoriteListResponseWriteRead(m: Option<V.FavoriteListResponse>, buf: array<byte>, off: nat)
    returns (p: FavoriteListResponse, l: nat, ok: bool)
    requires off + |V.EncFavoriteListResponse(m)| <= buf.Length
    modifies buf
    ensures fresh(p) && buf[..] == Patch(old(buf[..]), off, V.EncFavoriteListResponse(m))
    ensures V.EncodableFavoriteListResponse(m) <==>
      Read(ok, p.Value(), l) == Read(true, V.NormFavoriteListResponse(m), |V.EncFavoriteListResponse(m)|)
  {
    hide Patch, V.EncFavoriteListResponse, V.NormFavoriteListResponse,
      V.EncodableFavoriteListResponse, V.ReadFavoriteListResponse;
    ghost var s := buf[..];
    var end := FavoriteListResponseFastWriteNocopy(m, buf, off);
    PatchTail(s, off, V.EncFavoriteListResponse(m));
    assert buf[off..] == buf[..][off..];
    V.FavoriteListResponseRoundTrip(m, s[off + |V.EncFavoriteListResponse(m)|..]);
    p := new FavoriteListResponse();
    l, ok := p.FastRead(buf[off..]);
  }
}
