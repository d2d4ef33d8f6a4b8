/**
 The generated code of the video package: structs whose fields FastRead assigns, and the writing and
 measuring of a message in a caller's buffer.  Nested structs and lists are held by value.
 */
module VideoStruct {
  import opened Wire
  import opened Wrappers
  import opened Fields
  import opened Buffer
  import V = VideoCodec
  import UserStruct
  import UserCodec

  class Video {
    var id: i64
    var author: Option<UserCodec.User>
    var playUrl: bytes
    var coverUrl: bytes
    var favoriteCount: i32
    var commentCount: i32
    var isFavorite: bool
    var title: bytes

    constructor ()
      ensures Value() == V.NEW_VIDEO
    {
      id := 0;
      author := None;
      playUrl := [];
      coverUrl := [];
      favoriteCount := 0;
      commentCount := 0;
      isFavorite := false;
      title := [];
    }

    function Value(): V.Video
      reads this
    {
      V.Video(id, author, playUrl, coverUrl, favoriteCount, commentCount, isFavorite, title)
    }

    /** The switch over the field id, and the assignment of the field. */
    method FastReadField(t: byte, fieldId: i16, b: bytes) returns (l: nat, ok: bool)
      modifies this
      ensures Read(ok, Value(), l) == old(V.VideoSwitch(Value(), t, fieldId, b))
    {
      match fieldId {
        case 1 =>
          if t != I64 {
            l, ok := SkipBytes(t, b);
          } else {
            var r := ReadI64(b);
            if r.ok {
              id := r.val;
            }
            l, ok := r.n, r.ok;
          }
        case 2 =>
          if t != STRUCT {
            l, ok := SkipBytes(t, b);
          } else {
            var field := new UserStruct.User();
            l, ok := field.FastRead(b);
            if ok {
              author := Some(field.Value());
            } else {
              l := 0;
            }
          }
        case 3 =>
          if t != STRING {
            l, ok := SkipBytes(t, b);
          } else {
            var r := ReadString(b);
            if r.ok {
              playUrl := r.val;
            }
            l, ok := r.n, r.ok;
          }
        case 4 =>
          if t != STRING {
            l, ok := SkipBytes(t, b);
          } else {
            var r := ReadString(b);
            if r.ok {
              coverUrl := r.val;
            }
            l, ok := r.n, r.ok;
          }
        case 5 =>
          if t != I32 {
            l, ok := SkipBytes(t, b);
          } else {
            var r := ReadI32(b);
            if r.ok {
              favoriteCount := r.val;
            }
            l, ok := r.n, r.ok;
          }
        case 6 =>
          if t != I32 {
            l, ok := SkipBytes(t, b);
          } else {
            var r := ReadI32(b);
            if r.ok {
              commentCount := r.val;
            }
            l, ok := r.n, r.ok;
          }
        case 7 =>
          if t != BOOL {
            l, ok := SkipBytes(t, b);
          } else {
            var r := ReadBool(b);
            if r.ok {
              isFavorite := r.val;
            }
            l, ok := r.n, r.ok;
          }
        case 8 =>
          if t != STRING {
            l, ok := SkipBytes(t, b);
          } else {
            var r := ReadString(b);
            if r.ok {
              title := r.val;
            }
            l, ok := r.n, r.ok;
          }
        case _ =>
          l, ok := SkipBytes(t, b);
      }
    }

    method FastRead(buf: bytes) returns (offset: nat, ok: bool)
      modifies this
      ensures Read(ok, Value(), offset) == old(V.ReadVideo(Value(), buf))
    {
      hide V.VideoSwitch, ReadStruct;
      offset, ok := 0, true;
      ghost var whole := V.ReadVideo(Value(), buf);
      assert buf[0..] == buf;
      while true
        invariant ok && offset <= |buf|
        invariant whole == Ahead(offset, V.ReadVideo(Value(), buf[offset..]))
        decreases |buf| - offset
      {
        StructTurn(V.VideoSwitch, Value(), buf, offset);
        var rest := buf[offset..];
        if |rest| < 1 {
          return offset, false;
        }
        if rest[0] == STOP {
          return offset + 1, true;
        }
        if |rest| < 3 {
          return offset, false;
        }
        offset := offset + 3;
        var l;
        l, ok := FastReadField(rest[0], ReadI16(rest[1..]).val, buf[offset..]);
        offset := offset + l;
        if !ok {
          return;
        }
      }
    }
  }

  /** The fields are added up in the order of their ids, not in the order in which they are written. */
  method VideoBLength(p: Option<V.Video>) returns (l: nat)
    ensures l == |V.EncVideo(p)|
  {
    l := 0;
    if p.Some? {
      var m := p.value;
      V.VideoSize(m);
      l := l + 3 + 8;
      var l2 := UserStruct.UserBLength(m.author);
      l := l + 3 + l2;
      l := l + 3 + 4 + |m.playUrl|;
      l := l + 3 + 4 + |m.coverUrl|;
      l := l + 3 + 4;
      l := l + 3 + 4;
      l := l + 3 + 1;
      l := l + 3 + 4 + |m.title|;
    }
    l := l + 1;
  }

  method VideoFastWriteNocopy(p: Option<V.Video>, buf: array<byte>, off: nat) returns (end: nat)
    requires off + |V.EncVideo(p)| <= buf.Length
    modifies buf
    ensures end == off + |V.EncVideo(p)|
    ensures buf[..] == Patch(old(buf[..]), off, V.EncVideo(p))
  {
    hide Written, EncInt, EncString, EncBool;
    end := off;
    ghost var s, ws := buf[..], [];
    StartWriting(s, off);
    if p.Some? {
      var m := p.value;
      V.VideoSize(m);
      hide Patch, EncFields, EncStruct;
      end, ws := WriteField(buf, end, WireField(I64, 1, EncInt(8, m.id)), s, off, ws);
      end, ws := WriteField(buf, end, WireField(I32, 5, EncInt(4, m.favoriteCount)), s, off, ws);
      end, ws := WriteField(buf, end, WireField(I32, 6, EncInt(4, m.commentCount)), s, off, ws);
      end, ws := WriteField(buf, end, WireField(BOOL, 7, EncBool(m.isFavorite)), s, off, ws);
      end, ws := UserStruct.WriteUserField(2, m.author, buf, end, s, off, ws);
      end, ws := WriteField(buf, end, WireField(STRING, 3, EncString(m.playUrl)), s, off, ws);
      end, ws := WriteField(buf, end, WireField(STRING, 4, EncString(m.coverUrl)), s, off, ws);
      end, ws := WriteField(buf, end, WireField(STRING, 8, EncString(m.title)), s, off, ws);
      assert [] + [WireField(I64, 1, EncInt(8, m.id))] == [WireField(I64, 1, EncInt(8, m.id))];
      assert ws == V.VideoFields(m);
    }
    end := WriteStop(buf, end, s, off, ws);
  }

  /** Written into a buffer and read back from there: normalised if every length fits, and only then. */
  method VideoWriteRead(m: Option<V.Video>, buf: array<byte>, off: nat)
    returns (p: Video, l: nat, ok: bool)
    requires off + |V.EncVideo(m)| <= buf.Length
    modifies buf
    ensures fresh(p) && buf[..] == Patch(old(buf[..]), off, V.EncVideo(m))
    ensures V.EncodableVideo(m) <==>
      Read(ok, p.Value(), l) == Read(true, V.NormVideo(m), |V.EncVideo(m)|)
  {
    hide Patch, V.EncVideo, V.NormVideo, V.EncodableVideo, V.ReadVideo;
    ghost var s := buf[..];
    var end := VideoFastWriteNocopy(m, buf, off);
    PatchTail(s, off, V.EncVideo(m));
    assert buf[off..] == buf[..][off..];
    V.VideoRoundTrip(m, s[off + |V.EncVideo(m)|..]);
    p := new Video();
    l, ok := p.FastRead(buf[off..]);
  }

  // ---------- lists ----------

  method ReadElem(b: bytes) returns (elem: V.Video, l: nat, ok: bool)
    ensures Read(ok, elem, l) == V.ReadNewVideo(b)
  {
    var p := new Video();
    l, ok := p.FastRead(b);
    elem := p.Value();
  }

  method FastReadList(b: bytes) returns (offset: nat, ok: bool, field: seq<V.Video>)
    ensures Read(ok, field, offset) == ReadList(V.ReadNewVideo, b)
  {
    V.NewReaderVideo();
    hide *;
    field := [];
    ghost var whole := ReadList(V.ReadNewVideo, b);
    ListHead(V.ReadNewVideo, b);
    var h := ReadListBegin(b);
    if !h.ok {
      return 0, false, [];
    }
    offset, ok := 5, true;
    for i := 0 to h.val
      invariant ok && 5 <= offset <= |b|
      invariant whole == After(field, offset, ReadElems(V.ReadNewVideo, h.val - i, b[offset..]))
    {
      ElemsStep(V.ReadNewVideo, field, offset, h.val - i, b);
      var elem, l;
      elem, l, ok := ReadElem(b[offset..]);
      if !ok {
        return;
      }
      offset, field := offset + l, field + [elem];
    }
    ElemsDone(V.ReadNewVideo, field, offset, b[offset..]);
  }

  method ListLength(l: Option<seq<Option<V.Video>>>) returns (n: nat)
    ensures n == |V.EncVideoList(l)|
  {
    hide V.EncVideo;
    n := 5;
    ghost var es := V.ElemsVideo(l);
    if l.Some? {
      for i := 0 to |l.value|
        invariant n == 5 + |Concat(es[..i])|
      {
        var m := VideoBLength(l.value[i]);
        n := n + m;
        ConcatPrefix(es, i);
      }
      assert es[..|es|] == es;
    }
  }

  /** The list header is written last: the number of elements is counted while they are written. */
  method FastWriteList(l: Option<seq<Option<V.Video>>>, buf: array<byte>, off: nat) returns (end: nat)
    requires off + |V.EncVideoList(l)| <= buf.Length
    modifies buf
    ensures end == off + |V.EncVideoList(l)|
    ensures buf[..] == Patch(old(buf[..]), off, V.EncVideoList(l))
  {
    hide ElemsWritten, V.EncVideo;
    end := off + 5;
    var length := 0;
    ghost var s, es := buf[..], V.ElemsVideo(l);
    StartElems(s, off, es);
    if l.Some? {
      for i := 0 to |l.value|
        invariant length == i && ElemsWritten(buf[..], s, off, es, i, end)
      {
        ElemRoom(buf[..], s, off, es, i, end);
        ghost var b, begin := buf[..], end;
        end := VideoFastWriteNocopy(l.value[i], buf, end);
        length := length + 1;
        ElemWritten(b, buf[..], s, off, es, i, begin);
      }
    }
    ListWritten(buf[..], s, off, es, end);
    WriteBytes(buf, off, EncListBegin(STRUCT, length));
  }

  /** A list as a field: the field header, then the list. */
  method WriteListField(id: i16, l: Option<seq<Option<V.Video>>>, buf: array<byte>, offset: nat, ghost s: bytes,
    ghost off: nat, ghost ws: seq<WireField>) returns (end: nat, ghost ws': seq<WireField>)
    requires Written(buf[..], s, off, ws, offset) && offset + 3 + |V.EncVideoList(l)| <= buf.Length
    modifies buf
    ensures end == offset + 3 + |V.EncVideoList(l)|
    ensures ws' == ws + [WireField(LIST, id, V.EncVideoList(l))] && Written(buf[..], s, off, ws', end)
  {
    ghost var b := buf[..];
    end := WriteFieldBegin(buf, offset, LIST, id);
    end := FastWriteList(l, buf, end);
    ws' := FieldWritten(b, buf[..], s, off, ws, offset, WireField(LIST, id, V.EncVideoList(l)));
  }

  class VideoFeedRequest {
    var latestTime: Option<bytes>
    var userId: i64

    constructor ()
      ensures Value() == V.NEW_VIDEO_FEED_REQUEST
    {
      latestTime := None;
      userId := 0;
    }

    function Value(): V.VideoFeedRequest
      reads this
    {
      V.VideoFeedRequest(latestTime, userId)
    }

    /** The switch over the field id, and the assignment of the field. */
    method FastReadField(t: byte, fieldId: i16, b: bytes) returns (l: nat, ok: bool)
      modifies this
      ensures Read(ok, Value(), l) == old(V.VideoFeedRequestSwitch(Value(), t, fieldId, b))
    {
      match fieldId {
        case 1 =>
          if t != STRING {
            l, ok := SkipBytes(t, b);
          } else {
            var r := ReadString(b);
            if r.ok {
              latestTime := Some(r.val);
            }
            l, ok := r.n, r.ok;
          }
        case 2 =>
          if t != I64 {
            l, ok := SkipBytes(t, b);
          } else {
            var r := ReadI64(b);
            if r.ok {
              userId := r.val;
            }
            l, ok := r.n, r.ok;
          }
        case _ =>
          l, ok := SkipBytes(t, b);
      }
    }

    method FastRead(buf: bytes) returns (offset: nat, ok: bool)
      modifies this
      ensures Read(ok, Value(), offset) == old(V.ReadVideoFeedRequest(Value(), buf))
    {
      hide V.VideoFeedRequestSwitch, ReadStruct;
      offset, ok := 0, true;
      ghost var whole := V.ReadVideoFeedRequest(Value(), buf);
      assert buf[0..] == buf;
      while true
        invariant ok && offset <= |buf|
        invariant whole == Ahead(offset, V.ReadVideoFeedRequest(Value(), buf[offset..]))
        decreases |buf| - offset
      {
        StructTurn(V.VideoFeedRequestSwitch, Value(), buf, offset);
        var rest := buf[offset..];
        if |rest| < 1 {
          return offset, false;
        }
        if rest[0] == STOP {
          return offset + 1, true;
        }
        if |rest| < 3 {
          return offset, false;
        }
        offset := offset + 3;
        var l;
        l, ok := FastReadField(rest[0], ReadI16(rest[1..]).val, buf[offset..]);
        offset := offset + l;
        if !ok {
          return;
        }
      }
    }
  }

  /** The fields are added up in the order of their ids, not in the order in which they are written. */
  method VideoFeedRequestBLength(p: Option<V.VideoFeedRequest>) returns (l: nat)
    ensures l == |V.EncVideoFeedRequest(p)|
  {
    l := 0;
    if p.Some? {
      var m := p.value;
      V.VideoFeedRequestSize(m);
      if m.latestTime.Some? {
        l := l + 3 + 4 + |m.latestTime.value|;
      }
      l := l + 3 + 8;
    }
    l := l + 1;
  }

  method VideoFeedRequestFastWriteNocopy(p: Option<V.VideoFeedRequest>, buf: array<byte>, off: nat) returns (end: nat)
    requires off + |V.EncVideoFeedRequest(p)| <= buf.Length
    modifies buf
    ensures end == off + |V.EncVideoFeedRequest(p)|
    ensures buf[..] == Patch(old(buf[..]), off, V.EncVideoFeedRequest(p))
  {
    hide Written, EncInt, EncString, EncBool;
    end := off;
    ghost var s, ws := buf[..], [];
    StartWriting(s, off);
    if p.Some? {
      var m := p.value;
      V.VideoFeedRequestSize(m);
      hide Patch, EncFields, EncStruct;
      end, ws := WriteField(buf, end, WireField(I64, 2, EncInt(8, m.userId)), s, off, ws);
      if m.latestTime.Some? {
        end, ws := WriteField(buf, end, WireField(STRING, 1, EncString(m.latestTime.value)), s, off, ws);
      } else {
        assert ws + [] == ws;
      }
      assert [] + [WireField(I64, 2, EncInt(8, m.userId))] == [WireField(I64, 2, EncInt(8, m.userId))];
      assert ws == V.VideoFeedRequestFields(m);
    }
    end := WriteStop(buf, end, s, off, ws);
  }

  /** Written into a buffer and read back from there: normalised if every length fits, and only then. */
  method VideoFeedRequestWriteRead(m: Option<V.VideoFeedRequest>, buf: array<byte>, off: nat)
    returns (p: VideoFeedRequest, l: nat, ok: bool)
    requires off + |V.EncVideoFeedRequest(m)| <= buf.Length
    modifies buf
    ensures fresh(p) && buf[..] == Patch(old(buf[..]), off, V.EncVideoFeedRequest(m))
    ensures V.EncodableVideoFeedRequest(m) <==>
      Read(ok, p.Value(), l) == Read(true, V.NormVideoFeedRequest(m), |V.EncVideoFeedRequest(m)|)
  {
    hide Patch, V.EncVideoFeedRequest, V.NormVideoFeedRequest, V.EncodableVideoFeedRequest, V.ReadVideoFeedRequest;
    ghost var s := buf[..];
    var end := VideoFeedRequestFastWriteNocopy(m, buf, off);
    PatchTail(s, off, V.EncVideoFeedRequest(m));
    assert buf[off..] == buf[..][off..];
    V.VideoFeedRequestRoundTrip(m, s[off + |V.EncVideoFeedRequest(m)|..]);
    p := new VideoFeedRequest();
    l, ok := p.FastRead(buf[off..]);
  }

  class VideoFeedResponse {
    var statusCode: i32
    var statusMsg: bytes
    var videoList: Option<seq<Option<V.Video>>>
    var nextTime: i64

    constructor ()
      ensures Value() == V.NEW_VIDEO_FEED_RESPONSE
    {
      statusCode := 0;
      statusMsg := [];
      videoList := None;
      nextTime := 0;
    }

    function Value(): V.VideoFeedResponse
      reads this
    {
      V.VideoFeedResponse(statusCode, statusMsg, videoList, nextTime)
    }

    /** The switch over the field id, and the assignment of the field. */
    method FastReadField(t: byte, fieldId: i16, b: bytes) returns (l: nat, ok: bool)
      modifies this
      ensures Read(ok, Value(), l) == old(V.VideoFeedResponseSwitch(Value(), t, fieldId, b))
    {
      match fieldId {
        case 1 =>
          if t != I32 {
            l, ok := SkipBytes(t, b);
          } else {
            var r := ReadI32(b);
            if r.ok {
              statusCode := r.val;
            }
            l, ok := r.n, r.ok;
          }
        case 2 =>
          if t != STRING {
            l, ok := SkipBytes(t, b);
          } else {
            var r := ReadString(b);
            if r.ok {
              statusMsg := r.val;
            }
            l, ok := r.n, r.ok;
          }
        case 3 =>
          if t != LIST {
            l, ok := SkipBytes(t, b);
          } else {
            var field;
            l, ok, field := FastReadList(b);
            if ok {
              videoList := Some(AllSome(field));
            }
          }
        case 4 =>
          if t != I64 {
            l, ok := SkipBytes(t, b);
          } else {
            var r := ReadI64(b);
            if r.ok {
              nextTime := r.val;
            }
            l, ok := r.n, r.ok;
          }
        case _ =>
          l, ok := SkipBytes(t, b);
      }
    }

    method FastRead(buf: bytes) returns (offset: nat, ok: bool)
      modifies this
      ensures Read(ok, Value(), offset) == old(V.ReadVideoFeedResponse(Value(), buf))
    {
      hide V.VideoFeedResponseSwitch, ReadStruct;
      offset, ok := 0, true;
      ghost var whole := V.ReadVideoFeedResponse(Value(), buf);
      assert buf[0..] == buf;
      while true
        invariant ok && offset <= |buf|
        invariant whole == Ahead(offset, V.ReadVideoFeedResponse(Value(), buf[offset..]))
        decreases |buf| - offset
      {
        StructTurn(V.VideoFeedResponseSwitch, Value(), buf, offset);
        var rest := buf[offset..];
        if |rest| < 1 {
          return offset, false;
        }
        if rest[0] == STOP {
          return offset + 1, true;
        }
        if |rest| < 3 {
          return offset, false;
        }
        offset := offset + 3;
        var l;
        l, ok := FastReadField(rest[0], ReadI16(rest[1..]).val, buf[offset..]);
        offset := offset + l;
        if !ok {
          return;
        }
      }
    }
  }

  /** The fields are added up in the order of their ids, not in the order in which they are written. */
  method VideoFeedResponseBLength(p: Option<V.VideoFeedResponse>) returns (l: nat)
    ensures l == |V.EncVideoFeedResponse(p)|
  {
    l := 0;
    if p.Some? {
      var m := p.value;
      V.VideoFeedResponseSize(m);
      l := l + 3 + 4;
      l := l + 3 + 4 + |m.statusMsg|;
      var l3 := ListLength(m.videoList);
      l := l + 3 + l3;
      l := l + 3 + 8;
    }
    l := l + 1;
  }

  method VideoFeedResponseFastWriteNocopy(p: Option<V.VideoFeedResponse>, buf: array<byte>, off: nat) returns (end: nat)
    requires off + |V.EncVideoFeedResponse(p)| <= buf.Length
    modifies buf
    ensures end == off + |V.EncVideoFeedResponse(p)|
    ensures buf[..] == Patch(old(buf[..]), off, V.EncVideoFeedResponse(p))
  {
    hide Written, EncInt, EncString, EncBool;
    end := off;
    ghost var s, ws := buf[..], [];
    StartWriting(s, off);
    if p.Some? {
      var m := p.value;
      V.VideoFeedResponseSize(m);
      hide Patch, EncFields, EncStruct;
      end, ws := WriteField(buf, end, WireField(I32, 1, EncInt(4, m.statusCode)), s, off, ws);
      end, ws := WriteField(buf, end, WireField(I64, 4, EncInt(8, m.nextTime)), s, off, ws);
      end, ws := WriteField(buf, end, WireField(STRING, 2, EncString(m.statusMsg)), s, off, ws);
      end, ws := WriteListField(3, m.videoList, buf, end, s, off, ws);
      assert [] + [WireField(I32, 1, EncInt(4, m.statusCode))] == [WireField(I32, 1, EncInt(4, m.statusCode))];
      assert ws == V.VideoFeedResponseFields(m);
    }
    end := WriteStop(buf, end, s, off, ws);
  }

  /** Written into a buffer and read back from there: normalised if every length fits, and only then. */
  method VideoFeedResponseWriteRead(m: Option<V.VideoFeedResponse>, buf: array<byte>, off: nat)
    returns (p: VideoFeedResponse, l: nat, ok: bool)
    requires off + |V.EncVideoFeedResponse(m)| <= buf.Length
    modifies buf
    ensures fresh(p) && buf[..] == Patch(old(buf[..]), off, V.EncVideoFeedResponse(m))
    ensures V.EncodableVideoFeedResponse(m) <==>
      Read(ok, p.Value(), l) == Read(true, V.NormVideoFeedResponse(m), |V.EncVideoFeedResponse(m)|)
  {
    hide Patch, V.EncVideoFeedResponse, V.NormVideoFeedResponse, V.EncodableVideoFeedResponse, V.ReadVideoFeedResponse;
    ghost var s := buf[..];
    var end := VideoFeedResponseFastWriteNocopy(m, buf, off);
    PatchTail(s, off, V.EncVideoFeedResponse(m));
    assert buf[off..] == buf[..][off..];
    V.VideoFeedResponseRoundTrip(m, s[off + |V.EncVideoFeedResponse(m)|..]);
    p := new VideoFeedResponse();
    l, ok := p.FastRead(buf[off..]);
  }
}
