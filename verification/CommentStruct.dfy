/**
 The generated code of the comment package: structs whose fields FastRead assigns, and the writing and
 measuring of a message in a caller's buffer.  Nested structs and lists are held by value.
 */
module CommentStruct {
  import opened Wire
  import opened Wrappers
  import opened Fields
  import opened Buffer
  import V = CommentCodec
  import UserStruct
  import UserCodec

  class Comment {
    var id: i64
    var user: Option<UserCodec.User>
    var content: bytes
    var createDate: bytes

    constructor ()
      ensures Value() == V.NEW_COMMENT
    {
      id := 0;
      user := None;
      content := [];
      createDate := [];
    }

    function Value(): V.Comment
      reads this
    {
      V.Comment(id, user, content, createDate)
    }

    /** The switch over the field id, and the assignment of the field. */
    method FastReadField(t: byte, fieldId: i16, b: bytes) returns (l: nat, ok: bool)
      modifies this
      ensures Read(ok, Value(), l) == old(V.CommentSwitch(Value(), t, fieldId, b))
    {
      match fieldId {
        case 1 =>
          if t != I64 {
            l, ok := SkipBytes(t, b);
          } else {
            var r := ReadI64(b);
            if r.ok {
              id := r.val;
            }
            l, ok := r.n, r.ok;
          }
        case 2 =>
          if t != STRUCT {
            l, ok := SkipBytes(t, b);
          } else {
            var field := new UserStruct.User();
            l, ok := field.FastRead(b);
            if ok {
              user := Some(field.Value());
            } else {
              l := 0;
            }
          }
        case 3 =>
          if t != STRING {
            l, ok := SkipBytes(t, b);
          } else {
            var r := ReadString(b);
            if r.ok {
              content := r.val;
            }
            l, ok := r.n, r.ok;
          }
        case 4 =>
          if t != STRING {
            l, ok := SkipBytes(t, b);
          } else {
            var r := ReadString(b);
            if r.ok {
              createDate := r.val;
            }
            l, ok := r.n, r.ok;
          }
        case _ =>
          l, ok := SkipBytes(t, b);
      }
    }

    method FastRead(buf: bytes) returns (offset: nat, ok: bool)
      modifies this
      ensures Read(ok, Value(), offset) == old(V.ReadComment(Value(), buf))
    {
      hide V.CommentSwitch, ReadStruct;
      offset, ok := 0, true;
      ghost var whole := V.ReadComment(Value(), buf);
      assert buf[0..] == buf;
      while true
        invariant ok && offset <= |buf|
        invariant whole == Ahead(offset, V.ReadComment(Value(), buf[offset..]))
        decreases |buf| - offset
      {
        StructTurn(V.CommentSwitch, Value(), buf, offset);
        var rest := buf[offset..];
        if |rest| < 1 {
          return offset, false;
        }
        if rest[0] == STOP {
          return offset + 1, true;
        }
        if |rest| < 3 {
          return offset, false;
        }
        offset := offset + 3;
        var l;
        l, ok := FastReadField(rest[0], ReadI16(rest[1..]).val, buf[offset..]);
        offset := offset + l;
        if !ok {
          return;
        }
      }
    }
  }

  /** The fields are added up in the order of their ids, not in the order in which they are written. */
  method CommentBLength(p: Option<V.Comment>) returns (l: nat)
    ensures l == |V.EncComment(p)|
  {
    l := 0;
    if p.Some? {
      var m := p.value;
      V.CommentSize(m);
      l := l + 3 + 8;
      var l2 := UserStruct.UserBLength(m.user);
      l := l + 3 + l2;
      l := l + 3 + 4 + |m.content|;
      l := l + 3 + 4 + |m.createDate|;
    }
    l := l + 1;
  }

  method CommentFastWriteNocopy(p: Option<V.Comment>, buf: array<byte>, off: nat) returns (end: nat)
    requires off + |V.EncComment(p)| <= buf.Length
    modifies buf
    ensures end == off + |V.EncComment(p)|
    ensures buf[..] == Patch(old(buf[..]), off, V.EncComment(p))
  {
    hide Written, EncInt, EncString, EncBool;
    end := off;
    ghost var s, ws := buf[..], [];
    StartWriting(s, off);
    if p.Some? {
      var m := p.value;
      V.CommentSize(m);
      hide Patch, EncFields, EncStruct;
      end, ws := WriteField(buf, end, WireField(I64, 1, EncInt(8, m.id)), s, off, ws);
      end, ws := UserStruct.WriteUserField(2, m.user, buf, end, s, off, ws);
      end, ws := WriteField(buf, end, WireField(STRING, 3, EncString(m.content)), s, off, ws);
      end, ws := WriteField(buf, end, WireField(STRING, 4, EncString(m.createDate)), s, off, ws);
      assert [] + [WireField(I64, 1, EncInt(8, m.id))] == [WireField(I64, 1, EncInt(8, m.id))];
      assert ws == V.CommentFields(m);
    }
    end := WriteStop(buf, end, s, off, ws);
  }

  /** A nested struct as a field: the field header, then the struct. */
  method WriteCommentField(id: i16, m: Option<V.Comment>, buf: array<byte>, offset: nat, ghost s: bytes,
    ghost off: nat, ghost ws: seq<WireField>) returns (end: nat, ghost ws': seq<WireField>)
    requires Written(buf[..], s, off, ws, offset) && offset + 3 + |V.EncComment(m)| <= buf.Length
    modifies buf
    ensures end == offset + 3 + |V.EncComment(m)|
    ensures ws' == ws + [WireField(STRUCT, id, V.EncComment(m))] && Written(buf[..], s, off, ws', end)
  {
    ghost var b := buf[..];
    end := WriteFieldBegin(buf, offset, STRUCT, id);
    end := CommentFastWriteNocopy(m, buf, end);
    ws' := FieldWritten(b, buf[..], s, off, ws, offset, WireField(STRUCT, id, V.EncComment(m)));
  }

  /** Written into a buffer and read back from there: normalised if every length fits, and only then. */
  method CommentWriteRead(m: Option<V.Comment>, buf: array<byte>, off: nat)
    returns (p: Comment, l: nat, ok: bool)
    requires off + |V.EncComment(m)| <= buf.Length
    modifies buf
    ensures fresh(p) && buf[..] == Patch(old(buf[..]), off, V.EncComment(m))
    ensures V.EncodableComment(m) <==>
      Read(ok, p.Value(), l) == Read(true, V.NormComment(m), |V.EncComment(m)|)
  {
    hide Patch, V.EncComment, V.NormComment, V.EncodableComment, V.ReadComment;
    ghost var s := buf[..];
    var end := CommentFastWriteNocopy(m, buf, off);
    PatchTail(s, off, V.EncComment(m));
    assert buf[off..] == buf[..][off..];
    V.CommentRoundTrip(m, s[off + |V.EncComment(m)|..]);
    p := new Comment();
    l, ok := p.FastRead(buf[off..]);
  }

  class CommentActionRequest {
    var userId: i64
    var videoId: i64
    var actionType: i32
    var commentText: Option<bytes>
    var commentId: Option<i64>

    constructor ()
      ensures Value() == V.NEW_COMMENT_ACTION_REQUEST
    {
      userId := 0;
      videoId := 0;
      actionType := 0;
      commentText := None;
      commentId := None;
    }

    function Value(): V.CommentActionRequest
      reads this
    {
      V.CommentActionRequest(userId, videoId, actionType, commentText, commentId)
    }

    /** The switch over the field id, and the assignment of the field. */
    method FastReadField(t: byte, fieldId: i16, b: bytes) returns (l: nat, ok: bool)
      modifies this
      ensures Read(ok, Value(), l) == old(V.CommentActionRequestSwitch(Value(), t, fieldId, b))
    {
      match fieldId {
        case 1 =>
          if t != I64 {
            l, ok := SkipBytes(t, b);
          } else {
            var r := ReadI64(b);
            if r.ok {
              userId := r.val;
            }
            l, ok := r.n, r.ok;
          }
        case 2 =>
          if t != I64 {
            l, ok := SkipBytes(t, b);
          } else {
            var r := ReadI64(b);
            if r.ok {
              videoId := r.val;
            }
            l, ok := r.n, r.ok;
          }
        case 3 =>
          if t != I32 {
            l, ok := SkipBytes(t, b);
          } else {
            var r := ReadI32(b);
            if r.ok {
              actionType := r.val;
            }
            l, ok := r.n, r.ok;
          }
        case 4 =>
          if t != STRING {
            l, ok := SkipBytes(t, b);
          } else {
            var r := ReadString(b);
            if r.ok {
              commentText := Some(r.val);
            }
            l, ok := r.n, r.ok;
          }
        case 5 =>
          if t != I64 {
            l, ok := SkipBytes(t, b);
          } else {
            var r := ReadI64(b);
            if r.ok {
              commentId := Some(r.val);
            }
            l, ok := r.n, r.ok;
          }
        case _ =>
          l, ok := SkipBytes(t, b);
      }
    }

    method FastRead(buf: bytes) returns (offset: nat, ok: bool)
      modifies this
      ensures Read(ok, Value(), offset) == old(V.ReadCommentActionRequest(Value(), buf))
    {
      hide V.CommentActionRequestSwitch, ReadStruct;
      offset, ok := 0, true;
      ghost var whole := V.ReadCommentActionRequest(Value(), buf);
      assert buf[0..] == buf;
      while true
        invariant ok && offset <= |buf|
        invariant whole == Ahead(offset, V.ReadCommentActionRequest(Value(), buf[offset..]))
        decreases |buf| - offset
      {
        StructTurn(V.CommentActionRequestSwitch, Value(), buf, offset);
        var rest := buf[offset..];
        if |rest| < 1 {
          return offset, false;
        }
        if rest[0] == STOP {
          return offset + 1, true;
        }
        if |rest| < 3 {
          return offset, false;
        }
        offset := offset + 3;
        var l;
        l, ok := FastReadField(rest[0], ReadI16(rest[1..]).val, buf[offset..]);
        offset := offset + l;
        if !ok {
          return;
        }
      }
    }
  }

  /** The fields are added up in the order of their ids, not in the order in which they are written. */
  method CommentActionRequestBLength(p: Option<V.CommentActionRequest>) returns (l: nat)
    ensures l == |V.EncCommentActionRequest(p)|
  {
    l := 0;
    if p.Some? {
      var m := p.value;
      V.CommentActionRequestSize(m);
      l := l + 3 + 8;
      l := l + 3 + 8;
      l := l + 3 + 4;
      if m.commentText.Some? {
        l := l + 3 + 4 + |m.commentText.value|;
      }
      if m.commentId.Some? {
        l := l + 3 + 8;
      }
    }
    l := l + 1;
  }

  method CommentActionRequestFastWriteNocopy(p: Option<V.CommentActionRequest>, buf: array<byte>, off: nat)
    returns (end: nat)
    requires off + |V.EncCommentActionRequest(p)| <= buf.Length
    modifies buf
    ensures end == off + |V.EncCommentActionRequest(p)|
    ensures buf[..] == Patch(old(buf[..]), off, V.EncCommentActionRequest(p))
  {
    hide Written, EncInt, EncString, EncBool;
    end := off;
    ghost var s, ws := buf[..], [];
    StartWriting(s, off);
    if p.Some? {
      var m := p.value;
      V.CommentActionRequestSize(m);
      hide Patch, EncFields, EncStruct;
      end, ws := WriteField(buf, end, WireField(I64, 1, EncInt(8, m.userId)), s, off, ws);
      end, ws := WriteField(buf, end, WireField(I64, 2, EncInt(8, m.videoId)), s, off, ws);
      end, ws := WriteField(buf, end, WireField(I32, 3, EncInt(4, m.actionType)), s, off, ws);
      if m.commentId.Some? {
        end, ws := WriteField(buf, end, WireField(I64, 5, EncInt(8, m.commentId.value)), s, off, ws);
      } else {
        assert ws + [] == ws;
      }
      if m.commentText.Some? {
        end, ws := WriteField(buf, end, WireField(STRING, 4, EncString(m.commentText.value)), s, off, ws);
      } else {
        assert ws + [] == ws;
      }
      assert [] + [WireField(I64, 1, EncInt(8, m.userId))] == [WireField(I64, 1, EncInt(8, m.userId))];
      assert ws == V.CommentActionRequestFields(m);
    }
    end := WriteStop(buf, end, s, off, ws);
  }

  /** Written into a buffer and read back from there: normalised if every length fits, and only then. */
  method CommentActionRequestWriteRead(m: Option<V.CommentActionRequest>, buf: array<byte>, off: nat)
    returns (p: CommentActionRequest, l: nat, ok: bool)
    requires off + |V.EncCommentActionRequest(m)| <= buf.Length
    modifies buf
    ensures fresh(p) && buf[..] == Patch(old(buf[..]), off, V.EncCommentActionRequest(m))
    ensures V.EncodableCommentActionRequest(m) <==>
      Read(ok, p.Value(), l) == Read(true, V.NormCommentActionRequest(m), |V.EncCommentActionRequest(m)|)
  {
    hide Patch, V.EncCommentActionRequest, V.NormCommentActionRequest,
      V.EncodableCommentActionRequest, V.ReadCommentActionRequest;
    ghost var s := buf[..];
    var end := CommentActionRequestFastWriteNocopy(m, buf, off);
    PatchTail(s, off, V.EncCommentActionRequest(m));
    assert buf[off..] == buf[..][off..];
    V.CommentActionRequestRoundTrip(m, s[off + |V.EncCommentActionRequest(m)|..]);
    p := new CommentActionRequest();
    l, ok := p.FastRead(buf[off..]);
  }

  class CommentActionResponse {
    var statusCode: i32
    var statusMsg: bytes
    var comment: Option<V.Comment>

    constructor ()
      ensures Value() == V.NEW_COMMENT_ACTION_RESPONSE
    {
      statusCode := 0;
      statusMsg := [];
      comment := None;
    }

    function Value(): V.CommentActionResponse
      reads this
    {
      V.CommentActionResponse(statusCode, statusMsg, comment)
    }

    /** The switch over the field id, and the assignment of the field. */
    method FastReadField(t: byte, fieldId: i16, b: bytes) returns (l: nat, ok: bool)
      modifies this
      ensures Read(ok, Value(), l) == old(V.CommentActionResponseSwitch(Value(), t, fieldId, b))
    {
      match fieldId {
        case 1 =>
          if t != I32 {
            l, ok := SkipBytes(t, b);
          } else {
            var r := ReadI32(b);
            if r.ok {
              statusCode := r.val;
            }
            l, ok := r.n, r.ok;
          }
        case 2 =>
          if t != STRING {
            l, ok := SkipBytes(t, b);
          } else {
            var r := ReadString(b);
            if r.ok {
              statusMsg := r.val;
            }
            l, ok := r.n, r.ok;
          }
        case 3 =>
          if t != STRUCT {
            l, ok := SkipBytes(t, b);
          } else {
            var field := new Comment();
            l, ok := field.FastRead(b);
            if ok {
              comment := Some(field.Value());
            } else {
              l := 0;
            }
          }
        case _ =>
          l, ok := SkipBytes(t, b);
      }
    }

    method FastRead(buf: bytes) returns (offset: nat, ok: bool)
      modifies this
      ensures Read(ok, Value(), offset) == old(V.ReadCommentActionResponse(Value(), buf))
    {
      hide V.CommentActionResponseSwitch, ReadStruct;
      offset, ok := 0, true;
      ghost var whole := V.ReadCommentActionResponse(Value(), buf);
      assert buf[0..] == buf;
      while true
        invariant ok && offset <= |buf|
        invariant whole == Ahead(offset, V.ReadCommentActionResponse(Value(), buf[offset..]))
        decreases |buf| - offset
      {
        StructTurn(V.CommentActionResponseSwitch, Value(), buf, offset);
        var rest := buf[offset..];
        if |rest| < 1 {
          return offset, false;
        }
        if rest[0] == STOP {
          return offset + 1, true;
        }
        if |rest| < 3 {
          return offset, false;
        }
        offset := offset + 3;
        var l;
        l, ok := FastReadField(rest[0], ReadI16(rest[1..]).val, buf[offset..]);
        offset := offset + l;
        if !ok {
          return;
        }
      }
    }
  }

  /** The fields are added up in the order of their ids, not in the order in which they are written. */
  method CommentActionResponseBLength(p: Option<V.CommentActionResponse>) returns (l: nat)
    ensures l == |V.EncCommentActionResponse(p)|
  {
    l := 0;
    if p.Some? {
      var m := p.value;
      V.CommentActionResponseSize(m);
      l := l + 3 + 4;
      l := l + 3 + 4 + |m.statusMsg|;
      if m.comment.Some? {
        var l3 := CommentBLength(m.comment);
        l := l + 3 + l3;
      }
    }
    l := l + 1;
  }

  method CommentActionResponseFastWriteNocopy(p: Option<V.CommentActionResponse>, buf: array<byte>, off: nat)
    returns (end: nat)
    requires off + |V.EncCommentActionResponse(p)| <= buf.Length
    modifies buf
    ensures end == off + |V.EncCommentActionResponse(p)|
    ensures buf[..] == Patch(old(buf[..]), off, V.EncCommentActionResponse(p))
  {
    hide Written, EncInt, EncString, EncBool;
    end := off;
    ghost var s, ws := buf[..], [];
    StartWriting(s, off);
    if p.Some? {
      var m := p.value;
      V.CommentActionResponseSize(m);
      hide Patch, EncFields, EncStruct;
      end, ws := WriteField(buf, end, WireField(I32, 1, EncInt(4, m.statusCode)), s, off, ws);
      end, ws := WriteField(buf, end, WireField(STRING, 2, EncString(m.statusMsg)), s, off, ws);
      if m.comment.Some? {
        end, ws := WriteCommentField(3, m.comment, buf, end, s, off, ws);
      } else {
        assert ws + [] == ws;
      }
      assert [] + [WireField(I32, 1, EncInt(4, m.statusCode))] == [WireField(I32, 1, EncInt(4, m.statusCode))];
      assert ws == V.CommentActionResponseFields(m);
    }
    end := WriteStop(buf, end, s, off, ws);
  }

  /** Written into a buffer and read back from there: normalised if every length fits, and only then. */
  method CommentActionResponseWriteRead(m: Option<V.CommentActionResponse>, buf: array<byte>, off: nat)
    returns (p: CommentActionResponse, l: nat, ok: bool)
    requires off + |V.EncCommentActionResponse(m)| <= buf.Length
    modifies buf
    ensures fresh(p) && buf[..] == Patch(old(buf[..]), off, V.EncCommentActionResponse(m))
    ensures V.EncodableCommentActionResponse(m) <==>
      Read(ok, p.Value(), l) == Read(true, V.NormCommentActionResponse(m), |V.EncCommentActionResponse(m)|)
  {
    hide Patch, V.EncCommentActionResponse, V.NormCommentActionResponse,
      V.EncodableCommentActionResponse, V.ReadCommentActionResponse;
    ghost var s := buf[..];
    var end := CommentActionResponseFastWriteNocopy(m, buf, off);
    PatchTail(s, off, V.EncCommentActionResponse(m));
    assert buf[off..] == buf[..][off..];
    V.CommentActionResponseRoundTrip(m, s[off + |V.EncCommentActionResponse(m)|..]);
    p := new CommentActionResponse();
    l, ok := p.FastRead(buf[off..]);
  }
}
