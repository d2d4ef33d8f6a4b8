/**
 The bytes of every message on the wire, with the type codes and field ids as numbers: what a peer written in
 any language reads.  Integers are big-endian, strings follow their length, a list its element type and size.
 */
module Layouts {
  import opened Wire
  import opened Wrappers
  import opened Fields
  import opened UserCodec
  import opened VideoCodec
  import opened CommentCodec
  import opened FavoriteCodec

  /** A field's type code, its id in two bytes, and its payload. */
  lemma Laid(ws: seq<WireField>, b: bytes, t: byte, id: byte, payload: bytes)
    returns (ws': seq<WireField>, b': bytes)
    requires EncFields(ws) == b
    ensures ws' == ws + [WireField(t, id, payload)]
    ensures b' == b + ([t, 0, id] + payload) && EncFields(ws') == b'
  {
    var w := WireField(t, id, payload);
    ws', b' := ws + [w], b + ([t, 0, id] + payload);
    EncFieldsAppend(ws, [w]);
    assert EncFields([w]) == EncField(w) + EncFields([]);
    TwoBytes(id);
    assert EncFieldBegin(t, id) == [t, 0, id];
  }

  lemma TwoBytes(id: byte)
    ensures EncInt(2, id) == [0, id]
  {
    assert EncInt(1, 0) == EncInt(0, 0) + [0];
  }

  /** A boolean is one byte, and only 1 is true. */
  lemma BoolLayout(b: byte, x: bytes)
    ensures EncBool(true) == [1] && EncBool(false) == [0] && ReadBool([b] + x) == Read(true, b == 1, 1)
  {
    assert ([b] + x)[0] == b;
  }

  /** A nil message is a lone STOP byte. */
  lemma NilLayout()
    ensures EncUser(None) == [0] && EncVideo(None) == [0] && EncComment(None) == [0]
  {
  }

  /** And it reads as a message of zeros. */
  lemma NilRead()
    ensures ReadNewUser([0]) == Read(true, User(0, [], 0, 0, false, [], [], [], [], 0, 0), 1)
    ensures ReadNewVideo([0]) == Read(true, Video(0, None, [], [], 0, 0, false, []), 1)
    ensures ReadNewComment([0]) == Read(true, Comment(0, None, [], []), 1)
  {
    UserReader();
    VideoReader();
    CommentReader();
  }

  lemma UserLayout(m: User)
    ensures EncUser(Some(m)) ==
      ([10, 0, 1] + EncInt(8, m.id))
      + ([8, 0, 3] + EncInt(4, m.followCount))
      + ([8, 0, 4] + EncInt(4, m.followerCount))
      + ([2, 0, 5] + [if m.isFollow then 1 else 0])
      + ([8, 0, 10] + EncInt(4, m.workCount))
      + ([8, 0, 11] + EncInt(4, m.favoriteCount))
      + ([11, 0, 2] + (EncInt(4, |m.name|) + m.name))
      + ([11, 0, 6] + (EncInt(4, |m.avatar|) + m.avatar))
      + ([11, 0, 7] + (EncInt(4, |m.backgroundImage|) + m.backgroundImage))
      + ([11, 0, 8] + (EncInt(4, |m.signature|) + m.signature))
      + ([11, 0, 9] + (EncInt(4, |m.totalFavorited|) + m.totalFavorited))
      + [0]
  {
    hide EncInt;
    var ws: seq<WireField>, b: bytes := [], [];
    assert EncFields(ws) == b;
    hide EncFields;
    ws, b := Laid(ws, b, 10, 1, EncInt(8, m.id));
    ws, b := Laid(ws, b, 8, 3, EncInt(4, m.followCount));
    ws, b := Laid(ws, b, 8, 4, EncInt(4, m.followerCount));
    ws, b := Laid(ws, b, 2, 5, [if m.isFollow then 1 else 0]);
    ws, b := Laid(ws, b, 8, 10, EncInt(4, m.workCount));
    ws, b := Laid(ws, b, 8, 11, EncInt(4, m.favoriteCount));
    ws, b := Laid(ws, b, 11, 2, EncInt(4, |m.name|) + m.name);
    ws, b := Laid(ws, b, 11, 6, EncInt(4, |m.avatar|) + m.avatar);
    ws, b := Laid(ws, b, 11, 7, EncInt(4, |m.backgroundImage|) + m.backgroundImage);
    ws, b := Laid(ws, b, 11, 8, EncInt(4, |m.signature|) + m.signature);
    ws, b := Laid(ws, b, 11, 9, EncInt(4, |m.totalFavorited|) + m.totalFavorited);
    assert [] + ([10, 0, 1] + EncInt(8, m.id)) == ([10, 0, 1] + EncInt(8, m.id));
    assert [] + [WireField(10, 1, EncInt(8, m.id))] == [WireField(10, 1, EncInt(8, m.id))];
    assert ws == UserFields(m);
  }

  lemma VideoLayout(m: Video)
    ensures EncVideo(Some(m)) ==
      ([10, 0, 1] + EncInt(8, m.id))
      + ([8, 0, 5] + EncInt(4, m.favoriteCount))
      + ([8, 0, 6] + EncInt(4, m.commentCount))
      + ([2, 0, 7] + [if m.isFavorite then 1 else 0])
      + ([12, 0, 2] + EncUser(m.author))
      + ([11, 0, 3] + (EncInt(4, |m.playUrl|) + m.playUrl))
      + ([11, 0, 4] + (EncInt(4, |m.coverUrl|) + m.coverUrl))
      + ([11, 0, 8] + (EncInt(4, |m.title|) + m.title))
      + [0]
  {
    hide EncInt, EncUser;
    var ws: seq<WireField>, b: bytes := [], [];
    assert EncFields(ws) == b;
    hide EncFields;
    ws, b := Laid(ws, b, 10, 1, EncInt(8, m.id));
    ws, b := Laid(ws, b, 8, 5, EncInt(4, m.favoriteCount));
    ws, b := Laid(ws, b, 8, 6, EncInt(4, m.commentCount));
    ws, b := Laid(ws, b, 2, 7, [if m.isFavorite then 1 else 0]);
    ws, b := Laid(ws, b, 12, 2, EncUser(m.author));
    ws, b := Laid(ws, b, 11, 3, EncInt(4, |m.playUrl|) + m.playUrl);
    ws, b := Laid(ws, b, 11, 4, EncInt(4, |m.coverUrl|) + m.coverUrl);
    ws, b := Laid(ws, b, 11, 8, EncInt(4, |m.title|) + m.title);
    assert [] + ([10, 0, 1] + EncInt(8, m.id)) == ([10, 0, 1] + EncInt(8, m.id));
    assert [] + [WireField(10, 1, EncInt(8, m.id))] == [WireField(10, 1, EncInt(8, m.id))];
    assert ws == VideoFields(m);
  }

  lemma VideoFeedRequestLayout(m: VideoFeedRequest)
    ensures EncVideoFeedRequest(Some(m)) ==
      ([10, 0, 2] + EncInt(8, m.userId))
      + (if m.latestTime.None? then [] else [11, 0, 1] + (EncInt(4, |m.latestTime.value|) + m.latestTime.value))
      + [0]
  {
    hide EncInt;
    var ws: seq<WireField>, b: bytes := [], [];
    assert EncFields(ws) == b;
    hide EncFields;
    ws, b := Laid(ws, b, 10, 2, EncInt(8, m.userId));
    if m.latestTime.Some? {
      ws, b := Laid(ws, b, 11, 1, EncInt(4, |m.latestTime.value|) + m.latestTime.value);
    } else {
      assert b + [] == b && ws + [] == ws;
    }
    assert [] + ([10, 0, 2] + EncInt(8, m.userId)) == ([10, 0, 2] + EncInt(8, m.userId));
    assert [] + [WireField(10, 2, EncInt(8, m.userId))] == [WireField(10, 2, EncInt(8, m.userId))];
    assert ws == VideoFeedRequestFields(m);
  }

  lemma VideoFeedResponseLayout(m: VideoFeedResponse)
    ensures EncVideoFeedResponse(Some(m)) ==
      ([8, 0, 1] + EncInt(4, m.statusCode))
      + ([10, 0, 4] + EncInt(8, m.nextTime))
      + ([11, 0, 2] + (EncInt(4, |m.statusMsg|) + m.statusMsg))
      + ([15, 0, 3] + ([12] + EncInt(4, |ElemsVideo(m.videoList)|) + Concat(ElemsVideo(m.videoList))))
      + [0]
  {
    hide EncInt, Concat, ElemsVideo;
    var ws: seq<WireField>, b: bytes := [], [];
    assert EncFields(ws) == b;
    hide EncFields;
    ws, b := Laid(ws, b, 8, 1, EncInt(4, m.statusCode));
    ws, b := Laid(ws, b, 10, 4, EncInt(8, m.nextTime));
    ws, b := Laid(ws, b, 11, 2, EncInt(4, |m.statusMsg|) + m.statusMsg);
    ws, b := Laid(ws, b, 15, 3, [12] + EncInt(4, |ElemsVideo(m.videoList)|) + Concat(ElemsVideo(m.videoList)));
    assert [] + ([8, 0, 1] + EncInt(4, m.statusCode)) == ([8, 0, 1] + EncInt(4, m.statusCode));
    assert [] + [WireField(8, 1, EncInt(4, m.statusCode))] == [WireField(8, 1, EncInt(4, m.statusCode))];
    assert ws == VideoFeedResponseFields(m);
  }

  lemma CommentLayout(m: Comment)
    ensures EncComment(Some(m)) ==
      ([10, 0, 1] + EncInt(8, m.id))
      + ([12, 0, 2] + EncUser(m.user))
      + ([11, 0, 3] + (EncInt(4, |m.content|) + m.content))
      + ([11, 0, 4] + (EncInt(4, |m.createDate|) + m.createDate))
      + [0]
  {
    hide EncInt, EncUser;
    var ws: seq<WireField>, b: bytes := [], [];
    assert EncFields(ws) == b;
    hide EncFields;
    ws, b := Laid(ws, b, 10, 1, EncInt(8, m.id));
    ws, b := Laid(ws, b, 12, 2, EncUser(m.user));
    ws, b := Laid(ws, b, 11, 3, EncInt(4, |m.content|) + m.content);
    ws, b := Laid(ws, b, 11, 4, EncInt(4, |m.createDate|) + m.createDate);
    assert [] + ([10, 0, 1] + EncInt(8, m.id)) == ([10, 0, 1] + EncInt(8, m.id));
    assert [] + [WireField(10, 1, EncInt(8, m.id))] == [WireField(10, 1, EncInt(8, m.id))];
    assert ws == CommentFields(m);
  }

  lemma CommentActionRequestLayout(m: CommentActionRequest)
    ensures EncCommentActionRequest(Some(m)) ==
      ([10, 0, 1] + EncInt(8, m.userId))
      + ([10, 0, 2] + EncInt(8, m.videoId))
      + ([8, 0, 3] + EncInt(4, m.actionType))
      + (if m.commentId.None? then [] else [10, 0, 5] + EncInt(8, m.commentId.value))
      + (if m.commentText.None? then [] else [11, 0, 4] + (EncInt(4, |m.commentText.value|) + m.commentText.value))
      + [0]
  {
    hide EncInt;
    var ws: seq<WireField>, b: bytes := [], [];
    assert EncFields(ws) == b;
    hide EncFields;
    ws, b := Laid(ws, b, 10, 1, EncInt(8, m.userId));
    ws, b := Laid(ws, b, 10, 2, EncInt(8, m.videoId));
    ws, b := Laid(ws, b, 8, 3, EncInt(4, m.actionType));
    if m.commentId.Some? {
      ws, b := Laid(ws, b, 10, 5, EncInt(8, m.commentId.value));
    } else {
      assert b + [] == b && ws + [] == ws;
    }
    if m.commentText.Some? {
      ws, b := Laid(ws, b, 11, 4, EncInt(4, |m.commentText.value|) + m.commentText.value);
    } else {
      assert b + [] == b && ws + [] == ws;
    }
    assert [] + ([10, 0, 1] + EncInt(8, m.userId)) == ([10, 0, 1] + EncInt(8, m.userId));
    assert [] + [WireField(10, 1, EncInt(8, m.userId))] == [WireField(10, 1, EncInt(8, m.userId))];
    assert ws == CommentActionRequestFields(m);
  }

  lemma CommentActionResponseLayout(m: CommentActionResponse)
    ensures EncCommentActionResponse(Some(m)) ==
      ([8, 0, 1] + EncInt(4, m.statusCode))
      + ([11, 0, 2] + (EncInt(4, |m.statusMsg|) + m.statusMsg))
      + (if m.comment.None? then [] else [12, 0, 3] + EncComment(m.comment))
      + [0]
  {
    hide EncInt, EncComment;
    var ws: seq<WireField>, b: bytes := [], [];
    assert EncFields(ws) == b;
    hide EncFields;
    ws, b := Laid(ws, b, 8, 1, EncInt(4, m.statusCode));
    ws, b := Laid(ws, b, 11, 2, EncInt(4, |m.statusMsg|) + m.statusMsg);
    if m.comment.Some? {
      ws, b := Laid(ws, b, 12, 3, EncComment(m.comment));
    } else {
      assert b + [] == b && ws + [] == ws;
    }
    assert [] + ([8, 0, 1] + EncInt(4, m.statusCode)) == ([8, 0, 1] + EncInt(4, m.statusCode));
    assert [] + [WireField(8, 1, EncInt(4, m.statusCode))] == [WireField(8, 1, EncInt(4, m.statusCode))];
    assert ws == CommentActionResponseFields(m);
  }

  lemma FavoriteListResponseLayout(m: FavoriteListResponse)
    ensures EncFavoriteListResponse(Some(m)) ==
      ([8, 0, 1] + EncInt(4, m.statusCode))
      + ([11, 0, 2] + (EncInt(4, |m.statusMsg|) + m.statusMsg))
      + ([15, 0, 3] + ([12] + EncInt(4, |ElemsVideo(m.videoList)|) + Concat(ElemsVideo(m.videoList))))
      + [0]
  {
    hide EncInt, Concat, ElemsVideo;
    var ws: seq<WireField>, b: bytes := [], [];
    assert EncFields(ws) == b;
    hide EncFields;
    ws, b := Laid(ws, b, 8, 1, EncInt(4, m.statusCode));
    ws, b := Laid(ws, b, 11, 2, EncInt(4, |m.statusMsg|) + m.statusMsg);
    ws, b := Laid(ws, b, 15, 3, [12] + EncInt(4, |ElemsVideo(m.videoList)|) + Concat(ElemsVideo(m.videoList)));
    assert [] + ([8, 0, 1] + EncInt(4, m.statusCode)) == ([8, 0, 1] + EncInt(4, m.statusCode));
    assert [] + [WireField(8, 1, EncInt(4, m.statusCode))] == [WireField(8, 1, EncInt(4, m.statusCode))];
    assert ws == FavoriteListResponseFields(m);
  }
}
