/**
 The encodings of one message: its fields in any order, with skippable fields of unknown ids or types
 anywhere between them, at every depth of its nested structs and lists.  Decoding does not tell them apart.
 */
module Forms {
  import opened Wire
  import opened Wrappers
  import opened Fields
  import opened UserCodec
  import opened VideoCodec
  import opened CommentCodec
  import opened FavoriteCodec

  // ---------- user ----------

  ghost predicate UserForm(m: Option<User>, b: bytes) {
    exists ws :: b == EncStruct(ws) && Rearranged(UserKnows, if m.None? then [] else UserFields(m.value), ws)
  }

  lemma UserFormRead(m: Option<User>, b: bytes)
    requires EncodableUser(m) && UserForm(m, b)
    ensures ReadNewUser(b) == Read(true, NormUser(m), |b|)
  {
    var fs := if m.None? then [] else UserFields(m.value);
    var ws :| b == EncStruct(ws) && Rearranged(UserKnows, fs, ws);
    UserReader();
    if m.Some? { TakeUserFields(NEW_USER, m.value); }
    ReadRearranged(UserSwitch, UserKnows, UserSlot, NEW_USER, fs, ws, []);
    assert b + [] == b;
  }

  // ---------- video, with its author ----------

  /** The written fields, with this encoding of the author. */
  function VideoFieldsWith(m: Video, author: bytes): seq<WireField> {
    VideoFields(m)[4 := WireField(STRUCT, 2, author)]
  }

  ghost predicate VideoForm(m: Option<Video>, b: bytes) {
    if m.None? then exists ws :: b == EncStruct(ws) && Rearranged(VideoKnows, [], ws)
    else
      exists author, ws ::
        && b == EncStruct(ws) && UserForm(m.value.author, author)
        && Rearranged(VideoKnows, VideoFieldsWith(m.value, author), ws)
  }

  lemma AuthorTaken(author: bytes, u: User)
    requires ReadNewUser(author) == Read(true, u, |author|)
    ensures Accepts(VideoSwitch, WireField(STRUCT, 2, author))
    ensures forall p :: Take(VideoSwitch, p, WireField(STRUCT, 2, author)) == p.(author := Some(u))
  {
    hide ReadNewUser;
  }

  lemma AuthorSwapped(m: Video, author: bytes)
    requires VideoFits(m) && ReadNewUser(author) == Read(true, NormUser(m.author), |author|)
    ensures |VideoFields(m)| == 8
    ensures Interchangeable(VideoSwitch, VideoFields(m)[4], WireField(STRUCT, 2, author))
  {
    hide VideoSwitch, ReadNewUser, EncUser, NormUser, EncInt, EncString, EncBool, Accepts, Take;
    NewUserRoundTrip(m.author);
    AuthorTaken(author, NormUser(m.author));
    AuthorTaken(EncUser(m.author), NormUser(m.author));
    assert VideoFields(m)[4] == WireField(STRUCT, 2, EncUser(m.author));
  }

  lemma VideoRearrangedRead(m: Video, author: bytes, ws: seq<WireField>)
    requires VideoFits(m) && UserForm(m.author, author) && Rearranged(VideoKnows, VideoFieldsWith(m, author), ws)
    ensures ReadNewVideo(EncStruct(ws)) == Read(true, NormVideo(Some(m)), |EncStruct(ws)|)
  {
    hide VideoSwitch, VideoKnows, VideoSlot, VideoFields, NormVideo, Rearranged, UserForm, Interchangeable;
    VideoReader();
    UserFormRead(m.author, author);
    TakeVideoFields(NEW_VIDEO, m);
    AuthorSwapped(m, author);
    TakeSwapped(VideoSwitch, NEW_VIDEO, VideoFields(m), 4, WireField(STRUCT, 2, author));
    ReadRearranged(VideoSwitch, VideoKnows, VideoSlot, NEW_VIDEO, VideoFieldsWith(m, author), ws, []);
    assert EncStruct(ws) + [] == EncStruct(ws);
  }

  lemma VideoFormRead(m: Option<Video>, b: bytes)
    requires EncodableVideo(m) && VideoForm(m, b)
    ensures ReadNewVideo(b) == Read(true, NormVideo(m), |b|)
  {
    hide VideoSwitch, VideoKnows, VideoSlot, Rearranged, UserForm, VideoFieldsWith;
    if m.Some? {
      var author, ws :| b == EncStruct(ws) &&
        UserForm(m.value.author, author) && Rearranged(VideoKnows, VideoFieldsWith(m.value, author), ws);
      VideoRearrangedRead(m.value, author, ws);
    } else {
      var ws :| b == EncStruct(ws) && Rearranged(VideoKnows, [], ws);
      VideoReader();
      ReadRearranged(VideoSwitch, VideoKnows, VideoSlot, NEW_VIDEO, [], ws, []);
      assert EncStruct(ws) + [] == EncStruct(ws);
    }
  }

  // ---------- lists of videos ----------

  ghost predicate VideosForm(l: Option<seq<Option<Video>>>, es: seq<bytes>) {
    && |es| == (if l.None? then 0 else |l.value|)
    && forall i :: 0 <= i < |es| ==> VideoForm(l.value[i], es[i])
  }

  ghost predicate VideoListForm(l: Option<seq<Option<Video>>>, b: bytes) {
    exists et, es :: VideosForm(l, es) && b == EncListBegin(et, |es|) + Concat(es)
  }

  lemma VideoListFormRead(l: Option<seq<Option<Video>>>, b: bytes)
    requires EncodableVideoList(l) && VideoListForm(l, b)
    ensures ReadList(ReadNewVideo, b) == Read(true, NormVideoList(l), |b|)
  {
    var et, es :| VideosForm(l, es) && b == EncListBegin(et, |es|) + Concat(es);
    var vs := NormVideoList(l);
    hide ReadNewVideo, EncodableVideo, VideoForm, ReadList;
    forall i | 0 <= i < |es| ensures ReadNewVideo(es[i]) == Read(true, vs[i], |es[i]|) {
      VideoFormRead(l.value[i], es[i]);
    }
    NewReaderVideo();
    ReadAnyList(ReadNewVideo, et, es, vs, []);
    assert b + [] == b;
  }

  // ---------- the responses that hold such lists ----------

  function VideoFeedResponseFieldsWith(m: VideoFeedResponse, list: bytes): seq<WireField> {
    VideoFeedResponseFields(m)[3 := WireField(LIST, 3, list)]
  }

  ghost predicate VideoFeedResponseForm(m: VideoFeedResponse, b: bytes) {
    exists list, ws :: b == EncStruct(ws) && VideoListForm(m.videoList, list) &&
      Rearranged(VideoFeedResponseKnows, VideoFeedResponseFieldsWith(m, list), ws)
  }

  lemma FeedListTaken(list: bytes, vs: seq<Video>)
    requires ReadList(ReadNewVideo, list) == Read(true, vs, |list|)
    ensures Accepts(VideoFeedResponseSwitch, WireField(LIST, 3, list))
    ensures forall p :: Take(VideoFeedResponseSwitch, p, WireField(LIST, 3, list)) == p.(videoList := Some(AllSome(vs)))
  {
    hide ReadList, ReadNewVideo, ReadI32, ReadI64, ReadString, SkipField;
    var f := VideoFeedResponseSwitch;
    forall p ensures f(p, LIST, 3, list) == Read(true, p.(videoList := Some(AllSome(vs))), |list|) {
    }
    hide VideoFeedResponseSwitch, AllSome;
  }

  lemma FeedListSwapped(m: VideoFeedResponse, list: bytes)
    requires VideoFeedResponseFits(m)
    requires ReadList(ReadNewVideo, list) == Read(true, NormVideoList(m.videoList), |list|)
    ensures |VideoFeedResponseFields(m)| == 4
    ensures Interchangeable(VideoFeedResponseSwitch, VideoFeedResponseFields(m)[3], WireField(LIST, 3, list))
  {
    hide VideoFeedResponseSwitch, ReadList, EncVideoList, NormVideoList, EncInt, EncString, EncBool, Accepts, Take;
    NewReaderVideo();
    VideoListRoundTrip(m.videoList);
    FeedListTaken(list, NormVideoList(m.videoList));
    FeedListTaken(EncVideoList(m.videoList), NormVideoList(m.videoList));
    assert VideoFeedResponseFields(m)[3] == WireField(LIST, 3, EncVideoList(m.videoList));
  }

  /** The feed response: fields rearranged at every depth, down to each video's author, decode alike. */
  lemma VideoFeedResponseFormRead(m: VideoFeedResponse, b: bytes, x: bytes)
    requires VideoFeedResponseFits(m) && VideoFeedResponseForm(m, b)
    ensures ReadVideoFeedResponse(NEW_VIDEO_FEED_RESPONSE, b + x) == Read(true, NormVideoFeedResponse(Some(m)), |b|)
  {
    var list, ws :| b == EncStruct(ws) && VideoListForm(m.videoList, list) &&
      Rearranged(VideoFeedResponseKnows, VideoFeedResponseFieldsWith(m, list), ws);
    VideoFeedResponseReader();
    VideoListFormRead(m.videoList, list);
    TakeVideoFeedResponseFields(NEW_VIDEO_FEED_RESPONSE, m);
    FeedListSwapped(m, list);
    TakeSwapped(VideoFeedResponseSwitch, NEW_VIDEO_FEED_RESPONSE, VideoFeedResponseFields(m), 3,
      WireField(LIST, 3, list));
    hide VideoFeedResponseSwitch, VideoFeedResponseKnows, VideoFeedResponseSlot, VideoFeedResponseFields,
      NormVideoFeedResponse, Rearranged, VideoListForm;
    ReadRearranged(VideoFeedResponseSwitch, VideoFeedResponseKnows, VideoFeedResponseSlot, NEW_VIDEO_FEED_RESPONSE,
      VideoFeedResponseFieldsWith(m, list), ws, x);
  }

  function FavoriteListResponseFieldsWith(m: FavoriteListResponse, list: bytes): seq<WireField> {
    FavoriteListResponseFields(m)[2 := WireField(LIST, 3, list)]
  }

  ghost predicate FavoriteListResponseForm(m: FavoriteListResponse, b: bytes) {
    exists list, ws :: b == EncStruct(ws) && VideoListForm(m.videoList, list) &&
      Rearranged(FavoriteListResponseKnows, FavoriteListResponseFieldsWith(m, list), ws)
  }

  lemma FavoriteListTaken(list: bytes, vs: seq<Video>)
    requires ReadList(ReadNewVideo, list) == Read(true, vs, |list|)
    ensures Accepts(FavoriteListResponseSwitch, WireField(LIST, 3, list))
    ensures forall p ::
      Take(FavoriteListResponseSwitch, p, WireField(LIST, 3, list)) == p.(videoList := Some(AllSome(vs)))
  {
    hide ReadList, ReadNewVideo, ReadI32, ReadI64, ReadString, SkipField;
    var f := FavoriteListResponseSwitch;
    forall p ensures f(p, LIST, 3, list) == Read(true, p.(videoList := Some(AllSome(vs))), |list|) {
    }
    hide FavoriteListResponseSwitch, AllSome;
  }

  lemma FavoriteListSwapped(m: FavoriteListResponse, list: bytes)
    requires FavoriteListResponseFits(m)
    requires ReadList(ReadNewVideo, list) == Read(true, NormVideoList(m.videoList), |list|)
    ensures |FavoriteListResponseFields(m)| == 3
    ensures Interchangeable(FavoriteListResponseSwitch, FavoriteListResponseFields(m)[2], WireField(LIST, 3, list))
  {
    hide FavoriteListResponseSwitch, ReadList, EncVideoList, NormVideoList, EncInt, EncString, EncBool, Accepts, Take;
    NewReaderVideo();
    VideoListRoundTrip(m.videoList);
    FavoriteListTaken(list, NormVideoList(m.videoList));
    FavoriteListTaken(EncVideoList(m.videoList), NormVideoList(m.videoList));
    assert FavoriteListResponseFields(m)[2] == WireField(LIST, 3, EncVideoList(m.videoList));
  }

  /** The favourite list response, likewise. */
  lemma FavoriteListResponseFormRead(m: FavoriteListResponse, b: bytes, x: bytes)
    requires FavoriteListResponseFits(m) && FavoriteListResponseForm(m, b)
    ensures ReadFavoriteListResponse(NEW_FAVORITE_LIST_RESPONSE, b + x) ==
      Read(true, NormFavoriteListResponse(Some(m)), |b|)
  {
    var list, ws :| b == EncStruct(ws) && VideoListForm(m.videoList, list) &&
      Rearranged(FavoriteListResponseKnows, FavoriteListResponseFieldsWith(m, list), ws);
    FavoriteListResponseReader();
    VideoListFormRead(m.videoList, list);
    TakeFavoriteListResponseFields(NEW_FAVORITE_LIST_RESPONSE, m);
    FavoriteListSwapped(m, list);
    TakeSwapped(FavoriteListResponseSwitch, NEW_FAVORITE_LIST_RESPONSE, FavoriteListResponseFields(m), 2,
      WireField(LIST, 3, list));
    hide FavoriteListResponseSwitch, FavoriteListResponseKnows, FavoriteListResponseSlot, FavoriteListResponseFields,
      NormFavoriteListResponse, Rearranged, VideoListForm;
    ReadRearranged(FavoriteListResponseSwitch, FavoriteListResponseKnows, FavoriteListResponseSlot,
      NEW_FAVORITE_LIST_RESPONSE, FavoriteListResponseFieldsWith(m, list), ws, x);
  }

  // ---------- comments ----------

  function CommentFieldsWith(m: Comment, user: bytes): seq<WireField> {
    CommentFields(m)[1 := WireField(STRUCT, 2, user)]
  }

  ghost predicate CommentForm(m: Option<Comment>, b: bytes) {
    if m.None? then exists ws :: b == EncStruct(ws) && Rearranged(CommentKnows, [], ws)
    else
      exists user, ws ::
        && b == EncStruct(ws) && UserForm(m.value.user, user)
        && Rearranged(CommentKnows, CommentFieldsWith(m.value, user), ws)
  }

  lemma CommenterTaken(user: bytes, u: User)
    requires ReadNewUser(user) == Read(true, u, |user|)
    ensures Accepts(CommentSwitch, WireField(STRUCT, 2, user))
    ensures forall p :: Take(CommentSwitch, p, WireField(STRUCT, 2, user)) == p.(user := Some(u))
  {
    hide ReadNewUser;
  }

  lemma CommenterSwapped(m: Comment, user: bytes)
    requires CommentFits(m) && ReadNewUser(user) == Read(true, NormUser(m.user), |user|)
    ensures |CommentFields(m)| == 4
    ensures Interchangeable(CommentSwitch, CommentFields(m)[1], WireField(STRUCT, 2, user))
  {
    hide CommentSwitch, ReadNewUser, EncUser, NormUser, EncInt, EncString, Accepts, Take;
    NewUserRoundTrip(m.user);
    CommenterTaken(user, NormUser(m.user));
    CommenterTaken(EncUser(m.user), NormUser(m.user));
    assert CommentFields(m)[1] == WireField(STRUCT, 2, EncUser(m.user));
  }

  lemma CommentRearrangedRead(m: Comment, user: bytes, ws: seq<WireField>)
    requires CommentFits(m) && UserForm(m.user, user) && Rearranged(CommentKnows, CommentFieldsWith(m, user), ws)
    ensures ReadNewComment(EncStruct(ws)) == Read(true, NormComment(Some(m)), |EncStruct(ws)|)
  {
    hide CommentSwitch, CommentKnows, CommentSlot, CommentFields, NormComment, Rearranged, UserForm, Interchangeable;
    CommentReader();
    UserFormRead(m.user, user);
    TakeCommentFields(NEW_COMMENT, m);
    CommenterSwapped(m, user);
    TakeSwapped(CommentSwitch, NEW_COMMENT, CommentFields(m), 1, WireField(STRUCT, 2, user));
    ReadRearranged(CommentSwitch, CommentKnows, CommentSlot, NEW_COMMENT, CommentFieldsWith(m, user), ws, []);
    assert EncStruct(ws) + [] == EncStruct(ws);
  }

  lemma CommentFormRead(m: Option<Comment>, b: bytes)
    requires EncodableComment(m) && CommentForm(m, b)
    ensures ReadNewComment(b) == Read(true, NormComment(m), |b|)
  {
    hide CommentSwitch, CommentKnows, CommentSlot, Rearranged, UserForm, CommentFieldsWith;
    if m.Some? {
      var user, ws :| b == EncStruct(ws) &&
        UserForm(m.value.user, user) && Rearranged(CommentKnows, CommentFieldsWith(m.value, user), ws);
      CommentRearrangedRead(m.value, user, ws);
    } else {
      var ws :| b == EncStruct(ws) && Rearranged(CommentKnows, [], ws);
      CommentReader();
      ReadRearranged(CommentSwitch, CommentKnows, CommentSlot, NEW_COMMENT, [], ws, []);
      assert EncStruct(ws) + [] == EncStruct(ws);
    }
  }

  /** An absent comment leaves nothing to rearrange within. */
  function CommentActionResponseFieldsWith(m: CommentActionResponse, comment: bytes): seq<WireField> {
    if m.comment.None? then CommentActionResponseFields(m)
    else CommentActionResponseFields(m)[2 := WireField(STRUCT, 3, comment)]
  }

  ghost predicate CommentActionResponseForm(m: CommentActionResponse, b: bytes) {
    exists comment, ws :: b == EncStruct(ws) && (m.comment.Some? ==> CommentForm(m.comment, comment)) &&
      Rearranged(CommentActionResponseKnows, CommentActionResponseFieldsWith(m, comment), ws)
  }

  lemma CommentSwapped(m: CommentActionResponse, comment: bytes)
    requires CommentActionResponseFits(m) && m.comment.Some?
    requires ReadNewComment(comment) == Read(true, NormComment(m.comment), |comment|)
    ensures Interchangeable(CommentActionResponseSwitch, CommentActionResponseFields(m)[2],
      WireField(STRUCT, 3, comment))
  {
    NewCommentRoundTrip(m.comment);
    hide ReadNewComment, EncComment, NormComment, EncInt, EncString;
    assert CommentActionResponseFields(m)[2] == WireField(STRUCT, 3, EncComment(m.comment));
  }

  /** The response to a comment, down to the comment's user. */
  lemma CommentActionResponseFormRead(m: CommentActionResponse, b: bytes, x: bytes)
    requires CommentActionResponseFits(m) && CommentActionResponseForm(m, b)
    ensures ReadCommentActionResponse(NEW_COMMENT_ACTION_RESPONSE, b + x) ==
      Read(true, NormCommentActionResponse(Some(m)), |b|)
  {
    var comment, ws :| b == EncStruct(ws) && (m.comment.Some? ==> CommentForm(m.comment, comment)) &&
      Rearranged(CommentActionResponseKnows, CommentActionResponseFieldsWith(m, comment), ws);
    CommentActionResponseReader();
    TakeCommentActionResponseFields(NEW_COMMENT_ACTION_RESPONSE, m);
    if m.comment.Some? {
      CommentFormRead(m.comment, comment);
      CommentSwapped(m, comment);
      TakeSwapped(CommentActionResponseSwitch, NEW_COMMENT_ACTION_RESPONSE, CommentActionResponseFields(m), 2,
        WireField(STRUCT, 3, comment));
    }
    hide CommentActionResponseSwitch, CommentActionResponseKnows, CommentActionResponseSlot,
      CommentActionResponseFields, NormComment, Rearranged, CommentForm;
    ReadRearranged(CommentActionResponseSwitch, CommentActionResponseKnows, CommentActionResponseSlot,
      NEW_COMMENT_ACTION_RESPONSE, CommentActionResponseFieldsWith(m, comment), ws, x);
  }

  // ---------- what the writers produce is one of the forms ----------

  lemma SameOrder(knows: Knows, ws: seq<WireField>, ids: seq<i16>)
    requires |ws| == |ids| && (forall i :: 0 <= i < |ws| ==> ws[i].id == ids[i] && knows(ws[i].t, ws[i].id))
    requires forall i, j :: 0 <= i < j < |ids| ==> ids[i] != ids[j]
    ensures Rearranged(knows, ws, ws)
  {
  }

  const USER_ORDER: seq<i16> := [1, 3, 4, 5, 10, 11, 2, 6, 7, 8, 9]

  lemma UserIds(m: User)
    ensures |UserFields(m)| == |USER_ORDER|
    ensures forall i :: 0 <= i < |USER_ORDER| ==>
      UserFields(m)[i].id == USER_ORDER[i] && UserKnows(UserFields(m)[i].t, UserFields(m)[i].id)
  {
    hide EncInt, EncString, EncBool;
  }

  lemma UserOrder(m: User)
    ensures Rearranged(UserKnows, UserFields(m), UserFields(m))
  {
    UserIds(m);
    assert forall i, j :: 0 <= i < j < |USER_ORDER| ==> USER_ORDER[i] != USER_ORDER[j];
    hide UserFields, UserKnows, Rearranged;
    SameOrder(UserKnows, UserFields(m), USER_ORDER);
  }

  lemma EncUserForm(m: Option<User>)
    ensures UserForm(m, EncUser(m))
  {
    if m.Some? {
      UserOrder(m.value);
    } else {
      SameOrder(UserKnows, [], []);
    }
  }

  const VIDEO_ORDER: seq<i16> := [1, 5, 6, 7, 2, 3, 4, 8]

  lemma VideoIds(m: Video)
    ensures |VideoFields(m)| == |VIDEO_ORDER| && VideoFields(m)[4] == WireField(STRUCT, 2, EncUser(m.author))
    ensures forall i :: 0 <= i < |VIDEO_ORDER| ==>
      VideoFields(m)[i].id == VIDEO_ORDER[i] && VideoKnows(VideoFields(m)[i].t, VideoFields(m)[i].id)
  {
    hide EncInt, EncString, EncBool, EncUser;
  }

  lemma VideoOrder(m: Video)
    ensures Rearranged(VideoKnows, VideoFields(m), VideoFields(m))
    ensures VideoFieldsWith(m, EncUser(m.author)) == VideoFields(m)
  {
    VideoIds(m);
    assert forall i, j :: 0 <= i < j < |VIDEO_ORDER| ==> VIDEO_ORDER[i] != VIDEO_ORDER[j];
    hide VideoFields, VideoKnows, Rearranged, EncUser;
    SameOrder(VideoKnows, VideoFields(m), VIDEO_ORDER);
  }

  lemma EncVideoForm(m: Option<Video>)
    ensures VideoForm(m, EncVideo(m))
  {
    if m.Some? {
      EncUserForm(m.value.author);
      VideoOrder(m.value);
      hide UserForm, EncUser, VideoFields, VideoFieldsWith, Rearranged;
    } else {
      SameOrder(VideoKnows, [], []);
    }
  }

  lemma EncVideoListForm(l: Option<seq<Option<Video>>>)
    ensures VideoListForm(l, EncVideoList(l))
  {
    var es := ElemsVideo(l);
    hide VideoForm, EncVideo;
    forall i | 0 <= i < |es| ensures VideoForm(l.value[i], es[i]) {
      EncVideoForm(l.value[i]);
    }
    assert VideosForm(l, es) && EncVideoList(l) == EncListBegin(STRUCT, |es|) + Concat(es);
  }

  const VIDEO_FEED_RESPONSE_ORDER: seq<i16> := [1, 4, 2, 3]

  lemma VideoFeedResponseIds(m: VideoFeedResponse)
    ensures |VideoFeedResponseFields(m)| == |VIDEO_FEED_RESPONSE_ORDER|
    ensures VideoFeedResponseFields(m)[3] == WireField(LIST, 3, EncVideoList(m.videoList))
    ensures forall i :: 0 <= i < |VIDEO_FEED_RESPONSE_ORDER| ==>
      var w := VideoFeedResponseFields(m)[i]; w.id == VIDEO_FEED_RESPONSE_ORDER[i] && VideoFeedResponseKnows(w.t, w.id)
  {
    hide EncInt, EncString, EncVideoList;
  }

  lemma VideoFeedResponseOrder(m: VideoFeedResponse)
    ensures Rearranged(VideoFeedResponseKnows, VideoFeedResponseFields(m), VideoFeedResponseFields(m))
    ensures VideoFeedResponseFieldsWith(m, EncVideoList(m.videoList)) == VideoFeedResponseFields(m)
  {
    VideoFeedResponseIds(m);
    var ids := VIDEO_FEED_RESPONSE_ORDER;
    assert forall i, j :: 0 <= i < j < |ids| ==> ids[i] != ids[j];
    hide VideoFeedResponseFields, VideoFeedResponseKnows, Rearranged, EncVideoList;
    SameOrder(VideoFeedResponseKnows, VideoFeedResponseFields(m), ids);
  }

  lemma EncVideoFeedResponseForm(m: VideoFeedResponse)
    ensures VideoFeedResponseForm(m, EncVideoFeedResponse(Some(m)))
  {
    EncVideoListForm(m.videoList);
    VideoFeedResponseOrder(m);
    hide VideoListForm, EncVideoList, VideoFeedResponseFields, VideoFeedResponseFieldsWith, Rearranged;
  }

  const FAVORITE_LIST_RESPONSE_ORDER: seq<i16> := [1, 2, 3]

  lemma FavoriteListResponseIds(m: FavoriteListResponse)
    ensures |FavoriteListResponseFields(m)| == |FAVORITE_LIST_RESPONSE_ORDER|
    ensures FavoriteListResponseFields(m)[2] == WireField(LIST, 3, EncVideoList(m.videoList))
    ensures forall i :: 0 <= i < |FAVORITE_LIST_RESPONSE_ORDER| ==>
      var w := FavoriteListResponseFields(m)[i];
      w.id == FAVORITE_LIST_RESPONSE_ORDER[i] && FavoriteListResponseKnows(w.t, w.id)
  {
    hide EncInt, EncString, EncVideoList;
  }

  lemma FavoriteListResponseOrder(m: FavoriteListResponse)
    ensures Rearranged(FavoriteListResponseKnows, FavoriteListResponseFields(m), FavoriteListResponseFields(m))
    ensures FavoriteListResponseFieldsWith(m, EncVideoList(m.videoList)) == FavoriteListResponseFields(m)
  {
    FavoriteListResponseIds(m);
    var ids := FAVORITE_LIST_RESPONSE_ORDER;
    assert forall i, j :: 0 <= i < j < |ids| ==> ids[i] != ids[j];
    hide FavoriteListResponseFields, FavoriteListResponseKnows, Rearranged, EncVideoList;
    SameOrder(FavoriteListResponseKnows, FavoriteListResponseFields(m), ids);
  }

  lemma EncFavoriteListResponseForm(m: FavoriteListResponse)
    ensures FavoriteListResponseForm(m, EncFavoriteListResponse(Some(m)))
  {
    EncVideoListForm(m.videoList);
    FavoriteListResponseOrder(m);
    hide VideoListForm, EncVideoList, FavoriteListResponseFields, FavoriteListResponseFieldsWith, Rearranged;
  }

  const COMMENT_ORDER: seq<i16> := [1, 2, 3, 4]

  lemma CommentIds(m: Comment)
    ensures |CommentFields(m)| == |COMMENT_ORDER| && CommentFields(m)[1] == WireField(STRUCT, 2, EncUser(m.user))
    ensures forall i :: 0 <= i < |COMMENT_ORDER| ==>
      CommentFields(m)[i].id == COMMENT_ORDER[i] && CommentKnows(CommentFields(m)[i].t, CommentFields(m)[i].id)
  {
    hide EncInt, EncString, EncUser;
  }

  lemma CommentOrder(m: Comment)
    ensures Rearranged(CommentKnows, CommentFields(m), CommentFields(m))
    ensures CommentFieldsWith(m, EncUser(m.user)) == CommentFields(m)
  {
    CommentIds(m);
    assert forall i, j :: 0 <= i < j < |COMMENT_ORDER| ==> COMMENT_ORDER[i] != COMMENT_ORDER[j];
    hide CommentFields, CommentKnows, Rearranged, EncUser;
    SameOrder(CommentKnows, CommentFields(m), COMMENT_ORDER);
  }

  lemma EncCommentForm(m: Option<Comment>)
    ensures CommentForm(m, EncComment(m))
  {
    if m.Some? {
      EncUserForm(m.value.user);
      CommentOrder(m.value);
      hide UserForm, EncUser, CommentFields, CommentFieldsWith, Rearranged;
    } else {
      SameOrder(CommentKnows, [], []);
    }
  }

  const COMMENT_ACTION_RESPONSE_ORDER: seq<i16> := [1, 2, 3]

  lemma CommentActionResponseIds(m: CommentActionResponse)
    ensures |CommentActionResponseFields(m)| == (if m.comment.None? then 2 else 3)
    ensures m.comment.Some? ==> CommentActionResponseFields(m)[2] == WireField(STRUCT, 3, EncComment(m.comment))
    ensures forall i :: 0 <= i < |CommentActionResponseFields(m)| ==>
      var w := CommentActionResponseFields(m)[i];
      w.id == COMMENT_ACTION_RESPONSE_ORDER[i] && CommentActionResponseKnows(w.t, w.id)
  {
    hide EncInt, EncString, EncComment;
  }

  lemma CommentActionResponseOrder(m: CommentActionResponse)
    ensures Rearranged(CommentActionResponseKnows, CommentActionResponseFields(m), CommentActionResponseFields(m))
    ensures CommentActionResponseFieldsWith(m, EncComment(m.comment)) == CommentActionResponseFields(m)
  {
    var ids := COMMENT_ACTION_RESPONSE_ORDER[..|CommentActionResponseFields(m)|];
    CommentActionResponseIds(m);
    assert forall i, j :: 0 <= i < j < |ids| ==> ids[i] != ids[j];
    hide CommentActionResponseFields, CommentActionResponseKnows, Rearranged, EncComment;
    SameOrder(CommentActionResponseKnows, CommentActionResponseFields(m), ids);
  }

  lemma EncCommentActionResponseForm(m: CommentActionResponse)
    ensures CommentActionResponseForm(m, EncCommentActionResponse(Some(m)))
  {
    EncCommentForm(m.comment);
    CommentActionResponseOrder(m);
    hide CommentForm, EncComment, CommentActionResponseFields, CommentActionResponseFieldsWith, Rearranged;
  }
}
