/**
 Messages of the video package: a video with its author, and the feed request and response.
 A message is a value here; a nil pointer is None.
 */
module VideoCodec {
  import opened Wire
  import opened Wrappers
  import opened Fields
  import opened UserCodec

  // ========== Video ==========

  datatype Video = Video(
    id: i64,
    author: Option<User>,
    playUrl: bytes,
    coverUrl: bytes,
    favoriteCount: i32,
    commentCount: i32,
    isFavorite: bool,
    title: bytes
  )

  const NEW_VIDEO := Video(0, None, [], [], 0, 0, false, [])

  function VideoSwitch(p: Video, t: byte, id: i16, b: bytes): (r: Read<Video>)
    ensures r.n <= |b|
  {
    match id
    case 1 =>
      if t != I64 then SkipField(p, t, b)
      else var r := ReadI64(b); Read(r.ok, if r.ok then p.(id := r.val) else p, r.n)
    case 2 =>
      if t != STRUCT then SkipField(p, t, b)
      else var r := ReadNewUser(b); Read(r.ok, if r.ok then p.(author := Some(r.val)) else p, if r.ok then r.n else 0)
    case 3 =>
      if t != STRING then SkipField(p, t, b)
      else var r := ReadString(b); Read(r.ok, if r.ok then p.(playUrl := r.val) else p, r.n)
    case 4 =>
      if t != STRING then SkipField(p, t, b)
      else var r := ReadString(b); Read(r.ok, if r.ok then p.(coverUrl := r.val) else p, r.n)
    case 5 =>
      if t != I32 then SkipField(p, t, b)
      else var r := ReadI32(b); Read(r.ok, if r.ok then p.(favoriteCount := r.val) else p, r.n)
    case 6 =>
      if t != I32 then SkipField(p, t, b)
      else var r := ReadI32(b); Read(r.ok, if r.ok then p.(commentCount := r.val) else p, r.n)
    case 7 =>
      if t != BOOL then SkipField(p, t, b)
      else var r := ReadBool(b); Read(r.ok, if r.ok then p.(isFavorite := r.val) else p, r.n)
    case 8 =>
      if t != STRING then SkipField(p, t, b)
      else var r := ReadString(b); Read(r.ok, if r.ok then p.(title := r.val) else p, r.n)
    case _ => SkipField(p, t, b)
  }

  predicate VideoKnows(t: byte, id: i16) {
    (t == I64 && id == 1) || (t == STRUCT && id == 2) || (t == STRING && id in {3, 4, 8}) || (t == I32 &&
      id in {5, 6}) || (t == BOOL && id == 7)
  }

  function ReadVideo(p: Video, b: bytes): (r: Read<Video>)
    ensures r.n <= |b|
  {
    ReadStruct(VideoSwitch, p, b)
  }

  function VideoFixedFields(m: Video): seq<WireField> {
    [WireField(I64, 1, EncInt(8, m.id))]
    + [WireField(I32, 5, EncInt(4, m.favoriteCount))]
    + [WireField(I32, 6, EncInt(4, m.commentCount))]
    + [WireField(BOOL, 7, EncBool(m.isFavorite))]
  }

  /** The fields in the order in which they are written: those of a fixed size come first. */
  function VideoFields(m: Video): seq<WireField> {
    VideoFixedFields(m)
    + [WireField(STRUCT, 2, EncUser(m.author))]
    + [WireField(STRING, 3, EncString(m.playUrl))]
    + [WireField(STRING, 4, EncString(m.coverUrl))]
    + [WireField(STRING, 8, EncString(m.title))]
  }

  /** A nil pointer is written as a struct without fields. */
  function EncVideo(m: Option<Video>): bytes {
    EncStruct(if m.None? then [] else VideoFields(m.value))
  }

  predicate VideoFits(m: Video) {
    && EncodableUser(m.author)
    && |m.playUrl| < MAX_LENGTH
    && |m.coverUrl| < MAX_LENGTH
    && |m.title| < MAX_LENGTH
  }

  predicate EncodableVideo(m: Option<Video>) { m.Some? ==> VideoFits(m.value) }

  /** What a written message is read back as. */
  function NormVideo(m: Option<Video>): Video {
    if m.None? then NEW_VIDEO else
    var v := m.value;
    v.(author := Some(NormUser(v.author)))
  }

  /** The message with every field but one at its zero value. */
  function VideoSlot(p: Video, id: i16): Video {
    match id
    case 1 => NEW_VIDEO.(id := p.id)
    case 2 => NEW_VIDEO.(author := p.author)
    case 3 => NEW_VIDEO.(playUrl := p.playUrl)
    case 4 => NEW_VIDEO.(coverUrl := p.coverUrl)
    case 5 => NEW_VIDEO.(favoriteCount := p.favoriteCount)
    case 6 => NEW_VIDEO.(commentCount := p.commentCount)
    case 7 => NEW_VIDEO.(isFavorite := p.isFavorite)
    case 8 => NEW_VIDEO.(title := p.title)
    case _ => NEW_VIDEO
  }

  lemma VideoSlots(p: Video, q: Video)
    requires SameSlots(VideoSlot, p, q)
    ensures p == q
  {
    assert VideoSlot(p, 1) == VideoSlot(q, 1) && VideoSlot(p, 2) == VideoSlot(q, 2) &&
      VideoSlot(p, 3) == VideoSlot(q, 3) && VideoSlot(p, 4) == VideoSlot(q, 4) &&
      VideoSlot(p, 5) == VideoSlot(q, 5) && VideoSlot(p, 6) == VideoSlot(q, 6) &&
      VideoSlot(p, 7) == VideoSlot(q, 7) && VideoSlot(p, 8) == VideoSlot(q, 8);
  }

  lemma VideoLocal()
    ensures Bounded(VideoSwitch) && Local(VideoSwitch) && Clean(VideoSwitch)
  {
    hide ReadBool, ReadI32, ReadI64, ReadString, Skip, ReadNewUser;
    ReadersLocal();
    NewReaderUser();
  }

  /** The switch meets the laws of the field loop. */
  lemma VideoReader()
    ensures Bounded(VideoSwitch) && Local(VideoSwitch) && Slotted(VideoSwitch, VideoKnows, VideoSlot)
  {
    hide ReadString, ReadI64, Skip, SkipField;
    VideoLocal();
    var f := VideoSwitch;
    forall p, t, id, b | !VideoKnows(t, id) ensures f(p, t, id, b) == SkipField(p, t, b) {
    }
    forall p, w: WireField, j | VideoKnows(w.t, w.id) && j != w.id
      ensures VideoSlot(Take(f, p, w), j) == VideoSlot(p, j) {
    }
    forall p, q, w: WireField | VideoKnows(w.t, w.id) && Accepts(f, w)
      ensures VideoSlot(Take(f, p, w), w.id) == VideoSlot(Take(f, q, w), w.id)
    {
    }
    forall p, q | SameSlots(VideoSlot, p, q) ensures p == q {
      VideoSlots(p, q);
    }
  }

  lemma TakeVideoFixed(p: Video, m: Video)
    requires VideoFits(m)
    ensures AcceptsAll(VideoSwitch, VideoFixedFields(m))
    ensures TakeAll(VideoSwitch, p, VideoFixedFields(m)) ==
      p.(id := m.id, favoriteCount := m.favoriteCount, commentCount := m.commentCount, isFavorite := m.isFavorite)
  {
    hide ReadI64, EncInt, ReadI32, ReadBool, EncBool, SkipField, AcceptsAll, TakeAll;
    ReadersExact();
    var f := VideoSwitch;
    var ws, q := StartTaking(f, p);
    ws, q := Grow(f, p, ws, q, WireField(I64, 1, EncInt(8, m.id)), q.(id := m.id));
    ws, q := Grow(f, p, ws, q, WireField(I32, 5, EncInt(4, m.favoriteCount)), q.(favoriteCount := m.favoriteCount));
    ws, q := Grow(f, p, ws, q, WireField(I32, 6, EncInt(4, m.commentCount)), q.(commentCount := m.commentCount));
    ws, q := Grow(f, p, ws, q, WireField(BOOL, 7, EncBool(m.isFavorite)), q.(isFavorite := m.isFavorite));
    assert [] + [WireField(I64, 1, EncInt(8, m.id))] == [WireField(I64, 1, EncInt(8, m.id))];
    assert ws == VideoFixedFields(m);
  }

  /** Taking the written fields in their written order fills in every one of them. */
  lemma TakeVideoFields(p: Video, m: Video)
    requires VideoFits(m)
    ensures AcceptsAll(VideoSwitch, VideoFields(m))
    ensures TakeAll(VideoSwitch, p, VideoFields(m)) == NormVideo(Some(m))
  {
    hide ReadNewUser, EncUser, NormUser, ReadString, EncString, SkipField, AcceptsAll, TakeAll;
    TakeVideoFixed(p, m);
    ReadersExact();
    NewUserRoundTrip(m.author);
    var f, ws, q := VideoSwitch, VideoFixedFields(m),
      p.(id := m.id, favoriteCount := m.favoriteCount, commentCount := m.commentCount, isFavorite := m.isFavorite);
    ws, q := Grow(f, p, ws, q, WireField(STRUCT, 2, EncUser(m.author)), q.(author := Some(NormUser(m.author))));
    ws, q := Grow(f, p, ws, q, WireField(STRING, 3, EncString(m.playUrl)), q.(playUrl := m.playUrl));
    ws, q := Grow(f, p, ws, q, WireField(STRING, 4, EncString(m.coverUrl)), q.(coverUrl := m.coverUrl));
    ws, q := Grow(f, p, ws, q, WireField(STRING, 8, EncString(m.title)), q.(title := m.title));
    assert ws == VideoFields(m);
  }

  /** The size of the written message, added up in the order of the field ids. */
  lemma VideoSize(m: Video)
    ensures |EncVideo(Some(m))| ==
      3 + 8
      + 3 + |EncUser(m.author)|
      + 3 + 4 + |m.playUrl|
      + 3 + 4 + |m.coverUrl|
      + 3 + 4
      + 3 + 4
      + 3 + 1
      + 3 + 4 + |m.title|
      + 1
  {
    hide EncInt, EncString, EncBool;
    var ws: seq<WireField> := [];
    ws := AddSize(ws, WireField(I64, 1, EncInt(8, m.id)));
    ws := AddSize(ws, WireField(I32, 5, EncInt(4, m.favoriteCount)));
    ws := AddSize(ws, WireField(I32, 6, EncInt(4, m.commentCount)));
    ws := AddSize(ws, WireField(BOOL, 7, EncBool(m.isFavorite)));
    ws := AddSize(ws, WireField(STRUCT, 2, EncUser(m.author)));
    ws := AddSize(ws, WireField(STRING, 3, EncString(m.playUrl)));
    ws := AddSize(ws, WireField(STRING, 4, EncString(m.coverUrl)));
    ws := AddSize(ws, WireField(STRING, 8, EncString(m.title)));
    assert [] + [WireField(I64, 1, EncInt(8, m.id))] == [WireField(I64, 1, EncInt(8, m.id))];
    assert ws == VideoFields(m);
  }

  /** What is read into a message always fits: no length field can announce more. */
  lemma ReadVideoFits(p: Video, b: bytes)
    requires VideoFits(p)
    ensures VideoFits(ReadVideo(p, b).val)
  {
    forall q, t, id, c | VideoFits(q) ensures VideoFits(VideoSwitch(q, t, id, c).val) {
      ReadUserFits(NEW_USER, c);
    }
    ReadStructKeeps(VideoSwitch, VideoFits, p, b);
  }

  /** A written message, whatever follows it, is read back as its normal form from exactly the bytes
      written for it, precisely when every length in it can be announced in 31 bits. */
  lemma VideoRoundTrip(m: Option<Video>, x: bytes)
    ensures ReadVideo(NEW_VIDEO, EncVideo(m) + x) == Read(true, NormVideo(m), |EncVideo(m)|) <==> EncodableVideo(m)
  {
    VideoLocal();
    if EncodableVideo(m) {
      if m.Some? {
        TakeVideoFields(NEW_VIDEO, m.value);
      }
      ReadEncStruct(VideoSwitch, NEW_VIDEO, if m.None? then [] else VideoFields(m.value), x);
    } else {
      ReadVideoFits(NEW_VIDEO, EncVideo(m) + x);
    }
  }

  /** No strict prefix of a written message is accepted, whatever object it is read into. */
  lemma VideoPrefixRejected(p: Video, m: Option<Video>, k: nat)
    requires EncodableVideo(m) && k < |EncVideo(m)|
    ensures !ReadVideo(p, EncVideo(m)[..k]).ok
  {
    VideoLocal();
    if m.Some? {
      TakeVideoFields(p, m.value);
    }
    StrictPrefixRejected(VideoSwitch, p, if m.None? then [] else VideoFields(m.value), k);
  }

  /** The written fields may come in any order, with unknown or mistyped fields anywhere between. */
  lemma VideoShuffled(m: Video, ws: seq<WireField>, x: bytes)
    requires VideoFits(m) && DistinctKnown(VideoKnows, ws)
    requires forall w :: w in ws ==> WellFormed(VideoSwitch, VideoKnows, w)
    requires forall w: WireField :: VideoKnows(w.t, w.id) ==> (w in VideoFields(m) <==> w in ws)
    ensures ReadVideo(NEW_VIDEO, EncStruct(ws) + x) == Read(true, NormVideo(Some(m)), |EncStruct(ws)|)
  {
    VideoReader();
    TakeVideoFields(NEW_VIDEO, m);
    ReadShuffled(VideoSwitch, VideoKnows, VideoSlot, NEW_VIDEO, VideoFields(m), ws, x);
  }

  // ---------- as a field or an element of another message ----------

  function ReadNewVideo(b: bytes): (r: Read<Video>)
    ensures r.n <= |b|
  {
    ReadVideo(NEW_VIDEO, b)
  }

  lemma NewReaderVideo()
    ensures BoundedElem(ReadNewVideo) && LocalElem(ReadNewVideo)
  {
    VideoLocal();
    forall b, x | ReadNewVideo(b).ok ensures ReadNewVideo(b + x) == ReadNewVideo(b) {
      ReadStructLocal(VideoSwitch, NEW_VIDEO, b, x);
    }
  }

  lemma NewVideoRoundTrip(m: Option<Video>)
    requires EncodableVideo(m)
    ensures ReadNewVideo(EncVideo(m)) == Read(true, NormVideo(m), |EncVideo(m)|)
  {
    VideoRoundTrip(m, []);
    assert EncVideo(m) + [] == EncVideo(m);
  }

  /** A nil list is written as an empty one. */
  function ElemsVideo(l: Option<seq<Option<Video>>>): (r: seq<bytes>)
    ensures l.None? ==> r == []
    ensures l.Some? ==> |r| == |l.value| && forall i :: 0 <= i < |r| ==> r[i] == EncVideo(l.value[i])
  {
    if l.None? then [] else seq(|l.value|, i requires 0 <= i < |l.value| => EncVideo(l.value[i]))
  }

  function EncVideoList(l: Option<seq<Option<Video>>>): bytes { EncList(ElemsVideo(l)) }

  predicate EncodableVideoList(l: Option<seq<Option<Video>>>) {
    l.Some? ==> |l.value| < MAX_LENGTH && forall i :: 0 <= i < |l.value| ==> EncodableVideo(l.value[i])
  }

  function NormVideoList(l: Option<seq<Option<Video>>>): (r: seq<Video>)
    ensures l.None? ==> r == []
    ensures l.Some? ==> |r| == |l.value| && forall i :: 0 <= i < |r| ==> r[i] == NormVideo(l.value[i])
  {
    if l.None? then [] else seq(|l.value|, i requires 0 <= i < |l.value| => NormVideo(l.value[i]))
  }

  lemma VideoListRoundTrip(l: Option<seq<Option<Video>>>)
    requires EncodableVideoList(l)
    ensures ReadList(ReadNewVideo, EncVideoList(l)) == Read(true, NormVideoList(l), |EncVideoList(l)|)
  {
    NewReaderVideo();
    var es, vs := ElemsVideo(l), NormVideoList(l);
    forall i | 0 <= i < |es| ensures ReadNewVideo(es[i]) == Read(true, vs[i], |es[i]|) {
      NewVideoRoundTrip(l.value[i]);
    }
    ReadEncList(ReadNewVideo, es, vs, []);
    assert EncList(es) + [] == EncList(es);
  }

  lemma ReadVideoListFits(b: bytes)
    ensures EncodableVideoList(Some(AllSome(ReadList(ReadNewVideo, b).val)))
  {
    hide ReadList, ReadNewVideo, VideoFits;
    NewReaderVideo();
    forall c ensures VideoFits(ReadNewVideo(c).val) {
      ReadNewVideoFits(c);
    }
    ReadListKeeps(ReadNewVideo, VideoFits, b);
    var vs := ReadList(ReadNewVideo, b).val;
    forall i | 0 <= i < |vs| ensures VideoFits(vs[i]) {
      assert vs[i] in vs;
    }
  }

  lemma ReadNewVideoFits(b: bytes)
    ensures VideoFits(ReadNewVideo(b).val)
  {
    ReadVideoFits(NEW_VIDEO, b);
  }

  // ========== VideoFeedRequest ==========

  datatype VideoFeedRequest = VideoFeedRequest(
    latestTime: Option<bytes>,
    userId: i64
  )

  const NEW_VIDEO_FEED_REQUEST := VideoFeedRequest(None, 0)

  function VideoFeedRequestSwitch(p: VideoFeedRequest, t: byte, id: i16, b: bytes): (r: Read<VideoFeedRequest>)
    ensures r.n <= |b|
  {
    match id
    case 1 =>
      if t != STRING then SkipField(p, t, b)
      else var r := ReadString(b); Read(r.ok, if r.ok then p.(latestTime := Some(r.val)) else p, r.n)
    case 2 =>
      if t != I64 then SkipField(p, t, b)
      else var r := ReadI64(b); Read(r.ok, if r.ok then p.(userId := r.val) else p, r.n)
    case _ => SkipField(p, t, b)
  }

  predicate VideoFeedRequestKnows(t: byte, id: i16) {
    (t == STRING && id == 1) || (t == I64 && id == 2)
  }

  function ReadVideoFeedRequest(p: VideoFeedRequest, b: bytes): (r: Read<VideoFeedRequest>)
    ensures r.n <= |b|
  {
    ReadStruct(VideoFeedRequestSwitch, p, b)
  }

  /** The fields in the order in which they are written. */
  function VideoFeedRequestFields(m: VideoFeedRequest): seq<WireField> {
    [WireField(I64, 2, EncInt(8, m.userId))]
    + (if m.latestTime.None? then [] else [WireField(STRING, 1, EncString(m.latestTime.value))])
  }

  /** A nil pointer is written as a struct without fields. */
  function EncVideoFeedRequest(m: Option<VideoFeedRequest>): bytes {
    EncStruct(if m.None? then [] else VideoFeedRequestFields(m.value))
  }

  predicate VideoFeedRequestFits(m: VideoFeedRequest) {
    && (m.latestTime.Some? ==> |m.latestTime.value| < MAX_LENGTH)
  }

  predicate EncodableVideoFeedRequest(m: Option<VideoFeedRequest>) { m.Some? ==> VideoFeedRequestFits(m.value) }

  /** What a written message is read back as. */
  function NormVideoFeedRequest(m: Option<VideoFeedRequest>): VideoFeedRequest {
    if m.None? then NEW_VIDEO_FEED_REQUEST else m.value
  }

  /** The message with every field but one at its zero value. */
  function VideoFeedRequestSlot(p: VideoFeedRequest, id: i16): VideoFeedRequest {
    match id
    case 1 => NEW_VIDEO_FEED_REQUEST.(latestTime := p.latestTime)
    case 2 => NEW_VIDEO_FEED_REQUEST.(userId := p.userId)
    case _ => NEW_VIDEO_FEED_REQUEST
  }

  lemma VideoFeedRequestSlots(p: VideoFeedRequest, q: VideoFeedRequest)
    requires SameSlots(VideoFeedRequestSlot, p, q)
    ensures p == q
  {
    assert VideoFeedRequestSlot(p, 1) == VideoFeedRequestSlot(q, 1) &&
      VideoFeedRequestSlot(p, 2) == VideoFeedRequestSlot(q, 2);
  }

  lemma VideoFeedRequestLocal()
    ensures Bounded(VideoFeedRequestSwitch) && Local(VideoFeedRequestSwitch) && Clean(VideoFeedRequestSwitch)
  {
    hide ReadBool, ReadI32, ReadI64, ReadString, Skip;
    ReadersLocal();
  }

  /** The switch meets the laws of the field loop. */
  lemma VideoFeedRequestReader()
    ensures Bounded(VideoFeedRequestSwitch) && Local(VideoFeedRequestSwitch) &&
      Slotted(VideoFeedRequestSwitch, VideoFeedRequestKnows, VideoFeedRequestSlot)
  {
    VideoFeedRequestLocal();
    var f := VideoFeedRequestSwitch;
    forall p, t, id, b | !VideoFeedRequestKnows(t, id) ensures f(p, t, id, b) == SkipField(p, t, b) {
    }
    forall p, w: WireField, j | VideoFeedRequestKnows(w.t, w.id) && j != w.id
      ensures VideoFeedRequestSlot(Take(f, p, w), j) == VideoFeedRequestSlot(p, j) {
    }
    forall p, q, w: WireField | VideoFeedRequestKnows(w.t, w.id) && Accepts(f, w)
      ensures VideoFeedRequestSlot(Take(f, p, w), w.id) == VideoFeedRequestSlot(Take(f, q, w), w.id)
    {
    }
    forall p, q | SameSlots(VideoFeedRequestSlot, p, q) ensures p == q {
      VideoFeedRequestSlots(p, q);
    }
  }

  /** Taking the written fields fills in all but the optional fields that were not set. */
  lemma TakeVideoFeedRequestFields(p: VideoFeedRequest, m: VideoFeedRequest)
    requires VideoFeedRequestFits(m)
    ensures AcceptsAll(VideoFeedRequestSwitch, VideoFeedRequestFields(m))
    ensures TakeAll(VideoFeedRequestSwitch, p, VideoFeedRequestFields(m)) ==
      NormVideoFeedRequest(Some(m)).(
        latestTime := if m.latestTime.None? then p.latestTime else NormVideoFeedRequest(Some(m)).latestTime)
  {
    hide ReadI64, EncInt, ReadString, EncString, SkipField, AcceptsAll, TakeAll;
    ReadersExact();
    var f := VideoFeedRequestSwitch;
    var ws, q := StartTaking(f, p);
    ws, q := Grow(f, p, ws, q, WireField(I64, 2, EncInt(8, m.userId)), q.(userId := m.userId));
    if m.latestTime.Some? {
      ws, q := Grow(f, p, ws, q, WireField(STRING, 1, EncString(m.latestTime.value)), q.(latestTime := m.latestTime));
    } else {
      assert ws + [] == ws;
    }
    assert [] + [WireField(I64, 2, EncInt(8, m.userId))] == [WireField(I64, 2, EncInt(8, m.userId))];
    assert ws == VideoFeedRequestFields(m);
  }

  /** The size of the written message, added up in the order of the field ids. */
  lemma VideoFeedRequestSize(m: VideoFeedRequest)
    ensures |EncVideoFeedRequest(Some(m))| ==
      (if m.latestTime.None? then 0 else 3 + 4 + |m.latestTime.value|)
      + 3 + 8
      + 1
  {
    hide EncInt, EncString, EncBool;
    var ws: seq<WireField> := [];
    ws := AddSize(ws, WireField(I64, 2, EncInt(8, m.userId)));
    if m.latestTime.Some? {
      ws := AddSize(ws, WireField(STRING, 1, EncString(m.latestTime.value)));
    } else {
      assert ws + [] == ws;
    }
    assert [] + [WireField(I64, 2, EncInt(8, m.userId))] == [WireField(I64, 2, EncInt(8, m.userId))];
    assert ws == VideoFeedRequestFields(m);
  }

  /** What is read into a message always fits: no length field can announce more. */
  lemma ReadVideoFeedRequestFits(p: VideoFeedRequest, b: bytes)
    requires VideoFeedRequestFits(p)
    ensures VideoFeedRequestFits(ReadVideoFeedRequest(p, b).val)
  {
    ReadStructKeeps(VideoFeedRequestSwitch, VideoFeedRequestFits, p, b);
  }

  /** A written message, whatever follows it, is read back as its normal form from exactly the bytes
      written for it, precisely when every length in it can be announced in 31 bits. */
  lemma VideoFeedRequestRoundTrip(m: Option<VideoFeedRequest>, x: bytes)
    ensures EncodableVideoFeedRequest(m) <==>
      ReadVideoFeedRequest(NEW_VIDEO_FEED_REQUEST, EncVideoFeedRequest(m) + x) ==
        Read(true, NormVideoFeedRequest(m), |EncVideoFeedRequest(m)|)
  {
    VideoFeedRequestLocal();
    if EncodableVideoFeedRequest(m) {
      if m.Some? {
        TakeVideoFeedRequestFields(NEW_VIDEO_FEED_REQUEST, m.value);
      }
      ReadEncStruct(VideoFeedRequestSwitch, NEW_VIDEO_FEED_REQUEST,
        if m.None? then [] else VideoFeedRequestFields(m.value), x);
    } else {
      ReadVideoFeedRequestFits(NEW_VIDEO_FEED_REQUEST, EncVideoFeedRequest(m) + x);
    }
  }

  /** No strict prefix of a written message is accepted, whatever object it is read into. */
  lemma VideoFeedRequestPrefixRejected(p: VideoFeedRequest, m: Option<VideoFeedRequest>, k: nat)
    requires EncodableVideoFeedRequest(m) && k < |EncVideoFeedRequest(m)|
    ensures !ReadVideoFeedRequest(p, EncVideoFeedRequest(m)[..k]).ok
  {
    VideoFeedRequestLocal();
    if m.Some? {
      TakeVideoFeedRequestFields(p, m.value);
    }
    StrictPrefixRejected(VideoFeedRequestSwitch, p, if m.None? then [] else VideoFeedRequestFields(m.value), k);
  }

  /** The written fields may come in any order, with unknown or mistyped fields anywhere between. */
  lemma VideoFeedRequestShuffled(m: VideoFeedRequest, ws: seq<WireField>, x: bytes)
    requires VideoFeedRequestFits(m) && DistinctKnown(VideoFeedRequestKnows, ws)
    requires forall w :: w in ws ==> WellFormed(VideoFeedRequestSwitch, VideoFeedRequestKnows, w)
    requires forall w: WireField :: VideoFeedRequestKnows(w.t, w.id) ==> (w in VideoFeedRequestFields(m) <==> w in ws)
    ensures ReadVideoFeedRequest(NEW_VIDEO_FEED_REQUEST, EncStruct(ws) + x) ==
      Read(true, NormVideoFeedRequest(Some(m)), |EncStruct(ws)|)
  {
    VideoFeedRequestReader();
    TakeVideoFeedRequestFields(NEW_VIDEO_FEED_REQUEST, m);
    ReadShuffled(VideoFeedRequestSwitch, VideoFeedRequestKnows, VideoFeedRequestSlot, NEW_VIDEO_FEED_REQUEST,
      VideoFeedRequestFields(m), ws, x);
  }

  // ========== VideoFeedResponse ==========

  datatype VideoFeedResponse = VideoFeedResponse(
    statusCode: i32,
    statusMsg: bytes,
    videoList: Option<seq<Option<Video>>>,
    nextTime: i64
  )

  const NEW_VIDEO_FEED_RESPONSE := VideoFeedResponse(0, [], None, 0)

  function VideoFeedResponseSwitch(p: VideoFeedResponse, t: byte, id: i16, b: bytes): (r: Read<VideoFeedResponse>)
    ensures r.n <= |b|
  {
    match id
    case 1 =>
      if t != I32 then SkipField(p, t, b)
      else var r := ReadI32(b); Read(r.ok, if r.ok then p.(statusCode := r.val) else p, r.n)
    case 2 =>
      if t != STRING then SkipField(p, t, b)
      else var r := ReadString(b); Read(r.ok, if r.ok then p.(statusMsg := r.val) else p, r.n)
    case 3 =>
      if t != LIST then SkipField(p, t, b)
      else
        NewReaderVideo();
        var r := ReadList(ReadNewVideo, b);
        Read(r.ok, if r.ok then p.(videoList := Some(AllSome(r.val))) else p, r.n)
    case 4 =>
      if t != I64 then SkipField(p, t, b)
      else var r := ReadI64(b); Read(r.ok, if r.ok then p.(nextTime := r.val) else p, r.n)
    case _ => SkipField(p, t, b)
  }

  predicate VideoFeedResponseKnows(t: byte, id: i16) {
    (t == I32 && id == 1) || (t == STRING && id == 2) || (t == LIST && id == 3) || (t == I64 && id == 4)
  }

  function ReadVideoFeedResponse(p: VideoFeedResponse, b: bytes): (r: Read<VideoFeedResponse>)
    ensures r.n <= |b|
  {
    ReadStruct(VideoFeedResponseSwitch, p, b)
  }

  /** The fields in the order in which they are written. */
  function VideoFeedResponseFields(m: VideoFeedResponse): seq<WireField> {
    [WireField(I32, 1, EncInt(4, m.statusCode))]
    + [WireField(I64, 4, EncInt(8, m.nextTime))]
    + [WireField(STRING, 2, EncString(m.statusMsg))]
    + [WireField(LIST, 3, EncVideoList(m.videoList))]
  }

  /** A nil pointer is written as a struct without fields. */
  function EncVideoFeedResponse(m: Option<VideoFeedResponse>): bytes {
    EncStruct(if m.None? then [] else VideoFeedResponseFields(m.value))
  }

  predicate VideoFeedResponseFits(m: VideoFeedResponse) {
    && |m.statusMsg| < MAX_LENGTH
    && EncodableVideoList(m.videoList)
  }

  predicate EncodableVideoFeedResponse(m: Option<VideoFeedResponse>) { m.Some? ==> VideoFeedResponseFits(m.value) }

  /** What a written message is read back as. */
  function NormVideoFeedResponse(m: Option<VideoFeedResponse>): VideoFeedResponse {
    if m.None? then NEW_VIDEO_FEED_RESPONSE else
    var v := m.value;
    v.(videoList := Some(AllSome(NormVideoList(v.videoList))))
  }

  /** The message with every field but one at its zero value. */
  function VideoFeedResponseSlot(p: VideoFeedResponse, id: i16): VideoFeedResponse {
    match id
    case 1 => NEW_VIDEO_FEED_RESPONSE.(statusCode := p.statusCode)
    case 2 => NEW_VIDEO_FEED_RESPONSE.(statusMsg := p.statusMsg)
    case 3 => NEW_VIDEO_FEED_RESPONSE.(videoList := p.videoList)
    case 4 => NEW_VIDEO_FEED_RESPONSE.(nextTime := p.nextTime)
    case _ => NEW_VIDEO_FEED_RESPONSE
  }

  lemma VideoFeedResponseSlots(p: VideoFeedResponse, q: VideoFeedResponse)
    requires SameSlots(VideoFeedResponseSlot, p, q)
    ensures p == q
  {
    assert VideoFeedResponseSlot(p, 1) == VideoFeedResponseSlot(q, 1) &&
      VideoFeedResponseSlot(p, 2) == VideoFeedResponseSlot(q, 2) &&
      VideoFeedResponseSlot(p, 3) == VideoFeedResponseSlot(q, 3) &&
      VideoFeedResponseSlot(p, 4) == VideoFeedResponseSlot(q, 4);
  }

  lemma VideoFeedResponseLocal()
    ensures Bounded(VideoFeedResponseSwitch) && Local(VideoFeedResponseSwitch) && Clean(VideoFeedResponseSwitch)
  {
    hide ReadBool, ReadI32, ReadI64, ReadString, Skip, ReadNewVideo, ReadList;
    ReadersLocal();
    NewReaderVideo();
    forall b, x | ReadList(ReadNewVideo, b).ok ensures ReadList(ReadNewVideo, b + x) == ReadList(ReadNewVideo, b) {
      ReadListLocal(ReadNewVideo, b, x);
    }
  }

  /** The switch meets the laws of the field loop. */
  lemma VideoFeedResponseReader()
    ensures Bounded(VideoFeedResponseSwitch) && Local(VideoFeedResponseSwitch) &&
      Slotted(VideoFeedResponseSwitch, VideoFeedResponseKnows, VideoFeedResponseSlot)
  {
    VideoFeedResponseLocal();
    var f := VideoFeedResponseSwitch;
    forall p, t, id, b | !VideoFeedResponseKnows(t, id) ensures f(p, t, id, b) == SkipField(p, t, b) {
    }
    forall p, w: WireField, j | VideoFeedResponseKnows(w.t, w.id) && j != w.id
      ensures VideoFeedResponseSlot(Take(f, p, w), j) == VideoFeedResponseSlot(p, j) {
    }
    forall p, q, w: WireField | VideoFeedResponseKnows(w.t, w.id) && Accepts(f, w)
      ensures VideoFeedResponseSlot(Take(f, p, w), w.id) == VideoFeedResponseSlot(Take(f, q, w), w.id)
    {
    }
    forall p, q | SameSlots(VideoFeedResponseSlot, p, q) ensures p == q {
      VideoFeedResponseSlots(p, q);
    }
  }

  /** Taking the written fields in their written order fills in every one of them. */
  lemma TakeVideoFeedResponseFields(p: VideoFeedResponse, m: VideoFeedResponse)
    requires VideoFeedResponseFits(m)
    ensures AcceptsAll(VideoFeedResponseSwitch, VideoFeedResponseFields(m))
    ensures TakeAll(VideoFeedResponseSwitch, p, VideoFeedResponseFields(m)) == NormVideoFeedResponse(Some(m))
  {
    hide ReadI32, EncInt, ReadI64, ReadString, EncString, ReadList, EncVideoList, NormVideoList, SkipField,
      AcceptsAll, TakeAll;
    ReadersExact();
    VideoListRoundTrip(m.videoList);
    var f := VideoFeedResponseSwitch;
    var ws, q := StartTaking(f, p);
    ws, q := Grow(f, p, ws, q, WireField(I32, 1, EncInt(4, m.statusCode)), q.(statusCode := m.statusCode));
    ws, q := Grow(f, p, ws, q, WireField(I64, 4, EncInt(8, m.nextTime)), q.(nextTime := m.nextTime));
    ws, q := Grow(f, p, ws, q, WireField(STRING, 2, EncString(m.statusMsg)), q.(statusMsg := m.statusMsg));
    ws, q := Grow(f, p, ws, q, WireField(LIST, 3, EncVideoList(m.videoList)),
      q.(videoList := Some(AllSome(NormVideoList(m.videoList)))));
    assert [] + [WireField(I32, 1, EncInt(4, m.statusCode))] == [WireField(I32, 1, EncInt(4, m.statusCode))];
    assert ws == VideoFeedResponseFields(m);
  }

  /** The size of the written message, added up in the order of the field ids. */
  lemma VideoFeedResponseSize(m: VideoFeedResponse)
    ensures |EncVideoFeedResponse(Some(m))| ==
      3 + 4
      + 3 + 4 + |m.statusMsg|
      + 3 + |EncVideoList(m.videoList)|
      + 3 + 8
      + 1
  {
    hide EncInt, EncString, EncBool;
    var ws: seq<WireField> := [];
    ws := AddSize(ws, WireField(I32, 1, EncInt(4, m.statusCode)));
    ws := AddSize(ws, WireField(I64, 4, EncInt(8, m.nextTime)));
    ws := AddSize(ws, WireField(STRING, 2, EncString(m.statusMsg)));
    ws := AddSize(ws, WireField(LIST, 3, EncVideoList(m.videoList)));
    assert [] + [WireField(I32, 1, EncInt(4, m.statusCode))] == [WireField(I32, 1, EncInt(4, m.statusCode))];
    assert ws == VideoFeedResponseFields(m);
  }

  /** What is read into a message always fits: no length field can announce more. */
  lemma ReadVideoFeedResponseFits(p: VideoFeedResponse, b: bytes)
    requires VideoFeedResponseFits(p)
    ensures VideoFeedResponseFits(ReadVideoFeedResponse(p, b).val)
  {
    forall q, t, id, c | VideoFeedResponseFits(q)
      ensures VideoFeedResponseFits(VideoFeedResponseSwitch(q, t, id, c).val) {
      ReadVideoListFits(c);
    }
    ReadStructKeeps(VideoFeedResponseSwitch, VideoFeedResponseFits, p, b);
  }

  /** A written message, whatever follows it, is read back as its normal form from exactly the bytes
      written for it, precisely when every length in it can be announced in 31 bits. */
  lemma VideoFeedResponseRoundTrip(m: Option<VideoFeedResponse>, x: bytes)
    ensures EncodableVideoFeedResponse(m) <==>
      ReadVideoFeedResponse(NEW_VIDEO_FEED_RESPONSE, EncVideoFeedResponse(m) + x) ==
        Read(true, NormVideoFeedResponse(m), |EncVideoFeedResponse(m)|)
  {
    VideoFeedResponseLocal();
    if EncodableVideoFeedResponse(m) {
      if m.Some? {
        TakeVideoFeedResponseFields(NEW_VIDEO_FEED_RESPONSE, m.value);
      }
      ReadEncStruct(VideoFeedResponseSwitch, NEW_VIDEO_FEED_RESPONSE,
        if m.None? then [] else VideoFeedResponseFields(m.value), x);
    } else {
      ReadVideoFeedResponseFits(NEW_VIDEO_FEED_RESPONSE, EncVideoFeedResponse(m) + x);
    }
  }

  /** No strict prefix of a written message is accepted, whatever object it is read into. */
  lemma VideoFeedResponsePrefixRejected(p: VideoFeedResponse, m: Option<VideoFeedResponse>, k: nat)
    requires EncodableVideoFeedResponse(m) && k < |EncVideoFeedResponse(m)|
    ensures !ReadVideoFeedResponse(p, EncVideoFeedResponse(m)[..k]).ok
  {
    VideoFeedResponseLocal();
    if m.Some? {
      TakeVideoFeedResponseFields(p, m.value);
    }
    StrictPrefixRejected(VideoFeedResponseSwitch, p, if m.None? then [] else VideoFeedResponseFields(m.value), k);
  }

  /** The written fields may come in any order, with unknown or mistyped fields anywhere between. */
  lemma VideoFeedResponseShuffled(m: VideoFeedResponse, ws: seq<WireField>, x: bytes)
    requires VideoFeedResponseFits(m) && DistinctKnown(VideoFeedResponseKnows, ws)
    requires forall w :: w in ws ==> WellFormed(VideoFeedResponseSwitch, VideoFeedResponseKnows, w)
    requires forall w: WireField :: VideoFeedResponseKnows(w.t, w.id) ==> (w in VideoFeedResponseFields(m) <==> w in ws)
    ensures ReadVideoFeedResponse(NEW_VIDEO_FEED_RESPONSE, EncStruct(ws) + x) ==
      Read(true, NormVideoFeedResponse(Some(m)), |EncStruct(ws)|)
  {
    VideoFeedResponseReader();
    TakeVideoFeedResponseFields(NEW_VIDEO_FEED_RESPONSE, m);
    ReadShuffled(VideoFeedResponseSwitch, VideoFeedResponseKnows, VideoFeedResponseSlot, NEW_VIDEO_FEED_RESPONSE,
      VideoFeedResponseFields(m), ws, x);
  }
}
