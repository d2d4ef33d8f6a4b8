/**
 Messages of the comment package: a comment with its author, the action request with two optional fields, and
 the action response with an optional comment.
 A message is a value here; a nil pointer is None.
 */
module CommentCodec {
  import opened Wire
  import opened Wrappers
  import opened Fields
  import opened UserCodec

  // ========== Comment ==========

  datatype Comment = Comment(
    id: i64,
    user: Option<User>,
    content: bytes,
    createDate: bytes
  )

  const NEW_COMMENT := Comment(0, None, [], [])

  function CommentSwitch(p: Comment, t: byte, id: i16, b: bytes): (r: Read<Comment>)
    ensures r.n <= |b|
  {
    match id
    case 1 =>
      if t != I64 then SkipField(p, t, b)
      else var r := ReadI64(b); Read(r.ok, if r.ok then p.(id := r.val) else p, r.n)
    case 2 =>
      if t != STRUCT then SkipField(p, t, b)
      else var r := ReadNewUser(b); Read(r.ok, if r.ok then p.(user := Some(r.val)) else p, if r.ok then r.n else 0)
    case 3 =>
      if t != STRING then SkipField(p, t, b)
      else var r := ReadString(b); Read(r.ok, if r.ok then p.(content := r.val) else p, r.n)
    case 4 =>
      if t != STRING then SkipField(p, t, b)
      else var r := ReadString(b); Read(r.ok, if r.ok then p.(createDate := r.val) else p, r.n)
    case _ => SkipField(p, t, b)
  }

  predicate CommentKnows(t: byte, id: i16) {
    (t == I64 && id == 1) || (t == STRUCT && id == 2) || (t == STRING && id in {3, 4})
  }

  function ReadComment(p: Comment, b: bytes): (r: Read<Comment>)
    ensures r.n <= |b|
  {
    ReadStruct(CommentSwitch, p, b)
  }

  /** The fields in the order in which they are written. */
  function CommentFields(m: Comment): seq<WireField> {
    [WireField(I64, 1, EncInt(8, m.id))]
    + [WireField(STRUCT, 2, EncUser(m.user))]
    + [WireField(STRING, 3, EncString(m.content))]
    + [WireField(STRING, 4, EncString(m.createDate))]
  }

  /** A nil pointer is written as a struct without fields. */
  function EncComment(m: Option<Comment>): bytes {
    EncStruct(if m.None? then [] else CommentFields(m.value))
  }

  predicate CommentFits(m: Comment) {
    && EncodableUser(m.user)
    && |m.content| < MAX_LENGTH
    && |m.createDate| < MAX_LENGTH
  }

  predicate EncodableComment(m: Option<Comment>) { m.Some? ==> CommentFits(m.value) }

  /** What a written message is read back as. */
  function NormComment(m: Option<Comment>): Comment {
    if m.None? then NEW_COMMENT else
    var v := m.value;
    v.(user := Some(NormUser(v.user)))
  }

  /** The message with every field but one at its zero value. */
  function CommentSlot(p: Comment, id: i16): Comment {
    match id
    case 1 => NEW_COMMENT.(id := p.id)
    case 2 => NEW_COMMENT.(user := p.user)
    case 3 => NEW_COMMENT.(content := p.content)
    case 4 => NEW_COMMENT.(createDate := p.createDate)
    case _ => NEW_COMMENT
  }

  lemma CommentSlots(p: Comment, q: Comment)
    requires SameSlots(CommentSlot, p, q)
    ensures p == q
  {
    assert CommentSlot(p, 1) == CommentSlot(q, 1) && CommentSlot(p, 2) == CommentSlot(q, 2) &&
      CommentSlot(p, 3) == CommentSlot(q, 3) && CommentSlot(p, 4) == CommentSlot(q, 4);
  }

  lemma CommentLocal()
    ensures Bounded(CommentSwitch) && Local(CommentSwitch) && Clean(CommentSwitch)
  {
    hide ReadBool, ReadI32, ReadI64, ReadString, Skip, ReadNewUser;
    ReadersLocal();
    NewReaderUser();
  }

  /** The switch meets the laws of the field loop. */
  lemma CommentReader()
    ensures Bounded(CommentSwitch) && Local(CommentSwitch) && Slotted(CommentSwitch, CommentKnows, CommentSlot)
  {
    CommentLocal();
    var f := CommentSwitch;
    forall p, t, id, b | !CommentKnows(t, id) ensures f(p, t, id, b) == SkipField(p, t, b) {
    }
    forall p, w: WireField, j | CommentKnows(w.t, w.id) && j != w.id
      ensures CommentSlot(Take(f, p, w), j) == CommentSlot(p, j) {
    }
    forall p, q, w: WireField | CommentKnows(w.t, w.id) && Accepts(f, w)
      ensures CommentSlot(Take(f, p, w), w.id) == CommentSlot(Take(f, q, w), w.id)
    {
    }
    forall p, q | SameSlots(CommentSlot, p, q) ensures p == q {
      CommentSlots(p, q);
    }
  }

  /** Taking the written fields in their written order fills in every one of them. */
  lemma TakeCommentFields(p: Comment, m: Comment)
    requires CommentFits(m)
    ensures AcceptsAll(CommentSwitch, CommentFields(m))
    ensures TakeAll(CommentSwitch, p, CommentFields(m)) == NormComment(Some(m))
  {
    hide ReadI64, EncInt, ReadNewUser, EncUser, NormUser, ReadString, EncString, SkipField, AcceptsAll, TakeAll;
    ReadersExact();
    NewUserRoundTrip(m.user);
    var f := CommentSwitch;
    var ws, q := StartTaking(f, p);
    ws, q := Grow(f, p, ws, q, WireField(I64, 1, EncInt(8, m.id)), q.(id := m.id));
    ws, q := Grow(f, p, ws, q, WireField(STRUCT, 2, EncUser(m.user)), q.(user := Some(NormUser(m.user))));
    ws, q := Grow(f, p, ws, q, WireField(STRING, 3, EncString(m.content)), q.(content := m.content));
    ws, q := Grow(f, p, ws, q, WireField(STRING, 4, EncString(m.createDate)), q.(createDate := m.createDate));
    assert [] + [WireField(I64, 1, EncInt(8, m.id))] == [WireField(I64, 1, EncInt(8, m.id))];
    assert ws == CommentFields(m);
  }

  /** The size of the written message, added up in the order of the field ids. */
  lemma CommentSize(m: Comment)
    ensures |EncComment(Some(m))| ==
      3 + 8
      + 3 + |EncUser(m.user)|
      + 3 + 4 + |m.content|
      + 3 + 4 + |m.createDate|
      + 1
  {
    hide EncInt, EncString, EncBool;
    var ws: seq<WireField> := [];
    ws := AddSize(ws, WireField(I64, 1, EncInt(8, m.id)));
    ws := AddSize(ws, WireField(STRUCT, 2, EncUser(m.user)));
    ws := AddSize(ws, WireField(STRING, 3, EncString(m.content)));
    ws := AddSize(ws, WireField(STRING, 4, EncString(m.createDate)));
    assert [] + [WireField(I64, 1, EncInt(8, m.id))] == [WireField(I64, 1, EncInt(8, m.id))];
    assert ws == CommentFields(m);
  }

  /** What is read into a message always fits: no length field can announce more. */
  lemma ReadCommentFits(p: Comment, b: bytes)
    requires CommentFits(p)
    ensures CommentFits(ReadComment(p, b).val)
  {
    forall q, t, id, c | CommentFits(q) ensures CommentFits(CommentSwitch(q, t, id, c).val) {
      ReadUserFits(NEW_USER, c);
    }
    ReadStructKeeps(CommentSwitch, CommentFits, p, b);
  }

  /** A written message, whatever follows it, is read back as its normal form from exactly the bytes
      written for it, precisely when every length in it can be announced in 31 bits. */
  lemma CommentRoundTrip(m: Option<Comment>, x: bytes)
    ensures ReadComment(NEW_COMMENT, EncComment(m) + x) == Read(true, NormComment(m), |EncComment(m)|) <==>
      EncodableComment(m)
  {
    CommentLocal();
    if EncodableComment(m) {
      if m.Some? {
        TakeCommentFields(NEW_COMMENT, m.value);
      }
      ReadEncStruct(CommentSwitch, NEW_COMMENT, if m.None? then [] else CommentFields(m.value), x);
    } else {
      ReadCommentFits(NEW_COMMENT, EncComment(m) + x);
    }
  }

  /** No strict prefix of a written message is accepted, whatever object it is read into. */
  lemma CommentPrefixRejected(p: Comment, m: Option<Comment>, k: nat)
    requires EncodableComment(m) && k < |EncComment(m)|
    ensures !ReadComment(p, EncComment(m)[..k]).ok
  {
    CommentLocal();
    if m.Some? {
      TakeCommentFields(p, m.value);
    }
    StrictPrefixRejected(CommentSwitch, p, if m.None? then [] else CommentFields(m.value), k);
  }

  /** The written fields may come in any order, with unknown or mistyped fields anywhere between. */
  lemma CommentShuffled(m: Comment, ws: seq<WireField>, x: bytes)
    requires CommentFits(m) && DistinctKnown(CommentKnows, ws)
    requires forall w :: w in ws ==> WellFormed(CommentSwitch, CommentKnows, w)
    requires forall w: WireField :: CommentKnows(w.t, w.id) ==> (w in CommentFields(m) <==> w in ws)
    ensures ReadComment(NEW_COMMENT, EncStruct(ws) + x) == Read(true, NormComment(Some(m)), |EncStruct(ws)|)
  {
    CommentReader();
    TakeCommentFields(NEW_COMMENT, m);
    ReadShuffled(CommentSwitch, CommentKnows, CommentSlot, NEW_COMMENT, CommentFields(m), ws, x);
  }

  // ---------- as a field or an element of another message ----------

  function ReadNewComment(b: bytes): (r: Read<Comment>)
    ensures r.n <= |b|
  {
    ReadComment(NEW_COMMENT, b)
  }

  lemma NewReaderComment()
    ensures BoundedElem(ReadNewComment) && LocalElem(ReadNewComment)
  {
    CommentLocal();
    forall b, x | ReadNewComment(b).ok ensures ReadNewComment(b + x) == ReadNewComment(b) {
      ReadStructLocal(CommentSwitch, NEW_COMMENT, b, x);
    }
  }

  lemma NewCommentRoundTrip(m: Option<Comment>)
    requires EncodableComment(m)
    ensures ReadNewComment(EncComment(m)) == Read(true, NormComment(m), |EncComment(m)|)
  {
    CommentRoundTrip(m, []);
    assert EncComment(m) + [] == EncComment(m);
  }

  // ========== CommentActionRequest ==========

  datatype CommentActionRequest = CommentActionRequest(
    userId: i64,
    videoId: i64,
    actionType: i32,
    commentText: Option<bytes>,
    commentId: Option<i64>
  )

  const NEW_COMMENT_ACTION_REQUEST := CommentActionRequest(0, 0, 0, None, None)

  function CommentActionRequestSwitch(p: CommentActionRequest, t: byte, id: i16,
    b: bytes): (r: Read<CommentActionRequest>)
    ensures r.n <= |b|
  {
    match id
    case 1 =>
      if t != I64 then SkipField(p, t, b)
      else var r := ReadI64(b); Read(r.ok, if r.ok then p.(userId := r.val) else p, r.n)
    case 2 =>
      if t != I64 then SkipField(p, t, b)
      else var r := ReadI64(b); Read(r.ok, if r.ok then p.(videoId := r.val) else p, r.n)
    case 3 =>
      if t != I32 then SkipField(p, t, b)
      else var r := ReadI32(b); Read(r.ok, if r.ok then p.(actionType := r.val) else p, r.n)
    case 4 =>
      if t != STRING then SkipField(p, t, b)
      else var r := ReadString(b); Read(r.ok, if r.ok then p.(commentText := Some(r.val)) else p, r.n)
    case 5 =>
      if t != I64 then SkipField(p, t, b)
      else var r := ReadI64(b); Read(r.ok, if r.ok then p.(commentId := Some(r.val)) else p, r.n)
    case _ => SkipField(p, t, b)
  }

  predicate CommentActionRequestKnows(t: byte, id: i16) {
    (t == I64 && id in {1, 2, 5}) || (t == I32 && id == 3) || (t == STRING && id == 4)
  }

  function ReadCommentActionRequest(p: CommentActionRequest, b: bytes): (r: Read<CommentActionRequest>)
    ensures r.n <= |b|
  {
    ReadStruct(CommentActionRequestSwitch, p, b)
  }

  function CommentActionRequestIds(m: CommentActionRequest): seq<WireField> {
    [WireField(I64, 1, EncInt(8, m.userId))]
    + [WireField(I64, 2, EncInt(8, m.videoId))]
    + [WireField(I32, 3, EncInt(4, m.actionType))]
  }

  function CommentIdField(m: CommentActionRequest): Option<WireField> {
    if m.commentId.None? then None else Some(WireField(I64, 5, EncInt(8, m.commentId.value)))
  }

  function CommentTextField(m: CommentActionRequest): Option<WireField> {
    if m.commentText.None? then None else Some(WireField(STRING, 4, EncString(m.commentText.value)))
  }

  /** The fields in the order in which they are written: an optional one only if it is set. */
  function CommentActionRequestFields(m: CommentActionRequest): seq<WireField> {
    CommentActionRequestIds(m) + Present(CommentIdField(m)) + Present(CommentTextField(m))
  }

  /** A nil pointer is written as a struct without fields. */
  function EncCommentActionRequest(m: Option<CommentActionRequest>): bytes {
    EncStruct(if m.None? then [] else CommentActionRequestFields(m.value))
  }

  predicate CommentActionRequestFits(m: CommentActionRequest) {
    && (m.commentText.Some? ==> |m.commentText.value| < MAX_LENGTH)
  }

  predicate EncodableCommentActionRequest(m: Option<CommentActionRequest>) {
    m.Some? ==> CommentActionRequestFits(m.value)
  }

  /** What a written message is read back as. */
  function NormCommentActionRequest(m: Option<CommentActionRequest>): CommentActionRequest {
    if m.None? then NEW_COMMENT_ACTION_REQUEST else m.value
  }

  /** The message with every field but one at its zero value. */
  function CommentActionRequestSlot(p: CommentActionRequest, id: i16): CommentActionRequest {
    match id
    case 1 => NEW_COMMENT_ACTION_REQUEST.(userId := p.userId)
    case 2 => NEW_COMMENT_ACTION_REQUEST.(videoId := p.videoId)
    case 3 => NEW_COMMENT_ACTION_REQUEST.(actionType := p.actionType)
    case 4 => NEW_COMMENT_ACTION_REQUEST.(commentText := p.commentText)
    case 5 => NEW_COMMENT_ACTION_REQUEST.(commentId := p.commentId)
    case _ => NEW_COMMENT_ACTION_REQUEST
  }

  lemma CommentActionRequestSlots(p: CommentActionRequest, q: CommentActionRequest)
    requires SameSlots(CommentActionRequestSlot, p, q)
    ensures p == q
  {
    assert CommentActionRequestSlot(p, 1) == CommentActionRequestSlot(q, 1) &&
      CommentActionRequestSlot(p, 2) == CommentActionRequestSlot(q, 2) &&
      CommentActionRequestSlot(p, 3) == CommentActionRequestSlot(q, 3) &&
      CommentActionRequestSlot(p, 4) == CommentActionRequestSlot(q, 4) &&
      CommentActionRequestSlot(p, 5) == CommentActionRequestSlot(q, 5);
  }

  lemma CommentActionRequestLocal()
    ensures Bounded(CommentActionRequestSwitch) && Local(CommentActionRequestSwitch)
    ensures Clean(CommentActionRequestSwitch)
  {
    hide ReadBool, ReadI32, ReadI64, ReadString, Skip;
    ReadersLocal();
  }

  /** The switch meets the laws of the field loop. */
  lemma CommentActionRequestReader()
    ensures Bounded(CommentActionRequestSwitch) && Local(CommentActionRequestSwitch) &&
      Slotted(CommentActionRequestSwitch, CommentActionRequestKnows, CommentActionRequestSlot)
  {
    CommentActionRequestLocal();
    var f := CommentActionRequestSwitch;
    forall p, t, id, b | !CommentActionRequestKnows(t, id) ensures f(p, t, id, b) == SkipField(p, t, b) {
    }
    forall p, w: WireField, j | CommentActionRequestKnows(w.t, w.id) && j != w.id
      ensures CommentActionRequestSlot(Take(f, p, w), j) == CommentActionRequestSlot(p, j) {
    }
    forall p, q, w: WireField | CommentActionRequestKnows(w.t, w.id) && Accepts(f, w)
      ensures CommentActionRequestSlot(Take(f, p, w), w.id) == CommentActionRequestSlot(Take(f, q, w), w.id)
    {
    }
    forall p, q | SameSlots(CommentActionRequestSlot, p, q) ensures p == q {
      CommentActionRequestSlots(p, q);
    }
  }

  lemma TakeCommentActionRequestIds(p: CommentActionRequest, m: CommentActionRequest)
    ensures AcceptsAll(CommentActionRequestSwitch, CommentActionRequestIds(m))
    ensures TakeAll(CommentActionRequestSwitch, p, CommentActionRequestIds(m)) ==
      p.(userId := m.userId, videoId := m.videoId, actionType := m.actionType)
  {
    hide ReadI64, EncInt, ReadI32, SkipField, AcceptsAll, TakeAll;
    ReadersExact();
    var f := CommentActionRequestSwitch;
    var ws, q := StartTaking(f, p);
    ws, q := Grow(f, p, ws, q, WireField(I64, 1, EncInt(8, m.userId)), q.(userId := m.userId));
    ws, q := Grow(f, p, ws, q, WireField(I64, 2, EncInt(8, m.videoId)), q.(videoId := m.videoId));
    ws, q := Grow(f, p, ws, q, WireField(I32, 3, EncInt(4, m.actionType)), q.(actionType := m.actionType));
    assert [] + [WireField(I64, 1, EncInt(8, m.userId))] == [WireField(I64, 1, EncInt(8, m.userId))];
    assert ws == CommentActionRequestIds(m);
  }

  lemma CommentIdTaken(q: CommentActionRequest, m: CommentActionRequest)
    requires m.commentId.Some?
    ensures var w := CommentIdField(m).value;
      Accepts(CommentActionRequestSwitch, w) && Take(CommentActionRequestSwitch, q, w) == q.(commentId := m.commentId)
  {
    hide ReadI64, EncInt, SkipField;
    ReadersExact();
  }

  lemma CommentTextTaken(q: CommentActionRequest, m: CommentActionRequest)
    requires m.commentText.Some? && CommentActionRequestFits(m)
    ensures var w := CommentTextField(m).value;
      && Accepts(CommentActionRequestSwitch, w)
      && Take(CommentActionRequestSwitch, q, w) == q.(commentText := m.commentText)
  {
    hide ReadString, EncString, SkipField;
    ReadersExact();
  }

  /** Taking the written fields fills in all but the optional fields that were not set. */
  lemma TakeCommentActionRequestFields(p: CommentActionRequest, m: CommentActionRequest)
    requires CommentActionRequestFits(m)
    ensures AcceptsAll(CommentActionRequestSwitch, CommentActionRequestFields(m))
    ensures TakeAll(CommentActionRequestSwitch, p, CommentActionRequestFields(m)) ==
      NormCommentActionRequest(Some(m)).(
        commentText := if m.commentText.None? then p.commentText else NormCommentActionRequest(Some(m)).commentText,
        commentId := if m.commentId.None? then p.commentId else NormCommentActionRequest(Some(m)).commentId)
  {
    TakeCommentActionRequestIds(p, m);
    var q := p.(userId := m.userId, videoId := m.videoId, actionType := m.actionType);
    var id, text := CommentIdField(m), CommentTextField(m);
    if m.commentId.Some? { CommentIdTaken(q, m); }
    if m.commentText.Some? {
      CommentTextTaken(q.(commentId := if m.commentId.None? then p.commentId else m.commentId), m);
    }
    hide CommentActionRequestSwitch, CommentIdField, CommentTextField, Accepts, Take, TakeAll;
    var ws;
    ws, q := GrowOptional(CommentActionRequestSwitch, p, CommentActionRequestIds(m), q, id,
      q.(commentId := if m.commentId.None? then p.commentId else m.commentId));
    ws, q := GrowOptional(CommentActionRequestSwitch, p, ws, q, text,
      q.(commentText := if m.commentText.None? then p.commentText else m.commentText));
  }

  /** The size of the written message, added up in the order of the field ids. */
  lemma CommentActionRequestSize(m: CommentActionRequest)
    ensures |EncCommentActionRequest(Some(m))| ==
      3 + 8
      + 3 + 8
      + 3 + 4
      + (if m.commentText.None? then 0 else 3 + 4 + |m.commentText.value|)
      + (if m.commentId.None? then 0 else 3 + 8)
      + 1
  {
    hide EncInt, EncString, EncBool;
    var ws: seq<WireField> := [];
    ws := AddSize(ws, WireField(I64, 1, EncInt(8, m.userId)));
    ws := AddSize(ws, WireField(I64, 2, EncInt(8, m.videoId)));
    ws := AddSize(ws, WireField(I32, 3, EncInt(4, m.actionType)));
    if m.commentId.Some? {
      ws := AddSize(ws, WireField(I64, 5, EncInt(8, m.commentId.value)));
    } else {
      assert ws + [] == ws;
    }
    if m.commentText.Some? {
      ws := AddSize(ws, WireField(STRING, 4, EncString(m.commentText.value)));
    } else {
      assert ws + [] == ws;
    }
    assert [] + [WireField(I64, 1, EncInt(8, m.userId))] == [WireField(I64, 1, EncInt(8, m.userId))];
    assert ws == CommentActionRequestFields(m);
  }

  /** What is read into a message always fits: no length field can announce more. */
  lemma ReadCommentActionRequestFits(p: CommentActionRequest, b: bytes)
    requires CommentActionRequestFits(p)
    ensures CommentActionRequestFits(ReadCommentActionRequest(p, b).val)
  {
    ReadStructKeeps(CommentActionRequestSwitch, CommentActionRequestFits, p, b);
  }

  /** A written message, whatever follows it, is read back as its normal form from exactly the bytes
      written for it, precisely when every length in it can be announced in 31 bits. */
  lemma CommentActionRequestRoundTrip(m: Option<CommentActionRequest>, x: bytes)
    ensures EncodableCommentActionRequest(m) <==>
      ReadCommentActionRequest(NEW_COMMENT_ACTION_REQUEST, EncCommentActionRequest(m) + x) ==
        Read(true, NormCommentActionRequest(m), |EncCommentActionRequest(m)|)
  {
    CommentActionRequestLocal();
    if EncodableCommentActionRequest(m) {
      if m.Some? {
        TakeCommentActionRequestFields(NEW_COMMENT_ACTION_REQUEST, m.value);
      }
      ReadEncStruct(CommentActionRequestSwitch, NEW_COMMENT_ACTION_REQUEST,
        if m.None? then [] else CommentActionRequestFields(m.value), x);
    } else {
      ReadCommentActionRequestFits(NEW_COMMENT_ACTION_REQUEST, EncCommentActionRequest(m) + x);
    }
  }

  /** No strict prefix of a written message is accepted, whatever object it is read into. */
  lemma CommentActionRequestPrefixRejected(p: CommentActionRequest, m: Option<CommentActionRequest>, k: nat)
    requires EncodableCommentActionRequest(m) && k < |EncCommentActionRequest(m)|
    ensures !ReadCommentActionRequest(p, EncCommentActionRequest(m)[..k]).ok
  {
    CommentActionRequestLocal();
    if m.Some? {
      TakeCommentActionRequestFields(p, m.value);
    }
    StrictPrefixRejected(CommentActionRequestSwitch, p, if m.None? then [] else CommentActionRequestFields(m.value), k);
  }

  /** The written fields may come in any order, with unknown or mistyped fields anywhere between. */
  lemma CommentActionRequestShuffled(m: CommentActionRequest, ws: seq<WireField>, x: bytes)
    requires CommentActionRequestFits(m) && DistinctKnown(CommentActionRequestKnows, ws)
    requires forall w :: w in ws ==> WellFormed(CommentActionRequestSwitch, CommentActionRequestKnows, w)
    requires forall w: WireField :: CommentActionRequestKnows(w.t, w.id) ==>
      (w in CommentActionRequestFields(m) <==> w in ws)
    ensures ReadCommentActionRequest(NEW_COMMENT_ACTION_REQUEST, EncStruct(ws) + x) ==
      Read(true, NormCommentActionRequest(Some(m)), |EncStruct(ws)|)
  {
    CommentActionRequestReader();
    TakeCommentActionRequestFields(NEW_COMMENT_ACTION_REQUEST, m);
    ReadShuffled(CommentActionRequestSwitch, CommentActionRequestKnows, CommentActionRequestSlot,
      NEW_COMMENT_ACTION_REQUEST, CommentActionRequestFields(m), ws, x);
  }

  // ========== CommentActionResponse ==========

  datatype CommentActionResponse = CommentActionResponse(
    statusCode: i32,
    statusMsg: bytes,
    comment: Option<Comment>
  )

  const NEW_COMMENT_ACTION_RESPONSE := CommentActionResponse(0, [], None)

  function CommentActionResponseSwitch(p: CommentActionResponse, t: byte, id: i16,
    b: bytes): (r: Read<CommentActionResponse>)
    ensures r.n <= |b|
  {
    match id
    case 1 =>
      if t != I32 then SkipField(p, t, b)
      else var r := ReadI32(b); Read(r.ok, if r.ok then p.(statusCode := r.val) else p, r.n)
    case 2 =>
      if t != STRING then SkipField(p, t, b)
      else var r := ReadString(b); Read(r.ok, if r.ok then p.(statusMsg := r.val) else p, r.n)
    case 3 =>
      if t != STRUCT then SkipField(p, t, b)
      else
        var r := ReadNewComment(b);
        Read(r.ok, if r.ok then p.(comment := Some(r.val)) else p, if r.ok then r.n else 0)
    case _ => SkipField(p, t, b)
  }

  predicate CommentActionResponseKnows(t: byte, id: i16) {
    (t == I32 && id == 1) || (t == STRING && id == 2) || (t == STRUCT && id == 3)
  }

  function ReadCommentActionResponse(p: CommentActionResponse, b: bytes): (r: Read<CommentActionResponse>)
    ensures r.n <= |b|
  {
    ReadStruct(CommentActionResponseSwitch, p, b)
  }

  function CommentActionResponseStatus(m: CommentActionResponse): seq<WireField> {
    [WireField(I32, 1, EncInt(4, m.statusCode))] + [WireField(STRING, 2, EncString(m.statusMsg))]
  }

  function CommentField(m: CommentActionResponse): Option<WireField> {
    if m.comment.None? then None else Some(WireField(STRUCT, 3, EncComment(m.comment)))
  }

  /** The fields in the order in which they are written: the comment only if it is set. */
  function CommentActionResponseFields(m: CommentActionResponse): seq<WireField> {
    CommentActionResponseStatus(m) + Present(CommentField(m))
  }

  /** A nil pointer is written as a struct without fields. */
  function EncCommentActionResponse(m: Option<CommentActionResponse>): bytes {
    EncStruct(if m.None? then [] else CommentActionResponseFields(m.value))
  }

  predicate CommentActionResponseFits(m: CommentActionResponse) {
    && |m.statusMsg| < MAX_LENGTH
    && EncodableComment(m.comment)
  }

  predicate EncodableCommentActionResponse(m: Option<CommentActionResponse>) {
    m.Some? ==> CommentActionResponseFits(m.value)
  }

  /** What a written message is read back as. */
  function NormCommentActionResponse(m: Option<CommentActionResponse>): CommentActionResponse {
    if m.None? then NEW_COMMENT_ACTION_RESPONSE else
    var v := m.value;
    v.(comment := if v.comment.None? then None else Some(NormComment(v.comment)))
  }

  /** The message with every field but one at its zero value. */
  function CommentActionResponseSlot(p: CommentActionResponse, id: i16): CommentActionResponse {
    match id
    case 1 => NEW_COMMENT_ACTION_RESPONSE.(statusCode := p.statusCode)
    case 2 => NEW_COMMENT_ACTION_RESPONSE.(statusMsg := p.statusMsg)
    case 3 => NEW_COMMENT_ACTION_RESPONSE.(comment := p.comment)
    case _ => NEW_COMMENT_ACTION_RESPONSE
  }

  lemma CommentActionResponseSlots(p: CommentActionResponse, q: CommentActionResponse)
    requires SameSlots(CommentActionResponseSlot, p, q)
    ensures p == q
  {
    assert CommentActionResponseSlot(p, 1) == CommentActionResponseSlot(q, 1) &&
      CommentActionResponseSlot(p, 2) == CommentActionResponseSlot(q, 2) &&
      CommentActionResponseSlot(p, 3) == CommentActionResponseSlot(q, 3);
  }

  lemma CommentActionResponseLocal()
    ensures Bounded(CommentActionResponseSwitch) && Local(CommentActionResponseSwitch)
    ensures Clean(CommentActionResponseSwitch)
  {
    hide ReadBool, ReadI32, ReadI64, ReadString, Skip, ReadNewComment;
    ReadersLocal();
    NewReaderComment();
  }

  /** The switch meets the laws of the field loop. */
  lemma CommentActionResponseReader()
    ensures Bounded(CommentActionResponseSwitch) && Local(CommentActionResponseSwitch) &&
      Slotted(CommentActionResponseSwitch, CommentActionResponseKnows, CommentActionResponseSlot)
  {
    CommentActionResponseLocal();
    var f := CommentActionResponseSwitch;
    forall p, t, id, b | !CommentActionResponseKnows(t, id) ensures f(p, t, id, b) == SkipField(p, t, b) {
    }
    forall p, w: WireField, j | CommentActionResponseKnows(w.t, w.id) && j != w.id
      ensures CommentActionResponseSlot(Take(f, p, w), j) == CommentActionResponseSlot(p, j) {
    }
    forall p, q, w: WireField | CommentActionResponseKnows(w.t, w.id) && Accepts(f, w)
      ensures CommentActionResponseSlot(Take(f, p, w), w.id) == CommentActionResponseSlot(Take(f, q, w), w.id)
    {
    }
    forall p, q | SameSlots(CommentActionResponseSlot, p, q) ensures p == q {
      CommentActionResponseSlots(p, q);
    }
  }

  lemma TakeCommentActionResponseStatus(p: CommentActionResponse, m: CommentActionResponse)
    requires CommentActionResponseFits(m)
    ensures AcceptsAll(CommentActionResponseSwitch, CommentActionResponseStatus(m))
    ensures TakeAll(CommentActionResponseSwitch, p, CommentActionResponseStatus(m)) ==
      p.(statusCode := m.statusCode, statusMsg := m.statusMsg)
  {
    hide ReadI32, EncInt, ReadString, EncString, ReadNewComment, SkipField, EncodableComment, AcceptsAll, TakeAll;
    ReadersExact();
    var f := CommentActionResponseSwitch;
    var ws, q := StartTaking(f, p);
    ws, q := Grow(f, p, ws, q, WireField(I32, 1, EncInt(4, m.statusCode)), q.(statusCode := m.statusCode));
    ws, q := Grow(f, p, ws, q, WireField(STRING, 2, EncString(m.statusMsg)), q.(statusMsg := m.statusMsg));
    assert [] + [WireField(I32, 1, EncInt(4, m.statusCode))] == [WireField(I32, 1, EncInt(4, m.statusCode))];
    assert ws == CommentActionResponseStatus(m);
  }

  lemma CommentTaken(q: CommentActionResponse, m: CommentActionResponse)
    requires m.comment.Some? && EncodableComment(m.comment)
    ensures var w := CommentField(m).value;
      && Accepts(CommentActionResponseSwitch, w)
      && Take(CommentActionResponseSwitch, q, w) == q.(comment := Some(NormComment(m.comment)))
  {
    NewCommentRoundTrip(m.comment);
    hide ReadNewComment, EncComment, NormComment, SkipField, EncodableComment;
  }

  /** Taking the written fields fills in all but the optional fields that were not set. */
  lemma TakeCommentActionResponseFields(p: CommentActionResponse, m: CommentActionResponse)
    requires CommentActionResponseFits(m)
    ensures AcceptsAll(CommentActionResponseSwitch, CommentActionResponseFields(m))
    ensures TakeAll(CommentActionResponseSwitch, p, CommentActionResponseFields(m)) ==
      NormCommentActionResponse(Some(m)).(
        comment := if m.comment.None? then p.comment else NormCommentActionResponse(Some(m)).comment)
  {
    TakeCommentActionResponseStatus(p, m);
    var q := p.(statusCode := m.statusCode, statusMsg := m.statusMsg);
    if m.comment.Some? { CommentTaken(q, m); }
    hide CommentActionResponseSwitch, CommentActionResponseStatus, CommentField, Accepts, Take, TakeAll, NormComment;
    var ws;
    ws, q := GrowOptional(CommentActionResponseSwitch, p, CommentActionResponseStatus(m), q, CommentField(m),
      if m.comment.None? then q else q.(comment := Some(NormComment(m.comment))));
  }

  /** The size of the written message, added up in the order of the field ids. */
  lemma CommentActionResponseSize(m: CommentActionResponse)
    ensures |EncCommentActionResponse(Some(m))| ==
      3 + 4
      + 3 + 4 + |m.statusMsg|
      + (if m.comment.None? then 0 else 3 + |EncComment(m.comment)|)
      + 1
  {
    hide EncInt, EncString, EncBool;
    var ws: seq<WireField> := [];
    ws := AddSize(ws, WireField(I32, 1, EncInt(4, m.statusCode)));
    ws := AddSize(ws, WireField(STRING, 2, EncString(m.statusMsg)));
    if m.comment.Some? {
      ws := AddSize(ws, WireField(STRUCT, 3, EncComment(m.comment)));
    } else {
      assert ws + [] == ws;
    }
    assert [] + [WireField(I32, 1, EncInt(4, m.statusCode))] == [WireField(I32, 1, EncInt(4, m.statusCode))];
    assert ws == CommentActionResponseFields(m);
  }

  /** What is read into a message always fits: no length field can announce more. */
  lemma ReadCommentActionResponseFits(p: CommentActionResponse, b: bytes)
    requires CommentActionResponseFits(p)
    ensures CommentActionResponseFits(ReadCommentActionResponse(p, b).val)
  {
    forall q, t, id, c | CommentActionResponseFits(q)
      ensures CommentActionResponseFits(CommentActionResponseSwitch(q, t, id, c).val) {
      ReadCommentFits(NEW_COMMENT, c);
    }
    ReadStructKeeps(CommentActionResponseSwitch, CommentActionResponseFits, p, b);
  }

  /** A written message, whatever follows it, is read back as its normal form from exactly the bytes
      written for it, precisely when every length in it can be announced in 31 bits. */
  lemma CommentActionResponseRoundTrip(m: Option<CommentActionResponse>, x: bytes)
    ensures EncodableCommentActionResponse(m) <==>
      ReadCommentActionResponse(NEW_COMMENT_ACTION_RESPONSE, EncCommentActionResponse(m) + x) ==
        Read(true, NormCommentActionResponse(m), |EncCommentActionResponse(m)|)
  {
    CommentActionResponseLocal();
    if EncodableCommentActionResponse(m) {
      if m.Some? {
        TakeCommentActionResponseFields(NEW_COMMENT_ACTION_RESPONSE, m.value);
      }
      ReadEncStruct(CommentActionResponseSwitch, NEW_COMMENT_ACTION_RESPONSE,
        if m.None? then [] else CommentActionResponseFields(m.value), x);
    } else {
      ReadCommentActionResponseFits(NEW_COMMENT_ACTION_RESPONSE, EncCommentActionResponse(m) + x);
    }
  }

  /** No strict prefix of a written message is accepted, whatever object it is read into. */
  lemma CommentActionResponsePrefixRejected(p: CommentActionResponse, m: Option<CommentActionResponse>, k: nat)
    requires EncodableCommentActionResponse(m) && k < |EncCommentActionResponse(m)|
    ensures !ReadCommentActionResponse(p, EncCommentActionResponse(m)[..k]).ok
  {
    CommentActionResponseLocal();
    if m.Some? {
      TakeCommentActionResponseFields(p, m.value);
    }
    StrictPrefixRejected(CommentActionResponseSwitch, p,
      if m.None? then [] else CommentActionResponseFields(m.value), k);
  }

  /** The written fields may come in any order, with unknown or mistyped fields anywhere between. */
  lemma CommentActionResponseShuffled(m: CommentActionResponse, ws: seq<WireField>, x: bytes)
    requires CommentActionResponseFits(m) && DistinctKnown(CommentActionResponseKnows, ws)
    requires forall w :: w in ws ==> WellFormed(CommentActionResponseSwitch, CommentActionResponseKnows, w)
    requires forall w: WireField :: CommentActionResponseKnows(w.t, w.id) ==>
      (w in CommentActionResponseFields(m) <==> w in ws)
    ensures ReadCommentActionResponse(NEW_COMMENT_ACTION_RESPONSE, EncStruct(ws) + x) ==
      Read(true, NormCommentActionResponse(Some(m)), |EncStruct(ws)|)
  {
    CommentActionResponseReader();
    TakeCommentActionResponseFields(NEW_COMMENT_ACTION_RESPONSE, m);
    ReadShuffled(CommentActionResponseSwitch, CommentActionResponseKnows, CommentActionResponseSlot,
      NEW_COMMENT_ACTION_RESPONSE, CommentActionResponseFields(m), ws, x);
  }
}
