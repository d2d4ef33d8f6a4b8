/**
 Messages of the favorite package: a list of videos, each holding its author.
 A message is a value here; a nil pointer is None.
 */
module FavoriteCodec {
  import opened Wire
  import opened Wrappers
  import opened Fields
  import opened VideoCodec

  // ========== FavoriteListResponse ==========

  datatype FavoriteListResponse = FavoriteListResponse(
    statusCode: i32,
    statusMsg: bytes,
    videoList: Option<seq<Option<Video>>>
  )

  const NEW_FAVORITE_LIST_RESPONSE := FavoriteListResponse(0, [], None)

  function FavoriteListResponseSwitch(p: FavoriteListResponse, t: byte, id: i16,
    b: bytes): (r: Read<FavoriteListResponse>)
    ensures r.n <= |b|
  {
    match id
    case 1 =>
      if t != I32 then SkipField(p, t, b)
      else var r := ReadI32(b); Read(r.ok, if r.ok then p.(statusCode := r.val) else p, r.n)
    case 2 =>
      if t != STRING then SkipField(p, t, b)
      else var r := ReadString(b); Read(r.ok, if r.ok then p.(statusMsg := r.val) else p, r.n)
    case 3 =>
      if t != LIST then SkipField(p, t, b)
      else
        NewReaderVideo();
        var r := ReadList(ReadNewVideo, b);
        Read(r.ok, if r.ok then p.(videoList := Some(AllSome(r.val))) else p, r.n)
    case _ => SkipField(p, t, b)
  }

  predicate FavoriteListResponseKnows(t: byte, id: i16) {
    (t == I32 && id == 1) || (t == STRING && id == 2) || (t == LIST && id == 3)
  }

  function ReadFavoriteListResponse(p: FavoriteListResponse, b: bytes): (r: Read<FavoriteListResponse>)
    ensures r.n <= |b|
  {
    ReadStruct(FavoriteListResponseSwitch, p, b)
  }

  /** The fields in the order in which they are written. */
  function FavoriteListResponseFields(m: FavoriteListResponse): seq<WireField> {
    [WireField(I32, 1, EncInt(4, m.statusCode))]
    + [WireField(STRING, 2, EncString(m.statusMsg))]
    + [WireField(LIST, 3, EncVideoList(m.videoList))]
  }

  /** A nil pointer is written as a struct without fields. */
  function EncFavoriteListResponse(m: Option<FavoriteListResponse>): bytes {
    EncStruct(if m.None? then [] else FavoriteListResponseFields(m.value))
  }

  predicate FavoriteListResponseFits(m: FavoriteListResponse) {
    && |m.statusMsg| < MAX_LENGTH
    && EncodableVideoList(m.videoList)
  }

  predicate EncodableFavoriteListResponse(m: Option<FavoriteListResponse>) {
    m.Some? ==> FavoriteListResponseFits(m.value)
  }

  /** What a written message is read back as. */
  function NormFavoriteListResponse(m: Option<FavoriteListResponse>): FavoriteListResponse {
    if m.None? then NEW_FAVORITE_LIST_RESPONSE else
    var v := m.value;
    v.(videoList := Some(AllSome(NormVideoList(v.videoList))))
  }

  /** The message with every field but one at its zero value. */
  function FavoriteListResponseSlot(p: FavoriteListResponse, id: i16): FavoriteListResponse {
    match id
    case 1 => NEW_FAVORITE_LIST_RESPONSE.(statusCode := p.statusCode)
    case 2 => NEW_FAVORITE_LIST_RESPONSE.(statusMsg := p.statusMsg)
    case 3 => NEW_FAVORITE_LIST_RESPONSE.(videoList := p.videoList)
    case _ => NEW_FAVORITE_LIST_RESPONSE
  }

  lemma FavoriteListResponseSlots(p: FavoriteListResponse, q: FavoriteListResponse)
    requires SameSlots(FavoriteListResponseSlot, p, q)
    ensures p == q
  {
    assert FavoriteListResponseSlot(p, 1) == FavoriteListResponseSlot(q, 1) &&
      FavoriteListResponseSlot(p, 2) == FavoriteListResponseSlot(q, 2) &&
      FavoriteListResponseSlot(p, 3) == FavoriteListResponseSlot(q, 3);
  }

  lemma FavoriteListResponseLocal()
    ensures Bounded(FavoriteListResponseSwitch) && Local(FavoriteListResponseSwitch)
    ensures Clean(FavoriteListResponseSwitch)
  {
    hide ReadBool, ReadI32, ReadI64, ReadString, Skip, ReadNewVideo, ReadList;
    ReadersLocal();
    NewReaderVideo();
    forall b, x | ReadList(ReadNewVideo, b).ok ensures ReadList(ReadNewVideo, b + x) == ReadList(ReadNewVideo, b) {
      ReadListLocal(ReadNewVideo, b, x);
    }
  }

  /** The switch meets the laws of the field loop. */
  lemma FavoriteListResponseReader()
    ensures Bounded(FavoriteListResponseSwitch) && Local(FavoriteListResponseSwitch) &&
      Slotted(FavoriteListResponseSwitch, FavoriteListResponseKnows, FavoriteListResponseSlot)
  {
    FavoriteListResponseLocal();
    var f := FavoriteListResponseSwitch;
    forall p, t, id, b | !FavoriteListResponseKnows(t, id) ensures f(p, t, id, b) == SkipField(p, t, b) {
    }
    forall p, w: WireField, j | FavoriteListResponseKnows(w.t, w.id) && j != w.id
      ensures FavoriteListResponseSlot(Take(f, p, w), j) == FavoriteListResponseSlot(p, j) {
    }
    forall p, q, w: WireField | FavoriteListResponseKnows(w.t, w.id) && Accepts(f, w)
      ensures FavoriteListResponseSlot(Take(f, p, w), w.id) == FavoriteListResponseSlot(Take(f, q, w), w.id)
    {
    }
    forall p, q | SameSlots(FavoriteListResponseSlot, p, q) ensures p == q {
      FavoriteListResponseSlots(p, q);
    }
  }

  /** Taking the written fields in their written order fills in every one of them. */
  lemma TakeFavoriteListResponseFields(p: FavoriteListResponse, m: FavoriteListResponse)
    requires FavoriteListResponseFits(m)
    ensures AcceptsAll(FavoriteListResponseSwitch, FavoriteListResponseFields(m))
    ensures TakeAll(FavoriteListResponseSwitch, p, FavoriteListResponseFields(m)) == NormFavoriteListResponse(Some(m))
  {
    hide ReadI32, EncInt, ReadString, EncString, ReadList, EncVideoList, NormVideoList, SkipField, AcceptsAll, TakeAll;
    ReadersExact();
    VideoListRoundTrip(m.videoList);
    var f := FavoriteListResponseSwitch;
    var ws, q := StartTaking(f, p);
    ws, q := Grow(f, p, ws, q, WireField(I32, 1, EncInt(4, m.statusCode)), q.(statusCode := m.statusCode));
    ws, q := Grow(f, p, ws, q, WireField(STRING, 2, EncString(m.statusMsg)), q.(statusMsg := m.statusMsg));
    ws, q := Grow(f, p, ws, q, WireField(LIST, 3, EncVideoList(m.videoList)),
      q.(videoList := Some(AllSome(NormVideoList(m.videoList)))));
    assert [] + [WireField(I32, 1, EncInt(4, m.statusCode))] == [WireField(I32, 1, EncInt(4, m.statusCode))];
    assert ws == FavoriteListResponseFields(m);
  }

  /** The size of the written message, added up in the order of the field ids. */
  lemma FavoriteListResponseSize(m: FavoriteListResponse)
    ensures |EncFavoriteListResponse(Some(m))| ==
      3 + 4
      + 3 + 4 + |m.statusMsg|
      + 3 + |EncVideoList(m.videoList)|
      + 1
  {
    hide EncInt, EncString, EncBool;
    var ws: seq<WireField> := [];
    ws := AddSize(ws, WireField(I32, 1, EncInt(4, m.statusCode)));
    ws := AddSize(ws, WireField(STRING, 2, EncString(m.statusMsg)));
    ws := AddSize(ws, WireField(LIST, 3, EncVideoList(m.videoList)));
    assert [] + [WireField(I32, 1, EncInt(4, m.statusCode))] == [WireField(I32, 1, EncInt(4, m.statusCode))];
    assert ws == FavoriteListResponseFields(m);
  }

  /** What is read into a message always fits: no length field can announce more. */
  lemma ReadFavoriteListResponseFits(p: FavoriteListResponse, b: bytes)
    requires FavoriteListResponseFits(p)
    ensures FavoriteListResponseFits(ReadFavoriteListResponse(p, b).val)
  {
    forall q, t, id, c | FavoriteListResponseFits(q)
      ensures FavoriteListResponseFits(FavoriteListResponseSwitch(q, t, id, c).val) {
      ReadVideoListFits(c);
    }
    ReadStructKeeps(FavoriteListResponseSwitch, FavoriteListResponseFits, p, b);
  }

  /** A written message, whatever follows it, is read back as its normal form from exactly the bytes
      written for it, precisely when every length in it can be announced in 31 bits. */
  lemma FavoriteListResponseRoundTrip(m: Option<FavoriteListResponse>, x: bytes)
    ensures EncodableFavoriteListResponse(m) <==>
      ReadFavoriteListResponse(NEW_FAVORITE_LIST_RESPONSE, EncFavoriteListResponse(m) + x) ==
        Read(true, NormFavoriteListResponse(m), |EncFavoriteListResponse(m)|)
  {
    FavoriteListResponseLocal();
    if EncodableFavoriteListResponse(m) {
      if m.Some? {
        TakeFavoriteListResponseFields(NEW_FAVORITE_LIST_RESPONSE, m.value);
      }
      ReadEncStruct(FavoriteListResponseSwitch, NEW_FAVORITE_LIST_RESPONSE,
        if m.None? then [] else FavoriteListResponseFields(m.value), x);
    } else {
      ReadFavoriteListResponseFits(NEW_FAVORITE_LIST_RESPONSE, EncFavoriteListResponse(m) + x);
    }
  }

  /** No strict prefix of a written message is accepted, whatever object it is read into. */
  lemma FavoriteListResponsePrefixRejected(p: FavoriteListResponse, m: Option<FavoriteListResponse>, k: nat)
    requires EncodableFavoriteListResponse(m) && k < |EncFavoriteListResponse(m)|
    ensures !ReadFavoriteListResponse(p, EncFavoriteListResponse(m)[..k]).ok
  {
    FavoriteListResponseLocal();
    if m.Some? {
      TakeFavoriteListResponseFields(p, m.value);
    }
    StrictPrefixRejected(FavoriteListResponseSwitch, p, if m.None? then [] else FavoriteListResponseFields(m.value), k);
  }

  /** The written fields may come in any order, with unknown or mistyped fields anywhere between. */
  lemma FavoriteListResponseShuffled(m: FavoriteListResponse, ws: seq<WireField>, x: bytes)
    requires FavoriteListResponseFits(m) && DistinctKnown(FavoriteListResponseKnows, ws)
    requires forall w :: w in ws ==> WellFormed(FavoriteListResponseSwitch, FavoriteListResponseKnows, w)
    requires forall w: WireField :: FavoriteListResponseKnows(w.t, w.id) ==>
      (w in FavoriteListResponseFields(m) <==> w in ws)
    ensures ReadFavoriteListResponse(NEW_FAVORITE_LIST_RESPONSE, EncStruct(ws) + x) ==
      Read(true, NormFavoriteListResponse(Some(m)), |EncStruct(ws)|)
  {
    FavoriteListResponseReader();
    TakeFavoriteListResponseFields(NEW_FAVORITE_LIST_RESPONSE, m);
    ReadShuffled(FavoriteListResponseSwitch, FavoriteListResponseKnows, FavoriteListResponseSlot,
      NEW_FAVORITE_LIST_RESPONSE, FavoriteListResponseFields(m), ws, x);
  }
}
