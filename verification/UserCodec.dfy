/**
 Messages of the user package: the profile that every other message nests.
 A message is a value here; a nil pointer is None.
 */
module UserCodec {
  import opened Wire
  import opened Wrappers
  import opened Fields

  // ========== User ==========

  datatype User = User(
    id: i64,
    name: bytes,
    followCount: i32,
    followerCount: i32,
    isFollow: bool,
    avatar: bytes,
    backgroundImage: bytes,
    signature: bytes,
    totalFavorited: bytes,
    workCount: i32,
    favoriteCount: i32
  )

  const NEW_USER := User(0, [], 0, 0, false, [], [], [], [], 0, 0)

  function UserSwitch(p: User, t: byte, id: i16, b: bytes): (r: Read<User>)
    ensures r.n <= |b|
  {
    match id
    case 1 =>
      if t != I64 then SkipField(p, t, b)
      else var r := ReadI64(b); Read(r.ok, if r.ok then p.(id := r.val) else p, r.n)
    case 2 =>
      if t != STRING then SkipField(p, t, b)
      else var r := ReadString(b); Read(r.ok, if r.ok then p.(name := r.val) else p, r.n)
    case 3 =>
      if t != I32 then SkipField(p, t, b)
      else var r := ReadI32(b); Read(r.ok, if r.ok then p.(followCount := r.val) else p, r.n)
    case 4 =>
      if t != I32 then SkipField(p, t, b)
      else var r := ReadI32(b); Read(r.ok, if r.ok then p.(followerCount := r.val) else p, r.n)
    case 5 =>
      if t != BOOL then SkipField(p, t, b)
      else var r := ReadBool(b); Read(r.ok, if r.ok then p.(isFollow := r.val) else p, r.n)
    case 6 =>
      if t != STRING then SkipField(p, t, b)
      else var r := ReadString(b); Read(r.ok, if r.ok then p.(avatar := r.val) else p, r.n)
    case 7 =>
      if t != STRING then SkipField(p, t, b)
      else var r := ReadString(b); Read(r.ok, if r.ok then p.(backgroundImage := r.val) else p, r.n)
    case 8 =>
      if t != STRING then SkipField(p, t, b)
      else var r := ReadString(b); Read(r.ok, if r.ok then p.(signature := r.val) else p, r.n)
    case 9 =>
      if t != STRING then SkipField(p, t, b)
      else var r := ReadString(b); Read(r.ok, if r.ok then p.(totalFavorited := r.val) else p, r.n)
    case 10 =>
      if t != I32 then SkipField(p, t, b)
      else var r := ReadI32(b); Read(r.ok, if r.ok then p.(workCount := r.val) else p, r.n)
    case 11 =>
      if t != I32 then SkipField(p, t, b)
      else var r := ReadI32(b); Read(r.ok, if r.ok then p.(favoriteCount := r.val) else p, r.n)
    case _ => SkipField(p, t, b)
  }

  predicate UserKnows(t: byte, id: i16) {
    (t == I64 && id == 1) || (t == STRING && id in {2, 6, 7, 8, 9}) || (t == I32 &&
      id in {3, 4, 10, 11}) || (t == BOOL && id == 5)
  }

  function ReadUser(p: User, b: bytes): (r: Read<User>)
    ensures r.n <= |b|
  {
    ReadStruct(UserSwitch, p, b)
  }

  function UserCountFields(m: User): seq<WireField> {
    [WireField(I64, 1, EncInt(8, m.id))]
    + [WireField(I32, 3, EncInt(4, m.followCount))]
    + [WireField(I32, 4, EncInt(4, m.followerCount))]
  }

  function UserFixedFields(m: User): seq<WireField> {
    UserCountFields(m)
    + [WireField(BOOL, 5, EncBool(m.isFollow))]
    + [WireField(I32, 10, EncInt(4, m.workCount))]
    + [WireField(I32, 11, EncInt(4, m.favoriteCount))]
  }

  /** The fields in the order in which they are written: those of a fixed size come first. */
  function UserFields(m: User): seq<WireField> {
    UserFixedFields(m)
    + [WireField(STRING, 2, EncString(m.name))]
    + [WireField(STRING, 6, EncString(m.avatar))]
    + [WireField(STRING, 7, EncString(m.backgroundImage))]
    + [WireField(STRING, 8, EncString(m.signature))]
    + [WireField(STRING, 9, EncString(m.totalFavorited))]
  }

  /** A nil pointer is written as a struct without fields. */
  function EncUser(m: Option<User>): bytes {
    EncStruct(if m.None? then [] else UserFields(m.value))
  }

  predicate UserFits(m: User) {
    && |m.name| < MAX_LENGTH
    && |m.avatar| < MAX_LENGTH
    && |m.backgroundImage| < MAX_LENGTH
    && |m.signature| < MAX_LENGTH
    && |m.totalFavorited| < MAX_LENGTH
  }

  predicate EncodableUser(m: Option<User>) { m.Some? ==> UserFits(m.value) }

  /** What a written message is read back as. */
  function NormUser(m: Option<User>): User { if m.None? then NEW_USER else m.value }

  /** The message with every field but one at its zero value. */
  function UserSlot(p: User, id: i16): User {
    match id
    case 1 => NEW_USER.(id := p.id)
    case 2 => NEW_USER.(name := p.name)
    case 3 => NEW_USER.(followCount := p.followCount)
    case 4 => NEW_USER.(followerCount := p.followerCount)
    case 5 => NEW_USER.(isFollow := p.isFollow)
    case 6 => NEW_USER.(avatar := p.avatar)
    case 7 => NEW_USER.(backgroundImage := p.backgroundImage)
    case 8 => NEW_USER.(signature := p.signature)
    case 9 => NEW_USER.(totalFavorited := p.totalFavorited)
    case 10 => NEW_USER.(workCount := p.workCount)
    case 11 => NEW_USER.(favoriteCount := p.favoriteCount)
    case _ => NEW_USER
  }

  lemma UserSlots(p: User, q: User)
    requires SameSlots(UserSlot, p, q)
    ensures p == q
  {
    assert UserSlot(p, 1) == UserSlot(q, 1) && UserSlot(p, 2) == UserSlot(q, 2) &&
      UserSlot(p, 3) == UserSlot(q, 3) && UserSlot(p, 4) == UserSlot(q, 4) && UserSlot(p, 5) == UserSlot(q, 5) &&
      UserSlot(p, 6) == UserSlot(q, 6) && UserSlot(p, 7) == UserSlot(q, 7) && UserSlot(p, 8) == UserSlot(q, 8) &&
      UserSlot(p, 9) == UserSlot(q, 9) && UserSlot(p, 10) == UserSlot(q, 10) && UserSlot(p, 11) == UserSlot(q, 11);
  }

  lemma UserLocal()
    ensures Bounded(UserSwitch) && Local(UserSwitch) && Clean(UserSwitch)
  {
    hide ReadBool, ReadI32, ReadI64, ReadString, Skip;
    ReadersLocal();
  }

  /** The switch meets the laws of the field loop. */
  lemma UserReader()
    ensures Bounded(UserSwitch) && Local(UserSwitch) && Slotted(UserSwitch, UserKnows, UserSlot)
  {
    hide ReadBool, ReadI32, ReadI64, ReadString, Skip, SkipField;
    UserLocal();
    var f := UserSwitch;
    forall p, t, id, b | !UserKnows(t, id) ensures f(p, t, id, b) == SkipField(p, t, b) {
    }
    forall p, w: WireField, j | UserKnows(w.t, w.id) && j != w.id ensures UserSlot(Take(f, p, w), j) == UserSlot(p, j) {
    }
    forall p, q, w: WireField | UserKnows(w.t, w.id) && Accepts(f, w)
      ensures UserSlot(Take(f, p, w), w.id) == UserSlot(Take(f, q, w), w.id)
    {
    }
    forall p, q | SameSlots(UserSlot, p, q) ensures p == q {
      UserSlots(p, q);
    }
  }

  lemma TakeUserCounts(p: User, m: User)
    ensures AcceptsAll(UserSwitch, UserCountFields(m))
    ensures TakeAll(UserSwitch, p, UserCountFields(m)) ==
      p.(id := m.id, followCount := m.followCount, followerCount := m.followerCount)
  {
    hide ReadI64, EncInt, ReadI32, SkipField, AcceptsAll, TakeAll;
    ReadersExact();
    var f := UserSwitch;
    var ws, q := StartTaking(f, p);
    ws, q := Grow(f, p, ws, q, WireField(I64, 1, EncInt(8, m.id)), q.(id := m.id));
    ws, q := Grow(f, p, ws, q, WireField(I32, 3, EncInt(4, m.followCount)), q.(followCount := m.followCount));
    ws, q := Grow(f, p, ws, q, WireField(I32, 4, EncInt(4, m.followerCount)), q.(followerCount := m.followerCount));
    assert [] + [WireField(I64, 1, EncInt(8, m.id))] == [WireField(I64, 1, EncInt(8, m.id))];
    assert ws == UserCountFields(m);
  }

  lemma TakeUserFixed(p: User, m: User)
    requires UserFits(m)
    ensures AcceptsAll(UserSwitch, UserFixedFields(m))
    ensures TakeAll(UserSwitch, p, UserFixedFields(m)) ==
      p.(id := m.id, followCount := m.followCount, followerCount := m.followerCount, isFollow := m.isFollow,
      workCount := m.workCount, favoriteCount := m.favoriteCount)
  {
    hide ReadI64, EncInt, ReadI32, ReadBool, EncBool, SkipField, UserCountFields, AcceptsAll, TakeAll;
    TakeUserCounts(p, m);
    ReadersExact();
    var f, ws, q := UserSwitch, UserCountFields(m),
      p.(id := m.id, followCount := m.followCount, followerCount := m.followerCount);
    ws, q := Grow(f, p, ws, q, WireField(BOOL, 5, EncBool(m.isFollow)), q.(isFollow := m.isFollow));
    ws, q := Grow(f, p, ws, q, WireField(I32, 10, EncInt(4, m.workCount)), q.(workCount := m.workCount));
    ws, q := Grow(f, p, ws, q, WireField(I32, 11, EncInt(4, m.favoriteCount)), q.(favoriteCount := m.favoriteCount));
    assert ws == UserFixedFields(m);
  }

  /** Taking the written fields in their written order fills in every one of them. */
  lemma TakeUserFields(p: User, m: User)
    requires UserFits(m)
    ensures AcceptsAll(UserSwitch, UserFields(m))
    ensures TakeAll(UserSwitch, p, UserFields(m)) == NormUser(Some(m))
  {
    hide ReadString, EncString, SkipField, AcceptsAll, TakeAll;
    TakeUserFixed(p, m);
    ReadersExact();
    var f, ws, q := UserSwitch, UserFixedFields(m),
      p.(id := m.id, followCount := m.followCount, followerCount := m.followerCount, isFollow := m.isFollow,
      workCount := m.workCount, favoriteCount := m.favoriteCount);
    ws, q := Grow(f, p, ws, q, WireField(STRING, 2, EncString(m.name)), q.(name := m.name));
    ws, q := Grow(f, p, ws, q, WireField(STRING, 6, EncString(m.avatar)), q.(avatar := m.avatar));
    ws, q := Grow(f, p, ws, q, WireField(STRING, 7, EncString(m.backgroundImage)),
      q.(backgroundImage := m.backgroundImage));
    ws, q := Grow(f, p, ws, q, WireField(STRING, 8, EncString(m.signature)), q.(signature := m.signature));
    ws, q := Grow(f, p, ws, q, WireField(STRING, 9, EncString(m.totalFavorited)),
      q.(totalFavorited := m.totalFavorited));
    assert ws == UserFields(m);
  }

  /** The size of the written message, added up in the order of the field ids. */
  lemma UserSize(m: User)
    ensures |EncUser(Some(m))| ==
      3 + 8
      + 3 + 4 + |m.name|
      + 3 + 4
      + 3 + 4
      + 3 + 1
      + 3 + 4 + |m.avatar|
      + 3 + 4 + |m.backgroundImage|
      + 3 + 4 + |m.signature|
      + 3 + 4 + |m.totalFavorited|
      + 3 + 4
      + 3 + 4
      + 1
  {
    hide EncInt, EncString, EncBool;
    var ws: seq<WireField> := [];
    ws := AddSize(ws, WireField(I64, 1, EncInt(8, m.id)));
    ws := AddSize(ws, WireField(I32, 3, EncInt(4, m.followCount)));
    ws := AddSize(ws, WireField(I32, 4, EncInt(4, m.followerCount)));
    ws := AddSize(ws, WireField(BOOL, 5, EncBool(m.isFollow)));
    ws := AddSize(ws, WireField(I32, 10, EncInt(4, m.workCount)));
    ws := AddSize(ws, WireField(I32, 11, EncInt(4, m.favoriteCount)));
    ws := AddSize(ws, WireField(STRING, 2, EncString(m.name)));
    ws := AddSize(ws, WireField(STRING, 6, EncString(m.avatar)));
    ws := AddSize(ws, WireField(STRING, 7, EncString(m.backgroundImage)));
    ws := AddSize(ws, WireField(STRING, 8, EncString(m.signature)));
    ws := AddSize(ws, WireField(STRING, 9, EncString(m.totalFavorited)));
    assert [] + [WireField(I64, 1, EncInt(8, m.id))] == [WireField(I64, 1, EncInt(8, m.id))];
    assert ws == UserFields(m);
  }

  /** What is read into a message always fits: no length field can announce more. */
  lemma ReadUserFits(p: User, b: bytes)
    requires UserFits(p)
    ensures UserFits(ReadUser(p, b).val)
  {
    ReadStructKeeps(UserSwitch, UserFits, p, b);
  }

  /** A written message, whatever follows it, is read back as its normal form from exactly the bytes
      written for it, precisely when every length in it can be announced in 31 bits. */
  lemma UserRoundTrip(m: Option<User>, x: bytes)
    ensures ReadUser(NEW_USER, EncUser(m) + x) == Read(true, NormUser(m), |EncUser(m)|) <==> EncodableUser(m)
  {
    UserLocal();
    if EncodableUser(m) {
      if m.Some? {
        TakeUserFields(NEW_USER, m.value);
      }
      ReadEncStruct(UserSwitch, NEW_USER, if m.None? then [] else UserFields(m.value), x);
    } else {
      ReadUserFits(NEW_USER, EncUser(m) + x);
    }
  }

  /** No strict prefix of a written message is accepted, whatever object it is read into. */
  lemma UserPrefixRejected(p: User, m: Option<User>, k: nat)
    requires EncodableUser(m) && k < |EncUser(m)|
    ensures !ReadUser(p, EncUser(m)[..k]).ok
  {
    UserLocal();
    if m.Some? {
      TakeUserFields(p, m.value);
    }
    StrictPrefixRejected(UserSwitch, p, if m.None? then [] else UserFields(m.value), k);
  }

  /** The written fields may come in any order, with unknown or mistyped fields anywhere between. */
  lemma UserShuffled(m: User, ws: seq<WireField>, x: bytes)
    requires UserFits(m) && DistinctKnown(UserKnows, ws)
    requires forall w :: w in ws ==> WellFormed(UserSwitch, UserKnows, w)
    requires forall w: WireField :: UserKnows(w.t, w.id) ==> (w in UserFields(m) <==> w in ws)
    ensures ReadUser(NEW_USER, EncStruct(ws) + x) == Read(true, NormUser(Some(m)), |EncStruct(ws)|)
  {
    UserReader();
    TakeUserFields(NEW_USER, m);
    ReadShuffled(UserSwitch, UserKnows, UserSlot, NEW_USER, UserFields(m), ws, x);
  }

  // ---------- as a field or an element of another message ----------

  function ReadNewUser(b: bytes): (r: Read<User>)
    ensures r.n <= |b|
  {
    ReadUser(NEW_USER, b)
  }

  lemma NewReaderUser()
    ensures BoundedElem(ReadNewUser) && LocalElem(ReadNewUser)
  {
    UserLocal();
    forall b, x | ReadNewUser(b).ok ensures ReadNewUser(b + x) == ReadNewUser(b) {
      ReadStructLocal(UserSwitch, NEW_USER, b, x);
    }
  }

  lemma NewUserRoundTrip(m: Option<User>)
    requires EncodableUser(m)
    ensures ReadNewUser(EncUser(m)) == Read(true, NormUser(m), |EncUser(m)|)
  {
    UserRoundTrip(m, []);
    assert EncUser(m) + [] == EncUser(m);
  }
}
