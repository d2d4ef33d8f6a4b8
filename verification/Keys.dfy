/**
 Redis key strings: segments joined by a colon, ids printed in decimal.  Every key the services build is
 a value of Key; Render is its string, and ParseKey shows that no two keys share one.
 */
module Keys {
  import opened Wrappers

  type id64 = n: nat | n < 0x1_0000_0000_0000_0000

  // ---------- decimal ids ----------

  function Digit(d: nat): char
    requires d < 10
  {
    '0' + d as char
  }

  function Dec(n: nat): (s: string)
    ensures |s| > 0 && forall i :: 0 <= i < |s| ==> '0' <= s[i] <= '9'
  {
    if n < 10 then [Digit(n)] else Dec(n / 10) + [Digit(n % 10)]
  }

  function Digits(s: string): Option<nat> {
    if s == [] then Some(0)
    else
      var c, hi := s[|s| - 1], Digits(s[..|s| - 1]);
      if hi.None? || c < '0' || c > '9' then None else Some(hi.value * 10 + (c - '0') as nat)
  }

  predicate AllDigits(s: string) { forall i :: 0 <= i < |s| ==> '0' <= s[i] <= '9' }

  function Power10(k: nat): nat { if k == 0 then 1 else 10 * Power10(k - 1) }

  /** The number that the digits stand for by their places. */
  function PlaceValue(s: string): nat
    requires AllDigits(s)
  {
    if s == [] then 0 else (s[0] - '0') as nat * Power10(|s| - 1) + PlaceValue(s[1..])
  }

  lemma TimesTen(d: nat, w: nat)
    ensures d * (10 * w) == d * w * 10
  {
  }

  lemma {:induction false} PlaceValueSnoc(s: string, c: char)
    requires AllDigits(s) && '0' <= c <= '9'
    ensures AllDigits(s + [c]) && PlaceValue(s + [c]) == PlaceValue(s) * 10 + (c - '0') as nat
  {
    if s != [] {
      PlaceValueSnoc(s[1..], c);
      var t, d := s + [c], (s[0] - '0') as nat;
      assert t[1..] == s[1..] + [c] && t[0] == s[0] && AllDigits(t);
      assert PlaceValue(t) == d * Power10(|s|) + PlaceValue(t[1..]);
      TimesTen(d, Power10(|s| - 1));
    }
  }

  /** Text is a number exactly if it is all digits, and then the one that they stand for, leading zeros or not. */
  lemma {:induction false} DigitsMeaning(s: string)
    ensures Digits(s) == if AllDigits(s) then Some(PlaceValue(s)) else None
  {
    if s != [] {
      var hi, c := s[..|s| - 1], s[|s| - 1];
      assert s == hi + [c];
      DigitsMeaning(hi);
      if AllDigits(hi) && '0' <= c <= '9' {
        PlaceValueSnoc(hi, c);
      }
    }
  }

  /** strconv.ParseUint in base 10 with 64 bits. */
  function ParseUint(s: string): Option<id64> {
    var v := Digits(s);
    if s == [] || v.None? || v.value >= 0x1_0000_0000_0000_0000 then None else Some(v.value)
  }

  /** An id is any digits that stand for a number of 64 bits, and nothing else is. */
  lemma ParseUintMeaning(s: string)
    ensures ParseUint(s) ==
      if s != "" && AllDigits(s) && PlaceValue(s) < 0x1_0000_0000_0000_0000 then Some(PlaceValue(s)) else None
  {
    DigitsMeaning(s);
  }

  lemma {:induction false} DigitsOfDec(n: nat)
    ensures Digits(Dec(n)) == Some(n)
  {
    if n < 10 {
      assert Dec(n)[..0] == [];
    } else {
      DigitsOfDec(n / 10);
      assert Dec(n)[..|Dec(n)| - 1] == Dec(n / 10);
    }
  }

  /** Printing then parsing an id is the identity. */
  lemma PrintedId(n: id64)
    ensures ParseUint(Dec(n)) == Some(n)
  {
    DigitsOfDec(n);
  }

  /** What parses is the printed id up to leading zeros. */
  lemma {:induction false} ParsedText(s: string)
    requires s != [] && Digits(s).Some? && (s[0] != '0' || |s| == 1)
    ensures s == Dec(Digits(s).value)
  {
    var hi := s[..|s| - 1];
    assert s == hi + [s[|s| - 1]];
    hide ParseUint;
    if hi != [] {
      ParsedText(hi);
    }
  }

  function Parsed(members: seq<string>): seq<id64> {
    if members == [] then []
    else
      var n := ParseUint(members[|members| - 1]);
      Parsed(members[..|members| - 1]) + (if n.Some? then [n.value] else [])
  }

  /** Each member that is an id counts, wherever it stands and whatever stands around it. */
  lemma {:induction false} ParsedAppend(a: seq<string>, m: string, b: seq<string>)
    ensures Parsed(a + [m] + b) == Parsed(a) + (if ParseUint(m).Some? then [ParseUint(m).value] else []) + Parsed(b)
  {
    var all := a + [m] + b;
    if b == [] {
      assert all == a + [m] && all[..|all| - 1] == a;
    } else {
      var k := |b| - 1;
      ParsedAppend(a, m, b[..k]);
      assert all[..|all| - 1] == a + [m] + b[..k];
    }
  }

  /** The members that are ids, in order; anything else is dropped. */
  method ParseUintMembers(members: seq<string>) returns (out: seq<id64>)
    ensures out == Parsed(members)
  {
    out := [];
    for i := 0 to |members|
      invariant out == Parsed(members[..i])
    {
      assert members[..i + 1][..i] == members[..i];
      var n := ParseUint(members[i]);
      if n.Some? {
        out := out + [n.value];
      }
    }
    assert members[..|members|] == members;
  }

  function Printed(ids: seq<id64>): (r: seq<string>)
    ensures |r| == |ids| && forall i :: 0 <= i < |ids| ==> r[i] == Dec(ids[i])
  {
    seq(|ids|, i requires 0 <= i < |ids| => Dec(ids[i]))
  }

  lemma {:induction false} PrintedMembers(ids: seq<id64>)
    ensures Parsed(Printed(ids)) == ids
  {
    if ids != [] {
      var k := |ids| - 1;
      PrintedMembers(ids[..k]);
      assert Printed(ids)[..k] == Printed(ids[..k]);
      PrintedId(ids[k]);
      assert ids == ids[..k] + [ids[k]];
    }
  }

  // ---------- segments ----------

  /** Other stands for an argument of any other type, which is printed as if it were zero. */
  datatype Part = Text(s: string) | UInt(u: nat) | Signed(i: int) | Other

  function PartText(p: Part): string {
    match p
    case Text(s) => s
    case UInt(u) => Dec(u)
    case Signed(i) => if i < 0 then "-" + Dec(-i) else Dec(i)
    case Other => Dec(0)
  }

  /** strings.Join with the colon. */
  function Join(ss: seq<string>): string {
    if ss == [] then ""
    else if |ss| == 1 then ss[0]
    else ss[0] + ":" + Join(ss[1..])
  }

  function Texts(parts: seq<Part>): seq<string> {
    seq(|parts|, i requires 0 <= i < |parts| => PartText(parts[i]))
  }

  method BuildKey(parts: seq<Part>) returns (key: string)
    ensures key == Join(Texts(parts))
  {
    var ss: seq<string> := [];
    for i := 0 to |parts|
      invariant ss == Texts(parts[..i])
    {
      ss := ss + [PartText(parts[i])];
    }
    assert parts[..|parts|] == parts;
    key := Join(ss);
  }

  // ---------- the keys of the services ----------

  datatype Family =
    | Token | UserName | FollowSet | FollowerSet | FollowCnt | FollowerCnt
    | WorkCnt | CommentCnt | VideoFav | FavList | FavCnt | TotalFav

  datatype Limiter = RateBucket | Login | Register | CommentLimit | Upload | MessageLimit

  datatype Key =
    | Feed
    | Of(family: Family, id: id64)
    | Limit(limiter: Limiter, ip: string)
    | Lock(key: Key)
    | Empty(key: Key)

  function Name(f: Family): string {
    match f
    case Token => "token"
    case UserName => "uname"
    case FollowSet => "follow"
    case FollowerSet => "follower"
    case FollowCnt => "followcnt"
    case FollowerCnt => "followercnt"
    case WorkCnt => "workcnt"
    case CommentCnt => "vcmtcnt"
    case VideoFav => "vfav"
    case FavList => "ufavz"
    case FavCnt => "ufavcnt"
    case TotalFav => "utfav"
  }

  function LimiterName(l: Limiter): string {
    match l
    case RateBucket => "tokenBucket"
    case Login => "loginLimit"
    case Register => "registerLimit"
    case CommentLimit => "commentLimit"
    case Upload => "uploadLimit"
    case MessageLimit => "messageLimit"
  }

  function Render(k: Key): string {
    match k
    case Feed => "videos"
    case Of(f, id) => Join(Texts([Text(Name(f)), UInt(id)]))
    case Limit(l, ip) => Join(Texts([Text(LimiterName(l)), Text(ip)]))
    case Lock(k') => Join(Texts([Text("lock"), Text(Render(k'))]))
    case Empty(k') => Join(Texts([Text("empty"), Text(Render(k'))]))
  }

  /** The strings themselves: a name, a colon, and the id or what is wrapped. */
  lemma KeyTexts(f: Family, id: id64, l: Limiter, ip: string, k: Key)
    ensures Render(Of(f, id)) == Name(f) + ":" + Dec(id)
    ensures Render(Limit(l, ip)) == LimiterName(l) + ":" + ip
    ensures Render(Lock(k)) == "lock" + ":" + Render(k)
    ensures Render(Empty(k)) == "empty" + ":" + Render(k)
    ensures Join(Texts([Text(ip), Other])) == ip + ":" + "0"
  {
    PairText(ip, Other);
    assert Dec(0) == "0";
    hide Join, Texts, Dec, Name, LimiterName;
    PairText(Name(f), UInt(id));
    PairText(LimiterName(l), Text(ip));
    PairText("lock", Text(Render(k)));
    PairText("empty", Text(Render(k)));
  }

  // ---------- reading a key back ----------

  function IndexOfColon(s: string): (i: nat)
    ensures i <= |s| && (i < |s| ==> s[i] == ':') && forall j :: 0 <= j < i ==> s[j] != ':'
  {
    if s == [] || s[0] == ':' then 0 else 1 + IndexOfColon(s[1..])
  }

  function FamilyNamed(s: string): Option<Family> {
    if s == "token" then Some(Token)
    else if s == "uname" then Some(UserName)
    else if s == "follow" then Some(FollowSet)
    else if s == "follower" then Some(FollowerSet)
    else if s == "followcnt" then Some(FollowCnt)
    else if s == "followercnt" then Some(FollowerCnt)
    else if s == "workcnt" then Some(WorkCnt)
    else if s == "vcmtcnt" then Some(CommentCnt)
    else if s == "vfav" then Some(VideoFav)
    else if s == "ufavz" then Some(FavList)
    else if s == "ufavcnt" then Some(FavCnt)
    else if s == "utfav" then Some(TotalFav)
    else None
  }

  function LimiterNamed(s: string): Option<Limiter> {
    if s == "tokenBucket" then Some(RateBucket)
    else if s == "loginLimit" then Some(Login)
    else if s == "registerLimit" then Some(Register)
    else if s == "commentLimit" then Some(CommentLimit)
    else if s == "uploadLimit" then Some(Upload)
    else if s == "messageLimit" then Some(MessageLimit)
    else None
  }

  predicate Wraps(head: string) { head == "lock" || head == "empty" }

  function ParseKey(s: string): Option<Key>
    decreases |s|
  {
    var i := IndexOfColon(s);
    if i == |s| then if s == "videos" then Some(Feed) else None
    else if Wraps(s[..i]) then
      var k := ParseKey(s[i + 1..]);
      if k.None? then None else Some(if s[..i] == "lock" then Lock(k.value) else Empty(k.value))
    else ParsePlain(s[..i], s[i + 1..])
  }

  function ParsePlain(head: string, tail: string): Option<Key> {
    if FamilyNamed(head).Some? then
      var id := ParseUint(tail);
      if id.None? then None else Some(Of(FamilyNamed(head).value, id.value))
    else if LimiterNamed(head).Some? then Some(Limit(LimiterNamed(head).value, tail))
    else None
  }

  lemma NamesKnown(f: Family)
    ensures FamilyNamed(Name(f)) == Some(f) && !Wraps(Name(f))
    ensures ':' !in Name(f)
  {
  }

  lemma LimitersKnown(l: Limiter)
    ensures LimiterNamed(LimiterName(l)) == Some(l) && FamilyNamed(LimiterName(l)).None?
    ensures !Wraps(LimiterName(l)) && ':' !in LimiterName(l)
  {
  }

  lemma PairText(head: string, tail: Part)
    ensures Join(Texts([Text(head), tail])) == head + ":" + PartText(tail)
  {
  }

  /** The first segment of a key decides how the rest is read. */
  lemma ReadSegment(head: string, tail: string)
    requires ':' !in head
    ensures var s := head + ":" + tail;
      IndexOfColon(s) == |head| < |s| && s[..|head|] == head && s[|head| + 1..] == tail
  {
    var s := head + ":" + tail;
    assert s[|head|] == ':';
    assert forall j :: 0 <= j < |head| ==> s[j] == head[j];
  }

  lemma FeedRoundTrip()
    ensures ParseKey("videos") == Some(Feed)
  {
  }

  lemma OfRoundTrip(f: Family, id: id64)
    ensures ParseKey(Render(Of(f, id))) == Some(Of(f, id))
  {
    hide Join, Texts, Wraps, Name, FamilyNamed, LimiterNamed, ParseUint, Dec;
    NamesKnown(f);
    PairText(Name(f), UInt(id));
    ReadSegment(Name(f), Dec(id));
    PrintedId(id);
  }

  lemma LimitRoundTrip(l: Limiter, ip: string)
    ensures ParseKey(Render(Limit(l, ip))) == Some(Limit(l, ip))
  {
    hide Join, Texts, Wraps, LimiterName, FamilyNamed, LimiterNamed;
    LimitersKnown(l);
    PairText(LimiterName(l), Text(ip));
    ReadSegment(LimiterName(l), ip);
  }

  lemma LockRoundTrip(k: Key)
    ensures ParseKey(Render(k)) == Some(k) ==> ParseKey(Render(Lock(k))) == Some(Lock(k))
  {
    hide Join, Texts, ParsePlain, IndexOfColon;
    PairText("lock", Text(Render(k)));
    ReadSegment("lock", Render(k));
  }

  lemma EmptyRoundTrip(k: Key)
    ensures ParseKey(Render(k)) == Some(k) ==> ParseKey(Render(Empty(k))) == Some(Empty(k))
  {
    hide Join, Texts, ParsePlain, IndexOfColon;
    PairText("empty", Text(Render(k)));
    ReadSegment("empty", Render(k));
  }

  /** Every key can be read back from its string. */
  lemma {:induction false} KeyRoundTrip(k: Key)
    ensures ParseKey(Render(k)) == Some(k)
  {
    hide ParseKey, Join, Texts;
    match k
    case Feed => FeedRoundTrip();
    case Of(f, id) => OfRoundTrip(f, id);
    case Limit(l, ip) => LimitRoundTrip(l, ip);
    case Lock(k') =>
      KeyRoundTrip(k');
      LockRoundTrip(k');
    case Empty(k') =>
      KeyRoundTrip(k');
      EmptyRoundTrip(k');
  }

  /** No two keys share a string, through all families and the lock: and empty: wrappings. */
  lemma RenderInjective(a: Key, b: Key)
    requires Render(a) == Render(b)
    ensures a == b
  {
    KeyRoundTrip(a);
    KeyRoundTrip(b);
  }

  /** Deleting keys by their strings deletes exactly those keys. */
  lemma DeleteByString(keys: seq<Key>, k: Key)
    ensures Render(k) in (set d | d in keys :: Render(d)) <==> k in keys
  {
    if d :| d in keys && Render(d) == Render(k) {
      RenderInjective(d, k);
    }
  }
}
