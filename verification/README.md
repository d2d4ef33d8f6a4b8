# The video service: codecs, caches, limiters and the feed

A Dafny model of the core of a short-video backend, with proofs about every input, run and interleaving.

- **Codecs** (`Wire`, `Fields`, `Values`, `Buffer`, `*Codec`, `*Struct`).  The generated Thrift code: the reading loop
  over a byte buffer, and the writing of a message in place, with fixed-size fields first and list headers
  back-patched.  `Fields` proves the laws of the shared template once, for any struct; `*Codec` gives each message
  its meaning; `*Struct` holds the imperative readers and writers, proved against that meaning.  The primitives
  follow the Apache Thrift specification "Thrift Binary protocol encoding", sections "Integer encoding", "Binary
  encoding", "Struct", "List and Set" and "Map".  A message that was written is read back *normalised*: an absent
  struct becomes a zero struct, an absent list an empty one.  `Layouts` gives the bytes of every message with type codes
  and field ids as numbers.  `Forms` describes all encodings of a message, with fields
  in any order and unknown ones between them at every depth, and proves that they decode alike.
- **Keys** (`Keys`).  Redis key strings, and why no two keys share one.
- **The cache as a machine** (`Runs`, `CacheSteps`, `CacheLocks`, `CacheAnswers`, `CacheRaces`).  One user's follow set
  or favourite list, its empty sentinel and a count, under concurrent readers and writers whose single Redis commands
  and table statements interleave freely, with any key or lock expiring at any time.
- **The cache in sequence** (`RedisCache`, `Coherence`, `Services`, `Requests`, `ServiceRuns`, `FavoriteList`).  The
  cache-aside helpers and the services as imperative code, over whole runs of requests.  In every gap between the
  commands of a read other readers may fill the entry, mark it empty, and take or free its lock, and any key may expire.
  Two such events reach an answer: a set that appears between SMEMBERS or ZREVRANGE and EXISTS, and an entry that
  expires between EXISTS, or its fill, and SISMEMBER.  A call is *calm* if neither happens in it; the contracts say what
  it answers then, and what it may answer otherwise: less than the tables hold, never more.
- **Tables** (`Rows`, `Tables`, `TableLaws`, `FavoriteSteps`, `RelationSteps`, `Alternation`).  Queries, statements and
  what they keep; concurrent `FavoriteAction` and `RelationAction` calls as machines.
- **Sorted sets** (`SortedSet`).  ZADD and ZREVRANGE, and a cached favourite list against the rows it came from.
- **Limiters** (`TokenBucket`, `FixedWindow`).  The two scripts, over whole request sequences.
- **The feed** (`Feed`, `FeedPaging`, `FeedWalk`).  The score-ordered index beside the video table, its backfill, and
  a client that follows `next_time` while other requests are served.

## What turned out

- The cache can stay wrong after its last DEL in exactly one way: a fill that loaded before a table write and filled
  after that write's DEL.  `CacheSteps.SetCoherence` gives both directions; `CacheRaces` gives the runs, among them one
  in which SADD merges two versions into a set that the table never held.
- `readUintSetCache` reads SMEMBERS and then EXISTS.  A fill between the two makes a reader answer the empty set
  although the table never changed and is not empty (`CacheRaces.TornRead`); `CacheSteps.ExistsHit` says exactly when
  such an answer is right.
- The token bucket stores the time of the last request, not the `lastUpdate` it computes.  A client is
  never refilled if and only if none of its pauses reaches a whole period or outlives the key
  (`TokenBucket.NeverRefilled`).  With the shipped constants the key expires after two seconds while a period takes
  thirty, so the limiter is: the first 60 requests since the last pause of two seconds (`TokenBucket.ServeClient`).
- `RelationAction` looks for the row and then writes.  Two unfollows that overlap may both succeed, and of two follows that
  overlap one may be answered with the database error; `RelationSteps.WhenIdle` and `RelationSteps.WhenClash` say exactly
  when, and the table stays that of whole requests all the same (`RelationSteps.TablesOfWhole`).
- `SetContains` checks that the entry is there and then asks it.  If the entry expires in between, a user who follows
  is reported as not following; `RedisCache.Redis.SetContains` says exactly when.
- Paging through the feed gets stuck on a second with 30 videos, unless that second is the oldest
  (`FeedPaging.WalkVisitsAll`).
- Where comments and code differ the model follows the code.  The comment on `GetFeedVideoIDs` says "earlier than
  latestTime", but the bound is inclusive.  The comment on `BackfillFeed` says "all", but rows of the current second
  are not added.  A cancel without a like answers with the code for a repeated like.

## Model

| member | source | states |
|---|---|---|
| Wire.IntRoundTrip | kitex_gen/user/k-user.go:408-413 | a big-endian two's complement integer of k bytes reads back as itself for every value of its width |
| Wire.BigEndian | kitex_gen/user/k-user.go:408-413 | the byte at each place of an integer has the weight 256 to the number of bytes after it |
| Wire.ReadEncString | kitex_gen/user/k-user.go:415-420 | a length-prefixed string reads back as itself, whatever bytes follow |
| Wire.ReadEncListBegin | kitex_gen/video/k-video.go:781-793 | a list header reads back its size |
| Wire.SkipLocal | kitex_gen/user/k-user.go:194-199 | skipping a value does not depend on the bytes after it |
| Values.SkipExact | kitex_gen/user/k-user.go:194-199 | skipping takes exactly the bytes of any Thrift value: booleans, bytes, 16, 32 and 64-bit integers, doubles, strings, structs, lists, sets and maps, nested to any depth |
| Values.OtherTypes | kitex_gen/user/k-user.go:194-199 | nothing is skipped under a type code that the protocol does not have |
| Values.AnyValueSkipped | kitex_gen/user/k-user.go:194-199 | a field with an id or type that a struct does not know is skipped exactly, whatever value it holds |
| Fields.ReadStruct | kitex_gen/user/k-user.go:23-210 | on arbitrary bytes the read loop ends, with an offset inside the buffer |
| Fields.ReadStructLocal | kitex_gen/user/k-user.go:23-210 | a successful read does not look past the STOP byte |
| Fields.LastWins | kitex_gen/user/k-user.go:37-189 | after any sequence of accepted fields, each slot holds what its last known field put there |
| Fields.FailedRead | kitex_gen/user/k-user.go:23-210 | a read that fails leaves what the whole fields before the failure made of the struct |
| Fields.ReadShuffled | kitex_gen/user/k-user.go:37-189 | two encodings that agree on the last known field of each id decode alike: permuting fields and inserting unknown or mistyped ones anywhere changes nothing |
| Fields.StrictPrefixRejected | kitex_gen/comment/k-comment.go:29-118 | every strict prefix of a struct encoding is rejected |
| Fields.ReadEncList | kitex_gen/video/k-video.go:700-723 | a list of elements that read back one by one reads back as a whole, in order |
| Fields.ReadListKeeps | kitex_gen/video/k-video.go:700-723 | what holds of every element that can be read holds of every element of a decoded list |
| Fields.ReadRearranged | kitex_gen/user/k-user.go:37-189 | the same for known fields in any order with skippable ones between, as a relation on the bytes alone |
| Fields.TakeSwapped | kitex_gen/video/k-video.go:190-200 | a field may be replaced by one that the switch takes alike |
| Fields.StructTurn | kitex_gen/user/k-user.go:29-49 | one turn of the reading loop at an offset into the buffer |
| Fields.ReadAnyList | kitex_gen/video/k-video.go:700-723 | the declared element type of a list is read and ignored |
| Buffer.FieldWritten | kitex_gen/user/k-user.go:370-387 | writing a header and then a payload at the running offset extends the encoding by exactly that field |
| Buffer.ElemWritten | kitex_gen/video/k-video.go:781-793 | writing the next element at the running offset extends the elements written so far by it |
| Buffer.ListWritten | kitex_gen/video/k-video.go:781-793 | writing the list header after the elements leaves the same bytes as writing it first |
| Buffer.PatchAppend | kitex_gen/video/k-video.go:781-793 | two writes next to each other are one write, in either order |
| UserCodec.UserRoundTrip | kitex_gen/user/k-user.go:23-387 | reading what was written, with anything behind it, consumes exactly the written length and gives the normalised message, if and only if every string and list fits a 32-bit length (11 fields written out of id order) |
| UserCodec.UserPrefixRejected | kitex_gen/user/k-user.go:23-210 | no strict prefix of a written message is accepted |
| UserCodec.UserShuffled | kitex_gen/user/k-user.go:23-210 | its fields in any order, with unknown or mistyped fields in between, read as the same message |
| UserCodec.ReadUserFits | kitex_gen/user/k-user.go:23-210 | whatever bytes come in, the message read out of them can be written again |
| UserCodec.UserSize | kitex_gen/user/k-user.go:389-406 | the sizes summed in id order are the length of the encoding |
| UserStruct.User.FastReadField | kitex_gen/user/k-user.go:23-364 | the switch over the field id assigns the one field, or skips, as the specification of the reader says |
| UserStruct.User.FastRead | kitex_gen/user/k-user.go:23-210 | the loop leaves the receiver, the offset and the verdict that the specification gives, on every input |
| UserStruct.UserBLength | kitex_gen/user/k-user.go:389-406 | the measured length is the length of the encoding |
| UserStruct.UserWriteRead | kitex_gen/user/k-user.go:23-387 | writing into a buffer and reading back from there into a new object gives the normalised message, if and only if every length fits |
| UserStruct.UserFastWriteNocopy | kitex_gen/user/k-user.go:366-387 | the buffer is overwritten by exactly the encoding, and by nothing else |
| VideoCodec.VideoRoundTrip | kitex_gen/video/k-video.go:29-304 | reading what was written, with anything behind it, consumes exactly the written length and gives the normalised message, if and only if every string and list fits a 32-bit length (a nested author; a nil author comes back as a zero one) |
| VideoCodec.VideoPrefixRejected | kitex_gen/video/k-video.go:29-174 | no strict prefix of a written message is accepted |
| VideoCodec.VideoShuffled | kitex_gen/video/k-video.go:29-174 | its fields in any order, with unknown or mistyped fields in between, read as the same message |
| VideoCodec.ReadVideoFits | kitex_gen/video/k-video.go:29-174 | whatever bytes come in, the message read out of them can be written again |
| VideoCodec.VideoSize | kitex_gen/video/k-video.go:306-320 | the sizes summed in id order are the length of the encoding |
| VideoStruct.Video.FastReadField | kitex_gen/video/k-video.go:29-284 | the switch over the field id assigns the one field, or skips, as the specification of the reader says |
| VideoStruct.Video.FastRead | kitex_gen/video/k-video.go:29-174 | the loop leaves the receiver, the offset and the verdict that the specification gives, on every input |
| VideoStruct.VideoBLength | kitex_gen/video/k-video.go:306-320 | the measured length is the length of the encoding |
| VideoStruct.VideoWriteRead | kitex_gen/video/k-video.go:29-304 | writing into a buffer and reading back from there into a new object gives the normalised message, if and only if every length fits |
| VideoStruct.VideoFastWriteNocopy | kitex_gen/video/k-video.go:286-304 | the buffer is overwritten by exactly the encoding, and by nothing else |
| VideoCodec.VideoFeedRequestRoundTrip | kitex_gen/video/k-video.go:434-537 | reading what was written, with anything behind it, consumes exactly the written length and gives the normalised message, if and only if every string and list fits a 32-bit length (an absent optional field stays absent) |
| VideoCodec.VideoFeedRequestPrefixRejected | kitex_gen/video/k-video.go:434-495 | no strict prefix of a written message is accepted |
| VideoCodec.VideoFeedRequestShuffled | kitex_gen/video/k-video.go:434-495 | its fields in any order, with unknown or mistyped fields in between, read as the same message |
| VideoCodec.ReadVideoFeedRequestFits | kitex_gen/video/k-video.go:434-495 | whatever bytes come in, the message read out of them can be written again |
| VideoCodec.VideoFeedRequestSize | kitex_gen/video/k-video.go:539-547 | the sizes summed in id order are the length of the encoding |
| VideoStruct.VideoFeedRequest.FastReadField | kitex_gen/video/k-video.go:434-523 | the switch over the field id assigns the one field, or skips, as the specification of the reader says |
| VideoStruct.VideoFeedRequest.FastRead | kitex_gen/video/k-video.go:434-495 | the loop leaves the receiver, the offset and the verdict that the specification gives, on every input |
| VideoStruct.VideoFeedRequestBLength | kitex_gen/video/k-video.go:539-547 | the measured length is the length of the encoding |
| VideoStruct.VideoFeedRequestWriteRead | kitex_gen/video/k-video.go:434-537 | writing into a buffer and reading back from there into a new object gives the normalised message, if and only if every length fits |
| VideoStruct.VideoFeedRequestFastWriteNocopy | kitex_gen/video/k-video.go:525-537 | the buffer is overwritten by exactly the encoding, and by nothing else |
| VideoCodec.VideoFeedResponseRoundTrip | kitex_gen/video/k-video.go:581-753 | reading what was written, with anything behind it, consumes exactly the written length and gives the normalised message, if and only if every string and list fits a 32-bit length (a list of videos; a nil list comes back empty, nil elements as zero videos) |
| VideoCodec.VideoFeedResponsePrefixRejected | kitex_gen/video/k-video.go:581-670 | no strict prefix of a written message is accepted |
| VideoCodec.VideoFeedResponseShuffled | kitex_gen/video/k-video.go:581-670 | its fields in any order, with unknown or mistyped fields in between, read as the same message |
| VideoCodec.ReadVideoFeedResponseFits | kitex_gen/video/k-video.go:581-670 | whatever bytes come in, the message read out of them can be written again |
| VideoCodec.VideoFeedResponseSize | kitex_gen/video/k-video.go:755-765 | the sizes summed in id order are the length of the encoding |
| VideoStruct.VideoFeedResponse.FastReadField | kitex_gen/video/k-video.go:581-737 | the switch over the field id assigns the one field, or skips, as the specification of the reader says |
| VideoStruct.VideoFeedResponse.FastRead | kitex_gen/video/k-video.go:581-670 | the loop leaves the receiver, the offset and the verdict that the specification gives, on every input |
| VideoStruct.VideoFeedResponseBLength | kitex_gen/video/k-video.go:755-765 | the measured length is the length of the encoding |
| VideoStruct.VideoFeedResponseWriteRead | kitex_gen/video/k-video.go:581-753 | writing into a buffer and reading back from there into a new object gives the normalised message, if and only if every length fits |
| VideoStruct.VideoFeedResponseFastWriteNocopy | kitex_gen/video/k-video.go:739-753 | the buffer is overwritten by exactly the encoding, and by nothing else |
| CommentCodec.CommentRoundTrip | kitex_gen/comment/k-comment.go:29-188 | reading what was written, with anything behind it, consumes exactly the written length and gives the normalised message, if and only if every string and list fits a 32-bit length (a nil user is written as a bare STOP and comes back as a zero user) |
| CommentCodec.CommentPrefixRejected | kitex_gen/comment/k-comment.go:29-118 | no strict prefix of a written message is accepted |
| CommentCodec.CommentShuffled | kitex_gen/comment/k-comment.go:29-118 | its fields in any order, with unknown or mistyped fields in between, read as the same message |
| CommentCodec.ReadCommentFits | kitex_gen/comment/k-comment.go:29-118 | whatever bytes come in, the message read out of them can be written again |
| CommentCodec.CommentSize | kitex_gen/comment/k-comment.go:190-200 | the sizes summed in id order are the length of the encoding |
| CommentStruct.Comment.FastReadField | kitex_gen/comment/k-comment.go:29-172 | the switch over the field id assigns the one field, or skips, as the specification of the reader says |
| CommentStruct.Comment.FastRead | kitex_gen/comment/k-comment.go:29-118 | the loop leaves the receiver, the offset and the verdict that the specification gives, on every input |
| CommentStruct.CommentBLength | kitex_gen/comment/k-comment.go:190-200 | the measured length is the length of the encoding |
| CommentStruct.CommentWriteRead | kitex_gen/comment/k-comment.go:29-188 | writing into a buffer and reading back from there into a new object gives the normalised message, if and only if every length fits |
| CommentStruct.CommentFastWriteNocopy | kitex_gen/comment/k-comment.go:174-188 | the buffer is overwritten by exactly the encoding, and by nothing else |
| CommentCodec.CommentActionRequestRoundTrip | kitex_gen/comment/k-comment.go:258-448 | reading what was written, with anything behind it, consumes exactly the written length and gives the normalised message, if and only if every string and list fits a 32-bit length (two optional fields, written 1, 2, 3, 5, 4) |
| CommentCodec.CommentActionRequestPrefixRejected | kitex_gen/comment/k-comment.go:258-361 | no strict prefix of a written message is accepted |
| CommentCodec.CommentActionRequestShuffled | kitex_gen/comment/k-comment.go:258-361 | its fields in any order, with unknown or mistyped fields in between, read as the same message |
| CommentCodec.ReadCommentActionRequestFits | kitex_gen/comment/k-comment.go:258-361 | whatever bytes come in, the message read out of them can be written again |
| CommentCodec.CommentActionRequestSize | kitex_gen/comment/k-comment.go:450-461 | the sizes summed in id order are the length of the encoding |
| CommentStruct.CommentActionRequest.FastReadField | kitex_gen/comment/k-comment.go:258-431 | the switch over the field id assigns the one field, or skips, as the specification of the reader says |
| CommentStruct.CommentActionRequest.FastRead | kitex_gen/comment/k-comment.go:258-361 | the loop leaves the receiver, the offset and the verdict that the specification gives, on every input |
| CommentStruct.CommentActionRequestBLength | kitex_gen/comment/k-comment.go:450-461 | the measured length is the length of the encoding |
| CommentStruct.CommentActionRequestWriteRead | kitex_gen/comment/k-comment.go:258-448 | writing into a buffer and reading back from there into a new object gives the normalised message, if and only if every length fits |
| CommentStruct.CommentActionRequestFastWriteNocopy | kitex_gen/comment/k-comment.go:433-448 | the buffer is overwritten by exactly the encoding, and by nothing else |
| CommentCodec.CommentActionResponseRoundTrip | kitex_gen/comment/k-comment.go:541-671 | reading what was written, with anything behind it, consumes exactly the written length and gives the normalised message, if and only if every string and list fits a 32-bit length (an optional nested struct) |
| CommentCodec.CommentActionResponsePrefixRejected | kitex_gen/comment/k-comment.go:541-616 | no strict prefix of a written message is accepted |
| CommentCodec.CommentActionResponseShuffled | kitex_gen/comment/k-comment.go:541-616 | its fields in any order, with unknown or mistyped fields in between, read as the same message |
| CommentCodec.ReadCommentActionResponseFits | kitex_gen/comment/k-comment.go:541-616 | whatever bytes come in, the message read out of them can be written again |
| CommentCodec.CommentActionResponseSize | kitex_gen/comment/k-comment.go:673-682 | the sizes summed in id order are the length of the encoding |
| CommentStruct.CommentActionResponse.FastReadField | kitex_gen/comment/k-comment.go:541-656 | the switch over the field id assigns the one field, or skips, as the specification of the reader says |
| CommentStruct.CommentActionResponse.FastRead | kitex_gen/comment/k-comment.go:541-616 | the loop leaves the receiver, the offset and the verdict that the specification gives, on every input |
| CommentStruct.CommentActionResponseBLength | kitex_gen/comment/k-comment.go:673-682 | the measured length is the length of the encoding |
| CommentStruct.CommentActionResponseWriteRead | kitex_gen/comment/k-comment.go:541-671 | writing into a buffer and reading back from there into a new object gives the normalised message, if and only if every length fits |
| CommentStruct.CommentActionResponseFastWriteNocopy | kitex_gen/comment/k-comment.go:658-671 | the buffer is overwritten by exactly the encoding, and by nothing else |
| FavoriteCodec.FavoriteListResponseRoundTrip | kitex_gen/favorite/k-favorite.go:502-645 | reading what was written, with anything behind it, consumes exactly the written length and gives the normalised message, if and only if every string and list fits a 32-bit length (videos inside a list, each with a user inside) |
| FavoriteCodec.FavoriteListResponsePrefixRejected | kitex_gen/favorite/k-favorite.go:502-577 | no strict prefix of a written message is accepted |
| FavoriteCodec.FavoriteListResponseShuffled | kitex_gen/favorite/k-favorite.go:502-577 | its fields in any order, with unknown or mistyped fields in between, read as the same message |
| FavoriteCodec.ReadFavoriteListResponseFits | kitex_gen/favorite/k-favorite.go:502-577 | whatever bytes come in, the message read out of them can be written again |
| FavoriteCodec.FavoriteListResponseSize | kitex_gen/favorite/k-favorite.go:647-656 | the sizes summed in id order are the length of the encoding |
| FavoriteStruct.FavoriteListResponse.FastReadField | kitex_gen/favorite/k-favorite.go:502-630 | the switch over the field id assigns the one field, or skips, as the specification of the reader says |
| FavoriteStruct.FavoriteListResponse.FastRead | kitex_gen/favorite/k-favorite.go:502-577 | the loop leaves the receiver, the offset and the verdict that the specification gives, on every input |
| FavoriteStruct.FavoriteListResponseBLength | kitex_gen/favorite/k-favorite.go:647-656 | the measured length is the length of the encoding |
| FavoriteStruct.FavoriteListResponseWriteRead | kitex_gen/favorite/k-favorite.go:502-645 | writing into a buffer and reading back from there into a new object gives the normalised message, if and only if every length fits |
| FavoriteStruct.FavoriteListResponseFastWriteNocopy | kitex_gen/favorite/k-favorite.go:632-645 | the buffer is overwritten by exactly the encoding, and by nothing else |
| Forms.UserFormRead | kitex_gen/video/k-video.go:190-200 | every encoding of a user, fields rearranged and unknown ones between, decodes alike |
| Forms.VideoFormRead | kitex_gen/video/k-video.go:29-174 | so does every encoding of a video, with its author rearranged within |
| Forms.VideoListFormRead | kitex_gen/video/k-video.go:700-723 | so does every encoding of a list of videos, each rearranged within |
| Forms.VideoFeedResponseFormRead | kitex_gen/video/k-video.go:581-670 | so does every encoding of a feed response, down to the authors of its videos |
| Forms.FavoriteListResponseFormRead | kitex_gen/favorite/k-favorite.go:502-577 | so does every encoding of a favourite list response, likewise |
| Forms.CommentFormRead | kitex_gen/comment/k-comment.go:29-118 | so does every encoding of a comment, with its user rearranged within |
| Forms.CommentActionResponseFormRead | kitex_gen/comment/k-comment.go:541-616 | so does every encoding of a comment response, down to the user of its comment |
| Forms.EncVideoForm | kitex_gen/video/k-video.go:290-304 | what the writer of a video produces is one of its encodings |
| Forms.EncVideoListForm | kitex_gen/video/k-video.go:781-793 | what the writer of a list of videos produces is one of its encodings |
| Forms.EncVideoFeedResponseForm | kitex_gen/video/k-video.go:739-753 | what the writer of a feed response produces is one of its encodings |
| Forms.EncFavoriteListResponseForm | kitex_gen/favorite/k-favorite.go:632-645 | what the writer of a favourite list response produces is one of its encodings |
| Forms.EncCommentForm | kitex_gen/comment/k-comment.go:174-188 | what the writer of a comment produces is one of its encodings |
| Forms.EncCommentActionResponseForm | kitex_gen/comment/k-comment.go:658-671 | what the writer of a comment response produces is one of its encodings |
| Layouts.UserLayout | kitex_gen/user/k-user.go:366-387 | the bytes of a written user, with type codes and field ids as numbers, in their order |
| Layouts.VideoLayout | kitex_gen/video/k-video.go:286-304 | the bytes of a written video, likewise |
| Layouts.VideoFeedRequestLayout | kitex_gen/video/k-video.go:525-537 | the bytes of a written feed request, likewise |
| Layouts.VideoFeedResponseLayout | kitex_gen/video/k-video.go:739-753 | the bytes of a written feed response, likewise, its list by element type, size and elements |
| Layouts.CommentLayout | kitex_gen/comment/k-comment.go:174-188 | the bytes of a written comment, likewise |
| Layouts.CommentActionRequestLayout | kitex_gen/comment/k-comment.go:433-448 | the bytes of a written comment request, likewise, absent optional fields left out |
| Layouts.CommentActionResponseLayout | kitex_gen/comment/k-comment.go:658-671 | the bytes of a written comment response, likewise |
| Layouts.FavoriteListResponseLayout | kitex_gen/favorite/k-favorite.go:632-645 | the bytes of a written favourite list response, likewise |
| Layouts.BoolLayout | kitex_gen/user/k-user.go:268-279 | a boolean is one byte, and only 1 is true |
| Layouts.NilRead | kitex_gen/user/k-user.go:23-49 | a lone STOP byte reads as a message of zeros |
| UserCodec.NewUserRoundTrip | kitex_gen/video/k-video.go:190-200 | a nested struct is read into a new object, nil included |
| VideoCodec.VideoListRoundTrip | kitex_gen/video/k-video.go:700-723 | a list of videos with nil and zero authors reads back normalised |
| VideoStruct.FastReadList | kitex_gen/video/k-video.go:700-723 | the element loop returns what the list specification returns, failures included |
| VideoStruct.ListLength | kitex_gen/video/k-video.go:816-825 | the summed element lengths are the length of the written list |
| VideoStruct.FastWriteList | kitex_gen/video/k-video.go:781-793 | elements first, header afterwards: the buffer holds exactly the list's encoding |
| VideoStruct.WriteListField | kitex_gen/video/k-video.go:781-793 | a list field with its header extends the encoding by that field |
| Keys.BuildKey | mw/redis/keys.go:12-29 | the parts, printed and joined with colons; an argument of another type is printed as zero |
| Keys.DigitsOfDec | mw/redis/keys.go:19-20 | decimal digits parse back to the number printed |
| Keys.DigitsMeaning | mw/redis/cache.go:352-361 | text is a number if and only if it is all digits, and then the one they stand for by their places |
| Keys.ParseUintMeaning | mw/redis/cache.go:352-361 | an id is any digits that stand for a number of 64 bits, and nothing else is |
| Keys.PrintedId | mw/redis/cache.go:352-360 | parsing a printed 64-bit id gives the id |
| Keys.ParsedText | mw/redis/cache.go:352-360 | text that parses, without leading zeros, is the printed id |
| Keys.ParseUintMembers | mw/redis/cache.go:352-360 | the members that are ids, in order; others are dropped |
| Keys.ParsedAppend | mw/redis/cache.go:352-361 | each member that is an id counts, wherever it stands and whatever stands around it |
| Keys.PrintedMembers | mw/redis/cache.go:352-360 | printing then parsing a list of ids is the identity |
| Keys.KeyRoundTrip | mw/redis/keys.go:12-59 | every key string of the system can be read back to its family, id and wrappings |
| Keys.KeyTexts | mw/redis/keys.go:12-31 | each key is its name, a colon, and the id or what is wrapped |
| Keys.RenderInjective | service/social/cache.go:14-26 | no two keys share a string, through all families and the lock: and empty: wrappings |
| Keys.DeleteByString | mw/redis/cache.go:51-59 | deleting keys by their strings deletes exactly those keys |
| Coherence.RelationKeysExact | service/social/cache.go:100-109 | a follow change deletes the six entries of each of its two users and no other string |
| Coherence.FavoriteKeysExact | service/video/cache.go:141-148 | a like change deletes the user's list, sentinel and count, the video's count and the author's total, and no other string |
| CacheSteps.NextKeeps | mw/redis/cache.go:172-225 | every step of readers, writers and expiry keeps the provenance of every cached set, sentinel and count |
| Runs.RunKeeps | mw/redis/cache.go:172-225 | what every step of a machine keeps, every run keeps |
| CacheSteps.RunKeeps | mw/redis/cache.go:172-225 | so does every run |
| CacheSteps.MergeKeeps | mw/redis/cache.go:205-214 | SADD or ZADD merges a fill into what is cached: afterwards each id and its score still stem from a recorded fill |
| CacheSteps.NewFill | mw/redis/cache.go:200-222 | a fill made now has overtaken a DEL, or every write after its load still owes its DEL |
| CacheSteps.FillVersion | mw/redis/cache.go:62-71 | with no DEL outstanding, a fill shows the current version exactly when it overtook no DEL |
| CacheSteps.SetCoherence | mw/redis/cache.go:172-225 | in every reachable state with no DEL outstanding the cached ids of a set or sorted set are those of the versions its fills loaded, each score is that of one of them, a fill is out of date if and only if it overtook a DEL, and an entry that differs from the table contains such a fill |
| CacheSteps.SentinelCoherence | mw/redis/cache.go:216-222 | a sentinel with no DEL outstanding stands for an empty table or overtook a DEL |
| CacheSteps.CountCoherence | mw/redis/cache.go:89-127 | a cached count is the count of one version, the current one if and only if its fill overtook no DEL |
| CacheSteps.ExistsHit | mw/redis/cache.go:312-327 | an EXISTS hit after an empty SMEMBERS is right in a coherent cache if and only if the set is still absent |
| CacheAnswers.CacheDrawn | mw/redis/cache.go:205-222 | whatever is cached was loaded from versions that the table held |
| CacheAnswers.AnswersNext | mw/redis/cache.go:172-225 | every step keeps what readers have been or will be told true to the table's versions |
| CacheAnswers.Answers | mw/redis/cache.go:89-225 | in every interleaving a call that queried the table answers with a version that was current during the call; one answered from the cache names a count of some version, or ids that some version held |
| CacheAnswers.AnswerSource | mw/redis/cache.go:173-204 | in every interleaving a call that ends without a query was answered at a step of its own where an entry stood, with what that entry showed; a call that found no entry at any step of its own queried once and answers with a version current during the call |
| CacheAnswers.QueryFills | mw/redis/cache.go:202-225 | in every interleaving a call that queried left its answer in the cache at a step of its own, beside what was cached and touching no other key, and after a fill with ids saw the sentinel gone |
| CacheAnswers.HitFresh | mw/redis/cache.go:172-225 | in every interleaving a call that begins after the DELs of all writes up to v, and is answered from an entry into which no fill overtook a DEL by a read that is not torn, answers with versions from v on |
| CacheRaces.StaleFill | mw/redis/cache.go:198-224 | a run that ends with no DEL outstanding, the lock free, and the old follow set cached |
| CacheRaces.UnionFill | mw/redis/cache.go:205-214 | a run in which two fills merge into a set that the table never held |
| CacheRaces.TornRead | mw/redis/cache.go:312-327 | a run in which a reader answers the empty set although the table never changes and is not empty |
| CacheLocks.LockStep | mw/redis/cache.go:73-88 | a step changes its own process only, and takes, keeps or gives up the lock of its key |
| CacheLocks.ExclusiveNext | mw/redis/cache.go:73-88 | a step under which no holder's lock expires keeps the holder the owner of the lock |
| CacheLocks.SingleLoadNext | mw/redis/cache.go:98-127 | and keeps the account of loads by lock holders since the entry was last removed |
| CacheLocks.LockTheorem | mw/redis/cache.go:73-127 | if no lock expires under a live holder, at most one reader of a key is in the locked section, only such a reader holds a lock, and holders load at most once between two removals of the entry |
| CacheLocks.CallBounded | mw/redis/cache.go:98-127 | in every interleaving a call makes at most 3 lock attempts and one load, without the lock only after 3 failed attempts, and is done after at most 15 steps of its own, none of which waits |
| CacheRaces.LongestCall | mw/redis/cache.go:98-127 | a call that takes 15 steps, 3 lock attempts and one load: the bound is attained |
| RedisCache.Redis.Invalidate | mw/redis/cache.go:50-59 | deletes exactly the given keys |
| RedisCache.Redis.InvalidateSet | mw/redis/cache.go:62-71 | deletes exactly the given set keys and their sentinels |
| RedisCache.Redis.AcquireLock | mw/redis/cache.go:73-80 | takes the lock if and only if it is free |
| RedisCache.Redis.ReleaseLock | mw/redis/cache.go:82-86 | frees the lock and nothing else |
| RedisCache.Redis.LoadInt | mw/redis/cache.go:89-127 | whatever locks, expiry and other readers do during the call, the table's number comes back and is cached; other entries only expire; a hit touches nothing, and a miss tries the lock at most 3 times, queries at most once and keeps no lock |
| RedisCache.Redis.ReadUintSet | mw/redis/cache.go:312-327 | a hit is an entry or a sentinel, and returns each id of the table once, or none if a set appeared between SMEMBERS and EXISTS |
| RedisCache.Redis.LoadUintSet | mw/redis/cache.go:172-225 | with expiry, fills and locks of others in every gap, the table's ids come back, each once, or none if a set appeared between SMEMBERS and EXISTS; the entry tells the truth, and the cost is that of LoadInt |
| RedisCache.Redis.SetContains | mw/redis/cache.go:339-350 | the table's membership answer if and only if the entry stands at SISMEMBER; false once it has expired |
| RedisCache.Redis.ReadUintZSet | mw/redis/cache.go:293-309 | a hit is the first limit members of the loaded rows in ZREVRANGE order, or none if a set appeared between ZREVRANGE and EXISTS |
| RedisCache.Redis.LoadUintZSet | mw/redis/cache.go:236-290 | with expiry, fills and locks of others in every gap, the rows in the table's order or in the sorted set's, or none if a set appeared between ZREVRANGE and EXISTS; the entry tells the truth, and the cost is that of LoadInt |
| RedisCache.AddedTwice | mw/redis/cache.go:271-283 | adding the same rows twice, as two readers may, changes nothing |
| Coherence.NeverBoth | mw/redis/cache.go:205-222 | a coherent cache never holds a set and its sentinel together |
| Coherence.EdgeChange | service/social/relation.go:25-48 | a follow or unfollow changes the meaning of four cached keys only |
| Coherence.LikeChange | service/video/favorite.go:26-54 | a like or cancel changes the meaning of four cached keys only |
| Coherence.PublishChange | service/video/kafka.go:113-129 | a publication changes the meaning of its author's work count only |
| Services.CoherentFilled | mw/redis/cache.go:172-225 | filling one entry truthfully keeps the whole cache coherent |
| Services.CoherentWrite | mw/redis/cache.go:61-71 | a table write keeps the cache coherent once each key whose meaning changed is gone, with its sentinel |
| Services.RelationCoherent | service/social/cache.go:100-109 | InvalidateRelation leaves the cache coherent with the changed follow table |
| Services.FavoriteCoherent | service/video/cache.go:141-148 | InvalidateFavorite leaves the cache coherent with the changed favourite table |
| Services.PublishCoherent | service/video/cache.go:79-81 | InvalidateWorkCount leaves the cache coherent with the new video |
| Services.FollowListsDistinct | dal/mysql/social/user_follow.go:56-67 | the follow and follower queries list each neighbour once |
| Services.Service.GetFollowSet | service/social/cache.go:54-58 | exactly the users that u follows, each once; none if a set appeared between SMEMBERS and EXISTS |
| Services.Service.GetFollowerSet | service/social/cache.go:61-65 | exactly the followers of u, each once; none if a set appeared between SMEMBERS and EXISTS |
| Services.Service.IsFollowing | service/social/cache.go:68-72 | agrees with the follow table if and only if the follow is absent or the entry stands at SISMEMBER; false once it has expired after EXISTS |
| Services.Service.IsFriend | service/social/cache.go:75-81 | true if and only if each follows the other and each entry stands at its own SISMEMBER |
| Services.Service.GetFriendList | service/social/relation.go:81-96 | of the users that GetFollowSet lists, exactly those who follow u and whose own entry stands at its SISMEMBER, each once; the list is none if a set appeared between SMEMBERS and EXISTS |
| Services.Service.GetCount | service/video/cache.go:71-122 | each counter getter returns the table's count, if that is below 2^31, and in general the signed 32-bit number that agrees with it modulo 2^32 |
| Services.Service.GetUserFavoriteList | service/video/cache.go:125-137 | the 30 newest likes of the user by where their rows stand, each once, in table order or in the sorted set's, and in table order where both are the same; none if a set appeared between ZREVRANGE and EXISTS |
| Services.Service.InvalidateRelation | service/social/cache.go:100-109 | both users' sets with sentinels, and then their counts, are gone, and nothing else |
| Services.Service.InvalidateFavorite | service/video/cache.go:141-148 | the list with sentinel and the three counts are gone, and nothing else |
| Services.Service.RelationAction | service/social/relation.go:13-56 | table and status code as without a cache, for all four error cases; the cache stays coherent |
| Services.Service.FavoriteAction | service/video/favorite.go:16-61 | table and status code as without a cache; the cache stays coherent |
| ServiceRuns.ServeWrite | service/social/relation.go:13-56 | a request that writes is answered as the tables answer it, with no condition |
| ServiceRuns.ServeRead | service/social/cache.go:54-109 | a read is answered as the tables answer it, except that one in which a set appeared between SMEMBERS or ZREVRANGE and EXISTS, or an entry expired between EXISTS, or its fill, and SISMEMBER, may miss something |
| ServiceRuns.ServeOne | service/social/cache.go:54-109 | each request is answered as the tables and the feed answer it, with that exception for reads |
| ServiceRuns.Serve | mw/redis/cache.go:62-71 | any run of follows, unfollows, likes, cancels, publications, feed losses and reads, with keys expiring between requests and with expiry, fills and locks of others inside reads, is answered as the tables alone would answer it; only a read in which a set appeared between SMEMBERS or ZREVRANGE and EXISTS, or an entry expired between EXISTS, or its fill, and SISMEMBER, may miss something, and it shows nothing that the tables do not hold |
| Tables.FollowingIn | dal/mysql/social/user_follow.go:39-46 | IsFollowing is the presence of the row |
| Tables.FindVideoIn | dal/mysql/video/video.go:69-76 | a video is found if and only if some row has its id |
| Tables.NewestLikes | dal/mysql/video/favorite.go:120-124 | the favourite query lists the last likes of the user by row position, newest first, as many as the limit allows, each with its own time |
| Rows.WherePositions | dal/mysql/video/favorite.go:120-124 | WHERE lists the rows that match, all of them, in the order in which they stand |
| Tables.RelationActionValid | service/social/relation.go:13-56 | requests one after another keep follow rows unique and never add a self row, and the duplicate-insert error does not occur |
| Tables.FavoriteActionValid | service/video/favorite.go:16-61 | a request keeps (user, video) pairs unique and every like on a stored video |
| Tables.InsertVideoValid | dal/mysql/video/video.go:46-49 | an insert keeps video ids unique |
| TableLaws.RunValid | service/social/relation.go:13-56 | so does every run of requests from empty tables |
| TableLaws.RelationEffect | service/social/relation.go:13-56 | a follow or unfollow changes exactly the row it names; when it succeeds, and with which code it fails |
| TableLaws.FavoriteEffect | service/video/favorite.go:16-61 | a like or cancel changes exactly the pair it names; when it succeeds, and with which code it fails |
| TableLaws.CountMeaning | dal/mysql/video/favorite.go:18-37 | each COUNT is the number of distinct rows of its user, video or author |
| TableLaws.QueryMeaning | service/social/cache.go:85-96 | each counter getter asks for the number of distinct rows of its own user, video or author |
| TableLaws.FriendQueriesAgree | dal/mysql/social/user_follow.go:49-80 | in every reachable table the count==2 query and IsMutualFollow agree on all pairs, and friendship is symmetric and irreflexive |
| TableLaws.SelfRowDisagrees | dal/mysql/social/user_follow.go:69-80 | on a self row the two would disagree, and no run of requests writes one |
| TableLaws.FollowTotals | dal/mysql/social/user_follow.go:23-36 | follow counts and follower counts both sum to the table size |
| TableLaws.LikedAuthor | dal/mysql/video/favorite.go:25-31 | a like counts for exactly the author of its video |
| TableLaws.FavoriteTotals | dal/mysql/video/favorite.go:18-37 | per-video counts, per-user counts and author totals all sum to the table size |
| Rows.CountsPartition | dal/mysql/video/favorite.go:18-37 | counts over keys that cover a table sum to its size |
| FavoriteSteps.NextInv | service/video/favorite.go:16-61 | every step of interleaved calls keeps the history a sequential one |
| FavoriteSteps.Linearizable | service/video/favorite.go:16-61 | in every interleaving tables and answers are those of whole requests executed one after another, in the order in which their outcomes were decided |
| FavoriteSteps.OneRequest | dal/mysql/video/favorite.go:40-71 | a successful like adds an absent pair, a successful cancel removes a present one, and anything else leaves the pair alone |
| FavoriteSteps.LikesAlternate | dal/mysql/video/favorite.go:40-71 | in every interleaving the successful likes and cancels of a pair alternate, like first, and the row is there exactly after a like |
| FavoriteSteps.TotalsAlways | dal/mysql/video/favorite.go:18-37 | in every interleaving the three kinds of counts sum to the table size |
| FavoriteSteps.CallEnds | service/video/favorite.go:16-61 | in every interleaving a call is answered after at most three steps of its own, none of which waits |
| RelationSteps.NextInv | service/social/relation.go:13-56 | every step of interleaved calls keeps the tables those of whole requests, and every code the one that its lookup and its statement account for |
| RelationSteps.TablesOfWhole | service/social/relation.go:13-56 | in every interleaving the tables are those of whole requests executed one after another, so follow rows stay unique and never name one user twice; an answer is that of the whole request if and only if it is no database error and no unfollow that deleted nothing |
| RelationSteps.WhenClash | dal/mysql/social/user_follow.go:9-14 | a follow is answered with the database error if and only if it saw no row and another follow of the pair put it there between its lookup and its INSERT, with no unfollow after that one |
| RelationSteps.WhenIdle | dal/mysql/social/user_follow.go:17-20 | an unfollow succeeds without deleting anything if and only if it saw the row and another unfollow of the pair took it away between its lookup and its DELETE, with no follow after that one |
| RelationSteps.FollowsAlternate | service/social/relation.go:22-47 | in every interleaving the successful follows and unfollows of a pair alternate, follow first, if and only if no unfollow of the pair deleted nothing; then the row is there exactly after a follow |
| RelationSteps.CallEnds | service/social/relation.go:13-56 | in every interleaving a call is answered after at most three steps of its own, none of which waits |
| RelationSteps.TwoUnfollows | service/social/relation.go:35-45 | a run in which two concurrent unfollows of one follow both succeed |
| RelationSteps.TwoFollows | service/social/relation.go:23-33 | a run in which the second of two concurrent follows is answered with the database error |
| SortedSet.RevRange | mw/redis/cache.go:293-297 | the first n members by score, ties by member string, both descending |
| SortedSet.OrderedUnique | mw/redis/cache.go:293-297 | that order determines the list |
| SortedSet.LexMeaning | mw/redis/cache.go:295-309 | one string comes after another if and only if it is greater at the first place where they differ, or goes on where the other ends |
| SortedSet.HitAgainstMiss | mw/redis/cache.go:236-309 | a hit is a permutation of the miss, and the identical list if and only if the rows already stand in score order |
| SortedSet.RisingTimes | dal/mysql/video/favorite.go:120-124 | the lists are identical where created_at strictly rises with the row id |
| SortedSet.TiesReordered | mw/redis/cache.go:271-283 | two likes within one second come back swapped once the list is cached |
| FavoriteList.BuildFavorites | service/video/favorite.go:79-94 | each id of the list becomes its row, with the viewer's own like; none is dropped |
| FavoriteList.GetFavoriteList | service/video/favorite.go:67-96 | the 30 newest likes, by where their rows stand, as video rows, each once; none if a set appeared between ZREVRANGE and EXISTS |
| TokenBucket.Limiter.RunScript | mw/redis/rate_limiter.go:61-88 | the stored hash, its expiry and the returned tokens after one request; other keys are untouched |
| TokenBucket.Limiter.AcquireBucket | mw/redis/rate_limiter.go:25-44 | permitted if and only if the returned tokens are not negative |
| TokenBucket.PermitBound | mw/redis/rate_limiter.go:61-88 | permits are at most capacity for every life of the key, plus refillToken * floor((last - first) / refill), and stored tokens stay at or above -1, for all positive parameters and all request times in order |
| TokenBucket.TokenBound | mw/redis/rate_limiter.go:70-84 | permits and tokens left stay within the capacity for every life of the key and what the whole periods in the gaps within those lives brought |
| TokenBucket.WhenRefilled | mw/redis/rate_limiter.go:70-85 | a request finds more tokens than the last one left if and only if the gap outlives the key or reaches a refill period in whole seconds; after a gap that outlives the key it finds the full capacity |
| TokenBucket.RefillAmount | mw/redis/rate_limiter.go:74-80 | a gap within the life of the key brings refillToken for every whole period in it, up to the capacity |
| TokenBucket.LifetimeMeaning | mw/redis/rate_limiter.go:85 | the key lives for the fewest whole seconds of which a refill period each adds up to the capacity |
| TokenBucket.PeriodsMeaning | mw/redis/rate_limiter.go:76 | n periods fit if and only if n are no longer than the gap and one more is |
| TokenBucket.NeverRefilled | mw/redis/rate_limiter.go:70-85 | a client is never refilled if and only if none of its gaps outlives the key or reaches a refill period |
| TokenBucket.SteadyClient | mw/redis/rate_limiter.go:78-84 | a client none of whose gaps reaches a refill period, except those that outlive the key, gets the first capacity requests of every life of the key and never another in it |
| TokenBucket.LifeOfKey | mw/redis/rate_limiter.go:85 | what is stored depends only on the requests since the last gap of ceil(capacity / refill) seconds or more |
| TokenBucket.ShippedExact | mw/redis/rate_limiter.go:9-16 | with the shipped constants the tokens after a request depend only on its place since the last pause of two seconds or more |
| TokenBucket.ServeClient | mw/redis/rate_limiter.go:25-44 | with the shipped constants a request is permitted if and only if it is among the first 60 since the last pause of two seconds or more |
| TokenBucket.ExactAhead | mw/redis/rate_limiter.go:70-84 | the simulation, expiry included: both buckets expire together, and storing lastUpdate keeps an earlier time and no fewer tokens |
| TokenBucket.NeverMorePermissive | mw/redis/rate_limiter.go:78-84 | each request that the stored-ts bucket permits, the lastUpdate bucket permits too, expiry included |
| TokenBucket.StrictlyLess | mw/redis/rate_limiter.go:78-84 | a sequence, within one life of the key, on which the lastUpdate bucket permits a request that the stored-ts one refuses |
| FixedWindow.Counters.RunScript | mw/redis/count_limiter.go:28-36 | count and expiry after one request; no counter ever lacks an expiry |
| FixedWindow.Counters.IncrementLimiterCount | mw/redis/count_limiter.go:38-44 | permitted if and only if the count is within the limit |
| FixedWindow.CountInWindow | mw/redis/count_limiter.go:28-36 | the counter is the place of the request in its window |
| FixedWindow.WindowPermits | mw/redis/count_limiter.go:38-44 | each window permits exactly its first max requests |
| FixedWindow.IntervalBound | mw/redis/count_limiter.go:38-44 | any closed interval of limiterTime holds at most 2 * max permits |
| FixedWindow.LimitsInForce | mw/redis/count_limiter.go:10-26 | in numbers: at most 10 logins, 10 registrations, 60 comments, 6 uploads and 100 messages within any two hours, and the first 5, 5, 30, 3 and 50 of each window |
| FixedWindow.OneWindowWait | mw/redis/count_limiter.go:28-36 | of two requests a limiterTime apart, some request after the first opens a window and is permitted |
| FixedWindow.ServeClient | mw/redis/count_limiter.go:38-64 | a client of the limiter is permitted exactly that way, for the limits of all five families |
| Feed.PrintedLatest | service/video/video.go:30-34 | a next_time sent back as text is the latest_time it stands for |
| Feed.ParseMeaning | service/video/video.go:29-34 | latest_time stands for itself if it is a decimal number of 64 bits, signed or not, and for zero otherwise |
| Feed.CutoffMeaning | service/video/cache.go:40-45 | a request starts at the positive number it names, and in every other case, absent or not a number included, now |
| Feed.FindVideosByIDs | dal/mysql/video/video.go:24-37 | maps exactly the stored ids among those asked for, each to its row |
| Feed.BatchIsFavorite | dal/mysql/video/favorite.go:89-106 | exactly the ids among those asked for that the user likes |
| Feed.PrefetchFavorites | service/video/video.go:149-159 | the same, and nothing for user 0 |
| Feed.FeedService.GetFeedVideoIDs | service/video/cache.go:40-54 | the newest 30 ids at or below the cutoff |
| Feed.FeedService.BackfillFeed | service/video/cache.go:57-67 | every row older than the current second is added, with its created_at |
| Feed.FeedService.VideoFeed | service/video/video.go:26-76 | the page at the cutoff after a backfill where it was empty: up to the positive number that latest_time names, or else up to now, at most 30 rows, newest first, each with the viewer's like, and a member is left out only if 30 are as new; next_time is the last row's created_at, or now |
| Feed.BuildList | service/video/video.go:61-72 | the list holds the row of every id, in order |
| Feed.FeedService.Handle | service/video/kafka.go:113-129 | the row is inserted, then its feed entry unless that write fails, then exactly the work count of the author is deleted; the cache stays coherent |
| Feed.ColdPage | service/video/cache.go:57-67 | a page of a feed rebuilt by a backfill holds the 30 newest rows at or before the cutoff that are older than the current second |
| Feed.ColdStart | service/video/video.go:36-48 | after the feed was lost, one VideoFeed request returns the 30 newest rows at or before latest_time that are older than the current second |
| Feed.NextInv | service/video/cache.go:34-67 | row inserts, feed writes, backfills and feed loss keep every feed member a row scored by its created_at |
| Feed.FeedAlwaysOk | service/video/cache.go:34-67 | in every interleaving of them, from an empty database on, each feed member is a video row and its score that row's created_at |
| Feed.FeedComplete | service/video/cache.go:34-66 | in every interleaving the feed holds exactly what was added to it and not lost since, and every row can still be added |
| FeedPaging.PageCovers | service/video/cache.go:40-54 | everything newer than the next cursor, up to this one, is on the page |
| FeedPaging.CursorFalls | service/video/video.go:61-74 | on a pageable feed the cursor falls as long as something older is left |
| FeedPaging.StrictFall | service/video/video.go:61-74 | from the second page on the cursor falls strictly with every page until the oldest second |
| FeedPaging.PageableVisited | service/video/video.go:36-74 | a walk of one page more than there are videos visits all of a pageable feed |
| FeedPaging.Stuck | service/video/cache.go:40-54 | a second that fills a page is never passed |
| FeedPaging.LastMissed | service/video/cache.go:40-54 | with such a second, or more than a page in the oldest one, the last video is on no page of any walk |
| FeedPaging.WalkVisitsAll | service/video/video.go:36-74 | every long enough walk visits everything at or before its start if and only if every second but the oldest holds fewer than 30 videos and the oldest at most 30 |
| FeedWalk.NextPage | service/video/video.go:61-74 | the next_time of a page is the cursor of the next |
| FeedWalk.Walk | service/video/video.go:26-76 | following next_time from any latest_time, on the feed as the first request shows or backfills it, with positive times and with follows, likes and publications above the cursor between the pages, visits everything if and only if the feed is pageable |

## Left out

- RedisCache.Redis.SetContains: answers false for a member when the entry expires between EXISTS, or its fill, and SISMEMBER, as the code does; the step machine has no SetContains.
- RedisCache.Redis.ReadUintSet: answers no ids for a non-empty set when a set appears between SMEMBERS and EXISTS, as the code does; `RedisCache.Redis.ReadUintZSet` likewise between ZREVRANGE and EXISTS.
- ServiceRuns.Serve: a read is right only if it is calm, for these two reasons; while a request writes, nothing else happens, and inside a read the tables do not change (the step machine lets them).
- ServiceRuns.ServeOne: the same exception, as for `ServiceRuns.ServeRead`.
- ServiceRuns.ServeRead: a set that appears between SMEMBERS or ZREVRANGE and EXISTS, or an entry that expires between EXISTS, or its fill, and SISMEMBER, makes it miss something.
- Services.Service.IsFollowing: false for a follow whose entry expires between EXISTS, or its fill, and SISMEMBER.
- Services.Service.IsFriend: false for a friend when either entry has expired at its SISMEMBER, for the same reason.
- Services.Service.GetFriendList: misses friends for the same reason, and all of them when a set appears between SMEMBERS and EXISTS.
- Services.Service.GetFollowSet: empty when a set appears between SMEMBERS and EXISTS, as are `Services.Service.GetFollowerSet` and, between ZREVRANGE and EXISTS, `Services.Service.GetUserFavoriteList`.
- RedisCache.Redis.LoadUintSet: the gap between a hit or fill and the deletion of the lock is left out; nothing that happens there reaches the caller.
- CacheLocks.LockTheorem: a crash inside the locked section is excluded, like a lock that expires under its holder; `CacheLocks.CallBounded` holds without either condition.
- CacheSteps.SetCoherence: the machine follows one user's ids and one count; ids are read as a set, so the order in which a sorted set lists them is not part of it (`SortedSet` has it).
- FeedWalk.Walk: between the pages the feed is not lost, and nothing at or below the cursor is published; `FeedWalk.Undisturbed` is that condition.
- RelationSteps.TablesOfWhole: publications and likes are not among its steps, as they do not touch the follow table.
- CommentListResponse and the other generated messages (login, register, publish, relation, message, social) use the same template as the eight modelled ones.
- The zero-copy writer argument of FastWriteNocopy: the nil writer that FastWrite passes is modelled.
- The Thrift runtime itself is not part of this model.  A primitive that fails consumes nothing, negative sizes are rejected, a boolean byte other than 1 reads as false, and Skip has no depth limit.
- Aliasing between a decoded message and its nested objects: nested structs and lists are held by value.
- LoadString and the user name cache: the same steps as LoadInt, over strings.
- JitterTTL and all lifetimes of cached entries: any entry may expire at any time.
- Failures of Redis, MySQL and Kafka, except a failed feed insert; read replicas and replication lag.
- Comment counts: deletion invalidates the video named in the request, not the comment's own.
- Scores are float64 in Redis and integers here: they agree up to 2^53.
- The clock of one VideoFeed call stands still between its two index reads.
- Token bucket times are whole seconds taken from the same clock, in milliseconds, by which Redis expires the key.
- PublishVideo before the queue, file storage, cover images, JWT, passwords, snowflake ids, the word filter, HTTP handlers, configuration and logging.
- BatchCreateUserFavorite, BatchDeleteUserFavorite, FindFavoriteByVideoId and GetLatestVideos have no caller among the modelled services.
