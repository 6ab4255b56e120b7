# rchan normalisation layer in Dafny

A model of the part of the `rchan` client library (a read-only client for the
4chan JSON API) that turns loosely-typed API records into clean `Post`,
`Attachment`, `Thread` and `ThreadInfo` values, with proofs about it.

The model has the two stages of the library:

1. **Raw record to typed record.** A JSON object is a datatype with one
   `Option<Json>` field per key (`None`: key absent), where
   `Json = JInt | JStr | JNull | JOther`. The decoders follow what serde's
   derived `Deserialize` does for `PostPre`, `AttachmentPre`, `ThreadPost`,
   `ThreadPre` and `ThreadInfoPre`: key renames (`name`→author, `com`→comment,
   `tim`→id, `fsize`→size, `w`/`h`, `tn_w`/`tn_h`, `m_img`, `filedeleted`,
   `since4pass`, `sub`, `omitted_posts`, `omitted_images`, `replies`, `images`,
   `bump_limit`, `image_limit`), `#[serde(default)]` (absent key → 0, `""`,
   `false`, `[]`), required keys (absent → `MissingField`), `Option` keys
   (absent or `null` → `None`), the `u32`/`u64`/`i32` ranges, integer flags
   through `int_to_bool`, and capcodes through the capcode parser. Each
   decoder is proved to accept exactly the records a declarative schema
   predicate (`WellFormedPost`, `WellFormedThreadPost`,
   `WellFormedCatalogThread`) describes, and lemmas state the value each
   key is read into, present and absent. The flags go through the
   corrected coercion `Lib.IntToBool`, which accepts every integer; the
   visitor as written accepts only negative integers (see "## Findings").
2. **Typed record to public value.** `Attachment::try_from` (`AttachmentFrom`),
   `Post::from` (`PostFrom`) and the `ThreadInfo` builder (`ThreadInfoFrom`),
   each paired with an inverse (`AttachmentToPre`, `PostToPre`,
   `ThreadInfoToPre`) and a round-trip lemma; the `Thread` builder
   (`BuildThread`), whose fields are stated against the list it reads; and an
   end-to-end round trip from a post to its wire form and back
   (`DeserializeEncodePost`).

Modules follow the source files: `Lib` (src/lib.rs), `Posts` (src/post.rs),
`Capcodes` (src/post/capcode.rs), `RawPosts` (src/post/post_pre.rs),
`Threads` (src/thread.rs), `RawThreads` (src/thread/thread_pre.rs); `Json`
holds serde's per-field rules and `Wrappers` the `Option`/`Result` types.
The API base URL `BASE` is the constant `"https://a.4cdn.org/"` in `Lib`.

Three behaviours of the code shape the model:

- An attachment exists exactly when the post has a `filename`; `tim` and
  `ext` default to 0 and `""` (`RawPosts.FilenameAloneMakesAttachment`).
- The code indexes element 0 of the `posts` list without a check, so an
  empty list panics. `RawThreads.BuildThread` requires a non-empty list and
  `RawThreads.DeserializeThread` requires that `posts` is not the empty list.
- src/post/post_pre.rs:78 builds the attachment with a field named
  `uploaded`, which `Attachment` does not declare (its field is `id`,
  src/post.rs:24); the model maps `tim` to `id`.

## Model

| member | source | states |
|---|---|---|
| `Json.DecodeSeq` | src/thread/thread_pre.rs:7 | a list decodes iff every element does; the result has the same length and order; on failure the error is that of the first failing element |
| `Lib.IntToBool` | src/lib.rs:22-39 | an integer is accepted, any other JSON value is rejected with the "an integer" type error |
| `Lib.IntToBoolZero` | src/lib.rs:33-35 | 0 reads as false |
| `Lib.IntToBoolNonZero` | src/lib.rs:33-35 | every non-zero integer, negative ones included, reads as true |
| `Lib.IntToBoolZeroness` | src/lib.rs:34 | the result depends only on whether the integer is zero |
| `Lib.IntToBoolInvertsFlagToInt` | src/lib.rs:33-35 | decoding the API's 0/1 encoding of a flag gives the flag back |
| `Lib.DecodeFlag` | src/post/post_pre.rs:52-55 | a defaulted integer flag: absent is false, present goes through int_to_bool |
| `Lib.IntToBoolAsDelivered` | src/lib.rs:27-38 | the visitor as serde_json drives it accepts only negative integers |
| `Lib.IntToBoolAsDeliveredRejectsFlags` | src/lib.rs:33-35 | the flag values 0 and 1 are rejected as written, while the intended coercion maps them back to the flag |
| `Lib.IntToBoolAsDeliveredAgreesOnNegatives` | src/lib.rs:33-35 | where the as-written visitor accepts, it agrees with the intended coercion |
| `Posts.Decimal` | src/post.rs:128 | the id is written as a non-empty string of decimal digits without leading zeros that reads back as the id |
| `Posts.Attachment.Url` | src/post.rs:123-130 | the URL is the media host, the board, `/`, the id in decimal, then the extension; it exists for every board string |
| `Posts.Attachment.ThumbnailUrl` | src/post.rs:136-143 | the thumbnail URL is the media host, the board, `/`, the id in decimal, `s`, then the extension |
| `Posts.Post.AttachmentUrl` | src/post.rs:105-107 | `None` iff the post has no attachment, otherwise the attachment's URL |
| `Posts.Post.ThumbnailUrl` | src/post.rs:113-115 | `None` iff the post has no attachment, otherwise the attachment's thumbnail URL |
| `Posts.UrlIdentifiesUpload` | src/post.rs:123-130 | two attachments with the same extension have the same URL on a board only if they have the same id |
| `Posts.ThumbnailUrlInsertsS` | src/post.rs:123-143 | the thumbnail URL is the full URL with `s` inserted before the extension |
| `Posts.UrlsDependOnlyOnIdAndExt` | src/post.rs:123-143 | both URLs read no attachment field but id and ext |
| `Posts.ThumbnailUrlDiffers` | src/post.rs:123-143 | the thumbnail URL never equals the full URL |
| `Capcodes.Token` | src/post/capcode.rs:20-26 | every role has a wire token from the closed set of six |
| `Capcodes.ParseCapcode` | src/post/capcode.rs:19-29 | accepted iff the string is one of the six tokens, and then the role whose token it is; otherwise the custom error "<token> is not a valid capcode" |
| `Capcodes.DecodeCapcode` | src/post/capcode.rs:32-38 | only a JSON string reaches the parser; any other value is a type error quoting the visitor's expectation |
| `Capcodes.ParseCapcodeToken` | src/post/capcode.rs:20-26 | mod, admin, admin_highlight, manager, developer, founder map to Mod, Admin, AdminHighlight, Manager, Developer, Founder |
| `Capcodes.ParseCapcodeInjective` | src/post/capcode.rs:20-26 | distinct accepted tokens give distinct roles |
| `Capcodes.ParseCapcodeSurjective` | src/post/capcode.rs:20-26 | every role is produced by exactly one token |
| `Capcodes.ParseCapcodeRejectsNearMisses` | src/post/capcode.rs:27 | "admins", "Mod" and "" are rejected |
| `Capcodes.RejectionNamesToken` | src/post/capcode.rs:27 | the rejection message starts with the offending token |
| `RawPosts.DecodeAttachmentPre` | src/post/post_pre.rs:33-56 | the attachment keys decode iff each is absent or of its type; the filename is present iff the `filename` key holds a string |
| `RawPosts.DecodePostPre` | src/post/post_pre.rs:3-31 | a post object decodes iff it meets the schema (five required keys, typed keys, known capcode); the capcode is `None` iff its key is absent or null; the values of the other keys are stated by `RawPosts.PresentPostKeysCopied` and `RawPosts.AbsentPostKeysDefault` |
| `RawPosts.AbsentAttachmentKeysDefault` | src/post/post_pre.rs:35-55 | absent tim, ext, fsize, md5, w, h, tn_w, tn_h, spoiler, m_img give 0, "", or false |
| `RawPosts.PresentPostKeysCopied` | src/post/post_pre.rs:3-31 | the required keys and every present post key are carried over under their new names (`name` as author, `id` as author id, `com` as comment); a string capcode is the role with that token; `filedeleted` goes through int_to_bool |
| `RawPosts.AbsentPostKeysDefault` | src/post/post_pre.rs:3-31 | absent or null optional post keys give `None`; an absent `filedeleted` gives false |
| `RawPosts.PresentAttachmentKeysCopied` | src/post/post_pre.rs:35-55 | present attachment keys are carried over under their new names; spoiler and m_img go through int_to_bool |
| `RawPosts.AttachmentFrom` | src/post/post_pre.rs:58-92 | fails iff the filename is absent, with "the attachment has no filename"; otherwise every field, tim as id, is carried over (the inverse gives the record back) |
| `RawPosts.AttachmentFromToPre` | src/post/post_pre.rs:58-92 | every attachment is recovered from the record it is read from |
| `RawPosts.PostFrom` | src/post/post_pre.rs:94-136 | total; the attachment is present iff the filename is; every other field, file_deleted included, is carried over unchanged |
| `RawPosts.PostFromToPre` | src/post/post_pre.rs:94-136 | every post is recovered from the record it is read from |
| `RawPosts.AttachmentAndFileDeletedIndependent` | src/post/post_pre.rs:94-136 | attachment presence and file_deleted occur in all four combinations |
| `RawPosts.DeserializePost` | src/post.rs:86-91 | a post object decodes iff it meets the schema; the attachment is present iff `filename` holds a string; the capcode is `None` iff its key is absent or null |
| `RawPosts.AbsentCapcodeIsNone` | src/post/post_pre.rs:14 | an absent capcode key is no error and gives no capcode |
| `RawPosts.UnknownCapcodeFailsPost` | src/post/post_pre.rs:14 | an unknown capcode token fails the whole post, with the message naming the token when nothing else is wrong |
| `RawPosts.TextPostHasNoAttachment` | src/post/post_pre.rs:33-56 | a post object without attachment keys decodes, with no attachment |
| `RawPosts.FilenameAloneMakesAttachment` | src/post/post_pre.rs:75-89 | a filename without tim or ext still gives an attachment, with id 0 and ext "" |
| `RawPosts.DecodeEncodeAttachmentPre` | src/post/post_pre.rs:33-56 | the attachment keys of a record's wire form decode to the record's attachment |
| `RawPosts.DecodeEncodePostPre` | src/post/post_pre.rs:3-56 | the wire form of a typed post record decodes back to it |
| `RawPosts.DeserializeEncodePost` | src/post.rs:86-91 | every post survives encoding to its wire form and both decoding stages |
| `Threads.ThreadInfo.ThreadNo` | src/thread.rs:45-47 | the thread's number is its opening post's number |
| `Threads.ThreadNoDependsOnlyOnOp` | src/thread.rs:45-47 | the thread number is unaffected by the reply tail, the counters and the flags |
| `RawThreads.MapSeq` | src/thread/thread_pre.rs:37-40 | mapping keeps the length and applies the function to each element in order |
| `RawThreads.DecodeThreadPost` | src/thread/thread_pre.rs:10-22 | a list element decodes iff its thread-level keys are typed and its post keys meet the post schema; its post record is the decoded post, and the thread-level values are stated by `RawThreads.ThreadPostKeysRead` |
| `RawThreads.ThreadPostKeysRead` | src/thread/thread_pre.rs:10-18 | a list element's sticky and closed go through int_to_bool (absent is false); `sub` is the subject and `unique_ips` the poster count, `None` when absent or null |
| `RawThreads.DecodeThreadPosts` | src/thread/thread_pre.rs:5-8 | the `posts` key is required; the list decodes iff every element does, in order |
| `RawThreads.BuildThread` | src/thread/thread_pre.rs:29-49 | no, sticky, closed, subject come from element 0, unique_posters is its unique_ips or 0; posts has the same length and order, each element normalised, the opening post first |
| `RawThreads.BuildThreadReadsHeadOnly` | src/thread/thread_pre.rs:30-35 | thread-level keys of later elements are ignored |
| `RawThreads.BuildThreadOfThree` | src/thread/thread_pre.rs:30-40 | an opening post and two replies give three posts in order, led by the opening post, with the opening post's sticky, closed and subject |
| `RawThreads.DeserializeThread` | src/thread/thread_pre.rs:24-51 | a thread response decodes iff `posts` is present and every element is well formed; each post equals the decoded post of its element; sticky and closed are element 0's flags; the thread's number is its first post's |
| `RawThreads.DeserializeThreadHeadKeys` | src/thread/thread_pre.rs:29-35 | the thread's number is element 0's `no`, its subject element 0's `sub`, and its unique posters element 0's `unique_ips`, 0 when absent or null |
| `RawThreads.DecodeLastReplies` | src/thread/thread_pre.rs:57-58 | an absent reply tail is empty; a present one decodes element by element |
| `RawThreads.DecodeThreadInfoPre` | src/thread/thread_pre.rs:53-87 | a catalog record decodes iff it meets the schema: opening post and tail well formed, replies, last_modified and semantic_url present, everything typed |
| `RawThreads.DecodeThreadInfoPrePosts` | src/thread/thread_pre.rs:55-58 | the opening post and the tail are decoded as posts are |
| `RawThreads.AbsentCatalogKeysDefault` | src/thread/thread_pre.rs:59-84 | absent omitted counts and image count are 0; absent sticky, closed and limit flags are false; an absent or null `sub` is `None` |
| `RawThreads.PresentCatalogKeysCopied` | src/thread/thread_pre.rs:59-86 | replies, last_modified and semantic_url, and every present counter and `sub`, are carried over under their new names; the four flags go through int_to_bool |
| `RawThreads.ThreadInfoFrom` | src/thread/thread_pre.rs:109-126 | the opening post and each tail element are normalised, in order; all counters and flags are carried over unchanged |
| `RawThreads.ThreadInfoFromToPre` | src/thread/thread_pre.rs:109-126 | every catalog thread is recovered from the record it is read from |
| `RawThreads.DeserializeThreadInfo` | src/thread/thread_pre.rs:89-128 | a catalog record decodes iff it meets the schema; the opening post and each tail element equal the decoded posts; an absent tail is empty |
| `RawThreads.ThreadMatchesCatalog` | src/thread.rs:40-47 | a full thread led by a catalog thread's opening post has that catalog thread's number and opening post |
| `RawThreads.ThreadEndsWithCatalogTail` | src/thread.rs:12-67 | when the catalog tail is the thread's last replies, the full thread starts with the opening post and ends with exactly that tail |
| `RawThreads.ThreadIsOpPlusTail` | src/thread.rs:12-67 | with nothing omitted, the full thread's posts are the opening post followed by the catalog tail |

## Left out

- src/client.rs: the HTTP fetch layer (request URLs, status-code check, the request itself) is network I/O.
- src/error.rs and the `Error` enum of src/lib.rs:41-76: they wrap foreign HTTP and JSON error types; decoding errors are modelled as `Json.DecodeError`.
- src/board.rs and src/catalog.rs: `Board`, `Boards`, `Catalog` and `Page` are derived records with key renames and no logic of their own.
- JSON lexing: decoding starts from JSON values. A non-integer number, a boolean, an array or an object where a scalar is expected is one value, `JOther`; integers too large for serde_json to read as integers are not distinguished from others.
- A `posts` or `last_replies` value that is not a list of objects, or `null`, cannot be written as a raw record; such input is not modelled.
- Key order: serde reports the first bad key in the order of the JSON text; the model reports the first in declaration order. Whether a record decodes does not depend on this. Duplicate keys are not modelled.
- The full text of serde's error messages: only the kind and the expected-type text are modelled.
- `Lib.BASE` is used only by the fetch layer and is modelled as a constant.
- `RawThreads.BuildThread`: an empty list panics in the source; modelled as a precondition, so the panic itself is not modelled.
- `RawThreads.DecodeThreadInfoPre`: its contract states only when a record is accepted; the values it produces are stated by the lemmas `RawThreads.DecodeThreadInfoPrePosts` (opening post and tail), `RawThreads.PresentCatalogKeysCopied` (present keys) and `RawThreads.AbsentCatalogKeysDefault` (absent keys).
- `Lib.IntToBool`: every decoder uses this corrected coercion; with `Lib.IntToBoolAsDelivered`, the visitor as written, any non-negative flag value would fail the whole record, so the schema predicates accept 0/1 flags that the program as written rejects.

## Findings

| source | as written | input that shows it | evidently intended | confidence | as-written member | corrected member |
|---|---|---|---|---|---|---|
| src/lib.rs:27-38 | the visitor handles only `visit_i64`; serde_json passes a non-negative integer to `visit_u64`, whose default rejects it, so only negative integers are accepted | any flag key holding 0 or 1, e.g. `"m_img": 1` or `"sticky": 1` | every integer accepted, 0 as false and any other as true | not executed; medium, since it rests on serde_json's dispatch of non-negative integers, which lies outside this repository | `Lib.IntToBoolAsDelivered` (discrepancy shown by `Lib.IntToBoolAsDeliveredRejectsFlags`) | `Lib.IntToBool` (with `Lib.IntToBoolZero`, `Lib.IntToBoolNonZero`, `Lib.IntToBoolInvertsFlagToInt`) |
