/**
 * The two normalisation stages for threads (src/thread/thread_pre.rs): a full
 * thread, read from the `posts` list of a thread response, and a catalog
 * thread, read from one flattened catalog record.
 */
module RawThreads {
  import opened Wrappers
  import opened Json
  import opened Lib
  import opened Posts
  import opened RawPosts
  import opened Threads

  // ---------------------------------------------------------------------
  // Raw JSON records
  // ---------------------------------------------------------------------

  /** One element of a thread's `posts` list: the thread-level keys and the post keys of one object. */
  datatype RawThreadPost = RawThreadPost(
    sticky: Option<Json>,
    closed: Option<Json>,
    sub: Option<Json>,
    unique_ips: Option<Json>,
    post: RawPost)

  /** A thread response: an object whose `posts` key holds the list, the opening post first. */
  datatype RawThread = RawThread(posts: Option<seq<RawThreadPost>>)

  /**
   * One thread of a catalog page: the opening post's keys at top level, an
   * optional `last_replies` list of post objects, and the thread counters.
   */
  datatype RawCatalogThread = RawCatalogThread(
    op: RawPost,
    last_replies: Option<seq<RawPost>>,
    sticky: Option<Json>,
    closed: Option<Json>,
    sub: Option<Json>,
    omitted_posts: Option<Json>,
    omitted_images: Option<Json>,
    replies: Option<Json>,
    images: Option<Json>,
    bump_limit: Option<Json>,
    image_limit: Option<Json>,
    last_modified: Option<Json>,
    semantic_url: Option<Json>)

  // ---------------------------------------------------------------------
  // Typed records
  // ---------------------------------------------------------------------

  datatype ThreadPost = ThreadPost(
    sticky: bool,
    closed: bool,
    subject: Option<string>,
    uniqueIps: Option<int32>,
    post: PostPre)

  datatype ThreadInfoPre = ThreadInfoPre(
    opPost: PostPre,
    lastReplies: seq<PostPre>,
    sticky: bool,
    closed: bool,
    subject: Option<string>,
    postsOmitted: int32,
    imagesOmitted: int32,
    nReplies: int32,
    nImages: int32,
    bumpLimitReached: bool,
    imageLimitReached: bool,
    lastModified: uint64,
    semanticUrl: string)

  /** `into_iter().map(f).collect()`: `f` applied to every element, in order. */
  function MapSeq<A, B>(s: seq<A>, f: A -> B): (r: seq<B>)
    ensures |r| == |s|
    ensures forall i | 0 <= i < |s| :: r[i] == f(s[i])
  {
    if s == [] then [] else [f(s[0])] + MapSeq(s[1..], f)
  }

  // ---------------------------------------------------------------------
  // Full thread
  // ---------------------------------------------------------------------

  predicate WellFormedThreadPost(raw: RawThreadPost) {
    && DefaultOk(raw.sticky, IsInteger)
    && DefaultOk(raw.closed, IsInteger)
    && OptionalOk(raw.sub, IsString)
    && OptionalOk(raw.unique_ips, IsI32)
    && WellFormedPost(raw.post)
  }

  /** `ThreadPost`'s derived `Deserialize`. */
  function DecodeThreadPost(raw: RawThreadPost): (r: Decoded<ThreadPost>)
    ensures r.Ok? <==> WellFormedThreadPost(raw)
    ensures r.Ok? ==> r.value.post == DecodePostPre(raw.post).value
  {
    var sticky :- DecodeFlag(raw.sticky);
    var closed :- DecodeFlag(raw.closed);
    var subject :- Optional(raw.sub, DecodeString);
    var uniqueIps :- Optional(raw.unique_ips, DecodeI32);
    var post :- DecodePostPre(raw.post);
    Ok(ThreadPost(sticky, closed, subject, uniqueIps, post))
  }

  /**
   * The thread-level keys of a list element: `sticky` and `closed` through
   * `int_to_bool` (absent is `false`), `sub` as the subject and
   * `unique_ips` as the poster count (absent or `null` is `None`).
   */
  lemma ThreadPostKeysRead(raw: RawThreadPost)
    requires WellFormedThreadPost(raw)
    ensures var tp := DecodeThreadPost(raw).value;
      && (raw.sticky.None? ==> !tp.sticky)
      && (raw.sticky.Some? ==> Ok(tp.sticky) == IntToBool(raw.sticky.value))
      && (raw.closed.None? ==> !tp.closed)
      && (raw.closed.Some? ==> Ok(tp.closed) == IntToBool(raw.closed.value))
      && (raw.sub.None? || raw.sub.value.JNull? ==> tp.subject.None?)
      && (raw.sub.Some? && raw.sub.value.JStr? ==> tp.subject == Some(raw.sub.value.s))
      && (raw.unique_ips.None? || raw.unique_ips.value.JNull? ==> tp.uniqueIps.None?)
      && (raw.unique_ips.Some? && raw.unique_ips.value.JInt? ==> tp.uniqueIps == Some(raw.unique_ips.value.n))
  {
  }

  /** `ThreadPre`'s derived `Deserialize`: the `posts` key is required. */
  function DecodeThreadPosts(raw: RawThread): (r: Decoded<seq<ThreadPost>>)
    ensures r.Ok? <==> raw.posts.Some? && forall i | 0 <= i < |raw.posts.value| :: WellFormedThreadPost(raw.posts.value[i])
    ensures r.Ok? ==> |r.value| == |raw.posts.value|
    ensures r.Ok? ==> forall i | 0 <= i < |r.value| :: r.value[i] == DecodeThreadPost(raw.posts.value[i]).value
  {
    match raw.posts
    case None => Err(MissingField("posts"))
    case Some(ps) => DecodeSeq(ps, DecodeThreadPost)
  }

  /**
   * The body of `Thread::deserialize` once the list is decoded: the
   * thread-level fields come from element 0 alone, and every element,
   * the opening post included, is normalised in order. The source indexes
   * element 0 without a check, so an empty list is a panic, not an error.
   */
  function BuildThread(posts: seq<ThreadPost>): (t: Thread)
    requires |posts| > 0
    ensures t.no == posts[0].post.no
    ensures t.sticky == posts[0].sticky && t.closed == posts[0].closed && t.subject == posts[0].subject
    ensures t.uniquePosters == posts[0].uniqueIps.GetOr(0)
    ensures |t.posts| == |posts|
    ensures forall i | 0 <= i < |posts| :: t.posts[i] == PostFrom(posts[i].post)
    ensures t.no == t.posts[0].no
  {
    var op := posts[0];
    Thread(op.post.no, op.sticky, op.closed, op.subject, op.uniqueIps.GetOr(0),
           MapSeq(posts, (p: ThreadPost) => PostFrom(p.post)))
  }

  /**
   * The thread-level keys of later elements are ignored: two lists with the
   * same first element and the same posts build the same thread.
   */
  lemma BuildThreadReadsHeadOnly(posts: seq<ThreadPost>, others: seq<ThreadPost>)
    requires |posts| == |others| > 0 && posts[0] == others[0]
    requires forall i | 0 <= i < |posts| :: posts[i].post == others[i].post
    ensures BuildThread(posts) == BuildThread(others)
  {
    assert BuildThread(posts).posts == BuildThread(others).posts;
  }

  /** An opening post and two replies give a three-post thread in that order, led by the opening post. */
  lemma BuildThreadOfThree(op: ThreadPost, r1: ThreadPost, r2: ThreadPost)
    requires op.post.resto == 0
    ensures var t := BuildThread([op, r1, r2]);
      && t.posts == [PostFrom(op.post), PostFrom(r1.post), PostFrom(r2.post)]
      && t.posts[0].resto == 0
      && t.sticky == op.sticky && t.closed == op.closed && t.subject == op.subject
  {
  }

  /** `Thread::deserialize`. */
  function DeserializeThread(raw: RawThread): (r: Decoded<Thread>)
    requires raw.posts != Some([])
    ensures r.Ok? <==> raw.posts.Some? && forall i | 0 <= i < |raw.posts.value| :: WellFormedThreadPost(raw.posts.value[i])
    ensures r.Ok? ==> |r.value.posts| == |raw.posts.value|
    ensures r.Ok? ==> forall i | 0 <= i < |r.value.posts| :: Ok(r.value.posts[i]) == DeserializePost(raw.posts.value[i].post)
    ensures r.Ok? ==> Ok(r.value.sticky) == DecodeFlag(raw.posts.value[0].sticky)
    ensures r.Ok? ==> Ok(r.value.closed) == DecodeFlag(raw.posts.value[0].closed)
    ensures r.Ok? ==> r.value.no == r.value.posts[0].no
  {
    var posts :- DecodeThreadPosts(raw);
    Ok(BuildThread(posts))
  }

  /**
   * The thread-level fields of a decoded thread, read off the raw opening
   * element: its `no`, its `sub`, and its `unique_ips` with 0 when that key
   * is absent or `null`.
   */
  lemma DeserializeThreadHeadKeys(raw: RawThread)
    requires raw.posts != Some([]) && DeserializeThread(raw).Ok?
    ensures var t := DeserializeThread(raw).value; var op := raw.posts.value[0];
      && t.no == op.post.no.value.n
      && (op.sub.None? || op.sub.value.JNull? ==> t.subject.None?)
      && (op.sub.Some? && op.sub.value.JStr? ==> t.subject == Some(op.sub.value.s))
      && (op.unique_ips.None? || op.unique_ips.value.JNull? ==> t.uniquePosters == 0)
      && (op.unique_ips.Some? && op.unique_ips.value.JInt? ==> t.uniquePosters == op.unique_ips.value.n)
  {
    var op := raw.posts.value[0];
    var posts := DecodeThreadPosts(raw).value;
    assert posts[0] == DecodeThreadPost(op).value;
    ThreadPostKeysRead(op);
    PresentPostKeysCopied(op.post);
  }

  // ---------------------------------------------------------------------
  // Catalog thread
  // ---------------------------------------------------------------------

  /** The reply tail is absent, or every reply in it is a well-formed post object. */
  predicate WellFormedTail(v: Option<seq<RawPost>>) {
    v.Some? ==> forall i | 0 <= i < |v.value| :: WellFormedPost(v.value[i])
  }

  predicate WellFormedCatalogThread(raw: RawCatalogThread) {
    && WellFormedPost(raw.op)
    && WellFormedTail(raw.last_replies)
    && DefaultOk(raw.sticky, IsInteger)
    && DefaultOk(raw.closed, IsInteger)
    && OptionalOk(raw.sub, IsString)
    && DefaultOk(raw.omitted_posts, IsI32)
    && DefaultOk(raw.omitted_images, IsI32)
    && RequiredOk(raw.replies, IsI32)
    && DefaultOk(raw.images, IsI32)
    && DefaultOk(raw.bump_limit, IsInteger)
    && DefaultOk(raw.image_limit, IsInteger)
    && RequiredOk(raw.last_modified, IsU64)
    && RequiredOk(raw.semantic_url, IsString)
  }

  /** The `#[serde(default)]` reply tail: an absent key is the empty list. */
  function DecodeLastReplies(v: Option<seq<RawPost>>): (r: Decoded<seq<PostPre>>)
    ensures r.Ok? <==> WellFormedTail(v)
    ensures r.Ok? && v.None? ==> r.value == []
    ensures r.Ok? && v.Some? ==> |r.value| == |v.value|
    ensures r.Ok? && v.Some? ==> forall i | 0 <= i < |v.value| :: DecodePostPre(v.value[i]) == Ok(r.value[i])
  {
    match v
    case None => Ok([])
    case Some(rs) => DecodeSeq(rs, DecodePostPre)
  }

  /** `ThreadInfoPre`'s derived `Deserialize`. */
  function DecodeThreadInfoPre(raw: RawCatalogThread): (r: Decoded<ThreadInfoPre>)
    ensures r.Ok? <==> WellFormedCatalogThread(raw)
  {
    var opPost :- DecodePostPre(raw.op);
    var lastReplies :- DecodeLastReplies(raw.last_replies);
    var sticky :- DecodeFlag(raw.sticky);
    var closed :- DecodeFlag(raw.closed);
    var subject :- Optional(raw.sub, DecodeString);
    var postsOmitted :- WithDefault(raw.omitted_posts, 0, DecodeI32);
    var imagesOmitted :- WithDefault(raw.omitted_images, 0, DecodeI32);
    var nReplies :- Required("replies", raw.replies, DecodeI32);
    var nImages :- WithDefault(raw.images, 0, DecodeI32);
    var bumpLimitReached :- DecodeFlag(raw.bump_limit);
    var imageLimitReached :- DecodeFlag(raw.image_limit);
    var lastModified :- Required("last_modified", raw.last_modified, DecodeU64);
    var semanticUrl :- Required("semantic_url", raw.semantic_url, DecodeString);
    Ok(ThreadInfoPre(opPost, lastReplies, sticky, closed, subject, postsOmitted, imagesOmitted,
                     nReplies, nImages, bumpLimitReached, imageLimitReached, lastModified, semanticUrl))
  }

  /** The opening post and the reply tail of a catalog thread are decoded as posts are. */
  lemma DecodeThreadInfoPrePosts(raw: RawCatalogThread)
    requires DecodeThreadInfoPre(raw).Ok?
    ensures DecodePostPre(raw.op) == Ok(DecodeThreadInfoPre(raw).value.opPost)
    ensures DecodeLastReplies(raw.last_replies) == Ok(DecodeThreadInfoPre(raw).value.lastReplies)
  {
  }

  /** Absent counters are zero, absent flags are `false`, and an absent or `null` subject is `None`. */
  lemma AbsentCatalogKeysDefault(raw: RawCatalogThread)
    requires WellFormedCatalogThread(raw)
    ensures var pre := DecodeThreadInfoPre(raw).value;
      && (raw.omitted_posts.None? ==> pre.postsOmitted == 0)
      && (raw.omitted_images.None? ==> pre.imagesOmitted == 0)
      && (raw.images.None? ==> pre.nImages == 0)
      && (raw.bump_limit.None? ==> !pre.bumpLimitReached)
      && (raw.image_limit.None? ==> !pre.imageLimitReached)
      && (raw.sticky.None? ==> !pre.sticky)
      && (raw.closed.None? ==> !pre.closed)
      && (raw.sub.None? || raw.sub.value.JNull? ==> pre.subject.None?)
  {
  }

  /**
   * Present catalog keys are carried over under their new names (`replies`,
   * `images`, `omitted_posts`, `omitted_images`, `sub`); the four flags go
   * through `int_to_bool`.
   */
  lemma PresentCatalogKeysCopied(raw: RawCatalogThread)
    requires WellFormedCatalogThread(raw)
    ensures var pre := DecodeThreadInfoPre(raw).value;
      && pre.nReplies == raw.replies.value.n
      && pre.lastModified == raw.last_modified.value.n
      && pre.semanticUrl == raw.semantic_url.value.s
      && (raw.omitted_posts.Some? ==> pre.postsOmitted == raw.omitted_posts.value.n)
      && (raw.omitted_images.Some? ==> pre.imagesOmitted == raw.omitted_images.value.n)
      && (raw.images.Some? ==> pre.nImages == raw.images.value.n)
      && (raw.sub.Some? && raw.sub.value.JStr? ==> pre.subject == Some(raw.sub.value.s))
      && (raw.sticky.Some? ==> Ok(pre.sticky) == IntToBool(raw.sticky.value))
      && (raw.closed.Some? ==> Ok(pre.closed) == IntToBool(raw.closed.value))
      && (raw.bump_limit.Some? ==> Ok(pre.bumpLimitReached) == IntToBool(raw.bump_limit.value))
      && (raw.image_limit.Some? ==> Ok(pre.imageLimitReached) == IntToBool(raw.image_limit.value))
  {
    DecodeThreadInfoPreFields(raw);
  }

  /** A well-formed catalog record decodes key by key, each under the rule for its field. */
  lemma DecodeThreadInfoPreFields(raw: RawCatalogThread)
    requires WellFormedCatalogThread(raw)
    ensures DecodeThreadInfoPre(raw) == Ok(ThreadInfoPre(
        DecodePostPre(raw.op).value, DecodeLastReplies(raw.last_replies).value,
        DecodeFlag(raw.sticky).value, DecodeFlag(raw.closed).value,
        Optional(raw.sub, DecodeString).value,
        WithDefault(raw.omitted_posts, 0, DecodeI32).value,
        WithDefault(raw.omitted_images, 0, DecodeI32).value,
        raw.replies.value.n, WithDefault(raw.images, 0, DecodeI32).value,
        DecodeFlag(raw.bump_limit).value, DecodeFlag(raw.image_limit).value,
        raw.last_modified.value.n, raw.semantic_url.value.s))
  {
    assert Required("replies", raw.replies, DecodeI32) == Ok(raw.replies.value.n);
    assert Required("last_modified", raw.last_modified, DecodeU64) == Ok(raw.last_modified.value.n);
    assert Required("semantic_url", raw.semantic_url, DecodeString) == Ok(raw.semantic_url.value.s);
  }

  /** The record a catalog thread is read from. */
  function ThreadInfoToPre(t: ThreadInfo): ThreadInfoPre {
    ThreadInfoPre(PostToPre(t.opPost), MapSeq(t.lastReplies, PostToPre), t.sticky, t.closed, t.subject,
                  t.postsOmitted, t.imagesOmitted, t.nReplies, t.nImages,
                  t.bumpLimitReached, t.imageLimitReached, t.lastModified, t.semanticUrl)
  }

  /**
   * The body of `ThreadInfo::deserialize` once the record is decoded: the
   * opening post and every reply of the tail are normalised, in order, and
   * the counters and flags are carried over unchanged.
   */
  function ThreadInfoFrom(pre: ThreadInfoPre): (t: ThreadInfo)
    ensures t.opPost == PostFrom(pre.opPost)
    ensures |t.lastReplies| == |pre.lastReplies|
    ensures forall i | 0 <= i < |pre.lastReplies| :: t.lastReplies[i] == PostFrom(pre.lastReplies[i])
    ensures ThreadInfoToPre(t).(opPost := pre.opPost, lastReplies := pre.lastReplies) == pre
  {
    ThreadInfo(PostFrom(pre.opPost), MapSeq(pre.lastReplies, PostFrom), pre.sticky, pre.closed,
               pre.subject, pre.postsOmitted, pre.imagesOmitted, pre.nReplies, pre.nImages,
               pre.bumpLimitReached, pre.imageLimitReached, pre.lastModified, pre.semanticUrl)
  }

  /** Every catalog thread survives the trip to its record and back. */
  lemma {:induction false} ThreadInfoFromToPre(t: ThreadInfo)
    ensures ThreadInfoFrom(ThreadInfoToPre(t)) == t
  {
    var u := ThreadInfoFrom(ThreadInfoToPre(t));
    PostFromToPre(t.opPost);
    forall i | 0 <= i < |t.lastReplies|
      ensures u.lastReplies[i] == t.lastReplies[i]
    {
      PostFromToPre(t.lastReplies[i]);
    }
    assert u.lastReplies == t.lastReplies;
  }

  /** `ThreadInfo::deserialize`. */
  function DeserializeThreadInfo(raw: RawCatalogThread): (r: Decoded<ThreadInfo>)
    ensures r.Ok? <==> WellFormedCatalogThread(raw)
    ensures r.Ok? ==> Ok(r.value.opPost) == DeserializePost(raw.op)
    ensures r.Ok? && raw.last_replies.None? ==> r.value.lastReplies == []
    ensures r.Ok? && raw.last_replies.Some? ==>
      |r.value.lastReplies| == |raw.last_replies.value|
      && forall i | 0 <= i < |r.value.lastReplies| :: Ok(r.value.lastReplies[i]) == DeserializePost(raw.last_replies.value[i])
  {
    var pre :- DecodeThreadInfoPre(raw);
    Ok(ThreadInfoFrom(pre))
  }

  // ---------------------------------------------------------------------
  // Full thread against catalog thread
  // ---------------------------------------------------------------------

  /** A full thread whose first post is a catalog thread's opening post has that catalog thread's number. */
  lemma ThreadMatchesCatalog(posts: seq<ThreadPost>, info: ThreadInfoPre)
    requires |posts| > 0 && posts[0].post == info.opPost
    ensures BuildThread(posts).no == ThreadInfoFrom(info).ThreadNo()
    ensures BuildThread(posts).posts[0] == ThreadInfoFrom(info).opPost
  {
  }

  /**
   * The full thread holds every post with the opening post first, where the
   * catalog keeps the opening post apart: when the catalog's tail is the
   * last replies of the thread, the full thread ends with exactly that tail.
   */
  lemma {:induction false} ThreadEndsWithCatalogTail(posts: seq<ThreadPost>, info: ThreadInfoPre)
    requires |posts| > |info.lastReplies| && posts[0].post == info.opPost
    requires forall i | 0 <= i < |info.lastReplies| ::
      posts[|posts| - |info.lastReplies| + i].post == info.lastReplies[i]
    ensures var t := BuildThread(posts); var c := ThreadInfoFrom(info);
      t.posts[0] == c.opPost && t.posts[|posts| - |c.lastReplies|..] == c.lastReplies
  {
    var t := BuildThread(posts);
    var c := ThreadInfoFrom(info);
    var k := |posts| - |c.lastReplies|;
    forall i | 0 <= i < |c.lastReplies|
      ensures t.posts[k..][i] == c.lastReplies[i]
    {
      assert t.posts[k + i] == PostFrom(posts[k + i].post);
    }
  }

  /** When nothing is omitted, the full thread is the catalog's opening post followed by its tail. */
  lemma ThreadIsOpPlusTail(posts: seq<ThreadPost>, info: ThreadInfoPre)
    requires |posts| == |info.lastReplies| + 1 && posts[0].post == info.opPost
    requires forall i | 0 <= i < |info.lastReplies| :: posts[i + 1].post == info.lastReplies[i]
    ensures BuildThread(posts).posts == [ThreadInfoFrom(info).opPost] + ThreadInfoFrom(info).lastReplies
  {
    ThreadEndsWithCatalogTail(posts, info);
    var t := BuildThread(posts);
    assert t.posts == [t.posts[0]] + t.posts[1..];
  }
}
