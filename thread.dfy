/**
 * The public thread types (src/thread.rs): a thread as the catalog shows it,
 * with the opening post kept apart from a tail of recent replies, and a full
 * thread holding every post.
 */
module Threads {
  import opened Wrappers
  import opened Json
  import opened Posts

  /** A thread as it appears on a catalog page. */
  datatype ThreadInfo = ThreadInfo(
    opPost: Post,
    lastReplies: seq<Post>,
    sticky: bool,
    closed: bool,
    subject: Option<string>,
    postsOmitted: int32,
    imagesOmitted: int32,
    nReplies: int32,
    nImages: int32,
    bumpLimitReached: bool,
    imageLimitReached: bool,
    lastModified: uint64,
    semanticUrl: string)
  {
    /** The thread's number, by which the full thread is fetched: its opening post's number. */
    function ThreadNo(): (n: uint32)
      ensures n == opPost.no
    {
      opPost.no
    }
  }

  /** A thread with every post, the opening post first. */
  datatype Thread = Thread(
    no: uint32,
    sticky: bool,
    closed: bool,
    subject: Option<string>,
    uniquePosters: int32,
    posts: seq<Post>)

  /** The thread number reads nothing but the opening post: not the tail, the counters or the flags. */
  lemma ThreadNoDependsOnlyOnOp(t: ThreadInfo, u: ThreadInfo)
    requires t.opPost == u.opPost
    ensures t.ThreadNo() == u.ThreadNo()
  {
  }
}
