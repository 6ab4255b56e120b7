/**
 * The two normalisation stages for one post (src/post/post_pre.rs).
 *
 * Stage one reads a raw JSON post object into the typed records `PostPre`
 * and `AttachmentPre`, the way serde's derived `Deserialize` does: renamed
 * keys, defaults for absent keys, integer flags through `int_to_bool`,
 * capcodes through the capcode parser. Stage two turns those records into
 * the public `Post` and `Attachment`, and never fails.
 */
module RawPosts {
  import opened Wrappers
  import opened Json
  import opened Lib
  import opened Posts
  import opened Capcodes

  /**
   * One JSON post object: each field is the value under the key of the same
   * name, `None` when the key is absent. The attachment keys sit in the same
   * object as the post keys (the attachment record is flattened into it).
   */
  datatype RawPost = RawPost(
    no: Option<Json>,
    resto: Option<Json>,
    now: Option<Json>,
    time: Option<Json>,
    name: Option<Json>,
    trip: Option<Json>,
    id: Option<Json>,
    capcode: Option<Json>,
    country: Option<Json>,
    country_name: Option<Json>,
    board_flag: Option<Json>,
    flag_name: Option<Json>,
    com: Option<Json>,
    tim: Option<Json>,
    filename: Option<Json>,
    ext: Option<Json>,
    fsize: Option<Json>,
    md5: Option<Json>,
    w: Option<Json>,
    h: Option<Json>,
    tn_w: Option<Json>,
    tn_h: Option<Json>,
    spoiler: Option<Json>,
    m_img: Option<Json>,
    filedeleted: Option<Json>,
    since4pass: Option<Json>)

  /** The attachment keys of a post, typed and defaulted; the filename alone stays optional. */
  datatype AttachmentPre = AttachmentPre(
    uploaded: uint64,
    filename: Option<string>,
    ext: string,
    size: uint64,
    md5: string,
    width: int32,
    height: int32,
    thumbnailWidth: int32,
    thumbnailHeight: int32,
    spoiler: bool,
    mobileOptimized: bool)

  /** A post, typed and defaulted, with its attachment keys still unchecked for presence. */
  datatype PostPre = PostPre(
    no: uint32,
    resto: uint32,
    now: string,
    time: uint64,
    author: string,
    trip: Option<string>,
    authorId: Option<string>,
    capcode: Option<Capcode>,
    country: Option<string>,
    countryName: Option<string>,
    boardFlag: Option<string>,
    flagName: Option<string>,
    comment: Option<string>,
    attachment: AttachmentPre,
    fileDeleted: bool,
    since4pass: Option<int32>)

  /** What a post without any attachment key reads as. */
  const NO_ATTACHMENT: AttachmentPre :=
    AttachmentPre(0, None, "", 0, "", 0, 0, 0, 0, false, false)

  /** The error `Attachment::try_from` gives for a record without a filename. */
  const NO_FILENAME: string := "the attachment has no filename"

  // ---------------------------------------------------------------------
  // Stage one: raw JSON object to typed records
  // ---------------------------------------------------------------------

  /** Which attachment keys serde accepts: each absent or of its declared type. */
  predicate WellFormedAttachment(raw: RawPost) {
    && DefaultOk(raw.tim, IsU64)
    && OptionalOk(raw.filename, IsString)
    && DefaultOk(raw.ext, IsString)
    && DefaultOk(raw.fsize, IsU64)
    && DefaultOk(raw.md5, IsString)
    && DefaultOk(raw.w, IsI32)
    && DefaultOk(raw.h, IsI32)
    && DefaultOk(raw.tn_w, IsI32)
    && DefaultOk(raw.tn_h, IsI32)
    && DefaultOk(raw.spoiler, IsInteger)
    && DefaultOk(raw.m_img, IsInteger)
  }

  /**
   * Which post objects serde accepts: the five required keys present, every
   * key of its declared type, and a capcode, when there is one, among the
   * known tokens.
   */
  predicate WellFormedPost(raw: RawPost) {
    && RequiredOk(raw.no, IsU32)
    && RequiredOk(raw.resto, IsU32)
    && RequiredOk(raw.now, IsString)
    && RequiredOk(raw.time, IsU64)
    && RequiredOk(raw.name, IsString)
    && OptionalOk(raw.trip, IsString)
    && OptionalOk(raw.id, IsString)
    && OptionalOk(raw.capcode, IsCapcodeToken)
    && OptionalOk(raw.country, IsString)
    && OptionalOk(raw.country_name, IsString)
    && OptionalOk(raw.board_flag, IsString)
    && OptionalOk(raw.flag_name, IsString)
    && OptionalOk(raw.com, IsString)
    && WellFormedAttachment(raw)
    && DefaultOk(raw.filedeleted, IsInteger)
    && OptionalOk(raw.since4pass, IsI32)
  }

  /** `AttachmentPre`'s derived `Deserialize`, reading the attachment keys of a post object. */
  function DecodeAttachmentPre(raw: RawPost): (r: Decoded<AttachmentPre>)
    ensures r.Ok? <==> WellFormedAttachment(raw)
    ensures r.Ok? ==> (r.value.filename.Some? <==> raw.filename.Some? && raw.filename.value.JStr?)
  {
    var uploaded :- WithDefault(raw.tim, 0, DecodeU64);
    var filename :- Optional(raw.filename, DecodeString);
    var ext :- WithDefault(raw.ext, "", DecodeString);
    var size :- WithDefault(raw.fsize, 0, DecodeU64);
    var md5 :- WithDefault(raw.md5, "", DecodeString);
    var width :- WithDefault(raw.w, 0, DecodeI32);
    var height :- WithDefault(raw.h, 0, DecodeI32);
    var thumbnailWidth :- WithDefault(raw.tn_w, 0, DecodeI32);
    var thumbnailHeight :- WithDefault(raw.tn_h, 0, DecodeI32);
    var spoiler :- DecodeFlag(raw.spoiler);
    var mobileOptimized :- DecodeFlag(raw.m_img);
    Ok(AttachmentPre(uploaded, filename, ext, size, md5, width, height,
                     thumbnailWidth, thumbnailHeight, spoiler, mobileOptimized))
  }

  /** `PostPre`'s derived `Deserialize`. */
  function DecodePostPre(raw: RawPost): (r: Decoded<PostPre>)
    ensures r.Ok? <==> WellFormedPost(raw)
    ensures r.Ok? ==> r.value.attachment == DecodeAttachmentPre(raw).value
    ensures r.Ok? ==> (r.value.capcode.None? <==> raw.capcode.None? || raw.capcode.value.JNull?)
  {
    var no :- Required("no", raw.no, DecodeU32);
    var resto :- Required("resto", raw.resto, DecodeU32);
    var now :- Required("now", raw.now, DecodeString);
    var time :- Required("time", raw.time, DecodeU64);
    var author :- Required("name", raw.name, DecodeString);
    var trip :- Optional(raw.trip, DecodeString);
    var authorId :- Optional(raw.id, DecodeString);
    var capcode :- Optional(raw.capcode, DecodeCapcode);
    var country :- Optional(raw.country, DecodeString);
    var countryName :- Optional(raw.country_name, DecodeString);
    var boardFlag :- Optional(raw.board_flag, DecodeString);
    var flagName :- Optional(raw.flag_name, DecodeString);
    var comment :- Optional(raw.com, DecodeString);
    var attachment :- DecodeAttachmentPre(raw);
    var fileDeleted :- DecodeFlag(raw.filedeleted);
    var since4pass :- Optional(raw.since4pass, DecodeI32);
    Ok(PostPre(no, resto, now, time, author, trip, authorId, capcode, country, countryName,
               boardFlag, flagName, comment, attachment, fileDeleted, since4pass))
  }

  /** Absent attachment keys take their defaults: zero, the empty string, `false`. */
  lemma AbsentAttachmentKeysDefault(raw: RawPost)
    requires WellFormedAttachment(raw)
    ensures var pre := DecodeAttachmentPre(raw).value;
      && (raw.tim.None? ==> pre.uploaded == 0)
      && (raw.filename.None? ==> pre.filename.None?)
      && (raw.ext.None? ==> pre.ext == "")
      && (raw.fsize.None? ==> pre.size == 0)
      && (raw.md5.None? ==> pre.md5 == "")
      && (raw.w.None? ==> pre.width == 0)
      && (raw.h.None? ==> pre.height == 0)
      && (raw.tn_w.None? ==> pre.thumbnailWidth == 0)
      && (raw.tn_h.None? ==> pre.thumbnailHeight == 0)
      && (raw.spoiler.None? ==> !pre.spoiler)
      && (raw.m_img.None? ==> !pre.mobileOptimized)
  {
  }

  /** Present attachment keys are carried over; the two flags go through `int_to_bool`. */
  lemma PresentAttachmentKeysCopied(raw: RawPost)
    requires WellFormedAttachment(raw)
    ensures var pre := DecodeAttachmentPre(raw).value;
      && (raw.tim.Some? ==> pre.uploaded == raw.tim.value.n)
      && (raw.filename.Some? && raw.filename.value.JStr? ==> pre.filename == Some(raw.filename.value.s))
      && (raw.ext.Some? ==> pre.ext == raw.ext.value.s)
      && (raw.fsize.Some? ==> pre.size == raw.fsize.value.n)
      && (raw.md5.Some? ==> pre.md5 == raw.md5.value.s)
      && (raw.w.Some? ==> pre.width == raw.w.value.n)
      && (raw.h.Some? ==> pre.height == raw.h.value.n)
      && (raw.tn_w.Some? ==> pre.thumbnailWidth == raw.tn_w.value.n)
      && (raw.tn_h.Some? ==> pre.thumbnailHeight == raw.tn_h.value.n)
      && (raw.spoiler.Some? ==> Ok(pre.spoiler) == IntToBool(raw.spoiler.value))
      && (raw.m_img.Some? ==> Ok(pre.mobileOptimized) == IntToBool(raw.m_img.value))
  {
    assert DecodeAttachmentPre(raw) == Ok(AttachmentPre(
      WithDefault(raw.tim, 0, DecodeU64).value, Optional(raw.filename, DecodeString).value,
      WithDefault(raw.ext, "", DecodeString).value, WithDefault(raw.fsize, 0, DecodeU64).value,
      WithDefault(raw.md5, "", DecodeString).value, WithDefault(raw.w, 0, DecodeI32).value,
      WithDefault(raw.h, 0, DecodeI32).value, WithDefault(raw.tn_w, 0, DecodeI32).value,
      WithDefault(raw.tn_h, 0, DecodeI32).value, DecodeFlag(raw.spoiler).value,
      DecodeFlag(raw.m_img).value));
  }

  /**
   * Present post keys are carried over under their new names (`name` as the
   * author, `id` as the poster id, `com` as the comment); a string-valued
   * capcode is read as the role with that token, and `filedeleted` goes
   * through `int_to_bool`.
   */
  lemma PresentPostKeysCopied(raw: RawPost)
    requires WellFormedPost(raw)
    ensures var pre := DecodePostPre(raw).value;
      && pre.no == raw.no.value.n
      && pre.resto == raw.resto.value.n
      && pre.now == raw.now.value.s
      && pre.time == raw.time.value.n
      && pre.author == raw.name.value.s
      && (raw.trip.Some? && raw.trip.value.JStr? ==> pre.trip == Some(raw.trip.value.s))
      && (raw.id.Some? && raw.id.value.JStr? ==> pre.authorId == Some(raw.id.value.s))
      && (raw.capcode.Some? && raw.capcode.value.JStr? ==>
            pre.capcode.Some? && Token(pre.capcode.value) == raw.capcode.value.s)
      && (raw.country.Some? && raw.country.value.JStr? ==> pre.country == Some(raw.country.value.s))
      && (raw.country_name.Some? && raw.country_name.value.JStr? ==> pre.countryName == Some(raw.country_name.value.s))
      && (raw.board_flag.Some? && raw.board_flag.value.JStr? ==> pre.boardFlag == Some(raw.board_flag.value.s))
      && (raw.flag_name.Some? && raw.flag_name.value.JStr? ==> pre.flagName == Some(raw.flag_name.value.s))
      && (raw.com.Some? && raw.com.value.JStr? ==> pre.comment == Some(raw.com.value.s))
      && (raw.filedeleted.Some? ==> Ok(pre.fileDeleted) == IntToBool(raw.filedeleted.value))
      && (raw.since4pass.Some? && raw.since4pass.value.JInt? ==> pre.since4pass == Some(raw.since4pass.value.n))
  {
    DecodePostPreFields(raw);
  }

  /**
   * Absent or `null` optional post keys read as `None`, and an absent
   * `filedeleted` as `false`.
   */
  lemma AbsentPostKeysDefault(raw: RawPost)
    requires WellFormedPost(raw)
    ensures var pre := DecodePostPre(raw).value;
      && (raw.trip.None? || raw.trip.value.JNull? ==> pre.trip.None?)
      && (raw.id.None? || raw.id.value.JNull? ==> pre.authorId.None?)
      && (raw.country.None? || raw.country.value.JNull? ==> pre.country.None?)
      && (raw.country_name.None? || raw.country_name.value.JNull? ==> pre.countryName.None?)
      && (raw.board_flag.None? || raw.board_flag.value.JNull? ==> pre.boardFlag.None?)
      && (raw.flag_name.None? || raw.flag_name.value.JNull? ==> pre.flagName.None?)
      && (raw.com.None? || raw.com.value.JNull? ==> pre.comment.None?)
      && (raw.since4pass.None? || raw.since4pass.value.JNull? ==> pre.since4pass.None?)
      && (raw.filedeleted.None? ==> !pre.fileDeleted)
  {
    DecodePostPreFields(raw);
  }

  /** A well-formed post object decodes key by key, each under the rule for its field. */
  lemma DecodePostPreFields(raw: RawPost)
    requires WellFormedPost(raw)
    ensures DecodePostPre(raw) == Ok(PostPre(
        raw.no.value.n, raw.resto.value.n, raw.now.value.s, raw.time.value.n, raw.name.value.s,
        Optional(raw.trip, DecodeString).value, Optional(raw.id, DecodeString).value,
        Optional(raw.capcode, DecodeCapcode).value, Optional(raw.country, DecodeString).value,
        Optional(raw.country_name, DecodeString).value, Optional(raw.board_flag, DecodeString).value,
        Optional(raw.flag_name, DecodeString).value, Optional(raw.com, DecodeString).value,
        DecodeAttachmentPre(raw).value, DecodeFlag(raw.filedeleted).value,
        Optional(raw.since4pass, DecodeI32).value))
  {
    assert Required("no", raw.no, DecodeU32) == Ok(raw.no.value.n);
    assert Required("resto", raw.resto, DecodeU32) == Ok(raw.resto.value.n);
    assert Required("now", raw.now, DecodeString) == Ok(raw.now.value.s);
    assert Required("time", raw.time, DecodeU64) == Ok(raw.time.value.n);
    assert Required("name", raw.name, DecodeString) == Ok(raw.name.value.s);
  }

  // ---------------------------------------------------------------------
  // Stage two: typed records to the public types
  // ---------------------------------------------------------------------

  /**
   * `Attachment::try_from`: an attachment exists exactly when the record has
   * a filename; the other keys are copied whether or not they were present
   * (the upload time `tim` becomes the attachment's `id`).
   */
  function AttachmentFrom(pre: AttachmentPre): (r: Result<Attachment, string>)
    ensures r.Err? <==> pre.filename.None?
    ensures r.Err? ==> r.error == NO_FILENAME
    ensures r.Ok? ==> AttachmentToPre(r.value) == pre
  {
    match pre.filename
    case None => Err(NO_FILENAME)
    case Some(f) =>
      Ok(Attachment(pre.uploaded, f, pre.ext, pre.size, pre.md5, pre.width, pre.height,
                    pre.thumbnailWidth, pre.thumbnailHeight, pre.spoiler, pre.mobileOptimized))
  }

  /** The record an attachment is read from: every field in its key, the filename present. */
  function AttachmentToPre(a: Attachment): AttachmentPre {
    AttachmentPre(a.id, Some(a.filename), a.ext, a.size, a.md5, a.width, a.height,
                  a.thumbnailWidth, a.thumbnailHeight, a.spoiler, a.mobileOptimized)
  }

  lemma AttachmentFromToPre(a: Attachment)
    ensures AttachmentFrom(AttachmentToPre(a)) == Ok(a)
  {
  }

  /**
   * `Post::from`: total. Every post field is carried over under its new name,
   * and a failed attachment conversion becomes `None`.
   */
  function PostFrom(pre: PostPre): (p: Post)
    ensures p.attachment.Some? <==> pre.attachment.filename.Some?
    ensures p.attachment.Some? ==> AttachmentToPre(p.attachment.value) == pre.attachment
    ensures PostToPre(p).(attachment := pre.attachment) == pre
  {
    Post(pre.no, pre.resto, pre.now, pre.time, pre.author, pre.trip, pre.authorId, pre.capcode,
         pre.country, pre.countryName, pre.boardFlag, pre.flagName, pre.comment,
         AttachmentFrom(pre.attachment).ToOption(), pre.fileDeleted, pre.since4pass)
  }

  /** The record a post is read from; a post without attachment has no attachment keys. */
  function PostToPre(p: Post): PostPre {
    PostPre(p.no, p.resto, p.now, p.time, p.author, p.trip, p.authorId, p.capcode,
            p.country, p.countryName, p.boardFlag, p.flagName, p.comment,
            match p.attachment
            case None => NO_ATTACHMENT
            case Some(a) => AttachmentToPre(a),
            p.fileDeleted, p.since4pass)
  }

  lemma PostFromToPre(p: Post)
    ensures PostFrom(PostToPre(p)) == p
  {
    match p.attachment
    case None =>
    case Some(a) => AttachmentFromToPre(a);
  }

  /**
   * Attachment presence and the deleted-file flag are independent: all four
   * combinations occur, a deleted file without attachment among them.
   */
  lemma AttachmentAndFileDeletedIndependent(hasFile: bool, deleted: bool)
    ensures exists pre :: PostFrom(pre).attachment.Some? == hasFile && PostFrom(pre).fileDeleted == deleted
  {
    var att := if hasFile then NO_ATTACHMENT.(filename := Some("f")) else NO_ATTACHMENT;
    var pre := PostPre(1, 0, "", 0, "", None, None, None, None, None, None, None, None, att, deleted, None);
    assert PostFrom(pre).attachment.Some? == hasFile && PostFrom(pre).fileDeleted == deleted;
  }

  // ---------------------------------------------------------------------
  // The two stages together
  // ---------------------------------------------------------------------

  /** `Post::deserialize` (src/post.rs): decode the raw record, then normalise it. */
  function DeserializePost(raw: RawPost): (r: Decoded<Post>)
    ensures r.Ok? <==> WellFormedPost(raw)
    ensures r.Ok? ==> (r.value.attachment.Some? <==> raw.filename.Some? && raw.filename.value.JStr?)
    ensures r.Ok? ==> (r.value.capcode.None? <==> raw.capcode.None? || raw.capcode.value.JNull?)
  {
    var pre :- DecodePostPre(raw);
    Ok(PostFrom(pre))
  }

  /** An absent capcode key is no error: the post decodes, without a capcode. */
  lemma AbsentCapcodeIsNone(raw: RawPost)
    requires WellFormedPost(raw) && raw.capcode.None?
    ensures DeserializePost(raw).Ok? && DeserializePost(raw).value.capcode.None?
  {
  }

  /**
   * A present but unknown capcode makes the whole post fail; when nothing
   * else is wrong with the post, with the message naming the token.
   */
  lemma UnknownCapcodeFailsPost(raw: RawPost, s: string)
    requires raw.capcode == Some(JStr(s)) && s !in CAPCODE_TOKENS
    ensures DeserializePost(raw).Err?
    ensures WellFormedPost(raw.(capcode := None)) ==>
      DeserializePost(raw) == Err(Custom(NotACapcode(s)))
  {
  }

  /** A post object with no attachment key at all is a text post: no attachment, no error. */
  lemma TextPostHasNoAttachment(raw: RawPost)
    requires WellFormedPost(raw)
    requires raw.tim.None? && raw.filename.None? && raw.ext.None? && raw.fsize.None?
    requires raw.md5.None? && raw.w.None? && raw.h.None? && raw.tn_w.None? && raw.tn_h.None?
    requires raw.spoiler.None? && raw.m_img.None?
    ensures DecodePostPre(raw).value.attachment == NO_ATTACHMENT
    ensures DeserializePost(raw).value.attachment.None?
  {
  }

  /** A filename alone makes an attachment; the missing keys are defaulted, not required. */
  lemma FilenameAloneMakesAttachment(raw: RawPost, f: string)
    requires WellFormedPost(raw) && raw.filename == Some(JStr(f))
    requires raw.tim.None? && raw.ext.None?
    ensures DeserializePost(raw).value.attachment.Some?
    ensures var a := DeserializePost(raw).value.attachment.value;
      a.filename == f && a.ext == "" && a.id == 0
  {
    AbsentAttachmentKeysDefault(raw);
  }

  // ---------------------------------------------------------------------
  // The wire form of a post, and the round trip through both stages
  // ---------------------------------------------------------------------

  function EncodeString(s: string): Option<Json> {
    Some(JStr(s))
  }

  function EncodeOptString(o: Option<string>): Option<Json> {
    match o
    case None => None
    case Some(s) => Some(JStr(s))
  }

  /** The JSON object the API sends for a typed post record, flags as `0`/`1`. */
  function EncodePostPre(pre: PostPre): RawPost {
    var a := pre.attachment;
    RawPost(
      Some(JInt(pre.no)), Some(JInt(pre.resto)), EncodeString(pre.now), Some(JInt(pre.time)),
      EncodeString(pre.author), EncodeOptString(pre.trip), EncodeOptString(pre.authorId),
      match pre.capcode
      case None => None
      case Some(c) => Some(JStr(Token(c))),
      EncodeOptString(pre.country), EncodeOptString(pre.countryName),
      EncodeOptString(pre.boardFlag), EncodeOptString(pre.flagName), EncodeOptString(pre.comment),
      Some(JInt(a.uploaded)), EncodeOptString(a.filename), EncodeString(a.ext), Some(JInt(a.size)),
      EncodeString(a.md5), Some(JInt(a.width)), Some(JInt(a.height)),
      Some(JInt(a.thumbnailWidth)), Some(JInt(a.thumbnailHeight)),
      Some(JInt(FlagToInt(a.spoiler))), Some(JInt(FlagToInt(a.mobileOptimized))),
      Some(JInt(FlagToInt(pre.fileDeleted))),
      match pre.since4pass
      case None => None
      case Some(y) => Some(JInt(y)))
  }

  lemma DecodeEncodeAttachmentPre(pre: PostPre)
    ensures DecodeAttachmentPre(EncodePostPre(pre)) == Ok(pre.attachment)
  {
    IntToBoolInvertsFlagToInt(pre.attachment.spoiler);
    IntToBoolInvertsFlagToInt(pre.attachment.mobileOptimized);
  }

  lemma OptionalStringRoundTrip(o: Option<string>)
    ensures Optional(EncodeOptString(o), DecodeString) == Ok(o)
  {
  }

  /** Decoding the wire form of a typed record gives the record back. */
  lemma DecodeEncodePostPre(pre: PostPre)
    ensures DecodePostPre(EncodePostPre(pre)) == Ok(pre)
  {
    var raw := EncodePostPre(pre);
    match pre.capcode {
      case None =>
      case Some(c) => ParseCapcodeToken(c);
    }
    assert Optional(raw.capcode, DecodeCapcode) == Ok(pre.capcode);
    DecodeEncodeAttachmentPre(pre);
    IntToBoolInvertsFlagToInt(pre.fileDeleted);
    assert Required("no", raw.no, DecodeU32) == Ok(pre.no);
    assert Required("resto", raw.resto, DecodeU32) == Ok(pre.resto);
    assert Required("time", raw.time, DecodeU64) == Ok(pre.time);
    assert Optional(raw.since4pass, DecodeI32) == Ok(pre.since4pass);
    OptionalStringRoundTrip(pre.trip);
    OptionalStringRoundTrip(pre.authorId);
    OptionalStringRoundTrip(pre.country);
    OptionalStringRoundTrip(pre.countryName);
    OptionalStringRoundTrip(pre.boardFlag);
    OptionalStringRoundTrip(pre.flagName);
    OptionalStringRoundTrip(pre.comment);
  }

  /** The JSON object the API sends for a post. */
  function EncodePost(p: Post): RawPost {
    EncodePostPre(PostToPre(p))
  }

  /** Every post survives the trip to its wire form and back through both stages. */
  lemma DeserializeEncodePost(p: Post)
    ensures DeserializePost(EncodePost(p)) == Ok(p)
  {
    DecodeEncodePostPre(PostToPre(p));
    PostFromToPre(p);
  }
}
