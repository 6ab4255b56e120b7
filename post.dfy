/**
 * The public post types (src/post.rs): `Capcode`, `Attachment` and `Post`,
 * and the URL builders that locate an attachment's media and thumbnail.
 */
module Posts {
  import opened Wrappers
  import opened Json

  /** The staff roles a post can be marked with. */
  datatype Capcode = Mod | Admin | AdminHighlight | Manager | Developer | Founder

  /** Host serving uploaded media and thumbnails. */
  const MEDIA_HOST: string := "https://i.4cdn.org/"

  /** Metadata of the one file attached to a post; every field is present. */
  datatype Attachment = Attachment(
    id: uint64,              // upload time in microseconds; names the file on the media host
    filename: string,
    ext: string,
    size: uint64,
    md5: string,
    width: int32,
    height: int32,
    thumbnailWidth: int32,
    thumbnailHeight: int32,
    spoiler: bool,
    mobileOptimized: bool)
  {
    /** Where the uploaded file can be fetched, for any board abbreviation, valid or not. */
    function Url(board: string): (u: string)
      ensures MediaPath(u, board, id, ext)
    {
      var u := MEDIA_HOST + board + "/" + Decimal(id) + ext;
      assert u[|MEDIA_HOST| + |board| + 1..|u| - |ext|] == Decimal(id);
      u
    }

    /** Where the thumbnail can be fetched: the file's path with `s` before the extension. */
    function ThumbnailUrl(board: string): (u: string)
      ensures MediaPath(u, board, id, "s" + ext)
    {
      var u := MEDIA_HOST + board + "/" + Decimal(id) + "s" + ext;
      assert u == MEDIA_HOST + board + "/" + Decimal(id) + ("s" + ext);
      assert u[|MEDIA_HOST| + |board| + 1..|u| - |ext| - 1] == Decimal(id);
      u
    }
  }

  /** A post, opening post (`resto == 0`) or reply alike. */
  datatype Post = Post(
    no: uint32,
    resto: uint32,
    now: string,
    time: uint64,
    author: string,
    trip: Option<string>,
    authorId: Option<string>,
    capcode: Option<Capcode>,
    country: Option<string>,
    countryName: Option<string>,
    boardFlag: Option<string>,
    flagName: Option<string>,
    comment: Option<string>,
    attachment: Option<Attachment>,
    fileDeleted: bool,
    since4pass: Option<int32>)
  {
    /** The attachment's URL; `None` exactly when the post has no attachment. */
    function AttachmentUrl(board: string): (u: Option<string>)
      ensures u.None? <==> attachment.None?
      ensures u.Some? ==> u.value == attachment.value.Url(board)
    {
      match attachment
      case None => None
      case Some(a) => Some(a.Url(board))
    }

    /** The thumbnail's URL; `None` exactly when the post has no attachment. */
    function ThumbnailUrl(board: string): (u: Option<string>)
      ensures u.None? <==> attachment.None?
      ensures u.Some? ==> u.value == attachment.value.ThumbnailUrl(board)
    {
      match attachment
      case None => None
      case Some(a) => Some(a.ThumbnailUrl(board))
    }
  }

  predicate IsDigit(c: char) {
    '0' <= c <= '9'
  }

  predicate AllDigits(s: string) {
    forall i | 0 <= i < |s| :: IsDigit(s[i])
  }

  /** The value of a string of decimal digits, most significant first. */
  function ParseDecimal(s: string): nat
    requires AllDigits(s)
  {
    if s == [] then 0
    else ParseDecimal(s[..|s| - 1]) * 10 + ((s[|s| - 1] as int) - ('0' as int))
  }

  /** The canonical decimal rendering of `n`, as Rust's `Display` writes an integer. */
  function Decimal(n: nat): (s: string)
    ensures |s| > 0 && AllDigits(s)
    ensures ParseDecimal(s) == n
    ensures s[0] == '0' ==> s == "0"
  {
    if n < 10 then ['0' + (n as char)]
    else
      var s := Decimal(n / 10) + ['0' + ((n % 10) as char)];
      assert s[..|s| - 1] == Decimal(n / 10);
      s
  }

  /**
   * `u` is `MEDIA_HOST`, then `board`, then `/`, then the canonical decimal
   * rendering of `id`, then `tail`: each part can be read back from `u`.
   */
  predicate MediaPath(u: string, board: string, id: nat, tail: string) {
    var start := |MEDIA_HOST| + |board| + 1;
    && start < |u| - |tail|
    && u[..|MEDIA_HOST|] == MEDIA_HOST
    && u[|MEDIA_HOST|..|MEDIA_HOST| + |board|] == board
    && u[|MEDIA_HOST| + |board|] == '/'
    && u[|u| - |tail|..] == tail
    && AllDigits(u[start..|u| - |tail|])
    && ParseDecimal(u[start..|u| - |tail|]) == id
    && (u[start] == '0' ==> |u| - |tail| == start + 1)
  }

  /** Two uploads with the same extension share a URL on a board only if they are the same upload. */
  lemma UrlIdentifiesUpload(a: Attachment, b: Attachment, board: string)
    requires a.ext == b.ext && a.Url(board) == b.Url(board)
    ensures a.id == b.id
  {
  }

  /** The thumbnail URL is the full URL with `s` inserted before the extension. */
  lemma ThumbnailUrlInsertsS(a: Attachment, board: string)
    ensures |a.Url(board)| >= |a.ext|
    ensures a.ThumbnailUrl(board) == a.Url(board)[..|a.Url(board)| - |a.ext|] + "s" + a.ext
  {
    var prefix := MEDIA_HOST + board + "/" + Decimal(a.id);
    assert a.Url(board) == prefix + a.ext;
    assert a.Url(board)[..|prefix|] == prefix;
  }

  /** Both URLs read only the id and the extension of an attachment. */
  lemma UrlsDependOnlyOnIdAndExt(a: Attachment, b: Attachment, board: string)
    requires a.id == b.id && a.ext == b.ext
    ensures a.Url(board) == b.Url(board)
    ensures a.ThumbnailUrl(board) == b.ThumbnailUrl(board)
  {
  }

  /** The thumbnail never shares its URL with the full file. */
  lemma ThumbnailUrlDiffers(a: Attachment, board: string)
    ensures a.ThumbnailUrl(board) != a.Url(board)
  {
  }
}
