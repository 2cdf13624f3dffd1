/** The record types of the App Engine export and the migrator's fatal exits. */
module Records {
  import opened Encoding
  import opened Times

  /** Text.Format values. */
  const FormatHtml: int := 0
  const FormatTextile: int := 1
  const FormatMarkdown: int := 2
  const FormatText: int := 3

  /** One version of an article's body; its content lives in a blob named by sha1Str. */
  datatype Text = Text(id: int, createdOn: Time, format: int, sha1Str: string, sha1: Digest)

  datatype Article = Article(
    id: int,
    publishedOn: Time,
    permalink1: string,
    permalink2: string,
    isPrivate: bool,
    isDeleted: bool,
    title: string,
    tags: seq<string>,
    versions: seq<int>)

  datatype Crash = Crash(
    createdOn: Time,
    programName: string,
    programVersion: string,
    ipAddrStr: string,
    ipAddrInternal: string,
    sha1Str: string,
    sha1: Digest,
    crashedLine: string)

  /** An old URL of an article that must keep working. */
  datatype ArticleRedirect = ArticleRedirect(url: string, articleId: int)

  /** Go's zero values, which the parsers start from. */
  const EmptyText: Text := Text(0, ZeroTime, FormatHtml, "", ZeroDigest)
  const EmptyArticle: Article := Article(0, ZeroTime, "", "", false, false, "", [], [])
  const EmptyCrash: Crash := Crash(ZeroTime, "", "", "", "", "", ZeroDigest, "")

  /** Why the migrator stops: each log.Fatalf and each panic it can reach. */
  datatype Fatal =
    | MissingSeparator(line: string)          // a line without ": " (lp[1] out of range)
    | InvalidInt(key: string, val: string)    // "invalid I val" / "invalid ver val"
    | InvalidHash(val: string)                // "error decoding M"
    | InvalidDate(val: string)                // parseTime's "failed to parse date"
    | UnknownFormat(val: string)              // "Unknown F val"
    | UnknownField(name: string)              // "Unknown field"
    | UnknownVersion(versionId: int)          // verifyData: version id not present
    | UnmappedVersion(versionId: int)         // renumberTexts: "unknown text version id"
    | HashTooShort(sha1: string)              // sha1[:2] / sha1[2:4] out of range
    | MissingBlob(path: string)               // "srcPath doesn't exist" / "ReadFileAll() failed"
    | MissingInput(path: string)              // a loader's "failed to load"
}
