/** main: load the three export files, check and renumber, serialize, move
    the crash reports to their new hashes, save the three data files and copy
    the text blobs, in that order, against the Store. The existence checks of
    the two top directories and the creation of directories are left out. */
module Migrate {
  import opened Wrappers
  import opened GoStrings
  import opened Encoding
  import opened Records
  import opened Parse
  import opened Framing
  import opened Loaders
  import opened Integrity
  import opened Serialize
  import opened Blobs

  /** What saveStrings leaves in its file: the strings one after another. */
  function Concat(strs: seq<string>): string
  {
    if |strs| == 0 then "" else Concat(strs[..|strs| - 1]) + strs[|strs| - 1]
  }

  function Mapped<A, B>(xs: seq<A>, f: A -> B): (ys: seq<B>)
    ensures |ys| == |xs| && forall k :: 0 <= k < |xs| ==> ys[k] == f(xs[k])
  {
    seq(|xs|, k requires 0 <= k < |xs| => f(xs[k]))
  }

  /** Where main reads and writes. */
  function InputPath(srcDir: string, name: string): string
  {
    srcDir + "/" + name
  }

  function DataPath(dstDir: string, name: string): string
  {
    dstDir + "/data/" + name
  }

  /** blogdata.txt: a line per text, then a line per article. */
  function BlogData(texts: seq<Text>, articles: seq<Article>): string
  {
    Concat(Mapped(texts, SerText) + Mapped(articles, SerArticle))
  }

  /** article_redirects.txt: "<id>|<url>" per redirect. */
  function RedirectData(redirects: seq<ArticleRedirect>): string
  {
    Concat(Mapped(redirects, RedirectLine))
  }

  /** crashesdata.txt: a line per crash. */
  function CrashData(crashes: seq<Crash>): string
  {
    Concat(Mapped(crashes, SerCrash))
  }

  /** The records the three loaders produce. */
  datatype Loaded = Loaded(texts: seq<Text>, articles: seq<Article>,
                           redirects: seq<ArticleRedirect>, crashes: seq<Crash>)

  /** loadTexts, loadArticles and loadCrashes in main's order; the first that
      cannot read its file or parse a record stops the run. */
  function LoadAll(fs: Files, srcDir: string, shortenId: int -> string, urlify: string -> string)
    : Result<Loaded, Fatal>
  {
    var tp := InputPath(srcDir, "texts.txt");
    var ap := InputPath(srcDir, "articles.txt");
    var cp := InputPath(srcDir, "crashes.txt");
    if tp !in fs then Err(MissingInput(tp))
    else
      match MapResult(TextOf, Blocks(fs[tp]))
      case Err(e) => Err(e)
      case Ok(texts) =>
        if ap !in fs then Err(MissingInput(ap))
        else
          match ArticlesOf(fs[ap], shortenId, urlify)
          case Err(e) => Err(e)
          case Ok((articles, redirects)) =>
            if cp !in fs then Err(MissingInput(cp))
            else
              match MapResult(CrashOf, Blocks(fs[cp]))
              case Err(e) => Err(e)
              case Ok(crashes) => Ok(Loaded(texts, articles, redirects, crashes))
  }

  /** The store once the data files are written over the one the crash copy left. */
  function Saved(fs: Files, dstDir: string, texts: seq<Text>, articles: seq<Article>,
                 redirects: seq<ArticleRedirect>, crashes: seq<Crash>): Files
  {
    fs[DataPath(dstDir, "blogdata.txt") := BlogData(texts, articles)]
      [DataPath(dstDir, "article_redirects.txt") := RedirectData(redirects)]
      [DataPath(dstDir, "crashesdata.txt") := CrashData(crashes)]
  }

  method SaveStrings(st: Store, path: string, strs: seq<string>)
    modifies st
    ensures st.files == old(st.files)[path := Concat(strs)]
  {
    var content := "";
    for i := 0 to |strs|
      invariant content == Concat(strs[..i])
    {
      assert strs[..i + 1][..i] == strs[..i];
      content := content + strs[i];
    }
    assert strs[..|strs|] == strs;
    st.files := st.files[path := content];
  }

  method SaveArticleRedirects(st: Store, path: string, redirects: seq<ArticleRedirect>)
    modifies st
    ensures st.files == old(st.files)[path := RedirectData(redirects)]
  {
    ghost var lines := Mapped(redirects, RedirectLine);
    var content := "";
    for i := 0 to |redirects|
      invariant content == Concat(lines[..i])
    {
      assert lines[..i + 1][..i] == lines[..i];
      content := content + RedirectLine(redirects[i]);
    }
    assert lines[..|redirects|] == lines;
    st.files := st.files[path := content];
  }

  /** The three loaders, each reading its file from the source tree. */
  method LoadInputs(st: Store, srcDir: string, shortenId: int -> string, urlify: string -> string)
    returns (r: Result<Loaded, Fatal>)
    ensures r == LoadAll(st.files, srcDir, shortenId, urlify)
  {
    var textsPath := InputPath(srcDir, "texts.txt");
    if textsPath !in st.files {
      return Err(MissingInput(textsPath));
    }
    var texts := LoadTexts(st.files[textsPath]);
    if texts.Err? {
      return Err(texts.error);
    }
    var articlesPath := InputPath(srcDir, "articles.txt");
    if articlesPath !in st.files {
      return Err(MissingInput(articlesPath));
    }
    var articles := LoadArticles(st.files[articlesPath], shortenId, urlify);
    if articles.Err? {
      return Err(articles.error);
    }
    var crashesPath := InputPath(srcDir, "crashes.txt");
    if crashesPath !in st.files {
      return Err(MissingInput(crashesPath));
    }
    var crashes := LoadCrashes(st.files[crashesPath]);
    if crashes.Err? {
      return Err(crashes.error);
    }
    r := Ok(Loaded(texts.value, articles.value.0, articles.value.1, crashes.value));
  }

  /** The three saves of main, each file holding the lines made for it. */
  method SaveData(st: Store, dstDir: string, strs: seq<string>, texts: seq<Text>, articles: seq<Article>,
                  redirects: seq<ArticleRedirect>, strCrashes: seq<string>, crashes: seq<Crash>)
    requires strs == Mapped(texts, SerText) + Mapped(articles, SerArticle)
    requires strCrashes == Mapped(crashes, SerCrash)
    modifies st
    ensures st.files == Saved(old(st.files), dstDir, texts, articles, redirects, crashes)
  {
    SaveStrings(st, DataPath(dstDir, "blogdata.txt"), strs);
    SaveArticleRedirects(st, DataPath(dstDir, "article_redirects.txt"), redirects);
    SaveStrings(st, DataPath(dstDir, "crashesdata.txt"), strCrashes);
  }

  /** main. Every loader, verifyData and the crash copy can stop it, and the
      store then holds what was written so far; renumberTexts cannot fail
      once verifyData has passed. */
  method Migrate(st: Store, srcDir: string, dstDir: string,
                 shortenId: int -> string, urlify: string -> string,
                 sha1Of: string -> Digest, extractLine: string -> string)
    returns (r: Outcome<Fatal>)
    modifies st
    ensures var loaded := LoadAll(old(st.files), srcDir, shortenId, urlify);
      loaded.Err? ==> r == Fail(loaded.error) && st.files == old(st.files)
    ensures var loaded := LoadAll(old(st.files), srcDir, shortenId, urlify);
      loaded.Ok? && !AllVersionsKnown(loaded.value.texts, loaded.value.articles) ==>
        r.Fail? && r.error.UnknownVersion? && st.files == old(st.files)
    ensures var loaded := LoadAll(old(st.files), srcDir, shortenId, urlify);
      loaded.Ok? && AllVersionsKnown(loaded.value.texts, loaded.value.articles) ==>
        (st.files, r) == Exported(old(st.files), loaded.value, srcDir, dstDir, sha1Of, extractLine)
  {
    var loaded := LoadInputs(st, srcDir, shortenId, urlify);
    if loaded.Err? {
      return Fail(loaded.error);
    }
    var verified := VerifyData(loaded.value.texts, loaded.value.articles);
    if verified.Fail? {
      return verified;
    }
    r := Export(st, loaded.value, srcDir, dstDir, sha1Of, extractLine);
  }

  /** What main does once the data has been checked: renumber, serialize the
      texts and articles, rehash and serialize the crashes, save, copy blobs. */
  function Exported(fs: Files, p: Loaded, srcDir: string, dstDir: string,
                    sha1Of: string -> Digest, extractLine: string -> string): (Files, Outcome<Fatal>)
    requires AllVersionsKnown(p.texts, p.articles)
  {
    RenumberOkIff(p.texts, p.articles);
    var articles := RewiredArticles(p.texts, p.articles).value;
    var texts := Renumbered(p.texts);
    var run := CrashesAll(fs, p.crashes, srcDir, dstDir, sha1Of, extractLine);
    if run.outcome.Fail? then (run.files, run.outcome)
    else CopyAll(Saved(run.files, dstDir, texts, articles, p.redirects, run.crashes), texts, srcDir, dstDir)
  }

  /** main after verifyData: renumberTexts cannot fail here; the crash copy can. */
  method Export(st: Store, p: Loaded, srcDir: string, dstDir: string,
                sha1Of: string -> Digest, extractLine: string -> string)
    returns (r: Outcome<Fatal>)
    requires AllVersionsKnown(p.texts, p.articles)
    modifies st
    ensures (st.files, r) == Exported(old(st.files), p, srcDir, dstDir, sha1Of, extractLine)
  {
    var texts, articles, strs := RenumberAndSerialize(p.texts, p.articles);
    ghost var run := CrashesAll(st.files, p.crashes, srcDir, dstDir, sha1Of, extractLine);
    var copied, crashes := CopyCrashes(st, p.crashes, srcDir, dstDir, sha1Of, extractLine);
    if copied.Fail? {
      return copied;
    }
    // the crash records are rewritten before they are serialized
    var strCrashes := SerCrashes(crashes);
    PointwiseMapped(strCrashes, crashes, SerCrash);
    SaveData(st, dstDir, strs, texts, articles, p.redirects, strCrashes, crashes);
    assert st.files == Saved(run.files, dstDir, texts, articles, p.redirects, run.crashes);
    r := st.CopyBlobs(texts, srcDir, dstDir);
  }

  /** renumberTexts on fresh arrays of the records, then serTextsAndArticles. */
  method RenumberAndSerialize(texts0: seq<Text>, articles0: seq<Article>)
    returns (texts: seq<Text>, articles: seq<Article>, strs: seq<string>)
    requires AllVersionsKnown(texts0, articles0)
    ensures texts == Renumbered(texts0)
    ensures RewiredArticles(texts0, articles0) == Ok(articles)
    ensures strs == Mapped(texts, SerText) + Mapped(articles, SerArticle)
  {
    var textArr := new Text[|texts0|](i requires 0 <= i < |texts0| => texts0[i]);
    var articleArr := new Article[|articles0|](i requires 0 <= i < |articles0| => articles0[i]);
    assert textArr[..] == texts0 && articleArr[..] == articles0;
    var renumbered := RenumberTexts(textArr, articleArr);
    RenumberOkIff(texts0, articles0);
    texts, articles := textArr[..], articleArr[..];
    strs := SerTextsAndArticles(texts, articles);
    BlogLines(strs, texts, articles);
  }

  /** copyCrashesBlobs on a fresh array of the crash records. */
  method CopyCrashes(st: Store, crashes0: seq<Crash>, srcDir: string, dstDir: string,
                     sha1Of: string -> Digest, extractLine: string -> string)
    returns (r: Outcome<Fatal>, crashes: seq<Crash>)
    modifies st
    ensures Run(st.files, crashes, r) == CrashesAll(old(st.files), crashes0, srcDir, dstDir, sha1Of, extractLine)
  {
    var crashArr := new Crash[|crashes0|](i requires 0 <= i < |crashes0| => crashes0[i]);
    assert crashArr[..] == crashes0;
    r := st.CopyCrashesBlobs(crashArr, srcDir, dstDir, sha1Of, extractLine);
    crashes := crashArr[..];
  }

  lemma BlogLines(strs: seq<string>, texts: seq<Text>, articles: seq<Article>)
    requires |strs| == |texts| + |articles|
    requires Pointwise(strs[..|texts|], texts, SerText) && Pointwise(strs[|texts|..], articles, SerArticle)
    ensures strs == Mapped(texts, SerText) + Mapped(articles, SerArticle)
  {
    PointwiseMapped(strs[..|texts|], texts, SerText);
    PointwiseMapped(strs[|texts|..], articles, SerArticle);
    assert strs == strs[..|texts|] + strs[|texts|..];
  }

  lemma PointwiseMapped<A, B>(ys: seq<B>, xs: seq<A>, f: A -> B)
    requires Pointwise(ys, xs, f)
    ensures ys == Mapped(xs, f)
  {
  }

  // ---------------------------------------------------------------------
  // Properties

  /** saveStrings of two lists one after the other writes what one call with both writes. */
  lemma {:induction false} ConcatAppend(a: seq<string>, b: seq<string>)
    ensures Concat(a + b) == Concat(a) + Concat(b)
    decreases |b|
  {
    if |b| == 0 {
      assert a + b == a;
    } else {
      var b' := b[..|b| - 1];
      ConcatAppend(a, b');
      assert (a + b)[..|a + b| - 1] == a + b';
      AppendAssoc(Concat(a), Concat(b'), b[|b| - 1]);
    }
  }

  /** The data files, the text blobs and the crash report blobs are all different paths. */
  lemma DataPathsApart(dstDir: string, name: string, h: string)
    requires |h| >= 4
    ensures DataPath(dstDir, name) != BlobPath(dstDir, h).value
    ensures DataPath(dstDir, name) != BlobCrashesPath(dstDir, h).value
  {
    assert DataPath(dstDir, name)[|dstDir| + 1] == 'd';
    assert BlobPath(dstDir, h).value[|dstDir| + 1] == 'b';
    assert BlobCrashesPath(dstDir, h).value[|dstDir| + 1] == 'b';
  }

  /** The three data files hold what was written to them. */
  lemma SavedFiles(fs: Files, dstDir: string, texts: seq<Text>, articles: seq<Article>,
                   redirects: seq<ArticleRedirect>, crashes: seq<Crash>)
    ensures var s := Saved(fs, dstDir, texts, articles, redirects, crashes);
      DataPath(dstDir, "blogdata.txt") in s
      && s[DataPath(dstDir, "blogdata.txt")] == BlogData(texts, articles)
      && DataPath(dstDir, "article_redirects.txt") in s
      && s[DataPath(dstDir, "article_redirects.txt")] == RedirectData(redirects)
      && DataPath(dstDir, "crashesdata.txt") in s
      && s[DataPath(dstDir, "crashesdata.txt")] == CrashData(crashes)
  {
    assert |DataPath(dstDir, "blogdata.txt")| != |DataPath(dstDir, "article_redirects.txt")|;
    assert |DataPath(dstDir, "blogdata.txt")| != |DataPath(dstDir, "crashesdata.txt")|;
    assert |DataPath(dstDir, "article_redirects.txt")| != |DataPath(dstDir, "crashesdata.txt")|;
  }

  /** A run that passes got through the crash copy and ended with the text blob copy. */
  lemma ExportedPass(fs: Files, p: Loaded, srcDir: string, dstDir: string,
                     sha1Of: string -> Digest, extractLine: string -> string)
    requires AllVersionsKnown(p.texts, p.articles)
    ensures var run := CrashesAll(fs, p.crashes, srcDir, dstDir, sha1Of, extractLine);
      Exported(fs, p, srcDir, dstDir, sha1Of, extractLine).1.Pass? ==>
        run.outcome.Pass? && RewiredArticles(p.texts, p.articles).Ok?
        && Exported(fs, p, srcDir, dstDir, sha1Of, extractLine)
           == CopyAll(Saved(run.files, dstDir, Renumbered(p.texts), RewiredArticles(p.texts, p.articles).value,
                            p.redirects, run.crashes),
                      Renumbered(p.texts), srcDir, dstDir)
  {
    RenumberOkIff(p.texts, p.articles);
  }

  /** A run that passes leaves the three data files holding the serialized
      renumbered texts and rewired articles, the redirects, and the crashes
      with their new hashes. */
  lemma ExportSaves(fs: Files, p: Loaded, srcDir: string, dstDir: string,
                    sha1Of: string -> Digest, extractLine: string -> string)
    requires AllVersionsKnown(p.texts, p.articles)
    ensures var (files, r) := Exported(fs, p, srcDir, dstDir, sha1Of, extractLine);
      var run := CrashesAll(fs, p.crashes, srcDir, dstDir, sha1Of, extractLine);
      r.Pass? ==> (run.outcome.Pass? && RewiredArticles(p.texts, p.articles).Ok?
        && DataPath(dstDir, "blogdata.txt") in files
        && files[DataPath(dstDir, "blogdata.txt")] == BlogData(Renumbered(p.texts), RewiredArticles(p.texts, p.articles).value)
        && DataPath(dstDir, "article_redirects.txt") in files
        && files[DataPath(dstDir, "article_redirects.txt")] == RedirectData(p.redirects)
        && DataPath(dstDir, "crashesdata.txt") in files
        && files[DataPath(dstDir, "crashesdata.txt")] == CrashData(run.crashes))
  {
    ExportedPass(fs, p, srcDir, dstDir, sha1Of, extractLine);
    var run := CrashesAll(fs, p.crashes, srcDir, dstDir, sha1Of, extractLine);
    if Exported(fs, p, srcDir, dstDir, sha1Of, extractLine).1.Pass? {
      var texts := Renumbered(p.texts);
      var articles := RewiredArticles(p.texts, p.articles).value;
      var saved := Saved(run.files, dstDir, texts, articles, p.redirects, run.crashes);
      SavedFiles(run.files, dstDir, texts, articles, p.redirects, run.crashes);
      CopyAllKeeps(saved, texts, srcDir, dstDir);
    }
  }

  /** A run that passes leaves every text's blob in the destination tree. */
  lemma ExportTextBlobs(fs: Files, p: Loaded, srcDir: string, dstDir: string,
                        sha1Of: string -> Digest, extractLine: string -> string)
    requires AllVersionsKnown(p.texts, p.articles)
    ensures var (files, r) := Exported(fs, p, srcDir, dstDir, sha1Of, extractLine);
      r.Pass? ==> forall i :: 0 <= i < |p.texts| ==>
        BlobPath(dstDir, p.texts[i].sha1Str).Ok? && BlobPath(dstDir, p.texts[i].sha1Str).value in files
  {
    ExportedPass(fs, p, srcDir, dstDir, sha1Of, extractLine);
    var run := CrashesAll(fs, p.crashes, srcDir, dstDir, sha1Of, extractLine);
    if Exported(fs, p, srcDir, dstDir, sha1Of, extractLine).1.Pass? {
      var texts := Renumbered(p.texts);
      var articles := RewiredArticles(p.texts, p.articles).value;
      RenumberedBlobs(Saved(run.files, dstDir, texts, articles, p.redirects, run.crashes), p.texts, srcDir, dstDir);
    }
  }

  /** Renumbering keeps the hashes, so the blobs copied are those of the original texts. */
  lemma RenumberedBlobs(fs: Files, texts: seq<Text>, srcDir: string, dstDir: string)
    ensures var (files, r) := CopyAll(fs, Renumbered(texts), srcDir, dstDir);
      r.Pass? ==> forall i :: 0 <= i < |texts| ==>
        BlobPath(dstDir, texts[i].sha1Str).Ok? && BlobPath(dstDir, texts[i].sha1Str).value in files
  {
    var ts := Renumbered(texts);
    CopyAllPass(fs, ts, srcDir, dstDir);
    assert forall i :: 0 <= i < |texts| ==> ts[i].sha1Str == texts[i].sha1Str;
  }

  /** main serializes the crashes after copying their reports: in a run that
      passes, every crash line carries the hex of the record's new hash, and the
      report stored under that hash is in the destination tree. */
  lemma ExportCrashBlobs(fs: Files, p: Loaded, srcDir: string, dstDir: string,
                         sha1Of: string -> Digest, extractLine: string -> string)
    requires AllVersionsKnown(p.texts, p.articles)
    ensures var (files, r) := Exported(fs, p, srcDir, dstDir, sha1Of, extractLine);
      var run := CrashesAll(fs, p.crashes, srcDir, dstDir, sha1Of, extractLine);
      r.Pass? ==> (run.outcome.Pass? && |run.crashes| == |p.crashes|
        && forall i :: 0 <= i < |p.crashes| ==>
             run.crashes[i].sha1Str == HexEncode(run.crashes[i].sha1)
             && BlobCrashesPath(dstDir, run.crashes[i].sha1Str).Ok?
             && BlobCrashesPath(dstDir, run.crashes[i].sha1Str).value in files)
  {
    ExportedPass(fs, p, srcDir, dstDir, sha1Of, extractLine);
    var run := CrashesAll(fs, p.crashes, srcDir, dstDir, sha1Of, extractLine);
    if Exported(fs, p, srcDir, dstDir, sha1Of, extractLine).1.Pass? {
      var texts := Renumbered(p.texts);
      var articles := RewiredArticles(p.texts, p.articles).value;
      var saved := Saved(run.files, dstDir, texts, articles, p.redirects, run.crashes);
      CopyAllKeeps(saved, texts, srcDir, dstDir);
      CrashesAllStored(fs, p.crashes, srcDir, dstDir, sha1Of, extractLine);
      CrashesAllFields(fs, p.crashes, srcDir, dstDir, sha1Of, extractLine);
      forall i | 0 <= i < |p.crashes|
        ensures BlobCrashesPath(dstDir, run.crashes[i].sha1Str).Ok?
          && BlobCrashesPath(dstDir, run.crashes[i].sha1Str).value in saved
      {
        DataPathsApart(dstDir, "blogdata.txt", run.crashes[i].sha1Str);
        DataPathsApart(dstDir, "article_redirects.txt", run.crashes[i].sha1Str);
        DataPathsApart(dstDir, "crashesdata.txt", run.crashes[i].sha1Str);
      }
    }
  }
}
