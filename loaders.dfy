/** loadTexts, loadArticles and loadCrashes: the file's bytes are cut at each
    "\n\n" (bytes.Index), each piece before one is parsed into a record, and
    scanning resumes right after the two newlines. Reading the file is left
    out; each loader takes the bytes it read. */
module Loaders {
  import opened Wrappers
  import opened GoStrings
  import opened Records
  import opened Parse
  import opened Redirects
  import opened Framing

  // ---------------------------------------------------------------------
  // The loops

  method LoadTexts(d: string) returns (r: Result<seq<Text>, Fatal>)
    ensures r == MapResult(TextOf, Blocks(d))
  {
    var res: seq<Text> := [];
    var rest := d;
    ThenStart(MapResult(TextOf, Blocks(d)), Blocks(d));
    while |rest| > 0
      invariant MapResult(TextOf, Blocks(d)) == Then(res, MapResult(TextOf, Blocks(rest)))
      decreases |rest|
    {
      var idx := FindPair(rest, '\n', '\n');
      if idx.None? {
        break;
      }
      BlocksStep(TextOf, rest, idx.value);
      var t := ParseText(rest[..idx.value]);
      if t.Err? {
        return Err(t.error);
      }
      ThenStep(res, t.value, MapResult(TextOf, Blocks(rest[idx.value + 2..])));
      res := res + [t.value];
      rest := rest[idx.value + 2..];
    }
    assert res + [] == res;
    r := Ok(res);
  }

  method LoadCrashes(d: string) returns (r: Result<seq<Crash>, Fatal>)
    ensures r == MapResult(CrashOf, Blocks(d))
  {
    var res: seq<Crash> := [];
    var rest := d;
    ThenStart(MapResult(CrashOf, Blocks(d)), Blocks(d));
    while |rest| > 0
      invariant MapResult(CrashOf, Blocks(d)) == Then(res, MapResult(CrashOf, Blocks(rest)))
      decreases |rest|
    {
      var idx := FindPair(rest, '\n', '\n');
      if idx.None? {
        break;
      }
      BlocksStep(CrashOf, rest, idx.value);
      var c := ParseCrash(rest[..idx.value]);
      if c.Err? {
        return Err(c.error);
      }
      ThenStep(res, c.value, MapResult(CrashOf, Blocks(rest[idx.value + 2..])));
      res := res + [c.value];
      rest := rest[idx.value + 2..];
    }
    assert res + [] == res;
    r := Ok(res);
  }

  /** The articles of the file, with the redirects they need in article order. */
  function ArticlesOf(d: string, shortenId: int -> string, urlify: string -> string)
    : Result<(seq<Article>, seq<ArticleRedirect>), Fatal>
  {
    match MapResult(ArticleOf, Blocks(d))
    case Err(e) => Err(e)
    case Ok(arts) => Ok((arts, AllRedirects(arts, shortenId, urlify)))
  }

  method LoadArticles(d: string, shortenId: int -> string, urlify: string -> string)
    returns (r: Result<(seq<Article>, seq<ArticleRedirect>), Fatal>)
    ensures r == ArticlesOf(d, shortenId, urlify)
  {
    var redirects: seq<ArticleRedirect> := [];
    var res: seq<Article> := [];
    var rest := d;
    ThenStart(MapResult(ArticleOf, Blocks(d)), Blocks(d));
    while |rest| > 0
      invariant MapResult(ArticleOf, Blocks(d)) == Then(res, MapResult(ArticleOf, Blocks(rest)))
      invariant redirects == AllRedirects(res, shortenId, urlify)
      decreases |rest|
    {
      var idx := FindPair(rest, '\n', '\n');
      if idx.None? {
        break;
      }
      BlocksStep(ArticleOf, rest, idx.value);
      var a := ParseArticle(rest[..idx.value]);
      if a.Err? {
        return Err(a.error);
      }
      redirects := AddRedirectIfNeeded(a.value, shortenId, urlify, redirects);
      ThenStep(res, a.value, MapResult(ArticleOf, Blocks(rest[idx.value + 2..])));
      assert (res + [a.value])[..|res|] == res;
      res := res + [a.value];
      rest := rest[idx.value + 2..];
    }
    assert res + [] == res;
    r := Ok((res, redirects));
  }

  // ---------------------------------------------------------------------
  // Properties

  /** Parsing the blocks of d is parsing the first block, then the blocks after its "\n\n". */
  lemma BlocksStep<R>(f: string -> Result<R, Fatal>, d: string, i: nat)
    requires FindPair(d, '\n', '\n') == Some(i)
    ensures Blocks(d) == [d[..i]] + Blocks(d[i + 2..])
    ensures MapResult(f, Blocks(d)) == (if f(d[..i]).Err? then Err(f(d[..i]).error)
                                        else Cons(f(d[..i]).value, MapResult(f, Blocks(d[i + 2..]))))
  {
    BlocksUnfold(d, i);
    var bs := Blocks(d);
    assert bs[0] == d[..i];
    assert bs[1..] == Blocks(d[i + 2..]);
  }
}
