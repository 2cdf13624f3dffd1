/** addRedirectIfNeeded: an article's old permalinks that differ from its
    address on the new blog become redirects to the article's id. ShortenId
    and Urlify are helpers of the blog outside this file; they are parameters. */
module Redirects {
  import opened Records

  /** "article/" + ShortenId(a.Id) + "/" + Urlify(a.Title) + ".html" */
  function CanonicalUrl(a: Article, shortenId: int -> string, urlify: string -> string): string
  {
    "article/" + shortenId(a.id) + "/" + urlify(a.title) + ".html"
  }

  /** A permalink needs a redirect when it is set and is not the new address. */
  predicate NeedsRedirect(permalink: string, canonical: string)
  {
    permalink != "" && permalink != canonical
  }

  /** The redirects one article contributes, P1's before P2's: at most two,
      each a permalink of the article that needs one, and every permalink
      that needs one among them. */
  function RedirectsFor(a: Article, shortenId: int -> string, urlify: string -> string): (r: seq<ArticleRedirect>)
    ensures |r| <= 2
    ensures forall i :: 0 <= i < |r| ==> RedirectOf(r[i], a, shortenId, urlify)
    ensures NeedsRedirect(a.permalink1, CanonicalUrl(a, shortenId, urlify)) ==> ArticleRedirect(a.permalink1, a.id) in r
    ensures NeedsRedirect(a.permalink2, CanonicalUrl(a, shortenId, urlify)) ==> ArticleRedirect(a.permalink2, a.id) in r
  {
    var canonical := CanonicalUrl(a, shortenId, urlify);
    (if NeedsRedirect(a.permalink1, canonical) then [ArticleRedirect(a.permalink1, a.id)] else [])
    + (if NeedsRedirect(a.permalink2, canonical) then [ArticleRedirect(a.permalink2, a.id)] else [])
  }

  /** Appends to *redirects: the list grows by this article's redirects and is otherwise unchanged. */
  method AddRedirectIfNeeded(a: Article, shortenId: int -> string, urlify: string -> string,
                             redirects: seq<ArticleRedirect>) returns (out: seq<ArticleRedirect>)
    ensures out == redirects + RedirectsFor(a, shortenId, urlify)
  {
    var realUrl := "article/" + shortenId(a.id) + "/" + urlify(a.title) + ".html";
    out := redirects;
    if a.permalink1 != "" && realUrl != a.permalink1 {
      out := out + [ArticleRedirect(a.permalink1, a.id)];
    }
    if a.permalink2 != "" && realUrl != a.permalink2 {
      out := out + [ArticleRedirect(a.permalink2, a.id)];
    }
  }

  /** r redirects one of a's permalinks that needs it to a's id. */
  predicate RedirectOf(r: ArticleRedirect, a: Article, shortenId: int -> string, urlify: string -> string)
  {
    r.articleId == a.id && NeedsRedirect(r.url, CanonicalUrl(a, shortenId, urlify))
    && (r.url == a.permalink1 || r.url == a.permalink2)
  }

  /** At most two redirects: one for P1 exactly when it needs one, first, and
      one for P2 exactly when it needs one, last; each points at the article's id. */
  lemma RedirectsForShape(a: Article, shortenId: int -> string, urlify: string -> string)
    ensures var r := RedirectsFor(a, shortenId, urlify);
      var canonical := CanonicalUrl(a, shortenId, urlify);
      |r| == (if NeedsRedirect(a.permalink1, canonical) then 1 else 0)
           + (if NeedsRedirect(a.permalink2, canonical) then 1 else 0)
      && (NeedsRedirect(a.permalink1, canonical) ==> r[0] == ArticleRedirect(a.permalink1, a.id))
      && (NeedsRedirect(a.permalink2, canonical) ==> r[|r| - 1] == ArticleRedirect(a.permalink2, a.id))
      && forall i :: 0 <= i < |r| ==> RedirectOf(r[i], a, shortenId, urlify)
  {
  }

  /** The redirects of a list of articles, in article order. */
  function AllRedirects(articles: seq<Article>, shortenId: int -> string, urlify: string -> string): seq<ArticleRedirect>
  {
    if |articles| == 0 then []
    else AllRedirects(articles[..|articles| - 1], shortenId, urlify)
         + RedirectsFor(articles[|articles| - 1], shortenId, urlify)
  }

  /** Every redirect comes from a permalink of some article that needs one, and carries that article's id. */
  lemma {:induction false} AllRedirectsFrom(articles: seq<Article>, shortenId: int -> string, urlify: string -> string)
    ensures forall r :: r in AllRedirects(articles, shortenId, urlify) ==>
      exists i :: 0 <= i < |articles| && RedirectOf(r, articles[i], shortenId, urlify)
  {
    if |articles| > 0 {
      var front := articles[..|articles| - 1];
      var last := |articles| - 1;
      AllRedirectsFrom(front, shortenId, urlify);
      RedirectsForShape(articles[last], shortenId, urlify);
      forall r | r in AllRedirects(articles, shortenId, urlify)
        ensures exists i :: 0 <= i < |articles| && RedirectOf(r, articles[i], shortenId, urlify)
      {
        if r in AllRedirects(front, shortenId, urlify) {
          var i :| 0 <= i < |front| && RedirectOf(r, front[i], shortenId, urlify);
          assert front[i] == articles[i];
        } else {
          var rs := RedirectsFor(articles[last], shortenId, urlify);
          var k :| 0 <= k < |rs| && rs[k] == r;
          assert RedirectOf(r, articles[last], shortenId, urlify);
        }
      }
    }
  }

  /** An article whose first permalink is already its new address and whose
      second is an old one gets exactly the one redirect for the old one. */
  lemma OneOldPermalink(shortenId: int -> string, urlify: string -> string)
    ensures var a := Article(5, EmptyArticle.publishedOn, "", "old/5.html", false, false, "Hello", [], []);
      var b := a.(permalink1 := CanonicalUrl(a, shortenId, urlify));
      RedirectsFor(b, shortenId, urlify) == [ArticleRedirect("old/5.html", 5)]
  {
    var a := Article(5, EmptyArticle.publishedOn, "", "old/5.html", false, false, "Hello", [], []);
    var b := a.(permalink1 := CanonicalUrl(a, shortenId, urlify));
    assert CanonicalUrl(b, shortenId, urlify)[0] == 'a';
  }
}
