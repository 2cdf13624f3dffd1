/** verifyData and renumberTexts: every version id an article lists must be
    the id of a loaded text; texts are then renumbered 0, 1, 2, ... in load
    order and each article's version ids are rewritten through the
    old-id -> new-id map, in which a repeated old id maps to its last text. */
module Integrity {
  import opened Wrappers
  import opened Records
  import opened Parse

  /** The ids of the loaded texts. */
  function TextIds(texts: seq<Text>): set<int>
  {
    set k | 0 <= k < |texts| :: texts[k].id
  }

  /** What verifyData checks: each version id of each article is some text's id. */
  predicate AllVersionsKnown(texts: seq<Text>, articles: seq<Article>)
  {
    forall i, j :: 0 <= i < |articles| && 0 <= j < |articles[i].versions| ==>
      articles[i].versions[j] in TextIds(texts)
  }

  /** v is a version id of some article. */
  predicate Listed(articles: seq<Article>, v: int)
  {
    exists i, j :: 0 <= i < |articles| && 0 <= j < |articles[i].versions| && articles[i].versions[j] == v
  }

  lemma TextIdsStep(texts: seq<Text>, i: nat)
    requires i < |texts|
    ensures TextIds(texts[..i + 1]) == TextIds(texts[..i]) + {texts[i].id}
  {
    var front := texts[..i + 1];
    assert front[i] == texts[i];
    forall v | v in TextIds(texts[..i]) ensures v in TextIds(front) {
      var k :| 0 <= k < i && texts[..i][k].id == v;
      assert front[k] == texts[..i][k];
    }
  }

  /** Fails on the first version id no text has, in article order. */
  method VerifyData(texts: seq<Text>, articles: seq<Article>) returns (r: Outcome<Fatal>)
    ensures r.Pass? <==> AllVersionsKnown(texts, articles)
    ensures r.Fail? ==> r.error.UnknownVersion? && r.error.versionId !in TextIds(texts)
                        && Listed(articles, r.error.versionId)
  {
    var textIdToText: map<int, Text> := map[];
    for i := 0 to |texts|
      invariant textIdToText.Keys == TextIds(texts[..i])
    {
      TextIdsStep(texts, i);
      textIdToText := textIdToText[texts[i].id := texts[i]];
    }
    assert texts[..|texts|] == texts;
    for i := 0 to |articles|
      invariant forall i', j :: 0 <= i' < i && 0 <= j < |articles[i'].versions| ==>
        articles[i'].versions[j] in TextIds(texts)
    {
      var versions := articles[i].versions;
      for j := 0 to |versions|
        invariant forall j' :: 0 <= j' < j ==> versions[j'] in TextIds(texts)
      {
        var verId := versions[j];
        if verId !in textIdToText {
          return Fail(UnknownVersion(verId));
        }
      }
    }
    return Pass;
  }

  // ---------------------------------------------------------------------
  // renumberTexts

  /** oldToNewId after the first loop: each text's old id to its index, later texts overwriting earlier. */
  function OldToNew(texts: seq<Text>): map<int, int>
  {
    if |texts| == 0 then map[]
    else OldToNew(texts[..|texts| - 1])[texts[|texts| - 1].id := |texts| - 1]
  }

  /** The texts after the first loop: texts[i].Id = i, nothing else changed. */
  function Renumbered(texts: seq<Text>): (r: seq<Text>)
    ensures |r| == |texts|
  {
    seq(|texts|, i requires 0 <= i < |texts| => texts[i].(id := i))
  }

  /** One entry of a.Versions through the map, or the panic. */
  function NewVersion(m: map<int, int>, v: int): Result<int, Fatal>
  {
    if v in m then Ok(m[v]) else Err(UnmappedVersion(v))
  }

  function VersionMapper(m: map<int, int>): int -> Result<int, Fatal>
  {
    v => NewVersion(m, v)
  }

  /** One article with its versions rewritten. */
  function Rewired(m: map<int, int>, a: Article): Result<Article, Fatal>
  {
    match MapResult(VersionMapper(m), a.versions)
    case Err(e) => Err(e)
    case Ok(vs) => Ok(a.(versions := vs))
  }

  function ArticleMapper(m: map<int, int>): Article -> Result<Article, Fatal>
  {
    a => Rewired(m, a)
  }

  /** The articles after the second loop, or its panic. */
  function RewiredArticles(texts: seq<Text>, articles: seq<Article>): Result<seq<Article>, Fatal>
  {
    MapResult(ArticleMapper(OldToNew(texts)), articles)
  }

  lemma OldToNewStep(texts: seq<Text>, i: nat)
    requires i < |texts|
    ensures OldToNew(texts[..i + 1]) == OldToNew(texts[..i])[texts[i].id := i]
  {
    assert texts[..i + 1][..i] == texts[..i];
  }

  /** Rewrites the texts' ids and then the articles' version ids in place;
      panics on a version id no text had. */
  method RenumberTexts(texts: array<Text>, articles: array<Article>) returns (r: Outcome<Fatal>)
    modifies texts, articles
    ensures texts[..] == Renumbered(old(texts[..]))
    ensures r.Pass? <==> RewiredArticles(old(texts[..]), old(articles[..])).Ok?
    ensures r.Pass? ==> articles[..] == RewiredArticles(old(texts[..]), old(articles[..])).value
    ensures r.Fail? ==> r.error == RewiredArticles(old(texts[..]), old(articles[..])).error
  {
    ghost var texts0 := texts[..];
    ghost var articles0 := articles[..];
    var oldToNewId: map<int, int> := map[];
    for i := 0 to texts.Length
      invariant oldToNewId == OldToNew(texts0[..i])
      invariant forall k :: 0 <= k < i ==> texts[k] == texts0[k].(id := k)
      invariant forall k :: i <= k < texts.Length ==> texts[k] == texts0[k]
      invariant articles[..] == articles0
    {
      OldToNewStep(texts0, i);
      oldToNewId := oldToNewId[texts[i].id := i];
      texts[i] := texts[i].(id := i);
    }
    assert texts0[..texts.Length] == texts0;
    assert texts[..] == Renumbered(texts0);
    var am := ArticleMapper(oldToNewId);
    ThenStart(MapResult(am, articles0), articles0);
    for i := 0 to articles.Length
      invariant MapResult(am, articles0) == Then(articles[..i], MapResult(am, articles0[i..]))
      invariant articles[i..] == articles0[i..]
      invariant texts[..] == Renumbered(texts0)
    {
      MapResultStep(am, articles0, i);
      var vs := RewireVersions(oldToNewId, articles[i].versions);
      if vs.Err? {
        return Fail(vs.error);
      }
      ThenStep(articles[..i], articles0[i].(versions := vs.value), MapResult(am, articles0[i + 1..]));
      ghost var done := articles[..i];
      articles[i] := articles[i].(versions := vs.value);
      assert articles[..i] == done;
      assert articles[..i + 1] == done + [articles0[i].(versions := vs.value)];
      assert articles[i + 1..] == articles0[i + 1..];
    }
    assert articles0[articles.Length..] == [];
    assert articles[..articles.Length] == articles[..];
    assert articles[..] + [] == articles[..];
    r := Pass;
  }

  /** The inner loop over a.Versions, on a copy of the slice. */
  method RewireVersions(m: map<int, int>, versions: seq<int>) returns (r: Result<seq<int>, Fatal>)
    ensures r == MapResult(VersionMapper(m), versions)
  {
    var vs := versions;
    var f := VersionMapper(m);
    ThenStart(MapResult(f, versions), versions);
    for i := 0 to |vs|
      invariant |vs| == |versions|
      invariant MapResult(f, versions) == Then(vs[..i], MapResult(f, versions[i..]))
      invariant vs[i..] == versions[i..]
    {
      MapResultStep(f, versions, i);
      var verId := vs[i];
      if verId in m {
        var newId := m[verId];
        ThenStep(vs[..i], newId, MapResult(f, versions[i + 1..]));
        vs := vs[i := newId];
        assert vs[..i + 1] == vs[..i] + [newId];
      } else {
        return Err(UnmappedVersion(verId));
      }
    }
    assert versions[|vs|..] == [];
    assert vs[..|vs|] == vs && vs + [] == vs;
    r := Ok(vs);
  }

  // ---------------------------------------------------------------------
  // Properties

  /** The map knows exactly the texts' ids, and sends each to the index of the
      last text that has it. */
  lemma {:induction false} OldToNewLast(texts: seq<Text>)
    ensures OldToNew(texts).Keys == TextIds(texts)
    ensures forall v :: v in OldToNew(texts) ==>
      var k := OldToNew(texts)[v];
      0 <= k < |texts| && texts[k].id == v && forall k' :: k < k' < |texts| ==> texts[k'].id != v
  {
    if |texts| > 0 {
      var n := |texts| - 1;
      var front := texts[..n];
      OldToNewLast(front);
      TextIdsStep(texts, n);
      assert texts[..n + 1] == texts;
      forall v | v in OldToNew(texts)
        ensures var k := OldToNew(texts)[v];
          0 <= k < |texts| && texts[k].id == v && forall k' :: k < k' < |texts| ==> texts[k'].id != v
      {
        if v != texts[n].id {
          var k := OldToNew(front)[v];
          assert front[k] == texts[k];
          forall k' | k < k' < |texts| ensures texts[k'].id != v {
            if k' < n {
              assert front[k'] == texts[k'];
            }
          }
        }
      }
    }
  }

  /** Rewiring one article succeeds exactly when its versions are all known. */
  lemma RewiredOk(m: map<int, int>, a: Article)
    ensures Rewired(m, a).Ok? <==> forall j :: 0 <= j < |a.versions| ==> a.versions[j] in m
    ensures Rewired(m, a).Ok? ==>
      var b := Rewired(m, a).value;
      b == a.(versions := b.versions) && |b.versions| == |a.versions|
      && forall j :: 0 <= j < |a.versions| ==> b.versions[j] == m[a.versions[j]]
  {
    MapResultOk(VersionMapper(m), a.versions);
  }

  /** After verifyData passes, renumberTexts never reaches its panic, and conversely. */
  lemma RenumberOkIff(texts: seq<Text>, articles: seq<Article>)
    ensures RewiredArticles(texts, articles).Ok? <==> AllVersionsKnown(texts, articles)
  {
    var m := OldToNew(texts);
    OldToNewLast(texts);
    MapResultOk(ArticleMapper(m), articles);
    forall i | 0 <= i < |articles| {
      RewiredOk(m, articles[i]);
    }
  }

  /** The shape of the renumbered data: texts[i].Id == i, every article keeps
      its fields and the length of its versions, and each version id becomes the
      index of the last text that had it, so it lies in 0..|texts|-1. */
  lemma RenumberShape(texts: seq<Text>, articles: seq<Article>)
    requires RewiredArticles(texts, articles).Ok?
    ensures forall i :: 0 <= i < |texts| ==> Renumbered(texts)[i] == texts[i].(id := i)
    ensures var arts := RewiredArticles(texts, articles).value;
      |arts| == |articles|
      && forall i :: 0 <= i < |articles| ==>
        arts[i] == articles[i].(versions := arts[i].versions)
        && |arts[i].versions| == |articles[i].versions|
        && forall j :: 0 <= j < |articles[i].versions| ==>
          var k := arts[i].versions[j];
          0 <= k < |texts| && texts[k].id == articles[i].versions[j]
          && forall k' :: k < k' < |texts| ==> texts[k'].id != articles[i].versions[j]
  {
    var m := OldToNew(texts);
    OldToNewLast(texts);
    MapResultOk(ArticleMapper(m), articles);
    var arts := RewiredArticles(texts, articles).value;
    forall i | 0 <= i < |articles|
      ensures arts[i] == articles[i].(versions := arts[i].versions)
      ensures |arts[i].versions| == |articles[i].versions|
      ensures forall j :: 0 <= j < |articles[i].versions| ==>
          var k := arts[i].versions[j];
          0 <= k < |texts| && texts[k].id == articles[i].versions[j]
          && forall k' :: k < k' < |texts| ==> texts[k'].id != articles[i].versions[j]
    {
      RewiredOk(m, articles[i]);
      assert arts[i] == Rewired(m, articles[i]).value;
    }
  }

  /** Renumbering keeps the data consistent: verifyData would pass on its output. */
  lemma RenumberKeepsIntegrity(texts: seq<Text>, articles: seq<Article>)
    requires RewiredArticles(texts, articles).Ok?
    ensures AllVersionsKnown(Renumbered(texts), RewiredArticles(texts, articles).value)
  {
    RenumberShape(texts, articles);
    var ts := Renumbered(texts);
    var arts := RewiredArticles(texts, articles).value;
    forall i, j | 0 <= i < |arts| && 0 <= j < |arts[i].versions|
      ensures arts[i].versions[j] in TextIds(ts)
    {
      var k := arts[i].versions[j];
      assert ts[k].id == k;
    }
  }
}
