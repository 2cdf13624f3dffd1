/** The output formats of the migrator: one line per text ("T..."), article
    ("A...") and crash ("C..."), fields separated by '|', and one line per
    redirect. Fields that may hold '|' are passed through remSep; tags only
    lose their ',' and the crash's IpAddrInternal is written as it is. */
module Serialize {
  import opened Wrappers
  import opened GoStrings
  import opened Encoding
  import opened Times
  import opened Records

  /** remSep: the field without any '|', everything else kept in order. */
  function RemSep(s: string): (r: string)
    ensures '|' !in r
  {
    RemoveAll(s, '|')
  }

  /** remSep takes out exactly the '|' and leaves a field without one as it is. */
  lemma RemSepSpec(s: string)
    ensures multiset(RemSep(s)) == multiset(s)['|' := 0]
    ensures '|' !in s ==> RemSep(s) == s
  {
    RemoveAllSpec(s, '|');
  }

  /** boolToStr: true is "1", false the empty string. */
  function BoolToStr(b: bool): (r: string)
    ensures b <==> r == "1"
    ensures !b <==> r == ""
  {
    if b then "1" else ""
  }

  /** sanitizeTag: the tag without any ','. */
  function SanitizeTag(tag: string): (r: string)
    ensures ',' !in r
  {
    RemoveAll(tag, ',')
  }

  /** sanitizeTag takes out exactly the ',' and keeps a '|'. */
  lemma SanitizeTagSpec(tag: string)
    ensures multiset(SanitizeTag(tag)) == multiset(tag)[',' := 0]
    ensures '|' in tag ==> '|' in SanitizeTag(tag)
  {
    RemoveAllSpec(tag, ',');
    if '|' in tag {
      assert multiset(tag)['|'] > 0;
      assert multiset(SanitizeTag(tag))['|'] > 0;
    }
  }

  function SanitizedTags(tags: seq<string>): (r: seq<string>)
    ensures |r| == |tags|
    ensures forall i :: 0 <= i < |tags| ==> r[i] == SanitizeTag(tags[i])
  {
    seq(|tags|, i requires 0 <= i < |tags| => SanitizeTag(tags[i]))
  }

  /** The tags field: the sanitized tags joined by ','. */
  function TagsField(tags: seq<string>): string
  {
    Join(SanitizedTags(tags), ',')
  }

  function Decimals(vers: seq<int>): (r: seq<string>)
    ensures |r| == |vers|
    ensures forall i :: 0 <= i < |vers| ==> r[i] == Itoa(vers[i])
  {
    seq(|vers|, i requires 0 <= i < |vers| => Itoa(vers[i]))
  }

  /** The versions field: the version ids in decimal, joined by ','. */
  function VersionsField(vers: seq<int>): string
  {
    Join(Decimals(vers), ',')
  }

  /** What the loop of serTags and serVersions has built before piece i: nothing,
      or the pieces so far each followed by ','; after the last piece, their join. */
  ghost function Built(pieces: seq<string>, i: nat): string
    requires i <= |pieces|
  {
    if i == 0 then ""
    else if i < |pieces| then Join(pieces[..i], ',') + ","
    else Join(pieces, ',')
  }

  lemma BuiltStep(pieces: seq<string>, i: nat)
    requires i < |pieces|
    ensures Built(pieces, i) + pieces[i] + (if i != |pieces| - 1 then "," else "") == Built(pieces, i + 1)
  {
    if i > 0 {
      JoinSnoc(pieces[..i], pieces[i], ',');
      assert pieces[..i + 1] == pieces[..i] + [pieces[i]];
    } else {
      assert Join(pieces[..1], ',') == pieces[0];
    }
    if i == |pieces| - 1 {
      assert pieces[..i + 1] == pieces;
    }
  }

  method SerTags(tags: seq<string>) returns (s: string)
    ensures s == TagsField(tags)
  {
    s := "";
    var lastIdx := |tags| - 1;
    ghost var pieces := SanitizedTags(tags);
    for i := 0 to |tags|
      invariant s == Built(pieces, i)
    {
      BuiltStep(pieces, i);
      s := s + SanitizeTag(tags[i]);
      if i != lastIdx {
        s := s + ",";
      }
    }
  }

  method SerVersions(vers: seq<int>) returns (s: string)
    ensures s == VersionsField(vers)
  {
    s := "";
    var lastIdx := |vers| - 1;
    ghost var pieces := Decimals(vers);
    for i := 0 to |vers|
      invariant s == Built(pieces, i)
    {
      BuiltStep(pieces, i);
      s := s + Itoa(vers[i]);
      if i != lastIdx {
        s := s + ",";
      }
    }
  }

  /** The hash field: standard base64 of the digest without its final '='. */
  function HashField(d: Digest): (r: string)
    ensures |r| == 27 && '|' !in r && '\n' !in r
    ensures Base64Decode(r + "=") == Some(d)
  {
    DigestBase64(d);
    Base64Alphabet(d);
    var s := Base64Encode(d);
    s[..|s| - 1]
  }

  /** serText: "T<Id>|<CreatedOn.Unix()>|<Format>|<hash>\n". */
  function SerText(t: Text): (r: string)
    ensures |r| >= 2 && r[0] == 'T' && r[|r| - 1] == '\n'
  {
    "T" + Itoa(t.id) + "|" + Itoa(Unix(t.createdOn)) + "|" + Itoa(t.format) + "|" + HashField(t.sha1) + "\n"
  }

  /** serArticle: "A<Id>|<PublishedOn.Unix()>|<Title>|<IsPrivate>|<IsDeleted>|<tags>|<versions>\n". */
  function SerArticle(a: Article): (r: string)
    ensures |r| >= 2 && r[0] == 'A' && r[|r| - 1] == '\n'
  {
    "A" + Itoa(a.id) + "|" + Itoa(Unix(a.publishedOn)) + "|" + RemSep(a.title) + "|"
    + BoolToStr(a.isPrivate) + "|" + BoolToStr(a.isDeleted) + "|"
    + TagsField(a.tags) + "|" + VersionsField(a.versions) + "\n"
  }

  /** serCrash: "C<hash>|<CreatedOn.Unix()>|<ProgramName>|<ProgramVersion>|<IpAddrInternal>|<CrashedLine>\n". */
  function SerCrash(c: Crash): (r: string)
    ensures |r| >= 2 && r[0] == 'C' && r[|r| - 1] == '\n'
  {
    "C" + HashField(c.sha1) + "|" + Itoa(Unix(c.createdOn)) + "|" + RemSep(c.programName) + "|"
    + RemSep(c.programVersion) + "|" + c.ipAddrInternal + "|" + RemSep(c.crashedLine) + "\n"
  }

  /** The line saveArticleRedirects writes for one redirect: "<ArticleId>|<Url>\n".
      The printed id holds no '|', so the first '|' of the line ends it. */
  function RedirectLine(r: ArticleRedirect): (line: string)
    ensures var n := |Itoa(r.articleId)|;
      n < |line| && line[..n] == Itoa(r.articleId) && line[n] == '|' && '|' !in line[..n]
      && line[|line| - 1] == '\n'
  {
    ItoaNoSeparators(r.articleId);
    Itoa(r.articleId) + "|" + r.url + "\n"
  }

  /** ys holds f of each element of xs, in order. */
  ghost predicate Pointwise<A, B>(ys: seq<B>, xs: seq<A>, f: A -> B)
  {
    |ys| == |xs| && forall k :: 0 <= k < |xs| ==> ys[k] == f(xs[k])
  }

  lemma PointwiseSnoc<A, B>(ys: seq<B>, xs: seq<A>, f: A -> B, x: A)
    requires Pointwise(ys, xs, f)
    ensures Pointwise(ys + [f(x)], xs + [x], f)
  {
  }

  /** The loop `for _, x := range xs { res = append(res, f(x)) }`: res keeps
      its lines and gains one line per element, in order. */
  method AppendEach<A, B>(res: seq<B>, xs: seq<A>, f: A -> B) returns (out: seq<B>)
    ensures |out| == |res| + |xs| && out[..|res|] == res
    ensures Pointwise(out[|res|..], xs, f)
  {
    out := res;
    for i := 0 to |xs|
      invariant |out| == |res| + i && out[..|res|] == res
      invariant Pointwise(out[|res|..], xs[..i], f)
    {
      PointwiseSnoc(out[|res|..], xs[..i], f, xs[i]);
      assert xs[..i] + [xs[i]] == xs[..i + 1];
      ghost var before := out;
      out := out + [f(xs[i])];
      assert out[..|res|] == before[..|res|];
      assert out[|res|..] == before[|res|..] + [f(xs[i])];
    }
    assert xs[..|xs|] == xs;
  }

  /** All texts first, then all articles, each in its order. */
  method SerTextsAndArticles(texts: seq<Text>, articles: seq<Article>) returns (res: seq<string>)
    ensures |res| == |texts| + |articles|
    ensures Pointwise(res[..|texts|], texts, SerText)
    ensures Pointwise(res[|texts|..], articles, SerArticle)
  {
    res := [];
    res := AppendEach(res, texts, SerText);
    ghost var textLines := res;
    res := AppendEach(res, articles, SerArticle);
    assert res[..|texts|] == textLines;
  }

  method SerCrashes(crashes: seq<Crash>) returns (res: seq<string>)
    ensures Pointwise(res, crashes, SerCrash)
  {
    res := AppendEach([], crashes, SerCrash);
    assert res[0..] == res;
  }

  // ---------------------------------------------------------------------
  // Reading the fields back

  /** The '|'-separated fields of a record line: after the tag letter, before the newline. */
  function Fields(line: string): seq<string>
    requires |line| >= 2
  {
    Split(line[1..|line| - 1], '|')
  }

  /** The tags field has no leading or trailing ',', and splitting it on ',' gives
      the sanitized tags back; no tags give the empty field. */
  lemma TagsRoundTrip(tags: seq<string>)
    ensures |tags| == 0 ==> TagsField(tags) == ""
    ensures |tags| >= 1 ==> Split(TagsField(tags), ',') == SanitizedTags(tags)
  {
    if |tags| >= 1 {
      SplitJoin(SanitizedTags(tags), ',');
    }
  }

  /** Splitting the versions field on ',' and reading each piece with Atoi gives
      the versions back, the way parseArticle reads V; no versions give the empty
      field, which parseArticle rejects. */
  lemma VersionsRoundTrip(vers: seq<int>)
    ensures |vers| == 0 ==> VersionsField(vers) == ""
    ensures |vers| >= 1 ==> |Split(VersionsField(vers), ',')| == |vers|
    ensures |vers| >= 1 ==> forall i :: 0 <= i < |vers| ==>
      Atoi(Split(VersionsField(vers), ',')[i]) == Some(vers[i])
  {
    if |vers| >= 1 {
      var ds := Decimals(vers);
      forall i | 0 <= i < |ds| ensures ',' !in ds[i] {
        ItoaNoSeparators(vers[i]);
      }
      SplitJoin(ds, ',');
      forall i | 0 <= i < |vers| ensures Atoi(ds[i]) == Some(vers[i]) {
        AtoiItoa(vers[i]);
      }
    }
  }

  lemma NoPipeInFields(tags: seq<string>, vers: seq<int>)
    requires forall i :: 0 <= i < |tags| ==> '|' !in tags[i]
    ensures '|' !in TagsField(tags) && '|' !in VersionsField(vers)
  {
    var ts := SanitizedTags(tags);
    forall i | 0 <= i < |ts| ensures '|' !in ts[i] {
      RemoveAllKeepsOthers(tags[i], ',', '|');
    }
    JoinNoChar(ts, ',', '|');
    VersionsNoPipe(vers);
  }

  lemma VersionsNoPipe(vers: seq<int>)
    ensures '|' !in VersionsField(vers)
  {
    var ds := Decimals(vers);
    forall i | 0 <= i < |ds| ensures '|' !in ds[i] {
      ItoaNoSeparators(vers[i]);
    }
    JoinNoChar(ds, ',', '|');
  }

  /** Four fields written with '|' between them and a tag letter and newline around. */
  lemma Line4(t: char, a: string, b: string, c: string, d: string)
    ensures var line := [t] + a + "|" + b + "|" + c + "|" + d + "\n";
      |line| >= 2 && line[0] == t && line[|line| - 1] == '\n' && line[1..|line| - 1] == Join([a, b, c, d], '|')
  {
    var body := a + "|" + b + "|" + c + "|" + d;
    assert Join([a, b, c, d], '|') == body by {
      assert Join([a], '|') == a;
      JoinSnoc([a], b, '|');
      assert [a] + [b] == [a, b];
      JoinSnoc([a, b], c, '|');
      assert [a, b] + [c] == [a, b, c];
      JoinSnoc([a, b, c], d, '|');
      assert [a, b, c] + [d] == [a, b, c, d];
    }
    var line := [t] + a + "|" + b + "|" + c + "|" + d + "\n";
    assert line == [t] + body + "\n";
  }

  lemma Line6(t: char, a: string, b: string, c: string, d: string, e: string, f: string)
    ensures var line := [t] + a + "|" + b + "|" + c + "|" + d + "|" + e + "|" + f + "\n";
      |line| >= 2 && line[0] == t && line[|line| - 1] == '\n'
      && line[1..|line| - 1] == Join([a, b, c, d, e, f], '|')
  {
    var body := a + "|" + b + "|" + c + "|" + d + "|" + e + "|" + f;
    assert Join([a, b, c, d, e, f], '|') == body by {
      assert Join([a], '|') == a;
      JoinSnoc([a], b, '|');
      assert [a] + [b] == [a, b];
      JoinSnoc([a, b], c, '|');
      assert [a, b] + [c] == [a, b, c];
      JoinSnoc([a, b, c], d, '|');
      assert [a, b, c] + [d] == [a, b, c, d];
      JoinSnoc([a, b, c, d], e, '|');
      assert [a, b, c, d] + [e] == [a, b, c, d, e];
      JoinSnoc([a, b, c, d, e], f, '|');
      assert [a, b, c, d, e] + [f] == [a, b, c, d, e, f];
    }
    var line := [t] + a + "|" + b + "|" + c + "|" + d + "|" + e + "|" + f + "\n";
    assert line == [t] + body + "\n";
  }

  lemma Line7(t: char, a: string, b: string, c: string, d: string, e: string, f: string, g: string)
    ensures var line := [t] + a + "|" + b + "|" + c + "|" + d + "|" + e + "|" + f + "|" + g + "\n";
      |line| >= 2 && line[0] == t && line[|line| - 1] == '\n'
      && line[1..|line| - 1] == Join([a, b, c, d, e, f, g], '|')
  {
    var body := a + "|" + b + "|" + c + "|" + d + "|" + e + "|" + f + "|" + g;
    assert Join([a, b, c, d, e, f, g], '|') == body by {
      assert Join([a], '|') == a;
      JoinSnoc([a], b, '|');
      assert [a] + [b] == [a, b];
      JoinSnoc([a, b], c, '|');
      assert [a, b] + [c] == [a, b, c];
      JoinSnoc([a, b, c], d, '|');
      assert [a, b, c] + [d] == [a, b, c, d];
      JoinSnoc([a, b, c, d], e, '|');
      assert [a, b, c, d] + [e] == [a, b, c, d, e];
      JoinSnoc([a, b, c, d, e], f, '|');
      assert [a, b, c, d, e] + [f] == [a, b, c, d, e, f];
      JoinSnoc([a, b, c, d, e, f], g, '|');
      assert [a, b, c, d, e, f] + [g] == [a, b, c, d, e, f, g];
    }
    var line := [t] + a + "|" + b + "|" + c + "|" + d + "|" + e + "|" + f + "|" + g + "\n";
    assert line == [t] + body + "\n";
  }

  /** A text line is 'T', four fields and one newline, so exactly three '|'; the
      numbers read back with Atoi and the hash decodes once its '=' is put back. */
  lemma TextLineFields(t: Text)
    ensures var line := SerText(t);
      |line| >= 2 && line[0] == 'T' && line[|line| - 1] == '\n' && '\n' !in line[1..|line| - 1]
      && Fields(line) == [Itoa(t.id), Itoa(Unix(t.createdOn)), Itoa(t.format), HashField(t.sha1)]
    ensures var fs := Fields(SerText(t));
      Atoi(fs[0]) == Some(t.id) && Atoi(fs[1]) == Some(Unix(t.createdOn))
      && Atoi(fs[2]) == Some(t.format) && Base64Decode(fs[3] + "=") == Some(t.sha1)
  {
    var fs := [Itoa(t.id), Itoa(Unix(t.createdOn)), Itoa(t.format), HashField(t.sha1)];
    ItoaNoSeparators(t.id);
    ItoaNoSeparators(Unix(t.createdOn));
    ItoaNoSeparators(t.format);
    Line4('T', fs[0], fs[1], fs[2], fs[3]);
    SplitJoin(fs, '|');
    JoinNoChar(fs, '|', '\n');
    AtoiItoa(t.id);
    AtoiItoa(Unix(t.createdOn));
    AtoiItoa(t.format);
  }

  /** An article line, when no tag holds a '|', is 'A', seven fields and a newline. */
  lemma ArticleLineFields(a: Article)
    requires forall i :: 0 <= i < |a.tags| ==> '|' !in a.tags[i]
    ensures var line := SerArticle(a);
      |line| >= 2 && line[0] == 'A' && line[|line| - 1] == '\n'
      && Fields(line) == [Itoa(a.id), Itoa(Unix(a.publishedOn)), RemSep(a.title),
                          BoolToStr(a.isPrivate), BoolToStr(a.isDeleted),
                          TagsField(a.tags), VersionsField(a.versions)]
  {
    var fs := [Itoa(a.id), Itoa(Unix(a.publishedOn)), RemSep(a.title),
               BoolToStr(a.isPrivate), BoolToStr(a.isDeleted),
               TagsField(a.tags), VersionsField(a.versions)];
    ItoaNoSeparators(a.id);
    ItoaNoSeparators(Unix(a.publishedOn));
    NoPipeInFields(a.tags, a.versions);
    Line7('A', fs[0], fs[1], fs[2], fs[3], fs[4], fs[5], fs[6]);
    SplitJoin(fs, '|');
  }

  /** Tags keep their '|': every '|' inside the tags field makes the article
      line one field longer than the seven serArticle writes. */
  lemma ArticleFieldCount(a: Article)
    ensures |Fields(SerArticle(a))| == 7 + multiset(TagsField(a.tags))['|']
  {
    ItoaNoSeparators(a.id);
    ItoaNoSeparators(Unix(a.publishedOn));
    VersionsNoPipe(a.versions);
    SevenFieldsCount('A', Itoa(a.id), Itoa(Unix(a.publishedOn)), RemSep(a.title),
                     BoolToStr(a.isPrivate), BoolToStr(a.isDeleted),
                     TagsField(a.tags), VersionsField(a.versions), '|');
  }

  /** A crash line whose IpAddrInternal holds no '|' is 'C' and six fields; the
      hash decodes once its '=' is put back. */
  lemma CrashLineFields(c: Crash)
    requires '|' !in c.ipAddrInternal
    ensures var line := SerCrash(c);
      |line| >= 2 && line[0] == 'C' && line[|line| - 1] == '\n'
      && Fields(line) == [HashField(c.sha1), Itoa(Unix(c.createdOn)), RemSep(c.programName),
                          RemSep(c.programVersion), c.ipAddrInternal, RemSep(c.crashedLine)]
      && Base64Decode(Fields(line)[0] + "=") == Some(c.sha1)
  {
    var fs := [HashField(c.sha1), Itoa(Unix(c.createdOn)), RemSep(c.programName),
               RemSep(c.programVersion), c.ipAddrInternal, RemSep(c.crashedLine)];
    ItoaNoSeparators(Unix(c.createdOn));
    Line6('C', fs[0], fs[1], fs[2], fs[3], fs[4], fs[5]);
    SplitJoin(fs, '|');
  }

  /** A reader of the redirects file: the id up to the first '|', the url after it. */
  function ReadRedirectLine(line: string): Option<ArticleRedirect>
  {
    if |line| == 0 || line[|line| - 1] != '\n' then None
    else
      var body := line[..|line| - 1];
      var i :- IndexByte(body, '|');
      var id :- Atoi(body[..i]);
      Some(ArticleRedirect(body[i + 1..], id))
  }

  /** The reader gets every redirect back, whatever its url holds. */
  lemma RedirectLineRoundTrip(r: ArticleRedirect)
    ensures ReadRedirectLine(RedirectLine(r)) == Some(r)
  {
    var line := RedirectLine(r);
    var body := line[..|line| - 1];
    var n := |Itoa(r.articleId)|;
    assert body == Itoa(r.articleId) + "|" + r.url;
    ItoaNoSeparators(r.articleId);
    assert body[n] == '|';
    assert body[..n] == Itoa(r.articleId);
    assert IndexByte(body, '|') == Some(n);
    AtoiItoa(r.articleId);
    assert body[n + 1..] == r.url;
  }
}
