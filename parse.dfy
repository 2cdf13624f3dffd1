/** parseText, parseArticle and parseCrash: a block is split into lines, each
    line once on ": ", and the key chooses which field of a fresh zero record
    the value sets. Each parser is a method with the source's loop, proved
    equal to a fold of a field setter over the lines; lemmas then say which
    blocks are accepted and that the record holds the last value of each key. */
module Parse {
  import opened Wrappers
  import opened GoStrings
  import opened Encoding
  import opened Times
  import opened Records
  import opened Ip

  // ---------------------------------------------------------------------
  // Folding a field setter over the lines of a block

  /** lp := SplitN(p, ": ", 2); lp[1] is out of range when there is no ": ". */
  function KeyValue(line: string): Result<(string, string), Fatal>
  {
    if SplitKeyValue(line).None? then Err(MissingSeparator(line)) else Ok(SplitKeyValue(line).value)
  }

  /** The record after the given lines, or the first fatal error among them. */
  function FoldLines<R>(setter: (R, string, string) -> Result<R, Fatal>, init: R, lines: seq<string>): Result<R, Fatal>
  {
    if |lines| == 0 then Ok(init)
    else
      var acc :- FoldLines(setter, init, lines[..|lines| - 1]);
      var kv :- KeyValue(lines[|lines| - 1]);
      setter(acc, kv.0, kv.1)
  }

  /** Once a prefix of the lines is fatal, so is the whole block, with the same error. */
  lemma {:induction false} FoldErrSticks<R>(setter: (R, string, string) -> Result<R, Fatal>, init: R, lines: seq<string>, k: nat)
    requires k <= |lines| && FoldLines(setter, init, lines[..k]).Err?
    ensures FoldLines(setter, init, lines) == FoldLines(setter, init, lines[..k])
    decreases |lines|
  {
    if k < |lines| {
      var front := lines[..|lines| - 1];
      assert front[..k] == lines[..k];
      FoldErrSticks(setter, init, front, k);
    } else {
      assert lines[..k] == lines;
    }
  }

  /** A line is acceptable when it has a ": " and its key and value are. */
  predicate LineValid(valid: (string, string) -> bool, line: string)
  {
    match SplitKeyValue(line)
    case None => false
    case Some(kv) => valid(kv.0, kv.1)
  }

  predicate LinesValid(valid: (string, string) -> bool, lines: seq<string>)
  {
    forall i :: 0 <= i < |lines| ==> LineValid(valid, lines[i])
  }

  /** When a setter fails on exactly the invalid key/value pairs, whatever the
      record so far, the fold succeeds exactly when every line is valid. */
  lemma {:induction false} FoldOkIff<R>(setter: (R, string, string) -> Result<R, Fatal>, init: R, lines: seq<string>,
                                       valid: (string, string) -> bool)
    requires forall acc: R, k: string, v: string :: setter(acc, k, v).Ok? <==> valid(k, v)
    ensures FoldLines(setter, init, lines).Ok? <==> LinesValid(valid, lines)
  {
    if |lines| > 0 {
      var front := lines[..|lines| - 1];
      FoldOkIff(setter, init, front, valid);
      assert forall i :: 0 <= i < |front| ==> front[i] == lines[i];
      if LinesValid(valid, lines) {
        assert LineValid(valid, lines[|lines| - 1]);
      }
    }
  }

  /** The value of the last line whose key is `key`. */
  function LastValue(lines: seq<string>, key: string): Option<string>
  {
    if |lines| == 0 then None
    else
      var kv := SplitKeyValue(lines[|lines| - 1]);
      if kv.Some? && kv.value.0 == key then Some(kv.value.1)
      else LastValue(lines[..|lines| - 1], key)
  }

  /** The last line either sets the key or leaves its earlier value. */
  lemma LastValueStep(lines: seq<string>, key: string)
    requires |lines| > 0 && SplitKeyValue(lines[|lines| - 1]).Some?
    ensures LastValue(lines, key)
         == if SplitKeyValue(lines[|lines| - 1]).value.0 == key then Some(SplitKeyValue(lines[|lines| - 1]).value.1)
            else LastValue(lines[..|lines| - 1], key)
  {
  }

  // ---------------------------------------------------------------------
  // Field values shared by the parsers

  /** The F values and the Format constants they stand for. */
  function FormatOf(val: string): Option<int>
  {
    if val == "html" then Some(FormatHtml)
    else if val == "text" then Some(FormatText)
    else if val == "textile" then Some(FormatTextile)
    else if val == "markdown" then Some(FormatMarkdown)
    else None
  }

  /** hex.DecodeString(val) when it yields exactly the 20 bytes of a SHA-1. */
  function DigestOf(val: string): Option<Digest>
  {
    match HexDecode(val)
    case None => None
    case Some(b) => if |b| == 20 then Some(b) else None
  }

  /** An M value is accepted exactly when it is 40 hex digits ... */
  lemma DigestOfAccepts(val: string)
    ensures DigestOf(val).Some? <==> |val| == 40 && forall i :: 0 <= i < |val| ==> IsHexDigit(val[i])
  {
  }

  /** ... and the hash printed by %x reads back as itself. */
  lemma DigestOfHex(d: Digest)
    ensures DigestOf(HexEncode(d)) == Some(d)
  {
    HexRoundTrip(d);
  }

  /** What each F value becomes; nothing else is a format. */
  lemma FormatOfValues(val: string)
    ensures FormatOf(val) == Some(0) <==> val == "html"
    ensures FormatOf(val) == Some(1) <==> val == "textile"
    ensures FormatOf(val) == Some(2) <==> val == "markdown"
    ensures FormatOf(val) == Some(3) <==> val == "text"
    ensures FormatOf(val).None? <==> val !in {"html", "textile", "markdown", "text"}
  {
  }

  // ---------------------------------------------------------------------
  // parseText

  function SetTextField(t: Text, name: string, val: string): Result<Text, Fatal>
  {
    if name == "I" then
      (match Atoi(val)
       case None => Err(InvalidInt("I", val))
       case Some(n) => Ok(t.(id := n)))
    else if name == "M" then
      (match DigestOf(val)
       case None => Err(InvalidHash(val))
       case Some(d) => Ok(t.(sha1Str := val, sha1 := d)))
    else if name == "On" then
      (match ParseTime(val)
       case None => Err(InvalidDate(val))
       case Some(tm) => Ok(t.(createdOn := tm)))
    else if name == "F" then
      (match FormatOf(val)
       case None => Err(UnknownFormat(val))
       case Some(f) => Ok(t.(format := f)))
    else Err(UnknownField(name))
  }

  function TextOf(block: string): Result<Text, Fatal>
  {
    FoldLines(SetTextField, EmptyText, Split(block, '\n'))
  }

  /** The switch on the key inside the loop of parseText. */
  method SetTextLine(acc: Text, name: string, val: string) returns (r: Result<Text, Fatal>)
    ensures r == SetTextField(acc, name, val)
  {
    var res := acc;
    if name == "I" {
      var n := Atoi(val);
      if n.None? {
        r := Err(InvalidInt("I", val));
        return;
      }
      res := res.(id := n.value);
    } else if name == "M" {
      res := res.(sha1Str := val);
      var sha1 := HexDecode(val);
      if sha1.None? || |sha1.value| != 20 {
        r := Err(InvalidHash(val));
        return;
      }
      res := res.(sha1 := sha1.value);
    } else if name == "On" {
      var t := ParseTime(val);
      if t.None? {
        r := Err(InvalidDate(val));
        return;
      }
      res := res.(createdOn := t.value);
    } else if name == "F" {
      if val == "html" {
        res := res.(format := FormatHtml);
      } else if val == "text" {
        res := res.(format := FormatText);
      } else if val == "textile" {
        res := res.(format := FormatTextile);
      } else if val == "markdown" {
        res := res.(format := FormatMarkdown);
      } else {
        r := Err(UnknownFormat(val));
        return;
      }
    } else {
      r := Err(UnknownField(name));
      return;
    }
    r := Ok(res);
  }

  method ParseText(d: string) returns (r: Result<Text, Fatal>)
    ensures r == TextOf(d)
  {
    var parts := Split(d, '\n');
    var res := EmptyText;
    for i := 0 to |parts|
      invariant FoldLines(SetTextField, EmptyText, parts[..i]) == Ok(res)
    {
      assert parts[..i + 1][..i] == parts[..i];
      var p := parts[i];
      var lp := SplitKeyValue(p);
      if lp.None? {
        r := Err(MissingSeparator(p));
        FoldErrSticks(SetTextField, EmptyText, parts, i + 1);
        return;
      }
      var next := SetTextLine(res, lp.value.0, lp.value.1);
      if next.Err? {
        r := next;
        FoldErrSticks(SetTextField, EmptyText, parts, i + 1);
        return;
      }
      res := next.value;
    }
    assert parts[..|parts|] == parts;
    r := Ok(res);
  }

  /** The keys parseText knows, each with a value it can read. */
  predicate TextLineValid(name: string, val: string)
  {
    (name == "I" && Atoi(val).Some?)
    || (name == "M" && DigestOf(val).Some?)
    || (name == "On" && ParseTime(val).Some?)
    || (name == "F" && FormatOf(val).Some?)
  }

  /** A text block is accepted exactly when every line is "key: value" with a
      key among I, M, On, F and a value that key can read. */
  lemma TextOfAccepts(block: string)
    ensures TextOf(block).Ok? <==> LinesValid(TextLineValid, Split(block, '\n'))
  {
    FoldOkIff(SetTextField, EmptyText, Split(block, '\n'), TextLineValid);
  }

  /** The last value of a key read as an integer, 0 (Go's zero value) when absent. */
  function LastInt(lines: seq<string>, key: string): int
  {
    match LastValue(lines, key)
    case None => 0
    case Some(v) => Atoi(v).GetOr(0)
  }

  /** The last value of a key read as a timestamp, the zero time when absent. */
  function LastTime(lines: seq<string>, key: string): Time
  {
    match LastValue(lines, key)
    case None => ZeroTime
    case Some(v) => ParseTime(v).GetOr(ZeroTime)
  }

  /** An M value read as a digest, twenty zero bytes when it is not one. */
  function DigestOr(val: string): Digest
  {
    if DigestOf(val).Some? then DigestOf(val).value else ZeroDigest
  }

  /** The last M read as a digest, twenty zero bytes when absent. */
  function LastDigest(lines: seq<string>): Digest
  {
    if LastValue(lines, "M").Some? then DigestOr(LastValue(lines, "M").value) else ZeroDigest
  }

  function LastFormat(lines: seq<string>): int
  {
    match LastValue(lines, "F")
    case None => FormatHtml
    case Some(v) => FormatOf(v).GetOr(FormatHtml)
  }

  /** The text a valid block describes: for each key its last value, Go's zero value when absent. */
  function TextFromLast(lines: seq<string>): Text
  {
    Text(LastInt(lines, "I"), LastTime(lines, "On"), LastFormat(lines),
         LastValue(lines, "M").GetOr(""), LastDigest(lines))
  }


  /** A repeated key overwrites: the parsed text holds the last value of each key. */
  lemma {:induction false} TextLastWins(lines: seq<string>)
    requires FoldLines(SetTextField, EmptyText, lines).Ok?
    ensures FoldLines(SetTextField, EmptyText, lines) == Ok(TextFromLast(lines))
  {
    if |lines| > 0 {
      var front := lines[..|lines| - 1];
      TextLastWins(front);
      var kv := SplitKeyValue(lines[|lines| - 1]).value;
      LastValueStep(lines, "I");
      LastValueStep(lines, "M");
      LastValueStep(lines, "On");
      LastValueStep(lines, "F");
      assert FoldLines(SetTextField, EmptyText, lines) == SetTextField(TextFromLast(front), kv.0, kv.1);
    }
  }

  // ---------------------------------------------------------------------
  // parseArticle

  /** strconv.Atoi of one V token. */
  function VersionOf(v: string): Result<int, Fatal>
  {
    match Atoi(v)
    case None => Err(InvalidInt("ver", v))
    case Some(n) => Ok(n)
  }

  /** f applied to each element in order, or the first error. */
  function MapResult<A, B>(f: A -> Result<B, Fatal>, xs: seq<A>): Result<seq<B>, Fatal>
  {
    if |xs| == 0 then Ok([])
    else
      var y :- f(xs[0]);
      var ys :- MapResult(f, xs[1..]);
      Ok([y] + ys)
  }

  /** Results already collected, in front of the results still to come. */
  function Then<B>(done: seq<B>, rest: Result<seq<B>, Fatal>): Result<seq<B>, Fatal>
  {
    match rest
    case Err(e) => Err(e)
    case Ok(ys) => Ok(done + ys)
  }

  lemma ThenStart<A, B>(rest: Result<seq<B>, Fatal>, xs: seq<A>)
    ensures Then([], rest) == rest && xs[0..] == xs
  {
    if rest.Ok? {
      assert [] + rest.value == rest.value;
    }
  }

  /** One more element taken off the front of the remaining input. */
  lemma MapResultStep<A, B>(f: A -> Result<B, Fatal>, xs: seq<A>, i: nat)
    requires i < |xs|
    ensures MapResult(f, xs[i..]) == (if f(xs[i]).Err? then Err(f(xs[i]).error)
                                      else Cons(f(xs[i]).value, MapResult(f, xs[i + 1..])))
  {
    assert xs[i..][0] == xs[i];
    assert xs[i..][1..] == xs[i + 1..];
  }

  function Cons<B>(y: B, rest: Result<seq<B>, Fatal>): Result<seq<B>, Fatal>
  {
    match rest
    case Err(e) => Err(e)
    case Ok(ys) => Ok([y] + ys)
  }

  lemma ThenStep<B>(done: seq<B>, y: B, rest: Result<seq<B>, Fatal>)
    ensures Then(done, Cons(y, rest)) == Then(done + [y], rest)
  {
    if rest.Ok? {
      assert done + ([y] + rest.value) == (done + [y]) + rest.value;
    }
  }

  /** MapResult fails exactly when f fails on some element, and then with the first such error. */
  lemma {:induction false} MapResultOk<A, B>(f: A -> Result<B, Fatal>, xs: seq<A>)
    ensures MapResult(f, xs).Ok? <==> forall i :: 0 <= i < |xs| ==> f(xs[i]).Ok?
    ensures MapResult(f, xs).Ok? ==>
      |MapResult(f, xs).value| == |xs| && forall i :: 0 <= i < |xs| ==> MapResult(f, xs).value[i] == f(xs[i]).value
  {
    if |xs| > 0 {
      MapResultOk(f, xs[1..]);
      assert forall i :: 1 <= i < |xs| ==> xs[1..][i - 1] == xs[i];
    }
  }

  function SetArticleField(a: Article, name: string, val: string): Result<Article, Fatal>
  {
    if name == "I" then
      (match Atoi(val)
       case None => Err(InvalidInt("I", val))
       case Some(n) => Ok(a.(id := n)))
    else if name == "On" then
      (match ParseTime(val)
       case None => Err(InvalidDate(val))
       case Some(tm) => Ok(a.(publishedOn := tm)))
    else if name == "IS" then Ok(a)
    else if name == "P1" then Ok(a.(permalink1 := TrimSpace(val)))
    else if name == "P2" then
      var p := TrimSpace(val);
      Ok(a.(permalink2 := if p == "None" then "" else p))
    else if name == "P?" then Ok(a.(isPrivate := val == "False"))
    else if name == "D?" then Ok(a.(isDeleted := val == "True"))
    else if name == "T" then Ok(a.(title := TrimSpace(val)))
    else if name == "TG" then Ok(a.(tags := Split(val, ',')))
    else if name == "V" then
      var vs :- MapResult(VersionOf, Split(val, ','));
      Ok(a.(versions := vs))
    else Err(UnknownField(name))
  }

  function ArticleOf(block: string): Result<Article, Fatal>
  {
    FoldLines(SetArticleField, EmptyArticle, Split(block, '\n'))
  }

  /** The V loop: versions[i] = Atoi(tokens[i]) into a slice of the tokens' length. */
  method ParseVersions(val: string) returns (r: Result<seq<int>, Fatal>)
    ensures r == MapResult(VersionOf, Split(val, ','))
  {
    var versions := Split(val, ',');
    var res := new int[|versions|];
    ThenStart(MapResult(VersionOf, versions), versions);
    for i := 0 to |versions|
      invariant MapResult(VersionOf, versions) == Then(res[..i], MapResult(VersionOf, versions[i..]))
    {
      MapResultStep(VersionOf, versions, i);
      var ver := Atoi(versions[i]);
      if ver.None? {
        assert VersionOf(versions[i]) == Err(InvalidInt("ver", versions[i]));
        return Err(InvalidInt("ver", versions[i]));
      }
      ThenStep(res[..i], ver.value, MapResult(VersionOf, versions[i + 1..]));
      ghost var done := res[..i];
      res[i] := ver.value;
      assert res[..i] == done;
      assert res[..i + 1] == done + [ver.value];
    }
    assert versions[|versions|..] == [];
    assert res[..|versions|] == res[..];
    assert Then(res[..], Ok([])) == Ok(res[..]) by {
      assert res[..] + [] == res[..];
    }
    r := Ok(res[..]);
  }

  /** The switch on the key inside the loop of parseArticle. */
  method SetArticleLine(acc: Article, name: string, val: string) returns (r: Result<Article, Fatal>)
    ensures r == SetArticleField(acc, name, val)
  {
    var res := acc;
    if name == "I" {
      var n := Atoi(val);
      if n.None? {
        r := Err(InvalidInt("I", val));
        return;
      }
      res := res.(id := n.value);
    } else if name == "On" {
      var t := ParseTime(val);
      if t.None? {
        r := Err(InvalidDate(val));
        return;
      }
      res := res.(publishedOn := t.value);
    } else if name == "IS" {
      // ignored
    } else if name == "P1" {
      res := res.(permalink1 := TrimSpace(val));
    } else if name == "P2" {
      res := res.(permalink2 := TrimSpace(val));
      if res.permalink2 == "None" {
        res := res.(permalink2 := "");
      }
    } else if name == "P?" {
      res := res.(isPrivate := val == "False");
    } else if name == "D?" {
      res := res.(isDeleted := val == "True");
    } else if name == "T" {
      res := res.(title := TrimSpace(val));
    } else if name == "TG" {
      res := res.(tags := Split(val, ','));
    } else if name == "V" {
      var vs := ParseVersions(val);
      if vs.Err? {
        r := Err(vs.error);
        return;
      }
      res := res.(versions := vs.value);
    } else {
      r := Err(UnknownField(name));
      return;
    }
    r := Ok(res);
  }

  method ParseArticle(d: string) returns (r: Result<Article, Fatal>)
    ensures r == ArticleOf(d)
  {
    var parts := Split(d, '\n');
    var res := EmptyArticle;
    for i := 0 to |parts|
      invariant FoldLines(SetArticleField, EmptyArticle, parts[..i]) == Ok(res)
    {
      assert parts[..i + 1][..i] == parts[..i];
      var p := parts[i];
      var lp := SplitKeyValue(p);
      if lp.None? {
        r := Err(MissingSeparator(p));
        FoldErrSticks(SetArticleField, EmptyArticle, parts, i + 1);
        return;
      }
      var next := SetArticleLine(res, lp.value.0, lp.value.1);
      if next.Err? {
        r := next;
        FoldErrSticks(SetArticleField, EmptyArticle, parts, i + 1);
        return;
      }
      res := next.value;
    }
    assert parts[..|parts|] == parts;
    r := Ok(res);
  }

  /** A V value every token of which is an integer. */
  predicate VersionsValid(val: string)
  {
    forall i :: 0 <= i < |Split(val, ',')| ==> Atoi(Split(val, ',')[i]).Some?
  }

  /** The keys parseArticle knows, each with a value it can read. */
  predicate ArticleLineValid(name: string, val: string)
  {
    (name == "I" && Atoi(val).Some?)
    || (name == "On" && ParseTime(val).Some?)
    || name in {"IS", "P1", "P2", "P?", "D?", "T", "TG"}
    || (name == "V" && VersionsValid(val))
  }

  /** An article block is accepted exactly when every line is "key: value" with
      a known key; only I, On and V can reject their value. */
  lemma ArticleOfAccepts(block: string)
    ensures ArticleOf(block).Ok? <==> LinesValid(ArticleLineValid, Split(block, '\n'))
  {
    forall a: Article, k: string, v: string
      ensures SetArticleField(a, k, v).Ok? <==> ArticleLineValid(k, v)
    {
      MapResultOk(VersionOf, Split(v, ','));
    }
    FoldOkIff(SetArticleField, EmptyArticle, Split(block, '\n'), ArticleLineValid);
  }

  /** An empty V is the single empty token, which is not an integer. */
  lemma EmptyVersionsFatal(a: Article)
    ensures SetArticleField(a, "V", "") == Err(InvalidInt("ver", ""))
  {
    assert Split("", ',') == [""];
  }

  /** The last value of a key with surrounding spaces trimmed, "" when absent. */
  function LastTrimmed(lines: seq<string>, key: string): string
  {
    TrimSpace(LastValue(lines, key).GetOr(""))
  }

  function LastPermalink2(lines: seq<string>): string
  {
    if LastTrimmed(lines, "P2") == "None" then "" else LastTrimmed(lines, "P2")
  }

  function LastTags(lines: seq<string>): seq<string>
  {
    match LastValue(lines, "TG")
    case None => []
    case Some(v) => Split(v, ',')
  }

  function LastVersions(lines: seq<string>): seq<int>
  {
    match LastValue(lines, "V")
    case None => []
    case Some(v) => if MapResult(VersionOf, Split(v, ',')).Ok? then MapResult(VersionOf, Split(v, ',')).value else []
  }

  /** The article a valid block describes: for each key its last value, Go's zero value when absent. */
  function ArticleFromLast(lines: seq<string>): Article
  {
    Article(
      LastInt(lines, "I"),
      LastTime(lines, "On"),
      LastTrimmed(lines, "P1"),
      LastPermalink2(lines),
      LastValue(lines, "P?") == Some("False"),
      LastValue(lines, "D?") == Some("True"),
      LastTrimmed(lines, "T"),
      LastTags(lines),
      LastVersions(lines))
  }


  /** The last line either sets the key or leaves its earlier value, for every article key. */
  lemma ArticleKeysStep(lines: seq<string>, key: string, val: string)
    requires |lines| > 0 && SplitKeyValue(lines[|lines| - 1]) == Some((key, val))
    ensures LastValue(lines, "I") == if key == "I" then Some(val) else LastValue(lines[..|lines| - 1], "I")
    ensures LastValue(lines, "On") == if key == "On" then Some(val) else LastValue(lines[..|lines| - 1], "On")
    ensures LastValue(lines, "P1") == if key == "P1" then Some(val) else LastValue(lines[..|lines| - 1], "P1")
    ensures LastValue(lines, "P2") == if key == "P2" then Some(val) else LastValue(lines[..|lines| - 1], "P2")
    ensures LastValue(lines, "P?") == if key == "P?" then Some(val) else LastValue(lines[..|lines| - 1], "P?")
    ensures LastValue(lines, "D?") == if key == "D?" then Some(val) else LastValue(lines[..|lines| - 1], "D?")
    ensures LastValue(lines, "T") == if key == "T" then Some(val) else LastValue(lines[..|lines| - 1], "T")
    ensures LastValue(lines, "TG") == if key == "TG" then Some(val) else LastValue(lines[..|lines| - 1], "TG")
    ensures LastValue(lines, "V") == if key == "V" then Some(val) else LastValue(lines[..|lines| - 1], "V")
  {
    LastValueStep(lines, "I");
    LastValueStep(lines, "On");
    LastValueStep(lines, "P1");
    LastValueStep(lines, "P2");
    LastValueStep(lines, "P?");
    LastValueStep(lines, "D?");
    LastValueStep(lines, "T");
    LastValueStep(lines, "TG");
    LastValueStep(lines, "V");
  }

  /** The article after one more line is the reference article of the longer block. */
  lemma ArticleStep(lines: seq<string>, key: string, val: string)
    requires |lines| > 0 && SplitKeyValue(lines[|lines| - 1]) == Some((key, val))
    requires SetArticleField(ArticleFromLast(lines[..|lines| - 1]), key, val).Ok?
    ensures SetArticleField(ArticleFromLast(lines[..|lines| - 1]), key, val) == Ok(ArticleFromLast(lines))
  {
    if key == "I" || key == "On" || key == "IS" {
      ArticleStepIds(lines, key, val);
    } else if key == "P1" || key == "P2" || key == "P?" {
      ArticleStepLinks(lines, key, val);
    } else {
      ArticleStepContent(lines, key, val);
    }
  }

  lemma ArticleStepIds(lines: seq<string>, key: string, val: string)
    requires |lines| > 0 && SplitKeyValue(lines[|lines| - 1]) == Some((key, val))
    requires key == "I" || key == "On" || key == "IS"
    requires SetArticleField(ArticleFromLast(lines[..|lines| - 1]), key, val).Ok?
    ensures SetArticleField(ArticleFromLast(lines[..|lines| - 1]), key, val) == Ok(ArticleFromLast(lines))
  {
    ArticleKeysStep(lines, key, val);
    var a := ArticleFromLast(lines[..|lines| - 1]);
    if key == "I" {
      assert ArticleFromLast(lines) == a.(id := Atoi(val).value);
    } else if key == "On" {
      assert ArticleFromLast(lines) == a.(publishedOn := ParseTime(val).value);
    } else {
      assert ArticleFromLast(lines) == a;
    }
  }

  lemma ArticleStepLinks(lines: seq<string>, key: string, val: string)
    requires |lines| > 0 && SplitKeyValue(lines[|lines| - 1]) == Some((key, val))
    requires key == "P1" || key == "P2" || key == "P?"
    requires SetArticleField(ArticleFromLast(lines[..|lines| - 1]), key, val).Ok?
    ensures SetArticleField(ArticleFromLast(lines[..|lines| - 1]), key, val) == Ok(ArticleFromLast(lines))
  {
    ArticleKeysStep(lines, key, val);
    var a := ArticleFromLast(lines[..|lines| - 1]);
    if key == "P1" {
      assert ArticleFromLast(lines) == a.(permalink1 := TrimSpace(val));
    } else if key == "P2" {
      assert ArticleFromLast(lines) == a.(permalink2 := if TrimSpace(val) == "None" then "" else TrimSpace(val));
    } else {
      assert ArticleFromLast(lines) == a.(isPrivate := val == "False");
    }
  }

  lemma ArticleStepContent(lines: seq<string>, key: string, val: string)
    requires |lines| > 0 && SplitKeyValue(lines[|lines| - 1]) == Some((key, val))
    requires key != "I" && key != "On" && key != "IS" && key != "P1" && key != "P2" && key != "P?"
    requires SetArticleField(ArticleFromLast(lines[..|lines| - 1]), key, val).Ok?
    ensures SetArticleField(ArticleFromLast(lines[..|lines| - 1]), key, val) == Ok(ArticleFromLast(lines))
  {
    ArticleKeysStep(lines, key, val);
    var a := ArticleFromLast(lines[..|lines| - 1]);
    if key == "D?" {
      assert ArticleFromLast(lines) == a.(isDeleted := val == "True");
    } else if key == "T" {
      assert ArticleFromLast(lines) == a.(title := TrimSpace(val));
    } else if key == "TG" {
      assert ArticleFromLast(lines) == a.(tags := Split(val, ','));
    } else {
      assert ArticleFromLast(lines) == a.(versions := MapResult(VersionOf, Split(val, ',')).value);
    }
  }

  /** A repeated key overwrites: the parsed article holds the last value of each key. */
  lemma {:induction false} ArticleLastWins(lines: seq<string>)
    requires FoldLines(SetArticleField, EmptyArticle, lines).Ok?
    ensures FoldLines(SetArticleField, EmptyArticle, lines) == Ok(ArticleFromLast(lines))
  {
    if |lines| > 0 {
      var front := lines[..|lines| - 1];
      ArticleLastWins(front);
      var kv := SplitKeyValue(lines[|lines| - 1]).value;
      assert FoldLines(SetArticleField, EmptyArticle, lines) == SetArticleField(ArticleFromLast(front), kv.0, kv.1);
      ArticleStep(lines, kv.0, kv.1);
    }
  }

  // ---------------------------------------------------------------------
  // parseCrash

  /** parseCrash's setter: unknown keys are skipped rather than fatal. */
  function SetCrashField(c: Crash, name: string, val: string): Result<Crash, Fatal>
  {
    if name == "M" then
      (match DigestOf(val)
       case None => Err(InvalidHash(val))
       case Some(d) => Ok(c.(sha1Str := val, sha1 := d)))
    else if name == "On" then
      (match ParseTime(val)
       case None => Err(InvalidDate(val))
       case Some(tm) => Ok(c.(createdOn := tm)))
    else if name == "Ip" then Ok(c.(ipAddrStr := val, ipAddrInternal := CompactIp(val)))
    else if name == "N" then Ok(c.(programName := val))
    else if name == "V" then Ok(c.(programVersion := val))
    else Ok(c)
  }

  function CrashOf(block: string): Result<Crash, Fatal>
  {
    FoldLines(SetCrashField, EmptyCrash, Split(block, '\n'))
  }

  /** The switch on the key inside the loop of parseCrash. */
  method SetCrashLine(acc: Crash, name: string, val: string) returns (r: Result<Crash, Fatal>)
    ensures r == SetCrashField(acc, name, val)
  {
    var res := acc;
    if name == "M" {
      res := res.(sha1Str := val);
      var sha1 := HexDecode(val);
      if sha1.None? || |sha1.value| != 20 {
        r := Err(InvalidHash(val));
        return;
      }
      res := res.(sha1 := sha1.value);
    } else if name == "On" {
      var t := ParseTime(val);
      if t.None? {
        r := Err(InvalidDate(val));
        return;
      }
      res := res.(createdOn := t.value);
    } else if name == "Ip" {
      res := res.(ipAddrStr := val);
      var internal := CompactIpStr(val);
      res := res.(ipAddrInternal := internal);
    } else if name == "N" {
      res := res.(programName := val);
    } else if name == "V" {
      res := res.(programVersion := val);
    }
    r := Ok(res);
  }

  method ParseCrash(d: string) returns (r: Result<Crash, Fatal>)
    ensures r == CrashOf(d)
  {
    var parts := Split(d, '\n');
    var res := EmptyCrash;
    for i := 0 to |parts|
      invariant FoldLines(SetCrashField, EmptyCrash, parts[..i]) == Ok(res)
    {
      assert parts[..i + 1][..i] == parts[..i];
      var p := parts[i];
      var lp := SplitKeyValue(p);
      if lp.None? {
        r := Err(MissingSeparator(p));
        FoldErrSticks(SetCrashField, EmptyCrash, parts, i + 1);
        return;
      }
      var next := SetCrashLine(res, lp.value.0, lp.value.1);
      if next.Err? {
        r := next;
        FoldErrSticks(SetCrashField, EmptyCrash, parts, i + 1);
        return;
      }
      res := next.value;
    }
    assert parts[..|parts|] == parts;
    r := Ok(res);
  }

  /** The values parseCrash can reject: M and On. */
  predicate CrashLineValid(name: string, val: string)
  {
    (name == "M" ==> DigestOf(val).Some?) && (name == "On" ==> ParseTime(val).Some?)
  }

  /** A crash block is accepted exactly when every line has a ": " and its M
      and On values can be read; any other key is accepted. */
  lemma CrashOfAccepts(block: string)
    ensures CrashOf(block).Ok? <==> LinesValid(CrashLineValid, Split(block, '\n'))
  {
    FoldOkIff(SetCrashField, EmptyCrash, Split(block, '\n'), CrashLineValid);
  }

  function LastIpInternal(lines: seq<string>): string
  {
    match LastValue(lines, "Ip")
    case None => ""
    case Some(v) => CompactIp(v)
  }

  /** The crash a valid block describes: the raw last Ip and its compact form, and so on. */
  function CrashFromLast(lines: seq<string>): Crash
  {
    Crash(
      LastTime(lines, "On"),
      LastValue(lines, "N").GetOr(""),
      LastValue(lines, "V").GetOr(""),
      LastValue(lines, "Ip").GetOr(""),
      LastIpInternal(lines),
      LastValue(lines, "M").GetOr(""),
      LastDigest(lines),
      "")
  }


  /** The last line either sets the key or leaves its earlier value, for every crash key. */
  lemma CrashKeysStep(lines: seq<string>, key: string, val: string)
    requires |lines| > 0 && SplitKeyValue(lines[|lines| - 1]) == Some((key, val))
    ensures LastValue(lines, "M") == if key == "M" then Some(val) else LastValue(lines[..|lines| - 1], "M")
    ensures LastValue(lines, "On") == if key == "On" then Some(val) else LastValue(lines[..|lines| - 1], "On")
    ensures LastValue(lines, "Ip") == if key == "Ip" then Some(val) else LastValue(lines[..|lines| - 1], "Ip")
    ensures LastValue(lines, "N") == if key == "N" then Some(val) else LastValue(lines[..|lines| - 1], "N")
    ensures LastValue(lines, "V") == if key == "V" then Some(val) else LastValue(lines[..|lines| - 1], "V")
  {
    LastValueStep(lines, "M");
    LastValueStep(lines, "On");
    LastValueStep(lines, "Ip");
    LastValueStep(lines, "N");
    LastValueStep(lines, "V");
  }

  /** The crash after one more line is the reference crash of the longer block. */
  lemma CrashStep(lines: seq<string>, key: string, val: string)
    requires |lines| > 0 && SplitKeyValue(lines[|lines| - 1]) == Some((key, val))
    requires SetCrashField(CrashFromLast(lines[..|lines| - 1]), key, val).Ok?
    ensures SetCrashField(CrashFromLast(lines[..|lines| - 1]), key, val) == Ok(CrashFromLast(lines))
  {
    CrashKeysStep(lines, key, val);
    var c := CrashFromLast(lines[..|lines| - 1]);
    if key == "M" {
      assert CrashFromLast(lines) == c.(sha1Str := val, sha1 := DigestOf(val).value);
    } else if key == "On" {
      assert CrashFromLast(lines) == c.(createdOn := ParseTime(val).value);
    } else if key == "Ip" {
      assert CrashFromLast(lines) == c.(ipAddrStr := val, ipAddrInternal := CompactIp(val));
    } else if key == "N" {
      assert CrashFromLast(lines) == c.(programName := val);
    } else if key == "V" {
      assert CrashFromLast(lines) == c.(programVersion := val);
    } else {
      assert CrashFromLast(lines) == c;
    }
  }

  /** A repeated key overwrites: the parsed crash holds the last value of each key. */
  lemma {:induction false} CrashLastWins(lines: seq<string>)
    requires FoldLines(SetCrashField, EmptyCrash, lines).Ok?
    ensures FoldLines(SetCrashField, EmptyCrash, lines) == Ok(CrashFromLast(lines))
  {
    if |lines| > 0 {
      var front := lines[..|lines| - 1];
      CrashLastWins(front);
      var kv := SplitKeyValue(lines[|lines| - 1]).value;
      assert FoldLines(SetCrashField, EmptyCrash, lines) == SetCrashField(CrashFromLast(front), kv.0, kv.1);
      CrashStep(lines, kv.0, kv.1);
    }
  }
}
