/** blobPath, blobCrashesPath, copyBlobs, getCrashPrefixData and copyCrashesBlobs.
    The file system is a map from path to contents held by a Store; a path
    exists when it is a key. Sha1OfBytes and ExtractSumatraCrashingLine are
    helpers outside this file and are parameters. */
module Blobs {
  import opened Wrappers
  import opened Encoding
  import opened Times
  import opened Records
  import opened GoStrings

  type Files = map<string, string>

  /** The part of the file system the migrator reads and writes. */
  class Store {
    var files: Files

    constructor (initial: Files)
      ensures files == initial
    {
      files := initial;
    }

    /** copyBlobs: each text's blob is copied from the source tree to the
        destination tree unless the destination already has it. */
    method CopyBlobs(texts: seq<Text>, srcDir: string, dstDir: string) returns (r: Outcome<Fatal>)
      modifies this
      ensures (files, r) == CopyAll(old(files), texts, srcDir, dstDir)
    {
      ghost var spec := CopyAll(files, texts, srcDir, dstDir);
      var i := 0;
      while i < |texts|
        invariant 0 <= i <= |texts|
        invariant spec == CopyAll(files, texts[i..], srcDir, dstDir)
      {
        assert texts[i..][1..] == texts[i + 1..];
        var t := texts[i];
        var srcPath := BlobPath(srcDir, t.sha1Str);
        if srcPath.Err? {
          return Fail(srcPath.error);
        }
        var dstPath := BlobPath(dstDir, t.sha1Str);
        if srcPath.value !in files {
          return Fail(MissingBlob(srcPath.value));
        }
        if dstPath.value !in files {
          files := files[dstPath.value := files[srcPath.value]];
        }
        i := i + 1;
      }
      r := Pass;
    }

    /** The body of copyCrashesBlobs' loop for one crash: the updated record,
        with the report written when its path is absent. */
    method CopyCrashBlob(c: Crash, srcDir: string, dstDir: string,
                         sha1Of: string -> Digest, extractLine: string -> string)
      returns (r: Result<Crash, Fatal>)
      modifies this
      ensures r.Ok? ==> CrashStep(old(files), c, srcDir, dstDir, sha1Of, extractLine) == Ok((files, r.value))
      ensures r.Err? ==> CrashStep(old(files), c, srcDir, dstDir, sha1Of, extractLine) == Err(r.error)
      ensures r.Err? ==> files == old(files)
    {
      var srcPath := BlobCrashesPath(srcDir, c.sha1Str);
      if srcPath.Err? {
        return Err(srcPath.error);
      }
      if srcPath.value !in files {
        return Err(MissingBlob(srcPath.value));
      }
      var dstData := CrashPrefix(c) + files[srcPath.value];
      var sha1 := sha1Of(dstData);
      var sha1Str := HexEncode(sha1);
      var dstPath := BlobCrashesPath(dstDir, sha1Str);
      if dstPath.value !in files {
        files := files[dstPath.value := dstData];
      }
      r := Ok(c.(sha1 := sha1, sha1Str := sha1Str, crashedLine := extractLine(dstData)));
    }

    /** copyCrashesBlobs: each crash's report gets the header put in front, is
        stored under the hash of the result, and the crash record is updated
        to that hash and to the line the report says crashed. */
    method CopyCrashesBlobs(crashes: array<Crash>, srcDir: string, dstDir: string,
                            sha1Of: string -> Digest, extractLine: string -> string)
      returns (r: Outcome<Fatal>)
      modifies this, crashes
      ensures Run(files, crashes[..], r) == CrashesAll(old(files), old(crashes[..]), srcDir, dstDir, sha1Of, extractLine)
    {
      ghost var cs := crashes[..];
      ghost var spec := CrashesAll(files, cs, srcDir, dstDir, sha1Of, extractLine);
      var i := 0;
      while i < crashes.Length
        invariant 0 <= i <= crashes.Length
        invariant crashes[i..] == cs[i..]
        invariant spec == Prefixed(crashes[..i], CrashesAll(files, cs[i..], srcDir, dstDir, sha1Of, extractLine))
      {
        assert cs[i..][1..] == cs[i + 1..];
        ghost var done := crashes[..i];
        ghost var rest := CrashesAll(files, cs[i..], srcDir, dstDir, sha1Of, extractLine);
        var c := CopyCrashBlob(crashes[i], srcDir, dstDir, sha1Of, extractLine);
        ghost var before := crashes[..];
        if c.Err? {
          SplitAtIndex(before, i);
          return Fail(c.error);
        }
        crashes[i] := c.value;
        assert crashes[..] == before[i := c.value];
        UpdateAtIndex(before, i, c.value);
        PrefixedTwice(done, [c.value], CrashesAll(files, cs[i + 1..], srcDir, dstDir, sha1Of, extractLine));
        i := i + 1;
      }
      assert crashes[..i] == crashes[..];
      r := Pass;
    }
  }

  // ---------------------------------------------------------------------
  // Blob addresses

  /** filepath.Join(dir, area, sha1[:2], sha1[2:4], sha1); the slices panic on
      a hash shorter than four characters. */
  function AreaPath(dir: string, area: string, sha1: string): (r: Result<string, Fatal>)
    ensures r.Ok? <==> |sha1| >= 4
    ensures r.Err? ==> r.error == HashTooShort(sha1)
  {
    if |sha1| < 4 then Err(HashTooShort(sha1))
    else Ok(dir + "/" + area + "/" + sha1[..2] + "/" + sha1[2..4] + "/" + sha1)
  }

  /** blobPath: dir/blobs/<fan-out>/<hash>, for a hash of at least four characters. */
  function BlobPath(dir: string, sha1: string): (r: Result<string, Fatal>)
    ensures r.Ok? <==> |sha1| >= 4
    ensures r.Err? ==> r.error == HashTooShort(sha1)
    ensures r.Ok? ==>
              && |r.value| == |dir| + 13 + |sha1|
              && r.value[..|dir| + 7] == dir + "/blobs/"
              && r.value[|dir| + 13..] == sha1
  {
    AreaPath(dir, "blobs", sha1)
  }

  /** blobCrashesPath: dir/blobs_crashes/<fan-out>/<hash>, for a hash of at least four characters. */
  function BlobCrashesPath(dir: string, sha1: string): (r: Result<string, Fatal>)
    ensures r.Ok? <==> |sha1| >= 4
    ensures r.Err? ==> r.error == HashTooShort(sha1)
    ensures r.Ok? ==>
              && |r.value| == |dir| + 21 + |sha1|
              && r.value[..|dir| + 15] == dir + "/blobs_crashes/"
              && r.value[|dir| + 21..] == sha1
  {
    AreaPath(dir, "blobs_crashes", sha1)
  }

  /** The path is the directory, the area, the two two-character fan-out
      directories and the whole hash, in that order. */
  lemma AreaPathShape(dir: string, area: string, sha1: string)
    requires |sha1| >= 4
    ensures var p := AreaPath(dir, area, sha1).value;
      var n := |dir| + |area| + 8;
      |p| == n + |sha1|
      && p[..|dir|] == dir && p[|dir|] == '/'
      && p[|dir| + 1..|dir| + 1 + |area|] == area
      && p[n - 6..n] == [p[n], p[n + 1], '/', p[n + 2], p[n + 3], '/']
      && p[n..] == sha1
  {
  }

  /** One directory: different hashes never share a path. */
  lemma {:induction false} AreaPathInjective(dir: string, area: string, h1: string, h2: string)
    requires AreaPath(dir, area, h1).Ok? && AreaPath(dir, area, h2).Ok?
    requires AreaPath(dir, area, h1).value == AreaPath(dir, area, h2).value
    ensures h1 == h2
  {
    AreaPathShape(dir, area, h1);
    AreaPathShape(dir, area, h2);
  }

  /** A text blob and a crash blob under the same directory never share a path. */
  lemma BlobAreasApart(dir: string, h1: string, h2: string)
    requires BlobPath(dir, h1).Ok? && BlobCrashesPath(dir, h2).Ok?
    ensures BlobPath(dir, h1).value != BlobCrashesPath(dir, h2).value
  {
    var p1 := BlobPath(dir, h1).value;
    var p2 := BlobCrashesPath(dir, h2).value;
    assert p1[|dir| + 6] == '/';
    assert p2[|dir| + 6] == '_';
  }

  /** The blob of "c0ffee…" lives under c0/ff. */
  lemma BlobPathExample()
    ensures BlobPath("blogdata", "c0ffee") == Ok("blogdata/blobs/c0/ff/c0ffee")
    ensures BlobPath("blogdata", "c0f").Err?
  {
    var h := "c0ffee";
    var p := BlobPath("blogdata", h).value;
    var want := "blogdata/blobs/c0/ff/c0ffee";
    assert |p| == |want|;
    forall i | 0 <= i < |p| ensures p[i] == want[i] { }
    assert p == want;
  }

  // ---------------------------------------------------------------------
  // copyBlobs

  /** One text: a short hash or a missing source is fatal; the copy is made
      only when the destination is absent. */
  function CopyOne(fs: Files, t: Text, srcDir: string, dstDir: string): Result<Files, Fatal>
  {
    if |t.sha1Str| < 4 then Err(HashTooShort(t.sha1Str))
    else
      var src := BlobPath(srcDir, t.sha1Str).value;
      var dst := BlobPath(dstDir, t.sha1Str).value;
      if src !in fs then Err(MissingBlob(src))
      else if dst in fs then Ok(fs)
      else Ok(fs[dst := fs[src]])
  }

  /** The texts in order; the files as they are when the first fatal error stops the run. */
  function CopyAll(fs: Files, texts: seq<Text>, srcDir: string, dstDir: string): (Files, Outcome<Fatal>)
    decreases |texts|
  {
    if |texts| == 0 then (fs, Pass)
    else
      match CopyOne(fs, texts[0], srcDir, dstDir)
      case Err(e) => (fs, Fail(e))
      case Ok(fs1) => CopyAll(fs1, texts[1..], srcDir, dstDir)
  }

  /** Every text can be copied: its hash is long enough and its source blob exists. */
  predicate SourcesPresent(fs: Files, texts: seq<Text>, srcDir: string)
  {
    forall i :: 0 <= i < |texts| ==>
      BlobPath(srcDir, texts[i].sha1Str).Ok? && BlobPath(srcDir, texts[i].sha1Str).value in fs
  }

  /** Nothing already in the store is overwritten or removed. */
  predicate Keeps(fs: Files, fs1: Files)
  {
    forall p :: p in fs ==> p in fs1 && fs1[p] == fs[p]
  }

  lemma {:induction false} CopyAllKeeps(fs: Files, texts: seq<Text>, srcDir: string, dstDir: string)
    ensures Keeps(fs, CopyAll(fs, texts, srcDir, dstDir).0)
    decreases |texts|
  {
    if |texts| > 0 {
      var one := CopyOne(fs, texts[0], srcDir, dstDir);
      if one.Ok? {
        CopyAllKeeps(one.value, texts[1..], srcDir, dstDir);
      }
    }
  }

  /** The run passes when every source blob is there beforehand, and a run
      that passes leaves every destination blob in place. */
  lemma {:induction false} CopyAllPass(fs: Files, texts: seq<Text>, srcDir: string, dstDir: string)
    ensures SourcesPresent(fs, texts, srcDir) ==> CopyAll(fs, texts, srcDir, dstDir).1.Pass?
    ensures var (fs1, r) := CopyAll(fs, texts, srcDir, dstDir);
      r.Pass? ==> forall i :: 0 <= i < |texts| ==>
        BlobPath(dstDir, texts[i].sha1Str).Ok? && BlobPath(dstDir, texts[i].sha1Str).value in fs1
    decreases |texts|
  {
    if |texts| > 0 {
      var one := CopyOne(fs, texts[0], srcDir, dstDir);
      if one.Ok? {
        var rest := texts[1..];
        CopyAllPass(one.value, rest, srcDir, dstDir);
        CopyAllKeeps(one.value, rest, srcDir, dstDir);
        if SourcesPresent(fs, texts, srcDir) {
          forall i | 0 <= i < |rest|
            ensures BlobPath(srcDir, rest[i].sha1Str).Ok? && BlobPath(srcDir, rest[i].sha1Str).value in one.value
          {
            assert rest[i] == texts[i + 1];
          }
        }
        var fs1 := CopyAll(fs, texts, srcDir, dstDir).0;
        forall i | 0 <= i < |texts| && CopyAll(fs, texts, srcDir, dstDir).1.Pass?
          ensures BlobPath(dstDir, texts[i].sha1Str).Ok? && BlobPath(dstDir, texts[i].sha1Str).value in fs1
        {
          if i > 0 {
            assert texts[i] == rest[i - 1];
          }
        }
      } else if SourcesPresent(fs, texts, srcDir) {
        assert BlobPath(srcDir, texts[0].sha1Str).Ok?;
      }
    }
  }

  /** The only paths a run adds are destination blob paths of its texts. */
  lemma {:induction false} CopyAllAdds(fs: Files, texts: seq<Text>, srcDir: string, dstDir: string)
    ensures var fs1 := CopyAll(fs, texts, srcDir, dstDir).0;
      forall p :: p in fs1 && p !in fs ==>
        exists i :: 0 <= i < |texts| && BlobPath(dstDir, texts[i].sha1Str) == Ok(p)
    decreases |texts|
  {
    if |texts| > 0 {
      var one := CopyOne(fs, texts[0], srcDir, dstDir);
      if one.Ok? {
        var rest := texts[1..];
        CopyAllAdds(one.value, rest, srcDir, dstDir);
        var fs1 := CopyAll(fs, texts, srcDir, dstDir).0;
        forall p | p in fs1 && p !in fs
          ensures exists i :: 0 <= i < |texts| && BlobPath(dstDir, texts[i].sha1Str) == Ok(p)
        {
          if p in one.value {
            assert BlobPath(dstDir, texts[0].sha1Str) == Ok(p);
          } else {
            var i :| 0 <= i < |rest| && BlobPath(dstDir, rest[i].sha1Str) == Ok(p);
            assert texts[i + 1] == rest[i];
          }
        }
      }
    }
  }

  /** A blob the run creates holds the contents of that text's source blob. */
  lemma {:induction false} CopyAllContents(fs: Files, texts: seq<Text>, srcDir: string, dstDir: string)
    ensures var (fs1, r) := CopyAll(fs, texts, srcDir, dstDir);
      r.Pass? ==> forall i :: (0 <= i < |texts| && |texts[i].sha1Str| >= 4
                              && BlobPath(srcDir, texts[i].sha1Str).value in fs
                              && BlobPath(dstDir, texts[i].sha1Str).value !in fs) ==>
        BlobPath(dstDir, texts[i].sha1Str).value in fs1
        && fs1[BlobPath(dstDir, texts[i].sha1Str).value] == fs[BlobPath(srcDir, texts[i].sha1Str).value]
    decreases |texts|
  {
    if |texts| > 0 {
      var one := CopyOne(fs, texts[0], srcDir, dstDir);
      if one.Ok? {
        var fs0 := one.value;
        var rest := texts[1..];
        CopyAllContents(fs0, rest, srcDir, dstDir);
        CopyAllKeeps(fs0, rest, srcDir, dstDir);
        CopyAllPass(fs0, rest, srcDir, dstDir);
        var (fs1, r) := CopyAll(fs, texts, srcDir, dstDir);
        forall i | 0 <= i < |texts| && |texts[i].sha1Str| >= 4 && r.Pass?
          && BlobPath(srcDir, texts[i].sha1Str).value in fs
          && BlobPath(dstDir, texts[i].sha1Str).value !in fs
          ensures BlobPath(dstDir, texts[i].sha1Str).value in fs1
            && fs1[BlobPath(dstDir, texts[i].sha1Str).value] == fs[BlobPath(srcDir, texts[i].sha1Str).value]
        {
          var h := texts[i].sha1Str;
          var src := BlobPath(srcDir, h).value;
          var dst := BlobPath(dstDir, h).value;
          var dst0 := BlobPath(dstDir, texts[0].sha1Str).value;
          assert src in fs0 && fs0[src] == fs[src];
          if dst in fs0 {
            AreaPathInjective(dstDir, "blobs", h, texts[0].sha1Str);
          } else {
            assert texts[i] == rest[i - 1];
          }
        }
      }
    }
  }

  /** Once a run has passed, running it again changes nothing. */
  lemma {:induction false} CopyAllIdempotent(fs: Files, texts: seq<Text>, srcDir: string, dstDir: string)
    requires CopyAll(fs, texts, srcDir, dstDir).1.Pass?
    ensures var fs1 := CopyAll(fs, texts, srcDir, dstDir).0;
      CopyAll(fs1, texts, srcDir, dstDir) == (fs1, Pass)
  {
    var fs1 := CopyAll(fs, texts, srcDir, dstDir).0;
    CopyAllPass(fs, texts, srcDir, dstDir);
    CopyAllKeeps(fs, texts, srcDir, dstDir);
    SourcesKept(fs, texts, srcDir, dstDir);
    CopyPresentNoop(fs1, texts, srcDir, dstDir);
  }

  /** A run that passes leaves every source blob in place. */
  lemma {:induction false} SourcesKept(fs: Files, texts: seq<Text>, srcDir: string, dstDir: string)
    requires CopyAll(fs, texts, srcDir, dstDir).1.Pass?
    ensures SourcesPresent(CopyAll(fs, texts, srcDir, dstDir).0, texts, srcDir)
    decreases |texts|
  {
    if |texts| > 0 {
      var one := CopyOne(fs, texts[0], srcDir, dstDir);
      var rest := texts[1..];
      SourcesKept(one.value, rest, srcDir, dstDir);
      CopyAllKeeps(one.value, rest, srcDir, dstDir);
      var fs1 := CopyAll(fs, texts, srcDir, dstDir).0;
      forall i | 0 <= i < |texts|
        ensures BlobPath(srcDir, texts[i].sha1Str).Ok? && BlobPath(srcDir, texts[i].sha1Str).value in fs1
      {
        if i > 0 {
          assert texts[i] == rest[i - 1];
        }
      }
    }
  }

  /** With every source and destination present, a run writes nothing. */
  lemma {:induction false} CopyPresentNoop(fs: Files, texts: seq<Text>, srcDir: string, dstDir: string)
    requires SourcesPresent(fs, texts, srcDir)
    requires forall i :: 0 <= i < |texts| ==>
      BlobPath(dstDir, texts[i].sha1Str).Ok? && BlobPath(dstDir, texts[i].sha1Str).value in fs
    ensures CopyAll(fs, texts, srcDir, dstDir) == (fs, Pass)
    decreases |texts|
  {
    if |texts| > 0 {
      var rest := texts[1..];
      assert forall i :: 0 <= i < |rest| ==> rest[i] == texts[i + 1];
      CopyPresentNoop(fs, rest, srcDir, dstDir);
    }
  }

  // ---------------------------------------------------------------------
  // copyCrashesBlobs

  /** The lines one after another, each ended by a newline. */
  function Terminated(lines: seq<string>): string
    decreases |lines|
  {
    if |lines| == 0 then "" else lines[0] + "\n" + Terminated(lines[1..])
  }

  /** getCrashPrefixData: the header put in front of a crash report, one
      "App: ", "Ip: " and "On: " line after another. */
  function CrashPrefix(c: Crash): (r: string)
    ensures |r| > 5 && r[..5] == "App: " && r[|r| - 1] == '\n'
  {
    TerminatedThree("App: " + c.programName, "Ip: " + c.ipAddrStr, "On: " + FormatRFC3339(c.createdOn));
    Terminated(["App: " + c.programName, "Ip: " + c.ipAddrStr, "On: " + FormatRFC3339(c.createdOn)])
  }

  lemma TerminatedThree(a: string, b: string, d: string)
    ensures Terminated([a, b, d]) == a + ['\n'] + b + ['\n'] + d + ['\n']
  {
    assert [a, b, d][1..] == [b, d];
    assert [b, d][1..] == [d];
    assert [d][1..] == [];
    assert Terminated([d]) == d + ['\n'];
    AppendAssoc(b + ['\n'], d, ['\n']);
    assert Terminated([b, d]) == b + ['\n'] + d + ['\n'];
    AppendAssoc(a + ['\n'], b + ['\n'] + d, ['\n']);
    AppendAssoc(a + ['\n'], b + ['\n'], d);
    AppendAssoc(a + ['\n'], b, ['\n']);
  }

  /** The path a crash report is stored under: the hex of its hash in the crash area. */
  function CrashKey(dir: string, sha1Of: string -> Digest, data: string): string
  {
    BlobCrashesPath(dir, HexEncode(sha1Of(data))).value
  }

  /** One crash: read its report, prefix the header, store the result under
      its hash when absent, and point the record at it. */
  /** It passes exactly when the source report exists; it then overwrites
      nothing and the record's new hash names a stored report. A short hash
      or a missing source is the error. */
  function CrashStep(fs: Files, c: Crash, srcDir: string, dstDir: string,
                     sha1Of: string -> Digest, extractLine: string -> string): (r: Result<(Files, Crash), Fatal>)
    ensures r.Ok? <==> CrashSource(c, srcDir).Ok? && CrashSource(c, srcDir).value in fs
    ensures r.Err? ==>
              r.error == (if CrashSource(c, srcDir).Err? then CrashSource(c, srcDir).error
                          else MissingBlob(CrashSource(c, srcDir).value))
    ensures r.Ok? ==> Keeps(fs, r.value.0)
    ensures r.Ok? ==>
              && BlobCrashesPath(dstDir, r.value.1.sha1Str).Ok?
              && BlobCrashesPath(dstDir, r.value.1.sha1Str).value in r.value.0
  {
    if |c.sha1Str| < 4 then Err(HashTooShort(c.sha1Str))
    else
      var src := BlobCrashesPath(srcDir, c.sha1Str).value;
      if src !in fs then Err(MissingBlob(src))
      else
        var data := CrashPrefix(c) + fs[src];
        var dst := CrashKey(dstDir, sha1Of, data);
        Ok((if dst in fs then fs else fs[dst := data], Rehash(c, data, sha1Of, extractLine)))
  }

  /** The record copyCrashesBlobs leaves for a crash whose stored report is data. */
  function Rehash(c: Crash, data: string, sha1Of: string -> Digest, extractLine: string -> string): Crash
  {
    c.(sha1 := sha1Of(data), sha1Str := HexEncode(sha1Of(data)), crashedLine := extractLine(data))
  }

  /** The files and the crash records after a run, and how it ended. */
  datatype Run = Run(files: Files, crashes: seq<Crash>, outcome: Outcome<Fatal>)

  function Prefixed(done: seq<Crash>, run: Run): Run
  {
    run.(crashes := done + run.crashes)
  }

  /** The crashes in order; on a fatal error the records from that one on are unchanged. */
  function CrashesAll(fs: Files, cs: seq<Crash>, srcDir: string, dstDir: string,
                      sha1Of: string -> Digest, extractLine: string -> string): Run
    decreases |cs|
  {
    if |cs| == 0 then Run(fs, [], Pass)
    else
      match CrashStep(fs, cs[0], srcDir, dstDir, sha1Of, extractLine)
      case Err(e) => Run(fs, cs, Fail(e))
      case Ok((fs1, c1)) => Prefixed([c1], CrashesAll(fs1, cs[1..], srcDir, dstDir, sha1Of, extractLine))
  }

  lemma PrefixedTwice(a: seq<Crash>, b: seq<Crash>, run: Run)
    ensures Prefixed(a, Prefixed(b, run)) == Prefixed(a + b, run)
  {
    assert a + (b + run.crashes) == a + b + run.crashes;
  }

  /** The path of crash i's report in the source tree. */
  function CrashSource(c: Crash, srcDir: string): Result<string, Fatal>
  {
    BlobCrashesPath(srcDir, c.sha1Str)
  }

  /** The header is three lines: the program, the raw ip address and the
      RFC 3339 time, as long as the first two hold no newline. */
  lemma CrashPrefixLines(c: Crash)
    requires '\n' !in c.programName && '\n' !in c.ipAddrStr
    ensures Split(CrashPrefix(c), '\n') ==
      ["App: " + c.programName, "Ip: " + c.ipAddrStr, "On: " + FormatRFC3339(c.createdOn), ""]
  {
    RFC3339NoNewline(c.createdOn);
    var a, b, d := "App: " + c.programName, "Ip: " + c.ipAddrStr, "On: " + FormatRFC3339(c.createdOn);
    TerminatedThree(a, b, d);
    SplitThreeLines(a, b, d, '\n');
  }

  lemma RFC3339NoNewline(t: Time)
    ensures '\n' !in FormatRFC3339(t)
  {
    var r := FormatRFC3339(t);
    forall i | 0 <= i < |r| ensures r[i] != '\n' {
      if i < 10 {
        assert r[i] == DateText(t)[i];
      } else if i > 10 && i < 19 {
        assert r[i] == ClockText(t)[i - 11];
      }
    }
  }

  lemma {:induction false} CrashesAllKeeps(fs: Files, cs: seq<Crash>, srcDir: string, dstDir: string,
                                           sha1Of: string -> Digest, extractLine: string -> string)
    ensures Keeps(fs, CrashesAll(fs, cs, srcDir, dstDir, sha1Of, extractLine).files)
    decreases |cs|
  {
    if |cs| > 0 {
      var step := CrashStep(fs, cs[0], srcDir, dstDir, sha1Of, extractLine);
      if step.Ok? {
        CrashesAllKeeps(step.value.0, cs[1..], srcDir, dstDir, sha1Of, extractLine);
      }
    }
  }

  /** Content addressing: every file a run adds sits under the hash of its own contents. */
  lemma {:induction false} CrashesAllAddressed(fs: Files, cs: seq<Crash>, srcDir: string, dstDir: string,
                                               sha1Of: string -> Digest, extractLine: string -> string)
    ensures var fs1 := CrashesAll(fs, cs, srcDir, dstDir, sha1Of, extractLine).files;
      forall p :: p in fs1 && p !in fs ==> p == CrashKey(dstDir, sha1Of, fs1[p])
    decreases |cs|
  {
    if |cs| > 0 {
      var step := CrashStep(fs, cs[0], srcDir, dstDir, sha1Of, extractLine);
      if step.Ok? {
        var fs0 := step.value.0;
        CrashesAllAddressed(fs0, cs[1..], srcDir, dstDir, sha1Of, extractLine);
        CrashesAllKeeps(fs0, cs[1..], srcDir, dstDir, sha1Of, extractLine);
      }
    }
  }

  /** A run that passes keeps the number of crashes and found every source report. */
  lemma {:induction false} CrashesAllSources(fs: Files, cs: seq<Crash>, srcDir: string, dstDir: string,
                                             sha1Of: string -> Digest, extractLine: string -> string)
    ensures var run := CrashesAll(fs, cs, srcDir, dstDir, sha1Of, extractLine);
      run.outcome.Pass? ==> |run.crashes| == |cs| && forall i :: 0 <= i < |cs| ==> CrashSource(cs[i], srcDir).Ok?
    decreases |cs|
  {
    if |cs| > 0 {
      var step := CrashStep(fs, cs[0], srcDir, dstDir, sha1Of, extractLine);
      if step.Ok? {
        var rest := cs[1..];
        CrashesAllUnfold(fs, cs, srcDir, dstDir, sha1Of, extractLine, step.value.0, step.value.1);
        CrashesAllSources(step.value.0, rest, srcDir, dstDir, sha1Of, extractLine);
        if CrashesAll(fs, cs, srcDir, dstDir, sha1Of, extractLine).outcome.Pass? {
          forall i | 0 < i < |cs|
            ensures CrashSource(cs[i], srcDir).Ok?
          {
            assert cs[i] == rest[i - 1];
          }
        }
      }
    }
  }

  /** r is the record Rehash makes of c's header and of c's report in fs, when fs
      holds that report. */
  predicate RehashedFrom(fs: Files, c: Crash, r: Crash, srcDir: string,
                         sha1Of: string -> Digest, extractLine: string -> string)
  {
    CrashSource(c, srcDir).Ok? && CrashSource(c, srcDir).value in fs ==>
      r == Rehash(c, CrashPrefix(c) + fs[CrashSource(c, srcDir).value], sha1Of, extractLine)
  }

  /** A run that passes gives each crash the record Rehash makes of its header
      and its source report. */
  lemma CrashesAllRehash(fs: Files, cs: seq<Crash>, srcDir: string, dstDir: string,
                         sha1Of: string -> Digest, extractLine: string -> string)
    ensures var run := CrashesAll(fs, cs, srcDir, dstDir, sha1Of, extractLine);
      run.outcome.Pass? ==> |run.crashes| == |cs| && forall i :: 0 <= i < |cs| ==>
        RehashedFrom(fs, cs[i], run.crashes[i], srcDir, sha1Of, extractLine)
  {
    var run := CrashesAll(fs, cs, srcDir, dstDir, sha1Of, extractLine);
    CrashesAllSources(fs, cs, srcDir, dstDir, sha1Of, extractLine);
    if run.outcome.Pass? {
      forall i | 0 <= i < |cs|
        ensures RehashedFrom(fs, cs[i], run.crashes[i], srcDir, sha1Of, extractLine)
      {
        CrashRehashAt(fs, cs, srcDir, dstDir, sha1Of, extractLine, i);
      }
    }
  }

  /** Crash i of a run that passes, by induction on i. */
  lemma {:induction false} CrashRehashAt(fs: Files, cs: seq<Crash>, srcDir: string, dstDir: string,
                                         sha1Of: string -> Digest, extractLine: string -> string, i: nat)
    requires i < |cs|
    requires CrashesAll(fs, cs, srcDir, dstDir, sha1Of, extractLine).outcome.Pass?
    ensures |CrashesAll(fs, cs, srcDir, dstDir, sha1Of, extractLine).crashes| == |cs|
    ensures RehashedFrom(fs, cs[i], CrashesAll(fs, cs, srcDir, dstDir, sha1Of, extractLine).crashes[i],
                         srcDir, sha1Of, extractLine)
    decreases i
  {
    CrashesAllSources(fs, cs, srcDir, dstDir, sha1Of, extractLine);
    var step := CrashStep(fs, cs[0], srcDir, dstDir, sha1Of, extractLine);
    var (fs0, c0) := step.value;
    CrashesAllUnfold(fs, cs, srcDir, dstDir, sha1Of, extractLine, fs0, c0);
    var run := CrashesAll(fs, cs, srcDir, dstDir, sha1Of, extractLine);
    if i > 0 {
      var rest := cs[1..];
      var tail := CrashesAll(fs0, rest, srcDir, dstDir, sha1Of, extractLine);
      CrashRehashAt(fs0, rest, srcDir, dstDir, sha1Of, extractLine, i - 1);
      RehashedFromKept(fs, fs0, rest[i - 1], tail.crashes[i - 1], srcDir, sha1Of, extractLine);
      assert cs[i] == rest[i - 1];
      assert run.crashes[i] == tail.crashes[i - 1];
    }
  }

  /** A first crash that copies is followed by the run over the others. */
  lemma CrashesAllUnfold(fs: Files, cs: seq<Crash>, srcDir: string, dstDir: string,
                         sha1Of: string -> Digest, extractLine: string -> string, fs0: Files, c0: Crash)
    requires |cs| > 0 && CrashStep(fs, cs[0], srcDir, dstDir, sha1Of, extractLine) == Ok((fs0, c0))
    ensures CrashesAll(fs, cs, srcDir, dstDir, sha1Of, extractLine)
      == Prefixed([c0], CrashesAll(fs0, cs[1..], srcDir, dstDir, sha1Of, extractLine))
  {
  }

  /** What holds of a larger store holds of a store it keeps. */
  lemma RehashedFromKept(fs: Files, fs0: Files, c: Crash, r: Crash, srcDir: string,
                         sha1Of: string -> Digest, extractLine: string -> string)
    requires Keeps(fs, fs0) && RehashedFrom(fs0, c, r, srcDir, sha1Of, extractLine)
    ensures RehashedFrom(fs, c, r, srcDir, sha1Of, extractLine)
  {
  }

  /** Only the hash, its hex form and the crashed line of a record change, and
      after a run that passes the hex form is the hex of the hash. */
  lemma {:induction false} CrashesAllFields(fs: Files, cs: seq<Crash>, srcDir: string, dstDir: string,
                                            sha1Of: string -> Digest, extractLine: string -> string)
    ensures var run := CrashesAll(fs, cs, srcDir, dstDir, sha1Of, extractLine);
      |run.crashes| == |cs| && forall i :: 0 <= i < |cs| ==>
        (run.outcome.Pass? ==> run.crashes[i].sha1Str == HexEncode(run.crashes[i].sha1))
        && run.crashes[i].(sha1 := cs[i].sha1, sha1Str := cs[i].sha1Str, crashedLine := cs[i].crashedLine) == cs[i]
    decreases |cs|
  {
    if |cs| > 0 {
      var step := CrashStep(fs, cs[0], srcDir, dstDir, sha1Of, extractLine);
      if step.Ok? {
        var (fs0, c0) := step.value;
        var rest := cs[1..];
        CrashesAllFields(fs0, rest, srcDir, dstDir, sha1Of, extractLine);
        var run := CrashesAll(fs, cs, srcDir, dstDir, sha1Of, extractLine);
        var tail := CrashesAll(fs0, rest, srcDir, dstDir, sha1Of, extractLine);
        assert run.crashes == [c0] + tail.crashes;
        forall i | 0 <= i < |cs|
          ensures (run.outcome.Pass? ==> run.crashes[i].sha1Str == HexEncode(run.crashes[i].sha1))
            && run.crashes[i].(sha1 := cs[i].sha1, sha1Str := cs[i].sha1Str, crashedLine := cs[i].crashedLine) == cs[i]
        {
          if i > 0 {
            assert cs[i] == rest[i - 1];
            assert run.crashes[i] == tail.crashes[i - 1];
          }
        }
      }
    }
  }

  /** A run that passes leaves each crash's new report under its new hash. */
  lemma {:induction false} CrashesAllStored(fs: Files, cs: seq<Crash>, srcDir: string, dstDir: string,
                                            sha1Of: string -> Digest, extractLine: string -> string)
    ensures var run := CrashesAll(fs, cs, srcDir, dstDir, sha1Of, extractLine);
      run.outcome.Pass? ==> |run.crashes| == |cs| && forall i :: 0 <= i < |cs| ==>
        BlobCrashesPath(dstDir, run.crashes[i].sha1Str).Ok?
        && BlobCrashesPath(dstDir, run.crashes[i].sha1Str).value in run.files
    decreases |cs|
  {
    if |cs| > 0 {
      var step := CrashStep(fs, cs[0], srcDir, dstDir, sha1Of, extractLine);
      if step.Ok? {
        var (fs0, c0) := step.value;
        var rest := cs[1..];
        CrashesAllStored(fs0, rest, srcDir, dstDir, sha1Of, extractLine);
        CrashesAllKeeps(fs0, rest, srcDir, dstDir, sha1Of, extractLine);
        var run := CrashesAll(fs, cs, srcDir, dstDir, sha1Of, extractLine);
        var tail := CrashesAll(fs0, rest, srcDir, dstDir, sha1Of, extractLine);
        assert run.crashes == [c0] + tail.crashes;
        if run.outcome.Pass? {
          forall i | 0 <= i < |cs|
            ensures BlobCrashesPath(dstDir, run.crashes[i].sha1Str).Ok?
              && BlobCrashesPath(dstDir, run.crashes[i].sha1Str).value in run.files
          {
            if i > 0 {
              assert run.crashes[i] == tail.crashes[i - 1];
            }
          }
        }
      }
    }
  }

  /** The file a crash record now names, when the run created it, hashes to
      the record's new hash: the serialized hash names its own report. */
  lemma CrashBlobMatchesRecord(fs: Files, cs: seq<Crash>, srcDir: string, dstDir: string,
                               sha1Of: string -> Digest, extractLine: string -> string, i: nat)
    requires CrashesAll(fs, cs, srcDir, dstDir, sha1Of, extractLine).outcome.Pass?
    requires i < |cs|
    ensures var run := CrashesAll(fs, cs, srcDir, dstDir, sha1Of, extractLine);
      i < |run.crashes| && BlobCrashesPath(dstDir, run.crashes[i].sha1Str).Ok?
      && var k := BlobCrashesPath(dstDir, run.crashes[i].sha1Str).value;
      k in run.files && (k !in fs ==> sha1Of(run.files[k]) == run.crashes[i].sha1)
  {
    var run := CrashesAll(fs, cs, srcDir, dstDir, sha1Of, extractLine);
    CrashesAllStored(fs, cs, srcDir, dstDir, sha1Of, extractLine);
    CrashesAllFields(fs, cs, srcDir, dstDir, sha1Of, extractLine);
    var k := BlobCrashesPath(dstDir, run.crashes[i].sha1Str).value;
    if k !in fs {
      CrashesAllAddressed(fs, cs, srcDir, dstDir, sha1Of, extractLine);
      var h := sha1Of(run.files[k]);
      AreaPathInjective(dstDir, "blobs_crashes", HexEncode(h), run.crashes[i].sha1Str);
      HexRoundTrip(h);
      HexRoundTrip(run.crashes[i].sha1);
    }
  }

  /** The run passes when every crash's source report is there beforehand. */
  lemma {:induction false} CrashesAllPass(fs: Files, cs: seq<Crash>, srcDir: string, dstDir: string,
                                          sha1Of: string -> Digest, extractLine: string -> string)
    requires forall i :: 0 <= i < |cs| ==> CrashSource(cs[i], srcDir).Ok? && CrashSource(cs[i], srcDir).value in fs
    ensures CrashesAll(fs, cs, srcDir, dstDir, sha1Of, extractLine).outcome.Pass?
    decreases |cs|
  {
    if |cs| > 0 {
      assert CrashSource(cs[0], srcDir).Ok?;
      var step := CrashStep(fs, cs[0], srcDir, dstDir, sha1Of, extractLine);
      var rest := cs[1..];
      var fs0 := step.value.0;
      forall i | 0 <= i < |rest| ensures CrashSource(rest[i], srcDir).Ok? && CrashSource(rest[i], srcDir).value in fs0 {
        assert rest[i] == cs[i + 1];
      }
      CrashesAllPass(fs0, rest, srcDir, dstDir, sha1Of, extractLine);
    }
  }
}
