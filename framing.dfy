/** The input files of the loaders are records, each followed by a blank line
    ("\n\n"); bytes after the last blank line are no record. Blocks is the
    reading the loaders' loop performs, Framed its inverse. */
module Framing {
  import opened Wrappers
  import opened GoStrings

  /** s holds no "\n\n". */
  predicate NoBlankLine(s: string)
  {
    forall j :: 0 <= j < |s| ==> !PairAt(s, j, '\n', '\n')
  }

  /** What the loop hands to a parser: no "\n\n" inside, and not ending in a
      newline (that newline would have started an earlier "\n\n"). */
  predicate IsBlock(b: string)
  {
    NoBlankLine(b) && (|b| == 0 || b[|b| - 1] != '\n')
  }

  /** The pieces the loop parses, in file order. */
  function Blocks(d: string): seq<string>
    decreases |d|
  {
    var p := FindPair(d, '\n', '\n');
    if p.None? then [] else [d[..p.value]] + Blocks(d[p.value + 2..])
  }

  /** The bytes left when the loop stops; they produce no record. */
  function Trailing(d: string): string
    decreases |d|
  {
    var p := FindPair(d, '\n', '\n');
    if p.None? then d else Trailing(d[p.value + 2..])
  }

  /** Each block followed by its terminating "\n\n". */
  function Framed(bs: seq<string>): string
  {
    if |bs| == 0 then "" else bs[0] + "\n\n" + Framed(bs[1..])
  }

  // ---------------------------------------------------------------------
  // Properties

  /** A "\n\n" at i makes d[..i] the first block. */
  lemma BlocksUnfold(d: string, i: nat)
    requires FindPair(d, '\n', '\n') == Some(i)
    ensures Blocks(d) == [d[..i]] + Blocks(d[i + 2..])
  {
  }

  /** The blocks, each with its "\n\n", followed by the trailing bytes, are the whole
      input: the loop skips nothing and reorders nothing. */
  lemma {:induction false} BlocksCover(d: string)
    ensures d == Framed(Blocks(d)) + Trailing(d)
    decreases |d|
  {
    if FindPair(d, '\n', '\n').Some? {
      var i := FindPair(d, '\n', '\n').value;
      var rest := d[i + 2..];
      BlocksCover(rest);
      assert Blocks(d) == [d[..i]] + Blocks(rest);
      assert Trailing(d) == Trailing(rest);
      FramedCons(d[..i], Blocks(rest));
      CutAtPair(d, i);
    }
  }

  /** Framing a block in front of others puts it and its "\n\n" first. */
  lemma FramedCons(b: string, bs: seq<string>)
    ensures Framed([b] + bs) == b + "\n\n" + Framed(bs)
  {
    assert ([b] + bs)[1..] == bs;
  }

  /** A "\n\n" at i cuts d into what is before it, itself, and what is after it. */
  lemma CutAtPair(d: string, i: nat)
    requires PairAt(d, i, '\n', '\n')
    ensures d == d[..i] + "\n\n" + d[i + 2..]
  {
    assert d[i..i + 2] == "\n\n";
    assert d == d[..i] + d[i..i + 2] + d[i + 2..];
  }

  /** Every piece handed to a parser is a block. */
  lemma {:induction false} BlocksAreBlocks(d: string)
    ensures forall k :: 0 <= k < |Blocks(d)| ==> IsBlock(Blocks(d)[k])
    decreases |d|
  {
    if FindPair(d, '\n', '\n').Some? {
      var i := FindPair(d, '\n', '\n').value;
      var rest := d[i + 2..];
      BlocksAreBlocks(rest);
      var bs := Blocks(d);
      assert bs == [d[..i]] + Blocks(rest);
      FirstBlock(d, i);
      forall k | 0 <= k < |bs| ensures IsBlock(bs[k]) {
        if k > 0 {
          assert bs[k] == Blocks(rest)[k - 1];
        }
      }
    }
  }

  /** The bytes the loop leaves unread hold no "\n\n". */
  lemma {:induction false} TrailingNoBlankLine(d: string)
    ensures NoBlankLine(Trailing(d))
    decreases |d|
  {
    if FindPair(d, '\n', '\n').Some? {
      TrailingNoBlankLine(d[FindPair(d, '\n', '\n').value + 2..]);
    }
  }

  /** What comes before the first "\n\n" is a block. */
  lemma FirstBlock(d: string, i: nat)
    requires FindPair(d, '\n', '\n') == Some(i)
    ensures IsBlock(d[..i])
  {
    forall j | 0 <= j < i ensures !PairAt(d[..i], j, '\n', '\n') {
      if PairAt(d[..i], j, '\n', '\n') {
        assert PairAt(d, j, '\n', '\n');
      }
    }
    if i > 0 {
      assert !PairAt(d, i - 1, '\n', '\n');
    }
  }

  /** The first "\n\n" of a block followed by "\n\n" is the one right after the block. */
  lemma FindAfterBlock(b: string, tail: string)
    requires IsBlock(b)
    ensures FindPair(b + "\n\n" + tail, '\n', '\n') == Some(|b|)
  {
    var s := b + "\n\n" + tail;
    assert PairAt(s, |b|, '\n', '\n');
    forall j | 0 <= j < |b| ensures !PairAt(s, j, '\n', '\n') {
      if j + 1 < |b| {
        assert !PairAt(b, j, '\n', '\n');
        assert s[j] == b[j] && s[j + 1] == b[j + 1];
      } else {
        assert s[j] == b[|b| - 1];
      }
    }
  }

  /** Conversely, framing blocks and appending bytes without "\n\n" gives back
      exactly those blocks and those trailing bytes: Blocks and Trailing are the
      only way to read the input so. */
  lemma {:induction false} BlocksOfFramed(bs: seq<string>, t: string)
    requires forall k :: 0 <= k < |bs| ==> IsBlock(bs[k])
    requires NoBlankLine(t)
    ensures Blocks(Framed(bs) + t) == bs
    ensures Trailing(Framed(bs) + t) == t
  {
    if |bs| == 0 {
      assert Framed(bs) + t == t;
      assert FindPair(t, '\n', '\n').None?;
    } else {
      var tail := bs[1..];
      assert forall k :: 0 <= k < |tail| ==> tail[k] == bs[k + 1];
      BlocksOfFramed(tail, t);
      FramedAppend(bs, t);
      BlocksOfCons(bs[0], Framed(tail) + t);
      assert [bs[0]] + tail == bs;
    }
  }

  /** The first block and its "\n\n" come first. */
  lemma FramedAppend(bs: seq<string>, t: string)
    requires |bs| > 0
    ensures Framed(bs) + t == bs[0] + "\n\n" + (Framed(bs[1..]) + t)
  {
    assert Framed(bs) == bs[0] + "\n\n" + Framed(bs[1..]);
    AppendAssoc(bs[0] + "\n\n", Framed(bs[1..]), t);
  }

  /** A block and its "\n\n" in front of the rest of the input are read as that
      block, then the blocks of the rest. */
  lemma BlocksOfCons(b: string, rest: string)
    requires IsBlock(b)
    ensures Blocks(b + "\n\n" + rest) == [b] + Blocks(rest)
    ensures Trailing(b + "\n\n" + rest) == Trailing(rest)
  {
    var d := b + "\n\n" + rest;
    FindAfterBlock(b, rest);
    assert d[..|b|] == b;
    assert d[|b| + 2..] == rest;
  }

  /** The bytes after the last "\n\n" are no record. */
  lemma LoadExample()
    ensures Blocks("I: 1\n\nI: 2\n\nI: 3") == ["I: 1", "I: 2"]
    ensures Trailing("I: 1\n\nI: 2\n\nI: 3") == "I: 3"
  {
    var bs := ["I: 1", "I: 2"];
    assert IsBlock(bs[0]) by {
      forall j ensures !PairAt(bs[0], j, '\n', '\n') { }
    }
    assert IsBlock(bs[1]) by {
      forall j ensures !PairAt(bs[1], j, '\n', '\n') { }
    }
    assert NoBlankLine("I: 3") by {
      forall j ensures !PairAt("I: 3", j, '\n', '\n') { }
    }
    assert Framed(bs[1..][1..]) == "";
    assert Framed(bs) + "I: 3" == "I: 1\n\nI: 2\n\nI: 3";
    BlocksOfFramed(bs, "I: 3");
  }
}
