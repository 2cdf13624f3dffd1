/** The handful of Go string and byte-slice operations main.go relies on
    (strings.Split, bytes.SplitN, bytes.Index, strings.Replace,
    strings.TrimSpace, strconv.Atoi, fmt's %d), each with the property that
    identifies it. Go strings and byte slices are both modelled as `string`,
    one character per byte. */
module GoStrings {
  import opened Wrappers

  // ---------------------------------------------------------------------
  // strings.Split / bytes.Split with a one-character separator

  /** Go's Split(s, sep) for a one-character sep: every separator cuts, empty
      pieces are kept, and "" gives the single piece "". */
  function Split(s: string, c: char): (r: seq<string>)
    ensures |r| >= 1
    ensures forall i :: 0 <= i < |r| ==> c !in r[i]
  {
    if |s| == 0 then [""]
    else
      var rest := Split(s[1..], c);
      if s[0] == c then [""] + rest
      else [[s[0]] + rest[0]] + rest[1..]
  }

  /** Go's strings.Join(xs, sep) for a one-character sep. */
  function Join(xs: seq<string>, c: char): string
  {
    if |xs| == 0 then ""
    else if |xs| == 1 then xs[0]
    else xs[0] + [c] + Join(xs[1..], c)
  }

  lemma {:induction false} JoinSplit(s: string, c: char)
    ensures Join(Split(s, c), c) == s
  {
    if |s| > 0 {
      JoinSplit(s[1..], c);
      var rest := Split(s[1..], c);
      if s[0] == c {
        assert Split(s, c) == [""] + rest;
        assert ([""] + rest)[1..] == rest;
        assert s == [c] + s[1..];
      } else if |rest| == 1 {
        assert Join(rest, c) == rest[0];
        assert s == [s[0]] + s[1..];
      } else {
        var first := [s[0]] + rest[0];
        assert Split(s, c) == [first] + rest[1..];
        assert ([first] + rest[1..])[1..] == rest[1..];
        assert Join(rest, c) == rest[0] + [c] + Join(rest[1..], c);
        assert s == [s[0]] + s[1..];
      }
    }
  }

  lemma {:induction false} SplitNoSep(x: string, c: char)
    requires c !in x
    ensures Split(x, c) == [x]
  {
    if |x| > 0 {
      SplitNoSep(x[1..], c);
      assert x == [x[0]] + x[1..];
    }
  }

  lemma {:induction false} SplitAfterPiece(x: string, t: string, c: char)
    requires c !in x
    ensures Split(x + [c] + t, c) == [x] + Split(t, c)
  {
    if |x| == 0 {
      assert x + [c] + t == [c] + t;
      assert ([c] + t)[1..] == t;
    } else {
      var s := x + [c] + t;
      assert s[0] == x[0];
      assert s[1..] == x[1..] + [c] + t;
      SplitAfterPiece(x[1..], t, c);
      assert x == [x[0]] + x[1..];
    }
  }

  /** Splitting a join gives the pieces back, as long as no piece holds the separator. */
  lemma {:induction false} SplitJoin(xs: seq<string>, c: char)
    requires |xs| >= 1
    requires forall i :: 0 <= i < |xs| ==> c !in xs[i]
    ensures Split(Join(xs, c), c) == xs
  {
    if |xs| == 1 {
      SplitNoSep(xs[0], c);
    } else {
      SplitJoin(xs[1..], c);
      SplitAfterPiece(xs[0], Join(xs[1..], c), c);
      assert xs == [xs[0]] + xs[1..];
    }
  }

  /** Every separator cuts: a split has one piece more than s has separators. */
  lemma {:induction false} SplitCount(s: string, c: char)
    ensures |Split(s, c)| == multiset(s)[c] + 1
  {
    if |s| > 0 {
      SplitCount(s[1..], c);
      assert s == [s[0]] + s[1..];
    }
  }

  /** Splitting at one separator and then splitting both sides is splitting the whole. */
  lemma {:induction false} SplitConcat(x: string, y: string, c: char)
    ensures Split(x + [c] + y, c) == Split(x, c) + Split(y, c)
    decreases |x|
  {
    var s := x + [c] + y;
    if |x| == 0 {
      assert s == [c] + y;
      assert s[1..] == y;
    } else {
      assert s[0] == x[0];
      assert s[1..] == x[1..] + [c] + y;
      SplitConcat(x[1..], y, c);
      var left := Split(x[1..], c);
      if x[0] == c {
        AppendAssoc([""], left, Split(y, c));
      } else {
        ShiftFirst([x[0]] + left[0], left, Split(y, c));
      }
    }
  }

  lemma AppendAssoc<T>(a: seq<T>, b: seq<T>, d: seq<T>)
    ensures a + (b + d) == (a + b) + d
  {
  }

  /** A sequence is its part before i and its part from i on. */
  lemma SplitAtIndex<T>(a: seq<T>, i: nat)
    requires i <= |a|
    ensures a == a[..i] + a[i..]
  {
  }

  /** Writing x at i, the part up to and including i is the old part before i, then x. */
  lemma UpdateAtIndex<T>(a: seq<T>, i: nat, x: T)
    requires i < |a|
    ensures a[i := x][..i + 1] == a[..i] + [x]
  {
  }

  /** Replacing the first of l + r by h is replacing the first of l. */
  lemma ShiftFirst<T>(h: T, l: seq<T>, r: seq<T>)
    requires |l| >= 1
    ensures (l + r)[0] == l[0]
    ensures [h] + (l + r)[1..] == ([h] + l[1..]) + r
  {
    assert (l + r)[1..] == l[1..] + r;
  }

  /** A line of seven fields between a leading tag and a trailing newline splits
      into seven pieces and one more per separator inside the sixth field. */
  lemma SevenFieldsCount(t: char, a: string, b: string, d: string, e: string, f: string,
                         g: string, h: string, c: char)
    requires c !in a && c !in b && c !in d && c !in e && c !in f && c !in h
    ensures var line := [t] + a + [c] + b + [c] + d + [c] + e + [c] + f + [c] + g + [c] + h + "\n";
      |line| >= 2 && |Split(line[1..|line| - 1], c)| == 7 + multiset(g)[c]
  {
    var x5 := a + [c] + b + [c] + d + [c] + e + [c] + f;
    var body := x5 + [c] + g + [c] + h;
    var line := [t] + a + [c] + b + [c] + d + [c] + e + [c] + f + [c] + g + [c] + h + "\n";
    assert line == [t] + body + "\n";
    assert line[1..|line| - 1] == body;
    SplitFiveFree(a, b, d, e, f, c);
    SplitConcat(x5, g, c);
    SplitConcat(x5 + [c] + g, h, c);
    SplitNoSep(h, c);
    SplitCount(g, c);
  }

  /** Five separator-free pieces joined by the separator split into five pieces. */
  lemma SplitFiveFree(a: string, b: string, d: string, e: string, f: string, c: char)
    requires c !in a && c !in b && c !in d && c !in e && c !in f
    ensures |Split(a + [c] + b + [c] + d + [c] + e + [c] + f, c)| == 5
  {
    var x2 := a + [c] + b;
    var x3 := x2 + [c] + d;
    var x4 := x3 + [c] + e;
    SplitConcat(a, b, c);
    SplitConcat(x2, d, c);
    SplitConcat(x3, e, c);
    SplitConcat(x4, f, c);
    SplitNoSep(a, c);
    SplitNoSep(b, c);
    SplitNoSep(d, c);
    SplitNoSep(e, c);
    SplitNoSep(f, c);
  }

  /** Three separator-free pieces, each ended by the separator, split back into
      the pieces and an empty rest. */
  lemma SplitThreeLines(a: string, b: string, d: string, c: char)
    requires c !in a && c !in b && c !in d
    ensures Split(a + [c] + b + [c] + d + [c], c) == [a, b, d, ""]
  {
    var x2 := a + [c] + b;
    var x3 := x2 + [c] + d;
    assert x3 + [c] == x3 + [c] + [];
    SplitConcat(x3, [], c);
    SplitConcat(x2, d, c);
    SplitConcat(a, b, c);
    SplitNoSep(a, c);
    SplitNoSep(b, c);
    SplitNoSep(d, c);
    assert Split([], c) == [""];
  }

  /** Appending one more piece to a join of at least one piece adds a separator and the piece. */
  lemma {:induction false} JoinSnoc(xs: seq<string>, x: string, c: char)
    requires |xs| >= 1
    ensures Join(xs + [x], c) == Join(xs, c) + [c] + x
  {
    if |xs| > 1 {
      JoinSnoc(xs[1..], x, c);
      assert (xs + [x])[1..] == xs[1..] + [x];
    }
  }

  /** Joining two non-empty lists is joining each and putting a separator between. */
  lemma {:induction false} JoinAppend(xs: seq<string>, ys: seq<string>, c: char)
    requires |xs| >= 1 && |ys| >= 1
    ensures Join(xs + ys, c) == Join(xs, c) + [c] + Join(ys, c)
  {
    if |xs| > 1 {
      JoinAppend(xs[1..], ys, c);
      assert (xs + ys)[1..] == xs[1..] + ys;
    } else {
      assert (xs + ys)[1..] == ys;
    }
  }

  /** The first position of c in s (Go: strings.IndexByte). */
  function IndexByte(s: string, c: char): (r: Option<nat>)
    ensures r.Some? ==> r.value < |s| && s[r.value] == c && c !in s[..r.value]
    ensures r.None? ==> c !in s
  {
    if |s| == 0 then None
    else if s[0] == c then Some(0)
    else
      match IndexByte(s[1..], c)
      case None => None
      case Some(i) =>
        assert s[..i + 1] == [s[0]] + s[1..][..i];
        Some(i + 1)
  }

  lemma {:induction false} JoinNoChar(xs: seq<string>, c: char, d: char)
    requires c != d
    requires forall i :: 0 <= i < |xs| ==> d !in xs[i]
    ensures d !in Join(xs, c)
  {
    if |xs| > 1 {
      JoinNoChar(xs[1..], c, d);
    }
  }

  // ---------------------------------------------------------------------
  // bytes.Index for a two-byte pattern, bytes.SplitN(p, ": ", 2)

  predicate PairAt(s: string, i: int, x: char, y: char)
  {
    0 <= i && i + 1 < |s| && s[i] == x && s[i + 1] == y
  }

  /** The first position of the two-character pattern xy in s (Go: bytes.Index). */
  function FindPair(s: string, x: char, y: char): (r: Option<nat>)
    ensures r.Some? ==> PairAt(s, r.value, x, y)
    ensures r.Some? ==> forall j :: 0 <= j < r.value ==> !PairAt(s, j, x, y)
    ensures r.None? ==> forall j :: !PairAt(s, j, x, y)
  {
    if |s| < 2 then None
    else if s[0] == x && s[1] == y then Some(0)
    else
      match FindPair(s[1..], x, y)
      case None =>
        assert forall j :: PairAt(s, j, x, y) ==> j == 0 || PairAt(s[1..], j - 1, x, y);
        None
      case Some(i) =>
        assert forall j :: 0 < j <= i ==> (PairAt(s, j, x, y) ==> PairAt(s[1..], j - 1, x, y));
        Some(i + 1)
  }

  /** Go's bytes.SplitN(line, []byte(": "), 2): the key before the first ": "
      and the value after it; None where Go returns a single piece and
      main.go's lp[1] is out of range. */
  function SplitKeyValue(line: string): (r: Option<(string, string)>)
    ensures r.None? <==> forall j :: !PairAt(line, j, ':', ' ')
    ensures r.Some? ==> line == r.value.0 + ": " + r.value.1
    ensures r.Some? ==> forall j :: 0 <= j < |r.value.0| ==> !PairAt(line, j, ':', ' ')
  {
    match FindPair(line, ':', ' ')
    case None => None
    case Some(i) =>
      assert line == line[..i] + ": " + line[i + 2..];
      Some((line[..i], line[i + 2..]))
  }

  lemma SplitKeyValueOf(key: string, val: string)
    requires forall j :: 0 <= j < |key| ==> !PairAt(key + ": " + val, j, ':', ' ')
    ensures SplitKeyValue(key + ": " + val) == Some((key, val))
  {
    var line := key + ": " + val;
    assert PairAt(line, |key|, ':', ' ');
    var i := FindPair(line, ':', ' ').value;
    assert i == |key|;
    assert line[..i] == key;
    assert line[i + 2..] == val;
  }

  // ---------------------------------------------------------------------
  // strings.Replace(s, c, "", -1)

  /** Removes every occurrence of c, keeping the order of everything else. */
  function RemoveAll(s: string, c: char): (r: string)
    ensures c !in r
  {
    if |s| == 0 then ""
    else (if s[0] == c then "" else [s[0]]) + RemoveAll(s[1..], c)
  }

  /** Exactly the occurrences of c go: every other character keeps its count,
      and a string without c comes back unchanged. */
  lemma RemoveAllSpec(s: string, c: char)
    ensures multiset(RemoveAll(s, c)) == multiset(s)[c := 0]
    ensures c !in s ==> RemoveAll(s, c) == s
  {
    RemoveAllCounts(s, c);
    if c !in s {
      RemoveAllAbsent(s, c);
    }
  }

  lemma {:induction false} RemoveAllCounts(s: string, c: char)
    ensures multiset(RemoveAll(s, c)) == multiset(s)[c := 0]
  {
    if |s| > 0 {
      RemoveAllCounts(s[1..], c);
      var head: string := if s[0] == c then "" else [s[0]];
      assert RemoveAll(s, c) == head + RemoveAll(s[1..], c);
      assert s == [s[0]] + s[1..];
      assert multiset(s) == multiset([s[0]]) + multiset(s[1..]);
      assert multiset(RemoveAll(s, c)) == multiset(head) + multiset(RemoveAll(s[1..], c));
    }
  }

  lemma {:induction false} RemoveAllAbsent(s: string, c: char)
    requires c !in s
    ensures RemoveAll(s, c) == s
  {
    if |s| > 0 {
      assert s[1..] == s[|[s[0]]|..];
      RemoveAllAbsent(s[1..], c);
      assert s == [s[0]] + s[1..];
    }
  }

  lemma RemoveAllKeepsOthers(s: string, c: char, d: char)
    requires d !in s
    ensures d !in RemoveAll(s, c)
  {
    RemoveAllSpec(s, c);
    assert multiset(s)[d] == 0;
    assert multiset(RemoveAll(s, c))[d] == 0;
  }

  // ---------------------------------------------------------------------
  // strings.TrimSpace (ASCII white space)

  predicate IsSpace(ch: char)
  {
    ch == ' ' || ch == '\t' || ch == '\n' || ch == '\r' || ch == '\U{000B}' || ch == '\U{000C}'
  }

  predicate AllSpace(s: string)
  {
    forall i :: 0 <= i < |s| ==> IsSpace(s[i])
  }

  function TrimLeft(s: string): string
  {
    if |s| > 0 && IsSpace(s[0]) then TrimLeft(s[1..]) else s
  }

  function TrimRight(s: string): string
  {
    if |s| > 0 && IsSpace(s[|s| - 1]) then TrimRight(s[..|s| - 1]) else s
  }

  /** strings.TrimSpace: white space removed from both ends. */
  function TrimSpace(s: string): string
  {
    TrimRight(TrimLeft(s))
  }

  /** TrimLeft drops exactly the leading white space. */
  lemma {:induction false} TrimLeftSpec(s: string)
    ensures |TrimLeft(s)| <= |s| && TrimLeft(s) == s[|s| - |TrimLeft(s)|..]
    ensures AllSpace(s[..|s| - |TrimLeft(s)|])
    ensures |TrimLeft(s)| > 0 ==> !IsSpace(TrimLeft(s)[0])
  {
    if |s| > 0 && IsSpace(s[0]) {
      TrimLeftSpec(s[1..]);
      var r := TrimLeft(s);
      var k := |s| - |r|;
      assert forall i :: 0 < i < k ==> s[i] == s[1..][..k - 1][i - 1];
      assert r == s[k..];
    }
  }

  /** TrimRight drops exactly the trailing white space. */
  lemma {:induction false} TrimRightSpec(s: string)
    ensures |TrimRight(s)| <= |s| && TrimRight(s) == s[..|TrimRight(s)|]
    ensures AllSpace(s[|TrimRight(s)|..])
    ensures |TrimRight(s)| > 0 ==> !IsSpace(TrimRight(s)[|TrimRight(s)| - 1])
  {
    if |s| > 0 && IsSpace(s[|s| - 1]) {
      TrimRightSpec(s[..|s| - 1]);
      var r := TrimRight(s);
      assert s[..|s| - 1][|r|..] == s[|r|..|s| - 1];
    }
  }

  /** r is the piece of s at offset i, and only white space surrounds it. */
  predicate InsideSpaces(s: string, r: string, i: int)
  {
    0 <= i <= |s| - |r| && r == s[i..i + |r|] && AllSpace(s[..i]) && AllSpace(s[i + |r|..])
  }

  /** TrimSpace gives the longest substring of s that neither starts nor ends with white space. */
  lemma TrimSpaceSpec(s: string)
    ensures |TrimSpace(s)| <= |s|
    ensures |TrimSpace(s)| > 0 ==> !IsSpace(TrimSpace(s)[0]) && !IsSpace(TrimSpace(s)[|TrimSpace(s)| - 1])
    ensures InsideSpaces(s, TrimSpace(s), |s| - |TrimLeft(s)|)
  {
    var l := TrimLeft(s);
    var r := TrimRight(l);
    TrimLeftSpec(s);
    TrimRightSpec(l);
    PieceInsideSpaces(s, l, r);
    assert |r| > 0 ==> r[0] == l[0];
  }

  /** A prefix of a suffix, with only white space cut off on either side, is inside spaces. */
  lemma PieceInsideSpaces(s: string, l: string, r: string)
    requires |l| <= |s| && l == s[|s| - |l|..] && AllSpace(s[..|s| - |l|])
    requires |r| <= |l| && r == l[..|r|] && AllSpace(l[|r|..])
    ensures InsideSpaces(s, r, |s| - |l|)
  {
    var i := |s| - |l|;
    assert l[..|r|] == s[i..i + |r|];
    assert s[i + |r|..] == l[|r|..];
  }

  lemma TrimSpaceIdempotent(s: string)
    ensures TrimSpace(TrimSpace(s)) == TrimSpace(s)
  {
    TrimSpaceSpec(s);
    var t := TrimSpace(s);
    if |t| > 0 {
      assert TrimLeft(t) == t;
      assert TrimRight(t) == t;
    }
  }

  // ---------------------------------------------------------------------
  // strconv.Atoi and fmt's %d

  predicate IsDigit(ch: char)
  {
    '0' <= ch <= '9'
  }

  predicate AllDigits(s: string)
  {
    forall i :: 0 <= i < |s| ==> IsDigit(s[i])
  }

  function DigitValue(ch: char): nat
    requires IsDigit(ch)
  {
    (ch as int) - ('0' as int)
  }

  function DigitChar(d: nat): (ch: char)
    requires d < 10
    ensures IsDigit(ch) && DigitValue(ch) == d
  {
    ('0' as int + d) as char
  }

  /** The value of a string of decimal digits, most significant first. */
  function DecimalValue(s: string): nat
    requires AllDigits(s)
  {
    if |s| == 0 then 0 else DecimalValue(s[..|s| - 1]) * 10 + DigitValue(s[|s| - 1])
  }

  /** strconv.Atoi: an optional sign followed by one or more decimal digits. */
  function Atoi(s: string): Option<int>
  {
    if |s| == 0 then None
    else if s[0] == '-' || s[0] == '+' then
      var digits := s[1..];
      if |digits| > 0 && AllDigits(digits) then
        var v: int := DecimalValue(digits);
        Some(if s[0] == '-' then -v else v)
      else None
    else if AllDigits(s) then Some(DecimalValue(s))
    else None
  }

  function NatToDecimal(n: nat): (r: string)
    ensures |r| > 0 && AllDigits(r)
  {
    if n < 10 then [DigitChar(n)] else NatToDecimal(n / 10) + [DigitChar(n % 10)]
  }

  /** fmt.Sprintf("%d", n): a minus sign for negatives, then the decimal digits. */
  function Itoa(n: int): (r: string)
    ensures |r| > 0
  {
    if n < 0 then "-" + NatToDecimal(-n) else NatToDecimal(n)
  }

  lemma {:induction false} DecimalRoundTrip(n: nat)
    ensures DecimalValue(NatToDecimal(n)) == n
  {
    if n >= 10 {
      DecimalRoundTrip(n / 10);
      var s := NatToDecimal(n);
      assert s[..|s| - 1] == NatToDecimal(n / 10);
    }
  }

  /** What %d prints, Atoi reads back. */
  lemma AtoiItoa(n: int)
    ensures Atoi(Itoa(n)) == Some(n)
  {
    if n < 0 {
      DecimalRoundTrip(-n);
      assert Itoa(n)[1..] == NatToDecimal(-n);
    } else {
      DecimalRoundTrip(n);
    }
  }

  /** A printed integer is digits after an optional leading '-', so it holds
      none of the separators of the migrator's formats. */
  lemma ItoaNoSeparators(n: int)
    ensures forall i :: 0 <= i < |Itoa(n)| ==> IsDigit(Itoa(n)[i]) || (i == 0 && Itoa(n)[i] == '-')
    ensures ',' !in Itoa(n) && '|' !in Itoa(n) && '.' !in Itoa(n) && '\n' !in Itoa(n)
  {
    var s := Itoa(n);
    if n < 0 {
      assert forall i :: 1 <= i < |s| ==> s[i] == NatToDecimal(-n)[i - 1];
    }
    assert forall i :: 0 <= i < |s| ==> s[i] != ',' && s[i] != '|' && s[i] != '.' && s[i] != '\n';
  }
}
