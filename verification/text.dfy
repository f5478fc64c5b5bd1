/** Text primitives used by the line parser: JavaScript's whitespace class and
    `String.prototype.trim`, `String.prototype.split` on one character
    (`text.split("\n")`) and the split on runs of one character
    (`line.split(/\t+/)`). Strings are sequences of Unicode scalar values. */
module Text {

  const TAB: char := '\t'
  const NEWLINE: char := '\n'

  /** The WhiteSpace and LineTerminator code points of ECMAScript: the
      characters `trim` removes and `parseFloat` skips. */
  predicate IsSpace(c: char) {
    || c == '\t' || c == '\n' || c == '\U{000B}' || c == '\U{000C}' || c == '\r'
    || c == ' ' || c == '\U{00A0}' || c == '\U{1680}'
    || ('\U{2000}' <= c <= '\U{200A}')
    || c == '\U{2028}' || c == '\U{2029}' || c == '\U{202F}' || c == '\U{205F}'
    || c == '\U{3000}' || c == '\U{FEFF}'
  }

  /** Empty, or made of whitespace only: `line.trim() === ""`. */
  predicate IsBlank(s: string) {
    forall i :: 0 <= i < |s| ==> IsSpace(s[i])
  }

  /** The number of whitespace characters `s` starts with. */
  function LeadingSpaces(s: string): (n: nat)
    ensures n <= |s|
    ensures forall i :: 0 <= i < n ==> IsSpace(s[i])
    ensures n < |s| ==> !IsSpace(s[n])
  {
    if |s| > 0 && IsSpace(s[0]) then
      var m := LeadingSpaces(s[1..]);
      assert forall i :: 1 <= i <= m ==> s[i] == s[1..][i - 1];
      1 + m
    else 0
  }

  /** The length of `s` without the whitespace it ends with. */
  function TrailingStart(s: string): (n: nat)
    ensures n <= |s|
    ensures forall i :: n <= i < |s| ==> IsSpace(s[i])
    ensures n > 0 ==> !IsSpace(s[n - 1])
  {
    if |s| > 0 && IsSpace(s[|s| - 1]) then
      var m := TrailingStart(s[..|s| - 1]);
      assert forall i :: 0 <= i < |s| - 1 ==> s[i] == s[..|s| - 1][i];
      m
    else |s|
  }

  /** `s` without its leading whitespace. */
  function TrimStart(s: string): (r: string)
    ensures |r| <= |s| && r == s[|s| - |r|..]
    ensures IsBlank(s[..|s| - |r|])
    ensures r == [] || !IsSpace(r[0])
  {
    s[LeadingSpaces(s)..]
  }

  /** `s` without its trailing whitespace. */
  function TrimEnd(s: string): (r: string)
    ensures |r| <= |s| && r == s[..|r|]
    ensures IsBlank(s[|r|..])
    ensures r == [] || !IsSpace(r[|r| - 1])
  {
    s[..TrailingStart(s)]
  }

  /** `r` is `s` with the `i` characters before it and everything after it
      being whitespace only. */
  predicate Surrounded(s: string, r: string, i: int) {
    0 <= i && i + |r| <= |s| && r == s[i..i + |r|] && IsBlank(s[..i]) && IsBlank(s[i + |r|..])
  }

  /** `s.trim()`: the text between the leading and the trailing whitespace. */
  function Trim(s: string): (r: string)
    ensures |r| <= |s|
    ensures r == [] <==> IsBlank(s)
    ensures r != [] ==> !IsSpace(r[0]) && !IsSpace(r[|r| - 1])
    ensures exists i :: Surrounded(s, r, i)
  {
    var t := TrimStart(s);
    var r := TrimEnd(t);
    TrimPieces(s, t, r);
    r
  }

  lemma TrimPieces(s: string, t: string, r: string)
    requires t == TrimStart(s) && r == TrimEnd(t)
    ensures r == [] <==> IsBlank(s)
    ensures r != [] ==> !IsSpace(r[0])
    ensures Surrounded(s, r, |s| - |t|)
  {
    var i := |s| - |t|;
    assert r == [] ==> s == s[..i] + t[|r|..];
    assert r != [] ==> r[0] == t[0];
    assert r == s[i..i + |r|] && s[i + |r|..] == t[|r|..];
  }

  /** `trim()` is the only way to cut whitespace from both ends of `s` and be
      left with nothing or with a string that neither starts nor ends with
      whitespace. */
  lemma TrimUnique(s: string, r: string, i: int)
    requires Surrounded(s, r, i)
    requires r == [] || (!IsSpace(r[0]) && !IsSpace(r[|r| - 1]))
    ensures r == Trim(s)
  {
    var t := Trim(s);
    var j :| Surrounded(s, t, j);
    if r == [] {
      BlankJoin(s, i);
    } else {
      if t == [] {
        BlankJoin(s, j);
      }
      SameCut(s, r, i, t, j);
    }
  }

  /** A string whose two sides of a cut are blank is blank. */
  lemma BlankJoin(s: string, i: int)
    requires 0 <= i <= |s| && IsBlank(s[..i]) && IsBlank(s[i..])
    ensures IsBlank(s)
  {
    assert s == s[..i] + s[i..];
  }

  /** Two non-empty cuts of `s` between whitespace that neither start nor end
      with whitespace are the same cut. */
  lemma SameCut(s: string, r: string, i: int, t: string, j: int)
    requires Surrounded(s, r, i) && Surrounded(s, t, j)
    requires r != [] && !IsSpace(r[0]) && !IsSpace(r[|r| - 1])
    requires t != [] && !IsSpace(t[0]) && !IsSpace(t[|t| - 1])
    ensures r == t
  {
    assert s[i] == r[0] && s[j] == t[0];
    assert s[i + |r| - 1] == r[|r| - 1] && s[j + |t| - 1] == t[|t| - 1];
  }

  /** Trimming is idempotent. */
  lemma TrimIdempotent(s: string)
    ensures Trim(Trim(s)) == Trim(s)
  {
  }

  /** Glues `fields` back together with one `sep` between neighbours. */
  function Join(fields: seq<string>, sep: char): string
    requires |fields| >= 1
  {
    if |fields| == 1 then fields[0] else fields[0] + [sep] + Join(fields[1..], sep)
  }

  /** `s.split(sep)` for a one-character separator: the maximal pieces between
      separators, an empty piece wherever two separators touch or one sits at an end. */
  function Split(s: string, sep: char): (r: seq<string>)
    ensures |r| >= 1
    ensures forall i :: 0 <= i < |r| ==> sep !in r[i]
    ensures Join(r, sep) == s
  {
    if |s| == 0 then [""]
    else
      var rest := Split(s[1..], sep);
      if s[0] == sep then
        assert s == [sep] + s[1..];
        [""] + rest
      else
        var r := [[s[0]] + rest[0]] + rest[1..];
        assert r[1..] == rest[1..];
        assert s == [s[0]] + s[1..];
        r
  }

  /** Splitting a join of separator-free fields gives the fields back. */
  lemma {:induction false} SplitJoin(fields: seq<string>, sep: char)
    requires |fields| >= 1
    requires forall i :: 0 <= i < |fields| ==> sep !in fields[i]
    ensures Split(Join(fields, sep), sep) == fields
    decreases |fields|
  {
    if |fields| == 1 {
      SplitFree(fields[0], sep);
    } else {
      SplitJoin(fields[1..], sep);
      assert fields[0] !in [];
      SplitFreeThenSep(fields[0], Join(fields[1..], sep), sep);
      assert fields == [fields[0]] + fields[1..];
    }
  }

  /** A separator-free string splits into itself. */
  lemma {:induction false} SplitFree(f: string, sep: char)
    requires sep !in f
    ensures Split(f, sep) == [f]
  {
    if |f| > 0 {
      assert sep !in f[1..];
      SplitFree(f[1..], sep);
      assert f == [f[0]] + f[1..];
    }
  }

  /** A separator-free head followed by a separator becomes the first field. */
  lemma {:induction false} SplitFreeThenSep(f: string, t: string, sep: char)
    requires sep !in f
    ensures Split(f + [sep] + t, sep) == [f] + Split(t, sep)
  {
    var s := f + [sep] + t;
    if |f| == 0 {
      assert s == [sep] + t;
      assert s[1..] == t;
    } else {
      assert s[1..] == f[1..] + [sep] + t;
      assert sep !in f[1..];
      SplitFreeThenSep(f[1..], t, sep);
      assert f == [f[0]] + f[1..];
    }
  }

  /** `s.split(/sep+/)`: the pieces between maximal runs of `sep`. Only the first
      and the last piece can be empty (a run at the start or at the end). */
  function SplitRuns(s: string, sep: char): (r: seq<string>)
    ensures |r| >= 1
    ensures forall i :: 0 <= i < |r| ==> sep !in r[i]
    ensures forall i :: 0 < i < |r| - 1 ==> r[i] != []
    ensures |s| > 0 && s[0] != sep ==> r[0] != []
    decreases |s|
  {
    if |s| == 0 then [""]
    else if s[0] == sep then
      if |s| > 1 && s[1] == sep then SplitRuns(s[1..], sep)
      else [""] + SplitRuns(s[1..], sep)
    else
      var rest := SplitRuns(s[1..], sep);
      [[s[0]] + rest[0]] + rest[1..]
  }

  /** The non-empty strings of `xs`, in order. */
  function NonEmpty(xs: seq<string>): (r: seq<string>)
    ensures |r| <= |xs|
  {
    if |xs| == 0 then []
    else (if xs[0] == [] then [] else [xs[0]]) + NonEmpty(xs[1..])
  }

  /** Keeps the first and the last piece and drops the empty ones in between. */
  function Compress(pieces: seq<string>): seq<string> {
    if |pieces| <= 1 then pieces
    else [pieces[0]] + NonEmpty(pieces[1..|pieces| - 1]) + [pieces[|pieces| - 1]]
  }

  lemma {:induction false} NonEmptyAppend(xs: seq<string>, ys: seq<string>)
    ensures NonEmpty(xs + ys) == NonEmpty(xs) + NonEmpty(ys)
    decreases |xs|
  {
    if |xs| == 0 {
      assert xs + ys == ys;
    } else {
      assert (xs + ys)[1..] == xs[1..] + ys;
      NonEmptyAppend(xs[1..], ys);
    }
  }

  /** Splitting on runs of a separator is splitting on the separator and then
      discarding the empty pieces that lie between two separators. */
  lemma {:induction false} SplitRunsIsCompressedSplit(s: string, sep: char)
    ensures SplitRuns(s, sep) == Compress(Split(s, sep))
    decreases |s|
  {
    if |s| > 0 {
      SplitRunsIsCompressedSplit(s[1..], sep);
      if s[0] != sep {
        CompressAfterChar(s, sep);
      } else if |s| > 1 && s[1] == sep {
        CompressAfterDoubleSep(s, sep);
      } else {
        CompressAfterSingleSep(s, sep);
      }
    }
  }

  /** Step of SplitRunsIsCompressedSplit for a leading ordinary character. */
  lemma CompressAfterChar(s: string, sep: char)
    requires |s| > 0 && s[0] != sep
    requires SplitRuns(s[1..], sep) == Compress(Split(s[1..], sep))
    ensures SplitRuns(s, sep) == Compress(Split(s, sep))
  {
    var p := Split(s[1..], sep);
    assert Split(s, sep) == [[s[0]] + p[0]] + p[1..];
    CompressExtendFirst([s[0]], p);
  }

  /** Step of SplitRunsIsCompressedSplit for a run of at least two separators. */
  lemma CompressAfterDoubleSep(s: string, sep: char)
    requires |s| > 1 && s[0] == sep && s[1] == sep
    requires SplitRuns(s[1..], sep) == Compress(Split(s[1..], sep))
    ensures SplitRuns(s, sep) == Compress(Split(s, sep))
  {
    var p := Split(s[1..], sep);
    assert Split(s, sep) == [""] + p;
    assert s[1..][1..] == s[2..];
    assert p == [""] + Split(s[2..], sep);
    CompressDropEmpty(p);
  }

  /** Step of SplitRunsIsCompressedSplit for a separator standing alone. */
  lemma CompressAfterSingleSep(s: string, sep: char)
    requires |s| > 0 && s[0] == sep && !(|s| > 1 && s[1] == sep)
    requires SplitRuns(s[1..], sep) == Compress(Split(s[1..], sep))
    ensures SplitRuns(s, sep) == Compress(Split(s, sep))
  {
    var p := Split(s[1..], sep);
    assert Split(s, sep) == [""] + p;
    if |s| > 1 {
      assert p[0] != [];
      CompressKeepEmpty(p);
    } else {
      assert p == [""];
    }
  }

  /** Lengthening the first piece lengthens the first compressed piece. */
  lemma CompressExtendFirst(x: string, p: seq<string>)
    requires |p| >= 1
    ensures Compress([x + p[0]] + p[1..]) == [x + Compress(p)[0]] + Compress(p)[1..]
  {
    var q := [x + p[0]] + p[1..];
    if |p| > 1 {
      assert q[1..|q| - 1] == p[1..|p| - 1];
      assert q[|q| - 1] == p[|p| - 1];
    }
  }

  /** An empty piece in front of an empty first piece disappears. */
  lemma CompressDropEmpty(p: seq<string>)
    requires |p| >= 2 && p[0] == []
    ensures Compress([""] + p) == Compress(p)
  {
    var q := [""] + p;
    var mid := p[1..|p| - 1];
    assert q[1..|q| - 1] == [""] + mid;
    NonEmptyAppend([""], mid);
    assert NonEmpty([""]) == [];
    assert NonEmpty(q[1..|q| - 1]) == NonEmpty(mid);
    assert q[|q| - 1] == p[|p| - 1];
    assert Compress(q) == [""] + NonEmpty(mid) + [p[|p| - 1]];
  }

  /** An empty piece in front of a non-empty first piece stays in front. */
  lemma CompressKeepEmpty(p: seq<string>)
    requires |p| >= 1 && p[0] != []
    ensures Compress([""] + p) == [""] + Compress(p)
  {
    var q := [""] + p;
    assert q[1..|q| - 1] == p[..|p| - 1];
    if |p| > 1 {
      assert p[..|p| - 1] == [p[0]] + p[1..|p| - 1];
      NonEmptyAppend([p[0]], p[1..|p| - 1]);
    }
  }

  /** The pieces of a join of non-empty separator-free fields, split on runs,
      are the fields themselves. */
  lemma SplitRunsJoin(fields: seq<string>, sep: char)
    requires |fields| >= 1
    requires forall i :: 0 <= i < |fields| ==> sep !in fields[i] && fields[i] != []
    ensures SplitRuns(Join(fields, sep), sep) == fields
  {
    SplitJoin(fields, sep);
    SplitRunsIsCompressedSplit(Join(fields, sep), sep);
    if |fields| > 1 {
      NonEmptyAllKept(fields[1..|fields| - 1]);
    }
  }

  lemma {:induction false} NonEmptyAllKept(xs: seq<string>)
    requires forall i :: 0 <= i < |xs| ==> xs[i] != []
    ensures NonEmpty(xs) == xs
    decreases |xs|
  {
    if |xs| > 0 {
      NonEmptyAllKept(xs[1..]);
    }
  }

  /** Every piece of a blank string is blank. */
  lemma {:induction false} SplitRunsBlank(s: string, sep: char)
    requires IsBlank(s)
    ensures forall i :: 0 <= i < |SplitRuns(s, sep)| ==> IsBlank(SplitRuns(s, sep)[i])
    decreases |s|
  {
    if |s| > 0 {
      assert IsBlank(s[1..]);
      SplitRunsBlank(s[1..], sep);
    }
  }
}
