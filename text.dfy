/** Python's `str.isspace`, `str.strip` and `str.splitlines`, as app.py uses them
    to read the seed and prefix/suffix text areas and to clean query variants. */
module Text {
  import opened OrderedSet

  /** The characters for which Python's `str.isspace()` holds; `str.strip()`
      with no argument removes exactly these from both ends. */
  predicate IsSpace(c: char) {
    || ('\t' <= c <= '\r')
    || ('\U{1c}' <= c <= ' ')
    || c == '\U{85}'
    || c == '\U{a0}'
    || c == '\U{1680}'
    || ('\U{2000}' <= c <= '\U{200a}')
    || ('\U{2028}' <= c <= '\U{2029}')
    || c == '\U{202f}'
    || c == '\U{205f}'
    || c == '\U{3000}'
  }

  /** The line boundaries recognised by Python's `str.splitlines()`
      (`\r\n` is one boundary made of two of these). */
  predicate IsLineBreak(c: char) {
    || ('\n' <= c <= '\r')
    || ('\U{1c}' <= c <= '\U{1e}')
    || c == '\U{85}'
    || ('\U{2028}' <= c <= '\U{2029}')
  }

  /** No leading and no trailing whitespace. */
  predicate IsStripped(s: string) {
    s == [] || (!IsSpace(s[0]) && !IsSpace(s[|s| - 1]))
  }

  predicate AllSpace(s: string) {
    forall k :: 0 <= k < |s| ==> IsSpace(s[k])
  }

  predicate NoLineBreak(s: string) {
    forall k :: 0 <= k < |s| ==> !IsLineBreak(s[k])
  }

  /** `r` is the slice `s[i..i + |r|]` and everything of `s` around it is whitespace. */
  ghost predicate Margins(s: string, i: nat, r: string) {
    && i + |r| <= |s|
    && s[i..i + |r|] == r
    && AllSpace(s[..i])
    && AllSpace(s[i + |r|..])
  }

  /** `s.strip()`: drop whitespace from both ends. */
  function Strip(s: string): (r: string)
    ensures IsStripped(r)
    decreases |s|
  {
    if s == [] then []
    else if IsSpace(s[0]) then Strip(s[1..])
    else if IsSpace(s[|s| - 1]) then Strip(s[..|s| - 1])
    else s
  }

  /** Where `Strip(s)` starts inside `s`. */
  ghost function StripStart(s: string): nat
    decreases |s|
  {
    if s == [] then 0
    else if IsSpace(s[0]) then 1 + StripStart(s[1..])
    else if IsSpace(s[|s| - 1]) then StripStart(s[..|s| - 1])
    else 0
  }

  lemma MarginsAfterSpace(s: string, i: nat, r: string)
    requires s != [] && IsSpace(s[0]) && Margins(s[1..], i, r)
    ensures Margins(s, i + 1, r)
  {
    assert s[i + 1..i + 1 + |r|] == s[1..][i..i + |r|];
    assert s[i + 1 + |r|..] == s[1..][i + |r|..];
    assert s[..i + 1] == [s[0]] + s[1..][..i];
  }

  lemma MarginsBeforeSpace(s: string, i: nat, r: string)
    requires s != [] && IsSpace(s[|s| - 1]) && Margins(s[..|s| - 1], i, r)
    ensures Margins(s, i, r)
  {
    var p := s[..|s| - 1];
    assert s[i..i + |r|] == p[i..i + |r|];
    assert s[..i] == p[..i];
    assert s[i + |r|..] == p[i + |r|..] + [s[|s| - 1]];
  }

  /** `Strip(s)` is a slice of `s` with only whitespace around it. */
  lemma {:induction false} StripIsSlice(s: string)
    ensures Margins(s, StripStart(s), Strip(s))
    decreases |s|
  {
    if s == [] {
    } else if IsSpace(s[0]) {
      StripIsSlice(s[1..]);
      MarginsAfterSpace(s, StripStart(s[1..]), Strip(s[1..]));
    } else if IsSpace(s[|s| - 1]) {
      StripIsSlice(s[..|s| - 1]);
      MarginsBeforeSpace(s, StripStart(s[..|s| - 1]), Strip(s[..|s| - 1]));
    } else {
      assert s[0..|s|] == s;
    }
  }

  /** The stripped slice with whitespace margins is unique, so `Strip` is the
      one Python's `str.strip()` returns. */
  lemma StripUnique(s: string, i: nat, r: string)
    requires Margins(s, i, r) && IsStripped(r)
    ensures r == Strip(s)
  {
    StripIsSlice(s);
    var j, t := StripStart(s), Strip(s);
    if r != [] && t != [] {
      assert r[0] == s[i] && t[0] == s[j];
      assert i == j;
      assert r[|r| - 1] == s[i + |r| - 1] && t[|t| - 1] == s[j + |t| - 1];
      assert |r| == |t|;
    }
  }

  /** Stripping is the identity exactly on stripped strings, so it is idempotent. */
  lemma StripFixes(s: string)
    ensures IsStripped(s) <==> Strip(s) == s
    ensures Strip(Strip(s)) == Strip(s)
  {
    var r := Strip(s);
    if r != [] {
      assert !IsSpace(r[0]) && !IsSpace(r[|r| - 1]);
    }
  }

  /** A string strips to nothing exactly when it is all whitespace
      (this is the `if s.strip()` test for a blank line). */
  lemma StripBlank(s: string)
    ensures Strip(s) == [] <==> AllSpace(s)
  {
    StripIsSlice(s);
    var r, i := Strip(s), StripStart(s);
    if r != [] {
      assert s[i] == r[0];
    } else {
      assert s == s[..i] + s[i..];
    }
  }

  /** Stripping only removes characters, so it cannot introduce a line break. */
  lemma StripKeepsNoLineBreak(s: string)
    requires NoLineBreak(s)
    ensures NoLineBreak(Strip(s))
  {
    StripIsSlice(s);
    var r, i := Strip(s), StripStart(s);
    forall k | 0 <= k < |r|
      ensures !IsLineBreak(r[k])
    {
      assert r[k] == s[i + k];
    }
  }

  /** All characters of `s` that are not line boundaries, in order. */
  function WithoutBreaks(s: string): string {
    if s == [] then []
    else (if IsLineBreak(s[0]) then [] else [s[0]]) + WithoutBreaks(s[1..])
  }

  function Concat(lines: seq<string>): string {
    if lines == [] then [] else lines[0] + Concat(lines[1..])
  }

  lemma {:induction false} WithoutBreaksAppend(a: string, b: string)
    ensures WithoutBreaks(a + b) == WithoutBreaks(a) + WithoutBreaks(b)
    decreases |a|
  {
    if a == [] {
      assert a + b == b;
    } else {
      assert (a + b)[1..] == a[1..] + b;
      WithoutBreaksAppend(a[1..], b);
    }
  }

  lemma {:induction false} WithoutBreaksOfLine(s: string)
    requires NoLineBreak(s)
    ensures WithoutBreaks(s) == s
    decreases |s|
  {
    if s != [] {
      WithoutBreaksOfLine(s[1..]);
    }
  }

  /** The length of the first line of `s`: the index of its first line boundary. */
  function LineEnd(s: string): (n: nat)
    ensures n <= |s|
    ensures NoLineBreak(s[..n])
    ensures n < |s| ==> IsLineBreak(s[n])
    decreases |s|
  {
    if s == [] || IsLineBreak(s[0]) then 0
    else
      var n := 1 + LineEnd(s[1..]);
      assert s[..n] == [s[0]] + s[1..][..n - 1];
      n
  }

  /** The width of the line boundary at `s[n]`: `\r\n` is one boundary of two characters. */
  function BreakWidth(s: string, n: nat): (w: nat)
    requires n < |s|
    ensures 1 <= w <= |s| - n
  {
    if s[n] == '\r' && n + 1 < |s| && s[n + 1] == '\n' then 2 else 1
  }

  lemma BoundaryHasNoText(s: string, n: nat)
    requires n < |s| && IsLineBreak(s[n])
    ensures WithoutBreaks(s[n..n + BreakWidth(s, n)]) == []
  {
    var gap := s[n..n + BreakWidth(s, n)];
    assert gap[0] == s[n];
    if |gap| == 2 {
      assert gap[1..][0] == '\n' && gap[1..][1..] == [];
      assert WithoutBreaks(gap[1..]) == [];
    } else {
      assert gap[1..] == [];
    }
  }

  /** `s.splitlines()`: split at every line boundary; a boundary at the very end
      does not start a further, empty line. */
  function SplitLines(s: string): (lines: seq<string>)
    ensures forall i :: 0 <= i < |lines| ==> NoLineBreak(lines[i])
    ensures s != [] <==> lines != []
    decreases |s|
  {
    if s == [] then []
    else
      var n := LineEnd(s);
      if n == |s| then [s]
      else [s[..n]] + SplitLines(s[n + BreakWidth(s, n)..])
  }

  /** The first line ends at the first line boundary. */
  lemma {:induction false} LineEndAtBreak(line: string, rest: string)
    requires NoLineBreak(line) && rest != [] && IsLineBreak(rest[0])
    ensures LineEnd(line + rest) == |line|
    decreases |line|
  {
    var s := line + rest;
    if line == [] {
      assert s == rest;
    } else {
      assert s[0] == line[0] && !IsLineBreak(s[0]);
      assert s[1..] == line[1..] + rest;
      LineEndAtBreak(line[1..], rest);
      assert LineEnd(s) == 1 + LineEnd(s[1..]);
    }
  }

  /** A text without line boundaries is one line. */
  lemma {:induction false} LineEndOfLine(s: string)
    requires NoLineBreak(s)
    ensures LineEnd(s) == |s|
    decreases |s|
  {
    if s != [] {
      LineEndOfLine(s[1..]);
    }
  }

  /** `"\n".join(lines)` */
  function JoinLines(lines: seq<string>): string {
    if lines == [] then []
    else if |lines| == 1 then lines[0]
    else lines[0] + "\n" + JoinLines(lines[1..])
  }

  /** A line followed by any single-character boundary is split off as it is;
      a `\r` counts alone only when no `\n` follows it. */
  lemma SplitAtBreak(line: string, b: char, tail: string)
    requires NoLineBreak(line) && IsLineBreak(b)
    requires b == '\r' ==> tail == [] || tail[0] != '\n'
    ensures SplitLines(line + [b] + tail) == [line] + SplitLines(tail)
  {
    var s, n := line + [b] + tail, |line|;
    assert s == line + ([b] + tail);
    LineEndAtBreak(line, [b] + tail);
    assert s[n] == b;
    assert BreakWidth(s, n) == 1 by {
      if b == '\r' && n + 1 < |s| {
        assert s[n + 1] == tail[0];
      }
    }
    assert s[..n] == line;
    assert s[n + 1..] == tail;
  }

  /** `\r\n` is one boundary: the line before it is split off and no empty
      line is made between `\r` and `\n`. */
  lemma SplitAtCrLf(line: string, tail: string)
    requires NoLineBreak(line)
    ensures SplitLines(line + "\r\n" + tail) == [line] + SplitLines(tail)
  {
    var s := line + "\r\n" + tail;
    assert s == line + ("\r\n" + tail);
    LineEndAtBreak(line, "\r\n" + tail);
    assert s[|line|] == '\r' && s[|line| + 1] == '\n';
    assert BreakWidth(s, |line|) == 2;
    assert s[..|line|] == line;
    assert s[|line| + 2..] == tail;
  }

  /** A line followed by `\n` is split off as it is. */
  lemma SplitAtNewline(line: string, tail: string)
    requires NoLineBreak(line)
    ensures SplitLines(line + "\n" + tail) == [line] + SplitLines(tail)
  {
    SplitAtBreak(line, '\n', tail);
  }

  /** `s.splitlines()` splits at every `\n`: lines joined with `\n`
      come back as the same lines, empty ones included, provided none holds a
      boundary and the last is not empty (a trailing boundary starts no line). */
  lemma {:induction false} SplitJoinedLines(lines: seq<string>)
    requires forall i :: 0 <= i < |lines| ==> NoLineBreak(lines[i])
    requires lines != [] ==> lines[|lines| - 1] != []
    ensures SplitLines(JoinLines(lines)) == lines
    decreases |lines|
  {
    if |lines| == 1 {
      LineEndOfLine(lines[0]);
    } else if |lines| > 1 {
      SplitAtNewline(lines[0], JoinLines(lines[1..]));
      SplitJoinedLines(lines[1..]);
    }
  }

  /** The seed text area's default value splits into its two seeds. */
  lemma SplitDefaultSeeds()
    ensures SplitLines("web design\nwebsite builder") == ["web design", "website builder"]
  {
    var lines := ["web design", "website builder"];
    assert JoinLines(lines) == "web design\nwebsite builder";
    SplitJoinedLines(lines);
  }

  lemma SliceThree(s: string, n: nat, w: nat)
    requires n + w <= |s|
    ensures s == s[..n] + (s[n..n + w] + s[n + w..])
  {
  }

  lemma WithoutBreaksJoin(line: string, gap: string, rest: string)
    requires NoLineBreak(line) && WithoutBreaks(gap) == []
    ensures WithoutBreaks(line + (gap + rest)) == line + WithoutBreaks(rest)
  {
    assert WithoutBreaks(gap + rest) == WithoutBreaks(rest) by {
      WithoutBreaksAppend(gap, rest);
    }
    assert WithoutBreaks(line + (gap + rest)) == line + WithoutBreaks(gap + rest) by {
      WithoutBreaksAppend(line, gap + rest);
      WithoutBreaksOfLine(line);
    }
  }

  /** Dropping the boundaries from a string whose first line ends at `n`:
      the first line, then whatever follows its boundary. */
  lemma WithoutBreaksAfterLine(s: string, n: nat)
    requires n < |s| && n == LineEnd(s)
    ensures WithoutBreaks(s) == s[..n] + WithoutBreaks(s[n + BreakWidth(s, n)..])
  {
    var w := BreakWidth(s, n);
    SliceThree(s, n, w);
    BoundaryHasNoText(s, n);
    WithoutBreaksJoin(s[..n], s[n..n + w], s[n + w..]);
  }

  /** Splitting loses only the line boundaries: the lines, put back together,
      hold every other character of `s` in order. */
  lemma {:induction false} SplitLinesKeepsText(s: string)
    ensures Concat(SplitLines(s)) == WithoutBreaks(s)
    decreases |s|
  {
    if s != [] {
      var n := LineEnd(s);
      if n == |s| {
        WithoutBreaksOfLine(s);
      } else {
        var rest := s[n + BreakWidth(s, n)..];
        SplitLinesKeepsText(rest);
        WithoutBreaksAfterLine(s, n);
        assert SplitLines(s)[1..] == SplitLines(rest);
      }
    }
  }

  /** `[x.strip() for x in xs if x.strip()]`: the stripped non-blank entries, in order. */
  function StripNonBlank(xs: seq<string>): (r: seq<string>)
    ensures forall i :: 0 <= i < |r| ==> r[i] != [] && IsStripped(r[i])
    decreases |xs|
  {
    if xs == [] then []
    else
      var rest := StripNonBlank(xs[1..]);
      var head := Strip(xs[0]);
      if head != [] then [head] + rest else rest
  }

  /** The comprehension works entry by entry, so it distributes over concatenation
      and keeps the order of its input. */
  lemma {:induction false} StripNonBlankAppend(a: seq<string>, b: seq<string>)
    ensures StripNonBlank(a + b) == StripNonBlank(a) + StripNonBlank(b)
    decreases |a|
  {
    if a == [] {
      assert a + b == b;
    } else {
      assert (a + b)[1..] == a[1..] + b;
      StripNonBlankAppend(a[1..], b);
    }
  }

  /** The index of the first entry of `xs` that strips to `x`. */
  function FirstStrippedTo(xs: seq<string>, x: string): (k: nat)
    requires exists v :: v in xs && Strip(v) == x
    ensures k < |xs| && Strip(xs[k]) == x
    ensures forall i :: 0 <= i < k ==> Strip(xs[i]) != x
    decreases |xs|
  {
    if Strip(xs[0]) == x then 0
    else
      assert exists v :: v in xs[1..] && Strip(v) == x by {
        var v :| v in xs && Strip(v) == x;
        var i :| 0 <= i < |xs| && xs[i] == v;
        assert xs[1..][i - 1] == v;
      }
      1 + FirstStrippedTo(xs[1..], x)
  }

  /** Two kept entries come in the order in which the input first strips to them. */
  lemma {:induction false} StripNonBlankFirstOrder(xs: seq<string>, x: string, y: string)
    requires x in StripNonBlank(xs) && y in StripNonBlank(xs)
    ensures (exists v :: v in xs && Strip(v) == x) && (exists v :: v in xs && Strip(v) == y)
    ensures IndexOf(StripNonBlank(xs), x) < IndexOf(StripNonBlank(xs), y) <==>
      FirstStrippedTo(xs, x) < FirstStrippedTo(xs, y)
    decreases |xs|
  {
    StripNonBlankMembers(xs);
    var c, h, rest := StripNonBlank(xs), Strip(xs[0]), StripNonBlank(xs[1..]);
    if h == [] {
      assert c == rest;
      StripNonBlankFirstOrder(xs[1..], x, y);
    } else {
      assert c[1..] == rest;
      if x != h && y != h {
        StripNonBlankFirstOrder(xs[1..], x, y);
      }
    }
  }

  /** Every entry of `r` is a stripping of some entry of `xs`, and the entries
      of `r` come in the order in which `xs` first strips to them. */
  predicate InFirstStrippedOrder(xs: seq<string>, r: seq<string>) {
    && (forall i :: 0 <= i < |r| ==> exists v :: v in xs && Strip(v) == r[i])
    && (forall i, j :: 0 <= i < j < |r| ==> FirstStrippedTo(xs, r[i]) < FirstStrippedTo(xs, r[j]))
  }

  /** `list(dict.fromkeys(x.strip() for x in xs if x.strip()))` lists the
      distinct non-blank strippings in the order in which they first occur. */
  lemma DedupeStripNonBlankOrder(xs: seq<string>)
    ensures InFirstStrippedOrder(xs, Dedupe(StripNonBlank(xs)))
    ensures forall v :: v in xs && Strip(v) != [] ==> Strip(v) in Dedupe(StripNonBlank(xs))
  {
    var cleaned := StripNonBlank(xs);
    var r := Dedupe(cleaned);
    DedupeKeepsFirstOrder(cleaned);
    StripNonBlankMembers(xs);
    forall i | 0 <= i < |r|
      ensures exists v :: v in xs && Strip(v) == r[i]
    {
      assert r[i] in cleaned;
    }
    forall i, j | 0 <= i < j < |r|
      ensures FirstStrippedTo(xs, r[i]) < FirstStrippedTo(xs, r[j])
    {
      assert r[i] in cleaned && r[j] in cleaned;
      assert IndexOf(cleaned, r[i]) < IndexOf(cleaned, r[j]);
      StripNonBlankFirstOrder(xs, r[i], r[j]);
    }
  }

  /** The entries kept are exactly the non-blank strippings of the input entries. */
  lemma {:induction false} StripNonBlankMembers(xs: seq<string>)
    ensures forall v :: v in xs && Strip(v) != [] ==> Strip(v) in StripNonBlank(xs)
    ensures forall x :: x in StripNonBlank(xs) ==> exists v :: v in xs && Strip(v) == x
    decreases |xs|
  {
    if xs != [] {
      StripNonBlankMembers(xs[1..]);
      forall x | x in StripNonBlank(xs)
        ensures exists v :: v in xs && Strip(v) == x
      {
        if x != Strip(xs[0]) {
          var v :| v in xs[1..] && Strip(v) == x;
          assert v in xs;
        }
      }
    }
  }

  /** Cleaning a list that is already clean changes nothing. */
  lemma {:induction false} StripNonBlankOfClean(xs: seq<string>)
    requires forall i :: 0 <= i < |xs| ==> xs[i] != [] && IsStripped(xs[i])
    ensures StripNonBlank(xs) == xs
    decreases |xs|
  {
    if xs != [] {
      StripFixes(xs[0]);
      StripNonBlankOfClean(xs[1..]);
    }
  }

  /** Stripped non-blank entries of line-free strings are line-free. */
  lemma StripNonBlankKeepsNoLineBreak(xs: seq<string>)
    requires forall i :: 0 <= i < |xs| ==> NoLineBreak(xs[i])
    ensures forall x :: x in StripNonBlank(xs) ==> NoLineBreak(x)
  {
    StripNonBlankMembers(xs);
    forall x | x in StripNonBlank(xs)
      ensures NoLineBreak(x)
    {
      var v :| v in xs && Strip(v) == x;
      StripKeepsNoLineBreak(v);
    }
  }
}
