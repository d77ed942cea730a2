/** The string operations the handlers and the walker use, stated the way
    Rust's `str` methods behave: `trim`, `contains`, `starts_with`,
    `replace`, `lines` and `join`. Strings are sequences of Unicode scalar
    values; the byte-level decoding that precedes them is not modelled. */
module Text {

  /** The Unicode White_Space property, which is what `char::is_whitespace`
      (and therefore `str::trim`) tests. */
  predicate IsWhitespace(c: char) {
    var n := c as int;
    || (9 <= n <= 13) || n == 32 || n == 0x85 || n == 0xA0 || n == 0x1680
    || (0x2000 <= n <= 0x200A) || n == 0x2028 || n == 0x2029 || n == 0x202F
    || n == 0x205F || n == 0x3000
  }

  predicate AllWhitespace(s: string) {
    forall i :: 0 <= i < |s| ==> IsWhitespace(s[i])
  }

  /** White space on both sides of a join is white space throughout. */
  lemma AllWhitespaceConcat(a: string, b: string)
    ensures AllWhitespace(a + b) <==> AllWhitespace(a) && AllWhitespace(b)
  {
    if AllWhitespace(a) && AllWhitespace(b) {
      forall i | 0 <= i < |a + b| ensures IsWhitespace((a + b)[i]) {
        if i >= |a| { assert (a + b)[i] == b[i - |a|]; }
      }
    }
    if AllWhitespace(a + b) {
      forall i | 0 <= i < |b| ensures IsWhitespace(b[i]) {
        assert (a + b)[|a| + i] == b[i];
      }
      forall i | 0 <= i < |a| ensures IsWhitespace(a[i]) {
        assert (a + b)[i] == a[i];
      }
    }
  }

  /** `str::trim_start`: drops the longest all-whitespace prefix. */
  function TrimStart(s: string): (r: string)
    ensures |r| <= |s| && r == s[|s| - |r|..]
    ensures AllWhitespace(s[..|s| - |r|])
    ensures r == [] || !IsWhitespace(r[0])
    decreases |s|
  {
    if |s| > 0 && IsWhitespace(s[0]) then
      var r := TrimStart(s[1..]);
      assert s[..|s| - |r|] == [s[0]] + s[1..][..|s| - 1 - |r|];
      AllWhitespaceConcat([s[0]], s[1..][..|s| - 1 - |r|]);
      r
    else s
  }

  /** `str::trim_end`: drops the longest all-whitespace suffix. */
  function TrimEnd(s: string): (r: string)
    ensures |r| <= |s| && r == s[..|r|]
    ensures AllWhitespace(s[|r|..])
    ensures r == [] || !IsWhitespace(r[|r| - 1])
    decreases |s|
  {
    if |s| > 0 && IsWhitespace(s[|s| - 1]) then
      var r := TrimEnd(s[..|s| - 1]);
      assert s[|r|..] == s[..|s| - 1][|r|..] + [s[|s| - 1]];
      AllWhitespaceConcat(s[..|s| - 1][|r|..], [s[|s| - 1]]);
      r
    else s
  }

  /** `r` is a contiguous piece of `s` with only white space around it. */
  predicate IsTrimmedPiece(r: string, s: string) {
    exists k :: 0 <= k <= |s| - |r| && r == s[k..k + |r|]
                && AllWhitespace(s[..k]) && AllWhitespace(s[k + |r|..])
  }

  /** `str::trim`: the result is a contiguous piece of `s` that neither starts
      nor ends with whitespace, and everything cut off on either side is
      whitespace. */
  function Trim(s: string): (r: string)
    ensures r == [] || (!IsWhitespace(r[0]) && !IsWhitespace(r[|r| - 1]))
    ensures IsTrimmedPiece(r, s)
  {
    var t := TrimStart(s);
    var r := TrimEnd(t);
    CutBothEnds(s, t, r);
    r
  }

  /** A white-space prefix cut off and then a white-space suffix cut off
      leave a middle piece with white space only around it. */
  lemma CutBothEnds(s: string, t: string, r: string)
    requires |t| <= |s| && t == s[|s| - |t|..] && AllWhitespace(s[..|s| - |t|])
    requires t == [] || !IsWhitespace(t[0])
    requires |r| <= |t| && r == t[..|r|] && AllWhitespace(t[|r|..])
    requires r == [] || !IsWhitespace(r[|r| - 1])
    ensures r == [] || (!IsWhitespace(r[0]) && !IsWhitespace(r[|r| - 1]))
    ensures IsTrimmedPiece(r, s)
  {
    var k := |s| - |t|;
    if r != [] {
      assert r[0] == t[0];
    }
    assert s[k..k + |r|] == t[..|r|];
    assert s[k + |r|..] == t[|r|..];
    assert 0 <= k <= |s| - |r| && r == s[k..k + |r|] && AllWhitespace(s[..k]) && AllWhitespace(s[k + |r|..]);
  }

  /** Trimming yields the empty string exactly when the input is all whitespace. */
  lemma TrimEmptyIff(s: string)
    ensures Trim(s) == [] <==> AllWhitespace(s)
  {
    var t := TrimStart(s);
    assert s == s[..|s| - |t|] + t;
    AllWhitespaceConcat(s[..|s| - |t|], t);
    if Trim(s) == [] {
      assert TrimEnd(t) == [];
      assert t[0..] == t;
    }
    if AllWhitespace(s) {
      TrimStartAllWhitespace(s);
    }
  }

  /** Trimming twice is the same as trimming once. */
  lemma TrimIdempotent(s: string)
    ensures Trim(Trim(s)) == Trim(s)
  {
    var r := Trim(s);
    assert TrimStart(r) == r;
    assert TrimEnd(r) == r;
  }

  /** A trailing line feed never survives a trim. */
  lemma {:induction false} TrimIgnoresTrailingNewline(s: string)
    ensures Trim(s + "\n") == Trim(s)
  {
    if AllWhitespace(s) {
      assert TrimStart(s + "\n") == [] && TrimStart(s) == [] by {
        TrimStartAppend(s, "\n");
        TrimStartAllWhitespace(s);
        assert IsWhitespace("\n"[0]);
        TrimStartAllWhitespace("\n");
      }
    } else {
      assert TrimStart(s + "\n") == TrimStart(s) + "\n" by {
        TrimStartAppend(s, "\n");
      }
      TrimEndNewline(TrimStart(s));
    }
  }

  lemma TrimStartAllWhitespace(s: string)
    requires AllWhitespace(s)
    ensures TrimStart(s) == []
  {
  }

  lemma TrimEndNewline(t: string)
    ensures TrimEnd(t + "\n") == TrimEnd(t)
  {
    var u := t + "\n";
    assert IsWhitespace(u[|u| - 1]);
    assert u[..|u| - 1] == t;
  }

  /** Trimming the start of `a + b` only touches `b` when `a` is all whitespace. */
  lemma {:induction false} TrimStartAppend(a: string, b: string)
    ensures AllWhitespace(a) ==> TrimStart(a + b) == TrimStart(b)
    ensures !AllWhitespace(a) ==> TrimStart(a + b) == TrimStart(a) + b
    decreases |a|
  {
    if |a| > 0 {
      assert (a + b)[1..] == a[1..] + b;
      TrimStartAppend(a[1..], b);
      if !IsWhitespace(a[0]) {
        assert !AllWhitespace(a);
      } else if !AllWhitespace(a) {
        assert !AllWhitespace(a[1..]) by {
          var i :| 0 <= i < |a| && !IsWhitespace(a[i]);
          assert a[1..][i - 1] == a[i];
        }
      }
    } else {
      assert a + b == b;
    }
  }

  /** `str::contains` for a string pattern (the empty pattern occurs everywhere). */
  predicate Contains(s: string, pat: string)
    decreases |s|
  {
    pat <= s || (|s| > 0 && Contains(s[1..], pat))
  }

  /** Every character of a pattern that occurs is a character of the text. */
  lemma {:induction false} ContainsKeepsChars(s: string, pat: string, c: char)
    ensures Contains(s, pat) && c in pat ==> c in s
    decreases |s|
  {
    if Contains(s, pat) && c in pat {
      if pat <= s {
        var i :| 0 <= i < |pat| && pat[i] == c;
        assert s[i] == c;
      } else {
        ContainsKeepsChars(s[1..], pat, c);
        assert s == [s[0]] + s[1..];
      }
    }
  }

  /** An occurring pattern fits in the text. */
  lemma {:induction false} ContainsFits(s: string, pat: string)
    ensures Contains(s, pat) ==> |pat| <= |s|
    decreases |s|
  {
    if Contains(s, pat) && !(pat <= s) {
      ContainsFits(s[1..], pat);
    }
  }

  /** `str::replace(pat, rep)`: every leftmost non-overlapping occurrence of
      `pat` is replaced by `rep`; an empty pattern matches before every
      character and at the end. Where there is no occurrence nothing changes,
      and a replacement no longer than the pattern never lengthens the text. */
  function ReplaceAll(s: string, pat: string, rep: string): (r: string)
    ensures |pat| > 0 && !Contains(s, pat) ==> r == s
    ensures |pat| > 0 && |rep| <= |pat| ==> |r| <= |s|
    decreases |s|
  {
    if |pat| == 0 then
      if |s| == 0 then rep else rep + [s[0]] + ReplaceAll(s[1..], pat, rep)
    else if pat <= s then
      rep + ReplaceAll(s[|pat|..], pat, rep)
    else if |s| == 0 then
      s
    else
      [s[0]] + ReplaceAll(s[1..], pat, rep)
  }

  /** No occurrence of `pat` starts in front of position `k` of `s`. */
  predicate NoMatchBefore(s: string, pat: string, k: nat)
    decreases k
  {
    k == 0 || (|s| > 0 && !(pat <= s) && NoMatchBefore(s[1..], pat, k - 1))
  }

  /** `NoMatchBefore` says that none of the first `k` positions starts an
      occurrence. */
  lemma {:induction false} NoMatchBeforeIff(s: string, pat: string, k: nat)
    ensures NoMatchBefore(s, pat, k) <==> k <= |s| && forall i :: 0 <= i < k ==> !(pat <= s[i..])
    decreases k
  {
    if k > 0 && |s| > 0 {
      NoMatchBeforeIff(s[1..], pat, k - 1);
      assert s[0..] == s;
      forall i | 0 < i <= |s| ensures s[1..][i - 1..] == s[i..] {
      }
    }
  }

  /** The leftmost occurrence of the pattern becomes the replacement, the
      text in front of it is kept, and the replacing goes on after it. */
  lemma ReplaceFirstOccurrence(a: string, pat: string, rep: string, b: string)
    requires |pat| > 0 && NoMatchBefore(a + pat + b, pat, |a|)
    ensures ReplaceAll(a + pat + b, pat, rep) == a + rep + ReplaceAll(b, pat, rep)
  {
    var s := a + pat + b;
    assert s[..|a|] == a && s[|a|..][..|pat|] == pat && s[|a| + |pat|..] == b;
    ReplaceAtFirstMatch(s, pat, rep, |a|);
    assert ReplacesAt(s, pat, rep, |a|);
  }

  /** Replacing in `s` keeps the text in front of position `k`, puts `rep`
      for the occurrence at `k`, and goes on after it. */
  predicate ReplacesAt(s: string, pat: string, rep: string, k: nat)
    requires k + |pat| <= |s|
  {
    ReplaceAll(s, pat, rep) == s[..k] + rep + ReplaceAll(s[k + |pat|..], pat, rep)
  }

  /** The same, for an occurrence at position `k` with none in front of it. */
  lemma {:induction false} ReplaceAtFirstMatch(s: string, pat: string, rep: string, k: nat)
    requires |pat| > 0 && k + |pat| <= |s| && pat <= s[k..] && NoMatchBefore(s, pat, k)
    ensures ReplacesAt(s, pat, rep, k)
    decreases k
  {
    if k == 0 {
      var rest := ReplaceAll(s[|pat|..], pat, rep);
      assert s[0..] == s;
      ReplaceAtMatch(s, pat, rep);
      assert s[..0] + rep + rest == rep + rest;
    } else {
      assert s[1..][k - 1..] == s[k..];
      ReplaceAtFirstMatch(s[1..], pat, rep, k - 1);
      ShiftBack(s, pat, rep, k);
    }
  }

  /** One mismatching character in front moves the occurrence one place on. */
  lemma ShiftBack(s: string, pat: string, rep: string, k: nat)
    requires |pat| > 0 && 0 < k && k + |pat| <= |s| && !(pat <= s)
    requires ReplacesAt(s[1..], pat, rep, k - 1)
    ensures ReplacesAt(s, pat, rep, k)
  {
    var rest := ReplaceAll(s[k + |pat|..], pat, rep);
    assert s[1..][k - 1 + |pat|..] == s[k + |pat|..];
    ReplacePastMismatch(s, pat, rep);
    assert s[..k] == [s[0]] + s[1..][..k - 1];
    ConsConcat(s[0], s[1..][..k - 1], rep, rest);
  }

  lemma ConsConcat<T>(x: T, u: seq<T>, v: seq<T>, w: seq<T>)
    ensures [x] + (u + v + w) == [x] + u + v + w
  {
  }

  lemma ReplaceAtMatch(s: string, pat: string, rep: string)
    requires |pat| > 0 && pat <= s
    ensures ReplaceAll(s, pat, rep) == rep + ReplaceAll(s[|pat|..], pat, rep)
  {
  }

  lemma ReplacePastMismatch(s: string, pat: string, rep: string)
    requires |pat| > 0 && |s| > 0 && !(pat <= s)
    ensures ReplaceAll(s, pat, rep) == [s[0]] + ReplaceAll(s[1..], pat, rep)
  {
  }

  /** With a replacement strictly shorter than the pattern, the text is left
      unchanged exactly when the pattern does not occur in it. */
  lemma {:induction false} ReplaceShorterUnchangedIff(s: string, pat: string, rep: string)
    requires |pat| > 0 && |rep| < |pat|
    ensures ReplaceAll(s, pat, rep) == s <==> !Contains(s, pat)
    decreases |s|
  {
    if Contains(s, pat) {
      ReplaceShorterShrinks(s, pat, rep);
    }
  }

  lemma {:induction false} ReplaceShorterShrinks(s: string, pat: string, rep: string)
    requires |pat| > 0 && |rep| < |pat| && Contains(s, pat)
    ensures |ReplaceAll(s, pat, rep)| < |s|
    decreases |s|
  {
    if !(pat <= s) {
      ReplaceShorterShrinks(s[1..], pat, rep);
    }
  }

  /** Replacing a one-character pattern by a one-character replacement is a
      character-by-character substitution that keeps the length. */
  lemma {:induction false} ReplaceCharPointwise(s: string, a: char, b: char)
    ensures |ReplaceAll(s, [a], [b])| == |s|
    ensures forall i :: 0 <= i < |s| ==>
      ReplaceAll(s, [a], [b])[i] == (if s[i] == a then b else s[i])
    decreases |s|
  {
    if |s| > 0 {
      ReplaceCharPointwise(s[1..], a, b);
      if [a] <= s {
        assert s[|[a]|..] == s[1..];
      }
    }
  }

  /** Splits on every occurrence of `sep`; there is always at least one piece. */
  function Split(s: string, sep: char): (r: seq<string>)
    ensures |r| >= 1
    ensures forall i :: 0 <= i < |r| ==> sep !in r[i]
    decreases |s|
  {
    if |s| == 0 then [""]
    else
      var rest := Split(s[1..], sep);
      if s[0] == sep then [""] + rest
      else [[s[0]] + rest[0]] + rest[1..]
  }

  /** `[String]::join` with a one-character separator. */
  function Join(parts: seq<string>, sep: char): string
    decreases |parts|
  {
    if |parts| == 0 then ""
    else if |parts| == 1 then parts[0]
    else parts[0] + [sep] + Join(parts[1..], sep)
  }

  /** Joining the pieces of a split gives the original text back. */
  lemma {:induction false} JoinSplit(s: string, sep: char)
    ensures Join(Split(s, sep), sep) == s
    decreases |s|
  {
    if |s| > 0 {
      JoinSplit(s[1..], sep);
      var rest := Split(s[1..], sep);
      if s[0] == sep {
        assert ([""] + rest)[1..] == rest;
      } else if |rest| > 1 {
        assert ([[s[0]] + rest[0]] + rest[1..])[1..] == rest[1..];
      }
    }
  }

  /** Splitting a join of separator-free pieces gives the pieces back. */
  lemma {:induction false} SplitJoin(parts: seq<string>, sep: char)
    requires |parts| >= 1
    requires forall i :: 0 <= i < |parts| ==> sep !in parts[i]
    ensures Split(Join(parts, sep), sep) == parts
    decreases |parts|
  {
    if |parts| == 1 {
      SplitFree(parts[0], sep);
    } else {
      SplitJoin(parts[1..], sep);
      SplitAtFirst(parts[0], sep, Join(parts[1..], sep));
      assert [parts[0]] + parts[1..] == parts;
    }
  }

  lemma {:induction false} SplitFree(s: string, sep: char)
    requires sep !in s
    ensures Split(s, sep) == [s]
    decreases |s|
  {
    if |s| > 0 {
      SplitFree(s[1..], sep);
      assert [s[0]] + s[1..] == s;
    }
  }

  lemma {:induction false} SplitAtFirst(a: string, sep: char, t: string)
    requires sep !in a
    ensures Split(a + [sep] + t, sep) == [a] + Split(t, sep)
    decreases |a|
  {
    var s := a + [sep] + t;
    if |a| == 0 {
      assert s[1..] == t;
    } else {
      assert s[1..] == a[1..] + [sep] + t;
      SplitAtFirst(a[1..], sep, t);
      assert [s[0]] + a[1..] == a;
    }
  }

  lemma {:induction false} JoinSnoc(parts: seq<string>, x: string, sep: char)
    requires |parts| >= 1
    ensures Join(parts + [x], sep) == Join(parts, sep) + [sep] + x
    decreases |parts|
  {
    if |parts| > 1 {
      assert (parts + [x])[1..] == parts[1..] + [x];
      JoinSnoc(parts[1..], x, sep);
    }
  }

  /** `str::lines` without carriage-return stripping: the pieces between line
      feeds, where a final line feed does not start an extra empty line (so
      the empty string has no lines). */
  function Lines(s: string): (r: seq<string>)
    ensures forall i :: 0 <= i < |r| ==> '\n' !in r[i]
  {
    var p := Split(s, '\n');
    if p[|p| - 1] == "" then p[..|p| - 1] else p
  }

  predicate EndsWithNewline(s: string) {
    |s| > 0 && s[|s| - 1] == '\n'
  }

  /** The lines of `s`, joined with line feeds, are `s` minus at most one
      final line feed. */
  lemma LinesJoin(s: string)
    ensures Join(Lines(s), '\n') + (if EndsWithNewline(s) then "\n" else "") == s
  {
    var p := Split(s, '\n');
    var n := |p|;
    JoinSplit(s, '\n');
    assert Join(p, '\n') == s;
    var last := p[n - 1];
    if n == 1 {
      assert s == last;
      if last == "" {
        assert Lines(s) == [];
      } else {
        assert Lines(s) == p;
        assert s[|s| - 1] == last[|last| - 1];
        assert '\n' !in last;
      }
    } else {
      assert p == p[..n - 1] + [last];
      JoinSnoc(p[..n - 1], last, '\n');
      var front := Join(p[..n - 1], '\n');
      assert s == front + "\n" + last;
      if last == "" {
        assert Lines(s) == p[..n - 1];
        assert EndsWithNewline(s);
      } else {
        assert Lines(s) == p;
        assert s[|s| - 1] == last[|last| - 1];
        assert '\n' !in last;
        assert !EndsWithNewline(s);
      }
    }
  }

  /** Trimming the lines of `s` joined back together is the same as
      trimming `s` itself. */
  lemma TrimJoinedLines(s: string)
    ensures Trim(Join(Lines(s), '\n')) == Trim(s)
  {
    var j := Join(Lines(s), '\n');
    LinesJoin(s);
    if EndsWithNewline(s) {
      assert j + "\n" == s;
      TrimIgnoresTrailingNewline(j);
    } else {
      assert j == s;
    }
  }

  /** Lines without line feeds, the last of them not empty, are the lines of
      their join. */
  lemma LinesOfJoin(parts: seq<string>)
    requires forall i :: 0 <= i < |parts| ==> '\n' !in parts[i]
    requires parts == [] || parts[|parts| - 1] != ""
    ensures Lines(Join(parts, '\n')) == parts
  {
    if parts == [] {
      assert Split("", '\n') == [""];
    } else {
      SplitJoin(parts, '\n');
    }
  }

  /** The lines of a string with no trailing line feed are exactly its split. */
  lemma LinesOfTrimmed(s: string)
    requires !EndsWithNewline(s)
    ensures Join(Lines(s), '\n') == s
  {
    LinesJoin(s);
  }
}
