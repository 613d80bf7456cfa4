/** The JavaScript string operations the rest of the model is built from:
    the `\s` character class, `trim`, `split`/`join`, `includes`,
    `startsWith` and `toLowerCase`. Strings are sequences of characters,
    one Unicode scalar value each; inside the Basic Multilingual Plane
    that is one UTF-16 code unit of the source. */
module Text {
  import opened Wrappers

  /** The characters JavaScript's `\s` and `String.prototype.trim` treat as
      white space: the ECMAScript WhiteSpace and LineTerminator sets. */
  predicate IsSpace(c: char) {
    || c == '\t' || c == '\n' || c == '\U{B}' || c == '\U{C}' || c == '\r' || c == ' '
    || c == '\U{A0}' || c == '\U{1680}' || ('\U{2000}' <= c <= '\U{200A}')
    || c == '\U{2028}' || c == '\U{2029}' || c == '\U{202F}' || c == '\U{205F}'
    || c == '\U{3000}' || c == '\U{FEFF}'
  }

  /** The characters after which `^` matches in a multiline regular expression. */
  predicate IsLineTerminator(c: char) {
    c == '\n' || c == '\r' || c == '\U{2028}' || c == '\U{2029}'
  }

  predicate AllSpace(s: string) {
    forall i :: 0 <= i < |s| ==> IsSpace(s[i])
  }

  predicate HasLineTerminator(s: string) {
    exists i :: 0 <= i < |s| && IsLineTerminator(s[i])
  }

  /** Length of the longest all-white-space prefix of `s`. */
  function WsRun(s: string): (n: nat)
    ensures n <= |s|
    ensures AllSpace(s[..n])
    ensures n < |s| ==> !IsSpace(s[n])
  {
    if |s| > 0 && IsSpace(s[0]) then 1 + WsRun(s[1..]) else 0
  }

  /** Length of the longest all-white-space suffix of `s`. */
  function TrailingWs(s: string): (n: nat)
    ensures n <= |s|
    ensures AllSpace(s[|s| - n..])
    ensures n < |s| ==> !IsSpace(s[|s| - 1 - n])
  {
    if |s| > 0 && IsSpace(s[|s| - 1]) then 1 + TrailingWs(s[..|s| - 1]) else 0
  }

  /** `s.trim()`: white space removed from both ends. */
  function Trim(s: string): (r: string)
    ensures WsRun(s) + |r| <= |s| && r == s[WsRun(s)..WsRun(s) + |r|]
    ensures AllSpace(s[WsRun(s) + |r|..])
    ensures r == [] <==> AllSpace(s)
    ensures r != [] ==> !IsSpace(r[0]) && !IsSpace(r[|r| - 1])
  {
    var i := WsRun(s);
    var a := s[i..];
    var j := TrailingWs(a);
    var r := a[..|a| - j];
    assert r == s[i..i + |r|];
    assert s[i + |r|..] == a[|a| - j..];
    assert AllSpace(s) ==> i == |s|;
    assert r == [] ==> i == |s| by {
      if i < |s| { assert a[0] == s[i]; }
    }
    assert s[..|s|] == s;
    r
  }

  /** The first character that is not white space, if any. */
  function FirstNonSpace(s: string): (r: Option<char>)
    ensures r == None <==> AllSpace(s)
  {
    if WsRun(s) < |s| then Some(s[WsRun(s)]) else None
  }

  lemma {:induction false} WsRunAfterSpaces(w: string, x: string)
    requires AllSpace(w)
    ensures WsRun(w + x) == |w| + WsRun(x)
  {
    if w == [] {
      assert w + x == x;
    } else {
      assert (w + x)[0] == w[0] && IsSpace(w[0]);
      assert (w + x)[1..] == w[1..] + x;
      WsRunAfterSpaces(w[1..], x);
    }
  }

  /** Leading white space does not change the first visible character. */
  lemma FirstNonSpaceAfterSpaces(w: string, x: string)
    requires AllSpace(w)
    ensures FirstNonSpace(w + x) == FirstNonSpace(x)
  {
    WsRunAfterSpaces(w, x);
  }

  /** The first visible character is the first character of the trimmed text. */
  lemma FirstNonSpaceIsTrimHead(s: string)
    ensures FirstNonSpace(s) == if Trim(s) == [] then None else Some(Trim(s)[0])
  {
  }

  /** Dropping a white-space prefix does not change the first visible character. */
  lemma FirstNonSpaceDrop(s: string, n: nat)
    requires n <= |s| && AllSpace(s[..n])
    ensures FirstNonSpace(s) == FirstNonSpace(s[n..])
  {
    assert s == s[..n] + s[n..];
    FirstNonSpaceAfterSpaces(s[..n], s[n..]);
  }

  /** Texts with the same first visible character keep it equal when the
      same character is put in front of both. */
  lemma FirstNonSpaceCons(c: char, x: string, y: string)
    requires FirstNonSpace(x) == FirstNonSpace(y)
    ensures FirstNonSpace([c] + x) == FirstNonSpace([c] + y)
  {
    if IsSpace(c) {
      FirstNonSpaceAfterSpaces([c], x);
      FirstNonSpaceAfterSpaces([c], y);
    } else {
      assert ([c] + x)[0] == c && ([c] + y)[0] == c;
    }
  }

  /** `s.startsWith(p)`. */
  predicate StartsWith(s: string, p: string) {
    |p| <= |s| && s[..|p|] == p
  }

  /** `s.includes(p)`: `p` occurs somewhere in `s`. */
  predicate Contains(s: string, p: string)
    decreases |s|
  {
    StartsWith(s, p) || (|s| > 0 && Contains(s[1..], p))
  }

  lemma {:induction false} ContainsAt(s: string, p: string, i: nat)
    requires i + |p| <= |s| && s[i..i + |p|] == p
    ensures Contains(s, p)
  {
    if i > 0 {
      assert s[1..][i - 1..i - 1 + |p|] == s[i..i + |p|];
      ContainsAt(s[1..], p, i - 1);
    }
  }

  /** An occurrence of `p` in the middle of a text is found by `includes`. */
  lemma ContainsInside(a: string, p: string, b: string)
    ensures Contains(a + p + b, p)
  {
    assert (a + p + b)[|a|..|a| + |p|] == p;
    ContainsAt(a + p + b, p, |a|);
  }

  /** Text put after does not hide an occurrence. */
  lemma {:induction false} ContainsExtend(a: string, b: string, p: string)
    requires Contains(a, p)
    ensures Contains(a + b, p)
    decreases |a|
  {
    if StartsWith(a, p) {
      assert (a + b)[..|p|] == a[..|p|];
    } else {
      ContainsExtend(a[1..], b, p);
      assert (a + b)[1..] == a[1..] + b;
    }
  }

  /** An occurrence of `p` inside a text that begins with characters other
      than `p[0]` lies in the rest of the text. */
  lemma {:induction false} ContainsSkip(x: string, t: string, p: string)
    requires |p| > 0 && p[0] !in x
    requires Contains(x + t, p)
    ensures Contains(t, p)
  {
    if x == [] {
      assert x + t == t;
    } else {
      assert (x + t)[0] == x[0] != p[0];
      assert !StartsWith(x + t, p);
      assert Contains((x + t)[1..], p);
      assert (x + t)[1..] == x[1..] + t;
      ContainsSkip(x[1..], t, p);
    }
  }

  /** Number of occurrences of `c` in `s`. */
  function Count(s: string, c: char): (n: nat)
    ensures n <= |s|
    ensures n == 0 <==> c !in s
  {
    if |s| == 0 then 0 else (if s[0] == c then 1 else 0) + Count(s[1..], c)
  }

  lemma {:induction false} CountAppend(a: string, b: string, c: char)
    ensures Count(a + b, c) == Count(a, c) + Count(b, c)
  {
    if a == [] {
      assert a + b == b;
    } else {
      assert (a + b)[0] == a[0];
      assert (a + b)[1..] == a[1..] + b;
      CountAppend(a[1..], b, c);
    }
  }

  /** Position of the last occurrence of `c` in `s`. */
  function LastIndexOf(s: string, c: char): (j: nat)
    requires c in s
    ensures j < |s| && s[j] == c && c !in s[j + 1..]
  {
    if s[|s| - 1] == c then |s| - 1
    else
      assert c in s[..|s| - 1] by {
        var k :| 0 <= k < |s| && s[k] == c;
        assert s[..|s| - 1][k] == c;
      }
      LastIndexOf(s[..|s| - 1], c)
  }

  /** `s.split(sep)` for a one-character separator: the pieces between the
      separators, as many as there are separators plus one. */
  function Split(s: string, sep: char): (parts: seq<string>)
    ensures |parts| == Count(s, sep) + 1
    ensures forall i :: 0 <= i < |parts| ==> sep !in parts[i]
  {
    if |s| == 0 then [[]]
    else if s[0] == sep then [[]] + Split(s[1..], sep)
    else
      var rest := Split(s[1..], sep);
      [[s[0]] + rest[0]] + rest[1..]
  }

  /** `parts.join(sep)`. */
  function Join(parts: seq<string>, sep: string): string {
    if |parts| == 0 then []
    else if |parts| == 1 then parts[0]
    else parts[0] + sep + Join(parts[1..], sep)
  }

  lemma JoinCons(p: string, rest: seq<string>, sep: string)
    requires |rest| > 0
    ensures Join([p] + rest, sep) == p + sep + Join(rest, sep)
  {
    assert ([p] + rest)[1..] == rest;
  }

  /** Putting a character in front of the first piece puts it in front of the joined text. */
  lemma JoinExtendHead(c: char, parts: seq<string>, sep: string)
    requires |parts| > 0
    ensures Join([[c] + parts[0]] + parts[1..], sep) == [c] + Join(parts, sep)
  {
    if |parts| > 1 {
      JoinCons([c] + parts[0], parts[1..], sep);
      JoinCons(parts[0], parts[1..], sep);
      assert [parts[0]] + parts[1..] == parts;
    }
  }

  /** Splitting and joining again with the same separator gives back the text. */
  lemma {:induction false} JoinSplit(s: string, sep: char)
    ensures Join(Split(s, sep), [sep]) == s
  {
    if |s| > 0 {
      JoinSplit(s[1..], sep);
      var rest := Split(s[1..], sep);
      if s[0] == sep {
        assert Split(s, sep) == [[]] + rest;
        JoinCons([], rest, [sep]);
      } else {
        assert Split(s, sep) == [[s[0]] + rest[0]] + rest[1..];
        JoinExtendHead(s[0], rest, [sep]);
      }
      assert [s[0]] + s[1..] == s;
    }
  }

  /** A text without the separator is one piece. */
  lemma {:induction false} SplitWithoutSeparator(s: string, sep: char)
    requires sep !in s
    ensures Split(s, sep) == [s]
  {
    if |s| > 0 {
      assert sep !in s[1..];
      SplitWithoutSeparator(s[1..], sep);
      assert [s[0]] + s[1..] == s;
    }
  }

  lemma {:induction false} SplitAtFirst(x: string, sep: char, y: string)
    requires sep !in x
    ensures Split(x + [sep] + y, sep) == [x] + Split(y, sep)
  {
    var s := x + [sep] + y;
    if x == [] {
      assert s[0] == sep && s[1..] == y;
    } else {
      assert s[0] == x[0] != sep;
      assert s[1..] == x[1..] + [sep] + y;
      assert sep !in x[1..];
      SplitAtFirst(x[1..], sep, y);
      var rest := Split(s[1..], sep);
      assert rest == [x[1..]] + Split(y, sep);
      assert Split(s, sep) == [[x[0]] + rest[0]] + rest[1..];
      assert [x[0]] + x[1..] == x;
      assert rest[1..] == Split(y, sep);
    }
  }

  /** Joining pieces that do not contain the separator and splitting again
      gives back the pieces. */
  lemma {:induction false} SplitJoin(parts: seq<string>, sep: char)
    requires |parts| > 0
    requires forall i :: 0 <= i < |parts| ==> sep !in parts[i]
    ensures Split(Join(parts, [sep]), sep) == parts
  {
    if |parts| == 1 {
      SplitWithoutSeparator(parts[0], sep);
    } else {
      SplitJoin(parts[1..], sep);
      SplitAtFirst(parts[0], sep, Join(parts[1..], [sep]));
      assert [parts[0]] + parts[1..] == parts;
    }
  }

  /** Every piece of a joined text occurs in it. */
  lemma {:induction false} JoinContainsPart(parts: seq<string>, sep: string, i: nat)
    requires i < |parts|
    ensures Contains(Join(parts, sep), parts[i])
  {
    if |parts| == 1 {
      assert StartsWith(Join(parts, sep), parts[0]);
    } else {
      var t := Join(parts[1..], sep);
      JoinCons(parts[0], parts[1..], sep);
      assert [parts[0]] + parts[1..] == parts;
      if i == 0 {
        ContainsPrefix(parts[0], sep + t);
        assert parts[0] + sep + t == parts[0] + (sep + t);
      } else {
        assert parts[1..][i - 1] == parts[i];
        JoinContainsPart(parts[1..], sep, i - 1);
        ContainsAfter(parts[0] + sep, t, parts[i]);
      }
    }
  }

  lemma ContainsPrefix(p: string, t: string)
    ensures Contains(p + t, p)
  {
    assert (p + t)[..|p|] == p;
  }

  /** Text put in front does not hide an occurrence. */
  lemma {:induction false} ContainsAfter(pre: string, t: string, p: string)
    requires Contains(t, p)
    ensures Contains(pre + t, p)
    decreases |pre|
  {
    if pre == [] {
      assert pre + t == t;
    } else {
      ContainsAfter(pre[1..], t, p);
      assert (pre + t)[1..] == pre[1..] + t;
    }
  }

  /** Where `includes` found `p`: the first position at which it occurs. */
  function IndexOf(s: string, p: string): (k: nat)
    requires Contains(s, p)
    ensures k + |p| <= |s| && s[k..k + |p|] == p
    ensures forall j :: 0 <= j < k ==> !StartsWith(s[j..], p)
    decreases |s|
  {
    if StartsWith(s, p) then 0
    else
      var k := IndexOf(s[1..], p);
      assert s[k + 1..k + 1 + |p|] == s[1..][k..k + |p|];
      assert forall j :: 1 <= j < k + 1 ==> s[j..] == s[1..][j - 1..];
      k + 1
  }

  /** `toLowerCase` on one character: Basic Latin and Latin-1 capitals. */
  function LowerChar(c: char): (r: char)
    ensures !('A' <= r <= 'Z')
    ensures ('A' <= c <= 'Z') ==> r as int == c as int + 32
  {
    if 'A' <= c <= 'Z' || ('\U{C0}' <= c <= '\U{DE}' && c != '\U{D7}') then
      (c as int + 32) as char
    else c
  }

  lemma LowerCharIdempotent(c: char)
    ensures LowerChar(LowerChar(c)) == LowerChar(c)
  {
  }

  /** `s.toLowerCase()`. */
  function Lower(s: string): (r: string)
    ensures |r| == |s|
    ensures forall i :: 0 <= i < |s| ==> r[i] == LowerChar(s[i])
    ensures forall i :: 0 <= i < |r| ==> !('A' <= r[i] <= 'Z')
  {
    seq(|s|, i requires 0 <= i < |s| => LowerChar(s[i]))
  }

  /** Lower-casing twice is lower-casing once. */
  lemma LowerIdempotent(s: string)
    ensures Lower(Lower(s)) == Lower(s)
  {
    forall i | 0 <= i < |s|
      ensures Lower(Lower(s))[i] == Lower(s)[i]
    {
      LowerCharIdempotent(s[i]);
    }
  }

  /** `s.replace(/pat/g, rep)` for a literal pattern: scanning from the left,
      every occurrence that does not overlap an earlier one is replaced. */
  function ReplaceAll(s: string, pat: string, rep: string): string
    requires |pat| > 0
    decreases |s|
  {
    if |s| < |pat| then s
    else if s[..|pat|] == pat then rep + ReplaceAll(s[|pat|..], pat, rep)
    else [s[0]] + ReplaceAll(s[1..], pat, rep)
  }

  lemma ContainsNeedsRoom(s: string, p: string)
    requires Contains(s, p)
    ensures |p| <= |s|
  {
    var k := IndexOf(s, p);
  }

  /** A text in which the pattern does not occur is left as it is. */
  lemma {:induction false} ReplaceAllAbsent(s: string, pat: string, rep: string)
    requires |pat| > 0 && !Contains(s, pat)
    ensures ReplaceAll(s, pat, rep) == s
  {
    if |s| >= |pat| {
      assert !StartsWith(s, pat);
      ReplaceAllAbsent(s[1..], pat, rep);
      assert [s[0]] + s[1..] == s;
    }
  }

  /** An occurrence preceded by text that cannot start one is replaced, and
      the scan goes on after it. */
  lemma {:induction false} ReplaceAllSplice(x: string, pat: string, y: string, rep: string)
    requires |pat| > 0 && pat[0] !in x
    ensures ReplaceAll(x + pat + y, pat, rep) == x + rep + ReplaceAll(y, pat, rep)
  {
    var s := x + pat + y;
    if x == [] {
      assert s == pat + y;
      assert s[..|pat|] == pat && s[|pat|..] == y;
    } else {
      assert s[0] == x[0];
      ReplaceAllSkip(s, pat, rep);
      assert s[1..] == x[1..] + pat + y;
      ReplaceAllSplice(x[1..], pat, y, rep);
      assert [x[0]] + (x[1..] + rep + ReplaceAll(y, pat, rep)) == x + rep + ReplaceAll(y, pat, rep);
    }
  }

  /** A character that cannot start the pattern is copied. */
  lemma ReplaceAllSkip(s: string, pat: string, rep: string)
    requires |pat| > 0 && |s| > 0 && s[0] != pat[0]
    ensures ReplaceAll(s, pat, rep) == [s[0]] + ReplaceAll(s[1..], pat, rep)
  {
    if |s| >= |pat| {
      assert s[..|pat|][0] == s[0];
    }
  }

  /** Replacing a two-character pattern whose characters differ, by a
      non-empty text that neither contains its first character nor starts
      with its second, leaves no occurrence behind. */
  lemma {:induction false} ReplaceAllLeavesNone(s: string, pat: string, rep: string)
    requires |pat| == 2 && pat[0] != pat[1]
    requires |rep| > 0 && pat[0] !in rep && rep[0] != pat[1]
    ensures !Contains(ReplaceAll(s, pat, rep), pat)
    decreases |s|
  {
    var r := ReplaceAll(s, pat, rep);
    if |s| < 2 {
      if Contains(r, pat) { ContainsNeedsRoom(r, pat); }
    } else if s[..2] == pat {
      ReplaceAllLeavesNone(s[2..], pat, rep);
      if Contains(r, pat) { ContainsSkip(rep, ReplaceAll(s[2..], pat, rep), pat); }
    } else {
      var t := ReplaceAll(s[1..], pat, rep);
      ReplaceAllLeavesNone(s[1..], pat, rep);
      assert r == [s[0]] + t;
      assert r[1..] == t;
    }
  }

  /** `s.replace(/[...]/g, '')`: the characters of `bad` deleted. */
  function DeleteChars(s: string, bad: set<char>): (r: string)
    ensures |r| <= |s|
    ensures forall i :: 0 <= i < |r| ==> r[i] !in bad && r[i] in s
  {
    if |s| == 0 then []
    else if s[0] in bad then DeleteChars(s[1..], bad)
    else [s[0]] + DeleteChars(s[1..], bad)
  }

  lemma {:induction false} DeleteCharsAppend(a: string, b: string, bad: set<char>)
    ensures DeleteChars(a + b, bad) == DeleteChars(a, bad) + DeleteChars(b, bad)
  {
    if a == [] {
      assert a + b == b;
    } else {
      assert (a + b)[0] == a[0] && (a + b)[1..] == a[1..] + b;
      DeleteCharsAppend(a[1..], b, bad);
    }
  }

  /** Deleting characters that do not occur changes nothing. */
  lemma {:induction false} DeleteCharsAbsent(s: string, bad: set<char>)
    requires forall i :: 0 <= i < |s| ==> s[i] !in bad
    ensures DeleteChars(s, bad) == s
  {
    if s != [] {
      DeleteCharsAbsent(s[1..], bad);
      assert [s[0]] + s[1..] == s;
    }
  }
}
