/** The clean-up the knowledge-construction flow applies to the mind map and
    the smart notes the language model returns: JSON bracket and escape
    artefacts are removed, headings and list markers get their missing
    space, the text gets a title, and blank-line runs are collapsed. Each
    regular-expression stage of `processMarkdown` becomes its own function. */
module KnowledgeConstruction {
  import opened Wrappers
  import opened Text

  // ---------------------------------------------------------------------
  // Stage 1: JSON brackets around the whole text
  // ---------------------------------------------------------------------

  /** `replace(/^\s*\[\s*\/, '')`: a `[` that is the first visible character
      is removed together with the white space before and after it. */
  function StripLeadingBracket(s: string): (r: string)
    ensures |r| <= |s| && r == s[|s| - |r|..]
    ensures FirstNonSpace(s) != Some('[') ==> r == s
    ensures FirstNonSpace(s) == Some('[') ==>
              var w := WsRun(s);
              w < |s| - |r| && s[w] == '[' && AllSpace(s[w + 1..|s| - |r|]) && StartsVisible(r)
  {
    var w := WsRun(s);
    if w < |s| && s[w] == '[' then
      var t := s[w + 1..];
      var r := t[WsRun(t)..];
      assert s[w + 1..|s| - |r|] == t[..WsRun(t)];
      r
    else s
  }

  /** The text is empty or starts with a visible character. */
  predicate StartsVisible(v: string) {
    v == [] || !IsSpace(v[0])
  }

  /** The text is empty or ends with a visible character. */
  predicate EndsVisible(v: string) {
    v == [] || !IsSpace(v[|v| - 1])
  }

  /** `replace(/\s*\]\s*$/, '')`: a `]` that is the last visible character is
      removed together with the white space before and after it; the leftmost
      match starts where the white space before the `]` starts. */
  function StripTrailingBracket(s: string): (r: string)
    ensures |r| <= |s| && r == s[..|r|]
    ensures LastNonSpace(s) != Some(']') ==> r == s
    ensures LastNonSpace(s) == Some(']') ==>
              var j := |s| - 1 - TrailingWs(s);
              |r| <= j && s[j] == ']' && AllSpace(s[|r|..j]) && EndsVisible(r)
  {
    var v := TrailingWs(s);
    if v < |s| && s[|s| - 1 - v] == ']' then
      var u := s[..|s| - 1 - v];
      var k := |u| - TrailingWs(u);
      assert s[k..|s| - 1 - v] == u[k..];
      assert u[..k] == s[..k];
      assert k > 0 ==> u[..k][k - 1] == u[k - 1];
      u[..k]
    else s
  }

  /** The last character that is not white space, if any. */
  function LastNonSpace(s: string): (r: Option<char>)
    ensures r == None <==> AllSpace(s)
    ensures r.Some? ==> r.value == s[|s| - 1 - TrailingWs(s)] && !IsSpace(r.value)
  {
    if TrailingWs(s) < |s| then Some(s[|s| - 1 - TrailingWs(s)])
    else
      assert s[|s| - TrailingWs(s)..] == s;
      None
  }

  // ---------------------------------------------------------------------
  // Stage 2: escape sequences left over from JSON
  // ---------------------------------------------------------------------

  const Backslash: char := '\\'

  /** The three literal replacements: `\n` to a line break, `\"` to `"`,
      and a doubled backslash to a single one, in that order. */
  function UnescapeLiterals(s: string): string {
    var a := ReplaceAll(s, [Backslash, 'n'], "\n");
    var b := ReplaceAll(a, [Backslash, '"'], "\"");
    ReplaceAll(b, [Backslash, Backslash], [Backslash])
  }

  /** After the first replacement no backslash-`n` pair is left. */
  lemma NoLiteralNewlineLeft(s: string)
    ensures !Contains(ReplaceAll(s, [Backslash, 'n'], "\n"), [Backslash, 'n'])
  {
    ReplaceAllLeavesNone(s, [Backslash, 'n'], "\n");
  }

  /** A `\n` pair (resp. `\"` pair) not preceded by a backslash becomes a
      line break (resp. a double quote). */
  lemma EscapedPairsBecomeCharacters(x: string, y: string)
    requires Backslash !in x
    ensures ReplaceAll(x + [Backslash, 'n'] + y, [Backslash, 'n'], "\n")
            == x + "\n" + ReplaceAll(y, [Backslash, 'n'], "\n")
    ensures ReplaceAll(x + [Backslash, '"'] + y, [Backslash, '"'], "\"")
            == x + "\"" + ReplaceAll(y, [Backslash, '"'], "\"")
  {
    ReplaceAllSplice(x, [Backslash, 'n'], y, "\n");
    ReplaceAllSplice(x, [Backslash, '"'], y, "\"");
  }

  /** `replace(/\\([^\\])/g, '$1')`: a backslash followed by any other
      character is dropped. */
  function DropEscapes(s: string): string
    decreases |s|
  {
    if |s| == 0 then []
    else if |s| >= 2 && s[0] == Backslash && s[1] != Backslash then [s[1]] + DropEscapes(s[2..])
    else [s[0]] + DropEscapes(s[1..])
  }

  /** Dropping escapes removes backslashes and nothing else. */
  lemma {:induction false} DropEscapesRemovesOnlyBackslashes(s: string)
    ensures DeleteChars(DropEscapes(s), {Backslash}) == DeleteChars(s, {Backslash})
    ensures |DropEscapes(s)| <= |s|
    decreases |s|
  {
    if |s| >= 2 && s[0] == Backslash && s[1] != Backslash {
      DropEscapesRemovesOnlyBackslashes(s[2..]);
      assert s == [s[0], s[1]] + s[2..];
      DeleteCharsAppend([s[0], s[1]], s[2..], {Backslash});
      DeleteCharsAppend([s[1]], DropEscapes(s[2..]), {Backslash});
    } else if |s| > 0 {
      DropEscapesRemovesOnlyBackslashes(s[1..]);
      assert s == [s[0]] + s[1..];
      DeleteCharsAppend([s[0]], s[1..], {Backslash});
      DeleteCharsAppend([s[0]], DropEscapes(s[1..]), {Backslash});
    }
  }

  /** A backslash before any other character is dropped, and the scan goes
      on after that character. */
  lemma {:induction false} DropEscapesDropsBackslash(x: string, c: char, y: string)
    requires Backslash !in x && c != Backslash
    ensures DropEscapes(x + [Backslash, c] + y) == x + [c] + DropEscapes(y)
    decreases |x|
  {
    var s := x + [Backslash, c] + y;
    if |x| == 0 {
      assert s[2..] == y;
    } else {
      assert Backslash !in x[1..];
      DropEscapesDropsBackslash(x[1..], c, y);
      assert s[1..] == x[1..] + [Backslash, c] + y;
      assert [x[0]] + x[1..] == x;
    }
  }

  /** A text without backslashes is left as it is. */
  lemma {:induction false} DropEscapesWithoutBackslash(s: string)
    requires Backslash !in s
    ensures DropEscapes(s) == s
    decreases |s|
  {
    if |s| > 0 {
      assert Backslash !in s[1..];
      DropEscapesWithoutBackslash(s[1..]);
      assert [s[0]] + s[1..] == s;
    }
  }

  // ---------------------------------------------------------------------
  // Stage 3: line-wise fixes (multiline `^`)
  // ---------------------------------------------------------------------

  /** Index of the first line terminator, or the length of the text. */
  function LineEnd(s: string): (k: nat)
    ensures k <= |s| && !HasLineTerminator(s[..k])
    ensures k < |s| ==> IsLineTerminator(s[k])
  {
    if |s| == 0 || IsLineTerminator(s[0]) then 0
    else
      var k := 1 + LineEnd(s[1..]);
      assert s[..k] == [s[0]] + s[1..][..k - 1];
      k
  }

  /** A replacement anchored with `^` under the `m` flag whose match cannot
      cross a line terminator rewrites every line on its own: `f` is applied
      to each line and the terminators are kept. */
  function MapLines(f: string -> string, s: string): string
    decreases |s|
  {
    var k := LineEnd(s);
    if k == |s| then f(s) else f(s[..k]) + [s[k]] + MapLines(f, s[k + 1..])
  }

  /** `f` maps a line to a line and is idempotent on lines. */
  ghost predicate LineRewrite(f: string -> string) {
    forall l :: !HasLineTerminator(l) ==> !HasLineTerminator(f(l)) && f(f(l)) == f(l)
  }

  lemma LineEndOfLine(l: string, t: char, rest: string)
    requires !HasLineTerminator(l) && IsLineTerminator(t)
    ensures LineEnd(l + [t] + rest) == |l|
    ensures (l + [t] + rest)[..|l|] == l && (l + [t] + rest)[|l| + 1..] == rest
  {
    var s := l + [t] + rest;
    assert s[|l|] == t;
    assert forall i :: 0 <= i < |l| ==> s[i] == l[i];
  }

  /** Rewriting every line with an idempotent line rewrite is idempotent. */
  lemma {:induction false} MapLinesIdempotent(f: string -> string, s: string)
    requires LineRewrite(f)
    ensures MapLines(f, MapLines(f, s)) == MapLines(f, s)
    decreases |s|
  {
    var k := LineEnd(s);
    var line := s[..k];
    assert !HasLineTerminator(f(line)) && f(f(line)) == f(line);
    if k == |s| {
      assert line == s;
    } else {
      MapLinesIdempotent(f, s[k + 1..]);
      LineEndOfLine(f(line), s[k], MapLines(f, s[k + 1..]));
    }
  }

  /** Number of `#` characters at the start of a line. */
  function HashRun(l: string): (n: nat)
    ensures n <= |l|
    ensures forall i :: 0 <= i < n ==> l[i] == '#'
    ensures n < |l| ==> l[n] != '#'
  {
    if |l| > 0 && l[0] == '#' then 1 + HashRun(l[1..]) else 0
  }

  /** A line that `/^(#+)([^\s#])/` matches: hashes directly followed by a
      visible character. */
  predicate BareHeading(l: string) {
    0 < HashRun(l) < |l| && !IsSpace(l[HashRun(l)])
  }

  lemma NoTerminatorInsert(a: string, c: char, b: string)
    requires !HasLineTerminator(a + b) && !IsLineTerminator(c)
    ensures !HasLineTerminator(a + [c] + b)
  {
    var r := a + [c] + b;
    forall i | 0 <= i < |r| ensures !IsLineTerminator(r[i]) {
      if i < |a| { assert r[i] == (a + b)[i]; }
      else if i > |a| { assert r[i] == (a + b)[i - 1]; }
    }
  }

  /** `replace(/^(#+)([^\s#])/gm, '$1 $2')` on one line: a space is put
      between the hashes and the heading text. */
  function FixHeadingLine(l: string): (r: string)
    ensures !BareHeading(r)
    ensures r == l || (BareHeading(l) && r == l[..HashRun(l)] + " " + l[HashRun(l)..])
    ensures !HasLineTerminator(l) ==> !HasLineTerminator(r)
  {
    var h := HashRun(l);
    if 0 < h < |l| && !IsSpace(l[h]) then
      var r := l[..h] + " " + l[h..];
      assert r[h] == ' ';
      assert forall i :: 0 <= i < h ==> r[i] == '#';
      assert l == l[..h] + l[h..];
      assert !HasLineTerminator(l) ==> !HasLineTerminator(r) by {
        if !HasLineTerminator(l) { NoTerminatorInsert(l[..h], ' ', l[h..]); }
      }
      r
    else l
  }

  /** A line that `/^([*-])([^\s*-])/` matches: a list marker directly
      followed by a visible character other than `*` and `-`. */
  predicate BareListItem(l: string) {
    |l| >= 2 && (l[0] == '-' || l[0] == '*') && !IsSpace(l[1]) && l[1] != '*' && l[1] != '-'
  }

  /** `replace(/^([*-])([^\s*-])/gm, '$1 $2')` on one line: a space is put
      between the list marker and the item text. */
  function FixListLine(l: string): (r: string)
    ensures !BareListItem(r)
    ensures r == l || (BareListItem(l) && r == l[..1] + " " + l[1..])
    ensures !HasLineTerminator(l) ==> !HasLineTerminator(r)
  {
    if BareListItem(l) then
      var r := l[..1] + " " + l[1..];
      assert l == l[..1] + l[1..];
      assert !HasLineTerminator(l) ==> !HasLineTerminator(r) by {
        if !HasLineTerminator(l) { NoTerminatorInsert(l[..1], ' ', l[1..]); }
      }
      r
    else l
  }

  function FixHeadings(s: string): string {
    MapLines(FixHeadingLine, s)
  }

  function FixListMarkers(s: string): string {
    MapLines(FixListLine, s)
  }

  /** Heading repair is idempotent: no heading is left without its space. */
  lemma FixHeadingsIdempotent(s: string)
    ensures FixHeadings(FixHeadings(s)) == FixHeadings(s)
  {
    assert LineRewrite(FixHeadingLine);
    MapLinesIdempotent(FixHeadingLine, s);
  }

  /** List-marker repair is idempotent. */
  lemma FixListMarkersIdempotent(s: string)
    ensures FixListMarkers(FixListMarkers(s)) == FixListMarkers(s)
  {
    assert LineRewrite(FixListLine);
    MapLinesIdempotent(FixListLine, s);
  }

  // ---------------------------------------------------------------------
  // Stage 4: the title
  // ---------------------------------------------------------------------

  /** When the trimmed text does not start with `#`, its first line becomes
      an H1 followed by a blank line; the text is then the trimmed one. */
  function Titled(s: string): string {
    var t := Trim(s);
    if |t| > 0 && t[0] == '#' then s
    else
      var lines := Split(t, '\n');
      if |lines[0]| > 0 then WithTitle(lines) else s
  }

  /** The lines joined again, the first one turned into an H1. */
  function WithTitle(lines: seq<string>): string
    requires |lines| > 0
  {
    "# " + lines[0] + "\n\n" + Join(lines[1..], "\n")
  }

  /** A text that does not start with a line feed has a non-empty first line. */
  lemma FirstLineNotEmpty(t: string)
    requires t != [] && t[0] != '\n'
    ensures Split(t, '\n')[0] != []
  {
  }

  /** The first part of a split is a prefix, and the rest of the text is the
      separator followed by the other parts. */
  lemma SplitHead(t: string, sep: char)
    ensures var parts := Split(t, sep);
            var h := parts[0];
            |h| <= |t| && t[..|h|] == h
            && (|parts| == 1 ==> h == t)
            && (|parts| > 1 ==> t[|h|..] == [sep] + Join(parts[1..], [sep]))
  {
    var parts := Split(t, sep);
    JoinSplit(t, sep);
    if |parts| > 1 {
      JoinCons(parts[0], parts[1..], [sep]);
      assert [parts[0]] + parts[1..] == parts;
    }
  }

  /** A text that is not blank gets a title: its first visible character is `#`. */
  lemma TitledStartsWithHash(s: string)
    requires !AllSpace(s)
    ensures FirstNonSpace(Titled(s)) == Some('#')
  {
    var t := Trim(s);
    FirstNonSpaceIsTrimHead(s);
    if !(|t| > 0 && t[0] == '#') {
      FirstLineNotEmpty(t);
      assert Titled(s) == WithTitle(Split(t, '\n'));
      WithTitleStartsWithHash(Split(t, '\n'));
    }
  }

  /** A blank text, and a text whose trimmed form already opens with `#`,
      are returned as they are. */
  lemma TitledUnchanged(s: string)
    requires AllSpace(s) || Trim(s)[0] == '#'
    ensures Titled(s) == s
  {
    if AllSpace(s) {
      assert Trim(s) == [];
      assert Split([], '\n') == [[]];
    }
  }

  lemma WithTitleStartsWithHash(lines: seq<string>)
    requires |lines| > 0
    ensures FirstNonSpace(WithTitle(lines)) == Some('#')
  {
    assert WithTitle(lines)[0] == '#';
  }

  /** The rewritten title keeps the text: the H1 is the first line of the
      trimmed text, and the rest of it follows after one extra line break. */
  lemma TitleKeepsText(s: string)
    requires !AllSpace(s) && Trim(s)[0] != '#'
    ensures var t := Trim(s);
            var first := Split(t, '\n')[0];
            |first| <= |t| && t[..|first|] == first
            && Titled(s) == "# " + first + "\n" + (if |first| == |t| then "\n" else t[|first|..])
  {
    var t := Trim(s);
    FirstLineNotEmpty(t);
    assert Titled(s) == WithTitle(Split(t, '\n'));
    WithTitleKeepsText(t);
  }

  lemma WithTitleKeepsText(t: string)
    ensures var lines := Split(t, '\n');
            var first := lines[0];
            |first| <= |t| && t[..|first|] == first
            && WithTitle(lines) == "# " + first + "\n" + (if |first| == |t| then "\n" else t[|first|..])
  {
    var lines := Split(t, '\n');
    SplitHead(t, '\n');
    var rest := Join(lines[1..], "\n");
    if |lines| > 1 {
      TitleBreakAssoc(lines[0], rest);
    }
  }

  lemma TitleBreakAssoc(first: string, rest: string)
    ensures "# " + first + "\n\n" + rest == "# " + first + "\n" + ("\n" + rest)
  {
  }

  // ---------------------------------------------------------------------
  // Stage 5: blank-line runs and isolated brackets
  // ---------------------------------------------------------------------

  /** Number of line feeds in the white space at the start of `t`. */
  function RunNewlines(t: string): nat
    decreases |t|
  {
    if |t| > 0 && IsSpace(t[0]) then (if t[0] == '\n' then 1 else 0) + RunNewlines(t[1..]) else 0
  }

  /** The line feeds of a white-space prefix add up with those after it. */
  lemma {:induction false} RunNewlinesAppend(w: string, v: string)
    requires AllSpace(w)
    ensures RunNewlines(w + v) == RunNewlines(w) + RunNewlines(v)
    decreases |w|
  {
    if w == [] {
      assert w + v == v;
    } else {
      assert (w + v)[1..] == w[1..] + v;
      RunNewlinesAppend(w[1..], v);
    }
  }

  /** Length of the white space at the start of `t` up to and including its
      last line feed, 0 when it holds none. */
  function LastNewlineEnd(t: string): (m: nat)
    ensures m <= |t| && AllSpace(t[..m])
    ensures m > 0 ==> t[m - 1] == '\n'
    ensures RunNewlines(t[m..]) == 0
    ensures m == 0 ==> RunNewlines(t) == 0
    ensures RunNewlines(t) > 0 ==> m > 0
    decreases |t|
  {
    if |t| > 0 && IsSpace(t[0]) then
      var r := LastNewlineEnd(t[1..]);
      assert t[1..][r..] == t[1 + r..];
      assert t[..1 + r] == [t[0]] + t[1..][..r];
      if r > 0 then r + 1 else if t[0] == '\n' then 1 else 0
    else 0
  }

  /** Length of the match of `/\n\s*\n\s*\n/` at the start of the text, 0 if
      none. The greedy match takes the line feed, then the following white
      space up to its last line feed, provided that white space holds two
      line feeds. */
  function BlankRunLength(s: string): (n: nat)
    ensures n <= |s|
    ensures n > 0 <==> |s| > 0 && s[0] == '\n' && RunNewlines(s[1..]) >= 2
    ensures n > 0 ==> n >= 3 && s[0] == '\n' && s[n - 1] == '\n' && AllSpace(s[..n]) && RunNewlines(s[n..]) == 0
  {
    if |s| > 0 && s[0] == '\n' && RunNewlines(s[1..]) >= 2 then
      var m := LastNewlineEnd(s[1..]);
      assert s[..1 + m] == [s[0]] + s[1..][..m];
      assert s[1 + m..] == s[1..][m..];
      1 + m
    else 0
  }

  /** `replace(/\n\s*\n\s*\n/g, '\n\n')`: every run of white space that holds
      three line feeds and starts and ends with one becomes a blank line. */
  function CollapseBlankRuns(s: string): string
    decreases |s|
  {
    if |s| == 0 then []
    else if BlankRunLength(s) > 0 then "\n\n" + CollapseBlankRuns(s[BlankRunLength(s)..])
    else [s[0]] + CollapseBlankRuns(s[1..])
  }

  /** Collapsing never changes the first visible character. */
  lemma {:induction false} CollapseKeepsFirstVisible(s: string)
    ensures FirstNonSpace(CollapseBlankRuns(s)) == FirstNonSpace(s)
    decreases |s|
  {
    if |s| > 0 {
      var n := BlankRunLength(s);
      if n > 0 {
        CollapseKeepsFirstVisible(s[n..]);
        FirstNonSpaceDrop(s, n);
        FirstNonSpaceAfterSpaces("\n\n", CollapseBlankRuns(s[n..]));
      } else {
        CollapseKeepsFirstVisible(s[1..]);
        FirstNonSpaceCons(s[0], s[1..], CollapseBlankRuns(s[1..]));
        assert s == [s[0]] + s[1..];
      }
    }
  }

  /** No match starts in a white-space run with at most two line feeds that
      is followed by a visible character. */
  lemma NoBlankRun(w: string, v: string)
    requires AllSpace(w) && w != [] && RunNewlines(w) <= 2 && StartsVisible(v)
    ensures BlankRunLength(w + v) == 0
  {
    if w[0] == '\n' {
      assert (w + v)[1..] == w[1..] + v;
      RunNewlinesAppend(w[1..], v);
    }
  }

  /** A white-space run with at most two line feeds, followed by a visible
      character, is left alone. */
  lemma {:induction false} CollapseShortRun(w: string, v: string)
    requires AllSpace(w) && RunNewlines(w) <= 2 && StartsVisible(v)
    ensures CollapseBlankRuns(w + v) == w + CollapseBlankRuns(v)
    decreases |w|
  {
    if w == [] {
      assert w + v == v;
    } else {
      NoBlankRun(w, v);
      CollapseStep(w + v);
      assert (w + v)[1..] == w[1..] + v;
      RunNewlinesTail(w);
      CollapseShortRun(w[1..], v);
      ConsAssoc(w, CollapseBlankRuns(v));
    }
  }

  lemma RunNewlinesTail(w: string)
    requires AllSpace(w) && w != []
    ensures AllSpace(w[1..]) && RunNewlines(w[1..]) <= RunNewlines(w)
  {
  }

  /** Outside a match one character is copied. */
  lemma CollapseStep(s: string)
    requires |s| > 0 && BlankRunLength(s) == 0
    ensures CollapseBlankRuns(s) == [s[0]] + CollapseBlankRuns(s[1..])
  {
  }

  lemma ConsAssoc(w: string, r: string)
    requires w != []
    ensures [w[0]] + (w[1..] + r) == w + r
  {
    assert w == [w[0]] + w[1..];
  }

  lemma CollapseStartsVisible(v: string)
    requires StartsVisible(v)
    ensures StartsVisible(CollapseBlankRuns(v))
  {
  }

  /** At a match the output is a blank line, the white space `w` left
      before the next visible character (which holds no line feed), and the
      collapsed rest. */
  lemma CollapseAtMatch(s: string, w: string, v: string)
    requires BlankRunLength(s) > 0 && s[BlankRunLength(s)..] == w + v
    requires AllSpace(w) && StartsVisible(v)
    ensures CollapseBlankRuns(s) == ("\n\n" + w) + CollapseBlankRuns(v)
  {
    RunNewlinesAppend(w, v);
    CollapseShortRun(w, v);
    assert CollapseBlankRuns(s) == "\n\n" + CollapseBlankRuns(w + v);
  }

  /** The white space kept at a match or after a line feed holds at most
      two line feeds. */
  lemma KeptRunNewlines(s: string, w: string, v: string)
    requires |s| > 0 && s[0] == '\n' && AllSpace(w) && StartsVisible(v)
    requires BlankRunLength(s) > 0 ==> s[BlankRunLength(s)..] == w + v
    requires BlankRunLength(s) == 0 ==> s[1..] == w + v
    ensures var pre := if BlankRunLength(s) > 0 then "\n\n" + w else [s[0]] + w;
            AllSpace(pre) && RunNewlines(pre) <= 2
  {
    RunNewlinesAppend(w, v);
    if BlankRunLength(s) > 0 {
      RunNewlinesAppend("\n\n", w);
    } else {
      RunNewlinesAppend([s[0]], w);
    }
  }

  /** A line feed that starts no match is kept together with the white space
      `w` after it. */
  lemma CollapseAtLineFeed(s: string, w: string, v: string)
    requires |s| > 0 && s[0] == '\n' && BlankRunLength(s) == 0 && s[1..] == w + v
    requires AllSpace(w) && StartsVisible(v)
    ensures CollapseBlankRuns(s) == ([s[0]] + w) + CollapseBlankRuns(v)
  {
    RunNewlinesAppend(w, v);
    CollapseShortRun(w, v);
    assert CollapseBlankRuns(s) == [s[0]] + CollapseBlankRuns(w + v);
  }

  /** Collapsing blank-line runs is idempotent. */
  lemma {:induction false} CollapseIdempotent(s: string)
    ensures CollapseBlankRuns(CollapseBlankRuns(s)) == CollapseBlankRuns(s)
    decreases |s|
  {
    if |s| > 0 {
      var n := BlankRunLength(s);
      if n > 0 || s[0] == '\n' {
        var t := if n > 0 then s[n..] else s[1..];
        var w, v := t[..WsRun(t)], t[WsRun(t)..];
        assert t == w + v;
        var pre;
        if n > 0 {
          CollapseAtMatch(s, w, v);
          pre := "\n\n" + w;
        } else {
          CollapseAtLineFeed(s, w, v);
          pre := [s[0]] + w;
        }
        KeptRunNewlines(s, w, v);
        CollapseIdempotent(v);
        CollapseStartsVisible(v);
        CollapseShortRun(pre, CollapseBlankRuns(v));
      } else {
        CollapseIdempotent(s[1..]);
        var t := CollapseBlankRuns(s[1..]);
        assert CollapseBlankRuns(s) == [s[0]] + t;
        assert ([s[0]] + t)[1..] == t;
      }
    }
  }

  lemma NoTerminatorAppend(a: string, c: char)
    requires !HasLineTerminator(a) && !IsLineTerminator(c)
    ensures !HasLineTerminator(a + [c])
  {
    var r := a + [c];
    forall i | 0 <= i < |r| ensures !IsLineTerminator(r[i]) {
      if i < |a| { assert r[i] == a[i]; }
    }
  }

  /** Index of the last line terminator of `s`. */
  function LastLineTerminator(s: string): (j: nat)
    requires HasLineTerminator(s)
    ensures j < |s| && IsLineTerminator(s[j]) && !HasLineTerminator(s[j + 1..])
  {
    var last := |s| - 1;
    if IsLineTerminator(s[last]) then last
    else
      var u := s[..last];
      assert HasLineTerminator(u) by {
        var k :| 0 <= k < |s| && IsLineTerminator(s[k]);
        assert u[k] == s[k];
      }
      var j := LastLineTerminator(u);
      assert s[j + 1..] == u[j + 1..] + [s[last]];
      NoTerminatorAppend(u[j + 1..], s[last]);
      j
  }

  lemma AllSpacePrefix(t: string, v: nat, j: nat)
    requires j <= v <= |t| && AllSpace(t[..v])
    ensures AllSpace(t[..j])
  {
    assert forall k :: 0 <= k < j ==> t[..j][k] == t[..v][k];
  }

  /** `s[..n]` is the leading white space, the bracket, and white space. */
  predicate BracketLine(s: string, b: char, n: nat) {
    n <= |s| && WsRun(s) < n && s[WsRun(s)] == b && AllSpace(s[WsRun(s) + 1..n])
  }

  /** End of the white space that follows the first visible character. */
  function TrailEnd(s: string): (u: nat)
    ensures u <= |s|
  {
    var w := WsRun(s);
    if w < |s| then w + 1 + WsRun(s[w + 1..]) else |s|
  }

  /** `/^\s*b\s*$/m` matches at the start of `s`: the first visible character
      is `b`, and the white space after it reaches the end of the text or
      holds a line terminator. */
  predicate BracketMatches(s: string, b: char) {
    var w := WsRun(s);
    w < |s| && s[w] == b && (TrailEnd(s) == |s| || HasLineTerminator(s[w + 1..TrailEnd(s)]))
  }

  /** `\s*$` stops at `n`: the end of the text when the trailing white space
      (which ends at `u`) reaches it, and otherwise just before the last line
      terminator of that white space. */
  predicate EndsAtLineEnd(s: string, n: nat, u: nat) {
    n <= u <= |s| &&
    ((n == |s| && u == |s|) || (u < |s| && n < u && IsLineTerminator(s[n]) && !HasLineTerminator(s[n + 1..u])))
  }

  /** Length of the match of `/^\s*b\s*$/m` at a line start, 0 if none. The
      leading white space is taken whole (a shorter run would not be followed
      by `b`); the trailing white space is taken whole if it reaches the end
      of the text, and otherwise up to its last line terminator. */
  function BracketLineLength(s: string, b: char): (n: nat)
    requires !IsSpace(b)
    ensures n <= |s|
    ensures n > 0 <==> BracketMatches(s, b)
    ensures n > 0 ==> BracketLine(s, b, n) && EndsAtLineEnd(s, n, TrailEnd(s))
  {
    var w := WsRun(s);
    if w < |s| && s[w] == b then
      var t := s[w + 1..];
      var v := WsRun(t);
      assert TrailEnd(s) == w + 1 + v;
      assert s[w + 1..w + 1 + v] == t[..v];
      if v == |t| then
        assert s[w + 1..|s|] == t;
        |s|
      else if HasLineTerminator(t[..v]) then
        var j := LastLineTerminator(t[..v]);
        AllSpacePrefix(t, v, j);
        assert t[..j] == s[w + 1..w + 1 + j];
        assert s[w + 1 + j] == t[..v][j];
        assert s[w + 1 + j + 1..w + 1 + v] == t[..v][j + 1..];
        w + 1 + j
      else 0
    else 0
  }

  /** `replace(/^\s*b\s*$/gm, '')`. `bol` says whether the scan position is a
      line start, that is whether the character before it in the original
      text is a line terminator. */
  function StripBracketLines(s: string, b: char, bol: bool): string
    requires !IsSpace(b)
    decreases |s|
  {
    if |s| == 0 then []
    else
      var n := if bol then BracketLineLength(s, b) else 0;
      if n > 0 then StripBracketLines(s[n..], b, IsLineTerminator(s[n - 1]))
      else [s[0]] + StripBracketLines(s[1..], b, IsLineTerminator(s[0]))
  }

  /** A text without the bracket is left as it is. */
  lemma {:induction false} StripBracketLinesAbsent(s: string, b: char, bol: bool)
    requires !IsSpace(b) && b !in s
    ensures StripBracketLines(s, b, bol) == s
    decreases |s|
  {
    if |s| > 0 {
      assert b !in s[1..];
      StripBracketLinesAbsent(s[1..], b, IsLineTerminator(s[0]));
      assert [s[0]] + s[1..] == s;
    }
  }

  /** The characters that are neither white space nor the bracket. */
  function Visible(s: string, b: char): string
    decreases |s|
  {
    if |s| == 0 then []
    else if IsSpace(s[0]) || s[0] == b then Visible(s[1..], b)
    else [s[0]] + Visible(s[1..], b)
  }

  lemma {:induction false} VisibleAppend(x: string, y: string, b: char)
    ensures Visible(x + y, b) == Visible(x, b) + Visible(y, b)
    decreases |x|
  {
    if x == [] {
      assert x + y == y;
    } else {
      assert (x + y)[0] == x[0] && (x + y)[1..] == x[1..] + y;
      VisibleAppend(x[1..], y, b);
    }
  }

  lemma {:induction false} VisibleOfSpaces(w: string, b: char)
    requires AllSpace(w)
    ensures Visible(w, b) == []
    decreases |w|
  {
    if w != [] {
      VisibleOfSpaces(w[1..], b);
    }
  }

  /** A match holds no visible character other than the bracket. */
  lemma VisibleOfBracketMatch(s: string, b: char)
    requires !IsSpace(b) && BracketLineLength(s, b) > 0
    ensures var n := BracketLineLength(s, b);
            Visible(s, b) == Visible(s[n..], b)
  {
    var n := BracketLineLength(s, b);
    var w := WsRun(s);
    assert s == s[..w] + [b] + s[w + 1..n] + s[n..];
    VisibleAppend(s[..w] + [b] + s[w + 1..n], s[n..], b);
    VisibleAppend(s[..w] + [b], s[w + 1..n], b);
    VisibleAppend(s[..w], [b], b);
    VisibleOfSpaces(s[..w], b);
    VisibleOfSpaces(s[w + 1..n], b);
  }

  lemma VisibleCons(c: char, x: string, y: string, b: char)
    requires Visible(x, b) == Visible(y, b)
    ensures Visible([c] + x, b) == Visible([c] + y, b)
  {
    assert ([c] + x)[1..] == x && ([c] + y)[1..] == y;
  }

  /** Removing bracket lines removes only white space and brackets: the
      other characters are all kept, in order. */
  lemma {:induction false} StripBracketLinesKeepsText(s: string, b: char, bol: bool)
    requires !IsSpace(b)
    ensures Visible(StripBracketLines(s, b, bol), b) == Visible(s, b)
    decreases |s|
  {
    if |s| > 0 {
      var n := if bol then BracketLineLength(s, b) else 0;
      if n > 0 {
        StripBracketLinesKeepsText(s[n..], b, IsLineTerminator(s[n - 1]));
        VisibleOfBracketMatch(s, b);
      } else {
        StripBracketLinesKeepsText(s[1..], b, IsLineTerminator(s[0]));
        VisibleCons(s[0], s[1..], StripBracketLines(s[1..], b, IsLineTerminator(s[0])), b);
        assert s == [s[0]] + s[1..];
      }
    }
  }

  /** Removing bracket lines keeps the first visible character when that
      character is not the bracket. */
  lemma {:induction false} StripBracketLinesKeepsFirstVisible(s: string, b: char, bol: bool, c: char)
    requires !IsSpace(b) && FirstNonSpace(s) == Some(c) && c != b
    ensures FirstNonSpace(StripBracketLines(s, b, bol)) == Some(c)
    decreases |s|
  {
    var w := WsRun(s);
    assert s[w] == c;
    assert BracketLineLength(s, b) == 0;
    var rest := StripBracketLines(s[1..], b, IsLineTerminator(s[0]));
    assert StripBracketLines(s, b, bol) == [s[0]] + rest;
    if IsSpace(s[0]) {
      assert s == [s[0]] + s[1..];
      FirstNonSpaceAfterSpaces([s[0]], s[1..]);
      StripBracketLinesKeepsFirstVisible(s[1..], b, IsLineTerminator(s[0]), c);
      FirstNonSpaceAfterSpaces([s[0]], rest);
    }
  }

  /** A text that is only white space around one bracket becomes empty. */
  lemma BracketAloneVanishes(w1: string, b: char, w2: string)
    requires AllSpace(w1) && AllSpace(w2) && !IsSpace(b)
    ensures StripBracketLines(w1 + [b] + w2, b, true) == []
  {
    var s := w1 + [b] + w2;
    WsRunAfterSpaces(w1, [b] + w2);
    assert s == w1 + ([b] + w2);
    assert s[|w1|] == b;
    assert s[|w1| + 1..] == w2;
    WsRunAfterSpaces(w2, []);
    assert w2 + [] == w2;
  }

  /** A first line holding only the bracket is emptied, and the scan goes on
      at the next line. */
  lemma BracketFirstLineVanishes(b: char, y: string)
    requires !IsSpace(b) && y != [] && !IsSpace(y[0])
    ensures StripBracketLines([b, '\n'] + y, b, true) == ['\n'] + StripBracketLines(y, b, true)
  {
    var s := [b, '\n'] + y;
    assert WsRun(s) == 0;
    var t := s[1..];
    assert t == ['\n'] + y;
    assert WsRun(t) == 1;
    assert t[..1] == ['\n'];
    assert HasLineTerminator(t[..1]);
    assert LastLineTerminator(t[..1]) == 0;
    assert BracketLineLength(s, b) == 1;
    assert s[1..] == ['\n'] + y;
    assert s[1..][1..] == y;
  }

  // ---------------------------------------------------------------------
  // The whole of processMarkdown and the flow
  // ---------------------------------------------------------------------

  /** The text after the bracket, escape, heading and list stages, before
      the title is added. */
  function Cleaned(text: string): string {
    var stripped := StripTrailingBracket(StripLeadingBracket(Trim(text)));
    FixListMarkers(FixHeadings(DropEscapes(UnescapeLiterals(stripped))))
  }

  /** The blank-line and bracket-line stages after the title. */
  function Tidy(s: string): string {
    StripBracketLines(StripBracketLines(CollapseBlankRuns(s), '[', true), ']', true)
  }

  /** `processMarkdown`: the empty text stays empty. */
  function ProcessMarkdown(text: string): (r: string)
    ensures text == [] ==> r == []
  {
    if text == [] then [] else Tidy(Titled(Cleaned(text)))
  }

  /** The tidying stages keep a first visible character that is not a
      bracket. */
  lemma TidyKeepsFirstVisible(x: string, c: char)
    requires FirstNonSpace(x) == Some(c) && c != '[' && c != ']'
    ensures FirstNonSpace(Tidy(x)) == Some(c)
  {
    CollapseKeepsFirstVisible(x);
    var collapsed := CollapseBlankRuns(x);
    StripBracketLinesKeepsFirstVisible(collapsed, '[', true, c);
    StripBracketLinesKeepsFirstVisible(StripBracketLines(collapsed, '[', true), ']', true, c);
  }

  /** Unless the cleaned text is blank, the result starts, after any white
      space, with `#`. */
  lemma ProcessedStartsWithHash(text: string)
    requires text != [] && !AllSpace(Cleaned(text))
    ensures FirstNonSpace(ProcessMarkdown(text)) == Some('#')
  {
    var titled := Titled(Cleaned(text));
    TitledStartsWithHash(Cleaned(text));
    TidyKeepsFirstVisible(titled, '#');
    assert ProcessMarkdown(text) == Tidy(titled);
  }

  /** The model's answer: a record whose fields may be missing. */
  datatype KnowledgeReply = KnowledgeReply(mindMap: Option<string>, smartNotes: Option<string>)

  datatype KnowledgeOutput = KnowledgeOutput(mindMap: string, smartNotes: string)

  /** `output?.field` is truthy: present and not the empty string. */
  predicate Truthy(f: Option<string>) {
    f.Some? && f.value != []
  }

  /** What the flow puts in one field of its result. */
  function ProcessedField(f: Option<string>): string {
    if Truthy(f) then ProcessMarkdown(f.value) else []
  }

  /** A field the model left out or left empty comes back as the empty
      string, exactly as if the empty string had been processed. */
  lemma ProcessedFieldDefault(f: Option<string>)
    ensures ProcessedField(f) == ProcessMarkdown(f.GetOr([]))
    ensures !Truthy(f) ==> ProcessedField(f) == []
  {
  }

  /** The body of `knowledgeConstructionFlow` after the model call: a record
      of empty strings whose fields are overwritten with the processed model
      values that are present; an absent answer leaves both empty. */
  method KnowledgeConstructionFlow(output: Option<KnowledgeReply>) returns (formatted: KnowledgeOutput)
    ensures output.None? ==> formatted == KnowledgeOutput([], [])
    ensures output.Some? ==>
              formatted == KnowledgeOutput(ProcessedField(output.value.mindMap), ProcessedField(output.value.smartNotes))
  {
    formatted := KnowledgeOutput(mindMap := [], smartNotes := []);
    if output.Some? && Truthy(output.value.mindMap) {
      formatted := formatted.(mindMap := ProcessMarkdown(output.value.mindMap.value));
    }
    if output.Some? && Truthy(output.value.smartNotes) {
      formatted := formatted.(smartNotes := ProcessMarkdown(output.value.smartNotes.value));
    }
  }
}
