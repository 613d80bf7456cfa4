/** The Markdown preview: fenced code blocks become escaped `<pre><code>`
    blocks, the inline syntax is rewritten by a chain of substitutions
    (a parameter here), every remaining line is classified and wrapped,
    and runs of line breaks are tidied. */
module MarkdownRenderer {
  import opened Wrappers
  import opened Text

  const Br: string := "<br />"
  const Fence: string := "```"
  const InvalidNotice: string := "<p>Conteúdo inválido.</p>"
  const Placeholder: string := "<p class=\"text-muted-foreground\">Comece a digitar para ver a pré-visualização...</p>"
  const PreOpen: string := "<pre class=\"bg-muted p-2 rounded-md overflow-x-auto text-sm shadow-inner\"><code class=\""
  const CodeClose: string := "</code></pre>"
  const ParaOpen: string := "<p class=\"my-1.5\">"
  const ParaClose: string := "</p>"

  // ---------------------------------------------------------------------
  // Fenced code blocks: /```(\w*)\n([\s\S]*?)```/g

  /** The `\w` class: ASCII letters, digits and the underscore. */
  predicate IsWordChar(c: char) {
    ('a' <= c <= 'z') || ('A' <= c <= 'Z') || ('0' <= c <= '9') || c == '_'
  }

  /** A text made of word characters only (`\w*`). */
  predicate IsWord(s: string)
    decreases |s|
  {
    s == [] || (IsWordChar(s[0]) && IsWord(s[1..]))
  }

  /** Length of the longest prefix of word characters. */
  function WordRun(s: string): (n: nat)
    ensures n <= |s|
    ensures n < |s| ==> !IsWordChar(s[n])
    decreases |s|
  {
    if s != [] && IsWordChar(s[0]) then 1 + WordRun(s[1..]) else 0
  }

  /** A fenced block matched at the start of a text: its language tag, its
      code, and the length of text it spans. */
  datatype FenceMatch = FenceMatch(lang: string, code: string, len: nat)

  /** The match at the start of `s`: three backticks, a (possibly empty)
      word, a line break, then the shortest text up to the next three
      backticks, which close the block. */
  function MatchFence(s: string): (m: Option<FenceMatch>)
    ensures m.Some? ==> 0 < m.value.len <= |s|
  {
    MatchDelimited(s, Fence)
  }

  /** The same match for any delimiter in place of the three backticks. */
  function MatchDelimited(s: string, fence: string): (m: Option<FenceMatch>)
    requires |fence| > 0
    ensures m.Some? ==> 0 < m.value.len <= |s|
  {
    if !StartsWith(s, fence) then None
    else
      match AfterOpening(s[|fence|..], fence)
      case None => None
      case Some(m) => Some(FenceMatch(m.lang, m.code, |fence| + m.len))
  }

  /** What follows the opening delimiter: the word up to a line break,
      then the code up to the closing delimiter. */
  function AfterOpening(t: string, fence: string): (m: Option<FenceMatch>)
    requires |fence| > 0
    ensures m.Some? ==> m.value.len <= |t|
  {
    var w := WordRun(t);
    if w >= |t| || t[w] != '\n' then None
    else Closing(t[..w], t[w + 1..], fence)
  }

  /** The code of a block: the shortest text before the next delimiter. */
  function Closing(lang: string, body: string, fence: string): (m: Option<FenceMatch>)
    requires |fence| > 0
    ensures m.Some? ==> m.value.len <= |lang| + 1 + |body|
  {
    if !Contains(body, fence) then None
    else
      var k := IndexOf(body, fence);
      Some(FenceMatch(lang, body[..k], |lang| + 1 + k + |fence|))
  }

  /** The code element's class attribute: `language-<tag>`, or nothing. */
  function LanguageClass(lang: string): (c: string)
    ensures c == [] <==> lang == []
    ensures lang != [] ==> StartsWith(c, "language-") && c[9..] == lang
  {
    if lang == [] then "" else "language-" + lang
  }

  /** `code.replace(/</g, '&lt;').replace(/>/g, '&gt;')`. */
  function EscapeCode(code: string): string {
    ReplaceAll(ReplaceAll(code, "<", "&lt;"), ">", "&gt;")
  }

  /** The escaped form of one character. */
  function EscapeChar(c: char): string {
    if c == '<' then "&lt;" else if c == '>' then "&gt;" else [c]
  }

  /** Escaping character by character, the reference the two passes are
      compared with. */
  function EscapeEach(s: string): (r: string)
    ensures '<' !in r && '>' !in r
    decreases |s|
  {
    if s == [] then [] else EscapeChar(s[0]) + EscapeEach(s[1..])
  }

  /** Replacing a one-character pattern in a one-character text. */
  lemma ReplaceCharOne(h: char, c: char, rep: string)
    ensures ReplaceAll([h], [c], rep) == if h == c then rep else [h]
  {
    assert [h][..1] == [h] && [h][1..] == [];
  }

  /** A text without the pattern's character is left alone. */
  lemma {:induction false} ReplaceCharAbsent(s: string, c: char, rep: string)
    requires c !in s
    ensures ReplaceAll(s, [c], rep) == s
    decreases |s|
  {
    if s != [] {
      assert s[..1] == [s[0]] != [c];
      ReplaceCharAbsent(s[1..], c, rep);
    }
  }

  /** Replacing a one-character pattern distributes over concatenation. */
  lemma {:induction false} ReplaceCharAppend(a: string, b: string, c: char, rep: string)
    ensures ReplaceAll(a + b, [c], rep) == ReplaceAll(a, [c], rep) + ReplaceAll(b, [c], rep)
    decreases |a|
  {
    if a == [] {
      assert a + b == b;
    } else {
      var s := a + b;
      assert s[..1] == [a[0]] == a[..1];
      assert s[1..] == a[1..] + b;
      ReplaceCharAppend(a[1..], b, c, rep);
      var head := if a[0] == c then rep else [a[0]];
      assert ReplaceAll(s, [c], rep) == head + ReplaceAll(a[1..] + b, [c], rep);
      assert ReplaceAll(a, [c], rep) == head + ReplaceAll(a[1..], [c], rep);
    }
  }

  /** The two passes escape exactly as the one-character reference does. */
  lemma {:induction false} EscapeCodeEach(s: string)
    ensures EscapeCode(s) == EscapeEach(s)
    decreases |s|
  {
    if s != [] {
      var h, t := s[0], s[1..];
      assert s == [h] + t;
      var head := if h == '<' then "&lt;" else [h];
      ReplaceCharAppend([h], t, '<', "&lt;");
      ReplaceCharOne(h, '<', "&lt;");
      ReplaceCharAppend(head, ReplaceAll(t, "<", "&lt;"), '>', "&gt;");
      EscapeCodeEach(t);
      if h == '<' {
        ReplaceCharAbsent("&lt;", '>', "&gt;");
      } else {
        ReplaceCharOne(h, '>', "&gt;");
      }
    }
  }

  /** The escaped code, and the trimmed text emitted from it, hold no angle
      bracket, so the code cannot open or close an element. */
  lemma EscapedCodeHasNoAngles(s: string)
    ensures '<' !in EscapeCode(s) && '>' !in EscapeCode(s)
    ensures '<' !in Trim(EscapeCode(s)) && '>' !in Trim(EscapeCode(s))
  {
    EscapeCodeEach(s);
    var e := EscapeCode(s);
    var r := Trim(e);
    var a := WsRun(e);
    forall i | 0 <= i < |r|
      ensures r[i] != '<' && r[i] != '>'
    {
      assert r[i] == e[a + i];
    }
  }

  /** The HTML a fenced block becomes: escaped, trimmed code in a `code`
      element carrying the language class, inside a `pre` element. */
  function CodeBlockHtml(lang: string, code: string): string {
    PreOpen + LanguageClass(lang) + "\">" + Trim(EscapeCode(code)) + CodeClose
  }

  /** The fenced-code stage: each match, scanning from the left, replaced by
      its HTML; the text between matches is copied. */
  function CodeFences(s: string): string
    decreases |s|
  {
    if s == [] then []
    else
      match MatchFence(s)
      case Some(m) => CodeBlockHtml(m.lang, m.code) + CodeFences(s[m.len..])
      case None => [s[0]] + CodeFences(s[1..])
  }

  /** A text without three backticks in a row passes the stage unchanged. */
  lemma {:induction false} CodeFencesWithoutFence(s: string)
    requires !Contains(s, Fence)
    ensures CodeFences(s) == s
    decreases |s|
  {
    if s != [] {
      assert MatchFence(s).None?;
      CodeFencesWithoutFence(s[1..]);
    }
  }

  /** The first occurrence of a pattern after text that cannot start it. */
  lemma {:induction false} IndexOfAfter(x: string, p: string, y: string)
    requires |p| > 0 && p[0] !in x
    ensures Contains(x + p + y, p) && IndexOf(x + p + y, p) == |x|
    decreases |x|
  {
    ContainsInside(x, p, y);
    if x == [] {
      assert x + p + y == p + y;
      assert (p + y)[..|p|] == p;
    } else {
      var s := x + p + y;
      assert s[..|p|][0] == x[0];
      assert s[1..] == x[1..] + p + y;
      IndexOfAfter(x[1..], p, y);
    }
  }

  /** A block closes at its first delimiter when its code cannot start one. */
  lemma ClosingAt(lang: string, code: string, fence: string, rest: string)
    requires |fence| > 0 && fence[0] !in code
    ensures var m := Closing(lang, code + (fence + rest), fence);
      m.Some? && m.value.lang == lang && m.value.code == code && m.value.len == |lang| + 1 + |code| + |fence|
  {
    Assoc(code, fence, rest);
    IndexOfAfter(code, fence, rest);
    assert (code + fence + rest)[..|code|] == code;
  }

  /** After the opening delimiter, a word and a line break lead to the code. */
  lemma AfterOpeningOf(lang: string, body: string, fence: string)
    requires |fence| > 0
    requires IsWord(lang)
    ensures AfterOpening(lang + ("\n" + body), fence) == Closing(lang, body, fence)
  {
    var t := lang + ("\n" + body);
    WordRunStops(lang, "\n" + body);
    assert t[..|lang|] == lang;
    assert t[|lang| + 1..] == body;
  }

  lemma Assoc(a: string, b: string, c: string)
    ensures a + b + c == a + (b + c)
  {
  }

  /** The match at the start of a delimited block whose code does not
      start the delimiter: the delimiter, the word, a line break, the code,
      the delimiter again and the rest. */
  lemma MatchDelimitedOf(fence: string, lang: string, code: string, rest: string)
    requires |fence| > 0 && fence[0] !in code
    requires IsWord(lang)
    ensures var m := MatchDelimited(fence + (lang + ("\n" + (code + (fence + rest)))), fence);
      m.Some? && m.value.lang == lang && m.value.code == code && m.value.len == |lang| + |code| + 1 + 2 * |fence|
  {
    var body := code + (fence + rest);
    var t := lang + ("\n" + body);
    ClosingAt(lang, code, fence, rest);
    AfterOpeningOf(lang, body, fence);
    MatchDelimitedOpen(fence, t);
  }

  /** A text opening with the delimiter is matched by what follows it. */
  lemma MatchDelimitedOpen(fence: string, t: string)
    requires |fence| > 0 && AfterOpening(t, fence).Some?
    ensures var m := MatchDelimited(fence + t, fence);
      var a := AfterOpening(t, fence).value;
      m.Some? && m.value.lang == a.lang && m.value.code == a.code && m.value.len == |fence| + a.len
  {
    var s := fence + t;
    assert StartsWith(s, fence) by {
      assert s[..|fence|] == fence;
    }
    assert s[|fence|..] == t;
  }

  /** A fenced block followed by more text: the opening fence with its
      language word, a line break, the code, the closing fence, the rest. */
  function FencedBlock(lang: string, code: string, rest: string): string {
    Fence + (lang + ("\n" + (code + (Fence + rest))))
  }

  /** The block's match. */
  lemma MatchFenceOfBlock(lang: string, code: string, rest: string)
    requires IsWord(lang)
    requires '`' !in code
    ensures var m := MatchFence(FencedBlock(lang, code, rest));
      m.Some? && m.value.lang == lang && m.value.code == code &&
      m.value.len == |lang| + |code| + 1 + 2 * |Fence|
  {
    assert Fence[0] == '`';
    MatchDelimitedOf(Fence, lang, code, rest);
  }

  /** Where the text after the block begins. */
  lemma FencedBlockRest(lang: string, code: string, rest: string)
    ensures |lang| + |code| + 1 + 2 * |Fence| <= |FencedBlock(lang, code, rest)|
    ensures FencedBlock(lang, code, rest)[|lang| + |code| + 1 + 2 * |Fence|..] == rest
  {
  }

  /** A block opened by a tagged or untagged fence and closed by the next
      fence is replaced by its HTML, and the scan goes on after it. */
  lemma FencedBlockRendered(lang: string, code: string, rest: string)
    requires IsWord(lang)
    requires '`' !in code
    ensures CodeFences(FencedBlock(lang, code, rest)) == CodeBlockHtml(lang, code) + CodeFences(rest)
  {
    var s := FencedBlock(lang, code, rest);
    var len := |lang| + |code| + 1 + 2 * |Fence|;
    assert MatchFence(s).Some? && MatchFence(s).value.lang == lang &&
      MatchFence(s).value.code == code && MatchFence(s).value.len == len by {
      MatchFenceOfBlock(lang, code, rest);
    }
    assert len <= |s| && s[len..] == rest by {
      FencedBlockRest(lang, code, rest);
    }
    CodeFencesStep(s, lang, code, len);
  }

  /** One step of the scan at a match. */
  lemma CodeFencesStep(s: string, lang: string, code: string, len: nat)
    requires var m := MatchFence(s); m.Some? && m.value.lang == lang && m.value.code == code && m.value.len == len
    ensures len <= |s|
    ensures CodeFences(s) == CodeBlockHtml(lang, code) + CodeFences(s[len..])
  {
  }

  lemma {:induction false} WordRunStops(w: string, t: string)
    requires IsWord(w)
    requires t != [] && !IsWordChar(t[0])
    ensures WordRun(w + t) == |w|
    decreases |w|
  {
    if w == [] {
      assert w + t == t;
    } else {
      assert (w + t)[1..] == w[1..] + t;
      WordRunStops(w[1..], t);
    }
  }

  // ---------------------------------------------------------------------
  // The line pass: split on line breaks, classify each line, join.

  /** The tags whose lines are left unwrapped. */
  const StructuralTags: seq<string> :=
    ["ul", "ol", "li", "h1", "h2", "h3", "h4", "h5", "h6",
     "blockquote", "pre", "code", "del", "strong", "em", "a"]

  /** `/^<(ul|ol|li|h[1-6]|blockquote|pre|code|del|strong|em|a)/i`: the line
      opens with one of the tags, in any letter case; the name need not
      end there (`<abbr` begins with `a`). */
  predicate Structural(line: string) {
    |line| > 0 && line[0] == '<' &&
    exists i :: 0 <= i < |StructuralTags| && StartsWith(Lower(line[1..]), StructuralTags[i])
  }

  /** One line of the preview: a blank line becomes a break, a structural
      line stays, any other line becomes a paragraph. */
  function ClassifyLine(line: string): (r: string)
    ensures Trim(line) == [] ==> r == Br
    ensures Trim(line) != [] && Structural(line) ==> r == line
    ensures Trim(line) != [] && !Structural(line) ==> r == ParaOpen + line + ParaClose
  {
    if Trim(line) == [] then Br
    else if Structural(line) then line
    else ParaOpen + line + ParaClose
  }

  /** `lines.map(classify)`. */
  function ClassifyAll(lines: seq<string>): seq<string> {
    seq(|lines|, i requires 0 <= i < |lines| => ClassifyLine(lines[i]))
  }

  /** `html.split('\n').map(classify).join('')`. */
  function LinePass(html: string): string {
    Join(ClassifyAll(Split(html, '\n')), "")
  }

  /** A line with text keeps it, inside whatever wraps it. */
  lemma ClassifyKeepsText(line: string)
    requires Trim(line) != []
    ensures Contains(ClassifyLine(line), line)
  {
    if Structural(line) {
      ContainsInside([], line, []);
      assert [] + line + [] == line;
    } else {
      ContainsInside(ParaOpen, line, ParaClose);
    }
  }

  /** Every line with text appears in the pass's output. */
  lemma LinePassKeepsText(html: string, i: nat)
    requires i < |Split(html, '\n')| && Trim(Split(html, '\n')[i]) != []
    ensures Contains(LinePass(html), Split(html, '\n')[i])
  {
    var lines := Split(html, '\n');
    var out := ClassifyAll(lines);
    JoinContainsPart(out, "", i);
    ClassifyKeepsText(lines[i]);
    ContainsWithin(out[i], lines[i], Join(out, ""));
  }

  /** An occurrence inside an occurrence. */
  lemma {:induction false} ContainsWithin(outer: string, p: string, s: string)
    requires Contains(outer, p) && Contains(s, outer)
    ensures Contains(s, p)
    decreases |s|
  {
    if StartsWith(s, outer) {
      ContainsExtend(outer, s[|outer|..], p);
      assert outer + s[|outer|..] == s;
    } else {
      ContainsWithin(outer, p, s[1..]);
    }
  }

  /** The pass joins the lines without separator, so its output is one
      line. */
  lemma LinePassOneLine(html: string)
    ensures '\n' !in LinePass(html)
  {
    var lines := Split(html, '\n');
    var out := ClassifyAll(lines);
    forall i | 0 <= i < |out|
      ensures '\n' !in out[i]
    {
      ClassifyOneLine(lines[i]);
    }
    JoinWithout(out, '\n');
  }

  lemma ClassifyOneLine(line: string)
    requires '\n' !in line
    ensures '\n' !in ClassifyLine(line)
  {
    assert '\n' !in Br && '\n' !in ParaOpen && '\n' !in ParaClose;
  }

  lemma {:induction false} JoinWithout(parts: seq<string>, c: char)
    requires forall i :: 0 <= i < |parts| ==> c !in parts[i]
    ensures c !in Join(parts, "")
    decreases |parts|
  {
    if |parts| > 1 {
      JoinCons(parts[0], parts[1..], "");
      assert [parts[0]] + parts[1..] == parts;
      JoinWithout(parts[1..], c);
    } else if |parts| == 1 {
      assert Join(parts, "") == parts[0];
    }
  }

  // ---------------------------------------------------------------------
  // Break clean-up: /(<br \/>\s*){2,}/g and /^<br \/>|<br \/>$/g

  /** A run of tags: how many it holds and how long it is. */
  datatype TagSpan = TagSpan(count: nat, len: nat)

  /** The run of `tag`s at the start of `s`, each followed by any white
      space. */
  function TagRun(s: string, tag: string): (r: TagSpan)
    requires |tag| > 0
    ensures r.len <= |s|
    ensures r.count == 0 <==> r.len == 0
    ensures r.count >= 1 ==> r.len >= |tag|
    ensures r.count >= 2 ==> r.len >= 2 * |tag|
    decreases |s|
  {
    if StartsWith(s, tag) then
      var w := WsRun(s[|tag|..]);
      var rest := TagRun(s[|tag| + w..], tag);
      TagSpan(rest.count + 1, |tag| + w + rest.len)
    else TagSpan(0, 0)
  }

  /** Every run of two or more `tag`s, with the white space inside and
      after it, becomes exactly two tags. */
  function CollapseRuns(s: string, tag: string): (r: string)
    requires |tag| > 0
    ensures |r| <= |s|
    decreases |s|
  {
    if s == [] then []
    else
      var run := TagRun(s, tag);
      if run.count >= 2 then tag + tag + CollapseRuns(s[run.len..], tag)
      else [s[0]] + CollapseRuns(s[1..], tag)
  }

  /** `/(<br \/>\s*){2,}/g` replaced by two breaks. */
  function CollapseBreaks(s: string): (r: string)
    ensures |r| <= |s|
  {
    CollapseRuns(s, Br)
  }

  /** A text without the tag is left alone. */
  lemma {:induction false} CollapseRunsWithout(s: string, tag: string)
    requires |tag| > 0 && !Contains(s, tag)
    ensures CollapseRuns(s, tag) == s
    decreases |s|
  {
    if s != [] {
      assert !StartsWith(s, tag);
      CollapseRunsWithout(s[1..], tag);
    }
  }

  /** A text without a break is left alone. */
  lemma CollapseWithoutBreak(s: string)
    requires !Contains(s, Br)
    ensures CollapseBreaks(s) == s
  {
    CollapseRunsWithout(s, Br);
  }

  /** `n` copies of `tag` in a row. */
  function Repeat(tag: string, n: nat): string {
    if n == 0 then [] else tag + Repeat(tag, n - 1)
  }

  /** `n` breaks in a row. */
  function Breaks(n: nat): string {
    Repeat(Br, n)
  }

  /** A tag followed by no white space continues with the run after it. */
  lemma TagRunStep(tag: string, u: string)
    requires |tag| > 0 && (u == [] || !IsSpace(u[0]))
    ensures TagRun(tag + u, tag) == TagSpan(TagRun(u, tag).count + 1, |tag| + TagRun(u, tag).len)
  {
    var s := tag + u;
    assert s[..|tag|] == tag;
    assert s[|tag|..] == u;
    assert WsRun(u) == 0;
  }

  lemma RepeatThen(tag: string, n: nat, t: string)
    requires n > 0
    ensures Repeat(tag, n) + t == tag + (Repeat(tag, n - 1) + t)
    ensures n > 1 && |tag| > 0 ==> (Repeat(tag, n - 1) + t)[0] == tag[0]
  {
  }

  /** A run of `n` adjacent tags is found whole when what follows starts
      neither a tag nor white space. */
  lemma {:induction false} TagRunOfRepeat(tag: string, n: nat, t: string)
    requires |tag| > 0 && !IsSpace(tag[0])
    requires !StartsWith(t, tag) && (t == [] || !IsSpace(t[0]))
    ensures TagRun(Repeat(tag, n) + t, tag) == TagSpan(n, |Repeat(tag, n)|)
    decreases n
  {
    if n == 0 {
      assert Repeat(tag, n) + t == t;
    } else {
      RepeatThen(tag, n, t);
      TagRunStep(tag, Repeat(tag, n - 1) + t);
      TagRunOfRepeat(tag, n - 1, t);
    }
  }

  /** Two or more adjacent breaks become exactly two. */
  lemma CollapseRun(n: nat, t: string)
    requires n >= 2 && !StartsWith(t, Br) && (t == [] || !IsSpace(t[0]))
    ensures CollapseBreaks(Breaks(n) + t) == Br + Br + CollapseBreaks(t)
  {
    assert Br[0] == '<';
    TagRunOfRepeat(Br, n, t);
    assert (Breaks(n) + t)[|Breaks(n)|..] == t;
  }

  predicate EndsWith(s: string, p: string) {
    |p| <= |s| && s[|s| - |p|..] == p
  }

  /** One leading break is dropped, then one trailing break. */
  function StripEdges(s: string): (r: string)
    ensures |r| <= |s|
  {
    var a := if StartsWith(s, Br) then s[6..] else s;
    if EndsWith(a, Br) then a[..|a| - 6] else a
  }

  /** A text wrapped in two breaks loses exactly those. */
  lemma StripEdgesOfWrapped(t: string)
    ensures StripEdges(Br + t + Br) == t
  {
    var s := Br + t + Br;
    assert s[..6] == Br;
    assert s[6..] == t + Br;
    assert (t + Br)[|t|..] == Br;
    assert (t + Br)[..|t|] == t;
  }

  /** A text that neither starts nor ends with a break is left alone. */
  lemma StripEdgesOfPlain(s: string)
    requires !StartsWith(s, Br) && !EndsWith(s, Br)
    ensures StripEdges(s) == s
  {
  }

  // ---------------------------------------------------------------------
  // The whole preview

  /** The preview of `content` (`None` when the value given is not a
      string); `inline` stands for the inline substitutions between the
      code stage and the line pass. */
  function Preview(content: Option<string>, inline: string -> string): (html: string)
    ensures content.None? ==> html == InvalidNotice
    ensures html != []
  {
    if content.None? then InvalidNotice
    else
      var html := StripEdges(CollapseBreaks(LinePass(inline(CodeFences(content.value)))));
      if html == [] then Placeholder else html
  }

  /** An empty text is one empty line, which becomes one break. */
  lemma LinePassOfEmpty()
    ensures LinePass([]) == Br
  {
    assert Split([], '\n') == [[]] by {
      SplitWithoutSeparator([], '\n');
    }
    assert ClassifyAll([[]]) == [Br];
  }

  /** A lone break is not a run. */
  lemma CollapseOfBreak()
    ensures CollapseBreaks(Br) == Br
  {
    TagRunStep(Br, []);
    assert Br + [] == Br;
    if Contains(Br[1..], Br) {
      ContainsNeedsRoom(Br[1..], Br);
    }
    CollapseRunsWithout(Br[1..], Br);
    assert [Br[0]] + Br[1..] == Br;
  }

  /** An empty text shows the placeholder when the inline stage leaves an
      empty text empty: its one empty line becomes a single break, which
      the clean-up removes. */
  lemma EmptyShowsPlaceholder(inline: string -> string)
    requires inline([]) == []
    ensures Preview(Some([]), inline) == Placeholder
  {
    assert CodeFences([]) == [];
    EmptyTextTidiesAway();
  }

  /** The one break an empty text becomes is removed by the clean-up. */
  lemma EmptyTextTidiesAway()
    ensures StripEdges(CollapseBreaks(LinePass([]))) == []
  {
    LinePassOfEmpty();
    CollapseOfBreak();
    assert Br[..6] == Br;
  }

  /** The render: the chain of stages, each reassigning the HTML text. */
  method RenderMarkdown(content: Option<string>, inline: string -> string) returns (html: string)
    ensures html == Preview(content, inline)
    ensures content.None? ==> html == InvalidNotice
    ensures html != []
  {
    if content.None? {
      return InvalidNotice;
    }
    html := content.value;
    html := CodeFences(html);
    html := inline(html);
    html := LinePass(html);
    html := CollapseBreaks(html);
    html := StripEdges(html);
    if html == [] {
      html := Placeholder;
    }
  }
}
