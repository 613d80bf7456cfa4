# CognaForge text and state transforms, modelled in Dafny

CognaForge is a study assistant. Most of its flows send a prompt to a
language model and return the model's record. Around those calls sit small
deterministic transforms, and this project models them and proves what they
guarantee:

- **Knowledge construction** (`KnowledgeConstruction`, `knowledge_construction.dfy`):
  `processMarkdown` cleans the model's Markdown and the flow fills in defaults.
  The cleaning trims the text and removes a JSON bracket at either end. It
  unescapes literal `\n`, `\"` and `\\`, then drops any other escape. It puts
  the missing space after heading hashes and list markers, and turns the first
  line into an H1 when there is no heading. Finally it collapses runs of blank
  lines and empties lines that hold only a bracket.
- **Socratic mode** (`SocraticMode`, `socratic_mode.dfy`): covers the keyword
  normal form `normalize` and the "more than 70 % of the earlier question's
  keywords" repetition test. The test is stated in integers as
  `10 * matches > 7 * total`. Also covered are the loop that asks the model up
  to three times, noting each rejected question in the topic, and the fallback
  record.
- **Markdown editor toolbar** (`EditorToolbar`, `editor_toolbar.dfy`): a class
  holding the editor's text and selection. Each button splices Markdown syntax
  around, or in place of, the selection and moves the selection.
- **Markdown preview** (`MarkdownRenderer`, `markdown_renderer.dfy`): the
  string pipeline of the preview component. It covers escaping and wrapping of
  fenced code, the line-by-line paragraph pass, the tidying of `<br />` runs,
  and the placeholder.
- **Settings page** (`AppSettings`, `app_settings.dfy`): the nested settings
  record and its defaults, and a class for the page state: the record plus the
  "unsaved changes" flag, with update, reset and save. It also covers the
  derived views: the creativity label, the effective dark theme, and the
  notification switches.
- **Cognitive battle** (`CognitiveBattle`, `cognitive_battle.dfy`): defaults
  for every missing field, then the prefix added to an evaluation that states
  no verdict.
- **Interview simulator** (`InterviewSimulator`, `interview_simulator.dfy`):
  the suppression of empty or unasked-for feedback.
- **Sidebar navigation** (`SidebarNav`, `sidebar_nav.dfy`): the active-route
  predicate and the label-or-title choice.

`Wrappers` (`wrappers.dfy`) holds `Option` and `Result`. `Text` (`text.dfy`)
models the JavaScript string operations these files use:

- the `\s` white-space class and `trim`;
- `split` and `join`;
- `startsWith`, `includes` and `indexOf`;
- `toLowerCase`;
- global replacement of a literal pattern.

The model's answer to a prompt is always an input, given as a record or its
absence, and never computed.

Some behaviours of the code are modelled as written, though they may surprise
a reader:

- An earlier Socratic question with no keyword counts as repeated by every
  candidate (`SocraticMode.NoKeywordsRepeats`).
- The route prefix test has no segment boundary, so `/settingsX` activates
  `/settings` (`SidebarNav.NoSegmentBoundary`).
- A multi-line quote computes a cursor position and never uses it. The new
  selection starts where the old one did and keeps the old length, which is
  shorter than the quoted block (`EditorToolbar.ApplyQuotesLines`).

## Model

| member | source | states |
|---|---|---|
| KnowledgeConstruction.ProcessMarkdown | src/ai/flows/knowledge-construction.ts:137-138 | the empty text gives the empty text |
| KnowledgeConstruction.StripLeadingBracket | src/ai/flows/knowledge-construction.ts:142 | the result is a suffix of the input; it is the input unless the first visible character is `[`; otherwise only white space, the `[` and white space are removed, and the result is empty or starts with a visible character |
| KnowledgeConstruction.StripTrailingBracket | src/ai/flows/knowledge-construction.ts:143 | the result is a prefix of the input; it is the input unless the last visible character is `]`; otherwise only that `]` and white space around it are removed, and the result is empty or ends with a visible character |
| KnowledgeConstruction.LastNonSpace | src/ai/flows/knowledge-construction.ts:143 | none exactly when the text is all white space; otherwise the visible character before the trailing white space |
| KnowledgeConstruction.NoLiteralNewlineLeft | src/ai/flows/knowledge-construction.ts:144 | after the first replacement no backslash-`n` pair is left |
| KnowledgeConstruction.EscapedPairsBecomeCharacters | src/ai/flows/knowledge-construction.ts:144-145 | a backslash-`n` pair becomes a line break and a backslash-quote pair becomes a quote; the text before them is kept, and the rest is replaced in turn |
| KnowledgeConstruction.DropEscapesRemovesOnlyBackslashes | src/ai/flows/knowledge-construction.ts:149 | dropping escapes removes backslashes and nothing else; the result is no longer than the input |
| KnowledgeConstruction.DropEscapesWithoutBackslash | src/ai/flows/knowledge-construction.ts:149 | a text without backslashes is unchanged |
| KnowledgeConstruction.DropEscapesDropsBackslash | src/ai/flows/knowledge-construction.ts:149 | the first backslash followed by another character is dropped, that character is kept, and the scan goes on after it |
| KnowledgeConstruction.LineEnd | src/ai/flows/knowledge-construction.ts:152 | the index of the first line terminator (or the length); no terminator before it |
| KnowledgeConstruction.HashRun | src/ai/flows/knowledge-construction.ts:152 | the maximal run of `#` at the start of a line |
| KnowledgeConstruction.FixHeadingLine | src/ai/flows/knowledge-construction.ts:152 | no heading without its space is left; a line is unchanged or is a bare heading with one space inserted after the hashes; no line terminator is introduced |
| KnowledgeConstruction.FixListLine | src/ai/flows/knowledge-construction.ts:155 | no bare list item is left; a line is unchanged or is a bare item with one space inserted after the marker; no line terminator is introduced |
| KnowledgeConstruction.MapLines | src/ai/flows/knowledge-construction.ts:152-155 | a `^`-anchored multiline replacement whose match stays inside a line, as a rewrite of each line that keeps the terminators; stated by `LineEndOfLine` and `MapLinesIdempotent` |
| KnowledgeConstruction.MapLinesIdempotent | src/ai/flows/knowledge-construction.ts:152-155 | rewriting each line with an idempotent, terminator-free rewrite is idempotent over the whole text |
| KnowledgeConstruction.FixHeadingsIdempotent | src/ai/flows/knowledge-construction.ts:152 | the heading repair is idempotent |
| KnowledgeConstruction.FixListMarkersIdempotent | src/ai/flows/knowledge-construction.ts:155 | the list-marker repair is idempotent |
| KnowledgeConstruction.TitledStartsWithHash | src/ai/flows/knowledge-construction.ts:158-164 | a text that is not blank begins, after white space, with `#` once the title step has run |
| KnowledgeConstruction.TitleKeepsText | src/ai/flows/knowledge-construction.ts:158-164 | when the trimmed text does not start with `#`, the result is `# ` + its first line + a blank line + the rest of the trimmed text |
| KnowledgeConstruction.BlankRunLength | src/ai/flows/knowledge-construction.ts:169 | a match exists exactly when a line feed is followed by white space holding two more line feeds; the match is white space of at least three characters that starts with that line feed and ends with the last line feed of the run, with no line feed in the white space after it |
| KnowledgeConstruction.LastNewlineEnd | src/ai/flows/knowledge-construction.ts:169 | the end of the last line feed in a white-space prefix; no line feed is left after it |
| KnowledgeConstruction.CollapseShortRun | src/ai/flows/knowledge-construction.ts:169 | white space with at most two line feeds, before a visible character, is kept as is |
| KnowledgeConstruction.CollapseKeepsFirstVisible | src/ai/flows/knowledge-construction.ts:169 | collapsing blank runs keeps the first visible character |
| KnowledgeConstruction.CollapseIdempotent | src/ai/flows/knowledge-construction.ts:169 | collapsing blank-line runs is idempotent |
| KnowledgeConstruction.BracketLineLength | src/ai/flows/knowledge-construction.ts:171-172 | a match exists exactly when the first visible character is the bracket and the white space after it reaches the end of the text or holds a line terminator; the match is the leading white space, the bracket and white space, and it ends at the end of the text or just before the last line terminator of the trailing white space |
| KnowledgeConstruction.StripBracketLinesAbsent | src/ai/flows/knowledge-construction.ts:171-172 | a text without the bracket is unchanged |
| KnowledgeConstruction.StripBracketLinesKeepsText | src/ai/flows/knowledge-construction.ts:171-172 | only white space and brackets are removed; every other character is kept in order |
| KnowledgeConstruction.StripBracketLinesKeepsFirstVisible | src/ai/flows/knowledge-construction.ts:171-172 | a first visible character other than the bracket is kept |
| KnowledgeConstruction.BracketAloneVanishes | src/ai/flows/knowledge-construction.ts:171-172 | a text that is only a bracket in white space becomes empty |
| KnowledgeConstruction.BracketFirstLineVanishes | src/ai/flows/knowledge-construction.ts:171 | a first line that is just `[` is emptied, its line break stays, and the scan continues on the next line |
| KnowledgeConstruction.TidyKeepsFirstVisible | src/ai/flows/knowledge-construction.ts:167-172 | the three tidying replacements keep a first visible character that is not a bracket |
| KnowledgeConstruction.ProcessedStartsWithHash | src/ai/flows/knowledge-construction.ts:137-175 | unless the cleaned text is blank, the result of `processMarkdown` begins, after white space, with `#` |
| KnowledgeConstruction.UnescapeLiterals | src/ai/flows/knowledge-construction.ts:144-146 | the three literal replacements in order; stated by `NoLiteralNewlineLeft` and `EscapedPairsBecomeCharacters` |
| KnowledgeConstruction.DropEscapes | src/ai/flows/knowledge-construction.ts:149 | `replace(/\\([^\\])/g, '$1')`; stated by `DropEscapesDropsBackslash`, `DropEscapesRemovesOnlyBackslashes` and `DropEscapesWithoutBackslash` |
| KnowledgeConstruction.FixHeadings | src/ai/flows/knowledge-construction.ts:152 | the heading repair on every line; stated by `FixHeadingLine` per line and `FixHeadingsIdempotent` |
| KnowledgeConstruction.FixListMarkers | src/ai/flows/knowledge-construction.ts:155 | the list-marker repair on every line; stated by `FixListLine` per line and `FixListMarkersIdempotent` |
| KnowledgeConstruction.Titled | src/ai/flows/knowledge-construction.ts:157-164 | the title step; stated by `TitledUnchanged`, `TitledStartsWithHash` and `TitleKeepsText` |
| KnowledgeConstruction.TitledUnchanged | src/ai/flows/knowledge-construction.ts:157-158 | a blank text, and a text whose trimmed form opens with `#`, are returned unchanged |
| KnowledgeConstruction.CollapseBlankRuns | src/ai/flows/knowledge-construction.ts:169 | the blank-run replacement; stated by `CollapseAtMatch` (a run of three or more line feeds becomes one blank line), `CollapseShortRun`, `CollapseKeepsFirstVisible` and `CollapseIdempotent` |
| KnowledgeConstruction.StripBracketLines | src/ai/flows/knowledge-construction.ts:171-172 | the isolated-bracket replacement; stated by `StripBracketLinesAbsent`, `StripBracketLinesKeepsText`, `StripBracketLinesKeepsFirstVisible`, `BracketAloneVanishes` and `BracketFirstLineVanishes` |
| KnowledgeConstruction.Cleaned | src/ai/flows/knowledge-construction.ts:141-155 | the stages before the title; `ProcessedStartsWithHash` is stated over it |
| KnowledgeConstruction.Tidy | src/ai/flows/knowledge-construction.ts:167-172 | the stages after the title; stated by `TidyKeepsFirstVisible` |
| KnowledgeConstruction.ProcessedField | src/ai/flows/knowledge-construction.ts:123-130 | `output?.x ? processMarkdown(output.x) : ''`; stated by `ProcessedFieldDefault` and, for non-blank text, `ProcessedStartsWithHash` |
| KnowledgeConstruction.ProcessedFieldDefault | src/ai/flows/knowledge-construction.ts:123-130 | a field that is absent or empty gives `''`, the same as processing `''` |
| KnowledgeConstruction.KnowledgeConstructionFlow | src/ai/flows/knowledge-construction.ts:117-132 | with no model answer both fields are `''`; otherwise each field is `processMarkdown` of the model's value if it is non-empty, else `''` |
| SocraticMode.LessEq | src/ai/flows/socratic-mode-flow.ts:140 | the default `sort()` order, character by character with a proper prefix first; a total order by `LessEqTotal`, `LessEqAntisymmetric`, `LessEqTransitive` and `LessEqReflexive` |
| SocraticMode.LessEqTotal | src/ai/flows/socratic-mode-flow.ts:140 | the default sort order is total |
| SocraticMode.LessEqAntisymmetric | src/ai/flows/socratic-mode-flow.ts:140 | the default sort order is antisymmetric |
| SocraticMode.Insert | src/ai/flows/socratic-mode-flow.ts:140 | insertion adds one element and keeps a sorted list sorted |
| SocraticMode.SortWords | src/ai/flows/socratic-mode-flow.ts:140 | `sort()` keeps the length and yields a sorted list |
| SocraticMode.SortWordsPermutes | src/ai/flows/socratic-mode-flow.ts:140 | the sorted words are a permutation of the words |
| SocraticMode.SortedUnique | src/ai/flows/socratic-mode-flow.ts:140 | two sorted permutations of each other are equal |
| SocraticMode.SortSorted | src/ai/flows/socratic-mode-flow.ts:140 | sorting a sorted list leaves it unchanged |
| SocraticMode.LongWords | src/ai/flows/socratic-mode-flow.ts:139 | every word kept is longer than three characters |
| SocraticMode.LongWordsMember | src/ai/flows/socratic-mode-flow.ts:139 | a word is kept exactly when it is among the words and longer than three characters |
| SocraticMode.CleanedIsPlain | src/ai/flows/socratic-mode-flow.ts:136-137 | after lower-casing and deleting `.,?!;:`, no upper-case letter or punctuation is left |
| SocraticMode.NormalizeWords | src/ai/flows/socratic-mode-flow.ts:136-141 | `normalize` is `''` when there is no keyword; otherwise splitting it on spaces gives the sorted keywords; every part is sorted, plain and longer than three characters, or the single empty part |
| SocraticMode.KeywordsOfJoin | src/ai/flows/socratic-mode-flow.ts:136-141 | joining plain long words and taking the keywords again gives the same words |
| SocraticMode.NormalizeIdempotent | src/ai/flows/socratic-mode-flow.ts:136-141 | `normalize(normalize(s)) == normalize(s)` |
| SocraticMode.NormalizeIgnoresOrder | src/ai/flows/socratic-mode-flow.ts:136-141 | texts with the same keywords, in any order, have the same normal form |
| SocraticMode.Matches | src/ai/flows/socratic-mode-flow.ts:147-149 | at most the number of words; all of them exactly when every word occurs in the text; none exactly when none does |
| SocraticMode.NoKeywordsRepeats | src/ai/flows/socratic-mode-flow.ts:143-151 | an earlier question with no keyword is repeated by any candidate: its one empty word occurs in every text |
| SocraticMode.SameNormalFormRepeats | src/ai/flows/socratic-mode-flow.ts:143-151 | a candidate with the same normal form as an earlier question repeats it |
| SocraticMode.RepeatsItself | src/ai/flows/socratic-mode-flow.ts:143-151 | every non-empty question repeats itself |
| SocraticMode.NoSharedWordNoRepeat | src/ai/flows/socratic-mode-flow.ts:143-151 | if none of the earlier question's keywords occurs in the candidate's normal form, it is not a repetition |
| SocraticMode.NonEmpty | src/ai/flows/socratic-mode-flow.ts:115 | `filter(Boolean)` leaves no empty question |
| SocraticMode.NonEmptyMember | src/ai/flows/socratic-mode-flow.ts:115 | a question is kept exactly when it was present and non-empty |
| SocraticMode.Asked | src/ai/flows/socratic-mode-flow.ts:113 | `previousExchanges.map(exchange => exchange.question)`; `PreviousQuestionsMember` states which questions reach the comparison |
| SocraticMode.PreviousQuestions | src/ai/flows/socratic-mode-flow.ts:112-115 | no earlier question is empty |
| SocraticMode.PreviousQuestionsMember | src/ai/flows/socratic-mode-flow.ts:112-115 | a question is compared against exactly when it is non-empty and is the current question or the question of an earlier exchange |
| SocraticMode.AvoidNoteKeepsTopic | src/ai/flows/socratic-mode-flow.ts:159-162 | the new topic begins with the old one and quotes the rejected question |
| SocraticMode.FallbackQuestions | src/ai/flows/socratic-mode-flow.ts:169-175 | there are five fallback questions |
| SocraticMode.FallbackQuotesTopic | src/ai/flows/socratic-mode-flow.ts:169-175 | every fallback question quotes the topic |
| SocraticMode.FallbackStage | src/ai/flows/socratic-mode-flow.ts:183 | "avançado" exactly when there are more than five earlier exchanges, "intermediário" otherwise |
| SocraticMode.FallbackRecord | src/ai/flows/socratic-mode-flow.ts:168-184 | the fallback question is one of the five and quotes the topic; the analysis is the fixed text; the stage follows the exchange count |
| SocraticMode.Keywords | src/ai/flows/socratic-mode-flow.ts:136-139 | lower-cased, without `.,?!;:`, split at spaces, the words longer than three; stated by `CleanedIsPlain`, `LongWordsMember` and `KeywordsOfJoin` |
| SocraticMode.Normalize | src/ai/flows/socratic-mode-flow.ts:136-141 | `normalize`; stated by `NormalizeWords`, `NormalizeIdempotent` and `NormalizeIgnoresOrder` |
| SocraticMode.Repeats | src/ai/flows/socratic-mode-flow.ts:133-151 | the test against one earlier question; stated by `NoKeywordsRepeats`, `SameNormalFormRepeats`, `RepeatsItself` and `NoSharedWordNoRepeat` |
| SocraticMode.IsRepetition | src/ai/flows/socratic-mode-flow.ts:132-152 | `some` over the earlier questions; `RunResult` and `RunRetries` are stated with it |
| SocraticMode.AvoidNote | src/ai/flows/socratic-mode-flow.ts:161 | the topic with the avoid instruction; stated by `AvoidNoteKeepsTopic` |
| SocraticMode.Retopic | src/ai/flows/socratic-mode-flow.ts:159-162 | the next input, with only the topic changed; `RunRetries` is stated with it |
| SocraticMode.Fallback | src/ai/flows/socratic-mode-flow.ts:168-184 | the fallback record; stated by `FallbackRecord` |
| SocraticMode.Run | src/ai/flows/socratic-mode-flow.ts:122-187 | at most three calls from the first attempt; the first call uses the current input |
| SocraticMode.RunRetries | src/ai/flows/socratic-mode-flow.ts:122-165 | every call after the first follows a repeated question, with that question noted in the topic |
| SocraticMode.RunResult | src/ai/flows/socratic-mode-flow.ts:122-187 | the flow falls back when the last call got no answer; when the last answer was repeated it falls back only after the third call; otherwise the last answer is the result |
| SocraticMode.SocraticFlow | src/ai/flows/socratic-mode-flow.ts:110-190 | the loop's result and calls are those of `Run` over the earlier questions, from attempt 0 |
| SocraticMode.OpeningQuestion | src/ai/flows/socratic-mode-flow.ts:52-53 | the model's non-empty question, or else a question quoting the topic |
| EditorToolbar.Wrap | src/components/shared/MarkdownEditorToolbar.tsx:130-143 | the text is the prefix, then the selection, then the suffix; the new selection is exactly the old text, starting after the prefix |
| EditorToolbar.NumberText | src/components/shared/MarkdownEditorToolbar.tsx:91 | a non-empty string of decimal digits |
| EditorToolbar.NumberTextValue | src/components/shared/MarkdownEditorToolbar.tsx:91 | the numeral reads back as the number written |
| EditorToolbar.FirstNumberMark | src/components/shared/MarkdownEditorToolbar.tsx:86-91 | a numbered list's first line gets the one-line form's `1. ` |
| EditorToolbar.MarkLines | src/components/shared/MarkdownEditorToolbar.tsx:63-91 | `lines.map((line, i) => mark + line)`; what a press relies on is stated of the joined block by `MarkedBlockLines` (it splits back into the marked lines) and `MarkedBlockLonger` |
| EditorToolbar.LinkText | src/components/shared/MarkdownEditorToolbar.tsx:48 | the selection, or the placeholder when nothing is selected; never empty |
| EditorToolbar.LinkMarkup | src/components/shared/MarkdownEditorToolbar.tsx:48 | `` `[${selectedText || 'texto do link'}](${url})` ``; stated by `LinkMarkupHolds` |
| EditorToolbar.MarkedBlock | src/components/shared/MarkdownEditorToolbar.tsx:61-96 | split at line feeds, mark each line, join with line feeds; stated by `MarkedBlockLines` and `MarkedBlockLonger` |
| EditorToolbar.LinkMarkupHolds | src/components/shared/MarkdownEditorToolbar.tsx:48 | the link shows its text and holds the address |
| EditorToolbar.EditFor | src/components/shared/MarkdownEditorToolbar.tsx:34-128 | no edit exactly for a link without an address; every edit's selection lies within its text |
| EditorToolbar.Splice | src/components/shared/MarkdownEditorToolbar.tsx:130-131 | the text before the selection and after it are kept, the edit's text lies between them, the length changes by the text's length minus the selection's, and the new selection covers the edit's selected part |
| EditorToolbar.Apply | src/components/shared/MarkdownEditorToolbar.tsx:22-145 | the selection stays valid |
| EditorToolbar.MarkedBlockLines | src/components/shared/MarkdownEditorToolbar.tsx:61-96 | with break-free marks, the marked block splits back into the marked lines: the same number of lines, each with its mark |
| EditorToolbar.MarkedBlockLonger | src/components/shared/MarkdownEditorToolbar.tsx:63 | a marked block is at least as long as the selection |
| EditorToolbar.MarksHaveNoBreak | src/components/shared/MarkdownEditorToolbar.tsx:63-91 | the quote, bullet and number marks hold no line break |
| EditorToolbar.ApplyKeepsSurroundings | src/components/shared/MarkdownEditorToolbar.tsx:50-131 | every button leaves the text before and after the selection unchanged |
| EditorToolbar.EditForWraps | src/components/shared/MarkdownEditorToolbar.tsx:34-128 | every button except the link and the multi-line quote and lists wraps the selection in its prefix and suffix |
| EditorToolbar.ApplyWraps | src/components/shared/MarkdownEditorToolbar.tsx:130-143 | such a press is the splice of the wrapped selection |
| EditorToolbar.SpliceWrap | src/components/shared/MarkdownEditorToolbar.tsx:131-142 | the new text is before + prefix + selection + suffix + after; it grows by the prefix and suffix lengths; the selection starts after the prefix and covers the old selected text |
| EditorToolbar.ApplyListsLines | src/components/shared/MarkdownEditorToolbar.tsx:75-96 | a multi-line list marks every line (`- `, or `i. ` counted from 1) and selects the whole block, which splits back into the marked lines |
| EditorToolbar.ApplyQuotesLines | src/components/shared/MarkdownEditorToolbar.tsx:61-65 | a multi-line quote prefixes every line with `> `; the new selection starts where the old did and has the old length |
| EditorToolbar.ApplyLinks | src/components/shared/MarkdownEditorToolbar.tsx:45-58 | without an address nothing changes; otherwise the selection is replaced by the link, which becomes the selection |
| EditorToolbar.Press | src/components/shared/MarkdownEditorToolbar.tsx:34-145 | the switch's result is the press specified by `Apply` |
| EditorToolbar.PressLink | src/components/shared/MarkdownEditorToolbar.tsx:45-58 | the link case agrees with `Apply` |
| EditorToolbar.PressLines | src/components/shared/MarkdownEditorToolbar.tsx:71-98 | the multi-line list cases agree with `Apply` |
| EditorToolbar.PressCodeBlock | src/components/shared/MarkdownEditorToolbar.tsx:104-113 | the code-block case agrees with `Apply` |
| EditorToolbar.PressQuoteLines | src/components/shared/MarkdownEditorToolbar.tsx:59-65 | the multi-line quote case agrees with `Apply` |
| EditorToolbar.PressMarks | src/components/shared/MarkdownEditorToolbar.tsx:130-144 | the prefix-and-suffix cases, with the cursor for an empty selection, agree with `Apply` |
| EditorToolbar.Editor.constructor | src/components/shared/MarkdownEditorToolbar.tsx:21-27 | the editor holds the given text and a valid selection |
| EditorToolbar.Editor.HandleToolbarAction | src/components/shared/MarkdownEditorToolbar.tsx:22-145 | without a text area nothing changes; otherwise the new text and selection are `Apply` of the old ones |
| MarkdownRenderer.WordRun | src/components/shared/markdown-renderer.tsx:19 | the greedy `\w*` run; the character after it is not a word character |
| MarkdownRenderer.MatchFence | src/components/shared/markdown-renderer.tsx:19 | a match spans a non-empty part of the text |
| MarkdownRenderer.MatchFenceOfBlock | src/components/shared/markdown-renderer.tsx:19 | a fenced block with a word tag and code without backticks is matched with that tag and code, up to and including its closing fence |
| MarkdownRenderer.FencedBlockRest | src/components/shared/markdown-renderer.tsx:19 | the text after the block's match is the text after the closing fence |
| MarkdownRenderer.LanguageClass | src/components/shared/markdown-renderer.tsx:20 | empty exactly for an untagged fence; otherwise `language-` followed by the tag |
| MarkdownRenderer.EscapeChar | src/components/shared/markdown-renderer.tsx:22 | `<` becomes `&lt;`, `>` becomes `&gt;`, any other character stays; `EscapeCodeEach` ties the two replacements to it |
| MarkdownRenderer.EscapeEach | src/components/shared/markdown-renderer.tsx:22 | character-wise escaping leaves no `<` or `>` |
| MarkdownRenderer.ReplaceCharAppend | src/components/shared/markdown-renderer.tsx:22 | replacing a one-character pattern distributes over concatenation |
| MarkdownRenderer.EscapeCodeEach | src/components/shared/markdown-renderer.tsx:22 | the two global replacements equal character-wise escaping |
| MarkdownRenderer.EscapedCodeHasNoAngles | src/components/shared/markdown-renderer.tsx:22-23 | neither the escaped code nor its trimmed form contains `<` or `>` |
| MarkdownRenderer.CodeFencesWithoutFence | src/components/shared/markdown-renderer.tsx:19-24 | a text without three backticks passes the stage unchanged |
| MarkdownRenderer.FencedBlockRendered | src/components/shared/markdown-renderer.tsx:19-24 | a fenced block becomes `<pre><code class="…">` with the escaped, trimmed code, and the scan continues after the closing fence |
| MarkdownRenderer.EscapeCode | src/components/shared/markdown-renderer.tsx:22 | the two global replacements; stated by `EscapeCodeEach` and `EscapedCodeHasNoAngles` |
| MarkdownRenderer.CodeBlockHtml | src/components/shared/markdown-renderer.tsx:20-23 | the `pre`/`code` markup with the language class and the escaped, trimmed code; `FencedBlockRendered` is stated with it |
| MarkdownRenderer.CodeFences | src/components/shared/markdown-renderer.tsx:19-24 | the fenced-code stage; stated by `CodeFencesWithoutFence` and `FencedBlockRendered` |
| MarkdownRenderer.Structural | src/components/shared/markdown-renderer.tsx:69 | the tag test, case-insensitive; `ClassifyLine` is stated with it |
| MarkdownRenderer.LinePass | src/components/shared/markdown-renderer.tsx:67-73 | split, classify and join; stated by `LinePassKeepsText`, `LinePassOneLine` and `LinePassOfEmpty` |
| MarkdownRenderer.CollapseBreaks | src/components/shared/markdown-renderer.tsx:76 | the break-run replacement never lengthens the text; stated by `CollapseWithoutBreak` and `CollapseRun` |
| MarkdownRenderer.ClassifyLine | src/components/shared/markdown-renderer.tsx:68-72 | a blank line becomes `<br />`, a line opening with a structural tag is kept, any other line is wrapped in a paragraph |
| MarkdownRenderer.ClassifyAll | src/components/shared/markdown-renderer.tsx:67-72 | `map(classify)`; its effect on the text is stated by `LinePassKeepsText`, `LinePassOneLine` and `LinePassOfEmpty` |
| MarkdownRenderer.ClassifyKeepsText | src/components/shared/markdown-renderer.tsx:69-72 | a line with text appears in what it becomes |
| MarkdownRenderer.LinePassKeepsText | src/components/shared/markdown-renderer.tsx:67-73 | every line with text appears in the pass's output |
| MarkdownRenderer.LinePassOneLine | src/components/shared/markdown-renderer.tsx:67-73 | the lines are joined without a separator, so the output has no line feed |
| MarkdownRenderer.TagRun | src/components/shared/markdown-renderer.tsx:76 | the run of breaks, each followed by white space: its length is zero exactly when it holds no break, and it covers at least as many tags as it counts (up to two) |
| MarkdownRenderer.CollapseRuns | src/components/shared/markdown-renderer.tsx:76 | collapsing never lengthens the text |
| MarkdownRenderer.CollapseWithoutBreak | src/components/shared/markdown-renderer.tsx:76 | a text without a break is unchanged |
| MarkdownRenderer.TagRunOfRepeat | src/components/shared/markdown-renderer.tsx:76 | `n` adjacent breaks form one run of `n` |
| MarkdownRenderer.CollapseRun | src/components/shared/markdown-renderer.tsx:76 | two or more adjacent breaks become exactly two |
| MarkdownRenderer.StripEdges | src/components/shared/markdown-renderer.tsx:77 | removing the edge breaks never lengthens the text |
| MarkdownRenderer.StripEdgesOfWrapped | src/components/shared/markdown-renderer.tsx:77 | a text between two breaks loses exactly those two |
| MarkdownRenderer.StripEdgesOfPlain | src/components/shared/markdown-renderer.tsx:77 | a text that neither starts nor ends with a break is unchanged |
| MarkdownRenderer.LinePassOfEmpty | src/components/shared/markdown-renderer.tsx:67-73 | an empty text becomes a single break |
| MarkdownRenderer.EmptyTextTidiesAway | src/components/shared/markdown-renderer.tsx:76-77 | that single break is tidied away |
| MarkdownRenderer.EmptyShowsPlaceholder | src/components/shared/markdown-renderer.tsx:67-83 | an empty text shows the placeholder paragraph |
| MarkdownRenderer.Preview | src/components/shared/markdown-renderer.tsx:11-84 | a non-string gives the invalid-content notice; the output is never empty |
| MarkdownRenderer.RenderMarkdown | src/components/shared/markdown-renderer.tsx:11-84 | the stage-by-stage reassignment computes `Preview`; a non-string gives the notice; the output is never empty |
| AppSettings.Get | src/components/settings/AppSettings.tsx:138-149 | a setting's value always has the setting's declared type |
| AppSettings.Set | src/components/settings/AppSettings.tsx:143-149 | the record with one setting replaced; stated by `SetGet`, `SetKeepsOthers` and `SameValuesSameSettings` |
| AppSettings.SetGet | src/components/settings/AppSettings.tsx:143-149 | the replaced setting reads back the new value |
| AppSettings.SetKeepsOthers | src/components/settings/AppSettings.tsx:143-149 | every other setting, in the same category or another, keeps its value |
| AppSettings.SameValuesSameSettings | src/components/settings/AppSettings.tsx:138-149 | records whose settings all agree are equal, so the two lemmas above fix the whole new record |
| AppSettings.SetSameValue | src/components/settings/AppSettings.tsx:143-149 | writing a setting's own value changes nothing |
| AppSettings.SliderRange | src/components/settings/AppSettings.tsx:299-300 | exactly font size, creativity and questions per topic have a slider, each with a proper range |
| AppSettings.DefaultsInRange | src/components/settings/AppSettings.tsx:65-100 | the defaults 16, 50 and 5 lie within the slider ranges [12,24], [0,100] and [3,15] |
| AppSettings.SetKeepsInRange | src/components/settings/AppSettings.tsx:143-149 | a value a slider can produce keeps every setting within range |
| AppSettings.SettingsPage.constructor | src/components/settings/AppSettings.tsx:133-134 | the page opens on the stored record, or the defaults, with no unsaved changes |
| AppSettings.SettingsPage.UpdateSetting | src/components/settings/AppSettings.tsx:138-151 | only the named setting changes, to the new value, and the unsaved flag is set |
| AppSettings.SettingsPage.ResetToDefaults | src/components/settings/AppSettings.tsx:212-217 | when confirmed the record becomes the defaults; otherwise nothing changes; the unsaved flag is never touched |
| AppSettings.SettingsPage.SaveChanges | src/components/settings/AppSettings.tsx:220-224 | the unsaved flag is cleared and the record is unchanged |
| AppSettings.CreativityLabel | src/components/settings/AppSettings.tsx:372-373 | "Conservadora" below 33, "Equilibrada" from 33 below 66, "Criativa" from 66 |
| AppSettings.CreativityLabelDistinguishes | src/components/settings/AppSettings.tsx:372-373 | two values get the same label exactly when they lie in the same third |
| AppSettings.EffectiveDark | src/components/settings/AppSettings.tsx:156-164 | the dark theme is dark, the light theme is light, and the system theme follows the operating system's preference |
| AppSettings.PreferenceMattersOnlyUnderSystem | src/components/settings/AppSettings.tsx:159-164 | the operating system's preference matters exactly under the system theme |
| AppSettings.SoundSwitch | src/components/settings/AppSettings.tsx:620-624 | the sound switch is always off and disabled |
| AppSettings.DependentSwitch | src/components/settings/AppSettings.tsx:634-635 | on only when notifications are on and the stored choice is on; disabled exactly when notifications are off; with notifications on, it shows the stored choice |
| AppSettings.DesktopSwitch | src/components/settings/AppSettings.tsx:632-637 | the desktop switch is the dependent switch over the stored desktop choice; stated by `DependentSwitch` and `MasterSwitchRestores` |
| AppSettings.RemindersSwitch | src/components/settings/AppSettings.tsx:645-650 | the reminders switch is the dependent switch over the stored reminders choice; stated by `DependentSwitch` and `MasterSwitchRestores` |
| AppSettings.MasterSwitchRestores | src/components/settings/AppSettings.tsx:634-648 | turning notifications off and on again restores the record and the switches; while off, the desktop and reminder switches show off |
| CognitiveBattle.DefaultNextQuestion | src/ai/flows/cognitive-battle-flow.ts:96 | the default next question quotes the topic |
| CognitiveBattle.TextOr | src/ai/flows/cognitive-battle-flow.ts:93-96 | a present, non-empty text is kept; otherwise the fallback is used |
| CognitiveBattle.WithDefaults | src/ai/flows/cognitive-battle-flow.ts:92-97 | `isCorrect` holds only when the model said true; every text field is non-empty; with no answer, every field takes its default; with an answer, each text field is the model's text when it is present and non-empty (`TextOr`), and its default otherwise |
| CognitiveBattle.PrefixStatesVerdict | src/ai/flows/cognitive-battle-flow.ts:101-103 | both prefixes contain "CORRETA" |
| CognitiveBattle.MarkVerdict | src/ai/flows/cognitive-battle-flow.ts:100-105 | the verdict rule; stated by `MarkVerdictStates`, `MarkVerdictChanges` and `MarkVerdictIdempotent` |
| CognitiveBattle.MarkVerdictStates | src/ai/flows/cognitive-battle-flow.ts:100-105 | after the rule, the evaluation contains "CORRETA" |
| CognitiveBattle.MarkVerdictChanges | src/ai/flows/cognitive-battle-flow.ts:99-105 | the other fields never change; an evaluation containing "CORRETA" is kept; any other evaluation gets the prefix chosen by `isCorrect` |
| CognitiveBattle.MarkVerdictIdempotent | src/ai/flows/cognitive-battle-flow.ts:100 | applying the rule twice equals applying it once |
| CognitiveBattle.CognitiveBattleFlow | src/ai/flows/cognitive-battle-flow.ts:88-107 | the record with defaults, then the verdict rule; the evaluation contains "CORRETA" |
| InterviewSimulator.InterviewFlow | src/ai/flows/interview-simulator-flow.ts:82-89 | an error exactly when the model gave nothing; the question passes through; no feedback without an answer or for empty feedback; otherwise the model's record is returned unchanged |
| InterviewSimulator.NeverEmptyFeedback | src/ai/flows/interview-simulator-flow.ts:84-88 | the record returned never carries empty feedback |
| SidebarNav.DisplayText | src/components/layout/sidebar-nav.tsx:40 | the label when present and non-empty, else the title |
| SidebarNav.RenderEntry | src/components/layout/sidebar-nav.tsx:27-52 | the entry is active per the route predicate; collapsed on desktop, the button holds the title and the tooltip the display text; otherwise the button shows the display text and there is no tooltip |
| SidebarNav.ActiveIgnoresLayout | src/components/layout/sidebar-nav.tsx:33-47 | both branches use the same active predicate |
| SidebarNav.ActiveOnOwnPath | src/components/layout/sidebar-nav.tsx:33 | every item is active on its own path |
| SidebarNav.RootOnlyOnRoot | src/components/layout/sidebar-nav.tsx:33 | the root item is active exactly on `/` |
| SidebarNav.NoSegmentBoundary | src/components/layout/sidebar-nav.tsx:33 | `/settingsX` activates `/settings` |
| SidebarNav.IsActive | src/components/layout/sidebar-nav.tsx:33 | the route predicate; stated by `ActiveOnOwnPath`, `RootOnlyOnRoot`, `NoSegmentBoundary` and `AtMostOneActive` |
| SidebarNav.AtMostOneActive | src/components/layout/sidebar-nav.tsx:33 | over item paths none of which begins another, at most one item is active |
| SidebarNav.NavHrefsPrefixFree | src/lib/constants.ts:32-110 | the fourteen item paths of the menu are distinct and non-empty, and no path other than `/` begins another |
| SidebarNav.NavAtMostOneActive | src/components/layout/sidebar-nav.tsx:33 | in the application's menu at most one item is highlighted, whatever the path |
| Text.IsSpace | src/ai/flows/knowledge-construction.ts:141 | the ECMAScript WhiteSpace and LineTerminator sets that `\s` and `trim` use |
| Text.Contains | src/ai/flows/socratic-mode-flow.ts:148 | `includes`; stated by `ContainsInside` and `ContainsExtend` |
| Text.ContainsExtend | src/ai/flows/socratic-mode-flow.ts:148 | text appended after an occurrence does not hide it |
| Text.IndexOf | src/components/shared/markdown-renderer.tsx:19 | the first position at which the pattern occurs: it occurs there and at no earlier position, as the lazy match of the closing fence needs |
| Text.StartsWith | src/components/layout/sidebar-nav.tsx:33 | `startsWith`: the pattern is a prefix of the text |
| Text.Join | src/ai/flows/socratic-mode-flow.ts:141 | `join`: the parts with the separator between each two; stated by `JoinSplit`, `SplitJoin` and `JoinContainsPart` |
| Text.LowerChar | src/ai/flows/socratic-mode-flow.ts:136 | an ASCII capital is lowered by 32, and no ASCII capital is left |
| Text.ReplaceAll | src/ai/flows/knowledge-construction.ts:144-146 | a global replacement of a literal pattern; stated by `ReplaceAllLeavesNone` |
| Text.Trim | src/ai/flows/knowledge-construction.ts:141 | `trim()` is the slice between the leading and trailing white space; it is empty exactly for blank text, and otherwise starts and ends with a visible character |
| Text.Split | src/ai/flows/socratic-mode-flow.ts:138 | `split` gives one more part than there are separators, and no part holds a separator |
| Text.JoinSplit | src/components/shared/MarkdownEditorToolbar.tsx:62-63 | joining the parts of a split with the separator gives back the text |
| Text.SplitJoin | src/components/shared/MarkdownEditorToolbar.tsx:62-63 | splitting a join of separator-free parts gives back the parts |
| Text.Lower | src/ai/flows/socratic-mode-flow.ts:136 | `toLowerCase` keeps the length, lowers each character by `LowerChar`, and leaves no ASCII capital |
| Text.LowerIdempotent | src/ai/flows/socratic-mode-flow.ts:136 | lower-casing twice is lower-casing once |
| Text.DeleteChars | src/ai/flows/socratic-mode-flow.ts:137 | deleting a set of characters leaves none of them and nothing new |
| Text.ReplaceAllLeavesNone | src/ai/flows/knowledge-construction.ts:144 | a global replacement of a two-character pattern, by text that cannot recreate it, leaves no occurrence |

## Left out

- The model calls themselves, and the prompt templates. Each flow takes the model's answer as an input (a record or its absence). The Socratic flow takes it as a function of the call number and the input.
- Network clients, streaming and the configuration object: these are I/O only.
- `localStorage` persistence and JSON round-tripping of the settings. The constructor takes the stored record, or none.
- DOM effects: theme classes, font size, reduced motion, high contrast. `window.confirm` is a boolean input, and toasts are dropped.
- The text area's focus and the `setTimeout` before the selection is set. The model sets the selection at once. `window.prompt` becomes the `url` input, `None` when dismissed.
- `Math.random()` in the Socratic fallback. It becomes an arbitrary index `pick < 5`, not a distribution.
- The preview's inline substitutions: headings, quotes, links, emphasis, strike-through, lists and inline code. They are overlapping, non-greedy global replacements with no statable contract, so they are the opaque parameter `inline`. The surrounding `div`, its classes and the JSX output are left out too: the model returns the inner HTML text.
- `toLowerCase` is modelled for ASCII and the Latin-1 capitals. Other scripts are lowered as themselves.
- The default `sort()` compares UTF-16 code units. The model compares code points, which agree inside the Basic Multilingual Plane.
- Text outside the Basic Multilingual Plane is not represented: a Dafny `char` is one Unicode scalar value, while `length` (the `word.length > 3` test at socratic-mode-flow.ts:139) and the text area's offsets count UTF-16 code units, two for such a character.
- SocraticMode.SocraticFlow and SocraticMode.Run read the model's record, as the other flows do with `const {output} = …`. The code at socratic-mode-flow.ts:123 assigns the whole generation response to `output` instead. As written, `output.nextQuestion` is then undefined, so `normalize(nextQuestion)` throws at :144 whenever an earlier question exists; with none, the loop ends and :186 returns the response object rather than the record.
- InterviewSimulator.InterviewFlow: a missing model answer is an `Err` result. Without a user answer the code throws at `output!.aiQuestion` (interview-simulator-flow.ts:86); with one it returns `null` through `return output!` (:88), since `!` is only a type assertion. Both cases are modelled as `Err`.
- AppSettings.SettingsPage.UpdateSetting: requires the value to have the setting's declared type. The code accepts `any`.
- MarkdownRenderer.FencedBlockRendered: stated only for blocks whose tag is a word and whose code has no backtick. Other blocks follow `CodeFences` without a closed-form lemma.
- MarkdownRenderer.EmptyShowsPlaceholder: requires the inline stage to leave an empty text empty. That stage is a parameter here.
- MarkdownRenderer.TagRun: bounds the run's length from below only for one and two tags; the exact length is stated for adjacent tags (`TagRunOfRepeat`).
