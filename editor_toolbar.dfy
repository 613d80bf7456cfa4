/** The Markdown editor's toolbar: each button splices Markdown syntax into
    the editor's text around or in place of the selection, and moves the
    selection. */
module EditorToolbar {
  import opened Wrappers
  import opened Text

  datatype Action =
    | Bold | Italic | Link | Quote | BulletList | NumberedList
    | Code | CodeBlock | H1 | H2 | H3

  /** The editor's text and its selection. */
  datatype EditorState = EditorState(content: string, selStart: nat, selEnd: nat)

  predicate ValidState(st: EditorState) {
    st.selStart <= st.selEnd <= |st.content|
  }

  /** What replaces the selected text, and the new selection relative to
      where the old one began. */
  datatype Edit = Edit(text: string, selFrom: nat, selTo: nat)

  /** The syntax placed before and after the selection by the one-block
      form of an action. */
  function Marks(action: Action): (string, string) {
    match action
    case Bold => ("**", "**")
    case Italic => ("*", "*")
    case Code => ("`", "`")
    case CodeBlock => ("```\n", "\n```")
    case H1 => ("# ", "")
    case H2 => ("## ", "")
    case H3 => ("### ", "")
    case Quote => ("> ", "")
    case BulletList => ("- ", "")
    case NumberedList => ("1. ", "")
    case Link => ("", "")
  }

  /** The selection wrapped in `prefix` and `suffix`, with the selection
      kept on the wrapped text (a cursor after the prefix when it is empty). */
  function Wrap(prefix: string, suffix: string, sel: string): (e: Edit)
    ensures |e.text| == |prefix| + |sel| + |suffix| && e.selFrom == |prefix| && e.selTo == |prefix| + |sel|
    ensures e.text[..e.selFrom] == prefix && e.text[e.selFrom..e.selTo] == sel && e.text[e.selTo..] == suffix
  {
    assert (prefix + sel + suffix)[..|prefix|] == prefix;
    assert (prefix + sel + suffix)[|prefix|..|prefix| + |sel|] == sel;
    assert (prefix + sel + suffix)[|prefix| + |sel|..] == suffix;
    Edit(prefix + sel + suffix, |prefix|, |prefix| + |sel|)
  }

  /** The decimal numeral of `n`. */
  function NumberText(n: nat): (r: string)
    ensures r != []
    ensures forall i :: 0 <= i < |r| ==> '0' <= r[i] <= '9'
  {
    if n < 10 then [Digit(n)] else NumberText(n / 10) + [Digit(n % 10)]
  }

  function Digit(d: nat): (c: char)
    requires d < 10
    ensures '0' <= c <= '9'
  {
    ('0' as int + d) as char
  }

  /** The number a numeral denotes. */
  function NumeralValue(s: string): nat
    requires forall i :: 0 <= i < |s| ==> '0' <= s[i] <= '9'
  {
    if s == [] then 0
    else NumeralValue(s[..|s| - 1]) * 10 + (s[|s| - 1] as int - '0' as int)
  }

  /** Reading a numeral back gives the number written. */
  lemma {:induction false} NumberTextValue(n: nat)
    ensures NumeralValue(NumberText(n)) == n
  {
    if n >= 10 {
      var s := NumberText(n / 10) + [Digit(n % 10)];
      assert s[..|s| - 1] == NumberText(n / 10);
      NumberTextValue(n / 10);
    }
  }

  /** Each line's mark in a multi-line quote, bulleted list and numbered
      list; the numbered list counts from 1. */
  function QuoteMark(i: nat): string { "> " }
  function BulletMark(i: nat): string { "- " }
  function NumberMark(i: nat): string { NumberText(i + 1) + ". " }

  /** The first line of a numbered list carries the mark the one-line
      form uses. */
  lemma FirstNumberMark()
    ensures NumberMark(0) == Marks(NumberedList).0
  {
  }

  /** Every line with its mark before it. */
  function MarkLines(lines: seq<string>, mark: nat -> string): seq<string> {
    seq(|lines|, i requires 0 <= i < |lines| => mark(i) + lines[i])
  }

  /** The selection, line by line, with each line marked. */
  function MarkedBlock(sel: string, mark: nat -> string): string {
    Join(MarkLines(Split(sel, '\n'), mark), "\n")
  }

  /** The Markdown link for the selection, or for a placeholder text when
      nothing is selected. */
  function LinkMarkup(sel: string, url: string): string {
    "[" + LinkText(sel) + "](" + url + ")"
  }

  /** The text a link shows: the selection, or a placeholder. */
  function LinkText(sel: string): (t: string)
    ensures t != []
    ensures sel != [] ==> t == sel
  {
    if sel == [] then "texto do link" else sel
  }

  /** The link shows its text and holds the address. */
  lemma LinkMarkupHolds(sel: string, url: string)
    ensures Contains(LinkMarkup(sel, url), LinkText(sel))
    ensures Contains(LinkMarkup(sel, url), url)
  {
    var shown := LinkText(sel);
    ContainsInside("[", shown, "](" + url + ")");
    ContainsInside("[" + shown + "](", url, ")");
    assert "[" + shown + ("](" + url + ")") == "[" + shown + "](" + url + ")";
  }

  /** The edit a button makes, or `None` when it changes nothing (a link
      without an address). */
  function EditFor(action: Action, sel: string, url: Option<string>): (e: Option<Edit>)
    ensures e.None? <==> action == Link && (url.None? || url.value == [])
    ensures e.Some? ==> e.value.selFrom <= e.value.selTo <= |e.value.text|
  {
    match action
    case Link =>
      if url.None? || url.value == [] then None
      else
        var t := LinkMarkup(sel, url.value);
        Some(Edit(t, 0, |t|))
    case Quote =>
      if '\n' in sel then
        MarkedBlockLonger(sel, QuoteMark);
        Some(Edit(MarkedBlock(sel, QuoteMark), 0, |sel|))
      else Some(Wrap(Marks(Quote).0, Marks(Quote).1, sel))
    case BulletList =>
      if '\n' in sel then
        var b := MarkedBlock(sel, BulletMark);
        Some(Edit(b, 0, |b|))
      else Some(Wrap(Marks(BulletList).0, Marks(BulletList).1, sel))
    case NumberedList =>
      if '\n' in sel then
        var b := MarkedBlock(sel, NumberMark);
        Some(Edit(b, 0, |b|))
      else Some(Wrap(Marks(NumberedList).0, Marks(NumberedList).1, sel))
    case _ => Some(Wrap(Marks(action).0, Marks(action).1, sel))
  }

  /** The selection replaced by an edit's text, and the new selection. */
  function Splice(st: EditorState, e: Edit): (r: EditorState)
    requires ValidState(st) && e.selFrom <= e.selTo <= |e.text|
    ensures ValidState(r)
    ensures |r.content| == |st.content| - (st.selEnd - st.selStart) + |e.text|
    ensures r.content[..st.selStart] == st.content[..st.selStart]
    ensures r.content[st.selStart + |e.text|..] == st.content[st.selEnd..]
    ensures r.content[st.selStart..st.selStart + |e.text|] == e.text
    ensures r.content[r.selStart..r.selEnd] == e.text[e.selFrom..e.selTo]
  {
    var c := st.content[..st.selStart] + e.text + st.content[st.selEnd..];
    assert c[st.selStart..st.selStart + |e.text|] == e.text;
    assert c[st.selStart + e.selFrom..st.selStart + e.selTo] == e.text[e.selFrom..e.selTo];
    EditorState(c, st.selStart + e.selFrom, st.selStart + e.selTo)
  }

  /** The editor after a button press. */
  function Apply(st: EditorState, action: Action, url: Option<string>): (r: EditorState)
    requires ValidState(st)
    ensures ValidState(r)
  {
    match EditFor(action, st.content[st.selStart..st.selEnd], url)
    case None => st
    case Some(e) => Splice(st, e)
  }

  /** Joining marked lines gives a text no shorter than the lines
      joined alone. */
  lemma {:induction false} MarkLinesLonger(lines: seq<string>, mark: nat -> string, sep: string)
    ensures |Join(MarkLines(lines, mark), sep)| >= |Join(lines, sep)|
    decreases |lines|
  {
    if |lines| > 1 {
      var marked := MarkLines(lines, mark);
      var shifted := MarkLines(lines[1..], (i: nat) => mark(i + 1));
      assert marked[1..] == shifted;
      MarkLinesLonger(lines[1..], (i: nat) => mark(i + 1), sep);
      JoinCons(lines[0], lines[1..], sep);
      assert [lines[0]] + lines[1..] == lines;
      JoinCons(marked[0], marked[1..], sep);
      assert [marked[0]] + marked[1..] == marked;
    } else if |lines| == 1 {
      assert Join(lines, sep) == lines[0];
      assert Join(MarkLines(lines, mark), sep) == MarkLines(lines, mark)[0];
    }
  }

  lemma MarkedBlockLonger(sel: string, mark: nat -> string)
    ensures |MarkedBlock(sel, mark)| >= |sel|
  {
    MarkLinesLonger(Split(sel, '\n'), mark, "\n");
    JoinSplit(sel, '\n');
  }

  /** A multi-line edit keeps the lines apart: the marked block splits back
      into the selection's lines, each with its mark, so the block has as
      many lines as the selection. */
  lemma MarkedBlockLines(sel: string, mark: nat -> string)
    requires forall i: nat :: '\n' !in mark(i)
    ensures Split(MarkedBlock(sel, mark), '\n') == MarkLines(Split(sel, '\n'), mark)
    ensures |Split(MarkedBlock(sel, mark), '\n')| == |Split(sel, '\n')|
  {
    var lines := Split(sel, '\n');
    var marked := MarkLines(lines, mark);
    forall i | 0 <= i < |marked|
      ensures '\n' !in marked[i]
    {
      assert marked[i] == mark(i) + lines[i];
      assert '\n' !in mark(i);
    }
    SplitJoin(marked, '\n');
  }

  /** The three line marks hold no line break. */
  lemma MarksHaveNoBreak()
    ensures forall i: nat :: '\n' !in QuoteMark(i)
    ensures forall i: nat :: '\n' !in BulletMark(i)
    ensures forall i: nat :: '\n' !in NumberMark(i)
  {
    forall i: nat
      ensures '\n' !in NumberMark(i)
    {
      var d := NumberText(i + 1);
      assert NumberMark(i) == d + ". ";
      assert forall k :: 0 <= k < |d| ==> d[k] != '\n';
    }
  }

  /** Every button leaves the text before the selection and the text after
      it as they were. */
  lemma ApplyKeepsSurroundings(st: EditorState, action: Action, url: Option<string>)
    requires ValidState(st)
    ensures var r := Apply(st, action, url);
      var tail := |st.content| - st.selEnd;
      st.selStart + tail <= |r.content| &&
      r.content[..st.selStart] == st.content[..st.selStart] &&
      r.content[|r.content| - tail..] == st.content[st.selEnd..]
  {
  }

  /** The actions whose edit wraps the selection in their marks. */
  predicate WrapsSelection(action: Action, sel: string) {
    action != Link && (action in {Quote, BulletList, NumberedList} ==> '\n' !in sel)
  }

  lemma EditForWraps(action: Action, sel: string, url: Option<string>)
    requires WrapsSelection(action, sel)
    ensures EditFor(action, sel, url) == Some(Wrap(Marks(action).0, Marks(action).1, sel))
  {
  }

  /** A one-block edit (the formatting buttons, the code block, and a
      quote or list on a single line) wraps the selection in the action's
      marks. */
  lemma ApplyWraps(st: EditorState, action: Action, url: Option<string>)
    requires ValidState(st) && WrapsSelection(action, st.content[st.selStart..st.selEnd])
    ensures Apply(st, action, url) ==
      Splice(st, Wrap(Marks(action).0, Marks(action).1, st.content[st.selStart..st.selEnd]))
  {
    EditForWraps(action, st.content[st.selStart..st.selEnd], url);
  }

  /** Wrapping grows the text by the marks' length, puts the marks around
      the selected text, and selects that text right after the prefix. */
  lemma SpliceWrap(st: EditorState, prefix: string, suffix: string)
    requires ValidState(st)
    ensures var sel := st.content[st.selStart..st.selEnd];
      var r := Splice(st, Wrap(prefix, suffix, sel));
      r.content == st.content[..st.selStart] + prefix + sel + suffix + st.content[st.selEnd..] &&
      |r.content| == |st.content| + |prefix| + |suffix| &&
      r.selStart == st.selStart + |prefix| &&
      r.content[r.selStart..r.selEnd] == sel
  {
    var sel := st.content[st.selStart..st.selEnd];
    assert st.content[..st.selStart] + (prefix + sel + suffix) + st.content[st.selEnd..]
      == st.content[..st.selStart] + prefix + sel + suffix + st.content[st.selEnd..];
  }

  /** A multi-line list edit marks every selected line and selects the
      whole block it inserted. */
  lemma ApplyListsLines(st: EditorState, action: Action, url: Option<string>)
    requires ValidState(st) && action in {BulletList, NumberedList}
    requires '\n' in st.content[st.selStart..st.selEnd]
    ensures var r := Apply(st, action, url);
      var sel := st.content[st.selStart..st.selEnd];
      var mark := if action == BulletList then BulletMark else NumberMark;
      r.selStart == st.selStart &&
      r.content[r.selStart..r.selEnd] == MarkedBlock(sel, mark) &&
      Split(r.content[r.selStart..r.selEnd], '\n') == MarkLines(Split(sel, '\n'), mark)
  {
    var sel := st.content[st.selStart..st.selEnd];
    var mark := if action == BulletList then BulletMark else NumberMark;
    var b := MarkedBlock(sel, mark);
    var r := Apply(st, action, url);
    assert r.content == st.content[..st.selStart] + b + st.content[st.selEnd..];
    assert r.content[r.selStart..r.selEnd] == b;
    MarksHaveNoBreak();
    MarkedBlockLines(sel, mark);
  }

  /** A multi-line quote marks every selected line with "> "; the new
      selection starts where the old one did and is as long as it was. */
  lemma ApplyQuotesLines(st: EditorState, url: Option<string>)
    requires ValidState(st)
    requires '\n' in st.content[st.selStart..st.selEnd]
    ensures var r := Apply(st, Quote, url);
      var sel := st.content[st.selStart..st.selEnd];
      var b := MarkedBlock(sel, QuoteMark);
      r.content == st.content[..st.selStart] + b + st.content[st.selEnd..] &&
      Split(b, '\n') == MarkLines(Split(sel, '\n'), QuoteMark) &&
      r.selStart == st.selStart && r.selEnd == st.selStart + |sel|
  {
    MarksHaveNoBreak();
    MarkedBlockLines(st.content[st.selStart..st.selEnd], QuoteMark);
  }

  /** A link without an address changes nothing; with one, the selection is
      replaced by the link, which shows the selected text (or the
      placeholder), and the link becomes the selection. */
  lemma ApplyLinks(st: EditorState, url: Option<string>)
    requires ValidState(st)
    ensures url.None? || url.value == [] ==> Apply(st, Link, url) == st
    ensures url.Some? && url.value != [] ==>
      var r := Apply(st, Link, url);
      var sel := st.content[st.selStart..st.selEnd];
      var t := LinkMarkup(sel, url.value);
      r.content == st.content[..st.selStart] + t + st.content[st.selEnd..] &&
      r.selStart == st.selStart && r.selEnd == st.selStart + |t| &&
      r.content[r.selStart..r.selEnd] == t
  {
    if url.Some? && url.value != [] {
      var sel := st.content[st.selStart..st.selEnd];
      var t := LinkMarkup(sel, url.value);
      var r := Apply(st, Link, url);
      assert r.content[r.selStart..r.selEnd] == t;
    }
  }

  /** A press whose edit is known. */
  lemma PressIs(st: EditorState, action: Action, url: Option<string>, e: Edit)
    requires ValidState(st) && EditFor(action, st.content[st.selStart..st.selEnd], url) == Some(e)
    ensures Apply(st, action, url) == Splice(st, e)
  {
  }

  lemma Regroup(before: string, prefix: string, sel: string, suffix: string, after: string)
    ensures before + prefix + sel + suffix + after == before + (prefix + sel + suffix) + after
  {
  }

  /** The body of a button press: the switch over the actions. Each way a
      case ends gets its own helper (the link, the multi-line lists and the
      code block return early; a multi-line quote builds its own text; the
      rest share the prefix-and-suffix splice). */
  method Press(st: EditorState, action: Action, url: Option<string>) returns (r: EditorState)
    requires ValidState(st)
    ensures r == Apply(st, action, url)
  {
    var selected := st.content[st.selStart..st.selEnd];
    if action == Link {
      r := PressLink(st, url);
    } else if action in {BulletList, NumberedList} && '\n' in selected {
      r := PressLines(st, action, url);
    } else if action == CodeBlock {
      r := PressCodeBlock(st, url);
    } else if action == Quote && '\n' in selected {
      r := PressQuoteLines(st, url);
    } else {
      r := PressMarks(st, action, url);
    }
  }

  /** The link button: nothing without an address; otherwise the selection
      becomes a link, which is then selected. */
  method PressLink(st: EditorState, url: Option<string>) returns (r: EditorState)
    requires ValidState(st)
    ensures r == Apply(st, Link, url)
  {
    var content, start, end := st.content, st.selStart, st.selEnd;
    var selected := content[start..end];
    if url.Some? && url.value != [] {
      var link := LinkMarkup(selected, url.value);
      r := EditorState(content[..start] + link + content[end..], start, start + |link|);
      PressIs(st, Link, url, Edit(link, 0, |link|));
    } else {
      r := st;
    }
  }

  /** A list over several lines: each line is marked and the block is
      selected. */
  method PressLines(st: EditorState, action: Action, url: Option<string>) returns (r: EditorState)
    requires ValidState(st) && action in {BulletList, NumberedList}
    requires '\n' in st.content[st.selStart..st.selEnd]
    ensures r == Apply(st, action, url)
  {
    var content, start, end := st.content, st.selStart, st.selEnd;
    var selected := content[start..end];
    var mark := if action == BulletList then BulletMark else NumberMark;
    var listItems := Join(MarkLines(Split(selected, '\n'), mark), "\n");
    r := EditorState(content[..start] + listItems + content[end..], start, start + |listItems|);
    PressIs(st, action, url, Edit(listItems, 0, |listItems|));
  }

  /** The code block: the selection between fence lines, and selected. */
  method PressCodeBlock(st: EditorState, url: Option<string>) returns (r: EditorState)
    requires ValidState(st)
    ensures r == Apply(st, CodeBlock, url)
  {
    var content, start, end := st.content, st.selStart, st.selEnd;
    var selected := content[start..end];
    var prefix, suffix := Marks(CodeBlock).0, Marks(CodeBlock).1;
    r := EditorState(content[..start] + prefix + selected + suffix + content[end..],
      start + |prefix|, start + |prefix| + |selected|);
    EditForWraps(CodeBlock, selected, url);
    Regroup(content[..start], prefix, selected, suffix, content[end..]);
    PressIs(st, CodeBlock, url, Wrap(prefix, suffix, selected));
  }

  /** A quote over several lines marks each line. No prefix is set, so the
      new selection starts where the old one did and is as long as it was. */
  method PressQuoteLines(st: EditorState, url: Option<string>) returns (r: EditorState)
    requires ValidState(st) && '\n' in st.content[st.selStart..st.selEnd]
    ensures r == Apply(st, Quote, url)
  {
    var content, start, end := st.content, st.selStart, st.selEnd;
    var selected := content[start..end];
    var lines := Split(selected, '\n');
    var quotedLines := Join(MarkLines(lines, QuoteMark), "\n");
    MarkedBlockLonger(selected, QuoteMark);
    var newContent := content[..start] + quotedLines + content[end..];
    var newCursorPos := end + |lines|;  // computed but not used by the selection
    r := EditorState(newContent, start, start + |selected|);
    PressIs(st, Quote, url, Edit(quotedLines, 0, |selected|));
  }

  /** Every other action sets its prefix and suffix, wraps the selection in
      them, and selects the wrapped text (a cursor after the prefix when
      nothing was selected). */
  method PressMarks(st: EditorState, action: Action, url: Option<string>) returns (r: EditorState)
    requires ValidState(st) && WrapsSelection(action, st.content[st.selStart..st.selEnd])
    ensures r == Apply(st, action, url)
  {
    var content, start, end := st.content, st.selStart, st.selEnd;
    var selected := content[start..end];
    var prefix, suffix := Marks(action).0, Marks(action).1;
    var newCursorPos := start + |prefix|;
    var newContent := content[..start] + prefix + selected + suffix + content[end..];
    Regroup(content[..start], prefix, selected, suffix, content[end..]);
    if selected != [] {
      r := EditorState(newContent, start + |prefix|, start + |prefix| + |selected|);
    } else {
      r := EditorState(newContent, newCursorPos, newCursorPos);
    }
    EditForWraps(action, selected, url);
    PressIs(st, action, url, Wrap(prefix, suffix, selected));
  }

  /** The editor: its text and its selection. */
  class Editor {
    var content: string
    var selStart: nat
    var selEnd: nat

    predicate Valid()
      reads this
    {
      selStart <= selEnd <= |content|
    }

    function State(): EditorState
      reads this
    {
      EditorState(content, selStart, selEnd)
    }

    constructor(text: string, start: nat, end: nat)
      requires start <= end <= |text|
      ensures Valid() && State() == EditorState(text, start, end)
    {
      content, selStart, selEnd := text, start, end;
    }

    /** A toolbar button press. `url` is what the user typed when asked for
        a link's address (`None` when the question was dismissed), and
        `hasTextarea` whether the text area is mounted; without it nothing
        happens. */
    method HandleToolbarAction(action: Action, url: Option<string>, hasTextarea: bool)
      requires Valid()
      modifies this
      ensures Valid()
      ensures State() == if hasTextarea then Apply(old(State()), action, url) else old(State())
    {
      if !hasTextarea {
        return;
      }
      var next := Press(State(), action, url);
      content, selStart, selEnd := next.content, next.selStart, next.selEnd;
    }
  }
}
