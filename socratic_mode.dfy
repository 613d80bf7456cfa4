/** The Socratic dialogue flow: the keyword normal form of a question, the
    rule that judges a generated question a repetition of an earlier one,
    and the loop that asks the model at most three times before falling
    back to a fixed question. The model itself is an input: for the k-th
    call with a given input it answers with an output record or nothing. */
module SocraticMode {
  import opened Wrappers
  import opened Text

  datatype Exchange = Exchange(question: string, answer: string)

  datatype SocraticInput = SocraticInput(
    topic: string,
    userResponse: string,
    previousExchanges: Option<seq<Exchange>>,
    currentQuestion: Option<string>)

  datatype SocraticOutput = SocraticOutput(nextQuestion: string, analysis: string, dialogueStage: string)

  // ---------------------------------------------------------------------
  // Ordering of words (the default `Array.prototype.sort` comparison)

  /** Lexicographic order on strings, a proper prefix coming first. */
  predicate LessEq(a: string, b: string)
    decreases |a|
  {
    a == [] || (b != [] && (a[0] < b[0] || (a[0] == b[0] && LessEq(a[1..], b[1..]))))
  }

  lemma {:induction false} LessEqTotal(a: string, b: string)
    ensures LessEq(a, b) || LessEq(b, a)
    decreases |a|
  {
    if a != [] && b != [] && a[0] == b[0] {
      LessEqTotal(a[1..], b[1..]);
    }
  }

  lemma {:induction false} LessEqAntisymmetric(a: string, b: string)
    requires LessEq(a, b) && LessEq(b, a)
    ensures a == b
    decreases |a|
  {
    if a != [] && b != [] {
      LessEqAntisymmetric(a[1..], b[1..]);
      assert a == [a[0]] + a[1..] && b == [b[0]] + b[1..];
    }
  }

  /** Every word comes before the next one. */
  predicate Sorted(ws: seq<string>) {
    |ws| < 2 || (LessEq(ws[0], ws[1]) && Sorted(ws[1..]))
  }

  /** `w` put into its place in an ordered list. */
  function Insert(w: string, ws: seq<string>): (r: seq<string>)
    ensures |r| == |ws| + 1
    ensures r[0] == w || (ws != [] && r[0] == ws[0])
    ensures Sorted(ws) ==> Sorted(r)
  {
    if ws == [] then [w]
    else if LessEq(w, ws[0]) then [w] + ws
    else
      LessEqTotal(w, ws[0]);
      var rest := Insert(w, ws[1..]);
      assert ws == [ws[0]] + ws[1..];
      assert ([ws[0]] + rest)[1..] == rest;
      [ws[0]] + rest
  }

  /** `words.sort()`: the same words, in order. */
  function SortWords(ws: seq<string>): (r: seq<string>)
    ensures |r| == |ws|
    ensures Sorted(r)
  {
    if ws == [] then [] else Insert(ws[0], SortWords(ws[1..]))
  }

  lemma {:induction false} InsertPermutes(w: string, ws: seq<string>)
    ensures multiset(Insert(w, ws)) == multiset(ws) + multiset{w}
  {
    if ws != [] && !LessEq(w, ws[0]) {
      InsertPermutes(w, ws[1..]);
      assert ws == [ws[0]] + ws[1..];
    }
  }

  /** Sorting neither adds nor loses a word. */
  lemma {:induction false} SortWordsPermutes(ws: seq<string>)
    ensures multiset(SortWords(ws)) == multiset(ws)
  {
    if ws != [] {
      SortWordsPermutes(ws[1..]);
      InsertPermutes(ws[0], SortWords(ws[1..]));
      assert ws == [ws[0]] + ws[1..];
    }
  }

  /** Words that are already in order are left where they are. */
  lemma {:induction false} SortSorted(ws: seq<string>)
    requires Sorted(ws)
    ensures SortWords(ws) == ws
  {
    if ws != [] {
      SortSorted(ws[1..]);
      assert ws == [ws[0]] + ws[1..];
    }
  }

  /** Two ordered lists with the same words are the same list: the order
      does not depend on where the words came from. */
  lemma {:induction false} SortedUnique(a: seq<string>, b: seq<string>)
    requires Sorted(a) && Sorted(b) && multiset(a) == multiset(b)
    ensures a == b
    decreases |a|
  {
    if a != [] {
      SortedSameHead(a, b);
      MultisetTail(a);
      MultisetTail(b);
      SortedUnique(a[1..], b[1..]);
      assert a == [a[0]] + a[1..] && b == [b[0]] + b[1..];
    }
  }

  lemma MultisetTail(a: seq<string>)
    requires a != []
    ensures multiset(a[1..]) == multiset(a) - multiset{a[0]}
    ensures Sorted(a) ==> Sorted(a[1..])
  {
    assert a == [a[0]] + a[1..];
  }

  /** Ordered lists with the same words start with the same word. */
  lemma SortedSameHead(a: seq<string>, b: seq<string>)
    requires Sorted(a) && Sorted(b) && multiset(a) == multiset(b) && a != []
    ensures b != [] && a[0] == b[0]
  {
    assert a[0] in multiset(b);
    var i :| 0 <= i < |b| && b[i] == a[0];
    assert b[0] in multiset(a);
    var j :| 0 <= j < |a| && a[j] == b[0];
    SortedHeadLeast(b, i);
    SortedHeadLeast(a, j);
    LessEqAntisymmetric(a[0], b[0]);
  }

  lemma LessEqTransitive(a: string, b: string, c: string)
    requires LessEq(a, b) && LessEq(b, c)
    ensures LessEq(a, c)
    decreases |a|
  {
    if a != [] && b != [] && c != [] && a[0] == b[0] == c[0] {
      LessEqTransitive(a[1..], b[1..], c[1..]);
    }
  }

  /** The first word of an ordered list comes before every other. */
  lemma {:induction false} SortedHeadLeast(ws: seq<string>, i: nat)
    requires Sorted(ws) && i < |ws|
    ensures LessEq(ws[0], ws[i])
  {
    if i == 0 {
      LessEqReflexive(ws[0]);
    } else {
      SortedHeadLeast(ws[1..], i - 1);
      LessEqTransitive(ws[0], ws[1], ws[i]);
    }
  }

  lemma LessEqReflexive(a: string)
    ensures LessEq(a, a)
  {
  }

  // ---------------------------------------------------------------------
  // normalize

  /** The punctuation `normalize` deletes. */
  const Punctuation: set<char> := {'.', ',', '?', '!', ';', ':'}

  /** `words.filter(word => word.length > 3)`. */
  function LongWords(ws: seq<string>): (r: seq<string>)
    ensures forall i :: 0 <= i < |r| ==> |r[i]| > 3
  {
    if ws == [] then []
    else if |ws[0]| > 3 then [ws[0]] + LongWords(ws[1..])
    else LongWords(ws[1..])
  }

  /** The filter keeps exactly the long words. */
  lemma {:induction false} LongWordsMember(ws: seq<string>, w: string)
    ensures w in LongWords(ws) <==> w in ws && |w| > 3
  {
    if ws != [] {
      LongWordsMember(ws[1..], w);
      assert w in ws <==> w == ws[0] || w in ws[1..] by { assert ws == [ws[0]] + ws[1..]; }
    }
  }

  lemma {:induction false} LongWordsAllLong(ws: seq<string>)
    requires forall i :: 0 <= i < |ws| ==> |ws[i]| > 3
    ensures LongWords(ws) == ws
  {
    if ws != [] {
      LongWordsAllLong(ws[1..]);
      assert LongWords(ws) == [ws[0]] + LongWords(ws[1..]);
      assert ws == [ws[0]] + ws[1..];
    }
  }

  /** The keywords of a question: lower-cased, without punctuation, split
      at spaces, and only the words longer than three characters. */
  function Keywords(s: string): seq<string> {
    LongWords(Split(DeleteChars(Lower(s), Punctuation), ' '))
  }

  /** `normalize`: the keywords in order, joined by single spaces. */
  function Normalize(s: string): string {
    Join(SortWords(Keywords(s)), " ")
  }

  /** What `normalize` returns, read back through `split(' ')`: the
      ordered keywords, each longer than three characters, without
      spaces, punctuation or capitals, or nothing at all. */
  lemma NormalizeWords(s: string)
    ensures Keywords(s) == [] ==> Normalize(s) == []
    ensures Keywords(s) != [] ==> Split(Normalize(s), ' ') == SortWords(Keywords(s))
    ensures var ws := Split(Normalize(s), ' ');
      Sorted(ws) && forall i :: 0 <= i < |ws| ==> (|ws[i]| > 3 || ws == [[]]) && PlainText(ws[i])
  {
    var ws := SortWords(Keywords(s));
    NormalizedWordsPlain(s);
    if Keywords(s) != [] {
      SplitJoin(ws, ' ');
    }
  }

  /** A character `normalize` leaves alone: already lower case, and no punctuation. */
  predicate Plain(c: char) {
    LowerChar(c) == c && c !in Punctuation
  }

  predicate PlainText(s: string) {
    forall i :: 0 <= i < |s| ==> Plain(s[i])
  }

  lemma CleanedIsPlain(s: string)
    ensures PlainText(DeleteChars(Lower(s), Punctuation))
  {
    var l := Lower(s);
    var r := DeleteChars(l, Punctuation);
    forall i | 0 <= i < |r|
      ensures Plain(r[i])
    {
      var j :| 0 <= j < |l| && l[j] == r[i];
      LowerCharIdempotent(s[j]);
    }
  }

  lemma {:induction false} SplitPlain(s: string, sep: char)
    requires PlainText(s)
    ensures forall i :: 0 <= i < |Split(s, sep)| ==> PlainText(Split(s, sep)[i])
  {
    if |s| > 0 {
      SplitPlain(s[1..], sep);
      var rest := Split(s[1..], sep);
      if s[0] != sep {
        assert PlainText([s[0]] + rest[0]);
        assert Split(s, sep) == [[s[0]] + rest[0]] + rest[1..];
      }
    }
  }

  lemma {:induction false} JoinPlain(ws: seq<string>, sep: string)
    requires PlainText(sep)
    requires forall i :: 0 <= i < |ws| ==> PlainText(ws[i])
    ensures PlainText(Join(ws, sep))
  {
    if |ws| > 1 {
      JoinPlain(ws[1..], sep);
      assert PlainText(ws[0] + sep);
    }
  }

  lemma LowerPlain(s: string)
    requires PlainText(s)
    ensures Lower(s) == s
  {
  }

  /** Words as `normalize` leaves them: plain, without spaces, longer
      than three characters. */
  predicate PlainWords(ws: seq<string>) {
    forall i :: 0 <= i < |ws| ==> PlainText(ws[i]) && ' ' !in ws[i] && |ws[i]| > 3
  }

  lemma NormalizedWordsPlain(s: string)
    ensures PlainWords(SortWords(Keywords(s)))
  {
    var parts := Split(DeleteChars(Lower(s), Punctuation), ' ');
    CleanedIsPlain(s);
    SplitPlain(DeleteChars(Lower(s), Punctuation), ' ');
    var ks := Keywords(s);
    var ws := SortWords(ks);
    SortWordsPermutes(ks);
    forall i | 0 <= i < |ws|
      ensures PlainText(ws[i]) && ' ' !in ws[i] && |ws[i]| > 3
    {
      assert ws[i] in multiset(ks);
      var k :| 0 <= k < |ks| && ks[k] == ws[i];
      LongWordsMember(parts, ks[k]);
      var p :| 0 <= p < |parts| && parts[p] == ks[k];
    }
  }

  /** The keywords of words joined by spaces are those words. */
  lemma KeywordsOfJoin(ws: seq<string>)
    requires PlainWords(ws)
    ensures Keywords(Join(ws, " ")) == ws
  {
    var t := Join(ws, " ");
    JoinPlain(ws, " ");
    LowerPlain(t);
    DeleteCharsAbsent(t, Punctuation);
    assert DeleteChars(Lower(t), Punctuation) == t;
    if ws == [] {
      assert Split(t, ' ') == [[]];
      assert LongWords([[]]) == LongWords([]) == [];
    } else {
      SplitJoin(ws, ' ');
      LongWordsAllLong(ws);
    }
  }

  /** `normalize` applied to its own result changes nothing. */
  lemma NormalizeIdempotent(s: string)
    ensures Normalize(Normalize(s)) == Normalize(s)
  {
    var ws := SortWords(Keywords(s));
    NormalizedWordsPlain(s);
    KeywordsOfJoin(ws);
    SortSorted(ws);
  }

  /** Questions with the same keywords, in whatever order, capitalisation
      or punctuation, have the same normal form. */
  lemma NormalizeIgnoresOrder(a: string, b: string)
    requires multiset(Keywords(a)) == multiset(Keywords(b))
    ensures Normalize(a) == Normalize(b)
  {
    SortWordsPermutes(Keywords(a));
    SortWordsPermutes(Keywords(b));
    SortedUnique(SortWords(Keywords(a)), SortWords(Keywords(b)));
  }

  // ---------------------------------------------------------------------
  // The repetition test

  /** How many of the words `ws` occur in `t`. */
  function Matches(ws: seq<string>, t: string): (m: nat)
    ensures m <= |ws|
    ensures m == |ws| <==> forall i :: 0 <= i < |ws| ==> Contains(t, ws[i])
    ensures m == 0 <==> forall i :: 0 <= i < |ws| ==> !Contains(t, ws[i])
  {
    if ws == [] then 0
    else
      var rest := Matches(ws[1..], t);
      assert forall i :: 0 < i < |ws| ==> ws[i] == ws[1..][i - 1];
      (if Contains(t, ws[0]) then 1 else 0) + rest
  }

  /** The test applied to one earlier question: more than 70% of the words
      of its normal form occur in the normal form of the candidate. The
      `> 0.7` ratio is compared in integers. */
  predicate Repeats(prev: string, next: string) {
    var words := Split(Normalize(prev), ' ');
    prev != [] && 10 * Matches(words, Normalize(next)) > 7 * |words|
  }

  /** The candidate repeats one or more of the earlier questions. */
  predicate IsRepetition(prevs: seq<string>, next: string) {
    exists i :: 0 <= i < |prevs| && Repeats(prevs[i], next)
  }

  /** An earlier question without keywords splits into one empty word,
      which every text contains: it counts as repeated by anything. */
  lemma NoKeywordsRepeats(prev: string, next: string)
    requires prev != [] && Normalize(prev) == []
    ensures Repeats(prev, next)
  {
    assert Split(Normalize(prev), ' ') == [[]];
    assert StartsWith(Normalize(next), []);
  }

  /** A candidate with the same normal form as an earlier question, for
      instance the same question with its words reordered or its
      punctuation changed, is a repetition of it. */
  lemma SameNormalFormRepeats(prev: string, next: string)
    requires prev != [] && Normalize(next) == Normalize(prev)
    ensures Repeats(prev, next)
  {
    var t := Normalize(prev);
    var words := Split(t, ' ');
    JoinSplit(t, ' ');
    forall i | 0 <= i < |words|
      ensures Contains(t, words[i])
    {
      JoinContainsPart(words, [' '], i);
    }
  }

  /** Asking the same question again is always a repetition. */
  lemma RepeatsItself(q: string)
    requires q != []
    ensures Repeats(q, q)
  {
    SameNormalFormRepeats(q, q);
  }

  /** A candidate that shares no keyword with an earlier question with
      keywords does not repeat it. */
  lemma NoSharedWordNoRepeat(prev: string, next: string)
    requires Normalize(prev) != []
    requires forall i :: 0 <= i < |Split(Normalize(prev), ' ')| ==>
      !Contains(Normalize(next), Split(Normalize(prev), ' ')[i])
    ensures !Repeats(prev, next)
  {
  }

  // ---------------------------------------------------------------------
  // The questions compared against

  /** `list.filter(Boolean)` on strings: the empty ones dropped. */
  function NonEmpty(qs: seq<string>): (r: seq<string>)
    ensures forall i :: 0 <= i < |r| ==> r[i] != []
  {
    if qs == [] then []
    else if qs[0] == [] then NonEmpty(qs[1..])
    else [qs[0]] + NonEmpty(qs[1..])
  }

  /** The filter keeps exactly the non-empty strings. */
  lemma {:induction false} NonEmptyMember(qs: seq<string>, q: string)
    ensures q in NonEmpty(qs) <==> q in qs && q != []
  {
    if qs != [] {
      NonEmptyMember(qs[1..], q);
      assert q in qs <==> q == qs[0] || q in qs[1..] by { assert qs == [qs[0]] + qs[1..]; }
    }
  }

  /** The questions of the earlier exchanges and the current question,
      without the missing and empty ones. */
  function PreviousQuestions(input: SocraticInput): (r: seq<string>)
    ensures forall i :: 0 <= i < |r| ==> r[i] != []
  {
    NonEmpty(Asked(input.previousExchanges.GetOr([])) + [input.currentQuestion.GetOr([])])
  }

  /** The questions of the exchanges, in order. */
  function Asked(exchanges: seq<Exchange>): seq<string> {
    seq(|exchanges|, i requires 0 <= i < |exchanges| => exchanges[i].question)
  }

  /** A question is compared against exactly when it is not empty and is
      the current question or the question of an earlier exchange. */
  lemma PreviousQuestionsMember(input: SocraticInput, q: string)
    ensures q in PreviousQuestions(input) <==>
      q != [] && (input.currentQuestion == Some(q) ||
        exists e :: e in input.previousExchanges.GetOr([]) && e.question == q)
  {
    var exchanges := input.previousExchanges.GetOr([]);
    var asked := Asked(exchanges);
    NonEmptyMember(asked + [input.currentQuestion.GetOr([])], q);
    if exists e :: e in exchanges && e.question == q {
      var e :| e in exchanges && e.question == q;
      var i :| 0 <= i < |exchanges| && exchanges[i] == e;
      assert asked[i] == q;
    }
  }

  // ---------------------------------------------------------------------
  // The retry loop and its fallback

  /** The topic with the instruction to avoid a rejected question. */
  function AvoidNote(topic: string, question: string): string {
    topic + " (IMPORTANTE: Evite perguntas similares a: \"" + question + "\")"
  }

  /** The noted topic begins with the old topic and quotes the rejected question. */
  lemma AvoidNoteKeepsTopic(topic: string, question: string)
    ensures StartsWith(AvoidNote(topic, question), topic)
    ensures Contains(AvoidNote(topic, question), "\"" + question + "\"")
  {
    var lead := topic + " (IMPORTANTE: Evite perguntas similares a: ";
    assert AvoidNote(topic, question) == lead + ("\"" + question + "\"") + ")";
    assert AvoidNote(topic, question)[..|topic|] == topic;
    ContainsInside(lead, "\"" + question + "\"", ")");
  }

  /** The input for the next attempt: only the topic changes. */
  function Retopic(input: SocraticInput, question: string): SocraticInput {
    input.(topic := AvoidNote(input.topic, question))
  }

  /** The text before and after the quoted topic in each fallback question. */
  const FallbackLeads: seq<string> := [
    "De que outra perspectiva podemos analisar ",
    "Quais consequências práticas você vê se aplicarmos este entendimento de ",
    "Como sua visão sobre ",
    "O que seria necessário para mudar sua compreensão atual sobre ",
    "Que evidências sustentam ou contradizem sua posição sobre "]
  const FallbackTails: seq<string> := ["?", " ao mundo real?", " se relaciona com outros conceitos fundamentais?", "?", "?"]

  /** The five fallback questions about `topic`. */
  function FallbackQuestions(topic: string): (qs: seq<string>)
    ensures |qs| == 5
  {
    seq(5, i requires 0 <= i < 5 => FallbackLeads[i] + ("\"" + topic + "\"") + FallbackTails[i])
  }

  const FallbackAnalysis: string :=
    "Utilizando pergunta de fallback devido à dificuldade em gerar uma pergunta não repetitiva."

  /** The fallback dialogue stage: advanced after more than five exchanges. */
  function FallbackStage(exchanges: Option<seq<Exchange>>): (stage: string)
    ensures stage == "avançado" <==> exchanges.Some? && |exchanges.value| > 5
    ensures stage == "intermediário" <==> !(exchanges.Some? && |exchanges.value| > 5)
  {
    if exchanges.Some? && |exchanges.value| > 5 then "avançado" else "intermediário"
  }

  /** The fallback record; `pick` stands for the random index into the templates. */
  function Fallback(input: SocraticInput, pick: nat): SocraticOutput
    requires pick < 5
  {
    SocraticOutput(FallbackQuestions(input.topic)[pick], FallbackAnalysis, FallbackStage(input.previousExchanges))
  }

  /** The fallback asks one of the five template questions, each quoting
      the topic, with the fixed analysis and the stage chosen by the
      number of earlier exchanges. */
  lemma FallbackRecord(input: SocraticInput, pick: nat)
    requires pick < 5
    ensures Fallback(input, pick).nextQuestion in FallbackQuestions(input.topic)
    ensures Contains(Fallback(input, pick).nextQuestion, "\"" + input.topic + "\"")
    ensures Fallback(input, pick).analysis == FallbackAnalysis
    ensures Fallback(input, pick).dialogueStage == "avançado" <==>
      input.previousExchanges.Some? && |input.previousExchanges.value| > 5
  {
    FallbackQuotesTopic(input.topic, pick);
  }

  /** Every fallback question quotes the topic. */
  lemma FallbackQuotesTopic(topic: string, pick: nat)
    requires pick < 5
    ensures Contains(FallbackQuestions(topic)[pick], "\"" + topic + "\"")
  {
    ContainsInside(FallbackLeads[pick], "\"" + topic + "\"", FallbackTails[pick]);
  }

  /** What the flow ends with: its result and the inputs of the calls it made. */
  datatype Outcome = Outcome(result: SocraticOutput, calls: seq<SocraticInput>)

  /** The three decisions the retry loop is built from: whether a question
      is a repetition, the input for the next attempt after a rejected
      question, and the fallback record for the last input. */
  datatype Rules = Rules(
    repeated: string -> bool,
    retopic: (SocraticInput, string) -> SocraticInput,
    fallback: SocraticInput -> SocraticOutput)

  /** The decisions of the Socratic flow: the repetition test against the
      earlier questions, the avoid-note in the topic, and the fallback with
      template number `pick`. */
  function FlowRules(prevs: seq<string>, pick: nat): Rules
    requires pick < 5
  {
    Rules(q => IsRepetition(prevs, q), (x, q) => Retopic(x, q), x => Fallback(x, pick))
  }

  /** The model answered, and its question is judged a repetition. */
  predicate Rejected(rules: Rules, reply: Option<SocraticOutput>) {
    reply.Some? && rules.repeated(reply.value.nextQuestion)
  }

  /** The `k`-th call, made with `before`, was answered with a repeated
      question, so the next call is made with `after`, the input with that
      question noted in it. */
  predicate Retried(rules: Rules, reply: (nat, SocraticInput) -> Option<SocraticOutput>,
                    k: nat, before: SocraticInput, after: SocraticInput)
  {
    Rejected(rules, reply(k, before)) && after == rules.retopic(before, reply(k, before).value.nextQuestion)
  }

  /** The rest of the flow from the attempt numbered `attempts`, made with
      input `current`: a missing answer or a question that is not a
      repetition ends it, a repeated question is noted and the model is
      asked again, and after three rejected answers the fallback is used.
      `reply(k, x)` is the model's answer to the k-th call, made with input `x`. */
  function Run(rules: Rules, reply: (nat, SocraticInput) -> Option<SocraticOutput>,
               attempts: nat, current: SocraticInput): (o: Outcome)
    requires attempts <= 3
    ensures |o.calls| <= 3 - attempts
    ensures attempts < 3 ==> o.calls != [] && o.calls[0] == current
    decreases 3 - attempts
  {
    if attempts == 3 then Outcome(rules.fallback(current), [])
    else
      var output := reply(attempts, current);
      if output.None? then Outcome(rules.fallback(current), [current])
      else if !rules.repeated(output.value.nextQuestion) then Outcome(output.value, [current])
      else
        var rest := Run(rules, reply, attempts + 1, rules.retopic(current, output.value.nextQuestion));
        Outcome(rest.result, [current] + rest.calls)
  }

  /** Every call after the first was made because the answer to the one
      before it was a repetition, and with that question noted in the input. */
  lemma {:induction false} RunRetries(rules: Rules, reply: (nat, SocraticInput) -> Option<SocraticOutput>,
                                      attempts: nat, current: SocraticInput, k: nat)
    requires attempts <= 3
    requires k + 1 < |Run(rules, reply, attempts, current).calls|
    ensures var calls := Run(rules, reply, attempts, current).calls;
      Retried(rules, reply, attempts + k, calls[k], calls[k + 1])
    decreases 3 - attempts
  {
    var output := reply(attempts, current);
    var next := rules.retopic(current, output.value.nextQuestion);
    var rest := Run(rules, reply, attempts + 1, next);
    assert Run(rules, reply, attempts, current).calls == [current] + rest.calls;
    if k > 0 {
      RunRetries(rules, reply, attempts + 1, next, k - 1);
    }
  }

  /** How the flow ends, read off its last call: with no answer it falls
      back; with a repeated question it falls back, and only when that was
      the third call; otherwise the answer is the result. */
  lemma {:induction false} RunResult(rules: Rules, reply: (nat, SocraticInput) -> Option<SocraticOutput>,
                                     attempts: nat, current: SocraticInput)
    requires attempts < 3
    ensures var o := Run(rules, reply, attempts, current);
      var n := |o.calls| - 1; var last := reply(attempts + n, o.calls[n]);
      if last.None? then o.result == rules.fallback(o.calls[n])
      else if Rejected(rules, last) then
        attempts + n == 2 && o.result == rules.fallback(rules.retopic(o.calls[n], last.value.nextQuestion))
      else o.result == last.value
    decreases 3 - attempts
  {
    var output := reply(attempts, current);
    if output.Some? && rules.repeated(output.value.nextQuestion) && attempts < 2 {
      var next := rules.retopic(current, output.value.nextQuestion);
      RunResult(rules, reply, attempts + 1, next);
      var rest := Run(rules, reply, attempts + 1, next);
      assert Run(rules, reply, attempts, current).calls == [current] + rest.calls;
    }
  }

  /** The flow. The model is asked at most three times; a missing answer
      ends the loop, a repeated question is noted in the topic before the
      next call. `calls` are the inputs of the calls made, in order. */
  method SocraticFlow(input: SocraticInput, reply: (nat, SocraticInput) -> Option<SocraticOutput>, pick: nat)
    returns (result: SocraticOutput, calls: seq<SocraticInput>)
    requires pick < 5
    ensures Outcome(result, calls) == Run(FlowRules(PreviousQuestions(input), pick), reply, 0, input)
  {
    var prevs := PreviousQuestions(input);
    ghost var rules := FlowRules(prevs, pick);
    var current := input;
    var attempts := 0;
    var output: Option<SocraticOutput> := None;
    calls := [];
    while attempts < 3
      invariant 0 <= attempts <= 3
      invariant var rest := Run(rules, reply, attempts, current);
        Run(rules, reply, 0, input) == Outcome(rest.result, calls + rest.calls)
      invariant attempts > 0 ==> output.Some?
    {
      output := reply(attempts, current);
      calls := calls + [current];
      if output.None? {
        break;
      }
      var nextQuestion := output.value.nextQuestion;
      var isRepetition := IsRepetition(prevs, nextQuestion);
      if !isRepetition {
        break;
      }
      current := Retopic(current, nextQuestion);
      attempts := attempts + 1;
    }
    if output.None? || attempts == 3 {
      result := Fallback(current, pick);
    } else {
      result := output.value;
    }
  }

  /** `startSocraticDialogue`: the model's opening question, or a question
      about the topic when it gives none. */
  function OpeningQuestion(topic: string, reply: Option<string>): (q: string)
    ensures reply.Some? && reply.value != [] ==> q == reply.value
    ensures reply.None? || reply.value == [] ==> Contains(q, "'" + topic + "'")
  {
    if reply.Some? && reply.value != [] then reply.value
    else
      ContainsInside("O que você entende por ", "'" + topic + "'", "?");
      "O que você entende por " + ("'" + topic + "'") + "?"
  }
}
