/** The cognitive battle flow's post-processing of the model's answer:
    every missing or empty field gets a fixed default, and an evaluation
    that does not state its verdict is prefixed with one. */
module CognitiveBattle {
  import opened Wrappers
  import opened Text

  /** The model's answer; a field it left out is `None`. */
  datatype BattleReply = BattleReply(
    evaluation: Option<string>,
    isCorrect: Option<bool>,
    correctAnswer: Option<string>,
    nextQuestion: Option<string>)

  datatype BattleOutput = BattleOutput(
    evaluation: string,
    isCorrect: bool,
    correctAnswer: string,
    nextQuestion: string)

  const DefaultEvaluation: string := "Não foi possível avaliar sua resposta neste momento."
  const DefaultCorrectAnswer: string := "A resposta correta não está disponível neste momento."
  const Verdict: string := "CORRETA"
  const CorrectPrefix: string := "Sua resposta está " + Verdict + ": "
  const UncertainPrefix: string := "Sua resposta está PARCIALMENTE " + Verdict + "/INCORRETA: "

  /** The next question used when the model gives none: it quotes the topic. */
  function DefaultNextQuestion(topic: string): (q: string)
    ensures Contains(q, "\"" + topic + "\"")
  {
    ContainsInside("Vamos continuar explorando o tópico ", "\"" + topic + "\"",
      ". O que mais você sabe sobre isso?");
    "Vamos continuar explorando o tópico " + ("\"" + topic + "\"") + ". O que mais você sabe sobre isso?"
  }

  /** `output?.field || fallback` for a text field: a missing or empty text is replaced. */
  function TextOr(field: Option<string>, fallback: string): (r: string)
    ensures field.Some? && field.value != [] ==> r == field.value
    ensures field.None? || field.value == [] ==> r == fallback
  {
    if field.Some? && field.value != [] then field.value else fallback
  }

  /** The record built from the model's answer, or from nothing when the
      model gave no answer. */
  function WithDefaults(output: Option<BattleReply>, topic: string): (f: BattleOutput)
    ensures f.isCorrect <==> output.Some? && output.value.isCorrect == Some(true)
    ensures f.evaluation != [] && f.correctAnswer != [] && f.nextQuestion != []
    ensures output.None? ==> f == BattleOutput(DefaultEvaluation, false, DefaultCorrectAnswer, DefaultNextQuestion(topic))
    ensures output.Some? ==>
      f.evaluation == TextOr(output.value.evaluation, DefaultEvaluation) &&
      f.correctAnswer == TextOr(output.value.correctAnswer, DefaultCorrectAnswer) &&
      f.nextQuestion == TextOr(output.value.nextQuestion, DefaultNextQuestion(topic))
  {
    var reply := output.GetOr(BattleReply(None, None, None, None));
    BattleOutput(
      TextOr(reply.evaluation, DefaultEvaluation),
      reply.isCorrect == Some(true),
      TextOr(reply.correctAnswer, DefaultCorrectAnswer),
      TextOr(reply.nextQuestion, DefaultNextQuestion(topic)))
  }

  /** The prefix an evaluation without a verdict receives, chosen by the
      model's correctness flag. */
  function VerdictPrefix(isCorrect: bool): string {
    if isCorrect then CorrectPrefix else UncertainPrefix
  }

  /** Both prefixes state the verdict. */
  lemma PrefixStatesVerdict(isCorrect: bool)
    ensures Contains(VerdictPrefix(isCorrect), Verdict)
  {
    if isCorrect {
      ContainsInside("Sua resposta está ", Verdict, ": ");
    } else {
      ContainsInside("Sua resposta está PARCIALMENTE ", Verdict, "/INCORRETA: ");
    }
  }

  /** The verdict rule on the evaluation alone. */
  function MarkVerdict(f: BattleOutput): BattleOutput {
    if Contains(f.evaluation, Verdict) then f
    else f.(evaluation := VerdictPrefix(f.isCorrect) + f.evaluation)
  }

  /** After the rule the evaluation states a verdict. */
  lemma MarkVerdictStates(f: BattleOutput)
    ensures Contains(MarkVerdict(f).evaluation, Verdict)
  {
    if !Contains(f.evaluation, Verdict) {
      PrefixStatesVerdict(f.isCorrect);
      ContainsExtend(VerdictPrefix(f.isCorrect), f.evaluation, Verdict);
    }
  }

  /** The rule changes only the evaluation, and only when it states no
      verdict: then the evaluation is kept, after the prefix chosen by
      `isCorrect`. */
  lemma MarkVerdictChanges(f: BattleOutput)
    ensures var g := MarkVerdict(f);
      g.isCorrect == f.isCorrect && g.correctAnswer == f.correctAnswer && g.nextQuestion == f.nextQuestion
    ensures Contains(f.evaluation, Verdict) ==> MarkVerdict(f) == f
    ensures !Contains(f.evaluation, Verdict) ==>
      MarkVerdict(f).evaluation == (if f.isCorrect then CorrectPrefix else UncertainPrefix) + f.evaluation
  {
  }

  /** Applying the rule twice is applying it once; an evaluation that says
      INCORRETA already contains the verdict word and is left alone. */
  lemma MarkVerdictIdempotent(f: BattleOutput)
    ensures MarkVerdict(MarkVerdict(f)) == MarkVerdict(f)
  {
    MarkVerdictStates(f);
  }

  /** The flow after the model call: the record with defaults, whose
      evaluation is then overwritten when it states no verdict. */
  method CognitiveBattleFlow(output: Option<BattleReply>, topic: string) returns (formatted: BattleOutput)
    ensures formatted == MarkVerdict(WithDefaults(output, topic))
    ensures Contains(formatted.evaluation, Verdict)
  {
    formatted := WithDefaults(output, topic);
    if !Contains(formatted.evaluation, Verdict) {
      var prefix := if formatted.isCorrect then CorrectPrefix else UncertainPrefix;
      formatted := formatted.(evaluation := prefix + formatted.evaluation);
    }
    MarkVerdictStates(WithDefaults(output, topic));
  }
}
