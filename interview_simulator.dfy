/** The interview simulator flow's treatment of the model's feedback: no
    feedback is returned for a turn without an answer, nor an empty one. */
module InterviewSimulator {
  import opened Wrappers

  datatype InterviewOutput = InterviewOutput(aiQuestion: string, feedbackOnAnswer: Option<string>)

  /** Why the flow produced no record. */
  datatype FlowError = NoModelOutput

  /** The flow after the model call. A missing model answer is an error:
      without a user answer the source throws reading `output!.aiQuestion`,
      and with one it returns `null`; both become `Err`. */
  function InterviewFlow(userAnswer: Option<string>, output: Option<InterviewOutput>): (r: Result<InterviewOutput, FlowError>)
    ensures output.None? <==> r.Err?
    ensures r.Ok? ==> r.value.aiQuestion == output.value.aiQuestion
    ensures r.Ok? && (userAnswer.None? || userAnswer == Some([])) ==> r.value.feedbackOnAnswer.None?
    ensures r.Ok? && output.value.feedbackOnAnswer == Some([]) ==> r.value.feedbackOnAnswer.None?
    ensures r.Ok? && userAnswer.Some? && userAnswer.value != [] && output.value.feedbackOnAnswer != Some([]) ==>
      r.value == output.value
  {
    var noAnswer := userAnswer.None? || userAnswer.value == [];
    var emptyFeedback := output.Some? && output.value.feedbackOnAnswer == Some([]);
    if output.None? then Err(NoModelOutput)
    else if noAnswer || emptyFeedback then Ok(InterviewOutput(output.value.aiQuestion, None))
    else Ok(output.value)
  }

  /** The record returned never carries an empty feedback text. */
  lemma NeverEmptyFeedback(userAnswer: Option<string>, output: Option<InterviewOutput>)
    ensures var r := InterviewFlow(userAnswer, output);
      r.Ok? ==> r.value.feedbackOnAnswer != Some([])
  {
  }
}
