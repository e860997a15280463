/** The quiz items the language model is asked to produce, as JSON objects
    with keys `question`, `type`, `options`, `answer` and an optional `page`. */
module QuizItems {
  import opened Wrappers

  datatype QuestionKind = MultipleChoice | TrueFalse

  /** Nothing checks that `answer` is one of `options`: the model's output
      is taken as it comes. */
  datatype QuizItem = QuizItem(
    question: string,
    kind: QuestionKind,
    options: seq<string>,
    answer: string,
    page: Option<int>)
}
