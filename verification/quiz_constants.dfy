/**
  * The quiz's fixed dimensions (QuizConstantsHelper): three pages of five
  * questions each, fifteen questions in all.
  */
module QuizConstants {

  /** QUESTIONS_PER_PAGE */
  const QuestionsPerPage: nat := 5

  /** NUMBER_OF_PAGES, which QuizForm#total_steps returns. */
  const NumberOfPages: nat := 3

  /** TOTAL_QUESTIONS, the denominator of the score percentage. */
  const TotalQuestions: nat := 15
}
