/**
  * StepsHelper: labels and index arithmetic for the quiz pages — the page
  * label of a page key, the I18n key of a question, the running question
  * number across pages and the text of a blank-answer error.
  */
module StepsHelper {
  import opened Runtime
  import opened QuizConstants
  import QuizFormModel

  predicate NoDigit(s: string) {
    forall i :: 0 <= i < |s| ==> !IsDigit(s[i])
  }

  /** What is left of `s` from its first digit on (empty when it has none). */
  function FromFirstDigit(s: string): (t: string)
    ensures |t| <= |s|
  {
    if s == [] || IsDigit(s[0]) then s else FromFirstDigit(s[1..])
  }

  lemma {:induction false} FromFirstDigitSplits(s: string)
    ensures var t := FromFirstDigit(s);
      && t == s[|s| - |t|..]
      && (t != [] ==> IsDigit(t[0]))
      && NoDigit(s[..|s| - |t|])
  {
    if s != [] && !IsDigit(s[0]) {
      FromFirstDigitSplits(s[1..]);
      var t := FromFirstDigit(s);
      assert s[..|s| - |t|] == [s[0]] + s[1..][..|s| - 1 - |t|];
    }
  }

  lemma {:induction false} FromFirstDigitSkips(prefix: string, s: string)
    requires NoDigit(prefix)
    ensures FromFirstDigit(prefix + s) == FromFirstDigit(s)
  {
    if prefix == [] {
      assert prefix + s == s;
    } else {
      assert (prefix + s)[0] == prefix[0];
      assert (prefix + s)[1..] == prefix[1..] + s;
      FromFirstDigitSkips(prefix[1..], s);
    }
  }

  /** The match of `/(\d+)/`: the first run of digits, if there is one. */
  function FirstNumber(s: string): (r: Option<string>)
    ensures r.None? <==> NoDigit(s)
    ensures r.Some? ==> r.value != [] && AllDigits(r.value)
    ensures r.Some? ==> exists k :: (0 <= k <= |s| - |r.value|
      && NoDigit(s[..k]) && s[k..k + |r.value|] == r.value
      && (k + |r.value| < |s| ==> !IsDigit(s[k + |r.value|])))
  {
    FromFirstDigitSplits(s);
    var t := FromFirstDigit(s);
    if t == [] then
      assert s[..|s| - |t|] == s;
      None
    else
      var d := LeadingDigits(t);
      var k := |s| - |t|;
      assert d != [] by { assert t[..1] <= t; }
      assert !NoDigit(s) by { assert s[k] == t[0]; }
      assert s[k..k + |d|] == d && (k + |d| < |s| ==> s[k + |d|] == t[|d|]);
      Some(d)
  }

  /**
    * `format_question`: "Page " followed by the first run of digits of the
    * question key; without a digit `match` gives nil and `[0]` raises.
    */
  function FormatQuestion(question: string): (r: Result<string>)
    ensures r == Raised(NoMethod) <==> NoDigit(question)
    ensures r.Ok? ==> |r.value| > 5 && r.value[..5] == "Page " && FirstNumber(question) == Some(r.value[5..])
  {
    match FirstNumber(question)
    case None => Raised(NoMethod)
    case Some(d) => Ok("Page " + d)
  }

  /** The label of a page key is its page number. */
  lemma FormatQuestionOfPageKey(step: nat)
    ensures FormatQuestion(QuizFormModel.QuestionName(step)) == Ok("Page " + NatToString(step))
  {
    var prefix := "question_page_";
    var digits := NatToString(step);
    assert QuizFormModel.QuestionName(step) == prefix + digits;
    assert NoDigit(prefix);
    FromFirstDigitSkips(prefix, digits);
    LeadingDigitsOfDigits(digits);
  }

  /** The tested example: 'Question 123' is labelled 'Page 123'. */
  lemma FormatQuestionExample(question: string)
    requires question == "Question 123"
    ensures FormatQuestion(question) == Ok("Page 123")
  {
    var prefix := question[..9];
    var digits := question[9..];
    assert question == prefix + digits;
    assert NoDigit(prefix);
    assert digits == "123" && AllDigits(digits);
    FromFirstDigitSkips(prefix, digits);
    assert FromFirstDigit(digits) == digits;
    LeadingDigitsOfDigits(digits);
    assert FirstNumber(question) == Some(digits);
    assert FormatQuestion(question) == Ok("Page " + digits);
    assert "Page " + digits == "Page 123";
  }

  /** `format_quiz_question`'s I18n key: `quiz_form.{question}.question_{index+1}.question`. */
  function QuizQuestionKey(question: string, index: int): (key: string)
    ensures |key| >= 10 + |question| && key[..10] == "quiz_form." && key[10..10 + |question|] == question
  {
    "quiz_form." + question + ".question_" + IntToString(index + 1) + ".question"
  }

  /** Different questions of one page have different keys. */
  lemma QuizQuestionKeyInjective(question: string, i: int, j: int)
    requires QuizQuestionKey(question, i) == QuizQuestionKey(question, j)
    ensures i == j
  {
    var head := "quiz_form." + question + ".question_";
    var tail := ".question";
    var a := IntToString(i + 1);
    var b := IntToString(j + 1);
    assert QuizQuestionKey(question, i) == head + (a + tail);
    assert QuizQuestionKey(question, j) == head + (b + tail);
    assert a + tail == (head + (a + tail))[|head|..];
    assert b + tail == (head + (b + tail))[|head|..];
    assert |a| == |b|;
    assert a == (a + tail)[..|a|];
    assert b == (b + tail)[..|b|];
    IntToStringInjective(i + 1, j + 1);
  }

  /** The tested key: question 0 of 'some_question'. */
  lemma QuizQuestionKeyExample()
    ensures QuizQuestionKey("some_question", 0) == "quiz_form.some_question.question_1.question"
  {
  }

  /** `continuous_index`: the running number of question `qi` of page `step`. */
  function ContinuousIndex(step: int, qi: int): (n: int)
    ensures 0 <= qi < QuestionsPerPage ==> n / QuestionsPerPage == step - 1 && n % QuestionsPerPage == qi
  {
    (step - 1) * QuestionsPerPage + qi
  }

  /**
    * `continuous_index` on its arguments as given: both go through `to_i`, so
    * a page given as the route's text numbers its questions as the integer
    * page does, and a missing page counts as page 0.
    */
  function ContinuousIndexOf(step: Value, qi: Value): (n: int)
    requires IsScalar(step) && IsScalar(qi)
    ensures step.Num? && qi.Num? ==> n == ContinuousIndex(step.n, qi.n)
    ensures forall k :: step == Str(IntToString(k)) && qi.Num? ==> n == ContinuousIndex(k, qi.n)
    ensures step == Nil && qi.Num? ==> n == qi.n - QuestionsPerPage
  {
    forall k | step == Str(IntToString(k)) ensures ToI(step) == k {
      StrToIOfIntToString(k);
    }
    ContinuousIndex(ToI(step), ToI(qi))
  }

  /** Questions of different pages, or different questions of one page, never share a number. */
  lemma ContinuousIndexInjective(s1: int, q1: int, s2: int, q2: int)
    requires 0 <= q1 < QuestionsPerPage && 0 <= q2 < QuestionsPerPage
    requires ContinuousIndex(s1, q1) == ContinuousIndex(s2, q2)
    ensures s1 == s2 && q1 == q2
  {
  }

  /** The pages 1..3 number their questions 0..14 without gaps. */
  lemma ContinuousIndexRange(step: int, qi: int)
    requires 1 <= step <= NumberOfPages && 0 <= qi < QuestionsPerPage
    ensures 0 <= ContinuousIndex(step, qi) < TotalQuestions
  {
  }

  /** `validation_error_text`: "Question {n} : " and the blank-answer message. */
  function ValidationErrorText(step: int, qi: int, blankAnswer: string): (text: string)
    ensures |text| >= 9 + |blankAnswer| && text[..9] == "Question " && text[|text| - |blankAnswer|..] == blankAnswer
  {
    "Question " + IntToString(ContinuousIndex(step, qi)) + " : " + blankAnswer
  }

  /** The tested text: page 2, question 3 is "Question 8 : " and the message. */
  lemma ValidationErrorTextExample(blankAnswer: string)
    ensures ValidationErrorText(2, 3, blankAnswer) == "Question 8 : " + blankAnswer
  {
    assert IntToString(8) == "8";
  }
}
