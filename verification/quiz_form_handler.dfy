/**
  * QuizFormHandler: the controller steps around a form — moving to the next
  * page, reopening a finished attempt for editing, filling a form from the
  * answers in the request, and forgetting the session's snapshots.
  */
module QuizFormHandler {
  import opened Runtime
  import opened QuizConstants
  import opened AnswerModel
  import opened QuizFormModel
  import opened QuizSession
  import opened StepsConcern

  /** Where `next_step` redirects (the locale is `I18n.locale`). */
  datatype Redirect =
    | ToStep(id: int, encodedParams: Token, locale: string)
    | ToCheckYourAnswers(locale: string)

  /** The hash `next_step` encodes: the form's `answer` array and its new step. */
  function NextStepParams(answer: Value, step: int): (m: Attrs)
    ensures m.Keys == {"answer", "current_step"} && m["current_step"] == Num(step)
  {
    map["answer" := answer, "current_step" := Num(step)]
  }

  /**
    * `next_step`: below the last page the step goes up by one and the
    * redirect carries a token of (answer, new step); on the last page the
    * step stays and the redirect goes to the review page.
    */
  method NextStep(form: QuizForm, locale: string) returns (redirect: Redirect)
    modifies form`currentStep
    ensures old(form.currentStep) < form.TotalSteps() ==>
      && form.currentStep == old(form.currentStep) + 1
      && redirect == ToStep(form.currentStep, Encode(NextStepParams(form.answer, form.currentStep)), locale)
    ensures old(form.currentStep) >= form.TotalSteps() ==>
      form.currentStep == old(form.currentStep) && redirect == ToCheckYourAnswers(locale)
  {
    if form.currentStep < form.TotalSteps() {
      form.currentStep := form.currentStep + 1;
      var encoded := Encode(NextStepParams(form.answer, form.currentStep));
      redirect := ToStep(form.currentStep, encoded, locale);
    } else {
      redirect := ToCheckYourAnswers(locale);
    }
  }

  /**
    * The next page's form, built from the token `next_step` sends, starts at
    * the new step with empty slots: the token carries the step and the
    * `answer` array, and the slots are filled from the session afterwards.
    */
  lemma NextStepTokenBuildsNextPage(answer: Value, step: int, uid: nat)
    ensures FromEncodedParams(Encode(NextStepParams(answer, step)), uid).Ok?
    ensures var m := FromEncodedParams(Encode(NextStepParams(answer, step)), uid).value;
      && StepReadable(m)
      && InitialState(m).currentStep == step
      && SlotsOf(InitialState(m)) == [Nil, Nil, Nil, Nil, Nil]
      && InitialState(m).currentUserId == Num(uid)
  {
    var p := NextStepParams(answer, step);
    EncodedIntegerReadsBack(p, "current_step", step);
    var d := Decode(Encode(p)).value;
    var m := d["current_user_id" := Num(uid)];
    assert FromEncodedParams(Encode(p), uid) == Ok(m);
    NextPageParams(m, step, uid);
  }

  /** The parameters of the next page: the step, the user and the `answer` array, no slot. */
  lemma NextPageParams(m: Attrs, step: int, uid: nat)
    requires m.Keys == {"answer", "current_step", "current_user_id"}
    requires IsScalar(m["current_step"]) && ToI(m["current_step"]) == step
    requires m["current_user_id"] == Num(uid)
    ensures StepReadable(m)
    ensures InitialState(m).currentStep == step && InitialState(m).currentUserId == Num(uid)
    ensures SlotsOf(InitialState(m)) == [Nil, Nil, Nil, Nil, Nil]
  {
    NoSlotParamsGiveEmptySlots(m);
  }

  /**
    * The attempts after `reset_user_completion_status`: the last one is
    * reopened, every earlier one is kept as it was.
    */
  function Reopened(answers: seq<Attempt>): (r: seq<Attempt>)
    ensures |r| == |answers|
    ensures forall i :: 0 <= i < |answers| - 1 ==> r[i] == answers[i]
    ensures answers != [] ==> r[|r| - 1] == answers[|answers| - 1].(completed := Some(false))
  {
    if answers == [] then []
    else answers[..|answers| - 1] + [answers[|answers| - 1].(completed := Some(false))]
  }

  /** `reset_user_completion_status`: the last attempt is marked not completed. */
  method ResetUserCompletionStatus(user: UserAnswers)
    requires user.Valid()
    modifies user
    ensures user.Valid()
    ensures user.answers == Reopened(old(user.answers))
  {
    if user.answers != [] {
      var last := user.answers[|user.answers| - 1];
      assert last in user.answers;
      var saved := user.UpdateLast(last.(completed := Some(false)));
    }
  }

  /**
    * `set_answer_for_question(index, answer)`: `answer_{index+1} = answer`;
    * from index 5 on there is no such setter and the call raises.
    */
  method SetAnswerForQuestion(form: QuizForm, index: nat, answer: Value) returns (raised: bool)
    modifies form
    ensures raised <==> index >= QuestionsPerPage
    ensures raised ==> form.State() == old(form.State())
    ensures !raised ==> form.State() == Assign(old(form.State()), map[SlotKey(index) := answer])
    ensures !raised ==> SlotsOf(form.State()) == SlotsOf(old(form.State()))[index := answer]
    ensures form.errors == old(form.errors)
  {
    if index < QuestionsPerPage {
      SlotKeyValues();
      form.AssignOne(SlotKey(index), answer);
      raised := false;
    } else {
      raised := true;
    }
  }

  /** `params.dig(:answer, :"question_#{id}") || []` */
  function AnswersFor(id: string, answerParam: Option<Attrs>): (v: Value)
    ensures v != Nil
    ensures answerParam.None? ==> v == List([])
    ensures answerParam.Some? ==>
      var given := Lookup(answerParam.value, "question_" + id);
      (given != Nil ==> v == given) && (given == Nil ==> v == List([]))
  {
    var found := if answerParam.None? then Nil else Lookup(answerParam.value, "question_" + id);
    if found == Nil then List([]) else found
  }

  /**
    * A page's submitted list of at most five answers fills the fresh form's
    * slots in order and leaves the rest empty; a page without answers leaves
    * every slot empty.
    */
  lemma SubmittedAnswersFillSlots(id: string, uid: nat, answerParam: Option<Attrs>)
    ensures var answers := AnswersFor(id, answerParam);
      answers.List? && |answers.items| <= QuestionsPerPage ==>
        var slots := SlotsOf(Overlay(InitialState(DefaultParams(id, uid)), answers.items));
        forall i :: 0 <= i < QuestionsPerPage ==> slots[i] == if i < |answers.items| then answers.items[i] else Nil
    ensures (answerParam.None? || "question_" + id !in answerParam.value) ==>
      SlotsOf(Overlay(InitialState(DefaultParams(id, uid)), AnswersFor(id, answerParam).items)) == [Nil, Nil, Nil, Nil, Nil]
  {
    var init := InitialState(DefaultParams(id, uid));
    NoSlotParamsGiveEmptySlots(DefaultParams(id, uid));
    assert forall i :: 0 <= i < QuestionsPerPage ==> SlotsOf(init)[i] == Nil;
    var answers := AnswersFor(id, answerParam);
    if answerParam.None? || "question_" + id !in answerParam.value {
      assert answers == List([]);
      assert Overlay(init, []) == init;
    }
  }

  /**
    * `populate_quiz_form_with_answers`: the i-th answer of the page's list
    * goes into slot i. A sixth answer has no slot and raises after the first
    * five are set; a value that is not a list cannot be iterated and raises.
    */
  method PopulateQuizFormWithAnswers(form: QuizForm, id: string, answerParam: Option<Attrs>) returns (raised: bool)
    modifies form
    ensures var answers := AnswersFor(id, answerParam);
      && (raised <==> !answers.List? || |answers.items| > QuestionsPerPage)
      && (!answers.List? ==> form.State() == old(form.State()))
      && (answers.List? ==> form.State() == Overlay(old(form.State()), answers.items))
    ensures form.errors == old(form.errors)
  {
    var answers := AnswersFor(id, answerParam);
    if !answers.List? {
      return true;
    }
    var xs := answers.items;
    var i := 0;
    raised := false;
    assert xs[..0] == [];
    while i < |xs| && !raised
      invariant 0 <= i <= |xs| && i <= QuestionsPerPage
      invariant raised ==> i == QuestionsPerPage && i < |xs|
      invariant form.State() == Overlay(old(form.State()), xs[..i])
      invariant form.errors == old(form.errors)
      decreases |xs| - i, if raised then 0 else 1
    {
      raised := SetAnswerForQuestion(form, i, xs[i]);
      if !raised {
        OverlayStep(old(form.State()), xs, i);
        i := i + 1;
      }
    }
    assert !raised ==> xs[..i] == xs;
    assert raised ==> Overlay(old(form.State()), xs[..i]) == Overlay(old(form.State()), xs);
  }

  /**
    * `build_quiz_form_with_answers`: a form for the route's step and the
    * signed-in user, filled from the request's answers.
    */
  method BuildQuizFormWithAnswers(id: string, uid: nat, answerParam: Option<Attrs>)
    returns (form: QuizForm, raised: bool)
    ensures fresh(form) && form.errors == []
    ensures form.currentStep == StrToI(id) && form.currentUserId == Num(uid)
    ensures var answers := AnswersFor(id, answerParam);
      && (raised <==> !answers.List? || |answers.items| > QuestionsPerPage)
      && (answers.List? ==> form.Slots() == SlotsOf(Overlay(InitialState(DefaultParams(id, uid)), answers.items)))
  {
    form := new QuizForm(DefaultParams(id, uid));
    raised := PopulateQuizFormWithAnswers(form, id, answerParam);
  }

  /** `clear_quiz_form_session_data` */
  method ClearQuizFormSessionData(session: Session)
    modifies session`quizForms
    ensures session.quizForms.None? && session.Valid()
  {
    session.ClearQuizForms();
  }
}
