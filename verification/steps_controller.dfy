/**
  * StepsController: the quiz pages and what follows them. `show` and `edit`
  * display a page, `update` records a submitted page and moves on,
  * `check_your_answers` stops the stopwatch and closes the attempt,
  * `results` scores it and `scoreboard` lists the best completed attempts.
  *
  * The signed-in user is given (authentication is not modelled) as their
  * `answers`; the clock and today's date are parameters.
  */
module StepsController {
  import opened Runtime
  import opened QuizConstants
  import opened AnswerModel
  import opened QuizFormModel
  import opened QuizSession
  import opened StepsConcern
  import opened QuizFormHandler
  import opened QuizResultsHelper

  /** How an action ends. A `Failed` action raised before it could respond. */
  datatype Response =
    | NotFound
    | Rendered(view: string, status: int)
    | Redirected(to: Redirect)
    | Failed(failure: Failure)

  const OK: int := 200
  const UnprocessableContent: int := 422

  /** `validate_step`: the route id, read by `to_i`, names one of the pages. */
  predicate ValidateStep(id: string) {
    1 <= StrToI(id) <= NumberOfPages
  }

  /** A route id without a digit never names a page. */
  lemma ValidateStepNeedsDigit(id: string)
    requires forall i :: 0 <= i < |id| ==> !IsDigit(id[i])
    ensures !ValidateStep(id)
  {
    StrToIWithoutDigits(id);
  }

  /** The route id of every page passes; "0" and "4" do not. */
  lemma ValidateStepExamples()
    ensures forall n :: 1 <= n <= NumberOfPages ==> ValidateStep(IntToString(n))
    ensures !ValidateStep(IntToString(0)) && !ValidateStep(IntToString(NumberOfPages + 1))
  {
    forall n | 1 <= n <= NumberOfPages ensures ValidateStep(IntToString(n)) {
      StrToIOfIntToString(n);
    }
    StrToIOfIntToString(0);
    StrToIOfIntToString(NumberOfPages + 1);
  }

  /** `to_i` reads only the leading digits, so "2abc" passes as page 2. */
  lemma ValidateStepLeadingDigits()
    ensures ValidateStep("2abc")
  {
    assert SkipSpace("2abc") == "2abc";
    assert LeadingDigits("2abc") == "2" by {
      assert "2abc"[1..] == "abc";
      assert LeadingDigits("abc") == [];
    }
    assert DigitsValue("2") == 2 by {
      assert "2"[..0] == [];
    }
  }

  /** `set_quiz_form`: the form built from the submitted form, the token or the route. */
  method SetQuizForm(req: Request, uid: nat) returns (form: QuizForm?, failure: Option<Failure>)
    ensures failure.None? <==> FormSource(req, uid).Ok?
    ensures failure.Some? ==> form == null && failure.value == FormSource(req, uid).failure
    ensures failure.None? ==>
      form != null && fresh(form) && form.errors == [] && form.State() == InitialState(FormSource(req, uid).value)
  {
    if QuizFormPresent(req) {
      var p := QuizFormParams(req);
      if p.Raised? {
        return null, Some(p.failure);
      }
      form := BuildQuizFormFromParams(p.value, uid);
      failure := None;
    } else if req.encodedParams.Some? {
      form, failure := BuildQuizFormFromEncodedParams(req.encodedParams.value, uid);
    } else {
      form := BuildDefaultQuizForm(req.id, uid);
      failure := None;
    }
  }

  /** The form after `restore_quiz_form_state` with the saved snapshot `saved`. */
  function RestoredState(s: FormState, saved: Option<Attrs>): (r: FormState)
    requires Restorable(saved)
    ensures saved.None? ==> r == s
  {
    if saved.None? then s else Assign(s, saved.value)
  }

  /** `restore_quiz_form_state`: the snapshot of the form's page, if any, is assigned to it. */
  method RestoreQuizFormState(form: QuizForm, session: Session)
    requires session.Valid()
    modifies form
    ensures form.State() == RestoredState(old(form.State()), session.Saved(old(form.currentStep)))
    ensures form.errors == old(form.errors)
  {
    var saved := session.Saved(form.currentStep);
    if saved.Some? {
      form.AssignAttributes(saved.value);
    }
  }

  /**
    * Revisiting a page shows what was submitted on it: the snapshot `update`
    * stores for a step restores every attribute of the submitted form onto
    * any form of the same step.
    */
  lemma RevisitRestoresSubmittedPage(forms: seq<Option<Attrs>>, submitted: FormState, shown: FormState)
    requires submitted.currentStep - 1 >= -|forms|
    ensures var stored := RubyStore(forms, submitted.currentStep - 1, AttributesOf(submitted)).value;
      var saved := SavedState(Some(stored), submitted.currentStep);
      && saved == Some(AttributesOf(submitted))
      && RestoredState(shown, saved) == submitted.(answer := shown.answer)
  {
    StoredSnapshotIsRestored(forms, submitted.currentStep, AttributesOf(submitted));
    AssignAttributesRoundTrip(submitted, shown);
  }

  /** `decoded_params.permit(:current_step, ...)` with the signed-in user: `show`'s form parameters. */
  function ShowParams(decoded: Attrs, uid: nat): (m: Attrs)
    ensures StepReadable(m) && Lookup(m, "current_user_id") == Num(uid)
    ensures SlotsOf(InitialState(m)) == [Nil, Nil, Nil, Nil, Nil]
  {
    var permitted := map k | k in decoded && k == "current_step" && IsScalar(decoded[k]) :: decoded[k];
    permitted["current_user_id" := Num(uid)]
  }

  /** The form `show` builds before restoring: from the token's step, or from the route. */
  function ShowStart(req: Request, uid: nat): (r: Result<FormState>)
    ensures req.encodedParams.None? ==> r == Ok(InitialState(DefaultParams(req.id, uid)))
    ensures req.encodedParams.Some? ==> (r.Raised? <==> req.encodedParams.value.Malformed?)
  {
    if req.encodedParams.Some? then
      match Decode(req.encodedParams.value)
      case Raised(f) => Raised(f)
      case Ok(decoded) => Ok(InitialState(ShowParams(decoded, uid)))
    else Ok(InitialState(DefaultParams(req.id, uid)))
  }

  /** The page after a `next_step` redirect opens at the new step, with nothing filled in yet. */
  lemma ShowAfterNextStep(req: Request, answer: Value, step: int, uid: nat)
    requires req.encodedParams == Some(Encode(NextStepParams(answer, step)))
    ensures ShowStart(req, uid).Ok?
    ensures ShowStart(req, uid).value.currentStep == step
    ensures SlotsOf(ShowStart(req, uid).value) == [Nil, Nil, Nil, Nil, Nil]
  {
    EncodedIntegerReadsBack(NextStepParams(answer, step), "current_step", step);
  }

  /** The form `show` builds: `QuizForm.new` on the token's permitted step, or on the route's step. */
  method BuildShowForm(req: Request, uid: nat) returns (form: QuizForm)
    requires ShowStart(req, uid).Ok?
    ensures fresh(form) && form.errors == [] && form.State() == ShowStart(req, uid).value
  {
    if req.encodedParams.Some? {
      form := new QuizForm(ShowParams(Decode(req.encodedParams.value).value, uid));
    } else {
      form := new QuizForm(DefaultParams(req.id, uid));
    }
  }

  /**
    * `show`: checks the route's step and `set_quiz_form`, then builds the
    * page's form, starts the stopwatch on the first page and restores the
    * page's snapshot.
    */
  method Show(req: Request, uid: nat, session: Session, now: real) returns (response: Response, form: QuizForm?)
    requires session.Valid()
    modifies session`startTime, session`running
    ensures !ValidateStep(req.id) ==> response == NotFound
    ensures ValidateStep(req.id) && FormSource(req, uid).Raised? ==> response == Failed(FormSource(req, uid).failure)
    ensures ValidateStep(req.id) && FormSource(req, uid).Ok? && ShowStart(req, uid).Raised? ==>
      response == Failed(ShowStart(req, uid).failure)
    ensures response == Rendered("show", OK) <==>
      ValidateStep(req.id) && FormSource(req, uid).Ok? && ShowStart(req, uid).Ok?
    ensures response.Rendered? ==>
      var start := ShowStart(req, uid).value;
      && form != null && fresh(form)
      && form.State() == RestoredState(start, session.Saved(start.currentStep))
    ensures response.Rendered? && ShowStart(req, uid).value.currentStep == 1 ==>
      session.startTime == Some(now) && session.running
    ensures !(response.Rendered? && ShowStart(req, uid).value.currentStep == 1) ==>
      session.startTime == old(session.startTime) && session.running == old(session.running)
  {
    form := null;
    if !ValidateStep(req.id) {
      return NotFound, form;
    }
    var built, failure := SetQuizForm(req, uid);
    if failure.Some? {
      return Failed(failure.value), form;
    }
    var start := ShowStart(req, uid);
    if start.Raised? {
      return Failed(start.failure), form;
    }
    form := BuildShowForm(req, uid);
    if form.currentStep == 1 {
      session.StartTimer(now);
    }
    RestoreQuizFormState(form, session);
    response := Rendered("show", OK);
  }

  /**
    * `edit`: checks the route's step, reopens the last attempt, fills a form
    * from the request's answers for this page and restores the page's
    * snapshot over them.
    */
  method Edit(req: Request, user: UserAnswers, session: Session) returns (response: Response, form: QuizForm?)
    requires user.Valid() && session.Valid()
    modifies user
    ensures user.Valid()
    ensures !ValidateStep(req.id) ==> response == NotFound && user.answers == old(user.answers)
    ensures ValidateStep(req.id) ==> user.answers == Reopened(old(user.answers))
    ensures var answers := AnswersFor(req.id, req.answer);
      ValidateStep(req.id) && (!answers.List? || |answers.items| > QuestionsPerPage) ==> response == Failed(NoMethod)
    ensures response.Rendered? <==>
      var answers := AnswersFor(req.id, req.answer);
      ValidateStep(req.id) && answers.List? && |answers.items| <= QuestionsPerPage
    ensures response.Rendered? ==>
      var answers := AnswersFor(req.id, req.answer);
      var filled := Overlay(InitialState(DefaultParams(req.id, user.id)), answers.items);
      && response == Rendered("edit", OK)
      && form != null && fresh(form)
      && form.State() == RestoredState(filled, session.Saved(StrToI(req.id)))
  {
    form := null;
    if !ValidateStep(req.id) {
      return NotFound, form;
    }
    ResetUserCompletionStatus(user);
    form := new QuizForm(DefaultParams(req.id, user.id));
    var raised := PopulateQuizFormWithAnswers(form, req.id, req.answer);
    if raised {
      return Failed(NoMethod), null;
    }
    RestoreQuizFormState(form, session);
    response := Rendered("edit", OK);
  }

  /** Where `next_step` goes from a form at `step`. */
  function NextRedirect(step: int, answer: Value, locale: string): Redirect {
    if step < NumberOfPages then ToStep(step + 1, Encode(NextStepParams(answer, step + 1)), locale)
    else ToCheckYourAnswers(locale)
  }

  /**
    * The valid branch of `update`: the page is recorded in the user's attempt
    * (`update_answers`), the form's attributes are stored as the page's
    * snapshot (`quiz_forms[step - 1] = attributes`, which raises for a step
    * far below 1) and `next_step` redirects.
    */
  method RecordPage(form: QuizForm, user: UserAnswers, session: Session, today: Date, locale: string)
    returns (response: Response)
    requires user.Valid() && session.Valid()
    modifies form`currentStep, form`errors, user, session`quizForms
    ensures user.Valid() && session.Valid() && form.errors == old(form.errors)
    ensures var s := old(form.State());
      var n := |old(user.answers)|;
      && (StartedToday(old(user.answers), today) ==>
            user.answers == old(user.answers)[..n - 1] + [MergedAttempt(old(user.answers)[n - 1], AnswerObject(s))])
      && (!StartedToday(old(user.answers), today) ==>
            user.answers == old(user.answers) + [NewAttempt(Some(user.id), AnswerObject(s), today)])
    ensures var s := old(form.State());
      var forms := if old(session.quizForms).None? then [] else old(session.quizForms).value;
      var stored := RubyStore(forms, s.currentStep - 1, AttributesOf(s));
      && (stored.Raised? ==> response == Failed(IndexOutOfRange) && session.quizForms == Some(forms))
      && (stored.Ok? ==>
            && session.quizForms == Some(stored.value)
            && response == Redirected(NextRedirect(s.currentStep, s.answer, locale)))
  {
    var raised := form.UpdateAnswers(user, today);
    response := StoreSnapshotAndRedirect(form, session, locale);
  }

  /**
    * The end of `update`'s valid branch: the form's attributes become the
    * page's snapshot, then `next_step` redirects; a step far below 1 makes
    * the store raise.
    */
  method StoreSnapshotAndRedirect(form: QuizForm, session: Session, locale: string) returns (response: Response)
    requires session.Valid()
    modifies form`currentStep, session`quizForms
    ensures session.Valid()
    ensures var s := old(form.State());
      var forms := if old(session.quizForms).None? then [] else old(session.quizForms).value;
      var stored := RubyStore(forms, s.currentStep - 1, AttributesOf(s));
      && (stored.Raised? ==> response == Failed(IndexOutOfRange) && session.quizForms == Some(forms))
      && (stored.Ok? ==>
            && session.quizForms == Some(stored.value)
            && response == Redirected(NextRedirect(s.currentStep, s.answer, locale)))
  {
    var storeFailed := session.StoreSnapshot(form.currentStep, form.Attributes());
    if storeFailed {
      return Failed(IndexOutOfRange);
    }
    var redirect := NextStep(form, locale);
    response := Redirected(redirect);
  }

  /**
    * `update` once its form is built: a form with a blank answer is shown
    * again with its errors and nothing is recorded; otherwise the page is
    * recorded as by `RecordPage`.
    */
  method SubmitPage(form: QuizForm, user: UserAnswers, session: Session, today: Date, locale: string)
    returns (response: Response)
    requires user.Valid() && session.Valid()
    modifies form`currentStep, form`errors, user, session`quizForms
    ensures user.Valid() && session.Valid()
    ensures var s := old(form.State());
      && form.errors == BlankErrors(SlotsOf(s))
      && (BlankErrors(SlotsOf(s)) != [] ==>
            && response == Rendered("show", UnprocessableContent) && form.State() == s
            && user.answers == old(user.answers) && session.quizForms == old(session.quizForms))
    ensures var s := old(form.State());
      var n := |old(user.answers)|;
      BlankErrors(SlotsOf(s)) == [] ==>
        && (StartedToday(old(user.answers), today) ==>
              user.answers == old(user.answers)[..n - 1] + [MergedAttempt(old(user.answers)[n - 1], AnswerObject(s))])
        && (!StartedToday(old(user.answers), today) ==>
              user.answers == old(user.answers) + [NewAttempt(Some(user.id), AnswerObject(s), today)])
    ensures var s := old(form.State());
      var forms := if old(session.quizForms).None? then [] else old(session.quizForms).value;
      var stored := RubyStore(forms, s.currentStep - 1, AttributesOf(s));
      BlankErrors(SlotsOf(s)) == [] ==>
        && (stored.Raised? ==> response == Failed(IndexOutOfRange) && session.quizForms == Some(forms))
        && (stored.Ok? ==>
              && session.quizForms == Some(stored.value)
              && response == Redirected(NextRedirect(s.currentStep, s.answer, locale)))
  {
    ghost var s := form.State();
    var valid := form.IsValid();
    assert form.State() == s;
    NoErrorsIffNoBlank(SlotsOf(s));
    if !valid {
      return Rendered("show", UnprocessableContent);
    }
    response := RecordPage(form, user, session, today, locale);
  }

  /**
    * `update`: checks the route's step and `set_quiz_form`, then submits the
    * page as by `SubmitPage`.
    */
  method Update(req: Request, user: UserAnswers, session: Session, today: Date, locale: string)
    returns (response: Response, form: QuizForm?)
    requires user.Valid() && session.Valid()
    modifies user, session`quizForms
    ensures user.Valid() && session.Valid()
    ensures !ValidateStep(req.id) || FormSource(req, user.id).Raised? ==>
      && user.answers == old(user.answers) && session.quizForms == old(session.quizForms)
      && response == if !ValidateStep(req.id) then NotFound else Failed(FormSource(req, user.id).failure)
    ensures ValidateStep(req.id) && FormSource(req, user.id).Ok? ==>
      var s := InitialState(FormSource(req, user.id).value);
      && form != null && fresh(form)
      && form.errors == BlankErrors(SlotsOf(s))
      && (BlankErrors(SlotsOf(s)) != [] ==>
            && response == Rendered("show", UnprocessableContent) && form.State() == s
            && user.answers == old(user.answers) && session.quizForms == old(session.quizForms))
    ensures ValidateStep(req.id) && FormSource(req, user.id).Ok? ==>
      var s := InitialState(FormSource(req, user.id).value);
      var n := |old(user.answers)|;
      BlankErrors(SlotsOf(s)) == [] ==>
        && (StartedToday(old(user.answers), today) ==>
              user.answers == old(user.answers)[..n - 1] + [MergedAttempt(old(user.answers)[n - 1], AnswerObject(s))])
        && (!StartedToday(old(user.answers), today) ==>
              user.answers == old(user.answers) + [NewAttempt(Some(user.id), AnswerObject(s), today)])
    ensures ValidateStep(req.id) && FormSource(req, user.id).Ok? ==>
      var s := InitialState(FormSource(req, user.id).value);
      var forms := if old(session.quizForms).None? then [] else old(session.quizForms).value;
      var stored := RubyStore(forms, s.currentStep - 1, AttributesOf(s));
      BlankErrors(SlotsOf(s)) == [] ==>
        && (stored.Raised? ==> response == Failed(IndexOutOfRange) && session.quizForms == Some(forms))
        && (stored.Ok? ==>
              && session.quizForms == Some(stored.value)
              && response == Redirected(NextRedirect(s.currentStep, s.answer, locale)))
  {
    form := null;
    if !ValidateStep(req.id) {
      return NotFound, form;
    }
    var failure;
    form, failure := SetQuizForm(req, user.id);
    if failure.Some? {
      return Failed(failure.value), form;
    }
    response := SubmitPage(form, user, session, today, locale);
  }

  /**
    * The attempts after `clean_and_complete_quiz`: the last attempt is marked
    * completed and every attempt that is not completed is destroyed.
    */
  function Completed(answers: seq<Attempt>): (r: seq<Attempt>)
    requires answers != []
    ensures r != [] && r[|r| - 1] == answers[|answers| - 1].(completed := Some(true))
    ensures forall a <- r :: a.completed != Some(false)
    ensures forall i :: 0 <= i < |answers| - 1 && answers[i].completed != Some(false) ==> answers[i] in r
    ensures forall a <- r :: a in answers[..|answers| - 1] || a == r[|r| - 1]
  {
    var n := |answers|;
    var marked := answers[..n - 1] + [answers[n - 1].(completed := Some(true))];
    assert forall i :: 0 <= i < n - 1 ==> marked[i] == answers[i];
    assert marked[n - 1].completed != Some(false);
    var r := WithoutIncomplete(marked);
    assert forall a <- r :: a in marked;
    assert forall a <- marked :: a in answers[..n - 1] || a == marked[n - 1];
    r
  }

  /**
    * `clean_and_complete_quiz`. With no attempt `answers.last` is nil and
    * `update` raises.
    */
  method CleanAndCompleteQuiz(user: UserAnswers) returns (raised: bool)
    requires user.Valid()
    modifies user
    ensures user.Valid()
    ensures raised <==> old(user.answers) == []
    ensures raised ==> user.answers == old(user.answers)
    ensures !raised ==> user.answers == Completed(old(user.answers))
  {
    if user.answers == [] {
      return true;
    }
    var last := user.answers[|user.answers| - 1];
    assert last in user.answers;
    ValidityIgnoresBookkeeping(last, last.(completed := Some(true)));
    var saved := user.UpdateLast(last.(completed := Some(true)));
    user.DestroyIncomplete();
    raised := false;
  }

  // The members from `Timed` to `CheckYourAnswers` model the stopwatch as
  // evidently intended, with a `time` column on the answers table;
  // `CheckYourAnswersAsWritten` models the action against the real table.

  /** The attempts after the stopwatch wrote the elapsed time onto the last one, if there is one. */
  function Timed(answers: seq<Attempt>, elapsed: real): (r: seq<Attempt>)
    ensures |r| == |answers|
    ensures answers != [] ==> r[|r| - 1] == answers[|answers| - 1].(time := Some(elapsed))
    ensures forall i :: 0 <= i < |answers| - 1 ==> r[i] == answers[i]
  {
    if answers == [] then []
    else answers[..|answers| - 1] + [answers[|answers| - 1].(time := Some(elapsed))]
  }

  /**
    * With a time column, the record `Answer.create(user:, Time:)` would save
    * when the user has no attempt: it has no answers, date or completion
    * flag, so it never passes validation and nothing is created.
    */
  lemma TimedRecordWithoutAttemptInvalid(uid: nat, elapsed: real)
    ensures !RecordValid(Attempt(Some(uid), None, None, None, Some(0), Some(elapsed)))
  {
    MissingFieldsInvalid(Attempt(Some(uid), None, None, None, Some(0), Some(elapsed)));
  }

  /**
    * With a time column, `answers.last.update(Time: elapsed)`, or with no
    * attempt the `Answer.create(user:, Time:)` that fails validation and
    * saves nothing.
    */
  method RecordElapsedTime(user: UserAnswers, elapsed: real)
    requires user.Valid()
    modifies user
    ensures user.Valid()
    ensures user.answers == Timed(old(user.answers), elapsed)
  {
    if user.answers == [] {
      TimedRecordWithoutAttemptInvalid(user.id, elapsed);
      return;
    }
    var last := user.answers[|user.answers| - 1];
    assert last in user.answers;
    ValidityIgnoresBookkeeping(last, last.(time := Some(elapsed)));
    var saved := user.UpdateLast(last.(time := Some(elapsed)));
  }

  /**
    * The stopwatch part of `check_your_answers` with a time column: when it
    * runs, the elapsed time is recorded and the stopwatch stops.
    */
  method StopStopwatch(user: UserAnswers, session: Session, now: real)
    requires user.Valid()
    modifies user, session`startTime, session`running
    ensures user.Valid()
    ensures var started := old(session.startTime).Some? && old(session.running);
      && (started ==> session.startTime.None? && !session.running
                      && user.answers == Timed(old(user.answers), now - old(session.startTime).value))
      && (!started ==> session.startTime == old(session.startTime) && session.running == old(session.running)
                       && user.answers == old(user.answers))
  {
    if session.startTime.Some? && session.running {
      RecordElapsedTime(user, now - session.startTime.value);
      session.StopTimer();
    }
  }

  /**
    * `check_your_answers` as evidently intended: stops a running stopwatch as
    * by `StopStopwatch`, then closes the attempt as by
    * `clean_and_complete_quiz`, which raises when there is no attempt.
    */
  method CheckYourAnswers(user: UserAnswers, session: Session, now: real) returns (response: Response)
    requires user.Valid()
    modifies user, session`startTime, session`running
    ensures user.Valid()
    ensures var started := old(session.startTime).Some? && old(session.running);
      && (started ==> session.startTime.None? && !session.running)
      && (!started ==> session.startTime == old(session.startTime) && session.running == old(session.running))
    ensures var started := old(session.startTime).Some? && old(session.running);
      var timed := if started then Timed(old(user.answers), now - old(session.startTime).value) else old(user.answers);
      && (timed == [] ==> response == Failed(NoMethod) && user.answers == [])
      && (timed != [] ==> response == Rendered("check_your_answers", OK) && user.answers == Completed(timed))
  {
    StopStopwatch(user, session, now);
    var raised := CleanAndCompleteQuiz(user);
    response := if raised then Failed(NoMethod) else Rendered("check_your_answers", OK);
  }

  /**
    * `check_your_answers` as written. While the stopwatch runs, both
    * `update(Time:)` and `Answer.create(user:, Time:)` raise
    * `UnknownAttributeError` before saving anything, so the stopwatch is
    * never cleared and the attempt is never completed. Otherwise the attempt
    * is closed as by `clean_and_complete_quiz`.
    */
  method CheckYourAnswersAsWritten(user: UserAnswers, session: Session, now: real) returns (response: Response)
    requires user.Valid()
    modifies user
    ensures user.Valid()
    ensures var started := old(session.startTime).Some? && old(session.running);
      && (started ==> response == Failed(UnknownAttribute) && user.answers == old(user.answers))
      && (!started && old(user.answers) == [] ==> response == Failed(NoMethod) && user.answers == [])
      && (!started && old(user.answers) != [] ==>
            response == Rendered("check_your_answers", OK) && user.answers == Completed(old(user.answers)))
  {
    if session.startTime.Some? && session.running {
      var failure := AssignAttributes({"Time"});
      TimeIsUnknownAttribute();
      return Failed(failure.value);
    }
    var raised := CleanAndCompleteQuiz(user);
    response := if raised then Failed(NoMethod) else Rendered("check_your_answers", OK);
  }

  /**
    * `results`: closes the attempt, scores it against the answer bank and
    * writes the score onto it (the integer column keeps the whole part of the
    * percentage), then forgets the page snapshots.
    */
  method Results(user: UserAnswers, session: Session, bank: Bank) returns (response: Response)
    requires user.Valid()
    modifies user, session`quizForms
    ensures user.Valid()
    ensures old(user.answers) == [] ==>
      response == Failed(NoMethod) && user.answers == [] && session.quizForms == old(session.quizForms)
    ensures old(user.answers) != [] ==>
      var closed := Completed(old(user.answers));
      var last := closed[|closed| - 1];
      && last.answer.Some?
      && var metrics := ScoringMetrics(bank, last.answer.value);
      && response == Rendered("results", OK)
      && user.answers == closed[..|closed| - 1] + [last.(score := Some(metrics.0.Floor))]
      && session.quizForms.None?
  {
    var raised := CleanAndCompleteQuiz(user);
    if raised {
      return Failed(NoMethod);
    }
    var last := user.answers[|user.answers| - 1];
    assert last in user.answers;
    var metrics := ScoringMetrics(bank, last.answer.value);
    ValidityIgnoresBookkeeping(last, last.(score := Some(metrics.0.Floor)));
    var saved := user.UpdateLast(last.(score := Some(metrics.0.Floor)));
    ClearQuizFormSessionData(session);
    response := Rendered("results", OK);
  }

  // ---------------------------------------------------------------------
  // scoreboard
  // ---------------------------------------------------------------------

  /** The scoreboard's size: `limit(10)`. */
  const ScoreboardSize: nat := 10

  /** `where(completed: true).where.not(score: nil)` */
  predicate Eligible(a: Attempt) {
    a.completed == Some(true) && a.score.Some?
  }

  function EligibleOf(all: seq<Attempt>): (r: seq<Attempt>)
    ensures forall a <- r :: Eligible(a)
    ensures forall a <- all :: Eligible(a) ==> a in r
    ensures multiset(r) <= multiset(all)
    ensures (forall a <- all :: !Eligible(a)) ==> r == []
  {
    if all == [] then []
    else
      var rest := EligibleOf(all[1..]);
      assert all == [all[0]] + all[1..];
      if Eligible(all[0]) then [all[0]] + rest else rest
  }

  /**
    * The filter keeps every completed, scored attempt as many times as it
    * occurs, drops every other one, and keeps the table's order.
    */
  lemma {:induction false} EligibleOfExact(all: seq<Attempt>)
    ensures var r := EligibleOf(all);
      && (forall a :: multiset(r)[a] == if Eligible(a) then multiset(all)[a] else 0)
      && Subsequence(r, all)
  {
    if all != [] {
      EligibleOfExact(all[1..]);
      assert all == [all[0]] + all[1..];
    }
  }

  predicate AllScored(xs: seq<Attempt>) {
    forall a <- xs :: a.score.Some?
  }

  /** `order(score: :desc)`: no attempt scores more than one before it. */
  predicate SortedByScore(xs: seq<Attempt>)
    requires AllScored(xs)
  {
    forall i, j :: 0 <= i < j < |xs| ==> xs[i].score.value >= xs[j].score.value
  }

  /** Inserts `a` after every attempt that scores at least as much. */
  function InsertByScore(a: Attempt, xs: seq<Attempt>): (r: seq<Attempt>)
    requires a.score.Some? && AllScored(xs)
    ensures AllScored(r) && multiset(r) == multiset(xs) + multiset{a}
    ensures |r| == |xs| + 1 && (r[0] == a || (xs != [] && r[0] == xs[0]))
  {
    if xs == [] then [a]
    else if xs[0].score.value >= a.score.value then
      assert xs == [xs[0]] + xs[1..];
      [xs[0]] + InsertByScore(a, xs[1..])
    else [a] + xs
  }

  lemma {:induction false} InsertByScoreSorted(a: Attempt, xs: seq<Attempt>)
    requires a.score.Some? && AllScored(xs) && SortedByScore(xs)
    ensures SortedByScore(InsertByScore(a, xs))
  {
    if xs != [] && xs[0].score.value >= a.score.value {
      var tail := InsertByScore(a, xs[1..]);
      InsertByScoreSorted(a, xs[1..]);
      var r := InsertByScore(a, xs);
      assert r == [xs[0]] + tail;
      assert xs[0].score.value >= tail[0].score.value;
      forall i, j | 0 <= i < j < |r| ensures r[i].score.value >= r[j].score.value {
        assert r[j] == tail[j - 1];
        if i == 0 {
          assert tail[0].score.value >= tail[j - 1].score.value;
        } else {
          assert r[i] == tail[i - 1];
        }
      }
    }
  }

  function SortByScore(xs: seq<Attempt>): (r: seq<Attempt>)
    requires AllScored(xs)
    ensures AllScored(r) && multiset(r) == multiset(xs)
  {
    if xs == [] then []
    else
      assert xs == [xs[0]] + xs[1..];
      InsertByScore(xs[0], SortByScore(xs[1..]))
  }

  lemma {:induction false} SortByScoreSorted(xs: seq<Attempt>)
    requires AllScored(xs)
    ensures SortedByScore(SortByScore(xs))
  {
    if xs != [] {
      SortByScoreSorted(xs[1..]);
      InsertByScoreSorted(xs[0], SortByScore(xs[1..]));
    }
  }

  /** The scoreboard: the best ten completed, scored attempts, best first. */
  function TopScores(all: seq<Attempt>): (top: seq<Attempt>)
    ensures AllScored(top)
    ensures |top| == if |EligibleOf(all)| < ScoreboardSize then |EligibleOf(all)| else ScoreboardSize
    ensures (forall a <- all :: !Eligible(a)) ==> top == []
  {
    var sorted := SortByScore(EligibleOf(all));
    assert |sorted| == |EligibleOf(all)| by {
      assert |multiset(sorted)| == |multiset(EligibleOf(all))|;
    }
    if |sorted| <= ScoreboardSize then sorted else sorted[..ScoreboardSize]
  }

  /** The scoreboard is ordered best first and shows only completed, scored attempts of the table. */
  lemma TopScoresSortedAndEligible(all: seq<Attempt>)
    ensures SortedByScore(TopScores(all))
    ensures forall a <- TopScores(all) :: Eligible(a) && a in all
  {
    var e := EligibleOf(all);
    var sorted := SortByScore(e);
    SortByScoreSorted(e);
    forall a <- TopScores(all) ensures Eligible(a) && a in all {
      assert a in sorted;
      assert a in multiset(sorted);
      assert a in multiset(e);
      assert a in multiset(all);
    }
  }

  /**
    * Nothing is left off the scoreboard that beats an attempt on it: every
    * eligible attempt not shown scores at most as much as every one shown.
    */
  lemma TopScoresAreBest(all: seq<Attempt>)
    ensures forall x: Attempt, t: Attempt ::
      x in multiset(EligibleOf(all)) - multiset(TopScores(all)) && t in TopScores(all) ==>
      x.score.value <= t.score.value
  {
    var sorted := SortByScore(EligibleOf(all));
    var k := |TopScores(all)|;
    TopScoresIsPrefix(all);
    SortByScoreSorted(EligibleOf(all));
    RemainderIsTail(EligibleOf(all), sorted, k);
    SortedSplit(sorted, k);
  }

  /** The scoreboard is the start of the sorted eligible attempts. */
  lemma TopScoresIsPrefix(all: seq<Attempt>)
    ensures |TopScores(all)| <= |SortByScore(EligibleOf(all))|
    ensures TopScores(all) == SortByScore(EligibleOf(all))[..|TopScores(all)|]
  {
  }

  /** Taking the first `k` of a rearrangement of `e` out of `e` leaves the rest of it. */
  lemma RemainderIsTail(e: seq<Attempt>, sorted: seq<Attempt>, k: nat)
    requires multiset(sorted) == multiset(e) && k <= |sorted|
    ensures multiset(e) - multiset(sorted[..k]) == multiset(sorted[k..])
  {
    assert sorted == sorted[..k] + sorted[k..];
  }

  /** In a list sorted best first, everything after a cut scores at most what is before it. */
  lemma SortedSplit(sorted: seq<Attempt>, k: nat)
    requires AllScored(sorted) && SortedByScore(sorted) && k <= |sorted|
    ensures forall x: Attempt, t: Attempt :: x in sorted[k..] && t in sorted[..k] ==> x.score.value <= t.score.value
  {
    forall x: Attempt, t: Attempt | x in sorted[k..] && t in sorted[..k]
      ensures x.score.value <= t.score.value
    {
      var j :| k <= j < |sorted| && sorted[j] == x by {
        var jj :| 0 <= jj < |sorted[k..]| && sorted[k..][jj] == x;
        assert sorted[k + jj] == x;
      }
      var i :| 0 <= i < k && sorted[i] == t by {
        var ii :| 0 <= ii < |sorted[..k]| && sorted[..k][ii] == t;
      }
    }
  }

  /** `scoreboard`: the listing; the CSV download is not modelled. */
  method Scoreboard(all: seq<Attempt>) returns (response: Response, top: seq<Attempt>)
    ensures response == Rendered("scoreboard", OK)
    ensures top == TopScores(all)
  {
    top := TopScores(all);
    response := Rendered("scoreboard", OK);
  }
}
