/**
  * QuizForm: the form object for one quiz page. It holds the five answer
  * slots `answer_1`..`answer_5`, the page number `current_step`, the id of
  * the user taking the quiz and an `answer` array captured at construction.
  * It validates that every slot is filled and merges its page into the
  * user's attempt of today, or starts a new attempt.
  */
module QuizFormModel {
  import opened Runtime
  import opened QuizConstants
  import opened AnswerModel

  /** The values of the form's eight accessors. */
  datatype FormState = FormState(
    answer1: Value,
    answer2: Value,
    answer3: Value,
    answer4: Value,
    answer5: Value,
    currentStep: int,
    currentUserId: Value,
    answer: Value)

  function SlotsOf(s: FormState): (slots: seq<Value>)
    ensures |slots| == QuestionsPerPage
  {
    [s.answer1, s.answer2, s.answer3, s.answer4, s.answer5]
  }

  /** The attribute name of slot `i` (from 0): `answer_{i+1}`. */
  function SlotKey(i: nat): string {
    "answer_" + NatToString(i + 1)
  }

  /** The five slot names, in slot order. */
  const SlotNames: seq<string> := ["answer_1", "answer_2", "answer_3", "answer_4", "answer_5"]

  lemma SlotKeyValues()
    ensures forall i :: 0 <= i < QuestionsPerPage ==> SlotKey(i) == SlotNames[i]
  {
    assert SlotKey(0) == "answer_1" && SlotKey(1) == "answer_2" && SlotKey(2) == "answer_3"
        && SlotKey(3) == "answer_4" && SlotKey(4) == "answer_5";
  }

  /** The keys `attributes` returns. */
  const AttributeKeys: set<string> :=
    {"answer_1", "answer_2", "answer_3", "answer_4", "answer_5", "current_step", "current_user_id"}

  /** The keys that have a public setter (`attr_accessor`). */
  const SetterKeys: set<string> := AttributeKeys + {"answer"}

  /** `params[:current_step].to_i` is defined (arrays have no `to_i`). */
  predicate StepReadable(params: Attrs) {
    IsScalar(Lookup(params, "current_step"))
  }

  /** The state `QuizForm.new(params)` starts in. */
  function InitialState(params: Attrs): (s: FormState)
    requires StepReadable(params)
    ensures s.currentStep == ToI(Lookup(params, "current_step"))
    ensures s.currentUserId == Lookup(params, "current_user_id")
    ensures forall i :: 0 <= i < QuestionsPerPage ==> SlotsOf(s)[i] == Lookup(params, SlotNames[i])
    ensures s.answer == List(SlotsOf(s))
  {
    var slots := [Lookup(params, "answer_1"), Lookup(params, "answer_2"), Lookup(params, "answer_3"),
                  Lookup(params, "answer_4"), Lookup(params, "answer_5")];
    FormState(slots[0], slots[1], slots[2], slots[3], slots[4],
              ToI(Lookup(params, "current_step")), Lookup(params, "current_user_id"), List(slots))
  }

  /** Parameters that name no slot give a form whose slots are all empty. */
  lemma NoSlotParamsGiveEmptySlots(params: Attrs)
    requires StepReadable(params)
    requires "answer_1" !in params && "answer_2" !in params && "answer_3" !in params
    requires "answer_4" !in params && "answer_5" !in params
    ensures SlotsOf(InitialState(params)) == [Nil, Nil, Nil, Nil, Nil]
  {
  }

  /** `attributes`: the seven fields, `current_step` as an integer. */
  function AttributesOf(s: FormState): (m: Attrs)
    ensures m.Keys == AttributeKeys
    ensures m["current_step"] == Num(s.currentStep) && m["current_user_id"] == s.currentUserId
    ensures forall i :: 0 <= i < QuestionsPerPage ==> m[SlotNames[i]] == SlotsOf(s)[i]
  {
    map["answer_1" := s.answer1, "answer_2" := s.answer2, "answer_3" := s.answer3,
        "answer_4" := s.answer4, "answer_5" := s.answer5,
        "current_step" := Num(s.currentStep), "current_user_id" := s.currentUserId]
  }

  /** The model keeps `current_step` an integer, so a hash assigned to the form must hold one there. */
  predicate StepNumeric(m: Attrs) {
    "current_step" in m ==> m["current_step"].Num?
  }

  /**
    * The state after `assign_attributes(m)`: every key with a setter is
    * assigned, every other field keeps its value.
    */
  function Assign(s: FormState, m: Attrs): (r: FormState)
    requires StepNumeric(m)
    ensures forall i :: 0 <= i < QuestionsPerPage ==>
      SlotsOf(r)[i] == if SlotNames[i] in m then m[SlotNames[i]] else SlotsOf(s)[i]
    ensures "current_step" !in m ==> r.currentStep == s.currentStep
    ensures "current_user_id" !in m ==> r.currentUserId == s.currentUserId
    ensures "answer" !in m ==> r.answer == s.answer
    ensures m.Keys !! SetterKeys ==> r == s
  {
    FormState(
      if "answer_1" in m then m["answer_1"] else s.answer1,
      if "answer_2" in m then m["answer_2"] else s.answer2,
      if "answer_3" in m then m["answer_3"] else s.answer3,
      if "answer_4" in m then m["answer_4"] else s.answer4,
      if "answer_5" in m then m["answer_5"] else s.answer5,
      if "current_step" in m then m["current_step"].n else s.currentStep,
      if "current_user_id" in m then m["current_user_id"] else s.currentUserId,
      if "answer" in m then m["answer"] else s.answer)
  }

  /** Assigning the same hash twice is the same as assigning it once. */
  lemma AssignIdempotent(s: FormState, m: Attrs)
    requires StepNumeric(m)
    ensures Assign(Assign(s, m), m) == Assign(s, m)
  {
  }

  /** Keys without a setter are ignored. */
  lemma AssignIgnoresUnknownKeys(s: FormState, m: Attrs, k: string)
    requires StepNumeric(m) && k !in SetterKeys
    ensures Assign(s, m) == Assign(s, m - {k})
  {
  }

  /** Assigning a form's attributes reproduces its seven fields; `answer` is not among them. */
  lemma AssignAttributesRoundTrip(f: FormState, g: FormState)
    ensures Assign(g, AttributesOf(f)) == f.(answer := g.answer)
  {
  }

  /** The state after `answer_{i+1} = xs[i]` for each `i` below both `|xs|` and five. */
  function Overlay(s: FormState, xs: seq<Value>): (r: FormState)
    ensures forall i :: 0 <= i < QuestionsPerPage ==>
      SlotsOf(r)[i] == if i < |xs| then xs[i] else SlotsOf(s)[i]
    ensures r.currentStep == s.currentStep && r.currentUserId == s.currentUserId && r.answer == s.answer
  {
    s.(answer1 := if |xs| > 0 then xs[0] else s.answer1,
       answer2 := if |xs| > 1 then xs[1] else s.answer2,
       answer3 := if |xs| > 2 then xs[2] else s.answer3,
       answer4 := if |xs| > 3 then xs[3] else s.answer4,
       answer5 := if |xs| > 4 then xs[4] else s.answer5)
  }

  /** Setting slot `i` extends an overlay of the first `i` values by one. */
  lemma OverlayStep(s: FormState, xs: seq<Value>, i: nat)
    requires i < |xs| && i < QuestionsPerPage
    ensures Assign(Overlay(s, xs[..i]), map[SlotKey(i) := xs[i]]) == Overlay(s, xs[..i + 1])
  {
    SlotKeyValues();
  }

  /** `previous_step` */
  function PreviousStepOf(s: FormState): (p: int)
    ensures s.answer != Nil ==> p == s.currentStep - 1
    ensures s.answer == Nil ==> p == s.currentStep
  {
    if s.answer != Nil then s.currentStep - 1 else s.currentStep
  }

  /** A freshly built form has an `answer` array, so its previous step is one less. */
  lemma PreviousStepOfNewForm(params: Attrs)
    requires StepReadable(params)
    ensures PreviousStepOf(InitialState(params)) == ToI(Lookup(params, "current_step")) - 1
  {
  }

  // ---------------------------------------------------------------------
  // validate_answers
  // ---------------------------------------------------------------------

  /** The errors `validate_answers` adds for `slots`: one per blank slot, in slot order. */
  function BlankErrors(slots: seq<Value>): (errs: seq<FieldError>)
    ensures |errs| <= |slots|
    ensures |errs| == BlankCount(slots)
  {
    if slots == [] then []
    else BlankErrors(slots[..|slots| - 1])
         + (if Blank(slots[|slots| - 1]) then [FieldError(SlotKey(|slots| - 1), BlankAnswer)] else [])
  }

  /** The number of blank slots. */
  function BlankCount(slots: seq<Value>): nat {
    if slots == [] then 0
    else BlankCount(slots[..|slots| - 1]) + (if Blank(slots[|slots| - 1]) then 1 else 0)
  }

  lemma SlotKeyInjective(i: nat, j: nat)
    requires SlotKey(i) == SlotKey(j)
    ensures i == j
  {
    var p := "answer_";
    assert NatToString(i + 1) == SlotKey(i)[|p|..];
    assert NatToString(j + 1) == SlotKey(j)[|p|..];
    IntToStringInjective(i + 1, j + 1);
  }

  /** Every error names a blank slot, and every blank slot has an error: no early exit. */
  lemma {:induction false} BlankErrorsExact(slots: seq<Value>)
    ensures forall e <- BlankErrors(slots) ::
      exists i :: 0 <= i < |slots| && e == FieldError(SlotKey(i), BlankAnswer) && Blank(slots[i])
    ensures forall i :: 0 <= i < |slots| ==>
      (FieldError(SlotKey(i), BlankAnswer) in BlankErrors(slots) <==> Blank(slots[i]))
  {
    if slots != [] {
      var n := |slots| - 1;
      var init := slots[..n];
      BlankErrorsExact(init);
      forall i | 0 <= i < |slots|
        ensures FieldError(SlotKey(i), BlankAnswer) in BlankErrors(slots) <==> Blank(slots[i])
      {
        if i == n && FieldError(SlotKey(n), BlankAnswer) in BlankErrors(init) {
          var j :| 0 <= j < |init| && FieldError(SlotKey(n), BlankAnswer) == FieldError(SlotKey(j), BlankAnswer)
                   && Blank(init[j]);
          SlotKeyInjective(j, n);
        }
        if i < n {
          assert init[i] == slots[i];
          if Blank(slots[n]) && FieldError(SlotKey(i), BlankAnswer) == FieldError(SlotKey(n), BlankAnswer) {
            SlotKeyInjective(i, n);
          }
        }
      }
      forall e <- BlankErrors(slots)
        ensures exists i :: 0 <= i < |slots| && e == FieldError(SlotKey(i), BlankAnswer) && Blank(slots[i])
      {
        if e in BlankErrors(init) {
          var i :| 0 <= i < |init| && e == FieldError(SlotKey(i), BlankAnswer) && Blank(init[i]);
          assert slots[i] == init[i];
        } else {
          assert e == FieldError(SlotKey(n), BlankAnswer) && Blank(slots[n]);
        }
      }
    }
  }

  /** A form has no errors exactly when no slot is blank. */
  lemma NoErrorsIffNoBlank(slots: seq<Value>)
    ensures BlankErrors(slots) == [] <==> forall i :: 0 <= i < |slots| ==> !Blank(slots[i])
  {
    BlankErrorsExact(slots);
    if BlankErrors(slots) != [] {
      var e := BlankErrors(slots)[0];
      assert e in BlankErrors(slots);
    }
  }

  /** Slots [nil, "x", nil, "y", nil] give exactly the errors on answer_1, answer_3 and answer_5. */
  lemma ThreeBlankSlots()
    ensures BlankErrors([Nil, Str("x"), Nil, Str("y"), Nil])
         == [FieldError("answer_1", BlankAnswer), FieldError("answer_3", BlankAnswer),
             FieldError("answer_5", BlankAnswer)]
  {
    var s1 := [Nil];
    var s2 := s1 + [Str("x")];
    var s3 := s2 + [Nil];
    var s4 := s3 + [Str("y")];
    var s5 := s4 + [Nil];
    assert s2[..1] == s1 && s3[..2] == s2 && s4[..3] == s3 && s5[..4] == s4 && s1[..0] == [];
    assert s5 == [Nil, Str("x"), Nil, Str("y"), Nil];
    SlotKeyValues();
    assert BlankErrors(s1) == [FieldError("answer_1", BlankAnswer)];
    assert !Blank(Str("x")) && !Blank(Str("y")) by {
      assert !IsSpace("x"[0]) && !IsSpace("y"[0]);
    }
    assert BlankErrors(s2) == BlankErrors(s1);
    assert BlankErrors(s3) == [FieldError("answer_1", BlankAnswer), FieldError("answer_3", BlankAnswer)];
    assert BlankErrors(s4) == BlankErrors(s3);
  }

  // ---------------------------------------------------------------------
  // update_answers
  // ---------------------------------------------------------------------

  /** `check_if_quiz_started_today`: the last attempt is dated today and not completed. */
  predicate StartedToday(answers: seq<Attempt>, today: Date) {
    answers != []
    && answers[|answers| - 1].dateAttempted == Some(today)
    && answers[|answers| - 1].completed != Some(true)
  }

  const PagePrefix: string := "question_page_"

  /**
    * `question_name`: the page key `question_page_{current_step}`. The step
    * reads back from the key, so distinct pages have distinct keys.
    */
  function QuestionName(step: int): (name: string)
    ensures |name| > |PagePrefix| && name[..|PagePrefix|] == PagePrefix
  {
    PagePrefix + IntToString(step)
  }

  /** The step reads back from its page key, so distinct steps never share one. */
  lemma QuestionNameReadsBack(a: int, b: int)
    ensures StrToI(QuestionName(a)[|PagePrefix|..]) == a
    ensures QuestionName(a) == QuestionName(b) <==> a == b
  {
    assert QuestionName(a)[|PagePrefix|..] == IntToString(a);
    assert QuestionName(b)[|PagePrefix|..] == IntToString(b);
    StrToIOfIntToString(a);
    StrToIOfIntToString(b);
  }

  /** `build_answer_object`: this page's key and its five slots. */
  function AnswerObject(s: FormState): (page: PageEntry)
    ensures page.key == QuestionName(s.currentStep) && page.values == SlotsOf(s)
  {
    PageEntry(QuestionName(s.currentStep), SlotsOf(s))
  }

  /**
    * The record `create_new_answer` builds (the score column defaults to 0):
    * an open attempt of today holding just this page. With a full page it is
    * valid exactly when it belongs to a user.
    */
  function NewAttempt(user: Option<nat>, page: PageEntry, today: Date): (a: Attempt)
    ensures a.answer == Some([page]) && StartedToday([a], today)
  {
    Attempt(user, Some([page]), Some(today), Some(false), Some(0), None)
  }

  /** With a full page, a new attempt is valid exactly when it belongs to a user. */
  lemma NewAttemptValidIff(user: Option<nat>, page: PageEntry, today: Date)
    requires |page.values| == QuestionsPerPage
    ensures RecordValid(NewAttempt(user, page, today)) <==> user.Some?
  {
    RecordValidIff(NewAttempt(user, page, today));
  }

  /**
    * The record `save_answers` writes: the last attempt with this page merged
    * in. The page's key reads the new answers, every other page is kept, and
    * no other column changes.
    */
  function MergedAttempt(last: Attempt, page: PageEntry): (r: Attempt)
    requires last.answer.Some?
    ensures r.answer.Some? && Get(r.answer.value, page.key) == Some(page.values)
    ensures r.(answer := last.answer) == last
  {
    last.(answer := Some(Merge(last.answer.value, page.key, page.values)))
  }

  /**
    * A user's attempt stays the one `update_answers` merges into for the rest
    * of the day: a new attempt is started today, merging a page keeps it so,
    * and on any other day a new attempt is created instead.
    */
  lemma StartedTodayLasts(answers: seq<Attempt>, page: PageEntry, today: Date, other: Date)
    requires StartedToday(answers, today) && answers[|answers| - 1].answer.Some?
    requires other != today
    ensures var n := |answers| - 1;
      StartedToday(answers[..n] + [MergedAttempt(answers[n], page)], today)
    ensures !StartedToday(answers, other)
  {
  }

  /** A new attempt for an existing user always passes validation. */
  lemma NewAttemptValid(user: nat, s: FormState, today: Date)
    ensures RecordValid(NewAttempt(Some(user), AnswerObject(s), today))
  {
  }

  /** Merging a page into a valid attempt keeps it valid. */
  lemma MergedAttemptValid(last: Attempt, s: FormState)
    requires RecordValid(last)
    ensures RecordValid(MergedAttempt(last, AnswerObject(s)))
    ensures MergedAttempt(last, AnswerObject(s)).user == last.user
  {
    var page := AnswerObject(s);
    MergeKeepsLastPageFull(last.answer.value, page.key, page.values);
  }

  /** Resubmitting a page upserts it: the page count stays, the other pages are untouched. */
  lemma ResubmitKeepsPageCount(last: Attempt, s: FormState)
    requires last.answer.Some?
    ensures var pages := MergedAttempt(last, AnswerObject(s)).answer.value;
      && Get(pages, QuestionName(s.currentStep)) == Some(SlotsOf(s))
      && (forall k :: k != QuestionName(s.currentStep) ==> Get(pages, k) == Get(last.answer.value, k))
      && |pages| == if HasKey(last.answer.value, QuestionName(s.currentStep))
                    then |last.answer.value| else |last.answer.value| + 1
  {
    MergeSize(last.answer.value, QuestionName(s.currentStep), SlotsOf(s));
  }

  class QuizForm {
    var answer1: Value
    var answer2: Value
    var answer3: Value
    var answer4: Value
    var answer5: Value
    var currentStep: int
    var currentUserId: Value
    var answer: Value
    var errors: seq<FieldError>

    function State(): FormState
      reads this
    {
      FormState(answer1, answer2, answer3, answer4, answer5, currentStep, currentUserId, answer)
    }

    function Slots(): seq<Value>
      reads this
    {
      SlotsOf(State())
    }

    /** `QuizForm.new(params)` */
    constructor (params: Attrs)
      requires StepReadable(params)
      ensures State() == InitialState(params)
      ensures errors == []
    {
      currentStep := ToI(Lookup(params, "current_step"));
      currentUserId := Lookup(params, "current_user_id");
      answer1 := Lookup(params, "answer_1");
      answer2 := Lookup(params, "answer_2");
      answer3 := Lookup(params, "answer_3");
      answer4 := Lookup(params, "answer_4");
      answer5 := Lookup(params, "answer_5");
      answer := List([Lookup(params, "answer_1"), Lookup(params, "answer_2"), Lookup(params, "answer_3"),
                      Lookup(params, "answer_4"), Lookup(params, "answer_5")]);
      errors := [];
    }

    /** `validate_answers`: adds an error for every blank slot, checking all five. */
    method ValidateAnswers()
      modifies this`errors
      ensures errors == old(errors) + BlankErrors(Slots())
    {
      var slots := [answer1, answer2, answer3, answer4, answer5];
      var i := 0;
      while i < |slots|
        invariant 0 <= i <= |slots|
        invariant errors == old(errors) + BlankErrors(slots[..i])
      {
        assert slots[..i + 1][..i] == slots[..i];
        if Blank(slots[i]) {
          errors := errors + [FieldError(SlotKey(i), BlankAnswer)];
        }
        i := i + 1;
      }
      assert slots[..i] == slots;
    }

    /** `valid?`: clears the errors, runs the validation, reports whether none were added. */
    method IsValid() returns (valid: bool)
      modifies this`errors
      ensures errors == BlankErrors(Slots())
      ensures valid <==> forall i :: 0 <= i < QuestionsPerPage ==> !Blank(Slots()[i])
    {
      errors := [];
      ValidateAnswers();
      NoErrorsIffNoBlank(Slots());
      valid := errors == [];
    }

    /**
      * `previous_step`: one page back while the form holds an `answer` array
      * (always, for a form built by `new`), otherwise the current page.
      */
    function PreviousStep(): (p: int)
      reads this
      ensures answer != Nil ==> p == currentStep - 1
      ensures answer == Nil ==> p == currentStep
    {
      PreviousStepOf(State())
    }

    /** `total_steps` */
    function TotalSteps(): (n: int)
      ensures n == 3
    {
      NumberOfPages
    }

    /** `attributes`: assigning them back to the form changes nothing. */
    function Attributes(): (m: Attrs)
      reads this
      ensures m.Keys == AttributeKeys && StepNumeric(m)
      ensures Assign(State(), m) == State()
    {
      AssignAttributesRoundTrip(State(), State());
      AttributesOf(State())
    }

    /** `send("#{key}=", value) if respond_to?("#{key}=")` for one key. */
    method AssignOne(key: string, value: Value)
      requires key == "current_step" ==> value.Num?
      modifies this
      ensures State() == Assign(old(State()), map[key := value])
      ensures errors == old(errors)
    {
      if key == "answer_1" { answer1 := value; }
      else if key == "answer_2" { answer2 := value; }
      else if key == "answer_3" { answer3 := value; }
      else if key == "answer_4" { answer4 := value; }
      else if key == "answer_5" { answer5 := value; }
      else if key == "current_step" { currentStep := value.n; }
      else if key == "current_user_id" { currentUserId := value; }
      else if key == "answer" { answer := value; }
    }

    /** `assign_attributes(m)`: assigns each key that has a setter, ignores the rest. */
    method AssignAttributes(m: Attrs)
      requires StepNumeric(m)
      modifies this
      ensures State() == Assign(old(State()), m)
      ensures errors == old(errors)
    {
      var pending := m.Keys;
      while pending != {}
        invariant pending <= m.Keys
        invariant State() == Assign(old(State()), m - pending)
        invariant errors == old(errors)
        decreases pending
      {
        var key :| key in pending;
        ghost var before := State();
        AssignOne(key, m[key]);
        pending := pending - {key};
        assert (m - pending) == (m - (pending + {key}))[key := m[key]];
      }
      assert m - pending == m;
    }

    /**
      * `update_answers`: merges this page into the user's attempt of today
      * when there is one that is not completed, and otherwise creates a new
      * attempt. `user` is `User.find_by(id: current_user_id)`; with no such
      * user the new record fails validation, its errors are copied onto the
      * form and `@current_user.reload` raises (`raised`).
      */
    method UpdateAnswers(user: UserAnswers?, today: Date) returns (raised: bool)
      requires user != null ==> user.Valid()
      modifies this`errors, user
      ensures raised <==> user == null
      ensures user == null ==>
        errors == old(errors) + RecordErrors(NewAttempt(None, AnswerObject(State()), today))
      ensures user != null ==> user.Valid() && errors == old(errors)
      ensures user != null && StartedToday(old(user.answers), today) ==>
        var n := |old(user.answers)|;
        user.answers == old(user.answers)[..n - 1] + [MergedAttempt(old(user.answers)[n - 1], AnswerObject(State()))]
      ensures user != null && !StartedToday(old(user.answers), today) ==>
        user.answers == old(user.answers) + [NewAttempt(Some(user.id), AnswerObject(State()), today)]
    {
      var page := AnswerObject(State());
      if user != null && StartedToday(user.answers, today) {
        var last := user.answers[|user.answers| - 1];
        MergedAttemptValid(last, State());
        var saved := user.UpdateLast(MergedAttempt(last, page));
        raised := false;
      } else {
        var record := NewAttempt(if user == null then None else Some(user.id), page, today);
        if RecordValid(record) {
          user.Append(record);
        } else {
          errors := errors + RecordErrors(record);
        }
        raised := user == null;
      }
    }
  }
}
