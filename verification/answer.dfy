/**
  * The `Answer` model: one persisted quiz attempt. Its `answer` column is an
  * ordered hash from page keys (`question_page_N`) to the list of answers
  * given on that page; the validations below decide whether a record may be
  * saved. `UserAnswers` is a user's `answers` association: the records of one
  * user, oldest first, which save, update and destroy_all change in place.
  */
module AnswerModel {
  import opened Runtime
  import opened QuizConstants

  /** One entry of the ordered `answer` hash. */
  datatype PageEntry = PageEntry(key: string, values: seq<Value>)

  /** A calendar day, counted from an arbitrary epoch. */
  type Date = int

  /**
    * An `answers` row. `time` is the elapsed seconds the stopwatch means to
    * record; the table has no such column (see `AnswerColumns`), so only the
    * corrected stopwatch ever sets it.
    */
  datatype Attempt = Attempt(
    user: Option<nat>,
    answer: Option<seq<PageEntry>>,
    dateAttempted: Option<Date>,
    completed: Option<bool>,
    score: Option<int>,
    time: Option<real>)

  /** The columns of the `answers` table, the attribute names a record accepts. */
  const AnswerColumns: set<string> :=
    {"id", "user_id", "answer", "date_attempted", "completed", "created_at", "updated_at", "score"}

  /**
    * `assign_attributes` as `update` and `create` run it first: it raises
    * `UnknownAttributeError` exactly when one of the names is not a column,
    * before anything is saved.
    */
  function AssignAttributes(names: set<string>): (r: Option<Failure>)
    ensures r.None? <==> names <= AnswerColumns
    ensures r.Some? ==> r.value == UnknownAttribute && exists n <- names :: n !in AnswerColumns
  {
    if names <= AnswerColumns then None else Some(UnknownAttribute)
  }

  /** `Time` names no column (the names are case-sensitive and there is no `time` either). */
  lemma TimeIsUnknownAttribute()
    ensures AssignAttributes({"Time"}) == Some(UnknownAttribute)
    ensures AssignAttributes({"time"}) == Some(UnknownAttribute)
    ensures AssignAttributes({"score"}).None? && AssignAttributes({"completed"}).None?
  {
    assert "Time" !in AnswerColumns;
    assert "time" !in AnswerColumns;
  }

  /** The validation messages of the quiz (their I18n texts are left abstract). */
  datatype Message =
    | MustExist            // belongs_to :user
    | EmptyAnswer          // answers.errors.empty_answer
    | BlankValue           // presence: true
    | NotIncluded          // inclusion: { in: [true, false] }
    | UnansweredQuestions  // answers.errors.unanswered_questions
    | BlankAnswer          // quiz_form.errors.blank_answer

  datatype FieldError = FieldError(attribute: string, message: Message)

  // ---------------------------------------------------------------------
  // The ordered `answer` hash
  // ---------------------------------------------------------------------

  /** `h[key]`: the values of the first entry with that key. */
  function Get(pages: seq<PageEntry>, key: string): Option<seq<Value>> {
    if pages == [] then None
    else if pages[0].key == key then Some(pages[0].values)
    else Get(pages[1..], key)
  }

  predicate HasKey(pages: seq<PageEntry>, key: string) {
    Get(pages, key).Some?
  }

  predicate UniqueKeys(pages: seq<PageEntry>) {
    forall i, j :: 0 <= i < j < |pages| ==> pages[i].key != pages[j].key
  }

  /**
    * `h.merge({key => values})`: afterwards `key` reads `values` and every
    * other key reads what it read before.
    */
  function Merge(pages: seq<PageEntry>, key: string, values: seq<Value>): (r: seq<PageEntry>)
    ensures Get(r, key) == Some(values)
    ensures forall k :: k != key ==> Get(r, k) == Get(pages, k)
  {
    if pages == [] then [PageEntry(key, values)]
    else if pages[0].key == key then [PageEntry(key, values)] + pages[1..]
    else [pages[0]] + Merge(pages[1..], key, values)
  }

  /** An existing key keeps its position and only its entry changes. */
  lemma {:induction false} MergeInPlace(pages: seq<PageEntry>, key: string, values: seq<Value>)
    requires HasKey(pages, key)
    ensures var r := Merge(pages, key, values);
      && |r| == |pages|
      && forall i :: 0 <= i < |r| ==> r[i].key == pages[i].key && (r[i] == pages[i] || r[i] == PageEntry(key, values))
  {
    if pages[0].key != key {
      MergeInPlace(pages[1..], key, values);
      var r := Merge(pages, key, values);
      var rest := Merge(pages[1..], key, values);
      assert r == [pages[0]] + rest;
      forall i | 0 <= i < |r|
        ensures r[i].key == pages[i].key && (r[i] == pages[i] || r[i] == PageEntry(key, values))
      {
        if i > 0 {
          assert r[i] == rest[i - 1] && pages[i] == pages[1..][i - 1];
        }
      }
    }
  }

  /** A new key is appended at the end. */
  lemma {:induction false} MergeAppends(pages: seq<PageEntry>, key: string, values: seq<Value>)
    requires !HasKey(pages, key)
    ensures Merge(pages, key, values) == pages + [PageEntry(key, values)]
  {
    if pages != [] {
      MergeAppends(pages[1..], key, values);
      assert pages == [pages[0]] + pages[1..];
    }
  }

  /** A merge keeps the keys distinct. */
  lemma MergeKeepsKeysUnique(pages: seq<PageEntry>, key: string, values: seq<Value>)
    requires UniqueKeys(pages)
    ensures UniqueKeys(Merge(pages, key, values))
  {
    var r := Merge(pages, key, values);
    if HasKey(pages, key) {
      MergeInPlace(pages, key, values);
    } else {
      MergeAppends(pages, key, values);
      forall i | 0 <= i < |pages| ensures pages[i].key != key {
        GetFindsEveryKey(pages, i);
      }
    }
  }

  /** Every entry's key can be looked up. */
  lemma {:induction false} GetFindsEveryKey(pages: seq<PageEntry>, i: nat)
    requires i < |pages|
    ensures HasKey(pages, pages[i].key)
  {
    if i > 0 && pages[0].key != pages[i].key {
      GetFindsEveryKey(pages[1..], i - 1);
    }
  }

  /** `answer.values.last`. */
  function LastPage(pages: seq<PageEntry>): seq<Value>
    requires pages != []
  {
    pages[|pages| - 1].values
  }

  /**
    * Resubmitting a page never changes how many pages an attempt holds, and a
    * new page adds exactly one.
    */
  lemma MergeSize(pages: seq<PageEntry>, key: string, values: seq<Value>)
    ensures |Merge(pages, key, values)| == if HasKey(pages, key) then |pages| else |pages| + 1
  {
    if HasKey(pages, key) {
      MergeInPlace(pages, key, values);
    } else {
      MergeAppends(pages, key, values);
    }
  }

  /** After a merge of a full page, the last page is still full. */
  lemma MergeKeepsLastPageFull(pages: seq<PageEntry>, key: string, values: seq<Value>)
    requires pages != [] ==> |LastPage(pages)| == QuestionsPerPage
    requires |values| == QuestionsPerPage
    ensures |LastPage(Merge(pages, key, values))| == QuestionsPerPage
  {
    if HasKey(pages, key) {
      MergeInPlace(pages, key, values);
    } else {
      MergeAppends(pages, key, values);
    }
  }

  // ---------------------------------------------------------------------
  // Validations
  // ---------------------------------------------------------------------

  /** `answer.present?`: a non-empty hash. */
  predicate AnswerPresent(a: Attempt) {
    a.answer.Some? && a.answer.value != []
  }

  /**
    * The errors `valid?` collects, in declaration order: the owning user,
    * presence of `answer` and `date_attempted`, inclusion of `completed`, and
    * (only when `answer` is present) the length of the last page.
    */
  function RecordErrors(a: Attempt): (errs: seq<FieldError>)
    ensures |errs| <= 5
  {
    (if a.user.None? then [FieldError("user", MustExist)] else [])
    + (if !AnswerPresent(a) then [FieldError("answer", EmptyAnswer)] else [])
    + (if a.dateAttempted.None? then [FieldError("date_attempted", BlankValue)] else [])
    + (if a.completed.None? then [FieldError("completed", NotIncluded)] else [])
    + (if AnswerPresent(a) && |LastPage(a.answer.value)| != QuestionsPerPage
       then [FieldError("answer", UnansweredQuestions)] else [])
  }

  /** `valid?`: a valid record belongs to a user and its last page holds five answers. */
  predicate RecordValid(a: Attempt)
    ensures RecordValid(a) ==> a.user.Some? && a.answer.Some? && a.answer.value != []
    ensures RecordValid(a) ==> |LastPage(a.answer.value)| == QuestionsPerPage
  {
    RecordErrors(a) == []
  }

  /** A record is valid exactly when every validation passes. */
  lemma RecordValidIff(a: Attempt)
    ensures RecordValid(a) <==>
      a.user.Some? && AnswerPresent(a) && a.dateAttempted.Some? && a.completed.Some?
      && |LastPage(a.answer.value)| == QuestionsPerPage
  {
  }

  /** Each validation reports its own error exactly when it fails; at most four fail at once. */
  lemma RecordErrorsExact(a: Attempt)
    ensures var errs := RecordErrors(a);
      && (FieldError("user", MustExist) in errs <==> a.user.None?)
      && (FieldError("answer", EmptyAnswer) in errs <==> !AnswerPresent(a))
      && (FieldError("date_attempted", BlankValue) in errs <==> a.dateAttempted.None?)
      && (FieldError("completed", NotIncluded) in errs <==> a.completed.None?)
      && (FieldError("answer", UnansweredQuestions) in errs <==>
            AnswerPresent(a) && |LastPage(a.answer.value)| != QuestionsPerPage)
      && |errs| <= 4
  {
  }

  /** A blank answer hash, a missing date or a missing completed flag each make a record invalid. */
  lemma MissingFieldsInvalid(a: Attempt)
    ensures !AnswerPresent(a) ==> FieldError("answer", EmptyAnswer) in RecordErrors(a)
    ensures a.dateAttempted.None? ==> FieldError("date_attempted", BlankValue) in RecordErrors(a)
    ensures a.completed.None? ==> FieldError("completed", NotIncluded) in RecordErrors(a)
    ensures !AnswerPresent(a) || a.dateAttempted.None? || a.completed.None? ==> !RecordValid(a)
  {
  }

  /** The format check runs only when `answer` is present. */
  lemma FormatCheckNeedsAnswer(a: Attempt)
    requires !AnswerPresent(a)
    ensures FieldError("answer", UnansweredQuestions) !in RecordErrors(a)
  {
  }

  /** Only the last page's length is checked: earlier pages of any length pass. */
  lemma OnlyLastPageChecked(a: Attempt, earlier: seq<PageEntry>)
    requires AnswerPresent(a)
    ensures RecordErrors(a.(answer := Some(earlier + [a.answer.value[|a.answer.value| - 1]])))
         == RecordErrors(a)
  {
  }

  /** A five-answer page gives no error; a four-answer page gives exactly the unanswered-questions error. */
  lemma PageLengthExamples(user: nat, day: Date)
    ensures RecordErrors(Attempt(Some(user), Some([PageEntry("question_1",
      [Str("a"), Str("b"), Str("c"), Str("d"), Str("e")])]), Some(day), Some(false), Some(0), None)) == []
    ensures RecordErrors(Attempt(Some(user), Some([PageEntry("question_1",
      [Str("a"), Str("b"), Str("c"), Str("d")])]), Some(day), Some(false), Some(0), None))
      == [FieldError("answer", UnansweredQuestions)]
  {
  }

  // ---------------------------------------------------------------------
  // Destroying unfinished attempts
  // ---------------------------------------------------------------------

  /**
    * Validity looks only at the owner, the answers, the date and whether
    * `completed` is set: the score, the time and the value of `completed`
    * never make a record invalid.
    */
  lemma ValidityIgnoresBookkeeping(a: Attempt, b: Attempt)
    requires a.user == b.user && a.answer == b.answer && a.dateAttempted == b.dateAttempted
    requires a.completed.Some? == b.completed.Some?
    ensures RecordErrors(a) == RecordErrors(b)
  {
  }

  /** What `answers.where(completed: false).destroy_all` leaves, in order. */
  function WithoutIncomplete(s: seq<Attempt>): (r: seq<Attempt>)
    ensures forall a <- r :: a.completed != Some(false) && a in s
    ensures forall a <- s :: a.completed != Some(false) ==> a in r
    ensures s != [] && s[|s| - 1].completed != Some(false) ==> r != [] && r[|r| - 1] == s[|s| - 1]
  {
    if s == [] then []
    else
      var rest := WithoutIncomplete(s[1..]);
      assert s == [s[0]] + s[1..];
      if s[0].completed == Some(false) then rest else [s[0]] + rest
  }

  /**
    * Exactly the incomplete attempts go: every other attempt survives as
    * many times as it occurs, and the survivors keep their order.
    */
  lemma {:induction false} WithoutIncompleteExact(s: seq<Attempt>)
    ensures var r := WithoutIncomplete(s);
      && (forall a :: multiset(r)[a] == if a.completed == Some(false) then 0 else multiset(s)[a])
      && Subsequence(r, s)
  {
    if s != [] {
      WithoutIncompleteExact(s[1..]);
      assert s == [s[0]] + s[1..];
    }
  }

  // ---------------------------------------------------------------------
  // A user's answers
  // ---------------------------------------------------------------------

  class UserAnswers {
    const id: nat
    var answers: seq<Attempt>

    /** Every saved record passed validation and belongs to this user. */
    ghost predicate Valid()
      reads this
    {
      forall a <- answers :: RecordValid(a) && a.user == Some(id)
    }

    constructor (id: nat)
      ensures this.id == id && answers == [] && Valid()
    {
      this.id := id;
      answers := [];
    }

    /** `answers.last`. */
    function Last(): (r: Option<Attempt>)
      reads this
      ensures answers == [] <==> r.None?
      ensures r.Some? ==> r.value == answers[|answers| - 1]
    {
      if answers == [] then None else Some(answers[|answers| - 1])
    }

    /** `save!` of a new record that passed validation. */
    method Append(a: Attempt)
      requires Valid() && RecordValid(a) && a.user == Some(id)
      modifies this
      ensures answers == old(answers) + [a]
      ensures Valid()
    {
      answers := answers + [a];
    }

    /**
      * `answers.last.update(...)`: the changed record is validated and saved
      * in place of the last one only when it is valid.
      */
    method UpdateLast(a: Attempt) returns (saved: bool)
      requires Valid() && answers != [] && a.user == Some(id)
      modifies this
      ensures saved == RecordValid(a)
      ensures answers == if saved then old(answers)[..|old(answers)| - 1] + [a] else old(answers)
      ensures Valid()
    {
      saved := RecordValid(a);
      if saved {
        answers := answers[..|answers| - 1] + [a];
      }
    }

    /** `answers.where(completed: false).destroy_all`. */
    method DestroyIncomplete()
      requires Valid()
      modifies this
      ensures answers == WithoutIncomplete(old(answers))
      ensures Valid()
    {
      answers := WithoutIncomplete(answers);
    }
  }
}
