# Quiz attempt lifecycle, in Dafny

This project models the quiz flow of the Rails application `grad_academy_debug_app3`. The quiz has three pages of five questions each. The model covers:

- **The step form (`QuizForm`).** It holds the five answer slots of one page. It reports every blank slot. It then merges the page into the user's attempt of today, or starts a new attempt.
- **The attempt record (`Answer`).** These are its validations, which decide whether a record may be saved.
- **The scorer (`QuizResultsHelper`).** It counts the correct slots against a question bank and turns the count into a percentage.
- **The step flow** (`StepsController`, `QuizFormHandler`, `StepsConcern`, `ApplicationController`). It covers:
  - bounding the route's step to 1..3;
  - choosing where a page's form comes from;
  - recording a submitted page and keeping a per-page snapshot in the session;
  - moving to the next page;
  - the stopwatch flags;
  - closing an attempt and purging unfinished ones;
  - scoring and the top-ten scoreboard;
  - forgetting the snapshots off the quiz pages;
  - choosing the locale.
- **The step helpers (`StepsHelper`).** Question numbering and labels.

One Dafny module models each source file:

- `answer.dfy`, `quiz_form.dfy`, `quiz_results_helper.dfy`, `steps_helper.dfy`, `quiz_form_handler.dfy`, `steps_concern.dfy`, `steps_controller.dfy` and `application_controller.dfy` hold those modules.
- `runtime.dfy` holds the Ruby values the code handles:
  - nil, strings, integers and arrays;
  - `blank?`, `String#to_i` and `Integer#to_s`;
  - Ruby's array indexing;
  - the exceptions that end a request.
- `session.dfy` holds the session entries the quiz uses.
- `quiz_constants.dfy` holds the quiz constants: 5 questions per page, 3 pages and 15 questions.

The model follows the source's own form:

- **Classes.** Objects whose fields the code updates are classes with `modifies` frames:
  - the form, `QuizFormModel.QuizForm`;
  - a user's attempts, `AnswerModel.UserAnswers`;
  - the session, `QuizSession.Session`;
  - the I18n state, `ApplicationController.I18n`.
- **Loops.** They are methods with invariants, proved against specification functions: `ValidateAnswers`, `AssignAttributes`, `PopulateQuizFormWithAnswers` and `TotalCorrectAnswers`.
- **Pure helpers** are functions with lemmas.
- **Controller actions** are methods. Each returns a `Response`: not found, rendered with a status, a redirect, or the exception that ended the request.

Inputs the source reads from the outside world are parameters:

- the signed-in user's attempts;
- today's date and the clock;
- the reference answers of the I18n question bank, as a function from (page position, question position) to a string;
- the available locales;
- the set of StepsController's action methods.

## Model

| member | source | states |
|---|---|---|
| AnswerModel.Merge | app/form/quiz_form.rb:147 | After merging a page into the attempt's answer hash, the page key reads the new answers and every other key reads what it read before. |

| AnswerModel.MergeInPlace | app/form/quiz_form.rb:147 | Merging a page key that is already present keeps the hash's length and order; only that page's entry changes. |
| AnswerModel.MergeAppends | app/form/quiz_form.rb:147 | Merging a new page key appends it at the end of the ordered hash. |
| AnswerModel.MergeKeepsKeysUnique | app/form/quiz_form.rb:147 | A merge keeps the page keys distinct. |
| AnswerModel.MergeSize | app/form/quiz_form.rb:141-148 | Resubmitting a page keeps the attempt's page count; a new page adds exactly one. |
| AnswerModel.MergeKeepsLastPageFull | app/form/quiz_form.rb:146-148 | Merging a five-answer page into an attempt whose last page has five answers leaves a last page with five answers. |
| AnswerModel.GetFindsEveryKey | app/form/quiz_form.rb:147 | Every page key stored in the answer hash can be looked up. |
| AnswerModel.RecordValidIff | app/models/answer.rb:46-65 | An attempt is valid exactly when it has a user, a non-blank answer hash, a date and a set completed flag, and its last page has five answers. |
| AnswerModel.MissingFieldsInvalid | app/models/answer.rb:49-51 | A blank answer hash, a missing date or an unset completed flag each add their error and make the record invalid. |
| AnswerModel.FormatCheckNeedsAnswer | app/models/answer.rb:53 | Without an answer hash the format check adds no error. |
| AnswerModel.OnlyLastPageChecked | app/models/answer.rb:61-62 | Earlier pages of any length do not change the errors; only the last page is checked. |
| AnswerModel.PageLengthExamples | app/models/answer.rb:61-64 | A five-answer page gives no error; a four-answer page gives exactly the unanswered-questions error on `answer`. |
| AnswerModel.ValidityIgnoresBookkeeping | app/models/answer.rb:46-53 | The score, the elapsed time and the value of the completed flag never change whether a record is valid. |
| AnswerModel.WithoutIncomplete | app/controllers/steps_controller.rb:151 | Every attempt left is one that is not incomplete and came from the list, and every attempt that is not incomplete is left. A last attempt that is not incomplete stays last. |
| AnswerModel.WithoutIncompleteExact | app/controllers/steps_controller.rb:151 | Each attempt that is not incomplete is kept as many times as it occurs, each incomplete one is gone, and the survivors keep their order. |
| AnswerModel.RecordErrors | app/models/answer.rb:46-65 | Validation gives at most one error per validation. |
| AnswerModel.RecordErrorsExact | app/models/answer.rb:46-65 | Each validation error is present exactly when its condition fails: no user, a blank answer hash, no date, an unset completed flag, or a last page without five answers. At most four errors arise together. |
| AnswerModel.RecordValid | app/models/answer.rb:46-65 | A valid record has a user and a non-empty answer hash whose last page holds five answers. |
| AnswerModel.AssignAttributes | db/schema.rb:17-28 | Assigning a set of attribute names succeeds exactly when every name is a column of `answers`; otherwise ActiveModel raises UnknownAttributeError. |
| AnswerModel.TimeIsUnknownAttribute | db/schema.rb:17-28 | `Time` and `time` are not columns of `answers`, so assigning either raises; `score` and `completed` are columns. |
| AnswerModel.UserAnswers.Last | app/form/quiz_form.rb:99-101 | `answers.last` is nil exactly when the user has no attempt, and is otherwise the newest one. |
| AnswerModel.UserAnswers.Append | app/form/quiz_form.rb:154-155 | Saving a valid new record appends it to the user's attempts and keeps them all valid. |
| AnswerModel.UserAnswers.UpdateLast | app/form/quiz_form.rb:147 | An update of the last attempt is saved exactly when the changed record is valid; otherwise nothing changes. |
| AnswerModel.UserAnswers.DestroyIncomplete | app/controllers/steps_controller.rb:151 | `where(completed: false).destroy_all` leaves the attempts described by `WithoutIncomplete`. |
| QuizFormModel.InitialState | app/form/quiz_form.rb:43-52 | A new form's step is `to_i` of the step parameter, its user and slots are the parameters of the same names, and `answer` is the list of the five slots. |
| QuizFormModel.QuizForm.constructor | app/form/quiz_form.rb:43-52 | `QuizForm.new(params)` starts in `InitialState(params)` with no errors. |
| QuizFormModel.NoSlotParamsGiveEmptySlots | app/form/quiz_form.rb:46-50 | Parameters that name no slot give a form whose five slots are nil. |
| QuizFormModel.AttributesOf | app/form/quiz_form.rb:111-121 | `attributes` holds exactly the five slots, the integer step and the user id. |
| QuizFormModel.AssignIgnoresUnknownKeys | app/form/quiz_form.rb:104-108 | Keys without a setter do not change what `assign_attributes` does. |
| QuizFormModel.AssignAttributesRoundTrip | app/form/quiz_form.rb:104-121 | Assigning a form's `attributes` to any form reproduces the seven fields; only `answer` keeps its old value. |
| QuizFormModel.Assign | app/form/quiz_form.rb:104-108 | Each slot takes the hash's value when its key is present and keeps its old value otherwise. The step, the user id and `answer` change only when their key is present, and a hash with no setter key changes nothing. |
| QuizFormModel.AssignIdempotent | app/form/quiz_form.rb:104-108 | Assigning the same hash twice is the same as assigning it once. |
| QuizFormModel.QuizForm.Attributes | app/form/quiz_form.rb:111-121 | `attributes` has exactly the seven keys and an integer step; assigning it back onto the same form changes nothing. |
| QuizFormModel.QuizForm.AssignOne | app/form/quiz_form.rb:106 | Sending one key's setter changes exactly that field, and nothing for a key without a setter. |
| QuizFormModel.QuizForm.AssignAttributes | app/form/quiz_form.rb:104-108 | The loop over the hash leaves the form in `Assign(old state, hash)`, whatever order the keys are visited in. |
| QuizFormModel.Overlay | app/controllers/concerns/quiz_form_handler.rb:34-36 | After setting slot i to the i-th value of a list, each of the first five slots holds its value and the rest of the form is unchanged. |
| QuizFormModel.OverlayStep | app/controllers/concerns/quiz_form_handler.rb:40-43 | Setting `answer_{i+1}` extends the overlay of the first i values by one. |
| QuizFormModel.PreviousStepOf | app/form/quiz_form.rb:74-76 | `previous_step` is one less than the step when `answer` is not nil, and the step itself otherwise. |
| QuizFormModel.PreviousStepOfNewForm | app/form/quiz_form.rb:74-76 | A freshly built form always has an `answer` array, so its previous step is its step minus one. |
| QuizFormModel.QuizForm.PreviousStep | app/form/quiz_form.rb:74-76 | The previous step is one less than the step when `answer` is not nil, and the step itself when it is nil. |
| QuizFormModel.QuizForm.TotalSteps | app/form/quiz_form.rb:94-96 | The quiz has three steps. |
| QuizFormModel.SlotKeyInjective | app/form/quiz_form.rb:60 | Distinct slot positions get distinct error keys `answer_{i+1}`. |
| QuizFormModel.BlankErrors | app/form/quiz_form.rb:55-62 | There is one error per blank slot, so never more errors than slots. |
| QuizFormModel.BlankErrorsExact | app/form/quiz_form.rb:55-62 | Every error names a blank slot, every blank slot has an error on `answer_{i+1}`, and there is one error per blank slot. |
| QuizFormModel.NoErrorsIffNoBlank | app/form/quiz_form.rb:55-62 | The slots give no error exactly when none is blank. |
| QuizFormModel.ThreeBlankSlots | app/form/quiz_form.rb:55-62 | Slots [nil, "x", nil, "y", nil] give exactly the errors on answer_1, answer_3 and answer_5, in that order. |
| QuizFormModel.QuizForm.ValidateAnswers | app/form/quiz_form.rb:55-62 | The loop over the five slots appends exactly `BlankErrors` of the slots to the form's errors. |
| QuizFormModel.QuizForm.IsValid | app/form/quiz_form.rb:40 | `valid?` leaves exactly the blank-slot errors and answers true exactly when no slot is blank. |
| QuizFormModel.AnswerObject | app/form/quiz_form.rb:136-143 | The page entry is keyed `question_page_{step}` and holds the five slots in order. |
| QuizFormModel.QuestionName | app/form/quiz_form.rb:136-138 | The page key starts with `question_page_` and has the step after it. |
| QuizFormModel.QuestionNameReadsBack | app/form/quiz_form.rb:136-138 | `to_i` of the text after `question_page_` is the step, so two steps share a key exactly when they are equal. |
| QuizFormModel.NewAttempt | app/form/quiz_form.rb:151-153 | The new record holds just the submitted page and counts as started today. |
| QuizFormModel.NewAttemptValidIff | app/form/quiz_form.rb:151-155 | A new record with a full page is valid exactly when it has a user. |
| QuizFormModel.MergedAttempt | app/form/quiz_form.rb:146-148 | The merged record reads the submitted answers under the page key and differs from the last attempt only in its answer hash. |
| QuizFormModel.StartedTodayLasts | app/form/quiz_form.rb:131-133 | An attempt started today and not completed is still so after a page is merged in, and an attempt started today is not one started on any other day. |
| QuizFormModel.NewAttemptValid | app/form/quiz_form.rb:151-155 | A new attempt for an existing user is valid: it is dated today, not completed, and holds the one submitted page. |
| QuizFormModel.MergedAttemptValid | app/form/quiz_form.rb:146-148 | Merging a page into a valid attempt gives a valid attempt of the same user. |
| QuizFormModel.ResubmitKeepsPageCount | app/form/quiz_form.rb:141-148 | The merged attempt reads the submitted page under its key and leaves the other pages alone; a page that is already there keeps the page count. |
| QuizFormModel.QuizForm.UpdateAnswers | app/form/quiz_form.rb:65-71 | An attempt of today that is not completed gets the page merged in, and otherwise a new attempt is appended. Without a user, the new record's errors are copied onto the form and the reload raises. |
| Runtime.RubyAt | app/controllers/steps_controller.rb:139 | Reading an array at an index gives the entry there, counts from the end for a negative index, and is nil exactly outside the array. |
| Runtime.StrToIOfIntToString | app/form/quiz_form.rb:44 | `to_i` of an integer's decimal text is that integer, so a step that went through a token's query string reads back unchanged. |
| Runtime.StrToIWithoutDigits | app/form/quiz_form.rb:44 | `to_i` of a text with no digit is 0. |
| Runtime.ToI | app/form/quiz_form.rb:44 | `to_i` is 0 on nil and on the empty string, and an integer's own value, which its decimal text also reads back to. |
| Runtime.Blank | app/form/quiz_form.rb:58 | nil, the empty string and the empty array are blank; an integer never is. |
| Runtime.BlankIffAllSkipped | app/form/quiz_form.rb:58 | A string is blank exactly when it is all whitespace, and a blank string's `to_i` is 0. |
| QuizSession.RubyStore | app/controllers/steps_controller.rb:56 | An array store raises exactly for an index before the start; past the end it grows the array to the index. |
| QuizSession.StoreThenAt | app/controllers/steps_controller.rb:56 | A value stored at an index is read back at that index. |
| QuizSession.StoreKeepsOthers | app/controllers/steps_controller.rb:56 | Storing leaves every other entry as it was, and the padding is nil. |
| QuizSession.SavedState | app/controllers/steps_controller.rb:139 | The saved snapshot of a step is nil without a snapshot array; with one, it is the entry at step − 1 whenever that index is inside the array. |
| QuizSession.Session.Saved | app/controllers/steps_controller.rb:139 | A snapshot read from a valid session always holds an integer step. |
| QuizSession.Session.StoreSnapshot | app/controllers/steps_controller.rb:55-56 | `quiz_forms ||= []` and the store at step − 1: the array becomes the stored array, or the store raises and leaves `[]` or the old array. |
| QuizSession.StoredSnapshotIsRestored | app/controllers/steps_controller.rb:55-56 | The snapshot stored for a step is the one read back for that step. |
| QuizSession.Session.ClearQuizForms | app/controllers/concerns/quiz_form_handler.rb:47 | The snapshot array becomes nil. |
| QuizSession.Session.StartTimer | app/controllers/steps_controller.rb:18-22 | `start_timer` records the start time and sets `running`. |
| QuizSession.Session.StopTimer | app/controllers/steps_controller.rb:78-79 | The stopwatch is cleared: no start time, not running. |

| StepsConcern.QueryValue | app/services/url_params_encoder.rb:16 | A value after the query-string round trip is never an integer, and an array keeps its length. |
| StepsConcern.Encode | app/services/url_params_encoder.rb:15-18 | A token carries exactly the keys of the encoded hash. |
| StepsConcern.Decode | app/services/url_params_encoder.rb:29-33 | Decoding raises exactly on a malformed token. |
| StepsConcern.EncodedIntegerReadsBack | app/services/url_params_encoder.rb:15-33 | An integer put into a token comes back as a string whose `to_i` is that integer. |
| StepsConcern.Permit | app/controllers/concerns/steps_concern.rb:13 | `permit` keeps exactly the listed keys whose values are scalars, with their values. |
| StepsConcern.QuizFormPresent | app/controllers/concerns/steps_concern.rb:35 | An empty form hash is not `present?`; a present form is a non-empty hash. |
| StepsConcern.EncodedParamsAndQuizForm | app/controllers/concerns/steps_concern.rb:34-36 | Without a token, or without a present form, the check is false. |
| StepsConcern.QuizFormParams | app/controllers/concerns/steps_concern.rb:7-14 | With a token and a form, the decoded token overlaid by the form is permitted, and a malformed token raises. With a form only, the form is permitted. Without a form, `require` raises. |
| StepsConcern.SubmittedValuesWin | app/controllers/concerns/steps_concern.rb:9-10 | On a conflict the submitted form's value wins; a key only the token has is kept. |
| StepsConcern.FromParams | app/controllers/concerns/steps_concern.rb:17-19 | The form parameters keep every submitted key and get the signed-in user's id. |
| StepsConcern.FromEncodedParams | app/controllers/concerns/steps_concern.rb:22-24 | A malformed token raises; otherwise the decoded hash gets the signed-in user's id. |
| StepsConcern.DefaultParams | app/controllers/concerns/steps_concern.rb:27-29 | The default form's parameters are the route's step as an integer and the signed-in user's id. |
| StepsConcern.FormSource | app/controllers/steps_controller.rb:127-135 | The submitted form comes first, then the token, then the route's step; every source carries the signed-in user's id. |
| StepsConcern.FormSourceUser | app/controllers/concerns/steps_concern.rb:17-29 | Whatever the source, the form belongs to the signed-in user. |
| StepsConcern.DefaultFormStep | app/controllers/concerns/steps_concern.rb:27-29 | Without a form or a token, the form starts at the route's step with empty slots. |
| StepsConcern.BuildQuizFormFromParams | app/controllers/concerns/steps_concern.rb:17-19 | It builds a fresh form in the initial state of the submitted parameters plus the user's id. |
| StepsConcern.BuildQuizFormFromEncodedParams | app/controllers/concerns/steps_concern.rb:22-24 | It builds a fresh form from the decoded token plus the user's id. A malformed token raises, and a step that `to_i` cannot read raises NoMethodError. |
| StepsConcern.BuildDefaultQuizForm | app/controllers/concerns/steps_concern.rb:27-29 | It builds a fresh form at the route's step, for the signed-in user, with empty slots. |
| QuizFormHandler.NextStepParams | app/controllers/concerns/quiz_form_handler.rb:9 | The encoded hash holds exactly the form's `answer` and its new step. |
| QuizFormHandler.NextStep | app/controllers/concerns/quiz_form_handler.rb:6-14 | Below the last page, the step goes up by exactly one and the redirect carries a token of (answer, new step). On the last page the step stays and the redirect goes to the review page. |
| QuizFormHandler.NextStepTokenBuildsNextPage | app/controllers/concerns/quiz_form_handler.rb:9-10 | The token `next_step` sends builds, on the next request, a form at the new step for the signed-in user with empty slots. |
| QuizFormHandler.NextPageParams | app/controllers/concerns/quiz_form_handler.rb:9 | Parameters holding only the answer array, the step and the user give a form at that step with empty slots. |
| QuizFormHandler.Reopened | app/controllers/concerns/quiz_form_handler.rb:17-21 | Reopening keeps every attempt but the last and marks the last one not completed; with no attempt nothing changes. |
| QuizFormHandler.ResetUserCompletionStatus | app/controllers/concerns/quiz_form_handler.rb:17-21 | The user's attempts become `Reopened` of what they were, and all stay valid. |
| QuizFormHandler.SetAnswerForQuestion | app/controllers/concerns/quiz_form_handler.rb:40-43 | Index i below five sets exactly slot `answer_{i+1}`; any other index has no setter and raises, changing nothing. |
| QuizFormHandler.AnswersFor | app/controllers/concerns/quiz_form_handler.rb:31-32 | The result is never nil: the value under `question_{id}` when it is given, and `[]` when there is no `answer` parameter or no value under that key. |
| QuizFormHandler.SubmittedAnswersFillSlots | app/controllers/concerns/quiz_form_handler.rb:30-37 | Up to five submitted answers fill the slots in order and the remaining slots stay nil; with no answers for the page, all five slots are nil. |
| QuizFormHandler.PopulateQuizFormWithAnswers | app/controllers/concerns/quiz_form_handler.rb:30-37 | Each of the first five answers goes into its slot. A sixth answer, or a value that is not a list, raises. |
| QuizFormHandler.BuildQuizFormWithAnswers | app/controllers/concerns/quiz_form_handler.rb:24-27 | The form is at the route's step, for the signed-in user, with the request's answers in its slots. |
| QuizFormHandler.ClearQuizFormSessionData | app/controllers/concerns/quiz_form_handler.rb:46-48 | `quiz_forms` becomes nil. |
| StepsController.ValidateStepNeedsDigit | app/controllers/steps_controller.rb:144-146 | A route id with no digit never names a page. |
| StepsController.ValidateStepExamples | app/controllers/steps_controller.rb:144-146 | The decimal texts of 1, 2 and 3 name pages; those of 0 and 4 do not. |
| StepsController.ValidateStepLeadingDigits | app/controllers/steps_controller.rb:144-146 | `to_i` reads leading digits only, so the id "2abc" names page 2. |
| StepsController.SetQuizForm | app/controllers/steps_controller.rb:127-135 | The form built is the initial state of `FormSource`, or the failure that source raises. |
| StepsController.RestoredState | app/controllers/steps_controller.rb:138-141 | Without a snapshot the form is unchanged. |
| StepsController.RestoreQuizFormState | app/controllers/steps_controller.rb:138-141 | The snapshot of the form's step, if any, is assigned to the form. |
| StepsController.RevisitRestoresSubmittedPage | app/controllers/steps_controller.rb:55-56 | The snapshot `update` stores for a step restores every submitted attribute onto any later form of that step. |
| StepsController.ShowParams | app/controllers/steps_controller.rb:26-27 | `show`'s token parameters keep only a scalar step and add the user, so the slots start empty. |
| StepsController.ShowStart | app/controllers/steps_controller.rb:25-30 | Without a token the form is at the route's step; with a token, only a malformed token raises. |
| StepsController.ShowAfterNextStep | app/controllers/steps_controller.rb:25-27 | The page after a `next_step` redirect opens at the new step with nothing filled in. |
| StepsController.BuildShowForm | app/controllers/steps_controller.rb:25-30 | The form `show` builds is the state `ShowStart` describes. |
| StepsController.Show | app/controllers/steps_controller.rb:24-38 | An id outside 1..3 is not found. Otherwise the form is built and its page's snapshot restored, and the stopwatch starts exactly when the form is at step 1. |
| StepsController.Edit | app/controllers/steps_controller.rb:42-46 | An id outside 1..3 is not found. Otherwise the last attempt is reopened, the form is filled from the request's answers and then from the page's snapshot. |
| StepsController.RecordPage | app/controllers/steps_controller.rb:51-58 | The page is recorded in the user's attempt and the attributes are stored at step − 1; then the redirect of `next_step` follows. A store before the start raises. |
| StepsController.StoreSnapshotAndRedirect | app/controllers/steps_controller.rb:55-57 | The form's attributes are stored at step − 1 and the `next_step` redirect follows; a store before the start raises and leaves `[]` or the old array. |
| StepsController.SubmitPage | app/controllers/steps_controller.rb:51-61 | A form with a blank slot is shown again with 422 and its errors; the attempts and the session stay unchanged. Otherwise the page is recorded as by `RecordPage`. |
| StepsController.Update | app/controllers/steps_controller.rb:50-62 | An id outside 1..3 is not found, and a failing form source changes nothing. Otherwise `SubmitPage` runs on the form from `FormSource`. |
| StepsController.Completed | app/controllers/steps_controller.rb:149-152 | After completion the last attempt is marked completed and stays last. No incomplete attempt remains, and every earlier attempt that was not incomplete is kept. |
| StepsController.CleanAndCompleteQuiz | app/controllers/steps_controller.rb:149-152 | With no attempt the update on nil raises; otherwise the attempts become `Completed` of what they were. |
| StepsController.Timed | app/controllers/steps_controller.rb:72-73 | With a `time` column, the elapsed time is written onto the last attempt only. |
| StepsController.TimedRecordWithoutAttemptInvalid | app/controllers/steps_controller.rb:75 | With a `time` column, the record created when there is no attempt has no answers, date or flag, so it is never saved. |
| StepsController.RecordElapsedTime | app/controllers/steps_controller.rb:72-76 | With a `time` column, the user's attempts become `Timed` of what they were. |
| StepsController.StopStopwatch | app/controllers/steps_controller.rb:68-83 | With a `time` column, a running stopwatch records the elapsed time on the last attempt and is cleared. Otherwise the stopwatch and the attempts are untouched. |
| StepsController.CheckYourAnswers | app/controllers/steps_controller.rb:66-88 | As evidently intended: the stopwatch is handled as by `StopStopwatch`, then the attempt is closed. With no attempt the action raises. |
| StepsController.CheckYourAnswersAsWritten | app/controllers/steps_controller.rb:66-88 | As written: with a running stopwatch the `Time:` update raises UnknownAttributeError before anything changes. Otherwise the attempt is closed, and with no attempt the action raises. |
| StepsController.Results | app/controllers/steps_controller.rb:92-102 | The attempt is closed and scored, and the score's whole part is written onto it. The snapshots are forgotten, and with no attempt the action raises. |
| StepsController.EligibleOf | app/controllers/steps_controller.rb:108 | Exactly the completed, scored attempts pass the filter; with none of them the result is empty. |
| StepsController.EligibleOfExact | app/controllers/steps_controller.rb:108 | Each completed, scored attempt is kept as many times as it occurs, no other attempt is kept, and the order is kept. |
| StepsController.InsertByScore | app/controllers/steps_controller.rb:108 | Insertion by score adds exactly the one attempt. |
| StepsController.InsertByScoreSorted | app/controllers/steps_controller.rb:108 | Insertion keeps a list ordered by descending score. |
| StepsController.SortByScore | app/controllers/steps_controller.rb:108 | `order(score: :desc)` is a permutation of its input. |
| StepsController.SortByScoreSorted | app/controllers/steps_controller.rb:108 | `order(score: :desc)` orders by descending score. |
| StepsController.TopScores | app/controllers/steps_controller.rb:108 | The scoreboard holds min(10, number of eligible attempts) attempts and is empty when nothing is completed and scored. |
| StepsController.TopScoresSortedAndEligible | app/controllers/steps_controller.rb:108 | The scoreboard is ordered best first and holds only completed, scored attempts of the table. |
| StepsController.TopScoresAreBest | app/controllers/steps_controller.rb:108 | No eligible attempt left off the scoreboard scores more than one on it. |
| StepsController.TopScoresIsPrefix | app/controllers/steps_controller.rb:108 | `limit(10)` keeps a prefix of the ordered eligible attempts. |
| StepsController.Scoreboard | app/controllers/steps_controller.rb:107-113 | The action renders the scoreboard `TopScores` describes. |
| QuizResultsHelper.CheckAnswerNotAvailable | app/helpers/quiz_results_helper.rb:63 | "N/A" on either side is never correct, as written and as intended. |
| QuizResultsHelper.CheckAnswerAsWritten | app/helpers/quiz_results_helper.rb:62-66 | As written, a match needs a reference other than "N/A", and any user value that is not a string matches it. |
| QuizResultsHelper.CheckAnswer | app/helpers/quiz_results_helper.rb:62-66 | As intended, a match needs a user string and a reference other than "N/A". |
| QuizResultsHelper.CheckAnswerWithinAsWritten | app/helpers/quiz_results_helper.rb:62-66 | Every answer that matches as intended also matches as written. |
| QuizResultsHelper.CheckAnswerIff | app/helpers/quiz_results_helper.rb:62-66 | For answers other than "N/A", a match is equality after `strip.downcase`. |
| QuizResultsHelper.CheckAnswerSymmetric | app/helpers/quiz_results_helper.rb:62-66 | Checking is symmetric in the two answers. |
| QuizResultsHelper.NormalizePadded | app/helpers/quiz_results_helper.rb:65 | Surrounding whitespace does not change `strip.downcase`. |
| QuizResultsHelper.NormalizeSameUpToCase | app/helpers/quiz_results_helper.rb:65 | Two answers without surrounding whitespace have the same `strip.downcase` exactly when they have the same length and the same letters up to ASCII case. |
| QuizResultsHelper.CheckAnswerCaseInsensitive | app/helpers/quiz_results_helper.rb:62-66 | Two answers other than "N/A", without surrounding whitespace, match exactly when they have the same length and the same letters up to ASCII case. |
| QuizResultsHelper.StripLeft | app/helpers/quiz_results_helper.rb:65 | Stripping the left end keeps a suffix, removes only whitespace and NUL, and leaves a first character that is neither. |
| QuizResultsHelper.StripRight | app/helpers/quiz_results_helper.rb:65 | Stripping the right end keeps a prefix, removes only whitespace and NUL, and leaves a last character that is neither. |
| QuizResultsHelper.Strip | app/helpers/quiz_results_helper.rb:65 | `strip` never lengthens a string and leaves it empty or with no whitespace at either end. |
| QuizResultsHelper.StripCutsOnlyWhitespace | app/helpers/quiz_results_helper.rb:65 | `strip` gives a contiguous part of the string, and everything cut off before and after it is whitespace. |
| QuizResultsHelper.LowerChar | app/helpers/quiz_results_helper.rb:65 | A capital letter A-Z becomes its lower-case letter; every other character is unchanged; no result is a capital. |
| QuizResultsHelper.Downcase | app/helpers/quiz_results_helper.rb:65 | `downcase` keeps the length and lowers each character in place. |
| QuizResultsHelper.NormalizeShape | app/helpers/quiz_results_helper.rb:65 | `strip.downcase` is no longer than its input, has no whitespace at either end and holds no capital letter. |
| QuizResultsHelper.NormalizeIdempotent | app/helpers/quiz_results_helper.rb:65 | Normalising a normalised answer changes nothing. |
| QuizResultsHelper.CheckAnswerIgnoresPadding | app/helpers/quiz_results_helper.rb:62-66 | A user answer that differs only by surrounding whitespace is judged the same. |
| QuizResultsHelper.CheckAnswerMatchExamples | app/helpers/quiz_results_helper.rb:62-66 | "Answer One" matches itself and "   answer one   ". |
| QuizResultsHelper.CheckAnswerNumberExample | app/helpers/quiz_results_helper.rb:62-66 | "12345678900" does not match "Answer One" as intended, but does as written. |
| QuizResultsHelper.PageCorrect | app/helpers/quiz_results_helper.rb:31-34 | A page's count of correct slots never exceeds its number of slots. |
| QuizResultsHelper.CorrectWith | app/helpers/quiz_results_helper.rb:30-35 | The total of correct slots never exceeds the number of submitted slots. |
| QuizResultsHelper.TotalCorrect | app/helpers/quiz_results_helper.rb:28-37 | The intended count never exceeds the submitted slots, nor the count as written. |
| QuizResultsHelper.TotalCorrectAsWritten | app/helpers/quiz_results_helper.rb:28-37 | The count as written never exceeds the submitted slots. |
| QuizResultsHelper.CorrectWithin | app/helpers/quiz_results_helper.rb:28-37 | A stricter checker never counts more correct answers than a laxer one. |
| QuizResultsHelper.PageCorrectAnswers | app/helpers/quiz_results_helper.rb:31-34 | The inner loop counts the slots of one page that check against the reference at (page position, question position). |
| QuizResultsHelper.TotalCorrectAnswers | app/helpers/quiz_results_helper.rb:28-37 | The nested loops count exactly `TotalCorrect`: every slot of every page, scored by position. |
| QuizResultsHelper.CorrectIgnoresKeys | app/helpers/quiz_results_helper.rb:30-32 | The page keys play no part: pages are scored by their position. |
| QuizResultsHelper.CorrectNone | app/helpers/quiz_results_helper.rb:28-37 | With no slot accepted, the count is 0. |
| QuizResultsHelper.CorrectAll | app/helpers/quiz_results_helper.rb:28-37 | With every slot accepted, the count is the number of slots. |
| QuizResultsHelper.AsWrittenCountsEverySlot | app/helpers/quiz_results_helper.rb:28-37 | As written, with a bank free of "N/A" and no "N/A" answer, every slot counts as correct. |
| QuizResultsHelper.FixtureCount | app/helpers/quiz_results_helper.rb:28-37 | The tests' three-page attempt scores 6 against "Answer One" as intended, and 15 as written. |
| QuizResultsHelper.FixtureNoMatch | app/helpers/quiz_results_helper.rb:28-37 | The tests' attempt scores 0 against "Incorrect Answer". |
| QuizResultsHelper.ScorePercentageAsWritten | app/helpers/quiz_results_helper.rb:47-51 | As written, the percentage is 0 with no questions and otherwise correct / total × 100, within 0..100. |
| QuizResultsHelper.Round2 | app/helpers/quiz_results_helper.rb:45 | Rounding to two decimals moves a value by at most half a hundredth. |
| QuizResultsHelper.ScorePercentage | app/helpers/quiz_results_helper.rb:39-51 | The documented percentage is 0 with no questions. Otherwise it is the exact percentage rounded half up to two decimals, within half a hundredth of it, and within 0..100. |
| QuizResultsHelper.ThirdCorrect | app/helpers/quiz_results_helper.rb:47-51 | Five of fifteen gives 33.33 as documented and 100/3, not 33.33, as written. |
| QuizResultsHelper.EmptyAttemptScoresZero | app/helpers/quiz_results_helper.rb:47-51 | An attempt with no pages scores 0. |
| QuizResultsHelper.ScoringMetrics | app/helpers/quiz_results_helper.rb:14-18 | As intended, the triple is the rounded percentage of the intended correct count, that count (at most the submitted slots) and the 15 questions. |
| QuizResultsHelper.ScoringMetricsAsWritten | app/helpers/quiz_results_helper.rb:14-18 | As written, the triple is the unrounded percentage of the count `check_answer` lets through, that count and the 15 questions. |
| QuizResultsHelper.AsWrittenFullAttemptScoresHundred | app/helpers/quiz_results_helper.rb:14-18 | As written, any full attempt without "N/A" scores 100 with 15 correct, whatever was answered. |
| QuizResultsHelper.FetchUserAnswer | app/helpers/quiz_results_helper.rb:126-130 | A missing page entry is rescued as "N/A". An index in range reads the slot, and one outside it reads nil. |
| QuizResultsHelper.EvaluateResult | app/helpers/quiz_results_helper.rb:141-143 | The intended result is "Correct" exactly when the answer checks, and "Incorrect" otherwise. |
| QuizResultsHelper.EvaluateResultAsWritten | app/helpers/quiz_results_helper.rb:141-143 | As written, the result is never "Correct", so it disagrees with the intended result on every answer that checks. |
| QuizResultsHelper.EvaluateResultExamples | app/helpers/quiz_results_helper.rb:141-143 | A user who gave the reference answer is "Correct" as intended and "Incorrect" as written; a missing entry is "Incorrect". |
| StepsHelper.FirstNumber | app/helpers/steps_helper.rb:15 | `/(\d+)/` finds nothing exactly when there is no digit. Otherwise it finds a maximal run of digits with no digit before it. |
| StepsHelper.FormatQuestion | app/helpers/steps_helper.rb:14-17 | The label is "Page " and the first run of digits; a question with no digit raises. |
| StepsHelper.FormatQuestionOfPageKey | app/helpers/steps_helper.rb:14-17 | The label of the page key `question_page_N` is "Page N". |
| StepsHelper.FormatQuestionExample | app/helpers/steps_helper.rb:14-17 | 'Question 123' is labelled 'Page 123'. |
| StepsHelper.QuizQuestionKey | app/helpers/steps_helper.rb:28-30 | The I18n key starts with `quiz_form.` followed by the question. |
| StepsHelper.QuizQuestionKeyInjective | app/helpers/steps_helper.rb:28-30 | Different question indexes of one page get different keys. |
| StepsHelper.QuizQuestionKeyExample | app/helpers/steps_helper.rb:28-30 | Question 0 of 'some_question' has the key `quiz_form.some_question.question_1.question`. |
| StepsHelper.ContinuousIndex | app/helpers/steps_helper.rb:41-43 | For a question position below five, the index divided by five is the page minus one and the remainder is the position. |
| StepsHelper.ContinuousIndexInjective | app/helpers/steps_helper.rb:41-43 | Distinct (page, position) pairs get distinct numbers. |
| StepsHelper.ContinuousIndexRange | app/helpers/steps_helper.rb:41-43 | Pages 1..3 number their questions within 0..14. |
| StepsHelper.ContinuousIndexOf | app/helpers/steps_helper.rb:41-43 | With `to_i` on both arguments: integers give `ContinuousIndex`, a step given as its decimal text gives the same number, and a nil step counts as page 0. |
| StepsHelper.ValidationErrorText | app/helpers/steps_helper.rb:54-56 | The text starts with "Question " and ends with the blank-answer message. |
| StepsHelper.ValidationErrorTextExample | app/helpers/steps_helper.rb:54-56 | Page 2, question 3 reads "Question 8 : " and the message. |
| ApplicationController.QuizPages | app/controllers/application_controller.rb:50-53 | Every action StepsController declares is a quiz page, and no action of another controller is. |
| ApplicationController.OnQuizPage | app/controllers/application_controller.rb:50-53 | Only an action of the `steps` controller that is among its action methods is a quiz page. |
| ApplicationController.ClearQuizSessionData | app/controllers/application_controller.rb:42-44 | `quiz_forms` becomes nil. |
| ApplicationController.ClearUnlessOnQuizPage | app/controllers/application_controller.rb:7 | The snapshots are cleared exactly when the request is not on a quiz page, and are untouched otherwise. |
| ApplicationController.FirstMatchFrom | app/controllers/application_controller.rb:38 | It finds the first position from q on where `/^[a-z]{2}/` matches, and no earlier one; it finds none when no position matches. |
| ApplicationController.ExtractLocale | app/controllers/application_controller.rb:37-39 | An absent header gives nil. Otherwise the result is two lowercase letters at the earliest line start where they occur, and nil exactly when there is none. |
| ApplicationController.LeadingLanguageExtracted | app/controllers/application_controller.rb:37-39 | A header that starts with two lowercase letters gives those two letters. |
| ApplicationController.SingleLineHeader | app/controllers/application_controller.rb:37-39 | A one-line header that does not start with two lowercase letters gives nil. |
| ApplicationController.FrenchHeaderExample | app/controllers/application_controller.rb:37-39 | 'fr-FR,fr;q=0.9,en-US;q=0.8,en;q=0.7' gives 'fr'. |
| ApplicationController.SecondLineHeaderExample | app/controllers/application_controller.rb:37-39 | `^` also matches after a newline: a header 'EN' followed by a line 'en-US' gives 'en'. |
| ApplicationController.NoLocaleExamples | app/controllers/application_controller.rb:37-39 | 'EN-US' and a missing header give nil. |
| ApplicationController.LocaleCandidate | app/controllers/application_controller.rb:11-20 | A present user language is taken; otherwise the result is an available locale or the default one. |
| ApplicationController.ChooseLocale | app/controllers/application_controller.rb:11-20 | The locale set is always available. A present user language is set exactly when it is available, and raises otherwise. Without one, an available default never raises. |
| ApplicationController.BrowserLocaleChosen | app/controllers/application_controller.rb:16-18 | Without a user language, the browser's locale is set exactly when it is available, and the default otherwise. |
| ApplicationController.UserLanguageWins | app/controllers/application_controller.rb:12-14 | An available user language is set whatever the header says. |
| ApplicationController.I18n.SetLocale | app/controllers/application_controller.rb:11-20 | `set_locale` sets the chosen locale, or raises and leaves the locale as it was; the locale stays available. |
| ApplicationController.BeforeActions | app/controllers/application_controller.rb:7-8 | The session clean-up runs first, then `set_locale`, each with the effect described above. |

## Left out

- **Authentication.** The signed-in user is given. `authenticate_user!`, `current_user`, login and logout, and the `before_action :current_user` are not modelled, and neither are users and their languages as records.
- **The codec internals.** Deflate, Base64 and the query-string encoding behind `UrlParamsEncoder` are not modelled. A token is the hash it carries after the query-string round trip, or malformed. An empty array inside a token is not modelled; the form's `answer` array always has five entries.
- **Views, rendering and messages.** The `404.html` file, the `respond_to` formats, `puts` logging, the CSV downloads (`download`, the scoreboard's CSV), `render_404`, `current_page_range`, `current_question_range`, `generate_table_row` and `generate_table_data` are not modelled. The I18n texts of questions, reference answers and error messages are not modelled either. The reference answers are a parameter, and messages are symbols.
- **The database.** Persistence is modelled as a user's list of attempts, oldest first. Concurrency between requests, `reload`, `includes(:user)` and the attempts of other users are left out; the scoreboard takes the whole table as a parameter.
- **StepsController.TopScores:** the order of attempts with equal scores is not fixed by the database. The model's sort keeps the first of equal attempts first, which is one of the orders the database may return.
- StepsController.RecordElapsedTime: with `Timed`, `TimedRecordWithoutAttemptInvalid`, `StopStopwatch` and `CheckYourAnswers`, it models the stopwatch as evidently intended, writing to a `time` column that `db/schema.rb` does not have. The action as written is `CheckYourAnswersAsWritten` (see Findings). The elapsed time is stored as given; `Float#round(2)` is not applied.
- QuizResultsHelper.ScoringMetrics: it models `scoring_metrics` as intended, with the corrected `check_answer` and the two-decimal rounding. `ScoringMetricsAsWritten` models the code as written.
- StepsController.Results: it scores with the corrected `ScoringMetrics`. As written, `results` stores the score of `ScoringMetricsAsWritten`, which gives 100 for any full attempt without "N/A" (`AsWrittenFullAttemptScoresHundred`).
- QuizResultsHelper.Downcase: it lowers only ASCII A-Z. Ruby's `String#downcase` also maps other Unicode capitals, so "École" and "école" differ in the model but match in Ruby.
- Runtime.Blank: whitespace is the ASCII set (space, tab, newline, vertical tab, form feed, carriage return). Ruby's `blank?` also treats other Unicode spaces as blank, such as U+00A0 and U+3000; the model does not.
- Runtime.StrToI: it reads an optional sign and a run of decimal digits. Ruby's `String#to_i` also accepts underscores between digits, so `"1_0".to_i` is 10 in Ruby and 1 in the model.
- **Time.** `Time.now.to_f` and `Time.zone.today` are parameters, as a real number and a day number.
- **The `current_user` of `QuizForm`.** It is `User.find_by(id: current_user_id)`: the caller passes the user's attempts, or null when no user has that id.
- **ApplicationController.OnQuizPage:** StepsController's `action_methods` is a parameter. Rails computes it by reflection over the controller and the modules it includes. The model fixes only the actions the controller declares itself.
- **ApplicationController.ChooseLocale:** the available locales come from a glob of the locale files at boot and are a parameter. `to_sym` is the identity on locale names.
- **`previous_answers`.** It is `answers.last`, modelled as `AnswerModel.UserAnswers.Last`.
- **The `Answer` hash's key types.** `save_answers` merges a symbol key into a hash whose keys came back from JSON as strings. Once the JSON round trip writes both keys, the stored hash holds the new answers under the page's key at its old position; the model's `Merge` is that upsert.

## Findings

| source | as written | input that shows it | evidently intended | confidence | as-written member | corrected member |
|---|---|---|---|---|---|---|
| app/helpers/quiz_results_helper.rb:62-66 | `check_answer` returns the truthy string `correct_answer.strip.downcase` and never looks at the user's answer. | Reference 'Answer One', user answer '12345678900': judged correct. | True exactly when both answers agree after `strip.downcase`, as the tests expect. | not executed | QuizResultsHelper.CheckAnswerNumberExample | QuizResultsHelper.CheckAnswerIff |
| app/helpers/quiz_results_helper.rb:141-143 | `evaluate_result` always returns 'Incorrect'. | A user who answered the reference answer: 'Incorrect'. | 'Correct' exactly when the answer checks, as the table-row test expects. | not executed | QuizResultsHelper.EvaluateResultExamples | QuizResultsHelper.EvaluateResult |
| app/helpers/quiz_results_helper.rb:47-51 | `score_percentage` returns correct / 15 × 100 unrounded, though its comment promises two decimals. | 5 correct answers: 33.333…, not 33.33. | The percentage rounded to two decimals; the test expects 33.33. | not executed | QuizResultsHelper.ThirdCorrect | QuizResultsHelper.ScorePercentage |
| app/controllers/steps_controller.rb:72-76 | `check_your_answers` writes the elapsed time with `update(Time: …)` or `Answer.create(user:, Time: …)`, but the `answers` table has no `Time` column (db/schema.rb:17-28). | `check_your_answers` after `start_timer`: ActiveModel raises UnknownAttributeError, the timer keeps running and the attempt is not closed. | The elapsed time is recorded, the stopwatch is cleared and the attempt is closed. | not executed | StepsController.CheckYourAnswersAsWritten | StepsController.CheckYourAnswers |
