/**
  * QuizResultsHelper: scores an attempt. Every submitted slot is checked
  * against the reference answer at the same page position and question
  * position, the hits are counted, and the count becomes a percentage of
  * the fifteen questions.
  *
  * The reference answers come from the I18n question bank, abstracted here
  * as a function from (page index, question index) to a string whose
  * missing entries read "N/A".
  */
module QuizResultsHelper {
  import opened Runtime
  import opened QuizConstants
  import opened AnswerModel

  /** The question bank's reference answers, by 0-based page and question position. */
  type Bank = (nat, nat) -> string

  /** A checker of one user answer against one reference answer. */
  type Checker = (string, Value) -> bool

  const NotAvailable: string := "N/A"

  // ---------------------------------------------------------------------
  // strip / downcase
  // ---------------------------------------------------------------------

  /** The characters `String#strip` removes: ASCII whitespace and NUL. */
  predicate Strippable(c: char) {
    IsSpace(c) || c == '\0'
  }

  function StripLeft(s: string): (t: string)
    ensures |t| <= |s| && t == s[|s| - |t|..]
    ensures forall i :: 0 <= i < |s| - |t| ==> Strippable(s[i])
    ensures t != [] ==> !Strippable(t[0])
  {
    if s != [] && Strippable(s[0]) then StripLeft(s[1..]) else s
  }

  function StripRight(s: string): (t: string)
    ensures |t| <= |s| && t == s[..|t|]
    ensures forall i :: |t| <= i < |s| ==> Strippable(s[i])
    ensures t != [] ==> !Strippable(t[|t| - 1])
  {
    if s != [] && Strippable(s[|s| - 1]) then StripRight(s[..|s| - 1]) else s
  }

  /** `strip`: what remains neither starts nor ends with whitespace. */
  function Strip(s: string): (t: string)
    ensures |t| <= |s|
    ensures t == [] || Trimmed(t)
  {
    var l := StripLeft(s);
    var t := StripRight(l);
    assert t != [] ==> t[0] == l[0];
    t
  }

  /** `strip` keeps a contiguous part of the string and cuts off only whitespace around it. */
  lemma StripCutsOnlyWhitespace(s: string)
    ensures exists i :: StripsTo(s, Strip(s), i)
  {
    var l := StripLeft(s);
    var t := StripRight(l);
    var i := |s| - |l|;
    assert t == s[i..i + |t|];
    assert forall j :: i + |t| <= j < |s| ==> s[j] == l[j - i];
    assert StripsTo(s, t, i);
    assert Strip(s) == t;
  }

  /** `t` is the part of `s` from `i` on, with only whitespace before and after it. */
  predicate StripsTo(s: string, t: string, i: int) {
    0 <= i <= |s| - |t| && t == s[i..i + |t|]
    && (forall j :: 0 <= j < i ==> Strippable(s[j]))
    && (forall j :: i + |t| <= j < |s| ==> Strippable(s[j]))
  }

  /** `downcase` on one character: an ASCII capital becomes its small letter, anything else stays. */
  function LowerChar(c: char): (d: char)
    ensures !('A' <= d <= 'Z')
    ensures 'A' <= c <= 'Z' ==> 'a' <= d <= 'z'
    ensures !('A' <= c <= 'Z') ==> d == c
  {
    if 'A' <= c <= 'Z' then (c as int + 32) as char else c
  }

  /** `downcase` on ASCII letters. */
  function Downcase(s: string): (t: string)
    ensures |t| == |s| && forall i :: 0 <= i < |s| ==> t[i] == LowerChar(s[i])
  {
    if s == [] then [] else [LowerChar(s[0])] + Downcase(s[1..])
  }

  /** `strip.downcase` */
  function Normalize(s: string): string {
    Downcase(Strip(s))
  }

  /** A normal form has no surrounding whitespace and no upper-case ASCII letter. */
  lemma NormalizeShape(s: string)
    ensures var t := Normalize(s);
      && |t| <= |s|
      && (t == [] || Trimmed(t))
      && forall i :: 0 <= i < |t| ==> !('A' <= t[i] <= 'Z')
  {
    var x := Strip(s);
    var t := Downcase(x);
    assert Normalize(s) == t;
    if x != [] {
      LowerCharKeepsText(x[0]);
      LowerCharKeepsText(x[|x| - 1]);
    }
  }

  /** Lowering a character that `strip` keeps gives one it keeps too. */
  lemma LowerCharKeepsText(c: char)
    requires !Strippable(c)
    ensures !Strippable(LowerChar(c))
  {
  }

  /** Normalising twice is normalising once. */
  lemma NormalizeIdempotent(s: string)
    ensures Normalize(Normalize(s)) == Normalize(s)
  {
    var t := Normalize(s);
    NormalizeShape(s);
    if t != [] {
      NormalizeTrimmed(t);
    }
  }

  // ---------------------------------------------------------------------
  // check_answer
  // ---------------------------------------------------------------------

  /**
    * `check_answer` as written: false when either side is "N/A", and
    * otherwise the truthy string `correct_answer.strip.downcase`, so the
    * user's answer is never compared.
    */
  function CheckAnswerAsWritten(correct: string, user: Value): (r: bool)
    ensures r ==> correct != NotAvailable
    ensures correct != NotAvailable && !user.Str? ==> r
  {
    !(correct == NotAvailable || user == Str(NotAvailable))
  }

  /**
    * `check_answer` as its tests and documentation describe it: false when
    * either side is "N/A", and otherwise whether the two answers agree after
    * `strip.downcase`. A user answer that is not a string never matches.
    */
  function CheckAnswer(correct: string, user: Value): (r: bool)
    ensures r ==> user.Str? && correct != NotAvailable
  {
    if correct == NotAvailable || user == Str(NotAvailable) then false
    else user.Str? && Normalize(correct) == Normalize(user.s)
  }

  /** Whatever the intended `check_answer` accepts, the version as written accepts too. */
  lemma CheckAnswerWithinAsWritten()
    ensures forall c, u :: CheckAnswer(c, u) ==> CheckAnswerAsWritten(c, u)
  {
  }

  /** A non-empty string with nothing for `strip` to remove at either end. */
  predicate Trimmed(s: string) {
    s != [] && !Strippable(s[0]) && !Strippable(s[|s| - 1])
  }

  /** A string with no whitespace at either end normalises letter by letter. */
  lemma NormalizeTrimmed(s: string)
    requires Trimmed(s)
    ensures |Normalize(s)| == |s|
    ensures forall i :: 0 <= i < |s| ==> Normalize(s)[i] == LowerChar(s[i])
  {
    assert StripLeft(s) == s;
    assert StripRight(s) == s;
  }

  /**
    * Two trimmed strings have the same normal form exactly when they have
    * the same length and the same letters up to case.
    */
  lemma NormalizeSameUpToCase(s: string, t: string)
    requires Trimmed(s) && Trimmed(t)
    ensures Normalize(s) == Normalize(t) <==>
      |s| == |t| && forall i :: 0 <= i < |s| ==> LowerChar(s[i]) == LowerChar(t[i])
  {
    var a, b := Normalize(s), Normalize(t);
    NormalizeTrimmed(s);
    NormalizeTrimmed(t);
    if |s| == |t| && forall i :: 0 <= i < |s| ==> LowerChar(s[i]) == LowerChar(t[i]) {
      assert forall i :: 0 <= i < |a| ==> a[i] == b[i];
    }
    if a == b {
      assert forall i :: 0 <= i < |s| ==> LowerChar(s[i]) == a[i] == LowerChar(t[i]);
    }
  }

  /** Both versions reject "N/A" on either side. */
  lemma CheckAnswerNotAvailable(correct: string, user: Value)
    requires correct == NotAvailable || user == Str(NotAvailable)
    ensures !CheckAnswer(correct, user) && !CheckAnswerAsWritten(correct, user)
  {
  }

  /** The tested contract: for answers other than "N/A", a match is equality after strip and downcase. */
  lemma CheckAnswerIff(correct: string, user: string)
    requires correct != NotAvailable && user != NotAvailable
    ensures CheckAnswer(correct, Str(user)) <==> Normalize(correct) == Normalize(user)
  {
  }

  /**
    * For trimmed answers other than "N/A", the user's answer is accepted
    * exactly when it spells the reference answer up to letter case; any other
    * answer, of another length or with another letter, is rejected.
    */
  lemma CheckAnswerCaseInsensitive(correct: string, user: string)
    requires correct != NotAvailable && user != NotAvailable
    requires Trimmed(correct) && Trimmed(user)
    ensures CheckAnswer(correct, Str(user)) <==>
      |correct| == |user| && forall i :: 0 <= i < |user| ==> LowerChar(correct[i]) == LowerChar(user[i])
  {
    NormalizeSameUpToCase(correct, user);
  }

  /** Checking is symmetric in the two answers. */
  lemma CheckAnswerSymmetric(a: string, b: string)
    ensures CheckAnswer(a, Str(b)) == CheckAnswer(b, Str(a))
  {
  }

  predicate AllStrippable(ws: string) {
    forall i :: 0 <= i < |ws| ==> Strippable(ws[i])
  }

  lemma {:induction false} StripLeftPadded(ws: string, s: string)
    requires AllStrippable(ws)
    ensures StripLeft(ws + s) == StripLeft(s)
  {
    if ws == [] {
      assert ws + s == s;
    } else {
      assert (ws + s)[0] == ws[0];
      assert (ws + s)[1..] == ws[1..] + s;
      StripLeftPadded(ws[1..], s);
    }
  }

  lemma {:induction false} StripRightPadded(s: string, ws: string)
    requires AllStrippable(ws)
    ensures StripRight(s + ws) == StripRight(s)
  {
    if ws == [] {
      assert s + ws == s;
    } else {
      assert (s + ws)[|s + ws| - 1] == ws[|ws| - 1];
      assert (s + ws)[..|s + ws| - 1] == s + ws[..|ws| - 1];
      StripRightPadded(s, ws[..|ws| - 1]);
    }
  }

  /** A string that strips to nothing is all whitespace. */
  lemma {:induction false} StripLeftEmpty(s: string)
    requires StripLeft(s) == []
    ensures AllStrippable(s)
  {
    if s != [] {
      StripLeftEmpty(s[1..]);
      forall i | 0 <= i < |s| ensures Strippable(s[i]) {
        if i > 0 {
          assert s[i] == s[1..][i - 1];
        }
      }
    }
  }

  /** Stripping the left end does not look past the first character that stays. */
  lemma {:induction false} StripLeftAppend(s: string, ws: string)
    requires StripLeft(s) != []
    ensures StripLeft(s + ws) == StripLeft(s) + ws
  {
    assert (s + ws)[0] == s[0];
    if Strippable(s[0]) {
      assert (s + ws)[1..] == s[1..] + ws;
      StripLeftAppend(s[1..], ws);
    }
  }

  /** Surrounding whitespace does not change the normal form. */
  lemma NormalizePadded(ws1: string, s: string, ws2: string)
    requires AllStrippable(ws1) && AllStrippable(ws2)
    ensures Normalize(ws1 + s + ws2) == Normalize(s)
  {
    StripPadded(ws1, s, ws2);
  }

  /** Surrounding whitespace does not change what `strip` keeps. */
  lemma StripPadded(ws1: string, s: string, ws2: string)
    requires AllStrippable(ws1) && AllStrippable(ws2)
    ensures Strip(ws1 + s + ws2) == Strip(s)
  {
    var right := s + ws2;
    assert ws1 + s + ws2 == ws1 + right;
    StripLeftPadded(ws1, right);
    PaddedRightStrip(s, ws2);
  }

  /** Whitespace after a string does not change what it strips to. */
  lemma PaddedRightStrip(s: string, ws: string)
    requires AllStrippable(ws)
    ensures StripRight(StripLeft(s + ws)) == StripRight(StripLeft(s))
  {
    if StripLeft(s) == [] {
      StripLeftEmpty(s);
      StripLeftPadded(s, ws);
      StripLeftPadded(ws, []);
      assert ws + [] == ws;
    } else {
      StripLeftAppend(s, ws);
      StripRightPadded(StripLeft(s), ws);
    }
  }

  /** A user answer that differs only by surrounding whitespace is judged the same. */
  lemma CheckAnswerIgnoresPadding(correct: string, ws1: string, user: string, ws2: string)
    requires AllStrippable(ws1) && AllStrippable(ws2)
    requires user != NotAvailable && ws1 + user + ws2 != NotAvailable
    ensures CheckAnswer(correct, Str(ws1 + user + ws2)) == CheckAnswer(correct, Str(user))
  {
    NormalizePadded(ws1, user, ws2);
  }

  /** The examples of the tests: the reference and a padded lower-case copy of it match. */
  lemma CheckAnswerMatchExamples(reference: string, padded: string)
    requires reference == "Answer One" && padded == "   answer one   "
    ensures CheckAnswer(reference, Str(reference))
    ensures CheckAnswer(reference, Str(padded))
  {
    var ws := padded[..3];
    var lower := padded[3..13];
    PaddedAnswerOne(padded, ws, lower);
    NormalizePadded(ws, lower, ws);
    LowerAnswerOne(lower, reference);
  }

  lemma PaddedAnswerOne(padded: string, ws: string, lower: string)
    requires padded == "   answer one   " && ws == padded[..3] && lower == padded[3..13]
    ensures padded == ws + lower + ws && AllStrippable(ws) && lower == "answer one"
  {
  }

  lemma LowerAnswerOne(lower: string, reference: string)
    requires lower == "answer one" && reference == "Answer One"
    ensures Normalize(lower) == Normalize(reference)
  {
    NormalizeSameUpToCase(lower, reference);
  }

  /** The example of the tests: a number does not match "Answer One"; as written it does. */
  lemma CheckAnswerNumberExample(reference: string, number: string)
    requires reference == "Answer One" && number == "12345678900"
    ensures !CheckAnswer(reference, Str(number))
    ensures CheckAnswerAsWritten(reference, Str(number))
  {
    NormalizeTrimmed(reference);
    NormalizeTrimmed(number);
    assert Normalize(reference)[0] != Normalize(number)[0];
  }

  // ---------------------------------------------------------------------
  // total_correct_answers
  // ---------------------------------------------------------------------

  /** The number of slots in `vals` (page position `p`) that `check` accepts. */
  function PageCorrect(check: Checker, bank: Bank, p: nat, vals: seq<Value>): (n: nat)
    ensures n <= |vals|
  {
    if vals == [] then 0
    else PageCorrect(check, bank, p, vals[..|vals| - 1])
         + (if check(bank(p, |vals| - 1), vals[|vals| - 1]) then 1 else 0)
  }

  /** The number of submitted slots, over all pages. */
  function SlotCount(pages: seq<PageEntry>): nat {
    if pages == [] then 0 else SlotCount(pages[..|pages| - 1]) + |pages[|pages| - 1].values|
  }

  /** The correct slots of every page, each page scored by its position. */
  function CorrectWith(check: Checker, bank: Bank, pages: seq<PageEntry>): (n: nat)
    ensures n <= SlotCount(pages)
  {
    if pages == [] then 0
    else CorrectWith(check, bank, pages[..|pages| - 1])
         + PageCorrect(check, bank, |pages| - 1, pages[|pages| - 1].values)
  }

  /**
    * `total_correct_answers` with the intended `check_answer`: at most one
    * per submitted slot, and never more than the version as written counts.
    */
  function TotalCorrect(bank: Bank, pages: seq<PageEntry>): (n: nat)
    ensures n <= SlotCount(pages)
    ensures n <= TotalCorrectAsWritten(bank, pages)
  {
    CheckAnswerWithinAsWritten();
    CorrectWithin(CheckAnswer, CheckAnswerAsWritten, bank, pages);
    CorrectWith(CheckAnswer, bank, pages)
  }

  /** `total_correct_answers` with `check_answer` as written: at most one per submitted slot. */
  function TotalCorrectAsWritten(bank: Bank, pages: seq<PageEntry>): (n: nat)
    ensures n <= SlotCount(pages)
  {
    CorrectWith(CheckAnswerAsWritten, bank, pages)
  }

  /** A checker that accepts no more than another counts no more on any page. */
  lemma {:induction false} PageCorrectWithin(strict: Checker, lax: Checker, bank: Bank, p: nat, vals: seq<Value>)
    requires forall c, u :: strict(c, u) ==> lax(c, u)
    ensures PageCorrect(strict, bank, p, vals) <= PageCorrect(lax, bank, p, vals)
  {
    if vals != [] {
      PageCorrectWithin(strict, lax, bank, p, vals[..|vals| - 1]);
    }
  }

  /** A checker that accepts no more than another counts no more over all pages. */
  lemma {:induction false} CorrectWithin(strict: Checker, lax: Checker, bank: Bank, pages: seq<PageEntry>)
    requires forall c, u :: strict(c, u) ==> lax(c, u)
    ensures CorrectWith(strict, bank, pages) <= CorrectWith(lax, bank, pages)
  {
    if pages != [] {
      CorrectWithin(strict, lax, bank, pages[..|pages| - 1]);
      PageCorrectWithin(strict, lax, bank, |pages| - 1, pages[|pages| - 1].values);
    }
  }

  /** The inner walk of `total_correct_answers`: the correct slots of page `pageIndex`. */
  method PageCorrectAnswers(bank: Bank, pageIndex: nat, answers: seq<Value>) returns (n: nat)
    ensures n == PageCorrect(CheckAnswer, bank, pageIndex, answers)
  {
    n := 0;
    var questionIndex := 0;
    while questionIndex < |answers|
      invariant 0 <= questionIndex <= |answers|
      invariant n == PageCorrect(CheckAnswer, bank, pageIndex, answers[..questionIndex])
    {
      assert answers[..questionIndex + 1][..questionIndex] == answers[..questionIndex];
      if CheckAnswer(bank(pageIndex, questionIndex), answers[questionIndex]) {
        n := n + 1;
      }
      questionIndex := questionIndex + 1;
    }
    assert answers[..questionIndex] == answers;
  }

  /** `total_correct_answers`: the walk over the pages, each page's slots counted as above. */
  method TotalCorrectAnswers(bank: Bank, pages: seq<PageEntry>) returns (total: nat)
    ensures total == TotalCorrect(bank, pages)
  {
    total := 0;
    var pageIndex := 0;
    while pageIndex < |pages|
      invariant 0 <= pageIndex <= |pages|
      invariant total == TotalCorrect(bank, pages[..pageIndex])
    {
      var correct := PageCorrectAnswers(bank, pageIndex, pages[pageIndex].values);
      total := total + correct;
      assert pages[..pageIndex + 1][..pageIndex] == pages[..pageIndex];
      pageIndex := pageIndex + 1;
    }
    assert pages[..pageIndex] == pages;
  }

  lemma {:induction false} CorrectIgnoresKeys(check: Checker, bank: Bank, pages: seq<PageEntry>, renamed: seq<PageEntry>)
    requires |renamed| == |pages|
    requires forall i :: 0 <= i < |pages| ==> renamed[i].values == pages[i].values
    ensures CorrectWith(check, bank, renamed) == CorrectWith(check, bank, pages)
  {
    if pages != [] {
      CorrectIgnoresKeys(check, bank, pages[..|pages| - 1], renamed[..|renamed| - 1]);
    }
  }

  lemma {:induction false} PageCorrectNone(check: Checker, bank: Bank, p: nat, vals: seq<Value>)
    requires forall q :: 0 <= q < |vals| ==> !check(bank(p, q), vals[q])
    ensures PageCorrect(check, bank, p, vals) == 0
  {
    if vals != [] {
      PageCorrectNone(check, bank, p, vals[..|vals| - 1]);
    }
  }

  lemma {:induction false} PageCorrectAll(check: Checker, bank: Bank, p: nat, vals: seq<Value>)
    requires forall q :: 0 <= q < |vals| ==> check(bank(p, q), vals[q])
    ensures PageCorrect(check, bank, p, vals) == |vals|
  {
    if vals != [] {
      PageCorrectAll(check, bank, p, vals[..|vals| - 1]);
    }
  }

  /** With no slot accepted the count is 0. */
  lemma {:induction false} CorrectNone(check: Checker, bank: Bank, pages: seq<PageEntry>)
    requires forall p, q :: 0 <= p < |pages| && 0 <= q < |pages[p].values| ==> !check(bank(p, q), pages[p].values[q])
    ensures CorrectWith(check, bank, pages) == 0
  {
    if pages != [] {
      CorrectNone(check, bank, pages[..|pages| - 1]);
      PageCorrectNone(check, bank, |pages| - 1, pages[|pages| - 1].values);
    }
  }

  /** With every slot accepted the count is the number of slots. */
  lemma {:induction false} CorrectAll(check: Checker, bank: Bank, pages: seq<PageEntry>)
    requires forall p, q :: 0 <= p < |pages| && 0 <= q < |pages[p].values| ==> check(bank(p, q), pages[p].values[q])
    ensures CorrectWith(check, bank, pages) == SlotCount(pages)
  {
    if pages != [] {
      CorrectAll(check, bank, pages[..|pages| - 1]);
      PageCorrectAll(check, bank, |pages| - 1, pages[|pages| - 1].values);
    }
  }

  /** As written, every slot of a bank without "N/A" entries counts unless the user answered "N/A". */
  lemma AsWrittenCountsEverySlot(bank: Bank, pages: seq<PageEntry>)
    requires forall p, q :: bank(p, q) != NotAvailable
    requires forall p, q :: 0 <= p < |pages| && 0 <= q < |pages[p].values| ==> pages[p].values[q] != Str(NotAvailable)
    ensures TotalCorrectAsWritten(bank, pages) == SlotCount(pages)
  {
    CorrectAll(CheckAnswerAsWritten, bank, pages);
  }

  /** The three-page attempt of the tests, over its four distinct answers. */
  function Fixture(one: string, two: string, three: string, four: string): seq<PageEntry> {
    [PageEntry("question_1", [Str(one), Str(one), Str(four), Str(one), Str(one)]),
     PageEntry("question_2", [Str(three), Str(one), Str(four), Str(two), Str(four)]),
     PageEntry("question_3", [Str(one), Str(four), Str(three), Str(two), Str(three)])]
  }

  /** A question bank that gives the same reference answer everywhere (the tests stub I18n so). */
  function ConstantBank(answer: string): Bank {
    (p: nat, q: nat) => answer
  }

  predicate FixtureAnswers(one: string, two: string, three: string, four: string) {
    one == "Answer One" && two == "Answer Two" && three == "Answer Three" && four == "Answer Four"
  }

  /** The fixture's other answers differ from "Answer One" after normalising, and all differ from "Incorrect Answer". */
  lemma FixtureNormalForms(one: string, two: string, three: string, four: string, wrong: string)
    requires FixtureAnswers(one, two, three, four) && wrong == "Incorrect Answer"
    ensures Normalize(one) != Normalize(two) && Normalize(one) != Normalize(three)
    ensures Normalize(one) != Normalize(four)
    ensures Normalize(wrong) != Normalize(one) && Normalize(wrong) != Normalize(two)
    ensures Normalize(wrong) != Normalize(three) && Normalize(wrong) != Normalize(four)
  {
    NormalFormAt(one, 7);
    NormalFormAt(two, 7);
    NormalFormAt(three, 0);
    NormalFormAt(four, 0);
    NormalFormAt(wrong, 0);
  }

  /** The normal form of a trimmed string keeps its length and lowers its `i`th character. */
  lemma NormalFormAt(s: string, i: nat)
    requires Trimmed(s) && i < |s|
    ensures |Normalize(s)| == |s| && Normalize(s)[i] == LowerChar(s[i])
  {
    NormalizeTrimmed(s);
  }

  lemma PageCorrectStep(check: Checker, bank: Bank, p: nat, vals: seq<Value>, k: nat)
    requires 0 < k <= |vals|
    ensures PageCorrect(check, bank, p, vals[..k])
         == PageCorrect(check, bank, p, vals[..k - 1]) + (if check(bank(p, k - 1), vals[k - 1]) then 1 else 0)
  {
    assert vals[..k][..k - 1] == vals[..k - 1];
  }

  lemma FiveSlots(check: Checker, bank: Bank, p: nat, vals: seq<Value>)
    requires |vals| == 5
    ensures PageCorrect(check, bank, p, vals)
         == (if check(bank(p, 0), vals[0]) then 1 else 0) + (if check(bank(p, 1), vals[1]) then 1 else 0)
          + (if check(bank(p, 2), vals[2]) then 1 else 0) + (if check(bank(p, 3), vals[3]) then 1 else 0)
          + (if check(bank(p, 4), vals[4]) then 1 else 0)
  {
    PageCorrectStep(check, bank, p, vals, 1);
    PageCorrectStep(check, bank, p, vals, 2);
    PageCorrectStep(check, bank, p, vals, 3);
    PageCorrectStep(check, bank, p, vals, 4);
    PageCorrectStep(check, bank, p, vals, 5);
    assert vals[..5] == vals;
  }

  lemma ThreePages(check: Checker, bank: Bank, pages: seq<PageEntry>)
    requires |pages| == 3
    ensures CorrectWith(check, bank, pages)
         == PageCorrect(check, bank, 0, pages[0].values) + PageCorrect(check, bank, 1, pages[1].values)
          + PageCorrect(check, bank, 2, pages[2].values)
  {
    var p2 := pages[..2];
    var p1 := p2[..1];
    assert p1[..0] == [];
    assert p2[1] == pages[1] && p1[0] == pages[0];
    assert CorrectWith(check, bank, p1) == PageCorrect(check, bank, 0, pages[0].values);
    assert CorrectWith(check, bank, p2) == CorrectWith(check, bank, p1) + PageCorrect(check, bank, 1, pages[1].values);
  }

  /**
    * With every reference answer "Answer One" the fixture scores 6, the
    * tested value; as written it scores all 15 slots.
    */
  lemma FixtureCount(one: string, two: string, three: string, four: string)
    requires FixtureAnswers(one, two, three, four)
    ensures TotalCorrect(ConstantBank(one), Fixture(one, two, three, four)) == 6
    ensures TotalCorrectAsWritten(ConstantBank(one), Fixture(one, two, three, four)) == 15
  {
    FixtureCountIntended(one, two, three, four);
    FixtureCountAsWritten(one, two, three, four);
  }

  lemma FixtureCountIntended(one: string, two: string, three: string, four: string)
    requires FixtureAnswers(one, two, three, four)
    ensures TotalCorrect(ConstantBank(one), Fixture(one, two, three, four)) == 6
  {
    FixtureChecks(one, two, three, four);
    var bank := ConstantBank(one);
    var f := Fixture(one, two, three, four);
    ThreePages(CheckAnswer, bank, f);
    FiveSlots(CheckAnswer, bank, 0, f[0].values);
    FiveSlots(CheckAnswer, bank, 1, f[1].values);
    FiveSlots(CheckAnswer, bank, 2, f[2].values);
  }

  /** Against "Answer One", only "Answer One" itself checks. */
  lemma FixtureChecks(one: string, two: string, three: string, four: string)
    requires FixtureAnswers(one, two, three, four)
    ensures CheckAnswer(one, Str(one))
    ensures !CheckAnswer(one, Str(two)) && !CheckAnswer(one, Str(three)) && !CheckAnswer(one, Str(four))
  {
    FixtureNormalForms(one, two, three, four, "Incorrect Answer");
  }

  lemma FixtureCountAsWritten(one: string, two: string, three: string, four: string)
    requires FixtureAnswers(one, two, three, four)
    ensures TotalCorrectAsWritten(ConstantBank(one), Fixture(one, two, three, four)) == 15
  {
    var bank := ConstantBank(one);
    var f := Fixture(one, two, three, four);
    ThreePages(CheckAnswerAsWritten, bank, f);
    FiveSlots(CheckAnswerAsWritten, bank, 0, f[0].values);
    FiveSlots(CheckAnswerAsWritten, bank, 1, f[1].values);
    FiveSlots(CheckAnswerAsWritten, bank, 2, f[2].values);
  }

  /** With every reference answer "Incorrect Answer" nothing in the fixture matches. */
  lemma FixtureNoMatch(one: string, two: string, three: string, four: string, wrong: string)
    requires FixtureAnswers(one, two, three, four) && wrong == "Incorrect Answer"
    ensures TotalCorrect(ConstantBank(wrong), Fixture(one, two, three, four)) == 0
  {
    FixtureNormalForms(one, two, three, four, wrong);
    var bank := ConstantBank(wrong);
    var f := Fixture(one, two, three, four);
    ThreePages(CheckAnswer, bank, f);
    FiveSlots(CheckAnswer, bank, 0, f[0].values);
    FiveSlots(CheckAnswer, bank, 1, f[1].values);
    FiveSlots(CheckAnswer, bank, 2, f[2].values);
  }

  // ---------------------------------------------------------------------
  // score_percentage / scoring_metrics
  // ---------------------------------------------------------------------

  /** `score_percentage` as written: 0 when there are no questions, else correct / total * 100. */
  function ScorePercentageAsWritten(correct: nat, total: nat): (pct: real)
    ensures total == 0 ==> pct == 0.0
    ensures total > 0 ==> pct * total as real == correct as real * 100.0
    ensures correct <= total ==> 0.0 <= pct <= 100.0
  {
    if total == 0 then 0.0 else correct as real / total as real * 100.0
  }

  /** `Float#round(2)` on a non-negative value: half-way cases round up. */
  function Round2(x: real): (r: real)
    requires x >= 0.0
    ensures r * 100.0 == ((x * 100.0 + 0.5).Floor) as real
    ensures x - 0.005 <= r && r - 0.005 <= x
  {
    ((x * 100.0 + 0.5).Floor) as real / 100.0
  }

  /** `score_percentage` as documented: the percentage rounded to two decimals. */
  function ScorePercentage(correct: nat, total: nat): (pct: real)
    ensures total == 0 ==> pct == 0.0
    ensures total > 0 ==> pct * 100.0 == ((ScorePercentageAsWritten(correct, total) * 100.0 + 0.5).Floor) as real
    ensures total > 0 ==>
      pct - 0.005 <= correct as real * 100.0 / total as real <= pct + 0.005
    ensures correct <= total ==> 0.0 <= pct <= 100.0
  {
    if total == 0 then 0.0
    else
      var exact := ScorePercentageAsWritten(correct, total);
      assert exact == correct as real * 100.0 / total as real;
      Round2(exact)
  }

  /** A third of the questions right: 33.33 rounded, 100/3 as written. */
  lemma ThirdCorrect()
    ensures ScorePercentage(5, TotalQuestions) == 33.33
    ensures ScorePercentageAsWritten(5, TotalQuestions) == 100.0 / 3.0
    ensures ScorePercentageAsWritten(5, TotalQuestions) != 33.33
  {
    var x := ScorePercentageAsWritten(5, TotalQuestions);
    assert x == 100.0 / 3.0;
    assert 3333.0 <= x * 100.0 + 0.5 < 3334.0;
  }

  /** An empty attempt scores 0. */
  lemma EmptyAttemptScoresZero(bank: Bank)
    ensures ScorePercentage(TotalCorrect(bank, []), TotalQuestions) == 0.0
  {
    assert 0.0 * 100.0 + 0.5 < 1.0;
  }

  /** `scoring_metrics`: the percentage, the number correct and the number of questions. */
  function ScoringMetrics(bank: Bank, pages: seq<PageEntry>): (m: (real, nat, nat))
    ensures m.2 == TotalQuestions
    ensures m.1 == TotalCorrect(bank, pages) && m.1 <= SlotCount(pages)
    ensures m.0 == ScorePercentage(m.1, TotalQuestions)
    ensures m.1 <= TotalQuestions ==> 0.0 <= m.0 <= 100.0
  {
    var correct := TotalCorrect(bank, pages);
    (ScorePercentage(correct, TotalQuestions), correct, TotalQuestions)
  }

  /**
    * `scoring_metrics` as written: every answer `check_answer` lets through
    * counts, and the percentage is not rounded.
    */
  function ScoringMetricsAsWritten(bank: Bank, pages: seq<PageEntry>): (m: (real, nat, nat))
    ensures m.2 == TotalQuestions
    ensures m.1 == TotalCorrectAsWritten(bank, pages) && m.1 <= SlotCount(pages)
    ensures m.0 * TotalQuestions as real == m.1 as real * 100.0
  {
    var correct := TotalCorrectAsWritten(bank, pages);
    (ScorePercentageAsWritten(correct, TotalQuestions), correct, TotalQuestions)
  }

  /**
    * As written, any full attempt without an "N/A" answer, checked against a
    * bank without "N/A" entries, scores 100 whatever was answered: the
    * metrics are (100.0, 15, 15) and the integer score column stores 100.
    */
  lemma AsWrittenFullAttemptScoresHundred(bank: Bank, pages: seq<PageEntry>)
    requires forall p, q :: bank(p, q) != NotAvailable
    requires forall p, q :: 0 <= p < |pages| && 0 <= q < |pages[p].values| ==> pages[p].values[q] != Str(NotAvailable)
    requires SlotCount(pages) == TotalQuestions
    ensures ScoringMetricsAsWritten(bank, pages) == (100.0, TotalQuestions, TotalQuestions)
    ensures ScoringMetricsAsWritten(bank, pages).0.Floor == 100
  {
    AsWrittenCountsEverySlot(bank, pages);
  }

  // ---------------------------------------------------------------------
  // fetch_user_answer / evaluate_result
  // ---------------------------------------------------------------------

  /**
    * `fetch_user_answer(answers, question_index)`: `answers[1][question_index]`
    * on a page entry `[key, values]`; a missing entry makes the access raise,
    * which is rescued as "N/A"; an index outside the list reads nil.
    */
  function FetchUserAnswer(entry: Option<PageEntry>, questionIndex: int): (v: Value)
    ensures entry.None? ==> v == Str(NotAvailable)
    ensures entry.Some? && 0 <= questionIndex < |entry.value.values| ==> v == entry.value.values[questionIndex]
    ensures entry.Some? && (questionIndex >= |entry.value.values| || questionIndex < -|entry.value.values|) ==> v == Nil
  {
    match entry
    case None => Str(NotAvailable)
    case Some(e) =>
      match RubyAt(e.values, questionIndex)
      case None => Nil
      case Some(v) => v
  }

  /** `evaluate_result` as written: always "Incorrect", even for an answer that checks. */
  function EvaluateResultAsWritten(correct: string, user: Value): (r: string)
    ensures r != "Correct"
    ensures CheckAnswer(correct, user) ==> r != EvaluateResult(correct, user)
  {
    "Incorrect"
  }

  /** `evaluate_result` as documented: "Correct" exactly when the answer checks. */
  function EvaluateResult(correct: string, user: Value): (r: string)
    ensures r == "Correct" || r == "Incorrect"
    ensures r == "Correct" <==> CheckAnswer(correct, user)
  {
    if CheckAnswer(correct, user) then "Correct" else "Incorrect"
  }

  /**
    * The table row of the tests: the user answered the reference answer.
    * It is "Correct" as documented and "Incorrect" as written; a missing
    * entry is "Incorrect" either way.
    */
  lemma EvaluateResultExamples(reference: string)
    requires reference != NotAvailable
    ensures EvaluateResult(reference, FetchUserAnswer(Some(PageEntry("question_1", [Str(reference)])), 0)) == "Correct"
    ensures EvaluateResultAsWritten(reference, FetchUserAnswer(Some(PageEntry("question_1", [Str(reference)])), 0)) == "Incorrect"
    ensures EvaluateResult(reference, FetchUserAnswer(None, 0)) == "Incorrect"
  {
  }
}
