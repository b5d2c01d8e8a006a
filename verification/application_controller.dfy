/**
  * ApplicationController: the two before-actions every controller runs.
  * Leaving the quiz pages forgets the per-page snapshots kept in the
  * session, and every request sets `I18n.locale`, from the signed-in
  * user's language or else from the browser's Accept-Language header.
  */
module ApplicationController {
  import opened Runtime
  import opened QuizSession

  /**
    * The public methods StepsController defines itself. Its
    * `action_methods` also holds the public methods of the modules it
    * includes, so `OnQuizPage` takes the whole set as a parameter.
    */
  const StepsControllerActions: set<string> :=
    {"start_timer", "show", "edit", "update", "check_your_answers", "results", "scoreboard", "download"}

  /** `on_quiz_page?`: the steps controller, running one of its actions. */
  predicate OnQuizPage(controllerName: string, actionName: string, actionMethods: set<string>)
    ensures controllerName != "steps" ==> !OnQuizPage(controllerName, actionName, actionMethods)
    ensures actionName !in actionMethods ==> !OnQuizPage(controllerName, actionName, actionMethods)
  {
    controllerName == "steps" && actionName in actionMethods
  }

  /** Every action StepsController declares is a quiz page; no other controller's action is. */
  lemma QuizPages(controllerName: string, actionName: string, actionMethods: set<string>)
    requires StepsControllerActions <= actionMethods
    ensures controllerName == "steps" && actionName in StepsControllerActions ==>
      OnQuizPage(controllerName, actionName, actionMethods)
    ensures controllerName != "steps" ==> !OnQuizPage(controllerName, actionName, actionMethods)
  {
  }

  /** `clear_quiz_session_data` */
  method ClearQuizSessionData(session: Session)
    modifies session`quizForms
    ensures session.quizForms.None? && session.Valid()
  {
    session.ClearQuizForms();
  }

  /**
    * `before_action :clear_quiz_session_data, unless: :on_quiz_page?`: the
    * snapshots survive exactly while the request stays on a quiz page.
    */
  method ClearUnlessOnQuizPage(session: Session, controllerName: string, actionName: string,
                               actionMethods: set<string>)
    requires session.Valid()
    modifies session`quizForms
    ensures session.Valid()
    ensures OnQuizPage(controllerName, actionName, actionMethods) ==> session.quizForms == old(session.quizForms)
    ensures !OnQuizPage(controllerName, actionName, actionMethods) ==> session.quizForms.None?
  {
    if !OnQuizPage(controllerName, actionName, actionMethods) {
      ClearQuizSessionData(session);
    }
  }

  /** A character of the regular-expression class `[a-z]`. */
  predicate IsLowerAscii(c: char) {
    'a' <= c <= 'z'
  }

  /** Where Ruby's `^` matches: the start of the string or just after a newline. */
  predicate LineStart(h: string, p: nat)
    requires p <= |h|
  {
    p == 0 || h[p - 1] == '\n'
  }

  /** `/^[a-z]{2}/` matches at `p`. */
  predicate MatchAt(h: string, p: nat)
    requires p <= |h|
  {
    LineStart(h, p) && p + 2 <= |h| && IsLowerAscii(h[p]) && IsLowerAscii(h[p + 1])
  }

  /** The first position from `q` on where `/^[a-z]{2}/` matches, if any. */
  function FirstMatchFrom(h: string, q: nat): (r: Option<nat>)
    requires q <= |h|
    ensures r.Some? ==> q <= r.value <= |h| && MatchAt(h, r.value)
    ensures r.Some? ==> forall k :: q <= k < r.value ==> !MatchAt(h, k)
    ensures r.None? ==> forall k :: q <= k <= |h| ==> !MatchAt(h, k)
    decreases |h| - q
  {
    if q == |h| then None
    else if MatchAt(h, q) then Some(q)
    else FirstMatchFrom(h, q + 1)
  }

  /**
    * `extract_locale_from_accept_language_header`: `scan(/^[a-z]{2}/).first`
    * on the header, nil when the header is absent or nothing matches.
    */
  function ExtractLocale(header: Option<string>): (r: Option<string>)
    ensures header.None? ==> r.None?
    ensures r.Some? ==> |r.value| == 2 && IsLowerAscii(r.value[0]) && IsLowerAscii(r.value[1])
    ensures header.Some? ==>
      (r.Some? <==> exists p :: 0 <= p <= |header.value| && MatchAt(header.value, p))
    ensures header.Some? && r.Some? ==>
      exists p :: 0 <= p <= |header.value| && MatchAt(header.value, p) && r.value == header.value[p..p + 2]
        && forall k :: 0 <= k < p ==> !MatchAt(header.value, k)
  {
    match header
    case None => None
    case Some(h) =>
      match FirstMatchFrom(h, 0)
      case None => None
      case Some(p) => Some(h[p..p + 2])
  }

  /** A header that starts with two lowercase letters yields those two letters. */
  lemma LeadingLanguageExtracted(h: string)
    requires |h| >= 2 && IsLowerAscii(h[0]) && IsLowerAscii(h[1])
    ensures ExtractLocale(Some(h)) == Some(h[..2])
  {
  }

  /** A header with no newline yields a locale only when it starts with one. */
  lemma SingleLineHeader(h: string)
    requires forall i :: 0 <= i < |h| ==> h[i] != '\n'
    requires !(|h| >= 2 && IsLowerAscii(h[0]) && IsLowerAscii(h[1]))
    ensures ExtractLocale(Some(h)).None?
  {
    forall p | 0 <= p <= |h|
      ensures !MatchAt(h, p)
    {
      if 0 < p {
        assert h[p - 1] != '\n';
      }
    }
  }

  /** The header of a French browser gives "fr". */
  lemma FrenchHeaderExample(header: string)
    requires header == "fr-FR,fr;q=0.9,en-US;q=0.8,en;q=0.7"
    ensures ExtractLocale(Some(header)) == Some("fr")
  {
    assert header[..2] == "fr";
    LeadingLanguageExtracted(header);
  }

  /**
    * `^` also matches after a newline: a header whose first line starts in
    * upper case yields the language that starts its second line.
    */
  lemma SecondLineHeaderExample(header: string)
    requires header == "EN\nen-US"
    ensures ExtractLocale(Some(header)) == Some("en")
  {
    assert !MatchAt(header, 0) && !MatchAt(header, 1) && !MatchAt(header, 2);
    assert MatchAt(header, 3);
    assert header[3..5] == "en";
  }

  /** Upper-case language tags and a missing header give nothing. */
  lemma NoLocaleExamples(header: string)
    requires header == "EN-US"
    ensures ExtractLocale(Some(header)).None?
    ensures ExtractLocale(None).None?
  {
    SingleLineHeader(header);
  }

  /** `current_user&.language.present?` */
  predicate LanguagePresent(userLanguage: Option<string>) {
    userLanguage.Some? && !Blank(Str(userLanguage.value))
  }

  /**
    * The locale `set_locale` assigns: the user's language when present,
    * otherwise the browser's locale when it is available, otherwise the
    * default locale.
    */
  function LocaleCandidate(userLanguage: Option<string>, header: Option<string>,
                           available: set<string>, defaultLocale: string): (l: string)
    ensures LanguagePresent(userLanguage) ==> l == userLanguage.value
    ensures !LanguagePresent(userLanguage) ==> l in available || l == defaultLocale
  {
    if LanguagePresent(userLanguage) then userLanguage.value
    else
      var browser := ExtractLocale(header);
      if browser.Some? && browser.value in available then browser.value else defaultLocale
  }

  /** `I18n.locale = l`, which raises `I18n::InvalidLocale` when `l` is not available. */
  function ChooseLocale(userLanguage: Option<string>, header: Option<string>,
                        available: set<string>, defaultLocale: string): (r: Result<string>)
    ensures r.Ok? ==> r.value in available
    ensures r.Raised? ==> r.failure == InvalidLocale
    ensures LanguagePresent(userLanguage) ==>
      (r.Ok? <==> userLanguage.value in available) && (r.Ok? ==> r.value == userLanguage.value)
    ensures !LanguagePresent(userLanguage) && defaultLocale in available ==> r.Ok?
  {
    var l := LocaleCandidate(userLanguage, header, available, defaultLocale);
    if l in available then Ok(l) else Raised(InvalidLocale)
  }

  /**
    * Without a language of the user's, the browser's locale is taken exactly
    * when it is available; otherwise the default one is.
    */
  lemma BrowserLocaleChosen(userLanguage: Option<string>, header: Option<string>,
                            available: set<string>, defaultLocale: string)
    requires !LanguagePresent(userLanguage) && defaultLocale in available
    ensures var browser := ExtractLocale(header);
      && (browser.Some? && browser.value in available ==>
            ChooseLocale(userLanguage, header, available, defaultLocale) == Ok(browser.value))
      && (!(browser.Some? && browser.value in available) ==>
            ChooseLocale(userLanguage, header, available, defaultLocale) == Ok(defaultLocale))
  {
  }

  /** The user's language wins over the browser's, whatever the header says. */
  lemma UserLanguageWins(language: string, header: Option<string>, available: set<string>, defaultLocale: string)
    requires !Blank(Str(language)) && language in available
    ensures ChooseLocale(Some(language), header, available, defaultLocale) == Ok(language)
  {
  }

  /**
    * The I18n configuration a request sees: the locale files found at boot
    * and the default locale are fixed, `locale` is set per request.
    */
  class I18n {
    var locale: string
    const available: set<string>
    const defaultLocale: string

    /** The current locale is one of the available ones. */
    ghost predicate Valid()
      reads this
    {
      locale in available
    }

    /** At boot the locale is the default one. */
    constructor (available: set<string>, defaultLocale: string)
      requires defaultLocale in available
      ensures this.available == available && this.defaultLocale == defaultLocale
      ensures locale == defaultLocale && Valid()
    {
      this.available := available;
      this.defaultLocale := defaultLocale;
      locale := defaultLocale;
    }

    /** `set_locale`: assigns the chosen locale, or raises and leaves the locale as it was. */
    method SetLocale(userLanguage: Option<string>, header: Option<string>) returns (failure: Option<Failure>)
      requires Valid()
      modifies this`locale
      ensures Valid()
      ensures var r := ChooseLocale(userLanguage, header, available, defaultLocale);
        && (r.Ok? ==> failure.None? && locale == r.value)
        && (r.Raised? ==> failure == Some(r.failure) && locale == old(locale))
    {
      var r := ChooseLocale(userLanguage, header, available, defaultLocale);
      if r.Ok? {
        locale := r.value;
        failure := None;
      } else {
        failure := Some(r.failure);
      }
    }
  }

  /**
    * The before-actions in their declared order: first the session clean-up
    * off the quiz pages, then `set_locale`.
    */
  method BeforeActions(session: Session, i18n: I18n, controllerName: string, actionName: string,
                       actionMethods: set<string>, userLanguage: Option<string>, header: Option<string>)
    returns (failure: Option<Failure>)
    requires session.Valid() && i18n.Valid()
    modifies session`quizForms, i18n`locale
    ensures session.Valid() && i18n.Valid()
    ensures OnQuizPage(controllerName, actionName, actionMethods) ==> session.quizForms == old(session.quizForms)
    ensures !OnQuizPage(controllerName, actionName, actionMethods) ==> session.quizForms.None?
    ensures var r := ChooseLocale(userLanguage, header, i18n.available, i18n.defaultLocale);
      && (r.Ok? ==> failure.None? && i18n.locale == r.value)
      && (r.Raised? ==> failure == Some(InvalidLocale) && i18n.locale == old(i18n.locale))
  {
    ClearUnlessOnQuizPage(session, controllerName, actionName, actionMethods);
    failure := i18n.SetLocale(userLanguage, header);
  }
}
