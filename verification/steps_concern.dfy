/**
  * StepsConcern: where a step's form comes from. A request may carry the
  * submitted `quiz_form` hash, an `encoded_params` token produced by the
  * previous step, both, or neither.
  *
  * The token codec (deflate, Base64 and a query string) is abstracted: a
  * token is either the parameter hash it carries, after the query-string
  * round trip has turned integers and nil into strings, or malformed.
  */
module StepsConcern {
  import opened Runtime
  import opened QuizFormModel

  datatype Token = Token(payload: Attrs) | Malformed

  /** A value after `to_query` and `parse_nested_query`: integers print, nil becomes "". */
  function QueryValue(v: Value): (r: Value)
    ensures r.List? <==> v.List?
    ensures v.List? ==> |r.items| == |v.items|
    ensures !r.Num?
  {
    match v
    case Nil => Str("")
    case Str(s) => Str(s)
    case Num(n) => Str(IntToString(n))
    case List(xs) => List(seq(|xs|, i requires 0 <= i < |xs| => QueryValue(xs[i])))
  }

  /** `UrlParamsEncoder.encode` */
  function Encode(m: Attrs): (t: Token)
    ensures t.Token? && t.payload.Keys == m.Keys
  {
    Token(map k | k in m :: QueryValue(m[k]))
  }

  /** `UrlParamsEncoder.decode`: a malformed token raises. */
  function Decode(t: Token): (r: Result<Attrs>)
    ensures t.Malformed? <==> r == Raised(DecodeFailed)
  {
    match t
    case Token(p) => Ok(p)
    case Malformed => Raised(DecodeFailed)
  }

  /** An integer survives the codec as a string `to_i` reads back. */
  lemma EncodedIntegerReadsBack(m: Attrs, key: string, n: int)
    requires key in m && m[key] == Num(n)
    ensures var d := Decode(Encode(m)).value; key in d && IsScalar(d[key]) && ToI(d[key]) == n
  {
    StrToIOfIntToString(n);
  }

  /** The request parameters the concern reads. */
  datatype Request = Request(
    id: string,                  // params[:id]
    quizForm: Option<Attrs>,     // params[:quiz_form]
    encodedParams: Option<Token>,  // params[:encoded_params]; None when absent or blank
    answer: Option<Attrs>)       // params[:answer]

  /** `params[:quiz_form].present?`: a non-empty hash; an empty one counts as absent. */
  predicate QuizFormPresent(req: Request)
    ensures req.quizForm == Some(map[]) ==> !QuizFormPresent(req)
    ensures QuizFormPresent(req) ==> req.quizForm.Some? && |req.quizForm.value| > 0
  {
    req.quizForm.Some? && req.quizForm.value != map[]
  }

  /**
    * `check_for_encoded_params_and_quiz_form`: a token alone, or a submitted
    * form alone, never triggers the merge.
    */
  predicate EncodedParamsAndQuizForm(req: Request)
    ensures req.encodedParams.None? ==> !EncodedParamsAndQuizForm(req)
    ensures !QuizFormPresent(req) ==> !EncodedParamsAndQuizForm(req)
  {
    QuizFormPresent(req) && req.encodedParams.Some?
  }

  /** The keys `permit` lets through. */
  const PermittedKeys: set<string> :=
    {"answer", "answer_1", "answer_2", "answer_3", "answer_4", "answer_5", "current_step"}

  /** `permit(...)`: the listed keys whose values are scalars. */
  function Permit(m: Attrs): (r: Attrs)
    ensures r.Keys <= PermittedKeys && r.Keys <= m.Keys
    ensures forall k :: k in PermittedKeys && k in m && IsScalar(m[k]) <==> k in r
    ensures forall k <- r :: r[k] == m[k] && IsScalar(r[k])
  {
    map k | k in m && k in PermittedKeys && IsScalar(m[k]) :: m[k]
  }

  /**
    * `quiz_form_params`: with both a token and a submitted form, the decoded
    * token overlaid by the submitted form (submitted values win); then
    * `require(:quiz_form)`, which raises on an absent or empty hash, and
    * `permit`.
    */
  function QuizFormParams(req: Request): (r: Result<Attrs>)
    ensures !QuizFormPresent(req) ==> r.Raised?
    ensures QuizFormPresent(req) && !EncodedParamsAndQuizForm(req) ==> r == Ok(Permit(req.quizForm.value))
    ensures EncodedParamsAndQuizForm(req) && req.encodedParams.value.Malformed? ==> r == Raised(DecodeFailed)
    ensures EncodedParamsAndQuizForm(req) && req.encodedParams.value.Token? ==>
      r == Ok(Permit(req.encodedParams.value.payload + req.quizForm.value))
    ensures r.Ok? ==> r.value.Keys <= PermittedKeys && StepReadable(r.value)
  {
    if EncodedParamsAndQuizForm(req) then
      match Decode(req.encodedParams.value)
      case Raised(f) => Raised(f)
      case Ok(decoded) => Ok(Permit(decoded + req.quizForm.value))
    else if !QuizFormPresent(req) then Raised(ParameterMissing)
    else Ok(Permit(req.quizForm.value))
  }

  /** On a conflict the submitted form wins; a key only the token has is kept. */
  lemma SubmittedValuesWin(req: Request, k: string)
    requires EncodedParamsAndQuizForm(req) && req.encodedParams.value.Token?
    requires k in PermittedKeys
    ensures var r := QuizFormParams(req).value;
      && (k in req.quizForm.value && IsScalar(req.quizForm.value[k]) ==> k in r && r[k] == req.quizForm.value[k])
      && ((k !in req.quizForm.value && k in req.encodedParams.value.payload
           && IsScalar(req.encodedParams.value.payload[k]))
          ==> k in r && r[k] == req.encodedParams.value.payload[k])
  {
  }

  /** The parameters `build_quiz_form_from_params` passes to `QuizForm.new`. */
  function FromParams(formParams: Attrs, uid: nat): (m: Attrs)
    ensures Lookup(m, "current_user_id") == Num(uid)
    ensures forall k <- formParams :: k != "current_user_id" ==> k in m && m[k] == formParams[k]
  {
    formParams["current_user_id" := Num(uid)]
  }

  /** The parameters `build_quiz_form_from_encoded_params` passes, or the decode failure. */
  function FromEncodedParams(t: Token, uid: nat): (r: Result<Attrs>)
    ensures t.Malformed? ==> r == Raised(DecodeFailed)
    ensures r.Ok? ==> Lookup(r.value, "current_user_id") == Num(uid)
  {
    match Decode(t)
    case Raised(f) => Raised(f)
    case Ok(decoded) => Ok(decoded["current_user_id" := Num(uid)])
  }

  /** The parameters `build_default_quiz_form` passes: the step from the route id. */
  function DefaultParams(id: string, uid: nat): (m: Attrs)
    ensures m.Keys == {"current_step", "current_user_id"}
    ensures m["current_step"] == Num(StrToI(id)) && m["current_user_id"] == Num(uid)
  {
    map["current_step" := Num(StrToI(id)), "current_user_id" := Num(uid)]
  }

  /**
    * The parameters `set_quiz_form` builds its form from: the submitted form
    * first, then the token, then the default. A token whose step is an
    * array makes `to_i` raise.
    */
  function FormSource(req: Request, uid: nat): (r: Result<Attrs>)
    ensures r.Ok? ==> StepReadable(r.value) && Lookup(r.value, "current_user_id") == Num(uid)
    ensures QuizFormPresent(req) ==>
      r == match QuizFormParams(req) case Raised(f) => Raised(f) case Ok(p) => Ok(FromParams(p, uid))
    ensures !QuizFormPresent(req) && req.encodedParams.Some? && r.Ok? ==>
      r == FromEncodedParams(req.encodedParams.value, uid)
    ensures !QuizFormPresent(req) && req.encodedParams.None? ==> r == Ok(DefaultParams(req.id, uid))
  {
    if QuizFormPresent(req) then
      match QuizFormParams(req)
      case Raised(f) => Raised(f)
      case Ok(p) => Ok(FromParams(p, uid))
    else if req.encodedParams.Some? then
      match FromEncodedParams(req.encodedParams.value, uid)
      case Raised(f) => Raised(f)
      case Ok(m) => if StepReadable(m) then Ok(m) else Raised(NoMethod)
    else Ok(DefaultParams(req.id, uid))
  }

  /** Whatever the source, the form belongs to the signed-in user. */
  lemma FormSourceUser(req: Request, uid: nat)
    requires FormSource(req, uid).Ok?
    ensures InitialState(FormSource(req, uid).value).currentUserId == Num(uid)
  {
  }

  /** Without a form or a token the form starts at the route's step. */
  lemma DefaultFormStep(req: Request, uid: nat)
    requires !QuizFormPresent(req) && req.encodedParams.None?
    ensures InitialState(FormSource(req, uid).value).currentStep == StrToI(req.id)
    ensures SlotsOf(InitialState(FormSource(req, uid).value)) == [Nil, Nil, Nil, Nil, Nil]
  {
  }

  /** `build_quiz_form_from_params` */
  method BuildQuizFormFromParams(formParams: Attrs, uid: nat) returns (form: QuizForm)
    requires StepReadable(formParams)
    ensures fresh(form) && form.errors == []
    ensures form.State() == InitialState(FromParams(formParams, uid))
  {
    form := new QuizForm(FromParams(formParams, uid));
  }

  /** `build_quiz_form_from_encoded_params` */
  method BuildQuizFormFromEncodedParams(t: Token, uid: nat) returns (form: QuizForm?, failure: Option<Failure>)
    ensures failure.None? <==> form != null
    ensures form != null ==>
      && fresh(form) && form.errors == []
      && FromEncodedParams(t, uid).Ok? && StepReadable(FromEncodedParams(t, uid).value)
      && form.State() == InitialState(FromEncodedParams(t, uid).value)
    ensures t.Malformed? ==> failure == Some(DecodeFailed)
    ensures failure.None? <==> FromEncodedParams(t, uid).Ok? && StepReadable(FromEncodedParams(t, uid).value)
    ensures failure.Some? ==>
      (failure.value == if FromEncodedParams(t, uid).Raised? then FromEncodedParams(t, uid).failure else NoMethod)
  {
    var r := FromEncodedParams(t, uid);
    if r.Raised? {
      form, failure := null, Some(r.failure);
    } else if !StepReadable(r.value) {
      form, failure := null, Some(NoMethod);
    } else {
      form := new QuizForm(r.value);
      failure := None;
    }
  }

  /** `build_default_quiz_form` */
  method BuildDefaultQuizForm(id: string, uid: nat) returns (form: QuizForm)
    ensures fresh(form) && form.errors == []
    ensures form.currentStep == StrToI(id) && form.currentUserId == Num(uid)
    ensures form.Slots() == [Nil, Nil, Nil, Nil, Nil]
    ensures form.State() == InitialState(DefaultParams(id, uid))
  {
    form := new QuizForm(DefaultParams(id, uid));
  }
}
