/**
  * The parts of the Rails session the quiz uses: `quiz_forms`, an array of
  * per-page form snapshots indexed by step - 1, and the stopwatch entries
  * `start_time` and `running`.
  */
module QuizSession {
  import opened Runtime
  import opened QuizFormModel

  /**
    * `xs[i] = v` on a Ruby Array: an index past the end pads with nil, a
    * negative index counts from the end, and one before the start raises
    * IndexError.
    */
  function RubyStore<T>(xs: seq<Option<T>>, i: int, v: T): (r: Result<seq<Option<T>>>)
    ensures i < -|xs| <==> r == Raised(IndexOutOfRange)
    ensures r.Ok? ==> |r.value| == if i >= |xs| then i + 1 else |xs|
  {
    if i >= |xs| then Ok(xs + seq(i - |xs|, _ => None) + [Some(v)])
    else if i >= 0 then Ok(xs[i := Some(v)])
    else if i >= -|xs| then Ok(xs[|xs| + i := Some(v)])
    else Raised(IndexOutOfRange)
  }

  /** A stored value is read back at the same index. */
  lemma StoreThenAt<T>(xs: seq<Option<T>>, i: int, v: T)
    requires i >= -|xs|
    ensures RubyStore(xs, i, v).Ok?
    ensures RubyAt(RubyStore(xs, i, v).value, i) == Some(Some(v))
  {
  }

  /** Storing leaves every other slot as it was, and the padding is nil. */
  lemma StoreKeepsOthers<T>(xs: seq<Option<T>>, i: int, v: T, j: nat)
    requires i >= -|xs|
    requires j != (if i >= 0 then i else |xs| + i)
    ensures var r := RubyStore(xs, i, v).value;
      j < |r| ==> r[j] == if j < |xs| then xs[j] else None
  {
  }

  /** A snapshot the form can be restored from: `attributes` always holds an integer step. */
  predicate Restorable(snapshot: Option<Attrs>) {
    snapshot.Some? ==> StepNumeric(snapshot.value)
  }

  /** `session[:quiz_forms] && session[:quiz_forms][step - 1]` */
  function SavedState(quizForms: Option<seq<Option<Attrs>>>, step: int): (saved: Option<Attrs>)
    ensures quizForms.None? ==> saved.None?
    ensures quizForms.Some? && 0 <= step - 1 < |quizForms.value| ==> saved == quizForms.value[step - 1]
  {
    match quizForms
    case None => None
    case Some(forms) =>
      match RubyAt(forms, step - 1)
      case None => None
      case Some(s) => s
  }

  class Session {
    var quizForms: Option<seq<Option<Attrs>>>
    var startTime: Option<real>
    var running: bool

    /** Every stored snapshot came from `attributes`. */
    ghost predicate Valid()
      reads this
    {
      quizForms.Some? ==> forall s <- quizForms.value :: Restorable(s)
    }

    /** A fresh session holds nothing. */
    constructor ()
      ensures quizForms.None? && startTime.None? && !running && Valid()
    {
      quizForms := None;
      startTime := None;
      running := false;
    }

    /** `session[:quiz_forms][step - 1]`, nil when there is no array or no entry. */
    function Saved(step: int): (saved: Option<Attrs>)
      reads this
      ensures Valid() ==> Restorable(saved)
    {
      var r := SavedState(quizForms, step);
      assert quizForms.Some? && r.Some? ==> r in quizForms.value;
      r
    }

    /**
      * `session[:quiz_forms] ||= []` followed by
      * `session[:quiz_forms][step - 1] = attributes`.
      */
    method StoreSnapshot(step: int, attributes: Attrs) returns (raised: bool)
      requires Valid() && StepNumeric(attributes)
      modifies this`quizForms
      ensures Valid()
      ensures var forms := if old(quizForms).None? then [] else old(quizForms).value;
        && (raised <==> RubyStore(forms, step - 1, attributes).Raised?)
        && (raised ==> quizForms == Some(forms))
        && (!raised ==> quizForms == Some(RubyStore(forms, step - 1, attributes).value))
    {
      var forms := if quizForms.None? then [] else quizForms.value;
      quizForms := Some(forms);
      var r := RubyStore(forms, step - 1, attributes);
      if r.Ok? {
        assert forall s <- r.value :: s in forms || s == Some(attributes) || s == None;
        quizForms := Some(r.value);
      }
      raised := r.Raised?;
    }

    /** `session[:quiz_forms] = nil` */
    method ClearQuizForms()
      modifies this`quizForms
      ensures quizForms.None? && Valid()
    {
      quizForms := None;
    }

    /** `start_timer`: records the start time and sets the running flag. */
    method StartTimer(now: real)
      modifies this`startTime, this`running
      ensures startTime == Some(now) && running
    {
      startTime := Some(now);
      running := true;
    }

    /** Stops the stopwatch: `start_time` nil, `running` false. */
    method StopTimer()
      modifies this`startTime, this`running
      ensures startTime.None? && !running
    {
      startTime := None;
      running := false;
    }
  }

  /** A snapshot stored for a step is the one restored for that step. */
  lemma StoredSnapshotIsRestored(forms: seq<Option<Attrs>>, step: int, attributes: Attrs)
    requires step - 1 >= -|forms|
    ensures SavedState(Some(RubyStore(forms, step - 1, attributes).value), step) == Some(attributes)
  {
    StoreThenAt(forms, step - 1, attributes);
  }
}
