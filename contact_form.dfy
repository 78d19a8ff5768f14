/** The contact form's inline error markers. Each field sits in its own form
    group; an invalid field gets the red border and one error paragraph
    holding its message, a valid or edited field gets the neutral border back
    and loses the paragraph. */
module ContactForm {
  import opened Options
  import opened Validation

  /** What `validateForm` does to one field: `None` when it skips the field
      (the field is not required), the field's verdict otherwise. */
  function FormCheck(f: Input): Option<Verdict> {
    if f.required then Some(CheckField(f)) else None
  }

  /** What `validateForm` does to each field, in document order. */
  function FormChecks(inputs: seq<Input>): (c: seq<Option<Verdict>>)
    ensures |c| == |inputs|
  {
    if inputs == [] then []
    else FormChecks(inputs[..|inputs| - 1]) + [FormCheck(inputs[|inputs| - 1])]
  }

  lemma {:induction false} FormChecksAt(inputs: seq<Input>, j: nat)
    requires j < |inputs|
    ensures FormChecks(inputs)[j] == FormCheck(inputs[j])
  {
    if j < |inputs| - 1 {
      FormChecksAt(inputs[..|inputs| - 1], j);
    }
  }

  /** The messages after the first `n` checks have been applied in order,
      starting from the messages `e`. */
  function ErrorsAfter(e: map<nat, string>, checks: seq<Option<Verdict>>, n: nat): map<nat, string>
    requires n <= |checks|
  {
    if n == 0 then e
    else
      var prev := ErrorsAfter(e, checks, n - 1);
      match checks[n - 1]
      case None => prev
      case Some(Ok) => prev - {n - 1}
      case Some(Error(m)) => prev[n - 1 := m]
  }

  /** The red borders after the same checks, starting from `r`. */
  function BordersAfter(r: set<nat>, checks: seq<Option<Verdict>>, n: nat): set<nat>
    requires n <= |checks|
  {
    if n == 0 then r
    else
      var prev := BordersAfter(r, checks, n - 1);
      match checks[n - 1]
      case None => prev
      case Some(Ok) => prev - {n - 1}
      case Some(Error(_)) => prev + {n - 1}
  }

  /** After the first `n` checks, each checked field among them carries its
      verdict's message (none when valid), and every other field keeps the
      message it had. */
  lemma {:induction false} ErrorsAfterShows(e: map<nat, string>, checks: seq<Option<Verdict>>, n: nat)
    requires n <= |checks|
    ensures forall j :: 0 <= j < n && checks[j].Some? && checks[j].value.Ok? ==>
              j !in ErrorsAfter(e, checks, n)
    ensures forall j :: 0 <= j < n && checks[j].Some? && checks[j].value.Error? ==>
              j in ErrorsAfter(e, checks, n) && ErrorsAfter(e, checks, n)[j] == checks[j].value.message
    ensures forall j: nat :: n <= j || checks[j].None? ==>
              (j in ErrorsAfter(e, checks, n) <==> j in e)
              && (j in e ==> ErrorsAfter(e, checks, n)[j] == e[j])
  {
    if n > 0 {
      ErrorsAfterShows(e, checks, n - 1);
    }
  }

  /** The same for the red borders: a checked field among the first `n` is
      red exactly when it is invalid, every other field keeps its border. */
  lemma {:induction false} BordersAfterShows(r: set<nat>, checks: seq<Option<Verdict>>, n: nat)
    requires n <= |checks|
    ensures forall j :: 0 <= j < n && checks[j].Some? ==>
              (j in BordersAfter(r, checks, n) <==> checks[j].value.Error?)
    ensures forall j: nat :: n <= j || checks[j].None? ==>
              (j in BordersAfter(r, checks, n) <==> j in r)
  {
    if n > 0 {
      BordersAfterShows(r, checks, n - 1);
    }
  }

  /** Validating the same values a second time changes no message: a field
      never gains a second message, and nothing is left over from before. */
  lemma ErrorsAfterIdempotent(e: map<nat, string>, checks: seq<Option<Verdict>>, n: nat)
    requires n <= |checks|
    ensures ErrorsAfter(ErrorsAfter(e, checks, n), checks, n) == ErrorsAfter(e, checks, n)
  {
    var once := ErrorsAfter(e, checks, n);
    var twice := ErrorsAfter(once, checks, n);
    ErrorsAfterShows(e, checks, n);
    ErrorsAfterShows(once, checks, n);
    assert twice.Keys == once.Keys;
  }

  /** Validating the same values a second time changes no border. */
  lemma BordersAfterIdempotent(r: set<nat>, checks: seq<Option<Verdict>>, n: nat)
    requires n <= |checks|
    ensures BordersAfter(BordersAfter(r, checks, n), checks, n) == BordersAfter(r, checks, n)
  {
    BordersAfterShows(r, checks, n);
    BordersAfterShows(BordersAfter(r, checks, n), checks, n);
  }

  /** What validating a whole form leaves on screen, starting from messages
      `e` and red borders `r`: a required field carries a message and the red
      border exactly when it is invalid, and the message is its verdict's;
      a field that is not required keeps its message and border. */
  lemma ValidatedForm(e: map<nat, string>, r: set<nat>, inputs: seq<Input>)
    ensures forall j :: 0 <= j < |inputs| && inputs[j].required ==>
              var v := CheckField(inputs[j]);
              && (j in ErrorsAfter(e, FormChecks(inputs), |inputs|) <==> v.Error?)
              && (j in BordersAfter(r, FormChecks(inputs), |inputs|) <==> v.Error?)
              && (v.Error? ==> ErrorsAfter(e, FormChecks(inputs), |inputs|)[j] == v.message)
    ensures forall j: nat :: (j < |inputs| ==> !inputs[j].required) ==>
              && (j in ErrorsAfter(e, FormChecks(inputs), |inputs|) <==> j in e)
              && (j in e ==> ErrorsAfter(e, FormChecks(inputs), |inputs|)[j] == e[j])
              && (j in BordersAfter(r, FormChecks(inputs), |inputs|) <==> j in r)
  {
    var checks := FormChecks(inputs);
    ErrorsAfterShows(e, checks, |inputs|);
    BordersAfterShows(r, checks, |inputs|);
    forall j | 0 <= j < |inputs| ensures checks[j] == FormCheck(inputs[j]) {
      FormChecksAt(inputs, j);
    }
  }

  class Form {
    /** The form's `input` and `textarea` controls in document order. */
    var inputs: seq<Input>
    /** The error paragraph of each field group that has one, by field index:
        a map, so a group never holds two messages. */
    var errors: map<nat, string>
    /** Fields showing `border-red-500`; every other field shows the neutral
        `border-gray-300`. */
    var redBorder: set<nat>

    /** A field has the red border exactly when its group shows a message,
        and only existing fields are marked. */
    ghost predicate Valid()
      reads this
    {
      && errors.Keys == redBorder
      && forall i :: i in redBorder ==> i < |inputs|
    }

    /** Field `i` displays what verdict `v` calls for. */
    ghost predicate Shows(i: nat, v: Verdict)
      reads this
    {
      match v
      case Ok => i !in errors && i !in redBorder
      case Error(m) => i in errors && errors[i] == m && i in redBorder
    }

    /** The page as loaded: no field is marked. */
    constructor (controls: seq<Input>)
      ensures Valid()
      ensures inputs == controls && errors == map[] && redBorder == {}
    {
      inputs := controls;
      errors := map[];
      redBorder := {};
    }

    /** `clearValidationError`: neutral border, error paragraph removed if present. */
    method ClearValidationError(i: nat)
      requires Valid() && i < |inputs|
      modifies this
      ensures Valid() && Shows(i, Ok)
      ensures inputs == old(inputs)
      ensures errors == old(errors) - {i} && redBorder == old(redBorder) - {i}
    {
      redBorder := redBorder - {i};
      errors := errors - {i};
    }

    /** `updateValidationError`: an invalid field gets the red border and its
        group's paragraph (created when missing, reused otherwise) gets the
        message; a valid field is cleared. */
    method UpdateValidationError(i: nat, isValid: bool, message: string)
      requires Valid() && i < |inputs|
      modifies this
      ensures Valid() && Shows(i, if isValid then Ok else Error(message))
      ensures inputs == old(inputs)
      ensures errors == if isValid then old(errors) - {i} else old(errors)[i := message]
      ensures redBorder == if isValid then old(redBorder) - {i} else old(redBorder) + {i}
    {
      if !isValid {
        redBorder := redBorder + {i};
        errors := errors[i := message];
      } else {
        ClearValidationError(i);
      }
    }

    /** `validateInput`: checks field `i` and shows the outcome; returns
        whether the field is valid. */
    method ValidateInput(i: nat) returns (ok: bool, ghost v: Verdict)
      requires Valid() && i < |inputs|
      modifies this
      ensures inputs == old(inputs) && v == CheckField(inputs[i])
      ensures Valid() && Shows(i, v)
      ensures ok <==> v.Ok?
      ensures errors == if ok then old(errors) - {i} else old(errors)[i := v.message]
      ensures redBorder == if ok then old(redBorder) - {i} else old(redBorder) + {i}
    {
      var verdict := CheckField(inputs[i]);
      v := verdict;
      ok := verdict.Ok?;
      UpdateValidationError(i, ok, if ok then "" else verdict.message);
    }

    /** `validateForm`: validates every required field, without stopping at
        the first failure, and reports whether all of them are valid. Fields
        that are not required keep their markers. */
    method ValidateForm() returns (ok: bool)
      requires Valid()
      modifies this
      ensures Valid() && inputs == old(inputs)
      ensures ok <==> forall j :: 0 <= j < |inputs| && inputs[j].required ==> CheckField(inputs[j]).Ok?
      ensures errors == ErrorsAfter(old(errors), FormChecks(inputs), |inputs|)
      ensures redBorder == BordersAfter(old(redBorder), FormChecks(inputs), |inputs|)
    {
      ghost var checks := FormChecks(inputs);
      ok := true;
      var i := 0;
      while i < |inputs|
        invariant 0 <= i <= |inputs|
        invariant Valid() && inputs == old(inputs)
        invariant ok <==> forall j :: 0 <= j < i && checks[j].Some? ==> checks[j].value.Ok?
        invariant errors == ErrorsAfter(old(errors), checks, i)
        invariant redBorder == BordersAfter(old(redBorder), checks, i)
      {
        FormChecksAt(inputs, i);
        if inputs[i].required {
          var fieldOk;
          ghost var v;
          fieldOk, v := ValidateInput(i);
          if !fieldOk {
            ok := false;
          }
        }
        i := i + 1;
      }
      forall j | 0 <= j < |inputs| ensures checks[j] == FormCheck(inputs[j]) {
        FormChecksAt(inputs, j);
      }
    }

    /** The `input` listener: the user changes field `i`, which loses its
        error marker until it is validated again. */
    method OnInput(i: nat, value: string)
      requires Valid() && i < |inputs|
      modifies this
      ensures Valid() && Shows(i, Ok)
      ensures inputs == old(inputs)[i := old(inputs)[i].(value := value)]
      ensures errors == old(errors) - {i} && redBorder == old(redBorder) - {i}
    {
      inputs := inputs[i := inputs[i].(value := value)];
      ClearValidationError(i);
    }
  }
}
