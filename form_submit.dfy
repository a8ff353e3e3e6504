/**
 * Submitting a published form (frontend/components/pages/form/form-submit-component.tsx):
 * the values and errors the component keeps per field id, the validation
 * loop, and the gate in front of the submit request. The per-type
 * validators are an input, as is the clock that keys a re-render.
 */
module FormSubmit {

  /** One element of the form's content: its id and its element type. */
  datatype FormField = FormField(id: string, kind: string)

  /** The body of the submit request: the form's URL and the values that `JSON.stringify` serialises. */
  datatype SubmitRequest = SubmitRequest(formUrl: string, content: map<string, string>)

  const InvalidFormMessage: string := "Please check form for errors and try again"

  /** `formValues.current[field.id] || ""`. */
  function ValueOf(values: map<string, string>, id: string): string {
    if id in values then values[id] else ""
  }

  /** The errors after the loop: each field its validator refuses is marked, earlier marks stay. */
  function MarkInvalid(errors: map<string, bool>, content: seq<FormField>, values: map<string, string>,
                       valid: (FormField, string) -> bool): (r: map<string, bool>)
    ensures forall k :: k in errors ==> k in r
    ensures forall k :: k in r ==> r[k] || (k in errors && r[k] == errors[k])
    decreases |content|
  {
    if content == [] then errors
    else
      var f := content[0];
      var e := if valid(f, ValueOf(values, f.id)) then errors else errors[f.id := true];
      MarkInvalid(e, content[1..], values, valid)
  }

  /** A field id is marked exactly when it was already marked or some field with that id is refused. */
  lemma {:induction false} MarkInvalidExact(errors: map<string, bool>, content: seq<FormField>, values: map<string, string>,
                                            valid: (FormField, string) -> bool, k: string)
    ensures k in MarkInvalid(errors, content, values, valid) <==>
      k in errors || exists i :: 0 <= i < |content| && content[i].id == k && !valid(content[i], ValueOf(values, k))
    decreases |content|
  {
    if content != [] {
      var f := content[0];
      var e := if valid(f, ValueOf(values, f.id)) then errors else errors[f.id := true];
      MarkInvalidExact(e, content[1..], values, valid, k);
      if exists i :: 0 <= i < |content[1..]| && content[1..][i].id == k && !valid(content[1..][i], ValueOf(values, k)) {
        var i :| 0 <= i < |content[1..]| && content[1..][i].id == k && !valid(content[1..][i], ValueOf(values, k));
        assert content[i + 1] == content[1..][i];
      }
      if exists i :: 0 <= i < |content| && content[i].id == k && !valid(content[i], ValueOf(values, k)) {
        var i :| 0 <= i < |content| && content[i].id == k && !valid(content[i], ValueOf(values, k));
        if i > 0 {
          assert content[1..][i - 1] == content[i];
        }
      }
    }
  }

  /** With the errors cleared first, the form is valid exactly when every field's validator accepts its value. */
  lemma ValidIffAllAccepted(content: seq<FormField>, values: map<string, string>, valid: (FormField, string) -> bool)
    ensures |MarkInvalid(map[], content, values, valid)| == 0 <==>
      forall i :: 0 <= i < |content| ==> valid(content[i], ValueOf(values, content[i].id))
  {
    var r := MarkInvalid(map[], content, values, valid);
    if |r| == 0 {
      forall i | 0 <= i < |content| ensures valid(content[i], ValueOf(values, content[i].id)) {
        MarkInvalidExact(map[], content, values, valid, content[i].id);
        assert content[i].id !in r;
      }
    } else {
      var k :| k in r;
      MarkInvalidExact(map[], content, values, valid, k);
    }
  }

  /** The component's state for one form. */
  class FormSubmission {
    const formUrl: string
    const content: seq<FormField>
    var formValues: map<string, string>
    var formErrors: map<string, bool>
    var submitted: bool
    var renderKey: int
    /** The submit requests handed to the mutation, in order. */
    var requests: seq<SubmitRequest>
    var toast: seq<string>

    constructor (formUrl: string, content: seq<FormField>, now: int)
      ensures this.formUrl == formUrl && this.content == content
      ensures formValues == map[] && formErrors == map[] && !submitted && renderKey == now
      ensures requests == [] && toast == []
    {
      this.formUrl, this.content := formUrl, content;
      formValues, formErrors := map[], map[];
      submitted, renderKey := false, now;
      requests, toast := [], [];
    }

    /** `submitValue`: the given key takes the value, every other key keeps its own. */
    method SubmitValue(key: string, value: string)
      modifies this`formValues
      ensures formValues == old(formValues)[key := value]
      ensures forall k :: k != key ==> (k in formValues <==> k in old(formValues)) && (k in formValues ==> formValues[k] == old(formValues)[k])
    {
      formValues := formValues[key := value];
    }

    /** `validateForm`: marks every refused field, then reports whether any error is recorded. */
    method ValidateForm(valid: (FormField, string) -> bool) returns (ok: bool)
      modifies this`formErrors
      ensures formErrors == MarkInvalid(old(formErrors), content, formValues, valid)
      ensures ok <==> |formErrors| == 0
    {
      var i := 0;
      while i < |content|
        invariant 0 <= i <= |content|
        invariant MarkInvalid(formErrors, content[i..], formValues, valid) == MarkInvalid(old(formErrors), content, formValues, valid)
      {
        var field := content[i];
        var actualValue := if field.id in formValues then formValues[field.id] else "";
        assert content[i..][1..] == content[i + 1..];
        if !valid(field, actualValue) {
          formErrors := formErrors[field.id := true];
        }
        i := i + 1;
      }
      ok := |formErrors| == 0;
    }

    /**
     * `submitForm`: clears the errors and validates; an invalid form re-renders
     * with a toast and sends nothing, a valid one hands its values to the
     * mutation and shows the thank-you page without waiting for the answer.
     */
    method SubmitForm(valid: (FormField, string) -> bool, now: int)
      modifies this`formErrors, this`renderKey, this`toast, this`requests, this`submitted
      ensures formErrors == MarkInvalid(map[], content, formValues, valid)
      ensures |formErrors| > 0 ==> requests == old(requests) && renderKey == now && toast == old(toast) + [InvalidFormMessage] && submitted == old(submitted)
      ensures |formErrors| == 0 ==> requests == old(requests) + [SubmitRequest(formUrl, formValues)] && submitted && toast == old(toast) && renderKey == old(renderKey)
    {
      formErrors := map[];
      var validForm := ValidateForm(valid);
      if !validForm {
        renderKey := now;
        toast := toast + [InvalidFormMessage];
        return;
      }
      requests := requests + [SubmitRequest(formUrl, formValues)];
      submitted := true;
    }
  }
}
