/** What the three modal forms share: the error object shown beside the fields, the clearing
    of a field's error when the user edits it, and the outcome of submitting. */
module Forms {

  /** The form's error object: field name to message. */
  type Errors = map<string, string>

  /** A field shows an error when its entry is a non-empty message. */
  predicate ShowsError(errors: Errors, field: string)
  {
    field in errors && errors[field] != ""
  }

  /** `if (errors[name]) setErrors(prev => ({ ...prev, [name]: '' }))`: editing a field blanks
      its message and leaves every other field's entry as it was. */
  function ClearError(errors: Errors, field: string): (r: Errors)
    ensures r.Keys == errors.Keys
    ensures !ShowsError(r, field)
    ensures forall f :: f in errors && f != field ==> r[f] == errors[f]
  {
    if ShowsError(errors, field) then errors[field := ""] else errors
  }

  /** One check of a `validateForm`: when it fails, the field's entry is set to the message. */
  function Flag(errors: Errors, failed: bool, field: string, message: string): (r: Errors)
    ensures r.Keys == if failed then errors.Keys + {field} else errors.Keys
    ensures failed ==> r[field] == message
  {
    if failed then errors[field := message] else errors
  }

  /** The outcome of a submit: refused with the validation errors, saved (the store after the
      service call and the record it returned), or failed because the service threw. */
  datatype Submission<T> = Rejected(errors: Errors) | Saved(store: seq<T>, saved: T) | Failed(message: string)
}
