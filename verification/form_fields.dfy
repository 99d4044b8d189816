/**
 * Django's `forms.CharField` cleaning, shared by every app's forms: the
 * submitted text is stripped, an empty value is refused when the field is
 * required (and becomes "" when it is not), `max_length` is checked on the
 * stripped text, and a value holding a NUL character is refused (the
 * validator every form `CharField` carries).
 */
module FormFields {
  import opened Wrappers
  import opened Text

  datatype TextError = Required | TooLong | NullCharacter

  /** `CharField(required=required, max_length=maxLength).clean(raw)`. A
      non-empty value runs both validators; the length error is the one
      reported when both fail. Stripping never removes a NUL, so the raw
      text holds one exactly when the stripped text does. */
  function CharField(raw: string, required: bool, maxLength: Option<nat>): (r: Result<string, TextError>)
    ensures r.Ok? <==>
      (Strip(raw) != [] || !required) && (maxLength.None? || |Strip(raw)| <= maxLength.value) && '\0' !in raw
    ensures r.Ok? ==> r.value == Strip(raw)
    ensures r == Err(Required) <==> required && Strip(raw) == []
    ensures r == Err(TooLong) <==> Strip(raw) != [] && maxLength.Some? && |Strip(raw)| > maxLength.value
    ensures r == Err(NullCharacter) <==>
      Strip(raw) != [] && (maxLength.None? || |Strip(raw)| <= maxLength.value) && '\0' in raw
  {
    var s := Strip(raw);
    StripKeepsNonSpace('\0', raw);
    if s == [] then (if required then Err(Required) else Ok(s))
    else if maxLength.Some? && |s| > maxLength.value then Err(TooLong)
    else if '\0' in s then Err(NullCharacter)
    else Ok(s)
  }

  /** Cleaning an already cleaned value gives it back: a value shown in a
      form and submitted again passes unchanged. */
  lemma CharFieldStable(raw: string, required: bool, maxLength: Option<nat>)
    requires CharField(raw, required, maxLength).Ok?
    ensures CharField(CharField(raw, required, maxLength).value, required, maxLength) == CharField(raw, required, maxLength)
  {
    StripIdempotent(raw);
  }
}
