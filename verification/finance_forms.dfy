/**
 * The finance forms' own cleaning rules: the recurrence fields of
 * `TransactionForm`, the end date of `BudgetForm`, the import form's
 * delimiter, the preferences currency, the registration e-mail, and the
 * category choices offered for budgets and import defaults.
 *
 * The `CharField` cleaning (module FormFields) runs before a
 * `clean_<field>` method; the text pipelines below follow that order.
 */
module FinanceForms {
  import opened Wrappers
  import opened Text
  import opened Dates
  import opened Ledger
  import opened Budgets
  import opened FormFields

  datatype FieldError = BadText(e: TextError) | EndEarlierThanDate | IntervalMissing | NotOneCharacter | NotThreeLetters | EmailTaken

  // ---------------------------------------------------------------------
  // TransactionForm
  // ---------------------------------------------------------------------

  /** `clean_recurrence_end_date`: an end date earlier than the transaction date
      is refused; anything else passes through unchanged. */
  function CleanRecurrenceEndDate(end: Option<Date>, interval: Option<Interval>, date: Option<Date>): (r: Result<Option<Date>, FieldError>)
    ensures r.Err? <==> end.Some? && date.Some? && Less(end.value, date.value)
    ensures r.Ok? ==> r.value == end
  {
    if interval.Some? && interval.value != NoRepeat && end.None? then Ok(end)
    else if end.Some? && date.Some? && Less(end.value, date.value) then Err(EndEarlierThanDate)
    else Ok(end)
  }

  /** The recurrence fields after `TransactionForm.clean`. */
  datatype Recurrence = Recurrence(recurring: bool, interval: Option<Interval>, end: Option<Date>)

  /** `TransactionForm.clean`: a one-off transaction loses its interval and end
      date; a recurring one without an interval gets an error. */
  function TransactionFormClean(r: Recurrence): (out: (Recurrence, seq<FieldError>))
    ensures !r.recurring ==> out.0 == Recurrence(false, Some(NoRepeat), None) && out.1 == []
    ensures r.recurring ==> out.0 == r
    ensures out.1 != [] <==> r.recurring && r.interval == Some(NoRepeat)
  {
    if !r.recurring then (Recurrence(false, Some(NoRepeat), None), [])
    else if r.interval == Some(NoRepeat) then (r, [IntervalMissing])
    else (r, [])
  }

  /** The recurrence part of a `TransactionForm` submission: the field-level
      end-date check runs first, then the form-level `clean`. */
  function ValidateRecurrence(r: Recurrence, date: Option<Date>): (out: (Recurrence, seq<FieldError>))
    ensures out.1 == [] <==>
      && !(r.end.Some? && date.Some? && Less(r.end.value, date.value))
      && !(r.recurring && r.interval == Some(NoRepeat))
  {
    match CleanRecurrenceEndDate(r.end, r.interval, date)
    case Err(e) =>
      var (cleaned, errs) := TransactionFormClean(r.(end := None));
      (cleaned, [e] + errs)
    case Ok(end) => TransactionFormClean(r.(end := end))
  }

  /** Whatever is submitted, a form that validates leaves a consistent
      recurrence: a one-off transaction has no interval and no end date, a
      recurring one has a real interval, and the end is never before the date. */
  lemma ValidatedRecurrenceConsistent(r: Recurrence, date: Date)
    requires ValidateRecurrence(r, Some(date)).1 == []
    ensures var c := ValidateRecurrence(r, Some(date)).0;
      && (!c.recurring ==> c.interval == Some(NoRepeat) && c.end.None?)
      && (c.recurring ==> c.interval != Some(NoRepeat))
      && (c.end.Some? ==> LessEq(date, c.end.value))
  {
    var c := ValidateRecurrence(r, Some(date)).0;
    if c.end.Some? {
      LessEqTotal(date, c.end.value);
    }
  }

  /** The end-date check runs before `clean` clears the field, so a one-off
      transaction still carrying an early end date is refused. */
  lemma StaleEndDateRefused(d: Date, e: Date)
    requires Less(e, d)
    ensures ValidateRecurrence(Recurrence(false, Some(NoRepeat), Some(e)), Some(d)).1 != []
  {
  }

  // ---------------------------------------------------------------------
  // BudgetForm
  // ---------------------------------------------------------------------

  /** `BudgetForm.clean`: only a custom budget keeps an end date. */
  function BudgetFormClean(b: Budget): (r: Budget)
    ensures r.period != CustomPeriod ==> r.end.None?
    ensures r.period == CustomPeriod ==> r.end == b.end
    ensures r == b.(end := r.end)
  {
    if b.period != CustomPeriod then b.(end := None) else b
  }

  /** Cleaning a cleaned budget changes nothing. */
  lemma BudgetFormCleanIdempotent(b: Budget)
    ensures BudgetFormClean(BudgetFormClean(b)) == BudgetFormClean(b)
  {
  }

  /** The categories a budget or an import default may name: the user's
      expense categories. */
  function ExpenseChoices(l: Ledger, user: UserId): (r: set<CategoryId>)
    ensures forall c :: c in r <==> c in l.categories && l.categories[c].user == user && l.categories[c].kind == Expense
  {
    set c | c in l.categories && l.categories[c].user == user && l.categories[c].kind == Expense
  }

  /** A category chosen from those choices satisfies the category rules of
      `Budget.clean` once the budget's owner is set: on an edit, or on a
      create whose owner is assigned before validation. */
  lemma ChosenCategoryPassesBudgetClean(l: Ledger, b: Budget)
    requires b.category.Some? ==> b.category.value in ExpenseChoices(l, b.user)
    requires b.period != CustomPeriod
    ensures BudgetClean(l, Some(b.user), b).None?
  {
  }

  /** On the create page the owner is still unset when `Budget.clean` runs,
      so a budget passes exactly when it names no category: every category
      the form offers is refused as another user's. */
  lemma ChosenCategoryRefusedOnCreate(l: Ledger, b: Budget)
    requires b.category.Some? ==> b.category.value in ExpenseChoices(l, b.user)
    requires b.period != CustomPeriod
    ensures BudgetClean(l, None, b).None? <==> b.category.None?
    ensures b.category.Some? ==> BudgetClean(l, None, b) == Some(BudgetCategoryOfOtherUser)
  {
  }

  // ---------------------------------------------------------------------
  // Text fields
  // ---------------------------------------------------------------------

  /** `TransactionImportForm.clean_delimiter`. */
  function CleanDelimiter(delim: string): (r: Result<char, FieldError>)
    ensures r.Ok? <==> |delim| == 1
    ensures r.Ok? ==> [r.value] == delim
  {
    if |delim| != 1 then Err(NotOneCharacter) else Ok(delim[0])
  }

  /** The delimiter field as a whole: `CharField(max_length=1)` then
      `clean_delimiter`. Stripping happens first, so a whitespace delimiter
      such as a tab never gets through. */
  function DelimiterField(raw: string): (r: Result<char, FieldError>)
    ensures r.Ok? <==> |Strip(raw)| == 1 && '\0' !in raw
    ensures r.Ok? ==> [r.value] == Strip(raw) && !IsSpace(r.value)
  {
    match CharField(raw, true, Some(1))
    case Err(e) => Err(BadText(e))
    case Ok(s) => CleanDelimiter(s)
  }

  lemma TabDelimiterRefused()
    ensures DelimiterField("\t").Err?
  {
    assert IsSpace('\t');
    assert AllSpace("\t");
    StripEmptyIff("\t");
  }

  /** `PreferencesForm.clean_currency`: upper-case, exactly three characters. */
  function CleanCurrency(currency: string): (r: Result<string, FieldError>)
    ensures r.Ok? <==> |currency| == 3
    ensures r.Ok? ==> r.value == Upper(currency)
  {
    var c := Upper(currency);
    if |c| != 3 then Err(NotThreeLetters) else Ok(c)
  }

  /** The currency field as a whole (`max_length=3`, required) followed by
      `clean_currency`. */
  function PreferencesCurrency(raw: string): (r: Result<string, FieldError>)
    ensures r.Ok? <==> |Strip(raw)| == 3 && '\0' !in raw
    ensures r.Ok? ==> |r.value| == 3 && forall i :: 0 <= i < 3 ==> r.value[i] == UpperChar(Strip(raw)[i])
  {
    match CharField(raw, true, Some(3))
    case Err(e) => Err(BadText(e))
    case Ok(s) => CleanCurrency(s)
  }

  /** `UserRegistrationForm.clean_email`: lower-case, and refuse an address
      another user already has under a case-insensitive comparison. */
  function CleanEmail(email: string, existing: seq<string>): (r: Result<string, FieldError>)
    ensures r.Err? <==> exists i :: 0 <= i < |existing| && EqualsIgnoreCase(existing[i], email)
    ensures r.Ok? ==> r.value == Lower(email)
  {
    var e := Lower(email);
    LowerIdempotent(email);
    if exists i :: 0 <= i < |existing| && Lower(existing[i]) == e then Err(EmailTaken) else Ok(e)
  }

  /** Two registrations that differ only in letter case cannot both succeed. */
  lemma EmailCaseInsensitive(email: string, other: string, existing: seq<string>)
    requires EqualsIgnoreCase(email, other)
    ensures CleanEmail(other, existing + [email]).Err?
  {
    var xs := existing + [email];
    assert xs[|existing|] == email;
  }
}
