# cs50w apps in Dafny

This project models the decision logic of four Django apps and proves
properties about it.

- **finance** (`project5/finance`) is the main subject.
  - The ledger: accounts, categories, transactions and budgets. The balance
    invariant is `current_balance = initial_balance + Σ signed_amount`. Every
    transaction and account request keeps it. One category request breaks
    it as the program stands: a change of type of a category that
    transactions use. With that edit guarded, every request keeps it.
  - Form and model validation.
  - The budget evaluator.
  - The CSV import row pipeline and the CSV/JSON export.
  - Exchange-rate selection with its cache.
  - The dashboard's month arithmetic.
- **auctions** (`project2/commerce/auctions`): the bid, comment and close
  actions on a listing, the watchlist toggle, and category reuse.
- **network** (`project4/network`):
  - post validation;
  - author-only edits;
  - the like and follow toggles;
  - profile flags;
  - feed selection and page clamping.
- **wiki** (`project1/wiki/encyclopedia`): search precedence, the
  case-insensitive duplicate-title check, editing, and the random page.

How the model is built:

- Money is a whole number of cents (`int`). Text that the code hands to
  `Decimal(...)` is parsed into an exact decimal `Dec(coef, scale)`.
- Database tables are maps from ids to records. Link tables (likes, follows,
  watchlists) are sets of pairs.
- Every request is a pure function from the old state to the new state and
  an outcome. A refused request returns the state unchanged.
- Things the code receives from outside become parameters:
  - `timezone.localdate()` and `timezone.now()`;
  - the exchange-rate HTTP lookup;
  - `strptime` with the user's format;
  - `random.choice`.

Three places where the code and its evident intent part ways are
modelled both ways, selected by `Ledger.Rules`: `AsWritten` is the program
as it stands and `Corrected` the behaviour its other parts assume (see
"## Findings"). Each as-written member comes with a lemma showing where
the two differ.

The CSV import's amount separator is handled as the view does it
(`CsvImport.NormalizeAmount`, views.py:373-377):

- `,` becomes `.` only when the text has no `.` at all.
- Otherwise every `,` is dropped.

So `1.234,56` reads as 1.23456, and the two-place validation then refuses
it (`CsvImport.ContinentalExample`).

Files, one module each:

| file | contents |
|---|---|
| `wrappers.dfy` | `Option`, `Result` |
| `text.dfy` | `str.strip`, `lower`, `upper`, `split`, `join`, `replace` |
| `decimals.dfy` | `Decimal` parsing, printing and validators |
| `dates.dfy` | calendar arithmetic |
| `mapsums.dfy` | sums over tables |
| `relations.dfy` | link tables |
| `form_fields.dfy` | `CharField` |
| `ledger.dfy` | the finance models and their balance state machine |
| `finance_forms.dfy` | the finance forms |
| `budgets.dfy` | the budget evaluator |
| `csv_import.dfy` | the CSV import |
| `csv_export.dfy` | the CSV/JSON export |
| `exchange.dfy` | exchange rates |
| `dashboard.dfy` | the dashboard |
| `auctions.dfy` | the auctions app |
| `network.dfy` | the network app |
| `wiki.dfy` | the wiki app |

## Model

| member | source | states |
|---|---|---|
| Ledger.SignedAmountSign | project5/finance/models.py:257-264 | a positive amount counts negative exactly when the transaction has an existing expense category; an uncategorised transaction counts positive |
| Ledger.Adjust | project5/finance/models.py:17-25 | only the one account's current balance moves, by exactly `delta`; every other account and field is untouched |
| Ledger.CleanError | project5/finance/models.py:266-283 | `Transaction.clean` passes iff the account and category belong to the user, a recurring transaction has an interval, and a recurrence end date is not before the date |
| Ledger.FullClean | project5/finance/models.py:218-283 | the corrected validation accepts exactly the transactions satisfying every field and clean rule, with the category optional; missing account and too-small amount are reported |
| Ledger.FullCleanAsWritten | project5/finance/models.py:222-224 | validation as declared accepts only valid transactions that have a category; a missing category is reported as blank |
| Ledger.UncategorisedRefusedAsWritten | project5/finance/models.py:222-224 | an uncategorised 12.50 transaction counted as income is refused by the declared field rules and accepted by the corrected ones |
| Ledger.ValidationOwner | project5/finance/views.py:89-91 | as written a new instance is validated with no owner; corrected, with the requesting user |
| Ledger.SaveErrors | project5/finance/models.py:218-294 | the errors of `save`'s `full_clean` are empty iff the transaction is valid and, as written, has a category; a missing category is reported as blank as written |
| Ledger.NormalizeCurrency | project5/finance/models.py:288 | an empty currency becomes USD, any other is upper-cased character by character |
| Ledger.NormalizeCurrencyIdempotent | project5/finance/models.py:288 | normalising a currency twice gives the same as once |
| Ledger.CreateTransaction | project5/finance/models.py:285-300 | a new transaction is stored iff `save`'s `full_clean` accepts it under the chosen rules (as written, a category is required); then only its account's balance moves, by its signed amount, and nothing else changes |
| Ledger.SubmitTransaction | project5/finance/views.py:89-91 | the create view refuses every submission as written, reporting the account as another user's; corrected, it stores exactly the valid transactions, as the save with the user assigned |
| Ledger.TransactionFormRefusedAsWritten | project5/finance/models.py:266-270 | a valid transaction submitted through the create view is refused as written with exactly the account-owner error, and stored once the owner is assigned before validation |
| Ledger.UpdateTransaction | project5/finance/models.py:285-309 | an update validates first under the chosen rules; the old signed amount leaves the old account, the new one enters the new account, and an unchanged account and signed amount leave the balances equal |
| Ledger.Rebalance | project5/finance/models.py:302-309 | reversing the old share and applying the new touches only the two accounts involved, and writes nothing when account and amount are unchanged |
| Ledger.DeleteTransaction | project5/finance/models.py:311-314 | deleting removes the row and gives its signed amount back to its account only |
| Ledger.CreateThenDelete | project5/finance/models.py:296-314 | creating a transaction then deleting it restores the whole ledger |
| Ledger.CreateThenDeleteAccounts | project5/finance/models.py:296-314 | creating then deleting a transaction restores every account balance |
| Ledger.CreatePreservesInv | project5/finance/models.py:296-300 | a successful create keeps every balance equal to initial balance plus the account's signed amounts |
| Ledger.UpdatePreservesInv | project5/finance/models.py:301-309 | a successful update keeps the balance invariant, whether or not the account changes |
| Ledger.UpdateKeepsAccountBalanced | project5/finance/models.py:303-309 | an update keeps any one account's balance equation that held before |
| Ledger.ReplaceShifts | project5/finance/models.py:302-309 | replacing a row moves an account's total by its old share out and its new share in |
| Ledger.DeletePreservesInv | project5/finance/models.py:311-314 | deleting keeps the balance invariant |
| Ledger.AccountErrors | project5/finance/models.py:33-49 | the account form accepts iff the name and currency are present, fit, and hold no NUL character, and the initial balance is non-negative and fits; a name the user already has is never a form error, since `user` is not a form field |
| Ledger.TextFieldErrors | project5/finance/models.py:34-38 | one required text field has no error iff its stripped value is non-empty, fits the limit and the text holds no NUL; a blank value is reported |
| Ledger.OpenedAccount | project5/finance/models.py:55-59 | a new account starts with its current balance equal to its initial balance |
| Ledger.CreateAccount | project5/finance/forms.py:51-63 | an account is created iff the form accepts it and the user has no account of that name; a taken name alone fails at save with the duplicate error; the new row is owned by the user with current equal to initial, and nothing else changes |
| Ledger.EditAccount | project5/finance/forms.py:55-58 | editing someone else's or a missing account is refused; an accepted edit replaces only this account, keeping its owner and `current - initial`; a name the user already has fails at save |
| Ledger.EditedAccount | project5/finance/forms.py:55-58 | the edited account keeps its owner and its `current - initial` while taking the new initial balance |
| Ledger.DeleteAccount | project5/finance/views.py:127-133 | an account is deleted iff it is the user's and no transaction uses it; otherwise nothing changes |
| Ledger.CreateAccountPreservesInv | project5/finance/models.py:55-59 | opening an account keeps the balance invariant |
| Ledger.WithOpenedAccountPreservesInv | project5/finance/models.py:55-59 | adding a fresh account whose current balance equals its initial balance keeps the balance invariant |
| Ledger.EditAccountPreservesInv | project5/finance/forms.py:55-58 | editing an account's initial balance keeps the balance invariant |
| Ledger.DeleteAccountPreservesInv | project5/finance/views.py:127-133 | the delete guard keeps the invariant and every transaction's account reference |
| Ledger.CategoryClean | project5/finance/models.py:92-100 | a category passes iff its parent, if any, exists, belongs to the same user and has the same type |
| Ledger.CategoryErrors | project5/finance/models.py:69-100 | the category form accepts iff the name is present, at most 120 characters and free of NUL, and the parent rule holds for the owner the instance carries; a sibling with the same name is never a form error |
| Ledger.CreateCategory | project5/finance/forms.py:78-84 | a category is added iff the form accepts it for the owner set at validation and no sibling of the user has the name (that alone fails at save); as written any existing parent is refused as another user's; the row is stored with the stripped name and nothing else changes |
| Ledger.SubcategoryRefusedAsWritten | project5/finance/models.py:92-96 | a well-formed sub-category of the user's own category is refused as written with exactly the parent-owner error, and created once the owner is assigned first |
| Ledger.EditCategoryAsWritten | project5/finance/forms.py:66-84 | the edit as written accepts any valid form, including a change of type on a category in use, and rewrites only that category |
| Ledger.EditCategory | project5/finance/models.py:92-100 | the corrected edit also refuses a change of type while transactions point at the category |
| Ledger.DeleteCategory | project5/finance/views.py:181-190 | a category is deleted iff it has no children and no transactions; the children check comes first; budgets that named it lose their category |
| Ledger.CreateCategoryPreservesInv | project5/finance/forms.py:78-84 | adding a category keeps the balance invariant |
| Ledger.EditCategoryPreservesInv | project5/finance/models.py:92-100 | the corrected category edit keeps the balance invariant |
| Ledger.DeleteCategoryPreservesInv | project5/finance/views.py:181-190 | deleting an unused category keeps the balance invariant |
| Ledger.RetypeAccepted | project5/finance/forms.py:66-84 | the edit as written turns a used income category into an expense category |
| Ledger.TopLevelEditAccepted | project5/finance/forms.py:66-84 | the as-written edit of one's own category into a top-level one with a clean name and a free name replaces only that category |
| Ledger.SalaryAsExpenseUnbalanced | project5/finance/models.py:257-264 | after that change the stored balance no longer matches the signed amounts |
| Ledger.RetypingCategoryBreaksBalances | project5/finance/models.py:92-100 | from a consistent ledger, the accepted retype yields an inconsistent one |
| Ledger.RetypingCategoryRefused | project5/finance/models.py:92-100 | the corrected edit refuses the same retype |
| Ledger.Step | project5/finance/models.py:285-314 | any single request, under either rules, leaves every foreign key pointing at an existing row |
| Ledger.Run | project5/finance/models.py:285-314 | any sequence of requests, under either rules, keeps every foreign key valid |
| Ledger.StepPreservesInv | project5/finance/models.py:285-314 | under the corrected rules any request keeps the balance invariant; as written, any request except a change of type of a used category does |
| Ledger.StepTransactionPreservesInv | project5/finance/models.py:285-314 | every transaction request, under either rules, keeps the balance invariant |
| Ledger.StepAccountPreservesInv | project5/finance/forms.py:51-63 | every account request keeps the balance invariant |
| Ledger.StepCategoryPreservesInv | project5/finance/forms.py:66-84 | every category request keeps the balance invariant under the corrected rules, and as written when it does not retype a used category |
| Ledger.RunPreservesInv | project5/finance/models.py:296-314 | under the corrected rules any sequence of requests keeps the balance invariant |
| Ledger.EmptyLedgerConsistent | project5/finance/models.py:55-59 | every ledger the corrected requests reach from the empty one satisfies the invariant |
| Ledger.AsWrittenStepBreaksInv | project5/finance/forms.py:66-84 | as written, one request from a consistent ledger, the retype of a used category, yields a ledger whose balances disagree with its transactions |
| Ledger.CorrectedStepRefusesRetype | project5/finance/models.py:92-100 | under the corrected rules that request is refused and the ledger stays as it was |
| Ledger.BalanceTrace | project5/finance/tests.py:44-66 | the trace 1000.00, 1500.00, 800.00, 1000.00 |
| MapSums.Sum | project5/finance/models.py:169 | the loop total equals the sum over the whole table |
| Budgets.BudgetClean | project5/finance/models.py:136-147 | a budget passes iff any category exists, is an expense category and belongs to the owner the instance carries (an unset owner matches none), and a custom budget has an end date not before its start |
| Budgets.PeriodRange | project5/finance/models.py:149-161 | a monthly range holds exactly today's month's dates and a yearly range exactly today's year's; a custom range is start to end, or start to start without an end |
| Budgets.SpentAmount | project5/finance/models.py:163-170 | the loop computes the sum of the owner's in-range expense amounts, limited to the budget's category when set |
| Budgets.SpentBounds | project5/finance/models.py:163-170 | spent is never negative, and is 0 when no transaction is counted |
| Budgets.Percentage | project5/finance/models.py:172-176 | 0 for a zero budget, otherwise spent/amount·100 capped at 999; above 100 exactly when spent exceeds the amount |
| Budgets.Evaluate | project5/finance/views.py:536-546 | remaining plus spent is the amount, and over holds iff remaining is negative iff the percentage passes 100 |
| Budgets.DiningBudgetExample | project5/finance/views.py:536-546 | a 200.00 budget with 40.00 spent shows 160.00 remaining and 20 percent |
| Budgets.Shown | project5/finance/views.py:532-533 | a zero or missing limit shows every budget; otherwise at most `limit` are shown |
| Budgets.BudgetProgressData | project5/finance/views.py:530-548 | one entry per budget in name order up to the limit, each the budget's evaluation |
| FinanceForms.CleanRecurrenceEndDate | project5/finance/forms.py:118-126 | the end date is refused iff it is earlier than the transaction date; otherwise it passes unchanged |
| FinanceForms.TransactionFormClean | project5/finance/forms.py:128-139 | a one-off transaction loses its interval and end date; a recurring one without an interval gets an error |
| FinanceForms.ValidateRecurrence | project5/finance/forms.py:118-139 | the recurrence fields pass iff the end date is not early and a recurring transaction has an interval |
| FinanceForms.ValidatedRecurrenceConsistent | project5/finance/forms.py:118-139 | accepted recurrence data is consistent: one-off has no interval or end, recurring has an interval, the end is not before the date |
| FinanceForms.StaleEndDateRefused | project5/finance/forms.py:118-139 | the end-date check runs before `clean` clears it, so a one-off form with an early end date is refused |
| FinanceForms.BudgetFormClean | project5/finance/forms.py:251-257 | only a custom budget keeps its end date; nothing else changes |
| FinanceForms.BudgetFormCleanIdempotent | project5/finance/forms.py:251-257 | cleaning a cleaned budget changes nothing |
| FinanceForms.ExpenseChoices | project5/finance/forms.py:245-248 | the offered categories are exactly the user's expense categories |
| FinanceForms.ChosenCategoryPassesBudgetClean | project5/finance/forms.py:245-248 | once the owner is set (an edit, or a create that assigns it first), a category picked from those choices passes the category rules of `Budget.clean` |
| FinanceForms.ChosenCategoryRefusedOnCreate | project5/finance/models.py:136-139 | on the create page, where the owner is unset, a non-custom budget passes iff it names no category; any offered category is refused as another user's |
| FinanceForms.CleanDelimiter | project5/finance/forms.py:202-206 | a delimiter is accepted iff it is exactly one character, which is returned |
| FinanceForms.DelimiterField | project5/finance/forms.py:152 | after the field strips the input, it passes iff a single character remains and the text holds no NUL; that character is not whitespace |
| FinanceForms.TabDelimiterRefused | project5/finance/forms.py:202-206 | a tab delimiter is refused |
| FinanceForms.CleanCurrency | project5/finance/forms.py:285-289 | a currency is accepted iff it has three characters, and comes back upper-cased |
| FinanceForms.PreferencesCurrency | project5/finance/forms.py:274-289 | the field passes iff the stripped value has three characters and the text holds no NUL; each character comes back upper-cased |
| FinanceForms.CleanEmail | project5/finance/forms.py:24-28 | an email is refused iff a registered one equals it ignoring case; otherwise it is lower-cased |
| FinanceForms.EmailCaseInsensitive | project5/finance/forms.py:24-28 | two addresses differing only in case cannot both register |
| CsvImport.LastIndex | project5/finance/views.py:355-356 | finds the last entry matching a name, as a dict built from a list keeps the last one |
| CsvImport.Field | project5/finance/views.py:363-365 | a header name missing from the record's header reads as empty; a present one reads its last column, or nothing when the record is short |
| CsvImport.OptionalField | project5/finance/views.py:381 | a blank optional column name is never read and gives empty text |
| CsvImport.NormalizeAmount | project5/finance/views.py:373-377 | the normalised amount has no comma, never grows, and text without commas is unchanged |
| CsvImport.DecimalCommaAmount | project5/finance/views.py:374-375 | with no point, a comma is the decimal point: `w,f` reads as w.f |
| CsvImport.ThousandsSeparatorDropped | project5/finance/views.py:376-377 | before a point, commas are dropped: `w,f.g` reads as wf.g |
| CsvImport.ContinentalNormalized | project5/finance/views.py:374-377 | `w.f,g` keeps its point and loses its comma |
| CsvImport.ContinentalThousandsRefused | project5/finance/views.py:374-378 | such an amount has more than two places and the amount validation refuses it |
| CsvImport.ContinentalExample | project5/finance/views.py:374-378 | `1.234,56` becomes `1.23456` and is refused |
| CsvImport.ReadAmount | project5/finance/views.py:370-378 | blank amount text is the "missing amount" error; otherwise the amount is the normalised text's decimal value, or an error when that is not a number |
| CsvImport.CleanTags | project5/finance/views.py:403 | every kept tag is non-blank with nothing to strip, and no tag is invented |
| CsvImport.CleanJoined | project5/finance/views.py:403 | clean tags joined with ", " split and clean back to themselves |
| CsvImport.NormalizeTagsIdempotent | project5/finance/views.py:402-403 | normalising a tag string twice is the same as once |
| CsvImport.NormalizedTagsHaveNoBlanks | project5/finance/views.py:403 | no comma-separated piece of a normalised tag string is blank |
| CsvImport.ResolveAccount | project5/finance/views.py:380-385 | a blank name takes the default account; a non-blank name resolves iff a user account matches it ignoring case, never falling back; failure names the account |
| CsvImport.ResolveCategory | project5/finance/views.py:387-394 | a blank name takes the default; a non-blank name must match a category ignoring case ("Unknown category" otherwise) and must be an expense category |
| CsvImport.ChooseCurrency | project5/finance/views.py:396-398 | the upper-cased column value wins, then the account's currency, then the preferred currency, then USD |
| CsvImport.ColumnCurrencyWins | project5/finance/views.py:396-398 | a non-blank currency column decides alone, whatever the account and preferences hold |
| CsvImport.Cell | project5/finance/views.py:365 | a column that the record is too short to reach is an error, since stripping `None` fails |
| CsvImport.ReadDate | project5/finance/views.py:365-368 | the date reads iff the cell exists, is not blank, and `strptime` accepts it; a blank cell is "missing date" |
| CsvImport.Describe | project5/finance/views.py:380-415 | a record that reads well names the resolved account and category, the chosen currency, and the stripped texts; any category is an expense |
| CsvImport.Record | project5/finance/views.py:405-415 | the row's transaction exists iff the amount passes the money validators; it is one-off and carries the amount in cents |
| CsvImport.ParseRow | project5/finance/views.py:364-415 | columns are read in the view's order, and the first failing check is the record's error |
| CsvImport.DescribeOf | project5/finance/views.py:380-415 | with every column readable, the record is exactly the transaction built from the resolved fields |
| CsvImport.SaveRow | project5/finance/views.py:405-419 | a parsed record is saved iff `save`'s validation accepts it under the chosen rules (as written a category is required); a refused record changes nothing and keeps its error |
| CsvImport.ParseAll | project5/finance/views.py:363-364 | every record is read by the same per-row parser |
| CsvImport.ImportRows | project5/finance/views.py:358-419 | under either rules, created plus skipped is the number of rows, and one error is kept per skipped row, numbered in order; earlier rows stay |
| CsvImport.ImportRowsSaved | project5/finance/views.py:405-416 | a saved first row moves the loop on with the extended ledger and the next id, keeping the invariant |
| CsvImport.ImportRowsSkipped | project5/finance/views.py:417-419 | a refused first row puts its error first and moves the loop on with the same ledger |
| CsvImport.ImportKeepsInv | project5/finance/views.py:362-419 | an import under either rules keeps the balance invariant |
| CsvImport.EveryFailureReported | project5/finance/views.py:417-419 | each failing row appears among the errors under its own number, and later rows still run |
| CsvImport.MissingRequired | project5/finance/views.py:350-353 | lists exactly the non-blank date or amount column names absent from the header |
| CsvImport.Import | project5/finance/views.py:345-426 | no header or a missing required column stops the import before any row; otherwise rows are numbered from 2 and counted as above |
| CsvImport.BlankAccountWithoutDefault | project5/finance/views.py:380-385 | a blank account with no default is the "(empty)" account error |
| CsvImport.OneGoodOneBadRow | project5/finance/views.py:363-419 | one saveable and one bad row give one created, one skipped, and an error for row 3 |
| CsvImport.Surfaced | project5/finance/views.py:425-426 | at most the first five errors are shown, as a prefix of the list |
| CsvExport.CategoryText | project5/finance/views.py:464 | the category cell is the category's name, or empty without one |
| CsvExport.ExportRow | project5/finance/views.py:460-470 | a record has one cell per header column |
| CsvExport.ExportCsv | project5/finance/views.py:459-470 | the header comes first, then one record per transaction in queryset order |
| CsvExport.JsonAgreesWithCsv | project5/finance/views.py:439-470 | JSON and CSV carry the same fields, a missing category being `null` against an empty cell, and the same amount |
| CsvExport.AccountResolvesBack | project5/finance/views.py:380-385 | an exported account name resolves back to its account |
| CsvExport.CategoryResolvesBack | project5/finance/views.py:387-394 | an exported expense category resolves back; an income category is refused |
| CsvExport.ReadFormattedAmount | project5/finance/views.py:370-378 | a printed amount reads back as the same cents |
| CsvExport.LedgerCentsBack | project5/finance/models.py:226-230 | any stored amount passes the amount validators again and converts to itself |
| CsvExport.ExportImportRoundTrip | project5/finance/views.py:345-470 | an exported expense or uncategorised transaction parses back as itself under the default columns, the default category filling a blank category |
| CsvExport.UncategorisedReimport | project5/finance/models.py:222-224 | with no default category, an exported uncategorised transaction parses back but its save is refused as written with the blank-category error; the corrected save stores it |
| CsvExport.IncomeRecordRefused | project5/finance/views.py:391-392 | an exported income transaction does not import back; the error names its category |
| CsvExport.ExportParsesBack | project5/finance/views.py:345-470 | a whole export, header included, parses back record by record |
| Exchange.GetExchangeRate | project5/finance/utils.py:14-41 | same currency is 1 with the cache untouched; a fresh hit returns the cached rate; the cache changes only to store a positive fetched rate under the ordered pair |
| Exchange.RateSources | project5/finance/utils.py:14-41 | the rate is 1, the positive fetched rate, or a rate already in the cache |
| Exchange.SameCurrencyNeedsNothing | project5/finance/utils.py:15-18 | equal currencies, in any case, give 1 whatever the cache, clock and lookup |
| Exchange.FreshHitNeedsNoLookup | project5/finance/utils.py:20-24 | a fresh entry decides the answer whatever the lookup would return |
| Exchange.CacheHoldsPositiveRates | project5/finance/utils.py:34-37 | the cache keeps only positive rates and changes at most the requested ordered pair |
| Exchange.UnusableLookupFallsBack | project5/finance/utils.py:26-41 | a failed or non-positive lookup gives 1 and leaves the cache as it was |
| Exchange.ConvertAmount | project5/finance/utils.py:44-46 | the result has two places; it is exactly amount·rate when that needs no rounding, and otherwise the nearest cent count with an exact half cent going to the even one; the cache is as the rate lookup left it |
| Exchange.ConvertToSameCurrency | project5/finance/utils.py:44-46 | converting a two-place amount to its own currency returns it unchanged |
| Decimals.ParseDecimal | project5/finance/views.py:378 | the parsed value's places lie within the stripped text, and only a leading minus makes it negative |
| Decimals.FormatCentsRoundTrip | project5/finance/views.py:465 | a printed two-place amount parses back to the same decimal |
| Decimals.MoneyErrors | project5/finance/models.py:226-230 | an amount passes iff it has at most 12 digits with 2 places and is at least 0.01 |
| Decimals.FitsMoneyIff | project5/finance/models.py:226-228 | the digit validator passes iff there are at most two places and ten whole digits |
| Decimals.ValidMoneyCents | project5/finance/models.py:226-230 | a valid amount is a whole number of cents from 1 to below 10^12 |
| Decimals.ToCents | project5/finance/models.py:226-230 | conversion to cents keeps the value |
| Decimals.QuantizeCents | project5/finance/utils.py:46 | quantising gives two places, keeps a value that already fits, and otherwise gives the nearest cent count, an exact half cent going to the even one |
| Decimals.RoundHalfEven | project5/finance/utils.py:46 | rounding lands within half a unit, and an exact tie goes to the even neighbour |
| Decimals.Mul | project5/finance/utils.py:46 | the product's value is the product of the values |
| Dates.DaysInMonth | project5/finance/models.py:153 | February has 29 days exactly in leap years and 28 otherwise; April, June, September and November have 30 |
| Dates.FirstOfMonth | project5/finance/models.py:152 | day 1 of the same month, not after the date |
| Dates.LastOfMonth | project5/finance/models.py:153-154 | the latest valid date of the same month |
| Dates.FirstDayMonthsAgo | project5/finance/views.py:486-492 | the first day of the month exactly `months` months earlier, wrapping years |
| Dates.NextMonth | project5/finance/views.py:702-705 | the first of the next month, December rolling over to January |
| Dashboard.ClampMonths | project5/finance/views.py:674-677 | months lies in 1..12; in-range values are kept, values outside clamp to the nearer end, and non-numbers take the default |
| Dashboard.ClampMonthsIdempotent | project5/finance/views.py:674-677 | clamping a clamped value changes nothing |
| Dashboard.Cashflow | project5/finance/views.py:673-705 | exactly `months` consecutive month labels ending with this month, each with that month's income and expense totals |
| Dashboard.EmptyMonthIsZero | project5/finance/views.py:698 | a month without transactions shows zero |
| Dashboard.SpendingStart | project5/finance/views.py:643-649 | the spending window starts on a first of the month and spans exactly the clamped number of months up to today |
| FormFields.CharField | project1/wiki/encyclopedia/forms.py:5-13 | the stripped value is accepted iff it is non-empty or optional, fits the maximum length, and the text holds no NUL character; each error says which rule failed, the length one first |
| FormFields.CharFieldStable | project1/wiki/encyclopedia/forms.py:15-16 | re-submitting a cleaned value gives the same result |
| Text.Strip | project1/wiki/encyclopedia/views.py:35 | stripping removes only whitespace at the ends and leaves none there |
| Text.StripIdempotent | project1/wiki/encyclopedia/forms.py:15-16 | stripping twice is the same as once |
| Text.StripKeepsNonSpace | project5/finance/views.py:365 | a character that is not whitespace is in the stripped text iff it is in the original |
| Text.FindIgnoringCase | project1/wiki/encyclopedia/views.py:40 | finds the first entry equal to the query ignoring case, or reports none |
| Text.AddUnmatched | project1/wiki/encyclopedia/views.py:58-62 | adding a title that matches none ignoring case keeps the titles free of case duplicates |
| Text.Split | project5/finance/views.py:403 | splitting always gives at least one piece, and no piece contains the separator |
| Relations.Toggle | project4/network/views.py:217-221 | toggling flips membership of the one pair and leaves every other pair as it was |
| Relations.ToggleTwice | project4/network/views.py:217-221 | two toggles restore the set |
| Relations.Into | project4/network/models.py:29-31 | the rows pointing at an object are exactly the pairs ending there |
| Relations.OutOf | project4/network/models.py:6-10 | the rows starting from an object are exactly the pairs starting there |
| Relations.ToggleInto | project4/network/views.py:217-221 | a toggle moves the target's count by one, up when added and down when removed, and no other count |
| Relations.ToggleOutOf | project4/network/views.py:260-273 | the same for the count starting from the pair's source |
| Auctions.TopBid | project2/commerce/auctions/models.py:49-57 | picks a bid of the highest amount; two accepted bids never tie, since each must beat the current price |
| Auctions.CurrentPrice | project2/commerce/auctions/models.py:49-52 | the starting bid with no bids; otherwise the maximum bid amount |
| Auctions.WinningBidder | project2/commerce/auctions/models.py:54-57 | no winner iff there are no bids; otherwise the bidder of a bid at the current price |
| Auctions.LastBidWins | project2/commerce/auctions/models.py:49-57 | with increasing bids the last bid is the price and its bidder the winner |
| Auctions.BidAmount | project2/commerce/auctions/forms.py:36-47 | a bid is accepted iff it parses and has at most 12 digits, 2 places, and at least 0.01; it is read as the same number of cents |
| Auctions.BidMinimumCoversCleanAmount | project2/commerce/auctions/forms.py:36-47 | the field minimum already refuses everything the "greater than zero" check would |
| Auctions.BidAmountReadsPrinted | project2/commerce/auctions/forms.py:36-41 | a price as printed, typed back in, reads as the same cents |
| Auctions.StartingBid | project2/commerce/auctions/forms.py:28-32 | a starting bid is accepted iff it fits 12 digits with 2 places and is greater than zero |
| Auctions.PositiveMoney | project2/commerce/auctions/forms.py:28-32 | a positive amount that fits the field is at least 0.01 |
| Auctions.BidIsValidStartingBid | project2/commerce/auctions/forms.py:28-47 | any accepted bid is also an accepted starting bid of the same value |
| Auctions.ListingPost | project2/commerce/auctions/views.py:110-158 | an anonymous POST changes nothing and asks for login; any refused action leaves the listing unchanged |
| Auctions.Bidding | project2/commerce/auctions/views.py:117-135 | the bid action changes only the bids, and only when it succeeds |
| Auctions.Commenting | project2/commerce/auctions/views.py:137-147 | the comment action only appends comments, and only when it succeeds |
| Auctions.Closing | project2/commerce/auctions/views.py:149-158 | the close action changes only the active flag, and only when it succeeds |
| Auctions.BidRule | project2/commerce/auctions/views.py:117-135 | a bid is recorded iff the listing is open, the amount is valid and beats the current price; a closed listing says so |
| Auctions.CommentRule | project2/commerce/auctions/views.py:137-147 | a comment is recorded iff the listing is open and the text is not blank and holds no NUL |
| Auctions.CloseRule | project2/commerce/auctions/views.py:149-158 | only the owner closes, only an open listing, and closing changes nothing but the flag |
| Auctions.AcceptedBidLeads | project2/commerce/auctions/views.py:123-133 | an accepted bid becomes the new, higher price and its bidder the winner |
| Auctions.ListingPostOnlyAdds | project2/commerce/auctions/views.py:110-158 | a request only adds bids or comments or closes; a closed listing stays unchanged; the price never falls |
| Auctions.ListingPostKeepsIncreasing | project2/commerce/auctions/views.py:123-133 | one request keeps the bids strictly increasing above the starting bid |
| Auctions.AddHigherBid | project2/commerce/auctions/views.py:123-133 | appending a bid above the current price keeps the bids increasing |
| Auctions.ReplayKeepsIncreasing | project2/commerce/auctions/views.py:117-135 | any sequence of requests keeps the bids strictly increasing, the first above the starting bid |
| Auctions.ClosedIsFinal | project2/commerce/auctions/views.py:117-158 | no sequence of requests changes a closed listing, so nothing reopens it |
| Auctions.ReplayOnlyAdds | project2/commerce/auctions/views.py:110-158 | over any sequence of requests, bids and comments only grow and the price never falls |
| Auctions.ToggleWatchlist | project2/commerce/auctions/views.py:178-197 | only a signed-in POST on an existing listing flips the user's membership for that listing; everything else is left alone |
| Auctions.ToggleWatchlistTwice | project2/commerce/auctions/views.py:190-195 | two toggles restore the watchlists |
| Auctions.CategoryFor | project2/commerce/auctions/views.py:79-82 | a blank name means no category; otherwise the chosen category matches the name ignoring case, and at most one category is added |
| Auctions.CategoryForKeepsNamesDistinct | project2/commerce/auctions/models.py:14 | category names stay distinct ignoring case, respecting the unique name |
| Auctions.CategoryReused | project2/commerce/auctions/views.py:79-82 | an existing category in any spelling of case is reused and nothing is added |
| Auctions.ListingFormErrors | project2/commerce/auctions/forms.py:8-32 | the listing form is accepted iff each field accepts its value |
| Auctions.ListingFormAccepts | project2/commerce/auctions/forms.py:8-32 | the form needs a title of at most 128 characters, a description, a valid starting bid, and a category of at most 64 characters or none, with no NUL in any text |
| Auctions.CreateListing | project2/commerce/auctions/views.py:72-85 | a valid form makes an open listing owned by the user, with no bids, the given starting bid and the matched or new category; an invalid one reports the form errors |
| Auctions.NewListingIncreasing | project2/commerce/auctions/views.py:76-83 | a new listing satisfies the bid invariant and is priced at its starting bid |
| Network.CleanContent | project4/network/views.py:171-175 | content is accepted iff it is text whose stripped form is non-empty and at most 1024 characters; a false or missing value is empty; a true non-string value fails as not a string |
| Network.ContentStatus | project4/network/views.py:171-175 | a non-string content is a server error; every other refusal is a 400 |
| Network.CleanContentStable | project4/network/views.py:201-212 | cleaned content cleans to itself |
| Network.CreatePost | project4/network/views.py:162-178 | a post is created iff a signed-in user sends an object with valid content; an undecodable body, a non-object, or a true non-string content is a server error; otherwise nothing changes |
| Network.EditPost | project4/network/views.py:181-226 | a missing post is 404, an anonymous caller 401, and a refused request changes nothing; a non-object body is 403 for a non-author when it passes the `"content" in` test and a server error otherwise; no post is added or removed |
| Network.ApplyEdit | project4/network/views.py:212-221 | the accepted writes change at most this post's content and the caller's like |
| Network.OnlyAuthorEdits | project4/network/views.py:198-200 | an edit from anyone but the author is refused whole, like toggle included |
| Network.EditAccepted | project4/network/views.py:198-221 | an edit succeeds iff it only toggles the like, or comes from the author with valid content |
| Network.EditRule | project4/network/views.py:198-221 | an accepted edit sets the cleaned text, toggles the like when asked, and changes no other post |
| Network.SameTextWritesNothing | project4/network/views.py:212-215 | re-sending a post's own text writes nothing |
| Network.Serialize | project4/network/views.py:90-111 | `liked` and `can_edit` are true only for a signed-in liker or author, and the like count is the number of likes |
| Network.LikeToggleFlips | project4/network/views.py:217-221 | a like toggle flips `liked` and moves the count by one the same way; two toggles restore the site |
| Network.FindUser | project4/network/views.py:231 | finds a user with the name, or reports that none has it |
| Network.FindUserUnique | project4/network/views.py:255-256 | with unique usernames the lookup finds the one user of that name |
| Network.ToggleFollow | project4/network/views.py:253-275 | only a signed-in POST can change follows; a refused request changes nothing, and posts and likes are never touched |
| Network.SelfFollowRefused | project4/network/views.py:257-258 | following yourself is a 400 and changes nothing |
| Network.FollowRule | project4/network/views.py:260-275 | an accepted toggle flips exactly that follow and reports the new state and the target's counts |
| Network.ToggleFollowKeepsNoSelfFollow | project4/network/views.py:257-264 | the follow toggle never creates a self-follow |
| Network.ToggleFollowTwice | project4/network/views.py:260-267 | two follow toggles restore the site |
| Network.Profile | project4/network/views.py:229-250 | an unknown user is a 404; `is_self` iff the signed-in viewer has the name; `is_following` only for a signed-in viewer other than the user; the counts are the follow rows |
| Network.OwnProfile | project4/network/views.py:235-240 | your own profile shows self and not following |
| Network.FeedPosts | project4/network/views.py:125-141 | an unknown feed is 400 and "following" needs sign-in; the feed holds exactly the matching posts |
| Network.NumPages | project4/network/views.py:114-120 | at least one page, and just enough pages of 10 to hold every post |
| Network.PageNumber | project4/network/views.py:114-120 | the page is always within 1..num_pages; an out-of-range page falls back to the last page and a missing one to the first |
| Network.PageBounds | project4/network/views.py:114-120 | a page's slice lies within the feed and holds at most 10 posts |
| Network.ItemOnOnePage | project4/network/views.py:114-120 | every post lies on exactly one page |
| Network.PageFlags | project4/network/views.py:152-157 | there is a next page iff posts remain after this page, and a non-empty feed's page is non-empty |
| Wiki.GetEntry | project1/wiki/encyclopedia/views.py:19-20 | there is text iff the title is stored, and it is the stored text |
| Wiki.SaveEntry | project1/wiki/encyclopedia/views.py:62 | saving sets the title's text; a new title joins the listing once, and saving an existing title leaves the listing as it was |
| Wiki.SaveEntryKeepsConsistent | project1/wiki/encyclopedia/views.py:58-63 | saving keeps the listing and pages in agreement with no repeated title |
| Wiki.Entry | project1/wiki/encyclopedia/views.py:18-31 | a stored title shows its text; a missing one is the 404 naming it |
| Wiki.RandomEntry | project1/wiki/encyclopedia/views.py:92-103 | no entries is the 404; otherwise the pick is one of the titles |
| Wiki.EveryEntryCanComeUp | project1/wiki/encyclopedia/views.py:102 | every title can be the random pick |
| Wiki.Matching | project1/wiki/encyclopedia/views.py:44 | a title is listed iff it contains the query ignoring case |
| Wiki.Search | project1/wiki/encyclopedia/views.py:34-48 | a blank query goes to the index; a title equal ignoring case is opened; otherwise every title containing the query is listed |
| Wiki.ExactMatchFirst | project1/wiki/encyclopedia/views.py:39-42 | a case-insensitive exact match wins over the result list, and the first such title is opened |
| Wiki.ResultsOnlyWithoutExactMatch | project1/wiki/encyclopedia/views.py:39-44 | the result list is shown only when no title equals the query ignoring case |
| Wiki.ExactMatchContains | project1/wiki/encyclopedia/views.py:40-44 | an exact match also contains the query, so the order of the two checks matters |
| Wiki.NewEntryForm | project1/wiki/encyclopedia/forms.py:4-16 | the form is accepted iff the stripped title has 1 to 100 characters, the content is not blank, and neither holds a NUL; both come back stripped |
| Wiki.NewEntry | project1/wiki/encyclopedia/views.py:51-63 | an entry is created iff the form is valid and no title equals it ignoring case; it is then saved under the stripped title |
| Wiki.DuplicateTitleRefused | project1/wiki/encyclopedia/views.py:58-60 | a title matching an existing one ignoring case is refused |
| Wiki.NewEntryKeepsStore | project1/wiki/encyclopedia/views.py:58-63 | creating keeps the store consistent, free of case duplicates, and never overwrites a page |
| Wiki.EditEntry | project1/wiki/encyclopedia/views.py:70-89 | a missing title is the 404; a GET shows the text; a POST with non-blank, NUL-free content replaces only that title's text; titles never change |
| Wiki.EditEntryKeepsStore | project1/wiki/encyclopedia/views.py:70-85 | editing keeps the store consistent and its set of titles |

## Left out

- HTTP, templates, messages and redirects are left out. Each request returns
  an outcome value, and the flash-message texts are not modelled.
- Login, logout, registration and the `login_required` redirect targets are
  left out. `UserRegistrationForm.clean_email` is modelled; the rest of
  those views is plain framework plumbing.
- The database is left out:
  - Querysets are maps, sets, or sequences given in their `order_by` order.
  - `db_transaction.atomic()` and the `F()` update are a single sequential
    step, since the model has no concurrency.
  - `refresh_from_db` is implicit.
- `float(...)` is left out. The budget percentage is an exact real, and the
  JSON export's amount is the exact real value of the cents.
- The CSV file's bytes are left out:
  - UTF-8 decoding and its error path;
  - `csv.DictReader` quoting and dialect handling.
  
  The model starts from the header and the records already split into cells.
- `strptime` with the user's date format is a function parameter. The formats
  themselves are not modelled.
- `random.choice` is a `pick` parameter.
- Markdown rendering of wiki pages is left out. `encyclopedia/util.py` is not
  part of this model: the entry store is an abstract listing plus page map,
  saved as `save_entry` is used.
- Listing order:
  - The model does not fix the order of `list_entries()`.
  - The model does not fix the order of the export queryset (`build_transaction_queryset` and its filter form).
  - In both cases the order is whatever the given sequence is.
- The transaction list filter, the category list type filter, the dashboard
  summary and accounts endpoints, and the spending endpoint's per-category
  totals are outside the modelled core. `Dashboard.SpendingStart` models only
  that endpoint's window.
- The `delete` method after `TransactionExportView.get` (views.py:476-478) is
  left out. That class is a plain `View` and nothing routes a delete to it.
- Auction image URLs (`URLField` validation) and the watchlist, category and
  index listing pages are left out.
- Decimals.ParseDecimal: reads the plain notation only. Exponents (`1e3`),
  `NaN`, `Infinity` and underscores in digits, which Python's `Decimal`
  also accepts, are read as errors.
- Decimals.Mul: exact. The 28-digit context precision of Python's `Decimal`
  is not modelled.
- Text.Lower: maps ASCII letters only. Python's `str.lower` maps every cased
  Unicode letter. The same holds for `Text.Upper`.
- Dates.DaysInMonth: dates have no upper year bound. Python's dates stop at
  year 9999, so a Python overflow at year 9999 is not modelled.
- Dashboard.Cashflow: requires the window to start in year 1 or later.
  Stepping back before year 1 raises a server error in Python, which is not
  modelled. The same holds for `Dates.FirstDayMonthsAgo` and
  `Dashboard.SpendingStart`.
- Network.PageNumber: a page parameter that is not an integer raises
  `PageNotAnInteger`, which the view does not catch. It is modelled as `None`
  (a server error) without a status code.
- Wiki.Matching: states which titles are listed, not that they keep the
  listing order. The definition keeps that order, but the contract does not
  say so. The same holds for the result list of `Wiki.Search`.
- CsvExport.ExportRow: covers non-negative amounts only. Saving refuses any
  amount below 0.01, so negative amounts never reach the export.
- Ledger.Step: its contract keeps only the foreign keys valid. The balance
  invariant is stated separately by `Ledger.StepPreservesInv` and
  `Ledger.RunPreservesInv`.
- Ledger.StepPreservesInv: as written, it excludes the change of type of a
  category in use, because that request breaks the invariant
  (`Ledger.AsWrittenStepBreaksInv`).
- Ledger.RunPreservesInv: covers the corrected rules only. As written, a
  sequence containing the retype of a used category ends inconsistent.
- Ledger.EmptyLedgerConsistent: covers the corrected rules only. The
  as-written break is shown as one step from a consistent ledger
  (`Ledger.AsWrittenStepBreaksInv`), not as a run from the empty ledger.
- Ledger.DeleteCategory: follows the `delete` override of
  `CategoryDeleteView` (views.py:181-190). A POST reaches that override on
  Django before 4.0, and the code names no version. From Django 4.0 on,
  `DeleteView` deletes through `form_valid` and the guard never runs. Then
  child categories are removed by `CASCADE` (models.py:78), and transactions
  lose their category by `SET_NULL` (models.py:223) with no rebalancing, so
  an expense transaction turns into income. That path is not modelled.
- Ledger.DeleteAccount: follows the `delete` override of `AccountDeleteView`
  (views.py:127-133), under the same pre-4.0 assumption. From Django 4.0 on,
  an account with transactions hits `on_delete=PROTECT` (models.py:220)
  instead, a server error that leaves the same state.
- Ledger.CreateAccount: a name the user already has passes the form and
  fails at save with `IntegrityError`, a server error. The model returns
  the `DuplicateName` error with the ledger unchanged. The same holds for
  `Ledger.EditAccount`, and for `Ledger.CreateCategory` and the category
  edits with `DuplicateCategory`.
- Ledger.SubmitTransaction: the form's text fields (`currency`, `description`,
  `notes`, `tags`) also refuse a NUL character, which the model does not check.
  A submission naming no existing account makes `Transaction.clean` raise
  (a server error). The model refuses it with the field errors instead.
- FormFields.CharField: when a value is both too long and holds a NUL,
  Django reports both messages. The model reports the length error only.

## Findings

| source | as written | input that shows it | evidently intended | confidence | as-written member | corrected member |
|---|---|---|---|---|---|---|
| project5/finance/models.py:222-224 | `Transaction.category` is `null=True` without `blank=True`, so the `full_clean` in `save` (line 294) refuses a transaction with no category | an account owner saves a 12.50 transaction with the category left empty, which `TransactionForm` allows (forms.py:115) and `is_expense` treats as income; or a CSV row with a blank category and no default category | an optional category: uncategorised transactions are saved and count as income | not executed | Ledger.FullCleanAsWritten, Ledger.UncategorisedRefusedAsWritten, Ledger.SaveErrors, CsvExport.UncategorisedReimport | Ledger.FullClean, Ledger.CreateTransaction, CsvImport.SaveRow |
| project5/finance/models.py:92-100 | editing a category's type through `CategoryForm` (forms.py:66-84) is accepted while transactions use it, and no account is rebalanced | one account opened with 1000.00 receives a 500.00 income under "Salary" (balance 1500.00); "Salary" is edited to EXPENSE; the signed sum is now -500.00 while the balance stays 1500.00 | the balance invariant holds across category edits: a type change is refused while transactions point at the category | not executed | Ledger.EditCategoryAsWritten, Ledger.RetypingCategoryBreaksBalances, Ledger.AsWrittenStepBreaksInv | Ledger.EditCategory, Ledger.EditCategoryPreservesInv, Ledger.CorrectedStepRefusesRetype |
| project5/finance/views.py:89-91 | the owner is assigned in `form_valid` (and in the forms' `save`, forms.py:78-81, 258-262), after `is_valid()` has run the model's `clean()`; `BaseUserModelForm` only keeps the user aside (forms.py:36-37), so `clean()` sees `user_id` None | any transaction submitted on the create page ("Account must belong to the same user"); a new sub-category of one's own category (models.py:96); a new budget that names a category (models.py:139) | the owner is set on the instance before validation, so one's own account, parent and category pass | not executed | Ledger.TransactionFormRefusedAsWritten, Ledger.SubcategoryRefusedAsWritten, FinanceForms.ChosenCategoryRefusedOnCreate | Ledger.SubmitTransaction, Ledger.CreateCategory, FinanceForms.ChosenCategoryPassesBudgetClean |
