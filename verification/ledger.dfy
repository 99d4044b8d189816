/**
 * The finance application's ledger: accounts, categories, transactions and
 * budgets as tables keyed by id, the validation `Model.full_clean` performs
 * before a transaction is saved, and the balance bookkeeping of
 * `Transaction.save`/`delete` and `AccountForm.save`.
 *
 * Amounts are integer cents (`DecimalField(max_digits=12, decimal_places=2)`
 * holds exactly the integers of cents below 10^12 in magnitude).
 *
 * The central invariant: for every account,
 *   current balance == initial balance + Σ signed amounts of its transactions.
 */
module Ledger {
  import opened Wrappers
  import opened Text
  import opened Dates
  import opened MapSums

  type UserId = nat
  type AccountId = nat
  type CategoryId = nat
  type TxnId = nat
  type BudgetId = nat

  /** One more than the largest amount in cents that 12 digits with 2 decimal places hold. */
  const AmountBound: int := 1_000_000_000_000

  datatype AccountType = Asset | Liability
  datatype CategoryType = Income | Expense
  datatype Interval = NoRepeat | Daily | Weekly | Monthly | Yearly
  datatype Period = MonthlyPeriod | YearlyPeriod | CustomPeriod

  datatype Account = Account(
    user: UserId, name: string, kind: AccountType, currency: string,
    initial: int, current: int)

  datatype Category = Category(user: UserId, name: string, kind: CategoryType, parent: Option<CategoryId>)

  datatype Transaction = Transaction(
    user: UserId, account: AccountId, category: Option<CategoryId>, date: Date, amount: int,
    currency: string, description: string, notes: string, tags: string,
    recurring: bool, interval: Interval, recurrenceEnd: Option<Date>)

  datatype Budget = Budget(
    user: UserId, name: string, category: Option<CategoryId>, amount: int,
    period: Period, start: Date, end: Option<Date>)

  datatype Ledger = Ledger(
    accounts: map<AccountId, Account>,
    categories: map<CategoryId, Category>,
    txns: map<TxnId, Transaction>,
    budgets: map<BudgetId, Budget>)

  /** Where the code and its evident intent part ways, which of the two an
      operation follows: `AsWritten` is the program as it stands, `Corrected`
      the behaviour its other parts assume. The three places are the blank
      category that `full_clean` refuses, the owner a form's instance lacks
      while it is validated, and the unguarded change of a category's type. */
  datatype Rules = AsWritten | Corrected

  /** The owner a new instance carries while its form validates it. As
      written, `UserQuerySetMixin.form_valid` and the forms' `save` assign the
      requesting user only after `is_valid()`, so the model's `clean()` sees
      no owner at all; corrected, the owner is assigned first. A row being
      edited always carries its owner. */
  function ValidationOwner(rules: Rules, user: UserId): (r: Option<UserId>)
    ensures r.None? <==> rules == AsWritten
    ensures r.Some? ==> r.value == user
  {
    if rules == AsWritten then None else Some(user)
  }

  // ---------------------------------------------------------------------
  // Signed amounts and the balance invariant
  // ---------------------------------------------------------------------

  /** The type of the category a transaction points at, if it has one. */
  function KindOf(cats: map<CategoryId, Category>, c: Option<CategoryId>): Option<CategoryType> {
    if c.Some? && c.value in cats then Some(cats[c.value].kind) else None
  }

  /** `Transaction.is_expense`: only an expense category makes a transaction an expense. */
  predicate IsExpense(cats: map<CategoryId, Category>, t: Transaction) {
    KindOf(cats, t.category) == Some(Expense)
  }

  /** `Transaction.signed_amount()`. */
  function Signed(cats: map<CategoryId, Category>, t: Transaction): int {
    if IsExpense(cats, t) then -t.amount else t.amount
  }

  /** For a positive amount the sign tells the two cases apart: negative exactly
      for an existing expense category, positive for income and for no category. */
  lemma SignedAmountSign(cats: map<CategoryId, Category>, t: Transaction)
    requires t.amount > 0
    ensures Signed(cats, t) < 0 <==> t.category.Some? && t.category.value in cats && cats[t.category.value].kind == Expense
    ensures t.category.None? ==> Signed(cats, t) == t.amount
    ensures Signed(cats, t) == t.amount || Signed(cats, t) == -t.amount
  {
  }

  /** What one transaction contributes to the balance of account `a`. */
  function Contribution(cats: map<CategoryId, Category>, a: AccountId): Transaction -> int {
    (t: Transaction) => if t.account == a then Signed(cats, t) else 0
  }

  /** Σ signed amounts of the transactions on account `a`. */
  ghost function AccountTotal(l: Ledger, a: AccountId): int {
    SumOver(l.txns, Contribution(l.categories, a))
  }

  ghost predicate BalancesConsistent(l: Ledger) {
    forall a :: a in l.accounts ==> l.accounts[a].current == l.accounts[a].initial + AccountTotal(l, a)
  }

  /** Foreign keys point at existing rows (what the database guarantees). */
  predicate ReferencesValid(l: Ledger) {
    && (forall k :: k in l.txns ==> l.txns[k].account in l.accounts)
    && (forall k :: k in l.txns && l.txns[k].category.Some? ==> l.txns[k].category.value in l.categories)
    && (forall k :: k in l.categories && l.categories[k].parent.Some? ==> l.categories[k].parent.value in l.categories)
    && (forall k :: k in l.budgets && l.budgets[k].category.Some? ==> l.budgets[k].category.value in l.categories)
  }

  ghost predicate Inv(l: Ledger) {
    ReferencesValid(l) && BalancesConsistent(l)
  }

  /** `adjust_account_balance(account, delta)`. */
  function Adjust(accounts: map<AccountId, Account>, a: AccountId, delta: int): (r: map<AccountId, Account>)
    requires a in accounts
    ensures r.Keys == accounts.Keys
    ensures r[a].current == accounts[a].current + delta
    ensures r[a] == accounts[a].(current := r[a].current)
    ensures forall x :: x in accounts && x != a ==> r[x] == accounts[x]
  {
    accounts[a := accounts[a].(current := accounts[a].current + delta)]
  }

  // ---------------------------------------------------------------------
  // Transaction validation (`Model.full_clean` as `Transaction.save` calls it)
  // ---------------------------------------------------------------------

  datatype TxnError =
    | UnknownAccount
    | UnknownCategory
    | CategoryBlank
    | AmountBelowMinimum
    | AmountTooLarge
    | CurrencyTooLong
    | DescriptionTooLong
    | TagsTooLong
    | AccountOfOtherUser
    | CategoryOfOtherUser
    | IntervalRequired
    | EndBeforeDate

  /** Everything `full_clean` demands of a transaction, stated positively. */
  predicate TransactionValid(l: Ledger, t: Transaction) {
    && t.account in l.accounts
    && l.accounts[t.account].user == t.user
    && (t.category.Some? ==> t.category.value in l.categories && l.categories[t.category.value].user == t.user)
    && 1 <= t.amount < AmountBound
    && |t.currency| <= 3
    && |t.description| <= 255
    && |t.tags| <= 255
    && !(t.recurring && t.interval == NoRepeat)
    && (t.interval != NoRepeat && t.recurrenceEnd.Some? ==> !Less(t.recurrenceEnd.value, t.date))
  }

  function When(b: bool, e: TxnError): seq<TxnError> {
    if b then [e] else []
  }

  /** `Transaction.clean` on an instance whose owner is `owner`: the first
      rule that fails, if any. */
  function CleanError(l: Ledger, owner: Option<UserId>, t: Transaction): (r: Option<TxnError>)
    requires t.account in l.accounts
    ensures r.None? <==>
      && owner == Some(l.accounts[t.account].user)
      && (t.category.Some? && t.category.value in l.categories ==> owner == Some(l.categories[t.category.value].user))
      && !(t.recurring && t.interval == NoRepeat)
      && (t.interval != NoRepeat && t.recurrenceEnd.Some? ==> !Less(t.recurrenceEnd.value, t.date))
    ensures owner.None? ==> r == Some(AccountOfOtherUser)
    ensures r == Some(EndBeforeDate) ==> t.interval != NoRepeat
  {
    if owner != Some(l.accounts[t.account].user) then Some(AccountOfOtherUser)
    else if t.category.Some? && t.category.value in l.categories && owner != Some(l.categories[t.category.value].user) then
      Some(CategoryOfOtherUser)
    else if t.recurring && t.interval == NoRepeat then Some(IntervalRequired)
    else if t.interval != NoRepeat && t.recurrenceEnd.Some? && Less(t.recurrenceEnd.value, t.date) then Some(EndBeforeDate)
    else None
  }

  /** The field checks of `clean_fields`, category optional. */
  function FieldErrors(l: Ledger, t: Transaction): (errs: seq<TxnError>)
    ensures errs == [] <==>
      && t.account in l.accounts
      && (t.category.Some? ==> t.category.value in l.categories)
      && 1 <= t.amount < AmountBound
      && |t.currency| <= 3 && |t.description| <= 255 && |t.tags| <= 255
    ensures AccountOfOtherUser !in errs
  {
    When(t.account !in l.accounts, UnknownAccount)
    + When(t.category.Some? && t.category.value !in l.categories, UnknownCategory)
    + When(t.amount < 1, AmountBelowMinimum)
    + When(t.amount >= AmountBound, AmountTooLarge)
    + When(|t.currency| > 3, CurrencyTooLong)
    + When(|t.description| > 255, DescriptionTooLong)
    + When(|t.tags| > 255, TagsTooLong)
  }

  /** Field checks then `clean()`, with the category optional as the form and
      `is_expense` treat it. Errors are collected, not short-circuited. */
  function FullClean(l: Ledger, t: Transaction): (errs: seq<TxnError>)
    ensures errs == [] <==> TransactionValid(l, t)
    ensures t.account !in l.accounts ==> UnknownAccount in errs
    ensures t.amount < 1 ==> AmountBelowMinimum in errs
  {
    FieldErrors(l, t)
    + (if t.account in l.accounts && CleanError(l, Some(t.user), t).Some? then [CleanError(l, Some(t.user), t).value] else [])
  }

  /** `full_clean` exactly as declared: the category foreign key has `null=True`
      but not `blank=True`, so a transaction without a category is refused. */
  function FullCleanAsWritten(l: Ledger, t: Transaction): (errs: seq<TxnError>)
    ensures errs == [] <==> TransactionValid(l, t) && t.category.Some?
    ensures t.category.None? ==> CategoryBlank in errs
  {
    When(t.category.None?, CategoryBlank) + FullClean(l, t)
  }

  /** An uncategorised transaction that the form accepts and `is_expense` reads
      as income: the declared field rules refuse it, the intended ones do not. */
  lemma UncategorisedRefusedAsWritten(d: Date)
    ensures
      var l := Ledger(map[1 := Account(7, "Cash", Asset, "USD", 0, 0)], map[], map[], map[]);
      var t := Transaction(7, 1, None, d, 1250, "USD", "", "", "", false, NoRepeat, None);
      && FullCleanAsWritten(l, t) == [CategoryBlank]
      && FullClean(l, t) == []
      && Signed(l.categories, t) == 1250
  {
  }

  /** `(currency or "USD").upper()` in `Transaction.save`. */
  function NormalizeCurrency(c: string): (r: string)
    ensures c == [] ==> r == "USD"
    ensures c != [] ==> |r| == |c| && forall i :: 0 <= i < |c| ==> r[i] == UpperChar(c[i])
  {
    Upper(if c == [] then "USD" else c)
  }

  lemma NormalizeCurrencyIdempotent(c: string)
    ensures NormalizeCurrency(NormalizeCurrency(c)) == NormalizeCurrency(c)
  {
    var r := NormalizeCurrency(c);
    assert r != [];
    var rr := NormalizeCurrency(r);
    assert |rr| == |r|;
    forall i | 0 <= i < |r| ensures rr[i] == r[i] {
      if c == [] {
        assert r[i] == UpperChar("USD"[i]);
      }
    }
  }

  function Normalized(t: Transaction): Transaction {
    t.(currency := NormalizeCurrency(t.currency))
  }

  /** What `Transaction.save` accepts: every rule, and as written also a category. */
  predicate Saveable(rules: Rules, l: Ledger, t: Transaction) {
    TransactionValid(l, t) && (rules == AsWritten ==> t.category.Some?)
  }

  /** The `full_clean` that `Transaction.save` runs. */
  function SaveErrors(rules: Rules, l: Ledger, t: Transaction): (errs: seq<TxnError>)
    ensures errs == [] <==> Saveable(rules, l, t)
    ensures rules == AsWritten && t.category.None? ==> CategoryBlank in errs
  {
    if rules == AsWritten then FullCleanAsWritten(l, t) else FullClean(l, t)
  }

  // ---------------------------------------------------------------------
  // Transaction.save / Transaction.delete
  // ---------------------------------------------------------------------

  /** Saving a new transaction: normalise the currency, validate, store, and add
      its signed amount to its account. Nothing changes when validation fails
      (`save` raises: the import reports the row, a view request fails). */
  function CreateTransaction(rules: Rules, l: Ledger, id: TxnId, t: Transaction): (r: Result<Ledger, seq<TxnError>>)
    requires id !in l.txns
    ensures r.Err? <==> !Saveable(rules, l, Normalized(t))
    ensures r.Err? ==> r.error != []
    ensures r.Ok? ==>
      && r.value.txns == l.txns[id := Normalized(t)]
      && r.value.categories == l.categories && r.value.budgets == l.budgets
      && r.value.accounts.Keys == l.accounts.Keys
      && (forall a :: a in l.accounts ==>
            r.value.accounts[a] == l.accounts[a].(current := l.accounts[a].current
              + (if a == t.account then Signed(l.categories, t) else 0)))
    ensures r.Ok? && ReferencesValid(l) ==> ReferencesValid(r.value)
  {
    var n := Normalized(t);
    var errs := SaveErrors(rules, l, n);
    if errs != [] then Err(errs)
    else Ok(l.(txns := l.txns[id := n], accounts := Adjust(l.accounts, n.account, Signed(l.categories, n))))
  }

  /** `TransactionCreateView`: the form runs `Transaction.clean` on the new
      instance, then `form_valid` assigns the owner and saves. As written the
      instance has no owner during validation, so no account ever matches and
      every submission is refused; corrected, it is the save above. */
  function SubmitTransaction(rules: Rules, l: Ledger, id: TxnId, user: UserId, t: Transaction): (r: Result<Ledger, seq<TxnError>>)
    requires id !in l.txns
    ensures rules == AsWritten ==> r.Err?
    ensures rules == AsWritten && t.account in l.accounts ==> AccountOfOtherUser in r.error
    ensures rules == Corrected ==> (r.Ok? <==> TransactionValid(l, Normalized(t.(user := user))))
    ensures r.Ok? ==> r == CreateTransaction(rules, l, id, t.(user := user))
  {
    var owner := ValidationOwner(rules, user);
    if t.account in l.accounts && CleanError(l, owner, t).Some? then
      Err(FieldErrors(l, t) + [CleanError(l, owner, t).value])
    else CreateTransaction(rules, l, id, t.(user := user))
  }

  /** Whatever a user submits to create a transaction, the program refuses it,
      while the corrected order of assignment accepts every valid one. */
  lemma TransactionFormRefusedAsWritten(l: Ledger, id: TxnId, user: UserId, t: Transaction)
    requires id !in l.txns && TransactionValid(l, Normalized(t.(user := user)))
    ensures SubmitTransaction(AsWritten, l, id, user, t) == Err([AccountOfOtherUser])
    ensures SubmitTransaction(Corrected, l, id, user, t) == CreateTransaction(Corrected, l, id, t.(user := user))
    ensures SubmitTransaction(Corrected, l, id, user, t).Ok?
  {
    var n := Normalized(t.(user := user));
    assert |t.currency| <= 3 by {
      if t.currency != [] { assert |n.currency| == |t.currency|; }
    }
    assert FieldErrors(l, t) == [];
    assert CleanError(l, None, t) == Some(AccountOfOtherUser);
    assert ValidationOwner(AsWritten, user) == None;
    assert SubmitTransaction(AsWritten, l, id, user, t) == Err([] + [AccountOfOtherUser]);
    assert [] + [AccountOfOtherUser] == [AccountOfOtherUser];
    assert CleanError(l, Some(user), t).None?;
  }

  /** Saving an existing transaction: the stored version is read first; within
      one account only the difference is applied (and nothing is written when it
      is zero); across accounts the old account gives back the old signed amount
      and the new account receives the new one. */
  function UpdateTransaction(rules: Rules, l: Ledger, id: TxnId, t: Transaction): (r: Result<Ledger, seq<TxnError>>)
    requires id in l.txns && ReferencesValid(l)
    ensures r.Err? <==> !Saveable(rules, l, Normalized(t))
    ensures r.Ok? ==>
      && r.value.txns == l.txns[id := Normalized(t)]
      && r.value.categories == l.categories && r.value.budgets == l.budgets
      && r.value.accounts.Keys == l.accounts.Keys
      && (forall a :: a in l.accounts ==>
            r.value.accounts[a] == l.accounts[a].(current := l.accounts[a].current
              - (if a == l.txns[id].account then Signed(l.categories, l.txns[id]) else 0)
              + (if a == t.account then Signed(l.categories, t) else 0)))
    ensures r.Ok? && t.account == l.txns[id].account && Signed(l.categories, t) == Signed(l.categories, l.txns[id]) ==>
      r.value.accounts == l.accounts
    ensures r.Ok? ==> ReferencesValid(r.value)
  {
    var prev := l.txns[id];
    var n := Normalized(t);
    var errs := SaveErrors(rules, l, n);
    if errs != [] then Err(errs)
    else
      Ok(l.(txns := l.txns[id := n],
            accounts := Rebalance(l.accounts, prev.account, Signed(l.categories, prev), n.account, Signed(l.categories, n))))
  }

  /** The balance update of an edited transaction: the old signed amount
      leaves the old account and the new one enters the new account; an
      unchanged account whose signed amount did not change is left alone. */
  function Rebalance(accounts: map<AccountId, Account>, from: AccountId, sPrev: int, to: AccountId, sNew: int)
    : (r: map<AccountId, Account>)
    requires from in accounts && to in accounts
    ensures r.Keys == accounts.Keys
    ensures forall a :: a in accounts ==>
      r[a] == accounts[a].(current := accounts[a].current
        - (if a == from then sPrev else 0) + (if a == to then sNew else 0))
    ensures from == to && sPrev == sNew ==> r == accounts
  {
    if from == to then
      var delta := sNew - sPrev;
      if delta != 0 then Adjust(accounts, to, delta) else accounts
    else Adjust(Adjust(accounts, from, -sPrev), to, sNew)
  }

  /** `Transaction.delete`: give the signed amount back, then remove the row. */
  function DeleteTransaction(l: Ledger, id: TxnId): (r: Ledger)
    requires id in l.txns && ReferencesValid(l)
    ensures r.txns == l.txns - {id}
    ensures r.categories == l.categories && r.budgets == l.budgets
    ensures r.accounts.Keys == l.accounts.Keys
    ensures forall a :: a in l.accounts ==>
      r.accounts[a] == l.accounts[a].(current := l.accounts[a].current
        - (if a == l.txns[id].account then Signed(l.categories, l.txns[id]) else 0))
    ensures ReferencesValid(r)
  {
    var t := l.txns[id];
    l.(accounts := Adjust(l.accounts, t.account, -Signed(l.categories, t)), txns := l.txns - {id})
  }

  /** Creating a transaction and deleting it again restores the ledger exactly. */
  lemma CreateThenDelete(rules: Rules, l: Ledger, id: TxnId, t: Transaction)
    requires id !in l.txns && ReferencesValid(l)
    requires CreateTransaction(rules, l, id, t).Ok?
    ensures DeleteTransaction(CreateTransaction(rules, l, id, t).value, id) == l
  {
    var l1 := CreateTransaction(rules, l, id, t).value;
    var l2 := DeleteTransaction(l1, id);
    CreateThenDeleteAccounts(rules, l, id, t);
    assert l1.txns == l.txns[id := Normalized(t)];
    assert l.txns[id := Normalized(t)] - {id} == l.txns;
    assert l2.txns == l.txns && l2.categories == l.categories && l2.budgets == l.budgets;
  }

  lemma CreateThenDeleteAccounts(rules: Rules, l: Ledger, id: TxnId, t: Transaction)
    requires id !in l.txns && ReferencesValid(l)
    requires CreateTransaction(rules, l, id, t).Ok?
    ensures DeleteTransaction(CreateTransaction(rules, l, id, t).value, id).accounts == l.accounts
  {
    var l1 := CreateTransaction(rules, l, id, t).value;
    var l2 := DeleteTransaction(l1, id);
    assert Signed(l1.categories, l1.txns[id]) == Signed(l.categories, t);
    forall a | a in l.accounts
      ensures l2.accounts[a] == l.accounts[a]
    {
      assert l1.accounts[a].current == l.accounts[a].current + (if a == t.account then Signed(l.categories, t) else 0);
    }
    assert l2.accounts.Keys == l.accounts.Keys;
  }

  // ---------------------------------------------------------------------
  // The invariant is preserved by the transaction operations
  // ---------------------------------------------------------------------

  lemma CreatePreservesInv(rules: Rules, l: Ledger, id: TxnId, t: Transaction)
    requires id !in l.txns && Inv(l)
    ensures CreateTransaction(rules, l, id, t).Ok? ==> Inv(CreateTransaction(rules, l, id, t).value)
  {
    var r := CreateTransaction(rules, l, id, t);
    if r.Ok? {
      var l1 := r.value;
      var n := Normalized(t);
      forall a | a in l1.accounts
        ensures l1.accounts[a].current == l1.accounts[a].initial + AccountTotal(l1, a)
      {
        SumInsert(l.txns, Contribution(l.categories, a), id, n);
      }
    }
  }

  lemma UpdatePreservesInv(rules: Rules, l: Ledger, id: TxnId, t: Transaction)
    requires id in l.txns && Inv(l)
    ensures UpdateTransaction(rules, l, id, t).Ok? ==> Inv(UpdateTransaction(rules, l, id, t).value)
  {
    var r := UpdateTransaction(rules, l, id, t);
    if r.Ok? {
      var l1 := r.value;
      forall a | a in l1.accounts
        ensures l1.accounts[a].current == l1.accounts[a].initial + AccountTotal(l1, a)
      {
        UpdateKeepsAccountBalanced(rules, l, id, t, a);
      }
    }
  }

  /** One account's balance after an accepted update: its stored balance and
      its transactions' sum both move by the old row's share out and the new
      row's share in. */
  lemma UpdateKeepsAccountBalanced(rules: Rules, l: Ledger, id: TxnId, t: Transaction, a: AccountId)
    requires id in l.txns && ReferencesValid(l) && a in l.accounts
    requires l.accounts[a].current == l.accounts[a].initial + AccountTotal(l, a)
    requires UpdateTransaction(rules, l, id, t).Ok?
    ensures var l1 := UpdateTransaction(rules, l, id, t).value;
      l1.accounts[a].current == l1.accounts[a].initial + AccountTotal(l1, a)
  {
    var l1 := UpdateTransaction(rules, l, id, t).value;
    var n := Normalized(t);
    assert Signed(l.categories, n) == Signed(l.categories, t);
    assert l1.txns == l.txns[id := n] && l1.categories == l.categories;
    ReplaceShifts(l, id, n, a);
  }

  /** Replacing one row moves an account's sum by that row's old share out
      and its new share in. */
  lemma ReplaceShifts(l: Ledger, id: TxnId, n: Transaction, a: AccountId)
    requires id in l.txns
    ensures AccountTotal(l.(txns := l.txns[id := n]), a) == AccountTotal(l, a)
      - (if l.txns[id].account == a then Signed(l.categories, l.txns[id]) else 0)
      + (if n.account == a then Signed(l.categories, n) else 0)
  {
    SumReplace(l.txns, Contribution(l.categories, a), id, n);
  }

  lemma DeletePreservesInv(l: Ledger, id: TxnId)
    requires id in l.txns && Inv(l)
    ensures Inv(DeleteTransaction(l, id))
  {
    var l1 := DeleteTransaction(l, id);
    forall a | a in l1.accounts
      ensures l1.accounts[a].current == l1.accounts[a].initial + AccountTotal(l1, a)
    {
      SumRemove(l.txns, Contribution(l.categories, a), id);
    }
  }

  // ---------------------------------------------------------------------
  // Accounts (`Account.save`, `AccountForm.save`, the delete guard)
  // ---------------------------------------------------------------------

  datatype AccountError =
    | NameBlank | NameTooLong | NameHasNull | AccountCurrencyBlank | AccountCurrencyTooLong | CurrencyHasNull
    | InitialNegative | InitialTooLarge | DuplicateName
    | AccountNotFound | HasTransactions

  /** The fields `AccountForm` edits; text fields arrive unstripped. */
  datatype AccountInput = AccountInput(name: string, kind: AccountType, currency: string, initial: int)

  /** Another account of the same user already has this name. */
  predicate NameTaken(l: Ledger, user: UserId, name: string, self: Option<AccountId>) {
    exists k :: k in l.accounts && Some(k) != self && l.accounts[k].user == user && l.accounts[k].name == name
  }

  /** What `AccountForm` checks: required, length-limited text (stripped
      first) without NUL characters, which stripping never removes, and
      `MinValueValidator(0)` with the 12-digit limit on the initial balance. */
  predicate AccountFormValid(input: AccountInput) {
    && Strip(input.name) != [] && |Strip(input.name)| <= 100 && '\0' !in input.name
    && Strip(input.currency) != [] && |Strip(input.currency)| <= 3 && '\0' !in input.currency
    && 0 <= input.initial < AmountBound
  }

  /** Everything a new or edited account must satisfy to be stored: the form's
      checks and `unique_together = ("user", "name")`. */
  predicate AccountInputValid(l: Ledger, user: UserId, self: Option<AccountId>, input: AccountInput) {
    AccountFormValid(input) && !NameTaken(l, user, Strip(input.name), self)
  }

  /** The errors of one required, length-limited `CharField` of the form.
      Stripping removes only whitespace, so the NUL test reads the raw value
      (`Text.StripKeepsNonSpace`). */
  function TextFieldErrors(raw: string, limit: nat, blank: AccountError, long: AccountError, nul: AccountError): (errs: seq<AccountError>)
    ensures errs == [] <==> Strip(raw) != [] && |Strip(raw)| <= limit && '\0' !in raw
    ensures Strip(raw) == [] ==> blank in errs
    ensures forall e :: e in errs ==> e == blank || e == long || e == nul
  {
    var s := Strip(raw);
    (if s == [] then [blank] else [])
    + (if |s| > limit then [long] else [])
    + (if '\0' in raw then [nul] else [])
  }

  /** The form's errors. The uniqueness of the name is not among them:
      `user` is not a field of the form, so `validate_unique` skips the
      `unique_together` check that names it. */
  function AccountErrors(input: AccountInput): (errs: seq<AccountError>)
    ensures errs == [] <==> AccountFormValid(input)
    ensures Strip(input.name) == [] ==> NameBlank in errs
    ensures input.initial < 0 ==> InitialNegative in errs
    ensures DuplicateName !in errs
  {
    var nameErrs := TextFieldErrors(input.name, 100, NameBlank, NameTooLong, NameHasNull);
    var currencyErrs := TextFieldErrors(input.currency, 3, AccountCurrencyBlank, AccountCurrencyTooLong, CurrencyHasNull);
    var initialErrs := (if input.initial < 0 then [InitialNegative] else []) + (if input.initial >= AmountBound then [InitialTooLarge] else []);
    assert DuplicateName !in nameErrs && DuplicateName !in currencyErrs && DuplicateName !in initialErrs;
    nameErrs + currencyErrs + initialErrs
  }

  /** The ledger with one more account row. */
  function WithAccount(l: Ledger, id: AccountId, acc: Account): (r: Ledger)
    requires id !in l.accounts
    ensures r == l.(accounts := r.accounts)
    ensures r.accounts.Keys == l.accounts.Keys + {id} && r.accounts[id] == acc
    ensures forall a :: a in l.accounts ==> r.accounts[a] == l.accounts[a]
    ensures ReferencesValid(l) ==> ReferencesValid(r)
  {
    l.(accounts := l.accounts[id := acc])
  }

  /** `Account.save` on a new row: the current balance starts at the initial balance. */
  function OpenedAccount(user: UserId, input: AccountInput): (a: Account)
    ensures a.user == user && a.kind == input.kind
    ensures a.current == a.initial == input.initial
  {
    Account(user, Strip(input.name), input.kind, Strip(input.currency), input.initial, input.initial)
  }

  /** Creating an account through `AccountForm`; a name the user already
      has passes the form and is refused by the database at save
      (`IntegrityError`, a server error rather than a form error). */
  function CreateAccount(l: Ledger, id: AccountId, user: UserId, input: AccountInput): (r: Result<Ledger, seq<AccountError>>)
    requires id !in l.accounts
    ensures r.Err? <==> !AccountInputValid(l, user, None, input)
    ensures r == Err([DuplicateName]) <==> AccountFormValid(input) && NameTaken(l, user, Strip(input.name), None)
    ensures r.Ok? ==>
      && r.value == l.(accounts := r.value.accounts)
      && r.value.accounts.Keys == l.accounts.Keys + {id}
      && (forall a :: a in l.accounts ==> r.value.accounts[a] == l.accounts[a])
      && r.value.accounts[id].user == user
      && r.value.accounts[id].current == r.value.accounts[id].initial == input.initial
    ensures r.Ok? && ReferencesValid(l) ==> ReferencesValid(r.value)
  {
    var errs := AccountErrors(input);
    if errs != [] then Err(errs)
    else if NameTaken(l, user, Strip(input.name), None) then Err([DuplicateName])
    else Ok(WithAccount(l, id, OpenedAccount(user, input)))
  }

  /** Editing an account (`AccountForm.save` with an existing row): the current
      balance moves by exactly the change of the initial balance. A clashing
      name is refused at save, as on creation. */
  function EditAccount(l: Ledger, user: UserId, id: AccountId, input: AccountInput): (r: Result<Ledger, seq<AccountError>>)
    ensures id !in l.accounts || l.accounts[id].user != user ==> r == Err([AccountNotFound])
    ensures r.Ok? <==> id in l.accounts && l.accounts[id].user == user && AccountInputValid(l, user, Some(id), input)
    ensures id in l.accounts && l.accounts[id].user == user ==>
      (r == Err([DuplicateName]) <==> AccountFormValid(input) && NameTaken(l, user, Strip(input.name), Some(id)))
    ensures r.Ok? ==> id in l.accounts && r.value == l.(accounts := l.accounts[id := EditedAccount(l.accounts[id], input)])
    ensures r.Ok? && ReferencesValid(l) ==> ReferencesValid(r.value)
  {
    if id !in l.accounts || l.accounts[id].user != user then Err([AccountNotFound])
    else
      var errs := AccountErrors(input);
      if errs != [] then Err(errs)
      else if NameTaken(l, user, Strip(input.name), Some(id)) then Err([DuplicateName])
      else Ok(l.(accounts := l.accounts[id := EditedAccount(l.accounts[id], input)]))
  }

  /** `Account.save` on an existing row: the current balance moves by the
      change of the initial balance. */
  function EditedAccount(original: Account, input: AccountInput): (a: Account)
    ensures a.user == original.user && a.kind == input.kind && a.initial == input.initial
    ensures a.current - a.initial == original.current - original.initial
  {
    var delta := input.initial - original.initial;
    Account(original.user, Strip(input.name), input.kind, Strip(input.currency), input.initial, original.current + delta)
  }

  /** Some transaction is recorded on account `a`. */
  predicate AccountInUse(l: Ledger, a: AccountId) {
    exists k :: k in l.txns && l.txns[k].account == a
  }

  /** `AccountDeleteView.delete`: an account with any transaction is kept. */
  function DeleteAccount(l: Ledger, user: UserId, id: AccountId): (r: Result<Ledger, AccountError>)
    ensures r.Ok? <==> id in l.accounts && l.accounts[id].user == user && !AccountInUse(l, id)
    ensures r.Err? && id in l.accounts && l.accounts[id].user == user ==> r.error == HasTransactions
    ensures r.Ok? ==> r.value == l.(accounts := l.accounts - {id})
    ensures r.Ok? && ReferencesValid(l) ==> ReferencesValid(r.value)
  {
    if id !in l.accounts || l.accounts[id].user != user then Err(AccountNotFound)
    else if AccountInUse(l, id) then Err(HasTransactions)
    else Ok(l.(accounts := l.accounts - {id}))
  }

  lemma CreateAccountPreservesInv(l: Ledger, id: AccountId, user: UserId, input: AccountInput)
    requires id !in l.accounts && Inv(l)
    ensures CreateAccount(l, id, user, input).Ok? ==> Inv(CreateAccount(l, id, user, input).value)
  {
    var r := CreateAccount(l, id, user, input);
    if r.Ok? {
      WithOpenedAccountPreservesInv(l, id, OpenedAccount(user, input));
    }
  }

  /** A new account whose balance equals its opening balance keeps the
      invariant: no transaction refers to it yet. */
  lemma WithOpenedAccountPreservesInv(l: Ledger, id: AccountId, acc: Account)
    requires id !in l.accounts && Inv(l) && acc.current == acc.initial
    ensures Inv(WithAccount(l, id, acc))
  {
    var l1 := WithAccount(l, id, acc);
    assert l1.txns == l.txns && l1.categories == l.categories;
    assert AccountTotal(l1, id) == 0 by {
      forall k | k in l.txns ensures Contribution(l.categories, id)(l.txns[k]) == 0 {
      }
      SumZero(l.txns, Contribution(l.categories, id));
    }
    forall a | a in l1.accounts
      ensures l1.accounts[a].current == l1.accounts[a].initial + AccountTotal(l1, a)
    {
      if a != id {
        assert AccountTotal(l1, a) == AccountTotal(l, a);
      }
    }
  }

  lemma EditAccountPreservesInv(l: Ledger, user: UserId, id: AccountId, input: AccountInput)
    requires Inv(l)
    ensures EditAccount(l, user, id, input).Ok? ==> Inv(EditAccount(l, user, id, input).value)
  {
    var r := EditAccount(l, user, id, input);
    if r.Ok? {
      var l1 := r.value;
      forall a | a in l1.accounts
        ensures l1.accounts[a].current == l1.accounts[a].initial + AccountTotal(l1, a)
      {
        assert AccountTotal(l1, a) == AccountTotal(l, a);
      }
    }
  }

  lemma DeleteAccountPreservesInv(l: Ledger, user: UserId, id: AccountId)
    requires Inv(l)
    ensures DeleteAccount(l, user, id).Ok? ==> Inv(DeleteAccount(l, user, id).value)
  {
    var r := DeleteAccount(l, user, id);
    if r.Ok? {
      var l1 := r.value;
      forall a | a in l1.accounts
        ensures l1.accounts[a].current == l1.accounts[a].initial + AccountTotal(l1, a)
      {
        assert AccountTotal(l1, a) == AccountTotal(l, a);
      }
    }
  }

  // ---------------------------------------------------------------------
  // Categories (`Category.clean`, `CategoryForm`, the delete guard)
  // ---------------------------------------------------------------------

  datatype CategoryError =
    | CategoryNameBlank | CategoryNameTooLong | CategoryNameHasNull
    | ParentUnknown | ParentOfOtherUser | ParentTypeDiffers
    | DuplicateCategory | CategoryNotFound | HasChildren | LinkedToTransactions
    | TypeChangeWithTransactions

  datatype CategoryInput = CategoryInput(name: string, kind: CategoryType, parent: Option<CategoryId>)

  /** `Category.clean` on an instance whose owner is `owner`: a parent must
      exist, belong to that owner and have the same type. */
  function CategoryClean(l: Ledger, owner: Option<UserId>, kind: CategoryType, parent: Option<CategoryId>): (r: Option<CategoryError>)
    ensures r.None? <==>
      (parent.Some? ==>
         parent.value in l.categories && owner == Some(l.categories[parent.value].user) && l.categories[parent.value].kind == kind)
    ensures owner.None? && parent.Some? && parent.value in l.categories ==> r == Some(ParentOfOtherUser)
  {
    if parent.None? then None
    else if parent.value !in l.categories then Some(ParentUnknown)
    else if owner != Some(l.categories[parent.value].user) then Some(ParentOfOtherUser)
    else if l.categories[parent.value].kind != kind then Some(ParentTypeDiffers)
    else None
  }

  /** `unique_together = ("user", "name", "parent")`: a NULL parent never
      conflicts, so only categories under the same parent are compared. */
  predicate CategoryNameTaken(l: Ledger, user: UserId, name: string, parent: Option<CategoryId>, self: Option<CategoryId>) {
    parent.Some? &&
    exists k :: k in l.categories && Some(k) != self && l.categories[k].user == user
      && l.categories[k].name == name && l.categories[k].parent == parent
  }

  /** What `CategoryForm` reports for an instance whose owner is `owner`: the
      name field, then `Category.clean`. The `unique_together` check is
      skipped because `user` is not a field of the form. */
  function CategoryErrors(l: Ledger, owner: Option<UserId>, input: CategoryInput): (errs: seq<CategoryError>)
    ensures errs == [] <==>
      && Strip(input.name) != [] && |Strip(input.name)| <= 120 && '\0' !in input.name
      && CategoryClean(l, owner, input.kind, input.parent).None?
    ensures DuplicateCategory !in errs
  {
    var name := Strip(input.name);
    (if name == [] then [CategoryNameBlank] else [])
    + (if |name| > 120 then [CategoryNameTooLong] else [])
    + (if '\0' in input.name then [CategoryNameHasNull] else [])
    + (match CategoryClean(l, owner, input.kind, input.parent) case Some(e) => [e] case None => [])
  }

  /** `CategoryCreateView`: the form validates the new category against the
      owner it carries at that point, then the row is saved with the user; a
      name taken under the same parent is refused by the database at save
      (`IntegrityError`, a server error). As written no parent can pass. */
  function CreateCategory(rules: Rules, l: Ledger, id: CategoryId, user: UserId, input: CategoryInput): (r: Result<Ledger, seq<CategoryError>>)
    requires id !in l.categories
    ensures r.Ok? <==>
      && CategoryErrors(l, ValidationOwner(rules, user), input) == []
      && !CategoryNameTaken(l, user, Strip(input.name), input.parent, None)
    ensures r == Err([DuplicateCategory]) <==>
      CategoryErrors(l, ValidationOwner(rules, user), input) == [] && CategoryNameTaken(l, user, Strip(input.name), input.parent, None)
    ensures rules == AsWritten && input.parent.Some? && input.parent.value in l.categories ==>
      r.Err? && ParentOfOtherUser in r.error
    ensures r.Ok? ==>
      && r.value == l.(categories := r.value.categories)
      && r.value.categories == l.categories[id := Category(user, Strip(input.name), input.kind, input.parent)]
    ensures r.Ok? && ReferencesValid(l) ==> ReferencesValid(r.value)
  {
    var name := Strip(input.name);
    var errs := CategoryErrors(l, ValidationOwner(rules, user), input);
    if errs != [] then Err(errs)
    else if CategoryNameTaken(l, user, name, input.parent, None) then Err([DuplicateCategory])
    else Ok(l.(categories := l.categories[id := Category(user, name, input.kind, input.parent)]))
  }

  /** A sub-category of one of the user's own categories, of the same type:
      the program refuses to create it, the corrected order accepts it. */
  lemma SubcategoryRefusedAsWritten(l: Ledger, id: CategoryId, user: UserId, input: CategoryInput)
    requires id !in l.categories
    requires input.parent.Some? && input.parent.value in l.categories
    requires l.categories[input.parent.value].user == user && l.categories[input.parent.value].kind == input.kind
    requires Strip(input.name) != [] && |Strip(input.name)| <= 120 && '\0' !in input.name
    requires !CategoryNameTaken(l, user, Strip(input.name), input.parent, None)
    ensures CreateCategory(AsWritten, l, id, user, input) == Err([ParentOfOtherUser])
    ensures CreateCategory(Corrected, l, id, user, input).Ok?
  {
    assert CategoryClean(l, None, input.kind, input.parent) == Some(ParentOfOtherUser);
    assert CategoryErrors(l, None, input) == [ParentOfOtherUser];
    assert CategoryErrors(l, Some(user), input) == [];
  }

  /** Some transaction points at category `c`. */
  predicate CategoryInUse(l: Ledger, c: CategoryId) {
    exists k :: k in l.txns && l.txns[k].category == Some(c)
  }

  /** Some other category has `c` as its parent. */
  predicate HasChildCategories(l: Ledger, c: CategoryId) {
    exists k :: k in l.categories && l.categories[k].parent == Some(c)
  }

  /** Editing a category as `CategoryForm` does: only `Category.clean` guards it,
      so an expense category may become an income category (or back) while
      transactions point at it, and no balance is touched. */
  function EditCategoryAsWritten(l: Ledger, user: UserId, id: CategoryId, input: CategoryInput): (r: Result<Ledger, seq<CategoryError>>)
    ensures id !in l.categories || l.categories[id].user != user ==> r == Err([CategoryNotFound])
    ensures r.Ok? <==>
      && id in l.categories && l.categories[id].user == user
      && CategoryErrors(l, Some(user), input) == []
      && !CategoryNameTaken(l, user, Strip(input.name), input.parent, Some(id))
    ensures r.Ok? ==> r.value == l.(categories := l.categories[id := Category(user, Strip(input.name), input.kind, input.parent)])
  {
    if id !in l.categories || l.categories[id].user != user then Err([CategoryNotFound])
    else
      var name := Strip(input.name);
      var errs := CategoryErrors(l, Some(user), input);
      if errs != [] then Err(errs)
      else if CategoryNameTaken(l, user, name, input.parent, Some(id)) then Err([DuplicateCategory])
      else Ok(l.(categories := l.categories[id := Category(user, name, input.kind, input.parent)]))
  }

  /** The category edit with the balance invariant in mind: a change of type is
      refused while transactions point at the category. */
  function EditCategory(l: Ledger, user: UserId, id: CategoryId, input: CategoryInput): (r: Result<Ledger, seq<CategoryError>>)
    ensures id !in l.categories || l.categories[id].user != user ==> r == Err([CategoryNotFound])
    ensures r.Ok? <==>
      && id in l.categories && l.categories[id].user == user
      && CategoryErrors(l, Some(user), input) == []
      && !CategoryNameTaken(l, user, Strip(input.name), input.parent, Some(id))
      && (input.kind != l.categories[id].kind ==> !CategoryInUse(l, id))
    ensures r.Ok? ==> r.value == l.(categories := l.categories[id := Category(user, Strip(input.name), input.kind, input.parent)])
  {
    if id in l.categories && l.categories[id].user == user && input.kind != l.categories[id].kind && CategoryInUse(l, id) then
      Err([TypeChangeWithTransactions])
    else EditCategoryAsWritten(l, user, id, input)
  }

  /** `CategoryDeleteView.delete`: a category with sub-categories or with
      transactions is kept; budgets that targeted it lose their category
      (`on_delete=SET_NULL`). */
  function DeleteCategory(l: Ledger, user: UserId, id: CategoryId): (r: Result<Ledger, CategoryError>)
    ensures r.Ok? <==>
      id in l.categories && l.categories[id].user == user && !HasChildCategories(l, id) && !CategoryInUse(l, id)
    ensures r.Err? && id in l.categories && l.categories[id].user == user ==>
      r.error == (if HasChildCategories(l, id) then HasChildren else LinkedToTransactions)
    ensures r.Ok? ==>
      && r.value.categories == l.categories - {id}
      && r.value.accounts == l.accounts && r.value.txns == l.txns
      && r.value.budgets.Keys == l.budgets.Keys
      && (forall b :: b in l.budgets ==>
            r.value.budgets[b] == (if l.budgets[b].category == Some(id) then l.budgets[b].(category := None) else l.budgets[b]))
    ensures r.Ok? && ReferencesValid(l) ==> ReferencesValid(r.value)
  {
    if id !in l.categories || l.categories[id].user != user then Err(CategoryNotFound)
    else if HasChildCategories(l, id) then Err(HasChildren)
    else if CategoryInUse(l, id) then Err(LinkedToTransactions)
    else
      var budgets := map b | b in l.budgets ::
        if l.budgets[b].category == Some(id) then l.budgets[b].(category := None) else l.budgets[b];
      Ok(l.(categories := l.categories - {id}, budgets := budgets))
  }

  /** When no transaction's category type changes, no account total changes. */
  lemma TotalsUnchanged(l: Ledger, l1: Ledger, a: AccountId)
    requires l1.txns == l.txns
    requires forall k :: k in l.txns ==> KindOf(l1.categories, l.txns[k].category) == KindOf(l.categories, l.txns[k].category)
    ensures AccountTotal(l1, a) == AccountTotal(l, a)
  {
    forall k | k in l.txns
      ensures Contribution(l1.categories, a)(l.txns[k]) == Contribution(l.categories, a)(l.txns[k])
    {
    }
    SumCongruent(l.txns, Contribution(l1.categories, a), Contribution(l.categories, a));
  }

  lemma CreateCategoryPreservesInv(rules: Rules, l: Ledger, id: CategoryId, user: UserId, input: CategoryInput)
    requires id !in l.categories && Inv(l)
    ensures CreateCategory(rules, l, id, user, input).Ok? ==> Inv(CreateCategory(rules, l, id, user, input).value)
  {
    var r := CreateCategory(rules, l, id, user, input);
    if r.Ok? {
      CreateCategoryOnlyAdds(rules, l, id, user, input);
      ExtraCategoryPreservesInv(l, r.value);
    }
  }

  /** A created category is one more row: every other part of the ledger and
      every existing category stay as they were. */
  lemma CreateCategoryOnlyAdds(rules: Rules, l: Ledger, id: CategoryId, user: UserId, input: CategoryInput)
    requires id !in l.categories && ReferencesValid(l)
    requires CreateCategory(rules, l, id, user, input).Ok?
    ensures var l1 := CreateCategory(rules, l, id, user, input).value;
      && ReferencesValid(l1)
      && l1 == l.(categories := l1.categories)
      && (forall c :: c in l.categories ==> c in l1.categories && l1.categories[c] == l.categories[c])
  {
  }

  /** Adding category rows, with every existing row kept, changes no kind
      that a transaction sees and so keeps the invariant. */
  lemma ExtraCategoryPreservesInv(l: Ledger, l1: Ledger)
    requires Inv(l) && ReferencesValid(l1)
    requires l1 == l.(categories := l1.categories)
    requires forall c :: c in l.categories ==> c in l1.categories && l1.categories[c] == l.categories[c]
    ensures Inv(l1)
  {
    forall a | a in l1.accounts
      ensures l1.accounts[a].current == l1.accounts[a].initial + AccountTotal(l1, a)
    {
      TotalsUnchanged(l, l1, a);
    }
  }

  lemma EditCategoryPreservesInv(l: Ledger, user: UserId, id: CategoryId, input: CategoryInput)
    requires Inv(l)
    ensures EditCategory(l, user, id, input).Ok? ==> Inv(EditCategory(l, user, id, input).value)
  {
    var r := EditCategory(l, user, id, input);
    if r.Ok? {
      forall a | a in r.value.accounts {
        TotalsUnchanged(l, r.value, a);
      }
    }
  }

  lemma DeleteCategoryPreservesInv(l: Ledger, user: UserId, id: CategoryId)
    requires Inv(l)
    ensures DeleteCategory(l, user, id).Ok? ==> Inv(DeleteCategory(l, user, id).value)
  {
    var r := DeleteCategory(l, user, id);
    if r.Ok? {
      forall a | a in r.value.accounts {
        TotalsUnchanged(l, r.value, a);
      }
    }
  }

  /** One checking account opened with 1000.00 that received a 500.00 salary. */
  function SalaryLedger(d: Date): Ledger {
    Ledger(
      map[1 := Account(7, "Checking", Asset, "USD", 100000, 150000)],
      map[1 := Category(7, "Salary", Income, None)],
      map[1 := Transaction(7, 1, Some(1), d, 50000, "USD", "", "", "", false, NoRepeat, None)],
      map[])
  }

  const ToExpense: CategoryInput := CategoryInput("Salary", Expense, None)

  lemma SalaryLedgerConsistent(d: Date)
    ensures Inv(SalaryLedger(d))
  {
    var l := SalaryLedger(d);
    assert l.txns.Keys == {1};
    assert Signed(l.categories, l.txns[1]) == 50000;
    SumSingleton(l.txns, Contribution(l.categories, 1), 1);
  }

  /** The same ledger with the category turned into an expense category. */
  function SalaryAsExpense(d: Date): Ledger {
    SalaryLedger(d).(categories := map[1 := Category(7, "Salary", Expense, None)])
  }

  /** The unguarded edit accepts the change of type. */
  lemma RetypeAccepted(d: Date)
    ensures EditCategoryAsWritten(SalaryLedger(d), 7, 1, ToExpense) == Ok(SalaryAsExpense(d))
  {
    assert IsStripped("Salary") && '\0' !in "Salary";
    TopLevelEditAccepted(SalaryLedger(d), 7, 1, "Salary", Expense);
    assert SalaryLedger(d).categories[1 := Category(7, "Salary", Expense, None)] == SalaryAsExpense(d).categories;
  }

  /** Editing one of the user's categories into a top-level one with a
      valid name passes `CategoryForm`, whatever its type was. */
  lemma TopLevelEditAccepted(l: Ledger, user: UserId, id: CategoryId, name: string, kind: CategoryType)
    requires id in l.categories && l.categories[id].user == user
    requires IsStripped(name) && name != [] && |name| <= 120 && '\0' !in name
    ensures EditCategoryAsWritten(l, user, id, CategoryInput(name, kind, None))
      == Ok(l.(categories := l.categories[id := Category(user, name, kind, None)]))
  {
    StripOfStripped(name);
  }

  /** After the change the single income counts as an expense. */
  lemma SalaryAsExpenseUnbalanced(d: Date)
    ensures !BalancesConsistent(SalaryAsExpense(d))
  {
    var l1 := SalaryAsExpense(d);
    assert l1.txns.Keys == {1};
    assert Signed(l1.categories, l1.txns[1]) == -50000;
    SumSingleton(l1.txns, Contribution(l1.categories, 1), 1);
  }

  /** Re-typing a category that a transaction uses breaks the balance invariant:
      1000.00 opening balance plus a 500.00 income gives 1500.00; turning the
      income category into an expense category makes the transactions sum to
      -500.00 while the balance stays 1500.00. */
  lemma RetypingCategoryBreaksBalances(d: Date)
    ensures Inv(SalaryLedger(d))
    ensures EditCategoryAsWritten(SalaryLedger(d), 7, 1, ToExpense).Ok?
    ensures !BalancesConsistent(EditCategoryAsWritten(SalaryLedger(d), 7, 1, ToExpense).value)
  {
    SalaryLedgerConsistent(d);
    RetypeAccepted(d);
    SalaryAsExpenseUnbalanced(d);
  }

  /** The guarded edit refuses the same change. */
  lemma RetypingCategoryRefused(d: Date)
    ensures EditCategory(SalaryLedger(d), 7, 1, ToExpense) == Err([TypeChangeWithTransactions])
  {
    var l := SalaryLedger(d);
    assert l.txns[1].category == Some(1);
  }

  // ---------------------------------------------------------------------
  // Every sequence of operations keeps the invariant
  // ---------------------------------------------------------------------

  datatype Op =
    | SaveNew(txn: TxnId, t: Transaction)
    | Submit(txn: TxnId, user: UserId, t: Transaction)
    | SaveExisting(txn: TxnId, t: Transaction)
    | Remove(txn: TxnId)
    | OpenAccount(acct: AccountId, user: UserId, input: AccountInput)
    | ChangeAccount(acct: AccountId, user: UserId, input: AccountInput)
    | CloseAccount(acct: AccountId, user: UserId)
    | AddCategory(cat: CategoryId, user: UserId, cinput: CategoryInput)
    | ChangeCategory(cat: CategoryId, user: UserId, cinput: CategoryInput)
    | DropCategory(cat: CategoryId, user: UserId)

  /** One request against the ledger; a refused request leaves it unchanged.
      `SaveNew` is `Transaction.save` on a new row (as the import calls it),
      `Submit` the create view's form. */
  function Step(rules: Rules, l: Ledger, op: Op): (r: Ledger)
    requires ReferencesValid(l)
    ensures ReferencesValid(r)
  {
    if op.SaveNew? || op.Submit? || op.SaveExisting? || op.Remove? then StepTransaction(rules, l, op)
    else if op.OpenAccount? || op.ChangeAccount? || op.CloseAccount? then StepAccount(l, op)
    else StepCategory(rules, l, op)
  }

  function StepTransaction(rules: Rules, l: Ledger, op: Op): (r: Ledger)
    requires ReferencesValid(l)
    requires op.SaveNew? || op.Submit? || op.SaveExisting? || op.Remove?
    ensures ReferencesValid(r)
  {
    match op
    case SaveNew(id, t) =>
      if id in l.txns then l
      else (match CreateTransaction(rules, l, id, t) case Ok(l1) => l1 case Err(_) => l)
    case Submit(id, user, t) =>
      if id in l.txns then l
      else (match SubmitTransaction(rules, l, id, user, t) case Ok(l1) => l1 case Err(_) => l)
    case SaveExisting(id, t) =>
      if id !in l.txns then l
      else (match UpdateTransaction(rules, l, id, t) case Ok(l1) => l1 case Err(_) => l)
    case Remove(id) =>
      if id !in l.txns then l else DeleteTransaction(l, id)
  }

  function StepAccount(l: Ledger, op: Op): (r: Ledger)
    requires ReferencesValid(l)
    requires op.OpenAccount? || op.ChangeAccount? || op.CloseAccount?
    ensures ReferencesValid(r)
  {
    match op
    case OpenAccount(id, user, input) =>
      if id in l.accounts then l
      else (match CreateAccount(l, id, user, input) case Ok(l1) => l1 case Err(_) => l)
    case ChangeAccount(id, user, input) =>
      (match EditAccount(l, user, id, input) case Ok(l1) => l1 case Err(_) => l)
    case CloseAccount(id, user) =>
      (match DeleteAccount(l, user, id) case Ok(l1) => l1 case Err(_) => l)
  }

  function StepCategory(rules: Rules, l: Ledger, op: Op): (r: Ledger)
    requires ReferencesValid(l)
    requires op.AddCategory? || op.ChangeCategory? || op.DropCategory?
    ensures ReferencesValid(r)
  {
    match op
    case AddCategory(id, user, input) =>
      if id in l.categories then l
      else (match CreateCategory(rules, l, id, user, input) case Ok(l1) => l1 case Err(_) => l)
    case ChangeCategory(id, user, input) =>
      if id !in l.categories then l
      else
        var edited := if rules == AsWritten then EditCategoryAsWritten(l, user, id, input) else EditCategory(l, user, id, input);
        (match edited case Ok(l1) => l1 case Err(_) => l)
    case DropCategory(id, user) =>
      (match DeleteCategory(l, user, id) case Ok(l1) => l1 case Err(_) => l)
  }

  function Run(rules: Rules, l: Ledger, ops: seq<Op>): (r: Ledger)
    requires ReferencesValid(l)
    ensures ReferencesValid(r)
    decreases |ops|
  {
    if ops == [] then l else Run(rules, Step(rules, l, ops[0]), ops[1..])
  }

  /** The request changes the type of a category that transactions use. */
  predicate RetypesUsedCategory(l: Ledger, op: Op) {
    op.ChangeCategory? && op.cat in l.categories && op.cinput.kind != l.categories[op.cat].kind && CategoryInUse(l, op.cat)
  }

  /** Every request keeps the balance invariant under the corrected rules; as
      written, every request except a change of type of a category in use. */
  lemma StepPreservesInv(rules: Rules, l: Ledger, op: Op)
    requires Inv(l)
    requires rules == Corrected || !RetypesUsedCategory(l, op)
    ensures Inv(Step(rules, l, op))
  {
    if op.SaveNew? || op.Submit? || op.SaveExisting? || op.Remove? {
      StepTransactionPreservesInv(rules, l, op);
    } else if op.OpenAccount? || op.ChangeAccount? || op.CloseAccount? {
      StepAccountPreservesInv(l, op);
    } else {
      StepCategoryPreservesInv(rules, l, op);
    }
  }

  lemma StepTransactionPreservesInv(rules: Rules, l: Ledger, op: Op)
    requires Inv(l)
    requires op.SaveNew? || op.Submit? || op.SaveExisting? || op.Remove?
    ensures Inv(StepTransaction(rules, l, op))
  {
    match op
    case SaveNew(id, t) => if id !in l.txns { CreatePreservesInv(rules, l, id, t); }
    case Submit(id, user, t) => if id !in l.txns { CreatePreservesInv(rules, l, id, t.(user := user)); }
    case SaveExisting(id, t) => if id in l.txns { UpdatePreservesInv(rules, l, id, t); }
    case Remove(id) => if id in l.txns { DeletePreservesInv(l, id); }
  }

  lemma StepAccountPreservesInv(l: Ledger, op: Op)
    requires Inv(l)
    requires op.OpenAccount? || op.ChangeAccount? || op.CloseAccount?
    ensures Inv(StepAccount(l, op))
  {
    match op
    case OpenAccount(id, user, input) => if id !in l.accounts { CreateAccountPreservesInv(l, id, user, input); }
    case ChangeAccount(id, user, input) => EditAccountPreservesInv(l, user, id, input);
    case CloseAccount(id, user) => DeleteAccountPreservesInv(l, user, id);
  }

  lemma StepCategoryPreservesInv(rules: Rules, l: Ledger, op: Op)
    requires Inv(l)
    requires op.AddCategory? || op.ChangeCategory? || op.DropCategory?
    requires rules == Corrected || !RetypesUsedCategory(l, op)
    ensures Inv(StepCategory(rules, l, op))
  {
    match op
    case AddCategory(id, user, input) => if id !in l.categories { CreateCategoryPreservesInv(rules, l, id, user, input); }
    case ChangeCategory(id, user, input) =>
      if id in l.categories {
        EditCategoryPreservesInv(l, user, id, input);
        if rules == AsWritten {
          assert EditCategoryAsWritten(l, user, id, input) == EditCategory(l, user, id, input);
        }
      }
    case DropCategory(id, user) => DeleteCategoryPreservesInv(l, user, id);
  }

  /** Whatever requests arrive under the corrected rules, every balance stays
      equal to its initial value plus the signed amounts of the account's
      transactions. */
  lemma {:induction false} RunPreservesInv(l: Ledger, ops: seq<Op>)
    requires Inv(l)
    ensures Inv(Run(Corrected, l, ops))
    decreases |ops|
  {
    if ops != [] {
      StepPreservesInv(Corrected, l, ops[0]);
      RunPreservesInv(Step(Corrected, l, ops[0]), ops[1..]);
    }
  }

  /** The empty ledger satisfies the invariant, so every ledger the corrected
      requests reach does. */
  lemma EmptyLedgerConsistent(ops: seq<Op>)
    ensures Inv(Run(Corrected, Ledger(map[], map[], map[], map[]), ops))
  {
    RunPreservesInv(Ledger(map[], map[], map[], map[]), ops);
  }

  /** Changing "Salary" of `SalaryLedger` into an expense category. */
  const RetypeSalary: Op := ChangeCategory(1, 7, ToExpense)

  /** As written the invariant is not kept: from the consistent
      `SalaryLedger`, the request that changes the type of its used category
      is accepted and leaves a balance that disagrees with its transactions.
      This is exactly the request `StepPreservesInv` excludes. */
  lemma AsWrittenStepBreaksInv(d: Date)
    ensures Inv(SalaryLedger(d)) && RetypesUsedCategory(SalaryLedger(d), RetypeSalary)
    ensures !BalancesConsistent(Step(AsWritten, SalaryLedger(d), RetypeSalary))
  {
    SalaryLedgerConsistent(d);
    SalaryAsExpenseUnbalanced(d);
    assert SalaryLedger(d).txns[1].category == Some(1);
    RetypeSalaryAsWritten(d);
  }

  lemma RetypeSalaryAsWritten(d: Date)
    ensures Step(AsWritten, SalaryLedger(d), RetypeSalary) == SalaryAsExpense(d)
  {
    StepOfCategoryRequest(AsWritten, SalaryLedger(d), RetypeSalary);
    RetypeSalaryCategoryStep(d);
  }

  lemma RetypeSalaryCategoryStep(d: Date)
    ensures StepCategory(AsWritten, SalaryLedger(d), RetypeSalary) == SalaryAsExpense(d)
  {
    SalaryLedgerConsistent(d);
    RetypeAccepted(d);
    ChangeCategoryDispatch(AsWritten, SalaryLedger(d), 1, 7, ToExpense);
  }

  /** A change of a stored category goes through the edit the rules select. */
  lemma ChangeCategoryDispatch(rules: Rules, l: Ledger, id: CategoryId, user: UserId, input: CategoryInput)
    requires ReferencesValid(l) && id in l.categories
    ensures rules == AsWritten && EditCategoryAsWritten(l, user, id, input).Ok? ==>
      StepCategory(rules, l, ChangeCategory(id, user, input)) == EditCategoryAsWritten(l, user, id, input).value
    ensures rules == Corrected && EditCategory(l, user, id, input).Err? ==>
      StepCategory(rules, l, ChangeCategory(id, user, input)) == l
  {
  }

  lemma RetypeSalaryCategoryRefused(d: Date)
    ensures StepCategory(Corrected, SalaryLedger(d), RetypeSalary) == SalaryLedger(d)
  {
    SalaryLedgerConsistent(d);
    RetypingCategoryRefused(d);
    ChangeCategoryDispatch(Corrected, SalaryLedger(d), 1, 7, ToExpense);
  }

  /** A category request is dispatched to `StepCategory`. */
  lemma StepOfCategoryRequest(rules: Rules, l: Ledger, op: Op)
    requires ReferencesValid(l) && (op.AddCategory? || op.ChangeCategory? || op.DropCategory?)
    ensures Step(rules, l, op) == StepCategory(rules, l, op)
  {
  }

  /** Corrected, the same request is refused and the ledger stays as it was. */
  lemma CorrectedStepRefusesRetype(d: Date)
    ensures Step(Corrected, SalaryLedger(d), RetypeSalary) == SalaryLedger(d)
  {
    StepOfCategoryRequest(Corrected, SalaryLedger(d), RetypeSalary);
    RetypeSalaryCategoryRefused(d);
  }

  /** The opening balance 1000.00, a 500.00 income (1500.00), the same
      transaction edited into a 200.00 expense (800.00), then deleted (1000.00). */
  lemma BalanceTrace(d: Date)
    ensures
      var l0 := Ledger(
        map[1 := Account(7, "Checking", Asset, "USD", 100000, 100000)],
        map[1 := Category(7, "Salary", Income, None), 2 := Category(7, "Groceries", Expense, None)],
        map[], map[]);
      var t := Transaction(7, 1, Some(1), d, 50000, "USD", "", "", "", false, NoRepeat, None);
      var r1 := CreateTransaction(AsWritten, l0, 1, t);
      && r1.Ok? && r1.value.accounts[1].current == 150000
      && var r2 := UpdateTransaction(AsWritten, r1.value, 1, t.(category := Some(2), amount := 20000));
      && r2.Ok? && r2.value.accounts[1].current == 80000
      && DeleteTransaction(r2.value, 1).accounts[1].current == 100000
  {
    assert NormalizeCurrency("USD") == "USD";
  }
}
