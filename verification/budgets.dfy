/**
 * Budgets: `Budget.clean`, the active period (`current_period_range`), the
 * spent total, and the progress row the budget pages show
 * (`get_budget_progress_data`). "Today" is a parameter.
 */
module Budgets {
  import opened Wrappers
  import opened Dates
  import opened MapSums
  import opened Ledger

  datatype BudgetError =
    | BudgetCategoryUnknown
    | BudgetCategoryOfOtherUser
    | BudgetCategoryNotExpense
    | CustomNeedsEnd
    | EndBeforeStart

  /** `Budget.clean` (after the foreign-key check of `clean_fields`): the first
      rule that fails. `owner` is the user id set on the instance when it is
      validated: `None` for a budget being created, whose owner the view only
      assigns after validation, and `Some(b.user)` for one being edited. An
      unset owner never equals the category's owner. */
  function BudgetClean(l: Ledger, owner: Option<UserId>, b: Budget): (r: Option<BudgetError>)
    ensures r.None? <==>
      && (b.category.Some? ==>
            b.category.value in l.categories
            && owner == Some(l.categories[b.category.value].user)
            && l.categories[b.category.value].kind == Expense)
      && (b.period == CustomPeriod ==> b.end.Some? && LessEq(b.start, b.end.value))
  {
    if b.category.Some? && b.category.value !in l.categories then Some(BudgetCategoryUnknown)
    else if b.category.Some? && owner != Some(l.categories[b.category.value].user) then Some(BudgetCategoryOfOtherUser)
    else if b.category.Some? && l.categories[b.category.value].kind != Expense then Some(BudgetCategoryNotExpense)
    else if b.period == CustomPeriod && b.end.None? then Some(CustomNeedsEnd)
    else if b.period == CustomPeriod && Less(b.end.value, b.start) then Some(EndBeforeStart)
    else (LessEqTotal(b.start, b.end.GetOr(b.start)); None)
  }

  /** `current_period_range()`: the whole calendar month or year of `today`,
      or the budget's own dates (a missing end falls back to the start). */
  function PeriodRange(b: Budget, today: Date): (r: (Date, Date))
    requires Valid(today)
    ensures b.period == MonthlyPeriod ==>
      forall d :: Valid(d) ==> (InRange(d, r.0, r.1) <==> d.year == today.year && d.month == today.month)
    ensures b.period == YearlyPeriod ==>
      forall d :: Valid(d) ==> (InRange(d, r.0, r.1) <==> d.year == today.year)
    ensures b.period != CustomPeriod ==> Valid(r.0) && Valid(r.1) && r.0.day == 1
    ensures b.period == CustomPeriod ==> r.0 == b.start && r.1 == (if b.end.Some? then b.end.value else b.start)
  {
    match b.period
    case MonthlyPeriod => (FirstOfMonth(today), LastOfMonth(today))
    case YearlyPeriod => (Date(today.year, 1, 1), Date(today.year, 12, 31))
    case CustomPeriod => (b.start, b.end.GetOr(b.start))
  }

  /** Whether a transaction is counted against a budget whose period is
      `start..end`: the owner's, dated inside the period, on the budget's
      category when it has one, and on an expense category. */
  predicate Counted(cats: map<CategoryId, Category>, b: Budget, start: Date, end: Date, t: Transaction) {
    && t.user == b.user
    && InRange(t.date, start, end)
    && (b.category.Some? ==> t.category == b.category)
    && IsExpense(cats, t)
  }

  function CountedAmount(cats: map<CategoryId, Category>, b: Budget, start: Date, end: Date): Transaction -> int {
    (t: Transaction) => if Counted(cats, b, start, end, t) then t.amount else 0
  }

  /** `spent_amount()`: the sum of the counted amounts (0 when none). */
  ghost function Spent(l: Ledger, b: Budget, today: Date): int
    requires Valid(today)
  {
    var (start, end) := PeriodRange(b, today);
    SumOver(l.txns, CountedAmount(l.categories, b, start, end))
  }

  method SpentAmount(l: Ledger, b: Budget, today: Date) returns (spent: int)
    requires Valid(today)
    ensures spent == Spent(l, b, today)
  {
    var (start, end) := PeriodRange(b, today);
    spent := Sum(l.txns, CountedAmount(l.categories, b, start, end));
  }

  /** Nothing counted, nothing spent; and stored amounts are positive, so the
      total never goes below zero. */
  lemma SpentBounds(l: Ledger, b: Budget, today: Date)
    requires Valid(today)
    requires forall k :: k in l.txns ==> l.txns[k].amount >= 1
    ensures Spent(l, b, today) >= 0
    ensures (forall k :: k in l.txns ==> !Counted(l.categories, b, PeriodRange(b, today).0, PeriodRange(b, today).1, l.txns[k]))
            ==> Spent(l, b, today) == 0
  {
    var (start, end) := PeriodRange(b, today);
    var f := CountedAmount(l.categories, b, start, end);
    SumNonNegative(l.txns, f);
    if forall k :: k in l.txns ==> !Counted(l.categories, b, start, end, l.txns[k]) {
      SumZero(l.txns, f);
    }
  }

  /** `progress_percentage()` in exact arithmetic: 0 for a zero budget, else
      `spent / amount * 100` capped at 999. */
  function Percentage(spent: int, amount: int): (p: real)
    ensures amount == 0 ==> p == 0.0
    ensures amount > 0 && 100 * spent <= 999 * amount ==> p * amount as real == 100.0 * spent as real
    ensures amount > 0 && 100 * spent > 999 * amount ==> p == 999.0
    ensures amount != 0 ==> p <= 999.0
    ensures amount > 0 ==> (p > 100.0 <==> spent > amount)
    ensures amount > 0 && spent >= 0 ==> 0.0 <= p
  {
    if amount == 0 then 0.0
    else
      var x := spent as real / amount as real * 100.0;
      assert amount > 0 ==>
        && x * amount as real == 100.0 * spent as real
        && (x > 100.0 <==> spent > amount)
        && (x < 999.0 <==> 100 * spent < 999 * amount)
        && (x >= 0.0 <==> spent >= 0)
      by {
        if amount > 0 { RatioScale(spent as real, amount as real, x); }
      }
      if x < 999.0 then x else 999.0
  }

  /** `x = s / a * 100` compares with a bound `c` as `100 s` compares with `c a`. */
  lemma RatioScale(s: real, a: real, x: real)
    requires a > 0.0 && x == s / a * 100.0
    ensures x * a == 100.0 * s
    ensures x > 100.0 <==> s > a
    ensures x < 999.0 <==> 100.0 * s < 999.0 * a
    ensures x >= 0.0 <==> s >= 0.0
  {
    assert x * a == 100.0 * s;
    ScaleBelow(100.0, x, a);
    ScaleBelow(x, 999.0, a);
    ScaleBelow(x, 0.0, a);
  }

  /** Multiplying by a positive factor keeps strict order. */
  lemma ScaleBelow(x: real, y: real, a: real)
    requires a > 0.0
    ensures x < y <==> x * a < y * a
  {
    if x < y {
      assert (y - x) * a > 0.0;
    } else {
      assert (x - y) * a >= 0.0;
    }
  }

  /** One entry of `get_budget_progress_data`. */
  datatype Progress = Progress(budget: BudgetId, spent: int, remaining: int, percentage: real, over: bool)

  function Evaluate(id: BudgetId, amount: int, spent: int): (p: Progress)
    ensures p.budget == id && p.spent == spent
    ensures p.remaining + p.spent == amount
    ensures p.over <==> p.remaining < 0
    ensures amount > 0 ==> (p.over <==> p.percentage > 100.0)
  {
    Progress(id, spent, amount - spent, Percentage(spent, amount), spent > amount)
  }

  /** The example of a 200.00 dining budget with one 40.00 dinner: 20 percent used. */
  lemma DiningBudgetExample()
    ensures Evaluate(1, 20000, 4000) == Progress(1, 4000, 16000, 20.0, false)
  {
  }

  /** How many budgets a page shows: `limit` only applies when it is truthy. */
  function Shown(count: nat, limit: Option<nat>): (n: nat)
    ensures n <= count
    ensures limit.None? || limit == Some(0) ==> n == count
    ensures limit.Some? && limit.value > 0 ==> n == if count < limit.value then count else limit.value
  {
    if limit.Some? && limit.value > 0 && limit.value < count then limit.value else count
  }

  /** `get_budget_progress_data(user, limit)`: `order` lists the user's budgets
      by name; one entry per budget, in that order, up to the limit. */
  method BudgetProgressData(l: Ledger, order: seq<BudgetId>, today: Date, limit: Option<nat>) returns (data: seq<Progress>)
    requires Valid(today)
    requires forall i :: 0 <= i < |order| ==> order[i] in l.budgets
    ensures |data| == Shown(|order|, limit)
    ensures forall i :: 0 <= i < |data| ==>
      var b := l.budgets[order[i]];
      data[i] == Evaluate(order[i], b.amount, Spent(l, b, today))
  {
    var n := Shown(|order|, limit);
    data := [];
    var i := 0;
    while i < n
      invariant 0 <= i <= n
      invariant |data| == i
      invariant forall j :: 0 <= j < i ==>
        data[j] == Evaluate(order[j], l.budgets[order[j]].amount, Spent(l, l.budgets[order[j]], today))
    {
      var b := l.budgets[order[i]];
      var spent := SpentAmount(l, b, today);
      data := data + [Evaluate(order[i], b.amount, spent)];
      i := i + 1;
    }
  }
}
