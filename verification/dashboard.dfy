/**
 * The dashboard's month windows: the `months` query parameter clamped to
 * 1..12, the first day of the window (`_first_day_months_ago`), and the
 * cash-flow series that steps month by month from there, one income and one
 * expense total per month (0 for a month without transactions).
 */
module Dashboard {
  import opened Wrappers
  import opened Dates
  import opened MapSums
  import opened Ledger

  /** The `months` query parameter: absent, an integer, or text `int()` refuses. */
  datatype MonthsParam = Absent | Number(n: int) | NotANumber

  /** `max(1, min(12, int(request.GET.get("months", default))))`, falling back
      to `default` when the text is not an integer. */
  function ClampMonths(p: MonthsParam, default: int): (m: int)
    requires 1 <= default <= 12
    ensures 1 <= m <= 12
    ensures p.Number? && 1 <= p.n <= 12 ==> m == p.n
    ensures p.Number? && p.n < 1 ==> m == 1
    ensures p.Number? && p.n > 12 ==> m == 12
    ensures !p.Number? ==> m == default
  {
    match p
    case Absent => default
    case NotANumber => default
    case Number(n) => if n < 1 then 1 else if n > 12 then 12 else n
  }

  /** Clamping an in-range value changes nothing. */
  lemma ClampMonthsIdempotent(p: MonthsParam, default: int)
    requires 1 <= default <= 12
    ensures ClampMonths(Number(ClampMonths(p, default)), default) == ClampMonths(p, default)
  {
  }

  /** The total of `user`'s transactions of category type `kind` dated in the
      calendar month of `month` (the `TruncMonth` grouping of the cash-flow query). */
  function InMonth(cats: map<CategoryId, Category>, user: UserId, kind: CategoryType, month: Date): Transaction -> int {
    (t: Transaction) =>
      if t.user == user && MonthNumber(t.date) == MonthNumber(month) && KindOf(cats, t.category) == Some(kind)
      then t.amount else 0
  }

  ghost function MonthTotal(l: Ledger, user: UserId, kind: CategoryType, month: Date): int {
    SumOver(l.txns, InMonth(l.categories, user, kind, month))
  }

  /** `dashboard_cashflow_api`: `months` consecutive month starts ending with
      the current month, each with its income and expense totals. Python's
      calendar starts in year 1, so the window must not reach before it. */
  method Cashflow(l: Ledger, user: UserId, today: Date, months: int)
    returns (labels: seq<Date>, incomes: seq<int>, expenses: seq<int>)
    requires Valid(today) && 1 <= months <= 12
    requires MonthNumber(today) - (months - 1) >= 12
    ensures |labels| == |incomes| == |expenses| == months
    ensures forall i :: 0 <= i < months ==> Valid(labels[i]) && labels[i].day == 1
    ensures forall i :: 0 <= i < months ==> MonthNumber(labels[i]) == MonthNumber(today) - (months - 1) + i
    ensures MonthNumber(labels[months - 1]) == MonthNumber(today)
    ensures forall i :: 0 <= i < months ==>
      incomes[i] == MonthTotal(l, user, Income, labels[i]) && expenses[i] == MonthTotal(l, user, Expense, labels[i])
  {
    var start := FirstDayMonthsAgo(today, months - 1);
    labels, incomes, expenses := [], [], [];
    var current := start;
    var k := 0;
    while k < months
      invariant 0 <= k <= months
      invariant |labels| == |incomes| == |expenses| == k
      invariant Valid(current) && current.day == 1
      invariant MonthNumber(current) == MonthNumber(start) + k
      invariant forall i :: 0 <= i < k ==> Valid(labels[i]) && labels[i].day == 1
      invariant forall i :: 0 <= i < k ==> MonthNumber(labels[i]) == MonthNumber(start) + i
      invariant forall i :: 0 <= i < k ==>
        incomes[i] == MonthTotal(l, user, Income, labels[i]) && expenses[i] == MonthTotal(l, user, Expense, labels[i])
    {
      var income := Sum(l.txns, InMonth(l.categories, user, Income, current));
      var expense := Sum(l.txns, InMonth(l.categories, user, Expense, current));
      labels := labels + [current];
      incomes := incomes + [income];
      expenses := expenses + [expense];
      current := NextMonth(current);
      k := k + 1;
    }
  }

  /** A month with no matching transaction shows 0, as the lookup default does. */
  lemma EmptyMonthIsZero(l: Ledger, user: UserId, kind: CategoryType, month: Date)
    requires forall k :: k in l.txns ==> l.txns[k].user != user || MonthNumber(l.txns[k].date) != MonthNumber(month)
    ensures MonthTotal(l, user, kind, month) == 0
  {
    SumZero(l.txns, InMonth(l.categories, user, kind, month));
  }

  /** `dashboard_spending_api`'s window start: the first day of the month
      `months - 1` months back, so the window spans exactly `months` months. */
  method SpendingStart(today: Date, p: MonthsParam) returns (months: int, start: Date)
    requires Valid(today) && MonthNumber(today) >= 23
    ensures 1 <= months <= 12 && months == ClampMonths(p, 1)
    ensures Valid(start) && start.day == 1 && LessEq(start, today)
    ensures MonthNumber(today) - MonthNumber(start) + 1 == months
  {
    months := ClampMonths(p, 1);
    start := FirstDayMonthsAgo(today, months - 1);
  }
}
